/** The file names the scripts derive from configured names (`split(...)[0]` plus a suffix). */
module FileNames {
  import opened PyStr

  /**
   * The temporary copy of a text file: the text before the first `.txt`
   * followed by `_temp.txt` (generate_priori_trialParam.py and
   * update_model_config_files.py).
   */
  function TempName(path: string): string
  {
    Before(path, ".txt") + "_temp.txt"
  }

  /** The a-priori parameter file: the text before the first `.nc` followed by `.priori.nc`. */
  function PrioriName(path: string): string
  {
    Before(path, ".nc") + ".priori.nc"
  }

  /** A name `base.txt…` gets its temporary copy next to it, as `base_temp.txt`; whatever follows the first `.txt` is dropped. */
  lemma TempNameOf(base: string, rest: string)
    requires !Contains(base, ".txt")
    ensures TempName(base + ".txt" + rest) == base + "_temp.txt"
  {
    FindAfterBase(base, ".txt", rest);
    assert (base + ".txt" + rest)[..|base|] == base;
  }

  /** A name without `.txt` keeps its whole text before `_temp.txt`. */
  lemma TempNameNoExtension(path: string)
    requires !Contains(path, ".txt")
    ensures TempName(path) == path + "_temp.txt"
  {
  }

  /** `base.nc…` becomes `base.priori.nc`. */
  lemma PrioriNameOf(base: string, rest: string)
    requires !Contains(base, ".nc")
    ensures PrioriName(base + ".nc" + rest) == base + ".priori.nc"
  {
    FindAfterBase(base, ".nc", rest);
    assert (base + ".nc" + rest)[..|base|] == base;
  }
}
