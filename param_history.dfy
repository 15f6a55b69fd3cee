/**
 * The two history files `save_param_obj.py` keeps for a calibration:
 * `calib_search_history.txt`, one row per model run, and
 * `calib_converge_history.txt`, one row each time a new best objective is
 * found. A file is modelled by whether it exists, the parameter names of its
 * header line and its rows.
 */
module ParamHistory {
  import opened Wrappers
  import opened SearchRecords

  datatype Logs = Logs(searchExists: bool, searchNames: seq<string>, search: seq<Record>,
                       convergeExists: bool, convergeNames: seq<string>, converge: seq<Record>)

  /** The state after a run and the exception that ended it early, if any. */
  datatype Saved = Saved(logs: Logs, fault: Option<Fault>)

  /** No history file exists. */
  function NoFiles(): Logs {
    Logs(false, [], [], false, [], [])
  }

  /** The row `n  obj  p_1 … p_dim` written for a run: one value per template name, in template order. */
  function Row(n: int, obj: real, names: seq<string>, sample: seq<real>): (r: Record)
    requires |names| <= |sample|
    ensures r.run == n && r.obj == obj && |r.params| == |names|
    ensures forall i :: 0 <= i < |names| ==> r.params[i] == sample[i]
  {
    Record(n, obj, sample[..|names|])
  }

  /** A cold start (`warm_start == 'no'` at iteration 1) deletes both histories first. */
  predicate ColdStart(warm: string, iteration: int) {
    warm == "no" && iteration == 1
  }

  /**
   * One run of the script with the template read as a list of names, which
   * is what `np.loadtxt(param_tpl_file, dtype='str', ndmin=1)` gives, the
   * indexable values of the sample, and the first value `stat` of the
   * statistics file, whose negation is the objective.
   * Missing files are created with a header and the row numbered 1, and the
   * flag set by creating a file keeps the run from appending to it again;
   * the converge history then takes the row numbered after the search
   * history's row count when the objective is at most the search history's
   * least objective, read before the search history takes the same row.
   * A sample shorter than the template raises IndexError in the first row
   * written, after `ShortRun`'s header and partial row.
   */
  function SaveRows(l: Logs, warm: string, iteration: int, names: seq<string>, sample: seq<real>, stat: real): (r: Saved)
    ensures r.fault.None? <==> |names| <= |sample|
    ensures r.fault.None? ==> r.logs.searchExists && r.logs.convergeExists
  {
    var obj := -stat;
    var l0 := if ColdStart(warm, iteration) then NoFiles() else l;
    if |sample| < |names| then ShortRun(l0, names, sample, obj)
    else
      var first := Row(1, obj, names, sample);
      var convergeFlag := !l0.convergeExists;
      var searchFlag := !l0.searchExists;
      var search := if searchFlag then [first] else l0.search;
      var converge := if convergeFlag then [first] else l0.converge;
      var row := Row(|search| + 1, obj, names, sample);
      var converge' := if !convergeFlag && AtMostMin(obj, Objectives(search)) then converge + [row] else converge;
      var search' := if !searchFlag then search + [row] else search;
      Saved(Logs(true, if searchFlag then names else l0.searchNames, search',
                 true, if convergeFlag then names else l0.convergeNames, converge'),
            None)
  }

  /** The fault of a row written from a sample shorter than the template. */
  const Short := IndexError("index out of bounds")

  /**
   * A run whose sample is shorter than the template, from the histories left
   * after any cold-start deletion. The first row the script writes takes the
   * sample's values and then fails while indexing past them. A missing
   * converge history is created with its header and that partial row numbered
   * 1; otherwise a missing search history is. With both histories present, the
   * partial row numbered after the search history goes to the converge history
   * at a new best and to the search history otherwise. The row's missing
   * newline is not modelled.
   */
  function ShortRun(l: Logs, names: seq<string>, sample: seq<real>, obj: real): (r: Saved)
    requires |sample| < |names|
    ensures r.fault == Some(Short)
  {
    if !l.convergeExists then
      Saved(l.(convergeExists := true, convergeNames := names, converge := [Record(1, obj, sample)]), Some(Short))
    else if !l.searchExists then
      Saved(l.(searchExists := true, searchNames := names, search := [Record(1, obj, sample)]), Some(Short))
    else if AtMostMin(obj, Objectives(l.search)) then
      Saved(l.(converge := l.converge + [Record(|l.search| + 1, obj, sample)]), Some(Short))
    else
      Saved(l.(search := l.search + [Record(|l.search| + 1, obj, sample)]), Some(Short))
  }

  /**
   * The values of `np.loadtxt(param_file)` that indexing reaches: a file
   * holding one value squeezes to a 0-d array, where no index is valid.
   */
  function Indexable(sample: seq<real>): (r: seq<real>)
    ensures |sample| != 1 ==> r == sample
    ensures |sample| == 1 ==> r == []
  {
    if |sample| == 1 then [] else sample
  }

  /**
   * One run as written: `list(np.loadtxt(param_tpl_file, dtype='str'))` of a
   * template holding a single name iterates over a 0-d array and raises
   * TypeError before any history file is touched; otherwise the run goes on
   * with the values of the sample that can be indexed.
   */
  function SaveRun(l: Logs, warm: string, iteration: int, names: seq<string>, sample: seq<real>, stat: real): (r: Saved)
  {
    if |names| == 1 then Saved(l, Some(TypeError("iteration over a 0-d array")))
    else SaveRows(l, warm, iteration, names, Indexable(sample), stat)
  }

  /** The history files as a mutable store, updated step by step as the script does. */
  class History {
    var searchExists: bool
    var searchNames: seq<string>
    var search: seq<Record>
    var convergeExists: bool
    var convergeNames: seq<string>
    var converge: seq<Record>

    function State(): Logs
      reads this
    {
      Logs(searchExists, searchNames, search, convergeExists, convergeNames, converge)
    }

    /** A calibration directory without history files. */
    constructor ()
      ensures State() == NoFiles()
    {
      searchExists, searchNames, search := false, [], [];
      convergeExists, convergeNames, converge := false, [], [];
    }

    /** `save_param_obj.py` from reading the template (line 87) through sections 2 and 3. */
    method Save(warm: string, iteration: int, names: seq<string>, sample: seq<real>, stat: real) returns (fault: Option<Fault>)
      modifies this
      ensures State() == SaveRun(old(State()), warm, iteration, names, sample, stat).logs
      ensures fault == SaveRun(old(State()), warm, iteration, names, sample, stat).fault
    {
      if |names| == 1 {
        return Some(TypeError("iteration over a 0-d array"));
      }
      fault := SaveListed(warm, iteration, names, Indexable(sample), stat);
    }

    /** Sections 2 and 3 once the template has been read as a list of names. */
    method SaveListed(warm: string, iteration: int, names: seq<string>, sample: seq<real>, stat: real) returns (fault: Option<Fault>)
      modifies this
      ensures State() == SaveRows(old(State()), warm, iteration, names, sample, stat).logs
      ensures fault == SaveRows(old(State()), warm, iteration, names, sample, stat).fault
    {
      var obj := -stat;
      if ColdStart(warm, iteration) {
        convergeExists, convergeNames, converge := false, [], [];
        searchExists, searchNames, search := false, [], [];
      }
      assert State() == if ColdStart(warm, iteration) then NoFiles() else old(State());
      var short := |sample| < |names|;
      var convergeFlag := false;
      var searchFlag := false;
      if !convergeExists {
        convergeFlag := true;
        if short {
          convergeExists, convergeNames, converge := true, names, [Record(1, obj, sample)];
          return Some(Short);
        }
        convergeExists, convergeNames, converge := true, names, [Row(1, obj, names, sample)];
      }
      if !searchExists {
        searchFlag := true;
        if short {
          searchExists, searchNames, search := true, names, [Record(1, obj, sample)];
          return Some(Short);
        }
        searchExists, searchNames, search := true, names, [Row(1, obj, names, sample)];
      }
      var previousRunCount := |search|;
      var best := MinObj(Objectives(search));
      if !convergeFlag {
        if best.Some? && obj <= best.value {
          if short {
            converge := converge + [Record(previousRunCount + 1, obj, sample)];
            return Some(Short);
          }
          converge := converge + [Row(previousRunCount + 1, obj, names, sample)];
        }
      }
      if !searchFlag {
        if short {
          search := search + [Record(previousRunCount + 1, obj, sample)];
          return Some(Short);
        }
        search := search + [Row(previousRunCount + 1, obj, names, sample)];
      }
      fault := None;
    }
  }

  // ------------------------------------------------------------ the invariant

  /** Rows numbered 1, 2, … in file order. */
  predicate Numbered(rows: seq<Record>) {
    forall i :: 0 <= i < |rows| ==> rows[i].run == i + 1
  }

  /**
   * The rows of a search history that were new bests when they were run: the
   * first row, and each later row whose objective is at most every earlier one.
   */
  function NewBests(rows: seq<Record>): (r: seq<Record>)
    ensures |r| <= |rows|
    decreases |rows|
  {
    if |rows| == 0 then []
    else
      var init := rows[..|rows| - 1];
      var last := rows[|rows| - 1];
      NewBests(init) + if |init| == 0 || AtMostMin(last.obj, Objectives(init)) then [last] else []
  }

  /** Both histories exist and agree: the converge history holds exactly the new bests of the search history. */
  predicate Consistent(l: Logs) {
    && l.searchExists && l.convergeExists
    && |l.search| >= 1 && Numbered(l.search)
    && l.converge == NewBests(l.search)
    && l.searchNames == l.convergeNames
  }

  /** A run without history files, or a cold start, creates both with the same single row numbered 1. */
  lemma SaveCreates(l: Logs, warm: string, iteration: int, names: seq<string>, sample: seq<real>, stat: real)
    requires ColdStart(warm, iteration) || (!l.searchExists && !l.convergeExists)
    requires |names| <= |sample|
    ensures var r := SaveRows(l, warm, iteration, names, sample, stat);
      && r.fault.None?
      && r.logs.search == [Row(1, -stat, names, sample)] && r.logs.converge == r.logs.search
      && r.logs.searchNames == names && Consistent(r.logs)
  {
    var row := Row(1, -stat, names, sample);
    assert [row][..0] == [];
  }

  /**
   * A run on consistent histories appends exactly one search row, numbered
   * after the previous ones, and appends it to the converge history exactly
   * when its objective is at most every earlier one; the histories stay
   * consistent.
   */
  lemma SavePreserves(l: Logs, warm: string, iteration: int, names: seq<string>, sample: seq<real>, stat: real)
    requires Consistent(l) && !ColdStart(warm, iteration)
    requires |names| <= |sample|
    ensures var r := SaveRows(l, warm, iteration, names, sample, stat);
      var row := Row(|l.search| + 1, -stat, names, sample);
      && r.fault.None?
      && r.logs.search == l.search + [row]
      && (r.logs.converge == l.converge + [row] <==> forall i :: 0 <= i < |l.search| ==> -stat <= l.search[i].obj)
      && (r.logs.converge == l.converge <==> !forall i :: 0 <= i < |l.search| ==> -stat <= l.search[i].obj)
      && Consistent(r.logs)
  {
    var row := Row(|l.search| + 1, -stat, names, sample);
    var s := l.search + [row];
    assert s[..|s| - 1] == l.search;
    AtMostMinIff(-stat, Objectives(l.search));
    assert forall i :: 0 <= i < |l.search| ==> Objectives(l.search)[i] == l.search[i].obj;
  }

  /**
   * The converge history created late: when the search history exists but the
   * converge history does not, the new converge row is numbered 1 whatever the
   * search history holds, while the search row is numbered after it.
   */
  lemma SaveRenumbersLateConverge(l: Logs, warm: string, iteration: int, names: seq<string>, sample: seq<real>, stat: real)
    requires !ColdStart(warm, iteration) && l.searchExists && !l.convergeExists
    requires |names| <= |sample|
    ensures var r := SaveRows(l, warm, iteration, names, sample, stat);
      && r.logs.converge == [Row(1, -stat, names, sample)]
      && r.logs.search == l.search + [Row(|l.search| + 1, -stat, names, sample)]
  {
  }

  /** An existing but empty search history is not a best to beat: the comparison with its NaN minimum fails. */
  lemma SaveEmptySearch(l: Logs, warm: string, iteration: int, names: seq<string>, sample: seq<real>, stat: real)
    requires !ColdStart(warm, iteration) && l.searchExists && l.convergeExists && l.search == []
    requires |names| <= |sample|
    ensures var r := SaveRows(l, warm, iteration, names, sample, stat);
      && r.logs.converge == l.converge
      && r.logs.search == [Row(1, -stat, names, sample)]
  {
  }
  /**
   * The run as written agrees with the list reading except on a one-name
   * template, where it raises TypeError and leaves both histories as they were.
   */
  lemma SaveRunCases(l: Logs, warm: string, iteration: int, names: seq<string>, sample: seq<real>, stat: real)
    ensures |names| != 1 ==> SaveRun(l, warm, iteration, names, sample, stat) == SaveRows(l, warm, iteration, names, Indexable(sample), stat)
    ensures |names| == 1 ==> SaveRun(l, warm, iteration, names, sample, stat) == Saved(l, Some(TypeError("iteration over a 0-d array")))
  {
  }

  /** A one-name template, whose row would fit the sample, stops the run as written but not the list reading. */
  lemma OneNameFails(l: Logs, warm: string, iteration: int, name: string, sample: seq<real>, stat: real)
    requires |sample| >= 1
    ensures SaveRun(l, warm, iteration, [name], sample, stat).fault == Some(TypeError("iteration over a 0-d array"))
    ensures SaveRun(l, warm, iteration, [name], sample, stat).logs == l
    ensures SaveRows(l, warm, iteration, [name], sample, stat).fault.None?
  {
  }

  /**
   * On consistent histories a run with a short sample writes one partial row
   * and raises IndexError: to the converge history alone at a new best, and
   * otherwise to the search history alone.
   */
  lemma SaveShortSample(l: Logs, warm: string, iteration: int, names: seq<string>, sample: seq<real>, stat: real)
    requires Consistent(l) && !ColdStart(warm, iteration)
    requires |sample| < |names|
    ensures var r := SaveRows(l, warm, iteration, names, sample, stat);
      var row := Record(|l.search| + 1, -stat, sample);
      && r.fault == Some(Short)
      && ((forall i :: 0 <= i < |l.search| ==> -stat <= l.search[i].obj) ==>
            r.logs == l.(converge := l.converge + [row]))
      && (!(forall i :: 0 <= i < |l.search| ==> -stat <= l.search[i].obj) ==>
            r.logs == l.(search := l.search + [row]))
  {
    AtMostMinIff(-stat, Objectives(l.search));
    assert forall i :: 0 <= i < |l.search| ==> Objectives(l.search)[i] == l.search[i].obj;
  }

  /**
   * A run as written after the first keeps consistent histories consistent
   * unless it fails at a new best: a sample that does not cover a template of
   * two or more names then leaves a converge row the search history lacks.
   */
  lemma SaveKeepsConsistent(l: Logs, warm: string, iteration: int, names: seq<string>, sample: seq<real>, stat: real)
    requires Consistent(l) && !ColdStart(warm, iteration)
    ensures Consistent(SaveRun(l, warm, iteration, names, sample, stat).logs) <==>
      !(|names| != 1 && |Indexable(sample)| < |names| && forall i :: 0 <= i < |l.search| ==> -stat <= l.search[i].obj)
  {
    if |names| != 1 {
      var v := Indexable(sample);
      if |names| <= |v| {
        SavePreserves(l, warm, iteration, names, v, stat);
      } else {
        SaveShortSample(l, warm, iteration, names, v, stat);
        var row := Record(|l.search| + 1, -stat, v);
        if forall i :: 0 <= i < |l.search| ==> -stat <= l.search[i].obj {
          assert |NewBests(l.search)| < |l.converge + [row]|;
        } else {
          var s := l.search + [row];
          assert s[..|s| - 1] == l.search;
          AtMostMinIff(-stat, Objectives(l.search));
          assert forall i :: 0 <= i < |l.search| ==> Objectives(l.search)[i] == l.search[i].obj;
          assert NewBests(s) == l.converge;
        }
      }
    }
  }



  /** Every new best is a row of the search history whose objective is at most those of all rows before it. */
  lemma NewBestsAreBests(rows: seq<Record>)
    ensures forall x :: x in NewBests(rows) ==>
      exists k :: 0 <= k < |rows| && rows[k] == x && forall j :: 0 <= j < k ==> x.obj <= rows[j].obj
  {
    forall x | x in NewBests(rows)
      ensures exists k :: 0 <= k < |rows| && rows[k] == x && forall j :: 0 <= j < k ==> x.obj <= rows[j].obj
    {
      var k := NewBestIsBest(rows, x);
    }
  }

  /** The position in the search history of one new best. */
  lemma {:induction false} NewBestIsBest(rows: seq<Record>, x: Record) returns (k: nat)
    requires x in NewBests(rows)
    ensures k < |rows| && rows[k] == x && forall j :: 0 <= j < k ==> x.obj <= rows[j].obj
    decreases |rows|
  {
    var init := rows[..|rows| - 1];
    var last := rows[|rows| - 1];
    assert NewBests(rows) == NewBests(init) + if |init| == 0 || AtMostMin(last.obj, Objectives(init)) then [last] else [];
    if x in NewBests(init) {
      k := NewBestIsBest(init, x);
      assert forall j :: 0 <= j < k ==> rows[j] == init[j];
    } else {
      assert x == last && (|init| == 0 || AtMostMin(last.obj, Objectives(init)));
      k := |rows| - 1;
      if |init| > 0 {
        AtMostMinIff(last.obj, Objectives(init));
        forall j | 0 <= j < k ensures x.obj <= rows[j].obj {
          assert Objectives(init)[j] == init[j].obj == rows[j].obj;
        }
      }
    }
  }

  /** Objectives that never increase along the rows. */
  predicate Descending(c: seq<Record>) {
    forall i, j :: 0 <= i < j < |c| ==> c[j].obj <= c[i].obj
  }

  lemma DescendingAppend(c: seq<Record>, x: Record)
    requires Descending(c) && forall i :: 0 <= i < |c| ==> x.obj <= c[i].obj
    ensures Descending(c + [x])
  {
    var d := c + [x];
    forall i, j | 0 <= i < j < |d| ensures d[j].obj <= d[i].obj {
      assert d[i] == c[i];
    }
  }

  /** The converge objectives never increase. */
  lemma {:induction false} NewBestsDescend(rows: seq<Record>)
    ensures Descending(NewBests(rows))
    decreases |rows|
  {
    if |rows| > 0 {
      var init := rows[..|rows| - 1];
      var last := rows[|rows| - 1];
      NewBestsDescend(init);
      var c0 := NewBests(init);
      if |init| > 0 && AtMostMin(last.obj, Objectives(init)) {
        NewBestsAreBests(init);
        AtMostMinIff(last.obj, Objectives(init));
        forall i | 0 <= i < |c0| ensures last.obj <= c0[i].obj {
          assert c0[i] in c0;
          var k :| 0 <= k < |init| && init[k] == c0[i] && forall j :: 0 <= j < k ==> c0[i].obj <= init[j].obj;
          assert Objectives(init)[k] == init[k].obj;
        }
        DescendingAppend(c0, last);
        assert NewBests(rows) == c0 + [last];
      } else if |init| == 0 {
        assert NewBests(rows) == [last];
      } else {
        assert NewBests(rows) == c0 + [];
        assert c0 + [] == c0;
      }
    }
  }

  /** A consistent converge history promises what its name says: non-increasing objectives, each a best so far. */
  lemma ConvergeRecordsBests(l: Logs)
    requires Consistent(l)
    ensures Descending(l.converge)
    ensures forall x :: x in l.converge ==>
      1 <= x.run <= |l.search| && l.search[x.run - 1] == x
      && forall j :: 0 <= j < x.run - 1 ==> x.obj <= l.search[j].obj
  {
    NewBestsDescend(l.search);
    NewBestsAreBests(l.search);
    forall x | x in l.converge
      ensures 1 <= x.run <= |l.search| && l.search[x.run - 1] == x
      ensures forall j :: 0 <= j < x.run - 1 ==> x.obj <= l.search[j].obj
    {
      var k :| 0 <= k < |l.search| && l.search[k] == x && forall j :: 0 <= j < k ==> x.obj <= l.search[j].obj;
      assert x.run == k + 1;
    }
  }
}
