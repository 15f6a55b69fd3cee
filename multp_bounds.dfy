/**
 * `calculate_multp_bounds.py`: the globally constant multiplier bounds of
 * each calibrated SUMMA parameter, derived from the parameter tables
 * (`basinParamInfo.txt`, `localParamInfo.txt`) and the a-priori parameter
 * file. A netCDF variable is modelled by its values, flattened, and `float()`
 * by a parsing function passed in.
 */
module MultpBounds {
  import opened Wrappers
  import opened PyStr
  import opened Dds

  // ----------------------------------------------------------- Fortran numbers

  /** The text `str_to_float` hands to `float()`: a Fortran `d` exponent becomes `e`. */
  function FortranToPython(s: string): (r: string)
    ensures 'd' in s ==> 'd' !in r
    ensures 'd' !in s ==> r == s
  {
    if 'd' in s then
      var parts := Split(s, 'd');
      parts[0] + "e" + parts[1]
    else s
  }

  /** A mantissa and exponent joined by `d` are joined by `e` instead. */
  lemma FortranExponent(mantissa: string, exponent: string)
    requires 'd' !in mantissa && 'd' !in exponent
    ensures FortranToPython(mantissa + "d" + exponent) == mantissa + "e" + exponent
  {
    var s := mantissa + "d" + exponent;
    assert s[|mantissa|] == 'd';
    SplitFirst(mantissa, 'd', exponent);
    SplitNoSeparator(exponent, 'd');
  }

  /** Only the text between the first and second `d` is kept as the exponent. */
  lemma FortranDropsTail(mantissa: string, exponent: string, tail: string)
    requires 'd' !in mantissa && 'd' !in exponent
    ensures FortranToPython(mantissa + "d" + exponent + "d" + tail) == mantissa + "e" + exponent
  {
    var s := mantissa + "d" + exponent + "d" + tail;
    assert s[|mantissa|] == 'd';
    assert s == mantissa + ['d'] + (exponent + ['d'] + tail);
    SplitFirst(mantissa, 'd', exponent + ['d'] + tail);
    SplitFirst(exponent, 'd', tail);
  }

  /** `str_to_float(data_str)`; a text `float()` refuses raises ValueError. */
  function StrToFloat(s: string, parse: string -> Option<real>): (r: Result<real, Fault>)
    ensures r.Ok? <==> parse(FortranToPython(s)).Some?
    ensures r.Ok? ==> r.value == parse(FortranToPython(s)).value
  {
    match parse(FortranToPython(s))
    case None => Err(ValueError("could not convert string to float"))
    case Some(x) => Ok(x)
  }

  // ------------------------------------------------------- parameter tables

  /** The three lists `read_basinParam_localParam` returns. */
  datatype ParamInfo = ParamInfo(names: seq<string>, mins: seq<real>, maxs: seq<real>)

  predicate WellFormed(info: ParamInfo) {
    |info.names| == |info.mins| == |info.maxs|
  }

  /** A line the reader uses: not blank and not a `!` or `'` comment once stripped. */
  predicate IsEntry(line: string) {
    var t := Strip(line);
    t != [] && !StartsWith(t, "!") && !StartsWith(t, "'")
  }

  /** The entry lines of a table, in order. */
  function Entries(lines: seq<string>, keep: string -> bool): (r: seq<string>)
    ensures forall i :: 0 <= i < |r| ==> keep(r[i])
    decreases |lines|
  {
    if |lines| == 0 then []
    else Entries(lines[..|lines| - 1], keep) + if keep(lines[|lines| - 1]) then [lines[|lines| - 1]] else []
  }

  /** One entry line `name | default | min | max | …`: the trimmed name and the parsed limits. */
  function EntryOf(line: string, parse: string -> Option<real>): (r: Result<(string, real, real), Fault>)
    ensures |Split(Strip(line), '|')| < 3 ==> r == Err(IndexError("list index out of range"))
  {
    var splits := Split(Strip(line), '|');
    if |splits| < 3 then Err(IndexError("list index out of range"))
    else
      var lo :- StrToFloat(Strip(splits[2]), parse);
      if |splits| < 4 then Err(IndexError("list index out of range"))
      else
        var hi :- StrToFloat(Strip(splits[3]), parse);
        Ok((Strip(splits[0]), lo, hi))
  }

  /** A table line whose fields are separated by `|` yields its trimmed name and its limits. */
  lemma EntryOfFields(fields: seq<string>, parse: string -> Option<real>, lo: real, hi: real)
    requires |fields| >= 4 && forall i :: 0 <= i < |fields| ==> '|' !in fields[i]
    requires Strip(Join(fields, '|')) == Join(fields, '|')
    requires parse(FortranToPython(Strip(fields[2]))) == Some(lo)
    requires parse(FortranToPython(Strip(fields[3]))) == Some(hi)
    ensures EntryOf(Join(fields, '|'), parse) == Ok((Strip(fields[0]), lo, hi))
  {
    SplitJoin(fields, '|');
  }

  /** The entry parser as a function value. */
  function Entry(parse: string -> Option<real>): string -> Result<(string, real, real), Fault> {
    line => EntryOf(line, parse)
  }

  /** Reading a table with an entry parser: entry lines in order, the first failing one ends the read. */
  function Collect(lines: seq<string>, keep: string -> bool, entry: string -> Result<(string, real, real), Fault>): (r: Result<ParamInfo, Fault>)
    ensures r.Ok? ==> WellFormed(r.value) && |r.value.names| == |Entries(lines, keep)|
    decreases |lines|
  {
    if |lines| == 0 then Ok(ParamInfo([], [], []))
    else
      var info :- Collect(lines[..|lines| - 1], keep, entry);
      var line := lines[|lines| - 1];
      if !keep(line) then Ok(info)
      else
        var e :- entry(line);
        Ok(ParamInfo(info.names + [e.0], info.mins + [e.1], info.maxs + [e.2]))
  }

  /** `read_basinParam_localParam(filename)` over the lines of the table. */
  function ParamInfoOf(lines: seq<string>, parse: string -> Option<real>): (r: Result<ParamInfo, Fault>)
    ensures r.Ok? ==> WellFormed(r.value) && |r.value.names| == |Entries(lines, IsEntry)|
  {
    Collect(lines, IsEntry, Entry(parse))
  }

  /** The `i`-th row of the table. */
  function RowOf(info: ParamInfo, i: nat): (string, real, real)
    requires WellFormed(info) && i < |info.names|
  {
    (info.names[i], info.mins[i], info.maxs[i])
  }

  /** A read succeeds exactly when every entry line parses. */
  lemma {:induction false} CollectOk(lines: seq<string>, keep: string -> bool, entry: string -> Result<(string, real, real), Fault>)
    ensures Collect(lines, keep, entry).Ok? <==> forall i :: 0 <= i < |Entries(lines, keep)| ==> entry(Entries(lines, keep)[i]).Ok?
    decreases |lines|
  {
    if |lines| > 0 {
      var init := lines[..|lines| - 1];
      var last := lines[|lines| - 1];
      CollectOk(init, keep, entry);
      assert Collect(init, keep, entry).Ok? <==> forall i :: 0 <= i < |Entries(init, keep)| ==> entry(Entries(init, keep)[i]).Ok?;
      var es := Entries(lines, keep);
      var e0 := Entries(init, keep);
      if keep(last) {
        assert es == e0 + [last];
        assert es[|e0|] == last;
        assert forall i :: 0 <= i < |e0| ==> es[i] == e0[i];
        if forall i :: 0 <= i < |es| ==> entry(es[i]).Ok? {
          assert forall i :: 0 <= i < |e0| ==> entry(e0[i]).Ok? by {
            forall i | 0 <= i < |e0| ensures entry(e0[i]).Ok? {
              assert es[i] == e0[i];
            }
          }
        }
        if Collect(lines, keep, entry).Ok? {
          assert Collect(init, keep, entry).Ok? && entry(last).Ok?;
          forall i | 0 <= i < |es| ensures entry(es[i]).Ok? {
            if i < |e0| {
              assert es[i] == e0[i];
            } else {
              assert es[i] == last;
            }
          }
        }
      } else {
        assert es == e0;
        assert Collect(lines, keep, entry) == Collect(init, keep, entry);
      }
    }
  }

  /** A successful read holds one row per entry line, in order. */
  lemma {:induction false} CollectRows(lines: seq<string>, keep: string -> bool, entry: string -> Result<(string, real, real), Fault>)
    requires Collect(lines, keep, entry).Ok?
    ensures forall i :: 0 <= i < |Entries(lines, keep)| ==> entry(Entries(lines, keep)[i]) == Ok(RowOf(Collect(lines, keep, entry).value, i))
    decreases |lines|
  {
    if |lines| > 0 {
      var init := lines[..|lines| - 1];
      var last := lines[|lines| - 1];
      var r0 := Collect(init, keep, entry);
      assert r0.Ok?;
      CollectRows(init, keep, entry);
      var es := Entries(lines, keep);
      var e0 := Entries(init, keep);
      var info := Collect(lines, keep, entry).value;
      if keep(last) {
        var e := entry(last).value;
        assert es == e0 + [last];
        assert info == ParamInfo(r0.value.names + [e.0], r0.value.mins + [e.1], r0.value.maxs + [e.2]);
        forall i | 0 <= i < |es| ensures entry(es[i]) == Ok(RowOf(info, i)) {
          if i < |e0| {
            assert es[i] == e0[i];
            assert RowOf(info, i) == RowOf(r0.value, i);
          } else {
            assert es[i] == last;
          }
        }
      } else {
        assert es == e0 + [];
        assert es == e0;
        assert info == r0.value;
      }
    }
  }

  /** Reading one more line after a successful prefix. */
  lemma CollectStep(lines: seq<string>, keep: string -> bool, entry: string -> Result<(string, real, real), Fault>, i: nat, info: ParamInfo)
    requires i < |lines| && Collect(lines[..i], keep, entry) == Ok(info)
    ensures !keep(lines[i]) ==> Collect(lines[..i + 1], keep, entry) == Ok(info)
    ensures keep(lines[i]) && entry(lines[i]).Err? ==> Collect(lines[..i + 1], keep, entry) == Err(entry(lines[i]).error)
    ensures keep(lines[i]) && entry(lines[i]).Ok? ==>
      var e := entry(lines[i]).value;
      Collect(lines[..i + 1], keep, entry) == Ok(ParamInfo(info.names + [e.0], info.mins + [e.1], info.maxs + [e.2]))
  {
    assert lines[..i + 1][..i] == lines[..i];
  }

  /** The first failing prefix decides the error of the whole table. */
  lemma {:induction false} CollectPrefixErr(lines: seq<string>, keep: string -> bool, entry: string -> Result<(string, real, real), Fault>, k: nat)
    requires k <= |lines| && Collect(lines[..k], keep, entry).Err?
    ensures Collect(lines, keep, entry) == Collect(lines[..k], keep, entry)
    decreases |lines| - k
  {
    if k < |lines| {
      assert lines[..k + 1][..k] == lines[..k];
      CollectPrefixErr(lines, keep, entry, k + 1);
    } else {
      assert lines[..k] == lines;
    }
  }

  /**
   * The table reads without error exactly when every entry line parses, and
   * then holds one row per entry line, in order.
   */
  lemma ParamInfoRows(lines: seq<string>, parse: string -> Option<real>)
    ensures ParamInfoOf(lines, parse).Ok? <==> forall i :: 0 <= i < |Entries(lines, IsEntry)| ==> EntryOf(Entries(lines, IsEntry)[i], parse).Ok?
    ensures ParamInfoOf(lines, parse).Ok? ==> forall i :: 0 <= i < |Entries(lines, IsEntry)| ==>
      EntryOf(Entries(lines, IsEntry)[i], parse) == Ok(RowOf(ParamInfoOf(lines, parse).value, i))
  {
    CollectOk(lines, IsEntry, Entry(parse));
    if ParamInfoOf(lines, parse).Ok? {
      CollectRows(lines, IsEntry, Entry(parse));
    }
  }

  /** The reading loop, appending to the three lists as it goes. */
  method ReadParamInfo(lines: seq<string>, parse: string -> Option<real>) returns (r: Result<ParamInfo, Fault>)
    ensures r == ParamInfoOf(lines, parse)
  {
    var names: seq<string> := [];
    var mins: seq<real> := [];
    var maxs: seq<real> := [];
    for i := 0 to |lines|
      invariant Collect(lines[..i], IsEntry, Entry(parse)) == Ok(ParamInfo(names, mins, maxs))
    {
      CollectStep(lines, IsEntry, Entry(parse), i, ParamInfo(names, mins, maxs));
      var line := Strip(lines[i]);
      if line != [] && !StartsWith(line, "!") && !StartsWith(line, "'") {
        var splits := Split(line, '|');
        names := names + [Strip(splits[0])];
        var lo: Result<real, Fault> := Err(IndexError("list index out of range"));
        if |splits| >= 3 {
          lo := StrToFloat(Strip(splits[2]), parse);
        }
        if lo.Err? {
          assert Entry(parse)(lines[i]) == Err(lo.error);
          CollectPrefixErr(lines, IsEntry, Entry(parse), i + 1);
          return Err(lo.error);
        }
        mins := mins + [lo.value];
        var hi: Result<real, Fault> := Err(IndexError("list index out of range"));
        if |splits| >= 4 {
          hi := StrToFloat(Strip(splits[3]), parse);
        }
        if hi.Err? {
          assert Entry(parse)(lines[i]) == Err(hi.error);
          CollectPrefixErr(lines, IsEntry, Entry(parse), i + 1);
          return Err(hi.error);
        }
        assert Entry(parse)(lines[i]) == Ok((Strip(splits[0]), lo.value, hi.value));
        maxs := maxs + [hi.value];
      }
    }
    assert lines[..|lines|] == lines;
    r := Ok(ParamInfo(names, mins, maxs));
  }

  // ------------------------------------------------------------- multipliers

  /** `[x.strip() + '_multp' for x in object_params.split(',')]`. */
  function MultiplierList(objectParams: string): (r: seq<string>)
    ensures var parts := Split(objectParams, ',');
      |r| == |parts| && forall i :: 0 <= i < |parts| ==> r[i] == Strip(parts[i]) + "_multp"
  {
    var parts := Split(objectParams, ',');
    seq(|parts|, i requires 0 <= i < |parts| => Strip(parts[i]) + "_multp")
  }

  /** A comma-separated list of trimmed names gives one multiplier per name, in order. */
  lemma MultiplierListOf(names: seq<string>)
    requires |names| >= 1 && forall i :: 0 <= i < |names| ==> ',' !in names[i] && Strip(names[i]) == names[i]
    ensures MultiplierList(Join(names, ',')) == seq(|names|, i requires 0 <= i < |names| => names[i] + "_multp")
  {
    SplitJoin(names, ',');
  }

  /** `xs.remove(x)`: drops the first `x`; `None` is the ValueError of a missing one. */
  function RemoveFirst(xs: seq<string>, x: string): (r: Option<seq<string>>)
    ensures r.None? <==> x !in xs
    ensures r.Some? ==> var k := IndexOf(xs, x).value; r.value == xs[..k] + xs[k + 1..]
    decreases |xs|
  {
    if |xs| == 0 then None
    else if xs[0] == x then
      assert IndexOf(xs, x) == Some(0);
      assert xs[1..] == xs[..0] + xs[1..];
      Some(xs[1..])
    else
      assert xs == [xs[0]] + xs[1..];
      assert x in xs <==> x in xs[1..];
      match RemoveFirst(xs[1..], x)
      case None => None
      case Some(rest) =>
        var k := IndexOf(xs[1..], x).value;
        assert IndexOf(xs, x) == Some(k + 1);
        DropAfterHead(xs, k);
        Some([xs[0]] + rest)
  }

  /** Dropping index `k` of the tail, then putting the head back, drops index `k + 1`. */
  lemma DropAfterHead<T>(xs: seq<T>, k: nat)
    requires k + 1 < |xs|
    ensures [xs[0]] + (xs[1..][..k] + xs[1..][k + 1..]) == xs[..k + 1] + xs[k + 2..]
  {
    assert xs[..k + 1] == [xs[0]] + xs[1..][..k];
    assert xs[k + 2..] == xs[1..][k + 1..];
  }

  /** Removing a name from a list is unaffected by a different name appended after it. */
  lemma {:induction false} RemoveFirstAppend(xs: seq<string>, x: string, y: string)
    requires x != y
    ensures RemoveFirst(xs + [y], x).None? <==> RemoveFirst(xs, x).None?
    ensures RemoveFirst(xs, x).Some? ==> RemoveFirst(xs + [y], x) == Some(RemoveFirst(xs, x).value + [y])
    decreases |xs|
  {
    var ys := xs + [y];
    if |xs| == 0 {
      assert ys == [y];
    } else {
      assert ys[0] == xs[0] && ys[1..] == xs[1..] + [y];
      RemoveFirstAppend(xs[1..], x, y);
      if xs[0] != x && RemoveFirst(xs[1..], x).Some? {
        var rest := RemoveFirst(xs[1..], x).value;
        assert RemoveFirst(xs, x) == Some([xs[0]] + rest);
        assert RemoveFirst(ys, x) == Some([xs[0]] + (rest + [y]));
        assert [xs[0]] + (rest + [y]) == [xs[0]] + rest + [y];
      }
    }
  }

  /**
   * The multipliers to estimate (lines 103-111): one per object parameter;
   * when `heightCanopyTop` occurs anywhere in the setting text, the first
   * `heightCanopyTop_multp` gives way to `thickness_multp`, appended last, and
   * ValueError is raised when there is none to remove.
   */
  method DeriveMultipliers(objectParams: string) returns (r: Result<seq<string>, Fault>)
    ensures !Contains(objectParams, "heightCanopyTop") ==> r == Ok(MultiplierList(objectParams))
    ensures Contains(objectParams, "heightCanopyTop") ==>
      r == match RemoveFirst(MultiplierList(objectParams), "heightCanopyTop_multp")
           case None => Err(ValueError("list.remove(x): x not in list"))
           case Some(rest) => Ok(rest + ["thickness_multp"])
  {
    var multps := MultiplierList(objectParams);
    if Contains(objectParams, "heightCanopyTop") {
      RemoveFirstAppend(multps, "heightCanopyTop_multp", "thickness_multp");
      multps := multps + ["thickness_multp"];
      var removed := RemoveFirst(multps, "heightCanopyTop_multp");
      if removed.None? {
        return Err(ValueError("list.remove(x): x not in list"));
      }
      multps := removed.value;
    }
    r := Ok(multps);
  }

  /** `multp_name.replace('_multp', '')` recovers the parameter's name. */
  lemma ParamNameOf(name: string)
    requires !Contains(name, "_multp")
    ensures ReplaceAll(name + "_multp", "_multp", "") == name
  {
    var s := name + "_multp";
    assert s == name + "_multp" + [];
    FindAfterBase(name, "_multp", []);
    forall k | OccursAt(s, "_multp", k) ensures k == |name| {
      assert !(k < |name|);
    }
    ReplaceField(s, name, "_multp", [], "");
    assert name + "" + [] == name;
  }

  // ------------------------------------------------------------------ limits

  /** The a-priori parameter file: its variables by name, each flattened. */
  type Dataset = map<string, seq<real>>

  /** `f[name].values`; KeyError for a variable the file lacks. */
  function Variable(data: Dataset, name: string): (r: Result<seq<real>, Fault>)
    ensures r.Ok? <==> name in data
    ensures r.Ok? ==> r.value == data[name]
  {
    if name in data then Ok(data[name]) else Err(KeyError(name))
  }

  /**
   * Whether numpy broadcasts one-dimensional arrays of `m` and `n` cells
   * together: equal sizes, or one of them a single cell.
   */
  predicate Broadcasts(m: nat, n: nat) {
    m == n || m == 1 || n == 1
  }

  /** The number of cells two such arrays combine to: the other size when one holds a single cell. */
  function BroadcastSize(m: nat, n: nat): (r: nat)
    requires Broadcasts(m, n)
    ensures r == m || m == 1
    ensures r == n || n == 1
  {
    if m == 1 then n else m
  }

  /** Cell `i` of an array broadcast over more cells: a single-cell array repeats its one value. */
  function At(a: seq<real>, i: nat): (r: real)
    requires i < |a| || |a| == 1
    ensures i < |a| ==> r == a[i]
    ensures |a| == 1 ==> r == a[0]
  {
    if |a| == 1 then a[0] else a[i]
  }

  /** An array assigned into `n` cells, as numpy assigns it: itself, or its one value repeated. */
  function Spread(a: seq<real>, n: nat): (r: seq<real>)
    requires |a| == n || |a| == 1
    ensures |r| == n && forall i :: 0 <= i < n ==> r[i] == At(a, i)
    ensures |a| == n ==> r == a
  {
    seq(n, i requires 0 <= i < n => At(a, i))
  }

  /**
   * The a-priori values of a parameter (lines 153-158): the variable itself,
   * or for `thickness` the canopy top less the canopy bottom, cell by cell
   * after broadcasting; arrays that do not broadcast raise ValueError.
   */
  function Prior(param: string, data: Dataset): (r: Result<seq<real>, Fault>)
    ensures param != "thickness" ==> r == Variable(data, param)
    ensures param == "thickness" ==>
      (r.Ok? <==> "heightCanopyTop" in data && "heightCanopyBottom" in data &&
                  Broadcasts(|data["heightCanopyTop"]|, |data["heightCanopyBottom"]|))
    ensures r.Ok? && param == "thickness" ==>
      "heightCanopyTop" in data && "heightCanopyBottom" in data &&
      var top := data["heightCanopyTop"];
      var bottom := data["heightCanopyBottom"];
      Broadcasts(|top|, |bottom|) && |r.value| == BroadcastSize(|top|, |bottom|) &&
      forall i :: 0 <= i < |r.value| ==> r.value[i] == At(top, i) - At(bottom, i)
  {
    if param != "thickness" then Variable(data, param)
    else
      var bottom :- Variable(data, "heightCanopyBottom");
      var top :- Variable(data, "heightCanopyTop");
      if !Broadcasts(|top|, |bottom|) then Err(ValueError("operands could not be broadcast together"))
      else
        var n := BroadcastSize(|top|, |bottom|);
        Ok(seq(n, i requires 0 <= i < n => At(top, i) - At(bottom, i)))
  }

  /** `all(param_priori == 0.0)`, true for no cells at all. */
  predicate AllZero(prior: seq<real>) {
    forall i :: 0 <= i < |prior| ==> prior[i] == 0.0
  }

  /** `x * np.ones(shape)`. */
  function Fill(n: nat, x: real): (r: seq<real>)
    ensures |r| == n && forall i :: 0 <= i < n ==> r[i] == x
  {
    seq(n, i => x)
  }

  /** `names.index(x)`: the first position of `x`; `None` is the ValueError of a missing one. */
  function IndexOf(names: seq<string>, x: string): (r: Option<nat>)
    ensures r.None? <==> x !in names
    ensures r.Some? ==> r.value < |names| && names[r.value] == x && x !in names[..r.value]
    decreases |names|
  {
    if |names| == 0 then None
    else if names[0] == x then Some(0)
    else
      match IndexOf(names[1..], x)
      case None => None
      case Some(k) =>
        assert names[..k + 1] == [names[0]] + names[1..][..k];
        Some(k + 1)
  }

  /** The four soil parameters `theta_sat` must stay above. */
  const SoilParams: seq<string> := ["theta_res", "critSoilWilting", "critSoilTranspire", "fieldCapacity"]

  /**
   * The a-priori values of the soil parameters assigned into the layer
   * columns of `nhru` HRUs (lines 188-190): each variable must exist and hold
   * one value per HRU or a single value, which is repeated.
   */
  function Layers(data: Dataset, names: seq<string>, nhru: nat): (r: Result<seq<seq<real>>, Fault>)
    ensures r.Ok? <==>
      forall j :: 0 <= j < |names| ==> names[j] in data && (|data[names[j]]| == nhru || |data[names[j]]| == 1)
    ensures r.Ok? ==> |r.value| == |names| && forall j :: 0 <= j < |names| ==>
      names[j] in data && (|data[names[j]]| == nhru || |data[names[j]]| == 1) &&
      r.value[j] == Spread(data[names[j]], nhru)
    ensures r.Ok? ==> forall j :: 0 <= j < |names| ==> |r.value[j]| == nhru
    decreases |names|
  {
    if |names| == 0 then Ok([])
    else
      var n := |names| - 1;
      assert forall j :: 0 <= j < n ==> names[..n][j] == names[j];
      var init :- Layers(data, names[..n], nhru);
      var layer :- Variable(data, names[n]);
      if |layer| != nhru && |layer| != 1 then Err(ValueError("could not broadcast input array"))
      else Ok(init + [Spread(layer, nhru)])
  }

  /** The largest of some values. */
  function MaxOf(xs: seq<real>): (r: real)
    requires |xs| > 0
    ensures r in xs && forall i :: 0 <= i < |xs| ==> xs[i] <= r
    decreases |xs|
  {
    if |xs| == 1 then xs[0]
    else
      var m := MaxOf(xs[1..]);
      assert forall i :: 1 <= i < |xs| ==> xs[i] == xs[1..][i - 1];
      if xs[0] < m then m else xs[0]
  }

  /** The smallest of some values. */
  function MinOf(xs: seq<real>): (r: real)
    requires |xs| > 0
    ensures r in xs && forall i :: 0 <= i < |xs| ==> r <= xs[i]
    decreases |xs|
  {
    if |xs| == 1 then xs[0]
    else
      var m := MinOf(xs[1..]);
      assert forall i :: 1 <= i < |xs| ==> xs[i] == xs[1..][i - 1];
      if m < xs[0] then m else xs[0]
  }

  /** The values of HRU `h` in every layer. */
  function Column(layers: seq<seq<real>>, h: nat): (r: seq<real>)
    requires forall j :: 0 <= j < |layers| ==> h < |layers[j]|
    ensures |r| == |layers| && forall j :: 0 <= j < |layers| ==> r[j] == layers[j][h]
  {
    seq(|layers|, j requires 0 <= j < |layers| => layers[j][h])
  }

  /**
   * The `theta_sat` lower limit per HRU (lines 180-197): the largest of the
   * soil parameters' a-priori values and the table minimum.
   */
  function ThetaSatMin(layers: seq<seq<real>>, tableMin: real, nhru: nat): (r: seq<real>)
    requires forall j :: 0 <= j < |layers| ==> |layers[j]| == nhru
    ensures |r| == nhru
    ensures forall h :: 0 <= h < nhru ==> tableMin <= r[h] && forall j :: 0 <= j < |layers| ==> layers[j][h] <= r[h]
    ensures forall h :: 0 <= h < nhru ==> r[h] == tableMin || exists j :: 0 <= j < |layers| && r[h] == layers[j][h]
  {
    var r := seq(nhru, h requires 0 <= h < nhru => MaxOf(Column(layers, h) + [tableMin]));
    forall h | 0 <= h < nhru
      ensures tableMin <= r[h] && forall j :: 0 <= j < |layers| ==> layers[j][h] <= r[h]
      ensures r[h] == tableMin || exists j :: 0 <= j < |layers| && r[h] == layers[j][h]
    {
      var c := Column(layers, h) + [tableMin];
      assert c[|layers|] == tableMin;
      assert forall j :: 0 <= j < |layers| ==> c[j] == layers[j][h];
      var m := MaxOf(c);
      var k :| 0 <= k < |c| && c[k] == m;
    }
    r
  }

  /** Lower and upper parameter limits, cell by cell. */
  datatype Limits = Limits(lower: seq<real>, upper: seq<real>)

  /** Every soil parameter is in the dataset, reaches HRU `h`, and there is at most `x`. */
  predicate SoilBelow(data: Dataset, nhru: nat, h: nat, x: real)
    requires h < nhru
  {
    forall j :: 0 <= j < |SoilParams| ==>
      SoilParams[j] in data && (|data[SoilParams[j]]| == nhru || |data[SoilParams[j]]| == 1) &&
      At(data[SoilParams[j]], h) <= x
  }

  /**
   * The `theta_sat` limits over `n` cells from its table row `tableMin` ..
   * `tableMax` (lines 174-197): every soil parameter must be in the dataset
   * with one value per HRU or a single one, and so must the `n` table minima
   * that fill the last layer; the lower limit of each HRU is then raised to
   * its soil parameters' a-priori values, while the upper limit keeps `n`
   * cells.
   */
  function ThetaSatLimits(n: nat, tableMin: real, tableMax: real, data: Dataset, nhru: nat): (r: Result<Limits, Fault>)
    ensures r.Ok? <==> Layers(data, SoilParams, nhru).Ok? && (n == nhru || n == 1)
    ensures r.Ok? ==> r.value.lower == ThetaSatMin(Layers(data, SoilParams, nhru).value, tableMin, nhru)
    ensures r.Ok? ==>
      |r.value.lower| == nhru && r.value.upper == Fill(n, tableMax) &&
      forall h :: 0 <= h < nhru ==> tableMin <= r.value.lower[h] && SoilBelow(data, nhru, h, r.value.lower[h])
  {
    var layers :- Layers(data, SoilParams, nhru);
    if n != nhru && n != 1 then Err(ValueError("could not broadcast input array"))
    else Ok(Limits(ThetaSatMin(layers, tableMin, nhru), Fill(n, tableMax)))
  }

  /**
   * The parameter limits over `n` cells (lines 168-247): the table row of a
   * local (HRU) parameter, `theta_sat` with its raised lower limit, the table
   * row of a basin (GRU) parameter, the given `routingGammaScale` limits, or
   * for `thickness` the differences of the canopy-top and canopy-bottom rows;
   * any other parameter ends the script.
   */
  function ParamLimits(param: string, n: nat, local: ParamInfo, basin: ParamInfo, data: Dataset, nhru: nat,
                       gamma: Limits): (r: Result<Limits, Fault>)
    requires WellFormed(local) && WellFormed(basin)
    ensures param in local.names && param != "theta_sat" ==>
      var k := IndexOf(local.names, param).value;
      r == Ok(Limits(Fill(n, local.mins[k]), Fill(n, local.maxs[k])))
    ensures param in local.names && param == "theta_sat" ==>
      var k := IndexOf(local.names, param).value;
      r == ThetaSatLimits(n, local.mins[k], local.maxs[k], data, nhru)
    ensures param !in local.names && param in basin.names && param != "routingGammaScale" ==>
      var k := IndexOf(basin.names, param).value;
      r == Ok(Limits(Fill(n, basin.mins[k]), Fill(n, basin.maxs[k])))
    ensures param !in local.names && param !in basin.names && param == "thickness" ==>
      (r.Ok? <==> "heightCanopyBottom" in local.names && "heightCanopyTop" in local.names)
    ensures (param !in local.names && param !in basin.names && param == "thickness" &&
             "heightCanopyBottom" in local.names && "heightCanopyTop" in local.names) ==>
      var b := IndexOf(local.names, "heightCanopyBottom").value;
      var t := IndexOf(local.names, "heightCanopyTop").value;
      r == Ok(Limits(Fill(n, local.mins[t] - local.mins[b]), Fill(n, local.maxs[t] - local.maxs[b])))
    ensures param !in local.names && param !in basin.names && param != "thickness" ==> r.Err? && r.error.Exit?
  {
    if param in local.names then
      var k := IndexOf(local.names, param).value;
      if param != "theta_sat" then Ok(Limits(Fill(n, local.mins[k]), Fill(n, local.maxs[k])))
      else
        ThetaSatLimits(n, local.mins[k], local.maxs[k], data, nhru)
    else if param in basin.names then
      var k := IndexOf(basin.names, param).value;
      if param != "routingGammaScale" then Ok(Limits(Fill(n, basin.mins[k]), Fill(n, basin.maxs[k])))
      else Ok(gamma)
    else if param == "thickness" then
      match (IndexOf(local.names, "heightCanopyBottom"), IndexOf(local.names, "heightCanopyTop"))
      case (None, _) => Err(ValueError("'heightCanopyBottom' is not in list"))
      case (_, None) => Err(ValueError("'heightCanopyTop' is not in list"))
      case (Some(b), Some(t)) =>
        Ok(Limits(Fill(n, local.mins[t] - local.mins[b]), Fill(n, local.maxs[t] - local.maxs[b])))
    else Err(Exit("Parameter does not exist in localParam.txt and basinParam.txt"))
  }

  // ------------------------------------------------------- multiplier range

  /** A limit divided by a non-zero a-priori value. */
  function Scaled(bound: real, prior: real): real
    requires prior != 0.0
  {
    bound / prior
  }

  /** Whether an array reaches cells `0 .. n - 1` of a broadcast: it has that many cells, or a single one. */
  predicate Covers(a: seq<real>, n: nat) {
    n <= |a| || |a| == 1
  }

  /**
   * `bound / prior` over the first `n` cells of their broadcast whose
   * a-priori value is not masked (non-zero), in cell order.
   */
  function Ratios(bound: seq<real>, prior: seq<real>, n: nat): (r: seq<real>)
    requires Covers(bound, n) && Covers(prior, n)
    ensures |r| <= n
    ensures forall i :: 0 <= i < n && At(prior, i) != 0.0 ==> Scaled(At(bound, i), At(prior, i)) in r
    decreases n
  {
    if n == 0 then []
    else
      Ratios(bound, prior, n - 1) +
        if At(prior, n - 1) != 0.0 then [Scaled(At(bound, n - 1), At(prior, n - 1))] else []
  }

  /** Every ratio comes from an unmasked cell. */
  lemma {:induction false} RatioOfCell(bound: seq<real>, prior: seq<real>, n: nat, x: real)
    requires Covers(bound, n) && Covers(prior, n) && x in Ratios(bound, prior, n)
    ensures exists i :: 0 <= i < n && At(prior, i) != 0.0 && x == Scaled(At(bound, i), At(prior, i))
    decreases n
  {
    if x in Ratios(bound, prior, n - 1) {
      RatioOfCell(bound, prior, n - 1, x);
    } else {
      assert At(prior, n - 1) != 0.0 && x == Scaled(At(bound, n - 1), At(prior, n - 1));
    }
  }

  /** Every unmasked cell's ratio is at most the largest ratio. */
  lemma MaxBounds(bound: seq<real>, prior: seq<real>, n: nat)
    requires Covers(bound, n) && Covers(prior, n) && |Ratios(bound, prior, n)| > 0
    ensures forall i :: 0 <= i < n && At(prior, i) != 0.0 ==>
      Scaled(At(bound, i), At(prior, i)) <= MaxOf(Ratios(bound, prior, n))
  {
    var xs := Ratios(bound, prior, n);
    forall i | 0 <= i < n && At(prior, i) != 0.0
      ensures Scaled(At(bound, i), At(prior, i)) <= MaxOf(xs)
    {
      var k :| 0 <= k < |xs| && xs[k] == Scaled(At(bound, i), At(prior, i));
    }
  }

  /** Every unmasked cell's ratio is at least the smallest ratio. */
  lemma MinBounds(bound: seq<real>, prior: seq<real>, n: nat)
    requires Covers(bound, n) && Covers(prior, n) && |Ratios(bound, prior, n)| > 0
    ensures forall i :: 0 <= i < n && At(prior, i) != 0.0 ==>
      MinOf(Ratios(bound, prior, n)) <= Scaled(At(bound, i), At(prior, i))
  {
    var xs := Ratios(bound, prior, n);
    forall i | 0 <= i < n && At(prior, i) != 0.0
      ensures MinOf(xs) <= Scaled(At(bound, i), At(prior, i))
    {
      var k :| 0 <= k < |xs| && xs[k] == Scaled(At(bound, i), At(prior, i));
    }
  }

  /** A broadcast over some cells of an a-priori array that is not all zero has an unmasked cell. */
  lemma UnmaskedCell(prior: seq<real>, n: nat)
    requires !AllZero(prior) && 0 < n && (n == |prior| || |prior| == 1)
    ensures exists i :: 0 <= i < n && At(prior, i) != 0.0
  {
    var k :| 0 <= k < |prior| && prior[k] != 0.0;
    if |prior| == 1 {
      assert At(prior, 0) != 0.0;
    } else {
      assert At(prior, k) != 0.0;
    }
  }

  /**
   * Both limits broadcast against the a-priori values, and every unmasked
   * cell of each broadcast, divided by its a-priori value, encloses `lo .. hi`.
   */
  predicate Encloses(prior: seq<real>, lim: Limits, lo: real, hi: real) {
    Broadcasts(|lim.lower|, |prior|) && Broadcasts(|lim.upper|, |prior|) &&
    (forall i :: 0 <= i < BroadcastSize(|lim.lower|, |prior|) && At(prior, i) != 0.0 ==>
       Scaled(At(lim.lower, i), At(prior, i)) <= lo) &&
    (forall i :: 0 <= i < BroadcastSize(|lim.upper|, |prior|) && At(prior, i) != 0.0 ==>
       hi <= Scaled(At(lim.upper, i), At(prior, i)))
  }

  /** Every lower ratio of the range's cells is below every upper ratio. */
  predicate Separated(prior: seq<real>, lim: Limits)
    requires Broadcasts(|lim.lower|, |prior|) && Broadcasts(|lim.upper|, |prior|)
  {
    forall i, j ::
      (0 <= i < BroadcastSize(|lim.lower|, |prior|) && 0 <= j < BroadcastSize(|lim.upper|, |prior|) &&
       At(prior, i) != 0.0 && At(prior, j) != 0.0) ==>
      Scaled(At(lim.lower, i), At(prior, i)) < Scaled(At(lim.upper, j), At(prior, j))
  }

  /** The limits reach some cells of their broadcasts against the a-priori values. */
  predicate Reaches(prior: seq<real>, lim: Limits) {
    Broadcasts(|lim.lower|, |prior|) && Broadcasts(|lim.upper|, |prior|) && |lim.lower| > 0 && |lim.upper| > 0
  }

  /**
   * An enclosing range whose ends are the ratios of cells `i0` and `j0` is
   * non-empty exactly when every lower ratio is below every upper ratio.
   */
  lemma SeparatedIff(prior: seq<real>, lim: Limits, lo: real, hi: real, i0: nat, j0: nat)
    requires Encloses(prior, lim, lo, hi)
    requires i0 < BroadcastSize(|lim.lower|, |prior|) && At(prior, i0) != 0.0 && lo == Scaled(At(lim.lower, i0), At(prior, i0))
    requires j0 < BroadcastSize(|lim.upper|, |prior|) && At(prior, j0) != 0.0 && hi == Scaled(At(lim.upper, j0), At(prior, j0))
    ensures lo < hi <==> Separated(prior, lim)
  {
    if Separated(prior, lim) {
      assert Scaled(At(lim.lower, i0), At(prior, i0)) < Scaled(At(lim.upper, j0), At(prior, j0));
    }
  }

  /** `SeparatedIff` for ends that are some cells' ratios. */
  lemma SeparatedAt(prior: seq<real>, lim: Limits, lo: real, hi: real)
    requires Encloses(prior, lim, lo, hi)
    requires exists i ::
      (0 <= i < BroadcastSize(|lim.lower|, |prior|) && At(prior, i) != 0.0 && lo == Scaled(At(lim.lower, i), At(prior, i)))
    requires exists j ::
      (0 <= j < BroadcastSize(|lim.upper|, |prior|) && At(prior, j) != 0.0 && hi == Scaled(At(lim.upper, j), At(prior, j)))
    ensures lo < hi <==> Separated(prior, lim)
  {
    var i0 :| 0 <= i0 < BroadcastSize(|lim.lower|, |prior|) && At(prior, i0) != 0.0 && lo == Scaled(At(lim.lower, i0), At(prior, i0));
    var j0 :| 0 <= j0 < BroadcastSize(|lim.upper|, |prior|) && At(prior, j0) != 0.0 && hi == Scaled(At(lim.upper, j0), At(prior, j0));
    SeparatedIff(prior, lim, lo, hi, i0, j0);
  }

  /**
   * The largest lower ratio and the smallest upper ratio over the unmasked
   * cells: each is a cell's ratio, together they enclose every cell's ratios,
   * and the first is below the second exactly when every lower ratio is below
   * every upper ratio.
   */
  function Extremes(prior: seq<real>, lim: Limits): (r: (real, real))
    requires !AllZero(prior) && Reaches(prior, lim)
    ensures Encloses(prior, lim, r.0, r.1)
    ensures exists i ::
      (0 <= i < BroadcastSize(|lim.lower|, |prior|) && At(prior, i) != 0.0 && r.0 == Scaled(At(lim.lower, i), At(prior, i)))
    ensures exists i ::
      (0 <= i < BroadcastSize(|lim.upper|, |prior|) && At(prior, i) != 0.0 && r.1 == Scaled(At(lim.upper, i), At(prior, i)))
    ensures r.0 < r.1 <==> Separated(prior, lim)
  {
    var a := BroadcastSize(|lim.lower|, |prior|);
    var b := BroadcastSize(|lim.upper|, |prior|);
    UnmaskedCell(prior, a);
    UnmaskedCell(prior, b);
    var lows := Ratios(lim.lower, prior, a);
    var highs := Ratios(lim.upper, prior, b);
    var lo := MaxOf(lows);
    var hi := MinOf(highs);
    RatioOfCell(lim.lower, prior, a, lo);
    RatioOfCell(lim.upper, prior, b, hi);
    MaxBounds(lim.lower, prior, a);
    MinBounds(lim.upper, prior, b);
    assert Encloses(prior, lim, lo, hi);
    SeparatedAt(prior, lim, lo, hi);
    (lo, hi)
  }

  /**
   * `multp_min = max(param_min / priori)` and `multp_max = min(param_max / priori)`
   * over the unmasked cells of each broadcast (lines 250-256). Limits that do
   * not broadcast against the a-priori values, or broadcast to no cells,
   * raise ValueError; an empty range ends the script.
   */
  function FeasibleRange(prior: seq<real>, lim: Limits): (r: Result<(real, real), Fault>)
    requires !AllZero(prior)
    ensures r.Ok? <==> Reaches(prior, lim) && Separated(prior, lim)
    ensures r.Ok? ==> r.value == Extremes(prior, lim) && r.value.0 < r.value.1
    ensures !Reaches(prior, lim) ==> r.Err? && r.error.ValueError?
    ensures Reaches(prior, lim) && r.Err? ==> r.error.Exit?
  {
    if !Broadcasts(|lim.lower|, |prior|) then Err(ValueError("operands could not be broadcast together"))
    else if |lim.lower| == 0 then Err(ValueError("zero-size array to reduction operation maximum which has no identity"))
    else if !Broadcasts(|lim.upper|, |prior|) then Err(ValueError("operands could not be broadcast together"))
    else if |lim.upper| == 0 then Err(ValueError("zero-size array to reduction operation minimum which has no identity"))
    else
      var (lo, hi) := Extremes(prior, lim);
      if lo >= hi then Err(Exit("multiplier does not have a feasible range"))
      else Ok((lo, hi))
  }

  /** Undoing the division by a positive value. */
  lemma ScaleBack(x: real, p: real, m: real)
    requires p > 0.0
    ensures Scaled(x, p) <= m ==> x <= m * p
    ensures m <= Scaled(x, p) ==> m * p <= x
  {
    var q := x / p;
    assert x == q * p;
    if q <= m {
      assert (m - q) * p >= 0.0;
    }
    if m <= q {
      assert (q - m) * p >= 0.0;
    }
  }

  /**
   * Scaling the a-priori values by any multiplier inside an enclosing range
   * (such as the one `FeasibleRange` returns) keeps every positive cell of
   * each broadcast inside that cell's limit.
   */
  lemma MultiplierRespectsLimits(prior: seq<real>, lim: Limits, lo: real, hi: real, m: real)
    requires Encloses(prior, lim, lo, hi)
    requires lo <= m <= hi
    ensures forall i :: 0 <= i < BroadcastSize(|lim.lower|, |prior|) && At(prior, i) > 0.0 ==>
      At(lim.lower, i) <= m * At(prior, i)
    ensures forall i :: 0 <= i < BroadcastSize(|lim.upper|, |prior|) && At(prior, i) > 0.0 ==>
      m * At(prior, i) <= At(lim.upper, i)
  {
    forall i | 0 <= i < BroadcastSize(|lim.lower|, |prior|) && At(prior, i) > 0.0
      ensures At(lim.lower, i) <= m * At(prior, i)
    {
      ScaleBack(At(lim.lower, i), At(prior, i), m);
    }
    forall i | 0 <= i < BroadcastSize(|lim.upper|, |prior|) && At(prior, i) > 0.0
      ensures m * At(prior, i) <= At(lim.upper, i)
    {
      ScaleBack(At(lim.upper, i), At(prior, i), m);
    }
  }

  /** The initial multiplier (lines 258-264): 1.0 when the range holds it, else the range's midpoint. */
  function Initial(lo: real, hi: real): (r: real)
    ensures lo <= hi ==> lo <= r <= hi
    ensures lo <= hi ==> (r == 1.0 <==> lo <= 1.0 <= hi)
  {
    if hi < 1.0 || lo > 1.0 then (lo + hi) / 2.0 else 1.0
  }

  /** A row for multiplier `name` with a non-empty range holding the initial value. */
  predicate SoundRow(row: ParamBound, name: string) {
    row.name == name && row.lower < row.upper && row.lower <= row.initial <= row.upper
  }

  /** One row of `multiplier_bounds.txt`: the multiplier, its initial value and its range. */
  function MultiplierBound(multp: string, local: ParamInfo, basin: ParamInfo, data: Dataset, nhru: nat,
                           gamma: Limits): (r: Result<ParamBound, Fault>)
    requires WellFormed(local) && WellFormed(basin)
    ensures r.Ok? ==> SoundRow(r.value, multp)
    ensures var p := Prior(ReplaceAll(multp, "_multp", ""), data); p.Ok? && AllZero(p.value) ==> r.Err? && r.error.Exit?
  {
    var param := ReplaceAll(multp, "_multp", "");
    var prior :- Prior(param, data);
    if AllZero(prior) then Err(Exit("a-priori values are all 0.0"))
    else
      var lim :- ParamLimits(param, |prior|, local, basin, data, nhru, gamma);
      var range :- FeasibleRange(prior, lim);
      Ok(ParamBound(multp, Initial(range.0, range.1), range.0, range.1))
  }

  /** The rows for the multipliers, in order; the first failing multiplier ends the script. */
  function BoundsOf(multps: seq<string>, local: ParamInfo, basin: ParamInfo, data: Dataset, nhru: nat,
                    gamma: Limits): (r: Result<seq<ParamBound>, Fault>)
    requires WellFormed(local) && WellFormed(basin)
    ensures r.Ok? ==> |r.value| == |multps| && forall i :: 0 <= i < |multps| ==> SoundRow(r.value[i], multps[i])
    decreases |multps|
  {
    if |multps| == 0 then Ok([])
    else
      var n := |multps| - 1;
      var rows :- BoundsOf(multps[..n], local, basin, data, nhru, gamma);
      var row :- MultiplierBound(multps[n], local, basin, data, nhru, gamma);
      SoundAppend(multps, rows, row);
      Ok(rows + [row])
  }

  /** Rows sound for all but the last multiplier, and a sound row for the last one. */
  lemma SoundAppend(multps: seq<string>, rows: seq<ParamBound>, row: ParamBound)
    requires |multps| == |rows| + 1
    requires forall i :: 0 <= i < |rows| ==> SoundRow(rows[i], multps[..|rows|][i])
    requires SoundRow(row, multps[|rows|])
    ensures forall i :: 0 <= i < |multps| ==> SoundRow((rows + [row])[i], multps[i])
  {
    var all := rows + [row];
    forall i | 0 <= i < |multps| ensures SoundRow(all[i], multps[i]) {
      if i < |rows| {
        assert all[i] == rows[i] && multps[..|rows|][i] == multps[i];
      }
    }
  }

  /** The `for i in range(object_multps_num)` loop building `multp_bounds_list`. */
  method CalculateBounds(multps: seq<string>, local: ParamInfo, basin: ParamInfo, data: Dataset, nhru: nat,
                         gamma: Limits) returns (r: Result<seq<ParamBound>, Fault>)
    requires WellFormed(local) && WellFormed(basin)
    ensures r == BoundsOf(multps, local, basin, data, nhru, gamma)
  {
    var rows: seq<ParamBound> := [];
    for i := 0 to |multps|
      invariant BoundsOf(multps[..i], local, basin, data, nhru, gamma) == Ok(rows)
    {
      BoundsStep(multps, local, basin, data, nhru, gamma, i, rows);
      var row := MultiplierBound(multps[i], local, basin, data, nhru, gamma);
      if row.Err? {
        BoundsPrefixErr(multps, local, basin, data, nhru, gamma, i + 1);
        return Err(row.error);
      }
      rows := rows + [row.value];
    }
    assert multps[..|multps|] == multps;
    r := Ok(rows);
  }

  /** Computing one more row after a successful prefix. */
  lemma BoundsStep(multps: seq<string>, local: ParamInfo, basin: ParamInfo, data: Dataset, nhru: nat,
                   gamma: Limits, i: nat, rows: seq<ParamBound>)
    requires WellFormed(local) && WellFormed(basin)
    requires i < |multps| && BoundsOf(multps[..i], local, basin, data, nhru, gamma) == Ok(rows)
    ensures var row := MultiplierBound(multps[i], local, basin, data, nhru, gamma);
      BoundsOf(multps[..i + 1], local, basin, data, nhru, gamma) == if row.Ok? then Ok(rows + [row.value]) else Err(row.error)
  {
    assert multps[..i + 1][..i] == multps[..i];
  }

  lemma {:induction false} BoundsPrefixErr(multps: seq<string>, local: ParamInfo, basin: ParamInfo, data: Dataset,
                                           nhru: nat, gamma: Limits, k: nat)
    requires WellFormed(local) && WellFormed(basin)
    requires k <= |multps| && BoundsOf(multps[..k], local, basin, data, nhru, gamma).Err?
    ensures BoundsOf(multps, local, basin, data, nhru, gamma) == BoundsOf(multps[..k], local, basin, data, nhru, gamma)
    decreases |multps| - k
  {
    if k < |multps| {
      assert multps[..k + 1][..k] == multps[..k];
      BoundsPrefixErr(multps, local, basin, data, nhru, gamma, k + 1);
    } else {
      assert multps[..k] == multps;
    }
  }

  /** The multiplier template (`multipliers.tpl`) and first multiplier values (`multipliers.txt`). */
  function TemplateNames(rows: seq<ParamBound>): (r: seq<string>)
    ensures |r| == |rows| && forall i :: 0 <= i < |rows| ==> r[i] == rows[i].name
  {
    seq(|rows|, i requires 0 <= i < |rows| => rows[i].name)
  }

  /** The first sample of a calibration is the initial multipliers, each inside its range. */
  lemma FirstSampleInBounds(multps: seq<string>, local: ParamInfo, basin: ParamInfo, data: Dataset, nhru: nat, gamma: Limits)
    requires WellFormed(local) && WellFormed(basin)
    requires BoundsOf(multps, local, basin, data, nhru, gamma).Ok?
    ensures var rows := BoundsOf(multps, local, basin, data, nhru, gamma).value;
      && TemplateNames(rows) == multps && Ordered(rows) && |Initials(rows)| == |multps|
      && forall i :: 0 <= i < |rows| ==> rows[i].lower <= Initials(rows)[i] <= rows[i].upper
  {
    var rows := BoundsOf(multps, local, basin, data, nhru, gamma).value;
    assert forall i :: 0 <= i < |rows| ==> SoundRow(rows[i], multps[i]);
  }
}
