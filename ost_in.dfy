/**
 * create_ostIn.py: writes the Ostrich input file `ostIn.txt` from the
 * template `ostIn.tpl`. A first pass over the template finds the anchor
 * lines (the last `EndFilePairs` and the last `EndParams`); a second pass
 * copies every line, stripped, and on the lines that are neither blank nor
 * comments inserts the file pair line and the parameter lines before their
 * anchors, fills in the random seed, the warm-start switch and the iteration
 * budget. Files are sequences of lines; an output line is written without
 * its newline.
 */
module OstIn {
  import opened Wrappers
  import opened PyStr
  import opened ConfigReaders

  // ------------------------------------------------------------- the inputs

  /**
   * What `np.loadtxt(multiplier_bounds.txt, dtype='str', delimiter=',')`
   * returns: a 2-D array of the data rows, except that a file with a single
   * data row comes back as a 1-D array of that row's fields.
   */
  datatype Table = Rows(rows: seq<seq<string>>) | Fields(fields: seq<string>)

  /** `np.loadtxt` as the script calls it, on the data rows (the `#` header is skipped). */
  function LoadText(rows: seq<seq<string>>): (t: Table)
    ensures |rows| == 1 <==> t.Fields?
    ensures t.Fields? ==> t.fields == rows[0]
    ensures t.Rows? ==> t.rows == rows
  {
    if |rows| == 1 then Fields(rows[0]) else Rows(rows)
  }

  /** `np.loadtxt(..., ndmin=2)`: always one array row per data row. */
  function LoadText2D(rows: seq<seq<string>>): (t: Table)
    ensures t.Rows? && t.rows == rows
  {
    Rows(rows)
  }

  /**
   * Everything the rewrite reads besides the template: the control file's
   * lines, the bounds table, the seed text (`str(t_cut)`, which the script
   * derives from the clock), and `'%.7f' % float(x)`, which raises
   * ValueError on text that is not a number.
   */
  datatype Inputs = Inputs(control: seq<string>, bounds: Table, seed: string, fixed7: string -> Result<string, Fault>)

  // -------------------------------------------------------------- anchors

  predicate PairsAnchor(line: string) {
    StartsWith(line, "EndFilePairs")
  }

  /** The `elif`: a line that starts with `EndParams` and is not a pairs anchor. */
  predicate ParamsAnchor(line: string) {
    !PairsAnchor(line) && StartsWith(line, "EndParams")
  }

  /** The index of the last line satisfying `p`. */
  function LastWhere(lines: seq<string>, p: string -> bool): (r: Option<nat>)
    ensures r.Some? ==> r.value < |lines| && p(lines[r.value])
    ensures r.Some? ==> forall j :: r.value < j < |lines| ==> !p(lines[j])
    ensures r.None? ==> forall j :: 0 <= j < |lines| ==> !p(lines[j])
    decreases |lines|
  {
    if |lines| == 0 then None
    else if p(lines[|lines| - 1]) then Some(|lines| - 1)
    else
      var init := lines[..|lines| - 1];
      assert forall j :: 0 <= j < |init| ==> init[j] == lines[j];
      LastWhere(init, p)
  }

  lemma LastWhereStep(lines: seq<string>, p: string -> bool, i: nat)
    requires i < |lines|
    ensures LastWhere(lines[..i + 1], p) == if p(lines[i]) then Some(i) else LastWhere(lines[..i], p)
  {
    assert lines[..i + 1][..i] == lines[..i];
  }

  /** The line numbers the first pass records; `None` is a variable the loop never assigned. */
  datatype Anchors = Anchors(pairs: Option<nat>, params: Option<nat>)

  /** The first pass: the last raw line starting `EndFilePairs` and the last starting `EndParams`. */
  function FindAnchors(lines: seq<string>): Anchors {
    Anchors(LastWhere(lines, PairsAnchor), LastWhere(lines, ParamsAnchor))
  }

  /** The `for number, line in enumerate(src)` loop that records the anchors. */
  method LocateAnchors(lines: seq<string>) returns (a: Anchors)
    ensures a == FindAnchors(lines)
    ensures a.pairs.Some? ==> a.pairs.value < |lines| && PairsAnchor(lines[a.pairs.value])
    ensures a.pairs.Some? ==> forall j :: a.pairs.value < j < |lines| ==> !PairsAnchor(lines[j])
    ensures a.params.Some? ==> a.params.value < |lines| && StartsWith(lines[a.params.value], "EndParams")
    ensures a.params.Some? ==> forall j :: a.params.value < j < |lines| ==> !ParamsAnchor(lines[j])
  {
    var pairs: Option<nat> := None;
    var params: Option<nat> := None;
    var number := 0;
    while number < |lines|
      invariant 0 <= number <= |lines|
      invariant pairs == LastWhere(lines[..number], PairsAnchor)
      invariant params == LastWhere(lines[..number], ParamsAnchor)
    {
      var line := lines[number];
      LastWhereStep(lines, PairsAnchor, number);
      LastWhereStep(lines, ParamsAnchor, number);
      if StartsWith(line, "EndFilePairs") {
        pairs := Some(number);
      } else if StartsWith(line, "EndParams") {
        params := Some(number);
      }
      number := number + 1;
    }
    assert lines[..number] == lines;
    a := Anchors(pairs, params);
  }

  // ------------------------------------------------------ the parameter lines

  /**
   * One `BeginParams` entry, built from a bounds row: the name, the initial
   * value as read, the limits as `%.7f`, then `none none none free`, joined
   * by tabs. A row of fewer than four fields raises IndexError.
   */
  function ParamLine(row: seq<string>, fixed7: string -> Result<string, Fault>): (r: Result<string, Fault>)
    ensures r.Ok? <==> |row| >= 4 && fixed7(row[2]).Ok? && fixed7(row[3]).Ok?
  {
    if |row| < 4 then Err(IndexError("index out of bounds"))
    else
      match fixed7(row[2])
      case Err(e) => Err(e)
      case Ok(lo) =>
        match fixed7(row[3])
        case Err(e) => Err(e)
        case Ok(hi) => Ok(Join([row[0], row[1], lo, hi, "none", "none", "none", "free"], '\t'))
  }

  /** The columns Ostrich reads back from a parameter line are the row's name, initial value and formatted limits. */
  lemma ParamLineFields(row: seq<string>, fixed7: string -> Result<string, Fault>)
    requires |row| >= 4 && fixed7(row[2]).Ok? && fixed7(row[3]).Ok?
    requires '\t' !in row[0] && '\t' !in row[1] && '\t' !in fixed7(row[2]).value && '\t' !in fixed7(row[3]).value
    ensures Split(ParamLine(row, fixed7).value, '\t')
         == [row[0], row[1], fixed7(row[2]).value, fixed7(row[3]).value, "none", "none", "none", "free"]
  {
    var parts := [row[0], row[1], fixed7(row[2]).value, fixed7(row[3]).value, "none", "none", "none", "free"];
    assert forall i :: 4 <= i < |parts| ==> '\t' !in parts[i] by {
      assert parts[4] == "none" && parts[7] == "free";
    }
    SplitJoin(parts, '\t');
  }

  /**
   * Applies `emit` to each element with its index, in order; the first
   * element whose result is an error ends the run with that error.
   */
  function EmitLines<S, T>(xs: seq<S>, emit: (nat, S) -> Result<T, Fault>): (r: Result<seq<T>, Fault>)
    ensures r.Ok? ==> |r.value| == |xs|
    decreases |xs|
  {
    if |xs| == 0 then Ok([])
    else
      match EmitLines(xs[..|xs| - 1], emit)
      case Err(e) => Err(e)
      case Ok(done) =>
        match emit(|xs| - 1, xs[|xs| - 1])
        case Err(e) => Err(e)
        case Ok(x) => Ok(done + [x])
  }

  /** The run succeeds exactly when every element does, keeps their results in order, and otherwise fails with the first error. */
  lemma {:induction false} EmitLinesSpec<S, T>(xs: seq<S>, emit: (nat, S) -> Result<T, Fault>)
    ensures EmitLines(xs, emit).Ok? <==> forall i :: 0 <= i < |xs| ==> emit(i, xs[i]).Ok?
    ensures EmitLines(xs, emit).Ok? ==> forall i :: 0 <= i < |xs| ==> emit(i, xs[i]) == Ok(EmitLines(xs, emit).value[i])
    ensures forall i :: 0 <= i < |xs| && emit(i, xs[i]).Err? && (forall j :: 0 <= j < i ==> emit(j, xs[j]).Ok?) ==>
      EmitLines(xs, emit) == Err(emit(i, xs[i]).error)
    decreases |xs|
  {
    if |xs| > 0 {
      var n := |xs| - 1;
      var init := xs[..n];
      EmitLinesSpec(init, emit);
      assert forall i :: 0 <= i < n ==> init[i] == xs[i];
      var r0 := EmitLines(init, emit);
      assert r0.Ok? <==> forall i :: 0 <= i < n ==> emit(i, init[i]).Ok?;
      if r0.Ok? {
        assert forall i :: 0 <= i < n ==> emit(i, xs[i]) == Ok(r0.value[i]);
        if emit(n, xs[n]).Ok? {
          var r := r0.value + [emit(n, xs[n]).value];
          assert EmitLines(xs, emit) == Ok(r);
          assert forall i :: 0 <= i < n ==> r[i] == r0.value[i];
        }
      } else {
        assert exists i :: 0 <= i < n && emit(i, xs[i]).Err?;
        assert forall i :: 0 <= i < n && emit(i, xs[i]).Err? && (forall j :: 0 <= j < i ==> emit(j, xs[j]).Ok?) ==>
          r0 == Err(emit(i, init[i]).error);
      }
    }
  }

  lemma EmitStep<S, T>(xs: seq<S>, emit: (nat, S) -> Result<T, Fault>, i: nat, done: seq<T>)
    requires i < |xs| && EmitLines(xs[..i], emit) == Ok(done)
    ensures EmitLines(xs[..i + 1], emit) == match emit(i, xs[i]) case Err(e) => Err(e) case Ok(x) => Ok(done + [x])
  {
    assert xs[..i + 1][..i] == xs[..i];
  }

  /** An error in a prefix is the error of the whole run. */
  lemma {:induction false} EmitPrefixErr<S, T>(xs: seq<S>, emit: (nat, S) -> Result<T, Fault>, i: nat)
    requires i <= |xs| && EmitLines(xs[..i], emit).Err?
    ensures EmitLines(xs, emit) == EmitLines(xs[..i], emit)
    decreases |xs| - i
  {
    if i < |xs| {
      EmitStep2(xs, emit, i);
      EmitPrefixErr(xs, emit, i + 1);
    } else {
      assert xs[..i] == xs;
    }
  }

  lemma EmitStep2<S, T>(xs: seq<S>, emit: (nat, S) -> Result<T, Fault>, i: nat)
    requires i < |xs| && EmitLines(xs[..i], emit).Err?
    ensures EmitLines(xs[..i + 1], emit) == EmitLines(xs[..i], emit)
  {
    assert xs[..i + 1][..i] == xs[..i];
  }

  function RowEmitter(fixed7: string -> Result<string, Fault>): (nat, seq<string>) -> Result<string, Fault> {
    (i: nat, row: seq<string>) => ParamLine(row, fixed7)
  }

  /**
   * The `for i in range(multp_num)` block: one parameter line per array row.
   * On a 1-D array `multp_num` is the number of fields and indexing
   * `multp_bounds_arr[i, 0]` raises IndexError.
   */
  function ParamLines(bounds: Table, fixed7: string -> Result<string, Fault>): (r: Result<seq<string>, Fault>)
    ensures bounds.Fields? ==> (r.Ok? <==> bounds.fields == [])
  {
    match bounds
    case Fields(fields) => if |fields| == 0 then Ok([]) else Err(IndexError("too many indices for array"))
    case Rows(rows) => EmitLines(rows, RowEmitter(fixed7))
  }

  /** The parameter-writing loop. */
  method WriteParams(bounds: Table, fixed7: string -> Result<string, Fault>) returns (r: Result<seq<string>, Fault>)
    ensures r == ParamLines(bounds, fixed7)
  {
    if bounds.Fields? {
      if |bounds.fields| > 0 {
        return Err(IndexError("too many indices for array"));
      }
      return Ok([]);
    }
    var rows := bounds.rows;
    var added: seq<string> := [];
    for i := 0 to |rows|
      invariant EmitLines(rows[..i], RowEmitter(fixed7)) == Ok(added)
    {
      EmitStep(rows, RowEmitter(fixed7), i, added);
      var line := ParamLine(rows[i], fixed7);
      if line.Err? {
        EmitPrefixErr(rows, RowEmitter(fixed7), i + 1);
        return Err(line.error);
      }
      added := added + [line.value];
    }
    assert rows[..|rows|] == rows;
    r := Ok(added);
  }

  /** With a one-row table read as numpy returns it, the parameter block raises instead of writing the row. */
  lemma OneMultiplierFails(row: seq<string>, fixed7: string -> Result<string, Fault>)
    requires |row| == 4 && fixed7(row[2]).Ok? && fixed7(row[3]).Ok?
    ensures ParamLine(row, fixed7).Ok?
    ensures ParamLines(LoadText([row]), fixed7) == Err(IndexError("too many indices for array"))
  {
  }

  /** Read with `ndmin=2`, every table gives one parameter line per row, in row order. */
  lemma ParamLinesPerRow(rows: seq<seq<string>>, fixed7: string -> Result<string, Fault>)
    ensures ParamLines(LoadText2D(rows), fixed7).Ok? <==> forall i :: 0 <= i < |rows| ==> ParamLine(rows[i], fixed7).Ok?
    ensures ParamLines(LoadText2D(rows), fixed7).Ok? ==>
      var added := ParamLines(LoadText2D(rows), fixed7).value;
      |added| == |rows| && forall i :: 0 <= i < |rows| ==> ParamLine(rows[i], fixed7) == Ok(added[i])
  {
    var em := RowEmitter(fixed7);
    EmitLinesSpec(rows, em);
    assert forall i :: 0 <= i < |rows| ==> em(i, rows[i]) == ParamLine(rows[i], fixed7);
  }

  // ------------------------------------------------------ one template line

  const Placeholder := "xxxxxxxxx"
  const PairLine := "multipliers.tpl; multipliers.txt"

  /** The guard of the edits: a stripped line that is not blank and not a comment. */
  predicate IsContent(s: string) {
    s != [] && !StartsWith(s, "#")
  }

  /** Step (3): every placeholder becomes the seed. */
  function SeedStep(s: string, seed: string): string {
    if Contains(s, Placeholder) then ReplaceAll(s, Placeholder, seed) else s
  }

  /** Step (4): the warm-start line follows the control file's `WarmStart`, compared case-insensitively. */
  function WarmStep(s: string, control: seq<string>): Result<string, Fault> {
    if !StartsWith(s, "OstrichWarmStart") then Ok(s)
    else
      match ControlSetting(control, "WarmStart")
      case Err(e) => Err(e)
      case Ok(w) =>
        Ok(if Lower(w) == "yes" then "OstrichWarmStart yes"
           else if Lower(w) == "no" then "OstrichWarmStart no"
           else s)
  }

  /** Step (5): the old budget is the value field of the raw line before `#`; all its occurrences are replaced. */
  function MaxIterStep(s: string, line: string, maxIterations: string): Result<string, Fault> {
    if !StartsWith(s, "MaxIterations") then Ok(s)
    else
      match ValueField(line, '#')
      case Err(e) => Err(e)
      case Ok(previous) => Ok(ReplaceAll(s, previous, maxIterations))
  }

  /** What one template line puts into `ostIn.txt`: inserted pair line, inserted parameter lines, then the line itself. */
  datatype Written = Written(pair: seq<string>, params: seq<string>, line: string)

  function Lines(w: Written): seq<string> {
    w.pair + w.params + [w.line]
  }

  /**
   * The body of the second loop for template line `number`. An unassigned
   * anchor is first read on a content line and raises NameError there; the
   * control file's `max_iterations` is read on every content line.
   */
  function Emit(anchors: Anchors, number: nat, line: string, inp: Inputs): Result<Written, Fault> {
    var s := Strip(line);
    if !IsContent(s) then Ok(Written([], [], s))
    else if anchors.pairs.None? then Err(NameError("filePairs_line_number"))
    else if anchors.params.None? then Err(NameError("param_line_number"))
    else
      var pair := if number == anchors.pairs.value then [PairLine] else [];
      match (if number == anchors.params.value then ParamLines(inp.bounds, inp.fixed7) else Ok([]))
      case Err(e) => Err(e)
      case Ok(params) =>
        match Edit(s, line, inp)
        case Err(e) => Err(e)
        case Ok(s3) => Ok(Written(pair, params, s3))
  }

  /** Steps (3) to (5) on the stripped content line `s`; `line` is the raw template line. */
  function Edit(s: string, line: string, inp: Inputs): Result<string, Fault> {
    match WarmStep(SeedStep(s, inp.seed), inp.control)
    case Err(e) => Err(e)
    case Ok(s2) =>
      match ControlSetting(inp.control, "max_iterations")
      case Err(e) => Err(e)
      case Ok(maxIterations) => MaxIterStep(s2, line, maxIterations)
  }

  /** A template line gets the parameter block exactly when it is the `EndParams` anchor. */
  lemma ParamsOfLine(anchors: Anchors, number: nat, line: string, inp: Inputs, w: Written)
    requires Emit(anchors, number, line, inp) == Ok(w)
    ensures anchors.params != Some(number) ==> w.params == []
    ensures anchors.params == Some(number) && IsContent(Strip(line)) ==> ParamLines(inp.bounds, inp.fixed7) == Ok(w.params)
  {
    var s := Strip(line);
    if IsContent(s) {
      assert anchors.pairs.Some? && anchors.params.Some?;
      var params := if number == anchors.params.value then ParamLines(inp.bounds, inp.fixed7) else Ok([]);
      assert params == Ok(w.params);
    }
  }

  /** A template line gets the pair line exactly when it is the `EndFilePairs` anchor. */
  lemma PairOfLine(anchors: Anchors, number: nat, line: string, inp: Inputs, w: Written)
    requires Emit(anchors, number, line, inp) == Ok(w)
    ensures w.pair == if anchors.pairs == Some(number) && IsContent(Strip(line)) then [PairLine] else []
  {
  }

  /** A content line is written as `Edit` makes it; anything else is written stripped. */
  lemma LineOfLine(anchors: Anchors, number: nat, line: string, inp: Inputs, w: Written)
    requires Emit(anchors, number, line, inp) == Ok(w)
    ensures IsContent(Strip(line)) ==> Edit(Strip(line), line, inp) == Ok(w.line)
    ensures !IsContent(Strip(line)) ==> w == Written([], [], Strip(line))
  {
    var s := Strip(line);
    if IsContent(s) {
      assert anchors.pairs.Some? && anchors.params.Some?;
      var params := if number == anchors.params.value then ParamLines(inp.bounds, inp.fixed7) else Ok([]);
      assert params.Ok?;
      var e := Edit(s, line, inp);
      assert e.Ok?;
      assert w.line == e.value;
    }
  }

  /** One pass of the loop body, reassigning `line_strip` edit by edit. */
  method RewriteLine(anchors: Anchors, number: nat, line: string, inp: Inputs) returns (r: Result<Written, Fault>)
    ensures r == Emit(anchors, number, line, inp)
  {
    var lineStrip := Strip(line);
    if !IsContent(lineStrip) {
      return Ok(Written([], [], lineStrip));
    }
    if anchors.pairs.None? {
      return Err(NameError("filePairs_line_number"));
    }
    var pair: seq<string> := [];
    if number == anchors.pairs.value {
      pair := [PairLine];
    }
    if anchors.params.None? {
      return Err(NameError("param_line_number"));
    }
    var params: seq<string> := [];
    if number == anchors.params.value {
      var added := WriteParams(inp.bounds, inp.fixed7);
      if added.Err? {
        return Err(added.error);
      }
      params := added.value;
    }
    var edited := EditLine(lineStrip, line, inp);
    if edited.Err? {
      return Err(edited.error);
    }
    r := Ok(Written(pair, params, edited.value));
  }

  /** Steps (3) to (5) of the loop body. */
  method EditLine(s: string, line: string, inp: Inputs) returns (r: Result<string, Fault>)
    ensures r == Edit(s, line, inp)
  {
    var lineStrip := s;
    if Contains(lineStrip, Placeholder) {
      lineStrip := ReplaceAll(lineStrip, Placeholder, inp.seed);
    }
    if StartsWith(lineStrip, "OstrichWarmStart") {
      var warm := ReadFromControl(inp.control, "WarmStart");
      if warm.Err? {
        return Err(warm.error);
      }
      if Lower(warm.value) == "yes" {
        lineStrip := "OstrichWarmStart yes";
      } else if Lower(warm.value) == "no" {
        lineStrip := "OstrichWarmStart no";
      }
    }
    assert WarmStep(SeedStep(s, inp.seed), inp.control) == Ok(lineStrip);
    var maxIterations := ReadFromControl(inp.control, "max_iterations");
    if maxIterations.Err? {
      return Err(maxIterations.error);
    }
    if StartsWith(lineStrip, "MaxIterations") {
      var previous := ValueField(line, '#');
      if previous.Err? {
        return Err(previous.error);
      }
      lineStrip := ReplaceAll(lineStrip, previous.value, maxIterations.value);
    }
    r := Ok(lineStrip);
  }

  // ---------------------------------------------------------- the whole file

  function Emitter(anchors: Anchors, inp: Inputs): (nat, string) -> Result<Written, Fault> {
    (number: nat, line: string) => Emit(anchors, number, line, inp)
  }

  /** What each template line writes, or the error that stops the second loop. */
  function Rewrite(template: seq<string>, inp: Inputs): Result<seq<Written>, Fault> {
    EmitLines(template, Emitter(FindAnchors(template), inp))
  }

  function Flatten(ws: seq<Written>): seq<string>
    decreases |ws|
  {
    if |ws| == 0 then [] else Flatten(ws[..|ws| - 1]) + Lines(ws[|ws| - 1])
  }

  /** The lines of `ostIn.txt`. */
  function OstInText(template: seq<string>, inp: Inputs): Result<seq<string>, Fault> {
    match Rewrite(template, inp)
    case Err(e) => Err(e)
    case Ok(ws) => Ok(Flatten(ws))
  }

  /** The script's two passes over the template, writing `dst` line by line. */
  method WriteOstIn(template: seq<string>, inp: Inputs) returns (r: Result<seq<string>, Fault>)
    ensures r == OstInText(template, inp)
  {
    var anchors := LocateAnchors(template);
    var emit := Emitter(anchors, inp);
    var dst: seq<string> := [];
    ghost var done: seq<Written> := [];
    var number := 0;
    while number < |template|
      invariant 0 <= number <= |template|
      invariant EmitLines(template[..number], emit) == Ok(done)
      invariant dst == Flatten(done)
    {
      var w := RewriteLine(anchors, number, template[number], inp);
      WriteStep(template, emit, number, done, w);
      if w.Err? {
        return Err(w.error);
      }
      dst := dst + Lines(w.value);
      done := done + [w.value];
      number := number + 1;
    }
    assert template[..number] == template;
    r := Ok(dst);
  }

  /** One turn of the writing loop: the line's output is appended, or its error ends the run. */
  lemma WriteStep(xs: seq<string>, emit: (nat, string) -> Result<Written, Fault>, i: nat, done: seq<Written>, w: Result<Written, Fault>)
    requires i < |xs| && EmitLines(xs[..i], emit) == Ok(done) && emit(i, xs[i]) == w
    ensures w.Ok? ==> EmitLines(xs[..i + 1], emit) == Ok(done + [w.value])
    ensures w.Ok? ==> Flatten(done + [w.value]) == Flatten(done) + Lines(w.value)
    ensures w.Err? ==> EmitLines(xs, emit) == Err(w.error)
  {
    EmitStep(xs, emit, i, done);
    if w.Ok? {
      assert (done + [w.value])[..|done|] == done;
    } else {
      EmitPrefixErr(xs, emit, i + 1);
    }
  }

  // -------------------------------------------------------------- properties

  /** The output of line `i` sits between the output of the lines before it and the lines after it. */
  lemma {:induction false} FlattenSplit(ws: seq<Written>, i: nat)
    requires i < |ws|
    ensures Flatten(ws) == Flatten(ws[..i]) + Lines(ws[i]) + Flatten(ws[i + 1..])
    decreases |ws|
  {
    var n := |ws| - 1;
    if i == n {
      assert ws[..i] == ws[..n];
      assert ws[i + 1..] == [];
    } else {
      var init := ws[..n];
      assert init[..i] == ws[..i] && init[i] == ws[i];
      FlattenSplit(init, i);
      assert init[i + 1..] == ws[i + 1..n];
      assert ws[i + 1..][..|ws[i + 1..]| - 1] == ws[i + 1..n];
      assert ws[i + 1..][|ws[i + 1..]| - 1] == ws[n];
      assert Flatten(ws[i + 1..]) == Flatten(ws[i + 1..n]) + Lines(ws[n]);
    }
  }

  /** A line starting with a non-space character keeps that character first once stripped. */
  lemma StripKeepsHead(s: string)
    requires s != [] && !IsSpace(s[0])
    ensures Strip(s) != [] && Strip(s)[0] == s[0]
  {
    var r := RStrip(s);
    assert !AllSpace(s[0..]) by {
      assert s[0..][0] == s[0];
    }
    assert r != [];
    assert r[0] == s[0];
  }

  /** The anchor lines are content lines. */
  lemma AnchorIsContent(line: string, p: string)
    requires |p| > 0 && StartsWith(line, p) && !IsSpace(p[0]) && p[0] != '#'
    ensures IsContent(Strip(line))
  {
    assert line[0] == p[0];
    StripKeepsHead(line);
  }

  /** Blank and comment lines are copied stripped and trigger no insertion. */
  lemma PassiveLines(template: seq<string>, inp: Inputs, ws: seq<Written>, i: nat)
    requires Rewrite(template, inp) == Ok(ws) && i < |template|
    requires !IsContent(Strip(template[i]))
    ensures ws[i] == Written([], [], Strip(template[i]))
  {
    var emit := Emitter(FindAnchors(template), inp);
    EmitLinesSpec(template, emit);
    assert emit(i, template[i]) == Ok(ws[i]);
    LineOfLine(FindAnchors(template), i, template[i], inp, ws[i]);
  }

  /**
   * Exactly one pair line is written, right before the last template line
   * that starts with `EndFilePairs`; without such a line the rewrite succeeds
   * only on a template without content lines.
   */
  lemma PairLineOnce(template: seq<string>, inp: Inputs, ws: seq<Written>)
    requires Rewrite(template, inp) == Ok(ws)
    ensures |ws| == |template|
    ensures forall i :: 0 <= i < |ws| ==>
      ws[i].pair == if FindAnchors(template).pairs == Some(i) then [PairLine] else []
    ensures FindAnchors(template).pairs.None? ==> forall i :: 0 <= i < |template| ==> !IsContent(Strip(template[i]))
  {
    var a := FindAnchors(template);
    var emit := Emitter(a, inp);
    EmitLinesSpec(template, emit);
    forall i | 0 <= i < |ws|
      ensures ws[i].pair == if a.pairs == Some(i) then [PairLine] else []
    {
      assert emit(i, template[i]) == Ok(ws[i]);
      PairOfLine(a, i, template[i], inp, ws[i]);
      if a.pairs == Some(i) {
        AnchorIsContent(template[i], "EndFilePairs");
      }
    }
    if a.pairs.None? {
      forall i | 0 <= i < |template| ensures !IsContent(Strip(template[i])) {
        assert emit(i, template[i]).Ok?;
      }
    }
  }

  /**
   * The parameter lines are written once, in table order, right before the
   * last template line that starts with `EndParams`.
   */
  lemma ParamLinesOnce(template: seq<string>, inp: Inputs, ws: seq<Written>)
    requires Rewrite(template, inp) == Ok(ws)
    ensures forall i :: 0 <= i < |ws| && FindAnchors(template).params != Some(i) ==> ws[i].params == []
    ensures FindAnchors(template).params.Some? ==>
      FindAnchors(template).params.value < |ws| && ParamLines(inp.bounds, inp.fixed7) == Ok(ws[FindAnchors(template).params.value].params)
  {
    var a := FindAnchors(template);
    var emit := Emitter(a, inp);
    EmitLinesSpec(template, emit);
    forall i | 0 <= i < |ws| && a.params != Some(i)
      ensures ws[i].params == []
    {
      assert emit(i, template[i]) == Ok(ws[i]);
      ParamsOfLine(a, i, template[i], inp, ws[i]);
    }
    if a.params.Some? {
      var k := a.params.value;
      AnchorIsContent(template[k], "EndParams");
      assert emit(k, template[k]) == Ok(ws[k]);
      ParamsOfLine(a, k, template[k], inp, ws[k]);
    }
  }

  /** Each content line is written as `Edit` makes it. */
  lemma ContentLines(template: seq<string>, inp: Inputs, ws: seq<Written>, i: nat)
    requires Rewrite(template, inp) == Ok(ws) && i < |template|
    requires IsContent(Strip(template[i]))
    ensures Edit(Strip(template[i]), template[i], inp) == Ok(ws[i].line)
  {
    var emit := Emitter(FindAnchors(template), inp);
    EmitLinesSpec(template, emit);
    assert emit(i, template[i]) == Ok(ws[i]);
    LineOfLine(FindAnchors(template), i, template[i], inp, ws[i]);
  }

  /** Without an `EndFilePairs` line, the first content line stops the run with NameError; likewise for `EndParams`. */
  lemma MissingAnchor(template: seq<string>, inp: Inputs, k: nat)
    requires k < |template| && IsContent(Strip(template[k]))
    requires forall j :: 0 <= j < k ==> !IsContent(Strip(template[j]))
    ensures FindAnchors(template).pairs.None? ==> Rewrite(template, inp) == Err(NameError("filePairs_line_number"))
    ensures FindAnchors(template).pairs.Some? && FindAnchors(template).params.None? ==>
      Rewrite(template, inp) == Err(NameError("param_line_number"))
  {
    var a := FindAnchors(template);
    var emit := Emitter(a, inp);
    EmitLinesSpec(template, emit);
    forall j | 0 <= j < k ensures emit(j, template[j]).Ok? {
      PassiveEmit(a, j, template[j], inp);
    }
    MissingEmit(a, k, template[k], inp);
  }

  lemma PassiveEmit(anchors: Anchors, number: nat, line: string, inp: Inputs)
    requires !IsContent(Strip(line))
    ensures Emit(anchors, number, line, inp) == Ok(Written([], [], Strip(line)))
  {
  }

  lemma MissingEmit(anchors: Anchors, number: nat, line: string, inp: Inputs)
    requires IsContent(Strip(line))
    ensures anchors.pairs.None? ==> Emit(anchors, number, line, inp) == Err(NameError("filePairs_line_number"))
    ensures anchors.pairs.Some? && anchors.params.None? ==> Emit(anchors, number, line, inp) == Err(NameError("param_line_number"))
  {
  }

  /** Placeholder-free prefixes survive the seed substitution. */
  lemma SeedKeepsPrefix(s: string, p: string, seed: string)
    requires StartsWith(s, p) && p != [] && p[|p| - 1] != 'x'
    requires forall k :: 0 <= k < |p| - 1 ==> p[k] != 'x' || p[k + 1] != 'x'
    ensures StartsWith(SeedStep(s, seed), p)
  {
    if Contains(s, Placeholder) {
      forall k | 0 <= k < |p| ensures !OccursAt(s, Placeholder, k) {
        assert s[k] == s[..|p|][k];
        if k < |p| - 1 {
          assert s[k + 1] == s[..|p|][k + 1];
        }
        if k + 9 <= |s| {
          assert s[k..k + 9][0] == s[k] && s[k..k + 9][1] == s[k + 1];
        }
      }
      ReplaceSkip(s, Placeholder, seed, |p|);
      assert s[..|p|] == p;
    }
  }

  /**
   * An `OstrichWarmStart` line becomes `OstrichWarmStart yes` or
   * `OstrichWarmStart no` as the `WarmStart` setting says, in any case;
   * any other setting leaves the line as the seed step left it.
   */
  lemma WarmStartLine(s: string, line: string, inp: Inputs)
    requires StartsWith(s, "OstrichWarmStart")
    requires Edit(s, line, inp).Ok?
    ensures ControlSetting(inp.control, "WarmStart").Ok?
    ensures Lower(ControlSetting(inp.control, "WarmStart").value) == "yes" ==> Edit(s, line, inp).value == "OstrichWarmStart yes"
    ensures Lower(ControlSetting(inp.control, "WarmStart").value) == "no" ==> Edit(s, line, inp).value == "OstrichWarmStart no"
    ensures Lower(ControlSetting(inp.control, "WarmStart").value) !in {"yes", "no"} ==> Edit(s, line, inp).value == SeedStep(s, inp.seed)
  {
    SeedKeepsKey(s, "OstrichWarmStart", inp.seed);
    var s1 := SeedStep(s, inp.seed);
    WarmStepHead(s1, inp.control);
    var s2 := WarmStep(s1, inp.control).value;
    MaxIterUntouched(s2, line, ControlSetting(inp.control, "max_iterations").value);
  }

  /** The seed step keeps the `OstrichWarmStart` and `MaxIterations` keys at the head of their lines. */
  lemma SeedKeepsKey(s: string, key: string, seed: string)
    requires key == "OstrichWarmStart" || key == "MaxIterations"
    requires StartsWith(s, key)
    ensures StartsWith(SeedStep(s, seed), key)
  {
    SeedKeepsPrefix(s, key, seed);
  }

  lemma WarmStepHead(s: string, control: seq<string>)
    requires StartsWith(s, "OstrichWarmStart")
    ensures WarmStep(s, control).Ok? ==> WarmStep(s, control).value != [] && WarmStep(s, control).value[0] == 'O'
  {
    var r := WarmStep(s, control);
    if r.Ok? {
      var w := ControlSetting(control, "WarmStart").value;
      var yes, no := "OstrichWarmStart yes", "OstrichWarmStart no";
      assert yes[0] == 'O' && no[0] == 'O';
      if Lower(w) == "yes" {
        assert r.value == yes;
      } else if Lower(w) == "no" {
        assert r.value == no;
      } else {
        assert r.value == s;
        assert s[0] == s[..16][0];
      }
    }
  }

  lemma MaxIterUntouched(s: string, line: string, maxIterations: string)
    requires s != [] && s[0] != 'M'
    ensures MaxIterStep(s, line, maxIterations) == Ok(s)
  {
    assert !StartsWith(s, "MaxIterations") by {
      if |s| >= 13 {
        assert s[..13][0] == s[0];
      }
    }
  }

  lemma WarmUntouched(s: string, control: seq<string>)
    requires s != [] && s[0] != 'O'
    ensures WarmStep(s, control) == Ok(s)
  {
    assert !StartsWith(s, "OstrichWarmStart") by {
      if |s| >= 16 {
        assert s[..16][0] == s[0];
      }
    }
  }

  /**
   * On a `MaxIterations` line the old budget, the second field of the raw
   * line before `#`, is replaced everywhere in the line by the configured
   * `max_iterations`.
   */
  lemma MaxIterationsLine(s: string, line: string, inp: Inputs)
    requires StartsWith(s, "MaxIterations")
    requires Edit(s, line, inp).Ok?
    ensures ValueField(line, '#').Ok? && ControlSetting(inp.control, "max_iterations").Ok?
    ensures Edit(s, line, inp).value
         == ReplaceAll(SeedStep(s, inp.seed), ValueField(line, '#').value, ControlSetting(inp.control, "max_iterations").value)
  {
    SeedKeepsKey(s, "MaxIterations", inp.seed);
    var s1 := SeedStep(s, inp.seed);
    assert s1[0] == s1[..13][0];
    WarmUntouched(s1, inp.control);
  }

  /** A run of x's at the start of the substituted text was already a run at the start of the original. */
  lemma {:induction false} LeadingRun(u: string, seed: string, m: nat)
    requires seed != [] && seed[0] != 'x'
    ensures (m <= |ReplaceAll(u, Placeholder, seed)| && forall j :: 0 <= j < m ==> ReplaceAll(u, Placeholder, seed)[j] == 'x')
        ==> m <= |u| && forall j :: 0 <= j < m ==> u[j] == 'x'
    decreases m
  {
    if m > 0 {
      var t := ReplaceAll(u, Placeholder, seed);
      if StartsWith(u, Placeholder) {
        assert t[0] == seed[0];
      } else if u != [] {
        var rest := ReplaceAll(u[1..], Placeholder, seed);
        assert t == [u[0]] + rest;
        LeadingRun(u[1..], seed, m - 1);
        if m <= |t| && forall j :: 0 <= j < m ==> t[j] == 'x' {
          assert t[0] == u[0];
          forall j | 0 <= j < m - 1 ensures rest[j] == 'x' {
            assert rest[j] == t[j + 1];
          }
          forall j | 0 <= j < m ensures u[j] == 'x' {
            if j > 0 {
              assert u[j] == u[1..][j - 1];
            }
          }
        }
      }
    }
  }

  /** With a seed free of x's, no placeholder survives the substitution at any position. */
  lemma {:induction false} NoPlaceholderAt(s: string, seed: string, k: nat)
    requires seed != [] && 'x' !in seed
    ensures !OccursAt(ReplaceAll(s, Placeholder, seed), Placeholder, k)
    decreases |s|
  {
    var t := ReplaceAll(s, Placeholder, seed);
    if k + 9 <= |t| {
      assert t[k..k + 9][0] == t[k];
      if StartsWith(s, Placeholder) {
        var rest := ReplaceAll(s[9..], Placeholder, seed);
        assert t == seed + rest;
        if k < |seed| {
          assert t[k] == seed[k];
        } else {
          NoPlaceholderAt(s[9..], seed, k - |seed|);
          SliceAfter(seed, rest, k, 9);
        }
      } else if s != [] {
        var rest := ReplaceAll(s[1..], Placeholder, seed);
        assert t == [s[0]] + rest;
        if k == 0 {
          assert forall j :: 0 <= j < 9 ==> t[..9][j] == t[j];
          assert forall j :: 0 <= j < 8 ==> rest[j] == t[j + 1];
          LeadingRun(s[1..], seed, 8);
          assert t[0] == s[0];
          assert forall j :: 0 < j < |s| ==> s[j] == s[1..][j - 1];
        } else {
          NoPlaceholderAt(s[1..], seed, k - 1);
          SliceAfter([s[0]], rest, k, 9);
        }
      }
    }
  }

  lemma SliceAfter(a: string, b: string, k: nat, n: nat)
    requires |a| <= k && k + n <= |a + b|
    ensures (a + b)[k..k + n] == b[k - |a|..k - |a| + n]
  {
    var x, y := (a + b)[k..k + n], b[k - |a|..k - |a| + n];
    forall j | 0 <= j < n ensures x[j] == y[j] {
      assert x[j] == (a + b)[k + j] == b[k - |a| + j];
    }
  }

  /** Step (3) leaves no placeholder behind when the seed has no x in it, as the digits of `str(t_cut)` do not. */
  lemma SeedStepFillsAll(s: string, seed: string)
    requires seed != [] && 'x' !in seed
    ensures !Contains(SeedStep(s, seed), Placeholder)
  {
    if Contains(s, Placeholder) {
      var t := ReplaceAll(s, Placeholder, seed);
      forall k | 0 <= k <= |t| ensures !OccursAt(t, Placeholder, k) {
        NoPlaceholderAt(s, seed, k);
      }
    }
  }


  /** A plain `MaxIterations <n>` line comes out with the configured budget in place of `n` and nothing else changed. */
  lemma MaxIterationsOf(gap: string, v: string, inp: Inputs)
    requires gap != [] && AllSpace(gap) && v != [] && AllDigits(v)
    requires !Contains("MaxIterations" + gap + v, Placeholder)
    requires ControlSetting(inp.control, "max_iterations").Ok?
    ensures var line := "MaxIterations" + gap + v;
      Strip(line) == line && Edit(line, line, inp) == Ok("MaxIterations" + gap + ControlSetting(inp.control, "max_iterations").value)
  {
    var key := "MaxIterations";
    var line := key + gap + v;
    var m := ControlSetting(inp.control, "max_iterations").value;
    MaxKeyFacts();
    NumberStrip(key, gap, v);
    MaxStepOf(gap, v, m);
    assert SeedStep(line, inp.seed) == line;
    assert line[0] == 'M';
    WarmUntouched(line, inp.control);
  }

  lemma MaxStepOf(gap: string, v: string, m: string)
    requires gap != [] && AllSpace(gap) && v != [] && AllDigits(v)
    ensures MaxIterStep("MaxIterations" + gap + v, "MaxIterations" + gap + v, m) == Ok("MaxIterations" + gap + m)
  {
    var key := "MaxIterations";
    var line := key + gap + v;
    MaxKeyFacts();
    NumberField(key, gap, v);
    NumberReplace(key, gap, v, m);
    StartsWithFront(key, gap, v);
  }

  lemma MaxKeyFacts()
    ensures NoSpace("MaxIterations") && '#' !in "MaxIterations"
    ensures forall i :: 0 <= i < |"MaxIterations"| ==> !IsDigit("MaxIterations"[i])
  {
    var key := "MaxIterations";
    forall i | 0 <= i < |key| ensures !IsSpace(key[i]) && !IsDigit(key[i]) && key[i] != '#' {
      assert key[i] in "MaxIterations";
    }
  }

  /** A `key gap number` line is its own stripped form. */
  lemma NumberStrip(key: string, gap: string, v: string)
    requires key != [] && NoSpace(key) && v != [] && AllDigits(v)
    ensures Strip(key + gap + v) == key + gap + v
  {
    var line := key + gap + v;
    assert IsDigit(v[|v| - 1]);
    assert line[0] == key[0] && line[|line| - 1] == v[|v| - 1];
    StripPadded([], line, []);
    assert [] + line + [] == line;
  }

  /** The value field of a `key gap number` line is the number. */
  lemma NumberField(key: string, gap: string, v: string)
    requires key != [] && NoSpace(key) && '#' !in key
    requires gap != [] && AllSpace(gap) && v != [] && AllDigits(v)
    ensures ValueField(key + gap + v, '#') == Ok(v)
  {
    var line := key + gap + v;
    NumberShape(key, gap, v);
    assert line == key + gap + v + [] + [];
    ValueFieldOf(line, key, gap, v, [], [], '#');
  }

  /** Replacing the number of a `key gap number` line changes only the number. */
  lemma NumberReplace(key: string, gap: string, v: string, m: string)
    requires forall i :: 0 <= i < |key| ==> !IsDigit(key[i])
    requires AllSpace(gap) && v != [] && AllDigits(v)
    ensures ReplaceAll(key + gap + v, v, m) == key + gap + m
  {
    NumberOnce(key, gap, v);
    assert key + gap + v == (key + gap) + v + [];
    ReplaceField(key + gap + v, key + gap, v, [], m);
    assert (key + gap) + m + [] == key + gap + m;
  }

  lemma NumberShape(key: string, gap: string, v: string)
    requires key != [] && NoSpace(key) && '#' !in key
    requires gap != [] && AllSpace(gap) && v != [] && AllDigits(v)
    ensures KeyValueLine(key, gap, v, [], [], '#')
  {
    assert IsDigit(v[0]) && IsDigit(v[|v| - 1]);
    var line := key + gap + v;
    forall i | 0 <= i < |line| ensures line[i] != '#' {
      if i < |key| {
        assert line[i] == key[i];
      } else if i < |key| + |gap| {
        assert line[i] == gap[i - |key|];
        assert IsSpace(gap[i - |key|]);
      } else {
        assert line[i] == v[i - |key| - |gap|];
        assert IsDigit(v[i - |key| - |gap|]);
      }
    }
  }

  /** A number after a digit-free key and a gap occurs only there. */
  lemma NumberOnce(key: string, gap: string, v: string)
    requires forall i :: 0 <= i < |key| ==> !IsDigit(key[i])
    requires AllSpace(gap) && v != [] && AllDigits(v)
    ensures forall k :: OccursAt(key + gap + v, v, k) ==> k == |key| + |gap|
  {
    var line := key + gap + v;
    forall k | 0 <= k < |key| + |gap| ensures !IsDigit(line[k]) {
      if k < |key| {
        assert line[k] == key[k];
      } else {
        assert line[k] == gap[k - |key|];
        assert IsSpace(gap[k - |key|]);
      }
    }
    assert IsDigit(v[0]);
    forall k | OccursAt(line, v, k) ensures k == |key| + |gap| {
      assert line[k..k + |v|][0] == line[k];
    }
  }
}
