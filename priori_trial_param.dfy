/**
 * The text-processing half of generate_priori_trialParam.py: the list of
 * parameters SUMMA is asked to write out, the new outputControl.txt (the
 * missing names put in front of the old content) and the fileManager.txt
 * whose simulation period is narrowed to one day.
 */
module PrioriTrialParam {
  import opened Wrappers
  import opened PyStr
  import opened ConfigReaders

  /** The soil water content parameters that constrain each other. */
  const SoilParams: seq<string> := ["theta_res", "critSoilWilting", "critSoilTranspire", "fieldCapacity", "theta_sat"]

  /** The canopy height parameters that constrain each other. */
  const HeightParams: seq<string> := ["heightCanopyBottom", "heightCanopyTop"]

  // ------------------------------------------------------------ output parameters

  /** `[x.strip() for x in object_params.split(',')]`. */
  function ObjectNames(objectParams: string): seq<string> {
    var parts := Split(objectParams, ',');
    seq(|parts|, i requires 0 <= i < |parts| => Strip(parts[i]))
  }

  /** The names that are not substrings of `text` (`if not name in text`), in their order. */
  function Absent(names: seq<string>, text: string): seq<string>
    decreases |names|
  {
    if names == [] then []
    else
      var last := names[|names| - 1];
      Absent(names[..|names| - 1], text) + (if Contains(text, last) then [] else [last])
  }

  /** `any(name in text for name in names)`. */
  predicate AnyIn(names: seq<string>, text: string) {
    exists i :: 0 <= i < |names| && Contains(text, names[i])
  }

  /** What a group of related parameters adds: its unnamed members, once one of its members is named. */
  function GroupAddition(group: seq<string>, objectParams: string): seq<string> {
    if AnyIn(group, objectParams) then Absent(group, objectParams) else []
  }

  /** `output_params` after both groups have been completed. */
  function OutputParams(objectParams: string): seq<string> {
    ObjectNames(objectParams) + (GroupAddition(SoilParams, objectParams) + GroupAddition(HeightParams, objectParams))
  }

  /** The `for name in group: if not name in text: output_params.append(name)` loop. */
  method AppendAbsent(outputParams: seq<string>, group: seq<string>, text: string) returns (r: seq<string>)
    ensures r == outputParams + Absent(group, text)
  {
    r := outputParams;
    for i := 0 to |group|
      invariant r == outputParams + Absent(group[..i], text)
    {
      AbsentStep(group, text, i);
      if !Contains(text, group[i]) {
        r := r + [group[i]];
      }
    }
    assert group[..|group|] == group;
  }

  /** Builds `output_params` from the `object_parameters` setting. */
  method ExpandOutputParams(objectParams: string) returns (outputParams: seq<string>)
    ensures outputParams == OutputParams(objectParams)
  {
    outputParams := ObjectNames(objectParams);
    if AnyIn(SoilParams, objectParams) {
      outputParams := AppendAbsent(outputParams, SoilParams, objectParams);
    }
    if AnyIn(HeightParams, objectParams) {
      outputParams := AppendAbsent(outputParams, HeightParams, objectParams);
    }
  }

  lemma AbsentStep(names: seq<string>, text: string, i: nat)
    requires i < |names|
    ensures Absent(names[..i + 1], text) == Absent(names[..i], text) + (if Contains(text, names[i]) then [] else [names[i]])
  {
    assert names[..i + 1][..i] == names[..i];
  }

  /** A comma-separated list of trimmed names is read back as those names. */
  lemma ObjectNamesOf(names: seq<string>)
    requires |names| >= 1 && forall i :: 0 <= i < |names| ==> ',' !in names[i] && Strip(names[i]) == names[i]
    ensures ObjectNames(Join(names, ',')) == names
  {
    SplitJoin(names, ',');
  }

  /** The absent names are exactly the names that `text` does not contain. */
  lemma {:induction false} AbsentMembers(names: seq<string>, text: string, x: string)
    ensures x in Absent(names, text) <==> x in names && !Contains(text, x)
    decreases |names|
  {
    if names != [] {
      var init := names[..|names| - 1];
      AbsentMembers(init, text, x);
      assert names == init + [names[|names| - 1]];
    }
  }

  /** Filtering keeps order: the absent names of a concatenation are those of its parts, in turn. */
  lemma {:induction false} AbsentAppend(a: seq<string>, b: seq<string>, text: string)
    ensures Absent(a + b, text) == Absent(a, text) + Absent(b, text)
    decreases |b|
  {
    if b == [] {
      assert a + b == a;
    } else {
      var init := b[..|b| - 1];
      AbsentAppend(a, init, text);
      assert (a + b)[..|a + b| - 1] == a + init;
    }
  }

  /** When `text` contains every name, nothing is absent. */
  lemma AbsentNone(names: seq<string>, text: string)
    requires forall i :: 0 <= i < |names| ==> Contains(text, names[i])
    ensures Absent(names, text) == []
  {
    var r := Absent(names, text);
    if r != [] {
      AbsentMembers(names, text, r[0]);
      assert false;
    }
  }

  /** The expanded list is the object parameters, in order, followed by the two groups' additions. */
  lemma OutputParamsShape(objectParams: string)
    ensures var r := OutputParams(objectParams); var n := ObjectNames(objectParams);
      |n| <= |r| && r[..|n|] == n &&
      r[|n|..] == GroupAddition(SoilParams, objectParams) + GroupAddition(HeightParams, objectParams)
  {
    var n := ObjectNames(objectParams);
    var soil := GroupAddition(SoilParams, objectParams);
    var height := GroupAddition(HeightParams, objectParams);
    SliceConcat(n, soil + height);
  }

  lemma SliceConcat<T>(a: seq<T>, b: seq<T>)
    ensures (a + b)[..|a|] == a && (a + b)[|a|..] == b
  {
  }

  /**
   * Every added name belongs to a group one of whose members the setting names,
   * and the setting does not mention it.
   */
  lemma AddedNamesSound(objectParams: string, x: string)
    requires x in OutputParams(objectParams)[|ObjectNames(objectParams)|..]
    ensures !Contains(objectParams, x)
    ensures (x in SoilParams && AnyIn(SoilParams, objectParams)) || (x in HeightParams && AnyIn(HeightParams, objectParams))
  {
    OutputParamsShape(objectParams);
    AbsentMembers(SoilParams, objectParams, x);
    AbsentMembers(HeightParams, objectParams, x);
  }

  /** Once one member of a group is named, every member is mentioned by the setting or added. */
  lemma GroupCompleted(objectParams: string, group: seq<string>, x: string)
    requires group == SoilParams || group == HeightParams
    requires AnyIn(group, objectParams) && x in group
    ensures Contains(objectParams, x) || x in OutputParams(objectParams)[|ObjectNames(objectParams)|..]
  {
    OutputParamsShape(objectParams);
    AbsentMembers(group, objectParams, x);
  }

  // ------------------------------------------------------------ outputControl.txt

  /** One `name\n` line per name. */
  function Terminated(names: seq<string>): string
    decreases |names|
  {
    if names == [] then [] else names[0] + "\n" + Terminated(names[1..])
  }

  /** The new outputControl.txt: a line per output parameter the old content does not mention, then the old content. */
  function NewOutputControl(outputParams: seq<string>, content: string): string {
    Terminated(Absent(outputParams, content)) + content
  }

  /** The write loop over `output_params`, followed by `dst.write(content)`. */
  method PrependOutputControl(outputParams: seq<string>, content: string) returns (dst: string)
    ensures dst == NewOutputControl(outputParams, content)
  {
    dst := [];
    for i := 0 to |outputParams|
      invariant dst == Terminated(Absent(outputParams[..i], content))
    {
      AbsentStep(outputParams, content, i);
      var before := Absent(outputParams[..i], content);
      if !Contains(content, outputParams[i]) {
        TerminatedAppend(before, outputParams[i]);
        dst := dst + outputParams[i] + "\n";
      } else {
        assert before + [] == before;
      }
    }
    assert outputParams[..|outputParams|] == outputParams;
    dst := dst + content;
  }

  lemma {:induction false} TerminatedAppend(names: seq<string>, x: string)
    ensures Terminated(names + [x]) == Terminated(names) + x + "\n"
    decreases |names|
  {
    if names == [] {
      assert [] + [x] == [x];
    } else {
      assert (names + [x])[1..] == names[1..] + [x];
      TerminatedAppend(names[1..], x);
    }
  }

  /** Every terminated name occurs in the terminated text. */
  lemma {:induction false} TerminatedContains(names: seq<string>, i: nat)
    requires i < |names|
    ensures Contains(Terminated(names), names[i])
    decreases |names|
  {
    if i == 0 {
      ContainsIn([], names[0], "\n" + Terminated(names[1..]));
      assert [] + names[0] + ("\n" + Terminated(names[1..])) == Terminated(names);
    } else {
      TerminatedContains(names[1..], i - 1);
      ContainsAfterFront(names[0] + "\n", Terminated(names[1..]), names[i]);
    }
  }

  /** Read back line by line, the new file is the added names followed by the lines of the old content. */
  lemma {:induction false} TerminatedLines(names: seq<string>, content: string)
    requires forall i :: 0 <= i < |names| ==> '\n' !in names[i]
    ensures Split(Terminated(names) + content, '\n') == names + Split(content, '\n')
    decreases |names|
  {
    if names == [] {
      assert Terminated(names) + content == content;
    } else {
      var rest := Terminated(names[1..]) + content;
      TerminatedLines(names[1..], content);
      assert Terminated(names) + content == names[0] + ['\n'] + rest;
      SplitFirst(names[0], '\n', rest);
      var lines := Split(content, '\n');
      ConsAppend(names, lines);
    }
  }

  lemma ConsAppend<T>(xs: seq<T>, ys: seq<T>)
    requires xs != []
    ensures [xs[0]] + (xs[1..] + ys) == xs + ys
  {
    assert [xs[0]] + xs[1..] == xs;
  }

  /**
   * The lines of the new outputControl.txt are the output parameters the old
   * content does not mention, in order, followed by the old lines verbatim.
   */
  lemma OutputControlLines(outputParams: seq<string>, content: string)
    requires forall i :: 0 <= i < |outputParams| ==> '\n' !in outputParams[i]
    ensures Split(NewOutputControl(outputParams, content), '\n') == Absent(outputParams, content) + Split(content, '\n')
  {
    var added := Absent(outputParams, content);
    forall i | 0 <= i < |added| ensures '\n' !in added[i] {
      AbsentMembers(outputParams, content, added[i]);
    }
    TerminatedLines(added, content);
  }

  /** After the rewrite every output parameter is mentioned, so running it again changes nothing. */
  lemma OutputControlIdempotent(outputParams: seq<string>, content: string)
    ensures forall i :: 0 <= i < |outputParams| ==> Contains(NewOutputControl(outputParams, content), outputParams[i])
    ensures NewOutputControl(outputParams, NewOutputControl(outputParams, content)) == NewOutputControl(outputParams, content)
  {
    var added := Absent(outputParams, content);
    var next := NewOutputControl(outputParams, content);
    forall i | 0 <= i < |outputParams| ensures Contains(next, outputParams[i]) {
      var p := outputParams[i];
      if Contains(content, p) {
        ContainsAfterFront(Terminated(added), content, p);
      } else {
        AbsentMembers(outputParams, content, p);
        var j :| 0 <= j < |added| && added[j] == p;
        TerminatedContains(added, j);
        ContainsBeforeBack(Terminated(added), content, p);
      }
    }
    AbsentNone(outputParams, next);
    assert Terminated([]) + next == next;
  }

  /** Text put after a string keeps every pattern the string contains. */
  lemma ContainsBeforeBack(s: string, b: string, p: string)
    requires Contains(s, p)
    ensures Contains(s + b, p)
  {
    var k := Find(s, p).value;
    var t := s + b;
    assert t[k..k + |p|] == s[k..k + |p|];
    assert OccursAt(t, p, k);
  }

  // ------------------------------------------------------------ fileManager.txt

  /** The two edits of the fileManager loop; the new times are written unquoted. */
  function TimeEdit(simStart: string, simEnd: string): string -> Result<string, Fault> {
    line =>
      if StartsWith(line, "simStartTime") then SubstituteValue(line, '!', simStart)
      else if StartsWith(line, "simEndTime") then SubstituteValue(line, '!', simEnd)
      else Ok(line)
  }

  /** The new fileManager.txt, or the IndexError of the first time line without a value. */
  function OneDayFileManager(lines: seq<string>, simStart: string, simEnd: string): Result<seq<string>, Fault> {
    EditLines(lines, TimeEdit(simStart, simEnd))
  }

  /**
   * `simStartTime` from the control file and the day after it; `addDay` is the
   * `strptime`/`timedelta`/`strftime` round, which raises on a malformed time.
   */
  function PrioriTimes(control: seq<string>, addDay: string -> Result<string, Fault>): (r: Result<(string, string), Fault>)
    ensures r.Ok? <==> ControlSetting(control, "simStartTime").Ok? && addDay(ControlSetting(control, "simStartTime").value).Ok?
    ensures r.Ok? ==> r.value.0 == ControlSetting(control, "simStartTime").value && addDay(r.value.0) == Ok(r.value.1)
  {
    match ControlSetting(control, "simStartTime")
    case Err(e) => Err(e)
    case Ok(start) =>
      match addDay(start)
      case Err(e) => Err(e)
      case Ok(end) => Ok((start, end))
  }

  /** The fileManager rewrite loop. */
  method UpdateFileManager(lines: seq<string>, simStart: string, simEnd: string) returns (r: Result<seq<string>, Fault>)
    ensures r == OneDayFileManager(lines, simStart, simEnd)
  {
    r := RewriteLines(lines, TimeEdit(simStart, simEnd));
  }

  /** An untouched line needs no value. */
  lemma OtherLineKept(line: string, simStart: string, simEnd: string)
    requires !StartsWith(line, "simStartTime") && !StartsWith(line, "simEndTime")
    ensures TimeEdit(simStart, simEnd)(line) == Ok(line)
  {
  }

  /**
   * The rewrite fails exactly when a time line has no value field; otherwise it
   * keeps the number and the order of the lines and copies every other line verbatim.
   */
  lemma FileManagerShape(lines: seq<string>, simStart: string, simEnd: string)
    ensures var r := OneDayFileManager(lines, simStart, simEnd);
      r.Ok? <==> forall i :: 0 <= i < |lines| && (StartsWith(lines[i], "simStartTime") || StartsWith(lines[i], "simEndTime")) ==>
        ValueField(lines[i], '!').Ok?
    ensures var r := OneDayFileManager(lines, simStart, simEnd);
      r.Ok? ==> (|r.value| == |lines| &&
        forall i :: 0 <= i < |lines| && !StartsWith(lines[i], "simStartTime") && !StartsWith(lines[i], "simEndTime") ==>
          r.value[i] == lines[i])
  {
    var edit := TimeEdit(simStart, simEnd);
    EditLinesSpec(lines, edit);
    forall i | 0 <= i < |lines|
      ensures edit(lines[i]).Ok? <==>
        (StartsWith(lines[i], "simStartTime") || StartsWith(lines[i], "simEndTime")) ==> ValueField(lines[i], '!').Ok?
    {
    }
  }

  /** Neither key is a prefix of a line that starts with the other. */
  lemma TimeKeys(rest: string)
    ensures NoSpace("simStartTime") && '!' !in "simStartTime"
    ensures NoSpace("simEndTime") && '!' !in "simEndTime"
    ensures !StartsWith("simEndTime" + rest, "simStartTime")
  {
    var start := "simStartTime";
    var end := "simEndTime";
    forall i | 0 <= i < |start| ensures !IsSpace(start[i]) && start[i] != '!' {
      assert start[i] in "simStartTime";
    }
    forall i | 0 <= i < |end| ensures !IsSpace(end[i]) && end[i] != '!' {
      assert end[i] in "simEndTime";
    }
    var t := end + rest;
    if |start| <= |t| {
      assert t[..|start|][3] == 'E' != start[3];
    }
  }

  /**
   * A well-shaped `simStartTime` line whose old value (quotes included) occurs
   * only in its field gets the new start time, unquoted, in place of that value;
   * the key, the spacing and the comment are kept.
   */
  lemma StartLineSet(gap: string, value: string, pad: string, suffix: string, simStart: string, simEnd: string)
    requires gap != [] && AllSpace(gap) && value != [] && !IsSpace(value[0]) && !IsSpace(value[|value| - 1])
    requires AllSpace(pad) && (suffix == [] || suffix[0] == '!') && '!' !in value
    requires forall k :: OccursAt("simStartTime" + gap + value + pad + suffix, value, k) ==> k == |"simStartTime"| + |gap|
    ensures TimeEdit(simStart, simEnd)("simStartTime" + gap + value + pad + suffix) == Ok("simStartTime" + gap + simStart + pad + suffix)
  {
    var key := "simStartTime";
    var line := key + gap + value + pad + suffix;
    TimeKeys([]);
    SubstituteLine(key, gap, value, pad, suffix, simStart);
    assert StartsWith(line, key);
  }

  /** The same for a `simEndTime` line and the end time. */
  lemma EndLineSet(gap: string, value: string, pad: string, suffix: string, simStart: string, simEnd: string)
    requires gap != [] && AllSpace(gap) && value != [] && !IsSpace(value[0]) && !IsSpace(value[|value| - 1])
    requires AllSpace(pad) && (suffix == [] || suffix[0] == '!') && '!' !in value
    requires forall k :: OccursAt("simEndTime" + gap + value + pad + suffix, value, k) ==> k == |"simEndTime"| + |gap|
    ensures TimeEdit(simStart, simEnd)("simEndTime" + gap + value + pad + suffix) == Ok("simEndTime" + gap + simEnd + pad + suffix)
  {
    var key := "simEndTime";
    var line := key + gap + value + pad + suffix;
    var rest := gap + value + pad + suffix;
    TimeKeys(rest);
    assert key + rest == line;
    SubstituteLine(key, gap, value, pad, suffix, simEnd);
    assert StartsWith(line, key);
  }
}
