/**
 * The two setting readers every script repeats, `read_from_control` for the
 * `key | value # comment` control file and `read_from_summa_route_config` for
 * the `key value ! comment` SUMMA and mizuRoute files, and the line-by-line
 * rewrite loop the scripts use to edit those files. A file is the sequence of
 * its lines as Python's `for line in f` yields them (each with its newline).
 */
module ConfigReaders {
  import opened Wrappers
  import opened PyStr

  /** The test of the search loops: the stripped line starts with the setting name. */
  predicate Announces(line: string, setting: string) {
    StartsWith(Strip(line), setting)
  }

  /** The index of the first line satisfying `p`. */
  function FirstWhere(lines: seq<string>, p: string -> bool): (r: Option<nat>)
    ensures r.Some? ==> r.value < |lines| && p(lines[r.value])
    ensures r.Some? ==> forall k :: 0 <= k < r.value ==> !p(lines[k])
    ensures r.None? ==> forall k :: 0 <= k < |lines| ==> !p(lines[k])
    decreases |lines|
  {
    if |lines| == 0 then None
    else if p(lines[0]) then Some(0)
    else
      var r := FirstWhere(lines[1..], p);
      assert forall k :: 1 <= k < |lines| ==> lines[k] == lines[1..][k - 1];
      match r
      case Some(k) => Some(k + 1)
      case None => None
  }

  /** The index of the first line announcing `setting`. */
  function FirstMatch(lines: seq<string>, setting: string): (r: Option<nat>)
    ensures r.Some? ==> r.value < |lines| && Announces(lines[r.value], setting)
    ensures r.Some? ==> forall k :: 0 <= k < r.value ==> !Announces(lines[k], setting)
    ensures r.None? ==> forall k :: 0 <= k < |lines| ==> !Announces(lines[k], setting)
  {
    FirstWhere(lines, line => Announces(line, setting))
  }

  /** A line announcing the setting with none before it is the first match. */
  lemma FirstMatchAt(lines: seq<string>, setting: string, i: nat)
    requires i < |lines| && Announces(lines[i], setting)
    requires forall k :: 0 <= k < i ==> !Announces(lines[k], setting)
    ensures FirstMatch(lines, setting) == Some(i)
  {
  }

  /**
   * What the variable `line` holds once the search loop ends: the first
   * announcing line, stripped; when no line announces the setting, the loop
   * runs out and leaves the last line of the file, stripped; an empty file
   * never binds it at all (`None`).
   */
  function SettingLine(lines: seq<string>, setting: string): (r: Option<string>)
    ensures r.None? <==> |lines| == 0
  {
    match FirstMatch(lines, setting)
    case Some(k) => Some(Strip(lines[k]))
    case None => if |lines| == 0 then None else Some(Strip(lines[|lines| - 1]))
  }

  /** The `for line in ff: line = line.strip(); if line.startswith(setting): break` loop. */
  method LocateSetting(lines: seq<string>, setting: string) returns (line: Option<string>)
    ensures line == SettingLine(lines, setting)
  {
    line := None;
    var i := 0;
    while i < |lines|
      invariant 0 <= i <= |lines|
      invariant FirstMatch(lines[..i], setting).None?
      invariant line == if i == 0 then None else Some(Strip(lines[i - 1]))
    {
      var stripped := Strip(lines[i]);
      line := Some(stripped);
      if StartsWith(stripped, setting) {
        SettingLineAt(lines, setting, i);
        return;
      }
      NoMatchYet(lines, setting, i);
      i := i + 1;
    }
    assert lines[..i] == lines;
    SettingLineNone(lines, setting);
  }

  /** A prefix without a match followed by an announcing line: the loop stops there. */
  lemma SettingLineAt(lines: seq<string>, setting: string, i: nat)
    requires i < |lines| && FirstMatch(lines[..i], setting).None? && Announces(lines[i], setting)
    ensures SettingLine(lines, setting) == Some(Strip(lines[i]))
  {
    FirstWhereAt(lines, line => Announces(line, setting), i);
  }

  /** A prefix without a match followed by a line that does not announce the setting. */
  lemma NoMatchYet(lines: seq<string>, setting: string, i: nat)
    requires i < |lines| && FirstMatch(lines[..i], setting).None? && !Announces(lines[i], setting)
    ensures FirstMatch(lines[..i + 1], setting).None?
  {
    FirstWhereNext(lines, line => Announces(line, setting), i);
  }

  /** Without a match the loop leaves the last line, or nothing for an empty file. */
  lemma SettingLineNone(lines: seq<string>, setting: string)
    requires FirstMatch(lines, setting).None?
    ensures SettingLine(lines, setting) == if |lines| == 0 then None else Some(Strip(lines[|lines| - 1]))
  {
  }

  lemma FirstWhereAt(lines: seq<string>, p: string -> bool, i: nat)
    requires i < |lines| && FirstWhere(lines[..i], p).None? && p(lines[i])
    ensures FirstWhere(lines, p) == Some(i)
  {
    forall k | 0 <= k < i ensures !p(lines[k]) {
      assert lines[..i][k] == lines[k];
    }
  }

  lemma FirstWhereNext(lines: seq<string>, p: string -> bool, i: nat)
    requires i < |lines| && FirstWhere(lines[..i], p).None? && !p(lines[i])
    ensures FirstWhere(lines[..i + 1], p).None?
  {
    var pre := lines[..i + 1];
    forall k | 0 <= k < i + 1 ensures !p(pre[k]) {
      if k < i {
        assert lines[..i][k] == pre[k];
      }
    }
  }

  // ---------------------------------------------------------------- control file

  /** `line.split('|', 1)[1].split('#', 1)[0].strip()`; a line without `|` raises IndexError. */
  function ControlValue(line: string): (r: Result<string, Fault>)
    ensures r.Ok? <==> '|' in line
    ensures r.Ok? ==> r.value == Strip(r.value)
  {
    assert Contains(line, "|") <==> '|' in line by {
      if '|' in line {
        var k :| 0 <= k < |line| && line[k] == '|';
        assert line[k..k + 1] == "|";
        assert OccursAt(line, "|", k);
      } else {
        FindAbsentChar(line, '|');
      }
    }
    match After(line, "|")
    case None => Err(IndexError("list index out of range"))
    case Some(rest) =>
      StripIdempotent(Before(rest, "#"));
      Ok(Strip(Before(rest, "#")))
  }

  /** `read_from_control(control_file, setting)` over the lines of the control file. */
  function ControlSetting(lines: seq<string>, setting: string): (r: Result<string, Fault>)
    ensures |lines| == 0 ==> r == Err(NameError("line"))
    ensures FirstMatch(lines, setting).None? && |lines| > 0 ==> r == ControlValue(Strip(lines[|lines| - 1]))
  {
    match SettingLine(lines, setting)
    case None => Err(NameError("line"))
    case Some(line) => ControlValue(line)
  }

  method ReadFromControl(lines: seq<string>, setting: string) returns (r: Result<string, Fault>)
    ensures r == ControlSetting(lines, setting)
  {
    var line := LocateSetting(lines, setting);
    if line.None? {
      return Err(NameError("line"));
    }
    r := ControlValue(line.value);
  }

  /** A `key | value # comment` line yields its value, trimmed. */
  lemma ControlValueOf(key: string, value: string, comment: string)
    requires '|' !in key && '#' !in value
    ensures ControlValue(key + "|" + value + "#" + comment) == Ok(Strip(value))
  {
    assert key + "|" + value + "#" + comment == key + ['|'] + (value + ['#'] + comment);
    SplitAtFirst(key, '|', value + ['#'] + comment);
    SplitAtFirst(value, '#', comment);
  }

  /** A `key | value` line without a comment yields its value, trimmed. */
  lemma ControlValueUncommented(key: string, value: string)
    requires '|' !in key && '#' !in value
    ensures ControlValue(key + "|" + value) == Ok(Strip(value))
  {
    SplitAtFirst(key, '|', value);
    SplitAbsent(value, '#');
  }

  /** The first line announcing the setting decides the value; later lines are never read. */
  lemma ControlSettingOf(lines: seq<string>, setting: string, k: nat, key: string, value: string, comment: string)
    requires k < |lines| && Announces(lines[k], setting)
    requires forall j :: 0 <= j < k ==> !Announces(lines[j], setting)
    requires Strip(lines[k]) == key + "|" + value + "#" + comment
    requires '|' !in key && '#' !in value
    ensures ControlSetting(lines, setting) == Ok(Strip(value))
  {
    FirstMatchAt(lines, setting, k);
    ControlValueOf(key, value, comment);
  }

  // ------------------------------------------------------ SUMMA / mizuRoute files

  /** `s.split(None, 1)[1]`: the text after the first word; IndexError when there is none. */
  function SecondField(s: string): (r: Result<string, Fault>)
    ensures r.Ok? ==> r.value != [] && !IsSpace(r.value[0])
    ensures r.Err? <==> |SplitWsOnce(s)| < 2
  {
    var parts := SplitWsOnce(s);
    if |parts| < 2 then Err(IndexError("list index out of range")) else Ok(parts[1])
  }

  /** `line.split(c, 1)[0].strip().split(None, 1)[1]`: the value field of a `key value <c> comment` line. */
  function ValueField(line: string, c: char): (r: Result<string, Fault>)
    ensures r.Ok? ==> r.value != [] && !IsSpace(r.value[0])
  {
    SecondField(Strip(Before(line, [c])))
  }

  /** `line.split('!', 1)[0].strip().split(None, 1)[1].strip("'")`. */
  function RouteValue(line: string): (r: Result<string, Fault>)
    ensures r.Ok? <==> ValueField(line, '!').Ok?
    ensures r.Ok? ==> r.value == [] || (r.value[0] != '\'' && r.value[|r.value| - 1] != '\'')
  {
    match ValueField(line, '!')
    case Err(e) => Err(e)
    case Ok(v) => Ok(StripChar(v, '\''))
  }

  /** `read_from_summa_route_config(config_file, setting)` over the lines of the file. */
  function RouteSetting(lines: seq<string>, setting: string): (r: Result<string, Fault>)
    ensures |lines| == 0 ==> r == Err(NameError("line"))
    ensures FirstMatch(lines, setting).None? && |lines| > 0 ==> r == RouteValue(Strip(lines[|lines| - 1]))
  {
    match SettingLine(lines, setting)
    case None => Err(NameError("line"))
    case Some(line) => RouteValue(line)
  }

  method ReadFromSummaRouteConfig(lines: seq<string>, setting: string) returns (r: Result<string, Fault>)
    ensures r == RouteSetting(lines, setting)
  {
    var line := LocateSetting(lines, setting);
    if line.None? {
      return Err(NameError("line"));
    }
    r := RouteValue(line.value);
  }

  /**
   * The shape of a `key value <c> comment` line: a word, whitespace, the value
   * (which may hold inner spaces), optional whitespace, then nothing or the
   * comment introduced by `c`.
   */
  predicate KeyValueLine(key: string, gap: string, value: string, pad: string, suffix: string, c: char) {
    && key != [] && NoSpace(key)
    && gap != [] && AllSpace(gap)
    && value != [] && !IsSpace(value[0]) && !IsSpace(value[|value| - 1])
    && AllSpace(pad) && (suffix == [] || suffix[0] == c)
    && !IsSpace(c) && c !in key + gap + value
  }

  /** The value field of a well-shaped line is its value. */
  lemma ValueFieldOf(line: string, key: string, gap: string, value: string, pad: string, suffix: string, c: char)
    requires line == key + gap + value + pad + suffix && KeyValueLine(key, gap, value, pad, suffix, c)
    ensures ValueField(line, c) == Ok(value)
  {
    var body := key + gap + value;
    assert c !in pad;
    if suffix == [] {
      assert body + pad + suffix == body + pad;
      SplitAbsent(body + pad, c);
    } else {
      assert body + pad + suffix == (body + pad) + [c] + suffix[1..];
      SplitAtFirst(body + pad, c, suffix[1..]);
    }
    StripPadded([], body, pad);
    assert [] + body + pad == body + pad;
    SplitWsOnceOf(key, gap, value);
  }

  /** A quoted value loses exactly its enclosing quotes. */
  lemma RouteValueOf(key: string, gap: string, v: string, pad: string, suffix: string)
    requires v != [] && v[0] != '\'' && v[|v| - 1] != '\''
    requires KeyValueLine(key, gap, "'" + v + "'", pad, suffix, '!')
    ensures RouteValue(key + gap + "'" + v + "'" + pad + suffix) == Ok(v)
  {
    assert key + gap + "'" + v + "'" + pad + suffix == key + gap + ("'" + v + "'") + pad + suffix;
    ValueFieldOf(key + gap + "'" + v + "'" + pad + suffix, key, gap, "'" + v + "'", pad, suffix, '!');
    StripCharEnclosed('\'', v);
  }

  /** The first line announcing the setting decides the value. */
  lemma RouteSettingOf(lines: seq<string>, setting: string, k: nat, key: string, gap: string, v: string, pad: string, suffix: string)
    requires k < |lines| && Announces(lines[k], setting)
    requires forall j :: 0 <= j < k ==> !Announces(lines[j], setting)
    requires v != [] && v[0] != '\'' && v[|v| - 1] != '\''
    requires KeyValueLine(key, gap, "'" + v + "'", pad, suffix, '!')
    requires Strip(lines[k]) == key + gap + "'" + v + "'" + pad + suffix
    ensures RouteSetting(lines, setting) == Ok(v)
  {
    FirstMatchAt(lines, setting, k);
    RouteValueOf(key, gap, v, pad, suffix);
  }

  // ------------------------------------------------------------------ rewriting

  /**
   * `line.replace(old, rep)` where `old` is the line's value field before the
   * comment character `c`: every occurrence of the old value anywhere in the
   * line is replaced, not only the field. IndexError when the line has no value.
   */
  function SubstituteValue(line: string, c: char, rep: string): (r: Result<string, Fault>)
    ensures r.Ok? <==> ValueField(line, c).Ok?
  {
    var cur :- ValueField(line, c);
    Ok(ReplaceAll(line, cur, rep))
  }

  /** The old value of a well-shaped line is its value field. */
  lemma SubstituteAt(line: string, key: string, gap: string, value: string, pad: string, suffix: string, c: char, rep: string)
    requires line == key + gap + value + pad + suffix && KeyValueLine(key, gap, value, pad, suffix, c)
    ensures SubstituteValue(line, c, rep) == Ok(ReplaceAll(line, value, rep))
  {
    ValueFieldOf(line, key, gap, value, pad, suffix, c);
  }

  /** When the old value occurs only in its field, the substitution puts the new value there and keeps the rest of the line. */
  lemma SubstituteValueOf(line: string, key: string, gap: string, value: string, pad: string, suffix: string, c: char, rep: string)
    requires line == key + gap + value + pad + suffix && KeyValueLine(key, gap, value, pad, suffix, c)
    requires forall k :: OccursAt(line, value, k) ==> k == |key| + |gap|
    ensures SubstituteValue(line, c, rep) == Ok(key + gap + rep + pad + suffix)
  {
    ReplaceField(line, key + gap, value, pad + suffix, rep);
    assert key + gap + rep + pad + suffix == (key + gap) + rep + (pad + suffix);
    SubstituteAt(line, key, gap, value, pad, suffix, c, rep);
  }

  /** A well-shaped `key value ! comment` line whose value occurs only in its field gets the new value there. */
  lemma SubstituteLine(key: string, gap: string, value: string, pad: string, suffix: string, rep: string)
    requires key != [] && NoSpace(key) && '!' !in key
    requires gap != [] && AllSpace(gap) && value != [] && !IsSpace(value[0]) && !IsSpace(value[|value| - 1])
    requires AllSpace(pad) && (suffix == [] || suffix[0] == '!') && '!' !in value
    requires forall k :: OccursAt(key + gap + value + pad + suffix, value, k) ==> k == |key| + |gap|
    ensures StartsWith(key + gap + value + pad + suffix, key)
    ensures SubstituteValue(key + gap + value + pad + suffix, '!', rep) == Ok(key + gap + rep + pad + suffix)
  {
    var line := key + gap + value + pad + suffix;
    KeyValueShape(key, gap, value, pad, suffix, '!');
    StartsWithFront(key, gap + value + pad, suffix);
    assert key + (gap + value + pad) + suffix == line;
    SubstituteValueOf(line, key, gap, value, pad, suffix, '!', rep);
  }

  /**
   * `replace` rewrites every occurrence of the old value: when the comment of a
   * well-shaped line repeats the value, the comment gets the new value too.
   */
  lemma SubstituteRepeated(key: string, gap: string, value: string, pad: string, note: string, tail: string, rep: string)
    requires key != [] && NoSpace(key) && '!' !in key
    requires gap != [] && AllSpace(gap) && value != [] && !IsSpace(value[0]) && !IsSpace(value[|value| - 1])
    requires AllSpace(pad) && '!' !in value
    requires forall k :: OccursAt(key + gap + value + pad + "!" + note + value + tail, value, k) ==>
      k == |key| + |gap| || k == |key| + |gap| + |value| + |pad| + 1 + |note|
    ensures StartsWith(key + gap + value + pad + "!" + note + value + tail, key)
    ensures SubstituteValue(key + gap + value + pad + "!" + note + value + tail, '!', rep) ==
      Ok(key + gap + rep + pad + "!" + note + rep + tail)
  {
    var suffix := "!" + note + value + tail;
    var line := key + gap + value + pad + "!" + note + value + tail;
    SevenParts(key, gap, value, pad, note, tail);
    KeyValueShape(key, gap, value, pad, suffix, '!');
    StartsWithFront(key, gap + value + pad, suffix);
    SubstituteAt(line, key, gap, value, pad, suffix, '!', rep);
    ReplaceRepeated(key, gap, value, pad, note, tail, rep);
  }

  lemma ReplaceRepeated(key: string, gap: string, value: string, pad: string, note: string, tail: string, rep: string)
    requires value != []
    requires forall k :: OccursAt(key + gap + value + pad + "!" + note + value + tail, value, k) ==>
      k == |key| + |gap| || k == |key| + |gap| + |value| + |pad| + 1 + |note|
    ensures ReplaceAll(key + gap + value + pad + "!" + note + value + tail, value, rep) == key + gap + rep + pad + "!" + note + rep + tail
  {
    SevenParts(key, gap, value, pad, note, tail);
    ReplaceTwo(key + gap, value, pad + "!" + note, tail, rep);
    SevenParts(key, gap, rep, pad, note, tail);
  }

  lemma SevenParts(key: string, gap: string, value: string, pad: string, note: string, tail: string)
    ensures var line := key + gap + value + pad + "!" + note + value + tail;
      line == key + gap + value + pad + ("!" + note + value + tail) &&
      line == key + (gap + value + pad) + ("!" + note + value + tail) &&
      line == (key + gap) + value + (pad + "!" + note) + value + tail
  {
  }

  /** The shape conditions of a `key value <c> comment` line, each stated on its own part. */
  lemma KeyValueShape(key: string, gap: string, value: string, pad: string, suffix: string, c: char)
    requires key != [] && NoSpace(key) && c !in key && !IsSpace(c)
    requires gap != [] && AllSpace(gap) && value != [] && !IsSpace(value[0]) && !IsSpace(value[|value| - 1])
    requires AllSpace(pad) && (suffix == [] || suffix[0] == c) && c !in value
    ensures KeyValueLine(key, gap, value, pad, suffix, c)
  {
    var s := key + gap + value;
    forall i | 0 <= i < |s| ensures s[i] != c {
      if i < |key| {
        assert s[i] == key[i];
      } else if i < |key| + |gap| {
        assert s[i] == gap[i - |key|] && IsSpace(gap[i - |key|]);
      } else {
        assert s[i] == value[i - |key| - |gap|];
      }
    }
  }

  /**
   * Applies `edit` to each line in order (the `for line in src: … dst.write(line)`
   * loops); the first line whose edit raises ends the run with that error.
   */
  function EditLines(lines: seq<string>, edit: string -> Result<string, Fault>): (r: Result<seq<string>, Fault>)
    ensures r.Ok? ==> |r.value| == |lines|
    decreases |lines|
  {
    if |lines| == 0 then Ok([])
    else
      match edit(lines[0])
      case Err(e) => Err(e)
      case Ok(head) =>
        match EditLines(lines[1..], edit)
        case Err(e) => Err(e)
        case Ok(tail) => Ok([head] + tail)
  }

  /**
   * The run succeeds exactly when every line's edit does; each output line is
   * the edit of the input line at the same place; a failure is that of the
   * first line whose edit fails.
   */
  lemma {:induction false} EditLinesSpec(lines: seq<string>, edit: string -> Result<string, Fault>)
    ensures var r := EditLines(lines, edit);
      r.Ok? <==> forall i :: 0 <= i < |lines| ==> edit(lines[i]).Ok?
    ensures var r := EditLines(lines, edit);
      r.Ok? ==> forall i :: 0 <= i < |lines| ==> edit(lines[i]) == Ok(r.value[i])
    ensures forall i :: 0 <= i < |lines| && edit(lines[i]).Err? && (forall j :: 0 <= j < i ==> edit(lines[j]).Ok?) ==>
      EditLines(lines, edit) == Err(edit(lines[i]).error)
    decreases |lines|
  {
    if |lines| > 0 {
      EditLinesSpec(lines[1..], edit);
      assert forall i :: 1 <= i < |lines| ==> lines[i] == lines[1..][i - 1];
    }
  }

  /** The rewrite loop itself, writing each edited line to `dst` in order. */
  method RewriteLines(lines: seq<string>, edit: string -> Result<string, Fault>) returns (r: Result<seq<string>, Fault>)
    ensures r == EditLines(lines, edit)
  {
    EditLinesSpec(lines, edit);
    var dst: seq<string> := [];
    var i := 0;
    while i < |lines|
      invariant 0 <= i <= |lines| && |dst| == i
      invariant forall k :: 0 <= k < i ==> edit(lines[k]) == Ok(dst[k])
    {
      var line := edit(lines[i]);
      if line.Err? {
        assert EditLines(lines, edit) == Err(line.error);
        return Err(line.error);
      }
      dst := dst + [line.value];
      i := i + 1;
    }
    assert EditLines(lines, edit).value == dst;
    r := Ok(dst);
  }
}
