/**
 * update_model_config_files.py: the simulation period of the control file is
 * copied into SUMMA's fileManager.txt (quoted times) and into mizuRoute's
 * route control file (dates only), and the route control's runoff input is
 * pointed at SUMMA's daily output.
 */
module ModelConfig {
  import opened Wrappers
  import opened PyStr
  import opened ConfigReaders
  import opened PrioriTrialParam

  // ------------------------------------------------------------ dates

  function DigitValue(c: char): nat
    requires IsDigit(c)
  {
    (c as int - '0' as int) as nat
  }

  /** The decimal value of a string of digits. */
  function Number(s: string): nat
    requires AllDigits(s)
    decreases |s|
  {
    if s == [] then 0 else Number(s[..|s| - 1]) * 10 + DigitValue(s[|s| - 1])
  }

  predicate IsLeap(year: nat) {
    year % 4 == 0 && (year % 100 != 0 || year % 400 == 0)
  }

  function DaysIn(year: nat, month: nat): nat {
    if month == 2 then (if IsLeap(year) then 29 else 28)
    else if month == 4 || month == 6 || month == 9 || month == 11 then 30
    else 31
  }

  /** A `%Y-%m-%d %H:%M` time with zero-padded fields naming an existing minute. */
  predicate IsTimeStamp(t: string) {
    && |t| == 16 && t[4] == '-' && t[7] == '-' && t[10] == ' ' && t[13] == ':'
    && AllDigits(t[0..4]) && AllDigits(t[5..7]) && AllDigits(t[8..10]) && AllDigits(t[11..13]) && AllDigits(t[14..16])
    && 1 <= Number(t[0..4])
    && 1 <= Number(t[5..7]) <= 12
    && 1 <= Number(t[8..10]) <= DaysIn(Number(t[0..4]), Number(t[5..7]))
    && Number(t[11..13]) < 24 && Number(t[14..16]) < 60
  }

  /**
   * `strftime(strptime(t, '%Y-%m-%d %H:%M'), '%Y-%m-%d')`: the date part of a
   * time; a time that does not parse (such as the hour 24) is a ValueError.
   */
  function DatePart(t: string): (r: Result<string, Fault>)
    ensures r.Ok? <==> IsTimeStamp(t)
    ensures r.Ok? ==> |r.value| == 10 && StartsWith(t, r.value)
  {
    if IsTimeStamp(t) then Ok(t[..10]) else Err(ValueError("time data does not match format '%Y-%m-%d %H:%M'"))
  }

  /** A well-formed time loses its hour and minute. */
  lemma DateOfTime(date: string, clock: string)
    requires IsTimeStamp(date + " " + clock)
    ensures |date| == 10 && DatePart(date + " " + clock) == Ok(date)
  {
    assert |date| == 10 by {
      assert (date + " " + clock)[|date|] == ' ';   // stands at index 10
      if |date| != 10 {
        assert |date| < 16;
      }
    }
    assert (date + " " + clock)[..10] == date;
  }

  /** The end of a day must be written `00:00` of the next day: `24:00` does not parse. */
  lemma MidnightRejected(date: string)
    ensures DatePart(date + " 24:00").Err?
  {
    var t := date + " 24:00";
    if |t| == 16 && AllDigits(t[11..13]) {
      assert t[11..13] == "24";
      assert Number("24") == 24 by {
        assert "24"[..1] == "2";
        assert "2"[..0] == [];
      }
    }
  }

  // ------------------------------------------------------------ fileManager.txt

  /** `"'" + t + "'"`. */
  function Quoted(t: string): string {
    "'" + t + "'"
  }

  /** The fileManager edits: the time lines get the configured times in single quotes. */
  function FileManagerEdit(simStart: string, simEnd: string): string -> Result<string, Fault> {
    TimeEdit(Quoted(simStart), Quoted(simEnd))
  }

  /** A well-shaped `simStartTime` line gets the configured start time, quoted, in place of its old value. */
  lemma QuotedStartTime(gap: string, value: string, pad: string, suffix: string, simStart: string, simEnd: string)
    requires gap != [] && AllSpace(gap) && value != [] && !IsSpace(value[0]) && !IsSpace(value[|value| - 1])
    requires AllSpace(pad) && (suffix == [] || suffix[0] == '!') && '!' !in value
    requires forall k :: OccursAt("simStartTime" + gap + value + pad + suffix, value, k) ==> k == |"simStartTime"| + |gap|
    ensures FileManagerEdit(simStart, simEnd)("simStartTime" + gap + value + pad + suffix) ==
      Ok("simStartTime" + gap + Quoted(simStart) + pad + suffix)
  {
    StartLineSet(gap, value, pad, suffix, Quoted(simStart), Quoted(simEnd));
  }

  /** A well-shaped `simEndTime` line gets the configured end time, quoted, in place of its old value. */
  lemma QuotedEndTime(gap: string, value: string, pad: string, suffix: string, simStart: string, simEnd: string)
    requires gap != [] && AllSpace(gap) && value != [] && !IsSpace(value[0]) && !IsSpace(value[|value| - 1])
    requires AllSpace(pad) && (suffix == [] || suffix[0] == '!') && '!' !in value
    requires forall k :: OccursAt("simEndTime" + gap + value + pad + suffix, value, k) ==> k == |"simEndTime"| + |gap|
    ensures FileManagerEdit(simStart, simEnd)("simEndTime" + gap + value + pad + suffix) ==
      Ok("simEndTime" + gap + Quoted(simEnd) + pad + suffix)
  {
    EndLineSet(gap, value, pad, suffix, Quoted(simStart), Quoted(simEnd));
  }

  // ------------------------------------------------------------ route control

  /**
   * The route control edits. On a `<fname_qsim>` line the old value is read
   * first; only then is `outFilePrefix` looked up, so `prefix` is the outcome of
   * that lookup and its error surfaces only on such a line.
   */
  function RouteEdit(startDate: string, endDate: string, prefix: Result<string, Fault>): string -> Result<string, Fault> {
    line => RouteLine(line, startDate, endDate, prefix)
  }

  function RouteLine(line: string, startDate: string, endDate: string, prefix: Result<string, Fault>): Result<string, Fault> {
    if StartsWith(line, "<sim_start>") then SubstituteValue(line, '!', startDate)
    else if StartsWith(line, "<sim_end>") then SubstituteValue(line, '!', endDate)
    else if StartsWith(line, "<fname_qsim>") then RunoffLine(line, prefix)
    else Ok(line)
  }

  /** The `<fname_qsim>` edit: IndexError of a line without a value first, then the lookup of the prefix. */
  function RunoffLine(line: string, prefix: Result<string, Fault>): Result<string, Fault> {
    if ValueField(line, '!').Err? then Err(ValueField(line, '!').error)
    else if prefix.Err? then Err(prefix.error)
    else SubstituteValue(line, '!', prefix.value + "_day.nc")
  }

  /** The route keys hold no whitespace and no comment character. */
  lemma RouteKeys()
    ensures NoSpace("<sim_start>") && '!' !in "<sim_start>"
    ensures NoSpace("<sim_end>") && '!' !in "<sim_end>"
    ensures NoSpace("<fname_qsim>") && '!' !in "<fname_qsim>"
  {
    var start := "<sim_start>";
    var end := "<sim_end>";
    var qsim := "<fname_qsim>";
    forall i | 0 <= i < |start| ensures !IsSpace(start[i]) && start[i] != '!' {
      assert start[i] in "<sim_start>";
    }
    forall i | 0 <= i < |end| ensures !IsSpace(end[i]) && end[i] != '!' {
      assert end[i] in "<sim_end>";
    }
    forall i | 0 <= i < |qsim| ensures !IsSpace(qsim[i]) && qsim[i] != '!' {
      assert qsim[i] in "<fname_qsim>";
    }
  }

  /** A `<sim_end>` line is not a `<sim_start>` line. */
  lemma EndNotStart(line: string)
    requires StartsWith(line, "<sim_end>")
    ensures !StartsWith(line, "<sim_start>")
  {
    assert line[5] == "<sim_end>"[5] == 'e';
  }

  /** A `<fname_qsim>` line is neither a `<sim_start>` nor a `<sim_end>` line. */
  lemma RunoffNotDate(line: string)
    requires StartsWith(line, "<fname_qsim>")
    ensures !StartsWith(line, "<sim_start>") && !StartsWith(line, "<sim_end>")
  {
    assert line[1] == "<fname_qsim>"[1] == 'f';
  }

  /** A well-shaped `<sim_start>` line gets the start date in place of its old value. */
  lemma StartDateSet(gap: string, value: string, pad: string, suffix: string, startDate: string, endDate: string, prefix: Result<string, Fault>)
    requires gap != [] && AllSpace(gap) && value != [] && !IsSpace(value[0]) && !IsSpace(value[|value| - 1])
    requires AllSpace(pad) && (suffix == [] || suffix[0] == '!') && '!' !in value
    requires forall k :: OccursAt("<sim_start>" + gap + value + pad + suffix, value, k) ==> k == |"<sim_start>"| + |gap|
    ensures RouteEdit(startDate, endDate, prefix)("<sim_start>" + gap + value + pad + suffix) ==
      Ok("<sim_start>" + gap + startDate + pad + suffix)
  {
    var key := "<sim_start>";
    var line := key + gap + value + pad + suffix;
    RouteKeys();
    SubstituteLine(key, gap, value, pad, suffix, startDate);
    RouteAtStart(line, startDate, endDate, prefix);
  }

  /** A well-shaped `<sim_end>` line gets the end date in place of its old value. */
  lemma EndDateSet(gap: string, value: string, pad: string, suffix: string, startDate: string, endDate: string, prefix: Result<string, Fault>)
    requires gap != [] && AllSpace(gap) && value != [] && !IsSpace(value[0]) && !IsSpace(value[|value| - 1])
    requires AllSpace(pad) && (suffix == [] || suffix[0] == '!') && '!' !in value
    requires forall k :: OccursAt("<sim_end>" + gap + value + pad + suffix, value, k) ==> k == |"<sim_end>"| + |gap|
    ensures RouteEdit(startDate, endDate, prefix)("<sim_end>" + gap + value + pad + suffix) ==
      Ok("<sim_end>" + gap + endDate + pad + suffix)
  {
    var key := "<sim_end>";
    var line := key + gap + value + pad + suffix;
    RouteKeys();
    SubstituteLine(key, gap, value, pad, suffix, endDate);
    EndNotStart(line);
    RouteAtEnd(line, startDate, endDate, prefix);
  }

  /** A well-shaped `<fname_qsim>` line names SUMMA's daily output, `outFilePrefix + '_day.nc'`. */
  lemma RunoffFileSet(gap: string, value: string, pad: string, suffix: string, startDate: string, endDate: string, outFilePrefix: string)
    requires gap != [] && AllSpace(gap) && value != [] && !IsSpace(value[0]) && !IsSpace(value[|value| - 1])
    requires AllSpace(pad) && (suffix == [] || suffix[0] == '!') && '!' !in value
    requires forall k :: OccursAt("<fname_qsim>" + gap + value + pad + suffix, value, k) ==> k == |"<fname_qsim>"| + |gap|
    ensures RouteEdit(startDate, endDate, Ok(outFilePrefix))("<fname_qsim>" + gap + value + pad + suffix) ==
      Ok("<fname_qsim>" + gap + (outFilePrefix + "_day.nc") + pad + suffix)
  {
    var key := "<fname_qsim>";
    var line := key + gap + value + pad + suffix;
    RouteKeys();
    SubstituteLine(key, gap, value, pad, suffix, outFilePrefix + "_day.nc");
    RunoffNotDate(line);
    RouteAtRunoff(line, startDate, endDate, Ok(outFilePrefix));
    RunoffPicks(line, Ok(outFilePrefix));
  }

  /** The prefix is looked up only once the `<fname_qsim>` line has shown a value; its failure then fails the line. */
  lemma RunoffLookupFails(gap: string, value: string, pad: string, suffix: string, startDate: string, endDate: string, e: Fault)
    requires gap != [] && AllSpace(gap) && value != [] && !IsSpace(value[0]) && !IsSpace(value[|value| - 1])
    requires AllSpace(pad) && (suffix == [] || suffix[0] == '!') && '!' !in value
    requires forall k :: OccursAt("<fname_qsim>" + gap + value + pad + suffix, value, k) ==> k == |"<fname_qsim>"| + |gap|
    ensures RouteEdit(startDate, endDate, Err(e))("<fname_qsim>" + gap + value + pad + suffix) == Err(e)
  {
    var key := "<fname_qsim>";
    var line := key + gap + value + pad + suffix;
    RouteKeys();
    SubstituteLine(key, gap, value, pad, suffix, []);
    RunoffNotDate(line);
    RouteAtRunoff(line, startDate, endDate, Err(e));
    RunoffPicks(line, Err(e));
  }

  lemma RunoffPicks(line: string, prefix: Result<string, Fault>)
    ensures ValueField(line, '!').Ok? ==>
      RunoffLine(line, prefix) == if prefix.Err? then Err(prefix.error) else SubstituteValue(line, '!', prefix.value + "_day.nc")
  {
  }

  lemma RouteAtStart(line: string, startDate: string, endDate: string, prefix: Result<string, Fault>)
    requires StartsWith(line, "<sim_start>")
    ensures RouteEdit(startDate, endDate, prefix)(line) == SubstituteValue(line, '!', startDate)
  {
  }

  lemma RouteAtEnd(line: string, startDate: string, endDate: string, prefix: Result<string, Fault>)
    requires !StartsWith(line, "<sim_start>") && StartsWith(line, "<sim_end>")
    ensures RouteEdit(startDate, endDate, prefix)(line) == SubstituteValue(line, '!', endDate)
  {
  }

  lemma RouteAtRunoff(line: string, startDate: string, endDate: string, prefix: Result<string, Fault>)
    requires !StartsWith(line, "<sim_start>") && !StartsWith(line, "<sim_end>") && StartsWith(line, "<fname_qsim>")
    ensures RouteEdit(startDate, endDate, prefix)(line) == RunoffLine(line, prefix)
  {
  }

  /**
   * `str.replace` rewrites every occurrence: a `<sim_start>` line whose comment
   * repeats the old date gets the new date in the comment too.
   */
  lemma CommentDateRewritten(gap: string, value: string, pad: string, note: string, tail: string,
                             startDate: string, endDate: string, prefix: Result<string, Fault>)
    requires gap != [] && AllSpace(gap) && value != [] && !IsSpace(value[0]) && !IsSpace(value[|value| - 1])
    requires AllSpace(pad) && '!' !in value
    requires forall k :: OccursAt("<sim_start>" + gap + value + pad + "!" + note + value + tail, value, k) ==>
      k == |"<sim_start>"| + |gap| || k == |"<sim_start>"| + |gap| + |value| + |pad| + 1 + |note|
    ensures RouteEdit(startDate, endDate, prefix)("<sim_start>" + gap + value + pad + "!" + note + value + tail) ==
      Ok("<sim_start>" + gap + startDate + pad + "!" + note + startDate + tail)
  {
    var key := "<sim_start>";
    var line := key + gap + value + pad + "!" + note + value + tail;
    RouteKeys();
    SubstituteRepeated(key, gap, value, pad, note, tail, startDate);
    RouteAtStart(line, startDate, endDate, prefix);
  }

  /** An untouched route control line needs no value. */
  lemma RouteControlShape(lines: seq<string>, startDate: string, endDate: string, prefix: Result<string, Fault>)
    ensures var r := EditLines(lines, RouteEdit(startDate, endDate, prefix));
      r.Ok? ==> (|r.value| == |lines| &&
        forall i :: (0 <= i < |lines| && !StartsWith(lines[i], "<sim_start>") && !StartsWith(lines[i], "<sim_end>") &&
          !StartsWith(lines[i], "<fname_qsim>")) ==> r.value[i] == lines[i])
  {
    EditLinesSpec(lines, RouteEdit(startDate, endDate, prefix));
  }

  // ------------------------------------------------------------ the whole script

  /** The settings the script reads from the control file before it edits anything. */
  datatype Period = Period(simStart: string, simEnd: string, startDate: string, endDate: string)

  /** The control file as a lookup: `read(setting)` is `read_from_control(controlFile, setting)`. */
  function Reader(control: seq<string>): (read: string -> Result<string, Fault>)
    ensures forall setting :: read(setting) == ControlSetting(control, setting)
  {
    setting => ControlSetting(control, setting)
  }

  /** Lines 63-81: every read can raise, in this order; the paths themselves are not modelled. */
  function ReadPeriod(read: string -> Result<string, Fault>): (r: Result<Period, Fault>)
    ensures r.Ok? ==> read("simStartTime") == Ok(r.value.simStart) && read("simEndTime") == Ok(r.value.simEnd)
    ensures r.Ok? ==> DatePart(r.value.simStart) == Ok(r.value.startDate) && DatePart(r.value.simEnd) == Ok(r.value.endDate)
    ensures r.Ok? ==> (read("calib_path").Ok? && read("model_path").Ok? && read("summa_settings_relpath").Ok? &&
      read("route_settings_relpath").Ok?)
  {
    var calibPath :- read("calib_path");
    var modelPath :- read("model_path");
    var summaRelpath :- read("summa_settings_relpath");
    var routeRelpath :- read("route_settings_relpath");
    var simStart :- read("simStartTime");
    var simEnd :- read("simEndTime");
    var startDate :- DatePart(simStart);
    var endDate :- DatePart(simEnd);
    Ok(Period(simStart, simEnd, startDate, endDate))
  }

  /** The two configuration files. */
  datatype Configs = Configs(fileManager: seq<string>, routeControl: seq<string>)

  /** The two files as a run leaves them, and the fault that ended it, if any. */
  datatype Run = Run(files: Configs, fault: Option<Fault>)

  /**
   * The route control pass (lines 107-127), after the rewritten fileManager
   * is in place: that fileManager stays whatever happens, and the route
   * control is replaced only when the pass completes.
   */
  function RoutePass(read: string -> Result<string, Fault>, period: Period, newFileManager: seq<string>,
                     routeControl: seq<string>): (r: Run)
    ensures r.files.fileManager == newFileManager
    ensures r.fault.Some? <==>
      (read("route_control").Err? ||
       EditLines(routeControl, RouteEdit(period.startDate, period.endDate, RouteSetting(newFileManager, "outFilePrefix"))).Err?)
    ensures r.fault.Some? ==> r.files.routeControl == routeControl
    ensures |r.files.routeControl| == |routeControl|
  {
    var committed := Configs(newFileManager, routeControl);
    match read("route_control")
    case Err(e) => Run(committed, Some(e))
    case Ok(_) =>
      var prefix := RouteSetting(newFileManager, "outFilePrefix");
      match EditLines(routeControl, RouteEdit(period.startDate, period.endDate, prefix))
      case Err(e) => Run(committed, Some(e))
      case Ok(newRouteControl) => Run(Configs(newFileManager, newRouteControl), None)
  }

  /**
   * The whole run: the fileManager is rewritten and copied over the original
   * first (line 101), and `outFilePrefix` is then read from the rewritten
   * fileManager. A fault before that copy leaves both files as they were.
   */
  function UpdatedConfigs(read: string -> Result<string, Fault>, fileManager: seq<string>, routeControl: seq<string>)
    : (r: Run)
    ensures |r.files.fileManager| == |fileManager| && |r.files.routeControl| == |routeControl|
    ensures r.fault.Some? ==> r.files.routeControl == routeControl
    ensures (ReadPeriod(read).Err? || read("summa_filemanager").Err? ||
             EditLines(fileManager, FileManagerEdit(ReadPeriod(read).value.simStart, ReadPeriod(read).value.simEnd)).Err?) ==>
      r.files == Configs(fileManager, routeControl) && r.fault.Some?
  {
    match ReadPeriod(read)
    case Err(e) => Run(Configs(fileManager, routeControl), Some(e))
    case Ok(period) =>
      match read("summa_filemanager")
      case Err(e) => Run(Configs(fileManager, routeControl), Some(e))
      case Ok(_) =>
        match EditLines(fileManager, FileManagerEdit(period.simStart, period.simEnd))
        case Err(e) => Run(Configs(fileManager, routeControl), Some(e))
        case Ok(newFileManager) => RoutePass(read, period, newFileManager, routeControl)
  }

  /** The script's main block. */
  method UpdateModelConfigFiles(control: seq<string>, fileManager: seq<string>, routeControl: seq<string>)
    returns (r: Run)
    ensures r == UpdatedConfigs(Reader(control), fileManager, routeControl)
  {
    var untouched := Configs(fileManager, routeControl);
    var period := ReadPeriod(Reader(control));
    if period.Err? {
      return Run(untouched, Some(period.error));
    }
    var fileManagerName := ReadFromControl(control, "summa_filemanager");
    if fileManagerName.Err? {
      return Run(untouched, Some(fileManagerName.error));
    }
    var p := period.value;
    var newFileManager := RewriteLines(fileManager, FileManagerEdit(p.simStart, p.simEnd));
    if newFileManager.Err? {
      return Run(untouched, Some(newFileManager.error));
    }
    var committed := Configs(newFileManager.value, routeControl);
    var routeControlName := ReadFromControl(control, "route_control");
    if routeControlName.Err? {
      return Run(committed, Some(routeControlName.error));
    }
    var prefix := RouteSetting(newFileManager.value, "outFilePrefix");
    var newRouteControl := RewriteLines(routeControl, RouteEdit(p.startDate, p.endDate, prefix));
    if newRouteControl.Err? {
      return Run(committed, Some(newRouteControl.error));
    }
    r := Run(Configs(newFileManager.value, newRouteControl.value), None);
  }

  /**
   * Once the fileManager pass succeeds, the rewritten fileManager stays in
   * place whatever the route control pass does; a fault there leaves the
   * route control as it was.
   */
  lemma FileManagerCommitted(read: string -> Result<string, Fault>, fileManager: seq<string>, routeControl: seq<string>)
    requires ReadPeriod(read).Ok? && read("summa_filemanager").Ok?
    requires EditLines(fileManager, FileManagerEdit(ReadPeriod(read).value.simStart, ReadPeriod(read).value.simEnd)).Ok?
    ensures var p := ReadPeriod(read).value; var r := UpdatedConfigs(read, fileManager, routeControl);
      r.files.fileManager == EditLines(fileManager, FileManagerEdit(p.simStart, p.simEnd)).value &&
      (r.fault.Some? <==>
        read("route_control").Err? ||
        EditLines(routeControl, RouteEdit(p.startDate, p.endDate, RouteSetting(r.files.fileManager, "outFilePrefix"))).Err?)
  {
    var p := ReadPeriod(read).value;
    assert UpdatedConfigs(read, fileManager, routeControl) ==
      RoutePass(read, p, EditLines(fileManager, FileManagerEdit(p.simStart, p.simEnd)).value, routeControl);
  }

  /**
   * A successful run rewrites the fileManager with the quoted times, and the
   * route control with the dates and the `outFilePrefix` of the REWRITTEN fileManager.
   */
  lemma UpdatedConfigsParts(read: string -> Result<string, Fault>, fileManager: seq<string>, routeControl: seq<string>)
    requires UpdatedConfigs(read, fileManager, routeControl).fault.None?
    ensures ReadPeriod(read).Ok?
    ensures var p := ReadPeriod(read).value; var c := UpdatedConfigs(read, fileManager, routeControl).files;
      EditLines(fileManager, FileManagerEdit(p.simStart, p.simEnd)) == Ok(c.fileManager) &&
      EditLines(routeControl, RouteEdit(p.startDate, p.endDate, RouteSetting(c.fileManager, "outFilePrefix"))) == Ok(c.routeControl)
  {
    var p := ReadPeriod(read).value;
    assert UpdatedConfigs(read, fileManager, routeControl) ==
      RoutePass(read, p, EditLines(fileManager, FileManagerEdit(p.simStart, p.simEnd)).value, routeControl);
  }

  /**
   * After a successful run both files keep their lines in order: every line
   * that none of the five keys starts is copied verbatim.
   */
  lemma UntouchedLinesKept(read: string -> Result<string, Fault>, fileManager: seq<string>, routeControl: seq<string>)
    requires UpdatedConfigs(read, fileManager, routeControl).fault.None?
    ensures var c := UpdatedConfigs(read, fileManager, routeControl).files;
      forall i :: 0 <= i < |fileManager| && !StartsWith(fileManager[i], "simStartTime") && !StartsWith(fileManager[i], "simEndTime") ==>
        c.fileManager[i] == fileManager[i]
    ensures var c := UpdatedConfigs(read, fileManager, routeControl).files;
      forall i :: (0 <= i < |routeControl| && !StartsWith(routeControl[i], "<sim_start>") && !StartsWith(routeControl[i], "<sim_end>") &&
        !StartsWith(routeControl[i], "<fname_qsim>")) ==> c.routeControl[i] == routeControl[i]
  {
    UpdatedConfigsParts(read, fileManager, routeControl);
    var p := ReadPeriod(read).value;
    var c := UpdatedConfigs(read, fileManager, routeControl).files;
    KeptLines(fileManager, c.fileManager, Quoted(p.simStart), Quoted(p.simEnd));
    RouteControlShape(routeControl, p.startDate, p.endDate, RouteSetting(c.fileManager, "outFilePrefix"));
  }

  lemma KeptLines(lines: seq<string>, result: seq<string>, simStart: string, simEnd: string)
    requires EditLines(lines, TimeEdit(simStart, simEnd)) == Ok(result)
    ensures forall i :: 0 <= i < |lines| && !StartsWith(lines[i], "simStartTime") && !StartsWith(lines[i], "simEndTime") ==>
      result[i] == lines[i]
  {
    FileManagerShape(lines, simStart, simEnd);
  }
}
