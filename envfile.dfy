/** The settings file: `replace_env_variable` (calliope.py:73-86) rewrites
    one `NAME=value` line, `/timer` (calliope.py:783-787) stores a number of
    seconds through it, and `convert_seconds_to_hours` (calliope.py:41-43)
    renders such a number for the messages.  The file is a sequence of lines
    as `readlines` returns them; reading and writing it is left out. */
module EnvFile {
  import opened Text

  /** The line written for `name` (calliope.py:81). */
  function Assignment(name: string, value: string): string {
    name + "=" + value + "\n"
  }

  predicate Assigns(line: string, name: string) {
    StartsWith(line, name + "=")
  }

  /** `k` is the first line that assigns `name`. */
  predicate FirstAssignment(lines: seq<string>, name: string, k: int) {
    0 <= k < |lines| && Assigns(lines[k], name) && forall j | 0 <= j < k :: !Assigns(lines[j], name)
  }

  /** The loop of calliope.py:79-82: the first line that starts with
      `name=` is replaced and the search stops; every other line, and the
      number of lines, stay as they were; without such a line the file is
      written back unchanged. */
  method ReplaceEnvVariable(lines: seq<string>, name: string, newValue: string) returns (written: seq<string>)
    ensures |written| == |lines|
    ensures (forall i | 0 <= i < |lines| :: !Assigns(lines[i], name)) ==> written == lines
    ensures forall k | FirstAssignment(lines, name, k) :: written == lines[k := Assignment(name, newValue)]
  {
    written := lines;
    for i := 0 to |lines|
      invariant written == lines
      invariant forall j | 0 <= j < i :: !Assigns(lines[j], name)
    {
      if Assigns(written[i], name) {
        written := written[i := Assignment(name, newValue)];
        break;
      }
    }
  }

  /** `convert_seconds_to_hours`: whole hours, rounded down (Python's `//`
      by a positive divisor agrees with Dafny's `/`), then " HOURS". */
  function ConvertSecondsToHours(seconds: int): (shown: string)
    ensures EndsWith(shown, " HOURS") && |shown| > 6
    ensures shown[0] == '-' <==> seconds < 0
  {
    IntToString(seconds / 3600) + " HOURS"
  }

  /** The rendering names `h` exactly for the seconds from `h` hours up to
      just below `h + 1` hours. */
  lemma HoursShown(seconds: int, h: int)
    ensures ConvertSecondsToHours(seconds) == IntToString(h) + " HOURS" <==> h * 3600 <= seconds < (h + 1) * 3600
  {
    if ConvertSecondsToHours(seconds) == IntToString(h) + " HOURS" {
      var a, b := IntToString(seconds / 3600), IntToString(h);
      assert (a + " HOURS")[..|a + " HOURS"| - 6] == a;
      assert (b + " HOURS")[..|b + " HOURS"| - 6] == b;
      IntToStringInjective(seconds / 3600, h);
    }
  }

  /** A whole number of hours comes back as that number. */
  lemma WholeHoursRoundTrip(h: int)
    ensures ConvertSecondsToHours(h * 3600) == IntToString(h) + " HOURS"
  {
    HoursShown(h * 3600, h);
  }

  datatype TimerOutcome = NegativeHours | TimerSet

  /** `/timer hours`: a negative number is refused and the file is not
      written; otherwise `DUE` is set to `hours * 3600` seconds. */
  method SetTimer(lines: seq<string>, hours: int) returns (outcome: TimerOutcome, written: seq<string>)
    ensures outcome == NegativeHours <==> hours < 0
    ensures outcome == NegativeHours ==> written == lines
    ensures outcome == TimerSet ==> |written| == |lines|
    ensures outcome == TimerSet ==>
              forall k | FirstAssignment(lines, "DUE", k) :: written == lines[k := Assignment("DUE", NatToDecimal(hours * 3600))]
    ensures outcome == TimerSet && (forall i | 0 <= i < |lines| :: !Assigns(lines[i], "DUE")) ==> written == lines
  {
    if hours < 0 {
      outcome, written := NegativeHours, lines;
      return;
    }
    outcome := TimerSet;
    written := ReplaceEnvVariable(lines, "DUE", IntToString(hours * 3600));
  }

  /** What `/timer h` stores is read back (`int(env_vars['DUE'])`) as
      `h * 3600` seconds, which the messages show as `h` hours. */
  lemma TimerRoundTrip(hours: nat)
    ensures DigitsValue(NatToDecimal(hours * 3600)) == hours * 3600
    ensures ConvertSecondsToHours(DigitsValue(NatToDecimal(hours * 3600))) == NatToDecimal(hours) + " HOURS"
  {
    DecimalRoundTrip(hours * 3600);
    WholeHoursRoundTrip(hours);
  }
}
