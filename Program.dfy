/** `main`: reads the snapshot, renders and logs the status line, and falls
    back to a fixed red line when anything goes wrong. */
module Program {
  import opened Wrappers
  import opened StatusLine
  import opened AuditLog

  /** What standard input turns out to hold: text that is not JSON, JSON that
      makes `generate_status_line` raise (a document that is not an object,
      or a field of the wrong type), or a snapshot it can render. */
  datatype Input = NotJson | Malformed | Parsed(snapshot: Snapshot)

  /** The line printed when standard input is not JSON. */
  const UnknownLine := Red + "[Claude] " + FolderIcon + " Unknown" + Reset

  /** The line printed when anything else raises. */
  const ErrorLine := Red + "[Claude] " + FolderIcon + " Error" + Reset

  /** The line `main` prints for this input, environment and log file. */
  function Printed(input: Input, env: Environment, file: LogFile): string {
    match input
    case NotJson => UnknownLine
    case Malformed => ErrorLine
    case Parsed(s) =>
      if GenerationRaises(env) || Raises(file) then ErrorLine else GeneratedLine(s, env)
  }

  /** The log file after `main`: one more entry exactly when the status line
      was generated and logged. */
  function FinalLog(input: Input, env: Environment, file: LogFile, timestamp: string): LogFile {
    match input
    case Parsed(s) =>
      if GenerationRaises(env) then file
      else UpdatedLog(file, LogEntry(timestamp, s, GeneratedLine(s, env))).GetOr(file)
    case _ => file
  }

  /** `main`. Rendering comes before logging, so a settings file that makes
      rendering raise leaves the log alone; logging comes before printing, so
      a log that cannot be appended to replaces the status line by the error line. */
  method Run(input: Input, env: Environment, log: LogStore, timestamp: string) returns (printed: string)
    modifies log
    ensures printed == Printed(input, env, old(log.file))
    ensures log.file == FinalLog(input, env, old(log.file), timestamp)
  {
    match input {
      case NotJson =>
        printed := UnknownLine;
      case Malformed =>
        printed := ErrorLine;
      case Parsed(s) =>
        var statusLine := GenerateStatusLine(s, env);
        if statusLine.None? {
          printed := ErrorLine;
        } else {
          var raised := log.LogStatusLine(s, statusLine.value, timestamp);
          if raised {
            printed := ErrorLine;
          } else {
            printed := statusLine.value;
          }
        }
    }
  }

  /** No status line is either fallback line: it starts with the cyan escape,
      they start with the red one. */
  lemma StatusLineIsNoFallback(s: Snapshot, env: Environment)
    ensures GeneratedLine(s, env) != UnknownLine && GeneratedLine(s, env) != ErrorLine
  {
    var line := GeneratedLine(s, env);
    var first := Render(ModelName(s.displayName.GetOr(DefaultModelName)));
    assert line[..|first|] == first;
    assert line[3] == first[3] == '6';
    assert UnknownLine[3] == '1' && ErrorLine[3] == '1';
  }

  /** The status line is printed exactly when the input is a snapshot, the
      settings file can be read and the log can be appended to; otherwise
      invalid JSON prints the unknown line and every other failure the error line. */
  lemma PrintedLine(input: Input, env: Environment, file: LogFile)
    ensures input.Parsed? ==>
      (Printed(input, env, file) == GeneratedLine(input.snapshot, env) <==>
         !GenerationRaises(env) && !Raises(file))
    ensures Printed(input, env, file) == UnknownLine <==> input.NotJson?
    ensures Printed(input, env, file) == ErrorLine <==>
      input.Malformed? || (input.Parsed? && (GenerationRaises(env) || Raises(file)))
  {
    assert UnknownLine != ErrorLine by {
      assert UnknownLine[|Red| + 9 + |FolderIcon| + 1] == 'U';
      assert ErrorLine[|Red| + 9 + |FolderIcon| + 1] == 'E';
    }
    if input.Parsed? {
      StatusLineIsNoFallback(input.snapshot, env);
    }
  }

  /** The log changes exactly when the status line is printed, and then by
      one entry recording the snapshot and that line. */
  lemma LogChangesWhenPrinted(input: Input, env: Environment, file: LogFile, timestamp: string)
    ensures FinalLog(input, env, file, timestamp) != file <==>
      input.Parsed? && Printed(input, env, file) == GeneratedLine(input.snapshot, env)
    ensures FinalLog(input, env, file, timestamp) != file ==>
      Some(FinalLog(input, env, file, timestamp)) ==
        UpdatedLog(file, LogEntry(timestamp, input.snapshot, GeneratedLine(input.snapshot, env)))
  {
    if input.Parsed? {
      var s := input.snapshot;
      StatusLineIsNoFallback(s, env);
      if !GenerationRaises(env) && !Raises(file) {
        UpdatedLogChanges(file, LogEntry(timestamp, s, GeneratedLine(s, env)));
      }
    }
  }
}
