# Status line for a coding-assistant session, in Dafny

This project models `status_lines/status_line.py`, a script that the
assistant runs to draw its status line. The script reads a JSON snapshot of
the session from standard input. It asks git for the current branch and for
the porcelain listing of changed files. It reads the sandbox flag from the
user's settings. From these it builds one colour-annotated line: the model
name, then the context-window usage, the working directory, the git branch
with its change count, the version and the sandbox state, joined by ` | `.
Before printing, it appends an entry for the event to a JSON log file. Input
text that is not JSON prints a red "Unknown" line. Any other failure prints a red
"Error" line.

The model is split into these modules:

- `Wrappers` holds `Option`.
- `Text` holds Python's `str.strip()`, `str.split(c)` and `sep.join`, and POSIX `os.path.basename`.
- `Decimal` holds `str()` on integers and the reading of a numeral back to its number.
- `StatusLine` holds token abbreviation, context usage, the usage tier, git change counting and segment assembly.
- `AuditLog` holds the log-list update. The log file is a `LogStore` object whose `file` field `LogStatusLine` updates.
- `Program` holds `main`, as the method `Run`.

Everything the script learns from outside is a parameter:

- the snapshot fields, as a `Snapshot` of `Option` fields;
- the outputs of the two git commands, as `Option<string>`;
- what reading the settings file gives, as a `SandboxSetting`: no flag, the flag, or an error that makes `generate_status_line` raise;
- the state of the log file;
- the timestamp.

Segment assembly comes in two parts:

- The specification is `GeneratedLine`. It defines the segments as the candidates that are present, out of six fixed places. Each candidate is either nothing or the segment that shows its fact.
- The implementation is the method `GenerateStatusLine`. It appends parts to a list block by block, as the script does, with one helper method per block. Its `ensures` ties it to `GeneratedLine`.

`Run` is specified by two functions:

- `Printed` gives the line that is printed.
- `FinalLog` gives the log file afterwards.

Where the code and its comments disagree, the model follows the code. The comment at
`status_lines/status_line.py:156` says red means "> 80%". The code chooses red
for a truncated percentage of 80 or more, and the model does the same.

## Model

| member | source | states |
|---|---|---|
| Text.Strip | status_lines/status_line.py:82 | The result is the slice of the input that starts after its leading white space (Python's `isspace` set) and has only white space after it. Neither end of the result is white space. The result is empty exactly when the input is all white space. |
| Text.StripTrailing | status_lines/status_line.py:82 | A text that starts and ends with a non-blank, followed by any white space, strips to exactly that text. |
| Text.StripDropsFinalNewline | status_lines/status_line.py:82-84 | Stripping a newline-terminated text whose first and last lines each hold a non-blank removes exactly one newline. |
| Text.Split | status_lines/status_line.py:84 | Splitting at `c` gives one more piece than there are `c`s, and no piece contains `c`. |
| Text.JoinSplit | status_lines/status_line.py:84 | Joining the pieces of a split with the separator gives back the original text. |
| Text.SplitJoin | status_lines/status_line.py:84 | Splitting a join of separator-free pieces gives back the pieces. |
| Text.Join | status_lines/status_line.py:197 | Joining a single part gives that part. The first part is always a prefix of the join. |
| Text.Basename | status_lines/status_line.py:171 | The result is a suffix of the path with no `/`. The character before it, if any, is `/`. The result is empty exactly when the path is empty or ends in `/`. |
| Decimal.NatToString | status_lines/status_line.py:94-95 | `str(n)` is a canonical numeral (digits, no leading zero) that reads back as `n`. |
| Decimal.NatToStringParseNat | status_lines/status_line.py:94-95 | Writing back the number a canonical numeral denotes gives that numeral, so numerals and naturals correspond one to one. |
| Decimal.IntToString | status_lines/status_line.py:95 | `str(i)` is the canonical numeral of `i`, or, for a negative `i`, a minus sign followed by the numeral of `-i`. |
| StatusLine.FormatTokens | status_lines/status_line.py:91-95 | The result ends in `k` exactly when the count is at least 1000. The part before the `k` is the canonical numeral of the count divided by 1000. Smaller counts are printed with `str`. |
| StatusLine.FormatTokensTruncates | status_lines/status_line.py:93-94 | The thousands shown are the count truncated, not rounded: shown*1000 <= count < shown*1000 + 1000. |
| StatusLine.FormatTokensExamples | status_lines/status_line.py:91-95 | 999 gives "999", 1000 gives "1k" and 1999 gives "1k". |
| StatusLine.FormatTokensLargeExample | status_lines/status_line.py:91-95 | 150000 gives "150k". |
| StatusLine.FormatTokensWindowExamples | status_lines/status_line.py:91-95 | 45000 gives "45k" and 100000 gives "100k". |
| StatusLine.Trunc | status_lines/status_line.py:137-139 | Python's `int()` on a number truncates toward zero. Its result bounds the number from below when the number is not negative, and from above when it is negative. |
| StatusLine.GetContextInfo | status_lines/status_line.py:121-139 | The result is None exactly when the percentage or the window size is missing. Otherwise the total is the window size unchanged, the percent is the truncated percentage, and the used tokens are percentage/100 * size, truncated. |
| StatusLine.ContextUsageBounds | status_lines/status_line.py:137-139 | For a percentage in [0, 100] and a non-negative window, 0 <= used <= total and 0 <= percent <= 100. |
| StatusLine.ContextInfoExample | status_lines/status_line.py:129-139 | 45% of a 100000-token window gives (45000, 100000, 45). 85% falls in the high tier. |
| StatusLine.TierOfPercentage | status_lines/status_line.py:156-162 | The tier of the truncated percentage is low exactly below 50, medium exactly on [50, 80) and high exactly from 80 on, so 79.9 is medium. |
| StatusLine.GitBranch | status_lines/status_line.py:55-68 | The branch is None exactly when the query failed. Otherwise it is exactly the query's output with surrounding white space stripped (`Strip`, whose own contract characterises `str.strip()`): no longer than the output, and, when non-empty, starting and ending with a non-blank. |
| StatusLine.GitBranchOfLine | status_lines/status_line.py:64-65 | A non-empty branch name with non-blank ends, printed with its trailing newline, is read back as exactly that name. |
| StatusLine.GitStatus | status_lines/status_line.py:81-85 | The result is empty exactly when the query failed or printed only white space. Otherwise it is `±` followed by the canonical numeral of the number of newline-separated lines in the stripped output. |
| StatusLine.GitStatusCountsLines | status_lines/status_line.py:81-85 | A listing of n lines, each ending in a newline and holding a non-blank, gives `±n`, including when the first line starts with a blank index column. |
| StatusLine.GitStatusExample | status_lines/status_line.py:81-85 | The porcelain output ` M a`, ` M b`, ` M c` (one per line) gives `±3`. |
| StatusLine.CandidatesFit | status_lines/status_line.py:144-195 | There are six places. The model name is always in the first. The candidate for place i is nothing or a segment of rank i that shows its fact: the basename of the directory, the stripped branch with its git status, the version as given, and so on. |
| StatusLine.SegmentsByPlace | status_lines/status_line.py:144-195 | The segments are the model name, then the context, directory, git, version and sandbox candidates, each when present, in that order. |
| StatusLine.SegmentsInOrder | status_lines/status_line.py:144-197 | The model segment, named after `display_name` or `Claude`, is always first. Ranks strictly increase, so no kind repeats and the fixed order holds. Every segment shows its fact. |
| StatusLine.SegmentPresence | status_lines/status_line.py:152-195 | Each optional segment is present exactly when its fact is: context info exists, the directory is non-empty, the branch is non-empty, the version is non-empty, or the sandbox state is known. |
| StatusLine.RenderAll | status_lines/status_line.py:144-195 | There is one part per segment, and part i is the rendering of segment i. |
| StatusLine.RenderAllSegments | status_lines/status_line.py:144-195 | The rendered line parts are the model part followed by the parts of the present candidates, place by place. |
| StatusLine.GeneratedLine | status_lines/status_line.py:142-197 | The line always starts with the cyan model segment. |
| StatusLine.AppendContext | status_lines/status_line.py:152-165 | The block appends the rendered context segment exactly when context info exists, and nothing otherwise. |
| StatusLine.AppendDirectory | status_lines/status_line.py:167-172 | The block appends the directory segment, showing the basename, exactly when `current_dir` is non-empty. |
| StatusLine.AppendGit | status_lines/status_line.py:174-181 | The block appends the git segment exactly when the stripped branch is non-empty. The status query is used only in that case. |
| StatusLine.AppendVersion | status_lines/status_line.py:183-186 | The block appends the version segment exactly when the version is non-empty. |
| StatusLine.AppendSandbox | status_lines/status_line.py:188-195 | The block raises exactly when the settings file is an error case (:110-112 outside the handler at :116). Otherwise it appends the tick or cross segment exactly when the flag is known. |
| StatusLine.GenerateStatusLine | status_lines/status_line.py:142-197 | The block-by-block method raises exactly when reading the settings file raises. Otherwise it returns exactly the specified line, i.e. the rendered segments joined by ` | `. |
| StatusLine.GeneratedLineAllAbsent | status_lines/status_line.py:142-197 | With every field absent and no git or sandbox facts, the line is just the cyan `[Claude]` segment. |
| StatusLine.StatusIgnoredWithoutBranch | status_lines/status_line.py:175-177 | Without a non-empty branch, the porcelain output has no effect on the line. |
| StatusLine.DirectorySegmentName | status_lines/status_line.py:168-172 | A directory segment only arises from a non-empty `current_dir`. It holds that path's basename, which contains no `/`. |
| StatusLine.BasenameOfLastComponent | status_lines/status_line.py:171 | For any path `dir/name` where `name` has no `/`, the basename is `name`. With a trailing slash, `name` is empty, so the basename is empty too. |
| StatusLine.RenderContextExample | status_lines/status_line.py:156-165 | The usage (45000, 100000, 45) renders as green `45k/100k (45%)`. |
| StatusLine.RenderIsLabelled | status_lines/status_line.py:149-194 | Each segment is its kind's colour escape, then its label, then the reset escape. The model shows `[name]` in cyan. The context shows `<used>/<total> (<percent>%)` in its tier's colour. The directory shows `📁 <dir>` in blue. Git shows `🌿 <branch>` in green, followed by a blank and the status only when the status is non-empty. The version shows `v<version>` in gray. The sandbox shows `Sandbox (✓)` in green or `Sandbox (✗)` in red. |
| StatusLine.RenderParts | status_lines/status_line.py:149-194 | The colour escape is a prefix of every segment's text and the reset escape its suffix, and the label fills exactly what lies between them. |
| StatusLine.RenderTextExamples | status_lines/status_line.py:149-186 | The model `Opus`, the directory `port` and the version `1.0.3` render, character for character, as cyan `[Opus]`, blue `📁 port` and gray `v1.0.3`, each closed by the reset escape. |
| StatusLine.RenderGitExamples | status_lines/status_line.py:178-181 | Branch `main` with status `±3` renders as green `🌿 main ±3`. With an empty status it renders as green `🌿 main`, with no trailing blank. |
| StatusLine.RenderSandboxOnExample | status_lines/status_line.py:191-192 | An enabled sandbox renders as green `Sandbox (✓)`. |
| StatusLine.RenderSandboxOffExample | status_lines/status_line.py:193-194 | A disabled sandbox renders as red `Sandbox (✗)`. |
| AuditLog.StartingList | status_lines/status_line.py:31-38 | The starting list is the decoded list, or empty when the file is missing or fails to decode. There is none when the file decodes to a value that is not a list. |
| AuditLog.UpdatedLog | status_lines/status_line.py:31-48 | The update fails (the append raises) exactly when the file holds a JSON value that is not a list. |
| AuditLog.UpdatedLogAppends | status_lines/status_line.py:48 | A list grows by exactly one item: the old items are kept as a prefix, and the new entry is last. |
| AuditLog.UpdatedLogResets | status_lines/status_line.py:31-38 | The result holds the new entry alone exactly when the file was missing, failed to decode, or held an empty list. |
| AuditLog.UpdatedLogChanges | status_lines/status_line.py:48 | A successful update always changes the file. |
| AuditLog.LogStore.LogStatusLine | status_lines/status_line.py:23-52 | The method raises exactly when the file holds a non-list value, and then leaves the file untouched. Otherwise the new file is the updated log with the entry (timestamp, snapshot, line). |
| Program.Run | status_lines/status_line.py:200-224 | The printed line and the final log file are `Printed` and `FinalLog` of the input, the environment and the old log file. |
| Program.StatusLineIsNoFallback | status_lines/status_line.py:217-223 | No generated status line equals the Unknown or the Error fallback line. |
| Program.PrintedLine | status_lines/status_line.py:200-224 | For a parsed snapshot, the status line is printed exactly when reading the settings file does not raise and the log can be appended to. The Unknown line is printed exactly for text that is not JSON. The Error line is printed exactly for malformed input, a settings file that makes generation raise, or an unappendable log. |
| Program.LogChangesWhenPrinted | status_lines/status_line.py:206-212 | The log changes exactly when the status line is printed, and then it is the log updated with that line's entry. Non-JSON input, malformed input and a raising settings file leave it untouched. |

## Left out

- Reading standard input (`status_lines/status_line.py:203`) is not modelled: the input is already text. Bytes that are not valid text make the read raise a `ValueError`, which the handler at :221 turns into the Error line. The model has no input case for such bytes; its outcome is the one `Malformed` input has.
- The git subprocess calls (`status_lines/status_line.py:58-63, 75-80`), their timeouts and their swallowed exceptions. Their results are the `Option<string>` fields of `Environment`, with None for a failed or non-zero-exit command.
- `get_sandbox_status` (`status_lines/status_line.py:98-118`) reads the settings file. What it gives is the `SandboxSetting` field `sandbox`. `SettingsError` stands for the file decoding to a JSON value that is not an object, or not being valid text; both raise past the handler at :116. A non-boolean `enabled` value, which the script tests for truthiness, is not modelled.
- JSON decoding of standard input. The input is a `Snapshot` of optional fields, or one of two failure flags: `NotJson`, and `Malformed` for JSON that makes `generate_status_line` raise. A field present with JSON `null` is taken as missing, but `model.display_name: null` would actually print `[None]`. Values of other JSON types rendered through `str()` are not modelled. Fields of the snapshot the script does not read are not kept in the log entry.
- Floating point. `used_percentage` is a `real`, so IEEE rounding at boundaries is not modelled. The context window size is an integer.
- Filesystem effects: creating the log directory, reading and writing the log file, the JSON formatting of the written file, and I/O errors other than a decode failure. The log file's state before a run is the `LogFile` value held by `LogStore`.
- `load_dotenv`, `datetime.now()` (the timestamp is a parameter), standard output and its trailing newline, and `sys.exit`.
- Concurrent runs racing on the log file's read-modify-write.
