/** The rendering core of the status-line script: from the parsed session
    snapshot and the facts gathered from git and the settings file to the one
    colour-annotated line that is printed. */
module StatusLine {
  import opened Wrappers
  import opened Text
  import opened Decimal

  // Terminal colour escapes and the glyphs the segments use.
  const Reset := "\U{1B}[0m"
  const Cyan := "\U{1B}[36m"
  const Green := "\U{1B}[32m"
  const Yellow := "\U{1B}[33m"
  const Red := "\U{1B}[31m"
  const Blue := "\U{1B}[34m"
  const Gray := "\U{1B}[90m"
  const FolderIcon := "\U{1F4C1}"
  const BranchIcon := "\U{1F33F}"
  const PlusMinus := '\U{B1}'
  const Tick := "\U{2713}"
  const Cross := "\U{2717}"

  /** The label shown when the snapshot names no model. */
  const DefaultModelName := "Claude"
  const Separator := " | "

  /** The fields of the JSON document read from standard input that the
      status line uses; each one may be missing (or JSON `null`). */
  datatype Snapshot = Snapshot(
    displayName: Option<string>,        // model.display_name
    usedPercentage: Option<real>,       // context_window.used_percentage
    contextWindowSize: Option<int>,     // context_window.context_window_size
    currentDir: Option<string>,         // workspace.current_dir
    version: Option<string>)            // version

  /** What `get_sandbox_status` makes of the user's settings file. */
  datatype SandboxSetting =
    | NoFlag              // missing, cannot be opened, not JSON, or no `sandbox.enabled` in an object
    | Flag(enabled: bool) // the boolean `sandbox.enabled`
    | SettingsError       // decodes to a JSON value that is not an object, or is not valid text: reading it raises

  /** What the script learns outside the snapshot: the standard output of
      `git rev-parse --abbrev-ref HEAD` and of `git status --porcelain` when
      each exits with status 0 (None on a non-zero exit, a timeout or a
      failure to start), and what reading the settings file gives. */
  datatype Environment = Environment(
    branchOutput: Option<string>,
    statusOutput: Option<string>,
    sandbox: SandboxSetting)

  /** Whether `generate_status_line` raises instead of returning a line: only
      the settings file can make it, since the git queries swallow their errors. */
  predicate GenerationRaises(env: Environment) { env.sandbox.SettingsError? }

  // ---------------------------------------------------------------------
  // Token counts

  /** `format_tokens`: counts of a thousand or more are shown as whole
      thousands followed by `k`; smaller counts are shown as they are. */
  function FormatTokens(t: int): (r: string)
    ensures t >= 1000 <==> (|r| > 0 && r[|r| - 1] == 'k')
    ensures t >= 1000 ==> IsCanonical(r[..|r| - 1]) && ParseNat(r[..|r| - 1]) == t / 1000
    ensures t < 1000 ==> r == IntToString(t)
  {
    if t >= 1000 then
      var r := NatToString(t / 1000) + "k";
      assert r[..|r| - 1] == NatToString(t / 1000);
      r
    else
      var r := IntToString(t);
      assert IsDigit(r[|r| - 1]);
      r
  }

  /** The abbreviation truncates: the thousands it shows never exceed the
      count, and the count is less than one thousand more. */
  lemma FormatTokensTruncates(t: int)
    requires t >= 1000
    ensures var r := FormatTokens(t);
      ParseNat(r[..|r| - 1]) * 1000 <= t < ParseNat(r[..|r| - 1]) * 1000 + 1000
  {
  }

  lemma FormatTokensExamples()
    ensures FormatTokens(999) == "999"
    ensures FormatTokens(1000) == "1k"
    ensures FormatTokens(1999) == "1k"
  {
  }

  lemma FormatTokensLargeExample()
    ensures FormatTokens(150000) == "150k"
  {
    NatToStringParseNat("150");
  }

  lemma FormatTokensWindowExamples()
    ensures FormatTokens(45000) == "45k"
    ensures FormatTokens(100000) == "100k"
  {
    NatToStringParseNat("45");
    NatToStringParseNat("100");
  }

  // ---------------------------------------------------------------------
  // Context-window usage

  /** Python's `int()` on a number: the integer part, rounding toward zero. */
  function Trunc(x: real): (n: int)
    ensures 0.0 <= x ==> n as real <= x < n as real + 1.0
    ensures x < 0.0 ==> n as real - 1.0 < x <= n as real
  {
    if x >= 0.0 then x.Floor else -((-x).Floor)
  }

  /** The triple `(used_tokens, total_tokens, used_percentage)` of `get_context_info`. */
  datatype ContextUsage = ContextUsage(used: int, total: int, percent: int)

  /** `get_context_info`: no usage unless both the percentage and the window
      size are given; otherwise the window size as given, the tokens used
      (that percentage of the window, truncated) and the truncated percentage. */
  function GetContextInfo(s: Snapshot): (r: Option<ContextUsage>)
    ensures r.None? <==> s.usedPercentage.None? || s.contextWindowSize.None?
    ensures r.Some? ==> r.value.total == s.contextWindowSize.value
    ensures r.Some? ==> r.value.percent == Trunc(s.usedPercentage.value)
    ensures r.Some? ==>
      r.value.used == Trunc(s.usedPercentage.value / 100.0 * s.contextWindowSize.value as real)
  {
    match (s.usedPercentage, s.contextWindowSize)
    case (Some(p), Some(size)) => Some(ContextUsage(Trunc(p / 100.0 * size as real), size, Trunc(p)))
    case _ => None
  }

  /** For a percentage between 0 and 100 of a non-negative window, the tokens
      used lie between 0 and the window size, and the shown percentage between
      0 and 100. */
  lemma ContextUsageBounds(s: Snapshot)
    requires s.usedPercentage.Some? && 0.0 <= s.usedPercentage.value <= 100.0
    requires s.contextWindowSize.Some? && 0 <= s.contextWindowSize.value
    ensures var u := GetContextInfo(s).value;
      0 <= u.used <= u.total && 0 <= u.percent <= 100
  {
    var p, size := s.usedPercentage.value, s.contextWindowSize.value as real;
    var x := p / 100.0 * size;
    assert 0.0 <= p / 100.0 <= 1.0;
    assert 0.0 <= x <= size by {
      assert x == (p / 100.0) * size;
    }
    var u := GetContextInfo(s).value;
    assert u.used as real <= x;
    assert u.used <= u.total by {
      assert u.used as real <= size;
    }
  }

  /** The colour bucket of the context segment. */
  datatype UsageTier = Low | Medium | High

  /** The tier of an integer percentage: below 50 low, below 80 medium, otherwise high. */
  function TierOf(percent: int): UsageTier {
    if percent < 50 then Low else if percent < 80 then Medium else High
  }

  function TierColour(t: UsageTier): string {
    match t
    case Low => Green
    case Medium => Yellow
    case High => Red
  }

  /** Since the tier is taken from the truncated percentage, the reported
      percentage falls in the low tier exactly below 50, in the medium tier
      from 50 up to (not including) 80, and in the high tier from 80 on. */
  lemma TierOfPercentage(p: real)
    ensures TierOf(Trunc(p)) == Low <==> p < 50.0
    ensures TierOf(Trunc(p)) == Medium <==> 50.0 <= p < 80.0
    ensures TierOf(Trunc(p)) == High <==> 80.0 <= p
  {
  }

  // ---------------------------------------------------------------------
  // Git facts

  /** `get_git_branch`: the stripped output of the branch query, when it succeeded. */
  function GitBranch(env: Environment): (r: Option<string>)
    ensures r.None? <==> env.branchOutput.None?
    ensures r.Some? ==> r.value == Strip(env.branchOutput.value)
    ensures r.Some? ==> |r.value| <= |env.branchOutput.value|
    ensures r.Some? && r.value != [] ==> !IsSpace(r.value[0]) && !IsSpace(r.value[|r.value| - 1])
  {
    match env.branchOutput
    case Some(out) => Some(Strip(out))
    case None => None
  }

  /** A branch name printed by git with its trailing newline is read back as that name. */
  lemma GitBranchOfLine(name: string, env: Environment)
    requires name != [] && !IsSpace(name[0]) && !IsSpace(name[|name| - 1])
    requires env.branchOutput == Some(name + "\n")
    ensures GitBranch(env) == Some(name)
  {
    StripTrailing(name, "\n");
  }

  /** `get_git_status` once the query has run: `±` and the number of lines of
      the stripped porcelain output, or nothing when the query failed or
      printed only white space. */
  function GitStatus(statusOutput: Option<string>): (r: string)
    ensures r == [] <==> statusOutput.None? || Strip(statusOutput.value) == []
    ensures r != [] ==>
      r[0] == PlusMinus && IsCanonical(r[1..]) &&
      ParseNat(r[1..]) == Count(Strip(statusOutput.value), '\n') + 1
  {
    match statusOutput
    case Some(out) =>
      var changes := Strip(out);
      if changes != [] then
        var r := [PlusMinus] + NatToString(|Split(changes, '\n')|);
        assert r[1..] == NatToString(|Split(changes, '\n')|);
        r
      else ""
    case None => ""
  }

  // ---------------------------------------------------------------------
  // Segments

  /** The pieces of the status line, in the order they are emitted. */
  datatype Segment =
    | ModelName(name: string)
    | Context(usage: ContextUsage)
    | Directory(dirName: string)
    | Git(branch: string, status: string)
    | Version(version: string)
    | Sandbox(enabled: bool)

  /** The position of a segment's kind in the fixed order. */
  function Rank(seg: Segment): nat {
    match seg
    case ModelName(_) => 0
    case Context(_) => 1
    case Directory(_) => 2
    case Git(_, _) => 3
    case Version(_) => 4
    case Sandbox(_) => 5
  }

  /** The colour a segment is shown in: the tier's colour for the context,
      green or red for the sandbox state, a fixed colour for every other kind. */
  function SegmentColour(seg: Segment): string {
    match seg
    case ModelName(_) => Cyan
    case Context(u) => TierColour(TierOf(u.percent))
    case Directory(_) => Blue
    case Git(_, _) => Green
    case Version(_) => Gray
    case Sandbox(on) => if on then Green else Red
  }

  /** What a segment shows between its colour escape and the reset escape.
      `Render` spells out the same literals in one match rather than being
      defined as `SegmentColour(seg) + Label(seg) + Reset`: with that body every
      caller of `Render` grows too costly to verify, so `RenderIsLabelled`
      proves the split instead. */
  function Label(seg: Segment): string {
    match seg
    case ModelName(name) => "[" + name + "]"
    case Context(u) =>
      FormatTokens(u.used) + "/" + FormatTokens(u.total) + " (" + IntToString(u.percent) + "%)"
    case Directory(d) => FolderIcon + " " + d
    case Git(b, st) => BranchIcon + " " + b + (if st != [] then " " + st else "")
    case Version(v) => "v" + v
    case Sandbox(on) => "Sandbox (" + (if on then Tick else Cross) + ")"
  }

  /** The text of one segment: its colour escape, its label, and the reset escape. */
  function Render(seg: Segment): string {
    match seg
    case ModelName(name) => Cyan + "[" + name + "]" + Reset
    case Context(u) =>
      TierColour(TierOf(u.percent)) + FormatTokens(u.used) + "/" + FormatTokens(u.total) +
      " (" + IntToString(u.percent) + "%)" + Reset
    case Directory(d) => Blue + FolderIcon + " " + d + Reset
    case Git(b, st) => Green + BranchIcon + " " + b + (if st != [] then " " + st else "") + Reset
    case Version(v) => Gray + "v" + v + Reset
    case Sandbox(on) => if on then Green + "Sandbox (" + Tick + ")" + Reset
                        else Red + "Sandbox (" + Cross + ")" + Reset
  }

  /** Every segment's text is the colour of its kind, then its label, then the
      reset escape. */
  lemma RenderIsLabelled(seg: Segment)
    ensures Render(seg) == SegmentColour(seg) + Label(seg) + Reset
  {
    match seg
    case ModelName(_) => ModelNameIsLabelled(seg);
    case Context(u) =>
      ContextRegroups(TierColour(TierOf(u.percent)), FormatTokens(u.used), FormatTokens(u.total),
                      IntToString(u.percent));
    case Directory(_) => DirectoryIsLabelled(seg);
    case Git(_, _) => GitIsLabelled(seg);
    case Version(_) => VersionIsLabelled(seg);
    case Sandbox(_) => SandboxIsLabelled(seg);
  }

  lemma ModelNameIsLabelled(seg: Segment)
    requires seg.ModelName?
    ensures Render(seg) == SegmentColour(seg) + Label(seg) + Reset
  {
  }

  lemma DirectoryIsLabelled(seg: Segment)
    requires seg.Directory?
    ensures Render(seg) == SegmentColour(seg) + Label(seg) + Reset
  {
  }

  lemma VersionIsLabelled(seg: Segment)
    requires seg.Version?
    ensures Render(seg) == SegmentColour(seg) + Label(seg) + Reset
  {
  }

  lemma GitIsLabelled(seg: Segment)
    requires seg.Git?
    ensures Render(seg) == SegmentColour(seg) + Label(seg) + Reset
  {
  }

  lemma SandboxIsLabelled(seg: Segment)
    requires seg.Sandbox?
    ensures Render(seg) == SegmentColour(seg) + Label(seg) + Reset
  {
  }

  /** So the colour starts the text, the reset ends it, and the label fills
      exactly the part in between. */
  lemma RenderParts(seg: Segment)
    ensures var r, colour := Render(seg), SegmentColour(seg);
      |r| == |colour| + |Label(seg)| + |Reset| &&
      r[..|colour|] == colour && r[|colour|..|r| - |Reset|] == Label(seg) && r[|r| - |Reset|..] == Reset
  {
    RenderIsLabelled(seg);
    ThreeParts(SegmentColour(seg), Label(seg), Reset);
  }

  lemma ContextRegroups(colour: string, used: string, total: string, percent: string)
    ensures colour + used + "/" + total + " (" + percent + "%)" + Reset
         == colour + (used + "/" + total + " (" + percent + "%)") + Reset
  {
  }

  lemma ThreeParts(a: string, b: string, c: string)
    ensures var r := a + b + c;
      r[..|a|] == a && r[|a|..|r| - |c|] == b && r[|r| - |c|..] == c
  {
    assert (a + b + c)[|a|..|a| + |b|] == b;
  }

  // When each optional segment is present.
  predicate HasContext(s: Snapshot) { GetContextInfo(s).Some? }
  predicate HasDirectory(s: Snapshot) { s.currentDir.Some? && s.currentDir.value != [] }
  predicate HasGit(env: Environment) { GitBranch(env).Some? && GitBranch(env).value != [] }
  predicate HasVersion(s: Snapshot) { s.version.Some? && s.version.value != [] }
  predicate HasSandbox(env: Environment) { env.sandbox.Flag? }

  /** A segment shows the fact of its kind. */
  predicate Shows(seg: Segment, s: Snapshot, env: Environment) {
    match seg
    case ModelName(name) => name == s.displayName.GetOr(DefaultModelName)
    case Context(u) => GetContextInfo(s) == Some(u)
    case Directory(d) => HasDirectory(s) && d == Basename(s.currentDir.value)
    case Git(b, st) => HasGit(env) && b == GitBranch(env).value && st == GitStatus(env.statusOutput)
    case Version(v) => HasVersion(s) && v == s.version.value
    case Sandbox(on) => env.sandbox == Flag(on)
  }

  /** A candidate for place `i` is either nothing or a segment of rank `i`
      that shows its fact. */
  predicate Fits(opt: Option<Segment>, i: nat, s: Snapshot, env: Environment) {
    opt.Some? ==> Rank(opt.value) == i && Shows(opt.value, s, env)
  }

  // The candidate segment for each place: the segment when its fact is present.
  function ContextCandidate(s: Snapshot): Option<Segment>
  {
    if HasContext(s) then Some(Context(GetContextInfo(s).value)) else None
  }

  function DirectoryCandidate(s: Snapshot): Option<Segment>
  {
    if HasDirectory(s) then Some(Directory(Basename(s.currentDir.value))) else None
  }

  function GitCandidate(env: Environment): Option<Segment>
  {
    if HasGit(env) then Some(Git(GitBranch(env).value, GitStatus(env.statusOutput))) else None
  }

  function VersionCandidate(s: Snapshot): Option<Segment>
  {
    if HasVersion(s) then Some(Version(s.version.value)) else None
  }

  function SandboxCandidate(env: Environment): Option<Segment>
  {
    if HasSandbox(env) then Some(Sandbox(env.sandbox.enabled)) else None
  }

  /** The candidates for the six places in the fixed order; the model name is always there. */
  function Candidates(s: Snapshot, env: Environment): seq<Option<Segment>> {
    [ Some(ModelName(s.displayName.GetOr(DefaultModelName))),
      ContextCandidate(s), DirectoryCandidate(s), GitCandidate(env),
      VersionCandidate(s), SandboxCandidate(env) ]
  }

  /** Candidate `i` is nothing or a segment of rank `i` showing its fact. */
  lemma CandidatesFit(s: Snapshot, env: Environment)
    ensures var opts := Candidates(s, env);
      |opts| == 6 && opts[0] == Some(ModelName(s.displayName.GetOr(DefaultModelName))) &&
      forall i | 0 <= i < 6 :: Fits(opts[i], i, s, env)
  {
    var opts := Candidates(s, env);
    assert Fits(opts[0], 0, s, env);
    assert Fits(opts[1], 1, s, env);
    assert Fits(opts[2], 2, s, env);
    assert Fits(opts[3], 3, s, env);
    assert Fits(opts[4], 4, s, env);
    assert Fits(opts[5], 5, s, env);
  }

  /** The candidates that are there, in order. */
  function Present(opts: seq<Option<Segment>>): seq<Segment> {
    if opts == [] then []
    else (if opts[0].Some? then [opts[0].value] else []) + Present(opts[1..])
  }

  /** Candidate `i` of `opts`, when there, has rank `base + i`. */
  predicate RanksFromBase(opts: seq<Option<Segment>>, base: nat) {
    forall i | 0 <= i < |opts| :: opts[i].Some? ==> Rank(opts[i].value) == base + i
  }

  /** Each present segment is the candidate in the place of its rank. */
  lemma {:induction false} PresentRanks(opts: seq<Option<Segment>>, base: nat)
    requires RanksFromBase(opts, base)
    ensures forall k | 0 <= k < |Present(opts)| ::
      base <= Rank(Present(opts)[k]) < base + |opts| && opts[Rank(Present(opts)[k]) - base] == Some(Present(opts)[k])
  {
    if opts != [] {
      var tail := opts[1..];
      assert RanksFromBase(tail, base + 1) by {
        forall i | 0 <= i < |tail| ensures tail[i].Some? ==> Rank(tail[i].value) == base + 1 + i {
          assert tail[i] == opts[i + 1];
        }
      }
      PresentRanks(tail, base + 1);
      var rest := Present(tail);
      var head := if opts[0].Some? then [opts[0].value] else [];
      assert Present(opts) == head + rest;
      forall k | 0 <= k < |head + rest|
        ensures base <= Rank((head + rest)[k]) < base + |opts| && opts[Rank((head + rest)[k]) - base] == Some((head + rest)[k])
      {
        if k >= |head| {
          var j := k - |head|;
          assert (head + rest)[k] == rest[j];
          assert tail[Rank(rest[j]) - (base + 1)] == Some(rest[j]);
        }
      }
    }
  }

  /** The present segments come out in strictly increasing rank. */
  lemma {:induction false} PresentSorted(opts: seq<Option<Segment>>, base: nat)
    requires RanksFromBase(opts, base)
    ensures forall i, j | 0 <= i < j < |Present(opts)| :: Rank(Present(opts)[i]) < Rank(Present(opts)[j])
  {
    if opts != [] {
      var tail := opts[1..];
      assert RanksFromBase(tail, base + 1) by {
        forall i | 0 <= i < |tail| ensures tail[i].Some? ==> Rank(tail[i].value) == base + 1 + i {
          assert tail[i] == opts[i + 1];
        }
      }
      PresentSorted(tail, base + 1);
      PresentRanks(tail, base + 1);
      var rest := Present(tail);
      var head := if opts[0].Some? then [opts[0].value] else [];
      assert Present(opts) == head + rest;
    }
  }

  /** The segment of rank `base + i` is present exactly when candidate `i` is there. */
  lemma {:induction false} PresentHas(opts: seq<Option<Segment>>, base: nat, i: nat)
    requires RanksFromBase(opts, base) && i < |opts|
    ensures (exists k | 0 <= k < |Present(opts)| :: Rank(Present(opts)[k]) == base + i) <==> opts[i].Some?
  {
    PresentRanks(opts, base);
    var tail := opts[1..];
    var rest := Present(tail);
    var head := if opts[0].Some? then [opts[0].value] else [];
    assert Present(opts) == head + rest;
    if opts[i].Some? {
      if i == 0 {
        assert Rank(Present(opts)[0]) == base;
      } else {
        assert RanksFromBase(tail, base + 1) by {
          forall j | 0 <= j < |tail| ensures tail[j].Some? ==> Rank(tail[j].value) == base + 1 + j {
            assert tail[j] == opts[j + 1];
          }
        }
        assert tail[i - 1] == opts[i];
        PresentHas(tail, base + 1, i - 1);
        var k :| 0 <= k < |rest| && Rank(rest[k]) == base + 1 + (i - 1);
        assert Present(opts)[|head| + k] == rest[k];
      }
    }
  }

  /** The segment a candidate contributes: itself when there, nothing otherwise. */
  function Opt(o: Option<Segment>): seq<Segment> {
    if o.Some? then [o.value] else []
  }

  /** Taking one more candidate adds its segment, if it is there, at the end. */
  lemma {:induction false} PresentSnoc(opts: seq<Option<Segment>>, i: nat)
    requires i < |opts|
    ensures Present(opts[..i + 1]) == Present(opts[..i]) + Opt(opts[i])
  {
    if i > 0 {
      PresentSnoc(opts[1..], i - 1);
      assert opts[..i + 1][1..] == opts[1..][..i];
      assert opts[..i][1..] == opts[1..][..i - 1];
      assert opts[1..][i - 1] == opts[i];
    }
  }

  /** The segments `generate_status_line` emits: the model name, then each
      optional segment whose fact is present, in the fixed order. */
  function Segments(s: Snapshot, env: Environment): seq<Segment> {
    Present(Candidates(s, env))
  }

  /** Six candidates contribute their segments one after the other. */
  lemma PresentOfSix(opts: seq<Option<Segment>>)
    requires |opts| == 6
    ensures Present(opts) == Opt(opts[0]) + Opt(opts[1]) + Opt(opts[2]) + Opt(opts[3]) + Opt(opts[4]) + Opt(opts[5])
  {
    PresentFirstThree(opts);
    PresentLastThree(opts);
    JoinHalves(Present(opts), Present(opts[..3]), Opt(opts[0]), Opt(opts[1]), Opt(opts[2]),
               Opt(opts[3]), Opt(opts[4]), Opt(opts[5]));
  }

  lemma PresentFirstThree(opts: seq<Option<Segment>>)
    requires |opts| == 6
    ensures Present(opts[..3]) == Opt(opts[0]) + Opt(opts[1]) + Opt(opts[2])
  {
    PresentThreeMore(opts, 0);
    assert opts[..0] == [];
    assert [] + Opt(opts[0]) == Opt(opts[0]);
  }

  lemma PresentLastThree(opts: seq<Option<Segment>>)
    requires |opts| == 6
    ensures Present(opts) == Present(opts[..3]) + Opt(opts[3]) + Opt(opts[4]) + Opt(opts[5])
  {
    PresentThreeMore(opts, 3);
    assert opts[..6] == opts;
  }

  lemma JoinHalves(all: seq<Segment>, half: seq<Segment>, a: seq<Segment>, b: seq<Segment>, c: seq<Segment>,
                   d: seq<Segment>, e: seq<Segment>, f: seq<Segment>)
    requires half == a + b + c && all == half + d + e + f
    ensures all == a + b + c + d + e + f
  {
  }

  /** Three more candidates add their segments, in order, to those before them. */
  lemma PresentThreeMore(opts: seq<Option<Segment>>, n: nat)
    requires n + 3 <= |opts|
    ensures Present(opts[..n + 3]) == Present(opts[..n]) + Opt(opts[n]) + Opt(opts[n + 1]) + Opt(opts[n + 2])
  {
    PresentSnoc(opts, n + 2);
    PresentSnoc(opts, n + 1);
    PresentSnoc(opts, n);
  }

  /** The segments place by place: the model name, then each optional
      segment when its fact is present. */
  lemma SegmentsByPlace(s: Snapshot, env: Environment)
    ensures Segments(s, env) ==
      [ModelName(s.displayName.GetOr(DefaultModelName))] + Opt(ContextCandidate(s)) +
      Opt(DirectoryCandidate(s)) + Opt(GitCandidate(env)) + Opt(VersionCandidate(s)) +
      Opt(SandboxCandidate(env))
  {
    var m := ModelName(s.displayName.GetOr(DefaultModelName));
    PresentOfSix(Candidates(s, env));
    assert Opt(Some(m)) == [m];
  }

  /** The model-name segment comes first, the others follow in strictly
      increasing rank, and each segment shows its fact. */
  lemma SegmentsInOrder(s: Snapshot, env: Environment)
    ensures var segs := Segments(s, env);
      |segs| > 0 && segs[0] == ModelName(s.displayName.GetOr(DefaultModelName)) &&
      (forall i, j | 0 <= i < j < |segs| :: Rank(segs[i]) < Rank(segs[j])) &&
      (forall k | 0 <= k < |segs| :: Shows(segs[k], s, env))
  {
    var opts := Candidates(s, env);
    var segs := Present(opts);
    CandidatesFit(s, env);
    assert RanksFromBase(opts, 0);
    PresentRanks(opts, 0);
    PresentSorted(opts, 0);
    assert segs == [opts[0].value] + Present(opts[1..]);
    assert forall k | 0 <= k < |segs| :: Fits(opts[Rank(segs[k])], Rank(segs[k]), s, env);
  }

  // Whether a list of segments holds a segment of each optional kind.
  predicate HasContextSegment(segs: seq<Segment>) { exists k | 0 <= k < |segs| :: segs[k].Context? }
  predicate HasDirectorySegment(segs: seq<Segment>) { exists k | 0 <= k < |segs| :: segs[k].Directory? }
  predicate HasGitSegment(segs: seq<Segment>) { exists k | 0 <= k < |segs| :: segs[k].Git? }
  predicate HasVersionSegment(segs: seq<Segment>) { exists k | 0 <= k < |segs| :: segs[k].Version? }
  predicate HasSandboxSegment(segs: seq<Segment>) { exists k | 0 <= k < |segs| :: segs[k].Sandbox? }

  /** In candidates ranked by place, a segment of each optional kind is
      present exactly when the candidate for its place is there. */
  lemma PresentKinds(opts: seq<Option<Segment>>)
    requires |opts| == 6 && RanksFromBase(opts, 0)
    ensures var segs := Present(opts);
      (HasContextSegment(segs) <==> opts[1].Some?) &&
      (HasDirectorySegment(segs) <==> opts[2].Some?) &&
      (HasGitSegment(segs) <==> opts[3].Some?) &&
      (HasVersionSegment(segs) <==> opts[4].Some?) &&
      (HasSandboxSegment(segs) <==> opts[5].Some?)
  {
    var segs := Present(opts);
    assert forall k | 0 <= k < |segs| ::
      (segs[k].Context? <==> Rank(segs[k]) == 1) && (segs[k].Directory? <==> Rank(segs[k]) == 2) &&
      (segs[k].Git? <==> Rank(segs[k]) == 3) && (segs[k].Version? <==> Rank(segs[k]) == 4) &&
      (segs[k].Sandbox? <==> Rank(segs[k]) == 5);
    PresentHas(opts, 0, 1);
    PresentHas(opts, 0, 2);
    PresentHas(opts, 0, 3);
    PresentHas(opts, 0, 4);
    PresentHas(opts, 0, 5);
  }

  /** Each optional segment is present exactly when its fact is. */
  lemma SegmentPresence(s: Snapshot, env: Environment)
    ensures var segs := Segments(s, env);
      (HasContextSegment(segs) <==> HasContext(s)) &&
      (HasDirectorySegment(segs) <==> HasDirectory(s)) &&
      (HasGitSegment(segs) <==> HasGit(env)) &&
      (HasVersionSegment(segs) <==> HasVersion(s)) &&
      (HasSandboxSegment(segs) <==> HasSandbox(env))
  {
    var opts := Candidates(s, env);
    CandidatesFit(s, env);
    assert RanksFromBase(opts, 0);
    PresentKinds(opts);
    assert opts[1].Some? <==> HasContext(s);
    assert opts[2].Some? <==> HasDirectory(s);
    assert opts[3].Some? <==> HasGit(env);
    assert opts[4].Some? <==> HasVersion(s);
    assert opts[5].Some? <==> HasSandbox(env);
  }

  /** The rendering of each segment, in order. */
  function RenderAll(segs: seq<Segment>): (parts: seq<string>)
    ensures |parts| == |segs|
    ensures forall i | 0 <= i < |segs| :: parts[i] == Render(segs[i])
  {
    if segs == [] then [] else RenderAll(segs[..|segs| - 1]) + [Render(segs[|segs| - 1])]
  }

  /** Rendering distributes over concatenation. */
  lemma {:induction false} RenderAllAppend(a: seq<Segment>, b: seq<Segment>)
    ensures RenderAll(a + b) == RenderAll(a) + RenderAll(b)
  {
    if b != [] {
      var c := b[..|b| - 1];
      RenderAllAppend(a, c);
      assert (a + b)[..|a + b| - 1] == a + c;
    } else {
      assert a + b == a;
    }
  }

  /** The rendering of the segments, place by place. */
  lemma RenderAllSegments(s: Snapshot, env: Environment)
    ensures RenderAll(Segments(s, env)) ==
      [Render(ModelName(s.displayName.GetOr(DefaultModelName)))] +
      RenderAll(Opt(ContextCandidate(s))) + RenderAll(Opt(DirectoryCandidate(s))) +
      RenderAll(Opt(GitCandidate(env))) + RenderAll(Opt(VersionCandidate(s))) +
      RenderAll(Opt(SandboxCandidate(env)))
  {
    var m := [ModelName(s.displayName.GetOr(DefaultModelName))];
    var c1, c2, c3 := Opt(ContextCandidate(s)), Opt(DirectoryCandidate(s)), Opt(GitCandidate(env));
    var c4, c5 := Opt(VersionCandidate(s)), Opt(SandboxCandidate(env));
    SegmentsByPlace(s, env);
    RenderAllAppend(m + c1 + c2 + c3 + c4, c5);
    RenderAllAppend(m + c1 + c2 + c3, c4);
    RenderAllAppend(m + c1 + c2, c3);
    RenderAllAppend(m + c1, c2);
    RenderAllAppend(m, c1);
    assert RenderAll(m) == [Render(m[0])] by {
      assert m[..0] == [];
    }
  }

  /** The status line: the rendered segments joined by ` | `. It is the
      line `generate_status_line` returns whenever it does not raise. */
  function GeneratedLine(s: Snapshot, env: Environment): (line: string)
    ensures var first := Render(ModelName(s.displayName.GetOr(DefaultModelName)));
      |first| <= |line| && line[..|first|] == first
  {
    SegmentsInOrder(s, env);
    Join(RenderAll(Segments(s, env)), Separator)
  }

  /** The rendering of a candidate: its segment's text when there, nothing otherwise. */
  lemma RenderCandidate(o: Option<Segment>)
    ensures RenderAll(Opt(o)) == if o.Some? then [Render(o.value)] else []
  {
  }

  // The blocks of `generate_status_line`: each appends the rendering of its
  // segment to the list of parts when the segment's fact is present.

  method AppendContext(s: Snapshot, parts: seq<string>) returns (parts': seq<string>)
    ensures parts' == parts + RenderAll(Opt(ContextCandidate(s)))
  {
    parts' := parts;
    RenderCandidate(ContextCandidate(s));
    var contextInfo := GetContextInfo(s);
    if contextInfo.Some? {
      parts' := parts' + [Render(Context(contextInfo.value))];
    }
  }

  method AppendDirectory(s: Snapshot, parts: seq<string>) returns (parts': seq<string>)
    ensures parts' == parts + RenderAll(Opt(DirectoryCandidate(s)))
  {
    parts' := parts;
    RenderCandidate(DirectoryCandidate(s));
    var currentDir := s.currentDir.GetOr("");
    if currentDir != [] {
      var dirName := Basename(currentDir);
      parts' := parts' + [Render(Directory(dirName))];
    }
  }

  /** The porcelain query is consulted only once a non-empty branch is known. */
  method AppendGit(env: Environment, parts: seq<string>) returns (parts': seq<string>)
    ensures parts' == parts + RenderAll(Opt(GitCandidate(env)))
  {
    parts' := parts;
    RenderCandidate(GitCandidate(env));
    var gitBranch := GitBranch(env);
    if gitBranch.Some? && gitBranch.value != [] {
      var gitStatus := GitStatus(env.statusOutput);
      parts' := parts' + [Render(Git(gitBranch.value, gitStatus))];
    }
  }

  method AppendVersion(s: Snapshot, parts: seq<string>) returns (parts': seq<string>)
    ensures parts' == parts + RenderAll(Opt(VersionCandidate(s)))
  {
    parts' := parts;
    RenderCandidate(VersionCandidate(s));
    var version := s.version.GetOr("");
    if version != [] {
      parts' := parts' + [Render(Version(version))];
    }
  }

  /** The settings file is read here, so this is where a settings file that
      is not a JSON object makes the whole generation raise. */
  method AppendSandbox(env: Environment, parts: seq<string>) returns (parts': seq<string>, raised: bool)
    ensures raised <==> GenerationRaises(env)
    ensures parts' == parts + RenderAll(Opt(SandboxCandidate(env)))
  {
    parts' := parts;
    RenderCandidate(SandboxCandidate(env));
    match env.sandbox {
      case SettingsError =>
        return parts', true;
      case NoFlag =>
      case Flag(on) =>
        parts' := parts' + [Render(Sandbox(on))];
    }
    raised := false;
  }

  /** `generate_status_line`: the model segment, then each block in turn,
      and the parts joined by ` | `; nothing when reading the settings file raises. */
  method GenerateStatusLine(s: Snapshot, env: Environment) returns (line: Option<string>)
    ensures line.None? <==> GenerationRaises(env)
    ensures line.Some? ==> line.value == GeneratedLine(s, env)
  {
    var modelName := s.displayName.GetOr(DefaultModelName);
    var parts := [Render(ModelName(modelName))];
    parts := AppendContext(s, parts);
    parts := AppendDirectory(s, parts);
    parts := AppendGit(env, parts);
    parts := AppendVersion(s, parts);
    var raised;
    parts, raised := AppendSandbox(env, parts);
    if raised {
      return None;
    }
    RenderAllSegments(s, env);
    line := Some(Join(parts, Separator));
  }

  // ---------------------------------------------------------------------
  // Properties of the whole line

  /** With no field in the snapshot and no fact from git or the settings
      file, the line is the default model segment alone. */
  lemma GeneratedLineAllAbsent()
    ensures GeneratedLine(Snapshot(None, None, None, None, None), Environment(None, None, NoFlag))
            == Cyan + "[Claude]" + Reset
  {
  }

  /** Without a non-empty branch the porcelain output has no effect on the
      line: the status query is never consulted. */
  lemma StatusIgnoredWithoutBranch(s: Snapshot, env: Environment, other: Option<string>)
    requires !HasGit(env)
    ensures GeneratedLine(s, env) == GeneratedLine(s, env.(statusOutput := other))
  {
  }

  /** The directory segment holds the last component of the working
      directory, which has no `/` in it. */
  lemma DirectorySegmentName(s: Snapshot, env: Environment)
    ensures var segs := Segments(s, env);
      forall k | 0 <= k < |segs| :: segs[k].Directory? ==>
        HasDirectory(s) && segs[k].dirName == Basename(s.currentDir.value) && '/' !in segs[k].dirName
  {
    var segs := Segments(s, env);
    SegmentsInOrder(s, env);
    forall k | 0 <= k < |segs| && segs[k].Directory?
      ensures HasDirectory(s) && segs[k].dirName == Basename(s.currentDir.value) && '/' !in segs[k].dirName
    {
      assert Shows(segs[k], s, env);
    }
  }

  /** Worked example: 45% of a 100000-token window is 45000 tokens. */
  lemma ContextInfoExample()
    ensures GetContextInfo(Snapshot(None, Some(45.0), Some(100000), None, None)) == Some(ContextUsage(45000, 100000, 45))
    ensures TierOf(GetContextInfo(Snapshot(None, Some(85.0), Some(100000), None, None)).value.percent) == High
  {
  }

  /** Worked example: that usage is rendered as `45k/100k (45%)` in green. */
  lemma RenderContextExample()
    ensures Render(Context(ContextUsage(45000, 100000, 45))) == Green + "45k/100k (45%)" + Reset
  {
  }

  /** The directory segment of a path whose last component is `name` holds `name`. */
  lemma {:induction false} BasenameOfLastComponent(dir: string, name: string)
    requires '/' !in name
    ensures Basename(dir + "/" + name) == name
  {
    var p := dir + "/" + name;
    if name != [] {
      var init := name[..|name| - 1];
      assert p[..|p| - 1] == dir + "/" + init;
      BasenameOfLastComponent(dir, init);
      assert init + [name[|name| - 1]] == name;
    }
  }

  /** A porcelain listing of `n` changed paths, one per line and ending in a
      newline, gives `±n`. Only the blanks around the whole listing are
      stripped, so a first line such as ` M file` still counts. */
  lemma GitStatusCountsLines(lines: seq<string>)
    requires |lines| > 0
    requires forall k | 0 <= k < |lines| :: '\n' !in lines[k]
    requires forall k | 0 <= k < |lines| :: HasNonBlank(lines[k])
    ensures GitStatus(Some(Join(lines, "\n") + "\n")) == [PlusMinus] + NatToString(|lines|)
  {
    ListingStripsToLines(lines);
    GitStatusOfCount(Join(lines, "\n") + "\n", |lines|);
  }

  /** Stripping such a listing leaves one newline fewer than there are lines. */
  lemma ListingStripsToLines(lines: seq<string>)
    requires |lines| > 0
    requires forall k | 0 <= k < |lines| :: '\n' !in lines[k]
    requires forall k | 0 <= k < |lines| :: HasNonBlank(lines[k])
    ensures Strip(Join(lines, "\n") + "\n") != []
    ensures Count(Strip(Join(lines, "\n") + "\n"), '\n') + 1 == |lines|
  {
    var listing := Join(lines, "\n");
    var first, last := lines[0], lines[|lines| - 1];
    assert '\n' !in first && '\n' !in last && HasNonBlank(first) && HasNonBlank(last);
    assert |first| <= |listing| && listing[..|first|] == first;
    JoinEndsWithLast(lines, "\n");
    StripBetweenLines(listing, first, last);
    assert Count(listing, '\n') + 1 == |lines| by {
      SplitJoin(lines, '\n');
    }
    assert Count(listing + "\n", '\n') == |lines| by {
      CountAppend(listing, "\n", '\n');
    }
  }

  /** A newline-terminated text whose first and last lines each hold a
      non-blank loses only its final newline to stripping. */
  lemma StripBetweenLines(listing: string, first: string, last: string)
    requires |first| <= |listing| && listing[..|first|] == first
    requires |last| <= |listing| && listing[|listing| - |last|..] == last
    requires '\n' !in first && '\n' !in last
    requires HasNonBlank(first) && HasNonBlank(last)
    ensures Strip(listing + "\n") != []
    ensures Count(Strip(listing + "\n"), '\n') + 1 == Count(listing + "\n", '\n')
  {
    var x := listing + "\n";
    var j0 :| 0 <= j0 < |first| && !IsSpace(first[j0]);
    var j :| 0 <= j < |last| && !IsSpace(last[j]);
    var j1 := |listing| - |last| + j;
    FirstAndLastLine(listing, first, last, j0, j);
    StripDropsFinalNewline(x, j0, j1);
  }

  /** Where the first and the last line sit in a newline-terminated listing. */
  lemma FirstAndLastLine(listing: string, first: string, last: string, j0: nat, j: nat)
    requires |first| <= |listing| && listing[..|first|] == first
    requires |last| <= |listing| && listing[|listing| - |last|..] == last
    requires '\n' !in first && '\n' !in last
    requires j0 < |first| && j < |last|
    ensures var x, j1 := listing + "\n", |listing| - |last| + j;
      x[j0] == first[j0] && x[j1] == last[j] && x[|x| - 1] == '\n' &&
      (forall k | 0 <= k < j0 :: x[k] != '\n') &&
      (forall k | j1 < k < |x| - 1 :: x[k] != '\n')
  {
    var x := listing + "\n";
    var start := |listing| - |last|;
    assert x[j0] == listing[..|first|][j0];
    assert x[start + j] == listing[start..][j];
    forall k | 0 <= k < j0
      ensures x[k] != '\n'
    {
      assert x[k] == listing[..|first|][k];
    }
    forall k | start + j < k < |x| - 1
      ensures x[k] != '\n'
    {
      assert x[k] == listing[start..][k - start];
    }
  }

  /** Output that is not all blank and whose stripped form has `n - 1`
      newlines gives `±n`. */
  lemma GitStatusOfCount(out: string, n: nat)
    requires Strip(out) != [] && Count(Strip(out), '\n') + 1 == n
    ensures GitStatus(Some(out)) == [PlusMinus] + NatToString(n)
  {
  }

  /** Worked example: three unstaged changes, each line starting with a blank
      index column, give `±3`. */
  lemma GitStatusExample()
    ensures GitStatus(Some(" M a\n M b\n M c\n")) == [PlusMinus] + "3"
  {
    var lines := [" M a", " M b", " M c"];
    assert forall k | 0 <= k < 3 :: lines[k][1] == 'M' && HasNonBlank(lines[k]);
    assert Join(lines, "\n") + "\n" == " M a\n M b\n M c\n";
    GitStatusCountsLines(lines);
    assert NatToString(3) == "3";
  }

  /** Worked examples of the model, directory and version segments, written
      out character by character. */
  lemma RenderTextExamples()
    ensures Render(ModelName("Opus")) == "\U{1B}[36m[Opus]\U{1B}[0m"
    ensures Render(Directory("port")) == "\U{1B}[34m\U{1F4C1} port\U{1B}[0m"
    ensures Render(Version("1.0.3")) == "\U{1B}[90mv1.0.3\U{1B}[0m"
  {
  }

  /** Worked examples of the git segment: the status follows the branch only when there is one. */
  lemma RenderGitExamples()
    ensures Render(Git("main", "\U{B1}3")) == "\U{1B}[32m\U{1F33F} main \U{B1}3\U{1B}[0m"
    ensures Render(Git("main", "")) == "\U{1B}[32m\U{1F33F} main\U{1B}[0m"
  {
  }

  /** Worked examples of the sandbox segment: a green tick or a red cross. */
  lemma RenderSandboxOnExample()
    ensures Render(Sandbox(true)) == "\U{1B}[32mSandbox (\U{2713})\U{1B}[0m"
  {
  }

  lemma RenderSandboxOffExample()
    ensures Render(Sandbox(false)) == "\U{1B}[31mSandbox (\U{2717})\U{1B}[0m"
  {
  }
}
