/**
 The collection script: its generator, as commands of a small shell language, and
 what a session that runs it prints. Each probe is gated by its tools and its
 privilege, and framed by marker lines.
 */
module Script {
  import opened Basics
  import opened Text
  import opened Utf8
  import opened Protocol
  import opened Model
  import opened Transcripts
  import OsRelease
  import Sorting

  // ---------- the shell language ----------

  /** The variables of the script. */
  datatype Name = IsRoot | Missing | UnavailableMark | PartialMark | TruncatedMark

  datatype Word = Lit(text: string) | Var(name: Name) | Glue(first: Word, second: Word) | HostName | Kernel

  datatype Test =
    | HasTool(tool: string)
    | EuidKnown
    | EuidZero
    | OsReleaseExists
    | OsReleaseReadable
    | NonEmpty(name: Name)
    | Equals(name: Name, value: string)
    | Negated(test: Test)

  datatype Command =
    | Nothing
    | Assign(name: Name, value: Word)
    | Print(line: Word)
    | If(test: Test, yes: Command, no: Command)
    | Then(first: Command, second: Command)
    | DumpOsRelease(failure: Command)
    | Fragment(script: string)

  /** Top-level lines: plain commands, and the three lines of a section. */
  datatype Line =
    | Do(command: Command)
    | BeginMarker(text: string)
    | Subshell(body: Command)
    | EndMarker(stem: string)

  // ---------- the host ----------

  datatype OsFile = OsFile(present: bool, readable: bool, bytes: seq<Byte>, dumps: bool)

  type ExitStatus = n: nat | n < 256

  datatype Outcome = Outcome(output: string, status: ExitStatus)

  /** Everything the target decides: tools, privilege, metadata, what each probe fragment does. */
  datatype Host = Host(
    tools: set<string>,
    root: Option<bool>,
    hostname: string,
    kernel: string,
    osFile: OsFile,
    run: (string, Env) -> Outcome)

  // ---------- semantics ----------

  datatype Env = Env(isRoot: string, missing: string, unavailable: string, partial: string, truncated: string) {
    function Get(name: Name): string {
      match name
      case IsRoot => isRoot
      case Missing => missing
      case UnavailableMark => unavailable
      case PartialMark => partial
      case TruncatedMark => truncated
    }

    function Set(name: Name, value: string): Env {
      match name
      case IsRoot => this.(isRoot := value)
      case Missing => this.(missing := value)
      case UnavailableMark => this.(unavailable := value)
      case PartialMark => this.(partial := value)
      case TruncatedMark => this.(truncated := value)
    }
  }

  datatype Effect = Effect(out: string, env: Env, status: ExitStatus)

  function Expand(w: Word, env: Env, host: Host): string {
    match w
    case Lit(text) => text
    case Var(name) => env.Get(name)
    case Glue(first, second) => Expand(first, env, host) + Expand(second, env, host)
    case HostName => host.hostname
    case Kernel => host.kernel
  }

  predicate Holds(t: Test, env: Env, host: Host) {
    match t
    case HasTool(tool) => tool in host.tools
    case EuidKnown => host.root.Some?
    case EuidZero => host.root == Some(true)
    case OsReleaseExists => host.osFile.present
    case OsReleaseReadable => host.osFile.readable
    case NonEmpty(name) => env.Get(name) != ""
    case Equals(name, value) => env.Get(name) == value
    case Negated(test) => !Holds(test, env, host)
  }

  function Exec(c: Command, env: Env, host: Host): Effect {
    match c
    case Nothing => Effect("", env, 0)
    case Assign(name, value) => Effect("", env.Set(name, Expand(value, env, host)), 0)
    case Print(line) => Effect(Expand(line, env, host) + "\n", env, 0)
    case If(test, yes, no) => if Holds(test, env, host) then Exec(yes, env, host) else Exec(no, env, host)
    case Then(first, second) =>
      var a := Exec(first, env, host);
      var b := Exec(second, a.env, host);
      Effect(a.out + b.out, b.env, b.status)
    case DumpOsRelease(failure) =>
      if host.osFile.dumps
      then Effect(OsRelease.Dump(host.osFile.bytes[..Min(|host.osFile.bytes|, OsRelease.LIMIT + 1)]), env, 0)
      else Exec(failure, env, host)
    case Fragment(script) => Effect(host.run(script, env).output, env, host.run(script, env).status)
  }

  lemma ThenExec(c: Command, next: Command, env: Env, host: Host, a: Effect, b: Effect)
    requires a == Exec(c, env, host) && b == Exec(next, a.env, host)
    ensures Exec(Then(c, next), env, host) == Effect(a.out + b.out, b.env, b.status)
  {
  }

  /** A session so far: its output, its variables, the last status, and whether the shell gave up. */
  datatype Session = Session(out: string, env: Env, last: ExitStatus, aborted: bool)

  const SYNTAX_ERROR_STATUS := 2

  /** A subshell without a command is a syntax error, which ends the shell. */
  function RunLine(line: Line, s: Session, host: Host): Session {
    if s.aborted then s
    else
      match line
      case Do(command) =>
        var e := Exec(command, s.env, host);
        s.(out := s.out + e.out, env := e.env, last := e.status)
      case BeginMarker(text) => s.(out := s.out + (text + "\n"), last := 0)
      case Subshell(body) =>
        if body.Nothing? then s.(last := SYNTAX_ERROR_STATUS, aborted := true)
        else
          var e := Exec(body, s.env, host);
          s.(out := s.out + e.out, last := e.status)
      case EndMarker(stem) => s.(out := s.out + ("\n" + (stem + Decimal(s.last) + "__\n")), last := 0)
  }

  function RunLines(lines: seq<Line>, s: Session, host: Host): Session {
    if lines == [] then s else RunLine(lines[|lines| - 1], RunLines(lines[..|lines| - 1], s, host), host)
  }

  lemma {:induction false} RunConcat(a: seq<Line>, b: seq<Line>, s: Session, host: Host)
    ensures RunLines(a + b, s, host) == RunLines(b, RunLines(a, s, host), host)
  {
    if b == [] {
      assert a + b == a;
    } else {
      assert (a + b)[..|a + b| - 1] == a + b[..|b| - 1];
      RunConcat(a, b[..|b| - 1], s, host);
    }
  }

  // ---------- the generator ----------

  function Append(c: Command, next: Command): Command {
    if c.Nothing? then next else Then(c, next)
  }

  const DETECT_ROOT: Command :=
    Then(Assign(IsRoot, Lit("unknown")), If(EuidKnown, ROOT_FLAG, Nothing))

  const ROOT_FLAG: Command := If(EuidZero, Assign(IsRoot, Lit("1")), Assign(IsRoot, Lit("0")))

  function Preamble(m: Markers): seq<Line> {
    [Do(DETECT_ROOT),
     Do(Assign(UnavailableMark, Lit(m.unavailable))),
     Do(Assign(PartialMark, Lit(m.partial))),
     Do(Assign(TruncatedMark, Lit(m.truncated)))]
  }

  function Assignment(key: string, value: string): string {
    key + "=" + value
  }

  function PrintAssignment(key: string, value: Word): Command {
    Print(Glue(Lit(key + "="), value))
  }

  const META_BODY: Command :=
    Then(Then(Then(
      PrintAssignment("hostname", HostName),
      PrintAssignment("kernel", Kernel)),
      PrintAssignment("root", Var(IsRoot))),
      If(HasTool("sudo"), PrintAssignment("sudo_present", Lit("1")), PrintAssignment("sudo_present", Lit("0"))))

  const NOT_READABLE := "os-release is not readable"
  const READ_FAILED := "os-release read failed"
  const OD_REQUIRED := "od is required to read os-release safely"

  const OS_RELEASE_BODY: Command :=
    If(OsReleaseExists,
       If(Negated(OsReleaseReadable),
          Print(Glue(Var(UnavailableMark), Lit(" " + NOT_READABLE))),
          If(HasTool("od"),
             DumpOsRelease(Print(Glue(Var(UnavailableMark), Lit(" " + READ_FAILED)))),
             Print(Glue(Var(UnavailableMark), Lit(" " + OD_REQUIRED))))),
       Nothing)

  function ToolLine(tool: string): Command {
    If(HasTool(tool), Print(Lit("tool=" + tool)), Nothing)
  }

  function CapabilityBody(tools: seq<string>): Command {
    if tools == [] then Nothing
    else Append(CapabilityBody(tools[..|tools| - 1]), ToolLine(tools[|tools| - 1]))
  }

  function CheckTool(tool: string): Command {
    If(HasTool(tool), Nothing, Assign(Missing, Glue(Var(Missing), Lit(" " + tool))))
  }

  function CheckTools(tools: seq<string>): Command {
    if tools == [] then Assign(Missing, Lit(""))
    else Then(CheckTools(tools[..|tools| - 1]), CheckTool(tools[|tools| - 1]))
  }

  const MISSING_TOOLS := "missing required tool(s):"
  const ROOT_REQUIRED := "root access required; rerun with --sudo"
  const ROOT_RECOMMENDED := "root access unavailable; " + "evidence may omit other users"

  function RunOf(probe: Probe): Command {
    if probe.privilege.RootRecommended?
    then Then(If(Equals(IsRoot, "1"), Nothing, Print(Glue(Var(PartialMark), Lit(" " + ROOT_RECOMMENDED)))),
              Fragment(probe.script))
    else Fragment(probe.script)
  }

  function GateOf(probe: Probe): Command {
    If(NonEmpty(Missing),
       Print(Glue(Var(UnavailableMark), Glue(Lit(" " + MISSING_TOOLS), Var(Missing)))),
       if probe.privilege.RootRequired?
       then If(Negated(Equals(IsRoot, "1")), Print(Glue(Var(UnavailableMark), Lit(" " + ROOT_REQUIRED))), RunOf(probe))
       else RunOf(probe))
  }

  function BodyOf(probe: Probe): Command {
    Then(CheckTools(probe.requiredTools), GateOf(probe))
  }

  function RequiredTools(probes: seq<Probe>): seq<string> {
    if probes == [] then [] else RequiredTools(probes[..|probes| - 1]) + probes[|probes| - 1].requiredTools
  }

  /** Ids and bodies of all sections, in script order. */
  datatype Part = Part(id: string, body: Command)

  function ProbeParts(probes: seq<Probe>): seq<Part> {
    if probes == [] then []
    else ProbeParts(probes[..|probes| - 1]) + [Part(probes[|probes| - 1].id, BodyOf(probes[|probes| - 1]))]
  }

  function MetadataParts(probes: seq<Probe>): seq<Part> {
    [Part(META_ID, META_BODY), Part(OS_RELEASE_ID, OS_RELEASE_BODY),
     Part(CAPABILITIES_ID, CapabilityBody(Sorting.SortedSet(RequiredTools(probes))))]
  }

  function SectionLines(m: Markers, part: Part): seq<Line> {
    [BeginMarker(BeginLine(m, part.id)), Subshell(part.body), EndMarker(m.end + part.id + "__")]
  }

  function PartLines(m: Markers, parts: seq<Part>): seq<Line> {
    if parts == [] then [] else PartLines(m, parts[..|parts| - 1]) + SectionLines(m, parts[|parts| - 1])
  }

  function ScriptOf(m: Markers, probes: seq<Probe>): seq<Line> {
    Preamble(m) + PartLines(m, MetadataParts(probes) + ProbeParts(probes))
  }

  method ProbeBody(probe: Probe) returns (body: Command)
    ensures body == BodyOf(probe)
  {
    body := Assign(Missing, Lit(""));
    var tools := probe.requiredTools;
    for i := 0 to |tools|
      invariant body == CheckTools(tools[..i])
    {
      assert tools[..i + 1][..i] == tools[..i];
      body := Then(body, CheckTool(tools[i]));
    }
    assert tools[..|tools|] == tools;
    var run: Command := Fragment(probe.script);
    if probe.privilege.RootRecommended? {
      run := Then(If(Equals(IsRoot, "1"), Nothing, Print(Glue(Var(PartialMark), Lit(" " + ROOT_RECOMMENDED)))), run);
    }
    if probe.privilege.RootRequired? {
      run := If(Negated(Equals(IsRoot, "1")), Print(Glue(Var(UnavailableMark), Lit(" " + ROOT_REQUIRED))), run);
    }
    body := Then(body, If(NonEmpty(Missing), Print(Glue(Var(UnavailableMark), Glue(Lit(" " + MISSING_TOOLS), Var(Missing)))), run));
  }

  method PushSection(script: seq<Line>, m: Markers, id: string, body: Command) returns (extended: seq<Line>)
    ensures extended == script + SectionLines(m, Part(id, body))
  {
    extended := script + [BeginMarker(BeginLine(m, id)), Subshell(body), EndMarker(m.end + id + "__")];
  }

  method CapabilitiesCommand(probes: seq<Probe>) returns (body: Command)
    ensures body == CapabilityBody(Sorting.SortedSet(RequiredTools(probes)))
  {
    var required: seq<string> := [];
    for i := 0 to |probes|
      invariant required == RequiredTools(probes[..i])
    {
      assert probes[..i + 1][..i] == probes[..i];
      required := required + probes[i].requiredTools;
    }
    assert probes[..|probes|] == probes;
    var tools := Sorting.SortedSet(required);
    body := Nothing;
    for i := 0 to |tools|
      invariant body == CapabilityBody(tools[..i])
    {
      assert tools[..i + 1][..i] == tools[..i];
      body := Append(body, ToolLine(tools[i]));
    }
    assert tools[..|tools|] == tools;
  }

  method BuildScript(probes: seq<Probe>, nonce: string) returns (script: seq<Line>)
    ensures script == ScriptOf(MarkersFor(nonce), probes)
  {
    var m := MarkersFor(nonce);
    script := PushSection(Preamble(m), m, META_ID, META_BODY);
    script := PushSection(script, m, OS_RELEASE_ID, OS_RELEASE_BODY);
    var capabilities := CapabilitiesCommand(probes);
    script := PushSection(script, m, CAPABILITIES_ID, capabilities);
    ghost var parts := MetadataParts(probes);
    MetadataLines(m, parts[0], parts[1], parts[2]);
    assert probes[..0] == [] && parts + [] == parts;
    for i := 0 to |probes|
      invariant script == Preamble(m) + PartLines(m, parts + ProbeParts(probes[..i]))
    {
      var body := ProbeBody(probes[i]);
      NextPart(m, parts, probes, i);
      script := PushSection(script, m, probes[i].id, body);
    }
    assert probes[..|probes|] == probes;
  }

  lemma NextPart(m: Markers, parts: seq<Part>, probes: seq<Probe>, i: nat)
    requires i < |probes|
    ensures PartLines(m, parts + ProbeParts(probes[..i + 1]))
         == PartLines(m, parts + ProbeParts(probes[..i])) + SectionLines(m, Part(probes[i].id, BodyOf(probes[i])))
  {
    assert probes[..i + 1][..i] == probes[..i];
    var done, next := ProbeParts(probes[..i]), Part(probes[i].id, BodyOf(probes[i]));
    PartLinesSnoc(m, parts + done, next);
    assert parts + (done + [next]) == parts + done + [next];
  }

  lemma PartLinesSnoc(m: Markers, parts: seq<Part>, part: Part)
    ensures PartLines(m, parts + [part]) == PartLines(m, parts) + SectionLines(m, part)
  {
    assert (parts + [part])[..|parts|] == parts;
  }

  lemma MetadataLines(m: Markers, a: Part, b: Part, c: Part)
    ensures PartLines(m, [a, b, c]) == SectionLines(m, a) + SectionLines(m, b) + SectionLines(m, c)
  {
    PartLinesSnoc(m, [], a);
    PartLinesSnoc(m, [a], b);
    PartLinesSnoc(m, [a, b], c);
    assert [] + [a] == [a] && [a] + [b] == [a, b] && [a, b] + [c] == [a, b, c];
  }

  // ---------- what a session prints ----------

  function RootText(host: Host): string {
    match host.root
    case None => "unknown"
    case Some(true) => "1"
    case Some(false) => "0"
  }

  function SessionEnv(m: Markers, host: Host): Env {
    Env(RootText(host), "", m.unavailable, m.partial, m.truncated)
  }

  const EMPTY_ENV := Env("", "", "", "", "")

  function SessionOf(lines: seq<Line>, host: Host): Session {
    RunLines(lines, Session("", EMPTY_ENV, 0, false), host)
  }

  lemma RunFour(a: Line, b: Line, c: Line, d: Line, s: Session, host: Host)
    ensures RunLines([a, b, c, d], s, host) == RunLine(d, RunLine(c, RunLine(b, RunLine(a, s, host), host), host), host)
  {
    assert [a, b, c, d][..3] == [a, b, c] && [a, b, c][..2] == [a, b] && [a, b][..1] == [a] && [a][..0] == [];
    assert RunLines([a], s, host) == RunLine(a, s, host);
    assert RunLines([a, b], s, host) == RunLine(b, RunLines([a], s, host), host);
    assert RunLines([a, b, c], s, host) == RunLine(c, RunLines([a, b], s, host), host);
  }

  lemma RunThree(a: Line, b: Line, c: Line, s: Session, host: Host)
    ensures RunLines([a, b, c], s, host) == RunLine(c, RunLine(b, RunLine(a, s, host), host), host)
  {
    assert [a, b, c][..2] == [a, b] && [a, b][..1] == [a] && [a][..0] == [];
    assert RunLines([a], s, host) == RunLine(a, s, host);
    assert RunLines([a, b], s, host) == RunLine(b, RunLines([a], s, host), host);
  }

  lemma RunPreamble(m: Markers, host: Host)
    ensures SessionOf(Preamble(m), host) == Session("", SessionEnv(m, host), 0, false)
  {
    var p := Preamble(m);
    RunFour(p[0], p[1], p[2], p[3], Session("", EMPTY_ENV, 0, false), host);
    var root := Exec(DETECT_ROOT, EMPTY_ENV, host);
    var unknown := EMPTY_ENV.(isRoot := "unknown");
    assert Exec(Assign(IsRoot, Lit("unknown")), EMPTY_ENV, host) == Effect("", unknown, 0);
    assert Exec(ROOT_FLAG, unknown, host).env == EMPTY_ENV.(isRoot := if host.root == Some(true) then "1" else "0");
    assert Exec(ROOT_FLAG, unknown, host).out == "";
    assert Exec(If(EuidKnown, ROOT_FLAG, Nothing), unknown, host).env == EMPTY_ENV.(isRoot := RootText(host));
    assert Exec(If(EuidKnown, ROOT_FLAG, Nothing), unknown, host).out == "";
    assert root.out == "" && root.env == EMPTY_ENV.(isRoot := RootText(host));
  }

  /** The frame that a section of the script prints. */
  function FrameOfPart(m: Markers, part: Part, host: Host): Frame {
    var e := Exec(part.body, SessionEnv(m, host), host);
    Frame(part.id, e.out, Decimal(e.status))
  }

  function FramesOf(m: Markers, parts: seq<Part>, host: Host): seq<Frame> {
    seq(|parts|, i requires 0 <= i < |parts| => FrameOfPart(m, parts[i], host))
  }

  lemma RunSection(m: Markers, part: Part, out: string, host: Host)
    requires !part.body.Nothing?
    ensures RunLines(SectionLines(m, part), Session(out, SessionEnv(m, host), 0, false), host)
         == Session(out + FrameOf(m, FrameOfPart(m, part, host)), SessionEnv(m, host), 0, false)
  {
    var l := SectionLines(m, part);
    RunThree(l[0], l[1], l[2], Session(out, SessionEnv(m, host), 0, false), host);
    var e := Exec(part.body, SessionEnv(m, host), host);
    JoinFrame(out, BeginLine(m, part.id) + "\n", e.out, m.end + part.id + "__", Decimal(e.status));
  }

  lemma JoinFrame(out: string, begin: string, body: string, stem: string, status: string)
    ensures out + begin + body + ("\n" + (stem + status + "__\n"))
         == out + (begin + (body + "\n" + (stem + status + "__" + "\n")))
  {
    assert "__\n" == "__" + "\n";
    AppendAssoc(stem + status, "__", "\n");
    var tail := stem + status + "__" + "\n";
    AppendAssoc(body, "\n", tail);
    AppendAssoc(out, begin, body + ("\n" + tail));
    AppendAssoc(out + begin, body, "\n" + tail);
  }

  lemma {:induction false} TextOfSnoc(m: Markers, frames: seq<Frame>, f: Frame)
    ensures TextOf(m, frames + [f]) == TextOf(m, frames) + FrameOf(m, f)
    decreases |frames|
  {
    if frames == [] {
      assert frames + [f] == [f] && [f][1..] == [];
      assert TextOf(m, [f]) == FrameOf(m, f) + "";
      assert TextOf(m, frames) + FrameOf(m, f) == FrameOf(m, f);
    } else {
      assert (frames + [f])[1..] == frames[1..] + [f];
      TextOfSnoc(m, frames[1..], f);
      AppendAssoc(FrameOf(m, frames[0]), TextOf(m, frames[1..]), FrameOf(m, f));
    }
  }

  /** A run over sections prints their frames, unless one of them has an empty body. */
  lemma {:induction false} RunParts(m: Markers, parts: seq<Part>, host: Host)
    requires forall i :: 0 <= i < |parts| ==> !parts[i].body.Nothing?
    ensures RunLines(PartLines(m, parts), Session("", SessionEnv(m, host), 0, false), host)
         == Session(TextOf(m, FramesOf(m, parts, host)), SessionEnv(m, host), 0, false)
  {
    if parts != [] {
      var n := |parts| - 1;
      var init, last := parts[..n], parts[n];
      RunParts(m, init, host);
      RunOnePart(m, init, last, TextOf(m, FramesOf(m, init, host)), host);
      TextOfSnoc(m, FramesOf(m, init, host), FrameOfPart(m, last, host));
      FramesOfSnoc(m, init, last, host);
      assert parts == init + [last];
    }
  }

  lemma FramesOfSnoc(m: Markers, init: seq<Part>, last: Part, host: Host)
    ensures FramesOf(m, init + [last], host) == FramesOf(m, init, host) + [FrameOfPart(m, last, host)]
  {
  }

  lemma RunOnePart(m: Markers, init: seq<Part>, last: Part, text: string, host: Host)
    requires !last.body.Nothing?
    requires RunLines(PartLines(m, init), Session("", SessionEnv(m, host), 0, false), host)
          == Session(text, SessionEnv(m, host), 0, false)
    ensures RunLines(PartLines(m, init) + SectionLines(m, last), Session("", SessionEnv(m, host), 0, false), host)
         == Session(text + FrameOf(m, FrameOfPart(m, last, host)), SessionEnv(m, host), 0, false)
  {
    RunConcat(PartLines(m, init), SectionLines(m, last), Session("", SessionEnv(m, host), 0, false), host);
    RunSection(m, last, text, host);
  }

  /** Once the shell has given up, nothing more happens. */
  lemma {:induction false} AbortedStays(lines: seq<Line>, s: Session, host: Host)
    requires s.aborted
    ensures RunLines(lines, s, host) == s
  {
    if lines != [] {
      AbortedStays(lines[..|lines| - 1], s, host);
    }
  }
}
