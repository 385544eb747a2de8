/**
 Parsing the output of the script that was built: each probe's section equals its
 direct specification in terms of the host.
 */
module Collection {
  import opened Basics
  import opened Text
  import opened Utf8
  import opened Protocol
  import opened Framing
  import opened Model
  import opened Transcripts
  import opened Script
  import OsRelease
  import Sorting

  // ---------- the direct specification ----------

  predicate Root(host: Host) {
    host.root == Some(true)
  }

  /** The missing tools of a probe, each behind a space, in the probe's order. */
  function MissingText(tools: seq<string>, host: Host): string {
    if tools == [] then ""
    else
      var last := tools[|tools| - 1];
      var before := MissingText(tools[..|tools| - 1], host);
      if last in host.tools then before else before + (" " + last)
  }

  /** What a probe's fragment does in a session: it sees the variables of the script, the mark prefixes among them. */
  function RunIn(m: Markers, p: Probe, host: Host): Outcome {
    host.run(p.script, SessionEnv(m, host))
  }

  /** The gates let the fragment run. */
  predicate Runs(p: Probe, host: Host) {
    MissingText(p.requiredTools, host) == "" && (p.privilege.RootRequired? ==> Root(host))
  }

  /** A section with one more reason, in front of those it has. */
  function WithMark(s: Section, kind: Kind, reason: string): Section {
    match kind
    case Unavailable => s.(unavailable := Some(reason))
    case Partial => s.(partial := Some(if s.partial == None then reason else reason + "; " + s.partial.value))
    case Limit => s.(collectionLimits := [reason] + s.collectionLimits)
  }

  /** What the fragment's own output says: its evidence and the marks it prints itself. */
  function OwnSection(m: Markers, p: Probe, host: Host): Section {
    SectionOf(m, RunIn(m, p, host).status, BodyLines(RunIn(m, p, host).output))
  }

  /** What a probe's section must be: its gates decide before its fragment runs. */
  function Direct(m: Markers, p: Probe, host: Host): Section {
    var missing := MissingText(p.requiredTools, host);
    if missing != "" then
      Section(0, "", Some(MISSING_TOOLS + missing), None, [])
    else if p.privilege.RootRequired? && !Root(host) then
      Section(0, "", Some(ROOT_REQUIRED), None, [])
    else if p.privilege.RootRecommended? && !Root(host) then
      WithMark(OwnSection(m, p, host), Partial, ROOT_RECOMMENDED)
    else
      OwnSection(m, p, host)
  }

  /** The tools a report lists: required by some probe, present on the host, strictly sorted. */
  function PresentTools(tools: seq<string>, host: Host): seq<string> {
    if tools == [] then []
    else
      var last := tools[|tools| - 1];
      var before := PresentTools(tools[..|tools| - 1], host);
      if last in host.tools then before + [last] else before
  }

  function ReportedTools(probes: seq<Probe>, host: Host): seq<string> {
    PresentTools(Sorting.SortedSet(RequiredTools(probes)), host)
  }

  /** A tool name: at least one character, no white space. */
  predicate ToolName(t: string) {
    t != "" && forall i :: 0 <= i < |t| ==> !IsWhitespace(t[i])
  }

  predicate OneLine(s: string) {
    Clean(s) && Tight(s)
  }

  ghost predicate ValidProbes(probes: seq<Probe>) {
    && (forall i :: 0 <= i < |probes| ==>
         Clean(probes[i].id) && probes[i].id != META_ID && probes[i].id != OS_RELEASE_ID && probes[i].id != CAPABILITIES_ID)
    && (forall i, j :: 0 <= i < j < |probes| ==> probes[i].id != probes[j].id)
    && (forall i, t :: 0 <= i < |probes| && t in probes[i].requiredTools ==> ToolName(t))
  }

  /**
   What is asked of a host: single-line names, and fragments that print no BEGIN or
   END line. They may print the marks whose prefixes the script hands to them.
   */
  ghost predicate HonestHost(m: Markers, probes: seq<Probe>, host: Host) {
    && OneLine(host.hostname) && OneLine(host.kernel)
    && (forall i :: 0 <= i < |probes| && Runs(probes[i], host) ==> QuietBody(m, RunIn(m, probes[i], host).output))
  }

  /** Fragments that do not know the nonce are among them. */
  lemma HonestWithoutNonce(nonce: string, probes: seq<Probe>, host: Host)
    requires Clean(nonce) && OneLine(host.hostname) && OneLine(host.kernel)
    requires forall i :: 0 <= i < |probes| ==> !Contains(RunIn(MarkersFor(nonce), probes[i], host).output, nonce)
    ensures HonestHost(MarkersFor(nonce), probes, host)
  {
    forall i | 0 <= i < |probes|
      ensures QuietBody(MarkersFor(nonce), RunIn(MarkersFor(nonce), probes[i], host).output)
    {
      OwnSectionWithoutNonce(nonce, probes[i], host);
    }
  }

  // ---------- lines that are no markers ----------

  /** Position and letter by which the five prefixes of a session differ. */
  lemma MarkerLetters(nonce: string) returns (k: nat)
    ensures var m := MarkersFor(nonce);
      && k < |m.begin| && k < |m.end| && k < |m.unavailable| && k < |m.partial| && k < |m.truncated|
      && m.begin[k] == 'B' && m.end[k] == 'E' && m.unavailable[k] == 'U' && m.partial[k] == 'P' && m.truncated[k] == 'T'
  {
    k := |"__SHUVSCAN__" + nonce + "__"|;
  }

  predicate Underscored(s: string) {
    s != "" && s[0] == '_' && s[|s| - 1] == '_'
  }

  lemma MarkersUnderscored(nonce: string)
    ensures var m := MarkersFor(nonce);
      Underscored(m.begin) && Underscored(m.end)
      && Underscored(m.unavailable) && Underscored(m.partial) && Underscored(m.truncated)
    ensures Clean(nonce) ==> CleanMarkers(MarkersFor(nonce))
  {
  }

  /** A line whose first character is neither an underscore nor blank is plain evidence. */
  ghost predicate PlainLine(m: Markers, line: string) {
    !IsBegin(m, line) && !IsEnd(m, line) && MarkKind(m, line) == None
  }

  lemma NoUnderscoreFirst(nonce: string, line: string)
    requires line == "" || (line[0] != '_' && !IsWhitespace(line[0]))
    ensures PlainLine(MarkersFor(nonce), line)
  {
    MarkersUnderscored(nonce);
    var m := MarkersFor(nonce);
    IsEndPrefix(m, line);
    var marker := TrimCarriageReturns(line);
    assert marker <= line;
    if line != "" {
      TrimFirst(line);
    }
  }

  lemma NoUnderscore(nonce: string, line: string)
    requires '_' !in line
    ensures PlainLine(MarkersFor(nonce), line)
  {
    MarkersUnderscored(nonce);
    var m := MarkersFor(nonce);
    IsEndPrefix(m, line);
    var marker := TrimCarriageReturns(line);
    assert marker <= line;
    var lead, tail := TrimSplit(line);
    assert Trim(line) != "" ==> Trim(line)[0] == line[|lead|];
  }

  lemma PlainSection(m: Markers, status: int, body: string)
    requires forall i :: 0 <= i < |BodyLines(body)| ==> PlainLine(m, BodyLines(body)[i])
    ensures QuietBody(m, body)
    ensures SectionOf(m, status, BodyLines(body)) == Section(status, Unixify(Trim(body)), None, None, [])
  {
    AllEvidence(m, BodyLines(body));
    BodyJoins(body);
  }

  // ---------- a mark in front of a body ----------

  lemma {:induction false} ReasonsConcat(m: Markers, kind: Kind, a: seq<string>, b: seq<string>)
    ensures Reasons(m, kind, a + b) == Reasons(m, kind, a) + Reasons(m, kind, b)
  {
    if b == [] {
      assert a + b == a;
    } else {
      assert (a + b)[..|a + b| - 1] == a + b[..|b| - 1];
      ReasonsConcat(m, kind, a, b[..|b| - 1]);
    }
  }

  lemma {:induction false} EvidenceConcat(m: Markers, a: seq<string>, b: seq<string>)
    ensures EvidenceLines(m, a + b) == EvidenceLines(m, a) + EvidenceLines(m, b)
  {
    if b == [] {
      assert a + b == a;
    } else {
      assert (a + b)[..|a + b| - 1] == a + b[..|b| - 1];
      EvidenceConcat(m, a, b[..|b| - 1]);
    }
  }

  lemma OneReason(m: Markers, line: string, kind: Kind)
    ensures Reasons(m, kind, [line]) == if MarkKind(m, line) == Some(kind) then [MarkReason(m, line)] else []
    ensures EvidenceLines(m, [line]) == if MarkKind(m, line) == None then [line] else []
  {
    assert [line][..0] == [];
  }

  lemma TrimAfterPrefix(prefix: string, text: string)
    requires Underscored(prefix)
    ensures StartsWith(Trim(prefix + text), prefix)
    ensures Trim(Trim(prefix + text)[|prefix|..]) == Trim(text)
  {
    if Trim(text) == "" {
      TrimAfterBlank(prefix, text);
    } else {
      TrimAfterText(prefix, text);
    }
  }

  lemma TrimAfterBlank(prefix: string, text: string)
    requires Underscored(prefix) && Trim(text) == ""
    ensures Trim(prefix + text) == prefix && Trim(prefix[|prefix|..]) == ""
  {
    var a, b := TrimSplit(text);
    assert "" + prefix + text == prefix + text;
    TrimUnique("", prefix, text);
  }

  lemma TrimAfterText(prefix: string, text: string)
    requires Underscored(prefix) && Trim(text) != ""
    ensures StartsWith(Trim(prefix + text), prefix)
    ensures Trim(Trim(prefix + text)[|prefix|..]) == Trim(text)
  {
    var a, b := TrimSplit(text);
    var core := Trim(text);
    var kept := prefix + (a + core);
    assert prefix + text == "" + kept + b;
    assert kept[0] == prefix[0] && kept[|kept| - 1] == core[|core| - 1];
    TrimUnique("", kept, b);
    assert kept[|prefix|..] == a + core;
    TrimUnique(a, core, "");
    assert a + core + "" == a + core;
  }

  /** A printed mark is read as that mark, with its trimmed reason or the words for none, and is no marker. */
  lemma MarkReads(nonce: string, kind: Kind, text: string)
    ensures var m := MarkersFor(nonce); var line := MarkPrefix(m, kind) + text;
      && !IsBegin(m, line) && !IsEnd(m, line)
      && MarkKind(m, line) == Some(kind)
      && MarkReason(m, line) == if Trim(text) == "" then "no reason reported by target" else Trim(text)
  {
    var m := MarkersFor(nonce);
    var p := MarkPrefix(m, kind);
    var line := p + text;
    MarkersUnderscored(nonce);
    var k := MarkerLetters(nonce);
    TrimAfterPrefix(p, text);
    assert line[k] == p[k];
    IsEndPrefix(m, line);
    TrimCarriageReturnsKeepsPrefix(line, m.begin);
    var trimmed := Trim(line);
    assert trimmed[k] == p[k];
  }

  lemma MarkedBodyLines(line: string, body: string)
    requires Clean(line) && StripOneCarriageReturn(line) == line
    ensures BodyLines(line + "\n" + body) == [line] + BodyLines(body)
  {
    LinesFirstOf(line, body, "\n");
  }

  /** A mark in front of a quiet body adds its reason in front and changes nothing else. */
  lemma MarkedBody(nonce: string, kind: Kind, reason: string, body: string, status: int)
    requires Clean(nonce) && reason != "" && OneLine(reason)
    requires QuietBody(MarkersFor(nonce), body)
    ensures var m := MarkersFor(nonce);
      var out := MarkPrefix(m, kind) + (" " + reason) + "\n" + body;
      && QuietBody(m, out)
      && SectionOf(m, status, BodyLines(out)) == WithMark(SectionOf(m, status, BodyLines(body)), kind, reason)
  {
    var m := MarkersFor(nonce);
    var text := " " + reason;
    var line := MarkPrefix(m, kind) + text;
    TrimUnique(" ", reason, "");
    assert " " + reason + "" == text;
    MarkReads(nonce, kind, text);
    MarkLineClean(nonce, kind, text);
    MarkedBodyLines(line, body);
    QuietCons(m, line, BodyLines(body));
    MarkedLines(m, kind, line, BodyLines(body), status);
  }

  lemma MarkPrefixClean(nonce: string, kind: Kind)
    requires Clean(nonce)
    ensures Clean(MarkPrefix(MarkersFor(nonce), kind))
  {
    PrefixClean(nonce, "UNAVAILABLE");
    PrefixClean(nonce, "PARTIAL");
    PrefixClean(nonce, "TRUNCATED");
  }

  lemma PrefixClean(nonce: string, name: string)
    requires Clean(nonce) && Clean(name)
    ensures Clean(Prefix(nonce, name))
  {
  }

  lemma MarkLineClean(nonce: string, kind: Kind, text: string)
    requires Clean(nonce) && Clean(text) && text != "" && text[|text| - 1] != '\r'
    ensures var line := MarkPrefix(MarkersFor(nonce), kind) + text;
      Clean(line) && StripOneCarriageReturn(line) == line
  {
    MarkPrefixClean(nonce, kind);
    var prefix := MarkPrefix(MarkersFor(nonce), kind);
    assert (prefix + text)[|prefix + text| - 1] == text[|text| - 1];
  }

  lemma QuietCons(m: Markers, line: string, lines: seq<string>)
    requires !IsBegin(m, line) && !IsEnd(m, line) && Quiet(m, lines)
    ensures Quiet(m, [line] + lines)
  {
  }

  lemma MarkedLines(m: Markers, kind: Kind, line: string, lines: seq<string>, status: int)
    requires MarkKind(m, line) == Some(kind)
    ensures SectionOf(m, status, [line] + lines) == WithMark(SectionOf(m, status, lines), kind, MarkReason(m, line))
  {
    MarkAdds(m, kind, line, lines, Unavailable);
    MarkAdds(m, kind, line, lines, Partial);
    MarkAdds(m, kind, line, lines, Limit);
    OneReason(m, line, kind);
    EvidenceConcat(m, [line], lines);
    assert [] + EvidenceLines(m, lines) == EvidenceLines(m, lines);
    JoinCons(MarkReason(m, line), Reasons(m, Partial, lines));
  }

  lemma MarkAdds(m: Markers, kind: Kind, line: string, lines: seq<string>, other: Kind)
    requires MarkKind(m, line) == Some(kind)
    ensures Reasons(m, other, [line] + lines)
         == if other == kind then [MarkReason(m, line)] + Reasons(m, other, lines) else Reasons(m, other, lines)
  {
    ReasonsConcat(m, other, [line], lines);
    OneReason(m, line, other);
    assert [] + Reasons(m, other, lines) == Reasons(m, other, lines);
  }

  lemma JoinCons(first: string, rest: seq<string>)
    ensures Join([first] + rest, "; ") == if rest == [] then first else first + "; " + Join(rest, "; ")
  {
    assert ([first] + rest)[1..] == rest;
  }

  // ---------- sections made of plain lines ----------

  /** A body of plain whole lines is kept, and its lines read back. */
  lemma PlainLinesSection(m: Markers, lines: seq<string>, status: int)
    requires WholeLines(lines) && lines != [] && (forall i :: 0 <= i < |lines| ==> PlainLine(m, lines[i]))
    requires PlainLine(m, "")
    requires lines[0] != "" && !IsWhitespace(lines[0][0])
    requires var last := lines[|lines| - 1]; last != "" && !IsWhitespace(last[|last| - 1])
    ensures var text := Unlines(lines);
      && QuietBody(m, text)
      && SectionOf(m, status, BodyLines(text)) == Section(status, Join(lines, "\n"), None, None, [])
    ensures Lines(Join(lines, "\n")) == lines
  {
    var text := Unlines(lines);
    LinesOfUnlines(lines);
    BodyOfLines(text);
    PlainSection(m, status, text);
    JoinedLines(lines);
  }

  lemma BodyOfLines(text: string)
    requires Terminated(text)
    ensures BodyLines(text) == Lines(text) + [""]
  {
    LinesConcat(text, "\n");
    assert Lines("\n") == [""] by {
      LinesFirst("", "");
      assert "" + "\n" + "" == "\n";
    }
  }

  /** An empty body is an empty section. */
  lemma EmptySection(nonce: string, status: int)
    ensures QuietBody(MarkersFor(nonce), "")
    ensures SectionOf(MarkersFor(nonce), status, BodyLines("")) == Section(status, "", None, None, [])
  {
    NoUnderscore(nonce, "");
    BodyOfLines("");
    PlainSection(MarkersFor(nonce), status, "");
  }

  // ---------- the probes ----------

  lemma CheckToolExec(tool: string, env: Env, host: Host)
    ensures Exec(CheckTool(tool), env, host)
         == Effect("", env.(missing := if tool in host.tools then env.missing else env.missing + (" " + tool)), 0)
  {
    var value := Glue(Var(Missing), Lit(" " + tool));
    assert Expand(Lit(" " + tool), env, host) == " " + tool;
    assert Expand(value, env, host) == env.missing + (" " + tool);
    assert Exec(Assign(Missing, value), env, host) == Effect("", env.(missing := env.missing + (" " + tool)), 0);
  }

  lemma {:induction false} CheckToolsExec(tools: seq<string>, env: Env, host: Host)
    ensures Exec(CheckTools(tools), env, host) == Effect("", env.(missing := MissingText(tools, host)), 0)
  {
    if tools != [] {
      var n := |tools| - 1;
      CheckToolsExec(tools[..n], env, host);
      var before := env.(missing := MissingText(tools[..n], host));
      CheckToolExec(tools[n], before, host);
    }
  }

  lemma PrintMark(name: Name, text: string, env: Env, host: Host)
    ensures Exec(Print(Glue(Var(name), Lit(text))), env, host) == Effect(env.Get(name) + text + "\n", env, 0)
  {
    assert Expand(Var(name), env, host) == env.Get(name) && Expand(Lit(text), env, host) == text;
  }

  /** What a probe prints when a mark with a reason comes first. */
  function Marked(prefix: string, reason: string, rest: string): string {
    prefix + (" " + reason) + "\n" + rest
  }

  /** What the body of a probe prints, and its status. */
  function ProbeOutcome(m: Markers, p: Probe, host: Host): Outcome {
    var missing := MissingText(p.requiredTools, host);
    var run := RunIn(m, p, host);
    if missing != "" then Outcome(Marked(m.unavailable, MISSING_TOOLS + missing, ""), 0)
    else if p.privilege.RootRequired? && !Root(host) then Outcome(Marked(m.unavailable, ROOT_REQUIRED, ""), 0)
    else if p.privilege.RootRecommended? && !Root(host) then
      Outcome(Marked(m.partial, ROOT_RECOMMENDED, run.output), run.status)
    else run
  }

  lemma RunExec(p: Probe, env: Env, host: Host)
    requires env.isRoot == RootText(host)
    ensures var e, run := Exec(RunOf(p), env, host), host.run(p.script, env);
      && e.status == run.status
      && e.out == if p.privilege.RootRecommended? && !Root(host)
                  then Marked(env.partial, ROOT_RECOMMENDED, run.output) else run.output
  {
    var run := host.run(p.script, env);
    assert Exec(Fragment(p.script), env, host) == Effect(run.output, env, run.status);
    if p.privilege.RootRecommended? {
      var note := Print(Glue(Var(PartialMark), Lit(" " + ROOT_RECOMMENDED)));
      PrintMark(PartialMark, " " + ROOT_RECOMMENDED, env, host);
      var warning := If(Equals(IsRoot, "1"), Nothing, note);
      assert Exec(warning, env, host) == if Root(host) then Effect("", env, 0) else Exec(note, env, host);
      assert "" + run.output == run.output;
    }
  }

  lemma GateExec(p: Probe, env: Env, host: Host)
    requires env.isRoot == RootText(host)
    ensures var e, run := Exec(GateOf(p), env, host), Exec(RunOf(p), env, host);
      && (env.missing != "" ==> e.out == Marked(env.unavailable, MISSING_TOOLS + env.missing, "") && e.status == 0)
      && (env.missing == "" && p.privilege.RootRequired? && !Root(host) ==>
           e.out == Marked(env.unavailable, ROOT_REQUIRED, "") && e.status == 0)
      && (env.missing == "" && !(p.privilege.RootRequired? && !Root(host)) ==> e == run)
  {
    PrintMark(UnavailableMark, " " + ROOT_REQUIRED, env, host);
    MissingMark(env, host);
    assert Holds(Equals(IsRoot, "1"), env, host) <==> Root(host);
    assert Holds(Negated(Equals(IsRoot, "1")), env, host) <==> !Root(host);
  }

  lemma MissingMark(env: Env, host: Host)
    ensures Exec(Print(Glue(Var(UnavailableMark), Glue(Lit(" " + MISSING_TOOLS), Var(Missing)))), env, host)
         == Effect(Marked(env.unavailable, MISSING_TOOLS + env.missing, ""), env, 0)
  {
    var text := Glue(Lit(" " + MISSING_TOOLS), Var(Missing));
    assert Expand(Lit(" " + MISSING_TOOLS), env, host) == " " + MISSING_TOOLS;
    assert Expand(text, env, host) == " " + MISSING_TOOLS + env.missing;
    AppendAssoc(" ", MISSING_TOOLS, env.missing);
    assert Expand(Glue(Var(UnavailableMark), text), env, host) == env.unavailable + (" " + (MISSING_TOOLS + env.missing));
    var out := env.unavailable + (" " + (MISSING_TOOLS + env.missing)) + "\n";
    assert out + "" == out;
  }

  lemma ProbeExec(m: Markers, p: Probe, host: Host)
    ensures var e := Exec(BodyOf(p), SessionEnv(m, host), host);
      Outcome(e.out, e.status) == ProbeOutcome(m, p, host)
  {
    CheckToolsExec(p.requiredTools, SessionEnv(m, host), host);
    var env := SessionEnv(m, host).(missing := MissingText(p.requiredTools, host));
    assert env.missing == "" ==> env == SessionEnv(m, host);
    GateExec(p, env, host);
    RunExec(p, env, host);
    assert Exec(BodyOf(p), SessionEnv(m, host), host).out == "" + Exec(GateOf(p), env, host).out;
  }

  lemma {:induction false} MissingIsOneLine(tools: seq<string>, host: Host)
    requires forall t :: t in tools ==> ToolName(t)
    ensures Clean(MissingText(tools, host))
    ensures var missing := MissingText(tools, host); missing != "" ==> !IsWhitespace(missing[|missing| - 1])
  {
    if tools != [] {
      var last := tools[|tools| - 1];
      MissingIsOneLine(tools[..|tools| - 1], host);
      assert ToolName(last);
    }
  }

  lemma ReasonsAreLines()
    ensures OneLine(ROOT_REQUIRED) && ROOT_REQUIRED != ""
    ensures OneLine(ROOT_RECOMMENDED) && ROOT_RECOMMENDED != ""
    ensures OneLine(MISSING_TOOLS) && MISSING_TOOLS != ""
  {
    RootRequiredIsLine();
    RootRecommendedIsLine();
    MissingToolsIsLine();
  }

  lemma RootRequiredIsLine()
    ensures OneLine(ROOT_REQUIRED) && ROOT_REQUIRED != ""
  {
  }

  lemma RootRecommendedIsLine()
    ensures OneLine(ROOT_RECOMMENDED) && ROOT_RECOMMENDED != ""
  {
    OneLineConcat("root access unavailable; ", "evidence may omit other users");
  }

  lemma MissingToolsIsLine()
    ensures OneLine(MISSING_TOOLS) && MISSING_TOOLS != ""
  {
  }

  lemma MissingReasonIsLine(missing: string)
    requires Clean(missing) && missing != "" && !IsWhitespace(missing[|missing| - 1])
    ensures OneLine(MISSING_TOOLS + missing) && MISSING_TOOLS + missing != ""
  {
    ReasonsAreLines();
    OneLineConcat(MISSING_TOOLS, missing);
  }

  lemma OneLineConcat(a: string, b: string)
    requires Clean(a) && a != "" && !IsWhitespace(a[0]) && Clean(b) && b != "" && !IsWhitespace(b[|b| - 1])
    ensures OneLine(a + b) && a + b != ""
  {
  }

  /** The section of a probe is its direct specification. */
  lemma ProbeSection(nonce: string, p: Probe, host: Host)
    requires Clean(nonce) && nonce != ""
    requires Runs(p, host) ==> QuietBody(MarkersFor(nonce), RunIn(MarkersFor(nonce), p, host).output)
    requires forall t :: t in p.requiredTools ==> ToolName(t)
    ensures var m := MarkersFor(nonce); var o := ProbeOutcome(m, p, host);
      QuietBody(m, o.output) && SectionOf(m, o.status, BodyLines(o.output)) == Direct(m, p, host)
  {
    var missing, run := MissingText(p.requiredTools, host), RunIn(MarkersFor(nonce), p, host);
    if missing != "" {
      MissingIsOneLine(p.requiredTools, host);
      MissingReasonIsLine(missing);
      UnavailableSection(nonce, MISSING_TOOLS + missing);
    } else if p.privilege.RootRequired? && !Root(host) {
      ReasonsAreLines();
      UnavailableSection(nonce, ROOT_REQUIRED);
    } else if p.privilege.RootRecommended? && !Root(host) {
      ReasonsAreLines();
      MarkedBody(nonce, Partial, ROOT_RECOMMENDED, run.output, run.status);
    }
  }

  /** A fragment whose output does not contain the nonce prints no mark: its whole trimmed output is evidence. */
  lemma OwnSectionWithoutNonce(nonce: string, p: Probe, host: Host)
    requires Clean(nonce) && !Contains(RunIn(MarkersFor(nonce), p, host).output, nonce)
    ensures var m := MarkersFor(nonce); var run := RunIn(m, p, host);
      QuietBody(m, run.output) && OwnSection(m, p, host) == Section(run.status, Unixify(Trim(run.output)), None, None, [])
  {
    var run := RunIn(MarkersFor(nonce), p, host);
    NonceFreeBody(nonce, run.output, run.status);
  }

  /** A section that only reports why it is unavailable. */
  lemma UnavailableSection(nonce: string, reason: string)
    requires Clean(nonce) && nonce != "" && reason != "" && OneLine(reason)
    ensures var m := MarkersFor(nonce); var out := Marked(m.unavailable, reason, "");
      QuietBody(m, out) && SectionOf(m, 0, BodyLines(out)) == Section(0, "", Some(reason), None, [])
  {
    EmptySection(nonce, 0);
    MarkedBody(nonce, Unavailable, reason, "", 0);
  }

  // ---------- the capability inventory ----------

  function Tagged(tools: seq<string>): seq<string> {
    if tools == [] then [] else Tagged(tools[..|tools| - 1]) + ["tool=" + tools[|tools| - 1]]
  }

  lemma ToolLineExec(tool: string, env: Env, host: Host)
    ensures Exec(ToolLine(tool), env, host) == Effect(if tool in host.tools then "tool=" + tool + "\n" else "", env, 0)
  {
    assert Exec(Print(Lit("tool=" + tool)), env, host) == Effect("tool=" + tool + "\n", env, 0);
  }

  lemma UnlinesSnoc(lines: seq<string>, line: string)
    ensures Unlines(lines + [line]) == Unlines(lines) + (line + "\n")
  {
    UnlinesConcat(lines, [line]);
    assert [line][1..] == [];
    assert Unlines([line]) == line + "\n" + "";
  }

  /** The inventory prints one tagged line for each tool that is present. */
  lemma {:induction false} CapabilityExec(tools: seq<string>, env: Env, host: Host)
    ensures Exec(CapabilityBody(tools), env, host) == Effect(Unlines(Tagged(PresentTools(tools, host))), env, 0)
    ensures tools != [] ==> !CapabilityBody(tools).Nothing?
  {
    if tools != [] {
      var init, last := tools[..|tools| - 1], tools[|tools| - 1];
      CapabilityExec(init, env, host);
      ToolLineExec(last, env, host);
      var present := PresentTools(init, host);
      assert (present + [last])[..|present|] == present;
      UnlinesSnoc(Tagged(present), "tool=" + last);
      AppendExec(CapabilityBody(init), ToolLine(last), env, host);
      var out := Unlines(Tagged(present));
      assert out + "" == out;
    }
  }

  lemma AppendExec(c: Command, next: Command, env: Env, host: Host)
    ensures var a := Exec(c, env, host); var b := Exec(next, a.env, host);
      Exec(Append(c, next), env, host) == Effect(a.out + b.out, b.env, b.status)
  {
    if c.Nothing? {
      var b := Exec(next, env, host);
      assert "" + b.out == b.out;
    } else {
      ThenExec(c, next, env, host, Exec(c, env, host), Exec(next, Exec(c, env, host).env, host));
    }
  }

  lemma {:induction false} TaggedAt(tools: seq<string>)
    ensures |Tagged(tools)| == |tools|
    ensures forall i :: 0 <= i < |tools| ==> Tagged(tools)[i] == "tool=" + tools[i]
  {
    if tools != [] {
      TaggedAt(tools[..|tools| - 1]);
    }
  }

  lemma TagDropped(tool: string)
    ensures StripPrefix("tool=" + tool, "tool=") == Some(tool)
  {
    assert ("tool=" + tool)[5..] == tool;
  }

  lemma {:induction false} TaggedToolsOf(tools: seq<string>)
    ensures ToolsOf(Tagged(tools)) == tools
  {
    if tools != [] {
      var init, last := tools[..|tools| - 1], tools[|tools| - 1];
      TaggedToolsOf(init);
      TagDropped(last);
      var lines := Tagged(init) + ["tool=" + last];
      assert lines[..|lines| - 1] == Tagged(init) && lines[|lines| - 1] == "tool=" + last;
      assert ToolsOf(lines) == ToolsOf(Tagged(init)) + [last];
    }
  }

  lemma {:induction false} PresentAmong(tools: seq<string>, host: Host)
    ensures forall t :: t in PresentTools(tools, host) <==> t in tools && t in host.tools
  {
    if tools != [] {
      PresentAmong(tools[..|tools| - 1], host);
      assert tools == tools[..|tools| - 1] + [tools[|tools| - 1]];
    }
  }

  lemma ToolTagIsPlain(nonce: string, tool: string)
    requires ToolName(tool)
    ensures var line := "tool=" + tool;
      && WholeLine(line) && PlainLine(MarkersFor(nonce), line)
      && line != "" && !IsWhitespace(line[0]) && !IsWhitespace(line[|line| - 1])
  {
    NoUnderscoreFirst(nonce, "tool=" + tool);
    assert ("tool=" + tool)[|"tool=" + tool| - 1] == tool[|tool| - 1];
  }

  /** The capability section lists the tools that are present, and its lines read back as them. */
  lemma CapabilitySection(nonce: string, tools: seq<string>, host: Host)
    requires forall t :: t in tools ==> ToolName(t)
    ensures var m := MarkersFor(nonce); var out := Unlines(Tagged(PresentTools(tools, host)));
      && QuietBody(m, out)
      && SectionOf(m, 0, BodyLines(out)).status == 0
      && ToolsOf(Lines(SectionOf(m, 0, BodyLines(out)).output)) == PresentTools(tools, host)
  {
    var present := PresentTools(tools, host);
    PresentAmong(tools, host);
    TaggedAt(present);
    TaggedToolsOf(present);
    if present == [] {
      EmptySection(nonce, 0);
    } else {
      var lines := Tagged(present);
      forall i | 0 <= i < |lines|
        ensures WholeLine(lines[i]) && PlainLine(MarkersFor(nonce), lines[i])
        ensures lines[i] != "" && !IsWhitespace(lines[i][0]) && !IsWhitespace(lines[i][|lines[i]| - 1])
      {
        ToolTagIsPlain(nonce, present[i]);
      }
      NoUnderscore(nonce, "");
      PlainLinesSection(MarkersFor(nonce), lines, 0);
    }
  }

  // ---------- the metadata ----------

  function SudoText(host: Host): string {
    if "sudo" in host.tools then "1" else "0"
  }

  function MetaLines(host: Host): seq<string> {
    [Assignment("hostname", host.hostname), Assignment("kernel", host.kernel),
     Assignment("root", RootText(host)), Assignment("sudo_present", SudoText(host))]
  }

  lemma PrintAssignmentExec(key: string, value: Word, env: Env, host: Host)
    ensures Exec(PrintAssignment(key, value), env, host)
         == Effect(Assignment(key, Expand(value, env, host)) + "\n", env, 0)
  {
    assert Expand(Lit(key + "="), env, host) == key + "=";
  }

  lemma SudoExec(env: Env, host: Host)
    ensures Exec(If(HasTool("sudo"), PrintAssignment("sudo_present", Lit("1")), PrintAssignment("sudo_present", Lit("0"))), env, host)
         == Effect(Assignment("sudo_present", SudoText(host)) + "\n", env, 0)
  {
    PrintAssignmentExec("sudo_present", Lit("1"), env, host);
    PrintAssignmentExec("sudo_present", Lit("0"), env, host);
    assert Expand(Lit("1"), env, host) == "1" && Expand(Lit("0"), env, host) == "0";
  }

  lemma ThenFour(a: Command, b: Command, c: Command, d: Command, env: Env, host: Host)
    requires Exec(a, env, host).env == env && Exec(b, env, host).env == env && Exec(c, env, host).env == env
    ensures var e := Exec(Then(Then(Then(a, b), c), d), env, host);
      && e.out == Exec(a, env, host).out + Exec(b, env, host).out + Exec(c, env, host).out + Exec(d, env, host).out
      && e.status == Exec(d, env, host).status
  {
    assert Exec(Then(a, b), env, host).env == env;
    assert Exec(Then(Then(a, b), c), env, host).env == env;
  }

  lemma MetaExec(m: Markers, host: Host)
    ensures var e := Exec(META_BODY, SessionEnv(m, host), host);
      e.out == Unlines(MetaLines(host)) && e.status == 0
  {
    var env := SessionEnv(m, host);
    PrintAssignmentExec("hostname", HostName, env, host);
    PrintAssignmentExec("kernel", Kernel, env, host);
    PrintAssignmentExec("root", Var(IsRoot), env, host);
    SudoExec(env, host);
    ThenFour(
      PrintAssignment("hostname", HostName), PrintAssignment("kernel", Kernel), PrintAssignment("root", Var(IsRoot)),
      If(HasTool("sudo"), PrintAssignment("sudo_present", Lit("1")), PrintAssignment("sudo_present", Lit("0"))), env, host);
    var l := MetaLines(host);
    FourLines(l[0], l[1], l[2], l[3]);
  }

  lemma FourLines(a: string, b: string, c: string, d: string)
    ensures Unlines([a, b, c, d]) == a + "\n" + (b + "\n") + (c + "\n") + (d + "\n")
  {
    UnlinesSnoc([a, b, c], d);
    UnlinesSnoc([a, b], c);
    UnlinesSnoc([a], b);
    UnlinesSnoc([], a);
    assert [] + [a] == [a] && [a] + [b] == [a, b] && [a, b] + [c] == [a, b, c] && [a, b, c] + [d] == [a, b, c, d];
    assert "" + (a + "\n") == a + "\n";
  }

  function OrUnknown(name: string): string {
    if name == "" then "unknown" else name
  }

  lemma EqualsAtKey(key: string, value: string)
    requires '=' !in key
    ensures EqualsAt(key + "=" + value) == |key|
  {
    var line := key + "=" + value;
    EqualsAtIs(line, |key|);
  }

  lemma {:induction false} EqualsAtIs(line: string, k: nat)
    requires k < |line| && line[k] == '=' && forall i :: 0 <= i < k ==> line[i] != '='
    ensures EqualsAt(line) == k
  {
    if k > 0 {
      EqualsAtIs(line[1..], k - 1);
    }
  }

  lemma TightTrims(s: string)
    requires Tight(s)
    ensures Trim(s) == s
  {
    TrimUnique("", s, "");
    assert "" + s + "" == s;
  }

  /** One assignment of the metadata section. */
  function Assigned(info: HostInfo, key: string, value: string): HostInfo {
    if value == "" then info
    else if key == "hostname" then info.(hostname := value)
    else if key == "kernel" then info.(kernel := value)
    else if key == "root" then
      info.(root := if value == "1" then Some(true) else if value == "0" then Some(false) else None)
    else if key == "sudo_present" then info.(sudoPresent := value == "1")
    else info
  }

  lemma MetaAssigns(info: HostInfo, key: string, value: string)
    requires '=' !in key && Tight(value)
    ensures MetaLine(info, Assignment(key, value)) == Assigned(info, key, value)
  {
    EqualsAtKey(key, value);
    var line := Assignment(key, value);
    assert line[..|key|] == key && line[|key| + 1..] == value;
    TightTrims(value);
  }

  lemma FoldFour(info: HostInfo, a: string, b: string, c: string, d: string)
    ensures MetaFold(info, [a, b, c, d]) == MetaLine(MetaLine(MetaLine(MetaLine(info, a), b), c), d)
  {
    assert [a, b, c, d][..3] == [a, b, c] && [a, b, c][..2] == [a, b] && [a, b][..1] == [a] && [a][..0] == [];
    assert MetaFold(info, [a]) == MetaLine(info, a);
    assert MetaFold(info, [a, b]) == MetaLine(MetaLine(info, a), b);
    assert MetaFold(info, [a, b, c]) == MetaLine(MetaLine(MetaLine(info, a), b), c);
  }

  /** The metadata lines give back what the host is. */
  lemma MetaReadsBack(host: Host, os: Option<string>, tools: seq<string>)
    requires OneLine(host.hostname) && OneLine(host.kernel)
    ensures MetaFold(UnknownHost(os, tools), MetaLines(host))
         == HostInfo(OrUnknown(host.hostname), OrUnknown(host.kernel), if os.Some? then os.value else "unknown",
              host.root, "sudo" in host.tools, tools)
  {
    FlagsAreLines(host);
    FoldAssigns(UnknownHost(os, tools), host.hostname, host.kernel, RootText(host), SudoText(host));
    AssignedFour(UnknownHost(os, tools), host);
  }

  lemma FoldAssigns(info: HostInfo, hostname: string, kernel: string, root: string, sudo: string)
    requires Tight(hostname) && Tight(kernel) && Tight(root) && Tight(sudo)
    ensures MetaFold(info, [Assignment("hostname", hostname), Assignment("kernel", kernel),
                            Assignment("root", root), Assignment("sudo_present", sudo)])
         == Assigned(Assigned(Assigned(Assigned(info, "hostname", hostname), "kernel", kernel), "root", root), "sudo_present", sudo)
  {
    FoldFour(info, Assignment("hostname", hostname), Assignment("kernel", kernel),
             Assignment("root", root), Assignment("sudo_present", sudo));
    MetaAssigns(info, "hostname", hostname);
    var info1 := Assigned(info, "hostname", hostname);
    MetaAssigns(info1, "kernel", kernel);
    var info2 := Assigned(info1, "kernel", kernel);
    MetaAssigns(info2, "root", root);
    MetaAssigns(Assigned(info2, "root", root), "sudo_present", sudo);
  }

  lemma AssignedFour(info: HostInfo, host: Host)
    requires info.hostname == "unknown" && info.kernel == "unknown" && info.root == None && !info.sudoPresent
    ensures Assigned(Assigned(Assigned(Assigned(info, "hostname", host.hostname), "kernel", host.kernel),
              "root", RootText(host)), "sudo_present", SudoText(host))
         == HostInfo(OrUnknown(host.hostname), OrUnknown(host.kernel), info.os, host.root, "sudo" in host.tools, info.tools)
  {
  }

  predicate KeyWord(key: string) {
    Clean(key) && key != "" && key[0] != '_' && !IsWhitespace(key[0])
  }

  lemma AssignmentIsPlain(nonce: string, key: string, value: string)
    requires KeyWord(key) && OneLine(value)
    ensures var line := Assignment(key, value);
      WholeLine(line) && PlainLine(MarkersFor(nonce), line) && line != "" && line[0] == key[0]
  {
    var line := Assignment(key, value);
    NoUnderscoreFirst(nonce, line);
    assert line[|line| - 1] == if value == "" then '=' else value[|value| - 1];
  }

  lemma MetaLinesArePlain(nonce: string, host: Host)
    requires OneLine(host.hostname) && OneLine(host.kernel)
    ensures WholeLines(MetaLines(host)) && forall i :: 0 <= i < 4 ==> PlainLine(MarkersFor(nonce), MetaLines(host)[i])
    ensures MetaLines(host)[0] != "" && MetaLines(host)[0][0] == 'h'
  {
    KeyWords();
    FlagsAreLines(host);
    AssignmentIsPlain(nonce, "hostname", host.hostname);
    AssignmentIsPlain(nonce, "kernel", host.kernel);
    AssignmentIsPlain(nonce, "root", RootText(host));
    AssignmentIsPlain(nonce, "sudo_present", SudoText(host));
    FourWhole(MetaLines(host));
  }

  lemma FlagsAreLines(host: Host)
    ensures OneLine(RootText(host)) && OneLine(SudoText(host))
  {
  }

  lemma FourWhole(lines: seq<string>)
    requires |lines| == 4 && WholeLine(lines[0]) && WholeLine(lines[1]) && WholeLine(lines[2]) && WholeLine(lines[3])
    ensures WholeLines(lines)
  {
  }

  lemma KeyWords()
    ensures KeyWord("hostname") && KeyWord("kernel") && KeyWord("root") && KeyWord("sudo_present")
  {
  }

  lemma MetaSection(nonce: string, host: Host)
    requires OneLine(host.hostname) && OneLine(host.kernel)
    ensures var m := MarkersFor(nonce); var out := Unlines(MetaLines(host));
      && QuietBody(m, out)
      && Lines(SectionOf(m, 0, BodyLines(out)).output) == MetaLines(host)
  {
    MetaLinesArePlain(nonce, host);
    NoUnderscore(nonce, "");
    PlainLinesSection(MarkersFor(nonce), MetaLines(host), 0);
  }

  // ---------- the os-release section ----------

  /** What the os-release body prints. */
  function OsOutput(m: Markers, host: Host): string {
    var f := host.osFile;
    if !f.present then ""
    else if !f.readable then Marked(m.unavailable, NOT_READABLE, "")
    else if "od" !in host.tools then Marked(m.unavailable, OD_REQUIRED, "")
    else if !f.dumps then Marked(m.unavailable, READ_FAILED, "")
    else OsRelease.Dump(f.bytes[..Min(|f.bytes|, OsRelease.LIMIT + 1)])
  }

  lemma MarkExec(reason: string, env: Env, host: Host)
    ensures Exec(Print(Glue(Var(UnavailableMark), Lit(" " + reason))), env, host)
         == Effect(Marked(env.unavailable, reason, ""), env, 0)
  {
    PrintMark(UnavailableMark, " " + reason, env, host);
    var out := env.unavailable + (" " + reason) + "\n";
    assert out + "" == out;
  }

  lemma OsExec(m: Markers, host: Host)
    ensures Exec(OS_RELEASE_BODY, SessionEnv(m, host), host) == Effect(OsOutput(m, host), SessionEnv(m, host), 0)
  {
    var env := SessionEnv(m, host);
    MarkExec(NOT_READABLE, env, host);
    MarkExec(OD_REQUIRED, env, host);
    MarkExec(READ_FAILED, env, host);
    var failed := Print(Glue(Var(UnavailableMark), Lit(" " + READ_FAILED)));
    var required := Print(Glue(Var(UnavailableMark), Lit(" " + OD_REQUIRED)));
    var inner := If(HasTool("od"), DumpOsRelease(failed), required);
    assert Exec(DumpOsRelease(failed), env, host).env == env && Exec(DumpOsRelease(failed), env, host).status == 0;
    assert Exec(inner, env, host) == if "od" in host.tools then Exec(DumpOsRelease(failed), env, host) else Exec(required, env, host);
    assert Holds(OsReleaseReadable, env, host) == host.osFile.readable;
    assert Holds(Negated(OsReleaseReadable), env, host) == !host.osFile.readable;
  }

  /** The operating system can be named, or its absence is known. */
  predicate OsUsable(host: Host) {
    var f := host.osFile;
    !f.present || (f.readable && "od" in host.tools && f.dumps && |f.bytes| <= OsRelease.LIMIT && Decode(f.bytes).Some?)
  }

  function OsNameOfHost(host: Host): Option<string> {
    if host.osFile.present && OsUsable(host) then OsRelease.PrettyName(Lines(Decode(host.osFile.bytes).value)) else None
  }

  predicate DumpChar(c: char) {
    c == ' ' || c == '\n' || OsRelease.Nibble(c).Some?
  }

  lemma {:induction false} DumpChars(bytes: seq<Byte>)
    ensures forall c :: c in OsRelease.Dump(bytes) ==> DumpChar(c)
  {
    if bytes != [] {
      DumpChars(bytes[..|bytes| - 1]);
    }
  }

  lemma {:induction false} SqueezeBlank(s: string)
    requires Blank(s) && forall c :: c in s ==> DumpChar(c)
    ensures OsRelease.Squeeze(s) == ""
  {
    if s != "" {
      assert s[0] in s;
      SqueezeBlank(s[1..]);
    }
  }

  lemma TrimSqueezes(s: string)
    requires forall c :: c in s ==> DumpChar(c)
    ensures OsRelease.Squeeze(Trim(s)) == OsRelease.Squeeze(s)
  {
    var a, b := TrimSplit(s);
    SqueezeBlank(a);
    SqueezeBlank(b);
    OsRelease.SqueezeConcat(a + Trim(s), b);
    OsRelease.SqueezeConcat(a, Trim(s));
  }

  /** Trimming a dump changes nothing of what it spells. */
  lemma TrimmedDump(bytes: seq<Byte>)
    ensures var d := OsRelease.Dump(bytes);
      '_' !in d && OsRelease.Spells(Unixify(Trim(d)), bytes)
  {
    var d := OsRelease.Dump(bytes);
    DumpChars(bytes);
    assert !DumpChar('_') && !DumpChar('\r');
    OsRelease.DumpSpells(bytes);
    TrimSqueezes(d);
    TrimMembers(d);
    UnixifyFixed(Trim(d));
  }

  lemma OsReasonsAreLines()
    ensures OneLine(NOT_READABLE) && NOT_READABLE != ""
    ensures OneLine(OD_REQUIRED) && OD_REQUIRED != ""
    ensures OneLine(READ_FAILED) && READ_FAILED != ""
  {
  }

  /** The os-release section, once settled, is available exactly when the file is usable. */
  lemma OsSection(nonce: string, host: Host)
    requires Clean(nonce) && nonce != ""
    ensures var m := MarkersFor(nonce); var out := OsOutput(m, host);
      var section := SectionOf(m, 0, BodyLines(out));
      && QuietBody(m, out)
      && section.status == 0
      && (SettleOsRelease(section).unavailable == None <==> OsUsable(host))
      && OsNameOf(section) == OsNameOfHost(host)
  {
    var f := host.osFile;
    OsReasonsAreLines();
    if !f.present {
      EmptySection(nonce, 0);
      EmptyOsName();
    } else if !f.readable {
      UnavailableSection(nonce, NOT_READABLE);
    } else if "od" !in host.tools {
      UnavailableSection(nonce, OD_REQUIRED);
    } else if !f.dumps {
      UnavailableSection(nonce, READ_FAILED);
    } else {
      DumpSection(nonce, f.bytes[..Min(|f.bytes|, OsRelease.LIMIT + 1)]);
      DumpedName(f.bytes);
    }
  }

  lemma EmptyOsName()
    ensures OsRelease.OsName("") == Ok(None)
  {
    OsRelease.HexBytesInverts("", []);
    assert Decode([]) == Some("");
    assert Lines("") == [];
  }

  lemma DumpSection(nonce: string, bytes: seq<Byte>)
    ensures var m := MarkersFor(nonce); var out := OsRelease.Dump(bytes);
      && QuietBody(m, out)
      && SectionOf(m, 0, BodyLines(out)) == Section(0, Unixify(Trim(out)), None, None, [])
  {
    var m, out := MarkersFor(nonce), OsRelease.Dump(bytes);
    TrimmedDump(bytes);
    var lines := BodyLines(out);
    forall i | 0 <= i < |lines|
      ensures PlainLine(m, lines[i])
    {
      LinesAreParts(out + "\n", lines[i]);
      var k :| PartAt(out + "\n", k, lines[i]);
      assert forall j :: 0 <= j < |lines[i]| ==> lines[i][j] == (out + "\n")[k..k + |lines[i]|][j];
      NoUnderscore(nonce, lines[i]);
    }
    PlainSection(m, 0, out);
  }

  lemma DumpedName(bytes: seq<Byte>)
    ensures var name := OsRelease.OsName(Unixify(Trim(OsRelease.Dump(bytes[..Min(|bytes|, OsRelease.LIMIT + 1)]))));
      if |bytes| > OsRelease.LIMIT then name.Err?
      else name == if Decode(bytes) == None then Err(OsRelease.NOT_UTF8)
                   else Ok(OsRelease.PrettyName(Lines(Decode(bytes).value)))
  {
    var kept := bytes[..Min(|bytes|, OsRelease.LIMIT + 1)];
    TrimmedDump(kept);
    NameOfDump(Unixify(Trim(OsRelease.Dump(kept))), kept, bytes);
  }

  lemma NameOfDump(text: string, kept: seq<Byte>, bytes: seq<Byte>)
    requires kept == bytes[..Min(|bytes|, OsRelease.LIMIT + 1)] && OsRelease.Spells(text, kept)
    ensures var name := OsRelease.OsName(text);
      if |bytes| > OsRelease.LIMIT then name.Err?
      else name == if Decode(bytes) == None then Err(OsRelease.NOT_UTF8)
                   else Ok(OsRelease.PrettyName(Lines(Decode(bytes).value)))
  {
    if |bytes| <= OsRelease.LIMIT {
      assert kept == bytes;
      SpelledName(text, bytes);
    } else {
      TooLongDump(text, kept);
    }
  }

  lemma SpelledName(text: string, bytes: seq<Byte>)
    requires OsRelease.Spells(text, bytes) && |bytes| <= OsRelease.LIMIT
    ensures OsRelease.OsName(text)
         == if Decode(bytes) == None then Err(OsRelease.NOT_UTF8)
            else Ok(OsRelease.PrettyName(Lines(Decode(bytes).value)))
  {
    OsRelease.HexBytesInverts(text, bytes);
  }

  lemma TooLongDump(text: string, bytes: seq<Byte>)
    requires OsRelease.Spells(text, bytes) && |bytes| > OsRelease.LIMIT
    ensures OsRelease.HexBytes(text).Err?
  {
    var r := OsRelease.HexBytes(text);
    if r.Ok? {
      OsRelease.HexBytesInverts(text, r.value);
    }
  }

  // ---------- the whole transcript ----------

  lemma StatusPrints(n: ExitStatus)
    ensures Clean(Decimal(n)) && '_' !in Decimal(n) && StatusOf(Decimal(n)) == n
  {
    ParseI32Decimal(n);
    forall c | c in Decimal(n)
      ensures IsDigit(c)
    {
    }
  }

  lemma ProbeFrame(nonce: string, p: Probe, host: Host)
    requires Clean(nonce) && nonce != "" && Clean(p.id)
    requires Runs(p, host) ==> QuietBody(MarkersFor(nonce), RunIn(MarkersFor(nonce), p, host).output)
    requires forall t :: t in p.requiredTools ==> ToolName(t)
    ensures var m := MarkersFor(nonce); var f := FrameOfPart(m, Part(p.id, BodyOf(p)), host);
      f.id == p.id && WellFormedFrame(m, f) && FrameSection(m, f) == Direct(m, p, host)
  {
    var m := MarkersFor(nonce);
    ProbeExec(m, p, host);
    ProbeSection(nonce, p, host);
    StatusPrints(ProbeOutcome(m, p, host).status);
  }

  lemma MetaFrame(nonce: string, host: Host)
    requires Clean(nonce) && OneLine(host.hostname) && OneLine(host.kernel)
    ensures var m := MarkersFor(nonce); var f := FrameOfPart(m, Part(META_ID, META_BODY), host);
      WellFormedFrame(m, f) && Lines(FrameSection(m, f).output) == MetaLines(host)
  {
    MetaExec(MarkersFor(nonce), host);
    MetaSection(nonce, host);
    StatusPrints(0);
  }

  lemma OsFrame(nonce: string, host: Host)
    requires Clean(nonce) && nonce != ""
    ensures var m := MarkersFor(nonce); var f := FrameOfPart(m, Part(OS_RELEASE_ID, OS_RELEASE_BODY), host);
      var section := FrameSection(m, f);
      && WellFormedFrame(m, f) && section.status == 0
      && (SettleOsRelease(section).unavailable == None <==> OsUsable(host))
      && OsNameOf(section) == OsNameOfHost(host)
  {
    OsExec(MarkersFor(nonce), host);
    OsSection(nonce, host);
    StatusPrints(0);
  }

  lemma CapabilityFrame(nonce: string, tools: seq<string>, host: Host)
    requires Clean(nonce) && forall t :: t in tools ==> ToolName(t)
    ensures var m := MarkersFor(nonce); var f := FrameOfPart(m, Part(CAPABILITIES_ID, CapabilityBody(tools)), host);
      var section := FrameSection(m, f);
      && WellFormedFrame(m, f) && section.status == 0
      && ToolsOf(Lines(section.output)) == PresentTools(tools, host)
  {
    CapabilityExec(tools, SessionEnv(MarkersFor(nonce), host), host);
    CapabilitySection(nonce, tools, host);
    StatusPrints(0);
  }

  lemma {:induction false} ProbePartsAt(probes: seq<Probe>)
    ensures |ProbeParts(probes)| == |probes|
    ensures forall i :: 0 <= i < |probes| ==> ProbeParts(probes)[i] == Part(probes[i].id, BodyOf(probes[i]))
  {
    if probes != [] {
      ProbePartsAt(probes[..|probes| - 1]);
    }
  }

  lemma {:induction false} RequiredAmong(probes: seq<Probe>)
    ensures forall t :: t in RequiredTools(probes) <==> exists i :: 0 <= i < |probes| && t in probes[i].requiredTools
  {
    if probes != [] {
      var n := |probes| - 1;
      RequiredAmong(probes[..n]);
      forall t
        ensures t in RequiredTools(probes) <==> exists i :: 0 <= i < |probes| && t in probes[i].requiredTools
      {
        if t in RequiredTools(probes[..n]) {
          var i :| 0 <= i < n && t in probes[..n][i].requiredTools;
          assert t in probes[i].requiredTools;
        }
        if i :| 0 <= i < |probes| && t in probes[i].requiredTools {
          assert i < n ==> t in probes[..n][i].requiredTools;
        }
      }
    }
  }

  function Parts(probes: seq<Probe>): seq<Part> {
    MetadataParts(probes) + ProbeParts(probes)
  }

  function Tools(probes: seq<Probe>): seq<string> {
    Sorting.SortedSet(RequiredTools(probes))
  }

  lemma ToolsAreNames(probes: seq<Probe>)
    requires ValidProbes(probes)
    ensures forall t :: t in Tools(probes) ==> ToolName(t)
    ensures Tools(probes) == [] <==> RequiredTools(probes) == []
  {
    Sorting.SortedSetSpec(RequiredTools(probes));
    RequiredAmong(probes);
    assert RequiredTools(probes) != [] ==> RequiredTools(probes)[0] in Tools(probes);
    assert Tools(probes) != [] ==> Tools(probes)[0] in RequiredTools(probes);
  }

  lemma PartsAt(probes: seq<Probe>)
    ensures var parts := Parts(probes);
      && |parts| == |probes| + 3
      && parts[0] == Part(META_ID, META_BODY)
      && parts[1] == Part(OS_RELEASE_ID, OS_RELEASE_BODY)
      && parts[2] == Part(CAPABILITIES_ID, CapabilityBody(Tools(probes)))
      && forall i :: 3 <= i < |parts| ==> parts[i] == Part(probes[i - 3].id, BodyOf(probes[i - 3]))
  {
    ProbePartsAt(probes);
    var parts := Parts(probes);
    forall i | 3 <= i < |parts|
      ensures parts[i] == Part(probes[i - 3].id, BodyOf(probes[i - 3]))
    {
      assert parts[i] == ProbeParts(probes)[i - 3];
    }
  }

  lemma PartFramed(nonce: string, probes: seq<Probe>, host: Host, i: nat)
    requires Clean(nonce) && nonce != "" && ValidProbes(probes) && HonestHost(MarkersFor(nonce), probes, host)
    requires i < |Parts(probes)|
    ensures var f := FrameOfPart(MarkersFor(nonce), Parts(probes)[i], host);
      f.id == Parts(probes)[i].id && WellFormedFrame(MarkersFor(nonce), f)
  {
    PartsAt(probes);
    if i == 0 {
      MetaFrame(nonce, host);
    } else if i == 1 {
      OsFrame(nonce, host);
    } else if i == 2 {
      ToolsAreNames(probes);
      CapabilityFrame(nonce, Tools(probes), host);
    } else {
      ProbeFrame(nonce, probes[i - 3], host);
    }
  }

  lemma PartsFramed(nonce: string, probes: seq<Probe>, host: Host)
    requires Clean(nonce) && nonce != "" && ValidProbes(probes) && HonestHost(MarkersFor(nonce), probes, host)
    ensures WellFormed(MarkersFor(nonce), FramesOf(MarkersFor(nonce), Parts(probes), host))
  {
    var m := MarkersFor(nonce);
    var frames := FramesOf(m, Parts(probes), host);
    MarkersUnderscored(nonce);
    forall i | 0 <= i < |frames|
      ensures WellFormedFrame(m, frames[i]) && frames[i].id == Parts(probes)[i].id
    {
      PartFramed(nonce, probes, host, i);
    }
    PartsDistinct(probes);
  }

  lemma PartsDistinct(probes: seq<Probe>)
    requires ValidProbes(probes)
    ensures var parts := Parts(probes); forall i, j :: 0 <= i < j < |parts| ==> parts[i].id != parts[j].id
  {
    PartsAt(probes);
    var parts := Parts(probes);
    forall i, j | 0 <= i < j < |parts|
      ensures parts[i].id != parts[j].id
    {
      if j >= 3 {
        assert parts[j].id == probes[j - 3].id;
      }
    }
  }

  /** The transcript the host and the probes determine. */
  ghost predicate MeetsSpec(m: Markers, probes: seq<Probe>, host: Host, t: Transcript) {
    && (forall id :: id in t.sections <==> MetadataId(id) || ProbeId(probes, id))
    && (forall i :: 0 <= i < |probes| ==>
         probes[i].id in t.sections && t.sections[probes[i].id] == Direct(m, probes[i], host))
    && CAPABILITIES_ID in t.sections && OS_RELEASE_ID in t.sections
    && t.sections[CAPABILITIES_ID].status == 0
    && t.sections[OS_RELEASE_ID].status == 0
    && (t.sections[OS_RELEASE_ID].unavailable == None <==> OsUsable(host))
    && t.host == Some(HostInfo(
         OrUnknown(host.hostname), OrUnknown(host.kernel),
         if OsNameOfHost(host).Some? then OsNameOfHost(host).value else "unknown",
         host.root, "sudo" in host.tools, ReportedTools(probes, host)))
  }

  lemma PartsAreCommands(probes: seq<Probe>)
    requires RequiredTools(probes) != [] && ValidProbes(probes)
    ensures forall i :: 0 <= i < |Parts(probes)| ==> !Parts(probes)[i].body.Nothing?
  {
    ToolsAreNames(probes);
    PartsAt(probes);
    InventoryIsCommand(Tools(probes));
  }

  lemma InventoryIsCommand(tools: seq<string>)
    requires tools != []
    ensures !CapabilityBody(tools).Nothing?
  {
  }

  /** A session over probes of which at least one requires a tool runs to its end and prints their frames. */
  lemma SessionPrints(nonce: string, probes: seq<Probe>, host: Host)
    requires RequiredTools(probes) != [] && ValidProbes(probes)
    ensures var m := MarkersFor(nonce); var s := SessionOf(ScriptOf(m, probes), host);
      !s.aborted && s.last == 0 && s.out == TextOf(m, FramesOf(m, Parts(probes), host))
  {
    var m := MarkersFor(nonce);
    PartsAreCommands(probes);
    RunConcat(Preamble(m), PartLines(m, Parts(probes)), Session("", EMPTY_ENV, 0, false), host);
    RunPreamble(m, host);
    RunParts(m, Parts(probes), host);
  }

  /**
   Parsing what the built script prints gives each probe its direct specification,
   and the host information what the host is.
   */
  lemma CollectionMeetsSpec(nonce: string, probes: seq<Probe>, host: Host)
    requires Clean(nonce) && nonce != "" && ValidProbes(probes) && HonestHost(MarkersFor(nonce), probes, host)
    requires RequiredTools(probes) != []
    ensures var s := SessionOf(ScriptOf(MarkersFor(nonce), probes), host);
      !s.aborted && s.last == 0 && MeetsSpec(MarkersFor(nonce), probes, host, Parsed(s.out, nonce))
  {
    var m := MarkersFor(nonce);
    var frames := FramesOf(m, Parts(probes), host);
    SessionPrints(nonce, probes, host);
    PartsFramed(nonce, probes, host);
    FoldFrames(m, START, frames);
    SectionsMeetSpec(nonce, probes, host, SectionsOf(m, Lines(TextOf(m, frames))));
  }

  lemma SectionsMeetSpec(nonce: string, probes: seq<Probe>, host: Host, sections: map<string, Section>)
    requires Clean(nonce) && nonce != "" && ValidProbes(probes) && HonestHost(MarkersFor(nonce), probes, host)
    requires FramesSet(MarkersFor(nonce), map[], FramesOf(MarkersFor(nonce), Parts(probes), host), sections)
    ensures MeetsSpec(MarkersFor(nonce), probes, host, Transcript(HostOf(sections), Settled(sections)))
  {
    PartIds(MarkersFor(nonce), probes, host);
    forall i | 0 <= i < |probes|
      ensures probes[i].id in sections && sections[probes[i].id] == Direct(MarkersFor(nonce), probes[i], host)
    {
      ProbeMeetsSpec(nonce, probes, host, sections, i);
    }
    MetadataMeetsSpec(nonce, probes, host, sections);
  }

  lemma ProbeMeetsSpec(nonce: string, probes: seq<Probe>, host: Host, sections: map<string, Section>, i: nat)
    requires Clean(nonce) && nonce != "" && ValidProbes(probes) && HonestHost(MarkersFor(nonce), probes, host)
    requires FramesSet(MarkersFor(nonce), map[], FramesOf(MarkersFor(nonce), Parts(probes), host), sections)
    requires i < |probes|
    ensures probes[i].id in sections && sections[probes[i].id] == Direct(MarkersFor(nonce), probes[i], host)
  {
    var m := MarkersFor(nonce);
    var frames := FramesOf(m, Parts(probes), host);
    PartIds(m, probes, host);
    assert frames[i + 3].id == probes[i].id;
    ProbeFrame(nonce, probes[i], host);
  }

  ghost predicate ProbeId(probes: seq<Probe>, id: string) {
    exists i :: 0 <= i < |probes| && probes[i].id == id
  }

  predicate MetadataId(id: string) {
    id == META_ID || id == OS_RELEASE_ID || id == CAPABILITIES_ID
  }

  lemma PartIds(m: Markers, probes: seq<Probe>, host: Host)
    ensures var frames := FramesOf(m, Parts(probes), host);
      && |frames| == |probes| + 3
      && (forall i :: 0 <= i < |probes| ==> frames[i + 3] == FrameOfPart(m, Part(probes[i].id, BodyOf(probes[i])), host))
      && (forall id :: HasId(frames, id) <==> MetadataId(id) || ProbeId(probes, id))
  {
    PartsAt(probes);
    var frames := FramesOf(m, Parts(probes), host);
    forall id
      ensures HasId(frames, id) <==> MetadataId(id) || ProbeId(probes, id)
    {
      PartHasId(probes, frames, id);
    }
  }

  lemma PartHasId(probes: seq<Probe>, frames: seq<Frame>, id: string)
    requires |frames| == |probes| + 3
    requires frames[0].id == META_ID && frames[1].id == OS_RELEASE_ID && frames[2].id == CAPABILITIES_ID
    requires forall i :: 0 <= i < |probes| ==> frames[i + 3].id == probes[i].id
    ensures HasId(frames, id) <==> MetadataId(id) || ProbeId(probes, id)
  {
    if HasId(frames, id) {
      var k :| 0 <= k < |frames| && frames[k].id == id;
      if k >= 3 {
        assert probes[k - 3].id == id;
      }
    }
    if ProbeId(probes, id) {
      var i :| 0 <= i < |probes| && probes[i].id == id;
      assert frames[i + 3].id == id;
    }
  }

  lemma MetadataMeetsSpec(nonce: string, probes: seq<Probe>, host: Host, sections: map<string, Section>)
    requires Clean(nonce) && nonce != "" && ValidProbes(probes) && HonestHost(MarkersFor(nonce), probes, host)
    requires FramesSet(MarkersFor(nonce), map[], FramesOf(MarkersFor(nonce), Parts(probes), host), sections)
    ensures META_ID in sections && OS_RELEASE_ID in sections && CAPABILITIES_ID in sections
    ensures sections[CAPABILITIES_ID].status == 0 && sections[OS_RELEASE_ID].status == 0
    ensures SettleOsRelease(sections[OS_RELEASE_ID]).unavailable == None <==> OsUsable(host)
    ensures HostOf(sections) == Some(HostInfo(
         OrUnknown(host.hostname), OrUnknown(host.kernel),
         if OsNameOfHost(host).Some? then OsNameOfHost(host).value else "unknown",
         host.root, "sudo" in host.tools, ReportedTools(probes, host)))
  {
    var m := MarkersFor(nonce);
    var frames := FramesOf(m, Parts(probes), host);
    PartsAt(probes);
    ToolsAreNames(probes);
    MetaFrame(nonce, host);
    OsFrame(nonce, host);
    CapabilityFrame(nonce, Tools(probes), host);
    assert frames[0].id == META_ID && frames[1].id == OS_RELEASE_ID && frames[2].id == CAPABILITIES_ID;
    assert sections[frames[0].id] == FrameSection(m, frames[0]);
    assert sections[frames[1].id] == FrameSection(m, frames[1]);
    assert sections[frames[2].id] == FrameSection(m, frames[2]);
    MetaReadsBack(host, OsNameOfHost(host), ReportedTools(probes, host));
  }

  /** The reported tools: strictly sorted, required by some probe and present. */
  lemma ReportedToolsSpec(probes: seq<Probe>, host: Host)
    ensures Sorting.StrictlySorted(Sorting.StringLe, ReportedTools(probes, host))
    ensures forall t :: t in ReportedTools(probes, host) <==>
      t in host.tools && exists i :: 0 <= i < |probes| && t in probes[i].requiredTools
  {
    Sorting.SortedSetSpec(RequiredTools(probes));
    RequiredAmong(probes);
    PresentAmong(Tools(probes), host);
    PresentKeepsOrder(Tools(probes), host);
  }

  lemma {:induction false} PresentKeepsOrder(tools: seq<string>, host: Host)
    requires Sorting.StrictlySorted(Sorting.StringLe, tools)
    ensures Sorting.StrictlySorted(Sorting.StringLe, PresentTools(tools, host))
  {
    if tools != [] {
      var init, last := tools[..|tools| - 1], tools[|tools| - 1];
      PresentKeepsOrder(init, host);
      PresentAmong(init, host);
      var before := PresentTools(init, host);
      forall i | 0 <= i < |before|
        ensures Sorting.StringLe(before[i], last) && before[i] != last
      {
        assert before[i] in init;
      }
    }
  }

  /**
   Without any required tool the capability section has no command, which the
   shell rejects: the session ends with the status of a syntax error.
   */
  lemma NoToolsNoSession(nonce: string, probes: seq<Probe>, host: Host)
    requires RequiredTools(probes) == []
    ensures var s := SessionOf(ScriptOf(MarkersFor(nonce), probes), host);
      s.aborted && s.last == SYNTAX_ERROR_STATUS
  {
    var m := MarkersFor(nonce);
    var start := Session("", EMPTY_ENV, 0, false);
    NoTools(probes);
    var parts := MetadataParts(probes);
    RunPreamble(m, host);
    RunConcat(Preamble(m), PartLines(m, Parts(probes)), start, host);
    var s := Session("", SessionEnv(m, host), 0, false);
    PartLinesConcat(m, parts, ProbeParts(probes));
    RunConcat(PartLines(m, parts), PartLines(m, ProbeParts(probes)), s, host);
    EmptyCapabilitiesAbort(m, parts[0], parts[1], parts[2], host);
    AbortedStays(PartLines(m, ProbeParts(probes)), RunLines(PartLines(m, parts), s, host), host);
  }

  lemma NoTools(probes: seq<Probe>)
    requires RequiredTools(probes) == []
    ensures Tools(probes) == []
  {
    assert Sorting.Sort(Sorting.StringLe, []) == [];
  }

  lemma {:induction false} PartLinesConcat(m: Markers, a: seq<Part>, b: seq<Part>)
    ensures PartLines(m, a + b) == PartLines(m, a) + PartLines(m, b)
  {
    if b == [] {
      assert a + b == a;
    } else {
      assert (a + b)[..|a + b| - 1] == a + b[..|b| - 1];
      PartLinesConcat(m, a, b[..|b| - 1]);
    }
  }

  lemma EmptyCapabilitiesAbort(m: Markers, a: Part, b: Part, c: Part, host: Host)
    requires !a.body.Nothing? && !b.body.Nothing? && c.body.Nothing?
    ensures var s := RunLines(PartLines(m, [a, b, c]), Session("", SessionEnv(m, host), 0, false), host);
      s.aborted && s.last == SYNTAX_ERROR_STATUS
  {
    var start := Session("", SessionEnv(m, host), 0, false);
    PartLinesSnoc(m, [a, b], c);
    assert [a, b] + [c] == [a, b, c];
    RunParts(m, [a, b], host);
    RunConcat(PartLines(m, [a, b]), SectionLines(m, c), start, host);
    var l := SectionLines(m, c);
    RunThree(l[0], l[1], l[2], RunLines(PartLines(m, [a, b]), start, host), host);
  }
}
