/**
 The transcript parser: a line-driven state machine that fails closed on
 mismatched, dangling and truncated sections.
 */
module Protocol {
  import opened Basics
  import opened Text
  import OsRelease

  const META_ID := "meta"
  const OS_RELEASE_ID := "os-release"
  const CAPABILITIES_ID := "capabilities"

  datatype Section = Section(
    status: int,
    output: string,
    unavailable: Option<string>,
    partial: Option<string>,
    collectionLimits: seq<string>)

  datatype HostInfo = HostInfo(
    hostname: string,
    kernel: string,
    os: string,
    root: Option<bool>,
    sudoPresent: bool,
    tools: seq<string>)

  datatype Transcript = Transcript(host: Option<HostInfo>, sections: map<string, Section>)

  // ---------- markers ----------

  /** The five line prefixes of one session, each carrying its nonce. */
  datatype MarkerSet = MarkerSet(begin: string, end: string, unavailable: string, partial: string, truncated: string)

  predicate EndsInUnderscore(s: string) {
    s != "" && s[|s| - 1] == '_'
  }

  predicate Diverge(a: string, b: string) {
    exists k :: 0 <= k < |a| && k < |b| && a[k] != b[k]
  }

  /** What the framing relies on: prefixes end in an underscore, and no line starts with both of the first two. */
  predicate Distinguishable(m: MarkerSet) {
    EndsInUnderscore(m.begin) && EndsInUnderscore(m.end) && Diverge(m.begin, m.end)
  }

  type Markers = m: MarkerSet | Distinguishable(m) witness MarkersFor("")

  function Prefix(nonce: string, name: string): string {
    "__SHUVSCAN__" + nonce + "__" + name + "__"
  }

  function MarkersFor(nonce: string): (m: MarkerSet)
    ensures Distinguishable(m)
  {
    var begin, end := Prefix(nonce, "BEGIN"), Prefix(nonce, "END");
    var k := |"__SHUVSCAN__" + nonce + "__"|;
    assert begin[k] == 'B' && end[k] == 'E';
    MarkerSet(begin, end, Prefix(nonce, "UNAVAILABLE"), Prefix(nonce, "PARTIAL"), Prefix(nonce, "TRUNCATED"))
  }

  datatype Kind = Unavailable | Partial | Limit

  function MarkPrefix(m: Markers, kind: Kind): string {
    match kind
    case Unavailable => m.unavailable
    case Partial => m.partial
    case Limit => m.truncated
  }

  /** The id a BEGIN line opens, if the line is one. */
  function BeginId(m: Markers, line: string): Option<string> {
    match StripPrefix(TrimCarriageReturns(line), m.begin)
    case None => None
    case Some(rest) => StripSuffix(rest, "__")
  }

  /** What stands behind the END prefix, if the line has one. */
  function EndRest(m: Markers, line: string): Option<string> {
    StripPrefix(TrimCarriageReturns(line), m.end)
  }

  /** The status text of an END line for `id`; none when the line does not close that id. */
  function StatusText(rest: string, id: string): Option<string> {
    match StripPrefix(rest, id)
    case None => None
    case Some(tail) =>
      match StripPrefix(tail, "__")
      case None => None
      case Some(tail) => StripSuffix(tail, "__")
  }

  function StatusOf(text: string): int {
    match ParseI32(text)
    case Some(n) => n
    case None => -1
  }

  /** A status is the 32-bit number that the text spells, and -1 if it spells none. */
  lemma StatusReads(text: string, n: int)
    ensures FitsI32(n) && SpellsNumber(text, n) ==> StatusOf(text) == n
    ensures (forall other :: FitsI32(other) ==> !SpellsNumber(text, other)) ==> StatusOf(text) == -1
  {
    ParseI32Spells(text, n);
    if ParseI32(text).Some? {
      ParseI32Spells(text, ParseI32(text).value);
    }
  }

  predicate IsBegin(m: Markers, line: string) {
    BeginId(m, line).Some?
  }

  predicate IsEnd(m: Markers, line: string) {
    EndRest(m, line).Some?
  }

  /** No line opens or closes a section. */
  predicate Quiet(m: Markers, lines: seq<string>) {
    forall i :: 0 <= i < |lines| ==> !IsBegin(m, lines[i]) && !IsEnd(m, lines[i])
  }

  // ---------- one section ----------

  function MarkerReason(reason: string): string {
    var trimmed := Trim(reason);
    if trimmed == "" then "no reason reported by target" else trimmed
  }

  /** The kind of mark a section line is; none when it is evidence. */
  function MarkKind(m: Markers, line: string): Option<Kind> {
    var trimmed := Trim(line);
    if StartsWith(trimmed, m.unavailable) then Some(Unavailable)
    else if StartsWith(trimmed, m.partial) then Some(Partial)
    else if StartsWith(trimmed, m.truncated) then Some(Limit)
    else None
  }

  function MarkReason(m: Markers, line: string): string
    requires MarkKind(m, line).Some?
  {
    MarkerReason(Trim(line)[|MarkPrefix(m, MarkKind(m, line).value)|..])
  }

  /** The reasons of all marks of one kind, in order. */
  function Reasons(m: Markers, kind: Kind, lines: seq<string>): seq<string> {
    if lines == [] then []
    else
      var last := lines[|lines| - 1];
      Reasons(m, kind, lines[..|lines| - 1])
      + if MarkKind(m, last) == Some(kind) then [MarkReason(m, last)] else []
  }

  /** The lines that are no marks, in order. */
  function EvidenceLines(m: Markers, lines: seq<string>): seq<string> {
    if lines == [] then []
    else
      var last := lines[|lines| - 1];
      EvidenceLines(m, lines[..|lines| - 1]) + if MarkKind(m, last) == None then [last] else []
  }

  function First(reasons: seq<string>): Option<string> {
    if reasons == [] then None else Some(reasons[0])
  }

  function SectionOf(m: Markers, status: int, lines: seq<string>): Section {
    var partials := Reasons(m, Partial, lines);
    Section(
      status,
      Trim(Join(EvidenceLines(m, lines), "\n")),
      First(Reasons(m, Unavailable, lines)),
      if partials == [] then None else Some(Join(partials, "; ")),
      Reasons(m, Limit, lines))
  }

  method ParseSectionOutput(m: Markers, lines: seq<string>)
    returns (output: string, unavailable: Option<string>, partial: Option<string>, limits: seq<string>)
    ensures forall status :: SectionOf(m, status, lines) == Section(status, output, unavailable, partial, limits)
  {
    var evidence: seq<string> := [];
    unavailable := None;
    var partials: seq<string> := [];
    limits := [];
    for i := 0 to |lines|
      invariant evidence == EvidenceLines(m, lines[..i])
      invariant unavailable == First(Reasons(m, Unavailable, lines[..i]))
      invariant partials == Reasons(m, Partial, lines[..i])
      invariant limits == Reasons(m, Limit, lines[..i])
    {
      assert lines[..i + 1][..i] == lines[..i];
      var line := lines[i];
      match MarkKind(m, line)
      case Some(Unavailable) =>
        if unavailable == None {
          unavailable := Some(MarkReason(m, line));
        }
      case Some(Partial) => partials := partials + [MarkReason(m, line)];
      case Some(Limit) => limits := limits + [MarkReason(m, line)];
      case None => evidence := evidence + [line];
    }
    assert lines[..|lines|] == lines;
    output := Trim(Join(evidence, "\n"));
    partial := if partials == [] then None else Some(Join(partials, "; "));
  }

  // ---------- the state machine ----------

  datatype Open = Closed | Collecting(id: string, lines: seq<string>)

  datatype State = State(sections: map<string, Section>, open: Open)

  const START := State(map[], Closed)

  function Step(m: Markers, st: State, line: string): State {
    if IsBegin(m, line) then st.(open := Collecting(BeginId(m, line).value, []))
    else if IsEnd(m, line) then
      if st.open.Collecting? && StatusText(EndRest(m, line).value, st.open.id).Some? then
        var status := StatusOf(StatusText(EndRest(m, line).value, st.open.id).value);
        State(st.sections[st.open.id := SectionOf(m, status, st.open.lines)], Closed)
      else st.(open := Closed)
    else if st.open.Collecting? then st.(open := Collecting(st.open.id, st.open.lines + [line]))
    else st
  }

  function Fold(m: Markers, st: State, lines: seq<string>): State {
    if lines == [] then st
    else Step(m, Fold(m, st, lines[..|lines| - 1]), lines[|lines| - 1])
  }

  function SectionsOf(m: Markers, lines: seq<string>): map<string, Section> {
    Fold(m, START, lines).sections
  }

  // ---------- host metadata ----------

  /** The section after its os-release dump has been decoded: an undecodable one becomes unavailable. */
  function SettleOsRelease(section: Section): Section {
    if section.status != 0 || section.unavailable.Some? then section
    else
      match OsRelease.OsName(section.output)
      case Err(e) => section.(unavailable := Some(e))
      case Ok(_) => section
  }

  function OsNameOf(section: Section): Option<string> {
    if section.status != 0 || section.unavailable.Some? then None
    else
      match OsRelease.OsName(section.output)
      case Err(_) => None
      case Ok(name) => name
  }

  function ToolsOf(lines: seq<string>): seq<string> {
    if lines == [] then []
    else
      var tool := StripPrefix(lines[|lines| - 1], "tool=");
      ToolsOf(lines[..|lines| - 1]) + if tool.Some? then [tool.value] else []
  }

  function EqualsAt(line: string): (k: nat)
    ensures k <= |line| && (k < |line| ==> line[k] == '=')
  {
    if line == "" || line[0] == '=' then 0 else 1 + EqualsAt(line[1..])
  }

  function MetaLine(host: HostInfo, line: string): HostInfo {
    var k := EqualsAt(line);
    if k == |line| then host
    else
      var key, value := line[..k], Trim(line[k + 1..]);
      if value == "" then host
      else if key == "hostname" then host.(hostname := value)
      else if key == "kernel" then host.(kernel := value)
      else if key == "root" then
        host.(root := if value == "1" then Some(true) else if value == "0" then Some(false) else None)
      else if key == "sudo_present" then host.(sudoPresent := value == "1")
      else host
  }

  function MetaFold(host: HostInfo, lines: seq<string>): HostInfo {
    if lines == [] then host else MetaLine(MetaFold(host, lines[..|lines| - 1]), lines[|lines| - 1])
  }

  /** The value of the last line that assigns something to a key. */
  function LastValue(lines: seq<string>, key: string): Option<string> {
    if lines == [] then None
    else
      match StripPrefix(lines[|lines| - 1], key + "=")
      case None => LastValue(lines[..|lines| - 1], key)
      case Some(value) => if Trim(value) == "" then LastValue(lines[..|lines| - 1], key) else Some(Trim(value))
  }

  function OrElse<T>(value: Option<T>, otherwise: T): T {
    if value.Some? then value.value else otherwise
  }

  function FlagValue(value: string): Option<bool> {
    if value == "1" then Some(true) else if value == "0" then Some(false) else None
  }

  lemma {:induction false} PrefixIsKey(line: string, key: string)
    requires '=' !in key
    ensures key + "=" <= line <==> EqualsAt(line) < |line| && line[..EqualsAt(line)] == key
  {
    if key == "" {
      assert "" + "=" == "=";
    } else if line != "" && line[0] != '=' {
      var k := EqualsAt(line[1..]);
      PrefixIsKey(line[1..], key[1..]);
      assert key + "=" == [key[0]] + (key[1..] + "=");
      assert line == [line[0]] + line[1..] && line[..k + 1] == [line[0]] + line[1..][..k];
      assert key == [key[0]] + key[1..];
    }
  }

  /** A line assigns to the key in front of its first equals sign. */
  lemma KeyOf(line: string, key: string)
    requires '=' !in key
    ensures var k := EqualsAt(line); var value := StripPrefix(line, key + "=");
      && (value.Some? <==> k < |line| && line[..k] == key)
      && (value.Some? ==> value.value == line[k + 1..])
  {
    PrefixIsKey(line, key);
  }

  lemma MetaLineAssigns(host: HostInfo, line: string)
    ensures MetaLine(host, line)
         == host.(hostname := OrElse(LastValue([line], "hostname"), host.hostname),
                  kernel := OrElse(LastValue([line], "kernel"), host.kernel),
                  root := match LastValue([line], "root") case None => host.root case Some(v) => FlagValue(v),
                  sudoPresent := match LastValue([line], "sudo_present") case None => host.sudoPresent case Some(v) => v == "1")
  {
    KeyOf(line, "hostname");
    KeyOf(line, "kernel");
    KeyOf(line, "root");
    KeyOf(line, "sudo_present");
  }

  /** Of the metadata, for every key the last assignment that is not empty counts. */
  lemma {:induction false} LastValuesCount(host: HostInfo, lines: seq<string>)
    ensures MetaFold(host, lines)
         == host.(hostname := OrElse(LastValue(lines, "hostname"), host.hostname),
                  kernel := OrElse(LastValue(lines, "kernel"), host.kernel),
                  root := match LastValue(lines, "root") case None => host.root case Some(v) => FlagValue(v),
                  sudoPresent := match LastValue(lines, "sudo_present") case None => host.sudoPresent case Some(v) => v == "1")
  {
    if lines != [] {
      var last := lines[|lines| - 1];
      LastValuesCount(host, lines[..|lines| - 1]);
      MetaLineAssigns(MetaFold(host, lines[..|lines| - 1]), last);
      assert [last][..0] == [];
    }
  }

  /** The tools are what stands behind the tag, line by line. */
  lemma {:induction false} ToolsAreTagged(lines: seq<string>, tool: string)
    ensures tool in ToolsOf(lines) <==> "tool=" + tool in lines
  {
    if lines != [] {
      var init, last := lines[..|lines| - 1], lines[|lines| - 1];
      ToolsAreTagged(init, tool);
      assert lines == init + [last];
      var value := StripPrefix(last, "tool=");
      if value.Some? {
        assert last == "tool=" + value.value;
      }
      assert ("tool=" + tool)[5..] == tool;
    }
  }

  function UnknownHost(os: Option<string>, tools: seq<string>): HostInfo {
    HostInfo("unknown", "unknown", if os.Some? then os.value else "unknown", None, false, tools)
  }

  /** The host information that the three metadata sections determine. */
  function HostOf(sections: map<string, Section>): Option<HostInfo> {
    if META_ID !in sections then None
    else
      var os := if OS_RELEASE_ID in sections then OsNameOf(sections[OS_RELEASE_ID]) else None;
      var tools := if CAPABILITIES_ID in sections && sections[CAPABILITIES_ID].status == 0
                   then ToolsOf(Lines(sections[CAPABILITIES_ID].output)) else [];
      Some(MetaFold(UnknownHost(os, tools), Lines(sections[META_ID].output)))
  }

  function Settled(sections: map<string, Section>): map<string, Section> {
    if OS_RELEASE_ID in sections then sections[OS_RELEASE_ID := SettleOsRelease(sections[OS_RELEASE_ID])] else sections
  }

  /** Which sections the host information comes from: no names without `meta`, no tools without a complete inventory. */
  lemma HostIsRead(sections: map<string, Section>)
    ensures HostOf(sections).Some? <==> META_ID in sections
    ensures META_ID in sections ==>
              var host, lines := HostOf(sections).value, Lines(sections[META_ID].output);
              && host.hostname == OrElse(LastValue(lines, "hostname"), "unknown")
              && host.kernel == OrElse(LastValue(lines, "kernel"), "unknown")
              && host.root == (match LastValue(lines, "root") case None => None case Some(v) => FlagValue(v))
              && host.sudoPresent == (LastValue(lines, "sudo_present") == Some("1"))
              && host.tools == (if CAPABILITIES_ID in sections && sections[CAPABILITIES_ID].status == 0
                                then ToolsOf(Lines(sections[CAPABILITIES_ID].output)) else [])
              && host.os == (if OS_RELEASE_ID in sections then OrElse(OsNameOf(sections[OS_RELEASE_ID]), "unknown")
                             else "unknown")
  {
    if META_ID in sections {
      var os := if OS_RELEASE_ID in sections then OsNameOf(sections[OS_RELEASE_ID]) else None;
      var tools := if CAPABILITIES_ID in sections && sections[CAPABILITIES_ID].status == 0
                   then ToolsOf(Lines(sections[CAPABILITIES_ID].output)) else [];
      LastValuesCount(UnknownHost(os, tools), Lines(sections[META_ID].output));
    }
  }

  /** The operating system is only taken from a successful, available dump; a bad dump makes the section unavailable. */
  lemma OsReleaseSettles(sections: map<string, Section>)
    ensures Settled(sections).Keys == sections.Keys
    ensures forall id :: id in sections && id != OS_RELEASE_ID ==> Settled(sections)[id] == sections[id]
    ensures OS_RELEASE_ID in sections ==>
              var before, after := sections[OS_RELEASE_ID], Settled(sections)[OS_RELEASE_ID];
              var name := OsRelease.OsName(before.output);
              var read := before.status == 0 && before.unavailable == None;
              && after == before.(unavailable := after.unavailable)
              && after.unavailable == (if read && name.Err? then Some(name.error) else before.unavailable)
              && OsNameOf(before) == (if read && name.Ok? then name.value else None)
  {
  }

  /** The transcript that the parser returns. */
  function Parsed(raw: string, nonce: string): Transcript {
    ParsedWith(raw, MarkersFor(nonce))
  }

  function ParsedWith(raw: string, m: Markers): Transcript {
    var sections := SectionsOf(m, Lines(raw));
    Transcript(HostOf(sections), Settled(sections))
  }

  // ---------- the parser ----------

  method CollectSections(m: Markers, lines: seq<string>) returns (sections: map<string, Section>)
    ensures sections == SectionsOf(m, lines)
  {
    sections := map[];
    var current := Closed;
    for i := 0 to |lines|
      invariant State(sections, current) == Fold(m, START, lines[..i])
    {
      assert lines[..i + 1][..i] == lines[..i];
      var line := lines[i];
      var begin := BeginId(m, line);
      if begin.Some? {
        current := Collecting(begin.value, []);
        continue;
      }
      var end := EndRest(m, line);
      if end.Some? {
        var taken := current;
        current := Closed;
        if taken.Collecting? {
          var statusText := StatusText(end.value, taken.id);
          if statusText.Some? {
            var status := StatusOf(statusText.value);
            var output, unavailable, partial, limits := ParseSectionOutput(m, taken.lines);
            assert SectionOf(m, status, taken.lines) == Section(status, output, unavailable, partial, limits);
            sections := sections[taken.id := Section(status, output, unavailable, partial, limits)];
          }
        }
        continue;
      }
      if current.Collecting? {
        current := Collecting(current.id, current.lines + [line]);
      }
    }
    assert lines[..|lines|] == lines;
  }

  method ParseMeta(output: string, tools: seq<string>, os: Option<string>) returns (host: HostInfo)
    ensures host == MetaFold(UnknownHost(os, tools), Lines(output))
  {
    host := UnknownHost(os, tools);
    var lines := Lines(output);
    for i := 0 to |lines|
      invariant host == MetaFold(UnknownHost(os, tools), lines[..i])
    {
      assert lines[..i + 1][..i] == lines[..i];
      host := MetaLine(host, lines[i]);
    }
    assert lines[..|lines|] == lines;
  }

  method Parse(raw: string, nonce: string) returns (transcript: Transcript)
    ensures transcript == Parsed(raw, nonce)
  {
    var m := MarkersFor(nonce);
    var sections := CollectSections(m, Lines(raw));
    ghost var collected := sections;
    var os: Option<string> := None;
    if OS_RELEASE_ID in sections {
      var section := sections[OS_RELEASE_ID];
      if section.status == 0 && section.unavailable == None {
        var name := OsRelease.ParseOsReleaseHex(section.output);
        match name
        case Ok(value) => os := value;
        case Err(error) => sections := sections[OS_RELEASE_ID := section.(unavailable := Some(error))];
      }
    }
    var host: Option<HostInfo> := None;
    if META_ID in sections {
      var tools: seq<string> := [];
      if CAPABILITIES_ID in sections && sections[CAPABILITIES_ID].status == 0 {
        tools := ToolsOf(Lines(sections[CAPABILITIES_ID].output));
      }
      var info := ParseMeta(sections[META_ID].output, tools, os);
      host := Some(info);
    }
    assert sections == Settled(collected);
    transcript := Transcript(host, sections);
  }
}
