/**
 Framed transcripts as texts: what one framed section contributes, that no
 section disturbs another, and that a cut transcript never shows a section the
 full one does not.
 */
module Transcripts {
  import opened Basics
  import opened Text
  import opened Protocol
  import opened Framing
  import opened Utf8

  // ---------- the text of a section ----------

  predicate Clean(s: string) {
    '\n' !in s
  }

  predicate CleanMarkers(m: Markers) {
    Clean(m.begin) && Clean(m.end)
  }

  function BeginLine(m: Markers, id: string): string {
    m.begin + id + "__"
  }

  function EndLine(m: Markers, id: string, status: string): string {
    m.end + id + "__" + status + "__"
  }

  /** BEGIN line, body, the extra line feed that guards the END marker, END line. */
  function FrameText(m: Markers, id: string, body: string, status: string): string {
    BeginLine(m, id) + "\n" + (body + "\n" + (EndLine(m, id, status) + "\n"))
  }

  function BodyLines(body: string): seq<string> {
    Lines(body + "\n")
  }

  predicate QuietBody(m: Markers, body: string) {
    Quiet(m, BodyLines(body))
  }

  lemma TrimCarriageReturnsFixed(s: string)
    requires s == "" || s[|s| - 1] != '\r'
    ensures TrimCarriageReturns(s) == s
  {
  }

  lemma BeginLineReads(m: Markers, id: string)
    ensures BeginId(m, BeginLine(m, id)) == Some(id)
  {
    TrimCarriageReturnsFixed(BeginLine(m, id));
    AppendAssoc(m.begin, id, "__");
    assert BeginLine(m, id)[|m.begin|..] == id + "__";
    assert (id + "__")[..|id|] == id && (id + "__")[|id|..] == "__";
  }

  lemma EndLineReads(m: Markers, id: string, status: string)
    ensures ClosesAt(m, EndLine(m, id, status), id)
    ensures StatusAt(m, EndLine(m, id, status), id) == StatusOf(status)
    ensures !IsBegin(m, EndLine(m, id, status))
  {
    TrimCarriageReturnsFixed(EndLine(m, id, status));
    EndLineSplits(m, id, status);
    BeginIsNotEnd(m, EndLine(m, id, status));
  }

  lemma EndLineSplits(m: Markers, id: string, status: string)
    ensures StripPrefix(EndLine(m, id, status), m.end) == Some(id + "__" + status + "__")
    ensures StatusText(id + "__" + status + "__", id) == Some(status)
  {
    EndLineJoins(m, id, status);
    var rest := id + "__" + status + "__";
    assert rest[|id|..] == "__" + status + "__";
    assert ("__" + status + "__")[2..] == status + "__";
    assert (status + "__")[..|status|] == status && (status + "__")[|status|..] == "__";
  }

  lemma EndLineJoins(m: Markers, id: string, status: string)
    ensures EndLine(m, id, status) == m.end + (id + "__" + status + "__")
  {
    AppendAssoc(m.end, id, "__");
    AppendAssoc(m.end, id + "__", status);
    AppendAssoc(m.end, id + "__" + status, "__");
  }

  lemma FrameLines(m: Markers, id: string, body: string, status: string)
    requires CleanMarkers(m) && Clean(id) && Clean(status)
    ensures Lines(FrameText(m, id, body, status))
         == [BeginLine(m, id)] + BodyLines(body) + [EndLine(m, id, status)]
    ensures Terminated(FrameText(m, id, body, status))
  {
    var b, e := BeginLine(m, id), EndLine(m, id, status);
    assert StripOneCarriageReturn(b) == b && StripOneCarriageReturn(e) == e;
    LinesFirst(b, body + "\n" + (e + "\n"));
    LinesConcat(body + "\n", e + "\n");
    LinesFirst(e, "");
    assert e + "\n" + "" == e + "\n";
  }

  /** Reading a framed quiet body sets that one section and leaves nothing open. */
  lemma FoldFrame(m: Markers, st: State, id: string, body: string, status: string)
    requires CleanMarkers(m) && Clean(id) && Clean(status) && QuietBody(m, body)
    ensures Fold(m, st, Lines(FrameText(m, id, body, status)))
         == State(st.sections[id := SectionOf(m, StatusOf(status), BodyLines(body))], Closed)
    ensures Terminated(FrameText(m, id, body, status))
  {
    FrameLines(m, id, body, status);
    FoldOpened(m, st, id, BodyLines(body));
    FoldConcat(m, st, [BeginLine(m, id)] + BodyLines(body), [EndLine(m, id, status)]);
    FoldOne(m, Fold(m, st, [BeginLine(m, id)] + BodyLines(body)), EndLine(m, id, status));
    EndLineReads(m, id, status);
  }

  lemma FoldOpened(m: Markers, st: State, id: string, lines: seq<string>)
    requires Quiet(m, lines)
    ensures Fold(m, st, [BeginLine(m, id)] + lines) == State(st.sections, Collecting(id, lines))
  {
    BeginLineReads(m, id);
    FoldConcat(m, st, [BeginLine(m, id)], lines);
    FoldOne(m, st, BeginLine(m, id));
    FoldQuiet(m, State(st.sections, Collecting(id, [])), lines);
    assert [] + lines == lines;
  }

  // ---------- non-interference ----------

  ghost predicate AgreeOff<K, V>(a: map<K, V>, b: map<K, V>, key: K) {
    a - {key} == b - {key}
  }

  lemma AgreeOffStep(m: Markers, a: State, b: State, line: string, id: string)
    requires a.open == b.open && AgreeOff(a.sections, b.sections, id)
    ensures Step(m, a, line).open == Step(m, b, line).open
    ensures AgreeOff(Step(m, a, line).sections, Step(m, b, line).sections, id)
  {
    var a', b' := Step(m, a, line).sections, Step(m, b, line).sections;
    forall k | k in a' - {id} || k in b' - {id}
      ensures k in a' - {id} && k in b' - {id} && a'[k] == b'[k]
    {
      assert k in a.sections - {id} <==> k in b.sections - {id};
      if k in a.sections - {id} {
        assert (a.sections - {id})[k] == (b.sections - {id})[k];
      }
    }
  }

  lemma {:induction false} AgreeOffFold(m: Markers, a: State, b: State, lines: seq<string>, id: string)
    requires a.open == b.open && AgreeOff(a.sections, b.sections, id)
    ensures Fold(m, a, lines).open == Fold(m, b, lines).open
    ensures AgreeOff(Fold(m, a, lines).sections, Fold(m, b, lines).sections, id)
  {
    if lines != [] {
      var init := lines[..|lines| - 1];
      AgreeOffFold(m, a, b, init, id);
      AgreeOffStep(m, Fold(m, a, init), Fold(m, b, init), lines[|lines| - 1], id);
    }
  }

  /**
   Whatever stands in one section's body, as long as it is quiet, changes no
   other section of the transcript and, outside the three metadata sections, not
   the host information. The text before and after is arbitrary.
   */
  lemma NonInterference(
    m: Markers, before: string, id: string, body: string, body': string, status: string, after: string)
    requires CleanMarkers(m) && Clean(id) && Clean(status) && Terminated(before)
    requires QuietBody(m, body) && QuietBody(m, body')
    ensures var t := ParsedWith(before + (FrameText(m, id, body, status) + after), m);
      var t' := ParsedWith(before + (FrameText(m, id, body', status) + after), m);
      && AgreeOff(t.sections, t'.sections, id)
      && (id != META_ID && id != OS_RELEASE_ID && id != CAPABILITIES_ID ==> t.host == t'.host)
  {
    BodiesSwap(m, Fold(m, START, Lines(before)), id, body, body', status);
    FramesSwap(m, before, FrameText(m, id, body, status), FrameText(m, id, body', status), after, id);
  }

  lemma BodiesSwap(m: Markers, st: State, id: string, body: string, body': string, status: string)
    requires CleanMarkers(m) && Clean(id) && Clean(status) && QuietBody(m, body) && QuietBody(m, body')
    ensures Terminated(FrameText(m, id, body, status)) && Terminated(FrameText(m, id, body', status))
    ensures var a := Fold(m, st, Lines(FrameText(m, id, body, status)));
      var a' := Fold(m, st, Lines(FrameText(m, id, body', status)));
      a.open == a'.open && AgreeOff(a.sections, a'.sections, id)
  {
    FoldFrame(m, st, id, body, status);
    FoldFrame(m, st, id, body', status);
  }

  lemma FramesSwap(m: Markers, before: string, frame: string, frame': string, after: string, id: string)
    requires Terminated(before) && Terminated(frame) && Terminated(frame')
    requires var st := Fold(m, START, Lines(before));
      var a, a' := Fold(m, st, Lines(frame)), Fold(m, st, Lines(frame'));
      a.open == a'.open && AgreeOff(a.sections, a'.sections, id)
    ensures var t, t' := ParsedWith(before + (frame + after), m), ParsedWith(before + (frame' + after), m);
      && AgreeOff(t.sections, t'.sections, id)
      && (id != META_ID && id != OS_RELEASE_ID && id != CAPABILITIES_ID ==> t.host == t'.host)
  {
    var a, s := AroundFrame(m, before, frame, after);
    var a', s' := AroundFrame(m, before, frame', after);
    AgreeOffFold(m, a, a', Lines(after), id);
    AgreeOffParsed(s, s', id);
  }

  lemma AgreeOffParsed(a: map<string, Section>, b: map<string, Section>, id: string)
    requires AgreeOff(a, b, id)
    ensures AgreeOff(Settled(a), Settled(b), id)
    ensures id != META_ID && id != OS_RELEASE_ID && id != CAPABILITIES_ID ==> HostOf(a) == HostOf(b)
  {
    AgreeOffElsewhere(a, b, id);
    AgreeOffSettled(a, b, id);
  }

  lemma AroundFrame(m: Markers, before: string, frame: string, after: string)
    returns (st: State, sections: map<string, Section>)
    requires Terminated(before) && Terminated(frame)
    ensures st == Fold(m, Fold(m, START, Lines(before)), Lines(frame))
    ensures sections == Fold(m, st, Lines(after)).sections
    ensures ParsedWith(before + (frame + after), m) == Transcript(HostOf(sections), Settled(sections))
  {
    FoldThrough(m, before, frame, after);
    st := Fold(m, Fold(m, START, Lines(before)), Lines(frame));
    sections := Fold(m, st, Lines(after)).sections;
  }

  lemma FoldThrough(m: Markers, before: string, frame: string, after: string)
    requires Terminated(before) && Terminated(frame)
    ensures Fold(m, START, Lines(before + (frame + after)))
         == Fold(m, Fold(m, Fold(m, START, Lines(before)), Lines(frame)), Lines(after))
  {
    LinesConcat(before, frame + after);
    LinesConcat(frame, after);
    FoldConcat(m, START, Lines(before), Lines(frame) + Lines(after));
    FoldConcat(m, Fold(m, START, Lines(before)), Lines(frame), Lines(after));
  }

  lemma AgreeOffElsewhere<K, V>(a: map<K, V>, b: map<K, V>, key: K)
    requires AgreeOff(a, b, key)
    ensures forall k :: k != key ==> (k in a <==> k in b)
    ensures forall k :: k != key && k in a ==> a[k] == b[k]
  {
    forall k | k != key
      ensures (k in a <==> k in b) && (k in a ==> a[k] == b[k])
    {
      assert k in a <==> k in a - {key};
      assert k in b <==> k in b - {key};
      if k in a {
        assert (a - {key})[k] == (b - {key})[k];
      }
    }
  }

  lemma AgreeOffSettled(a: map<string, Section>, b: map<string, Section>, id: string)
    requires AgreeOff(a, b, id)
    ensures AgreeOff(Settled(a), Settled(b), id)
  {
    AgreeOffElsewhere(a, b, id);
    assert forall k :: k in Settled(a) - {id} <==> k in a && k != id;
    assert Settled(a) - {id} == Settled(b) - {id};
  }

  // ---------- bodies without the nonce ----------

  lemma PrefixShowsNonce(nonce: string, name: string, s: string)
    requires StartsWith(s, Prefix(nonce, name))
    ensures Contains(s, nonce)
  {
    var k := |"__SHUVSCAN__"|;
    assert Prefix(nonce, name)[k..k + |nonce|] == nonce;
    assert s[k..k + |nonce|] == Prefix(nonce, name)[k..k + |nonce|];
    assert PartAt(s, k, nonce);
  }

  lemma BeginOrEndShowsNonce(nonce: string, line: string)
    requires IsBegin(MarkersFor(nonce), line) || IsEnd(MarkersFor(nonce), line)
    ensures Contains(line, nonce)
  {
    var marker := TrimCarriageReturns(line);
    PrefixShowsNonce(nonce, if IsBegin(MarkersFor(nonce), line) then "BEGIN" else "END", marker);
    assert PartAt(line, 0, marker);
    ContainsTrans(line, marker, nonce);
  }

  lemma MarkShowsNonce(nonce: string, line: string)
    requires MarkKind(MarkersFor(nonce), line).Some?
    ensures Contains(line, nonce)
  {
    var name := match MarkKind(MarkersFor(nonce), line).value
      case Unavailable => "UNAVAILABLE"
      case Partial => "PARTIAL"
      case Limit => "TRUNCATED";
    PrefixShowsNonce(nonce, name, Trim(line));
    TrimContains(line);
    ContainsTrans(line, Trim(line), nonce);
  }

  /** `body` and its line feed together hold the nonce only if the body does. */
  lemma LineShowsNonce(nonce: string, body: string, line: string)
    requires Clean(nonce) && line in BodyLines(body) && Contains(line, nonce)
    ensures Contains(body, nonce)
  {
    LinesAreParts(body + "\n", line);
    ContainsTrans(body + "\n", line, nonce);
    var i :| PartAt(body + "\n", i, nonce);
    if nonce == "" {
      assert PartAt(body, 0, nonce);
    } else {
      assert nonce[|nonce| - 1] == (body + "\n")[i + |nonce| - 1];
      assert body[i..i + |nonce|] == nonce;
      assert PartAt(body, i, nonce);
    }
  }

  /** A text without the nonce has neither markers nor marks in it. */
  lemma NonceFreeLine(nonce: string, body: string, line: string)
    requires Clean(nonce) && !Contains(body, nonce) && line in BodyLines(body)
    ensures var m := MarkersFor(nonce); !IsBegin(m, line) && !IsEnd(m, line) && MarkKind(m, line) == None
  {
    var m := MarkersFor(nonce);
    if IsBegin(m, line) || IsEnd(m, line) {
      BeginOrEndShowsNonce(nonce, line);
      LineShowsNonce(nonce, body, line);
    }
    if MarkKind(m, line).Some? {
      MarkShowsNonce(nonce, line);
      LineShowsNonce(nonce, body, line);
    }
  }

  lemma {:induction false} AllEvidence(m: Markers, lines: seq<string>)
    requires forall i :: 0 <= i < |lines| ==> MarkKind(m, lines[i]) == None
    ensures EvidenceLines(m, lines) == lines
    ensures forall kind :: Reasons(m, kind, lines) == []
  {
    if lines != [] {
      AllEvidence(m, lines[..|lines| - 1]);
      assert lines == lines[..|lines| - 1] + [lines[|lines| - 1]];
    }
  }

  /** The trimmed evidence of a body is its trimmed Unix form. */
  lemma BodyJoins(body: string)
    ensures BodyLines(body) != []
    ensures Trim(Join(BodyLines(body), "\n")) == Unixify(Trim(body))
  {
    var lines := BodyLines(body);
    LinesSpell(body + "\n");
    JoinIsUnlines(lines);
    TrimLineFeed(Join(lines, "\n"));
    TrimUnixify(body + "\n");
    TrimLineFeed(body);
  }

  lemma TrimLineFeed(s: string)
    ensures Trim(s + "\n") == Trim(s)
  {
    TrimAround("", s, "\n");
    assert "" + s + "\n" == s + "\n";
  }

  /**
   A body without the nonce raises no mark and is kept as evidence: trimmed, and
   with the carriage returns before its line feeds gone.
   */
  lemma NonceFreeBody(nonce: string, body: string, status: int)
    requires Clean(nonce) && !Contains(body, nonce)
    ensures QuietBody(MarkersFor(nonce), body)
    ensures SectionOf(MarkersFor(nonce), status, BodyLines(body)) == Section(status, Unixify(Trim(body)), None, None, [])
  {
    var m := MarkersFor(nonce);
    var lines := BodyLines(body);
    forall i | 0 <= i < |lines|
      ensures !IsBegin(m, lines[i]) && !IsEnd(m, lines[i]) && MarkKind(m, lines[i]) == None
    {
      NonceFreeLine(nonce, body, lines[i]);
    }
    AllEvidence(m, lines);
    BodyJoins(body);
  }

  /** The evidence is the trimmed body itself exactly when that has no CR LF. */
  lemma EvidenceIsTrimmedBody(nonce: string, body: string, status: int)
    requires Clean(nonce) && !Contains(body, nonce)
    ensures SectionOf(MarkersFor(nonce), status, BodyLines(body)).output == Trim(body) <==> !HasCrLf(Trim(body))
  {
    NonceFreeBody(nonce, body, status);
    UnixifyFixed(Trim(body));
  }

  // ---------- truncation ----------

  datatype Frame = Frame(id: string, body: string, status: string)

  ghost predicate WellFormedFrame(m: Markers, f: Frame) {
    Clean(f.id) && Clean(f.status) && '_' !in f.status && QuietBody(m, f.body)
  }

  ghost predicate WellFormed(m: Markers, frames: seq<Frame>) {
    && CleanMarkers(m)
    && (forall i :: 0 <= i < |frames| ==> WellFormedFrame(m, frames[i]))
    && (forall i, j :: 0 <= i < j < |frames| ==> frames[i].id != frames[j].id)
  }

  function TextOf(m: Markers, frames: seq<Frame>): string {
    if frames == [] then "" else FrameOf(m, frames[0]) + TextOf(m, frames[1..])
  }

  /** Every entry of `a` stands in `b` unchanged. */
  ghost predicate Submap<K, V>(a: map<K, V>, b: map<K, V>) {
    forall k :: k in a ==> k in b && a[k] == b[k]
  }

  /** A cut marks its end by nothing or by one replacement character. */
  predicate CutTail(tail: string) {
    tail == "" || tail == [REPLACEMENT]
  }

  ghost predicate WithoutEnd(m: Markers, lines: seq<string>) {
    forall i :: 0 <= i < |lines| ==> !IsEnd(m, lines[i])
  }

  /** A prefix that ends in an underscore does not reach into the cut mark. */
  lemma PrefixBeforeTail(p: string, c: string, tail: string)
    requires EndsInUnderscore(p) && CutTail(tail) && p <= c + tail
    ensures p <= c
  {
    assert p[|p| - 1] == (c + tail)[|p| - 1];
  }

  lemma IsEndPrefix(m: Markers, line: string)
    ensures IsEnd(m, line) <==> m.end <= line
  {
    TrimCarriageReturnsKeepsPrefix(line, m.end);
  }

  /** Cutting a text without END lines produces none. */
  lemma {:induction false} CutWithoutEnd(m: Markers, c: string, r: string, tail: string)
    requires CutTail(tail) && WithoutEnd(m, Lines(c + r))
    ensures WithoutEnd(m, Lines(c + tail))
    decreases |c|
  {
    var n := NewlineAt(c);
    if n == |c| {
      LinesOnly(c + tail);
      if IsEnd(m, c + tail) {
        IsEndPrefix(m, c + tail);
        PrefixBeforeTail(m.end, c, tail);
        FirstLineIsEnd(m, c, r);
      }
    } else {
      var line, rest := FirstLineOf(c);
      LinesFirstOf(line, rest, r);
      LinesFirstOf(line, rest, tail);
      LaterLines(m, StripOneCarriageReturn(line), Lines(rest + r));
      CutWithoutEnd(m, rest, r, tail);
    }
  }

  lemma LaterLines(m: Markers, first: string, rest: seq<string>)
    requires WithoutEnd(m, [first] + rest)
    ensures WithoutEnd(m, rest)
    ensures forall lines :: WithoutEnd(m, lines) ==> WithoutEnd(m, [first] + lines)
  {
    forall i | 0 <= i < |rest|
      ensures !IsEnd(m, rest[i])
    {
      assert ([first] + rest)[i + 1] == rest[i];
    }
    assert ([first] + rest)[0] == first;
  }

  lemma FirstLineIsEnd(m: Markers, c: string, r: string)
    requires NewlineAt(c) == |c| && m.end <= c
    ensures Lines(c + r) != [] && IsEnd(m, Lines(c + r)[0])
  {
    var n := NewlineAt(r);
    NewlineAtIs(c + r, |c| + n);
    var line := (c + r)[..|c| + n];
    assert m.end <= line && line[|m.end| - 1] == '_';
    IsEndPrefix(m, line);
    IsEndPrefix(m, StripOneCarriageReturn(line));
    assert c + r == line || Lines(c + r)[0] == StripOneCarriageReturn(line);
  }

  /** A piece of an END line closes its section only if it is the whole marker. */
  lemma CutMarkerClosesFully(m: Markers, id: string, status: string, c: string, tail: string)
    requires c <= EndLine(m, id, status) && CutTail(tail) && '_' !in status
    requires ClosesAt(m, c + tail, id)
    ensures StatusText(EndRest(m, c + tail).value, id) == Some(status)
  {
    var text := StatusText(EndRest(m, c + tail).value, id).value;
    MarkerRebuilt(m, c + tail, id);
    PrefixBeforeTail(EndLine(m, id, text), c, tail);
    PrefixedStatus(m.end + id + "__", status, text);
  }

  lemma MarkerRebuilt(m: Markers, line: string, id: string)
    requires ClosesAt(m, line, id)
    ensures EndLine(m, id, StatusText(EndRest(m, line).value, id).value) <= line
  {
    StatusRebuilt(EndRest(m, line).value, id);
    EndLineJoins(m, id, StatusText(EndRest(m, line).value, id).value);
  }

  lemma StatusRebuilt(rest: string, id: string)
    requires StatusText(rest, id).Some?
    ensures rest == id + "__" + StatusText(rest, id).value + "__"
  {
    var tail := rest[|id|..];
    assert rest == id + tail && tail == "__" + tail[2..];
    assert tail[2..] == StatusText(rest, id).value + "__";
  }

  lemma PrefixedStatus(head: string, status: string, text: string)
    requires '_' !in status
    requires head + text + "__" <= head + status + "__"
    ensures text == status
  {
    var a, b := head + text + "__", head + status + "__";
    assert a[|head| + |text|] == '_' && b[|head| + |text|] == '_';
    assert b == head + (status + "__");
    assert (status + "__")[|text|] == '_';
    assert |text| >= |status|;
    assert a[|head|..|head| + |text|] == text && b[|head|..|head| + |status|] == status;
    assert a == b[..|a|];
  }

  function FrameSection(m: Markers, f: Frame): Section {
    SectionOf(m, StatusOf(f.status), BodyLines(f.body))
  }

  function FrameOf(m: Markers, f: Frame): string {
    FrameText(m, f.id, f.body, f.status)
  }

  /** Cutting inside a frame adds its section whole or not at all. */
  lemma CutFrame(m: Markers, st: State, f: Frame, c: string, r: string, tail: string)
    requires CleanMarkers(m) && WellFormedFrame(m, f) && st.open == Closed && CutTail(tail)
    requires FrameOf(m, f) == c + r && r != ""
    ensures var sections := Fold(m, st, Lines(c + tail)).sections;
      sections == st.sections || sections == st.sections[f.id := FrameSection(m, f)]
  {
    var b := BeginLine(m, f.id);
    var rest := f.body + "\n" + (EndLine(m, f.id, f.status) + "\n");
    if |c| <= |b| {
      var d := SplitBefore(b + "\n", rest, c, r);
      ShortOfLine(b, c, d);
      LinesOnly(c + tail);
      if c + tail != "" {
        FoldOne(m, st, c + tail);
      }
    } else {
      var c' := SplitAfter(b + "\n", rest, c, r);
      CutAfterBegin(m, st, f, c', r, tail);
      AppendAssoc(b + "\n", c', tail);
    }
  }

  /** A proper prefix of a line and its line feed lies in the line. */
  lemma ShortOfLine(line: string, c: string, d: string)
    requires line + "\n" == c + d && |c| <= |line|
    ensures c <= line
  {
    assert c == (line + "\n")[..|c|];
  }

  /** Two splittings of one text, the second no earlier than the first. */
  lemma SplitAfter(a: string, b: string, c: string, r: string) returns (d: string)
    requires a + b == c + r && |a| <= |c|
    ensures c == a + d && b == d + r
  {
    var all := a + b;
    assert a == all[..|a|] && c == all[..|c|] && b == all[|a|..] && r == all[|c|..];
    d := c[|a|..];
  }

  /** Two splittings of one text, the second no later than the first. */
  lemma SplitBefore(a: string, b: string, c: string, r: string) returns (d: string)
    requires a + b == c + r && |c| <= |a|
    ensures a == c + d && r == d + b
  {
    d := SplitAfter(c, r, a, b);
  }

  lemma CutAfterBegin(m: Markers, st: State, f: Frame, c: string, r: string, tail: string)
    requires CleanMarkers(m) && WellFormedFrame(m, f) && CutTail(tail)
    requires f.body + "\n" + (EndLine(m, f.id, f.status) + "\n") == c + r && r != ""
    ensures var sections := Fold(m, st, Lines(BeginLine(m, f.id) + "\n" + (c + tail))).sections;
      sections == st.sections || sections == st.sections[f.id := FrameSection(m, f)]
  {
    var b, e, q := BeginLine(m, f.id), EndLine(m, f.id, f.status), f.body + "\n";
    assert StripOneCarriageReturn(b) == b;
    LinesFirst(b, c + tail);
    if |c| <= |q| {
      var d := SplitBefore(q, e + "\n", c, r);
      CutInBody(m, st, f, c, d, tail);
    } else {
      var d := SplitAfter(q, e + "\n", c, r);
      ShortOfLine(e, d, r);
      AppendAssoc(q, d, tail);
      CutInEnd(m, st, f, d, tail);
    }
  }

  lemma CutInBody(m: Markers, st: State, f: Frame, c: string, d: string, tail: string)
    requires WellFormedFrame(m, f) && CutTail(tail) && f.body + "\n" == c + d
    ensures Fold(m, st, [BeginLine(m, f.id)] + Lines(c + tail)).sections == st.sections
  {
    CutWithoutEnd(m, c, d, tail);
    FoldConcat(m, st, [BeginLine(m, f.id)], Lines(c + tail));
    FoldOne(m, st, BeginLine(m, f.id));
    BeginLineReads(m, f.id);
    BeginIsNotEnd(m, BeginLine(m, f.id));
    FoldWithoutEnd(m, Step(m, st, BeginLine(m, f.id)), Lines(c + tail));
  }

  lemma CutInEnd(m: Markers, st: State, f: Frame, d: string, tail: string)
    requires CleanMarkers(m) && WellFormedFrame(m, f) && CutTail(tail) && d != "" && d <= EndLine(m, f.id, f.status)
    ensures var sections := Fold(m, st, [BeginLine(m, f.id)] + Lines(f.body + "\n" + (d + tail))).sections;
      sections == st.sections || sections == st.sections[f.id := FrameSection(m, f)]
  {
    var b, q, cut := BeginLine(m, f.id), f.body + "\n", d + tail;
    LinesConcat(q, cut);
    LinesOnly(cut);
    FoldOpened(m, st, f.id, Lines(q));
    assert [b] + (Lines(q) + [cut]) == ([b] + Lines(q)) + [cut];
    FoldConcat(m, st, [b] + Lines(q), [cut]);
    var open := State(st.sections, Collecting(f.id, Lines(q)));
    FoldOne(m, open, cut);
    CutMarkerStep(m, open, f, d, tail);
  }

  lemma CutMarkerStep(m: Markers, open: State, f: Frame, d: string, tail: string)
    requires open.open == Collecting(f.id, BodyLines(f.body)) && '_' !in f.status
    requires d <= EndLine(m, f.id, f.status) && CutTail(tail)
    ensures var sections := Step(m, open, d + tail).sections;
      sections == open.sections || sections == open.sections[f.id := FrameSection(m, f)]
  {
    if ClosesAt(m, d + tail, f.id) {
      CutMarkerClosesFully(m, f.id, f.status, d, tail);
    }
  }

  ghost predicate HasId(frames: seq<Frame>, id: string) {
    exists i :: 0 <= i < |frames| && frames[i].id == id
  }

  /** Sections of other ids pass through the frames; each frame sets its own. */
  ghost predicate FramesSet(m: Markers, before: map<string, Section>, frames: seq<Frame>, after: map<string, Section>) {
    && (forall k :: k in after <==> k in before || HasId(frames, k))
    && (forall k :: k in before && !HasId(frames, k) ==> k in after && after[k] == before[k])
    && (forall i :: 0 <= i < |frames| ==> frames[i].id in after && after[frames[i].id] == FrameSection(m, frames[i]))
  }

  lemma {:induction false} FoldFrames(m: Markers, st: State, frames: seq<Frame>)
    requires WellFormed(m, frames)
    ensures FramesSet(m, st.sections, frames, Fold(m, st, Lines(TextOf(m, frames))).sections)
    decreases |frames|
  {
    if frames != [] {
      var st1 := FirstFrame(m, st, frames);
      FoldFrames(m, st1, frames[1..]);
      FramesSetStep(m, st.sections, frames, Fold(m, st, Lines(TextOf(m, frames))).sections);
    }
  }

  lemma HasIdStep(frames: seq<Frame>)
    requires frames != []
    ensures forall k :: HasId(frames, k) <==> k == frames[0].id || HasId(frames[1..], k)
  {
    var rest := frames[1..];
    forall k
      ensures HasId(frames, k) <==> k == frames[0].id || HasId(rest, k)
    {
      if HasId(frames, k) && k != frames[0].id {
        var i :| 0 <= i < |frames| && frames[i].id == k;
        assert rest[i - 1].id == k;
      }
      if HasId(rest, k) {
        var i :| 0 <= i < |rest| && rest[i].id == k;
        assert frames[i + 1].id == k;
      }
      if k == frames[0].id {
        assert HasId(frames, k);
      }
    }
  }

  lemma FramesSetStep(m: Markers, before: map<string, Section>, frames: seq<Frame>, after: map<string, Section>)
    requires frames != [] && WellFormed(m, frames)
    requires FramesSet(m, before[frames[0].id := FrameSection(m, frames[0])], frames[1..], after)
    ensures FramesSet(m, before, frames, after)
  {
    var f, rest := frames[0], frames[1..];
    HasIdStep(frames);
    assert !HasId(rest, f.id);
    forall i | 0 <= i < |frames|
      ensures frames[i].id in after && after[frames[i].id] == FrameSection(m, frames[i])
    {
      if i > 0 {
        assert rest[i - 1] == frames[i];
      }
    }
  }

  lemma FirstFrame(m: Markers, st: State, frames: seq<Frame>) returns (st1: State)
    requires frames != [] && WellFormed(m, frames)
    ensures WellFormed(m, frames[1..])
    ensures st1 == State(st.sections[frames[0].id := FrameSection(m, frames[0])], Closed)
    ensures Fold(m, st, Lines(TextOf(m, frames))) == Fold(m, st1, Lines(TextOf(m, frames[1..])))
  {
    var f := frames[0];
    assert WellFormedFrame(m, f);
    FrameThen(m, st, f, TextOf(m, frames[1..]));
    st1 := State(st.sections[f.id := FrameSection(m, f)], Closed);
  }

  lemma FrameThen(m: Markers, st: State, f: Frame, rest: string)
    requires CleanMarkers(m) && WellFormedFrame(m, f)
    ensures Fold(m, st, Lines(FrameOf(m, f) + rest))
         == Fold(m, State(st.sections[f.id := FrameSection(m, f)], Closed), Lines(rest))
  {
    FrameLines(m, f.id, f.body, f.status);
    LinesConcat(FrameOf(m, f), rest);
    FoldConcat(m, st, Lines(FrameOf(m, f)), Lines(rest));
    FoldFrame(m, st, f.id, f.body, f.status);
  }

  /** A cut transcript only shows sections of the full one. */
  lemma {:induction false} CutFrames(m: Markers, st: State, frames: seq<Frame>, c: string, r: string, tail: string)
    requires WellFormed(m, frames) && TextOf(m, frames) == c + r && CutTail(tail) && st.open == Closed
    requires Fresh(frames, st.sections)
    ensures Submap(Fold(m, st, Lines(c + tail)).sections, Fold(m, st, Lines(TextOf(m, frames))).sections)
    decreases |frames|
  {
    if frames == [] {
      assert c + tail == tail;
      LinesOnly(tail);
      if tail != "" {
        FoldOne(m, st, tail);
      }
    } else {
      var f := frames[0];
      assert WellFormedFrame(m, f);
      var first, rest := FrameOf(m, f), TextOf(m, frames[1..]);
      if |c| < |first| {
        var d := SplitBefore(first, rest, c, r);
        CutFrame(m, st, f, c, d, tail);
        FirstFrameKept(m, st, frames);
      } else {
        var d := SplitAfter(first, rest, c, r);
        AppendAssoc(first, d, tail);
        FrameThen(m, st, f, d + tail);
        var st1 := FirstFrame(m, st, frames);
        FreshAfterFirst(m, st.sections, frames);
        CutFrames(m, st1, frames[1..], d, r, tail);
      }
    }
  }

  /** None of the frames has a section yet. */
  ghost predicate Fresh(frames: seq<Frame>, sections: map<string, Section>) {
    forall i :: 0 <= i < |frames| ==> frames[i].id !in sections
  }

  lemma FreshAfterFirst(m: Markers, sections: map<string, Section>, frames: seq<Frame>)
    requires frames != [] && WellFormed(m, frames) && Fresh(frames, sections)
    ensures Fresh(frames[1..], sections[frames[0].id := FrameSection(m, frames[0])])
  {
  }

  lemma FirstFrameKept(m: Markers, st: State, frames: seq<Frame>)
    requires frames != [] && WellFormed(m, frames)
    requires Fresh(frames, st.sections)
    ensures var after := Fold(m, st, Lines(TextOf(m, frames))).sections;
      Submap(st.sections, after) && Submap(st.sections[frames[0].id := FrameSection(m, frames[0])], after)
  {
    FoldFrames(m, st, frames);
  }

  lemma SubmapSettled(a: map<string, Section>, b: map<string, Section>)
    requires Submap(a, b)
    ensures Submap(Settled(a), Settled(b))
  {
  }

  /**
   What a cut may leave of the host information: nothing, or the full one, in which
   only the operating system may have become unknown and the tools empty.
   */
  ghost predicate HostWithin(a: Option<HostInfo>, b: Option<HostInfo>) {
    a == None
    || (b.Some? && (exists os, tools ::
         && a == Some(b.value.(os := os, tools := tools))
         && (os == b.value.os || os == "unknown") && (tools == b.value.tools || tools == [])))
  }

  lemma MetaLineKeeps(info: HostInfo, os: string, tools: seq<string>, line: string)
    ensures MetaLine(info.(os := os, tools := tools), line) == MetaLine(info, line).(os := os, tools := tools)
    ensures MetaLine(info, line).os == info.os && MetaLine(info, line).tools == info.tools
  {
  }

  /** The metadata lines touch neither the operating system nor the tools. */
  lemma {:induction false} MetaFoldKeeps(info: HostInfo, os: string, tools: seq<string>, lines: seq<string>)
    ensures MetaFold(info.(os := os, tools := tools), lines) == MetaFold(info, lines).(os := os, tools := tools)
    ensures MetaFold(info, lines).os == info.os && MetaFold(info, lines).tools == info.tools
  {
    if lines != [] {
      var init := lines[..|lines| - 1];
      MetaFoldKeeps(info, os, tools, init);
      MetaLineKeeps(MetaFold(info, init), os, tools, lines[|lines| - 1]);
    }
  }

  function OsShown(sections: map<string, Section>): Option<string> {
    if OS_RELEASE_ID in sections then OsNameOf(sections[OS_RELEASE_ID]) else None
  }

  function ToolsShown(sections: map<string, Section>): seq<string> {
    if CAPABILITIES_ID in sections && sections[CAPABILITIES_ID].status == 0
    then ToolsOf(Lines(sections[CAPABILITIES_ID].output)) else []
  }

  lemma SubmapHost(a: map<string, Section>, b: map<string, Section>)
    requires Submap(a, b)
    ensures HostWithin(HostOf(a), HostOf(b))
  {
    if META_ID in a {
      var lines := Lines(a[META_ID].output);
      var full := UnknownHost(OsShown(b), ToolsShown(b));
      var cut := UnknownHost(OsShown(a), ToolsShown(a));
      assert cut == full.(os := cut.os, tools := cut.tools);
      MetaFoldKeeps(full, cut.os, cut.tools, lines);
      assert HostOf(b) == Some(MetaFold(full, lines)) && HostOf(a) == Some(MetaFold(cut, lines));
      assert HostOf(a) == Some(HostOf(b).value.(os := cut.os, tools := cut.tools));
    }
  }

  /**
   Truncation safety, on the bytes: whatever prefix of a well-formed transcript
   arrives, every section the parser shows is the section of the full transcript,
   and the host information is part of the full one.
   */
  lemma TruncationSafe(m: Markers, frames: seq<Frame>, bytes: seq<Byte>, k: nat)
    requires WellFormed(m, frames) && Lossy(bytes) == TextOf(m, frames) && k <= |bytes|
    ensures Submap(ParsedWith(Lossy(bytes[..k]), m).sections, ParsedWith(Lossy(bytes), m).sections)
    ensures HostWithin(ParsedWith(Lossy(bytes[..k]), m).host, ParsedWith(Lossy(bytes), m).host)
  {
    var kept, lost, tail := LossyCut(bytes, k);
    CutFrames(m, START, frames, kept, lost, tail);
    SubmapSettled(SectionsOf(m, Lines(Lossy(bytes[..k]))), SectionsOf(m, Lines(Lossy(bytes))));
    SubmapHost(SectionsOf(m, Lines(Lossy(bytes[..k]))), SectionsOf(m, Lines(Lossy(bytes))));
  }
}
