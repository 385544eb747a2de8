/** The lines of the report viewer: rows, wrapping, and where the rows are among the wrapped lines. */
module Rendering {
  import opened Basics
  import opened Text
  import opened Model
  import Output

  // ---------- wrapping ----------

  function Spaces(n: nat): string {
    seq(n, i => ' ')
  }

  function Indent(width: nat): nat {
    if width > 4 then 4 else 0
  }

  /** The continuation lines of a wrapped line. */
  function Continued(rest: string, width: nat): seq<string>
    requires width > 0
  {
    if rest == "" then []
    else
      var n := Min(width - Indent(width), |rest|);
      [Spaces(Indent(width)) + rest[..n]] + Continued(rest[n..], width)
  }

  function Wrapped(line: string, width: nat): seq<string>
    requires width > 0
  {
    if |line| <= width then [line] else [line[..width]] + Continued(line[width..], width)
  }

  method WrapLine(line: string, width0: nat) returns (lines: seq<string>)
    ensures lines == Wrapped(line, Max(width0, 1))
  {
    var width := Max(width0, 1);
    if line == "" {
      return [""];
    }
    if |line| <= width {
      return [line];
    }
    var indent := Indent(width);
    lines := [line[..width]];
    var rest := line[width..];
    while rest != ""
      invariant lines + Continued(rest, width) == Wrapped(line, width)
      decreases |rest|
    {
      var columns := Max(width - indent, 1);
      var n := Min(columns, |rest|);
      lines := lines + [Spaces(indent) + rest[..n]];
      rest := rest[n..];
    }
  }

  lemma {:induction false} ContinuedFits(rest: string, width: nat)
    requires width > 0
    ensures forall i :: 0 <= i < |Continued(rest, width)| ==> |Continued(rest, width)[i]| <= width
    ensures width > 4 ==> forall i :: 0 <= i < |Continued(rest, width)| ==> !IsHeading(Continued(rest, width)[i])
  {
    if rest != "" {
      var n := Min(width - Indent(width), |rest|);
      ContinuedFits(rest[n..], width);
      if width > 4 {
        assert (Spaces(4) + rest[..n])[0] == ' ';
      }
    }
  }

  /** No wrapped line is wider than asked for. */
  lemma WrappedFits(line: string, width: nat)
    requires width > 0
    ensures Wrapped(line, width) != []
    ensures forall i :: 0 <= i < |Wrapped(line, width)| ==> |Wrapped(line, width)[i]| <= width
  {
    if |line| > width {
      ContinuedFits(line[width..], width);
    }
  }

  /** The continuation lines without their indents, joined. */
  function Unindented(lines: seq<string>, indent: nat): string {
    if lines == [] then "" else (if indent <= |lines[0]| then lines[0][indent..] else "") + Unindented(lines[1..], indent)
  }

  /** A wrapped line put together again. */
  function Unwrapped(lines: seq<string>, indent: nat): string {
    if lines == [] then "" else lines[0] + Unindented(lines[1..], indent)
  }

  lemma UnindentedFirst(first: string, rest: seq<string>, indent: nat)
    ensures Unindented([Spaces(indent) + first] + rest, indent) == first + Unindented(rest, indent)
    ensures Unwrapped([first] + rest, indent) == first + Unindented(rest, indent)
  {
    assert (Spaces(indent) + first)[indent..] == first;
    assert ([Spaces(indent) + first] + rest)[1..] == rest && ([first] + rest)[1..] == rest;
  }

  lemma {:induction false} ContinuedKeeps(rest: string, width: nat)
    requires width > 0
    ensures Unindented(Continued(rest, width), Indent(width)) == rest
  {
    if rest != "" {
      var n := Min(width - Indent(width), |rest|);
      var first, later := rest[..n], rest[n..];
      assert rest == first + later;
      ContinuedKeeps(later, width);
      var lines := Continued(later, width);
      assert Continued(rest, width) == [Spaces(Indent(width)) + first] + lines;
      UnindentedFirst(first, lines, Indent(width));
    }
  }

  /** Wrapping loses nothing: without the indents the lines are the text. */
  lemma WrappedKeeps(line: string, width: nat)
    requires width > 0
    ensures Unwrapped(Wrapped(line, width), Indent(width)) == line
  {
    if |line| > width {
      var first, later := line[..width], line[width..];
      assert line == first + later;
      ContinuedKeeps(later, width);
      UnindentedFirst(first, Continued(later, width), Indent(width));
    } else {
      OneLineUnwraps(line, Indent(width));
    }
  }

  lemma OneLineUnwraps(line: string, indent: nat)
    ensures Unwrapped([line], indent) == line
  {
    UnindentedFirst(line, [], indent);
    assert [line] + [] == [line] && line + "" == line;
  }

  function Wrapping(lines: seq<string>, width: nat): seq<string>
    requires width > 0
  {
    if lines == [] then [] else Wrapping(lines[..|lines| - 1], width) + Wrapped(lines[|lines| - 1], width)
  }

  lemma {:induction false} WrappingConcat(a: seq<string>, b: seq<string>, width: nat)
    requires width > 0
    ensures Wrapping(a + b, width) == Wrapping(a, width) + Wrapping(b, width)
  {
    if b == [] {
      assert a + b == a;
    } else {
      var init, last := b[..|b| - 1], b[|b| - 1];
      assert (a + b)[..|a + b| - 1] == a + init && (a + b)[|a + b| - 1] == last;
      WrappingConcat(a, init, width);
      AppendLines(Wrapping(a, width), Wrapping(init, width), Wrapped(last, width));
    }
  }

  lemma AppendLines(a: seq<string>, b: seq<string>, c: seq<string>)
    ensures a + (b + c) == a + b + c
  {
  }

  lemma {:induction false} WrappingFits(lines: seq<string>, width: nat)
    requires width > 0
    ensures forall i :: 0 <= i < |Wrapping(lines, width)| ==> |Wrapping(lines, width)[i]| <= width
  {
    if lines != [] {
      WrappingFits(lines[..|lines| - 1], width);
      WrappedFits(lines[|lines| - 1], width);
    }
  }

  // ---------- ellipses ----------

  const ELLIPSIS: char := '\U{2026}'

  function Ellipsized(line: string, width: nat): (r: string)
    requires width > 0
    ensures |r| <= width
    ensures |line| <= width ==> r == line
    ensures |line| > width ==> |r| == width && r[width - 1] == ELLIPSIS && r[..width - 1] == line[..width - 1]
  {
    if |line| <= width then line
    else if width == 1 then [ELLIPSIS]
    else line[..width - 1] + [ELLIPSIS]
  }

  // ---------- headings ----------

  predicate IsHeading(line: string) {
    line != "" && (line[0] == '+' || line[0] == '-')
  }

  function Headings(lines: seq<string>): nat {
    if lines == [] then 0 else Headings(lines[..|lines| - 1]) + if IsHeading(lines[|lines| - 1]) then 1 else 0
  }

  /** The index of the heading that has `k` headings before it. */
  function Anchor(lines: seq<string>, k: nat): (r: Option<nat>)
    ensures r.Some? ==> r.value < |lines| && IsHeading(lines[r.value]) && Headings(lines[..r.value]) == k
  {
    if lines == [] then None
    else
      var init, last := lines[..|lines| - 1], lines[|lines| - 1];
      var before := Anchor(init, k);
      if before.Some? then
        assert init[..before.value] == lines[..before.value];
        before
      else if IsHeading(last) && Headings(init) == k then Some(|init|)
      else None
  }

  /** The next heading from `i` on, or the end. */
  function NextHeading(lines: seq<string>, i: nat): nat
    requires i <= |lines|
    decreases |lines| - i
  {
    if i == |lines| || IsHeading(lines[i]) then i else NextHeading(lines, i + 1)
  }

  lemma {:induction false} HeadingsConcat(a: seq<string>, b: seq<string>)
    ensures Headings(a + b) == Headings(a) + Headings(b)
  {
    if b == [] {
      assert a + b == a;
    } else {
      assert (a + b)[..|a + b| - 1] == a + b[..|b| - 1];
      HeadingsConcat(a, b[..|b| - 1]);
    }
  }

  lemma {:induction false} NoHeadings(lines: seq<string>)
    requires forall i :: 0 <= i < |lines| ==> !IsHeading(lines[i])
    ensures Headings(lines) == 0
  {
    if lines != [] {
      NoHeadings(lines[..|lines| - 1]);
    }
  }

  /** A heading with `k` headings before it is the anchor of `k`. */
  lemma {:induction false} AnchorIs(lines: seq<string>, i: nat, k: nat)
    requires i < |lines| && IsHeading(lines[i]) && Headings(lines[..i]) == k
    ensures Anchor(lines, k) == Some(i)
  {
    var init := lines[..|lines| - 1];
    if i < |init| {
      assert init[..i] == lines[..i];
      AnchorIs(init, i, k);
    } else {
      AnchorIsBelow(init, k);
    }
  }

  lemma AnchorIsBelow(lines: seq<string>, k: nat)
    ensures Anchor(lines, k).Some? ==> k < Headings(lines)
  {
    var anchor := Anchor(lines, k);
    if anchor.Some? {
      var before, heading, after := lines[..anchor.value], lines[anchor.value], lines[anchor.value + 1..];
      assert lines == before + [heading] + after;
      HeadingsConcat(before + [heading], after);
      HeadingsConcat(before, [heading]);
      assert [heading][..0] == [];
    }
  }

  lemma {:induction false} NextHeadingIs(lines: seq<string>, i: nat, e: nat)
    requires i <= e <= |lines| && (e < |lines| ==> IsHeading(lines[e]))
    requires forall j :: i <= j < e ==> !IsHeading(lines[j])
    ensures NextHeading(lines, i) == e
    decreases e - i
  {
    if i < e {
      NextHeadingIs(lines, i + 1, e);
    }
  }

  // ---------- blocks ----------

  /** A heading and lines that are none. */
  predicate Block(lines: seq<string>) {
    lines != [] && IsHeading(lines[0]) && forall i :: 1 <= i < |lines| ==> !IsHeading(lines[i])
  }

  function Flatten(blocks: seq<seq<string>>): seq<string> {
    if blocks == [] then [] else Flatten(blocks[..|blocks| - 1]) + blocks[|blocks| - 1]
  }

  lemma BlockHeadings(block: seq<string>)
    requires Block(block)
    ensures Headings(block) == 1
  {
    assert block == [block[0]] + block[1..];
    HeadingsConcat([block[0]], block[1..]);
    assert [block[0]][..0] == [];
    NoHeadings(block[1..]);
  }

  lemma {:induction false} FlattenHeadings(blocks: seq<seq<string>>)
    requires Blocks(blocks)
    ensures Headings(Flatten(blocks)) == |blocks|
  {
    if blocks != [] {
      var n := |blocks| - 1;
      FlattenHeadings(blocks[..n]);
      HeadingsConcat(Flatten(blocks[..n]), blocks[n]);
      BlockHeadings(blocks[n]);
    }
  }

  lemma {:induction false} FlattenConcat(a: seq<seq<string>>, b: seq<seq<string>>)
    ensures Flatten(a + b) == Flatten(a) + Flatten(b)
  {
    if b == [] {
      assert a + b == a;
    } else {
      assert (a + b)[..|a + b| - 1] == a + b[..|b| - 1];
      FlattenConcat(a, b[..|b| - 1]);
    }
  }

  lemma FlattenSplits(before: seq<seq<string>>, block: seq<string>, after: seq<seq<string>>)
    ensures Flatten(before + [block] + after) == Flatten(before) + block + Flatten(after)
  {
    FlattenConcat(before + [block], after);
    FlattenConcat(before, [block]);
    assert [block][..0] == [] && [] + block == block;
  }

  lemma FlattenStarts(blocks: seq<seq<string>>)
    requires blocks != [] && Block(blocks[0])
    ensures Flatten(blocks) != [] && IsHeading(Flatten(blocks)[0])
  {
    assert blocks == [] + [blocks[0]] + blocks[1..];
    FlattenSplits([], blocks[0], blocks[1..]);
  }

  ghost predicate Blocks(blocks: seq<seq<string>>) {
    forall i :: 0 <= i < |blocks| ==> Block(blocks[i])
  }

  /** A block among blocks: its start is the anchor of its number, its end the next heading. */
  lemma BlockIsSpan(before: seq<seq<string>>, block: seq<string>, after: seq<seq<string>>)
    requires Blocks(before) && Block(block) && Blocks(after)
    ensures var lines := Flatten(before) + block + Flatten(after); var start := |Flatten(before)|;
      Anchor(lines, |before|) == Some(start) && NextHeading(lines, start + 1) == start + |block|
  {
    FlattenHeadings(before);
    SpanStarts(Flatten(before), block, Flatten(after));
    SpanEnds(Flatten(before), block, after);
  }

  lemma SpanStarts(before: seq<string>, block: seq<string>, after: seq<string>)
    requires Block(block)
    ensures Anchor(before + block + after, Headings(before)) == Some(|before|)
  {
    var lines := before + block + after;
    assert lines[..|before|] == before && lines[|before|] == block[0];
    AnchorIs(lines, |before|, Headings(before));
  }

  lemma SpanEnds(before: seq<string>, block: seq<string>, rest: seq<seq<string>>)
    requires Block(block) && Blocks(rest)
    ensures NextHeading(before + block + Flatten(rest), |before| + 1) == |before| + |block|
  {
    var lines := before + block + Flatten(rest);
    if rest != [] {
      FlattenStarts(rest);
      assert lines[|before| + |block|] == Flatten(rest)[0];
    }
    forall j | |before| + 1 <= j < |before| + |block|
      ensures !IsHeading(lines[j])
    {
      assert lines[j] == block[j - |before|];
    }
    NextHeadingIs(lines, |before| + 1, |before| + |block|);
  }

  // ---------- wrapped blocks ----------

  lemma WrappedTail(line: string, width: nat)
    requires width > 4
    ensures var lines := Wrapped(line, width);
      && lines != []
      && (IsHeading(lines[0]) <==> IsHeading(line))
      && forall i :: 1 <= i < |lines| ==> !IsHeading(lines[i])
  {
    if |line| > width {
      ContinuedFits(line[width..], width);
    }
  }

  lemma {:induction false} WrappingNoHeadings(lines: seq<string>, width: nat)
    requires width > 4 && forall i :: 0 <= i < |lines| ==> !IsHeading(lines[i])
    ensures forall i :: 0 <= i < |Wrapping(lines, width)| ==> !IsHeading(Wrapping(lines, width)[i])
  {
    if lines != [] {
      WrappingNoHeadings(lines[..|lines| - 1], width);
      WrappedTail(lines[|lines| - 1], width);
    }
  }

  /** Wrapping keeps a block a block, when there is room for the indent. */
  lemma WrappedBlock(block: seq<string>, width: nat)
    requires width > 4 && Block(block)
    ensures var lines := Wrapping(block, width); Block(lines) && lines[0] == Wrapped(block[0], width)[0]
  {
    var first, rest := [block[0]], block[1..];
    assert block == first + rest;
    WrappingConcat(first, rest, width);
    assert first[..0] == [] && Wrapping(first, width) == [] + Wrapped(block[0], width);
    WrappedTail(block[0], width);
    WrappingNoHeadings(rest, width);
  }

  function WrappedBlocks(blocks: seq<seq<string>>, width: nat): seq<seq<string>>
    requires width > 0
  {
    seq(|blocks|, i requires 0 <= i < |blocks| => Wrapping(blocks[i], width))
  }

  lemma {:induction false} WrappingFlattened(blocks: seq<seq<string>>, width: nat)
    requires width > 0
    ensures Wrapping(Flatten(blocks), width) == Flatten(WrappedBlocks(blocks, width))
  {
    if blocks != [] {
      var n := |blocks| - 1;
      WrappingFlattened(blocks[..n], width);
      WrappingConcat(Flatten(blocks[..n]), blocks[n], width);
      assert WrappedBlocks(blocks, width)[..n] == WrappedBlocks(blocks[..n], width);
    }
  }

  // ---------- the rows of a report ----------

  function SeverityName(s: Severity): string {
    match s
    case Info => "INFO"
    case Low => "LOW"
    case Medium => "MEDIUM"
    case High => "HIGH"
    case Critical => "CRITICAL"
  }

  function PadRight(s: string, width: nat): string {
    if |s| < width then s + Spaces(width - |s|) else s
  }

  const DETAIL := "    "

  function Marker(expanded: bool): string {
    if expanded then "-" else "+"
  }

  /** Each text line of `text` as a detail line. */
  function DetailLines(lines: seq<string>): seq<string> {
    seq(|lines|, i requires 0 <= i < |lines| => DETAIL + Output.Safe(lines[i]))
  }

  function Optional(shown: bool, line: string): seq<string> {
    if shown then [line] else []
  }

  function FindingDetails(f: Finding): seq<string> {
    Optional(f.command != "", DETAIL + ("command: " + Output.Safe(f.command)))
    + Optional(f.evidence.truncated,
        DETAIL + ("evidence truncated: " + Decimal(f.evidence.omittedBytes) + " byte(s) omitted ("
          + Decimal(f.evidence.limitBytes) + "-byte limit)"))
    + DetailLines(Lines(f.evidence.output))
    + [DETAIL + ("fix: " + Output.Safe(f.remediation))]
  }

  function FindingLines(f: Finding, expanded: bool): seq<string> {
    [Marker(expanded) + (" " + PadRight(SeverityName(f.severity), 8) + " " + f.id + "  " + f.title)]
    + if expanded then FindingDetails(f) else []
  }

  function LimitLines(limits: seq<string>): seq<string> {
    seq(|limits|, i requires 0 <= i < |limits| => DETAIL + ("collection limit: " + Output.Safe(limits[i])))
  }

  function ObservationDetails(o: Observation): seq<string> {
    Optional(o.command != "", DETAIL + ("command: " + Output.Safe(o.command)))
    + (if o.partial.Some? then [DETAIL + ("partial: " + Output.Safe(o.partial.value))] else [])
    + Optional(o.truncated, DETAIL + "truncated: true")
    + LimitLines(o.collectionLimits)
    + Optional(o.budgetExceeded, DETAIL + "evidence budget exceeded: true")
    + DetailLines(Lines(o.output))
  }

  function ObservationLines(o: Observation, expanded: bool): seq<string> {
    [Marker(expanded) + (" EVIDENCE " + o.id + "  " + o.title)]
    + if expanded then ObservationDetails(o) else []
  }

  function ErrorHeading(e: ScanError, expanded: bool): string {
    Marker(expanded) + (" ERROR    " + Output.Safe(e.probe) + if expanded then "" else "  " + Output.Safe(e.message))
  }

  function ErrorLines(e: ScanError, expanded: bool): seq<string> {
    [ErrorHeading(e, expanded)] + if expanded then DetailLines(Lines(e.message)) else []
  }

  function Rows(r: ScanReport): nat {
    |r.findings| + |r.observations| + |r.errors|
  }

  function FindingBlocks(r: ScanReport, expanded: set<nat>): seq<seq<string>> {
    seq(|r.findings|, i requires 0 <= i < |r.findings| => FindingLines(r.findings[i], i in expanded))
  }

  function ObservationBlocks(r: ScanReport, expanded: set<nat>): seq<seq<string>> {
    seq(|r.observations|, i requires 0 <= i < |r.observations| =>
      ObservationLines(r.observations[i], |r.findings| + i in expanded))
  }

  function ErrorBlocks(r: ScanReport, expanded: set<nat>): seq<seq<string>> {
    seq(|r.errors|, i requires 0 <= i < |r.errors| =>
      ErrorLines(r.errors[i], |r.findings| + |r.observations| + i in expanded))
  }

  /** The lines of every row: findings first, then observations, then errors. */
  function RowBlocks(r: ScanReport, expanded: set<nat>): (blocks: seq<seq<string>>)
    ensures |blocks| == Rows(r)
  {
    FindingBlocks(r, expanded) + ObservationBlocks(r, expanded) + ErrorBlocks(r, expanded)
  }

  const NO_ROWS := "(no findings, observations, or collection errors)"

  function BodyOf(r: ScanReport, expanded: set<nat>): seq<string> {
    var lines := Flatten(RowBlocks(r, expanded));
    if lines == [] then [NO_ROWS] else lines
  }

  method PushRows(before: seq<string>, blocks: seq<seq<string>>) returns (lines: seq<string>)
    ensures lines == before + Flatten(blocks)
  {
    lines := before;
    for i := 0 to |blocks|
      invariant lines == before + Flatten(blocks[..i])
    {
      assert blocks[..i + 1][..i] == blocks[..i];
      lines := lines + blocks[i];
    }
    assert blocks[..|blocks|] == blocks;
  }

  /** The rows of each kind, one kind after the other. */
  method PushKinds(findings: seq<seq<string>>, observations: seq<seq<string>>, errors: seq<seq<string>>)
    returns (lines: seq<string>)
    ensures lines == Flatten(findings + observations + errors)
  {
    lines := PushRows([], findings);
    lines := PushRows(lines, observations);
    lines := PushRows(lines, errors);
    FlattenConcat(findings + observations, errors);
    FlattenConcat(findings, observations);
  }

  /** `body_lines` */
  method BodyLines(r: ScanReport, expanded: set<nat>) returns (lines: seq<string>)
    ensures lines == BodyOf(r, expanded)
  {
    lines := PushKinds(FindingBlocks(r, expanded), ObservationBlocks(r, expanded), ErrorBlocks(r, expanded));
    if lines == [] {
      lines := [NO_ROWS];
    }
  }

  /** No line of details is a heading. */
  ghost predicate Details(lines: seq<string>) {
    forall i :: 0 <= i < |lines| ==> !IsHeading(lines[i])
  }

  lemma DetailIsNoHeading(shown: bool, text: string)
    ensures Details(Optional(shown, DETAIL + text)) && Details([DETAIL + text])
  {
    assert (DETAIL + text)[0] == ' ';
  }

  lemma DetailsConcat(a: seq<string>, b: seq<string>)
    requires Details(a) && Details(b)
    ensures Details(a + b)
  {
  }

  lemma DetailLinesAre(lines: seq<string>)
    ensures Details(DetailLines(lines)) && Details(LimitLines(lines))
  {
    forall i | 0 <= i < |lines|
      ensures !IsHeading(DetailLines(lines)[i]) && !IsHeading(LimitLines(lines)[i])
    {
      assert DetailLines(lines)[i][0] == ' ' && LimitLines(lines)[i][0] == ' ';
    }
  }

  lemma FindingDetailsAre(f: Finding)
    ensures Details(FindingDetails(f))
  {
    var truncation := "evidence truncated: " + Decimal(f.evidence.omittedBytes) + " byte(s) omitted ("
      + Decimal(f.evidence.limitBytes) + "-byte limit)";
    DetailIsNoHeading(f.command != "", "command: " + Output.Safe(f.command));
    DetailIsNoHeading(f.evidence.truncated, truncation);
    DetailLinesAre(Lines(f.evidence.output));
    DetailIsNoHeading(true, "fix: " + Output.Safe(f.remediation));
    var a := Optional(f.command != "", DETAIL + ("command: " + Output.Safe(f.command)));
    var b := Optional(f.evidence.truncated, DETAIL + truncation);
    DetailsConcat(a, b);
    DetailsConcat(a + b, DetailLines(Lines(f.evidence.output)));
  }

  lemma ObservationDetailsAre(o: Observation)
    ensures Details(ObservationDetails(o))
  {
    var a := Optional(o.command != "", DETAIL + ("command: " + Output.Safe(o.command)));
    var b := if o.partial.Some? then [DETAIL + ("partial: " + Output.Safe(o.partial.value))] else [];
    var c := Optional(o.truncated, DETAIL + "truncated: true");
    var d := Optional(o.budgetExceeded, DETAIL + "evidence budget exceeded: true");
    DetailIsNoHeading(o.command != "", "command: " + Output.Safe(o.command));
    DetailIsNoHeading(true, "partial: " + if o.partial.Some? then Output.Safe(o.partial.value) else "");
    DetailIsNoHeading(o.truncated, "truncated: true");
    DetailIsNoHeading(o.budgetExceeded, "evidence budget exceeded: true");
    DetailLinesAre(o.collectionLimits);
    DetailLinesAre(Lines(o.output));
    DetailsConcat(a, b);
    DetailsConcat(a + b, c);
    DetailsConcat(a + b + c, LimitLines(o.collectionLimits));
    DetailsConcat(a + b + c + LimitLines(o.collectionLimits), d);
  }

  lemma HeadedIsBlock(expanded: bool, text: string, details: seq<string>)
    requires Details(details)
    ensures Block([Marker(expanded) + text] + details)
  {
  }

  lemma FindingIsBlock(f: Finding, expanded: bool)
    ensures Block(FindingLines(f, expanded))
  {
    FindingDetailsAre(f);
    HeadedIsBlock(expanded, " " + PadRight(SeverityName(f.severity), 8) + " " + f.id + "  " + f.title,
      if expanded then FindingDetails(f) else []);
  }

  lemma ObservationIsBlock(o: Observation, expanded: bool)
    ensures Block(ObservationLines(o, expanded))
  {
    ObservationDetailsAre(o);
    HeadedIsBlock(expanded, " EVIDENCE " + o.id + "  " + o.title, if expanded then ObservationDetails(o) else []);
  }

  lemma ErrorIsBlock(e: ScanError, expanded: bool)
    ensures Block(ErrorLines(e, expanded))
  {
    DetailLinesAre(Lines(e.message));
    HeadedIsBlock(expanded, " ERROR    " + Output.Safe(e.probe) + if expanded then "" else "  " + Output.Safe(e.message),
      if expanded then DetailLines(Lines(e.message)) else []);
  }

  /** Every row is a heading with detail lines. */
  lemma RowsAreBlocks(r: ScanReport, expanded: set<nat>)
    ensures Blocks(RowBlocks(r, expanded))
  {
    FindingsAreBlocks(r, expanded);
    ObservationsAreBlocks(r, expanded);
    ErrorsAreBlocks(r, expanded);
    BlocksConcat(FindingBlocks(r, expanded), ObservationBlocks(r, expanded), ErrorBlocks(r, expanded));
  }

  lemma BlocksConcat(a: seq<seq<string>>, b: seq<seq<string>>, c: seq<seq<string>>)
    requires Blocks(a) && Blocks(b) && Blocks(c)
    ensures Blocks(a + b + c)
  {
  }

  lemma FindingsAreBlocks(r: ScanReport, expanded: set<nat>)
    ensures Blocks(FindingBlocks(r, expanded))
  {
    forall i | 0 <= i < |r.findings|
      ensures Block(FindingBlocks(r, expanded)[i])
    {
      FindingIsBlock(r.findings[i], i in expanded);
    }
  }

  lemma ObservationsAreBlocks(r: ScanReport, expanded: set<nat>)
    ensures Blocks(ObservationBlocks(r, expanded))
  {
    forall i | 0 <= i < |r.observations|
      ensures Block(ObservationBlocks(r, expanded)[i])
    {
      ObservationIsBlock(r.observations[i], |r.findings| + i in expanded);
    }
  }

  lemma ErrorsAreBlocks(r: ScanReport, expanded: set<nat>)
    ensures Blocks(ErrorBlocks(r, expanded))
  {
    forall i | 0 <= i < |r.errors|
      ensures Block(ErrorBlocks(r, expanded)[i])
    {
      ErrorIsBlock(r.errors[i], |r.findings| + |r.observations| + i in expanded);
    }
  }

  lemma WrappedBlocksAre(rows: seq<seq<string>>, width: nat)
    requires width > 4 && Blocks(rows)
    ensures Blocks(WrappedBlocks(rows, width))
  {
    forall i | 0 <= i < |rows|
      ensures Block(Wrapping(rows[i], width))
    {
      WrappedBlock(rows[i], width);
    }
  }

  /** Where row `k` begins among the wrapped rows. */
  function RowStart(rows: seq<seq<string>>, k: nat, width: nat): nat
    requires width > 0 && k <= |rows|
  {
    |Flatten(WrappedBlocks(rows[..k], width))|
  }

  /** In the wrapped lines, the anchor of row `k` is where its own lines begin, and they are its span. */
  ghost predicate SpanOfRow(body: seq<string>, row: seq<string>, k: nat, start: nat, width: nat)
    requires width > 0 && start < |body| && row != []
  {
    var block := Wrapping(row, width);
    && block != [] && block[0] == Wrapped(row[0], width)[0]
    && start + |block| <= |body| && body[start..start + |block|] == block
    && Anchor(body, k) == Some(start)
    && NextHeading(body, start + 1) == start + |block|
  }

  lemma WrappedApart(before: seq<seq<string>>, row: seq<string>, after: seq<seq<string>>, width: nat)
    requires width > 0
    ensures Wrapping(Flatten(before + [row] + after), width)
         == Flatten(WrappedBlocks(before, width)) + Wrapping(row, width) + Flatten(WrappedBlocks(after, width))
  {
    FlattenSplits(before, row, after);
    WrappingConcat(Flatten(before) + row, Flatten(after), width);
    WrappingConcat(Flatten(before), row, width);
    WrappingFlattened(before, width);
    WrappingFlattened(after, width);
  }

  /** Wrapping the rows leaves as many lines that begin like a heading as there are rows. */
  predicate Countable(rows: seq<seq<string>>, width: nat)
    requires width > 0
  {
    Headings(Wrapping(Flatten(rows), width)) == |rows|
  }

  /** With room for the indent it always does. */
  lemma WideIsCountable(rows: seq<seq<string>>, width: nat)
    requires width > 4 && Blocks(rows)
    ensures Countable(rows, width)
  {
    WrappedBlocksAre(rows, width);
    WrappingFlattened(rows, width);
    FlattenHeadings(WrappedBlocks(rows, width));
  }

  lemma WrappedStart(row: seq<string>, width: nat)
    requires width > 0 && row != []
    ensures var lines := Wrapping(row, width);
      lines != [] && lines[0] == Wrapped(row[0], width)[0] && (IsHeading(lines[0]) <==> IsHeading(row[0]))
  {
    var first, rest := [row[0]], row[1..];
    assert row == first + rest;
    WrappingConcat(first, rest, width);
    assert first[..0] == [] && Wrapping(first, width) == [] + Wrapped(row[0], width);
    WrappedFits(row[0], width);
  }

  lemma {:induction false} NoneCounted(lines: seq<string>, i: nat)
    requires Headings(lines) == 0 && i < |lines|
    ensures !IsHeading(lines[i])
  {
    if i < |lines| - 1 {
      NoneCounted(lines[..|lines| - 1], i);
    }
  }

  lemma OneCounted(lines: seq<string>)
    requires lines != [] && IsHeading(lines[0])
    ensures Headings(lines) >= 1 && (Block(lines) <==> Headings(lines) == 1)
  {
    var first, rest := [lines[0]], lines[1..];
    assert lines == first + rest;
    HeadingsConcat(first, rest);
    assert first[..0] == [];
    if Headings(lines) == 1 {
      forall i | 1 <= i < |lines|
        ensures !IsHeading(lines[i])
      {
        NoneCounted(rest, i - 1);
      }
    } else if Block(lines) {
      BlockHeadings(lines);
    }
  }

  /** Every block begins with a heading, perhaps not its only one. */
  ghost predicate Headed(blocks: seq<seq<string>>) {
    forall i :: 0 <= i < |blocks| ==> blocks[i] != [] && IsHeading(blocks[i][0])
  }

  /** Headed blocks hold at least one heading each, and exactly as many as there are when all are blocks. */
  lemma {:induction false} HeadedCounts(blocks: seq<seq<string>>)
    requires Headed(blocks)
    ensures Headings(Flatten(blocks)) >= |blocks|
    ensures Headings(Flatten(blocks)) == |blocks| <==> Blocks(blocks)
  {
    if blocks != [] {
      var init, last := blocks[..|blocks| - 1], blocks[|blocks| - 1];
      HeadedCounts(init);
      HeadingsConcat(Flatten(init), last);
      OneCounted(last);
      BlocksSnoc(init, last);
      assert blocks == init + [last];
    }
  }

  lemma BlocksSnoc(blocks: seq<seq<string>>, last: seq<string>)
    ensures Blocks(blocks + [last]) <==> Blocks(blocks) && Block(last)
  {
    var all := blocks + [last];
    assert all[|blocks|] == last && forall i :: 0 <= i < |blocks| ==> all[i] == blocks[i];
    if Blocks(all) {
      forall i | 0 <= i < |blocks|
        ensures Block(blocks[i])
      {
        assert Block(all[i]);
      }
    }
  }

  /** The heading count is right exactly when no continuation line begins like a heading. */
  lemma CountableIsBlocks(rows: seq<seq<string>>, width: nat)
    requires width > 0 && Blocks(rows)
    ensures Countable(rows, width) <==> Blocks(WrappedBlocks(rows, width))
    ensures Headings(Wrapping(Flatten(rows), width)) >= |rows|
  {
    var blocks := WrappedBlocks(rows, width);
    forall i | 0 <= i < |rows|
      ensures blocks[i] != [] && IsHeading(blocks[i][0])
    {
      WrappedStart(rows[i], width);
    }
    HeadedCounts(blocks);
    WrappingFlattened(rows, width);
  }

  lemma RowIsSpan(rows: seq<seq<string>>, k: nat, width: nat)
    requires width > 0 && k < |rows| && Blocks(rows) && Countable(rows, width)
    ensures var start := RowStart(rows, k, width); var body := Wrapping(Flatten(rows), width);
      start < |body| && SpanOfRow(body, rows[k], k, start, width)
  {
    assert rows == rows[..k] + [rows[k]] + rows[k + 1..];
    RowApart(rows, k, width);
    RowBetween(rows[..k], rows[k], rows[k + 1..], width);
  }

  lemma RowApart(rows: seq<seq<string>>, k: nat, width: nat)
    requires width > 0 && k < |rows| && Blocks(rows) && Countable(rows, width)
    ensures rows[k] != [] && Blocks(WrappedBlocks(rows[..k], width)) && Block(Wrapping(rows[k], width))
    ensures Blocks(WrappedBlocks(rows[k + 1..], width))
  {
    CountableIsBlocks(rows, width);
    BlocksApart(rows, k, width);
    assert Block(rows[k]);
  }

  lemma RowBetween(before: seq<seq<string>>, row: seq<string>, after: seq<seq<string>>, width: nat)
    requires width > 0 && row != [] && Block(Wrapping(row, width))
    requires Blocks(WrappedBlocks(before, width)) && Blocks(WrappedBlocks(after, width))
    ensures var body := Wrapping(Flatten(before + [row] + after), width);
      var start := |Flatten(WrappedBlocks(before, width))|;
      start < |body| && SpanOfRow(body, row, |before|, start, width)
  {
    WrappedApart(before, row, after, width);
    RowAmong(WrappedBlocks(before, width), row, WrappedBlocks(after, width), width);
  }

  lemma BlocksApart(rows: seq<seq<string>>, k: nat, width: nat)
    requires width > 0 && k < |rows| && Blocks(WrappedBlocks(rows, width))
    ensures Blocks(WrappedBlocks(rows[..k], width)) && Block(Wrapping(rows[k], width))
    ensures Blocks(WrappedBlocks(rows[k + 1..], width))
  {
    var blocks := WrappedBlocks(rows, width);
    assert Block(blocks[k]);
    forall i | 0 <= i < k
      ensures Block(WrappedBlocks(rows[..k], width)[i])
    {
      assert Block(blocks[i]);
    }
    var after := WrappedBlocks(rows[k + 1..], width);
    forall i | 0 <= i < |after|
      ensures Block(after[i])
    {
      assert Block(blocks[i + k + 1]);
    }
  }

  lemma RowAmong(before: seq<seq<string>>, row: seq<string>, after: seq<seq<string>>, width: nat)
    requires width > 0 && Blocks(before) && Blocks(after) && row != [] && Block(Wrapping(row, width))
    ensures var body := Flatten(before) + Wrapping(row, width) + Flatten(after); var start := |Flatten(before)|;
      start < |body| && SpanOfRow(body, row, |before|, start, width)
  {
    WrappedStart(row, width);
    BlockIsSpan(before, Wrapping(row, width), after);
    Middle(Flatten(before), Wrapping(row, width), Flatten(after));
  }

  lemma {:induction false} NextHeadingBefore(lines: seq<string>, i: nat, e: nat)
    requires i <= e < |lines| && IsHeading(lines[e])
    ensures NextHeading(lines, i) <= e
    decreases e - i
  {
    if i < e {
      NextHeadingBefore(lines, i + 1, e);
    }
  }

  /** A span that is its row's own lines has one heading. */
  lemma SpanIsBlock(body: seq<string>, row: seq<string>, k: nat, start: nat, width: nat)
    requires width > 0 && start < |body| && row != [] && IsHeading(row[0]) && SpanOfRow(body, row, k, start, width)
    ensures Block(Wrapping(row, width))
  {
    var block := Wrapping(row, width);
    WrappedStart(row, width);
    forall i | 1 <= i < |block|
      ensures !IsHeading(block[i])
    {
      assert body[start..start + |block|][i] == block[i];
      if IsHeading(body[start + i]) {
        NextHeadingBefore(body, start + 1, start + i);
      }
    }
  }

  ghost predicate AllFound(rows: seq<seq<string>>, width: nat)
    requires width > 0 && Blocks(rows)
  {
    var body := Wrapping(Flatten(rows), width);
    forall k :: 0 <= k < |rows| ==>
      RowStart(rows, k, width) < |body| && SpanOfRow(body, rows[k], k, RowStart(rows, k, width), width)
  }

  /** At any width: counting headings finds every row's own lines if and only if there are as many as rows. */
  lemma FoundExactlyWhenCountable(rows: seq<seq<string>>, width: nat)
    requires width > 0 && Blocks(rows)
    ensures AllFound(rows, width) <==> Countable(rows, width)
  {
    CountableIsBlocks(rows, width);
    if AllFound(rows, width) {
      var body := Wrapping(Flatten(rows), width);
      forall k | 0 <= k < |rows|
        ensures Block(WrappedBlocks(rows, width)[k])
      {
        SpanIsBlock(body, rows[k], k, RowStart(rows, k, width), width);
      }
    }
    if Countable(rows, width) {
      forall k | 0 <= k < |rows|
        ensures RowStart(rows, k, width) < |Wrapping(Flatten(rows), width)|
        ensures SpanOfRow(Wrapping(Flatten(rows), width), rows[k], k, RowStart(rows, k, width), width)
      {
        RowIsSpan(rows, k, width);
      }
    }
  }

  // ---------- four columns are too few ----------

  const NARROW := 4

  lemma {:induction false} ContinuedNarrow(rest: string, i: nat)
    requires NARROW * i < |rest|
    ensures i < |Continued(rest, NARROW)| && Continued(rest, NARROW)[i] != ""
    ensures Continued(rest, NARROW)[i][0] == rest[NARROW * i]
  {
    var n := Min(NARROW, |rest|);
    assert Spaces(0) + rest[..n] == rest[..n];
    if i > 0 {
      ContinuedNarrow(rest[n..], i - 1);
    }
  }

  /** A line of five columns or more whose fifth, ninth, ... column is a minus sign gives a second heading. */
  lemma NarrowHeading(line: string, i: nat)
    requires IsHeading(line) && i >= 1 && NARROW * i < |line| && line[NARROW * i] == '-'
    ensures !Block(Wrapped(line, NARROW))
  {
    var rest := line[NARROW..];
    ContinuedNarrow(rest, i - 1);
    assert rest[NARROW * (i - 1)] == line[NARROW * i];
    assert Wrapped(line, NARROW)[i] == Continued(rest, NARROW)[i - 1];
  }

  /**
   At four columns the count is wrong for every report with a collapsed finding
   whose id has a minus sign in its tenth place, as in SHUV-AUTH-001: some row is
   not found where its lines are.
   */
  lemma NarrowViewerMiscounts(r: ScanReport, expanded: set<nat>, k: nat)
    requires k < |r.findings| && k !in expanded && |r.findings[k].id| > 9 && r.findings[k].id[9] == '-'
    ensures Blocks(RowBlocks(r, expanded)) && !Countable(RowBlocks(r, expanded), NARROW)
    ensures !AllFound(RowBlocks(r, expanded), NARROW)
  {
    var rows := RowBlocks(r, expanded);
    var f := r.findings[k];
    RowsAreBlocks(r, expanded);
    CollapsedFinding(f);
    assert rows[k] == FindingLines(f, false);
    CollapsedIsTwice(rows[k], FindingHeading(f));
    assert !Block(WrappedBlocks(rows, NARROW)[k]);
    CountableIsBlocks(rows, NARROW);
    FoundExactlyWhenCountable(rows, NARROW);
  }

  function FindingHeading(f: Finding): string {
    Marker(false) + (" " + PadRight(SeverityName(f.severity), 8) + " " + f.id + "  " + f.title)
  }

  lemma CollapsedFinding(f: Finding)
    requires |f.id| > 9 && f.id[9] == '-'
    ensures FindingLines(f, false) == [FindingHeading(f)]
    ensures IsHeading(FindingHeading(f)) && |FindingHeading(f)| > 20 && FindingHeading(f)[20] == '-'
  {
    var head := Marker(false) + (" " + PadRight(SeverityName(f.severity), 8) + " ");
    assert |head| == 11;
    assert FindingHeading(f) == head + f.id + ("  " + f.title);
  }

  lemma CollapsedIsTwice(row: seq<string>, line: string)
    requires row == [line] && IsHeading(line) && |line| > 20 && line[20] == '-'
    ensures !Block(Wrapping(row, NARROW))
  {
    NarrowHeading(line, 5);
    assert row[..|row| - 1] == [] && row[|row| - 1] == line;
    assert Wrapping(row, NARROW) == [] + Wrapped(line, NARROW) == Wrapped(line, NARROW);
  }

  lemma Middle(a: seq<string>, b: seq<string>, c: seq<string>)
    ensures (a + b + c)[|a|..|a| + |b|] == b
  {
  }
}
