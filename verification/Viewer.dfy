/** The keyboard-driven report viewer: its state over every sequence of keys and frames, and what a frame shows. */
module Viewing {
  import opened Basics
  import opened Text
  import opened Model
  import opened Rendering
  import Engine
  import Output

  datatype Key =
    | Up | Down | Left | Right | PageUp | PageDown | Home | End
    | Enter | Tab | BackTab | Esc | CtrlC
    | Char(c: char)

  /** The value of a viewer's fields. */
  datatype View = View(
    target: nat,
    selected: nat,
    scroll: nat,
    expanded: seq<set<nat>>,
    help: bool,
    bodyHeight: nat,
    width: nat)

  function Start(reports: seq<ScanReport>): View {
    View(0, 0, 0, seq(|reports|, i => {}), false, 10, 80)
  }

  function RowCount(reports: seq<ScanReport>, target: nat): nat {
    if target < |reports| then Rows(reports[target]) else 0
  }

  /** Target, selection and expanded rows are in range. */
  predicate InRange(reports: seq<ScanReport>, v: View) {
    && |v.expanded| == |reports|
    && (if reports == [] then v.target == 0 else v.target < |reports|)
    && v.selected <= Max(RowCount(reports, v.target) - 1, 0)
    && (forall i, row :: 0 <= i < |reports| && row in v.expanded[i] ==> row < Rows(reports[i]))
    && v.bodyHeight > 0 && v.width > 0
  }

  // ---------- keys ----------

  function Clamp(n: int, low: int, high: int): int {
    if n < low then low else if n > high then high else n
  }

  function Moved(reports: seq<ScanReport>, v: View, delta: int): View {
    var count := RowCount(reports, v.target);
    if count == 0 then v.(selected := 0) else v.(selected := Clamp(v.selected + delta, 0, count - 1))
  }

  function Shifted(reports: seq<ScanReport>, v: View, delta: int): View {
    if reports == [] then v
    else v.(target := (v.target + delta) % |reports|, selected := 0, scroll := 0)
  }

  function Toggle(rows: set<nat>, row: nat): set<nat> {
    if row in rows then rows - {row} else rows + {row}
  }

  function Toggled(reports: seq<ScanReport>, v: View): View {
    if RowCount(reports, v.target) == 0 || v.target >= |v.expanded| then v
    else v.(expanded := v.expanded[v.target := Toggle(v.expanded[v.target], v.selected)])
  }

  /** What a key does outside the help page. */
  function Pressed(reports: seq<ScanReport>, v: View, key: Key): (View, bool) {
    match key
    case Char('q') => (v, false)
    case CtrlC => (v, false)
    case Esc => (v, false)
    case Char('?') => (v.(help := true), true)
    case Down => (Moved(reports, v, 1), true)
    case Char('j') => (Moved(reports, v, 1), true)
    case Up => (Moved(reports, v, -1), true)
    case Char('k') => (Moved(reports, v, -1), true)
    case PageDown => (Moved(reports, v, Max(v.bodyHeight, 1)), true)
    case PageUp => (Moved(reports, v, -Max(v.bodyHeight, 1)), true)
    case Home => (v.(selected := 0, scroll := 0), true)
    case Char('g') => (v.(selected := 0, scroll := 0), true)
    case End => (v.(selected := Max(RowCount(reports, v.target) - 1, 0)), true)
    case Char('G') => (v.(selected := Max(RowCount(reports, v.target) - 1, 0)), true)
    case Enter => (Toggled(reports, v), true)
    case Char(' ') => (Toggled(reports, v), true)
    case Tab => (Shifted(reports, v, 1), true)
    case Right => (Shifted(reports, v, 1), true)
    case Char(']') => (Shifted(reports, v, 1), true)
    case Char('l') => (Shifted(reports, v, 1), true)
    case BackTab => (Shifted(reports, v, -1), true)
    case Left => (Shifted(reports, v, -1), true)
    case Char('[') => (Shifted(reports, v, -1), true)
    case Char('h') => (Shifted(reports, v, -1), true)
    case Char(_) => (v, true)
  }

  /** On the help page only closing it and quitting do anything. */
  function Handled(reports: seq<ScanReport>, v: View, key: Key): (View, bool) {
    if v.help then
      match key
      case Esc => (v.(help := false), true)
      case Char('?') => (v.(help := false), true)
      case Char('q') => (v, false)
      case CtrlC => (v, false)
      case _ => (v, true)
    else Pressed(reports, v, key)
  }

  // ---------- frames ----------

  const HELP_LINES: seq<string> := [
    "Keyboard",
    "  j/k, Down/Up     next/previous row",
    "  h/l, Left/Right  previous/next target",
    "  Tab/Shift-Tab    next/previous target",
    "  [/]              previous/next target",
    "  Enter/Space      expand or collapse the selected row",
    "  g/G, Home/End    first/last row",
    "  PgUp/PgDn        page through rows",
    "  ?                toggle this help",
    "  q, Esc, Ctrl-C   quit",
    "",
    "Use --format json or --format html for the full retained evidence."]

  function VerdictLine(r: ScanReport): string {
    match Engine.VerdictOf(r)
    case Incomplete => Engine.INCOMPLETE_LINE
    case Pass => Engine.PASS_LINE
    case Findings => "FINDINGS"
  }

  function TitleLine(r: ScanReport, target: nat, targets: nat): string {
    "shuvscan " + Output.Safe(r.scannerVersion) + "  target " + Decimal(target + 1) + "/" + Decimal(targets)
    + "  " + Output.Safe(r.target)
  }

  function PackLines(r: ScanReport): seq<string> {
    match r.probePack
    case None => []
    case Some(pack) =>
      ["pack " + Output.Safe(pack.id) + "@" + Output.Safe(pack.version) + "  signer=" + Output.Safe(pack.signer)]
  }

  function HostLines(r: ScanReport): seq<string> {
    match r.host
    case None => []
    case Some(host) =>
      ["host " + Output.Safe(host.hostname) + "  kernel " + Output.Safe(host.kernel) + "  " + Output.Safe(host.os)]
  }

  function CountsLine(r: ScanReport): string {
    Decimal(|r.findings|) + " finding(s), " + Decimal(|r.observations|) + " observation(s), "
    + Decimal(|r.errors|) + " collection error(s)"
  }

  function HeaderLines(reports: seq<ScanReport>, target: nat): seq<string> {
    if target >= |reports| then ["shuvscan  (no reports)"]
    else
      var r := reports[target];
      [TitleLine(r, target, |reports|)] + PackLines(r) + HostLines(r) + [VerdictLine(r)] + [CountsLine(r)]
  }

  function FooterLine(help: bool): string {
    if help then "?/Esc close help   q quit" else "j/k move  enter expand  h/l target  ? help  q quit"
  }

  function SourceLines(reports: seq<ScanReport>, v: View): seq<string> {
    if v.help then HELP_LINES
    else if v.target < |reports| && v.target < |v.expanded| then BodyOf(reports[v.target], v.expanded[v.target])
    else []
  }

  /** `selected_anchor` */
  function SelectedAnchor(reports: seq<ScanReport>, v: View, body: seq<string>): (r: Option<nat>)
    ensures r.Some? ==> r.value < |body|
  {
    if RowCount(reports, v.target) == 0 then None else Anchor(body, v.selected)
  }

  /** The new scroll position: within the body, and showing the span if it can. */
  function Followed(scroll: nat, size: nat, height: nat, span: Option<(nat, nat)>): nat {
    if height == 0 || size == 0 then 0
    else
      var scroll1 := Min(scroll, Max(size - height, 0));
      match span
      case None => scroll1
      case Some((start, end)) =>
        var scroll2 := if start < scroll1 then start else scroll1;
        if end > scroll2 + height then Min(start, Max(end - height, 0)) else scroll2
  }

  function SpanOf(body: seq<string>, anchor: Option<nat>): Option<(nat, nat)>
    requires anchor.Some? ==> anchor.value < |body|
  {
    match anchor
    case None => None
    case Some(start) => Some((start, NextHeading(body, start + 1)))
  }

  function EllipsizedAll(lines: seq<string>, width: nat): seq<string>
    requires width > 0
  {
    seq(|lines|, i requires 0 <= i < |lines| => Ellipsized(lines[i], width))
  }

  function Blanks(n: nat): seq<string> {
    seq(n, i => "")
  }

  /** Where the visible part of the body begins. */
  function BodyStart(headerSize: nat, bodySize: nat, scroll: nat, height: nat): nat {
    Min(scroll, Max(bodySize - Max(height - headerSize - 1, 1), 0))
  }

  /** Line `i` of a frame: header, then body from `start` on and padding, and the footer last. */
  function FrameLine(header: seq<string>, body: seq<string>, footer: string, start: nat, width: nat, height: nat, i: nat): string
    requires width > 0
  {
    if i < |header| then Ellipsized(header[i], width)
    else if i == height - 1 then Ellipsized(footer, width)
    else if start + i - |header| < |body| then body[start + i - |header|]
    else ""
  }

  function Assembled(header: seq<string>, body: seq<string>, footer: string, scroll: nat, width: nat, height: nat): seq<string>
    requires width > 0 && height > 0
  {
    var start := BodyStart(|header|, |body|, scroll, height);
    seq(height, i requires 0 <= i < height => FrameLine(header, body, footer, start, width, height, i))
  }

  /** Header, visible part of the body, padding and footer, cut to the height, are those lines. */
  lemma AssembledInParts(header: seq<string>, body: seq<string>, footer: string, scroll: nat, width: nat, height: nat)
    requires width > 0 && height > 0
    ensures var start := BodyStart(|header|, |body|, scroll, height);
      var end := Min(start + Max(height - |header| - 1, 0), |body|);
      var top := EllipsizedAll(header, width) + body[start..end];
      var lines := top + Blanks(Max(height - 1 - |top|, 0)) + [Ellipsized(footer, width)];
      |lines| >= height && lines[..height] == Assembled(header, body, footer, scroll, width, height)
  {
    var start := BodyStart(|header|, |body|, scroll, height);
    var end := Min(start + Max(height - |header| - 1, 0), |body|);
    var above, shown := EllipsizedAll(header, width), body[start..end];
    var blanks := Blanks(Max(height - 1 - |above + shown|, 0));
    var lines := above + shown + blanks + [Ellipsized(footer, width)];
    forall i | 0 <= i < height
      ensures lines[i] == FrameLine(header, body, footer, start, width, height, i)
    {
      if i < |header| {
        assert lines[i] == above[i];
      } else if i < |header| + |shown| {
        assert lines[i] == shown[i - |header|];
      }
    }
  }

  /** A frame from its parts, and the view after it. */
  function Composed(
    header: seq<string>, body: seq<string>, footer: string, anchor: Option<nat>, v: View, width: nat, height: nat)
    : (r: (seq<string>, View))
    requires width > 0 && height > 0 && (anchor.Some? ==> anchor.value < |body|)
    ensures r.1 == v.(scroll := r.1.scroll, bodyHeight := r.1.bodyHeight, width := width) && r.1.bodyHeight > 0
    ensures r.0 == Assembled(header, body, footer, r.1.scroll, width, height)
  {
    var bodyHeight := Max(height - |header| - 1, 0);
    var scroll := Followed(v.scroll, |body|, bodyHeight, SpanOf(body, anchor));
    (Assembled(header, body, footer, scroll, width, height),
     v.(scroll := scroll, bodyHeight := Max(bodyHeight, 1), width := width))
  }

  function FrameOf(reports: seq<ScanReport>, v: View, width0: nat, height0: nat): (seq<string>, View) {
    var width, height := Max(width0, 1), Max(height0, 1);
    var body := Wrapping(SourceLines(reports, v), width);
    Composed(HeaderLines(reports, v.target), body, FooterLine(v.help), SelectedAnchor(reports, v, body), v, width, height)
  }

  /** The line of the frame at which the anchor is shown. */
  function LineOf(headerSize: nat, anchor: Option<nat>, scroll: nat, size: nat): Option<nat> {
    match anchor
    case None => None
    case Some(a) =>
      var index := headerSize + Max(a - scroll, 0);
      if index < Max(size - 1, 0) then Some(index) else None
  }

  /** `selected_line` */
  function SelectedLineOf(reports: seq<ScanReport>, v: View, lines: seq<string>): Option<nat> {
    if v.help then None
    else
      var body := Wrapping(SourceLines(reports, v), Max(v.width, 1));
      LineOf(|HeaderLines(reports, v.target)|, SelectedAnchor(reports, v, body), v.scroll, |lines|)
  }

  // ---------- the viewer ----------

  method WrapLines(lines: seq<string>, width: nat) returns (wrapped: seq<string>)
    requires width > 0
    ensures wrapped == Wrapping(lines, width)
  {
    wrapped := [];
    for i := 0 to |lines|
      invariant wrapped == Wrapping(lines[..i], width)
    {
      assert lines[..i + 1][..i] == lines[..i];
      var pieces := WrapLine(lines[i], width);
      wrapped := wrapped + pieces;
    }
    assert lines[..|lines|] == lines;
  }

  class Viewer {
    const reports: seq<ScanReport>
    var target: nat
    var selected: nat
    var scroll: nat
    var expanded: seq<set<nat>>
    var help: bool
    var lastBodyHeight: nat
    var lastWidth: nat

    function Value(): View
      reads this
    {
      View(target, selected, scroll, expanded, help, lastBodyHeight, lastWidth)
    }

    predicate Valid()
      reads this
    {
      InRange(reports, Value())
    }

    constructor (reports: seq<ScanReport>)
      ensures this.reports == reports && Value() == Start(reports) && Valid()
    {
      this.reports := reports;
      target, selected, scroll, help := 0, 0, 0, false;
      expanded := seq(|reports|, i => {});
      lastBodyHeight, lastWidth := 10, 80;
    }

    method MoveSelection(delta: int)
      modifies this
      ensures Value() == Moved(reports, old(Value()), delta)
    {
      var count := RowCount(reports, target);
      if count == 0 {
        selected := 0;
        return;
      }
      selected := Clamp(selected + delta, 0, count - 1);
    }

    method ShiftTarget(delta: int)
      modifies this
      ensures Value() == Shifted(reports, old(Value()), delta)
    {
      if reports == [] {
        return;
      }
      target := (target + delta) % |reports|;
      selected := 0;
      scroll := 0;
    }

    method ToggleExpanded()
      requires Valid()
      modifies this
      ensures Value() == Toggled(reports, old(Value()))
    {
      if RowCount(reports, target) == 0 {
        return;
      }
      var rows := expanded[target];
      if selected in rows {
        rows := rows - {selected};
      } else {
        rows := rows + {selected};
      }
      expanded := expanded[target := rows];
    }

    /** Handle one key; false ends the viewer. */
    method Handle(key: Key) returns (more: bool)
      requires Valid()
      modifies this
      ensures (Value(), more) == Handled(reports, old(Value()), key)
      ensures Valid()
    {
      HandleStaysInRange(reports, Value(), key);
      more := true;
      if help {
        if key == Esc || key == Char('?') {
          help := false;
        } else if key == Char('q') || key == CtrlC {
          more := false;
        }
        return;
      }
      match key
      case Char('q') => more := false;
      case CtrlC => more := false;
      case Esc => more := false;
      case Char('?') => help := true;
      case Down => MoveSelection(1);
      case Char('j') => MoveSelection(1);
      case Up => MoveSelection(-1);
      case Char('k') => MoveSelection(-1);
      case PageDown => MoveSelection(Max(lastBodyHeight, 1));
      case PageUp => MoveSelection(-Max(lastBodyHeight, 1));
      case Home => selected, scroll := 0, 0;
      case Char('g') => selected, scroll := 0, 0;
      case End => selected := Max(RowCount(reports, target) - 1, 0);
      case Char('G') => selected := Max(RowCount(reports, target) - 1, 0);
      case Enter => ToggleExpanded();
      case Char(' ') => ToggleExpanded();
      case Tab => ShiftTarget(1);
      case Right => ShiftTarget(1);
      case Char(']') => ShiftTarget(1);
      case Char('l') => ShiftTarget(1);
      case BackTab => ShiftTarget(-1);
      case Left => ShiftTarget(-1);
      case Char('[') => ShiftTarget(-1);
      case Char('h') => ShiftTarget(-1);
      case Char(_) =>
    }

    method WrappedBody(width: nat) returns (body: seq<string>)
      requires Valid() && width > 0
      ensures body == Wrapping(SourceLines(reports, Value()), width)
    {
      var source: seq<string> := [];
      if help {
        source := HELP_LINES;
      } else if target < |reports| {
        source := BodyLines(reports[target], expanded[target]);
      }
      body := WrapLines(source, width);
    }

    /** The index of the selected row's heading, counting headings. */
    method FindAnchor(body: seq<string>) returns (anchor: Option<nat>)
      ensures anchor == SelectedAnchor(reports, Value(), body)
    {
      if RowCount(reports, target) == 0 {
        return None;
      }
      var row := 0;
      for index := 0 to |body|
        invariant row == Headings(body[..index])
        invariant Anchor(body[..index], selected) == None
        invariant row <= selected
      {
        assert body[..index + 1][..index] == body[..index];
        if IsHeading(body[index]) {
          if row == selected {
            AnchorStays(body, index + 1, selected);
            return Some(index);
          }
          row := row + 1;
        }
      }
      assert body[..|body|] == body;
      anchor := None;
    }

    method FollowSelection(body: seq<string>, bodyHeight: nat)
      modifies this
      ensures Value() == old(Value()).(scroll :=
        Followed(old(scroll), |body|, bodyHeight, SpanOf(body, SelectedAnchor(reports, old(Value()), body))))
    {
      if bodyHeight == 0 || body == [] {
        scroll := 0;
        return;
      }
      scroll := Min(scroll, Max(|body| - bodyHeight, 0));
      var anchor := FindAnchor(body);
      if anchor.None? {
        return;
      }
      var start, end := anchor.value, NextHeading(body, anchor.value + 1);
      if start < scroll {
        scroll := start;
      }
      if end > scroll + bodyHeight {
        scroll := Max(end - bodyHeight, 0);
        if start < scroll {
          scroll := start;
        }
      }
    }

    method Frame(width0: nat, height0: nat) returns (lines: seq<string>)
      requires Valid()
      modifies this
      ensures (lines, Value()) == FrameOf(reports, old(Value()), width0, height0)
      ensures Valid()
    {
      FrameStaysInRange(reports, Value(), width0, height0);
      var width, height := Max(width0, 1), Max(height0, 1);
      var body := WrappedBody(width);
      lines := Compose(HeaderLines(reports, target), body, FooterLine(help), width, height);
    }

    method Compose(header: seq<string>, body: seq<string>, footer: string, width: nat, height: nat)
      returns (lines: seq<string>)
      requires width > 0 && height > 0
      modifies this
      ensures (lines, Value())
        == Composed(header, body, footer, SelectedAnchor(reports, old(Value()), body), old(Value()), width, height)
    {
      var bodyHeight := Max(height - |header| - 1, 0);
      FollowSelection(body, bodyHeight);
      lastWidth := width;
      lastBodyHeight := Max(bodyHeight, 1);
      lines := EllipsizedAll(header, width);
      AssembledInParts(header, body, footer, scroll, width, height);
      var start := Min(scroll, Max(|body| - Max(bodyHeight, 1), 0));
      var end := Min(start + bodyHeight, |body|);
      lines := lines + body[start..end];
      lines := lines + Blanks(Max(height - 1 - |lines|, 0));
      lines := lines + [Ellipsized(footer, width)];
      lines := lines[..height];
    }

    /** The line to highlight: where the selected row is shown. */
    method SelectedLine(lines: seq<string>) returns (line: Option<nat>)
      requires Valid()
      ensures line == SelectedLineOf(reports, Value(), lines)
    {
      if help {
        return None;
      }
      var body := WrappedBody(lastWidth);
      line := Locate(|HeaderLines(reports, target)|, body, |lines|);
    }

    method Locate(headerSize: nat, body: seq<string>, size: nat) returns (line: Option<nat>)
      ensures line == LineOf(headerSize, SelectedAnchor(reports, Value(), body), scroll, size)
    {
      var anchor := FindAnchor(body);
      if anchor.None? {
        return None;
      }
      var index := headerSize + Max(anchor.value - scroll, 0);
      line := if index < Max(size - 1, 0) then Some(index) else None;
    }
  }

  /** Longer lines have the same anchor once it is found. */
  lemma {:induction false} AnchorStays(lines: seq<string>, n: nat, k: nat)
    requires n <= |lines| && Anchor(lines[..n], k).Some?
    ensures Anchor(lines, k) == Anchor(lines[..n], k)
  {
    if n < |lines| {
      assert lines[..|lines| - 1][..n] == lines[..n];
      AnchorStays(lines[..|lines| - 1], n, k);
    } else {
      assert lines[..n] == lines;
    }
  }

  // ---------- every sequence of keys and frames ----------

  lemma StartInRange(reports: seq<ScanReport>)
    ensures InRange(reports, Start(reports))
  {
  }

  lemma HandleStaysInRange(reports: seq<ScanReport>, v: View, key: Key)
    requires InRange(reports, v)
    ensures InRange(reports, Handled(reports, v, key).0)
  {
  }

  lemma FrameStaysInRange(reports: seq<ScanReport>, v: View, width: nat, height: nat)
    requires InRange(reports, v)
    ensures InRange(reports, FrameOf(reports, v, width, height).1)
  {
    GeometryKeepsRange(reports, v, FrameOf(reports, v, width, height).1);
  }

  lemma GeometryKeepsRange(reports: seq<ScanReport>, v: View, after: View)
    requires InRange(reports, v) && after.bodyHeight > 0 && after.width > 0
    requires after == v.(scroll := after.scroll, bodyHeight := after.bodyHeight, width := after.width)
    ensures InRange(reports, after)
  {
  }

  datatype Event = Press(key: Key) | Draw(width: nat, height: nat)

  function After(reports: seq<ScanReport>, events: seq<Event>): View {
    if events == [] then Start(reports)
    else
      var before := After(reports, events[..|events| - 1]);
      match events[|events| - 1]
      case Press(key) => Handled(reports, before, key).0
      case Draw(width, height) => FrameOf(reports, before, width, height).1
  }

  /** Whatever is pressed and drawn, target, selection and expanded rows stay in range. */
  lemma {:induction false} AlwaysInRange(reports: seq<ScanReport>, events: seq<Event>)
    ensures InRange(reports, After(reports, events))
  {
    if events == [] {
      StartInRange(reports);
    } else {
      var before := After(reports, events[..|events| - 1]);
      AlwaysInRange(reports, events[..|events| - 1]);
      match events[|events| - 1]
      case Press(key) => HandleStaysInRange(reports, before, key);
      case Draw(width, height) => FrameStaysInRange(reports, before, width, height);
    }
  }

  // ---------- what keys undo ----------

  function Twice(reports: seq<ScanReport>, v: View, first: Key, second: Key): View {
    Handled(reports, Handled(reports, v, first).0, second).0
  }

  lemma ToggleUndoes(reports: seq<ScanReport>, v: View)
    requires InRange(reports, v)
    ensures Toggled(reports, Toggled(reports, v)) == v
  {
    if RowCount(reports, v.target) > 0 {
      var rows := v.expanded[v.target];
      assert Toggle(Toggle(rows, v.selected), v.selected) == rows;
      assert v.expanded[v.target := Toggle(rows, v.selected)][v.target := rows] == v.expanded;
    }
  }

  lemma MoveUndoes(reports: seq<ScanReport>, v: View)
    requires InRange(reports, v)
    ensures v.selected + 1 < RowCount(reports, v.target) ==> Moved(reports, Moved(reports, v, 1), -1) == v
    ensures v.selected > 0 ==> Moved(reports, Moved(reports, v, -1), 1) == v
  {
  }

  lemma ShiftUndoes(reports: seq<ScanReport>, v: View)
    requires InRange(reports, v)
    ensures Shifted(reports, Shifted(reports, v, 1), -1).target == v.target
    ensures Shifted(reports, Shifted(reports, v, -1), 1).target == v.target
  {
    if reports != [] {
      CycleBack(v.target, |reports|);
    }
  }

  lemma CycleBack(target: nat, n: nat)
    requires target < n
    ensures ((target + 1) % n - 1) % n == target && ((target - 1) % n + 1) % n == target
  {
    Wraps(target + 1, n);
    Wraps(target - 1, n);
    Wraps(target, n);
    Wraps(-1, n);
    Wraps(n, n);
  }

  /** The Euclidean remainder next to the range. */
  lemma Wraps(x: int, n: nat)
    requires n > 0 && -1 <= x <= n
    ensures x % n == if x == n then 0 else if x == -1 then n - 1 else x
  {
    var q, r := x / n, x % n;
    assert x == n * q + r && 0 <= r < n;
    Between(q, n, x - r);
  }

  lemma Between(q: int, n: int, x: int)
    requires n > 0 && x == n * q && -2 * n < x < 2 * n
    ensures -1 <= q <= 1 && (q == 0 ==> x == 0) && (q == 1 ==> x == n) && (q == -1 ==> x == -n)
  {
    assert q >= 2 ==> n * q >= n * 2;
    assert q <= -2 ==> n * q <= n * -2;
  }

  /** Opposite keys undo each other: help, expansion, targets, and the moves that did not reach an end. */
  lemma KeysUndo(reports: seq<ScanReport>, v: View)
    requires InRange(reports, v) && !v.help
    ensures Twice(reports, v, Char('?'), Esc) == v
    ensures Twice(reports, v, Enter, Char(' ')) == v
    ensures v.selected + 1 < RowCount(reports, v.target) ==> Twice(reports, v, Down, Up) == v
    ensures v.selected > 0 ==> Twice(reports, v, Char('k'), Char('j')) == v
    ensures Twice(reports, v, Tab, BackTab).target == v.target && Twice(reports, v, Left, Right).target == v.target
  {
    ToggleUndoes(reports, v);
    MoveUndoes(reports, v);
    ShiftUndoes(reports, v);
  }

  /** The viewer ends with q and Ctrl-C, and outside the help page with Esc. */
  lemma QuitKeys(reports: seq<ScanReport>, v: View, key: Key)
    ensures !Handled(reports, v, key).1 <==> key == Char('q') || key == CtrlC || (key == Esc && !v.help)
    ensures !Handled(reports, v, key).1 ==> Handled(reports, v, key).0 == v
  {
  }

  /** The view after a key has been pressed `n` times. */
  function Times(reports: seq<ScanReport>, v: View, key: Key, n: nat): View {
    if n == 0 then v else Handled(reports, Times(reports, v, key, n - 1), key).0
  }

  /** What the moving keys do, as single moves. */
  lemma MovingKeys(reports: seq<ScanReport>, v: View)
    requires InRange(reports, v) && !v.help && RowCount(reports, v.target) > 0
    ensures var last := RowCount(reports, v.target) - 1;
      && Handled(reports, v, Down).0 == v.(selected := Min(v.selected + 1, last))
      && Handled(reports, v, Up).0 == v.(selected := Max(v.selected - 1, 0))
      && Handled(reports, v, PageDown).0 == v.(selected := Min(v.selected + v.bodyHeight, last))
      && Handled(reports, v, PageUp).0 == v.(selected := Max(v.selected - v.bodyHeight, 0))
      && Handled(reports, v, End).0 == v.(selected := last)
      && Handled(reports, v, Home).0 == v.(selected := 0, scroll := 0)
  {
  }

  lemma {:induction false} StepsDown(reports: seq<ScanReport>, v: View, n: nat)
    requires InRange(reports, v) && !v.help && RowCount(reports, v.target) > 0
    ensures Times(reports, v, Down, n) == v.(selected := Min(v.selected + n, RowCount(reports, v.target) - 1))
  {
    if n > 0 {
      StepsDown(reports, v, n - 1);
      MovingKeys(reports, Times(reports, v, Down, n - 1));
    }
  }

  lemma {:induction false} StepsUp(reports: seq<ScanReport>, v: View, n: nat)
    requires InRange(reports, v) && !v.help && RowCount(reports, v.target) > 0
    ensures Times(reports, v, Up, n) == v.(selected := Max(v.selected - n, 0))
  {
    if n > 0 {
      StepsUp(reports, v, n - 1);
      MovingKeys(reports, Times(reports, v, Up, n - 1));
    }
  }

  /**
   Every way to move is a number of single steps: a page is as many as the body has
   lines, and the ends are as many as there are rows.
   */
  lemma PagesAndEndsAreSteps(reports: seq<ScanReport>, v: View)
    requires InRange(reports, v) && !v.help && RowCount(reports, v.target) > 0
    ensures Handled(reports, v, PageDown).0 == Times(reports, v, Down, v.bodyHeight)
    ensures Handled(reports, v, PageUp).0 == Times(reports, v, Up, v.bodyHeight)
    ensures Handled(reports, v, End).0 == Times(reports, v, Down, RowCount(reports, v.target))
    ensures Handled(reports, v, Home).0 == Times(reports, v, Up, RowCount(reports, v.target)).(scroll := 0)
  {
    MovingKeys(reports, v);
    StepsDown(reports, v, v.bodyHeight);
    StepsDown(reports, v, RowCount(reports, v.target));
    StepsUp(reports, v, v.bodyHeight);
    StepsUp(reports, v, RowCount(reports, v.target));
  }

  /** Tab goes on to the next target and from the last to the first, BackTab back; a new target is shown from its first row. */
  lemma TabGoesRound(reports: seq<ScanReport>, v: View)
    requires InRange(reports, v) && !v.help && reports != []
    ensures Handled(reports, v, Tab).0
         == v.(target := if v.target + 1 == |reports| then 0 else v.target + 1, selected := 0, scroll := 0)
    ensures Handled(reports, v, BackTab).0
         == v.(target := if v.target == 0 then |reports| - 1 else v.target - 1, selected := 0, scroll := 0)
  {
    Wraps(v.target + 1, |reports|);
    Wraps(v.target - 1, |reports|);
  }

  /** The keys with the same meaning; any other character does nothing. */
  lemma SameKeys(reports: seq<ScanReport>, v: View, c: char)
    ensures Handled(reports, v, Char('j')) == Handled(reports, v, Down)
    ensures Handled(reports, v, Char('k')) == Handled(reports, v, Up)
    ensures Handled(reports, v, Char('g')) == Handled(reports, v, Home)
    ensures Handled(reports, v, Char('G')) == Handled(reports, v, End)
    ensures Handled(reports, v, Char(' ')) == Handled(reports, v, Enter)
    ensures c in "]l" ==> Handled(reports, v, Char(c)) == Handled(reports, v, Right) == Handled(reports, v, Tab)
    ensures c in "[h" ==> Handled(reports, v, Char(c)) == Handled(reports, v, Left) == Handled(reports, v, BackTab)
    ensures c !in "q?jkgG ]l[h" ==> Handled(reports, v, Char(c)) == (v, true)
  {
  }

  /** Expanding or collapsing changes the selected row of the current target and nothing else. */
  lemma ToggleChangesOneRow(reports: seq<ScanReport>, v: View, t: nat, row: nat)
    requires InRange(reports, v) && !v.help && t < |reports| && row < Rows(reports[t])
    ensures var after := Handled(reports, v, Enter).0;
      && after == v.(expanded := after.expanded) && |after.expanded| == |v.expanded|
      && (row in after.expanded[t] <==> (row in v.expanded[t]) != (t == v.target && row == v.selected))
  {
  }

  // ---------- what a frame shows ----------

  predicate AllFit(lines: seq<string>, width: nat) {
    forall i :: 0 <= i < |lines| ==> |lines[i]| <= width
  }

  lemma AssembledFits(header: seq<string>, body: seq<string>, footer: string, scroll: nat, width: nat, height: nat)
    requires width > 0 && height > 0 && AllFit(body, width)
    ensures var lines := Assembled(header, body, footer, scroll, width, height); |lines| == height && AllFit(lines, width)
  {
  }

  lemma ComposedFits(
    header: seq<string>, body: seq<string>, footer: string, anchor: Option<nat>, v: View, width: nat, height: nat)
    requires width > 0 && height > 0 && (anchor.Some? ==> anchor.value < |body|) && AllFit(body, width)
    ensures var lines := Composed(header, body, footer, anchor, v, width, height).0;
      |lines| == height && AllFit(lines, width)
  {
    AssembledFits(header, body, footer, Composed(header, body, footer, anchor, v, width, height).1.scroll, width, height);
  }

  /** Line `i` of a frame above the body, if the frame is that high. */
  ghost predicate ShowsLine(lines: seq<string>, i: nat, line: string, width: nat)
    requires width > 0
  {
    i < |lines| ==> lines[i] == Ellipsized(line, width)
  }

  /** Every frame has exactly the requested height, and no line is wider than requested. */
  lemma FrameFits(reports: seq<ScanReport>, v: View, width: nat, height: nat)
    ensures var lines := FrameOf(reports, v, width, height).0;
      |lines| == Max(height, 1) && AllFit(lines, Max(width, 1))
  {
    var w, h := Max(width, 1), Max(height, 1);
    var header, body := HeaderLines(reports, v.target), Wrapping(SourceLines(reports, v), w);
    WrappingFits(SourceLines(reports, v), w);
    ComposedFits(header, body, FooterLine(v.help), SelectedAnchor(reports, v, body), v, w, h);
  }

  /** Errors come first, then the findings decide. */
  function VerdictText(r: ScanReport): string {
    if r.errors != [] then "INCOMPLETE  " + "Collection errors prevent a complete verdict."
    else if r.findings == [] then "PASS  " + "No findings detected by the active probe pack."
    else "FINDINGS"
  }

  /** Line `i` of a frame that is high enough is line `i` of its header. */
  lemma ComposedHeader(
    header: seq<string>, body: seq<string>, footer: string, anchor: Option<nat>, v: View, width: nat, height: nat, i: nat)
    requires width > 0 && height > 0 && (anchor.Some? ==> anchor.value < |body|) && i < |header|
    ensures ShowsLine(Composed(header, body, footer, anchor, v, width, height).0, i, header[i], width)
  {
  }

  /** The first lines of a frame: title, pack and host if there are any, verdict, counts. */
  ghost predicate Headed(
    lines: seq<string>, width: nat, title: string, pack: seq<string>, host: seq<string>, verdict: string, counts: string)
    requires width > 0
  {
    && ShowsLine(lines, 0, title, width)
    && (pack != [] ==> ShowsLine(lines, 1, pack[0], width))
    && (host != [] ==> ShowsLine(lines, 1 + |pack|, host[0], width))
    && ShowsLine(lines, 1 + |pack| + |host|, verdict, width)
    && ShowsLine(lines, 2 + |pack| + |host|, counts, width)
  }

  lemma ComposedHeaded(
    title: string, pack: seq<string>, host: seq<string>, verdict: string, counts: string,
    body: seq<string>, footer: string, anchor: Option<nat>, v: View, width: nat, height: nat)
    requires width > 0 && height > 0 && (anchor.Some? ==> anchor.value < |body|)
    ensures Headed(Composed([title] + pack + host + [verdict] + [counts], body, footer, anchor, v, width, height).0,
                   width, title, pack, host, verdict, counts)
  {
    var header := [title] + pack + host + [verdict] + [counts];
    ComposedHeader(header, body, footer, anchor, v, width, height, 0);
    if pack != [] {
      ComposedHeader(header, body, footer, anchor, v, width, height, 1);
    }
    if host != [] {
      ComposedHeader(header, body, footer, anchor, v, width, height, 1 + |pack|);
    }
    ComposedHeader(header, body, footer, anchor, v, width, height, 1 + |pack| + |host|);
    ComposedHeader(header, body, footer, anchor, v, width, height, 2 + |pack| + |host|);
  }

  lemma VerdictIs(r: ScanReport)
    ensures VerdictLine(r)
         == if r.errors != [] then "INCOMPLETE  " + "Collection errors prevent a complete verdict."
            else if r.findings == [] then "PASS  " + "No findings detected by the active probe pack."
            else "FINDINGS"
  {
  }

  /**
   What stands above the body of every frame, as far as it is high enough: target
   number and name, pack and host exactly where they are known, the verdict (errors
   come first, then the findings decide) and the three counts.
   */
  lemma HeaderIsShown(reports: seq<ScanReport>, v: View, width: nat, height: nat)
    requires width > 0 && height > 0 && v.target < |reports|
    ensures var r := reports[v.target];
      Headed(FrameOf(reports, v, width, height).0, width,
        "shuvscan " + Output.Safe(r.scannerVersion) + "  target " + Decimal(v.target + 1) + "/" + Decimal(|reports|)
          + "  " + Output.Safe(r.target),
        if r.probePack == None then []
        else var pack := r.probePack.value;
          ["pack " + Output.Safe(pack.id) + "@" + Output.Safe(pack.version) + "  signer=" + Output.Safe(pack.signer)],
        if r.host == None then []
        else var host := r.host.value;
          ["host " + Output.Safe(host.hostname) + "  kernel " + Output.Safe(host.kernel) + "  " + Output.Safe(host.os)],
        if r.errors != [] then "INCOMPLETE  " + "Collection errors prevent a complete verdict."
        else if r.findings == [] then "PASS  " + "No findings detected by the active probe pack."
        else "FINDINGS",
        Decimal(|r.findings|) + " finding(s), " + Decimal(|r.observations|) + " observation(s), "
          + Decimal(|r.errors|) + " collection error(s)")
  {
    FrameIsHeaded(reports, v, width, height);
    VerdictIs(reports[v.target]);
  }

  lemma FrameIsHeaded(reports: seq<ScanReport>, v: View, width: nat, height: nat)
    requires width > 0 && height > 0 && v.target < |reports|
    ensures var r := reports[v.target];
      Headed(FrameOf(reports, v, width, height).0, width,
        TitleLine(r, v.target, |reports|), PackLines(r), HostLines(r), VerdictLine(r), CountsLine(r))
  {
    var r := reports[v.target];
    var body := Wrapping(SourceLines(reports, v), width);
    ComposedHeaded(TitleLine(r, v.target, |reports|), PackLines(r), HostLines(r), VerdictLine(r), CountsLine(r),
      body, FooterLine(v.help), SelectedAnchor(reports, v, body), v, width, height);
  }

  /** The first character of the verdict line tells which verdict it is. */
  ghost predicate TellsVerdict(lines: seq<string>, r: ScanReport) {
    var at := 1 + (if r.probePack.Some? then 1 else 0) + (if r.host.Some? then 1 else 0);
    at < |lines| ==>
      && lines[at] != ""
      && (lines[at][0] == 'I' <==> r.errors != [])
      && (lines[at][0] == 'P' <==> r.errors == [] && r.findings == [])
      && (lines[at][0] == 'F' <==> r.errors == [] && r.findings != [])
  }

  lemma TellsBy(lines: seq<string>, r: ScanReport)
    requires VerdictLine(r) != ""
    requires var at := 1 + |PackLines(r)| + |HostLines(r)|;
      at < |lines| ==> lines[at] != "" && lines[at][0] == VerdictLine(r)[0]
    ensures TellsVerdict(lines, r)
  {
    VerdictLetter(r);
  }

  /** In a frame of two columns or more an incomplete report never looks like one that passes. */
  lemma VerdictIsTold(reports: seq<ScanReport>, v: View, width: nat, height: nat)
    requires width > 1 && height > 0 && v.target < |reports|
    ensures TellsVerdict(FrameOf(reports, v, width, height).0, reports[v.target])
  {
    VerdictLetter(reports[v.target]);
    VerdictBegins(reports, v, width, height);
    TellsBy(FrameOf(reports, v, width, height).0, reports[v.target]);
  }

  lemma VerdictBegins(reports: seq<ScanReport>, v: View, width: nat, height: nat)
    requires width > 1 && height > 0 && v.target < |reports|
    requires VerdictLine(reports[v.target]) != ""
    ensures var r := reports[v.target]; var lines := FrameOf(reports, v, width, height).0;
      var at := 1 + |PackLines(r)| + |HostLines(r)|;
      at < |lines| ==> lines[at] != "" && lines[at][0] == VerdictLine(r)[0]
  {
    var r := reports[v.target];
    FrameIsHeaded(reports, v, width, height);
    HeadedVerdict(FrameOf(reports, v, width, height).0, width, TitleLine(r, v.target, |reports|), PackLines(r),
      HostLines(r), VerdictLine(r), CountsLine(r));
  }

  lemma HeadedVerdict(
    lines: seq<string>, width: nat, title: string, pack: seq<string>, host: seq<string>, verdict: string, counts: string)
    requires width > 1 && verdict != "" && Headed(lines, width, title, pack, host, verdict, counts)
    ensures var at := 1 + |pack| + |host|; at < |lines| ==> lines[at] != "" && lines[at][0] == verdict[0]
  {
    FirstStays(verdict, width);
  }

  lemma VerdictLetter(r: ScanReport)
    ensures VerdictLine(r) != ""
    ensures VerdictLine(r)[0] == if r.errors != [] then 'I' else if r.findings == [] then 'P' else 'F'
  {
    assert Engine.INCOMPLETE_LINE[0] == "INCOMPLETE  "[0] && Engine.PASS_LINE[0] == "PASS  "[0];
  }

  lemma FirstStays(line: string, width: nat)
    requires width > 1 && line != ""
    ensures Ellipsized(line, width) != "" && Ellipsized(line, width)[0] == line[0]
  {
  }

  /** Below `first` lines stands the body from line `start` on, then nothing, and the footer in the last line. */
  ghost predicate ShowsBody(lines: seq<string>, first: nat, body: seq<string>, start: nat, footer: string, width: nat)
    requires width > 0
  {
    forall i :: first <= i < |lines| ==>
      lines[i] == if i == |lines| - 1 then Ellipsized(footer, width)
                  else if start + i - first < |body| then body[start + i - first] else ""
  }

  lemma ComposedBody(
    header: seq<string>, body: seq<string>, footer: string, anchor: Option<nat>, v: View, width: nat, height: nat)
    requires width > 0 && height > 0 && (anchor.Some? ==> anchor.value < |body|)
    ensures var (lines, after) := Composed(header, body, footer, anchor, v, width, height);
      ShowsBody(lines, |header|, body, BodyStart(|header|, |body|, after.scroll, height), footer, width)
  {
  }

  /** What stands below the header: the wrapped help page or the wrapped rows, from the scroll position on, and the footer. */
  lemma BodyIsShown(reports: seq<ScanReport>, v: View, width: nat, height: nat)
    requires InRange(reports, v) && reports != [] && width > 0 && height > 0
    ensures var (lines, after) := FrameOf(reports, v, width, height);
      var first := |HeaderLines(reports, v.target)|;
      var body := Wrapping(if v.help then HELP_LINES else BodyOf(reports[v.target], v.expanded[v.target]), width);
      ShowsBody(lines, first, body, BodyStart(first, |body|, after.scroll, height),
        if v.help then "?/Esc close help   q quit" else "j/k move  enter expand  h/l target  ? help  q quit", width)
  {
    var body := Wrapping(SourceLines(reports, v), width);
    ComposedBody(HeaderLines(reports, v.target), body, FooterLine(v.help), SelectedAnchor(reports, v, body), v, width, height);
  }

  /** The scroll position shows the start of the span, and all of it if it fits. */
  lemma FollowedShows(scroll: nat, size: nat, height: nat, start: nat, end: nat)
    requires 0 < height && start < end <= size
    ensures var s := Followed(scroll, size, height, Some((start, end)));
      && s <= start < s + height
      && s <= Max(size - height, 0)
      && (end - start <= height ==> end <= s + height)
  {
  }

  function Distance(a: int, b: int): nat {
    if a < b then b - a else a - b
  }

  /**
   The body moves no more than it must: of all scroll positions that show the whole
   span the new one is the nearest; a span that is too long is shown from its start.
   */
  lemma FollowedMovesLeast(scroll: nat, size: nat, height: nat, start: nat, end: nat, other: nat)
    requires 0 < height && start < end <= size && other <= Max(size - height, 0)
    ensures var s, before := Followed(scroll, size, height, Some((start, end))), Min(scroll, Max(size - height, 0));
      && (other <= start && end <= other + height ==> Distance(s, before) <= Distance(other, before))
      && (end - start > height ==> s == start)
  {
  }

  /** The block stands in the frame from line `p` on, above the footer. */
  predicate Shows(lines: seq<string>, block: seq<string>, p: nat) {
    p + |block| <= |lines| - 1 && forall i :: 0 <= i < |block| ==> block[i] == lines[p + i]
  }

  /** The lines `from..to` of the body stand in the frame from line `p` on, above the footer. */
  predicate Copied(lines: seq<string>, p: nat, body: seq<string>, from: nat, to: nat)
    requires from <= to <= |body|
  {
    p + (to - from) <= |lines| - 1 && forall j :: from <= j < to ==> body[j] == lines[p + (j - from)]
  }

  /** The lines of the body that a frame shows, in place. */
  lemma AssembledShows(
    header: seq<string>, body: seq<string>, footer: string, scroll: nat, width: nat, height: nat, from: nat, to: nat)
    requires width > 0 && height > |header| + 1
    requires scroll <= from <= to <= Min(|body|, scroll + height - |header| - 1)
    requires scroll <= Max(|body| - (height - |header| - 1), 0)
    ensures Copied(Assembled(header, body, footer, scroll, width, height), |header| + from - scroll, body, from, to)
  {
  }

  /** The lines of the selected row. */
  function SelectedRow(reports: seq<ScanReport>, v: View): seq<string>
    requires InRange(reports, v) && RowCount(reports, v.target) > 0
  {
    RowBlocks(reports[v.target], v.expanded[v.target])[v.selected]
  }

  /** Counting headings is right: there is room for the indent, or no continuation line begins like a heading. */
  predicate Counts(reports: seq<ScanReport>, v: View, width: nat)
    requires InRange(reports, v) && RowCount(reports, v.target) > 0
  {
    width > 4 || (width > 0 && Countable(RowBlocks(reports[v.target], v.expanded[v.target]), width))
  }

  lemma SelectedRowIsSpan(reports: seq<ScanReport>, v: View, width: nat) returns (start: nat)
    requires InRange(reports, v) && !v.help && RowCount(reports, v.target) > 0 && Counts(reports, v, width)
    ensures var body := Wrapping(SourceLines(reports, v), width); var row := SelectedRow(reports, v);
      && row != [] && start < |body| && SpanOfRow(body, row, v.selected, start, width)
      && SelectedAnchor(reports, v, body) == Some(start)
  {
    var rows := RowBlocks(reports[v.target], v.expanded[v.target]);
    RowsAreBlocks(reports[v.target], v.expanded[v.target]);
    FlattenStarts(rows);
    if width > 4 {
      WideIsCountable(rows, width);
    }
    RowIsSpan(rows, v.selected, width);
    start := RowStart(rows, v.selected, width);
  }

  /** The row is in the frame at line `p`: its heading, and all its lines if they fit into `room`. */
  ghost predicate ShowsRow(lines: seq<string>, row: seq<string>, p: Option<nat>, room: int, width: nat)
    requires width > 0 && row != []
  {
    var block := Wrapping(row, width);
    && p.Some?
    && Shows(lines, [Wrapped(row[0], width)[0]], p.value)
    && (|block| <= room ==> Shows(lines, block, p.value))
  }

  /** The frame shows the start of the span at the highlighted line, and the span if it fits. */
  lemma FrameShowsSpan(
    header: seq<string>, body: seq<string>, footer: string, before: nat, scroll: nat, width: nat, height: nat,
    start: nat, end: nat)
    requires width > 0 && height > |header| + 1 && start < end <= |body|
    requires scroll == Followed(before, |body|, height - |header| - 1, Some((start, end)))
    ensures var lines := Assembled(header, body, footer, scroll, width, height);
      && scroll <= start && LineOf(|header|, Some(start), scroll, |lines|) == Some(|header| + start - scroll)
      && Copied(lines, |header| + start - scroll, body, start, start + 1)
      && (end - start <= height - |header| - 1 ==> Copied(lines, |header| + start - scroll, body, start, end))
  {
    FollowedShows(before, |body|, height - |header| - 1, start, end);
    ShownAt(header, body, footer, scroll, width, height, start, end);
    LineIs(|header|, start, scroll, |Assembled(header, body, footer, scroll, width, height)|);
  }

  lemma ComposedIs(
    header: seq<string>, body: seq<string>, footer: string, v: View, width: nat, height: nat, start: nat, end: nat)
    requires width > 0 && height > |header| + 1 && start < end <= |body| && end == NextHeading(body, start + 1)
    ensures var frame := Composed(header, body, footer, Some(start), v, width, height);
      frame.1.scroll == Followed(v.scroll, |body|, height - |header| - 1, Some((start, end)))
  {
    assert SpanOf(body, Some(start)) == Some((start, end));
  }

  lemma ComposedShows(
    header: seq<string>, body: seq<string>, footer: string, v: View, width: nat, height: nat, row: seq<string>, start: nat)
    requires width > 0 && height > |header| + 1 && row != []
    requires start < |body| && SpanOfRow(body, row, v.selected, start, width)
    ensures var frame := Composed(header, body, footer, Some(start), v, width, height);
      ShowsRow(frame.0, row, LineOf(|header|, Some(start), frame.1.scroll, |frame.0|), height - |header| - 1, width)
  {
    var end := start + |Wrapping(row, width)|;
    var frame := Composed(header, body, footer, Some(start), v, width, height);
    ComposedIs(header, body, footer, v, width, height, start, end);
    FrameShowsSpan(header, body, footer, v.scroll, frame.1.scroll, width, height, start, end);
    ShownRow(frame.0, body, row, v.selected, start, |header| + start - frame.1.scroll, height - |header| - 1, width);
  }

  lemma LineIs(headerSize: nat, anchor: nat, scroll: nat, size: nat)
    requires scroll <= anchor && headerSize + anchor - scroll < size - 1
    ensures LineOf(headerSize, Some(anchor), scroll, size) == Some(headerSize + anchor - scroll)
  {
  }

  lemma ShownRow(lines: seq<string>, body: seq<string>, row: seq<string>, k: nat, start: nat, p: nat, room: int, width: nat)
    requires width > 0 && row != [] && start < |body| && SpanOfRow(body, row, k, start, width)
    requires Copied(lines, p, body, start, start + 1)
    requires var size := |Wrapping(row, width)|; size <= room ==> Copied(lines, p, body, start, start + size)
    ensures ShowsRow(lines, row, Some(p), room, width)
  {
    var block := Wrapping(row, width);
    forall i | 0 <= i < |block|
      ensures block[i] == body[start + i]
    {
      assert body[start..start + |block|][i] == block[i];
    }
  }

  /**
   Outside the help page, with room for the body and with headings that can be
   counted, the selected row is always on the screen, where `selected_line` says.
   */
  lemma SelectionIsShown(reports: seq<ScanReport>, v: View, width: nat, height: nat)
    requires InRange(reports, v) && !v.help && RowCount(reports, v.target) > 0
    requires Counts(reports, v, width) && height > |HeaderLines(reports, v.target)| + 1
    ensures var (lines, after) := FrameOf(reports, v, width, height);
      SelectedRow(reports, v) != []
      && ShowsRow(lines, SelectedRow(reports, v), SelectedLineOf(reports, after, lines),
           height - |HeaderLines(reports, v.target)| - 1, width)
  {
    var start := SelectedRowIsSpan(reports, v, width);
    var header, body := HeaderLines(reports, v.target), Wrapping(SourceLines(reports, v), width);
    ComposedShows(header, body, FooterLine(v.help), v, width, height, SelectedRow(reports, v), start);
  }

  lemma ShownAt(
    header: seq<string>, body: seq<string>, footer: string, scroll: nat, width: nat, height: nat, start: nat, end: nat)
    requires width > 0 && height > |header| + 1 && start < end <= |body|
    requires scroll <= start < scroll + height - |header| - 1
    requires scroll <= Max(|body| - (height - |header| - 1), 0)
    ensures var lines := Assembled(header, body, footer, scroll, width, height); var p := |header| + start - scroll;
      && Copied(lines, p, body, start, start + 1)
      && (end <= scroll + height - |header| - 1 ==> Copied(lines, p, body, start, end))
  {
    AssembledShows(header, body, footer, scroll, width, height, start, start + 1);
    if end <= scroll + height - |header| - 1 {
      AssembledShows(header, body, footer, scroll, width, height, start, end);
    }
  }
}
