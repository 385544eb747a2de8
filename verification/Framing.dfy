/**
 What the transcript parser guarantees: a declarative reading of its state
 machine, non-interference between sections, and safety under truncation.
 */
module Framing {
  import opened Basics
  import opened Text
  import opened Protocol

  // ---------- the state machine over whole texts ----------

  lemma {:induction false} FoldConcat(m: Markers, st: State, a: seq<string>, b: seq<string>)
    ensures Fold(m, st, a + b) == Fold(m, Fold(m, st, a), b)
  {
    if b == [] {
      assert a + b == a;
    } else {
      assert (a + b)[..|a + b| - 1] == a + b[..|b| - 1];
      FoldConcat(m, st, a, b[..|b| - 1]);
    }
  }

  lemma FoldOne(m: Markers, st: State, line: string)
    ensures Fold(m, st, [line]) == Step(m, st, line)
  {
    assert [line][..0] == [];
  }

  /** Quiet lines only add to the section that is open. */
  lemma {:induction false} FoldQuiet(m: Markers, st: State, lines: seq<string>)
    requires Quiet(m, lines)
    ensures Fold(m, st, lines)
         == if st.open.Closed? then st else st.(open := Collecting(st.open.id, st.open.lines + lines))
  {
    if lines == [] {
      if st.open.Collecting? {
        assert st.open.lines + [] == st.open.lines;
      }
    } else {
      FoldQuiet(m, st, lines[..|lines| - 1]);
      if st.open.Collecting? {
        assert lines == lines[..|lines| - 1] + [lines[|lines| - 1]];
        assert st.open.lines + lines == st.open.lines + lines[..|lines| - 1] + [lines[|lines| - 1]];
      }
    }
  }

  /** No END line, no new section. */
  lemma {:induction false} FoldWithoutEnd(m: Markers, st: State, lines: seq<string>)
    requires forall i :: 0 <= i < |lines| ==> !IsEnd(m, lines[i])
    ensures Fold(m, st, lines).sections == st.sections
  {
    if lines != [] {
      FoldWithoutEnd(m, st, lines[..|lines| - 1]);
    }
  }

  /** A line cannot be a BEGIN and an END line at once. */
  lemma BeginIsNotEnd(m: Markers, line: string)
    ensures !(IsBegin(m, line) && IsEnd(m, line))
  {
    var marker := TrimCarriageReturns(line);
    var k :| 0 <= k < |m.begin| && k < |m.end| && m.begin[k] != m.end[k];
    assert StartsWith(marker, m.begin) ==> marker[k] == m.begin[k];
    assert StartsWith(marker, m.end) ==> marker[k] == m.end[k];
  }

  // ---------- declarative reading ----------

  /** Line `i` opens `id` and nothing up to the end of the lines touches it. */
  ghost predicate OpenSince(m: Markers, lines: seq<string>, i: int, id: string) {
    0 <= i < |lines| && BeginId(m, lines[i]) == Some(id) && Quiet(m, lines[i + 1..])
  }

  /** Line `j` is a well-formed END line for `id`. */
  ghost predicate ClosesAt(m: Markers, line: string, id: string) {
    IsEnd(m, line) && StatusText(EndRest(m, line).value, id).Some?
  }

  function StatusAt(m: Markers, line: string, id: string): int
    requires ClosesAt(m, line, id)
  {
    StatusOf(StatusText(EndRest(m, line).value, id).value)
  }

  /** A BEGIN line for `id` at `i`, a matching END line at `j`, no BEGIN or END line between. */
  ghost predicate Framed(m: Markers, lines: seq<string>, i: int, j: int, id: string) {
    0 <= i < j < |lines| && OpenSince(m, lines[..j], i, id) && ClosesAt(m, lines[j], id)
  }

  ghost predicate FramedAtEnd(m: Markers, lines: seq<string>, i: int, id: string) {
    lines != [] && Framed(m, lines, i, |lines| - 1, id)
  }

  ghost predicate LastFramed(m: Markers, lines: seq<string>, i: int, j: int, id: string) {
    Framed(m, lines, i, j, id) && forall i', j' :: Framed(m, lines, i', j', id) ==> j' <= j
  }

  lemma OpenSinceCollects(m: Markers, lines: seq<string>, i: int, id: string)
    requires OpenSince(m, lines, i, id)
    ensures Fold(m, START, lines).open == Collecting(id, lines[i + 1..])
  {
    assert lines == (lines[..i] + [lines[i]]) + lines[i + 1..];
    FoldConcat(m, START, lines[..i] + [lines[i]], lines[i + 1..]);
    assert (lines[..i] + [lines[i]])[..i] == lines[..i];
    FoldQuiet(m, Fold(m, START, lines[..i] + [lines[i]]), lines[i + 1..]);
    assert [] + lines[i + 1..] == lines[i + 1..];
  }

  lemma OpenSinceExtends(m: Markers, lines: seq<string>, i: int, id: string)
    requires lines != [] && OpenSince(m, lines[..|lines| - 1], i, id)
    requires !IsBegin(m, lines[|lines| - 1]) && !IsEnd(m, lines[|lines| - 1])
    ensures OpenSince(m, lines, i, id)
  {
    var n := |lines| - 1;
    assert lines[i + 1..] == lines[..n][i + 1..] + [lines[n]];
  }

  lemma {:induction false} CollectingIsOpen(m: Markers, lines: seq<string>) returns (i: int)
    requires Fold(m, START, lines).open.Collecting?
    ensures OpenSince(m, lines, i, Fold(m, START, lines).open.id)
  {
    var n := |lines| - 1;
    assert lines != [];
    if IsBegin(m, lines[n]) {
      i := n;
    } else {
      assert !IsEnd(m, lines[n]) && Fold(m, START, lines[..n]).open.Collecting?;
      i := CollectingIsOpen(m, lines[..n]);
      OpenSinceExtends(m, lines, i, Fold(m, START, lines).open.id);
    }
  }

  lemma FramedInPrefix(m: Markers, lines: seq<string>, n: nat, i: int, j: int, id: string)
    requires 0 <= j < n <= |lines|
    ensures Framed(m, lines[..n], i, j, id) <==> Framed(m, lines, i, j, id)
  {
    assert lines[..n][..j] == lines[..j];
  }

  /** The last line closes `id` exactly when it ends a frame, and the frame is what was collected. */
  lemma LastLineCloses(m: Markers, lines: seq<string>, i: int, id: string)
    requires FramedAtEnd(m, lines, i, id)
    ensures var n := |lines| - 1;
      SectionsOf(m, lines) ==
        SectionsOf(m, lines[..n])[id := SectionOf(m, StatusAt(m, lines[n], id), lines[i + 1..n])]
  {
    var n := |lines| - 1;
    OpenSinceCollects(m, lines[..n], i, id);
    BeginIsNotEnd(m, lines[n]);
    assert lines[..n][i + 1..] == lines[i + 1..n];
  }

  lemma LastLineKeeps(m: Markers, lines: seq<string>, id: string)
    requires lines != []
    requires forall i :: !FramedAtEnd(m, lines, i, id)
    ensures var before := SectionsOf(m, lines[..|lines| - 1]);
      (id in SectionsOf(m, lines) <==> id in before)
      && (id in before ==> SectionsOf(m, lines)[id] == before[id])
  {
    var n := |lines| - 1;
    var st := Fold(m, START, lines[..n]);
    if !IsBegin(m, lines[n]) && st.open.Collecting? && ClosesAt(m, lines[n], st.open.id) {
      var i := CollectingIsOpen(m, lines[..n]);
      assert FramedAtEnd(m, lines, i, st.open.id);
    }
  }

  ghost predicate HasFrame(m: Markers, lines: seq<string>, id: string) {
    exists i, j :: Framed(m, lines, i, j, id)
  }

  /** The last frame of an id, if it has any, decides content and status of its section. */
  ghost predicate LastFrameDecides(m: Markers, lines: seq<string>, id: string) {
    forall i, j :: LastFramed(m, lines, i, j, id) ==>
      id in SectionsOf(m, lines)
      && SectionsOf(m, lines)[id] == SectionOf(m, StatusAt(m, lines[j], id), lines[i + 1..j])
  }

  /**
   `parse` against its declarative reading: an id has a section exactly when it
   has a frame, and its last frame decides content and status.
   */
  lemma {:induction false} SectionsAreFrames(m: Markers, lines: seq<string>, id: string)
    ensures id in SectionsOf(m, lines) <==> HasFrame(m, lines, id)
    ensures LastFrameDecides(m, lines, id)
  {
    if lines != [] {
      SectionsAreFrames(m, lines[..|lines| - 1], id);
      if i :| FramedAtEnd(m, lines, i, id) {
        FrameAtEndDecides(m, lines, i, id);
      } else {
        NoFrameAtEndKeeps(m, lines, id);
      }
    }
  }

  lemma FrameAtEndDecides(m: Markers, lines: seq<string>, i: int, id: string)
    requires FramedAtEnd(m, lines, i, id)
    ensures id in SectionsOf(m, lines) && HasFrame(m, lines, id) && LastFrameDecides(m, lines, id)
  {
    var n := |lines| - 1;
    LastLineCloses(m, lines, i, id);
    assert Framed(m, lines, i, n, id);
    forall i', j' | LastFramed(m, lines, i', j', id)
      ensures SectionsOf(m, lines)[id] == SectionOf(m, StatusAt(m, lines[j'], id), lines[i' + 1..j'])
    {
      assert j' == n;
      LastLineCloses(m, lines, i', id);
    }
  }

  lemma NoFrameAtEndKeeps(m: Markers, lines: seq<string>, id: string)
    requires lines != [] && forall i :: !FramedAtEnd(m, lines, i, id)
    requires id in SectionsOf(m, lines[..|lines| - 1]) <==> HasFrame(m, lines[..|lines| - 1], id)
    requires LastFrameDecides(m, lines[..|lines| - 1], id)
    ensures id in SectionsOf(m, lines) <==> HasFrame(m, lines, id)
    ensures LastFrameDecides(m, lines, id)
  {
    var n := |lines| - 1;
    LastLineKeeps(m, lines, id);
    FramesOfPrefix(m, lines, id);
    forall i', j' | LastFramed(m, lines, i', j', id)
      ensures id in SectionsOf(m, lines)
      ensures SectionsOf(m, lines)[id] == SectionOf(m, StatusAt(m, lines[j'], id), lines[i' + 1..j'])
    {
      assert LastFramed(m, lines[..n], i', j', id);
      DecidedInPrefix(m, lines, n, i', j', id);
    }
  }

  lemma DecidedInPrefix(m: Markers, lines: seq<string>, n: nat, i: int, j: int, id: string)
    requires n <= |lines| && LastFramed(m, lines[..n], i, j, id) && LastFrameDecides(m, lines[..n], id)
    ensures id in SectionsOf(m, lines[..n]) && ClosesAt(m, lines[j], id)
    ensures SectionsOf(m, lines[..n])[id] == SectionOf(m, StatusAt(m, lines[j], id), lines[i + 1..j])
  {
    DecidedBy(m, lines[..n], i, j, id);
    assert lines[..n][i + 1..j] == lines[i + 1..j] && lines[..n][j] == lines[j];
  }

  lemma DecidedBy(m: Markers, lines: seq<string>, i: int, j: int, id: string)
    requires LastFramed(m, lines, i, j, id) && LastFrameDecides(m, lines, id)
    ensures id in SectionsOf(m, lines) && ClosesAt(m, lines[j], id)
    ensures SectionsOf(m, lines)[id] == SectionOf(m, StatusAt(m, lines[j], id), lines[i + 1..j])
  {
  }

  lemma FramesOfPrefix(m: Markers, lines: seq<string>, id: string)
    requires lines != [] && forall i :: !FramedAtEnd(m, lines, i, id)
    ensures HasFrame(m, lines, id) <==> HasFrame(m, lines[..|lines| - 1], id)
    ensures forall i, j :: LastFramed(m, lines, i, j, id) ==> LastFramed(m, lines[..|lines| - 1], i, j, id)
  {
    var n := |lines| - 1;
    forall i, j
      ensures Framed(m, lines, i, j, id) <==> Framed(m, lines[..n], i, j, id)
    {
      if 0 <= j < n {
        FramedInPrefix(m, lines, n, i, j, id);
      } else {
        assert !FramedAtEnd(m, lines, i, id);
      }
    }
  }
}
