/** The bounded process sample: one pass over the sorted PIDs with a ring of the last ones. */
module Sampler {
  import opened Basics

  const SIDE := 12
  const MORE := "SHUVSCAN_MORE"

  /** The first and the last lines, or all when there are few. */
  function Sampled(lines: seq<string>): seq<string> {
    if |lines| <= 2 * SIDE then lines else lines[..SIDE] + lines[|lines| - SIDE..] + [MORE]
  }

  lemma RingSlots(i: nat, j: nat)
    requires i < j < i + SIDE
    ensures i % SIDE != j % SIDE
  {
  }

  /** Slot `k` of the ring holds line `k`, for the last lines read. */
  ghost predicate HoldsLast(high: array<string>, lines: seq<string>, n: nat)
    reads high
    requires high.Length == SIDE && n <= |lines|
  {
    forall k :: Max(0, n - SIDE) <= k < n ==> high[k % SIDE] == lines[k]
  }

  ghost predicate HoldsFirst(low: array<string>, lines: seq<string>, n: nat)
    reads low
    requires low.Length == SIDE && n <= |lines|
  {
    forall k :: 0 <= k < n && k < SIDE ==> low[k] == lines[k]
  }

  /** For each line: the first ones into `low`, every one into the ring. */
  method Fill(lines: seq<string>, low: array<string>, high: array<string>)
    requires low.Length == SIDE && high.Length == SIDE && low != high
    modifies low, high
    ensures HoldsFirst(low, lines, |lines|) && HoldsLast(high, lines, |lines|)
  {
    var n := 0;
    while n < |lines|
      invariant 0 <= n <= |lines|
      invariant HoldsFirst(low, lines, n)
      invariant HoldsLast(high, lines, n)
    {
      if n < SIDE {
        low[n] := lines[n];
      }
      forall k | Max(0, n + 1 - SIDE) <= k < n
        ensures k % SIDE != n % SIDE
      {
        RingSlots(k, n);
      }
      high[n % SIDE] := lines[n];
      n := n + 1;
    }
  }

  /** At the end: what `low` holds, what the ring holds beyond it, and a mark if lines are missing. */
  method Print(n: nat, low: array<string>, high: array<string>, ghost lines: seq<string>) returns (out: seq<string>)
    requires low.Length == SIDE && high.Length == SIDE && n == |lines|
    requires HoldsFirst(low, lines, n) && HoldsLast(high, lines, n)
    ensures out == Sampled(lines)
  {
    out := [];
    var i := 0;
    while i < n && i < SIDE
      invariant 0 <= i <= Min(n, SIDE)
      invariant out == lines[..i]
    {
      out := out + [low[i]];
      i := i + 1;
    }
    var start := Max(n - SIDE, SIDE);
    i := start;
    while i < n
      invariant start <= i <= Max(start, n)
      invariant out == lines[..Min(n, SIDE)] + if i <= n then lines[start..i] else []
    {
      out := out + [high[i % SIDE]];
      i := i + 1;
    }
    if n > 2 * SIDE {
      out := out + [MORE];
    }
  }

  /** The sampler: one pass, constant memory. */
  method Sample(lines: seq<string>) returns (out: seq<string>)
    ensures out == Sampled(lines)
  {
    var low := new string[SIDE];
    var high := new string[SIDE];
    Fill(lines, low, high);
    out := Print(|lines|, low, high, lines);
  }

  /** No line is printed twice: a sample of distinct lines is distinct. */
  lemma SampledOnce(lines: seq<string>)
    requires forall i, j :: 0 <= i < j < |lines| ==> lines[i] != lines[j]
    requires MORE !in lines
    ensures var out := Sampled(lines); forall i, j :: 0 <= i < j < |out| ==> out[i] != out[j]
    ensures MORE in Sampled(lines) <==> |lines| > 2 * SIDE
  {
    var out := Sampled(lines);
    if |lines| > 2 * SIDE {
      assert out[|out| - 1] == MORE;
      assert forall i :: 0 <= i < SIDE ==> out[i] == lines[i];
      assert forall i :: SIDE <= i < 2 * SIDE ==> out[i] == lines[i - 2 * SIDE + |lines|];
    }
  }
}
