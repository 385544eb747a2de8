/** Draining the collector's pipes under a byte limit. */
module Transport {
  import opened Basics
  import opened Utf8

  const STDOUT_LIMIT := 512 * 1024

  /** What one read of a pipe may give; an empty chunk is the end of the stream. */
  datatype Read = Interrupted | Failed(error: string) | Data(chunk: seq<Byte>)

  datatype Capped = Capped(bytes: seq<Byte>, truncated: bool)

  /** Everything that arrives before the end of the stream, or the error that ends it. */
  function Delivered(pipe: seq<Read>): Result<seq<Byte>, string> {
    if pipe == [] then Ok([])
    else
      match pipe[0]
      case Interrupted => Delivered(pipe[1..])
      case Failed(e) => Err(e)
      case Data(chunk) =>
        if chunk == [] then Ok([])
        else
          match Delivered(pipe[1..])
          case Err(e) => Err(e)
          case Ok(rest) => Ok(chunk + rest)
  }

  function Cap(bytes: seq<Byte>, limit: nat): Capped {
    Capped(bytes[..Min(limit, |bytes|)], |bytes| > limit)
  }

  function Capture(delivered: Result<seq<Byte>, string>, limit: nat): Result<Capped, string> {
    match delivered
    case Err(e) => Err(e)
    case Ok(bytes) => Ok(Cap(bytes, limit))
  }

  /** The delivery as seen after a prefix `seen` of it. */
  function After(seen: seq<Byte>, rest: Result<seq<Byte>, string>): Result<seq<Byte>, string> {
    match rest
    case Err(e) => Err(e)
    case Ok(bytes) => Ok(seen + bytes)
  }

  // ---------- draining, read by read ----------

  /** The bytes that a run of reads carries, in order. */
  function Chunks(done: seq<Read>): seq<Byte> {
    if done == [] then []
    else Chunks(done[..|done| - 1]) + if done[|done| - 1].Data? then done[|done| - 1].chunk else []
  }

  /** A read that ends the draining: an error, or the empty chunk of an exhausted pipe. */
  predicate Ends(read: Read) {
    read.Failed? || (read.Data? && read.chunk == [])
  }

  /** The draining stops at read `e`, or at the end of the reads. */
  predicate StopsAt(pipe: seq<Read>, e: nat) {
    && e <= |pipe|
    && (forall i :: 0 <= i < e ==> !Ends(pipe[i]))
    && (e < |pipe| ==> Ends(pipe[e]))
  }

  /** There is always one such place. */
  lemma {:induction false} StopOf(pipe: seq<Read>) returns (e: nat)
    ensures StopsAt(pipe, e)
  {
    if pipe == [] || Ends(pipe[0]) {
      e := 0;
    } else {
      var rest := StopOf(pipe[1..]);
      e := rest + 1;
      assert forall i :: 0 < i < |pipe| ==> pipe[i] == pipe[1..][i - 1];
    }
  }

  lemma {:induction false} DeliveredStops(pipe: seq<Read>, e: nat)
    requires StopsAt(pipe, e)
    ensures Delivered(pipe) == if e < |pipe| && pipe[e].Failed? then Err(pipe[e].error) else Ok(Chunks(pipe[..e]))
  {
    if e > 0 {
      DeliveredStops(pipe[1..], e - 1);
      ChunksFirst(pipe, e);
      assert pipe[1..][..e - 1] == pipe[1..e];
      assert pipe[0].Interrupted? ==> [] + Chunks(pipe[1..e]) == Chunks(pipe[1..e]);
    } else {
      assert Chunks(pipe[..0]) == [];
    }
  }

  lemma {:induction false} ChunksFirst(pipe: seq<Read>, e: nat)
    requires 0 < e <= |pipe|
    ensures Chunks(pipe[..e]) == (if pipe[0].Data? then pipe[0].chunk else []) + Chunks(pipe[1..e])
  {
    assert pipe[..e][..e - 1] == pipe[..e - 1];
    if e > 1 {
      ChunksFirst(pipe, e - 1);
      assert pipe[1..e][..e - 2] == pipe[1..e - 1];
    }
  }

  /**
   The outcome of a draining that stops at `e`: the error if one is there, and
   otherwise the first `limit` bytes of all chunks before it, flagged exactly when
   there are more.
   */
  predicate Drained(pipe: seq<Read>, e: nat, limit: nat, r: Result<Capped, string>)
    requires StopsAt(pipe, e)
  {
    var all := Chunks(pipe[..e]);
    && (r.Err? <==> e < |pipe| && pipe[e].Failed?)
    && (r.Err? ==> r.error == pipe[e].error)
    && (r.Ok? ==> r.value.bytes <= all && |r.value.bytes| == Min(limit, |all|) && (r.value.truncated <==> limit < |all|))
  }

  /**
   `drain_capped`: keep reading to the end, retain exactly the first `limit` bytes
   and remember whether any byte was dropped.
   */
  method DrainCapped(pipe: seq<Read>, limit: nat) returns (r: Result<Capped, string>)
    ensures r == Capture(Delivered(pipe), limit)
    ensures exists e :: StopsAt(pipe, e) && Drained(pipe, e, limit, r)
  {
    ghost var e := StopOf(pipe);
    DeliveredStops(pipe, e);
    assert Drained(pipe, e, limit, Capture(Delivered(pipe), limit));
    var bytes: seq<Byte> := [];
    var truncated := false;
    ghost var seen: seq<Byte> := [];
    var i := 0;
    assert pipe[0..] == pipe;
    AfterNothing(Delivered(pipe));
    while i < |pipe|
      invariant 0 <= i <= |pipe|
      invariant Delivered(pipe) == After(seen, Delivered(pipe[i..]))
      invariant Capped(bytes, truncated) == Cap(seen, limit)
    {
      assert pipe[i..][1..] == pipe[i + 1..];
      match pipe[i] {
      case Interrupted =>
      case Failed(error) => return Err(error);
      case Data(chunk) =>
        if chunk == [] {
          AfterAll(seen);
          return Ok(Capped(bytes, truncated));
        }
        var remaining := if limit < |bytes| then 0 else limit - |bytes|;
        var retained := Min(remaining, |chunk|);
        AfterAppend(seen, chunk, Delivered(pipe[i + 1..]));
        CapAppend(seen, chunk, limit);
        bytes := bytes + chunk[..retained];
        truncated := truncated || retained < |chunk|;
        seen := seen + chunk;
      }
      i := i + 1;
    }
    AfterAll(seen);
    return Ok(Capped(bytes, truncated));
  }

  lemma AfterNothing(rest: Result<seq<Byte>, string>)
    ensures After([], rest) == rest
  {
    if rest.Ok? {
      assert [] + rest.value == rest.value;
    }
  }

  lemma AfterAll(seen: seq<Byte>)
    ensures After(seen, Ok([])) == Ok(seen)
  {
    assert seen + [] == seen;
  }

  lemma AfterAppend(seen: seq<Byte>, chunk: seq<Byte>, rest: Result<seq<Byte>, string>)
    ensures After(seen, After(chunk, rest)) == After(seen + chunk, rest)
  {
    if rest.Ok? {
      assert seen + (chunk + rest.value) == seen + chunk + rest.value;
    }
  }

  lemma CapAppend(seen: seq<Byte>, chunk: seq<Byte>, limit: nat)
    ensures var before := Cap(seen, limit); var after := Cap(seen + chunk, limit);
      var retained := Min(if limit < |before.bytes| then 0 else limit - |before.bytes|, |chunk|);
      after == Capped(before.bytes + chunk[..retained], before.truncated || retained < |chunk|)
  {
    var before := Cap(seen, limit);
    var retained := Min(if limit < |before.bytes| then 0 else limit - |before.bytes|, |chunk|);
    assert (seen + chunk)[..Min(limit, |seen + chunk|)] == before.bytes + chunk[..retained];
  }

  /** Interrupted reads are retried: one more or less, anywhere, changes nothing. */
  lemma {:induction false} InterruptsChangeNothing(before: seq<Read>, after: seq<Read>)
    ensures Delivered(before + [Interrupted] + after) == Delivered(before + after)
  {
    if before == [] {
      assert ([] + [Interrupted] + after)[1..] == [] + after;
    } else {
      InterruptsChangeNothing(before[1..], after);
      assert (before + [Interrupted] + after)[1..] == before[1..] + [Interrupted] + after;
      assert (before + after)[1..] == before[1..] + after;
    }
  }
}
