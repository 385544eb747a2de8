/**
 UTF-8 as section 3 of RFC 3629 defines it, with the two decoders Rust's
 standard library offers: the strict one rejects, the lossy one replaces each
 maximal ill-formed part by U+FFFD.
 */
module Utf8 {
  import opened Basics

  type Byte = b: int | 0 <= b < 256

  const REPLACEMENT: char := 0xFFFD as char

  // ---------- encoding ----------

  function EncodeChar(c: char): (r: seq<Byte>)
    ensures 1 <= |r| <= 4
  {
    var n := c as int;
    var n1 := n / 0x40;
    var n2 := n1 / 0x40;
    if n < 0x80 then [n]
    else if n < 0x800 then [0xC0 + n1, 0x80 + n % 0x40]
    else if n < 0x1_0000 then [0xE0 + n2, 0x80 + n1 % 0x40, 0x80 + n % 0x40]
    else [0xF0 + n2 / 0x40, 0x80 + n2 % 0x40, 0x80 + n1 % 0x40, 0x80 + n % 0x40]
  }

  function Encode(s: string): seq<Byte> {
    if s == "" then [] else EncodeChar(s[0]) + Encode(s[1..])
  }

  lemma EncodeCons(c: char, s: string)
    ensures Encode([c] + s) == EncodeChar(c) + Encode(s)
  {
    assert ([c] + s)[1..] == s;
  }

  lemma {:induction false} EncodeConcat(a: string, b: string)
    ensures Encode(a + b) == Encode(a) + Encode(b)
  {
    if a == "" {
      assert a + b == b;
    } else {
      assert (a + b)[1..] == a[1..] + b;
      EncodeConcat(a[1..], b);
    }
  }

  // ---------- decoding ----------

  predicate Continuation(b: Byte) {
    0x80 <= b < 0xC0
  }

  /** Length of the sequence a lead byte announces; 0 when it cannot lead one. */
  function Announced(lead: Byte): (n: nat)
    ensures n <= 4
  {
    if lead < 0x80 then 1
    else if 0xC2 <= lead < 0xE0 then 2
    else if 0xE0 <= lead < 0xF0 then 3
    else if 0xF0 <= lead < 0xF5 then 4
    else 0
  }

  /** May `b` stand at position `i` of the sequence that `lead` opens? */
  predicate Follows(lead: Byte, i: nat, b: Byte) {
    Continuation(b)
    && (i == 1 && lead == 0xE0 ==> 0xA0 <= b)
    && (i == 1 && lead == 0xED ==> b < 0xA0)
    && (i == 1 && lead == 0xF0 ==> 0x90 <= b)
    && (i == 1 && lead == 0xF4 ==> b < 0x90)
  }

  /** How many of the announced bytes, from position `i` on, really follow. */
  function Reach(b: seq<Byte>, i: nat): (n: nat)
    requires b != [] && 1 <= i <= Announced(b[0])
    requires i <= |b|
    ensures i <= n <= Announced(b[0]) && n <= |b|
    decreases 4 - i
  {
    if i < Announced(b[0]) && i < |b| && Follows(b[0], i, b[i]) then Reach(b, i + 1) else i
  }

  /** Length of the first well-formed sequence or of the first maximal ill-formed part. */
  function ChunkLen(b: seq<Byte>): (n: nat)
    requires b != []
    ensures 1 <= n <= |b| && n <= 4
  {
    if Announced(b[0]) == 0 then 1 else Reach(b, 1)
  }

  /** The scalar value that a sequence of one to four bytes spells. */
  function Scalar(e: seq<Byte>): int
    requires 1 <= |e| <= 4
  {
    if |e| == 1 then e[0] as int
    else if |e| == 2 then (e[0] as int - 0xC0) * 0x40 + e[1] as int - 0x80
    else if |e| == 3 then ((e[0] as int - 0xE0) * 0x40 + e[1] as int - 0x80) * 0x40 + e[2] as int - 0x80
    else (((e[0] as int - 0xF0) * 0x40 + e[1] as int - 0x80) * 0x40 + e[2] as int - 0x80) * 0x40 + e[3] as int - 0x80
  }

  /** A complete sequence: an announced length, and every byte allowed in its place. */
  predicate Sequence(e: seq<Byte>) {
    e != [] && |e| == Announced(e[0]) && forall i :: 1 <= i < |e| ==> Follows(e[0], i, e[i])
  }

  lemma ScalarIsChar(e: seq<Byte>)
    requires Sequence(e)
    ensures 0 <= Scalar(e) < 0xD800 || 0xE000 <= Scalar(e) < 0x11_0000
  {
    assert |e| > 1 ==> Follows(e[0], 1, e[1]);
    assert |e| > 2 ==> Follows(e[0], 2, e[2]);
    assert |e| > 3 ==> Follows(e[0], 3, e[3]);
  }

  function DecodeChunk(b: seq<Byte>): Option<char>
    requires b != []
  {
    var e := b[..ChunkLen(b)];
    if |e| != Announced(b[0]) then None
    else
      ReachFollows(b, 1);
      ScalarIsChar(e);
      Some(Scalar(e) as char)
  }

  lemma {:induction false} ReachFollows(b: seq<Byte>, i: nat)
    requires b != [] && 1 <= i <= Announced(b[0]) && i <= |b|
    ensures forall j :: i <= j < Reach(b, i) ==> Follows(b[0], j, b[j])
    decreases 4 - i
  {
    if i < Announced(b[0]) && i < |b| && Follows(b[0], i, b[i]) {
      ReachFollows(b, i + 1);
    }
  }

  /** `str::from_utf8` */
  function Decode(b: seq<Byte>): Option<string> {
    if b == [] then Some("")
    else
      var first := DecodeChunk(b);
      var rest := Decode(b[ChunkLen(b)..]);
      if first.Some? && rest.Some? then Some([first.value] + rest.value) else None
  }

  /** `String::from_utf8_lossy` */
  function Lossy(b: seq<Byte>): string {
    if b == [] then ""
    else
      var first := DecodeChunk(b);
      [if first.Some? then first.value else REPLACEMENT] + Lossy(b[ChunkLen(b)..])
  }

  // ---------- round trips ----------

  lemma EncodeCharIsSequence(c: char)
    ensures Sequence(EncodeChar(c))
  {
  }

  lemma EncodeCharScalar(c: char)
    ensures Scalar(EncodeChar(c)) == c as int
  {
  }

  lemma {:induction false} ReachOfSequence(e: seq<Byte>, rest: seq<Byte>, i: nat)
    requires Sequence(e) && 1 <= i <= |e|
    ensures Reach(e + rest, i) == |e|
    decreases 4 - i
  {
    if i < |e| {
      assert Follows(e[0], i, e[i]);
      ReachOfSequence(e, rest, i + 1);
    }
  }

  lemma DecodeEncodedChar(c: char, rest: seq<Byte>)
    ensures var b := EncodeChar(c) + rest;
      ChunkLen(b) == |EncodeChar(c)| && DecodeChunk(b) == Some(c)
  {
    var e := EncodeChar(c);
    EncodeCharIsSequence(c);
    EncodeCharScalar(c);
    ReachOfSequence(e, rest, 1);
    assert (e + rest)[..|e|] == e;
  }

  /** Decoding inverts encoding, in both decoders. */
  lemma {:induction false} DecodeEncode(s: string)
    ensures Decode(Encode(s)) == Some(s) && Lossy(Encode(s)) == s
  {
    if s != "" {
      var rest := Encode(s[1..]);
      DecodeEncodedChar(s[0], rest);
      assert (EncodeChar(s[0]) + rest)[|EncodeChar(s[0])|..] == rest;
      DecodeEncode(s[1..]);
      assert s == [s[0]] + s[1..];
    }
  }

  lemma Unpack(high: int, low: int)
    requires 0 <= low < 0x40
    ensures (high * 0x40 + low) / 0x40 == high && (high * 0x40 + low) % 0x40 == low
  {
  }

  lemma EncodeScalar(e: seq<Byte>, c: char)
    requires Sequence(e) && Scalar(e) == c as int
    ensures EncodeChar(c) == e
  {
    if |e| > 1 {
      assert Follows(e[0], 1, e[1]);
      if |e| == 2 {
        Unpack(e[0] as int - 0xC0, e[1] as int - 0x80);
      } else if |e| == 3 {
        EncodeScalar3(e, c);
      } else {
        EncodeScalar4(e, c);
      }
    }
  }

  lemma EncodeScalar3(e: seq<Byte>, c: char)
    requires Sequence(e) && |e| == 3 && Scalar(e) == c as int
    ensures EncodeChar(c) == e
  {
    assert Follows(e[0], 1, e[1]) && Follows(e[0], 2, e[2]);
    var h := e[0] as int - 0xE0;
    Unpack(h, e[1] as int - 0x80);
    Unpack(h * 0x40 + e[1] as int - 0x80, e[2] as int - 0x80);
  }

  lemma EncodeScalar4(e: seq<Byte>, c: char)
    requires Sequence(e) && |e| == 4 && Scalar(e) == c as int
    ensures EncodeChar(c) == e
  {
    assert Follows(e[0], 1, e[1]) && Follows(e[0], 2, e[2]) && Follows(e[0], 3, e[3]);
    var h := e[0] as int - 0xF0;
    var h1 := h * 0x40 + e[1] as int - 0x80;
    Unpack(h, e[1] as int - 0x80);
    Unpack(h1, e[2] as int - 0x80);
    Unpack(h1 * 0x40 + e[2] as int - 0x80, e[3] as int - 0x80);
  }

  lemma EncodeDecodedChar(b: seq<Byte>)
    requires b != [] && DecodeChunk(b).Some?
    ensures EncodeChar(DecodeChunk(b).value) == b[..ChunkLen(b)]
  {
    ReachFollows(b, 1);
    EncodeScalar(b[..ChunkLen(b)], DecodeChunk(b).value);
  }

  lemma DecodeStep(b: seq<Byte>) returns (c: char, head: seq<Byte>, tail: seq<Byte>)
    requires b != [] && Decode(b).Some?
    ensures b == head + tail && |tail| < |b| && EncodeChar(c) == head
    ensures Decode(tail).Some? && Decode(b).value == [c] + Decode(tail).value
    ensures Lossy(b) == [c] + Lossy(tail)
  {
    var n := ChunkLen(b);
    EncodeDecodedChar(b);
    c, head, tail := DecodeChunk(b).value, b[..n], b[n..];
  }

  /** Only the encoding of a text decodes strictly, and the lossy form then agrees. */
  lemma {:induction false} EncodeDecode(b: seq<Byte>)
    requires Decode(b).Some?
    ensures Encode(Decode(b).value) == b && Lossy(b) == Decode(b).value
    decreases |b|
  {
    if b != [] {
      var c, head, tail := DecodeStep(b);
      EncodeDecode(tail);
      EncodeCons(c, Decode(tail).value);
    }
  }

  // ---------- cutting ----------

  lemma {:induction false} ReachOfPrefix(b: seq<Byte>, k: nat, i: nat)
    requires b != [] && 1 <= i <= k <= |b| && i <= Announced(b[0])
    ensures Reach(b[..k], i) == Min(k, Reach(b, i))
    decreases 4 - i
  {
    if i < Announced(b[0]) && i < |b| && Follows(b[0], i, b[i]) && i < k {
      ReachOfPrefix(b, k, i + 1);
    }
  }

  lemma CutTail(b: seq<Byte>, n: nat, k: nat)
    requires n <= k <= |b|
    ensures b[..k][n..] == b[n..][..k - n]
  {
  }

  lemma ChunkOfPrefix(b: seq<Byte>, k: nat)
    requires 0 < k <= |b|
    ensures ChunkLen(b) <= k ==> ChunkLen(b[..k]) == ChunkLen(b) && DecodeChunk(b[..k]) == DecodeChunk(b)
    ensures k < ChunkLen(b) ==> ChunkLen(b[..k]) == k && DecodeChunk(b[..k]) == None
  {
    if Announced(b[0]) > 0 {
      ReachOfPrefix(b, k, 1);
    }
    if ChunkLen(b) <= k {
      assert b[..k][..ChunkLen(b)] == b[..ChunkLen(b)];
    }
  }

  /**
   Cutting the bytes anywhere cuts the lossy text somewhere, with at most one
   replacement character for the sequence the cut went through.
   */
  lemma {:induction false} LossyCut(b: seq<Byte>, k: nat) returns (kept: string, lost: string, tail: string)
    requires k <= |b|
    ensures Lossy(b) == kept + lost && Lossy(b[..k]) == kept + tail
    ensures tail == "" || tail == [REPLACEMENT]
    decreases |b|
  {
    kept, lost, tail := "", Lossy(b), "";
    if k > 0 {
      ChunkOfPrefix(b, k);
      var n := ChunkLen(b);
      if n <= k {
        CutTail(b, n, k);
        kept, lost, tail := LossyCut(b[n..], k - n);
        LossyStep(b, n);
        LossyStep(b[..k], n);
        kept := [Lossy(b)[0]] + kept;
      } else {
        LossyStep(b[..k], k);
        assert b[..k][k..] == [];
        tail := [REPLACEMENT];
      }
    }
  }

  lemma LossyStep(b: seq<Byte>, n: nat)
    requires b != [] && n == ChunkLen(b)
    ensures Lossy(b) == [if DecodeChunk(b).Some? then DecodeChunk(b).value else REPLACEMENT] + Lossy(b[n..])
  {
  }

  // ---------- boundaries ----------

  /** `str::is_char_boundary` */
  predicate Boundary(b: seq<Byte>, i: nat) {
    i == 0 || i == |b| || (i < |b| && !Continuation(b[i]))
  }

  /** Inside encoded text the boundaries are exactly the ends of encoded prefixes. */
  lemma {:induction false} BoundaryIsPrefix(s: string, i: nat)
    requires i <= |Encode(s)|
    ensures Boundary(Encode(s), i) <==> exists m :: 0 <= m <= |s| && |Encode(s[..m])| == i
  {
    if s == "" {
      assert |Encode(s[..0])| == i;
    } else {
      var e, rest := EncodeChar(s[0]), Encode(s[1..]);
      if i == 0 {
        assert |Encode(s[..0])| == 0;
      } else if i < |e| {
        assert Encode(s)[i] == e[i] && Continuation(e[i]);
        forall m | 0 <= m <= |s|
          ensures |Encode(s[..m])| != i
        {
          if m > 0 {
            assert s[..m][0] == s[0];
            assert |Encode(s[..m])| >= |e|;
          }
        }
      } else {
        BoundaryIsPrefix(s[1..], i - |e|);
        assert i < |Encode(s)| ==> Encode(s)[i] == rest[i - |e|];
        if i == |e| && s[1..] != "" {
          assert rest[0] == EncodeChar(s[1])[0];
        }
        assert Boundary(Encode(s), i) <==> Boundary(rest, i - |e|);
        if Boundary(rest, i - |e|) {
          var m :| 0 <= m <= |s[1..]| && |Encode(s[1..][..m])| == i - |e|;
          assert s[..m + 1][1..] == s[1..][..m];
          assert |Encode(s[..m + 1])| == i;
        }
        if m :| 0 <= m <= |s| && |Encode(s[..m])| == i {
          assert m > 0;
          assert s[..m][1..] == s[1..][..m - 1];
          assert |Encode(s[1..][..m - 1])| == i - |e|;
        }
      }
    }
  }
}
