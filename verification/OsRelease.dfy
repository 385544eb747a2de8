/**
 The os-release path: a hexadecimal dump is decoded to bytes, the bytes to
 UTF-8 text, and the text to the value of its last PRETTY_NAME assignment.
 */
module OsRelease {
  import opened Basics
  import opened Text
  import opened Utf8

  const LIMIT := 16 * 1024

  const INVALID_HEX := "os-release collector returned invalid hex"
  const OVER_LIMIT := "os-release exceeded the 16384-byte collection limit"
  const INCOMPLETE_HEX := "os-release collector returned incomplete hex"
  const NOT_UTF8 := "os-release is not valid UTF-8"

  // ---------- hexadecimal ----------

  predicate IsAsciiWhitespace(c: char) {
    c == ' ' || c == '\t' || c == '\n' || c == '\r' || c as int == 12
  }

  function Nibble(c: char): (n: Option<Byte>)
    ensures n.Some? ==> n.value < 16
  {
    if '0' <= c <= '9' then Some(c as int - '0' as int)
    else if 'a' <= c <= 'f' then Some(c as int - 'a' as int + 10)
    else if 'A' <= c <= 'F' then Some(c as int - 'A' as int + 10)
    else None
  }

  /** The text without its white space. */
  function Squeeze(s: string): string {
    if s == "" then "" else (if IsAsciiWhitespace(s[0]) then "" else [s[0]]) + Squeeze(s[1..])
  }

  lemma {:induction false} SqueezeConcat(a: string, b: string)
    ensures Squeeze(a + b) == Squeeze(a) + Squeeze(b)
  {
    if a == "" {
      assert a + b == b;
    } else {
      assert (a + b)[1..] == a[1..] + b;
      SqueezeConcat(a[1..], b);
    }
  }

  predicate AllHex(q: string) {
    forall i :: 0 <= i < |q| ==> Nibble(q[i]).Some?
  }

  function ByteOf(high: Byte, low: Byte): (b: Byte)
    requires high < 16 && low < 16
    ensures HighNibble(b) == high && LowNibble(b) == low
  {
    16 * (high as int) + low as int
  }

  function HighNibble(b: Byte): Byte { b / 16 }

  function LowNibble(b: Byte): Byte { b % 16 }

  /** The text spells the bytes: two digits of either case per byte, white space anywhere. */
  ghost predicate Spells(s: string, bytes: seq<Byte>) {
    var q := Squeeze(s);
    && |q| == 2 * |bytes|
    && (forall i {:trigger bytes[i]} :: 0 <= i < |bytes| ==>
         Nibble(q[2 * i]) == Some(HighNibble(bytes[i])) && Nibble(q[2 * i + 1]) == Some(LowNibble(bytes[i])))
  }

  /** Bytes of an even number of digits. */
  function Pairs(q: string): seq<Byte>
    requires AllHex(q) && |q| % 2 == 0
  {
    if q == "" then []
    else
      var n := |q| - 2;
      Pairs(q[..n]) + [ByteOf(Nibble(q[n]).value, Nibble(q[n + 1]).value)]
  }

  lemma {:induction false} PairsAt(q: string)
    requires AllHex(q) && |q| % 2 == 0
    ensures |Pairs(q)| == |q| / 2
    ensures forall i {:trigger Pairs(q)[i]} :: 0 <= i < |Pairs(q)| ==>
      Nibble(q[2 * i]) == Some(HighNibble(Pairs(q)[i])) && Nibble(q[2 * i + 1]) == Some(LowNibble(Pairs(q)[i]))
  {
    if q != "" {
      var n := |q| - 2;
      PairsAt(q[..n]);
      var p, p' := Pairs(q), Pairs(q[..n]);
      assert p == p' + [ByteOf(Nibble(q[n]).value, Nibble(q[n + 1]).value)];
      forall i | 0 <= i < |p|
        ensures Nibble(q[2 * i]) == Some(HighNibble(p[i])) && Nibble(q[2 * i + 1]) == Some(LowNibble(p[i]))
      {
        if i < |p'| {
          assert p[i] == p'[i];
        }
      }
    }
  }

  /**
   What the byte loop of the decoder yields. A digit that is none is seen before
   the limit is, if it stands no later than the digit that completes the byte
   over the limit; the odd digit is noticed last.
   */
  function HexBytes(s: string): Result<seq<Byte>, string> {
    var q := Squeeze(s);
    var window := q[..Min(|q|, 2 * LIMIT + 2)];
    if !AllHex(window) then Err(INVALID_HEX)
    else if |q| >= 2 * LIMIT + 2 then Err(OVER_LIMIT)
    else if |q| % 2 == 1 then Err(INCOMPLETE_HEX)
    else Ok(Pairs(q))
  }

  /** Decoding succeeds with some bytes exactly on the texts that spell them within the limit. */
  lemma HexBytesInverts(s: string, bytes: seq<Byte>)
    ensures HexBytes(s) == Ok(bytes) <==> Spells(s, bytes) && |bytes| <= LIMIT
  {
    var q := Squeeze(s);
    if HexBytes(s) == Ok(bytes) {
      assert q[..|q|] == q;
      PairsAt(q);
    }
    if Spells(s, bytes) && |bytes| <= LIMIT {
      SpelledIsHex(s, bytes);
      assert q[..|q|] == q;
      PairsAt(q);
      var p := Pairs(q);
      forall i | 0 <= i < |bytes|
        ensures p[i] == bytes[i]
      {
        assert Nibble(q[2 * i]) == Some(HighNibble(p[i])) && Nibble(q[2 * i + 1]) == Some(LowNibble(p[i]));
        assert HighNibble(p[i]) == HighNibble(bytes[i]) && LowNibble(p[i]) == LowNibble(bytes[i]);
      }
      assert p == bytes;
    }
  }

  lemma SpelledIsHex(s: string, bytes: seq<Byte>)
    requires Spells(s, bytes)
    ensures AllHex(Squeeze(s))
  {
    var q := Squeeze(s);
    forall i | 0 <= i < |q|
      ensures Nibble(q[i]).Some?
    {
      var k := i / 2;
      var b := bytes[k];
      assert Nibble(q[2 * k]) == Some(HighNibble(b)) && Nibble(q[2 * k + 1]) == Some(LowNibble(b));
    }
  }

  /** After the digits `q`: whole bytes in `bytes`, an odd digit in `high`. */
  ghost predicate Scanned(q: string, high: Option<Byte>, bytes: seq<Byte>) {
    && AllHex(q) && |q| < 2 * LIMIT + 2
    && (if |q| % 2 == 0 then high == None && bytes == Pairs(q)
        else high == Nibble(q[|q| - 1]) && bytes == Pairs(q[..|q| - 1]))
  }

  lemma ScanDigit(q: string, high: Option<Byte>, bytes: seq<Byte>, c: char)
    requires Scanned(q, high, bytes) && Nibble(c).Some?
    ensures AllHex(q + [c]) && |bytes| == |q| / 2
    ensures high == None ==> Scanned(q + [c], Nibble(c), bytes)
    ensures high.Some? && |q| + 1 < 2 * LIMIT + 2 ==>
      Scanned(q + [c], None, bytes + [ByteOf(high.value, Nibble(c).value)])
  {
    PairsAt(if high == None then q else q[..|q| - 1]);
    var q' := q + [c];
    if high == None {
      assert q'[..|q'| - 1] == q;
    } else {
      assert q'[..|q'| - 2] == q[..|q| - 1];
    }
  }

  /** The first offending digit or byte decides the error. */
  lemma ScanStops(s: string, q: string, c: char, rest: string)
    requires Squeeze(s) == q + [c] + rest && AllHex(q) && |q| < 2 * LIMIT + 2
    ensures Nibble(c) == None ==> HexBytes(s) == Err(INVALID_HEX)
    ensures Nibble(c).Some? && |q| + 1 == 2 * LIMIT + 2 ==> HexBytes(s) == Err(OVER_LIMIT)
  {
    var window := Squeeze(s)[..Min(|Squeeze(s)|, 2 * LIMIT + 2)];
    assert window[|q|] == c;
    if Nibble(c).Some? && |q| + 1 == 2 * LIMIT + 2 {
      assert window == q + [c];
    }
  }

  lemma ScanEnds(s: string, high: Option<Byte>, bytes: seq<Byte>)
    requires Scanned(Squeeze(s), high, bytes)
    ensures HexBytes(s) == if high.Some? then Err(INCOMPLETE_HEX) else Ok(bytes)
  {
    var q := Squeeze(s);
    assert q[..|q|] == q;
  }

  /** `q` are the digits before position `i`. */
  ghost predicate Behind(s: string, i: nat, q: string) {
    i <= |s| && Squeeze(s) == q + Squeeze(s[i..])
  }

  lemma BehindNext(s: string, i: nat, q: string) returns (rest: string)
    requires i < |s| && Behind(s, i, q)
    ensures Behind(s, i + 1, if IsAsciiWhitespace(s[i]) then q else q + [s[i]])
    ensures !IsAsciiWhitespace(s[i]) ==> Squeeze(s) == q + [s[i]] + rest
  {
    rest := Squeeze(s[i + 1..]);
    SqueezeFirst(s[i..], s[i + 1..]);
    if !IsAsciiWhitespace(s[i]) {
      AppendAssoc(q, [s[i]], rest);
    }
  }

  lemma BehindAll(s: string, q: string)
    requires Behind(s, |s|, q)
    ensures Squeeze(s) == q
  {
    assert s[|s|..] == "" && q + "" == q;
  }

  lemma BehindNone(s: string)
    ensures Behind(s, 0, "")
  {
    assert s[0..] == s && "" + Squeeze(s) == Squeeze(s);
  }

  method DecodeHex(encoded: string) returns (r: Result<seq<Byte>, string>)
    ensures r == HexBytes(encoded)
  {
    var bytes: seq<Byte> := [];
    var high: Option<Byte> := None;
    ghost var q := "";
    BehindNone(encoded);
    for i := 0 to |encoded|
      invariant Behind(encoded, i, q) && Scanned(q, high, bytes)
    {
      var c := encoded[i];
      ghost var rest := BehindNext(encoded, i, q);
      if !IsAsciiWhitespace(c) {
        var nibble := Nibble(c);
        ScanStops(encoded, q, c, rest);
        if nibble == None {
          return Err(INVALID_HEX);
        }
        ScanDigit(q, high, bytes, c);
        q := q + [c];
        if high.Some? {
          bytes := bytes + [ByteOf(high.value, nibble.value)];
          high := None;
          if |bytes| > LIMIT {
            return Err(OVER_LIMIT);
          }
        } else {
          high := nibble;
        }
      }
    }
    BehindAll(encoded, q);
    ScanEnds(encoded, high, bytes);
    if high.Some? {
      return Err(INCOMPLETE_HEX);
    }
    return Ok(bytes);
  }

  lemma SqueezeFirst(s: string, rest: string)
    requires s != "" && rest == s[1..]
    ensures Squeeze(s) == if IsAsciiWhitespace(s[0]) then Squeeze(rest) else [s[0]] + Squeeze(rest)
  {
  }

  // ---------- the quoted value ----------

  /** The characters a backslash escapes between double quotes. */
  predicate EscapedInDoubleQuotes(c: char) {
    c == '$' || c == '`' || c == '"' || c == '\\'
  }

  predicate BareForbidden(c: char) {
    IsWhitespace(c) || c in "\"'$`;&|()<>"
  }

  function Prepend(s: string, rest: Option<string>): Option<string> {
    if rest.Some? then Some(s + rest.value) else None
  }

  function NonEmpty(s: Option<string>): Option<string> {
    if s == Some("") then None else s
  }

  /** The text between double quotes: a lone quote or a final backslash is malformed. */
  function UnquoteDouble(s: string): Option<string> {
    if s == "" then Some("")
    else if s[0] == '"' then None
    else if s[0] == '\\' then
      if |s| == 1 then None
      else Prepend(if EscapedInDoubleQuotes(s[1]) then [s[1]] else ['\\', s[1]], UnquoteDouble(s[2..]))
    else Prepend([s[0]], UnquoteDouble(s[1..]))
  }

  /** An unquoted word: a backslash takes the next character as it is. */
  function UnquoteBare(s: string): Option<string> {
    if s == "" then Some("")
    else if s[0] == '\\' then if |s| == 1 then None else Prepend([s[1]], UnquoteBare(s[2..]))
    else if BareForbidden(s[0]) then None
    else Prepend([s[0]], UnquoteBare(s[1..]))
  }

  predicate IsQuote(c: char) {
    c == '"' || c == '\''
  }

  function Inner(s: string, quote: char): Option<string> {
    if |s| >= 2 && s[0] == quote && s[|s| - 1] == quote then Some(s[1..|s| - 1]) else None
  }

  function Value(s: string): Option<string> {
    if s == "" then None
    else if Inner(s, '"').Some? then NonEmpty(UnquoteDouble(Inner(s, '"').value))
    else if Inner(s, '\'').Some? then
      var inner := Inner(s, '\'').value;
      if inner != "" && '\'' !in inner then Some(inner) else None
    else if IsQuote(s[0]) || IsQuote(s[|s| - 1]) then None
    else NonEmpty(UnquoteBare(s))
  }

  method ParseValue(value: string) returns (r: Option<string>)
    ensures r == Value(value)
  {
    if value == "" {
      return None;
    }
    var double := Inner(value, '"');
    if double.Some? {
      var inner := double.value;
      var parsed, i := "", 0;
      assert inner[0..] == inner;
      PrependNothing(UnquoteDouble(inner));
      while i < |inner|
        invariant 0 <= i <= |inner|
        invariant UnquoteDouble(inner) == Prepend(parsed, UnquoteDouble(inner[i..]))
      {
        var c := inner[i];
        if c == '"' {
          return None;
        } else if c == '\\' {
          if i + 1 == |inner| {
            return None;
          }
          var escaped := inner[i + 1];
          assert inner[i..][2..] == inner[i + 2..];
          var kept := if EscapedInDoubleQuotes(escaped) then [escaped] else ['\\', escaped];
          PrependTwice(parsed, kept, UnquoteDouble(inner[i + 2..]));
          parsed := parsed + kept;
          i := i + 2;
        } else {
          assert inner[i..][1..] == inner[i + 1..];
          PrependTwice(parsed, [c], UnquoteDouble(inner[i + 1..]));
          parsed := parsed + [c];
          i := i + 1;
        }
      }
      assert inner[i..] == "" && parsed + "" == parsed;
      assert UnquoteDouble(inner) == Some(parsed);
      return if parsed == "" then None else Some(parsed);
    }
    var single := Inner(value, '\'');
    if single.Some? {
      return if single.value != "" && '\'' !in single.value then Some(single.value) else None;
    }
    if IsQuote(value[0]) || IsQuote(value[|value| - 1]) {
      return None;
    }
    var parsed, i := "", 0;
    assert value[0..] == value;
    PrependNothing(UnquoteBare(value));
    while i < |value|
      invariant 0 <= i <= |value|
      invariant UnquoteBare(value) == Prepend(parsed, UnquoteBare(value[i..]))
    {
      var c := value[i];
      if c == '\\' {
        if i + 1 == |value| {
          return None;
        }
        assert value[i..][2..] == value[i + 2..];
        PrependTwice(parsed, [value[i + 1]], UnquoteBare(value[i + 2..]));
        parsed := parsed + [value[i + 1]];
        i := i + 2;
      } else if BareForbidden(c) {
        return None;
      } else {
        assert value[i..][1..] == value[i + 1..];
        PrependTwice(parsed, [c], UnquoteBare(value[i + 1..]));
        parsed := parsed + [c];
        i := i + 1;
      }
    }
    assert value[i..] == "" && parsed + "" == parsed;
    assert UnquoteBare(value) == Some(parsed);
    return if parsed == "" then None else Some(parsed);
  }

  lemma PrependNothing(rest: Option<string>)
    ensures Prepend("", rest) == rest
  {
    if rest.Some? {
      assert "" + rest.value == rest.value;
    }
  }

  lemma PrependTwice(a: string, b: string, rest: Option<string>)
    ensures Prepend(a, Prepend(b, rest)) == Prepend(a + b, rest)
  {
    if rest.Some? {
      assert a + (b + rest.value) == a + b + rest.value;
    }
  }

  // ---------- values by positions ----------

  /** How many backslashes stand directly before position `i`. */
  function Backslashes(s: string, i: nat): nat
    requires i <= |s|
  {
    if i > 0 && s[i - 1] == '\\' then 1 + Backslashes(s, i - 1) else 0
  }

  /** An odd number of backslashes before it makes a character escaped. */
  predicate EscapedAt(s: string, i: nat)
    requires i <= |s|
  {
    Backslashes(s, i) % 2 == 1
  }

  /** An unquoted word is well formed: what is forbidden is escaped, and no backslash is left alone at the end. */
  predicate BareFrom(s: string, k: nat)
    requires k <= |s|
  {
    !EscapedAt(s, |s|) && forall i :: k <= i < |s| && BareForbidden(s[i]) ==> EscapedAt(s, i)
  }

  /** Text between double quotes is well formed: a double quote is escaped, and no backslash is left alone at the end. */
  predicate DoubleFrom(s: string, k: nat)
    requires k <= |s|
  {
    !EscapedAt(s, |s|) && forall i :: k <= i < |s| && s[i] == '"' ==> EscapedAt(s, i)
  }

  /** What is left of a word from `k` on: all of it but the backslashes that are not escaped themselves. */
  function BareText(s: string, k: nat): string
    requires k <= |s|
    decreases |s| - k
  {
    if k == |s| then ""
    else (if s[k] == '\\' && !EscapedAt(s, k) then "" else [s[k]]) + BareText(s, k + 1)
  }

  /** Between double quotes such a backslash goes only in front of a character that needs it. */
  function DoubleText(s: string, k: nat): string
    requires k <= |s|
    decreases |s| - k
  {
    if k == |s| then ""
    else
      var dropped := s[k] == '\\' && !EscapedAt(s, k) && k + 1 < |s| && EscapedInDoubleQuotes(s[k + 1]);
      (if dropped then "" else [s[k]]) + DoubleText(s, k + 1)
  }

  /** A backslash that is not escaped, with what it escapes, is passed together. */
  lemma PairPasses(s: string, k: nat)
    requires k + 1 < |s| && s[k] == '\\' && !EscapedAt(s, k)
    ensures EscapedAt(s, k + 1) && !EscapedAt(s, k + 2)
    ensures BareFrom(s, k) <==> BareFrom(s, k + 2)
    ensures DoubleFrom(s, k) <==> DoubleFrom(s, k + 2)
  {
    assert !BareForbidden(s[k]);
  }

  lemma BarePair(s: string, k: nat)
    requires k + 1 < |s| && s[k] == '\\' && !EscapedAt(s, k)
    ensures BareText(s, k) == [s[k + 1]] + BareText(s, k + 2)
  {
    PairPasses(s, k);
    assert BareText(s, k + 1) == [s[k + 1]] + BareText(s, k + 2);
  }

  lemma DoublePair(s: string, k: nat)
    requires k + 1 < |s| && s[k] == '\\' && !EscapedAt(s, k)
    ensures DoubleText(s, k)
         == (if EscapedInDoubleQuotes(s[k + 1]) then [s[k + 1]] else ['\\', s[k + 1]]) + DoubleText(s, k + 2)
  {
    PairPasses(s, k);
    var rest := DoubleText(s, k + 2);
    assert DoubleText(s, k + 1) == [s[k + 1]] + rest;
    assert ['\\'] + ([s[k + 1]] + rest) == ['\\', s[k + 1]] + rest;
  }

  lemma {:induction false} UnquoteBareAt(s: string, k: nat)
    requires k <= |s| && !EscapedAt(s, k)
    ensures UnquoteBare(s[k..]) == if BareFrom(s, k) then Some(BareText(s, k)) else None
    decreases |s| - k
  {
    if k < |s| {
      if s[k] != '\\' {
        assert s[k..][1..] == s[k + 1..];
        UnquoteBareAt(s, k + 1);
      } else if k + 1 == |s| {
        assert EscapedAt(s, |s|);
      } else {
        assert s[k..][2..] == s[k + 2..];
        PairPasses(s, k);
        BarePair(s, k);
        UnquoteBareAt(s, k + 2);
      }
    }
  }

  lemma {:induction false} UnquoteDoubleAt(s: string, k: nat)
    requires k <= |s| && !EscapedAt(s, k)
    ensures UnquoteDouble(s[k..]) == if DoubleFrom(s, k) then Some(DoubleText(s, k)) else None
    decreases |s| - k
  {
    if k < |s| {
      if s[k] != '\\' {
        assert s[k..][1..] == s[k + 1..];
        UnquoteDoubleAt(s, k + 1);
      } else if k + 1 == |s| {
        assert EscapedAt(s, |s|);
      } else {
        assert s[k..][2..] == s[k + 2..];
        PairPasses(s, k);
        DoublePair(s, k);
        UnquoteDoubleAt(s, k + 2);
      }
    }
  }

  /** Without enclosing quotes: when there is a value, by positions, and which. */
  lemma BareValueByPositions(s: string)
    requires Inner(s, '"').None? && Inner(s, '\'').None?
    ensures Value(s).Some? <==> s != "" && !IsQuote(s[0]) && !IsQuote(s[|s| - 1]) && BareFrom(s, 0)
    ensures Value(s).Some? ==> Value(s).value == BareText(s, 0) != ""
  {
    if s != "" {
      UnquoteBareAt(s, 0);
      assert s[0..] == s;
      if BareFrom(s, 0) {
        BareTextNotEmpty(s);
      }
    }
  }

  lemma BareTextNotEmpty(s: string)
    requires s != "" && BareFrom(s, 0)
    ensures BareText(s, 0) != ""
  {
    if s[0] == '\\' {
      assert EscapedAt(s, 1);
      BarePair(s, 0);
    }
  }

  /** In double quotes: when there is a value, by positions of the text between them, and which. */
  lemma DoubleValueByPositions(inner: string)
    ensures var r := Value("\"" + inner + "\"");
      && (r.Some? <==> inner != "" && DoubleFrom(inner, 0))
      && (r.Some? ==> r.value == DoubleText(inner, 0))
  {
    var s := "\"" + inner + "\"";
    assert s[1..|s| - 1] == inner;
    UnquoteDoubleAt(inner, 0);
    assert inner[0..] == inner;
    if inner != "" && DoubleFrom(inner, 0) {
      DoubleTextNotEmpty(inner);
    }
  }

  lemma DoubleTextNotEmpty(s: string)
    requires s != "" && DoubleFrom(s, 0)
    ensures DoubleText(s, 0) != ""
  {
    if s[0] == '\\' {
      assert EscapedAt(s, 1);
      DoublePair(s, 0);
    }
  }

  /** Inside a bare word: white space and the shell's own characters give no value, any other character stays. */
  lemma BareCharacters(c: char)
    requires c != '\\'
    ensures Value(['a', c, 'a']) == if IsWhitespace(c) || c in "\"'$`;&|()<>" then None else Some(['a', c, 'a'])
  {
    var s := ['a', c, 'a'];
    assert s[1..] == [c, 'a'] && [c, 'a'][1..] == ['a'] && ['a'][1..] == "";
    assert UnquoteBare(['a']) == Prepend(['a'], UnquoteBare("")) == Some(['a'] + "");
    assert ['a'] + "" == ['a'];
    assert UnquoteBare([c, 'a']) == if BareForbidden(c) then None else Prepend([c], UnquoteBare(['a']));
    assert UnquoteBare(s) == Prepend(['a'], UnquoteBare([c, 'a']));
    assert ['a'] + ([c] + ['a']) == s;
  }

  /** Between double quotes a backslash escapes four characters and stays in front of any other. */
  lemma DoubleCharacters(c: char)
    ensures Value(['"', '\\', c, '"']) == Some(if c in "$`\"\\" then [c] else ['\\', c])
  {
    var s, inner := ['"', '\\', c, '"'], ['\\', c];
    assert s[1..|s| - 1] == inner && inner[2..] == "";
    var kept := if EscapedInDoubleQuotes(c) then [c] else ['\\', c];
    assert UnquoteDouble(inner) == Prepend(kept, UnquoteDouble("")) == Some(kept + "");
    assert kept + "" == kept;
  }

  // ---------- quoting, the inverse ----------

  /** Escaping for double quotes, section 2.2.3 of the POSIX Shell Command Language. */
  function EscapeDouble(v: string): string {
    if v == "" then ""
    else (if EscapedInDoubleQuotes(v[0]) then ['\\', v[0]] else [v[0]]) + EscapeDouble(v[1..])
  }

  function QuoteDouble(v: string): string {
    "\"" + EscapeDouble(v) + "\""
  }

  lemma {:induction false} UnquoteEscape(v: string)
    ensures UnquoteDouble(EscapeDouble(v)) == Some(v)
  {
    if v != "" {
      UnquoteEscape(v[1..]);
      var e := EscapeDouble(v);
      if EscapedInDoubleQuotes(v[0]) {
        assert e[2..] == EscapeDouble(v[1..]);
      } else {
        assert e[1..] == EscapeDouble(v[1..]);
      }
      assert v == [v[0]] + v[1..];
    }
  }

  /** A double-quoted value parses back to itself, unless it is empty. */
  lemma QuotedValueRoundTrip(v: string)
    ensures Value(QuoteDouble(v)) == if v == "" then None else Some(v)
  {
    UnquoteEscape(v);
    assert QuoteDouble(v)[1..|QuoteDouble(v)| - 1] == EscapeDouble(v);
  }

  /** Escaping outside quotes: a backslash in front of every character that a bare word may not hold. */
  function EscapeBare(v: string): string {
    if v == "" then ""
    else (if v[0] == '\\' || BareForbidden(v[0]) then ['\\', v[0]] else [v[0]]) + EscapeBare(v[1..])
  }

  lemma {:induction false} UnquoteBareEscape(v: string)
    ensures UnquoteBare(EscapeBare(v)) == Some(v)
    ensures v != "" ==> EscapeBare(v) != "" && EscapeBare(v)[|EscapeBare(v)| - 1] == v[|v| - 1]
    ensures v != "" ==> !IsQuote(EscapeBare(v)[0])
  {
    if v != "" {
      UnquoteBareEscape(v[1..]);
      var e := EscapeBare(v);
      if v[0] == '\\' || BareForbidden(v[0]) {
        assert e[2..] == EscapeBare(v[1..]);
      } else {
        assert e[1..] == EscapeBare(v[1..]);
      }
      assert v == [v[0]] + v[1..];
    }
  }

  /** An escaped bare value parses back to itself, unless it is empty or ends in a quote. */
  lemma BareValueRoundTrip(v: string)
    ensures Value(EscapeBare(v)) == if v == "" || IsQuote(v[|v| - 1]) then None else Some(v)
  {
    UnquoteBareEscape(v);
  }

  predicate Bare(s: string) {
    Inner(s, '"').None? && Inner(s, '\'').None?
  }

  lemma {:induction false} BareEndsAlike(s: string, v: string)
    requires UnquoteBare(s) == Some(v) && s != ""
    ensures v != "" && v[|v| - 1] == s[|s| - 1]
  {
    var n := if s[0] == '\\' then 2 else 1;
    if s[n..] != "" {
      BareEndsAlike(s[n..], UnquoteBare(s[n..]).value);
    }
  }

  ghost predicate BareFor(s: string, v: string) {
    Bare(s) && Value(s) == Some(v)
  }

  /** The values that some bare word can give: those that are not empty and do not end in a quote. */
  lemma BareValues(v: string)
    ensures (exists s :: BareFor(s, v)) <==> v != "" && !IsQuote(v[|v| - 1])
  {
    if s :| BareFor(s, v) {
      BareEndsAlike(s, v);
    }
    if v != "" && !IsQuote(v[|v| - 1]) {
      UnquoteBareEscape(v);
      assert BareFor(EscapeBare(v), v);
    }
  }

  /** Single quotes hold any text but the empty one and one with a single quote. */
  lemma SingleQuotedValue(v: string)
    ensures Value("'" + v + "'") == if v == "" || '\'' in v then None else Some(v)
  {
    var s := "'" + v + "'";
    assert s[1..|s| - 1] == v;
  }

  lemma {:induction false} EscapeKeepsLineFeeds(v: string)
    requires '\n' !in v
    ensures '\n' !in EscapeDouble(v)
  {
    if v != "" {
      EscapeKeepsLineFeeds(v[1..]);
    }
  }

  // ---------- the file ----------

  const KEY := "PRETTY_NAME="

  /** The assignment that decides is the last one, even when its value is malformed. */
  function PrettyName(lines: seq<string>): Option<string> {
    if lines == [] then None
    else
      var last := StripPrefix(lines[|lines| - 1], KEY);
      if last.Some? then Value(last.value) else PrettyName(lines[..|lines| - 1])
  }

  method ParseOsRelease(contents: string) returns (prettyName: Option<string>)
    ensures prettyName == PrettyName(Lines(contents))
  {
    var lines := Lines(contents);
    prettyName := None;
    for i := 0 to |lines|
      invariant prettyName == PrettyName(lines[..i])
    {
      assert lines[..i + 1][..i] == lines[..i];
      var value := StripPrefix(lines[i], KEY);
      if value.Some? {
        prettyName := ParseValue(value.value);
      }
    }
    assert lines[..|lines|] == lines;
  }

  /** Independent of everything before it, the last assignment gives the name. */
  lemma {:induction false} LastAssignmentDecides(before: seq<string>, line: string, after: seq<string>)
    requires StartsWith(line, KEY)
    requires forall i :: 0 <= i < |after| ==> !StartsWith(after[i], KEY)
    ensures PrettyName(before + [line] + after) == Value(line[|KEY|..])
  {
    var all := before + [line] + after;
    if after == [] {
      assert all[|all| - 1] == line;
    } else {
      assert all[..|all| - 1] == before + [line] + after[..|after| - 1];
      assert all[|all| - 1] == after[|after| - 1];
      LastAssignmentDecides(before, line, after[..|after| - 1]);
    }
  }

  /** `parse_os_release_hex` */
  function OsName(encoded: string): Result<Option<string>, string> {
    match HexBytes(encoded)
    case Err(e) => Err(e)
    case Ok(bytes) =>
      var text := Decode(bytes);
      if text == None then Err(NOT_UTF8) else Ok(PrettyName(Lines(text.value)))
  }

  method ParseOsReleaseHex(encoded: string) returns (r: Result<Option<string>, string>)
    ensures r == OsName(encoded)
  {
    var bytes := DecodeHex(encoded);
    if bytes.Err? {
      return Err(bytes.error);
    }
    var text := Decode(bytes.value);
    if text == None {
      return Err(NOT_UTF8);
    }
    var name := ParseOsRelease(text.value);
    return Ok(name);
  }

  function NameLine(name: string): (line: string)
    requires '\n' !in name
    ensures StartsWith(line, KEY) && line[|KEY|..] == QuoteDouble(name)
    ensures '\n' !in line && StripOneCarriageReturn(line) == line
  {
    EscapeKeepsLineFeeds(name);
    KEY + QuoteDouble(name)
  }

  /** An assignment of a double-quoted name between other lines. */
  function NamedFile(before: string, name: string, after: string): string
    requires '\n' !in name
  {
    before + (NameLine(name) + "\n" + after)
  }

  /**
   The whole path back: a text with a double-quoted name in its last assignment,
   dumped in hexadecimal with any spacing, yields the name.
   */
  lemma OsNameRoundTrip(encoded: string, before: string, name: string, after: string)
    requires name != "" && '\n' !in name && Terminated(before)
    requires forall line :: line in Lines(after) ==> !StartsWith(line, KEY)
    requires var text := NamedFile(before, name, after);
      Spells(encoded, Encode(text)) && |Encode(text)| <= LIMIT
    ensures OsName(encoded) == Ok(Some(name))
  {
    var text := NamedFile(before, name, after);
    HexBytesInverts(encoded, Encode(text));
    DecodeEncode(text);
    var line := NameLine(name);
    LinesAround(before, line, after);
    LastAssignmentDecides(Lines(before), line, Lines(after));
    QuotedValueRoundTrip(name);
  }

  /** What is odd, over the limit, not hexadecimal or not UTF-8 is rejected; all else is accepted. */
  lemma OsNameRejects(encoded: string)
    ensures OsName(encoded).Err? <==>
      forall bytes :: Spells(encoded, bytes) && |bytes| <= LIMIT ==> Decode(bytes) == None
  {
    if HexBytes(encoded).Ok? {
      HexBytesInverts(encoded, HexBytes(encoded).value);
    }
    forall bytes | Spells(encoded, bytes) && |bytes| <= LIMIT
      ensures HexBytes(encoded) == Ok(bytes)
    {
      HexBytesInverts(encoded, bytes);
    }
  }

  // ---------- od ----------

  function DumpUnit(b: Byte, endOfLine: bool): string {
    [' ', HexDigit(HighNibble(b) as int), HexDigit(LowNibble(b) as int)] + if endOfLine then "\n" else ""
  }

  /** `od -A n -t x1 -v`: sixteen bytes a line, each behind a space. */
  function Dump(bytes: seq<Byte>): string {
    if bytes == [] then ""
    else
      var n := |bytes| - 1;
      Dump(bytes[..n]) + DumpUnit(bytes[n], |bytes| % 16 == 0)
  }

  /** The dump spells what it dumps. */
  lemma {:induction false} DumpSpells(bytes: seq<Byte>)
    ensures Spells(Dump(bytes), bytes)
  {
    if bytes != [] {
      var n := |bytes| - 1;
      DumpSpells(bytes[..n]);
      DumpStep(bytes);
      var p, q := Squeeze(Dump(bytes[..n])), Squeeze(Dump(bytes));
      forall i | 0 <= i < |bytes|
        ensures Nibble(q[2 * i]) == Some(HighNibble(bytes[i])) && Nibble(q[2 * i + 1]) == Some(LowNibble(bytes[i]))
      {
        if i < n {
          assert bytes[..n][i] == bytes[i];
          assert q[2 * i] == p[2 * i] && q[2 * i + 1] == p[2 * i + 1];
        }
      }
    }
  }

  lemma DumpStep(bytes: seq<Byte>)
    requires bytes != []
    ensures var n := |bytes| - 1;
      Squeeze(Dump(bytes)) == Squeeze(Dump(bytes[..n])) + [HexDigit(HighNibble(bytes[n])), HexDigit(LowNibble(bytes[n]))]
  {
    var n := |bytes| - 1;
    SqueezeConcat(Dump(bytes[..n]), DumpUnit(bytes[n], |bytes| % 16 == 0));
    SqueezeUnit(bytes[n], |bytes| % 16 == 0);
  }

  lemma SqueezePair(h: char, l: char, end: string)
    requires !IsAsciiWhitespace(h) && !IsAsciiWhitespace(l) && Squeeze(end) == ""
    ensures Squeeze([' '] + ([h] + ([l] + end))) == [h, l]
  {
    SqueezeFirst([l] + end, end);
    SqueezeFirst([h] + ([l] + end), [l] + end);
    SqueezeFirst([' '] + ([h] + ([l] + end)), [h] + ([l] + end));
  }

  lemma SqueezeUnit(b: Byte, endOfLine: bool)
    ensures Squeeze(DumpUnit(b, endOfLine)) == [HexDigit(HighNibble(b) as int), HexDigit(LowNibble(b) as int)]
  {
    var h, l := HexDigit(HighNibble(b) as int), HexDigit(LowNibble(b) as int);
    var end := if endOfLine then "\n" else "";
    if endOfLine {
      SqueezeFirst(end, "");
    }
    SqueezePair(h, l, end);
    assert DumpUnit(b, endOfLine) == [' '] + ([h] + ([l] + end));
  }
}
