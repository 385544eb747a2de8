/** Optional values and failures, shared by every module. */
module Basics {
  datatype Option<+T> = None | Some(value: T)

  datatype Result<+T, +E> = Ok(value: T) | Err(error: E)

  function Min(a: int, b: int): int {
    if a < b then a else b
  }

  function Max(a: int, b: int): int {
    if a < b then b else a
  }
}

/**
 The string operations the scanner takes from Rust's standard library. A Dafny
 `char` is a Unicode scalar value, as Rust's is.
 */
module Text {
  import opened Basics

  // ---------- prefixes and suffixes ----------

  predicate StartsWith(s: string, prefix: string) {
    prefix <= s
  }

  predicate EndsWith(s: string, suffix: string) {
    |suffix| <= |s| && s[|s| - |suffix|..] == suffix
  }

  function StripPrefix(s: string, prefix: string): Option<string> {
    if StartsWith(s, prefix) then Some(s[|prefix|..]) else None
  }

  function StripSuffix(s: string, suffix: string): Option<string> {
    if EndsWith(s, suffix) then Some(s[..|s| - |suffix|]) else None
  }

  ghost predicate PartAt(s: string, i: int, part: string) {
    0 <= i <= |s| - |part| && s[i..i + |part|] == part
  }

  ghost predicate Contains(s: string, part: string) {
    exists i :: PartAt(s, i, part)
  }

  /** A part of a part is a part. */
  lemma ContainsTrans(s: string, mid: string, part: string)
    requires Contains(s, mid) && Contains(mid, part)
    ensures Contains(s, part)
  {
    var i :| PartAt(s, i, mid);
    var j :| PartAt(mid, j, part);
    forall k | 0 <= k < |part|
      ensures s[i + j..i + j + |part|][k] == part[k]
    {
      assert s[i..i + |mid|][j + k] == mid[j + k];
      assert mid[j..j + |part|][k] == part[k];
    }
    assert PartAt(s, i + j, part);
  }

  // ---------- trimming ----------

  /** Unicode White_Space, the set `char::is_whitespace` accepts. */
  predicate IsWhitespace(c: char) {
    var n := c as int;
    9 <= n <= 13 || n == 0x20 || n == 0x85 || n == 0xA0 || n == 0x1680
    || 0x2000 <= n <= 0x200A || n == 0x2028 || n == 0x2029 || n == 0x202F || n == 0x205F || n == 0x3000
  }

  predicate Blank(s: string) {
    forall i :: 0 <= i < |s| ==> IsWhitespace(s[i])
  }

  function TrimStart(s: string): string {
    if s != "" && IsWhitespace(s[0]) then TrimStart(s[1..]) else s
  }

  function TrimEnd(s: string): string {
    if s != "" && IsWhitespace(s[|s| - 1]) then TrimEnd(s[..|s| - 1]) else s
  }

  function Trim(s: string): string {
    TrimEnd(TrimStart(s))
  }

  /** Neither the first nor the last character is white space. */
  predicate Tight(s: string) {
    s == "" || (!IsWhitespace(s[0]) && !IsWhitespace(s[|s| - 1]))
  }

  lemma {:induction false} TrimStartSplit(s: string) returns (lead: string)
    ensures s == lead + TrimStart(s) && Blank(lead)
    ensures TrimStart(s) == "" || !IsWhitespace(TrimStart(s)[0])
  {
    if s != "" && IsWhitespace(s[0]) {
      var rest := TrimStartSplit(s[1..]);
      lead := [s[0]] + rest;
    } else {
      lead := "";
    }
  }

  lemma {:induction false} TrimEndSplit(s: string) returns (tail: string)
    ensures s == TrimEnd(s) + tail && Blank(tail)
    ensures TrimEnd(s) == "" || !IsWhitespace(TrimEnd(s)[|TrimEnd(s)| - 1])
  {
    if s != "" && IsWhitespace(s[|s| - 1]) {
      var rest := TrimEndSplit(s[..|s| - 1]);
      tail := rest + [s[|s| - 1]];
    } else {
      tail := "";
    }
  }

  /** Trimming removes exactly a blank prefix and a blank suffix. */
  lemma TrimSplit(s: string) returns (lead: string, tail: string)
    ensures s == lead + Trim(s) + tail && Blank(lead) && Blank(tail) && Tight(Trim(s))
  {
    lead := TrimStartSplit(s);
    tail := TrimEndSplit(TrimStart(s));
  }

  lemma {:induction false} TrimStartBlank(lead: string, s: string)
    requires Blank(lead)
    requires s == "" || !IsWhitespace(s[0])
    ensures TrimStart(lead + s) == s
  {
    if lead == "" {
      assert lead + s == s;
    } else {
      assert (lead + s)[1..] == lead[1..] + s;
      TrimStartBlank(lead[1..], s);
    }
  }

  lemma {:induction false} TrimEndBlank(s: string, tail: string)
    requires Blank(tail)
    requires s == "" || !IsWhitespace(s[|s| - 1])
    ensures TrimEnd(s + tail) == s
  {
    if tail == "" {
      assert s + tail == s;
    } else {
      var n := |tail| - 1;
      assert (s + tail)[..|s + tail| - 1] == s + tail[..n];
      TrimEndBlank(s, tail[..n]);
    }
  }

  /** The trimmed text is the only tight core between two blank ends. */
  lemma TrimUnique(lead: string, core: string, tail: string)
    requires Blank(lead) && Blank(tail) && Tight(core)
    ensures Trim(lead + core + tail) == core
  {
    assert lead + core + tail == lead + (core + tail);
    if core == "" {
      TrimStartBlank(lead + tail, "");
      assert lead + core + tail == (lead + tail) + "";
    } else {
      TrimStartBlank(lead, core + tail);
      TrimEndBlank(core, tail);
    }
  }

  /** Blank text around a string does not show after trimming. */
  lemma TrimAround(lead: string, s: string, tail: string)
    requires Blank(lead) && Blank(tail)
    ensures Trim(lead + s + tail) == Trim(s)
  {
    var a, b := TrimSplit(s);
    assert lead + s + tail == (lead + a) + Trim(s) + (b + tail);
    TrimUnique(lead + a, Trim(s), b + tail);
  }

  lemma TrimContains(s: string)
    ensures Contains(s, Trim(s))
  {
    var a, b := TrimSplit(s);
    assert PartAt(s, |a|, Trim(s));
  }

  /** `trim_end_matches('\r')`: every trailing carriage return goes. */
  function TrimCarriageReturns(s: string): (r: string)
    ensures r <= s
  {
    if s != "" && s[|s| - 1] == '\r' then TrimCarriageReturns(s[..|s| - 1]) else s
  }

  /** A prefix that does not itself end in a carriage return survives the trim. */
  lemma {:induction false} TrimCarriageReturnsKeepsPrefix(s: string, prefix: string)
    requires prefix != "" && prefix[|prefix| - 1] != '\r'
    ensures StartsWith(TrimCarriageReturns(s), prefix) <==> StartsWith(s, prefix)
  {
    if s != "" && s[|s| - 1] == '\r' {
      TrimCarriageReturnsKeepsPrefix(s[..|s| - 1], prefix);
      if StartsWith(s, prefix) {
        assert |prefix| < |s| || prefix == s;
      }
    }
  }

  // ---------- lines ----------

  /** Position of the first line feed, or the length. */
  function NewlineAt(s: string): (k: nat)
    ensures k <= |s| && forall i :: 0 <= i < k ==> s[i] != '\n'
    ensures k < |s| ==> s[k] == '\n'
  {
    if s == "" || s[0] == '\n' then 0
    else
      1 + NewlineAt(s[1..])
  }

  function StripOneCarriageReturn(s: string): string {
    if s != "" && s[|s| - 1] == '\r' then s[..|s| - 1] else s
  }

  /**
   `str::lines`: split after each line feed and drop it together with one
   carriage return before it; a last piece without a line feed is kept as it is.
   */
  function Lines(s: string): seq<string>
    decreases |s|
  {
    if s == "" then []
    else
      var k := NewlineAt(s);
      if k == |s| then [s] else [StripOneCarriageReturn(s[..k])] + Lines(s[k + 1..])
  }

  lemma NewlineAtIs(s: string, k: nat)
    requires k <= |s| && (forall i :: 0 <= i < k ==> s[i] != '\n') && (k < |s| ==> s[k] == '\n')
    ensures NewlineAt(s) == k
  {
    var j := NewlineAt(s);
  }

  /** One line and its line feed in front of more text. */
  lemma LinesFirst(line: string, rest: string)
    requires '\n' !in line
    ensures Lines(line + "\n" + rest) == [StripOneCarriageReturn(line)] + Lines(rest)
  {
    var s := line + "\n" + rest;
    assert s[..|line|] == line;
    NewlineAtIs(s, |line|);
    assert s[|line| + 1..] == rest;
  }

  lemma LinesOnly(line: string)
    requires '\n' !in line
    ensures Lines(line) == if line == "" then [] else [line]
  {
    assert line[..|line|] == line;
    NewlineAtIs(line, |line|);
  }

  /** Empty, or ending in a line feed: the next character starts a new line. */
  predicate Terminated(s: string) {
    s == "" || s[|s| - 1] == '\n'
  }

  /** Terminated text splits off its lines. */
  lemma {:induction false} LinesConcat(a: string, b: string)
    requires Terminated(a)
    ensures Lines(a + b) == Lines(a) + Lines(b)
    decreases |a|
  {
    if a == "" {
      assert a + b == b;
    } else {
      var k := NewlineAt(a);
      assert (a + b)[..k] == a[..k];
      NewlineAtIs(a + b, k);
      assert (a + b)[k + 1..] == a[k + 1..] + b;
      LinesConcat(a[k + 1..], b);
    }
  }

  lemma AppendAssoc(a: string, b: string, c: string)
    ensures (a + b) + c == a + (b + c)
  {
  }

  /** The first line of a text stays the first when the text goes on. */
  lemma LinesFirstOf(line: string, rest: string, more: string)
    requires '\n' !in line
    ensures Lines(line + "\n" + rest + more) == [StripOneCarriageReturn(line)] + Lines(rest + more)
  {
    AppendAssoc(line + "\n", rest, more);
    LinesFirst(line, rest + more);
  }

  lemma FirstLineOf(s: string) returns (line: string, rest: string)
    requires NewlineAt(s) < |s|
    ensures s == line + "\n" + rest && '\n' !in line && |rest| < |s|
  {
    line, rest := s[..NewlineAt(s)], s[NewlineAt(s) + 1..];
  }

  /** A whole line between two texts. */
  lemma LinesAround(before: string, line: string, after: string)
    requires Terminated(before) && '\n' !in line && StripOneCarriageReturn(line) == line
    ensures Lines(before + (line + "\n" + after)) == Lines(before) + [line] + Lines(after)
  {
    LinesConcat(before, line + "\n" + after);
    LinesFirst(line, after);
  }

  /** Every line is a contiguous part of the text. */
  lemma {:induction false} LinesAreParts(s: string, line: string)
    requires line in Lines(s)
    ensures Contains(s, line) && '\n' !in line
    decreases |s|
  {
    var k := NewlineAt(s);
    if k == |s| || line == StripOneCarriageReturn(s[..k]) {
      assert s[..|line|] == line && PartAt(s, 0, line);
    } else {
      var rest := s[k + 1..];
      LinesAreParts(rest, line);
      assert PartAt(s, k + 1, rest);
      ContainsTrans(s, rest, line);
    }
  }

  // ---------- joining ----------

  function Join(parts: seq<string>, separator: string): string {
    if parts == [] then ""
    else if |parts| == 1 then parts[0]
    else parts[0] + separator + Join(parts[1..], separator)
  }

  /** Each line followed by a line feed. */
  function Unlines(lines: seq<string>): string {
    if lines == [] then "" else lines[0] + "\n" + Unlines(lines[1..])
  }

  lemma {:induction false} JoinIsUnlines(lines: seq<string>)
    requires lines != []
    ensures Join(lines, "\n") + "\n" == Unlines(lines)
  {
    if |lines| > 1 {
      JoinIsUnlines(lines[1..]);
      assert lines[0] + "\n" + (Join(lines[1..], "\n") + "\n") == Join(lines, "\n") + "\n";
    } else {
      assert lines[1..] == [];
      assert lines[0] + "\n" + "" == lines[0] + "\n";
    }
  }

  // ---------- carriage return + line feed ----------

  /** Each CR LF pair becomes a single LF. */
  function Unixify(s: string): string {
    if s == "" then ""
    else if s[0] == '\r' && |s| > 1 && s[1] == '\n' then "\n" + Unixify(s[2..])
    else [s[0]] + Unixify(s[1..])
  }

  predicate HasCrLf(s: string) {
    exists i :: 0 <= i < |s| - 1 && s[i] == '\r' && s[i + 1] == '\n'
  }

  /** A text is its own Unix form exactly when it has no CR LF. */
  lemma {:induction false} UnixifyFixed(s: string)
    ensures |Unixify(s)| <= |s|
    ensures Unixify(s) == s <==> !HasCrLf(s)
  {
    if s == "" {
    } else if s[0] == '\r' && |s| > 1 && s[1] == '\n' {
      UnixifyFixed(s[2..]);
      assert |Unixify(s)| < |s|;
    } else {
      var t := s[1..];
      UnixifyFixed(t);
      if HasCrLf(s) {
        var i :| 0 <= i < |s| - 1 && s[i] == '\r' && s[i + 1] == '\n';
        assert t[i - 1] == '\r' && t[i] == '\n';
      }
      if HasCrLf(t) {
        var i :| 0 <= i < |t| - 1 && t[i] == '\r' && t[i + 1] == '\n';
        assert s[i + 1] == '\r' && s[i + 2] == '\n';
      }
      assert s == [s[0]] + t;
      assert Unixify(s) == [s[0]] + Unixify(t);
      assert Unixify(s)[1..] == Unixify(t);
    }
  }

  lemma UnixifyPair(s: string)
    ensures Unixify("\r\n" + s) == "\n" + Unixify(s)
  {
    assert ("\r\n" + s)[2..] == s;
  }

  lemma UnixifyOther(c: char, s: string)
    requires c != '\r' || s == "" || s[0] != '\n'
    ensures Unixify([c] + s) == [c] + Unixify(s)
  {
    assert ([c] + s)[1..] == s;
  }

  lemma UnixifyPairConcat(rest: string, b: string)
    requires Unixify(rest + b) == Unixify(rest) + Unixify(b)
    ensures Unixify("\r\n" + rest + b) == Unixify("\r\n" + rest) + Unixify(b)
  {
    UnixifyPair(rest + b);
    UnixifyPair(rest);
    assert "\r\n" + rest + b == "\r\n" + (rest + b);
    assert "\n" + (Unixify(rest) + Unixify(b)) == "\n" + Unixify(rest) + Unixify(b);
  }

  lemma {:induction false} UnixifyConcat(a: string, b: string)
    requires a == "" || b == "" || a[|a| - 1] != '\r' || b[0] != '\n'
    ensures Unixify(a + b) == Unixify(a) + Unixify(b)
  {
    if a == "" {
      assert a + b == b;
    } else if b == "" {
      assert a + b == a;
    } else if a[0] == '\r' && |a| > 1 && a[1] == '\n' {
      UnixifyConcat(a[2..], b);
      UnixifyPairConcat(a[2..], b);
      assert a == "\r\n" + a[2..];
    } else {
      var rest := a[1..];
      UnixifyConcat(rest, b);
      UnixifyOther(a[0], rest + b);
      UnixifyOther(a[0], rest);
      assert a == [a[0]] + rest && a + b == [a[0]] + (rest + b);
    }
  }

  lemma {:induction false} UnixifyLine(line: string)
    requires '\n' !in line
    ensures Unixify(line + "\n") == StripOneCarriageReturn(line) + "\n"
  {
    if line == "" {
    } else if line == "\r" {
      assert line + "\n" == "\r\n";
    } else {
      assert (line + "\n")[1..] == line[1..] + "\n";
      assert !((line + "\n")[0] == '\r' && (line + "\n")[1] == '\n');
      UnixifyLine(line[1..]);
      assert StripOneCarriageReturn(line) == [line[0]] + StripOneCarriageReturn(line[1..]);
    }
  }

  /** The lines of terminated text spell its Unix form. */
  lemma {:induction false} LinesSpell(t: string)
    requires Terminated(t)
    ensures Unlines(Lines(t)) == Unixify(t)
    decreases |t|
  {
    if t != "" {
      var k := NewlineAt(t);
      var line, rest := t[..k], t[k + 1..];
      assert t == (line + "\n") + rest;
      UnixifyLine(line);
      UnixifyConcat(line + "\n", rest);
      LinesSpell(rest);
      var ls := [StripOneCarriageReturn(line)] + Lines(rest);
      assert Lines(t) == ls && ls[1..] == Lines(rest);
    }
  }

  lemma {:induction false} UnixifyBlank(s: string)
    requires Blank(s)
    ensures Blank(Unixify(s))
  {
    if s != "" {
      if s[0] == '\r' && |s| > 1 && s[1] == '\n' {
        UnixifyBlank(s[2..]);
      } else {
        UnixifyBlank(s[1..]);
      }
    }
  }

  lemma {:induction false} UnixifyLast(s: string)
    requires s != "" && s[|s| - 1] != '\r'
    ensures Unixify(s) != "" && Unixify(s)[|Unixify(s)| - 1] == s[|s| - 1]
  {
    if s[0] == '\r' && |s| > 1 && s[1] == '\n' {
      if |s| > 2 { UnixifyLast(s[2..]); } else { assert s[2..] == ""; }
    } else if |s| > 1 {
      UnixifyLast(s[1..]);
    } else {
      assert s[1..] == "";
    }
  }

  lemma TrimMembers(s: string)
    ensures forall c :: c in Trim(s) ==> c in s
  {
    var a, b := TrimSplit(s);
    assert s == a + Trim(s) + b;
  }

  lemma TrimFirst(s: string)
    requires s != "" && !IsWhitespace(s[0])
    ensures Trim(s) != "" && Trim(s)[0] == s[0]
  {
    var tail := TrimEndSplit(s);
    assert s == TrimEnd(s) + tail;
  }

  /** Trimming and normalising line ends commute. */
  lemma TrimUnixify(s: string)
    ensures Trim(Unixify(s)) == Unixify(Trim(s))
  {
    var a, b := TrimSplit(s);
    var core := Trim(s);
    UnixifyBlank(a);
    UnixifyBlank(b);
    if core == "" {
      UnixifyBlank(a + b);
      assert s == a + b;
      TrimUnique(Unixify(a + b), "", "");
      assert Unixify(a + b) + "" + "" == Unixify(a + b);
    } else {
      UnixifyConcat(a, core + b);
      UnixifyConcat(core, b);
      assert s == a + (core + b);
      assert Unixify(s) == Unixify(a) + Unixify(core) + Unixify(b);
      UnixifyLast(core);
      TrimUnique(Unixify(a), Unixify(core), Unixify(b));
    }
  }

  // ---------- whole lines ----------

  /** A line that `Lines` gives back as it is. */
  predicate WholeLine(line: string) {
    '\n' !in line && StripOneCarriageReturn(line) == line
  }

  predicate WholeLines(lines: seq<string>) {
    forall i :: 0 <= i < |lines| ==> WholeLine(lines[i])
  }

  lemma {:induction false} UnlinesConcat(a: seq<string>, b: seq<string>)
    ensures Unlines(a + b) == Unlines(a) + Unlines(b)
  {
    if a == [] {
      assert a + b == b;
    } else {
      assert (a + b)[1..] == a[1..] + b;
      UnlinesConcat(a[1..], b);
      AppendAssoc(a[0] + "\n", Unlines(a[1..]), Unlines(b));
    }
  }

  lemma {:induction false} LinesOfUnlines(lines: seq<string>)
    requires WholeLines(lines)
    ensures Lines(Unlines(lines)) == lines && Terminated(Unlines(lines)) && Unixify(Unlines(lines)) == Unlines(lines)
  {
    if lines != [] {
      LinesOfUnlines(lines[1..]);
      LinesFirst(lines[0], Unlines(lines[1..]));
      LinesSpell(Unlines(lines));
    }
  }

  /** A final line feed after a visible character adds no line. */
  lemma {:induction false} LinesFinalLineFeed(s: string)
    requires s != "" && !IsWhitespace(s[|s| - 1])
    ensures Lines(s + "\n") == Lines(s)
    decreases |s|
  {
    var n := NewlineAt(s);
    if n == |s| {
      LinesFirst(s, "");
      assert s + "\n" + "" == s + "\n";
    } else {
      var line, rest := FirstLineOf(s);
      assert rest != "" && rest[|rest| - 1] == s[|s| - 1];
      LinesFirstOf(line, rest, "\n");
      LinesFirst(line, rest);
      LinesFinalLineFeed(rest);
    }
  }

  lemma {:induction false} JoinEnds(lines: seq<string>)
    requires lines != [] && lines[|lines| - 1] != ""
    ensures var core, last := Join(lines, "\n"), lines[|lines| - 1];
      core != "" && core[|core| - 1] == last[|last| - 1]
    ensures lines[0] != "" ==> Join(lines, "\n")[0] == lines[0][0]
  {
    if |lines| > 1 {
      JoinEnds(lines[1..]);
      assert lines[1..][|lines[1..]| - 1] == lines[|lines| - 1];
    }
  }

  lemma TrimLastLineFeed(core: string)
    requires Tight(core)
    ensures Trim(core + "\n") == core
  {
    TrimUnique("", core, "\n");
    assert "" + core + "\n" == core + "\n";
  }

  lemma UnixifyCore(core: string)
    requires Tight(core) && Unixify(core + "\n") == core + "\n"
    ensures Unixify(core) == core
  {
    TrimLastLineFeed(core);
    TrimUnixify(core + "\n");
  }

  /** Whole lines with tight ends: the text of them, trimmed, is the lines joined. */
  lemma JoinedLines(lines: seq<string>)
    requires WholeLines(lines) && lines != []
    requires lines[0] != "" && !IsWhitespace(lines[0][0])
    requires var last := lines[|lines| - 1]; last != "" && !IsWhitespace(last[|last| - 1])
    ensures Unixify(Trim(Unlines(lines))) == Join(lines, "\n") && Lines(Join(lines, "\n")) == lines
  {
    LinesOfUnlines(lines);
    JoinIsUnlines(lines);
    JoinEnds(lines);
    TrimLastLineFeed(Join(lines, "\n"));
    UnixifyCore(Join(lines, "\n"));
    LinesFinalLineFeed(Join(lines, "\n"));
  }

  // ---------- decimal numbers ----------

  predicate IsDigit(c: char) {
    '0' <= c <= '9'
  }

  predicate AllDigits(s: string) {
    forall i :: 0 <= i < |s| ==> IsDigit(s[i])
  }

  function DigitValue(c: char): nat
    requires IsDigit(c)
  {
    c as int - '0' as int
  }

  function Decimal(n: nat): (s: string)
    ensures s != "" && AllDigits(s)
  {
    var last := [('0' as int + n % 10) as char];
    if n < 10 then last else Decimal(n / 10) + last
  }

  function DecimalValue(s: string): nat
    requires AllDigits(s)
  {
    if s == "" then 0 else 10 * DecimalValue(s[..|s| - 1]) + DigitValue(s[|s| - 1])
  }

  lemma {:induction false} DecimalRoundTrip(n: nat)
    ensures DecimalValue(Decimal(n)) == n
  {
    var s := Decimal(n);
    if n >= 10 {
      DecimalRoundTrip(n / 10);
      assert s[..|s| - 1] == Decimal(n / 10);
    } else {
      assert s[..|s| - 1] == "";
    }
  }

  /** `str::parse::<i32>`: an optional sign and at least one digit, within 32 bits. */
  function ParseI32(s: string): Option<int> {
    var negative := s != "" && s[0] == '-';
    var digits := if s != "" && (s[0] == '-' || s[0] == '+') then s[1..] else s;
    if digits == "" || !AllDigits(digits) then None
    else
      var n: int := if negative then -(DecimalValue(digits) as int) else DecimalValue(digits);
      if -0x8000_0000 <= n < 0x8000_0000 then Some(n) else None
  }

  /** A printed exit status reads back as itself. */
  lemma ParseI32Decimal(n: nat)
    requires n < 0x8000_0000
    ensures ParseI32(Decimal(n)) == Some(n)
  {
    DecimalRoundTrip(n);
    var s := Decimal(n);
    assert IsDigit(s[0]);
  }

  function Zeros(k: nat): string {
    seq(k, i => '0')
  }

  ghost predicate SpelledWith(text: string, n: int, zeros: nat) {
    var digits := Zeros(zeros) + Decimal(if n < 0 then -n else n);
    || (n <= 0 && text == "-" + digits)
    || (n >= 0 && (text == digits || text == "+" + digits))
  }

  /** The ways to write a whole number: a sign, any zeros, and its decimal digits. */
  ghost predicate SpellsNumber(text: string, n: int) {
    exists zeros: nat :: SpelledWith(text, n, zeros)
  }

  predicate FitsI32(n: int) {
    -0x8000_0000 <= n < 0x8000_0000
  }

  lemma {:induction false} ZerosAddNothing(zeros: nat, digits: string)
    requires AllDigits(digits)
    ensures AllDigits(Zeros(zeros) + digits) && DecimalValue(Zeros(zeros) + digits) == DecimalValue(digits)
  {
    var s := Zeros(zeros) + digits;
    if digits != "" {
      var n := |digits| - 1;
      ZerosAddNothing(zeros, digits[..n]);
      assert s[..|s| - 1] == Zeros(zeros) + digits[..n];
    } else if zeros > 0 {
      ZerosAddNothing(zeros - 1, "");
      assert s[..|s| - 1] == Zeros(zeros - 1) + "";
    }
  }

  lemma {:induction false} DigitsAreDecimal(digits: string) returns (zeros: nat)
    requires digits != "" && AllDigits(digits)
    ensures digits == Zeros(zeros) + Decimal(DecimalValue(digits))
  {
    var n := |digits| - 1;
    zeros := 0;
    if n == 0 {
      assert digits[..0] == "" && Zeros(0) == "";
    } else {
      zeros := DigitsAreDecimal(digits[..n]);
      assert digits == digits[..n] + [digits[n]];
      if DecimalValue(digits[..n]) == 0 {
        zeros := zeros + 1;
        assert digits[..n] == Zeros(zeros);
      }
    }
  }

  lemma SpelledIsRead(text: string, n: int, zeros: nat)
    requires FitsI32(n) && SpelledWith(text, n, zeros)
    ensures ParseI32(text) == Some(n)
  {
    var size := if n < 0 then -n else n;
    var spelled := Zeros(zeros) + Decimal(size);
    DecimalRoundTrip(size);
    ZerosAddNothing(zeros, Decimal(size));
    assert IsDigit(spelled[0]);
    assert text == spelled || text[1..] == spelled;
  }

  lemma ReadIsSpelled(text: string)
    requires ParseI32(text).Some?
    ensures FitsI32(ParseI32(text).value) && SpellsNumber(text, ParseI32(text).value)
  {
    var digits := if text[0] == '-' || text[0] == '+' then text[1..] else text;
    var zeros := DigitsAreDecimal(digits);
    assert text == digits || text == "-" + digits || text == "+" + digits;
    assert SpelledWith(text, ParseI32(text).value, zeros);
  }

  /** Reading a 32-bit number: exactly its spellings are read as it. */
  lemma ParseI32Spells(text: string, n: int)
    ensures ParseI32(text) == Some(n) <==> FitsI32(n) && SpellsNumber(text, n)
  {
    if ParseI32(text) == Some(n) {
      ReadIsSpelled(text);
    }
    if FitsI32(n) && SpellsNumber(text, n) {
      var zeros :| SpelledWith(text, n, zeros);
      SpelledIsRead(text, n, zeros);
    }
  }

  /** A digit of a number written in hexadecimal, in lower case. */
  function HexDigit(n: nat): char
    requires n < 16
  {
    if n < 10 then ('0' as nat + n) as char else ('a' as nat + n - 10) as char
  }

  // ---------- display ----------

  /** C0, DEL and C1: the characters `char::is_control` accepts. */
  predicate IsControl(c: char) {
    var n := c as int;
    n < 0x20 || 0x7F <= n <= 0x9F
  }
}
