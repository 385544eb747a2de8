/** Text that is safe to show: in a terminal without control characters, in HTML without markup. */
module Output {
  import opened Basics
  import opened Text

  /** The characters that reorder what is displayed around them. */
  predicate IsBidiControl(c: char) {
    var n := c as int;
    n == 0x061C || 0x200E <= n <= 0x200F || 0x202A <= n <= 0x202E || 0x2066 <= n <= 0x2069
  }

  predicate Unsafe(c: char) {
    IsControl(c) || IsBidiControl(c)
  }

  function Hex(n: nat): (s: string)
    ensures s != ""
  {
    if n < 16 then [HexDigit(n)] else Hex(n / 16) + [HexDigit(n % 16)]
  }

  /** `char::escape_default` on a control character. */
  function EscapeDefault(c: char): string {
    if c == '\t' then "\\t"
    else if c == '\r' then "\\r"
    else if c == '\n' then "\\n"
    else "\\u{" + Hex(c as nat) + "}"
  }

  function SafeChar(c: char): string {
    if Unsafe(c) then EscapeDefault(c) else [c]
  }

  function Safe(s: string): string {
    if s == "" then "" else Safe(s[..|s| - 1]) + SafeChar(s[|s| - 1])
  }

  method TerminalSafe(value: string) returns (safe: string)
    ensures safe == Safe(value)
  {
    safe := "";
    for i := 0 to |value|
      invariant safe == Safe(value[..i])
    {
      assert value[..i + 1][..i] == value[..i];
      if IsControl(value[i]) || IsBidiControl(value[i]) {
        safe := safe + EscapeDefault(value[i]);
      } else {
        safe := safe + [value[i]];
      }
    }
    assert value[..|value|] == value;
  }

  lemma {:induction false} HexIsSafe(n: nat)
    ensures forall c :: c in Hex(n) ==> !Unsafe(c)
  {
    if n >= 16 {
      HexIsSafe(n / 16);
    }
  }

  lemma SafeCharIsSafe(c: char)
    ensures forall d :: d in SafeChar(c) ==> !Unsafe(d)
  {
    HexIsSafe(c as nat);
  }

  /** No control and no reordering character is left, and text without them is unchanged. */
  lemma {:induction false} SafeSpec(s: string)
    ensures forall c :: c in Safe(s) ==> !Unsafe(c)
    ensures (forall c :: c in s ==> !Unsafe(c)) <==> Safe(s) == s
  {
    if s != "" {
      var init, last := s[..|s| - 1], s[|s| - 1];
      assert s == init + [last];
      SafeSpec(init);
      SafeCharIsSafe(last);
      if forall c :: c in s ==> !Unsafe(c) {
        assert last in s && forall c :: c in init ==> c in s;
      } else {
        SafeChanges(s);
      }
    }
  }

  lemma SafeChanges(s: string)
    requires exists c :: c in s && Unsafe(c)
    requires forall c :: c in Safe(s) ==> !Unsafe(c)
    ensures Safe(s) != s
  {
  }

  function HexDigitValue(c: char): nat {
    if '0' <= c <= '9' then c as nat - '0' as nat
    else if 'a' <= c <= 'f' then c as nat - 'a' as nat + 10
    else 0
  }

  function HexValue(s: string): nat {
    if s == "" then 0 else 16 * HexValue(s[..|s| - 1]) + HexDigitValue(s[|s| - 1])
  }

  lemma {:induction false} HexReads(n: nat)
    ensures HexValue(Hex(n)) == n
  {
    if n < 16 {
      assert [HexDigit(n)][..0] == "";
    } else {
      HexReads(n / 16);
      assert Hex(n)[..|Hex(n)| - 1] == Hex(n / 16);
    }
  }

  /** The text is safe piece by piece. */
  lemma {:induction false} SafeConcat(a: string, b: string)
    ensures Safe(a + b) == Safe(a) + Safe(b)
  {
    if b == "" {
      assert a + b == a && Safe(a) + "" == Safe(a);
    } else {
      var init, last := b[..|b| - 1], b[|b| - 1];
      assert b == init + [last];
      SafeConcat(a, init);
      SafeOneMore(a, init, last);
    }
  }

  lemma SafeOneMore(a: string, b: string, c: char)
    requires Safe(a + b) == Safe(a) + Safe(b)
    ensures Safe(a + (b + [c])) == Safe(a) + Safe(b + [c])
  {
    AppendAssoc(a, b, [c]);
    SafeSnoc(a + b, c);
    SafeSnoc(b, c);
    AppendAssoc(Safe(a), Safe(b), SafeChar(c));
  }

  lemma SafeSnoc(s: string, c: char)
    ensures Safe(s + [c]) == Safe(s) + SafeChar(c)
  {
    assert (s + [c])[..|s|] == s;
  }

  /** A character: itself, or an escape that says which it was. */
  lemma SafeOf(c: char)
    ensures !Unsafe(c) ==> Safe([c]) == [c]
    ensures c == '\t' ==> Safe([c]) == "\\t"
    ensures c == '\r' ==> Safe([c]) == "\\r"
    ensures c == '\n' ==> Safe([c]) == "\\n"
    ensures Unsafe(c) && c !in "\t\r\n" ==>
              var e := Safe([c]);
              && |e| >= 5 && e[..3] == "\\u{" && e[|e| - 1..] == "}" && HexValue(e[3..|e| - 1]) == c as nat
  {
    assert [c][..0] == "";
    assert Safe([c]) == "" + SafeChar(c) == SafeChar(c);
    if Unsafe(c) && c !in "\t\r\n" {
      var e := "\\u{" + Hex(c as nat) + "}";
      HexReads(c as nat);
      assert e[3..|e| - 1] == Hex(c as nat);
    }
  }

  // ---------- HTML ----------

  function Entity(c: char): string {
    if c == '&' then "&amp;"
    else if c == '<' then "&lt;"
    else if c == '>' then "&gt;"
    else if c == '"' then "&quot;"
    else if c == '\'' then "&#39;"
    else [c]
  }

  function Entities(s: string): string {
    if s == "" then "" else Entities(s[..|s| - 1]) + Entity(s[|s| - 1])
  }

  method Escape(value: string) returns (escaped: string)
    ensures escaped == Entities(Safe(value))
  {
    var safe := TerminalSafe(value);
    escaped := "";
    for i := 0 to |safe|
      invariant escaped == Entities(safe[..i])
    {
      assert safe[..i + 1][..i] == safe[..i];
      match safe[i] {
        case '&' => escaped := escaped + "&amp;";
        case '<' => escaped := escaped + "&lt;";
        case '>' => escaped := escaped + "&gt;";
        case '"' => escaped := escaped + "&quot;";
        case '\'' => escaped := escaped + "&#39;";
        case _ => escaped := escaped + [safe[i]];
      }
    }
    assert safe[..|safe|] == safe;
  }

  predicate Markup(c: char) {
    c == '<' || c == '>' || c == '"' || c == '\''
  }

  /** The character a text begins with, when entities are read, and how long it is. */
  function Leading(s: string): (r: (char, nat))
    requires s != ""
    ensures 0 < r.1 <= |s|
  {
    if StartsWith(s, "&amp;") then ('&', 5)
    else if StartsWith(s, "&lt;") then ('<', 4)
    else if StartsWith(s, "&gt;") then ('>', 4)
    else if StartsWith(s, "&quot;") then ('"', 6)
    else if StartsWith(s, "&#39;") then ('\'', 5)
    else (s[0], 1)
  }

  /** A browser's reading: each entity is one character. */
  function Unescape(s: string): string {
    if s == "" then "" else [Leading(s).0] + Unescape(s[Leading(s).1..])
  }

  lemma EntityLeads(c: char, rest: string)
    ensures Leading(Entity(c) + rest) == (c, |Entity(c)|)
  {
    var s := Entity(c) + rest;
    if c == '&' {
      assert StartsWith(s, "&amp;");
    } else if c == '<' {
      assert StartsWith(s, "&lt;") && s[1] == 'l';
    } else if c == '>' {
      assert StartsWith(s, "&gt;") && s[1] == 'g';
    } else if c == '"' {
      assert StartsWith(s, "&quot;") && s[1] == 'q';
    } else if c == '\'' {
      assert StartsWith(s, "&#39;") && s[1] == '#';
    } else {
      assert s[0] == c && s[0] != '&';
    }
  }

  /** In front of whatever text, `escaped` is read as `s`. */
  ghost predicate ReadAs(escaped: string, s: string) {
    forall rest: string :: Unescape(escaped + rest) == s + Unescape(rest)
  }

  lemma EntityReads(c: char)
    ensures ReadAs(Entity(c), [c])
  {
    forall rest: string
      ensures Unescape(Entity(c) + rest) == [c] + Unescape(rest)
    {
      EntityLeads(c, rest);
      assert (Entity(c) + rest)[|Entity(c)|..] == rest;
    }
  }

  lemma ReadAppended(a: string, s: string, b: string, t: string)
    requires ReadAs(a, s) && ReadAs(b, t)
    ensures ReadAs(a + b, s + t)
  {
    forall rest: string
      ensures Unescape(a + b + rest) == s + t + Unescape(rest)
    {
      AppendAssoc(a, b, rest);
      assert Unescape(a + (b + rest)) == s + Unescape(b + rest);
      AppendAssoc(s, t, Unescape(rest));
    }
  }

  lemma NothingRead()
    ensures ReadAs("", "")
  {
    forall rest: string
      ensures Unescape("" + rest) == "" + Unescape(rest)
    {
      assert "" + rest == rest && "" + Unescape(rest) == Unescape(rest);
    }
  }

  /** Escaped text reads back as the safe text, whatever follows it. */
  lemma {:induction false} EntitiesRead(s: string)
    ensures ReadAs(Entities(s), s)
  {
    if s == "" {
      NothingRead();
    } else {
      var init, last := s[..|s| - 1], s[|s| - 1];
      EntitiesRead(init);
      EntityReads(last);
      ReadAppended(Entities(init), init, Entity(last), [last]);
      assert s == init + [last];
    }
  }

  /** Escaped text holds no markup. */
  lemma {:induction false} EntitiesHoldNoMarkup(s: string)
    ensures forall c :: c in Entities(s) ==> !Markup(c)
  {
    if s != "" {
      EntitiesHoldNoMarkup(s[..|s| - 1]);
    }
  }
}
