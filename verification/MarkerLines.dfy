/** Which lines are markers: exactly the ones the script prints, with any carriage returns behind them. */
module MarkerLines {
  import opened Basics
  import opened Text
  import opened Protocol
  import opened Framing
  import opened Transcripts

  function Returns(n: nat): string {
    seq(n, i => '\r')
  }

  lemma {:induction false} TrimmedReturns(s: string) returns (n: nat)
    ensures s == TrimCarriageReturns(s) + Returns(n)
  {
    n := 0;
    if s != "" && s[|s| - 1] == '\r' {
      n := TrimmedReturns(s[..|s| - 1]);
      assert s == s[..|s| - 1] + "\r";
      assert Returns(n) + "\r" == Returns(n + 1);
      n := n + 1;
    }
  }

  lemma {:induction false} ReturnsAreTrimmed(s: string, n: nat)
    requires s == "" || s[|s| - 1] != '\r'
    ensures TrimCarriageReturns(s + Returns(n)) == s
  {
    if n == 0 {
      assert s + Returns(0) == s;
    } else {
      ReturnsAreTrimmed(s, n - 1);
      assert (s + Returns(n))[..|s| + n - 1] == s + Returns(n - 1);
    }
  }

  ghost predicate WithReturns(line: string, marker: string, n: nat) {
    line == marker + Returns(n)
  }

  lemma OpeningIsSpelled(m: Markers, id: string, marker: string)
    ensures (StripPrefix(marker, m.begin).Some? && StripSuffix(StripPrefix(marker, m.begin).value, "__") == Some(id))
      <==> marker == BeginLine(m, id)
  {
    AppendAssoc(m.begin, id, "__");
    if marker == BeginLine(m, id) {
      assert marker[|m.begin|..] == id + "__";
      assert (id + "__")[..|id|] == id && (id + "__")[|id|..] == "__";
    }
    if StripPrefix(marker, m.begin).Some? {
      var rest := StripPrefix(marker, m.begin).value;
      assert marker == m.begin + rest;
      assert StripSuffix(rest, "__").Some? ==> rest == StripSuffix(rest, "__").value + "__";
    }
  }

  /** A line opens a section exactly when it is its BEGIN line. */
  lemma BeginLinesAre(m: Markers, line: string, id: string)
    ensures BeginId(m, line) == Some(id) <==> exists n: nat :: WithReturns(line, BeginLine(m, id), n)
  {
    if BeginId(m, line) == Some(id) {
      var n := TrimmedReturns(line);
      OpeningIsSpelled(m, id, TrimCarriageReturns(line));
      assert WithReturns(line, BeginLine(m, id), n);
    }
    if n: nat :| WithReturns(line, BeginLine(m, id), n) {
      ReturnsAreTrimmed(BeginLine(m, id), n);
      OpeningIsSpelled(m, id, BeginLine(m, id));
    }
  }

  /** A line closes a section with a status text exactly when it is its END line with that text. */
  lemma EndLinesAre(m: Markers, line: string, id: string, status: string)
    ensures (EndRest(m, line).Some? && StatusText(EndRest(m, line).value, id) == Some(status))
      <==> exists n: nat :: WithReturns(line, EndLine(m, id, status), n)
  {
    if EndRest(m, line).Some? && StatusText(EndRest(m, line).value, id) == Some(status) {
      var n := TrimmedReturns(line);
      StatusRebuilt(EndRest(m, line).value, id);
      EndLineJoins(m, id, status);
      assert WithReturns(line, EndLine(m, id, status), n);
    }
    if n: nat :| WithReturns(line, EndLine(m, id, status), n) {
      ReturnsAreTrimmed(EndLine(m, id, status), n);
      EndLineSplits(m, id, status);
    }
  }
}
