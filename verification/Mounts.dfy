/** Which mount a path lies on, and the octal escapes of the mount table. */
module Mounts {
  import opened Basics
  import opened Text

  /** A line of the mount table: its mount point, and what is looked up for it. */
  datatype Mount = Mount(point: string, value: string)

  predicate Absolute(path: string) {
    path != "" && path[0] == '/'
  }

  /** The test of the scripts: the mount point is the path or one of its ancestors. */
  predicate Matches(point: string, target: string) {
    point == "/" || target == point || StartsWith(target, point + "/")
  }

  /** Of two matching mount points the longer lies below the shorter, so longer is deeper. */
  lemma LongerIsDeeper(a: string, b: string, target: string)
    requires Absolute(target) && Matches(a, target) && Matches(b, target) && |a| <= |b|
    ensures Matches(a, b)
    ensures |a| == |b| ==> a == b
  {
    if a != "/" {
      assert a <= target;
      assert b <= target;
      assert a == b[..|a|];
      if |a| < |b| && target != b {
        assert target[|a|] == (a + "/")[|a|];
        assert a + "/" == b[..|a| + 1];
      }
    }
  }

  /** Mount `k` matches, none that matches is deeper, and it is the last of the deepest. */
  ghost predicate Deepest(mounts: seq<Mount>, target: string, k: int) {
    && 0 <= k < |mounts| && Matches(mounts[k].point, target)
    && forall j :: 0 <= j < |mounts| && Matches(mounts[j].point, target) ==>
         |mounts[j].point| <= |mounts[k].point| && (j > k ==> |mounts[j].point| < |mounts[k].point|)
  }

  /** What the deepest mount gives; an absent value when nothing matches. */
  ghost predicate Resolves(mounts: seq<Mount>, target: string, r: Option<string>) {
    match r
    case None => forall j :: 0 <= j < |mounts| ==> !Matches(mounts[j].point, target)
    case Some(value) => exists k :: Deepest(mounts, target, k) && mounts[k].value == value
  }

  /** The running best of the scripts: longer or equal wins, so ties go to the later line. */
  method Resolve(mounts: seq<Mount>, target: string) returns (r: Option<string>)
    ensures Resolves(mounts, target, r)
  {
    var best := -1;
    var value := "";
    ghost var k := -1;
    for i := 0 to |mounts|
      invariant best == -1 ==> Resolves(mounts[..i], target, None)
      invariant best != -1 ==> Deepest(mounts[..i], target, k) && mounts[k].value == value && |mounts[k].point| == best
      invariant best >= -1
    {
      var point := mounts[i].point;
      if Matches(point, target) && |point| >= best {
        best := |point|;
        value := mounts[i].value;
        k := i;
      }
    }
    assert mounts[..|mounts|] == mounts;
    r := if best >= 0 then Some(value) else None;
  }

  /** The result is determined: there is at most one deepest mount. */
  lemma DeepestIsUnique(mounts: seq<Mount>, target: string, i: int, j: int)
    requires Deepest(mounts, target, i) && Deepest(mounts, target, j)
    ensures i == j
  {
  }

  /** The deepest mount lies below every other mount on the way to the target. */
  lemma DeepestIsBelowAll(mounts: seq<Mount>, target: string, k: int)
    requires Absolute(target) && Deepest(mounts, target, k)
    ensures forall j :: 0 <= j < |mounts| && Matches(mounts[j].point, target) ==> Matches(mounts[j].point, mounts[k].point)
  {
    forall j | 0 <= j < |mounts| && Matches(mounts[j].point, target)
      ensures Matches(mounts[j].point, mounts[k].point)
    {
      LongerIsDeeper(mounts[j].point, mounts[k].point, target);
    }
  }

  // ---------- by path components ----------

  /** A component of a path: not empty, and without a slash. */
  predicate Name(s: string) {
    s != "" && '/' !in s
  }

  predicate Names(names: seq<string>) {
    forall i :: 0 <= i < |names| ==> Name(names[i])
  }

  /** Each component behind a slash. */
  function Joined(names: seq<string>): string {
    if names == [] then "" else "/" + names[0] + Joined(names[1..])
  }

  /** The absolute path with these components; the root has none. */
  function PathOf(names: seq<string>): string {
    if names == [] then "/" else Joined(names)
  }

  /** Behind a first component the comparison goes on only if the whole component is the same. */
  lemma FirstApart(a: string, b: string, restA: string, restB: string)
    requires Name(a) && Name(b)
    requires restA != "" && restB != "" && restA[0] == '/' && restB[0] == '/'
    ensures "/" + a + restA <= "/" + b + restB <==> a == b && restA <= restB
  {
    var p, q := "/" + a + restA, "/" + b + restB;
    assert p[|a| + 1] == '/' && q[|b| + 1] == '/';
    assert p[1..|a| + 1] == a && q[1..|b| + 1] == b;
    assert p[|a| + 1..] == restA && q[|b| + 1..] == restB;
    assert forall i :: 0 <= i < |a| ==> p[i + 1] == a[i];
    assert forall i :: 0 <= i < |b| ==> q[i + 1] == b[i];
  }

  lemma {:induction false} JoinedPrefix(a: seq<string>, b: seq<string>)
    requires Names(a) && Names(b)
    ensures Joined(a) + "/" <= Joined(b) + "/" <==> a <= b
  {
    if a != [] && b != [] {
      JoinedPrefix(a[1..], b[1..]);
      FirstApart(a[0], b[0], Joined(a[1..]) + "/", Joined(b[1..]) + "/");
      assert "/" + a[0] + (Joined(a[1..]) + "/") == Joined(a) + "/";
      assert "/" + b[0] + (Joined(b[1..]) + "/") == Joined(b) + "/";
      assert a == [a[0]] + a[1..] && b == [b[0]] + b[1..];
    }
  }

  lemma MatchesUnder(point: string, target: string)
    requires point != "/"
    ensures Matches(point, target) <==> point + "/" <= target + "/"
  {
    var p, t := point + "/", target + "/";
    if |point| < |target| {
      assert t[..|p|] == target[..|p|];
    } else if |point| == |target| {
      assert p[..|point|] == point && t[..|target|] == target;
    }
  }

  /** A mount point matches exactly when its components are the first components of the path. */
  lemma MatchesIsPrefix(point: seq<string>, target: seq<string>)
    requires Names(point) && Names(target)
    ensures Matches(PathOf(point), PathOf(target)) <==> point <= target
  {
    if point != [] && target != [] {
      MatchesUnder(PathOf(point), PathOf(target));
      JoinedPrefix(point, target);
    }
  }

  /** Absolute, without empty components and without a slash at the end. */
  predicate Plain(path: string) {
    && Absolute(path)
    && (path != "/" ==> path[|path| - 1] != '/')
    && forall i :: 0 <= i < |path| - 1 ==> path[i] != '/' || path[i + 1] != '/'
  }

  /** Every such path has components. */
  lemma ComponentsOf(path: string) returns (names: seq<string>)
    requires Plain(path)
    ensures Names(names) && PathOf(names) == path
  {
    names := [];
    if path != "/" {
      names := SplitPath(path);
    }
  }

  lemma {:induction false} SplitPath(path: string) returns (names: seq<string>)
    requires Plain(path) && path != "/"
    ensures Names(names) && names != [] && Joined(names) == path
    decreases |path|
  {
    var k := 1;
    while k < |path| && path[k] != '/'
      invariant 1 <= k <= |path|
      invariant '/' !in path[1..k]
    {
      assert path[1..k + 1] == path[1..k] + [path[k]];
      k := k + 1;
    }
    var first, rest := path[1..k], path[k..];
    assert path == "/" + first + rest;
    if rest == "" {
      names := [first];
    } else {
      names := SplitPath(rest);
      names := [first] + names;
    }
  }

  /** The mount points by components. */
  ghost predicate Named(mounts: seq<Mount>, points: seq<seq<string>>) {
    |points| == |mounts| && forall j :: 0 <= j < |mounts| ==> Names(points[j]) && mounts[j].point == PathOf(points[j])
  }

  /** Mount `k` has the most components of those that begin the path, and is the last with so many. */
  ghost predicate DeepestNames(points: seq<seq<string>>, target: seq<string>, k: int) {
    && 0 <= k < |points| && points[k] <= target
    && forall j :: 0 <= j < |points| && points[j] <= target ==>
         |points[j]| <= |points[k]| && (j > k ==> |points[j]| < |points[k]|)
  }

  lemma {:induction false} JoinedGrows(a: seq<string>, b: seq<string>)
    requires Names(b) && a < b
    ensures |PathOf(a)| < |PathOf(b)| && |Joined(a)| < |Joined(b)|
  {
    if a != [] {
      JoinedGrows(a[1..], b[1..]);
    }
  }

  lemma DeeperIsLonger(a: seq<string>, b: seq<string>, target: seq<string>)
    requires Names(target) && a <= target && b <= target
    ensures |PathOf(a)| <= |PathOf(b)| <==> |a| <= |b|
  {
    if |a| < |b| {
      JoinedGrows(a, b);
    } else if |b| < |a| {
      JoinedGrows(b, a);
    } else {
      assert a == b;
    }
  }

  lemma DeepestByNames(mounts: seq<Mount>, points: seq<seq<string>>, target: seq<string>, k: nat)
    requires Named(mounts, points) && Names(target) && k < |mounts|
    ensures Deepest(mounts, PathOf(target), k) <==> DeepestNames(points, target, k)
  {
    forall j | 0 <= j < |mounts|
      ensures Matches(mounts[j].point, PathOf(target)) <==> points[j] <= target
      ensures points[j] <= target && points[k] <= target ==>
                (|mounts[j].point| <= |mounts[k].point| <==> |points[j]| <= |points[k]|)
                && (|mounts[k].point| <= |mounts[j].point| <==> |points[k]| <= |points[j]|)
    {
      MatchesIsPrefix(points[j], target);
      if points[j] <= target && points[k] <= target {
        DeeperIsLonger(points[j], points[k], target);
        DeeperIsLonger(points[k], points[j], target);
      }
    }
  }

  /** What is found is the value of the mount with the most components among those that begin the path. */
  ghost predicate FoundByNames(mounts: seq<Mount>, points: seq<seq<string>>, target: seq<string>, r: Option<string>)
    requires Named(mounts, points)
  {
    match r
    case None => forall j :: 0 <= j < |points| ==> !(points[j] <= target)
    case Some(value) => exists k :: DeepestNames(points, target, k) && mounts[k].value == value
  }

  /** By components: the result is the value of the last of the deepest mounts on the way to the path. */
  lemma ResolvesByNames(mounts: seq<Mount>, points: seq<seq<string>>, target: seq<string>, r: Option<string>)
    requires Named(mounts, points) && Names(target)
    ensures Resolves(mounts, PathOf(target), r) <==> FoundByNames(mounts, points, target, r)
  {
    forall k | 0 <= k < |mounts|
      ensures Matches(mounts[k].point, PathOf(target)) <==> points[k] <= target
      ensures Deepest(mounts, PathOf(target), k) <==> DeepestNames(points, target, k)
    {
      MatchesIsPrefix(points[k], target);
      DeepestByNames(mounts, points, target, k);
    }
  }

  // ---------- octal escapes ----------

  predicate Octal(c: char) {
    '0' <= c <= '7'
  }

  /** An escape: a backslash and three octal digits. */
  predicate EscapeAt(s: string, k: nat) {
    k + 4 <= |s| && s[k] == '\\' && Octal(s[k + 1]) && Octal(s[k + 2]) && Octal(s[k + 3])
  }

  function Digit(c: char): nat
    requires Octal(c)
  {
    c as nat - '0' as nat
  }

  function Code(s: string, k: nat): (n: nat)
    requires EscapeAt(s, k)
    ensures n < 512
  {
    64 * Digit(s[k + 1]) + 8 * Digit(s[k + 2]) + Digit(s[k + 3])
  }

  /** From left to right, each escape once. */
  function Decode(s: string): string {
    if s == "" then ""
    else if EscapeAt(s, 0) then [Code(s, 0) as char] + Decode(s[4..])
    else [s[0]] + Decode(s[1..])
  }

  lemma {:induction false} DecodeSkips(a: string, b: string)
    requires forall j :: 0 <= j < |a| ==> !EscapeAt(a + b, j)
    ensures Decode(a + b) == a + Decode(b)
  {
    if a == "" {
      assert a + b == b;
    } else {
      var s := a + b;
      assert !EscapeAt(s, 0);
      assert s[1..] == a[1..] + b;
      forall j | 0 <= j < |a| - 1
        ensures !EscapeAt(a[1..] + b, j)
      {
        assert !EscapeAt(s, j + 1);
      }
      DecodeSkips(a[1..], b);
      assert a == [a[0]] + a[1..];
    }
  }

  /** `match(mp, /\\[0-7][0-7][0-7]/)`: the leftmost escape. */
  method FindEscape(s: string) returns (k: nat)
    ensures k <= |s| && (k < |s| ==> EscapeAt(s, k))
    ensures forall j :: 0 <= j < k ==> !EscapeAt(s, j)
  {
    k := 0;
    while k < |s| && !EscapeAt(s, k)
      invariant k <= |s|
      invariant forall j :: 0 <= j < k ==> !EscapeAt(s, j)
    {
      k := k + 1;
    }
  }

  method DecodeOctal(escaped: string) returns (out: string)
    ensures out == Decode(escaped)
  {
    out := "";
    var mp := escaped;
    var k: nat := FindEscape(mp);
    while k < |mp|
      invariant k <= |mp| && (k < |mp| ==> EscapeAt(mp, k))
      invariant forall j :: 0 <= j < k ==> !EscapeAt(mp, j)
      invariant Decode(escaped) == out + Decode(mp)
      decreases |mp|
    {
      assert mp == mp[..k] + mp[k..];
      DecodeSkips(mp[..k], mp[k..]);
      DecodeHead(mp[k..]);
      assert EscapeAt(mp[k..], 0) && Code(mp[k..], 0) == Code(mp, k);
      out := out + mp[..k] + [Code(mp, k) as char];
      assert mp[k..][4..] == mp[k + 4..];
      mp := mp[k + 4..];
      k := FindEscape(mp);
    }
    assert mp + "" == mp;
    DecodeSkips(mp, "");
    out := out + mp;
  }

  lemma DecodeHead(s: string)
    requires EscapeAt(s, 0)
    ensures Decode(s) == [Code(s, 0) as char] + Decode(s[4..])
  {
  }

  function OctalDigit(n: nat): char
    requires n < 8
  {
    ('0' as nat + n) as char
  }

  function EscapeChar(c: char): string
    requires c as nat < 512
  {
    var n := c as nat;
    ['\\', OctalDigit(n / 64), OctalDigit(n / 8 % 8), OctalDigit(n % 8)]
  }

  /** An escaping of a path: some characters, among them the backslash, as octal escapes. */
  ghost predicate Escaping(escaped: set<char>) {
    '\\' in escaped && forall c :: c in escaped ==> c as nat < 512
  }

  function Escape(s: string, escaped: set<char>): string
    requires forall c :: c in escaped ==> c as nat < 512
  {
    if s == "" then ""
    else (if s[0] in escaped then EscapeChar(s[0]) else [s[0]]) + Escape(s[1..], escaped)
  }

  lemma EscapeCharDecodes(c: char, rest: string)
    requires c as nat < 512
    ensures Decode(EscapeChar(c) + rest) == [c] + Decode(rest)
  {
    var s := EscapeChar(c) + rest;
    assert s[0] == '\\' && EscapeAt(s, 0);
    assert Code(s, 0) == c as nat;
    assert s[4..] == rest;
  }

  lemma PlainCharDecodes(c: char, rest: string)
    requires c != '\\'
    ensures Decode([c] + rest) == [c] + Decode(rest)
  {
    var s := [c] + rest;
    assert s[0] == c && s[1..] == rest;
  }

  /**
   Decoding inverts escaping, whatever follows: the output is never decoded again,
   even where a path itself reads like an escape.
   */
  lemma {:induction false} DecodeInvertsEscape(s: string, escaped: set<char>, rest: string)
    requires Escaping(escaped)
    ensures Decode(Escape(s, escaped) + rest) == s + Decode(rest)
  {
    if s == "" {
      assert Escape(s, escaped) + rest == rest;
    } else {
      DecodeInvertsEscape(s[1..], escaped, rest);
      EscapeStep(s[0], s[1..], escaped, rest);
      assert [s[0]] + s[1..] == s;
    }
  }

  lemma EscapeStep(c: char, s: string, escaped: set<char>, rest: string)
    requires Escaping(escaped) && Decode(Escape(s, escaped) + rest) == s + Decode(rest)
    ensures Decode(Escape([c] + s, escaped) + rest) == [c] + s + Decode(rest)
  {
    var tail := Escape(s, escaped) + rest;
    var head := if c in escaped then EscapeChar(c) else [c];
    assert ([c] + s)[1..] == s;
    AppendAssoc(head, Escape(s, escaped), rest);
    AppendAssoc([c], s, Decode(rest));
    if c in escaped {
      EscapeCharDecodes(c, tail);
    } else {
      PlainCharDecodes(c, tail);
    }
  }
}
