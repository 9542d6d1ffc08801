/** Strings as Python's str methods see them; white space is that of ASCII. */
module Text {

  predicate IsSpace(c: char) {
    c == ' ' || c == '\t' || c == '\n' || c == '\r' || c == '\U{000B}' || c == '\U{000C}'
  }

  // --------------------------------------------------------------------------
  // strip

  function LStrip(s: string): string {
    if s != "" && IsSpace(s[0]) then LStrip(s[1..]) else s
  }

  function RStrip(s: string): string {
    if s != "" && IsSpace(s[|s| - 1]) then RStrip(s[..|s| - 1]) else s
  }

  function Strip(s: string): string { RStrip(LStrip(s)) }

  predicate Blank(s: string) { forall i :: 0 <= i < |s| ==> IsSpace(s[i]) }

  /** No white space at either end. */
  predicate Trim(s: string) { s == "" || (!IsSpace(s[0]) && !IsSpace(s[|s| - 1])) }

  lemma DropDrop(s: string, x: nat, y: nat)
    requires x + y <= |s|
    ensures s[x..][y..] == s[x + y..]
  {
  }

  lemma TakeTake(s: string, x: nat, y: nat)
    requires y <= x <= |s|
    ensures s[..x][..y] == s[..y]
  {
  }

  lemma {:induction false} LStripIs(s: string) returns (a: nat)
    ensures a <= |s| && LStrip(s) == s[a..] && Blank(s[..a]) && (a < |s| ==> !IsSpace(s[a]))
  {
    a := 0;
    if s != "" && IsSpace(s[0]) {
      var k := LStripIs(s[1..]);
      DropDrop(s, 1, k);
      assert s[..k + 1] == [s[0]] + s[1..][..k];
      a := k + 1;
    }
  }

  lemma {:induction false} RStripIs(s: string) returns (b: nat)
    ensures b <= |s| && RStrip(s) == s[..b] && Blank(s[b..]) && (b > 0 ==> !IsSpace(s[b - 1]))
  {
    b := |s|;
    if s != "" && IsSpace(s[|s| - 1]) {
      b := RStripIs(s[..|s| - 1]);
      TakeTake(s, |s| - 1, b);
      assert s[b..] == s[..|s| - 1][b..] + [s[|s| - 1]];
    }
  }

  /** Stripping takes the white space off both ends, and nothing else. */
  lemma StripTrims(s: string) returns (a: nat, b: nat)
    ensures a <= b <= |s| && Strip(s) == s[a..b] && Trim(Strip(s))
    ensures Blank(s) <==> Strip(s) == ""
    ensures Trim(s) ==> Strip(s) == s
  {
    a := LStripIs(s);
    var l := s[a..];
    var k := RStripIs(l);
    b := a + k;
    assert l[..k] == s[a..b];
    if k == 0 {
      assert l[k..] == l;
      assert s[..a] == s;
    } else {
      assert s[a] == l[0] && s[b - 1] == l[k - 1];
    }
  }

  // --------------------------------------------------------------------------
  // split and join

  /** The number of characters before the first c. */
  function Until(s: string, c: char): (n: nat)
    ensures n <= |s| && c !in s[..n] && (n < |s| ==> s[n] == c)
  {
    if s == "" || s[0] == c then 0 else 1 + Until(s[1..], c)
  }

  lemma {:induction false} UntilIs(s: string, c: char, n: nat)
    requires n <= |s| && c !in s[..n] && (n < |s| ==> s[n] == c)
    ensures Until(s, c) == n
  {
    if n > 0 {
      assert s[..n] == [s[0]] + s[1..][..n - 1];
      UntilIs(s[1..], c, n - 1);
    }
  }

  /** s.split(c) */
  function Split(s: string, c: char): (parts: seq<string>)
    ensures |parts| > 0 && forall p :: p in parts ==> c !in p
    decreases |s|
  {
    var n := Until(s, c);
    if n == |s| then [s[..n]] else [s[..n]] + Split(s[n + 1..], c)
  }

  /** sep.join(parts) */
  function Join(parts: seq<string>, sep: string): string {
    if parts == [] then "" else if |parts| == 1 then parts[0] else parts[0] + sep + Join(parts[1..], sep)
  }

  lemma SplitAt(s: string, c: char, n: nat)
    requires n < |s| && s[n] == c && c !in s[..n]
    ensures Split(s, c) == [s[..n]] + Split(s[n + 1..], c)
  {
    UntilIs(s, c, n);
  }

  lemma SplitNone(a: string, c: char)
    requires c !in a
    ensures Split(a, c) == [a]
  {
    assert a[..|a|] == a;
    UntilIs(a, c, |a|);
  }

  lemma ConcatShape(a: string, c: char, b: string, n: nat)
    requires n <= |a|
    ensures var s := a + [c] + b;
            && s[..n] == a[..n] && s[n] == (if n == |a| then c else a[n])
            && s[n + 1..] == (if n == |a| then b else a[n + 1..] + [c] + b)
  {
  }

  lemma SplitOf(a: string, c: char, b: string)
    requires c !in a
    ensures Split(a + [c] + b, c) == [a] + Split(b, c)
  {
    assert a[..|a|] == a;
    ConcatShape(a, c, b, |a|);
    SplitAt(a + [c] + b, c, |a|);
  }

  lemma SplitPrefixOf(p: string, a: string, c: char, b: string)
    requires c !in p && c !in a
    ensures Split(p + (a + [c] + b), c) == [p + a] + Split(b, c)
  {
    assert p + (a + [c] + b) == (p + a) + [c] + b;
    SplitOf(p + a, c, b);
  }

  lemma AroundIndex(s: string, n: nat)
    requires n < |s|
    ensures s == s[..n] + [s[n]] + s[n + 1..]
  {
  }

  /** A text without c in front belongs to the first part. */
  lemma SplitPrefix(p: string, s: string, c: char)
    requires c !in p
    ensures Split(p + s, c) == [p + Split(s, c)[0]] + Split(s, c)[1..]
  {
    var n := Until(s, c);
    if n < |s| {
      AroundIndex(s, n);
      SplitPrefixOf(p, s[..n], c, s[n + 1..]);
      SplitOf(s[..n], c, s[n + 1..]);
    } else {
      assert s[..n] == s;
      SplitNone(s, c);
      SplitNone(p + s, c);
    }
  }

  lemma SplitConcatOf(a1: string, c: char, a2: string, b: string)
    requires c !in a1
    ensures Split((a1 + [c] + a2) + [c] + b, c) == [a1] + Split(a2 + [c] + b, c)
  {
    assert (a1 + [c] + a2) + [c] + b == a1 + [c] + (a2 + [c] + b);
    SplitOf(a1, c, a2 + [c] + b);
  }

  lemma {:induction false} SplitConcat(a: string, c: char, b: string)
    ensures Split(a + [c] + b, c) == Split(a, c) + Split(b, c)
    decreases |a|
  {
    var n := Until(a, c);
    if n < |a| {
      AroundIndex(a, n);
      SplitOf(a[..n], c, a[n + 1..]);
      SplitConcat(a[n + 1..], c, b);
      SplitConcatOf(a[..n], c, a[n + 1..], b);
    } else {
      assert a[..n] == a;
      SplitNone(a, c);
      SplitOf(a, c, b);
    }
  }

  lemma SplitStep(a: string, c: char, n: nat)
    requires n == Until(a, c)
    ensures Split(a, c) == [a[..n]] + (if n == |a| then [] else Split(a[n + 1..], c))
  {
  }

  lemma {:induction false} SplitJoin(parts: seq<string>, c: char)
    requires parts != [] && forall p :: p in parts ==> c !in p
    ensures Split(Join(parts, [c]), c) == parts
  {
    if |parts| == 1 {
      SplitNone(parts[0], c);
    } else {
      var s, rest := Join(parts, [c]), Join(parts[1..], [c]);
      assert s == parts[0] + [c] + rest && s[..|parts[0]|] == parts[0] && s[|parts[0]| + 1..] == rest;
      SplitAt(s, c, |parts[0]|);
      SplitJoin(parts[1..], c);
    }
  }

  lemma {:induction false} JoinSplit(s: string, c: char)
    ensures Join(Split(s, c), [c]) == s
    decreases |s|
  {
    var n := Until(s, c);
    SplitStep(s, c, n);
    Cut(s, n);
    if n < |s| {
      JoinSplit(s[n + 1..], c);
      JoinCons(s[..n], Split(s[n + 1..], c), [c]);
    }
  }

  lemma Cut(s: string, n: nat)
    requires n <= |s|
    ensures s == if n == |s| then s[..n] else s[..n] + [s[n]] + s[n + 1..]
  {
  }

  lemma JoinCons(first: string, rest: seq<string>, sep: string)
    requires rest != []
    ensures Join([first] + rest, sep) == first + sep + Join(rest, sep)
  {
    assert ([first] + rest)[1..] == rest;
  }
}
