/**
 * Renaming packages in relationship fields (create-hwe.py): every package name
 * that stands alone gets the suffix "-hwe".
 */
module Rename {
  import opened Text

  const SUFFIX := "-hwe"

  /** The characters of package names, and the capital letters. */
  predicate WordChar(c: char) {
    'a' <= c <= 'z' || 'A' <= c <= 'Z' || '0' <= c <= '9' || c == '+' || c == '.' || c == '-'
  }

  predicate AllWord(s: string) { forall i :: 0 <= i < |s| ==> WordChar(s[i]) }

  predicate IsName(s: string) { s != "" && AllWord(s) }

  /** What PACKAGE_RE takes for a name; a backslash would be read as an escape in the replacement. */
  predicate IsPackage(s: string) { s != "" && forall i :: 0 <= i < |s| ==> !IsSpace(s[i]) && s[i] != '\\' }

  type Package = s: string | IsPackage(s) witness "a"

  // --------------------------------------------------------------------------
  // The meaning: maximal words are mapped, everything else stays

  datatype Piece = Word(word: string) | Other(mark: char)

  function Run(t: string): (n: nat)
    ensures n <= |t| && (forall i :: 0 <= i < n ==> WordChar(t[i])) && (n < |t| ==> !WordChar(t[n]))
  {
    if t == "" || !WordChar(t[0]) then 0 else 1 + Run(t[1..])
  }

  /** A text as a sequence of maximal words and of single other characters. */
  function Pieces(t: string): seq<Piece>
    decreases |t|
  {
    if t == "" then []
    else if WordChar(t[0]) then [Word(t[..Run(t)])] + Pieces(t[Run(t)..])
    else [Other(t[0])] + Pieces(t[1..])
  }

  function PieceText(p: Piece): string { if p.Word? then p.word else [p.mark] }

  function Render(ps: seq<Piece>): string {
    if ps == [] then "" else PieceText(ps[0]) + Render(ps[1..])
  }

  function MapPiece(p: Piece, names: set<string>): Piece {
    if p.Word? && p.word in names then Word(p.word + SUFFIX) else p
  }

  function MapPieces(ps: seq<Piece>, names: set<string>): seq<Piece> {
    seq(|ps|, i requires 0 <= i < |ps| => MapPiece(ps[i], names))
  }

  /** All the names at once. */
  function Renamed(t: string, names: set<string>): string { Render(MapPieces(Pieces(t), names)) }

  predicate PieceOk(p: Piece) { if p.Word? then IsName(p.word) else !WordChar(p.mark) }

  /** Words do not touch. */
  predicate Apart(ps: seq<Piece>) {
    && (forall i :: 0 <= i < |ps| ==> PieceOk(ps[i]))
    && (forall i :: 0 <= i < |ps| - 1 ==> ps[i].Other? || ps[i + 1].Other?)
  }

  lemma {:induction false} PiecesApart(t: string)
    ensures Render(Pieces(t)) == t && Apart(Pieces(t))
    ensures t != "" ==> Pieces(t) != [] && (Pieces(t)[0].Word? <==> WordChar(t[0]))
    decreases |t|
  {
    if t != "" {
      if WordChar(t[0]) {
        PiecesApart(t[Run(t)..]);
        Halves(t, Run(t));
        ApartCons(Word(t[..Run(t)]), Pieces(t[Run(t)..]));
      } else {
        PiecesApart(t[1..]);
        ApartCons(Other(t[0]), Pieces(t[1..]));
      }
    }
  }

  lemma Halves(t: string, n: nat)
    requires n <= |t|
    ensures t[..n] + t[n..] == t
  {
  }

  lemma ApartCons(p: Piece, ps: seq<Piece>)
    requires PieceOk(p) && Apart(ps) && (p.Other? || ps == [] || ps[0].Other?)
    ensures Apart([p] + ps) && Render([p] + ps) == PieceText(p) + Render(ps)
  {
    RenderCons(p, ps);
  }

  lemma RunIs(t: string, n: nat)
    requires n <= |t| && (forall i :: 0 <= i < n ==> WordChar(t[i])) && (n < |t| ==> !WordChar(t[n]))
    ensures Run(t) == n
  {
  }

  lemma WordFirst(w: string, rest: string)
    requires IsName(w) && (rest == "" || !WordChar(rest[0]))
    ensures Pieces(w + rest) == [Word(w)] + Pieces(rest)
  {
    var t := w + rest;
    assert t[..|w|] == w && t[|w|..] == rest && t[0] == w[0];
    RunIs(t, |w|);
  }

  lemma OtherFirst(c: char, rest: string)
    requires !WordChar(c)
    ensures Pieces([c] + rest) == [Other(c)] + Pieces(rest)
  {
    assert ([c] + rest)[1..] == rest;
  }

  /** Pieces that do not touch are found again in the text. */
  lemma {:induction false} PiecesRender(ps: seq<Piece>)
    requires Apart(ps)
    ensures Pieces(Render(ps)) == ps
    ensures ps != [] ==> Render(ps) != "" && (ps[0].Word? <==> WordChar(Render(ps)[0]))
  {
    if ps != [] {
      var rest := ps[1..];
      assert Apart(rest) by {
        assert forall i :: 0 <= i < |rest| ==> rest[i] == ps[i + 1];
      }
      PiecesRender(rest);
      assert ps == [ps[0]] + rest;
      assert PieceOk(ps[0]);
      if ps[0].Word? {
        assert rest != [] ==> ps[0].Other? || ps[1].Other?;
        WordFirst(ps[0].word, Render(rest));
      } else {
        OtherFirst(ps[0].mark, Render(rest));
      }
    }
  }

  lemma MapKeepsApart(ps: seq<Piece>, names: set<string>)
    requires Apart(ps)
    ensures Apart(MapPieces(ps, names))
  {
    var qs := MapPieces(ps, names);
    forall i | 0 <= i < |qs|
      ensures PieceOk(qs[i])
    {
      assert PieceOk(ps[i]);
    }
    forall i | 0 <= i < |qs| - 1
      ensures qs[i].Other? || qs[i + 1].Other?
    {
      assert ps[i].Other? || ps[i + 1].Other?;
    }
  }

  /** Renaming maps the maximal words, and keeps every other character in its place. */
  lemma RenamedPieces(t: string, names: set<string>)
    ensures Pieces(Renamed(t, names)) == MapPieces(Pieces(t), names)
  {
    PiecesApart(t);
    MapKeepsApart(Pieces(t), names);
    PiecesRender(MapPieces(Pieces(t), names));
  }

  lemma RenamedNone(t: string)
    ensures Renamed(t, {}) == t
  {
    PiecesApart(t);
    assert MapPieces(Pieces(t), {}) == Pieces(t);
  }

  /** Nothing is renamed twice. */
  predicate NoChain(names: set<string>) { forall a :: a in names ==> a + SUFFIX !in names }

  lemma RenamedThen(t: string, names: set<string>, more: set<string>)
    requires forall a :: a in names ==> a + SUFFIX !in more
    ensures Renamed(Renamed(t, names), more) == Renamed(t, names + more)
  {
    RenamedPieces(t, names);
    var ps := Pieces(t);
    assert MapPieces(MapPieces(ps, names), more) == MapPieces(ps, names + more);
  }

  /** Renaming again changes nothing. */
  lemma RenamedTwice(t: string, names: set<string>)
    requires NoChain(names)
    ensures Renamed(Renamed(t, names), names) == Renamed(t, names)
  {
    RenamedThen(t, names, names);
    assert names + names == names;
  }

  /** If the renamed form of a name is a name too, it does change something. */
  lemma ChainsRenameAgain(a: string, names: set<string>)
    requires IsName(a) && a in names && a + SUFFIX in names
    ensures Renamed(Renamed(a, names), names) != Renamed(a, names)
  {
    SingleWord(a, names);
    SingleWord(a + SUFFIX, names);
  }

  lemma SingleWord(w: string, names: set<string>)
    requires IsName(w)
    ensures Renamed(w, names) == if w in names then w + SUFFIX else w
  {
    assert w + "" == w;
    WordFirst(w, "");
    var ps := MapPieces(Pieces(w), names);
    assert ps == [MapPiece(Word(w), names)] && ps[1..] == [];
    assert Render(ps) == PieceText(ps[0]) + Render([]);
  }

  // --------------------------------------------------------------------------
  // re.sub with the regular expression for one name

  /** The name stands here, and no character of a name follows. */
  predicate Matches(t: string, name: string) {
    name <= t && (|name| == |t| || !WordChar(t[|name|]))
  }

  /** `inside` if a character of a name comes before t. */
  function Sub(t: string, inside: bool, name: Package): string
    decreases |t|
  {
    if t == "" then ""
    else if !inside && Matches(t, name)
    then name + SUFFIX + Sub(t[|name|..], WordChar(name[|name| - 1]), name)
    else [t[0]] + Sub(t[1..], WordChar(t[0]), name)
  }

  /** The rest of a word is copied. */
  lemma {:induction false} SubCopies(t: string, name: string)
    requires IsName(name)
    ensures Sub(t, true, name) == t[..Run(t)] + Sub(t[Run(t)..], false, name)
    decreases |t|, 1
  {
    if t != "" && WordChar(t[0]) {
      CopyWord(t, name, Run(t));
    } else {
      assert t[0..] == t && t[..0] == "";
      SubAfterWord(t, name);
    }
  }

  lemma {:induction false} CopyWord(t: string, name: string, n: nat)
    requires IsName(name) && 0 < n <= |t| && n == 1 + Run(t[1..])
    ensures [t[0]] + Sub(t[1..], true, name) == t[..n] + Sub(t[n..], false, name)
    decreases |t|, 0
  {
    var w, rest := t[1..][..n - 1], Sub(t[n..], false, name);
    assert Sub(t[1..], true, name) == w + rest by {
      assert t[1..][n - 1..] == t[n..];
      SubCopies(t[1..], name);
    }
    assert [t[0]] + w == t[..n] by { WordTail(t, n); }
    Associate([t[0]], w, rest);
  }

  lemma {:induction false} SubRenames(t: string, name: string)
    requires IsName(name)
    ensures Sub(t, false, name) == Renamed(t, {name})
    decreases |t|
  {
    if t != "" {
      var n := Run(t);
      if !WordChar(t[0]) {
        SubRenames(t[1..], name);
        RenamedCons(Other(t[0]), t[1..], {name}, t);
      } else {
        SubRenames(t[n..], name);
        RenamedCons(Word(t[..n]), t[n..], {name}, t);
        SubWord(t, name);
      }
    }
  }

  lemma RenamedCons(p: Piece, rest: string, names: set<string>, t: string)
    requires Pieces(t) == [p] + Pieces(rest)
    ensures Renamed(t, names) == PieceText(MapPiece(p, names)) + Renamed(rest, names)
  {
    MapCons(p, Pieces(rest), names);
    RenderCons(MapPiece(p, names), MapPieces(Pieces(rest), names));
  }

  lemma MapCons(p: Piece, ps: seq<Piece>, names: set<string>)
    ensures MapPieces([p] + ps, names) == [MapPiece(p, names)] + MapPieces(ps, names)
  {
  }

  lemma RenderCons(p: Piece, ps: seq<Piece>)
    ensures Render([p] + ps) == PieceText(p) + Render(ps)
  {
    assert ([p] + ps)[1..] == ps;
  }

  /** A name matches at the beginning of a word if and only if it is the whole word. */
  lemma MatchesIsWord(t: string, name: string)
    requires IsName(name) && t != "" && WordChar(t[0])
    ensures Matches(t, name) <==> t[..Run(t)] == name
  {
    if Matches(t, name) {
      assert t[..|name|] == name;
      RunIs(t, |name|);
    }
  }

  lemma WordTail(t: string, n: nat)
    requires 0 < n <= |t|
    ensures t[1..][n - 1..] == t[n..] && [t[0]] + t[1..][..n - 1] == t[..n]
  {
  }

  lemma SubAfterWord(t: string, name: string)
    requires IsName(name) && (t == "" || !WordChar(t[0]))
    ensures Sub(t, true, name) == Sub(t, false, name)
  {
  }

  lemma SubWord(t: string, name: string)
    requires IsName(name) && t != "" && WordChar(t[0])
    ensures var n := Run(t);
            Sub(t, false, name) == (if t[..n] == name then name + SUFFIX else t[..n]) + Sub(t[n..], false, name)
  {
    MatchesIsWord(t, name);
    if Matches(t, name) {
      SubMatches(t, name);
      SubAfterWord(t[|name|..], name);
    } else {
      SubWordSkips(t, name);
    }
  }

  lemma SubWordSkips(t: string, name: string)
    requires IsName(name) && t != "" && WordChar(t[0]) && !Matches(t, name)
    ensures Sub(t, false, name) == t[..Run(t)] + Sub(t[Run(t)..], false, name)
  {
    SubSkips(t, name);
    CopyWord(t, name, Run(t));
  }

  lemma SubMatches(t: string, name: string)
    requires IsName(name) && t != "" && Matches(t, name)
    ensures Sub(t, false, name) == name + SUFFIX + Sub(t[|name|..], true, name)
  {
  }

  lemma SubSkips(t: string, name: string)
    requires IsName(name) && t != "" && !Matches(t, name)
    ensures Sub(t, false, name) == [t[0]] + Sub(t[1..], WordChar(t[0]), name)
  {
  }

  lemma Associate(a: string, b: string, c: string)
    ensures a + (b + c) == a + b + c
  {
  }

  /** The name stands at i, with no character of a name on either side; `inside` as for Sub. */
  predicate StandsAt(t: string, inside: bool, name: string, i: int) {
    && 0 <= i <= |t| - |name| && t[i..i + |name|] == name
    && (if i == 0 then !inside else !WordChar(t[i - 1]))
    && (i + |name| < |t| ==> !WordChar(t[i + |name|]))
  }

  lemma StandsLater(t: string, inside: bool, name: Package, i: nat)
    requires t != "" && i < |t|
    ensures StandsAt(t[1..], WordChar(t[0]), name, i) <==> StandsAt(t, inside, name, i + 1)
    ensures StandsAt(t, inside, name, 0) <==> !inside && Matches(t, name)
  {
    if i + |name| <= |t[1..]| { assert t[1..][i..i + |name|] == t[i + 1..i + 1 + |name|]; }
    if |name| <= |t| { assert t[0..|name|] == t[..|name|]; }
  }

  function Replaced(t: string, name: Package, i: nat): string
    requires i + |name| <= |t|
  {
    name + SUFFIX + Sub(t[i + |name|..], WordChar(name[|name| - 1]), name)
  }

  lemma ReplacedLater(t: string, name: Package, i: nat)
    requires 0 < i && i + |name| <= |t|
    ensures Replaced(t[1..], name, i - 1) == Replaced(t, name, i)
  {
    assert t[1..][i - 1 + |name|..] == t[i + |name|..];
  }

  lemma SubMoves(t: string, inside: bool, name: Package, i: nat)
    requires 0 < i && i + |name| <= |t| && (inside || !Matches(t, name))
    requires Sub(t[1..], WordChar(t[0]), name) == t[1..][..i - 1] + Replaced(t, name, i)
    ensures Sub(t, inside, name) == t[..i] + Replaced(t, name, i)
  {
    var w, rest := t[1..][..i - 1], Replaced(t, name, i);
    assert Sub(t, inside, name) == [t[0]] + (w + rest);
    assert [t[0]] + w == t[..i] by { WordTail(t, i); }
    Associate([t[0]], w, rest);
  }

  lemma NotEarlier(t: string, inside: bool, name: Package, i: nat)
    requires 0 < i <= |t| && forall k :: 0 <= k < i ==> !StandsAt(t, inside, name, k)
    ensures forall k :: 0 <= k < i - 1 ==> !StandsAt(t[1..], WordChar(t[0]), name, k)
    ensures inside || !Matches(t, name)
  {
    StandsLater(t, inside, name, 0);
    forall k | 0 <= k < i - 1
      ensures !StandsAt(t[1..], WordChar(t[0]), name, k)
    {
      StandsLater(t, inside, name, k);
    }
  }

  lemma {:induction false} SubReplaces(t: string, inside: bool, name: Package, i: nat)
    requires StandsAt(t, inside, name, i) && forall k :: 0 <= k < i ==> !StandsAt(t, inside, name, k)
    ensures Sub(t, inside, name) == t[..i] + Replaced(t, name, i)
    decreases |t|
  {
    if i == 0 {
      StandsLater(t, inside, name, 0);
      assert t[..0] + Replaced(t, name, 0) == Replaced(t, name, 0);
    } else {
      NotEarlier(t, inside, name, i);
      assert Sub(t[1..], WordChar(t[0]), name) == t[1..][..i - 1] + Replaced(t, name, i) by {
        StandsLater(t, inside, name, i - 1);
        SubReplaces(t[1..], WordChar(t[0]), name, i - 1);
        ReplacedLater(t, name, i);
      }
      SubMoves(t, inside, name, i);
    }
  }

  /** The leftmost place where the name stands gets the suffix, and the search goes on behind it. */
  lemma SubLeftmost(t: string, inside: bool, name: Package, i: nat)
    requires StandsAt(t, inside, name, i) && forall k :: 0 <= k < i ==> !StandsAt(t, inside, name, k)
    ensures Sub(t, inside, name) ==
              t[..i] + (name + SUFFIX + Sub(t[i + |name|..], WordChar(name[|name| - 1]), name))
  {
    SubReplaces(t, inside, name, i);
  }

  /** A text in which the name stands nowhere is not changed. */
  lemma {:induction false} SubNowhere(t: string, inside: bool, name: Package)
    requires forall k :: 0 <= k < |t| ==> !StandsAt(t, inside, name, k)
    ensures Sub(t, inside, name) == t
    decreases |t|
  {
    if t != "" {
      StandsLater(t, inside, name, 0);
      forall k | 0 <= k < |t[1..]|
        ensures !StandsAt(t[1..], WordChar(t[0]), name, k)
      {
        StandsLater(t, inside, name, k);
      }
      SubNowhere(t[1..], WordChar(t[0]), name);
      assert t == [t[0]] + t[1..];
    }
  }

  /** A name with another character in it is never a whole word, but it is found. */
  lemma OddName(name: Package)
    requires !IsName(name)
    ensures Sub(name, false, name) == name + SUFFIX && Renamed(name, {name}) == name
  {
    assert name[|name|..] == "";
    PiecesApart(name);
    var ps := Pieces(name);
    forall i | 0 <= i < |ps|
      ensures MapPiece(ps[i], {name}) == ps[i]
    {
      assert PieceOk(ps[i]);
    }
    assert MapPieces(ps, {name}) == ps;
  }

  /** The substitution renames whole words, in every text, if and only if the name is a word. */
  lemma WholeWordsIff(name: Package)
    ensures (forall t :: Sub(t, false, name) == Renamed(t, {name})) <==> IsName(name)
  {
    if IsName(name) {
      forall t
        ensures Sub(t, false, name) == Renamed(t, {name})
      {
        SubRenames(t, name);
      }
    } else {
      OddName(name);
      assert Sub(name, false, name) != Renamed(name, {name});
    }
  }

  // --------------------------------------------------------------------------
  // rename_package_words

  /** One name after the other, in this order. */
  function InOrder(t: string, names: seq<Package>): string {
    if names == [] then t else Sub(InOrder(t, names[..|names| - 1]), false, names[|names| - 1])
  }

  function Names(names: seq<string>): set<string> { set x | x in names }

  /** No name is the renamed form of an earlier one. */
  predicate Fresh(names: seq<string>) {
    forall i, j :: 0 <= i < j < |names| ==> names[i] + SUFFIX != names[j]
  }

  lemma {:induction false} InOrderIsRenamed(t: string, names: seq<Package>)
    requires (forall x :: x in names ==> IsName(x)) && Fresh(names)
    ensures InOrder(t, names) == Renamed(t, Names(names))
  {
    if names == [] {
      RenamedNone(t);
      assert Names(names) == {};
    } else {
      var init, last := names[..|names| - 1], names[|names| - 1];
      assert names == init + [last];
      InOrderIsRenamed(t, init);
      SubRenames(InOrder(t, init), last);
      forall a | a in Names(init)
        ensures a + SUFFIX !in {last}
      {
        var i :| 0 <= i < |init| && init[i] == a;
        assert names[i] + SUFFIX != names[|names| - 1];
      }
      RenamedThen(t, Names(init), {last});
      assert Names(init) + {last} == Names(names);
    }
  }

  /** If no name ends in the suffix, the order of the names does not matter. */
  lemma OrderIndependent(t: string, a: seq<Package>, b: seq<Package>)
    requires Names(a) == Names(b) && forall x :: x in a ==> IsName(x) && !EndsInSuffix(x)
    requires forall x :: x in b ==> IsName(x)
    ensures InOrder(t, a) == InOrder(t, b)
  {
    forall x | x in b
      ensures x in a
    {
      assert x in Names(b);
    }
    PlainIsFresh(a);
    PlainIsFresh(b);
    InOrderIsRenamed(t, a);
    InOrderIsRenamed(t, b);
  }

  predicate EndsInSuffix(x: string) { |x| >= |SUFFIX| && x[|x| - |SUFFIX|..] == SUFFIX }

  lemma PlainIsFresh(names: seq<string>)
    requires forall x :: x in names ==> !EndsInSuffix(x)
    ensures Fresh(names) && NoChain(Names(names))
  {
    forall x: string
      ensures x + SUFFIX !in names
    {
      assert (x + SUFFIX)[|x|..] == SUFFIX;
      assert EndsInSuffix(x + SUFFIX);
    }
  }

  predicate LongestFirst(names: seq<string>) { forall i, j :: 0 <= i < j < |names| ==> |names[i]| >= |names[j]| }

  /** Behind all names that are at least as long. */
  function Insert(sorted: seq<Package>, x: Package): seq<Package> {
    if sorted == [] || |sorted[|sorted| - 1]| >= |x| then sorted + [x]
    else Insert(sorted[..|sorted| - 1], x) + [sorted[|sorted| - 1]]
  }

  /** sorted(names, key=len, reverse=True) */
  function ByLength(names: seq<Package>): seq<Package> {
    if names == [] then [] else Insert(ByLength(names[..|names| - 1]), names[|names| - 1])
  }

  lemma {:induction false} InsertCounts(sorted: seq<Package>, x: Package)
    ensures multiset(Insert(sorted, x)) == multiset(sorted) + multiset{x}
  {
    if sorted == [] || |sorted[|sorted| - 1]| >= |x| {
    } else {
      InsertCounts(sorted[..|sorted| - 1], x);
      assert sorted == sorted[..|sorted| - 1] + [sorted[|sorted| - 1]];
    }
  }

  lemma AppendSorted(a: seq<Package>, y: Package)
    requires LongestFirst(a) && forall i :: 0 <= i < |a| ==> |a[i]| >= |y|
    ensures LongestFirst(a + [y])
  {
  }

  lemma {:induction false} InsertSorts(sorted: seq<Package>, x: Package)
    requires LongestFirst(sorted)
    ensures LongestFirst(Insert(sorted, x))
  {
    if sorted == [] {
    } else {
      var init, last := sorted[..|sorted| - 1], sorted[|sorted| - 1];
      if |last| >= |x| {
        AppendSorted(sorted, x);
      } else {
        InsertSorts(init, x);
        InsertBounded(init, x, |last|);
        AppendSorted(Insert(init, x), last);
      }
    }
  }

  lemma InsertBounded(sorted: seq<Package>, x: Package, n: nat)
    requires |x| >= n && forall i :: 0 <= i < |sorted| ==> |sorted[i]| >= n
    ensures forall i :: 0 <= i < |Insert(sorted, x)| ==> |Insert(sorted, x)[i]| >= n
  {
    InsertCounts(sorted, x);
    forall i | 0 <= i < |Insert(sorted, x)|
      ensures |Insert(sorted, x)[i]| >= n
    {
      assert Insert(sorted, x)[i] in multiset(sorted) + multiset{x};
    }
  }

  /** The names are sorted, none is lost or made up, and names of one length stay in their order. */
  lemma {:induction false} ByLengthSorts(names: seq<Package>)
    ensures LongestFirst(ByLength(names)) && multiset(ByLength(names)) == multiset(names)
    ensures forall n: nat :: OfLength(ByLength(names), n) == OfLength(names, n)
  {
    if names == [] {
    } else {
      var init, last := names[..|names| - 1], names[|names| - 1];
      assert names == init + [last];
      ByLengthSorts(init);
      InsertSorts(ByLength(init), last);
      InsertCounts(ByLength(init), last);
      forall n: nat
        ensures OfLength(ByLength(names), n) == OfLength(names, n)
      {
        InsertStable(ByLength(init), last, n);
      }
    }
  }

  function OfLength(names: seq<string>, n: nat): seq<string> {
    if names == [] then []
    else OfLength(names[..|names| - 1], n) + if |names[|names| - 1]| == n then [names[|names| - 1]] else []
  }

  lemma OfLengthMore(names: seq<string>, x: string, n: nat)
    ensures OfLength(names + [x], n) == OfLength(names, n) + if |x| == n then [x] else []
  {
    assert (names + [x])[..|names|] == names;
  }

  lemma {:induction false} InsertStable(sorted: seq<Package>, x: Package, n: nat)
    requires LongestFirst(sorted)
    ensures OfLength(Insert(sorted, x), n) == OfLength(sorted, n) + if |x| == n then [x] else []
  {
    if sorted == [] || |sorted[|sorted| - 1]| >= |x| {
      OfLengthMore(sorted, x, n);
    } else {
      var init, last := sorted[..|sorted| - 1], sorted[|sorted| - 1];
      InsertStable(init, x, n);
      OfLengthMore(Insert(init, x), last, n);
    }
  }

  /** The longest names first, one after the other, is all names at once. */
  lemma ByLengthRenames(t: string, mapping: seq<Package>)
    requires forall x :: x in mapping ==> IsName(x)
    ensures InOrder(t, ByLength(mapping)) == Renamed(t, Names(mapping))
  {
    SameNames(mapping);
    InOrderIsRenamed(t, ByLength(mapping));
  }

  lemma SameNames(mapping: seq<Package>)
    ensures (forall x :: x in ByLength(mapping) <==> x in mapping) && Names(ByLength(mapping)) == Names(mapping)
    ensures Fresh(ByLength(mapping))
  {
    ByLengthSorts(mapping);
    forall x
      ensures x in ByLength(mapping) <==> x in mapping
    {
      assert x in multiset(ByLength(mapping)) <==> x in multiset(mapping);
    }
  }

  method RenamePackageWords(text: string, mapping: seq<Package>) returns (updated: string)
    ensures updated == InOrder(text, ByLength(mapping))
    ensures (forall x :: x in mapping ==> IsName(x)) ==> updated == Renamed(text, Names(mapping))
  {
    var names := ByLength(mapping);
    updated := text;
    for i := 0 to |names|
      invariant updated == InOrder(text, names[..i])
    {
      assert names[..i + 1][..i] == names[..i];
      updated := Sub(updated, false, names[i]);
    }
    assert names[..|names|] == names;
    if forall x :: x in mapping ==> IsName(x) { ByLengthRenames(text, mapping); }
  }

  // --------------------------------------------------------------------------
  // The mapping that process_control_text builds

  const SKIPPED := "ubuntu-virt"

  predicate Skipped(package: string) { SKIPPED <= package }

  lemma NameTests(p: string)
    ensures Skipped(p) <==> exists q :: p == "ubuntu-virt" + q
    ensures EndsInSuffix(p) <==> exists q :: p == q + "-hwe"
  {
    if Skipped(p) { assert p == "ubuntu-virt" + p[|SKIPPED|..]; }
    if EndsInSuffix(p) { assert p == p[..|p| - |SUFFIX|] + "-hwe"; }
    if q :| p == q + "-hwe" { assert p[|p| - |SUFFIX|..] == SUFFIX; }
  }

  datatype Mapping = Mapping(names: seq<Package>) | AlreadyRenamed

  /** The names to rename are those of all packages that are not skipped; none may have the suffix yet. */
  method BuildMapping(packages: seq<Package>) returns (r: Mapping)
    ensures r.AlreadyRenamed? <==> exists p :: p in packages && !Skipped(p) && EndsInSuffix(p)
    ensures r.Mapping? ==> (forall p :: p in r.names <==> p in packages && !Skipped(p)) && NoChain(Names(r.names))
    ensures forall p :: p in packages ==> (Skipped(p) <==> exists q :: p == "ubuntu-virt" + q)
    ensures forall p :: p in packages ==> (EndsInSuffix(p) <==> exists q :: p == q + "-hwe")
  {
    forall p | p in packages
      ensures Skipped(p) <==> exists q :: p == "ubuntu-virt" + q
      ensures EndsInSuffix(p) <==> exists q :: p == q + "-hwe"
    {
      NameTests(p);
    }
    var names: seq<Package> := [];
    for i := 0 to |packages|
      invariant forall p :: p in names <==> p in packages[..i] && !Skipped(p)
      invariant forall p :: p in names ==> !EndsInSuffix(p)
    {
      var package := packages[i];
      assert packages[..i + 1] == packages[..i] + [package];
      if Skipped(package) { continue; }
      if EndsInSuffix(package) { return AlreadyRenamed; }
      if package !in names { names := names + [package]; }
    }
    assert packages[..|packages|] == packages;
    PlainIsFresh(names);
    return Mapping(names);
  }
}
