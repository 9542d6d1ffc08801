/**
 * Renaming packages in the relationship fields of a stanza of debian/control
 * (create-hwe.py): the lines of the first field of each kind, comments excepted.
 */
module RenameStanza {
  import opened Common
  import opened Rename
  import opened Text

  const FIELDS: seq<string> := [
    "Depends", "Pre-Depends", "Recommends", "Suggests", "Enhances", "Breaks", "Conflicts", "Replaces", "Provides"]

  // --------------------------------------------------------------------------
  // Lines

  predicate Indents(c: char) { c == ' ' || c == '\t' }

  /** A line that continues a field. */
  predicate Continued(line: string) { line != "" && Indents(line[0]) }

  /** line.startswith(field + ":") */
  predicate Begins(line: string, field: string) { field + ":" <= line }

  /** The number of blanks and tabs that the line begins with. */
  function Indent(line: string): (n: nat)
    ensures n <= |line| && (n < |line| ==> !Indents(line[n]))
    ensures forall i :: 0 <= i < n ==> Indents(line[i])
  {
    if Continued(line) then 1 + Indent(line[1..]) else 0
  }

  /** payload.lstrip().startswith("#") */
  predicate Comment(payload: string) { LStrip(payload) != "" && LStrip(payload)[0] == '#' }

  /** The first line of a field: what comes after the colon is renamed. */
  function NewHeader(line: string, names: seq<Package>): string {
    var n := Until(line, ':');
    if n == |line| then line else line[..n] + [':'] + InOrder(line[n + 1..], names)
  }

  /** A further line: what comes after the indentation is renamed, unless it is a comment. */
  function NewContinuation(line: string, names: seq<Package>): string {
    var n := Indent(line);
    if Comment(line[n..]) then line else line[..n] + InOrder(line[n..], names)
  }

  function NewLine(line: string, names: seq<Package>): string {
    if Continued(line) then NewContinuation(line, names) else NewHeader(line, names)
  }

  // --------------------------------------------------------------------------
  // A new line is of the same kind, and is not changed again

  lemma SubFirst(t: string, inside: bool, name: Package)
    ensures t == "" <==> Sub(t, inside, name) == ""
    ensures t != "" ==> Sub(t, inside, name)[0] == t[0]
  {
  }

  lemma {:induction false} SubKeepsComment(t: string, inside: bool, name: Package)
    ensures Comment(Sub(t, inside, name)) <==> Comment(t)
    decreases |t|
  {
    SubFirst(t, inside, name);
    if t != "" && IsSpace(t[0]) {
      SubKeepsComment(t[1..], false, name);
      assert Sub(t, inside, name)[1..] == Sub(t[1..], false, name);
    }
  }

  lemma {:induction false} InOrderFirst(t: string, names: seq<Package>)
    ensures t == "" <==> InOrder(t, names) == ""
    ensures t != "" ==> InOrder(t, names)[0] == t[0]
  {
    if names != [] {
      InOrderFirst(t, names[..|names| - 1]);
      SubFirst(InOrder(t, names[..|names| - 1]), false, names[|names| - 1]);
    }
  }

  lemma {:induction false} CommentKept(t: string, names: seq<Package>)
    ensures Comment(InOrder(t, names)) <==> Comment(t)
  {
    if names != [] {
      CommentKept(t, names[..|names| - 1]);
      SubKeepsComment(InOrder(t, names[..|names| - 1]), false, names[|names| - 1]);
    }
  }

  lemma {:induction false} IndentIs(line: string, n: nat)
    requires n <= |line| && (forall i :: 0 <= i < n ==> Indents(line[i])) && (n < |line| ==> !Indents(line[n]))
    ensures Indent(line) == n
  {
    if n > 0 { IndentIs(line[1..], n - 1); }
  }

  /** Words, none of which is the renamed form of another. */
  predicate Proper(names: seq<Package>) {
    (forall x :: x in names ==> IsName(x)) && NoChain(Names(names))
  }

  lemma InOrderTwice(t: string, names: seq<Package>)
    requires Proper(names)
    ensures InOrder(InOrder(t, names), names) == InOrder(t, names)
  {
    assert Fresh(names) by {
      forall i, j | 0 <= i < j < |names|
        ensures names[i] + SUFFIX != names[j]
      {
        assert names[i] in Names(names) && names[j] in Names(names);
      }
    }
    InOrderIsRenamed(t, names);
    InOrderIsRenamed(Renamed(t, Names(names)), names);
    RenamedTwice(t, Names(names));
  }

  lemma HeaderTwice(line: string, names: seq<Package>)
    requires Proper(names)
    ensures NewHeader(NewHeader(line, names), names) == NewHeader(line, names)
    ensures Until(NewHeader(line, names), ':') == Until(line, ':')
  {
    var n := Until(line, ':');
    if n < |line| {
      var tail := InOrder(line[n + 1..], names);
      var line' := line[..n] + [':'] + tail;
      ConcatShape(line[..n], ':', tail, n);
      assert line[..n][..n] == line[..n];
      UntilIs(line', ':', n);
      InOrderTwice(line[n + 1..], names);
    }
  }

  lemma ContinuationShape(line: string, names: seq<Package>)
    ensures var n := Indent(line);
            var line' := line[..n] + InOrder(line[n..], names);
            Indent(line') == n && line'[..n] == line[..n] && line'[n..] == InOrder(line[n..], names)
  {
    var n := Indent(line);
    InOrderFirst(line[n..], names);
    IndentIs(line[..n] + InOrder(line[n..], names), n);
  }

  lemma ContinuationTwice(line: string, names: seq<Package>)
    requires Proper(names)
    ensures NewContinuation(NewContinuation(line, names), names) == NewContinuation(line, names)
    ensures Continued(NewContinuation(line, names)) <==> Continued(line)
  {
    var n := Indent(line);
    ContinuationShape(line, names);
    CommentKept(line[n..], names);
    InOrderTwice(line[n..], names);
  }

  lemma BeginsIff(line: string, field: string)
    requires ':' !in field
    ensures Begins(line, field) <==> |field| < |line| && Until(line, ':') == |field| && line[..|field|] == field
  {
    if Begins(line, field) {
      assert line[..|field| + 1] == field + ":";
      assert line[..|field|] == field && line[|field|] == ':';
      UntilIs(line, ':', |field|);
    }
  }

  predicate FieldName(field: string) { field != "" && ':' !in field && !Indents(field[0]) }

  /** Renaming does not make a line the beginning or the continuation of a field, or stop it from being one. */
  lemma KindKept(line: string, names: seq<Package>, field: string)
    requires FieldName(field)
    ensures Continued(NewLine(line, names)) <==> Continued(line)
    ensures Begins(NewLine(line, names), field) <==> Begins(line, field)
    ensures Begins(line, field) ==> !Continued(line)
  {
    BeginsIff(line, field);
    BeginsIff(NewLine(line, names), field);
    if Continued(line) {
      ContinuationShape(line, names);
    } else {
      HeaderShape(line, names);
    }
  }

  lemma HeaderShape(line: string, names: seq<Package>)
    ensures var n, line' := Until(line, ':'), NewHeader(line, names);
            Until(line', ':') == n && n <= |line'| && line'[..n] == line[..n] && (n < |line'| <==> n < |line|)
  {
    var n := Until(line, ':');
    if n < |line| {
      var tail := InOrder(line[n + 1..], names);
      ConcatShape(line[..n], ':', tail, n);
      assert line[..n][..n] == line[..n];
      UntilIs(line[..n] + [':'] + tail, ':', n);
    }
  }

  // --------------------------------------------------------------------------
  // What becomes of a line

  /** The first character that is not white space is '#'. */
  ghost predicate IsComment(line: string) {
    exists i :: 0 <= i < |line| && line[i] == '#' && forall k :: 0 <= k < i ==> IsSpace(line[k])
  }

  lemma {:induction false} CommentIff(line: string)
    ensures Comment(line) <==> IsComment(line)
  {
    if line != "" && IsSpace(line[0]) {
      CommentIff(line[1..]);
      if IsComment(line[1..]) {
        var i :| 0 <= i < |line[1..]| && line[1..][i] == '#' && forall k :: 0 <= k < i ==> IsSpace(line[1..][k]);
        assert line[i + 1] == '#' && forall k :: 0 <= k < i + 1 ==> IsSpace(line[k]);
      }
      if IsComment(line) {
        var i :| 0 <= i < |line| && line[i] == '#' && forall k :: 0 <= k < i ==> IsSpace(line[k]);
        assert line[1..][i - 1] == '#';
      }
    }
  }

  /**
   * A line that continues a field is renamed as a whole, unless it is a comment.
   * Any other line keeps what stands up to its first colon, and the rest is
   * renamed. Names that are words are renamed all at once.
   */
  ghost predicate LineAs(line: string, after: string, mapping: seq<Package>) {
    var words := forall x :: x in mapping ==> IsName(x);
    if line != "" && (line[0] == ' ' || line[0] == '\t') then
      && (IsComment(line) ==> after == line)
      && (!IsComment(line) ==> after == InOrder(line, ByLength(mapping)))
      && (!IsComment(line) && words ==> after == Renamed(line, Names(mapping)))
    else
      && (':' !in line ==> after == line)
      && forall n :: 0 <= n < |line| && line[n] == ':' && ':' !in line[..n] ==>
           && after == line[..n + 1] + InOrder(line[n + 1..], ByLength(mapping))
           && (words ==> after == line[..n + 1] + Renamed(line[n + 1..], Names(mapping)))
  }

  lemma SubIndent(c: char, t: string, inside: bool, name: Package)
    requires Indents(c)
    ensures Sub([c] + t, inside, name) == [c] + Sub(t, false, name)
  {
    assert ([c] + t)[1..] == t;
    assert name[0] != c;
  }

  lemma {:induction false} InOrderIndent(c: char, t: string, names: seq<Package>)
    requires Indents(c)
    ensures InOrder([c] + t, names) == [c] + InOrder(t, names)
  {
    if names != [] {
      InOrderIndent(c, t, names[..|names| - 1]);
      SubIndent(c, InOrder(t, names[..|names| - 1]), false, names[|names| - 1]);
    }
  }

  /** What stands before the first other character is not changed. */
  lemma {:induction false} IndentStays(line: string, names: seq<Package>)
    ensures line[..Indent(line)] + InOrder(line[Indent(line)..], names) == InOrder(line, names)
  {
    var n := Indent(line);
    if Continued(line) {
      var rest := line[1..];
      IndentStays(rest, names);
      InOrderIndent(line[0], rest, names);
      IndentShape(line, n);
      assert [line[0]] + rest == line;
      Associate([line[0]], rest[..n - 1], InOrder(line[n..], names));
    } else {
      assert line[0..] == line && line[..0] == "";
    }
  }

  lemma IndentShape(line: string, n: nat)
    requires 0 < n <= |line|
    ensures line[1..][n - 1..] == line[n..] && [line[0]] + line[1..][..n - 1] == line[..n]
  {
  }

  lemma {:induction false} CommentAfterIndent(line: string)
    ensures Comment(line[Indent(line)..]) <==> Comment(line)
  {
    if Continued(line) {
      CommentAfterIndent(line[1..]);
      assert line[1..][Indent(line[1..])..] == line[Indent(line)..];
    } else {
      assert line[0..] == line;
    }
  }

  lemma NewLineIs(line: string, mapping: seq<Package>)
    ensures LineAs(line, NewLine(line, ByLength(mapping)), mapping)
  {
    var names := ByLength(mapping);
    if Continued(line) {
      IndentStays(line, names);
      CommentAfterIndent(line);
      CommentIff(line);
      if forall x :: x in mapping ==> IsName(x) { ByLengthRenames(line, mapping); }
    } else {
      forall n | 0 <= n < |line| && line[n] == ':' && ':' !in line[..n]
        ensures NewLine(line, names) == line[..n + 1] + InOrder(line[n + 1..], names)
      {
        UntilIs(line, ':', n);
        assert line[..n + 1] == line[..n] + [':'];
      }
      if n :| 0 <= n < |line| && line[n] == ':' && ':' !in line[..n] {
        UntilIs(line, ':', n);
        if forall x :: x in mapping ==> IsName(x) { ByLengthRenames(line[n + 1..], mapping); }
      }
    }
  }

  // --------------------------------------------------------------------------
  // find_field_block

  /** The first field of this name goes from line s to before line e. */
  ghost predicate IsBlock(stanza: seq<string>, field: string, s: int, e: int) {
    && 0 <= s < e <= |stanza| && Begins(stanza[s], field) && (e < |stanza| ==> !Continued(stanza[e]))
    && (forall i :: 0 <= i < s ==> !Begins(stanza[i], field))
    && (forall i :: s < i < e ==> Continued(stanza[i]))
  }

  ghost predicate InBlock(stanza: seq<string>, field: string, i: int) {
    exists s, e :: IsBlock(stanza, field, s, e) && s <= i < e
  }

  method FindFieldBlock(stanza: seq<string>, field: string) returns (r: Option<(nat, nat)>)
    ensures r.Some? ==> IsBlock(stanza, field, r.value.0, r.value.1)
    ensures r.None? ==> forall i :: 0 <= i < |stanza| ==> !Begins(stanza[i], field)
  {
    for i := 0 to |stanza|
      invariant forall k :: 0 <= k < i ==> !Begins(stanza[k], field)
    {
      if Begins(stanza[i], field) {
        var end := i + 1;
        while end < |stanza| && Continued(stanza[end])
          invariant i < end <= |stanza| && forall k :: i < k < end ==> Continued(stanza[k])
        {
          end := end + 1;
        }
        return Some((i, end));
      }
    }
    return None;
  }

  lemma BlockIsUnique(stanza: seq<string>, field: string, s: int, e: int, s': int, e': int)
    requires FieldName(field) && IsBlock(stanza, field, s, e) && IsBlock(stanza, field, s', e')
    ensures s == s' && e == e'
  {
  }

  /** The blocks of different fields have no line in common. */
  lemma BlocksDisjoint(stanza: seq<string>, f: string, g: string, i: int)
    requires FieldName(f) && FieldName(g) && InBlock(stanza, f, i) && InBlock(stanza, g, i)
    ensures f == g
  {
    var s, e :| IsBlock(stanza, f, s, e) && s <= i < e;
    var s', e' :| IsBlock(stanza, g, s', e') && s' <= i < e';
    KindKept(stanza[s], [], f);
    KindKept(stanza[s'], [], g);
    assert s == s';
    BeginsIff(stanza[s], f);
    BeginsIff(stanza[s], g);
  }

  /** Some lines have been replaced by what becomes of them. */
  ghost predicate Partly(stanza0: seq<string>, stanza: seq<string>, names: seq<Package>) {
    |stanza| == |stanza0| &&
    forall i {:trigger stanza[i]} :: 0 <= i < |stanza| ==>
      stanza[i] == stanza0[i] || stanza[i] == NewLine(stanza0[i], names)
  }

  lemma BlockKept(stanza0: seq<string>, stanza: seq<string>, names: seq<Package>, field: string, s: int, e: int)
    requires FieldName(field) && Partly(stanza0, stanza, names)
    ensures IsBlock(stanza, field, s, e) <==> IsBlock(stanza0, field, s, e)
  {
    forall i | 0 <= i < |stanza|
      ensures Begins(stanza[i], field) <==> Begins(stanza0[i], field)
      ensures Continued(stanza[i]) <==> Continued(stanza0[i])
    {
      KindKept(stanza0[i], names, field);
    }
  }

  lemma InBlockKept(stanza0: seq<string>, stanza: seq<string>, names: seq<Package>, field: string, i: int)
    requires FieldName(field) && Partly(stanza0, stanza, names)
    ensures InBlock(stanza, field, i) <==> InBlock(stanza0, field, i)
  {
    forall s, e
      ensures IsBlock(stanza, field, s, e) <==> IsBlock(stanza0, field, s, e)
    {
      BlockKept(stanza0, stanza, names, field, s, e);
    }
  }

  // --------------------------------------------------------------------------
  // rename_stanza_field_packages

  ghost function Diff(a: seq<string>, b: seq<string>): set<int>
    requires |a| == |b|
  {
    set i | 0 <= i < |a| && a[i] != b[i]
  }

  /** Lines from lo to before hi have been replaced, and no others. */
  ghost predicate Replaced(stanza0: seq<string>, stanza: seq<string>, names: seq<Package>, lo: int, hi: int) {
    && |stanza| == |stanza0|
    && (forall i {:trigger stanza[i]} :: 0 <= i < |stanza| && lo <= i < hi ==> stanza[i] == NewLine(stanza0[i], names))
    && (forall i {:trigger stanza[i]} :: 0 <= i < |stanza| && !(lo <= i < hi) ==> stanza[i] == stanza0[i])
  }

  lemma DiffStep(a: seq<string>, b: seq<string>, i: nat, x: string)
    requires |a| == |b| && i < |a| && b[i] == a[i]
    ensures |Diff(a, b[i := x])| == |Diff(a, b)| + if x != a[i] then 1 else 0
  {
    if x != a[i] {
      assert Diff(a, b[i := x]) == Diff(a, b) + {i};
    } else {
      assert b[i := x] == b;
    }
  }

  method RenameHeader(line: string, mapping: seq<Package>) returns (updated: string)
    requires Until(line, ':') < |line|
    ensures updated == NewHeader(line, ByLength(mapping))
  {
    var n := Until(line, ':');
    var value := RenamePackageWords(line[n + 1..], mapping);
    return line[..n] + [':'] + value;
  }

  method RenameContinuation(line: string, mapping: seq<Package>) returns (updated: string)
    ensures updated == NewContinuation(line, ByLength(mapping))
  {
    var n := Indent(line);
    if Comment(line[n..]) { return line; }
    var payload := RenamePackageWords(line[n..], mapping);
    return line[..n] + payload;
  }

  /** The lines of one field. */
  method RenameBlock(stanza0: seq<string>, start: nat, end: nat, mapping: seq<Package>)
    returns (stanza: seq<string>, changed: nat)
    requires start < end <= |stanza0|
    requires !Continued(stanza0[start]) && Until(stanza0[start], ':') < |stanza0[start]|
    requires forall i :: start < i < end ==> Continued(stanza0[i])
    ensures Replaced(stanza0, stanza, ByLength(mapping), start, end) && changed == |Diff(stanza0, stanza)|
    ensures forall i {:trigger stanza[i]} :: 0 <= i < |stanza0| ==>
              if start <= i < end then LineAs(stanza0[i], stanza[i], mapping) else stanza[i] == stanza0[i]
  {
    stanza, changed := stanza0, 0;
    for i := start to end
      invariant Replaced(stanza0, stanza, ByLength(mapping), start, i) && changed == |Diff(stanza0, stanza)|
    {
      var updated;
      if i == start {
        updated := RenameHeader(stanza[i], mapping);
      } else {
        updated := RenameContinuation(stanza[i], mapping);
      }
      DiffStep(stanza0, stanza, i, updated);
      if updated != stanza[i] { changed := changed + 1; }
      stanza := stanza[i := updated];
    }
    forall i | start <= i < end
      ensures LineAs(stanza0[i], stanza[i], mapping)
    {
      NewLineIs(stanza0[i], mapping);
    }
  }

  /** The line belongs to one of the first k relationship fields. */
  ghost predicate Touched(stanza: seq<string>, k: int, i: int) {
    exists f :: 0 <= f < k && f < |FIELDS| && InBlock(stanza, FIELDS[f], i)
  }

  ghost predicate RenamedUpTo(stanza0: seq<string>, stanza: seq<string>, names: seq<Package>, k: int) {
    |stanza| == |stanza0| &&
    forall i {:trigger stanza[i]} :: 0 <= i < |stanza| ==>
      stanza[i] == if Touched(stanza0, k, i) then NewLine(stanza0[i], names) else stanza0[i]
  }

  lemma FieldsAreNames(f: nat, g: nat)
    requires f < |FIELDS| && g < |FIELDS|
    ensures FieldName(FIELDS[f]) && (FIELDS[f] == FIELDS[g] ==> f == g)
  {
  }

  /** Before its field is reached, a line of the field is as it was. */
  lemma NotYetTouched(stanza: seq<string>, k: nat, i: int)
    requires k < |FIELDS| && InBlock(stanza, FIELDS[k], i)
    ensures !Touched(stanza, k, i) && Touched(stanza, k + 1, i)
  {
    forall f | 0 <= f < k
      ensures !InBlock(stanza, FIELDS[f], i)
    {
      FieldsAreNames(f, k);
      FieldsAreNames(k, f);
      if InBlock(stanza, FIELDS[f], i) { BlocksDisjoint(stanza, FIELDS[f], FIELDS[k], i); }
    }
  }

  lemma OtherLine(stanza: seq<string>, k: nat, i: int)
    requires k < |FIELDS| && !InBlock(stanza, FIELDS[k], i)
    ensures Touched(stanza, k + 1, i) <==> Touched(stanza, k, i)
  {
  }

  lemma InBlockIff(stanza: seq<string>, field: string, s: int, e: int, i: int)
    requires FieldName(field) && IsBlock(stanza, field, s, e)
    ensures InBlock(stanza, field, i) <==> s <= i < e
  {
    if InBlock(stanza, field, i) {
      var s', e' :| IsBlock(stanza, field, s', e') && s' <= i < e';
      BlockIsUnique(stanza, field, s, e, s', e');
    }
  }

  lemma DiffAdds(a: seq<string>, b: seq<string>, c: seq<string>)
    requires |a| == |b| == |c| && forall i :: 0 <= i < |a| && c[i] != b[i] ==> b[i] == a[i]
    ensures |Diff(a, c)| == |Diff(a, b)| + |Diff(b, c)|
  {
    assert Diff(a, c) == Diff(a, b) + Diff(b, c);
    assert Diff(a, b) !! Diff(b, c);
  }

  /** What the field at hand does to line i. */
  lemma FieldDoneAt(stanza0: seq<string>, stanza: seq<string>, stanza': seq<string>, names: seq<Package>,
                    k: nat, s: int, e: int, i: int)
    requires k < |FIELDS| && RenamedUpTo(stanza0, stanza, names, k) && IsBlock(stanza0, FIELDS[k], s, e)
    requires Replaced(stanza, stanza', names, s, e) && 0 <= i < |stanza'|
    ensures stanza'[i] == if Touched(stanza0, k + 1, i) then NewLine(stanza0[i], names) else stanza0[i]
    ensures stanza'[i] != stanza[i] ==> stanza[i] == stanza0[i]
  {
    FieldsAreNames(k, k);
    InBlockIff(stanza0, FIELDS[k], s, e, i);
    if s <= i < e { NotYetTouched(stanza0, k, i); } else { OtherLine(stanza0, k, i); }
    assert stanza[i] == if Touched(stanza0, k, i) then NewLine(stanza0[i], names) else stanza0[i];
  }

  lemma FieldDone(stanza0: seq<string>, stanza: seq<string>, stanza': seq<string>, names: seq<Package>,
                  k: nat, s: int, e: int)
    requires k < |FIELDS| && RenamedUpTo(stanza0, stanza, names, k)
    requires IsBlock(stanza, FIELDS[k], s, e) && Replaced(stanza, stanza', names, s, e)
    ensures RenamedUpTo(stanza0, stanza', names, k + 1)
    ensures |Diff(stanza0, stanza')| == |Diff(stanza0, stanza)| + |Diff(stanza, stanza')|
  {
    FieldsAreNames(k, k);
    BlockKept(stanza0, stanza, names, FIELDS[k], s, e);
    forall i | 0 <= i < |stanza'|
      ensures stanza'[i] == if Touched(stanza0, k + 1, i) then NewLine(stanza0[i], names) else stanza0[i]
      ensures stanza'[i] != stanza[i] ==> stanza[i] == stanza0[i]
    {
      FieldDoneAt(stanza0, stanza, stanza', names, k, s, e, i);
    }
    DiffAdds(stanza0, stanza, stanza');
  }

  lemma FieldAbsent(stanza0: seq<string>, stanza: seq<string>, names: seq<Package>, k: nat)
    requires k < |FIELDS| && RenamedUpTo(stanza0, stanza, names, k)
    requires forall i :: 0 <= i < |stanza| ==> !Begins(stanza[i], FIELDS[k])
    ensures RenamedUpTo(stanza0, stanza, names, k + 1)
  {
    FieldsAreNames(k, k);
    forall i | 0 <= i < |stanza|
      ensures stanza[i] == if Touched(stanza0, k + 1, i) then NewLine(stanza0[i], names) else stanza0[i]
    {
      InBlockKept(stanza0, stanza, names, FIELDS[k], i);
      OtherLine(stanza0, k, i);
    }
  }

  lemma NothingToRename(line: string)
    ensures NewLine(line, []) == line
  {
    if Continued(line) {
      Halves(line, Indent(line));
    } else {
      var n := Until(line, ':');
      Cut(line, n);
    }
  }

  lemma AllLinesAs(stanza0: seq<string>, stanza: seq<string>, mapping: seq<Package>)
    requires RenamedUpTo(stanza0, stanza, ByLength(mapping), |FIELDS|)
    ensures forall i {:trigger stanza[i]} :: 0 <= i < |stanza0| ==>
              if exists f :: f in FIELDS && InBlock(stanza0, f, i) then LineAs(stanza0[i], stanza[i], mapping)
              else stanza[i] == stanza0[i]
  {
    forall i | 0 <= i < |stanza0|
      ensures if exists f :: f in FIELDS && InBlock(stanza0, f, i) then LineAs(stanza0[i], stanza[i], mapping)
              else stanza[i] == stanza0[i]
    {
      assert Touched(stanza0, |FIELDS|, i) <==> exists f :: f in FIELDS && InBlock(stanza0, f, i) by {
        if f :| f in FIELDS && InBlock(stanza0, f, i) {
          var k :| 0 <= k < |FIELDS| && FIELDS[k] == f;
        }
      }
      NewLineIs(stanza0[i], mapping);
    }
  }

  /** All lines of the relationship fields, and only those, are renamed; `changed` counts those that differ. */
  method RenameStanzaFields(stanza0: seq<string>, mapping: seq<Package>) returns (stanza: seq<string>, changed: nat)
    ensures RenamedUpTo(stanza0, stanza, ByLength(mapping), |FIELDS|) && changed == |Diff(stanza0, stanza)|
    ensures forall i {:trigger stanza[i]} :: 0 <= i < |stanza0| ==>
              if exists f :: f in FIELDS && InBlock(stanza0, f, i) then LineAs(stanza0[i], stanza[i], mapping)
              else stanza[i] == stanza0[i]
  {
    stanza, changed := stanza0, 0;
    if mapping == [] {
      forall i | 0 <= i < |stanza|
        ensures NewLine(stanza[i], []) == stanza[i]
      {
        NothingToRename(stanza[i]);
      }
      AllLinesAs(stanza0, stanza, mapping);
      return;
    }
    for k := 0 to |FIELDS|
      invariant RenamedUpTo(stanza0, stanza, ByLength(mapping), k) && changed == |Diff(stanza0, stanza)|
    {
      var block := FindFieldBlock(stanza, FIELDS[k]);
      if block.Some? {
        ghost var before := stanza;
        HeaderHasColon(stanza[block.value.0], k);
        var more;
        stanza, more := RenameBlock(stanza, block.value.0, block.value.1, mapping);
        FieldDone(stanza0, before, stanza, ByLength(mapping), k, block.value.0, block.value.1);
        changed := changed + more;
      } else {
        FieldAbsent(stanza0, stanza, ByLength(mapping), k);
      }
    }
    AllLinesAs(stanza0, stanza, mapping);
  }

  lemma HeaderHasColon(line: string, k: nat)
    requires k < |FIELDS| && Begins(line, FIELDS[k])
    ensures !Continued(line) && Until(line, ':') < |line|
  {
    FieldsAreNames(k, k);
    KindKept(line, [], FIELDS[k]);
    BeginsIff(line, FIELDS[k]);
  }

  /** Renaming a stanza again changes nothing, if no name is the renamed form of another. */
  lemma StanzaTwice(stanza0: seq<string>, stanza: seq<string>, again: seq<string>, names: seq<Package>)
    requires Proper(names)
    requires RenamedUpTo(stanza0, stanza, names, |FIELDS|) && RenamedUpTo(stanza, again, names, |FIELDS|)
    ensures again == stanza
  {
    forall i | 0 <= i < |stanza|
      ensures again[i] == stanza[i]
    {
      if Touched(stanza, |FIELDS|, i) {
        TouchedKept(stanza0, stanza, names, i);
        assert stanza[i] == NewLine(stanza0[i], names);
        LineTwice(stanza0[i], names);
      }
      assert again[i] == if Touched(stanza, |FIELDS|, i) then NewLine(stanza[i], names) else stanza[i];
    }
  }

  lemma TouchedKept(stanza0: seq<string>, stanza: seq<string>, names: seq<Package>, i: int)
    requires Partly(stanza0, stanza, names) && Touched(stanza, |FIELDS|, i)
    ensures Touched(stanza0, |FIELDS|, i)
  {
    var f :| 0 <= f < |FIELDS| && InBlock(stanza, FIELDS[f], i);
    FieldsAreNames(f, f);
    InBlockKept(stanza0, stanza, names, FIELDS[f], i);
  }

  lemma LineTwice(line: string, names: seq<Package>)
    requires Proper(names)
    ensures NewLine(NewLine(line, names), names) == NewLine(line, names)
  {
    KindKept(line, names, "x");
    if Continued(line) { ContinuationTwice(line, names); } else { HeaderTwice(line, names); }
  }

  /** A mapping of words without chains, as it is applied. */
  lemma SortedIsProper(mapping: seq<Package>)
    requires (forall x :: x in mapping ==> IsName(x)) && NoChain(Names(mapping))
    ensures Proper(ByLength(mapping))
    ensures forall t :: InOrder(t, ByLength(mapping)) == Renamed(t, Names(mapping))
  {
    SameNames(mapping);
    forall t
      ensures InOrder(t, ByLength(mapping)) == Renamed(t, Names(mapping))
    {
      ByLengthRenames(t, mapping);
    }
  }
}
