/**
 * The update of a binary package's control file (hwe-gencontrol.py): Depends
 * gets "ubuntu-virt", and Replaces gets the package's counterpart.
 */
module ControlUpdate {
  import opened Common
  import opened ControlText
  import opened Text

  const PACKAGE := "Package"
  const DEPENDS := "Depends"
  const REPLACES := "Replaces"
  const UBUNTU_VIRT := "ubuntu-virt"
  const NAME_WITH_COMMA := "a,b"

  // --------------------------------------------------------------------------
  // Relations

  /** The parts that are not blank, stripped. */
  function Cleaned(parts: seq<string>): (r: seq<string>) {
    if parts == [] then [] else (if Strip(parts[0]) == "" then [] else [Strip(parts[0])]) + Cleaned(parts[1..])
  }

  /** split_relations */
  function Relations(value: string): seq<string> {
    if Strip(value) == "" then [] else Cleaned(Split(value, ','))
  }

  /** What a list of relations can hold. */
  predicate ItemOk(item: string) { item != "" && Trim(item) && ',' !in item }

  lemma {:induction false} CleanedConcat(a: seq<string>, b: seq<string>)
    ensures Cleaned(a + b) == Cleaned(a) + Cleaned(b)
  {
    if a == [] {
      assert a + b == b;
    } else {
      assert (a + b)[0] == a[0] && (a + b)[1..] == a[1..] + b;
      CleanedConcat(a[1..], b);
    }
  }

  lemma StripSpace(s: string)
    ensures Strip([' '] + s) == Strip(s)
  {
    assert ([' '] + s)[1..] == s;
  }

  /** One space in front makes no difference to the relations. */
  lemma CleanedSpace(s: string)
    ensures Cleaned(Split([' '] + s, ',')) == Cleaned(Split(s, ','))
  {
    SplitPrefix([' '], s, ',');
    var parts := Split(s, ',');
    var parts' := Split([' '] + s, ',');
    StripSpace(parts[0]);
    assert parts' == [[' '] + parts[0]] + parts[1..] && parts'[1..] == parts[1..];
  }

  /** The relations of all the items. */
  function Flat(items: seq<string>): seq<string> {
    if items == [] then [] else Cleaned(Split(items[0], ',')) + Flat(items[1..])
  }

  lemma {:induction false} CleanedJoin(items: seq<string>)
    requires items != []
    ensures Cleaned(Split(Join(items, ", "), ',')) == Flat(items)
  {
    if |items| == 1 {
      assert Flat(items) == Cleaned(Split(items[0], ',')) + [];
    } else {
      var rest := Join(items[1..], ", ");
      assert Join(items, ", ") == items[0] + [','] + ([' '] + rest);
      SplitConcat(items[0], ',', [' '] + rest);
      CleanedConcat(Split(items[0], ','), Split([' '] + rest, ','));
      CleanedSpace(rest);
      CleanedJoin(items[1..]);
    }
  }

  lemma CleanedItem(item: string)
    requires ItemOk(item)
    ensures Cleaned(Split(item, ',')) == [item]
  {
    SplitNone(item, ',');
    var _, _ := StripTrims(item);
    assert [item][1..] == [];
    assert Cleaned([item]) == [item] + Cleaned([]);
  }

  lemma {:induction false} FlatItems(items: seq<string>)
    requires forall x :: x in items ==> ItemOk(x)
    ensures Flat(items) == items
  {
    if items != [] {
      CleanedItem(items[0]);
      FlatItems(items[1..]);
    }
  }

  lemma {:induction false} CleanedBlank(parts: seq<string>)
    requires forall p :: p in parts ==> Blank(p)
    ensures Cleaned(parts) == []
  {
    if parts != [] {
      var _, _ := StripTrims(parts[0]);
      CleanedBlank(parts[1..]);
    }
  }

  lemma {:induction false} BlankSplits(s: string, c: char)
    requires Blank(s)
    ensures forall p :: p in Split(s, c) ==> Blank(p)
    decreases |s|
  {
    var n := Until(s, c);
    if n < |s| { BlankSplits(s[n + 1..], c); }
  }

  lemma RelationsIsCleaned(value: string)
    ensures Relations(value) == Cleaned(Split(value, ','))
  {
    var _, _ := StripTrims(value);
    if Blank(value) {
      BlankSplits(value, ',');
      CleanedBlank(Split(value, ','));
    }
  }

  /** Relations that are joined are found again. */
  lemma RelationsJoin(items: seq<string>)
    requires items != [] && forall x :: x in items ==> ItemOk(x)
    ensures Relations(Join(items, ", ")) == items
  {
    RelationsIsCleaned(Join(items, ", "));
    CleanedJoin(items);
    FlatItems(items);
  }

  lemma {:induction false} CleanedAreItems(parts: seq<string>)
    requires forall p :: p in parts ==> ',' !in p
    ensures forall x :: x in Cleaned(parts) ==> ItemOk(x)
  {
    if parts != [] {
      var a, b := StripTrims(parts[0]);
      assert forall c :: c in parts[0][a..b] ==> c in parts[0];
      CleanedAreItems(parts[1..]);
    }
  }

  lemma RelationsAreItems(value: string)
    ensures forall x :: x in Relations(value) ==> ItemOk(x)
  {
    CleanedAreItems(Split(value, ','));
  }

  /** items are the parts at these places, stripped, and no other part but those is other than blank. */
  ghost predicate Selects(parts: seq<string>, at: seq<nat>, items: seq<string>) {
    && |at| == |items|
    && (forall k :: 0 <= k < |at| ==> at[k] < |parts| && !Blank(parts[at[k]]) && items[k] == Strip(parts[at[k]]))
    && (forall k, l :: 0 <= k < l < |at| ==> at[k] < at[l])
    && (forall i :: 0 <= i < |parts| && !Blank(parts[i]) ==> i in at)
  }

  lemma {:induction false} CleanedSelects(parts: seq<string>) returns (at: seq<nat>)
    ensures Selects(parts, at, Cleaned(parts))
  {
    at := [];
    if parts != [] {
      var init, last := parts[..|parts| - 1], parts[|parts| - 1];
      assert parts == init + [last];
      at := CleanedSelects(init);
      CleanedConcat(init, [last]);
      CleanedCons(last, []);
      assert [last] + [] == [last];
      var _, _ := StripTrims(last);
      if !Blank(last) { at := at + [|init|]; }
    }
  }

  /** The relations are the parts between the commas, stripped, without the blank ones, in their order. */
  lemma RelationsAreParts(value: string) returns (parts: seq<string>, at: seq<nat>)
    ensures parts != [] && (forall p :: p in parts ==> ',' !in p) && Join(parts, ",") == value
    ensures Selects(parts, at, Relations(value))
  {
    parts := Split(value, ',');
    JoinSplit(value, ',');
    RelationsIsCleaned(value);
    at := CleanedSelects(parts);
  }

  lemma CleanedCons(part: string, parts: seq<string>)
    ensures Cleaned([part] + parts) == (if Strip(part) == "" then [] else [Strip(part)]) + Cleaned(parts)
  {
    assert ([part] + parts)[1..] == parts;
  }

  // --------------------------------------------------------------------------
  // Fields

  function Lower(s: string): string {
    seq(|s|, i requires 0 <= i < |s| => if 'A' <= s[i] <= 'Z' then (s[i] as int + 32) as char else s[i])
  }

  predicate Named(f: Field, name: string) { Lower(f.name) == Lower(name) }

  /** Capital letters come 32 places before the small ones. */
  predicate SameLetter(a: char, b: char) {
    a == b || ('A' <= a <= 'Z' && b as int == a as int + 32) || ('A' <= b <= 'Z' && a as int == b as int + 32)
  }

  /** Names are compared letter by letter, whatever the case. */
  lemma NamedIff(f: Field, name: string)
    ensures Named(f, name) <==> |f.name| == |name| && forall i :: 0 <= i < |name| ==> SameLetter(f.name[i], name[i])
  {
    var a, b := Lower(f.name), Lower(name);
    if |f.name| == |name| {
      forall i | 0 <= i < |name|
        ensures a[i] == b[i] <==> SameLetter(f.name[i], name[i])
      {
      }
    }
  }

  /** The first field of this name is number i. */
  ghost predicate First(fields: seq<Field>, name: string, i: int) {
    0 <= i < |fields| && Named(fields[i], name) && forall k :: 0 <= k < i ==> !Named(fields[k], name)
  }

  ghost predicate Lacks(fields: seq<Field>, name: string) {
    forall k :: 0 <= k < |fields| ==> !Named(fields[k], name)
  }

  /** The first field of this name, in any case of letters. */
  function Find(fields: seq<Field>, name: string): (r: Option<nat>)
    ensures r.Some? ==> r.value < |fields| && Named(fields[r.value], name)
    ensures r.Some? ==> forall i :: 0 <= i < r.value ==> !Named(fields[i], name)
    ensures r.None? ==> forall i :: 0 <= i < |fields| ==> !Named(fields[i], name)
  {
    if fields == [] then None
    else if Named(fields[0], name) then Some(0)
    else match Find(fields[1..], name) case None => None case Some(i) => Some(i + 1)
  }

  /** find_field_index */
  method FindFieldIndex(fields: seq<Field>, name: string) returns (r: Option<nat>)
    ensures r == Find(fields, name)
  {
    for i := 0 to |fields|
      invariant forall k :: 0 <= k < i ==> !Named(fields[k], name)
    {
      if Named(fields[i], name) {
        FindIs(fields, name, Some(i));
        return Some(i);
      }
    }
    FindIs(fields, name, None);
    return None;
  }

  lemma FindIs(fields: seq<Field>, name: string, r: Option<nat>)
    requires r.Some? ==> r.value < |fields| && Named(fields[r.value], name)
    requires r.Some? ==> forall i :: 0 <= i < r.value ==> !Named(fields[i], name)
    requires r.None? ==> forall i :: 0 <= i < |fields| ==> !Named(fields[i], name)
    ensures Find(fields, name) == r
  {
  }

  function Added(items: seq<string>, item: string, front: bool): seq<string> {
    if item in items then items else if front then [item] + items else items + [item]
  }

  /** The field's relations with the item among them; a new field if there is none. */
  function Amend(fields: seq<Field>, name: string, item: string, front: bool): seq<Field> {
    match Find(fields, name)
    case None => fields + [Field(name, item)]
    case Some(i) =>
      fields[i := Field(fields[i].name, Join(Added(Relations(fields[i].value), item, front), ", "))]
  }

  /** The fields of the updated control file. */
  function Update(fields: seq<Field>): Result<seq<Field>> {
    match Find(fields, PACKAGE)
    case None => Err
    case Some(_) =>
      Ok(Amend(Amend(fields, DEPENDS, UBUNTU_VIRT, true), REPLACES, Counterpart(fields), false))
  }

  function UpdateText(text: string): Result<string> {
    match Parse(text)
    case Err => Err
    case Ok(fields) =>
      match Update(fields)
      case Err => Err
      case Ok(updated) => Ok(Serialize(updated))
  }

  /** The part of update_control_file that deals with one relationship field. */
  method AmendField(fields0: seq<Field>, name: string, item: string, front: bool) returns (fields: seq<Field>)
    ensures fields == Amend(fields0, name, item, front) && AmendedAs(fields0, fields, name, item, front)
  {
    fields := fields0;
    var index := FindFieldIndex(fields, name);
    if index.None? {
      fields := fields + [Field(name, item)];
    } else {
      var items := Relations(fields[index.value].value);
      if item !in items {
        items := if front then [item] + items else items + [item];
      }
      fields := fields[index.value := Field(fields[index.value].name, Join(items, ", "))];
    }
    AmendIs(fields0, name, item, front);
  }

  /** update_control_file, without the file: the new text, and whether it is to be written. */
  method UpdateControl(original: string) returns (r: Result<(string, bool)>)
    ensures r.Ok? <==> UpdateText(original).Ok?
    ensures r.Ok? ==> r.value == (UpdateText(original).value, UpdateText(original).value != original)
    ensures r.Ok? <==> Parse(original).Ok? && !Lacks(Parse(original).value, PACKAGE)
    ensures r.Ok? ==> Parse(r.value.0).Ok? && r.value.0 == Serialize(Parse(r.value.0).value)
    ensures r.Ok? ==> UpdatedAs(Parse(original).value, Parse(r.value.0).value)
  {
    UpdateIs(original);
    var parsed := ParseControlParagraph(original);
    if parsed.Err? { return Err; }
    var index := FindFieldIndex(parsed.value, PACKAGE);
    if index.None? { return Err; }
    var hwe := Strip(parsed.value[index.value].value) + "-hwe";
    var fields := AmendField(parsed.value, DEPENDS, UBUNTU_VIRT, true);
    fields := AmendField(fields, REPLACES, hwe, false);
    var updated := Serialize(fields);
    return Ok((updated, updated != original));
  }

  // --------------------------------------------------------------------------
  // What the update does to the fields

  /**
   * The first field of the name has its old relations in their order, and the
   * item in front of or behind them unless it is among them; no other field has
   * changed. If there was no field of the name, there is one behind the others.
   */
  ghost predicate AmendedAs(fields: seq<Field>, after: seq<Field>, name: string, item: string, front: bool) {
    && (Lacks(fields, name) ==> after == fields + [Field(name, item)])
    && forall i :: First(fields, name, i) ==>
         && |after| == |fields| && (forall k :: 0 <= k < |fields| && k != i ==> after[k] == fields[k])
         && after[i].name == fields[i].name
         && var items := Relations(fields[i].value);
            && (item in items ==> after[i].value == Join(items, ", "))
            && (item !in items && front ==> after[i].value == Join([item] + items, ", "))
            && (item !in items && !front ==> after[i].value == Join(items + [item], ", "))
  }

  lemma AmendIs(fields: seq<Field>, name: string, item: string, front: bool)
    ensures AmendedAs(fields, Amend(fields, name, item, front), name, item, front)
  {
    forall i | First(fields, name, i)
      ensures Find(fields, name) == Some(i)
    {
      FindIs(fields, name, Some(i));
    }
    if Lacks(fields, name) { FindIs(fields, name, None); }
  }

  /**
   * Depends has "ubuntu-virt" in front of its old relations, unless it is among
   * them. Replaces has the counterpart of the package behind its old relations,
   * unless it is among them. A field that was missing is added with that one
   * item. Every other field keeps its place, name and value.
   */
  ghost predicate UpdatedAs(fields: seq<Field>, after: seq<Field>) {
    && |after| == |fields| + (if Lacks(fields, DEPENDS) then 1 else 0) + (if Lacks(fields, REPLACES) then 1 else 0)
    && (Lacks(fields, DEPENDS) ==> after[|fields|] == Field(DEPENDS, UBUNTU_VIRT))
    && forall p :: First(fields, PACKAGE, p) ==>
         var hwe := Strip(fields[p].value) + "-hwe";
         && (Lacks(fields, REPLACES) ==> after[|after| - 1] == Field(REPLACES, hwe))
         && forall k {:trigger after[k]} :: 0 <= k < |fields| ==> FieldUpdatedAs(fields, k, after[k], hwe)
  }

  ghost predicate FieldUpdatedAs(fields: seq<Field>, k: int, after: Field, hwe: string)
    requires 0 <= k < |fields|
  {
    var items := Relations(fields[k].value);
    && after.name == fields[k].name
    && (First(fields, DEPENDS, k) ==>
          && after.value == Join(if UBUNTU_VIRT in items then items else [UBUNTU_VIRT] + items, ", ")
          && Relations(after.value) == if UBUNTU_VIRT in items then items else [UBUNTU_VIRT] + items)
    && (First(fields, REPLACES, k) ==>
          && after.value == Join(if hwe in items then items else items + [hwe], ", ")
          && (',' !in hwe ==> Relations(after.value) == if hwe in items then items else items + [hwe]))
    && (!First(fields, DEPENDS, k) && !First(fields, REPLACES, k) ==> after.value == fields[k].value)
  }

  lemma FieldsUpdated(fields: seq<Field>)
    requires AllFieldsOk(fields) && Update(fields).Ok?
    ensures UpdatedAs(fields, Update(fields).value)
  {
    var half, hwe := Amend(fields, DEPENDS, UBUNTU_VIRT, true), Counterpart(fields);
    var after := Update(fields).value;
    AmendIs(fields, DEPENDS, UBUNTU_VIRT, true);
    AmendIs(half, REPLACES, hwe, false);
    CounterpartIsWritable(fields);
    AddedFields(fields, half, after, hwe);
    forall p | First(fields, PACKAGE, p)
      ensures hwe == Strip(fields[p].value) + "-hwe"
    {
      FindIs(fields, PACKAGE, Some(p));
    }
    forall k | 0 <= k < |fields|
      ensures FieldUpdatedAs(fields, k, after[k], hwe)
    {
      FieldUpdated(fields, half, after, k, hwe);
    }
  }

  lemma AddedFields(fields: seq<Field>, half: seq<Field>, after: seq<Field>, hwe: string)
    requires AmendedAs(fields, half, DEPENDS, UBUNTU_VIRT, true) && AmendedAs(half, after, REPLACES, hwe, false)
    ensures |after| == |fields| + (if Lacks(fields, DEPENDS) then 1 else 0) + (if Lacks(fields, REPLACES) then 1 else 0)
    ensures Lacks(fields, DEPENDS) ==> after[|fields|] == Field(DEPENDS, UBUNTU_VIRT)
    ensures Lacks(fields, REPLACES) ==> after[|after| - 1] == Field(REPLACES, hwe)
  {
    NamesDiffer();
    HalfKeeps(fields, half);
    var _ := Present(fields, DEPENDS);
    var _ := Present(half, REPLACES);
  }

  /** Amending Depends changes nothing about where Replaces is. */
  lemma HalfKeeps(fields: seq<Field>, half: seq<Field>)
    requires AmendedAs(fields, half, DEPENDS, UBUNTU_VIRT, true)
    ensures |half| >= |fields|
    ensures forall k :: 0 <= k < |fields| ==> half[k].name == fields[k].name
    ensures forall i :: First(half, REPLACES, i) <==> First(fields, REPLACES, i)
    ensures Lacks(half, REPLACES) <==> Lacks(fields, REPLACES)
  {
    NamesDiffer();
    var _ := Present(fields, DEPENDS);
    assert forall k :: 0 <= k < |fields| ==> half[k].name == fields[k].name;
    forall k | 0 <= k < |fields|
      ensures Named(half[k], REPLACES) <==> Named(fields[k], REPLACES)
    {
    }
    forall k | |fields| <= k < |half|
      ensures !Named(half[k], REPLACES)
    {
    }
  }

  lemma Present(fields: seq<Field>, name: string) returns (i: int)
    ensures Lacks(fields, name) || First(fields, name, i)
  {
    var r := Find(fields, name);
    i := if r.Some? then r.value else -1;
  }

  lemma FieldUpdated(fields: seq<Field>, half: seq<Field>, after: seq<Field>, k: nat, hwe: string)
    requires AmendedAs(fields, half, DEPENDS, UBUNTU_VIRT, true) && AmendedAs(half, after, REPLACES, hwe, false)
    requires k < |fields| && Trim(hwe) && hwe != ""
    ensures k < |after| && FieldUpdatedAs(fields, k, after[k], hwe)
  {
    NamesDiffer();
    HalfKeeps(fields, half);
    var _ := Present(fields, DEPENDS);
    var _ := Present(half, REPLACES);
    var items := Relations(fields[k].value);
    RelationsAreItems(fields[k].value);
    if First(fields, DEPENDS, k) {
      UbuntuVirtOk();
      RelationsJoin(if UBUNTU_VIRT in items then items else [UBUNTU_VIRT] + items);
    }
    if First(fields, REPLACES, k) && ',' !in hwe {
      RelationsJoin(if hwe in items then items else items + [hwe]);
    }
  }

  /** When there is an output, and what it reads as. */
  lemma UpdateIs(text: string)
    ensures UpdateText(text).Ok? <==> Parse(text).Ok? && !Lacks(Parse(text).value, PACKAGE)
    ensures UpdateText(text).Ok? ==>
              && Parse(UpdateText(text).value).Ok?
              && UpdateText(text).value == Serialize(Parse(UpdateText(text).value).value)
              && UpdatedAs(Parse(text).value, Parse(UpdateText(text).value).value)
  {
    if Parse(text).Ok? { var _ := Present(Parse(text).value, PACKAGE); }
    if UpdateText(text).Ok? {
      var fields := Parse(text).value;
      ParsedIsOk(text);
      UpdateKeepsOk(fields);
      RoundTrip(Update(fields).value);
      FieldsUpdated(fields);
    }
  }

  // --------------------------------------------------------------------------
  // Doing it twice

  /** Amending would change nothing. */
  predicate Settled(fields: seq<Field>, name: string, item: string, front: bool) {
    var r := Find(fields, name);
    r.Some? && Join(Added(Relations(fields[r.value].value), item, front), ", ") == fields[r.value].value
  }

  lemma SettledIff(fields: seq<Field>, name: string, item: string, front: bool)
    ensures Amend(fields, name, item, front) == fields <==> Settled(fields, name, item, front)
  {
    var r := Find(fields, name);
    if r.Some? {
      var f := Field(fields[r.value].name, Join(Added(Relations(fields[r.value].value), item, front), ", "));
      assert fields[r.value := f][r.value] == f;
    } else {
      assert |Amend(fields, name, item, front)| == |fields| + 1;
    }
  }

  /** The field that has been amended. */
  lemma AmendFinds(fields: seq<Field>, name: string, item: string, front: bool)
    ensures var r, after := Find(fields, name), Amend(fields, name, item, front);
            && Find(after, name) == Some(if r.Some? then r.value else |fields|)
            && after[Find(after, name).value].value ==
                 if r.Some? then Join(Added(Relations(fields[r.value].value), item, front), ", ") else item
  {
    var r, after := Find(fields, name), Amend(fields, name, item, front);
    FindIs(after, name, Some(if r.Some? then r.value else |fields|));
  }

  /** Amending one field leaves the others alone. */
  lemma AmendOther(fields: seq<Field>, name: string, item: string, front: bool, other: string)
    requires Lower(name) != Lower(other) && Find(fields, other).Some?
    ensures var r, after := Find(fields, other), Amend(fields, name, item, front);
            Find(after, other) == r && after[r.value] == fields[r.value]
  {
    FindIs(Amend(fields, name, item, front), other, Find(fields, other));
  }

  lemma AmendSettles(fields: seq<Field>, name: string, item: string, front: bool)
    requires ItemOk(item)
    ensures Settled(Amend(fields, name, item, front), name, item, front)
  {
    var r := Find(fields, name);
    AmendFinds(fields, name, item, front);
    if r.Some? {
      var items := Added(Relations(fields[r.value].value), item, front);
      RelationsAreItems(fields[r.value].value);
      RelationsJoin(items);
    } else {
      RelationsJoin([item]);
    }
  }

  lemma OtherSettled(fields: seq<Field>, name: string, item: string, front: bool,
                     other: string, otherItem: string, otherFront: bool)
    requires Lower(name) != Lower(other) && Settled(fields, other, otherItem, otherFront)
    ensures Settled(Amend(fields, name, item, front), other, otherItem, otherFront)
  {
    AmendOther(fields, name, item, front, other);
  }

  lemma NamesDiffer()
    ensures Lower(PACKAGE) != Lower(DEPENDS) && Lower(PACKAGE) != Lower(REPLACES) && Lower(DEPENDS) != Lower(REPLACES)
  {
    assert Lower(PACKAGE)[0] == 'p' && Lower(DEPENDS)[0] == 'd' && Lower(REPLACES)[0] == 'r';
  }

  /** Amending two fields leaves a third alone. */
  lemma ThirdStays(fields: seq<Field>, d: string, item: string, r: string, hwe: string, p: string)
    requires Lower(d) != Lower(p) && Lower(r) != Lower(p) && Find(fields, p).Some?
    ensures var k, once := Find(fields, p), Amend(Amend(fields, d, item, true), r, hwe, false);
            Find(once, p) == k && once[k.value] == fields[k.value]
  {
    AmendOther(fields, d, item, true, p);
    AmendOther(Amend(fields, d, item, true), r, hwe, false, p);
  }

  /** After two fields have been amended, the first need not be amended again. */
  lemma FirstStays(fields: seq<Field>, d: string, item: string, r: string, hwe: string)
    requires Lower(d) != Lower(r) && ItemOk(item)
    ensures var once := Amend(Amend(fields, d, item, true), r, hwe, false);
            Amend(once, d, item, true) == once
  {
    var half := Amend(fields, d, item, true);
    AmendSettles(fields, d, item, true);
    OtherSettled(half, r, hwe, false, d, item, true);
    SettledIff(Amend(half, r, hwe, false), d, item, true);
  }

  lemma UbuntuVirtOk()
    ensures ItemOk(UBUNTU_VIRT)
  {
    assert UBUNTU_VIRT[0] == 'u' && UBUNTU_VIRT[|UBUNTU_VIRT| - 1] == 't';
  }

  /** The package that the file is about, and its counterpart. */
  function PackageName(fields: seq<Field>): string
    requires Find(fields, PACKAGE).Some?
  {
    Strip(fields[Find(fields, PACKAGE).value].value)
  }

  function Counterpart(fields: seq<Field>): string
    requires Find(fields, PACKAGE).Some?
  {
    PackageName(fields) + "-hwe"
  }

  /** The second update has only Replaces to look at. */
  lemma SecondUpdate(fields: seq<Field>)
    requires Update(fields).Ok?
    ensures Update(Update(fields).value) == Ok(Amend(Update(fields).value, REPLACES, Counterpart(fields), false))
  {
    NamesDiffer();
    UbuntuVirtOk();
    ThirdStays(fields, DEPENDS, UBUNTU_VIRT, REPLACES, Counterpart(fields), PACKAGE);
    FirstStays(fields, DEPENDS, UBUNTU_VIRT, REPLACES, Counterpart(fields));
  }

  // --------------------------------------------------------------------------
  // A package name with a comma

  function Commas(s: string): nat {
    if s == "" then 0 else (if s[0] == ',' then 1 else 0) + Commas(s[1..])
  }

  lemma {:induction false} CommasConcat(a: string, b: string)
    ensures Commas(a + b) == Commas(a) + Commas(b)
  {
    if a == "" {
      assert a + b == b;
    } else {
      assert (a + b)[0] == a[0] && (a + b)[1..] == a[1..] + b;
      CommasConcat(a[1..], b);
    }
  }

  lemma {:induction false} NoCommas(s: string)
    requires ',' !in s
    ensures Commas(s) == 0
  {
    if s != "" { NoCommas(s[1..]); }
  }

  lemma {:induction false} CommasJoin(items: seq<string>, last: string)
    requires forall x :: x in items ==> ',' !in x
    ensures Commas(Join(items + [last], ", ")) == |items| + Commas(last)
  {
    if items == [] {
      assert items + [last] == [last];
    } else {
      var rest := Join(items[1..] + [last], ", ");
      assert (items + [last])[1..] == items[1..] + [last] && (items + [last])[0] == items[0];
      CommasJoin(items[1..], last);
      NoCommas(items[0]);
      CommasConcat(items[0] + ", ", rest);
      CommasConcat(items[0], ", ");
      assert ", " == [','] + " " && Commas(" ") == 0;
    }
  }

  lemma {:induction false} FlatGrows(items: seq<string>, last: string)
    requires (forall x :: x in items ==> ItemOk(x)) && Cleaned(Split(last, ',')) != []
    ensures |Flat(items + [last])| > |items|
  {
    if items == [] {
      assert items + [last] == [last] && [last][1..] == [];
    } else {
      assert (items + [last])[1..] == items[1..] + [last] && (items + [last])[0] == items[0];
      CleanedItem(items[0]);
      FlatGrows(items[1..], last);
    }
  }

  lemma {:induction false} LastPartCounts(s: string)
    requires s != "" && !IsSpace(s[|s| - 1]) && s[|s| - 1] != ','
    ensures Cleaned(Split(s, ',')) != []
    decreases |s|
  {
    var n := Until(s, ',');
    if n == |s| {
      var _, _ := StripTrims(s);
      assert s[..n] == s;
      assert Cleaned([s]) == [Strip(s)] + Cleaned([]);
    } else {
      LastPartCounts(s[n + 1..]);
      assert Split(s, ',')[1..] == Split(s[n + 1..], ',');
    }
  }

  /** An item with a comma falls apart when it is read, so it is added again every time. */
  lemma CommaNeverSettles(fields: seq<Field>, name: string, item: string)
    requires ',' in item && !IsSpace(item[|item| - 1]) && item[|item| - 1] != ','
    ensures !Settled(Amend(fields, name, item, false), name, item, false)
  {
    var r := Find(fields, name);
    AmendFinds(fields, name, item, false);
    var items := if r.Some? then Relations(fields[r.value].value) else [];
    if r.Some? { RelationsAreItems(fields[r.value].value); }
    var once := Join(items + [item], ", ");
    assert item !in items;
    assert r.None? ==> items + [item] == [item];
    RelationsAreItems(once);
    RelationsIsCleaned(once);
    CleanedJoin(items + [item]);
    LastPartCounts(item);
    FlatGrows(items, item);
    CommasJoin(items, item);
    CommasJoin(Relations(once), item);
  }

  // --------------------------------------------------------------------------
  // The updated fields can be written and read

  /** After a newline comes white space, and then something else on the same line. */
  predicate NewlineOk(v: string, i: int, j: int)
    requires 0 <= i < |v|
  {
    && i < j < |v| && IsSpace(v[i + 1]) && v[i + 1] != '\n' && !IsSpace(v[j])
    && forall k :: i < k < j ==> v[k] != '\n'
  }

  ghost predicate TailAt(v: string, i: int)
    requires 0 <= i < |v|
  {
    v[i] == '\n' ==> exists j :: NewlineOk(v, i, j)
  }

  ghost predicate Tails(v: string) {
    forall i {:trigger TailAt(v, i)} :: 0 <= i < |v| ==> TailAt(v, i)
  }

  lemma TailsSlice(v: string, a: nat, b: nat)
    requires Tails(v) && a < b <= |v| && !IsSpace(v[b - 1])
    ensures Tails(v[a..b])
  {
    var w := v[a..b];
    forall i | 0 <= i < |w|
      ensures TailAt(w, i)
    {
      assert TailAt(v, a + i);
      if w[i] == '\n' {
        var j :| NewlineOk(v, a + i, j);
        var j' := if j < b then j else b - 1;
        assert NewlineOk(w, i, j' - a);
      }
    }
  }

  lemma TailsSuffix(v: string, a: nat)
    requires Tails(v) && a <= |v|
    ensures Tails(v[a..])
  {
    forall i | 0 <= i < |v[a..]|
      ensures TailAt(v[a..], i)
    {
      assert TailAt(v, a + i);
      if v[a..][i] == '\n' {
        var j :| NewlineOk(v, a + i, j);
        assert NewlineOk(v[a..], i, j - a);
      }
    }
  }

  lemma TailsConcat(a: string, b: string)
    requires Tails(a) && Tails(b)
    ensures Tails(a + b)
  {
    var v := a + b;
    forall i | 0 <= i < |v|
      ensures TailAt(v, i)
    {
      if v[i] == '\n' {
        if i < |a| {
          assert TailAt(a, i);
          var j :| NewlineOk(a, i, j);
          assert NewlineOk(v, i, j);
        } else {
          assert TailAt(b, i - |a|);
          var j :| NewlineOk(b, i - |a|, j);
          assert NewlineOk(v, i, j + |a|);
        }
      }
    }
  }

  lemma IndentedIff(v: string, n: nat)
    requires n < |v| && v[n] == '\n'
    ensures (exists j :: NewlineOk(v, n, j)) <==> Indented(Split(v[n + 1..], '\n')[0])
  {
    var w := v[n + 1..];
    var m := Until(w, '\n');
    var first := w[..m];
    assert Split(w, '\n')[0] == first;
    if exists j :: NewlineOk(v, n, j) {
      var j :| NewlineOk(v, n, j);
      assert w[j - (n + 1)] == v[j];
      assert m == |w| || v[n + 1 + m] == '\n';
      assert first[j - (n + 1)] == v[j] && first[0] == v[n + 1];
    }
    if Indented(first) {
      var k :| 0 <= k < |first| && !IsSpace(first[k]);
      assert forall x :: 0 <= x < m ==> first[x] == v[n + 1 + x] && first[x] in first;
      assert NewlineOk(v, n, n + 1 + k);
    }
  }

  predicate TailLines(lines: seq<string>) { forall i :: 1 <= i < |lines| ==> Indented(lines[i]) }

  lemma {:induction false} TailsIff(v: string)
    ensures Tails(v) <==> TailLines(Split(v, '\n'))
    decreases |v|
  {
    var n := Until(v, '\n');
    SplitStep(v, '\n', n);
    if n == |v| {
      assert v[..n] == v;
    } else {
      TailsStep(v, n);
      IndentedIff(v, n);
      TailsIff(v[n + 1..]);
      TailLinesCons(v[..n], Split(v[n + 1..], '\n'));
    }
  }

  lemma TailsStep(v: string, n: nat)
    requires n < |v| && v[n] == '\n' && '\n' !in v[..n]
    ensures Tails(v) <==> (exists j :: NewlineOk(v, n, j)) && Tails(v[n + 1..])
  {
    if Tails(v) {
      assert TailAt(v, n);
      TailsSuffix(v, n + 1);
    }
    if (exists j :: NewlineOk(v, n, j)) && Tails(v[n + 1..]) { TailsCons(v, n); }
  }

  lemma TailLinesCons(first: string, lines: seq<string>)
    requires lines != []
    ensures TailLines([first] + lines) <==> Indented(lines[0]) && TailLines(lines)
  {
    var all := [first] + lines;
    if TailLines(all) {
      assert all[1] == lines[0];
      forall i | 1 <= i < |lines|
        ensures Indented(lines[i])
      {
        assert all[i + 1] == lines[i];
      }
    }
  }

  lemma TailsCons(v: string, n: nat)
    requires n < |v| && v[n] == '\n' && '\n' !in v[..n] && Tails(v[n + 1..]) && exists j :: NewlineOk(v, n, j)
    ensures Tails(v)
  {
    forall i | 0 <= i < n
      ensures v[i] != '\n'
    {
      assert v[i] in v[..n];
    }
    forall i | 0 <= i < |v|
      ensures TailAt(v, i)
    {
      if i > n && v[i] == '\n' {
        assert TailAt(v[n + 1..], i - (n + 1));
        var j :| NewlineOk(v[n + 1..], i - (n + 1), j);
        assert NewlineOk(v, i, j + n + 1);
      }
    }
  }

  /** The value of a well-formed field, in terms of its characters. */
  lemma ValueOkIff(v: string)
    ensures LinesOk(Split(v, '\n')) <==> (v == "" || v[0] == '\n' || !IsSpace(v[0])) && Tails(v)
  {
    TailsIff(v);
    var n := Until(v, '\n');
    assert Split(v, '\n')[0] == v[..n];
  }

  /** An item that can stand in a value: nothing in it breaks a line in the wrong place. */
  ghost predicate Writable(item: string) { item != "" && Trim(item) && Tails(item) }

  lemma SliceOfSlice(v: string, x: nat, y: nat, a: nat, b: nat)
    requires x <= y <= |v| && a <= b <= y - x
    ensures v[x..y][a..b] == v[x + a..x + b]
  {
    forall k | 0 <= k < b - a
      ensures v[x..y][a..b][k] == v[x + a..x + b][k]
    {
      assert v[x..y][a + k] == v[x + a + k];
    }
  }

  /** What is left of a part of a value after stripping can be written. */
  lemma PartIsWritable(v: string, x: nat, y: nat)
    requires Tails(v) && x <= y <= |v| && Strip(v[x..y]) != ""
    ensures Writable(Strip(v[x..y]))
  {
    var a, b := StripTrims(v[x..y]);
    SliceOfSlice(v, x, y, a, b);
    var item := Strip(v[x..y]);
    assert item[|item| - 1] == v[x + b - 1];
    TailsSlice(v, x + a, x + b);
  }

  lemma SuffixSplits(v: string, x: nat)
    requires x <= |v|
    ensures var n := Until(v[x..], ',');
            && v[x..][..n] == v[x..x + n]
            && (n < |v[x..]| ==> v[x..][n + 1..] == v[x + n + 1..])
  {
  }

  lemma {:induction false} CleanedAreWritable(v: string, x: nat)
    requires Tails(v) && x <= |v|
    ensures forall item :: item in Cleaned(Split(v[x..], ',')) ==> Writable(item)
    decreases |v| - x
  {
    var n := Until(v[x..], ',');
    SuffixSplits(v, x);
    var part := v[x..x + n];
    if Strip(part) != "" { PartIsWritable(v, x, x + n); }
    if n < |v[x..]| {
      CleanedAreWritable(v, x + n + 1);
      CleanedCons(part, Split(v[x + n + 1..], ','));
    } else {
      CleanedCons(part, []);
    }
  }

  lemma RelationsAreWritable(value: string)
    requires Tails(value)
    ensures forall item :: item in Relations(value) ==> Writable(item)
  {
    assert value[0..] == value;
    CleanedAreWritable(value, 0);
    RelationsIsCleaned(value);
  }

  lemma {:induction false} JoinIsWritable(items: seq<string>)
    requires items != [] && forall x :: x in items ==> Writable(x)
    ensures Writable(Join(items, ", "))
  {
    assert Writable(items[0]);
    if |items| > 1 {
      JoinIsWritable(items[1..]);
      var rest := Join(items[1..], ", ");
      TailsConcat(items[0], ", ");
      TailsConcat(items[0] + ", ", rest);
    }
  }

  lemma WritableValueOk(v: string)
    requires Writable(v)
    ensures LinesOk(Split(v, '\n'))
  {
    ValueOkIff(v);
  }

  lemma AmendKeepsOk(fields: seq<Field>, name: string, item: string, front: bool)
    requires AllFieldsOk(fields) && NameOk(name) && Writable(item)
    ensures AllFieldsOk(Amend(fields, name, item, front))
  {
    var r := Find(fields, name);
    if r.Some? {
      var value := fields[r.value].value;
      assert FieldOk(fields[r.value]);
      ValueOkIff(value);
      RelationsAreWritable(value);
      var items := Added(Relations(value), item, front);
      JoinIsWritable(items);
      WritableValueOk(Join(items, ", "));
    } else {
      WritableValueOk(item);
    }
  }

  lemma StrippedWithSuffix(value: string, suffix: string)
    requires Tails(value) && Writable(suffix)
    ensures Writable(Strip(value) + suffix)
  {
    assert value[0..|value|] == value;
    if Strip(value) != "" { PartIsWritable(value, 0, |value|); }
    TailsConcat(Strip(value), suffix);
  }

  lemma CounterpartIsWritable(fields: seq<Field>)
    requires AllFieldsOk(fields) && Find(fields, PACKAGE).Some?
    ensures Writable(Counterpart(fields))
    ensures var c := Counterpart(fields); !IsSpace(c[|c| - 1]) && c[|c| - 1] != ','
  {
    var value := fields[Find(fields, PACKAGE).value].value;
    assert FieldOk(fields[Find(fields, PACKAGE).value]);
    ValueOkIff(value);
    StrippedWithSuffix(value, "-hwe");
  }

  lemma NamesOk()
    ensures NameOk(DEPENDS) && NameOk(REPLACES) && Writable(UBUNTU_VIRT)
  {
    assert DEPENDS[0] == 'D' && DEPENDS[|DEPENDS| - 1] == 's' && REPLACES[0] == 'R' && REPLACES[|REPLACES| - 1] == 's';
    assert UBUNTU_VIRT[0] == 'u' && UBUNTU_VIRT[|UBUNTU_VIRT| - 1] == 't';
  }

  lemma UpdateKeepsOk(fields: seq<Field>)
    requires AllFieldsOk(fields) && Update(fields).Ok?
    ensures AllFieldsOk(Update(fields).value)
  {
    NamesOk();
    CounterpartIsWritable(fields);
    AmendKeepsOk(fields, DEPENDS, UBUNTU_VIRT, true);
    AmendKeepsOk(Amend(fields, DEPENDS, UBUNTU_VIRT, true), REPLACES, Counterpart(fields), false);
  }

  /** Updating fields twice is the same as updating them once if and only if the package name has no comma. */
  lemma FieldsTwice(fields: seq<Field>)
    requires AllFieldsOk(fields) && Update(fields).Ok?
    ensures Update(Update(fields).value) == Update(fields) <==> ',' !in PackageName(fields)
  {
    SecondUpdate(fields);
    CounterpartIsWritable(fields);
    var half, once, hwe := Amend(fields, DEPENDS, UBUNTU_VIRT, true), Update(fields).value, Counterpart(fields);
    assert ',' in hwe <==> ',' in PackageName(fields);
    SettledIff(once, REPLACES, hwe, false);
    if ',' in hwe {
      CommaNeverSettles(half, REPLACES, hwe);
    } else {
      AmendSettles(half, REPLACES, hwe, false);
    }
  }

  /** Fields that are written alike are alike. */
  lemma SerializeInjective(a: seq<Field>, b: seq<Field>)
    requires AllFieldsOk(a) && AllFieldsOk(b)
    ensures Serialize(a) == Serialize(b) <==> a == b
  {
    RoundTrip(a);
    RoundTrip(b);
  }

  /**
   * A control file that has been updated is not changed by another update, if
   * and only if the package name has no comma in it.
   */
  lemma UpdateTwice(text: string)
    requires UpdateText(text).Ok?
    ensures UpdateText(UpdateText(text).value) == UpdateText(text) <==> ',' !in PackageName(Parse(text).value)
  {
    var fields := Parse(text).value;
    ParsedIsOk(text);
    UpdateKeepsOk(fields);
    var once := Update(fields).value;
    RoundTrip(once);
    FieldsTwice(fields);
    SecondUpdate(fields);
    UpdateKeepsOk(once);
    SerializeInjective(Update(once).value, once);
  }

  lemma OneFieldIsOk(name: string)
    requires name != "" && Trim(name) && '\n' !in name
    ensures AllFieldsOk([Field(PACKAGE, name)])
    ensures Find([Field(PACKAGE, name)], PACKAGE) == Some(0) && PackageName([Field(PACKAGE, name)]) == name
  {
    SplitNone(name, '\n');
    assert PACKAGE[0] == 'P' && PACKAGE[|PACKAGE| - 1] == 'e';
    var _, _ := StripTrims(name);
    FindIs([Field(PACKAGE, name)], PACKAGE, Some(0));
  }

  /** A file whose package name has a comma: every update adds to Replaces again. */
  lemma CommaExample()
    ensures var text := Serialize([Field(PACKAGE, NAME_WITH_COMMA)]);
            UpdateText(text).Ok? && UpdateText(UpdateText(text).value) != UpdateText(text)
  {
    var name := NAME_WITH_COMMA;
    assert name[0] == 'a' && name[1] == ',' && name[2] == 'b';
    OneFieldIsOk(name);
    RoundTrip([Field(PACKAGE, name)]);
    UpdateTwice(Serialize([Field(PACKAGE, name)]));
  }
}
