/** The extension watch (`parse_published` and `diff_new_official` in
    `extension_watch.rs`). */
module Published {
  import opened Json
  import opened JsonRoundTrip
  import opened JsonText
  import opened Ordered
  import opened Outcome
  import opened Utf8

  datatype Extension = Extension(id: Bytes, status: Bytes, specUrl: Bytes)

  /** A roadmap item; its title is the id in a fixed sentence. */
  datatype Item = Item(key: Bytes, id: Bytes)

  datatype Refusal = NotJson(problem: Problem) | NotAList | NoIdentifiers

  // ----- Decoding -----

  /** The first field of that name. */
  function Lookup(fields: seq<(Bytes, Json)>, name: Bytes): Option<Json> {
    if fields == [] then None
    else if fields[0].0 == name then Some(fields[0].1)
    else Lookup(fields[1..], name)
  }

  /** The first alias that is present as a string. */
  function LookupText(fields: seq<(Bytes, Json)>, names: seq<string>): Option<Bytes> {
    if names == [] then None
    else
      match Lookup(fields, Ascii(names[0]))
      case Some(Str(text)) => Some(text)
      case _ => LookupText(fields, names[1..])
  }

  function ListUnder(fields: seq<(Bytes, Json)>, names: seq<string>): Option<seq<Json>> {
    if names == [] then None
    else
      match Lookup(fields, Ascii(names[0]))
      case Some(Array(items)) => Some(items)
      case _ => ListUnder(fields, names[1..])
  }

  /** The first list that holds an object. */
  function FirstList(fields: seq<(Bytes, Json)>): Option<seq<Json>> {
    if fields == [] then None
    else if fields[0].1.Array? && exists i :: 0 <= i < |fields[0].1.items| && fields[0].1.items[i].Object? then
      Some(fields[0].1.items)
    else FirstList(fields[1..])
  }

  function Entries(root: Json): Option<seq<Json>> {
    match root
    case Array(items) => Some(items)
    case Object(fields) =>
      var known := ListUnder(fields, ["extensions", "published", "items", "data", "results"]);
      if known.Some? then known else FirstList(fields)
    case _ => None
  }

  function TextOr(text: Option<Bytes>): Bytes {
    if text.Some? then text.value else []
  }

  function Extensions(entries: seq<Json>): seq<Extension> {
    if entries == [] then []
    else
      var rest := Extensions(entries[1..]);
      match entries[0]
      case Object(fields) =>
        var id := LookupText(fields, ["id", "extension_id", "extensionId", "slug"]);
        if id.None? then rest
        else
          [Extension(id.value, TextOr(LookupText(fields, ["status", "state"])),
                     TextOr(LookupText(fields, ["spec_url", "specUrl", "spec", "url"])))] + rest
      case _ => rest
  }

  function ParsePublished(src: Bytes): Result<seq<Extension>, Refusal> {
    var root := ParseDocument(src).result;
    if root.Err? then Err(NotJson(root.error))
    else
      var entries := Entries(root.value);
      if entries.None? then Err(NotAList)
      else
        var found := Extensions(entries.value);
        if found == [] && entries.value != [] then Err(NoIdentifiers) else Ok(found)
  }

  /** How the document is laid out and how its strings are escaped changes nothing. */
  lemma LayoutChangesNothing(before: Bytes, d: Doc, after: Bytes, before': Bytes, d': Doc, after': Bytes)
    requires IsGap(before) && IsGap(after) && DocOk(d)
    requires IsGap(before') && IsGap(after') && DocOk(d')
    requires Value(d) == Value(d')
    ensures ParsePublished(before + Write(d) + after) == ParsePublished(before' + Write(d') + after')
    ensures !ParsePublished(before + Write(d) + after).Err? || !ParsePublished(before + Write(d) + after).error.NotJson?
  {
    hide DocOk, Write, Value, ParseDocument, Entries, Extensions;
    RoundTrip(before, d, after);
    RoundTrip(before', d', after');
  }

  // ----- The difference -----

  function Lower(b: Byte): Byte {
    if 0x41 <= b <= 0x5A then b + 0x20 else b
  }

  predicate SameIgnoringCase(a: Bytes, b: Bytes) {
    |a| == |b| && forall i :: 0 <= i < |a| ==> Lower(a[i]) == Lower(b[i])
  }

  /** The extension is official and not known yet. */
  predicate Wanted(e: Extension, known: seq<Bytes>) {
    SameIgnoringCase(e.status, Ascii("official")) && e.id !in known
  }

  function WantedIds(published: seq<Extension>, known: seq<Bytes>): (ids: seq<Bytes>)
    ensures forall id :: id in ids <==> exists e :: e in published && Wanted(e, known) && e.id == id
  {
    if published == [] then []
    else
      var rest := WantedIds(published[1..], known);
      assert forall e :: e in published <==> e == published[0] || e in published[1..];
      if Wanted(published[0], known) then [published[0].id] + rest else rest
  }

  /** In order, duplicates next to each other. */
  predicate InOrder(ids: seq<Bytes>) {
    forall i, j :: 0 <= i < j < |ids| ==> ids[i] == ids[j] || Less(ids[i], ids[j])
  }

  function Placed(ids: seq<Bytes>, id: Bytes): seq<Bytes> {
    if ids == [] || id == ids[0] || Less(id, ids[0]) then [id] + ids else [ids[0]] + Placed(ids[1..], id)
  }

  /** `sort_unstable`. */
  function Sort(ids: seq<Bytes>): seq<Bytes> {
    if ids == [] then [] else Placed(Sort(ids[1..]), ids[0])
  }

  /** `dedup`: drops every element equal to the one before it. */
  function Dedup(ids: seq<Bytes>): seq<Bytes> {
    if |ids| < 2 then ids
    else if ids[0] == ids[1] then Dedup(ids[1..])
    else [ids[0]] + Dedup(ids[1..])
  }

  /** `/` folded to `-`. */
  function Folded(id: Bytes): (r: Bytes)
    ensures |r| == |id| && forall i :: 0 <= i < |id| ==> r[i] == if id[i] == 0x2F then 0x2D else id[i]
  {
    seq(|id|, i requires 0 <= i < |id| => if id[i] == 0x2F then 0x2D else id[i])
  }

  function ItemOf(id: Bytes): Item {
    Item(Ascii("ext-watch-") + Folded(id), id)
  }

  function NewIds(published: seq<Extension>, known: seq<Bytes>): seq<Bytes> {
    Dedup(Sort(WantedIds(published, known)))
  }

  function NewOfficial(published: seq<Extension>, known: seq<Bytes>): seq<Item> {
    var ids := NewIds(published, known);
    seq(|ids|, i requires 0 <= i < |ids| => ItemOf(ids[i]))
  }

  lemma {:induction false} PlacedInOrder(ids: seq<Bytes>, id: Bytes)
    requires InOrder(ids)
    ensures InOrder(Placed(ids, id)) && forall x :: x in Placed(ids, id) <==> x in ids || x == id
    decreases |ids|
  {
    hide Less;
    if ids == [] || id == ids[0] {
    } else if Less(id, ids[0]) {
      forall j | 0 <= j < |ids|
        ensures Less(id, ids[j])
      {
        if ids[j] != ids[0] {
          LessIsTransitive(id, ids[0], ids[j]);
        }
      }
    } else {
      LessIsTotal(id, ids[0]);
      PlacedInOrder(ids[1..], id);
      var rest := Placed(ids[1..], id);
      forall j | 0 <= j < |rest|
        ensures ids[0] == rest[j] || Less(ids[0], rest[j])
      {
        assert rest[j] in rest;
      }
      assert ids == [ids[0]] + ids[1..];
    }
  }

  lemma {:induction false} SortInOrder(ids: seq<Bytes>)
    ensures InOrder(Sort(ids)) && forall x :: x in Sort(ids) <==> x in ids
    decreases |ids|
  {
    hide InOrder, Placed;
    if ids == [] {
      NothingInOrder();
    } else {
      SortInOrder(ids[1..]);
      PlacedInOrder(Sort(ids[1..]), ids[0]);
      assert ids == [ids[0]] + ids[1..];
    }
  }

  lemma NothingInOrder()
    ensures InOrder([])
  {
  }

  lemma {:induction false} DedupIsSorted(ids: seq<Bytes>)
    requires InOrder(ids)
    ensures Sorted(Dedup(ids)) && forall x :: x in Dedup(ids) <==> x in ids
    decreases |ids|
  {
    hide Less;
    if |ids| >= 2 {
      assert ids == [ids[0]] + ids[1..];
      DedupIsSorted(ids[1..]);
      if ids[0] != ids[1] {
        var rest := Dedup(ids[1..]);
        forall j | 0 <= j < |rest|
          ensures Less(ids[0], rest[j])
        {
          assert rest[j] in ids[1..];
          var k :| 0 < k < |ids| && ids[k] == rest[j];
          if k > 1 && ids[0] == ids[k] {
            assert Less(ids[0], ids[1]) && Less(ids[1], ids[k]);
            LessIsTotal(ids[0], ids[1]);
          }
        }
      }
    }
  }

  lemma NewIdsAreExact(published: seq<Extension>, known: seq<Bytes>)
    ensures Sorted(NewIds(published, known))
    ensures forall id :: id in NewIds(published, known) <==>
                           exists e :: e in published && Wanted(e, known) && e.id == id
  {
    hide Sorted, Sort, Dedup, Wanted, WantedIds;
    SortInOrder(WantedIds(published, known));
    DedupIsSorted(Sort(WantedIds(published, known)));
  }

  predicate Reports(items: seq<Item>, id: Bytes) {
    exists i :: 0 <= i < |items| && items[i].id == id
  }

  /** One item for every official extension that is not known, in the order of the
      ids, and no other item. */
  lemma DifferenceIsExact(published: seq<Extension>, known: seq<Bytes>)
    ensures
      var items := NewOfficial(published, known);
      && (forall id :: Reports(items, id) <==> exists e :: e in published && Wanted(e, known) && e.id == id)
      && (forall i, j :: 0 <= i < j < |items| ==> Less(items[i].id, items[j].id))
      && (forall i :: 0 <= i < |items| ==> items[i] == ItemOf(items[i].id))
  {
    hide Wanted, NewIds, Less, ItemOf, Reports;
    NewIdsAreExact(published, known);
    var ids, items := NewIds(published, known), NewOfficial(published, known);
    ItemIds(ids);
    forall id
      ensures Reports(items, id) <==> id in ids
    {
      ReportsIds(ids, items, id);
    }
  }

  lemma ReportsIds(ids: seq<Bytes>, items: seq<Item>, id: Bytes)
    requires |ids| == |items| && forall i :: 0 <= i < |ids| ==> items[i].id == ids[i]
    ensures Reports(items, id) <==> id in ids
  {
    if id in ids {
      var i :| 0 <= i < |ids| && ids[i] == id;
      assert items[i].id == id;
    }
  }

  lemma ItemIds(ids: seq<Bytes>)
    ensures forall i :: 0 <= i < |ids| ==> ItemOf(ids[i]).id == ids[i]
  {
  }

  /** Order and duplicates of the published list do not matter. */
  lemma DifferenceIgnoresOrder(a: seq<Extension>, b: seq<Extension>, known: seq<Bytes>)
    requires forall e :: e in a <==> e in b
    ensures NewOfficial(a, known) == NewOfficial(b, known)
  {
    hide Wanted, NewIds, Sorted, ItemOf;
    NewIdsAreExact(a, known);
    NewIdsAreExact(b, known);
    SortedIsUnique(NewIds(a, known), NewIds(b, known));
  }

  /** Once its ids are known, nothing is reported twice. */
  lemma ReportedOnce(published: seq<Extension>, known: seq<Bytes>)
    ensures NewOfficial(published, known + NewIds(published, known)) == []
  {
    hide NewIds, SameIgnoringCase;
    var more := known + NewIds(published, known);
    NewIdsAreExact(published, known);
    NewIdsAreExact(published, more);
    forall e | e in published
      ensures !Wanted(e, more)
    {
      if Wanted(e, known) {
        assert e.id in NewIds(published, known);
      }
    }
    SomeMember(NewIds(published, more));
  }

  /** Roadmap keys are not as unique as ids: two items share a key exactly when their
      ids differ at most in `/` against `-`. */
  lemma KeysCollideExactly(a: Bytes, b: Bytes)
    ensures ItemOf(a).key == ItemOf(b).key <==>
              |a| == |b| && forall i :: 0 <= i < |a| ==> a[i] == b[i] || {a[i], b[i]} == {0x2D, 0x2F}
  {
    var prefix := Ascii("ext-watch-");
    assert ItemOf(a).key[|prefix|..] == Folded(a) && ItemOf(b).key[|prefix|..] == Folded(b);
    if |a| == |b| && forall i :: 0 <= i < |a| ==> a[i] == b[i] || {a[i], b[i]} == {0x2D, 0x2F} {
      forall i | 0 <= i < |a|
        ensures Folded(a)[i] == Folded(b)[i]
      {
        assert a[i] in {a[i], b[i]} && b[i] in {a[i], b[i]};
      }
      assert Folded(a) == Folded(b);
    }
    if Folded(a) == Folded(b) {
      forall i | 0 <= i < |a|
        ensures a[i] == b[i] || {a[i], b[i]} == {0x2D, 0x2F}
      {
        assert Folded(a)[i] == Folded(b)[i];
      }
    }
  }
}
