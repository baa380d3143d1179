/** Byte strings in order, and sets of them as sorted lists: what iterating a
    `BTreeSet` or the keys of a `BTreeMap` gives. */
module Ordered {
  import opened Utf8

  predicate Less(a: Bytes, b: Bytes) {
    b != [] && (a == [] || a[0] < b[0] || (a[0] == b[0] && Less(a[1..], b[1..])))
  }

  predicate Sorted(names: seq<Bytes>) {
    forall i, j :: 0 <= i < j < |names| ==> Less(names[i], names[j])
  }

  /** Insertion in a `BTreeSet`. */
  function Inserted(names: seq<Bytes>, name: Bytes): seq<Bytes> {
    if names == [] then [name]
    else if names[0] == name then names
    else if Less(name, names[0]) then [name] + names
    else [names[0]] + Inserted(names[1..], name)
  }

  lemma {:induction false} LessIsTotal(a: Bytes, b: Bytes)
    ensures Less(a, b) || a == b || Less(b, a)
    ensures !(Less(a, b) && Less(b, a)) && !Less(a, a)
    decreases |a|
  {
    if a != [] && b != [] {
      LessIsTotal(a[1..], b[1..]);
      assert a == [a[0]] + a[1..] && b == [b[0]] + b[1..];
    }
    if a != [] {
      LessIsTotal(a[1..], a[1..]);
    }
  }

  lemma {:induction false} LessIsTransitive(a: Bytes, b: Bytes, c: Bytes)
    requires Less(a, b) && Less(b, c)
    ensures Less(a, c)
    decreases |a|
  {
    if a != [] && a[0] == b[0] && b[0] == c[0] {
      LessIsTransitive(a[1..], b[1..], c[1..]);
    }
  }

  lemma {:induction false} InsertedIsSorted(names: seq<Bytes>, name: Bytes)
    requires Sorted(names)
    ensures Sorted(Inserted(names, name))
    ensures forall t :: t in Inserted(names, name) <==> t in names || t == name
    decreases |names|
  {
    hide Less;
    if names == [] {
    } else if names[0] == name {
    } else if Less(name, names[0]) {
      forall j | 0 <= j < |names|
        ensures Less(name, names[j])
      {
        if j > 0 {
          LessIsTransitive(name, names[0], names[j]);
        }
      }
    } else {
      LessIsTotal(name, names[0]);
      InsertedIsSorted(names[1..], name);
      var rest := Inserted(names[1..], name);
      forall j | 0 <= j < |rest|
        ensures Less(names[0], rest[j])
      {
        assert rest[j] in rest;
      }
      assert names == [names[0]] + names[1..];
    }
  }

  lemma SomeMember(names: seq<Bytes>)
    ensures names == [] || exists t :: t in names
  {
    if names != [] {
      assert names[0] in names;
    }
  }

  lemma {:induction false} SortedIsUnique(a: seq<Bytes>, b: seq<Bytes>)
    requires Sorted(a) && Sorted(b) && forall t :: t in a <==> t in b
    ensures a == b
    decreases |a|
  {
    hide Less;
    if a == [] {
      SomeMember(b);
    } else {
      assert a[0] in b;
      assert b[0] in a;
      LessIsTotal(a[0], b[0]);
      assert forall j :: 0 < j < |a| ==> Less(a[0], a[j]);
      assert forall j :: 0 < j < |b| ==> Less(b[0], b[j]);
      assert a[0] == b[0];
      SameTails(a, b);
      SortedIsUnique(a[1..], b[1..]);
      assert a == [a[0]] + a[1..] && b == [b[0]] + b[1..];
    }
  }

  lemma SameTails(a: seq<Bytes>, b: seq<Bytes>)
    requires a != [] && b != [] && a[0] == b[0] && Sorted(a) && Sorted(b)
    requires forall t :: t in a <==> t in b
    ensures forall t :: t in a[1..] <==> t in b[1..]
  {
    hide Less;
    LessIsTotal(a[0], a[0]);
    forall t
      ensures t in a[1..] <==> t in b[1..]
    {
      if t in a[1..] {
        var i :| 0 <= i < |a[1..]| && a[1..][i] == t;
        assert Less(a[0], a[i + 1]);
        assert a[i + 1] in b;
      }
      if t in b[1..] {
        var i :| 0 <= i < |b[1..]| && b[1..][i] == t;
        assert Less(b[0], b[i + 1]);
        assert b[i + 1] in a;
      }
    }
  }
}
