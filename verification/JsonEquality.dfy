/** Canonical texts agree exactly when values are equal up to the order of object keys; so do hash payloads. */
module JsonEquality {
  import opened CanonicalJson
  import opened JsonParsing

  // ----- equality up to key order -----

  /** No object anywhere in the value has the same key twice. */
  ghost predicate WellFormed(v: Json)
    decreases v
  {
    match v
    case Array(items) => forall i :: 0 <= i < |items| ==> WellFormed(items[i])
    case Object(fields) =>
      DistinctKeys(fields) && forall i :: 0 <= i < |fields| ==> WellFormed(fields[i].value)
    case _ => true
  }

  ghost predicate DistinctKeys(fields: seq<Field>) {
    forall i, j :: 0 <= i < j < |fields| ==> fields[i].key != fields[j].key
  }

  /** Equal up to the order of object keys. */
  ghost predicate Same(v: Json, w: Json)
    decreases v
  {
    match (v, w)
    case (Array(a), Array(b)) => |a| == |b| && forall i :: 0 <= i < |a| ==> Same(a[i], b[i])
    case (Object(f), Object(g)) =>
      |f| == |g| && forall i :: 0 <= i < |f| ==> HasSame(f[i], g)
    case _ => v == w && !v.Array? && !v.Object?
  }

  /** The field has an equal in g: the same key and the same value. */
  ghost predicate HasSame(x: Field, g: seq<Field>)
    decreases x
  {
    exists j :: 0 <= j < |g| && g[j].key == x.key && Same(x.value, g[j].value)
  }

  // ----- the key order is a strict total order -----

  lemma {:induction false} BeforeIrreflexive(a: Text)
    ensures !Before(a, a)
  {
    if a != [] {
      BeforeIrreflexive(a[1..]);
    }
  }

  lemma {:induction false} BeforeTransitive(a: Text, b: Text, c: Text)
    requires Before(a, b) && Before(b, c)
    ensures Before(a, c)
  {
    if a != [] && a[0] == b[0] && b[0] == c[0] {
      BeforeTransitive(a[1..], b[1..], c[1..]);
    }
  }

  lemma {:induction false} BeforeTotal(a: Text, b: Text)
    requires a != b
    ensures Before(a, b) || Before(b, a)
  {
    if a != [] && b != [] && a[0] == b[0] {
      assert a == [a[0]] + a[1..] && b == [b[0]] + b[1..];
      BeforeTotal(a[1..], b[1..]);
    }
  }

  // ----- sorting fields with distinct keys -----

  ghost predicate Ascending(fields: seq<Field>) {
    forall i, j :: 0 <= i < j < |fields| ==> Before(fields[i].key, fields[j].key)
  }

  lemma {:induction false} InsertAscends(f: Field, fields: seq<Field>)
    requires Ascending(fields) && forall g :: g in fields ==> g.key != f.key
    ensures Ascending(Insert(f, fields))
  {
    InsertMembers(f, fields);
    if fields != [] {
      if Before(fields[0].key, f.key) {
        InsertAscends(f, fields[1..]);
        InsertMembers(f, fields[1..]);
        var rest := Insert(f, fields[1..]);
        forall j | 0 <= j < |rest|
          ensures Before(fields[0].key, rest[j].key)
        {
          assert rest[j] in rest;
          if rest[j] != f {
            var k :| 0 <= k < |fields[1..]| && fields[1..][k] == rest[j];
            assert fields[k + 1] == rest[j];
          }
        }
      } else {
        BeforeTotal(fields[0].key, f.key);
        forall j | 0 <= j < |fields|
          ensures Before(f.key, fields[j].key)
        {
          if j > 0 {
            BeforeTransitive(f.key, fields[0].key, fields[j].key);
          }
        }
      }
    }
  }

  lemma {:induction false} SortedAscends(fields: seq<Field>)
    requires DistinctKeys(fields)
    ensures Ascending(Sorted(fields))
  {
    if fields != [] {
      SortedAscends(fields[1..]);
      SortedMembers(fields[1..]);
      InsertAscends(fields[0], Sorted(fields[1..]));
    }
  }

  /** An ascending list that is part of another is no longer, and is the same list when it is as long. */
  lemma {:induction false} AscendingSubset(a: seq<Field>, b: seq<Field>)
    requires Ascending(a) && Ascending(b) && forall f :: f in a ==> f in b
    ensures |a| <= |b|
    ensures |a| == |b| ==> a == b
  {
    if a != [] {
      assert a[0] in b;
      if a[0] == b[0] {
        forall f | f in a[1..]
          ensures f in b[1..]
        {
          NotFirst(a, f);
          assert f in a;
          InTail(b, f);
        }
        AscendingSubset(a[1..], b[1..]);
        assert a == [a[0]] + a[1..] && b == [b[0]] + b[1..];
      } else {
        forall f | f in a
          ensures f in b[1..]
        {
          if f == b[0] {
            FirstIsLeast(b, a[0]);
            FirstIsLeast(a, f);
            BeforeTransitive(f.key, a[0].key, f.key);
            BeforeIrreflexive(f.key);
          } else {
            InTail(b, f);
          }
        }
        AscendingSubset(a, b[1..]);
      }
    }
  }

  lemma InTail(b: seq<Field>, f: Field)
    requires f in b && f != b[0]
    ensures f in b[1..]
  {}

  lemma FirstIsLeast(b: seq<Field>, f: Field)
    requires Ascending(b) && f in b && f != b[0]
    ensures Before(b[0].key, f.key)
  {}

  lemma NotFirst(a: seq<Field>, f: Field)
    requires Ascending(a) && a != [] && f in a[1..]
    ensures f != a[0]
  {
    var k :| 0 <= k < |a[1..]| && a[1..][k] == f;
    assert Before(a[0].key, a[k + 1].key);
    BeforeIrreflexive(f.key);
  }

  // ----- normal forms decide sameness -----

  lemma {:induction false} NormalItemsAt(items: seq<Json>)
    ensures |NormalItems(items)| == |items|
    ensures forall i :: 0 <= i < |items| ==> NormalItems(items)[i] == Normal(items[i])
  {
    if items != [] {
      NormalItemsAt(items[1..]);
    }
  }

  lemma {:induction false} NormalFieldsAt(fields: seq<Field>)
    ensures |NormalFields(fields)| == |fields|
    ensures forall i :: 0 <= i < |fields| ==> NormalFields(fields)[i] == Field(fields[i].key, Normal(fields[i].value))
  {
    if fields != [] {
      NormalFieldsAt(fields[1..]);
    }
  }

  lemma {:induction false} SameMeansNormal(v: Json, w: Json)
    requires WellFormed(v) && WellFormed(w)
    ensures Same(v, w) <==> Normal(v) == Normal(w)
    decreases v, 1, 0
  {
    if v.Array? && w.Array? {
      SameArrays(v, w);
    } else if v.Object? && w.Object? {
      SameObjects(v, w);
    }
  }

  lemma {:induction false} SameArrays(v: Json, w: Json)
    requires WellFormed(v) && WellFormed(w) && v.Array? && w.Array?
    ensures Same(v, w) <==> NormalItems(v.items) == NormalItems(w.items)
    decreases v, 0, 0
  {
    forall i | 0 <= i < |v.items| && i < |w.items|
      ensures Same(v.items[i], w.items[i]) <==> Normal(v.items[i]) == Normal(w.items[i])
    {
      SameMeansNormal(v.items[i], w.items[i]);
    }
    hide NormalItems, Normal;
    SameItems(v.items, w.items);
  }

  lemma {:induction false} SameObjects(v: Json, w: Json)
    requires WellFormed(v) && WellFormed(w) && v.Object? && w.Object?
    ensures Same(v, w) <==> Sorted(NormalFields(v.fields)) == Sorted(NormalFields(w.fields))
    decreases v, 0, 1
  {
    forall i | 0 <= i < |v.fields|
      ensures HasSame(v.fields[i], w.fields) <==> HasPartner(v.fields[i], w.fields)
    {
      SameIsPartner(v, i, w);
    }
    hide NormalFields, Normal, Sorted, HasPartner, HasSame;
    SameFields(v.fields, w.fields);
  }

  lemma {:induction false} SameIsPartner(v: Json, i: nat, w: Json)
    requires WellFormed(v) && WellFormed(w) && v.Object? && w.Object? && i < |v.fields|
    ensures HasSame(v.fields[i], w.fields) <==> HasPartner(v.fields[i], w.fields)
    decreases v, 0, 0
  {
    var f, g := v.fields, w.fields;
    forall j | 0 <= j < |g|
      ensures Same(f[i].value, g[j].value) <==> Normal(f[i].value) == Normal(g[j].value)
    {
      SameMeansNormal(f[i].value, g[j].value);
    }
    hide Same, Normal;
  }

  lemma {:induction false} SameItems(a: seq<Json>, b: seq<Json>)
    requires forall i :: 0 <= i < |a| && i < |b| ==> (Same(a[i], b[i]) <==> Normal(a[i]) == Normal(b[i]))
    ensures (|a| == |b| && forall i :: 0 <= i < |a| ==> Same(a[i], b[i])) <==> NormalItems(a) == NormalItems(b)
  {
    NormalItemsAt(a);
    NormalItemsAt(b);
    hide Normal, Same, NormalItems;
    if NormalItems(a) == NormalItems(b) {
      forall i | 0 <= i < |a|
        ensures Same(a[i], b[i])
      {
        assert NormalItems(a)[i] == NormalItems(b)[i];
      }
    }
  }

  /** The field has a partner in g: the same key and an equal normal value. */
  ghost predicate HasPartner(x: Field, g: seq<Field>) {
    exists j :: 0 <= j < |g| && g[j].key == x.key && Normal(x.value) == Normal(g[j].value)
  }

  ghost predicate Partnered(f: seq<Field>, g: seq<Field>) {
    forall i :: 0 <= i < |f| ==> HasPartner(f[i], g)
  }

  lemma {:induction false} SameFields(f: seq<Field>, g: seq<Field>)
    requires DistinctKeys(f) && DistinctKeys(g)
    ensures |f| == |g| && Partnered(f, g) <==> Sorted(NormalFields(f)) == Sorted(NormalFields(g))
  {
    var nf, ng := NormalFields(f), NormalFields(g);
    NormalFieldsAt(f);
    NormalFieldsAt(g);
    SortedMembers(nf);
    SortedMembers(ng);
    SortedAscends(nf);
    SortedAscends(ng);
    hide Normal, Sorted, NormalFields;
    if |f| == |g| && Partnered(f, g) {
      forall x | x in Sorted(nf)
        ensures x in Sorted(ng)
      {
        var i :| 0 <= i < |nf| && nf[i] == x;
        var j :| 0 <= j < |g| && g[j].key == f[i].key && Normal(f[i].value) == Normal(g[j].value);
        assert ng[j] == x;
      }
      AscendingSubset(Sorted(nf), Sorted(ng));
    }
    if Sorted(nf) == Sorted(ng) {
      forall i | 0 <= i < |f|
        ensures HasPartner(f[i], g)
      {
        assert nf[i] in Sorted(ng);
        var j :| 0 <= j < |ng| && ng[j] == nf[i];
        assert g[j].key == f[i].key && Normal(f[i].value) == Normal(g[j].value);
      }
    }
  }

  /** Canonical texts are equal exactly when the values are equal up to key order. */
  lemma {:induction false} CanonicalDecidesSameness(v: Json, w: Json)
    requires WellFormed(v) && WellFormed(w)
    ensures Canonical(v) == Canonical(w) <==> Same(v, w)
  {
    ParseUndoesCanonical(v);
    ParseUndoesCanonical(w);
    CanonicalPrintsNormal(v);
    CanonicalPrintsNormal(w);
    SameMeansNormal(v, w);
  }
}
