/** What the order of keys and ids is: the first differing code unit decides, and a prefix comes first. */
module KeyOrder {
  import opened Wrappers
  import opened CanonicalJson
  import opened JsonEquality
  import opened JsonParsing

  /** a is a proper prefix of b, or smaller at the first place where they differ. */
  ghost predicate DictionaryBefore(a: Text, b: Text) {
    exists i: nat :: DiffersAt(a, b, i)
  }

  predicate DiffersAt(a: Text, b: Text, i: nat) {
    && i <= |a| && i < |b| && a[..i] == b[..i]
    && (i < |a| ==> a[i] < b[i])
  }

  lemma SharedStart(a: Text, b: Text, i: nat)
    requires i <= |a| && i <= |b| && a[..i] == b[..i]
    ensures i > 0 ==> a[0] == b[0]
  {
    if i > 0 {
      assert a[..i][0] == b[..i][0];
    }
  }

  lemma {:induction false} BeforeIsDictionary(a: Text, b: Text)
    ensures Before(a, b) <==> DictionaryBefore(a, b)
  {
    if a == [] || b == [] || a[0] != b[0] {
      if Before(a, b) {
        assert DiffersAt(a, b, 0);
      }
      if DictionaryBefore(a, b) {
        var i: nat :| DiffersAt(a, b, i);
        SharedStart(a, b, i);
      }
    } else {
      BeforeIsDictionary(a[1..], b[1..]);
      if Before(a, b) {
        var i: nat :| DiffersAt(a[1..], b[1..], i);
        assert a[..i + 1] == [a[0]] + a[1..][..i] && b[..i + 1] == [b[0]] + b[1..][..i];
        assert DiffersAt(a, b, i + 1);
      }
      if DictionaryBefore(a, b) {
        var i: nat :| DiffersAt(a, b, i);
        assert i > 0 && a[1..][..i - 1] == a[..i][1..] && b[1..][..i - 1] == b[..i][1..];
        assert DiffersAt(a[1..], b[1..], i - 1);
      }
    }
  }

  // ----- printed keys -----

  /** In every object of the value, at any depth, the keys ascend. */
  ghost predicate KeysAscend(v: Json)
    decreases v
  {
    match v
    case Array(items) => forall i :: 0 <= i < |items| ==> KeysAscend(items[i])
    case Object(fields) =>
      && (forall i, j :: 0 <= i < j < |fields| ==> DictionaryBefore(fields[i].key, fields[j].key))
      && forall i :: 0 <= i < |fields| ==> KeysAscend(fields[i].value)
    case _ => true
  }

  lemma {:induction false} NormalAscends(v: Json)
    requires WellFormed(v)
    ensures KeysAscend(Normal(v))
    decreases v
  {
    match v
    case Array(items) =>
      NormalItemsAt(items);
      forall i | 0 <= i < |items|
        ensures KeysAscend(Normal(items[i]))
      {
        NormalAscends(items[i]);
      }
    case Object(fields) =>
      NormalFieldsAt(fields);
      var normal := NormalFields(fields);
      SortedAscends(normal);
      SortedMembers(normal);
      var sorted := Sorted(normal);
      forall i, j | 0 <= i < j < |sorted|
        ensures DictionaryBefore(sorted[i].key, sorted[j].key)
      {
        BeforeIsDictionary(sorted[i].key, sorted[j].key);
      }
      forall i | 0 <= i < |sorted|
        ensures KeysAscend(sorted[i].value)
      {
        assert sorted[i] in normal;
        var k :| 0 <= k < |normal| && normal[k] == sorted[i];
        NormalAscends(fields[k].value);
      }
    case _ =>
  }

  /** What canonical text reads back as has the keys of every object in ascending order. */
  lemma {:induction false} PrintedKeysAscend(v: Json)
    requires WellFormed(v)
    ensures ParseValue(Canonical(v)).Some? && ParseValue(Canonical(v)).value.1 == [] && KeysAscend(ParseValue(Canonical(v)).value.0)
  {
    ParseUndoesCanonical(v);
    NormalAscends(v);
    hide Canonical, ParseValue, Normal, KeysAscend, WellFormed;
  }

  // ----- printed characters -----

  /** A unit has a two-character escape when some letter behind a backslash stands for it. */
  predicate HasShortEscape(c: Unit) {
    exists letter :: Unescape(letter) == Some(c)
  }

  /** Each unit is printed as shortly as a reader of JSON allows: as itself, by its two-character escape, or by its code in hexadecimal. */
  lemma ShortestEscape(c: Unit, paired: bool)
    ensures |EscapeUnit(c, paired)| == if HasShortEscape(c) then 2
                                       else if c < 0x20 || (0xD800 <= c <= 0xDFFF && !paired) then 6
                                       else 1
    ensures |EscapeUnit(c, paired)| == 1 ==> EscapeUnit(c, paired) == [c]
  {
    if ShortEscape(c).Some? {
      assert Unescape(ShortEscape(c).value) == Some(c);
    }
  }
}
