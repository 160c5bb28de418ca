/** Keyset paging over an ordered list: what follows a cursor, one page, and the walk along the cursors. */
module Paging {
  import opened Wrappers

  /** The elements to keep, in order. */
  function Keep<T>(xs: seq<T>, keep: T -> bool): (r: seq<T>)
    ensures |r| <= |xs|
    decreases |xs|
  {
    if xs == [] then [] else (if keep(xs[0]) then [xs[0]] else []) + Keep(xs[1..], keep)
  }

  lemma {:induction false} KeepAppends<T>(xs: seq<T>, ys: seq<T>, keep: T -> bool)
    ensures Keep(xs + ys, keep) == Keep(xs, keep) + Keep(ys, keep)
    decreases |xs|
  {
    if xs == [] {
      assert xs + ys == ys;
    } else {
      assert (xs + ys)[0] == xs[0] && (xs + ys)[1..] == xs[1..] + ys;
      KeepAppends(xs[1..], ys, keep);
      Regroup(if keep(xs[0]) then [xs[0]] else [], Keep(xs[1..], keep), Keep(ys, keep));
    }
  }

  lemma {:induction false} KeepOne<T>(xs: seq<T>, i: nat, keep: T -> bool)
    requires i < |xs|
    ensures Keep(xs[..i + 1], keep) == Keep(xs[..i], keep) + if keep(xs[i]) then [xs[i]] else []
  {
    assert xs[..i + 1] == xs[..i] + [xs[i]];
    KeepAppends(xs[..i], [xs[i]], keep);
    assert [xs[i]][1..] == [];
  }

  lemma {:induction false} KeepSplits<T>(xs: seq<T>, i: nat, keep: T -> bool)
    requires i <= |xs|
    ensures Keep(xs, keep) == Keep(xs[..i], keep) + Keep(xs[i..], keep)
  {
    assert xs == xs[..i] + xs[i..];
    KeepAppends(xs[..i], xs[i..], keep);
  }

  lemma {:induction false} KeepMembers<T>(xs: seq<T>, keep: T -> bool, x: T)
    ensures x in Keep(xs, keep) <==> x in xs && keep(x)
    decreases |xs|
  {
    if xs != [] {
      assert xs == [xs[0]] + xs[1..];
      KeepMembers(xs[1..], keep, x);
    }
  }

  /** The place in xs of the k-th kept element. */
  lemma {:induction false} KeptAt<T>(xs: seq<T>, keep: T -> bool, k: nat) returns (q: nat)
    requires k < |Keep(xs, keep)|
    ensures q < |xs| && xs[q] == Keep(xs, keep)[k]
    ensures Keep(xs[..q + 1], keep) == Keep(xs, keep)[..k + 1]
    ensures Keep(xs[q + 1..], keep) == Keep(xs, keep)[k + 1..]
    decreases |xs|
  {
    if keep(xs[0]) && k == 0 {
      q := 0;
    } else {
      var r := KeptAt(xs[1..], keep, if keep(xs[0]) then k - 1 else k);
      q := r + 1;
      assert xs[q + 1..] == xs[1..][r + 1..];
      assert xs[q] == xs[1..][r];
    }
    KeepSplits(xs, q + 1, keep);
    assert |Keep(xs[..q + 1], keep)| + |Keep(xs[q + 1..], keep)| == |Keep(xs, keep)|;
    if keep(xs[0]) && k == 0 {
      assert Keep(xs, keep) == [xs[0]] + Keep(xs[1..], keep);
    } else {
      assert Keep(xs, keep) == (if keep(xs[0]) then [xs[0]] else []) + Keep(xs[1..], keep);
    }
  }

  // ----- ordered lists -----

  /** Every element comes after the cursors of exactly the earlier ones, and what a cursor excludes lies in front. */
  ghost predicate Ordered<T, K(!new)>(xs: seq<T>, comesAfter: (T, K) -> bool, key: T -> K) {
    && (forall i, j :: 0 <= i < |xs| && 0 <= j < |xs| ==> (comesAfter(xs[j], key(xs[i])) <==> i < j))
    && (forall i, j, c :: 0 <= i < j < |xs| && comesAfter(xs[i], c) ==> comesAfter(xs[j], c))
  }

  /** What the query returns for a cursor. */
  function Eligible<T, K>(xs: seq<T>, comesAfter: (T, K) -> bool, cursor: Option<K>): seq<T> {
    if cursor.None? then xs else Keep(xs, x => comesAfter(x, cursor.value))
  }

  lemma {:induction false} KeepAll<T>(xs: seq<T>, keep: T -> bool)
    requires forall i :: 0 <= i < |xs| ==> keep(xs[i])
    ensures Keep(xs, keep) == xs
    decreases |xs|
  {
    if xs != [] {
      KeepAll(xs[1..], keep);
      assert xs == [xs[0]] + xs[1..];
    }
  }

  lemma {:induction false} KeepNone<T>(xs: seq<T>, keep: T -> bool)
    requires forall i :: 0 <= i < |xs| ==> !keep(xs[i])
    ensures Keep(xs, keep) == []
    decreases |xs|
  {
    if xs != [] {
      KeepNone(xs[1..], keep);
    }
  }

  /** The cursor of an element selects exactly what follows it. */
  lemma {:induction false} EligibleAfter<T, K(!new)>(xs: seq<T>, comesAfter: (T, K) -> bool, key: T -> K, i: nat)
    requires Ordered(xs, comesAfter, key) && i < |xs|
    ensures Eligible(xs, comesAfter, Some(key(xs[i]))) == xs[i + 1..]
  {
    var keep := x => comesAfter(x, key(xs[i]));
    KeepSplits(xs, i + 1, keep);
    KeepNone(xs[..i + 1], keep);
    KeepAll(xs[i + 1..], keep);
  }

  lemma {:induction false} KeepTail<T>(xs: seq<T>, keep: T -> bool, n: nat)
    requires n <= |xs|
    requires forall i :: 0 <= i < |xs| ==> (keep(xs[i]) <==> n <= i)
    ensures Keep(xs, keep) == xs[n..]
  {
    KeepSplits(xs, n, keep);
    KeepNone(xs[..n], keep);
    KeepAll(xs[n..], keep);
    assert [] + xs[n..] == xs[n..];
  }

  /** Where the elements that come after the cursor begin. */
  lemma {:induction false} FirstAfter<T, K(!new)>(xs: seq<T>, comesAfter: (T, K) -> bool, key: T -> K, c: K) returns (n: nat)
    requires Ordered(xs, comesAfter, key)
    ensures n <= |xs| && forall i :: 0 <= i < |xs| ==> (comesAfter(xs[i], c) <==> n <= i)
  {
    n := 0;
    while n < |xs| && !comesAfter(xs[n], c)
      invariant n <= |xs|
      invariant forall i :: 0 <= i < n ==> !comesAfter(xs[i], c)
    {
      n := n + 1;
    }
  }

  /** What follows a cursor is a tail of the list: exactly the elements that come after it. */
  lemma {:induction false} EligibleFrom<T, K(!new)>(xs: seq<T>, comesAfter: (T, K) -> bool, key: T -> K, c: K) returns (n: nat)
    requires Ordered(xs, comesAfter, key)
    ensures n <= |xs| && Eligible(xs, comesAfter, Some(c)) == xs[n..]
    ensures forall i :: 0 <= i < |xs| ==> (comesAfter(xs[i], c) <==> n <= i)
  {
    n := FirstAfter(xs, comesAfter, key, c);
    hide Ordered, Keep;
    KeepTail(xs, x => comesAfter(x, c), n);
  }

  /** Any cursor selects a tail of the list. */
  lemma {:induction false} EligibleTail<T, K(!new)>(xs: seq<T>, comesAfter: (T, K) -> bool, key: T -> K, cursor: Option<K>) returns (n: nat)
    requires Ordered(xs, comesAfter, key)
    ensures n <= |xs| && Eligible(xs, comesAfter, cursor) == xs[n..]
  {
    n := 0;
    if cursor.Some? {
      n := EligibleFrom(xs, comesAfter, key, cursor.value);
      assert cursor == Some(cursor.value);
    }
    hide Ordered, Keep;
  }

  lemma {:induction false} EligibleMembers<T, K>(xs: seq<T>, comesAfter: (T, K) -> bool, c: K, x: T)
    ensures x in Eligible(xs, comesAfter, Some(c)) <==> x in xs && comesAfter(x, c)
  {
    KeepMembers(xs, y => comesAfter(y, c), x);
    hide Keep;
  }

  // ----- one page -----

  datatype Page<T, K> = Page(entries: seq<T>, next: Option<K>)

  /** The first size shown elements of what follows the cursor, and a next cursor exactly when one more is left. */
  function PageAfter<T, K>(xs: seq<T>, comesAfter: (T, K) -> bool, key: T -> K, shown: T -> bool, size: nat, cursor: Option<K>): (p: Page<T, K>)
    requires size > 0
  {
    var rest := Keep(Eligible(xs, comesAfter, cursor), shown);
    if |rest| > size then Page(rest[..size], Some(key(rest[size - 1]))) else Page(rest, None)
  }

  /** The pages reached by following next cursors, put end to end. */
  ghost function Walk<T, K(!new)>(xs: seq<T>, comesAfter: (T, K) -> bool, key: T -> K, shown: T -> bool, size: nat, cursor: Option<K>): seq<T>
    requires size > 0 && Ordered(xs, comesAfter, key)
    decreases |Eligible(xs, comesAfter, cursor)|
  {
    var page := PageAfter(xs, comesAfter, key, shown, size, cursor);
    if page.next.None? then page.entries
    else
      NextIsShorter(xs, comesAfter, key, shown, size, cursor);
      page.entries + Walk(xs, comesAfter, key, shown, size, page.next)
  }

  lemma {:induction false} NextIsShorter<T, K(!new)>(xs: seq<T>, comesAfter: (T, K) -> bool, key: T -> K, shown: T -> bool, size: nat, cursor: Option<K>)
    requires size > 0 && Ordered(xs, comesAfter, key)
    requires PageAfter(xs, comesAfter, key, shown, size, cursor).next.Some?
    ensures var next := PageAfter(xs, comesAfter, key, shown, size, cursor).next;
            && |Eligible(xs, comesAfter, next)| < |Eligible(xs, comesAfter, cursor)|
            && Keep(Eligible(xs, comesAfter, next), shown) == Keep(Eligible(xs, comesAfter, cursor), shown)[size..]
  {
    hide Keep, Ordered, Eligible;
    var n := EligibleTail(xs, comesAfter, key, cursor);
    var rest := xs[n..];
    var q := KeptAt(rest, shown, size - 1);
    EligibleAfter(xs, comesAfter, key, n + q);
    assert xs[n + q + 1..] == rest[q + 1..];
    assert xs[n + q] == rest[q];
  }

  lemma Halves<T>(xs: seq<T>, i: nat)
    requires i <= |xs|
    ensures xs == xs[..i] + xs[i..]
  {}

  /** Following the cursors shows every shown element after the first cursor, each exactly once and in list order. */
  lemma {:induction false} WalkShowsAll<T, K(!new)>(xs: seq<T>, comesAfter: (T, K) -> bool, key: T -> K, shown: T -> bool, size: nat, cursor: Option<K>)
    requires size > 0 && Ordered(xs, comesAfter, key)
    ensures Walk(xs, comesAfter, key, shown, size, cursor) == Keep(Eligible(xs, comesAfter, cursor), shown)
    decreases |Eligible(xs, comesAfter, cursor)|
  {
    hide Keep, Ordered, Eligible;
    var page := PageAfter(xs, comesAfter, key, shown, size, cursor);
    if page.next.Some? {
      NextIsShorter(xs, comesAfter, key, shown, size, cursor);
      WalkShowsAll(xs, comesAfter, key, shown, size, page.next);
      Halves(Keep(Eligible(xs, comesAfter, cursor), shown), size);
    }
  }
}
