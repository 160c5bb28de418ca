/** The order of the two galleries in plain comparisons: newest first, and what a page after a cursor holds. */
module GalleryOrder {
  import opened Wrappers
  import opened CanonicalJson
  import opened JsonEquality
  import opened KeyOrder
  import opened Paging
  import opened Gallery

  // ----- minted cards -----

  /** a is the older mint: a lower block; in one block a lower transaction; in one transaction a lower log; for one log, the later id. */
  ghost predicate OlderMint(a: MintKey, b: MintKey) {
    || a.blockNumber < b.blockNumber
    || (a.blockNumber == b.blockNumber && a.transactionIndex < b.transactionIndex)
    || (a.blockNumber == b.blockNumber && a.transactionIndex == b.transactionIndex && a.logIndex < b.logIndex)
    || (a.blockNumber == b.blockNumber && a.transactionIndex == b.transactionIndex && a.logIndex == b.logIndex
        && DictionaryBefore(b.signatureId, a.signatureId))
  }

  lemma ComesAfterIsOlder(entry: MintKey, cursor: MintKey)
    ensures ComesAfterMint(entry, cursor) <==> OlderMint(entry, cursor)
  {
    BeforeIsDictionary(cursor.signatureId, entry.signatureId);
    hide Before, DictionaryBefore;
  }

  /** Block numbers never increase along the list; within a block, transaction indices; within a transaction, log indices; within a log, ids ascend. */
  ghost predicate NewestFirst(gallery: seq<MintedCard>) {
    && (forall i, j :: 0 <= i < j < |gallery| ==> gallery[i].place.blockNumber >= gallery[j].place.blockNumber)
    && (forall i, j :: 0 <= i < j < |gallery| && gallery[i].place.blockNumber == gallery[j].place.blockNumber
          ==> gallery[i].place.transactionIndex >= gallery[j].place.transactionIndex)
    && (forall i, j :: 0 <= i < j < |gallery| && gallery[i].place.blockNumber == gallery[j].place.blockNumber
          && gallery[i].place.transactionIndex == gallery[j].place.transactionIndex
          ==> gallery[i].place.logIndex >= gallery[j].place.logIndex)
    && (forall i, j :: 0 <= i < j < |gallery| && gallery[i].place.blockNumber == gallery[j].place.blockNumber
          && gallery[i].place.transactionIndex == gallery[j].place.transactionIndex && gallery[i].place.logIndex == gallery[j].place.logIndex
          ==> DictionaryBefore(gallery[i].place.signatureId, gallery[j].place.signatureId))
  }

  lemma {:induction false} MintStoreIsNewestFirst(gallery: seq<MintedCard>)
    ensures MintStore(gallery) <==> NewestFirst(gallery)
  {
    forall i, j | 0 <= i < j < |gallery|
      ensures ComesAfterMint(MintKeyOf(gallery[j]), MintKeyOf(gallery[i])) <==> OlderMint(gallery[j].place, gallery[i].place)
    {
      ComesAfterIsOlder(gallery[j].place, gallery[i].place);
    }
    hide ComesAfterMint, DictionaryBefore;
    if MintStore(gallery) {
      forall i, j | 0 <= i < j < |gallery|
        ensures OlderMint(gallery[j].place, gallery[i].place)
      {
        assert ComesAfterMint(MintKeyOf(gallery[j]), MintKeyOf(gallery[i]));
      }
    }
  }

  /** What the query keeps for a cursor are the cards older than it, whatever the list. */
  lemma {:induction false} EligibleAreOlder(gallery: seq<MintedCard>, cursor: MintKey, card: MintedCard)
    ensures card in Eligible(gallery, MintAfter, Some(cursor)) <==> card in gallery && OlderMint(card.place, cursor)
  {
    EligibleMembers(gallery, MintAfter, cursor, card);
    ComesAfterIsOlder(card.place, cursor);
    hide Eligible, ComesAfterMint, OlderMint;
  }

  /** The cards older than the cursor are a tail of the gallery. */
  lemma {:induction false} OlderTail(gallery: seq<MintedCard>, cursor: MintKey) returns (n: nat)
    requires MintStore(gallery)
    ensures n <= |gallery| && Eligible(gallery, MintAfter, Some(cursor)) == gallery[n..]
    ensures forall i :: 0 <= i < |gallery| ==> (OlderMint(gallery[i].place, cursor) <==> n <= i)
  {
    MintStoreIsOrdered(gallery);
    hide Eligible, Ordered, ComesAfterMint, OlderMint, MintStore;
    n := EligibleFrom(gallery, MintAfter, MintKeyOf, cursor);
    forall i | 0 <= i < |gallery|
      ensures OlderMint(gallery[i].place, cursor) <==> n <= i
    {
      ComesAfterIsOlder(gallery[i].place, cursor);
      assert MintAfter(gallery[i], cursor) <==> n <= i;
    }
  }

  /**
   The page after a cursor holds no card that is not older than it, and no
   suppressed one; and each of the first 24 older cards is on it or suppressed.
   */
  lemma {:induction false} PageIsOlder(gallery: seq<MintedCard>, suppressed: set<Text>, cursor: MintKey) returns (n: nat)
    requires MintStore(gallery)
    ensures n <= |gallery|
    ensures forall i :: 0 <= i < |gallery| ==> (OlderMint(gallery[i].place, cursor) <==> n <= i)
    ensures var page := SlotPage(gallery, suppressed, PAGE_SIZE, Some(cursor));
            && (forall card :: card in page.entries ==> card in gallery && OlderMint(card.place, cursor) && card.place.signatureId !in suppressed)
            && (forall i :: n <= i < |gallery| && i < n + 24 ==> gallery[i] in page.entries || gallery[i].place.signatureId in suppressed)
            && (page.next.Some? <==> |gallery| > n + 24)
            && (page.next.Some? ==> page.next.value == gallery[n + 23].place)
  {
    n := OlderTail(gallery, cursor);
    hide Eligible, OlderMint, MintStore, Keep;
    var page := SlotPage(gallery, suppressed, PAGE_SIZE, Some(cursor));
    var slots := if |gallery[n..]| > PAGE_SIZE then gallery[n..][..PAGE_SIZE] else gallery[n..];
    assert page.entries == Keep(slots, Visible(suppressed));
    forall card
      ensures card in page.entries <==> card in slots && card.place.signatureId !in suppressed
    {
      KeepMembers(slots, Visible(suppressed), card);
    }
    forall i | n <= i < |gallery| && i < n + 24
      ensures gallery[i] in slots
    {
      assert slots[i - n] == gallery[i];
    }
    forall card | card in slots
      ensures card in gallery && OlderMint(card.place, cursor)
    {
      var k :| 0 <= k < |slots| && slots[k] == card;
      assert gallery[n + k] == card;
    }
  }

  // ----- claimed signatures -----

  /** a is the older claim: an earlier time, or at the same time the later id. */
  ghost predicate OlderClaim(a: ClaimKey, b: ClaimKey) {
    a.claimedAt < b.claimedAt || (a.claimedAt == b.claimedAt && DictionaryBefore(b.signatureId, a.signatureId))
  }

  lemma ClaimAfterIsOlder(entry: ClaimKey, cursor: ClaimKey)
    ensures ComesAfterClaim(entry, cursor) <==> OlderClaim(entry, cursor)
  {
    BeforeIsDictionary(cursor.signatureId, entry.signatureId);
    hide Before, DictionaryBefore;
  }

  /** Times never increase along the list; at one time, ids ascend. */
  ghost predicate NewestClaimsFirst(store: seq<Claim>) {
    && (forall i, j :: 0 <= i < j < |store| ==> store[i].claimedAt >= store[j].claimedAt)
    && (forall i, j :: 0 <= i < j < |store| && store[i].claimedAt == store[j].claimedAt
          ==> DictionaryBefore(store[i].signatureId, store[j].signatureId))
  }

  lemma {:induction false} ClaimStoreIsNewestFirst(store: seq<Claim>)
    ensures ClaimStore(store) <==> NewestClaimsFirst(store)
  {
    forall i, j | 0 <= i < j < |store|
      ensures ComesAfterClaim(ClaimKeyOf(store[j]), ClaimKeyOf(store[i])) <==> OlderClaim(ClaimKeyOf(store[j]), ClaimKeyOf(store[i]))
    {
      ClaimAfterIsOlder(ClaimKeyOf(store[j]), ClaimKeyOf(store[i]));
    }
    hide ComesAfterClaim, DictionaryBefore;
    if ClaimStore(store) {
      forall i, j | 0 <= i < j < |store|
        ensures OlderClaim(ClaimKeyOf(store[j]), ClaimKeyOf(store[i]))
      {
        assert ComesAfterClaim(ClaimKeyOf(store[j]), ClaimKeyOf(store[i]));
      }
    }
  }

  lemma {:induction false} OlderClaimsTail(store: seq<Claim>, cursor: ClaimKey) returns (n: nat)
    requires ClaimStore(store)
    ensures n <= |store| && Eligible(store, ClaimAfter, Some(cursor)) == store[n..]
    ensures forall i :: 0 <= i < |store| ==> (OlderClaim(ClaimKeyOf(store[i]), cursor) <==> n <= i)
  {
    ClaimStoreIsOrdered(store);
    hide Eligible, Ordered, ComesAfterClaim, OlderClaim, ClaimStore;
    n := EligibleFrom(store, ClaimAfter, ClaimKeyOf, cursor);
    forall i | 0 <= i < |store|
      ensures OlderClaim(ClaimKeyOf(store[i]), cursor) <==> n <= i
    {
      ClaimAfterIsOlder(ClaimKeyOf(store[i]), cursor);
      assert ClaimAfter(store[i], cursor) <==> n <= i;
    }
  }

  /** A claims page after a cursor: the first 24 unsuppressed claims that are older than it, in order, and a next cursor exactly when there is a 25th. */
  lemma {:induction false} ClaimedPageIsOlder(store: seq<Claim>, suppressed: set<Text>, cursor: ClaimKey) returns (n: nat)
    requires ClaimStore(store)
    ensures n <= |store|
    ensures forall i :: 0 <= i < |store| ==> (OlderClaim(ClaimKeyOf(store[i]), cursor) <==> n <= i)
    ensures var page, older := ClaimedPage(store, suppressed, Some(cursor)), Keep(store[n..], Unsuppressed(suppressed));
            && (forall claim :: claim in older <==> claim in store[n..] && claim.signatureId !in suppressed)
            && page.entries == (if |older| > 24 then older[..24] else older)
            && page.next == (if |older| > 24 then Some(ClaimKeyOf(older[23])) else None)
  {
    n := OlderClaimsTail(store, cursor);
    hide Eligible, OlderClaim, ClaimStore, Keep;
    forall claim
      ensures claim in Keep(store[n..], Unsuppressed(suppressed)) <==> claim in store[n..] && claim.signatureId !in suppressed
    {
      KeepMembers(store[n..], Unsuppressed(suppressed), claim);
    }
  }
}
