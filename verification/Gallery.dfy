/** The two public galleries: minted cards in chain order, claimed signatures newest first, both paged by key. */
module Gallery {
  import opened Wrappers
  import opened Paging
  import opened CanonicalJson
  import opened JsonEquality

  const PAGE_SIZE := 24

  // ----- orders -----

  /** The order of ids by code units is strict and total. */
  lemma {:induction false} IdOrder(a: Text, b: Text)
    ensures !(Before(a, b) && Before(b, a))
    ensures a != b ==> Before(a, b) || Before(b, a)
  {
    if a != b {
      BeforeTotal(a, b);
    }
    BeforeIrreflexive(a);
    if Before(a, b) && Before(b, a) {
      BeforeTransitive(a, b, a);
    }
    hide Before;
  }

  /** The place of a mint on the chain, and the signature it minted. */
  datatype MintKey = MintKey(blockNumber: nat, transactionIndex: nat, logIndex: nat, signatureId: Text)

  /** Newer blocks come first; ties go to the later transaction and log, then to the signature id. */
  predicate ComesAfterMint(entry: MintKey, cursor: MintKey) {
    if entry.blockNumber != cursor.blockNumber then entry.blockNumber < cursor.blockNumber
    else if entry.transactionIndex != cursor.transactionIndex then entry.transactionIndex < cursor.transactionIndex
    else if entry.logIndex != cursor.logIndex then entry.logIndex < cursor.logIndex
    else Before(cursor.signatureId, entry.signatureId)
  }

  datatype ClaimKey = ClaimKey(claimedAt: int, signatureId: Text)

  predicate ComesAfterClaim(entry: ClaimKey, cursor: ClaimKey) {
    entry.claimedAt < cursor.claimedAt || (entry.claimedAt == cursor.claimedAt && Before(cursor.signatureId, entry.signatureId))
  }

  /** Exactly one of two different keys comes after the other, none after itself, and coming after is transitive. */
  ghost predicate StrictTotalOrder<K(!new)>(after: (K, K) -> bool) {
    && (forall a, b :: !(after(a, b) && after(b, a)))
    && (forall a, b :: a != b ==> after(a, b) || after(b, a))
    && (forall a, b, c :: after(a, b) && after(b, c) ==> after(a, c))
  }

  lemma {:induction false} MintOrderIsStrictTotal()
    ensures StrictTotalOrder(ComesAfterMint)
  {
    forall a, b
      ensures !(ComesAfterMint(a, b) && ComesAfterMint(b, a))
      ensures a != b ==> ComesAfterMint(a, b) || ComesAfterMint(b, a)
    {
      IdOrder(a.signatureId, b.signatureId);
    }
    forall a, b, c | ComesAfterMint(a, b) && ComesAfterMint(b, c)
      ensures ComesAfterMint(a, c)
    {
      if Before(c.signatureId, b.signatureId) && Before(b.signatureId, a.signatureId) {
        BeforeTransitive(c.signatureId, b.signatureId, a.signatureId);
      }
    }
    hide Before;
  }

  lemma {:induction false} ClaimOrderIsStrictTotal()
    ensures StrictTotalOrder(ComesAfterClaim)
  {
    forall a, b
      ensures !(ComesAfterClaim(a, b) && ComesAfterClaim(b, a))
      ensures a != b ==> ComesAfterClaim(a, b) || ComesAfterClaim(b, a)
    {
      IdOrder(a.signatureId, b.signatureId);
    }
    forall a, b, c | ComesAfterClaim(a, b) && ComesAfterClaim(b, c)
      ensures ComesAfterClaim(a, c)
    {
      if Before(c.signatureId, b.signatureId) && Before(b.signatureId, a.signatureId) {
        BeforeTransitive(c.signatureId, b.signatureId, a.signatureId);
      }
    }
    hide Before;
  }

  /** A list in the order of its keys. */
  ghost predicate SortedBy<T, K>(xs: seq<T>, after: (K, K) -> bool, key: T -> K) {
    forall i, j :: 0 <= i < j < |xs| ==> after(key(xs[j]), key(xs[i]))
  }

  /** A list sorted by a strict total order pages well. */
  lemma SortedIsOrdered<T, K(!new)>(xs: seq<T>, after: (K, K) -> bool, key: T -> K, comesAfter: (T, K) -> bool)
    requires StrictTotalOrder(after) && SortedBy(xs, after, key)
    requires forall x, c :: comesAfter(x, c) == after(key(x), c)
    ensures Ordered(xs, comesAfter, key)
  {}

  // ----- claimed signatures -----

  datatype Claim = Claim(claimedAt: int, signatureId: Text, handle: string)

  function ClaimKeyOf(claim: Claim): ClaimKey {
    ClaimKey(claim.claimedAt, claim.signatureId)
  }

  predicate ClaimAfter(claim: Claim, cursor: ClaimKey) {
    ComesAfterClaim(ClaimKeyOf(claim), cursor)
  }

  /** The store's rows, newest first and then by signature id. */
  ghost predicate ClaimStore(store: seq<Claim>) {
    SortedBy(store, ComesAfterClaim, ClaimKeyOf)
  }

  lemma ClaimStoreIsOrdered(store: seq<Claim>)
    requires ClaimStore(store)
    ensures Ordered(store, ClaimAfter, ClaimKeyOf)
  {
    ClaimOrderIsStrictTotal();
    hide ComesAfterClaim, StrictTotalOrder, SortedBy, Ordered;
    SortedIsOrdered(store, ComesAfterClaim, ClaimKeyOf, ClaimAfter);
  }

  function Unsuppressed(suppressed: set<Text>): Claim -> bool {
    (claim: Claim) => claim.signatureId !in suppressed
  }

  function ListClaimed(store: seq<Claim>, limit: nat, after: Option<ClaimKey>): seq<Claim> {
    var rest := Eligible(store, ClaimAfter, after);
    if |rest| <= limit then rest else rest[..limit]
  }

  function ClaimedPage(store: seq<Claim>, suppressed: set<Text>, after: Option<ClaimKey>): Page<Claim, ClaimKey> {
    PageAfter(store, ClaimAfter, ClaimKeyOf, Unsuppressed(suppressed), PAGE_SIZE, after)
  }

  /** The inner loop: one batch's unsuppressed claims are collected, until the page and its lookahead are full. */
  method Collect(batch: seq<Claim>, suppressed: set<Text>, before: seq<Claim>) returns (signatures: seq<Claim>, ghost used: nat)
    requires |before| <= PAGE_SIZE
    ensures used <= |batch| && signatures == before + Keep(batch[..used], Unsuppressed(suppressed))
    ensures |signatures| <= PAGE_SIZE + 1
    ensures |signatures| <= PAGE_SIZE ==> used == |batch|
  {
    ghost var shown := Unsuppressed(suppressed);
    signatures := before;
    var i := 0;
    KeepEmpty(shown);
    assert batch[..0] == [];
    while i < |batch|
      invariant 0 <= i <= |batch| && signatures == before + Keep(batch[..i], shown) && |signatures| <= PAGE_SIZE
    {
      KeepOne(batch, i, shown);
      Regroup(before, Keep(batch[..i], shown), if shown(batch[i]) then [batch[i]] else []);
      hide Keep;
      if batch[i].signatureId !in suppressed {
        signatures := signatures + [batch[i]];
      }
      i := i + 1;
      if |signatures| > PAGE_SIZE {
        used := i;
        return;
      }
    }
    used := i;
  }

  /** The signatures are the unsuppressed ones among the first taken eligible claims. */
  ghost predicate Collected(rest: seq<Claim>, taken: nat, signatures: seq<Claim>, shown: Claim -> bool) {
    taken <= |rest| && signatures == Keep(rest[..taken], shown)
  }

  /** The cursor stands behind the first taken eligible claims. */
  ghost predicate StandsAt(store: seq<Claim>, rest: seq<Claim>, taken: nat, after: Option<ClaimKey>) {
    && taken <= |rest| && Eligible(store, ClaimAfter, after) == rest[taken..]
    && |rest| <= |store| && rest == store[|store| - |rest|..]
  }

  /** Batches are fetched until a page and one more are found, or the store is exhausted; suppressed claims never count. */
  method ClaimedGalleryCardViews(store: seq<Claim>, suppressed: set<Text>, cursor: Option<ClaimKey>) returns (page: Page<Claim, ClaimKey>)
    requires ClaimStore(store)
    ensures page == ClaimedPage(store, suppressed, cursor)
  {
    hide Keep, Eligible, ClaimStore, Collected, StandsAt, ListClaimed;
    ghost var rest := Eligible(store, ClaimAfter, cursor);
    ghost var shown := Unsuppressed(suppressed);
    var signatures: seq<Claim> := [];
    var after := cursor;
    ghost var taken: nat := 0;
    NothingTaken(store, cursor, shown);
    while |signatures| <= PAGE_SIZE
      invariant taken <= |rest| && |signatures| <= PAGE_SIZE + 1
      invariant Collected(rest, taken, signatures, shown)
      invariant |signatures| <= PAGE_SIZE ==> StandsAt(store, rest, taken, after)
      decreases |rest| - taken, PAGE_SIZE + 1 - |signatures|
    {
      var batch := ListClaimed(store, PAGE_SIZE + 1, after);
      ghost var used;
      ghost var before := signatures;
      signatures, used := Collect(batch, suppressed, signatures);
      BatchTaken(store, rest, taken, after, before, batch, used, shown);
      taken := taken + used;
      if |batch| < PAGE_SIZE + 1 || |signatures| > PAGE_SIZE {
        break;
      }
      after := Some(ClaimKeyOf(batch[|batch| - 1]));
    }
    PageCollected(rest, taken, signatures, shown);
    var entries := if |signatures| <= PAGE_SIZE then signatures else signatures[..PAGE_SIZE];
    page := Page(entries, if |signatures| > PAGE_SIZE then Some(ClaimKeyOf(entries[|entries| - 1])) else None);
  }

  lemma NothingTaken(store: seq<Claim>, cursor: Option<ClaimKey>, shown: Claim -> bool)
    requires ClaimStore(store)
    ensures var rest := Eligible(store, ClaimAfter, cursor);
            Collected(rest, 0, [], shown) && StandsAt(store, rest, 0, cursor)
  {
    ClaimStoreIsOrdered(store);
    var n := EligibleTail(store, ClaimAfter, ClaimKeyOf, cursor);
    KeepEmpty(shown);
    hide Keep, Eligible, Ordered, ClaimStore;
    var rest := Eligible(store, ClaimAfter, cursor);
    assert rest[..0] == [] && rest[0..] == rest && n == |store| - |rest|;
  }

  lemma KeepEmpty(shown: Claim -> bool)
    ensures Keep([], shown) == []
  {}

  /** A batch is the next stretch of what is eligible; its last row's cursor stands behind it. */
  lemma BatchTaken(store: seq<Claim>, rest: seq<Claim>, taken: nat, after: Option<ClaimKey>, before: seq<Claim>, batch: seq<Claim>, used: nat, shown: Claim -> bool)
    requires ClaimStore(store) && StandsAt(store, rest, taken, after) && Collected(rest, taken, before, shown)
    requires batch == ListClaimed(store, PAGE_SIZE + 1, after) && used <= |batch|
    ensures Collected(rest, taken + used, before + Keep(batch[..used], shown), shown)
    ensures |batch| <= |rest| - taken
    ensures |batch| < PAGE_SIZE + 1 ==> taken + |batch| == |rest|
    ensures |batch| > 0 && used == |batch| ==> StandsAt(store, rest, taken + used, Some(ClaimKeyOf(batch[|batch| - 1])))
  {
    hide Keep, Eligible, Ordered, ClaimStore;
    assert batch == rest[taken..][..|batch|];
    assert rest[..taken + used] == rest[..taken] + batch[..used];
    KeepAppends(rest[..taken], batch[..used], shown);
    if |batch| > 0 {
      var n := |store| - |rest|;
      assert batch[|batch| - 1] == store[n + taken + |batch| - 1];
      ClaimStoreIsOrdered(store);
      EligibleAfter(store, ClaimAfter, ClaimKeyOf, n + taken + |batch| - 1);
      assert store[n + taken + |batch|..] == rest[taken + |batch|..];
    }
  }

  /** What was collected decides the page. */
  lemma PageCollected(rest: seq<Claim>, taken: nat, signatures: seq<Claim>, shown: Claim -> bool)
    requires Collected(rest, taken, signatures, shown) && (|signatures| <= PAGE_SIZE ==> taken == |rest|)
    ensures |Keep(rest, shown)| > PAGE_SIZE <==> |signatures| > PAGE_SIZE
    ensures |signatures| > PAGE_SIZE ==> Keep(rest, shown)[..PAGE_SIZE] == signatures[..PAGE_SIZE]
    ensures |signatures| <= PAGE_SIZE ==> Keep(rest, shown) == signatures
  {
    KeepSplits(rest, taken, shown);
    hide Keep;
    assert taken == |rest| ==> rest[..taken] == rest;
  }

  /** Following the cursors from the start shows every unsuppressed claim exactly once, in store order. */
  lemma {:induction false} ClaimedWalk(store: seq<Claim>, suppressed: set<Text>)
    requires ClaimStore(store)
    ensures Ordered(store, ClaimAfter, ClaimKeyOf)
    ensures Walk(store, ClaimAfter, ClaimKeyOf, Unsuppressed(suppressed), PAGE_SIZE, None) == Keep(store, Unsuppressed(suppressed))
    ensures forall claim :: claim in Keep(store, Unsuppressed(suppressed)) <==> claim in store && claim.signatureId !in suppressed
  {
    ClaimStoreIsOrdered(store);
    WalkShowsAll(store, ClaimAfter, ClaimKeyOf, Unsuppressed(suppressed), PAGE_SIZE, None);
    forall claim
      ensures claim in Keep(store, Unsuppressed(suppressed)) <==> claim in store && claim.signatureId !in suppressed
    {
      KeepMembers(store, Unsuppressed(suppressed), claim);
    }
    hide Keep, Ordered, ClaimStore, Walk;
  }

  // ----- minted cards -----

  datatype MintedCard = MintedCard(place: MintKey, holder: string)

  function MintKeyOf(card: MintedCard): MintKey {
    card.place
  }

  predicate MintAfter(card: MintedCard, cursor: MintKey) {
    ComesAfterMint(card.place, cursor)
  }

  function Visible(suppressed: set<Text>): MintedCard -> bool {
    (card: MintedCard) => card.place.signatureId !in suppressed
  }

  ghost predicate MintStore(gallery: seq<MintedCard>) {
    SortedBy(gallery, ComesAfterMint, MintKeyOf)
  }

  lemma MintStoreIsOrdered(gallery: seq<MintedCard>)
    requires MintStore(gallery)
    ensures Ordered(gallery, MintAfter, MintKeyOf)
  {
    MintOrderIsStrictTotal();
    hide ComesAfterMint, StrictTotalOrder, SortedBy, Ordered;
    SortedIsOrdered(gallery, ComesAfterMint, MintKeyOf, MintAfter);
  }

  /** A page of this gallery is the next size cards; suppressed ones among them are left out without being replaced. */
  function SlotPage(gallery: seq<MintedCard>, suppressed: set<Text>, size: nat, after: Option<MintKey>): Page<MintedCard, MintKey>
    requires size > 0
  {
    var eligible := Eligible(gallery, MintAfter, after);
    if |eligible| > size then Page(Keep(eligible[..size], Visible(suppressed)), Some(MintKeyOf(eligible[size - 1])))
    else Page(Keep(eligible, Visible(suppressed)), None)
  }

  function Slots(gallery: seq<MintedCard>, after: Option<MintKey>): seq<MintedCard> {
    var eligible := Eligible(gallery, MintAfter, after);
    if |eligible| > PAGE_SIZE then eligible[..PAGE_SIZE] else eligible
  }

  datatype GalleryError = MissingSignature

  /** The cards of one page; a card without its stored signature is an error even when it is suppressed. */
  method GalleryCardViews(gallery: seq<MintedCard>, stored: set<Text>, suppressed: set<Text>, after: Option<MintKey>)
    returns (r: Result<Page<MintedCard, MintKey>, GalleryError>)
    ensures r == if exists card :: card in Slots(gallery, after) && card.place.signatureId !in stored
                 then Err(MissingSignature) else Ok(SlotPage(gallery, suppressed, PAGE_SIZE, after))
  {
    var eligible := Eligible(gallery, MintAfter, after);
    var slots := Slots(gallery, after);
    var views: seq<MintedCard> := [];
    ghost var shown := Visible(suppressed);
    assert slots[..0] == [];
    for i := 0 to |slots|
      invariant views == Keep(slots[..i], shown)
      invariant forall j :: 0 <= j < i ==> slots[j].place.signatureId in stored
    {
      if slots[i].place.signatureId !in stored {
        assert slots[i] in slots;
        return Err(MissingSignature);
      }
      KeepOne(slots, i, shown);
      if slots[i].place.signatureId !in suppressed {
        views := views + [slots[i]];
      }
    }
    assert slots[..|slots|] == slots;
    return Ok(Page(views, if |eligible| > PAGE_SIZE then Some(MintKeyOf(slots[|slots| - 1])) else None));
  }

  ghost function SlotWalk(gallery: seq<MintedCard>, suppressed: set<Text>, size: nat, after: Option<MintKey>): seq<MintedCard>
    requires size > 0 && MintStore(gallery)
    decreases |Eligible(gallery, MintAfter, after)|
  {
    var page := SlotPage(gallery, suppressed, size, after);
    if page.next.None? then page.entries
    else
      SlotsShrink(gallery, suppressed, size, after);
      page.entries + SlotWalk(gallery, suppressed, size, page.next)
  }

  lemma SlotsShrink(gallery: seq<MintedCard>, suppressed: set<Text>, size: nat, after: Option<MintKey>)
    requires size > 0 && MintStore(gallery) && SlotPage(gallery, suppressed, size, after).next.Some?
    ensures Eligible(gallery, MintAfter, SlotPage(gallery, suppressed, size, after).next) == Eligible(gallery, MintAfter, after)[size..]
  {
    MintStoreIsOrdered(gallery);
    hide Ordered, Eligible, MintStore, Keep;
    var n := EligibleTail(gallery, MintAfter, MintKeyOf, after);
    EligibleAfter(gallery, MintAfter, MintKeyOf, n + size - 1);
    assert gallery[n..][size - 1] == gallery[n + size - 1] && gallery[n..][size..] == gallery[n + size..];
  }

  /** Following the cursors visits every card once and shows exactly the unsuppressed ones, in gallery order. */
  lemma {:induction false} SlotWalkShowsAll(gallery: seq<MintedCard>, suppressed: set<Text>, size: nat, after: Option<MintKey>)
    requires size > 0 && MintStore(gallery)
    ensures SlotWalk(gallery, suppressed, size, after) == Keep(Eligible(gallery, MintAfter, after), Visible(suppressed))
    decreases |Eligible(gallery, MintAfter, after)|
  {
    hide Keep, Eligible, MintStore;
    var page := SlotPage(gallery, suppressed, size, after);
    if page.next.Some? {
      SlotsShrink(gallery, suppressed, size, after);
      SlotWalkShowsAll(gallery, suppressed, size, page.next);
      KeepSplits(Eligible(gallery, MintAfter, after), size, Visible(suppressed));
    }
  }
}
