/** loadAccountAndMarketState: one batched fetch, then the answer is decoded group by group.
    The cache and the account are taken by position, the open-orders accounts are put into the
    new account's slots by key, and the book sides are written into the market contexts in place.
    A decoder that throws ends the load at that entry; what was already written stays written. */
module Load {
  import opened Ledger
  import opened Batch
  import opened Accounts

  /** The open-orders keys the request asks for: the old account's basket keys, minus ZeroKey. */
  function InBasket(account: MangoAccount): seq<PublicKey>
  {
    NonZero(account.OpenOrdersKeysInBasket())
  }

  /** The keys fetched for the open orders are exactly the non-zero keys of the slots in the
      margin basket, taken in slot order. */
  lemma InBasketSlots(account: MangoAccount)
    ensures forall x :: x in InBasket(account) <==>
              x != ZeroKey &&
              exists i :: 0 <= i < |account.spotOpenOrders| && i < |account.inMarginBasket| &&
                          account.inMarginBasket[i] && account.spotOpenOrders[i] == x
    ensures var ps := KeptPositions(account.OpenOrdersKeysInBasket());
            && |ps| == |InBasket(account)|
            && (forall p :: 0 <= p < |ps| ==>
                  && ps[p] < |account.spotOpenOrders| && ps[p] < |account.inMarginBasket|
                  && account.inMarginBasket[ps[p]]
                  && InBasket(account)[p] == account.spotOpenOrders[ps[p]])
            && (forall p, q :: 0 <= p < q < |ps| ==> ps[p] < ps[q])
  {
    var keys := account.OpenOrdersKeysInBasket();
    KeptPositionsSelect(keys);
    KeptPositionsIncreasing(keys);
    forall x | x != ZeroKey && exists i :: 0 <= i < |account.spotOpenOrders| && i < |account.inMarginBasket| &&
                                            account.inMarginBasket[i] && account.spotOpenOrders[i] == x
      ensures x in InBasket(account)
    {
      var i :| 0 <= i < |account.spotOpenOrders| && i < |account.inMarginBasket| &&
               account.inMarginBasket[i] && account.spotOpenOrders[i] == x;
      assert keys[i] == x;
    }
  }

  /** The address list of one load. */
  function RequestFor(group: MangoGroup, account: MangoAccount, ctxs: seq<MarketContext>): seq<PublicKey>
  {
    Request(group.mangoCache, account.publicKey, InBasket(account), Markets(ctxs))
  }

  /** Whether the library decoder for the group that position `s` belongs to accepts entry `e`. */
  predicate EntryDecodes(e: KeyedAccountInfo, s: Slot, markets: seq<PerpMarket>, dex: PublicKey, dec: Decoders)
  {
    match s
    case CacheSlot => DecodeCache(e, dec).Some?
    case AccountSlot => DecodeAccount(e, dec).Some?
    case OpenOrdersSlot(_) => dec.openOrders(e.publicKey, e.accountInfo, dex).Some?
    case BidsSlot(i) => i < |markets| && DecodeBookSide(e, markets[i], dec).Some?
    case AsksSlot(i) => i < |markets| && DecodeBookSide(e, markets[i], dec).Some?
  }

  /** Length of the request: cache, account, k open-orders keys, m bids keys and m asks keys. */
  function Total(k: nat, m: nat): nat { 2 + k + 2 * m }

  /** The entry at position `p` of the answer is accepted by the decoder of its group. */
  predicate DecodesAt(resp: seq<KeyedAccountInfo>, k: nat, markets: seq<PerpMarket>, dex: PublicKey, dec: Decoders, p: nat)
    requires p < Total(k, |markets|) && p < |resp|
  {
    EntryDecodes(resp[p], SlotOf(p, k, |markets|), markets, dex, dec)
  }

  /** Every entry at a position in [from, to) that the answer has is accepted by its decoder. */
  predicate DecodesUpTo(resp: seq<KeyedAccountInfo>, k: nat, markets: seq<PerpMarket>, dex: PublicKey, dec: Decoders,
                        from: nat, to: nat)
    requires to <= Total(k, |markets|)
  {
    forall p :: from <= p < to && p < |resp| ==> DecodesAt(resp, k, markets, dex, dec, p)
  }

  /** The loader throws at position `at`: everything before it decoded, and entry `at` is
      rejected by its decoder, or is one of the two fixed entries and missing from the answer. */
  predicate FailsAt(resp: seq<KeyedAccountInfo>, k: nat, markets: seq<PerpMarket>, dex: PublicKey, dec: Decoders, at: nat)
  {
    && at < Total(k, |markets|)
    && DecodesUpTo(resp, k, markets, dex, dec, 0, at)
    && if at < |resp| then !DecodesAt(resp, k, markets, dex, dec, at)
       else at == |resp| && at <= 1
  }

  /** Where the loader throws on answer `resp`, if it does: the decoders are tried in
      response order and the first rejection (or missing fixed entry) is the answer. */
  function FirstFailure(resp: seq<KeyedAccountInfo>, k: nat, markets: seq<PerpMarket>, dex: PublicKey, dec: Decoders)
    : (f: Option<nat>)
    ensures f.None? ==> |resp| >= 2 && DecodesUpTo(resp, k, markets, dex, dec, 0, Total(k, |markets|))
    ensures f.Some? ==> FailsAt(resp, k, markets, dex, dec, f.value)
  {
    FirstFailureFrom(resp, k, markets, dex, dec, 0)
  }

  function FirstFailureFrom(resp: seq<KeyedAccountInfo>, k: nat, markets: seq<PerpMarket>, dex: PublicKey, dec: Decoders,
                            p: nat): (f: Option<nat>)
    requires p <= Total(k, |markets|) && Min(p, 2) <= |resp|
    requires DecodesUpTo(resp, k, markets, dex, dec, 0, p)
    ensures f.None? ==> |resp| >= 2 && DecodesUpTo(resp, k, markets, dex, dec, 0, Total(k, |markets|))
    ensures f.Some? ==> FailsAt(resp, k, markets, dex, dec, f.value)
    decreases Total(k, |markets|) - p
  {
    if p == Total(k, |markets|) then None
    else if |resp| <= p then (if p < 2 then Some(p) else None)
    else if !DecodesAt(resp, k, markets, dex, dec, p) then Some(p)
    else FirstFailureFrom(resp, k, markets, dex, dec, p + 1)
  }

  /** Only one position can be the first failure. */
  lemma FailsAtUnique(resp: seq<KeyedAccountInfo>, k: nat, markets: seq<PerpMarket>, dex: PublicKey, dec: Decoders,
                      a: nat, b: nat)
    requires FailsAt(resp, k, markets, dex, dec, a) && FailsAt(resp, k, markets, dex, dec, b)
    ensures a == b
  {
  }

  /** FirstFailure finds the failing position, whichever it is. */
  lemma FirstFailureIs(resp: seq<KeyedAccountInfo>, k: nat, markets: seq<PerpMarket>, dex: PublicKey, dec: Decoders, at: nat)
    requires FailsAt(resp, k, markets, dex, dec, at)
    ensures FirstFailure(resp, k, markets, dex, dec) == Some(at)
  {
    var f := FirstFailure(resp, k, markets, dex, dec);
    if f.Some? {
      FailsAtUnique(resp, k, markets, dex, dec, f.value, at);
    }
  }

  /** When every entry decodes, no position is a failure. */
  lemma {:induction false} NoFailureFrom(resp: seq<KeyedAccountInfo>, k: nat, markets: seq<PerpMarket>, dex: PublicKey,
                                         dec: Decoders, p: nat)
    requires p <= Total(k, |markets|) && |resp| >= 2
    requires DecodesUpTo(resp, k, markets, dex, dec, 0, Total(k, |markets|))
    ensures FirstFailureFrom(resp, k, markets, dex, dec, p) == None
    decreases Total(k, |markets|) - p
  {
    if p < Total(k, |markets|) && p < |resp| {
      NoFailureFrom(resp, k, markets, dex, dec, p + 1);
    }
  }

  /** The load completes exactly when both fixed entries are present and every entry it reads
      decodes. */
  lemma LoadCompletesIff(resp: seq<KeyedAccountInfo>, k: nat, markets: seq<PerpMarket>, dex: PublicKey, dec: Decoders)
    ensures FirstFailure(resp, k, markets, dex, dec).None? <==>
            |resp| >= 2 && DecodesUpTo(resp, k, markets, dex, dec, 0, Total(k, |markets|))
  {
    if |resp| >= 2 && DecodesUpTo(resp, k, markets, dex, dec, 0, Total(k, |markets|)) {
      NoFailureFrom(resp, k, markets, dex, dec, 0);
    }
  }

  /** Each open-orders entry decodes. */
  predicate OpenOrdersDecode(infos: seq<KeyedAccountInfo>, dex: PublicKey, dec: Decoders)
  {
    forall i :: 0 <= i < |infos| ==> dec.openOrders(infos[i].publicKey, infos[i].accountInfo, dex).Some?
  }

  /** The decoded open-orders entries, paired with the address each was fetched from. */
  function Decoded(infos: seq<KeyedAccountInfo>, dex: PublicKey, dec: Decoders): (ps: seq<Placement>)
    requires OpenOrdersDecode(infos, dex, dec)
    ensures |ps| == |infos|
    ensures forall i :: 0 <= i < |infos| ==>
              ps[i] == Placement(infos[i].publicKey, dec.openOrders(infos[i].publicKey, infos[i].accountInfo, dex).value)
  {
    seq(|infos|, i requires 0 <= i < |infos| =>
      Placement(infos[i].publicKey, dec.openOrders(infos[i].publicKey, infos[i].accountInfo, dex).value))
  }

  /** The open-orders loop: each entry is decoded and stored at the first slot of the new
      account whose key is the entry's key; no slot is written when none matches. On a throw
      the slots keep the entries placed before it; the load then discards the new account. */
  method WriteOpenOrders(account: MangoAccount, infos: seq<KeyedAccountInfo>, dex: PublicKey, dec: Decoders)
    returns (failedAt: Option<nat>)
    requires account.Valid()
    modifies account.spotOpenOrdersAccounts
    ensures failedAt.None? ==>
              && OpenOrdersDecode(infos, dex, dec)
              && account.spotOpenOrdersAccounts[..]
                 == PlaceAll(old(account.spotOpenOrdersAccounts[..]), account.spotOpenOrders, Decoded(infos, dex, dec))
    ensures failedAt.Some? ==>
              && failedAt.value < |infos|
              && OpenOrdersDecode(infos[..failedAt.value], dex, dec)
              && dec.openOrders(infos[failedAt.value].publicKey, infos[failedAt.value].accountInfo, dex).None?
              && account.spotOpenOrdersAccounts[..]
                 == PlaceAll(old(account.spotOpenOrdersAccounts[..]), account.spotOpenOrders,
                             Decoded(infos[..failedAt.value], dex, dec))
  {
    var slots := account.spotOpenOrdersAccounts;
    var i := 0;
    while i < |infos|
      invariant 0 <= i <= |infos|
      invariant OpenOrdersDecode(infos[..i], dex, dec)
      invariant slots[..] == PlaceAll(old(slots[..]), account.spotOpenOrders, Decoded(infos[..i], dex, dec))
    {
      var ai := infos[i];
      var marketIndex := FindIndex(account.spotOpenOrders, ai.publicKey);
      var oo := dec.openOrders(ai.publicKey, ai.accountInfo, dex);
      if oo.None? {
        return Some(i);
      }
      if marketIndex != -1 {
        slots[marketIndex] := oo;
      }
      ghost var done := Decoded(infos[..i], dex, dec);
      assert infos[..i + 1] == infos[..i] + [ai];
      assert Decoded(infos[..i + 1], dex, dec) == done + [Placement(ai.publicKey, oo.value)];
      i := i + 1;
    }
    assert infos[..i] == infos;
    return None;
  }

  /** Every book-side entry of market i at position base+i before `stop` decodes. */
  predicate SideDecodes(resp: seq<KeyedAccountInfo>, base: nat, markets: seq<PerpMarket>, dec: Decoders, stop: nat)
  {
    forall i :: 0 <= i < |markets| && base + i < stop ==>
      base + i < |resp| && DecodeBookSide(resp[base + i], markets[i], dec).Some?
  }

  /** The book-side entry at position `stop` of the slice starting at `base` throws. */
  predicate SideThrowsAt(resp: seq<KeyedAccountInfo>, base: nat, markets: seq<PerpMarket>, dec: Decoders, stop: nat)
  {
    base <= stop < base + |markets| && stop < |resp| && DecodeBookSide(resp[stop], markets[stop - base], dec).None?
  }

  /** One side of every market after a loop over the slice that starts at `base` got to
      position `n`: market i's side is the decode of entry base+i when that position is
      before `n`, and is `before[i]` from `n` on. */
  predicate SidesFrom(sides: seq<BookSide>, before: seq<BookSide>, resp: seq<KeyedAccountInfo>, base: nat,
                      markets: seq<PerpMarket>, dec: Decoders, n: nat)
  {
    && |sides| == |before| == |markets|
    && forall i :: 0 <= i < |sides| ==>
         && (base + i < n ==> base + i < |resp| && Some(sides[i]) == DecodeBookSide(resp[base + i], markets[i], dec))
         && (n <= base + i ==> sides[i] == before[i])
  }

  /** A loop that got no further than the start of its slice changed nothing. */
  lemma SidesFromNothing(sides: seq<BookSide>, resp: seq<KeyedAccountInfo>, base: nat, markets: seq<PerpMarket>,
                         dec: Decoders, n: nat)
    requires |sides| == |markets| && n <= base
    ensures SidesFrom(sides, sides, resp, base, markets, dec, n)
  {
  }

  /** Only where the reach falls inside the slice matters. */
  lemma SidesFromSame(sides: seq<BookSide>, before: seq<BookSide>, resp: seq<KeyedAccountInfo>, base: nat,
                      markets: seq<PerpMarket>, dec: Decoders, a: nat, b: nat)
    requires SidesFrom(sides, before, resp, base, markets, dec, a)
    requires Min(a, base + |markets|) == Min(b, base + |markets|)
    ensures SidesFrom(sides, before, resp, base, markets, dec, b)
  {
  }

  /** Both sides of every market after the load got to position `n` of the answer: bids
      from position 2+k on, asks from 2+k+m on. */
  predicate BookAt(bids: seq<BookSide>, asks: seq<BookSide>, bids0: seq<BookSide>, asks0: seq<BookSide>,
                   resp: seq<KeyedAccountInfo>, k: nat, markets: seq<PerpMarket>, dec: Decoders, n: nat)
  {
    && SidesFrom(bids, bids0, resp, 2 + k, markets, dec, n)
    && SidesFrom(asks, asks0, resp, 2 + k + |markets|, markets, dec, n)
  }

  /** Proof aid, not a property of the monitor: equal arguments give the same BookAt. Calling
      it with a postcondition's own terms makes that goal literally the lemma's conclusion. */
  lemma BookAtSame(bids: seq<BookSide>, asks: seq<BookSide>, bids0: seq<BookSide>, asks0: seq<BookSide>,
                   resp: seq<KeyedAccountInfo>, k: nat, markets: seq<PerpMarket>, dec: Decoders, n: nat,
                   bids0': seq<BookSide>, asks0': seq<BookSide>, resp': seq<KeyedAccountInfo>, k': nat,
                   markets': seq<PerpMarket>, n': nat)
    requires bids0 == bids0' && asks0 == asks0' && resp == resp' && k == k' && markets == markets' && n == n'
    requires BookAt(bids, asks, bids0, asks0, resp, k, markets, dec, n)
    ensures BookAt(bids, asks, bids0', asks0', resp', k', markets', dec, n')
  {
  }

  /** A load that stopped before the book sides changed none of them. */
  lemma BookAtNothing(bids: seq<BookSide>, asks: seq<BookSide>, resp: seq<KeyedAccountInfo>, k: nat,
                      markets: seq<PerpMarket>, dec: Decoders, n: nat)
    requires |bids| == |asks| == |markets| && n <= 2 + k
    ensures BookAt(bids, asks, bids, asks, resp, k, markets, dec, n)
  {
    SidesFromNothing(bids, resp, 2 + k, markets, dec, n);
    SidesFromNothing(asks, resp, 2 + k + |markets|, markets, dec, n);
  }

  /** A loop that wrote the sides of markets 0 .. i-1 from entries base .. base+i-1 and stopped
      at position `stop` (the next entry, or the end of the answer). */
  lemma SidesFromWrites(sides: seq<BookSide>, before: seq<BookSide>, resp: seq<KeyedAccountInfo>, base: nat,
                        markets: seq<PerpMarket>, dec: Decoders, i: nat, stop: nat)
    requires |sides| == |before| == |markets| && i <= |markets|
    requires forall t :: 0 <= t < i ==> base + t < |resp| && Some(sides[t]) == DecodeBookSide(resp[base + t], markets[t], dec)
    requires forall t :: i <= t < |markets| ==> sides[t] == before[t]
    requires stop == base + i || (stop == |resp| && Min(base + i, |resp|) == Min(base + |markets|, |resp|))
    ensures SidesFrom(sides, before, resp, base, markets, dec, stop)
  {
  }

  /** After a load that got through an answer as long as the request, every market's bids
      come from entry 2+k+i and its asks from entry 2+k+m+i. */
  lemma BookAtWhole(bids: seq<BookSide>, asks: seq<BookSide>, bids0: seq<BookSide>, asks0: seq<BookSide>,
                    resp: seq<KeyedAccountInfo>, k: nat, markets: seq<PerpMarket>, dec: Decoders, i: nat)
    requires |resp| == Total(k, |markets|) && BookAt(bids, asks, bids0, asks0, resp, k, markets, dec, |resp|)
    requires i < |markets|
    ensures Some(bids[i]) == DecodeBookSide(resp[2 + k + i], markets[i], dec)
    ensures Some(asks[i]) == DecodeBookSide(resp[2 + k + |markets| + i], markets[i], dec)
  {
  }

  /** A load that threw at the asks entry of market j has already replaced the bids of every
      market, and the asks of the markets before j; the asks from j on are as they were. */
  lemma ThrowInAsksIsPartial(bids: seq<BookSide>, asks: seq<BookSide>, bids0: seq<BookSide>, asks0: seq<BookSide>,
                             resp: seq<KeyedAccountInfo>, k: nat, markets: seq<PerpMarket>, dec: Decoders, j: nat)
    requires j < |markets| && 2 + k + |markets| + j < |resp|
    requires BookAt(bids, asks, bids0, asks0, resp, k, markets, dec, 2 + k + |markets| + j)
    ensures forall i :: 0 <= i < |markets| ==> Some(bids[i]) == DecodeBookSide(resp[2 + k + i], markets[i], dec)
    ensures forall i :: 0 <= i < j ==> Some(asks[i]) == DecodeBookSide(resp[2 + k + |markets| + i], markets[i], dec)
    ensures asks[j..] == asks0[j..]
  {
  }

  /** The first `forEach`: the entry at position base+i of the answer (the slice
      `resp.slice(base, base + m)`) becomes a fresh BookSide of market i, written into
      `ctxs[i].bids` in place. A throwing decode stops the loop at that position: the markets
      before it are already updated, the ones from it on are not. `stop` is that position, or
      the answer's length when nothing threw. */
  method WriteBids(ctxs: seq<MarketContext>, resp: seq<KeyedAccountInfo>, base: nat, dec: Decoders,
                    ghost markets: seq<PerpMarket>)
    returns (failed: bool, stop: nat)
    requires Distinct(ctxs) && markets == Markets(ctxs)
    modifies ctxs
    ensures failed ==> SideThrowsAt(resp, base, markets, dec, stop)
    ensures !failed ==> stop == |resp|
    ensures SideDecodes(resp, base, markets, dec, stop)
    ensures SidesFrom(BidsOf(ctxs), old(BidsOf(ctxs)), resp, base, markets, dec, stop)
    ensures AsksOf(ctxs) == old(AsksOf(ctxs))
  {
    var infos := JsSlice(resp, base, base + |ctxs|);
    var i := 0;
    failed := false;
    while i < |infos|
      invariant 0 <= i <= |infos|
      invariant forall t :: 0 <= t < |ctxs| ==> ctxs[t].asks == old(ctxs[t].asks)
      invariant forall t :: 0 <= t < i ==> Some(ctxs[t].bids) == DecodeBookSide(resp[base + t], ctxs[t].market, dec)
      invariant forall t :: i <= t < |ctxs| ==> ctxs[t].bids == old(ctxs[t].bids)
      invariant !failed
    {
      var ctx := ctxs[i];
      var decoded := DecodeBookSide(infos[i], ctx.market, dec);
      if decoded.None? {
        failed := true;
        break;
      }
      ctx.bids := decoded.value;
      i := i + 1;
    }
    stop := if failed then base + i else |resp|;
    SidesFromWrites(BidsOf(ctxs), old(BidsOf(ctxs)), resp, base, markets, dec, i, stop);
  }

  /** The second `forEach`, the same over the asks slice and `ctxs[i].asks`. */
  method WriteAsks(ctxs: seq<MarketContext>, resp: seq<KeyedAccountInfo>, base: nat, dec: Decoders,
                    ghost markets: seq<PerpMarket>)
    returns (failed: bool, stop: nat)
    requires Distinct(ctxs) && markets == Markets(ctxs)
    modifies ctxs
    ensures failed ==> SideThrowsAt(resp, base, markets, dec, stop)
    ensures !failed ==> stop == |resp|
    ensures SideDecodes(resp, base, markets, dec, stop)
    ensures SidesFrom(AsksOf(ctxs), old(AsksOf(ctxs)), resp, base, markets, dec, stop)
    ensures BidsOf(ctxs) == old(BidsOf(ctxs))
  {
    var infos := JsSlice(resp, base, base + |ctxs|);
    var i := 0;
    failed := false;
    while i < |infos|
      invariant 0 <= i <= |infos|
      invariant forall t :: 0 <= t < |ctxs| ==> ctxs[t].bids == old(ctxs[t].bids)
      invariant forall t :: 0 <= t < i ==> Some(ctxs[t].asks) == DecodeBookSide(resp[base + t], ctxs[t].market, dec)
      invariant forall t :: i <= t < |ctxs| ==> ctxs[t].asks == old(ctxs[t].asks)
      invariant !failed
    {
      var ctx := ctxs[i];
      var decoded := DecodeBookSide(infos[i], ctx.market, dec);
      if decoded.None? {
        failed := true;
        break;
      }
      ctx.asks := decoded.value;
      i := i + 1;
    }
    stop := if failed then base + i else |resp|;
    SidesFromWrites(AsksOf(ctxs), old(AsksOf(ctxs)), resp, base, markets, dec, i, stop);
  }

  /** What the two book-side loops learnt, restated over the positions of the whole answer:
      the first position they stopped at is the first failure of the load, and when neither
      stopped, the load has none. */
  lemma BookSidesFailure(resp: seq<KeyedAccountInfo>, k: nat, markets: seq<PerpMarket>, dex: PublicKey, dec: Decoders,
                         bidsStop: nat, asksStop: nat, failedAt: Option<nat>)
    requires |resp| >= 2 && DecodesUpTo(resp, k, markets, dex, dec, 0, 2 + k)
    requires bidsStop <= |resp| && SideDecodes(resp, 2 + k, markets, dec, bidsStop)
    requires bidsStop == |resp| ==> SideDecodes(resp, 2 + k + |markets|, markets, dec, asksStop)
    requires failedAt.Some? ==>
               if bidsStop < |resp| then failedAt.value == bidsStop && SideThrowsAt(resp, 2 + k, markets, dec, bidsStop)
               else failedAt.value == asksStop && SideThrowsAt(resp, 2 + k + |markets|, markets, dec, asksStop)
    requires failedAt.None? ==> bidsStop == |resp| && asksStop == |resp|
    ensures FirstFailure(resp, k, markets, dex, dec) == failedAt
  {
    var m := |markets|;
    var n := if failedAt.None? then Total(k, m) else failedAt.value;
    assert DecodesUpTo(resp, k, markets, dex, dec, 0, Min(n, Total(k, m))) by {
      forall p | 0 <= p < Min(n, Total(k, m)) && p < |resp|
        ensures DecodesAt(resp, k, markets, dex, dec, p)
      {
        if 2 + k <= p < 2 + k + m {
          assert SlotOf(p, k, m) == BidsSlot(p - 2 - k);
          assert 2 + k + (p - 2 - k) < bidsStop;
        } else if 2 + k + m <= p {
          assert SlotOf(p, k, m) == AsksSlot(p - 2 - k - m);
          assert 2 + k + m + (p - 2 - k - m) < asksStop;
        }
      }
    }
    if failedAt.Some? {
      FirstFailureIs(resp, k, markets, dex, dec, failedAt.value);
    }
  }

  /** When the bids loop ran to the end, the asks loop decides the outcome of the whole load. */
  lemma BothSidesRead(resp: seq<KeyedAccountInfo>, k: nat, markets: seq<PerpMarket>, dex: PublicKey, dec: Decoders,
                      bids: seq<BookSide>, bids0: seq<BookSide>, asks: seq<BookSide>, asks0: seq<BookSide>,
                      stop: nat, failedAsks: bool, stopAsks: nat)
    requires |resp| >= 2 && DecodesUpTo(resp, k, markets, dex, dec, 0, 2 + k)
    requires stop == |resp| && SideDecodes(resp, 2 + k, markets, dec, stop)
    requires SidesFrom(bids, bids0, resp, 2 + k, markets, dec, stop)
    requires failedAsks ==> SideThrowsAt(resp, 2 + k + |markets|, markets, dec, stopAsks)
    requires !failedAsks ==> stopAsks == |resp|
    requires SideDecodes(resp, 2 + k + |markets|, markets, dec, stopAsks)
    requires SidesFrom(asks, asks0, resp, 2 + k + |markets|, markets, dec, stopAsks)
    ensures FirstFailure(resp, k, markets, dex, dec) == if failedAsks then Some(stopAsks) else None
    ensures BookAt(bids, asks, bids0, asks0, resp, k, markets, dec, stopAsks)
  {
    BookSidesFailure(resp, k, markets, dex, dec, stop, stopAsks, if failedAsks then Some(stopAsks) else None);
    SidesFromSame(bids, bids0, resp, 2 + k, markets, dec, stop, stopAsks);
  }

  /** Both `forEach` loops over the book sides: bids from position 2+k, then asks from 2+k+m.
      Given that the entries before the book sides decoded, `failedAt` is exactly the first
      failure of the whole load. */
  method LoadBookSides(ctxs: seq<MarketContext>, resp: seq<KeyedAccountInfo>, k: nat, ghost dex: PublicKey,
                       dec: Decoders, ghost markets: seq<PerpMarket>)
    returns (failedAt: Option<nat>)
    requires Distinct(ctxs) && markets == Markets(ctxs)
    requires |resp| >= 2 && DecodesUpTo(resp, k, markets, dex, dec, 0, 2 + k)
    modifies ctxs
    ensures FirstFailure(resp, k, markets, dex, dec) == failedAt
    ensures failedAt.Some? ==> failedAt.value < |resp|
    ensures BookAt(BidsOf(ctxs), AsksOf(ctxs), old(BidsOf(ctxs)), old(AsksOf(ctxs)), resp, k, markets, dec,
                   if failedAt.None? then |resp| else failedAt.value)
  {
    ghost var bids0, asks0 := BidsOf(ctxs), AsksOf(ctxs);
    var failed, stop := WriteBids(ctxs, resp, 2 + k, dec, markets);
    if failed {
      BookSidesFailure(resp, k, markets, dex, dec, stop, 0, Some(stop));
      SidesFromNothing(asks0, resp, 2 + k + |markets|, markets, dec, stop);
      return Some(stop);
    }
    ghost var bids1, asks1 := BidsOf(ctxs), AsksOf(ctxs);
    var failedAsks, stopAsks := WriteAsks(ctxs, resp, 2 + k + |ctxs|, dec, markets);
    ghost var asks2 := AsksOf(ctxs);
    BothSidesRead(resp, k, markets, dex, dec, bids1, bids0, asks2, asks1, stop, failedAsks, stopAsks);
    failedAt := if failedAsks then Some(stopAsks) else None;
  }

  datatype LoadError = FetchFailed | ThrewAt(index: nat)

  datatype LoadResult =
    | Loaded(cache: MangoCache, mangoAccount: MangoAccount, marketContexts: seq<MarketContext>)
    | Failed(error: LoadError)

  /** The error a load throws on answer `resp` (None when the fetch failed), or None when it
      completes. */
  function Outcome(resp: Option<seq<KeyedAccountInfo>>, k: nat, markets: seq<PerpMarket>, dex: PublicKey,
                   dec: Decoders): (e: Option<LoadError>)
    ensures e == Some(FetchFailed) <==> resp.None?
    ensures e.None? <==> resp.Some? && FirstFailure(resp.value, k, markets, dex, dec).None?
  {
    if resp.None? then Some(FetchFailed)
    else
      var f := FirstFailure(resp.value, k, markets, dex, dec);
      if f.None? then None else Some(ThrewAt(f.value))
  }

  /** How far into the answer a load with outcome `e` got: the whole answer when it completed,
      the throwing entry on a decode failure, nothing when the fetch itself failed. */
  function Reach(e: Option<LoadError>, resp: Option<seq<KeyedAccountInfo>>): (n: nat)
    ensures n > 0 ==> resp.Some? && n <= |resp.value|
  {
    if resp.None? then 0
    else match e
      case None => |resp.value|
      case Some(FetchFailed) => 0
      case Some(ThrewAt(at)) => Min(at, |resp.value|)
  }

  /** The first part of the decode: the cache from entry 0, a new MangoAccount from entry 1,
      then its open-orders slots from entries 2 .. 2+k. It writes no object that existed
      before the call. On a throw, `failedAt` is the load's first failure, which lies before
      the book sides. */
  method LoadMangoAccount(resp: seq<KeyedAccountInfo>, k: nat, ghost markets: seq<PerpMarket>, dex: PublicKey,
                          dec: Decoders)
    returns (failedAt: Option<nat>, cache: Option<MangoCache>, account: MangoAccount?)
    ensures failedAt.Some? ==>
              failedAt.value < 2 + k && FirstFailure(resp, k, markets, dex, dec) == failedAt
    ensures failedAt.None? ==>
              && |resp| >= 2 && DecodesUpTo(resp, k, markets, dex, dec, 0, 2 + k)
              && cache.Some? && cache == DecodeCache(resp[0], dec)
              && account != null && fresh(account) && fresh(account.spotOpenOrdersAccounts)
              && account.Valid()
              && account.publicKey == resp[1].publicKey
              && Some(AccountLayout(account.spotOpenOrders, account.inMarginBasket)) == DecodeAccount(resp[1], dec)
              && var oo := JsSlice(resp, 2, 2 + k);
              && OpenOrdersDecode(oo, dex, dec)
              && account.spotOpenOrdersAccounts[..]
                 == PlaceAll(EmptySlots(|account.spotOpenOrders|), account.spotOpenOrders, Decoded(oo, dex, dec))
  {
    if |resp| == 0 {
      FirstFailureIs(resp, k, markets, dex, dec, 0);
      return Some(0), None, null;
    }
    cache := DecodeCache(resp[0], dec);
    if cache.None? {
      FirstFailureIs(resp, k, markets, dex, dec, 0);
      return Some(0), None, null;
    }
    if |resp| == 1 {
      FirstFailureIs(resp, k, markets, dex, dec, 1);
      return Some(1), None, null;
    }
    var layout := DecodeAccount(resp[1], dec);
    if layout.None? {
      FirstFailureIs(resp, k, markets, dex, dec, 1);
      return Some(1), None, null;
    }
    account := new MangoAccount(resp[1].publicKey, layout.value);
    var openOrdersAis := JsSlice(resp, 2, 2 + k);
    var failed := WriteOpenOrders(account, openOrdersAis, dex, dec);
    OpenOrdersPrefix(resp, k, markets, dex, dec, if failed.None? then |openOrdersAis| else failed.value);
    if failed.Some? {
      FirstFailureIs(resp, k, markets, dex, dec, 2 + failed.value);
      return Some(2 + failed.value), None, null;
    }
    failedAt := None;
  }

  method LoadAccountAndMarketState(group: MangoGroup, oldAccount: MangoAccount, ctxs: seq<MarketContext>,
                                   fetch: Fetch, dec: Decoders)
    returns (r: LoadResult)
    requires Distinct(ctxs)
    modifies ctxs
    // the load throws exactly when the fetch fails or at the first entry that does not decode
    ensures var o := Outcome(fetch(RequestFor(group, oldAccount, ctxs)), |InBasket(oldAccount)|,
                             Markets(ctxs), group.dexProgramId, dec);
            && (r.Loaded? <==> o.None?)
            && (o.Some? ==> r == Failed(o.value))
    // the cache and the account come from entries 0 and 1; the account is a new object
    ensures var resp := fetch(RequestFor(group, oldAccount, ctxs));
            r.Loaded? ==>
              && resp.Some? && |resp.value| >= 2
              && r.marketContexts == ctxs
              && Some(r.cache) == DecodeCache(resp.value[0], dec)
              && fresh(r.mangoAccount) && fresh(r.mangoAccount.spotOpenOrdersAccounts)
              && r.mangoAccount.Valid()
              && r.mangoAccount.publicKey == resp.value[1].publicKey
              && Some(AccountLayout(r.mangoAccount.spotOpenOrders, r.mangoAccount.inMarginBasket))
                 == DecodeAccount(resp.value[1], dec)
    // the open-orders entries are placed into the new account's slots by key
    ensures var resp := fetch(RequestFor(group, oldAccount, ctxs));
            var k := |InBasket(oldAccount)|;
            r.Loaded? ==>
              && resp.Some?
              && var oo := JsSlice(resp.value, 2, 2 + k);
              && OpenOrdersDecode(oo, group.dexProgramId, dec)
              && r.mangoAccount.spotOpenOrdersAccounts[..]
                 == PlaceAll(EmptySlots(|r.mangoAccount.spotOpenOrders|), r.mangoAccount.spotOpenOrders,
                             Decoded(oo, group.dexProgramId, dec))
    // market i's bids come from entry 2+k+i and its asks from entry 2+k+m+i, for every entry the
    // load got to; the other book sides are as they were
    ensures var resp := fetch(RequestFor(group, oldAccount, ctxs));
            BookAt(BidsOf(ctxs), AsksOf(ctxs), old(BidsOf(ctxs)), old(AsksOf(ctxs)),
                   if resp.Some? then resp.value else [], |InBasket(oldAccount)|, Markets(ctxs), dec,
                   Reach(Outcome(resp, |InBasket(oldAccount)|, Markets(ctxs), group.dexProgramId, dec), resp))
  {
    ghost var markets := Markets(ctxs);
    ghost var bids0, asks0 := BidsOf(ctxs), AsksOf(ctxs);
    var inBasketOpenOrders := NonZero(oldAccount.OpenOrdersKeysInBasket());
    var k := |inBasketOpenOrders|;
    var allAccounts := Request(group.mangoCache, oldAccount.publicKey, inBasketOpenOrders, Markets(ctxs));
    var fetched := fetch(allAccounts);
    assert k == |InBasket(oldAccount)| && allAccounts == RequestFor(group, oldAccount, ctxs);
    if fetched.None? {
      r := Failed(FetchFailed);
      BookAtNothing(bids0, asks0, [], k, markets, dec, 0);
      return;
    }
    var accountInfos := fetched.value;
    var failedAt, cache, mangoAccount := LoadMangoAccount(accountInfos, k, markets, group.dexProgramId, dec);
    assert BidsOf(ctxs) == bids0 && AsksOf(ctxs) == asks0;
    if failedAt.Some? {
      r := Failed(ThrewAt(failedAt.value));
      BookAtNothing(bids0, asks0, accountInfos, k, markets, dec, failedAt.value);
      return;
    }
    failedAt := LoadBookSides(ctxs, accountInfos, k, group.dexProgramId, dec, markets);
    r := if failedAt.Some? then Failed(ThrewAt(failedAt.value)) else Loaded(cache.value, mangoAccount, ctxs);
    assert Reach(Outcome(fetched, k, markets, group.dexProgramId, dec), fetched)
        == if failedAt.None? then |accountInfos| else failedAt.value;
    ghost var resp := fetch(RequestFor(group, oldAccount, ctxs));
    BookAtSame(BidsOf(ctxs), AsksOf(ctxs), bids0, asks0, accountInfos, k, markets, dec,
               if failedAt.None? then |accountInfos| else failedAt.value,
               old(BidsOf(ctxs)), old(AsksOf(ctxs)), if resp.Some? then resp.value else [], |InBasket(oldAccount)|,
               Markets(ctxs), Reach(Outcome(resp, |InBasket(oldAccount)|, Markets(ctxs), group.dexProgramId, dec), resp));
  }

  /** The open-orders entries the loop decoded are the positions 2.. of the answer. */
  lemma OpenOrdersPrefix(resp: seq<KeyedAccountInfo>, k: nat, markets: seq<PerpMarket>, dex: PublicKey, dec: Decoders, j: nat)
    requires |resp| >= 2 && DecodeCache(resp[0], dec).Some? && DecodeAccount(resp[1], dec).Some?
    requires j <= |JsSlice(resp, 2, 2 + k)|
    requires OpenOrdersDecode(JsSlice(resp, 2, 2 + k)[..j], dex, dec)
    ensures DecodesUpTo(resp, k, markets, dex, dec, 0, 2 + j)
    ensures j == |JsSlice(resp, 2, 2 + k)| ==> DecodesUpTo(resp, k, markets, dex, dec, 0, 2 + k)
  {
    forall p | 0 <= p < 2 + j && p < |resp|
      ensures EntryDecodes(resp[p], SlotOf(p, k, |markets|), markets, dex, dec)
    {
      if p >= 2 {
        assert JsSlice(resp, 2, 2 + k)[..j][p - 2] == resp[p];
      }
    }
  }
}
