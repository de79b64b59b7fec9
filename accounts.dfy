/** The two kinds of object the monitor updates in place: the margin account (its open-orders
    slots are filled in after decoding) and the per-market context (its book sides are replaced
    every iteration). Also the slot search by key identity and the placement of decoded
    open-orders accounts into slots. */
module Accounts {
  import opened Ledger

  /** A decoded margin account. The monitor never reassigns its key, its spot keys, its basket
      flags or its slot array, so those are constants; only the contents of
      `spotOpenOrdersAccounts`, one slot per entry of `spotOpenOrders`, are written in place by
      the loader. */
  class MangoAccount {
    const publicKey: PublicKey
    const spotOpenOrders: seq<PublicKey>
    const inMarginBasket: seq<bool>
    const spotOpenOrdersAccounts: array<Option<OpenOrders>>

    ghost predicate Valid()
    {
      spotOpenOrdersAccounts.Length == |spotOpenOrders|
    }

    /** A freshly decoded account: every open-orders slot is still empty. */
    constructor (publicKey: PublicKey, layout: AccountLayout)
      ensures Valid() && fresh(spotOpenOrdersAccounts)
      ensures this.publicKey == publicKey
      ensures spotOpenOrders == layout.spotOpenOrders && inMarginBasket == layout.inMarginBasket
      ensures spotOpenOrdersAccounts[..] == EmptySlots(|layout.spotOpenOrders|)
    {
      this.publicKey := publicKey;
      spotOpenOrders := layout.spotOpenOrders;
      inMarginBasket := layout.inMarginBasket;
      spotOpenOrdersAccounts := new Option<OpenOrders>[|layout.spotOpenOrders|](_ => None);
    }

    /** The open-orders key of every slot that is in the margin basket, ZeroKey for the others. */
    function OpenOrdersKeysInBasket(): (keys: seq<PublicKey>)
      ensures |keys| == |spotOpenOrders|
      ensures forall i :: 0 <= i < |keys| ==>
                keys[i] == if i < |inMarginBasket| && inMarginBasket[i] then spotOpenOrders[i] else ZeroKey
    {
      seq(|spotOpenOrders|, i requires 0 <= i < |spotOpenOrders| =>
        if i < |inMarginBasket| && inMarginBasket[i] then spotOpenOrders[i] else ZeroKey)
    }
  }

  function EmptySlots(n: nat): (s: seq<Option<OpenOrders>>)
    ensures |s| == n && forall i :: 0 <= i < n ==> s[i].None?
  {
    seq(n, _ => None)
  }

  /** What the monitor alerts on for a market; only the enabled flag is read. */
  datatype AlertParams = AlertParams(isCheck: bool)

  /** One configured market. The loader replaces `bids` and `asks` in place; nothing in the
      monitor writes the other fields after the context is built, so they are constants. */
  class MarketContext {
    const marketName: string
    const params: AlertParams
    const config: PerpMarketConfig
    const market: PerpMarket
    const marketIndex: nat
    var bids: BookSide
    var asks: BookSide

    constructor (config: PerpMarketConfig, params: AlertParams, market: PerpMarket,
                 bids: BookSide, asks: BookSide)
      ensures marketName == config.name && this.params == params && this.config == config
      ensures this.market == market && marketIndex == config.marketIndex
      ensures this.bids == bids && this.asks == asks
    {
      marketName := config.name;
      this.params := params;
      this.config := config;
      this.market := market;
      marketIndex := config.marketIndex;
      this.bids := bids;
      this.asks := asks;
    }
  }

  /** No market context appears twice in the registry. */
  ghost predicate Distinct(ctxs: seq<MarketContext>)
  {
    forall i, j :: 0 <= i < j < |ctxs| ==> ctxs[i] != ctxs[j]
  }

  /** The markets of the registry, in registry order. */
  function Markets(ctxs: seq<MarketContext>): (ms: seq<PerpMarket>)
    ensures |ms| == |ctxs| && forall i :: 0 <= i < |ms| ==> ms[i] == ctxs[i].market
  {
    seq(|ctxs|, i requires 0 <= i < |ctxs| => ctxs[i].market)
  }

  /** The bids of every market of the registry, in registry order. */
  function BidsOf(ctxs: seq<MarketContext>): (sides: seq<BookSide>)
    reads ctxs
    ensures |sides| == |ctxs| && forall i :: 0 <= i < |sides| ==> sides[i] == ctxs[i].bids
  {
    seq(|ctxs|, i reads ctxs requires 0 <= i < |ctxs| => ctxs[i].bids)
  }

  /** The asks of every market of the registry, in registry order. */
  function AsksOf(ctxs: seq<MarketContext>): (sides: seq<BookSide>)
    reads ctxs
    ensures |sides| == |ctxs| && forall i :: 0 <= i < |sides| ==> sides[i] == ctxs[i].asks
  {
    seq(|ctxs|, i reads ctxs requires 0 <= i < |ctxs| => ctxs[i].asks)
  }

  /** Array.prototype.findIndex with key equality: the first slot holding `key`, or -1. */
  function FindIndex(keys: seq<PublicKey>, key: PublicKey): (r: int)
    ensures -1 <= r < |keys|
    ensures r == -1 <==> key !in keys
    ensures 0 <= r ==> keys[r] == key && forall j :: 0 <= j < r ==> keys[j] != key
  {
    if keys == [] then -1
    else if keys[0] == key then 0
    else
      var r := FindIndex(keys[1..], key);
      if r == -1 then -1 else r + 1
  }

  /** A decoded open-orders account together with the address it was fetched from. */
  datatype Placement = Placement(key: PublicKey, orders: OpenOrders)

  /** One write of the loader: into the first slot whose key is the placement's key; when no
      slot matches, no slot changes. */
  function Place(slots: seq<Option<OpenOrders>>, spot: seq<PublicKey>, p: Placement): (r: seq<Option<OpenOrders>>)
    requires |slots| == |spot|
    ensures |r| == |slots|
  {
    var j := FindIndex(spot, p.key);
    if j == -1 then slots else slots[j := Some(p.orders)]
  }

  /** The writes of the whole open-orders loop, in response order. */
  function PlaceAll(slots: seq<Option<OpenOrders>>, spot: seq<PublicKey>, ps: seq<Placement>): (r: seq<Option<OpenOrders>>)
    requires |slots| == |spot|
    ensures |r| == |slots|
  {
    if ps == [] then slots
    else Place(PlaceAll(slots, spot, ps[..|ps| - 1]), spot, ps[|ps| - 1])
  }

  /** The index of the last placement that lands in slot `j`, or -1 if none does. */
  function LastPlacedAt(spot: seq<PublicKey>, ps: seq<Placement>, j: nat): (r: int)
    ensures -1 <= r < |ps|
  {
    if ps == [] then -1
    else if FindIndex(spot, ps[|ps| - 1].key) == j then |ps| - 1
    else LastPlacedAt(spot, ps[..|ps| - 1], j)
  }

  /** LastPlacedAt is -1 exactly when no placement lands in slot `j`; otherwise the placement
      it names lands there and none after it does. */
  lemma {:induction false} LastPlacedAtIsLast(spot: seq<PublicKey>, ps: seq<Placement>, j: nat)
    ensures var r := LastPlacedAt(spot, ps, j);
            && (r == -1 <==> forall i :: 0 <= i < |ps| ==> FindIndex(spot, ps[i].key) != j)
            && (0 <= r ==> FindIndex(spot, ps[r].key) == j &&
                           forall i :: r < i < |ps| ==> FindIndex(spot, ps[i].key) != j)
  {
    if ps != [] {
      var init := ps[..|ps| - 1];
      LastPlacedAtIsLast(spot, init, j);
      assert forall i :: 0 <= i < |init| ==> init[i] == ps[i];
    }
  }

  /** Slot `j` after the loop holds the last open-orders account whose key first matches slot
      `j`; a slot that no placement matches keeps its value. */
  lemma {:induction false} PlaceAllAt(slots: seq<Option<OpenOrders>>, spot: seq<PublicKey>, ps: seq<Placement>, j: nat)
    requires |slots| == |spot| && j < |slots|
    ensures var last := LastPlacedAt(spot, ps, j);
            PlaceAll(slots, spot, ps)[j] == if last == -1 then slots[j] else Some(ps[last].orders)
  {
    if ps != [] {
      PlaceAllAt(slots, spot, ps[..|ps| - 1], j);
    }
  }

  /** No slot without a matching key is written. */
  lemma UnmatchedSlotKept(slots: seq<Option<OpenOrders>>, spot: seq<PublicKey>, ps: seq<Placement>, j: nat)
    requires |slots| == |spot| && j < |slots|
    requires forall i :: 0 <= i < |ps| ==> ps[i].key != spot[j]
    ensures PlaceAll(slots, spot, ps)[j] == slots[j]
  {
    PlaceAllAt(slots, spot, ps, j);
    LastPlacedAtIsLast(spot, ps, j);
  }

  /** When the placements carry pairwise distinct keys, each fetched open-orders account ends
      in the first slot that holds its key, wherever it sits in the response. */
  lemma PlacedAtFirstMatch(slots: seq<Option<OpenOrders>>, spot: seq<PublicKey>, ps: seq<Placement>, i: nat)
    requires |slots| == |spot| && i < |ps|
    requires forall a, b :: 0 <= a < b < |ps| ==> ps[a].key != ps[b].key
    requires ps[i].key in spot
    ensures PlaceAll(slots, spot, ps)[FindIndex(spot, ps[i].key)] == Some(ps[i].orders)
  {
    var j := FindIndex(spot, ps[i].key);
    PlaceAllAt(slots, spot, ps, j);
    LastPlacedAtIsLast(spot, ps, j);
    var last := LastPlacedAt(spot, ps, j);
    assert last != -1 by { assert FindIndex(spot, ps[i].key) == j; }
    assert ps[last].key == spot[j] == ps[i].key;
  }
}
