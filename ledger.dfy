/** Values exchanged with the remote ledger and the opaque decoders of its account layouts.
    Everything here is immutable data; the objects that are updated in place live in module Accounts. */
module Ledger {

  datatype Option<T> = None | Some(value: T)

  /** A remote address. Two keys are the same account exactly when their bytes are equal. */
  type PublicKey = seq<bv8>

  /** The all-zero address that marks an empty open-orders slot. */
  const ZeroKey: PublicKey := [0, 0, 0, 0, 0, 0, 0, 0, 0, 0, 0, 0, 0, 0, 0, 0, 0, 0, 0, 0, 0, 0, 0, 0, 0, 0, 0, 0, 0, 0, 0, 0]

  /** The raw account as the RPC returns it. */
  datatype AccountInfo = AccountInfo(owner: PublicKey, data: seq<bv8>)

  /** One entry of a batched fetch: the address it is for and the account, absent when the
      ledger has no account there. */
  datatype KeyedAccountInfo = KeyedAccountInfo(publicKey: PublicKey, accountInfo: Option<AccountInfo>)

  /** A resting order as the book side yields it. */
  datatype Order = Order(owner: PublicKey, price: real, size: real)

  /** A perp market: its own address and the addresses of its two book sides. */
  datatype PerpMarket = PerpMarket(publicKey: PublicKey, bids: PublicKey, asks: PublicKey)

  datatype PerpMarketConfig = PerpMarketConfig(name: string, publicKey: PublicKey, marketIndex: nat)

  /** The group: where its price cache lives and which program owns the open-orders accounts. */
  datatype MangoGroup = MangoGroup(publicKey: PublicKey, mangoCache: PublicKey, dexProgramId: PublicKey)

  /** The decoded price cache; this model never looks inside it. */
  datatype CacheLayout = CacheLayout(contents: seq<int>)

  datatype MangoCache = MangoCache(publicKey: PublicKey, layout: CacheLayout)

  /** The part of a decoded margin account that the monitor uses: one open-orders address per
      spot slot (ZeroKey when the slot is empty) and whether the slot is in the margin basket. */
  datatype AccountLayout = AccountLayout(spotOpenOrders: seq<PublicKey>, inMarginBasket: seq<bool>)

  /** A decoded open-orders account; this model never looks inside it. */
  datatype OpenOrders = OpenOrders(address: PublicKey, contents: seq<int>)

  /** One side of a perp order book, orders in the order the book yields them (best price first). */
  datatype BookSide = BookSide(publicKey: PublicKey, market: PerpMarket, orders: seq<Order>)

  /** The library decoders. Each is deterministic and may throw, modelled as None. */
  datatype Decoders = Decoders(
    cache: seq<bv8> -> Option<CacheLayout>,
    account: seq<bv8> -> Option<AccountLayout>,
    openOrders: (PublicKey, Option<AccountInfo>, PublicKey) -> Option<OpenOrders>,
    bookSide: seq<bv8> -> Option<seq<Order>>)

  /** The batched RPC: given the ordered address list it answers with entries, or throws (None). */
  type Fetch = seq<PublicKey> -> Option<seq<KeyedAccountInfo>>

  /** Decoding blob 0: reading `.accountInfo.data` of an absent account throws, and so may the layout. */
  function DecodeCache(e: KeyedAccountInfo, dec: Decoders): (r: Option<MangoCache>)
    ensures r.Some? <==> e.accountInfo.Some? && dec.cache(e.accountInfo.value.data).Some?
    ensures r.Some? ==> r.value.publicKey == e.publicKey && r.value.layout == dec.cache(e.accountInfo.value.data).value
  {
    match e.accountInfo
    case None => None
    case Some(ai) =>
      match dec.cache(ai.data)
      case None => None
      case Some(layout) => Some(MangoCache(e.publicKey, layout))
  }

  function DecodeAccount(e: KeyedAccountInfo, dec: Decoders): (r: Option<AccountLayout>)
    ensures r.Some? <==> e.accountInfo.Some? && dec.account(e.accountInfo.value.data).Some?
    ensures e.accountInfo.Some? ==> r == dec.account(e.accountInfo.value.data)
  {
    if e.accountInfo.None? then None else dec.account(e.accountInfo.value.data)
  }

  /** Decoding a book-side blob into a fresh BookSide of the given market. */
  function DecodeBookSide(e: KeyedAccountInfo, market: PerpMarket, dec: Decoders): (r: Option<BookSide>)
    ensures r.Some? <==> e.accountInfo.Some? && dec.bookSide(e.accountInfo.value.data).Some?
    ensures r.Some? ==> r.value.publicKey == e.publicKey && r.value.market == market
    ensures r.Some? ==> r.value.orders == dec.bookSide(e.accountInfo.value.data).value
  {
    match e.accountInfo
    case None => None
    case Some(ai) =>
      match dec.bookSide(ai.data)
      case None => None
      case Some(orders) => Some(BookSide(e.publicKey, market, orders))
  }
}
