# Owner check of a perp market maker, modelled in Dafny

The script `src/check-owner.ts` watches one margin account and a list of perp markets. Each
round it does four things:

- It fetches everything it needs in one batched RPC call, in this order:
  - the price cache;
  - the account;
  - every non-zero open-orders account in the account's margin basket;
  - every market's bids;
  - every market's asks.
- It decodes the answer position by position:
  - it builds a new account object;
  - it puts each decoded open-orders account into the slot whose key matches;
  - it overwrites each market context's `bids` and `asks` in place.
- It scans the first 50 bids of every enabled market and logs each order larger than 1.2.
- If any step throws, it swallows the error and goes on to the next round.

The model has six modules:

- `Ledger`: the values exchanged with the ledger. The decoders are an opaque `Decoders` value that may reject a blob (`None` stands for a throw).
- `Batch`: the request list and the way the answer splits back into groups (slots and positions).
- `Accounts`: the two classes the script updates in place.
  - `MangoAccount` has an `array` of open-orders slots.
  - `MarketContext` has `var bids`/`asks`.
  - The module also has `findIndex` and the specification of slot placement.
- `Load`: `loadAccountAndMarketState`, its loops written as methods over the in-place state.
  - `FirstFailure` is where the load throws.
  - `Reach` is how far into the answer it got.
  - `BookAt` says what every book side is afterwards, including the partial update left behind by a throw.
- `Scan`: `checkOwner` as a counted loop, proved against `Reported`.
- `Driver`: the body of the monitoring `while` loop and the loop itself.

Three facts about the code shape the model:

- The alert threshold is the constant `1.2` for every market (src/check-owner.ts:280). A market's `params` is read only for `isCheck` (src/check-owner.ts:234).
- Only the bids are scanned. The asks scan (src/check-owner.ts:285-295) is commented out.
- The bids are replaced before the asks are decoded (src/check-owner.ts:127-151). A throw in the asks therefore leaves the bids already replaced.

## Model

| member | source | states |
|---|---|---|
| Ledger.DecodeCache | src/check-owner.ts:104-107 | entry 0 yields a cache exactly when its account is present and the cache layout accepts its data; the cache carries the entry's address and the layout's decode of that data |
| Ledger.DecodeAccount | src/check-owner.ts:109-112 | entry 1 yields an account layout exactly when its account is present and the account layout accepts its data; the layout is the account layout's decode of that data |
| Ledger.DecodeBookSide | src/check-owner.ts:133-137 | a book-side entry yields a BookSide exactly when its account is present and the layout accepts it; the BookSide carries the entry's address and the given market, and its orders are the layout's decode of that data |
| Batch.NonZero | src/check-owner.ts:90-92 | the kept keys are exactly the basket keys other than ZeroKey, and never more of them |
| Batch.NonZeroAppend | src/check-owner.ts:90-92 | the filter distributes over concatenation, so it keeps the basket order |
| Batch.NonZeroCount | src/check-owner.ts:90-92 | every non-zero key keeps its multiplicity and ZeroKey is dropped entirely |
| Batch.KeptPositionsSelect | src/check-owner.ts:90-92 | the kept keys are exactly the keys at the kept positions, each of them non-zero |
| Batch.KeptPositionsIncreasing | src/check-owner.ts:90-92 | the kept positions increase, so the filter never reorders the keys |
| Batch.KeptPositionsComplete | src/check-owner.ts:90-92 | every position holding a non-zero key is kept |
| Batch.Request | src/check-owner.ts:94-100 | the request has length 2+k+2m: cache key at 0, account key at 1, open-orders key j at 2+j, market i's bids key at 2+k+i and its asks key at 2+k+m+i |
| Batch.JsSlice | src/check-owner.ts:113 | `slice` clamps both ends to the length and never throws; element i of the slice is element start+i of the answer |
| Batch.SlotOf | src/check-owner.ts:104-151 | every position of the request belongs to a valid slot whose position it is |
| Batch.PositionInjective | src/check-owner.ts:104-151 | no two slots share a position: the groups are disjoint |
| Batch.SlicesPartition | src/check-owner.ts:113-151 | for an answer as long as the request, the three slices are exactly the open-orders, bids and asks groups, and with entries 0 and 1 they rebuild the whole answer |
| Accounts.MangoAccount.constructor | src/check-owner.ts:109-112 | a new account has the decoded keys and basket flags, and one empty open-orders slot per key in a new array |
| Accounts.MarketContext.constructor | src/check-owner.ts:67-75 | a context holds its market, its configuration and its two book sides |
| Accounts.FindIndex | src/check-owner.ts:116-118 | the first slot whose key equals the given key, or -1 exactly when no slot does |
| Accounts.LastPlacedAtIsLast | src/check-owner.ts:114-125 | -1 exactly when no placement lands in the slot; otherwise the named placement lands there and no later one does |
| Accounts.PlaceAllAt | src/check-owner.ts:114-125 | after the loop a slot holds the last open-orders account whose key first matches it, or its old value when none matches |
| Accounts.UnmatchedSlotKept | src/check-owner.ts:116-124 | a slot whose key no fetched address equals is never written |
| Accounts.PlacedAtFirstMatch | src/check-owner.ts:116-124 | with distinct fetched addresses, each decoded open-orders account ends in the first slot holding its key, wherever it sits in the answer |
| Load.InBasketSlots | src/check-owner.ts:90-92 | a key is fetched for the open orders exactly when it is non-zero and some slot in the margin basket holds it; the fetched keys are those slots' keys in slot order |
| Load.FirstFailure | src/check-owner.ts:104-151 | None only when both fixed entries exist and every entry the load reads decodes; otherwise a position where the load throws, with every earlier entry decoded |
| Load.FailsAtUnique | src/check-owner.ts:104-151 | the load can throw at only one position |
| Load.FirstFailureIs | src/check-owner.ts:104-151 | FirstFailure finds the throwing position, whichever it is |
| Load.LoadCompletesIff | src/check-owner.ts:104-151 | the load completes exactly when both fixed entries exist and every entry it reads decodes |
| Load.WriteOpenOrders | src/check-owner.ts:113-125 | with no throw, every open-orders entry decodes and the slots are PlaceAll of the decoded entries; on a throw, the entries before it decoded, the one at it did not, and the slots are PlaceAll of the entries before it |
| Load.WriteBids | src/check-owner.ts:127-138 | market i's bids become the decode of entry base+i for every position before the stop; the others and every asks are unchanged; a stop before the end is a rejected bids entry |
| Load.WriteAsks | src/check-owner.ts:140-151 | the same for the asks slice; every bids is unchanged |
| Load.BookSidesFailure | src/check-owner.ts:127-151 | where the two book-side loops stopped is the first failure of the whole load |
| Load.BookAtWhole | src/check-owner.ts:127-151 | after a complete load of a full-length answer, market i's bids come from entry 2+k+i and its asks from entry 2+k+m+i |
| Load.ThrowInAsksIsPartial | src/check-owner.ts:127-151 | a throw at market j's asks entry leaves every bids and the asks before j already replaced, and the asks from j on as they were |
| Load.LoadBookSides | src/check-owner.ts:127-151 | both loops: the result is the load's first failure, and every book side is as BookAt says for the position reached |
| Load.Outcome | src/check-owner.ts:102-151 | FetchFailed exactly when the fetch failed; no error exactly when FirstFailure finds none |
| Load.Reach | src/check-owner.ts:127-151 | how far into the answer a load got, never past its end |
| Load.LoadMangoAccount | src/check-owner.ts:104-125 | on success: the cache and a new account decoded from entries 0 and 1, with the open-orders slots placed by key; on a throw: the load's first failure, which lies before the book sides |
| Load.LoadAccountAndMarketState | src/check-owner.ts:80-158 | fetches the request list. It throws FetchFailed when the fetch fails, and throws at FirstFailure when a decode fails. Otherwise it returns the cache, a new account whose slots are filled by key, and the same contexts. Every book side is the decode of its entry up to the point the load reached, and is unchanged after it. |
| Load.OpenOrdersPrefix | src/check-owner.ts:113-125 | the open-orders entries the loop decoded are positions 2.. of the answer |
| Scan.Reported | src/check-owner.ts:274-283 | never more than 50 alerts |
| Scan.CheckOwner | src/check-owner.ts:260-298 | always returns the empty message, and logs exactly Reported of the context's bids |
| Scan.LargeOrdersAt | src/check-owner.ts:280-282 | an order yields an alert exactly when its size is above 1.2 |
| Scan.ReportedIff | src/check-owner.ts:274-283 | an alert is reported exactly for an order among the first 50 whose size is strictly above 1.2 |
| Scan.AtThresholdNotReported | src/check-owner.ts:280 | an order of size exactly 1.2 is never reported |
| Scan.ReportedIgnoresTail | src/check-owner.ts:276-279 | orders after the first 50 never change the report |
| Scan.NoLargeOrderNoAlert | src/check-owner.ts:274-283 | a book without a large order, the empty book included, reports nothing |
| Driver.ScanLogIff | src/check-owner.ts:233-246 | a line is logged by the scans exactly when it reports an order of an enabled market that the bounded scan of its bids reports |
| Driver.NothingEnabledNothingLogged | src/check-owner.ts:234 | with no enabled market, the scans log nothing |
| Driver.ScanEnabled | src/check-owner.ts:232-246 | the message stays empty and the log is the scan log of the enabled markets in registry order |
| Driver.Iteration | src/check-owner.ts:222-248 | The round is a Round: its outcome is the load's outcome on this round's answer. On a throw, the account is kept and only the error is logged. On success, a new account replaces it. That account has entry 1's key and decoded layout, and its slots are filled by key from the open-orders entries. The enabled markets are then scanned into the log. The message stays empty. The book sides are as the load left them, including after a throw. |
| Driver.RoundsChained | src/check-owner.ts:222-246 | in a run, a round whose load threw hands the same account on |
| Driver.KeptSince | src/check-owner.ts:220-257 | when every round from some point on threw, the final account is the one handed on just before that point; with no completed round at all, it is the initial account |
| Driver.FullCheckOwner | src/check-owner.ts:220-257 | One round per fetch, with no early stop on errors. Round r loads account r against the r-th answer and hands on account r+1, as Round states. The final account is the last one handed on, and new when some round completed. The console is the rounds' logs in order. |

## Left out

- Reading the params and keypair files, `Config`, the connection, the client and building the market contexts at startup (src/check-owner.ts:38-63, 160-211). These are file I/O and bootstrap. The contexts are given.
- The RPC `getMultipleAccounts`. It is a `Fetch` parameter, a function of the address list that may fail. The loop takes one per round.
- The binary layouts `MangoCacheLayout`, `MangoAccountLayout`, `BookSideLayout` and `OpenOrders.fromAccountInfo`. They are library code, and are opaque functions in `Decoders`.
- `getOpenOrdersKeysInBasket` and the `MangoAccount` constructor. Both are library code; the model takes two assumptions from them:
  - each basket slot gives its key, and every other slot gives ZeroKey;
  - a new account has one empty open-orders slot per `spotOpenOrders` key.
- The `-1` index from `findIndex`. JavaScript then writes a property named "-1", which no slot reads. The model changes no slot in that case.
- Floating point. Sizes and prices are `real`, and `1.2` is exact. Only the strict comparison matters.
- `console.log` formatting. Alerts and errors are records appended to a log.
- How `BookSide` iterates. The bids are a given sequence, best first.
- The SIGINT handler, `control.isRunning`, `sleep`, `process.exit` and the restart in `startCheckOwner` (src/check-owner.ts:213-217, 249-256, 300-321). The loop runs one round per element of `fetches`.
- The unused parameters of `checkOwner` (group, cache, account, message) and its unused locals `marketIndex` and `market`.
- `params.isCheck` is a JSON value tested for truthiness. The model makes it a `bool`.
- The identity fields of a market context are `const`. The TypeScript type allows writes to them, but nothing in the script writes them, so `const` states that only `bids`/`asks` change.
- The market contexts are a `seq` of references. The returned `marketContexts` is that same sequence. No code resizes the JavaScript array, so the model does not represent the array object itself.
- Driver.FullCheckOwner: does not restate, per round, the scan log, the open-orders slots or the book sides after that round. Those depend on the market contexts and slot arrays as they stood at the end of the round, which later rounds overwrite. Driver.Iteration states them for one round.
- The key, spot keys, basket flags and slot array of a `MangoAccount` are `const`. The script never reassigns them; only the slot contents are written.
