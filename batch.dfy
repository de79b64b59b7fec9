/** The address list of the single batched fetch and how its answer splits back into groups:
    [cache, account] ++ non-zero open-orders keys ++ every bids key ++ every asks key. */
module Batch {
  import opened Ledger

  /** The basket keys with every ZeroKey dropped, in their original order. */
  function NonZero(keys: seq<PublicKey>): (r: seq<PublicKey>)
    ensures |r| <= |keys|
    ensures forall x :: x in r <==> x in keys && x != ZeroKey
  {
    if keys == [] then []
    else if keys[0] == ZeroKey then NonZero(keys[1..])
    else [keys[0]] + NonZero(keys[1..])
  }

  /** The positions of the non-zero keys, in increasing order. */
  function KeptPositions(keys: seq<PublicKey>): seq<nat>
  {
    if keys == [] then []
    else
      var rest := Shift(KeptPositions(keys[1..]));
      if keys[0] == ZeroKey then rest else [0] + rest
  }

  function Shift(ps: seq<nat>): (r: seq<nat>)
    ensures |r| == |ps| && forall p :: 0 <= p < |ps| ==> r[p] == ps[p] + 1
  {
    seq(|ps|, p requires 0 <= p < |ps| => ps[p] + 1)
  }

  /** NonZero keeps exactly the keys at KeptPositions. */
  lemma {:induction false} KeptPositionsSelect(keys: seq<PublicKey>)
    ensures var ps := KeptPositions(keys);
            && |ps| == |NonZero(keys)|
            && forall p :: 0 <= p < |ps| ==> ps[p] < |keys| && keys[ps[p]] != ZeroKey && NonZero(keys)[p] == keys[ps[p]]
  {
    if keys != [] {
      var tail := keys[1..];
      KeptPositionsSelect(tail);
      var inner := KeptPositions(tail);
      var rest := Shift(inner);
      forall p | 0 <= p < |rest|
        ensures rest[p] < |keys| && keys[rest[p]] != ZeroKey && NonZero(tail)[p] == keys[rest[p]]
      {
        assert keys[rest[p]] == tail[inner[p]];
      }
      if keys[0] != ZeroKey {
        var ps := [0] + rest;
        assert KeptPositions(keys) == ps;
        forall p | 0 <= p < |ps|
          ensures ps[p] < |keys| && keys[ps[p]] != ZeroKey && NonZero(keys)[p] == keys[ps[p]]
        {
          if p > 0 {
            assert ps[p] == rest[p - 1];
          }
        }
      }
    }
  }

  /** KeptPositions is increasing, so NonZero does not reorder the keys it keeps. */
  lemma {:induction false} KeptPositionsIncreasing(keys: seq<PublicKey>)
    ensures forall p, q :: 0 <= p < q < |KeptPositions(keys)| ==> KeptPositions(keys)[p] < KeptPositions(keys)[q]
  {
    if keys != [] {
      var inner := KeptPositions(keys[1..]);
      KeptPositionsIncreasing(keys[1..]);
      var rest := Shift(inner);
      var ps := KeptPositions(keys);
      var off := if keys[0] == ZeroKey then 0 else 1;
      assert |ps| == |inner| + off;
      forall p | off <= p < |ps|
        ensures ps[p] == rest[p - off] >= 1
      {
      }
      forall p, q | 0 <= p < q < |ps|
        ensures ps[p] < ps[q]
      {
        if p >= off {
          var a, b := p - off, q - off;
          assert 0 <= a < b < |inner|;
          assert inner[a] < inner[b];
        }
      }
    }
  }

  /** Every non-zero key's position is kept. */
  lemma {:induction false} KeptPositionsComplete(keys: seq<PublicKey>)
    ensures forall i :: 0 <= i < |keys| && keys[i] != ZeroKey ==> i in KeptPositions(keys)
  {
    if keys != [] {
      var tail := keys[1..];
      KeptPositionsComplete(tail);
      var inner := KeptPositions(tail);
      var ps := KeptPositions(keys);
      var off := if keys[0] == ZeroKey then 0 else 1;
      forall i | 0 <= i < |keys| && keys[i] != ZeroKey
        ensures i in ps
      {
        if i == 0 {
          assert ps[0] == 0;
        } else {
          assert tail[i - 1] == keys[i];
          var p :| 0 <= p < |inner| && inner[p] == i - 1;
          assert ps[p + off] == i;
        }
      }
    }
  }

  /** The filter distributes over concatenation; with NonZero([x]) this pins it down as the
      order-preserving filter. */
  lemma {:induction false} NonZeroAppend(a: seq<PublicKey>, b: seq<PublicKey>)
    ensures NonZero(a + b) == NonZero(a) + NonZero(b)
  {
    if a == [] {
      assert a + b == b;
    } else {
      assert (a + b)[1..] == a[1..] + b;
      NonZeroAppend(a[1..], b);
    }
  }

  /** Every non-zero key keeps its multiplicity; ZeroKey disappears. */
  lemma {:induction false} NonZeroCount(keys: seq<PublicKey>, x: PublicKey)
    ensures multiset(NonZero(keys))[x] == if x == ZeroKey then 0 else multiset(keys)[x]
  {
    if keys != [] {
      assert keys == [keys[0]] + keys[1..];
      NonZeroCount(keys[1..], x);
    }
  }

  function BidsKeys(markets: seq<PerpMarket>): (r: seq<PublicKey>)
    ensures |r| == |markets|
  {
    seq(|markets|, i requires 0 <= i < |markets| => markets[i].bids)
  }

  function AsksKeys(markets: seq<PerpMarket>): (r: seq<PublicKey>)
    ensures |r| == |markets|
  {
    seq(|markets|, i requires 0 <= i < |markets| => markets[i].asks)
  }

  /** The request of one iteration, stated position by position. */
  function Request(cacheKey: PublicKey, accountKey: PublicKey, openOrders: seq<PublicKey>,
                   markets: seq<PerpMarket>): (req: seq<PublicKey>)
    ensures |req| == 2 + |openOrders| + 2 * |markets|
    ensures req[0] == cacheKey && req[1] == accountKey
    ensures forall j :: 0 <= j < |openOrders| ==> req[2 + j] == openOrders[j]
    ensures forall i :: 0 <= i < |markets| ==> req[2 + |openOrders| + i] == markets[i].bids
    ensures forall i :: 0 <= i < |markets| ==>
              req[2 + |openOrders| + |markets| + i] == markets[i].asks
  {
    [cacheKey, accountKey] + openOrders + BidsKeys(markets) + AsksKeys(markets)
  }

  /** Array.prototype.slice: both ends are clamped to the length, so it never fails. */
  function JsSlice<T>(s: seq<T>, start: nat, end: nat): (r: seq<T>)
    requires start <= end
    ensures |r| == if |s| <= start then 0 else Min(end, |s|) - start
    ensures forall i :: 0 <= i < |r| ==> start + i < |s| && r[i] == s[start + i]
  {
    s[Min(start, |s|)..Min(end, |s|)]
  }

  function Min(a: nat, b: nat): nat { if a <= b then a else b }

  /** Which group a response index belongs to, given k open-orders keys and m markets. */
  datatype Slot = CacheSlot | AccountSlot | OpenOrdersSlot(j: nat) | BidsSlot(i: nat) | AsksSlot(i: nat)

  predicate ValidSlot(s: Slot, k: nat, m: nat)
  {
    match s
    case CacheSlot => true
    case AccountSlot => true
    case OpenOrdersSlot(j) => j < k
    case BidsSlot(i) => i < m
    case AsksSlot(i) => i < m
  }

  /** Where a slot sits in the request (and, for a same-length answer, in the response). */
  function Position(s: Slot, k: nat, m: nat): (p: nat)
    requires ValidSlot(s, k, m)
    ensures p < 2 + k + 2 * m
  {
    match s
    case CacheSlot => 0
    case AccountSlot => 1
    case OpenOrdersSlot(j) => 2 + j
    case BidsSlot(i) => 2 + k + i
    case AsksSlot(i) => 2 + k + m + i
  }

  /** The inverse of Position: every index of a same-length answer lies in exactly one group. */
  function SlotOf(p: nat, k: nat, m: nat): (s: Slot)
    requires p < 2 + k + 2 * m
    ensures ValidSlot(s, k, m) && Position(s, k, m) == p
  {
    if p == 0 then CacheSlot
    else if p == 1 then AccountSlot
    else if p < 2 + k then OpenOrdersSlot(p - 2)
    else if p < 2 + k + m then BidsSlot(p - 2 - k)
    else AsksSlot(p - 2 - k - m)
  }

  /** The groups are disjoint: no two slots share an index. */
  lemma PositionInjective(a: Slot, b: Slot, k: nat, m: nat)
    requires ValidSlot(a, k, m) && ValidSlot(b, k, m)
    requires Position(a, k, m) == Position(b, k, m)
    ensures a == b
  {
  }

  /** For an answer as long as the request, the five slices that the loader takes are exactly
      the five groups, with the lengths the request gave them, and together they are the
      whole answer. */
  lemma SlicesPartition<T>(resp: seq<T>, k: nat, m: nat)
    requires |resp| == 2 + k + 2 * m
    ensures JsSlice(resp, 2, 2 + k) == resp[2..2 + k]
    ensures JsSlice(resp, 2 + k, 2 + k + m) == resp[2 + k..2 + k + m]
    ensures JsSlice(resp, 2 + k + m, 2 + k + 2 * m) == resp[2 + k + m..]
    ensures resp == [resp[0], resp[1]] + JsSlice(resp, 2, 2 + k)
                    + JsSlice(resp, 2 + k, 2 + k + m) + JsSlice(resp, 2 + k + m, 2 + k + 2 * m)
  {
    assert resp == resp[..2] + resp[2..2 + k] + resp[2 + k..2 + k + m] + resp[2 + k + m..];
  }
}
