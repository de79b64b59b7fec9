/** The monitoring loop of fullCheckOwner: every round loads the account and the books, then
    scans the markets whose check is enabled. A round whose load throws is logged and skipped;
    the account carried into the next round is replaced only by a load that completed. */
module Driver {
  import opened Ledger
  import opened Batch
  import opened Accounts
  import opened Load
  import opened Scan

  /** What a round writes to the console: a large order, or the error its load threw. */
  datatype ConsoleLine = AlertLine(alert: Alert) | ErrorLine(error: LoadError)

  function AlertLines(alerts: seq<Alert>): (lines: seq<ConsoleLine>)
    ensures |lines| == |alerts| && forall i :: 0 <= i < |alerts| ==> lines[i] == AlertLine(alerts[i])
  {
    seq(|alerts|, i requires 0 <= i < |alerts| => AlertLine(alerts[i]))
  }

  /** The scan lines of one round: market by market in registry order, the report of every
      market whose check is enabled. */
  function ScanLog(ctxs: seq<MarketContext>): seq<ConsoleLine>
    reads ctxs
  {
    if ctxs == [] then []
    else
      var last := ctxs[|ctxs| - 1];
      ScanLog(ctxs[..|ctxs| - 1]) + (if last.params.isCheck then AlertLines(Reported(last.bids.orders)) else [])
  }

  /** The scan log of the first i+1 markets extends that of the first i by market i's lines. */
  lemma ScanLogStep(ctxs: seq<MarketContext>, i: nat)
    requires i < |ctxs|
    ensures ScanLog(ctxs[..i + 1])
            == ScanLog(ctxs[..i]) + (if ctxs[i].params.isCheck then AlertLines(Reported(ctxs[i].bids.orders)) else [])
  {
    assert ctxs[..i + 1][..i] == ctxs[..i];
  }

  /** A line is in the scan log exactly when it reports an order of an enabled market that
      the bounded scan of that market's bids reports. */
  lemma {:induction false} ScanLogIff(ctxs: seq<MarketContext>, line: ConsoleLine)
    ensures line in ScanLog(ctxs) <==>
            line.AlertLine? &&
            exists i :: 0 <= i < |ctxs| && ctxs[i].params.isCheck && line.alert in Reported(ctxs[i].bids.orders)
  {
    if ctxs != [] {
      var init := ctxs[..|ctxs| - 1];
      var last := ctxs[|ctxs| - 1];
      ScanLogIff(init, line);
      if line in ScanLog(init) {
        var i :| 0 <= i < |init| && init[i].params.isCheck && line.alert in Reported(init[i].bids.orders);
        assert ctxs[i] == init[i];
      }
      if line in ScanLog(ctxs) && line !in ScanLog(init) {
        assert last.params.isCheck && line in AlertLines(Reported(last.bids.orders));
        var j :| 0 <= j < |Reported(last.bids.orders)| && AlertLines(Reported(last.bids.orders))[j] == line;
        assert line.alert in Reported(last.bids.orders);
      }
      if line.AlertLine? &&
         exists i :: 0 <= i < |ctxs| && ctxs[i].params.isCheck && line.alert in Reported(ctxs[i].bids.orders) {
        var i :| 0 <= i < |ctxs| && ctxs[i].params.isCheck && line.alert in Reported(ctxs[i].bids.orders);
        if i < |init| {
          assert init[i] == ctxs[i];
        } else {
          var j :| 0 <= j < |Reported(last.bids.orders)| && Reported(last.bids.orders)[j] == line.alert;
          assert AlertLines(Reported(last.bids.orders))[j] == line;
        }
      }
    }
  }

  /** Markets whose check is disabled never produce a line. */
  lemma NothingEnabledNothingLogged(ctxs: seq<MarketContext>)
    requires forall i :: 0 <= i < |ctxs| ==> !ctxs[i].params.isCheck
    ensures ScanLog(ctxs) == []
  {
    if ScanLog(ctxs) != [] {
      ScanLogIff(ctxs, ScanLog(ctxs)[0]);
      assert false;
    }
  }

  /** One round as it happened: the load of account `before` against what `fetch` answered to
      its request had outcome `o`. A throw logged only its error and handed `before` on; a
      completed load handed on `after`, decoded from entry 1 of the answer. */
  ghost predicate Round(group: MangoGroup, ctxs: seq<MarketContext>, fetch: Fetch, dec: Decoders,
                        before: MangoAccount, after: MangoAccount, o: Option<LoadError>, log: seq<ConsoleLine>)
  {
    var resp := fetch(RequestFor(group, before, ctxs));
    && o == Outcome(resp, |InBasket(before)|, Markets(ctxs), group.dexProgramId, dec)
    && (o.Some? ==> after == before && log == [ErrorLine(o.value)])
    && (o.None? ==>
          && resp.Some? && |resp.value| >= 2
          && after.Valid()
          && after.publicKey == resp.value[1].publicKey
          && Some(AccountLayout(after.spotOpenOrders, after.inMarginBasket)) == DecodeAccount(resp.value[1], dec))
  }

  /** One round of the loop body. The load's exception is caught and logged; only a completed
      load replaces the carried account, and only then are the enabled markets scanned. The
      message the scans would extend stays empty, since checkOwner always returns "". */
  method Iteration(group: MangoGroup, account: MangoAccount, ctxs: seq<MarketContext>, fetch: Fetch, dec: Decoders)
    returns (next: MangoAccount, message: string, failure: Option<LoadError>, log: seq<ConsoleLine>)
    requires Distinct(ctxs)
    modifies ctxs
    ensures message == ""
    // the outcome of the load, the error logged on a throw, the decoded account otherwise
    ensures Round(group, ctxs, fetch, dec, account, next, failure, log)
    ensures failure.None? ==> fresh(next) && log == ScanLog(ctxs)
    // a completed load's account has its slots filled by key
    ensures var resp := fetch(RequestFor(group, account, ctxs));
            var k := |InBasket(account)|;
            failure.None? ==>
              && resp.Some?
              && var oo := JsSlice(resp.value, 2, 2 + k);
              && OpenOrdersDecode(oo, group.dexProgramId, dec)
              && next.spotOpenOrdersAccounts[..]
                 == PlaceAll(EmptySlots(|next.spotOpenOrders|), next.spotOpenOrders, Decoded(oo, group.dexProgramId, dec))
    ensures var resp := fetch(RequestFor(group, account, ctxs));
            BookAt(BidsOf(ctxs), AsksOf(ctxs), old(BidsOf(ctxs)), old(AsksOf(ctxs)),
                   if resp.Some? then resp.value else [], |InBasket(account)|, Markets(ctxs), dec, Reach(failure, resp))
  {
    message := "";
    var state := LoadAccountAndMarketState(group, account, ctxs, fetch, dec);
    if state.Failed? {
      return account, message, Some(state.error), [ErrorLine(state.error)];
    }
    failure := None;
    next := state.mangoAccount;
    message, log := ScanEnabled(ctxs);
  }

  /** The `for` over the market contexts after a completed load: checkOwner runs on every
      market whose check is enabled, and a non-empty market message would be appended to the
      round's message. */
  method ScanEnabled(ctxs: seq<MarketContext>) returns (message: string, log: seq<ConsoleLine>)
    ensures message == ""
    ensures log == ScanLog(ctxs)
  {
    message := "";
    log := [];
    var i := 0;
    while i < |ctxs|
      invariant 0 <= i <= |ctxs|
      invariant message == ""
      invariant log == ScanLog(ctxs[..i])
    {
      if ctxs[i].params.isCheck {
        var marketMessage, alerts := CheckOwner(ctxs[i]);
        log := log + AlertLines(alerts);
        if marketMessage != "" {
          message := message + "\n" + marketMessage;
        }
      }
      ScanLogStep(ctxs, i);
      i := i + 1;
    }
    assert ctxs[..i] == ctxs;
  }

  /** The first |outcomes| rounds of a run: round r took account r to account r+1 against the
      r-th answer of the RPC, with outcome r and log r. */
  ghost predicate Rounds(group: MangoGroup, ctxs: seq<MarketContext>, fetches: seq<Fetch>, dec: Decoders,
                         accounts: seq<MangoAccount>, outcomes: seq<Option<LoadError>>, logs: seq<seq<ConsoleLine>>)
  {
    && |outcomes| <= |fetches| && |accounts| == |outcomes| + 1 && |logs| == |outcomes|
    && forall r :: 0 <= r < |outcomes| ==>
         Round(group, ctxs, fetches[r], dec, accounts[r], accounts[r + 1], outcomes[r], logs[r])
  }

  /** Proof aid, not a property of the monitor: equal arguments give the same Round. Calling
      it makes a goal literally the lemma's conclusion, which spares the solver the congruence
      reasoning over Round's unfolded body. */
  lemma RoundSame(group: MangoGroup, ctxs: seq<MarketContext>, fetch: Fetch, dec: Decoders,
                  before: MangoAccount, after: MangoAccount, o: Option<LoadError>, log: seq<ConsoleLine>,
                  before': MangoAccount, after': MangoAccount, o': Option<LoadError>, log': seq<ConsoleLine>)
    requires before == before' && after == after' && o == o' && log == log'
    requires Round(group, ctxs, fetch, dec, before, after, o, log)
    ensures Round(group, ctxs, fetch, dec, before', after', o', log')
  {
  }

  lemma RoundsSnoc(group: MangoGroup, ctxs: seq<MarketContext>, fetches: seq<Fetch>, dec: Decoders,
                   accounts: seq<MangoAccount>, outcomes: seq<Option<LoadError>>, logs: seq<seq<ConsoleLine>>,
                   next: MangoAccount, o: Option<LoadError>, log: seq<ConsoleLine>)
    requires Rounds(group, ctxs, fetches, dec, accounts, outcomes, logs) && |outcomes| < |fetches|
    requires Round(group, ctxs, fetches[|outcomes|], dec, accounts[|outcomes|], next, o, log)
    ensures Rounds(group, ctxs, fetches, dec, accounts + [next], outcomes + [o], logs + [log])
  {
    var n := |outcomes|;
    var accounts', outcomes', logs' := accounts + [next], outcomes + [o], logs + [log];
    forall r | 0 <= r < |outcomes'|
      ensures Round(group, ctxs, fetches[r], dec, accounts'[r], accounts'[r + 1], outcomes'[r], logs'[r])
    {
      if r < n {
        RoundSame(group, ctxs, fetches[r], dec, accounts[r], accounts[r + 1], outcomes[r], logs[r],
                  accounts'[r], accounts'[r + 1], outcomes'[r], logs'[r]);
      } else {
        RoundSame(group, ctxs, fetches[n], dec, accounts[n], next, o, log,
                  accounts'[r], accounts'[r + 1], outcomes'[r], logs'[r]);
      }
    }
  }

  /** Whether some round of the loop completed its load. */
  predicate SomeRoundLoaded(outcomes: seq<Option<LoadError>>)
  {
    exists i :: 0 <= i < |outcomes| && outcomes[i].None?
  }

  lemma SomeRoundLoadedSnoc(outcomes: seq<Option<LoadError>>, o: Option<LoadError>)
    ensures SomeRoundLoaded(outcomes + [o]) <==> SomeRoundLoaded(outcomes) || o.None?
  {
    var after := outcomes + [o];
    if SomeRoundLoaded(after) && !o.None? {
      var i :| 0 <= i < |after| && after[i].None?;
      assert outcomes[i] == after[i];
    }
    if SomeRoundLoaded(outcomes) {
      var i :| 0 <= i < |outcomes| && outcomes[i].None?;
      assert after[i] == outcomes[i];
    }
    if o.None? {
      assert after[|outcomes|] == o;
    }
  }

  /** The account is handed on unchanged by every round whose load threw. */
  ghost predicate Chained(accounts: seq<MangoAccount>, outcomes: seq<Option<LoadError>>)
  {
    && |accounts| == |outcomes| + 1
    && forall r :: 0 <= r < |outcomes| && outcomes[r].Some? ==> accounts[r + 1] == accounts[r]
  }

  lemma RoundsChained(group: MangoGroup, ctxs: seq<MarketContext>, fetches: seq<Fetch>, dec: Decoders,
                      accounts: seq<MangoAccount>, outcomes: seq<Option<LoadError>>, logs: seq<seq<ConsoleLine>>)
    requires Rounds(group, ctxs, fetches, dec, accounts, outcomes, logs)
    ensures Chained(accounts, outcomes)
  {
    forall r | 0 <= r < |outcomes| && outcomes[r].Some?
      ensures accounts[r + 1] == accounts[r]
    {
      assert Round(group, ctxs, fetches[r], dec, accounts[r], accounts[r + 1], outcomes[r], logs[r]);
    }
  }

  /** When every round from `from` on threw, the account at the end is the one after round
      from-1: the last completed load's account, or the initial one when none completed. */
  lemma {:induction false} KeptSince(accounts: seq<MangoAccount>, outcomes: seq<Option<LoadError>>, from: nat)
    requires Chained(accounts, outcomes) && from <= |outcomes|
    requires forall s :: from <= s < |outcomes| ==> outcomes[s].Some?
    ensures accounts[|outcomes|] == accounts[from]
  {
    if from < |outcomes| {
      var n := |outcomes| - 1;
      assert Chained(accounts[..n + 1], outcomes[..n]);
      KeptSince(accounts[..n + 1], outcomes[..n], from);
      assert outcomes[n].Some?;
    }
  }

  /** The console of the whole run: the rounds' logs one after another. */
  function Concat(logs: seq<seq<ConsoleLine>>): seq<ConsoleLine>
  {
    if logs == [] then [] else Concat(logs[..|logs| - 1]) + logs[|logs| - 1]
  }

  /** The loop itself: one round per entry of `fetches` (the RPC as it answers in that round),
      for as long as the loop runs. A failing round never stops the loop. Round r loads
      `accounts[r]` and hands on `accounts[r + 1]`: the same account after a throw, a new one
      decoded from that round's answer after a completed load. */
  method FullCheckOwner(group: MangoGroup, account: MangoAccount, ctxs: seq<MarketContext>, fetches: seq<Fetch>,
                        dec: Decoders)
    returns (final: MangoAccount, outcomes: seq<Option<LoadError>>, console: seq<ConsoleLine>,
             ghost accounts: seq<MangoAccount>, ghost logs: seq<seq<ConsoleLine>>)
    requires Distinct(ctxs)
    modifies ctxs
    ensures |outcomes| == |fetches|
    ensures Rounds(group, ctxs, fetches, dec, accounts, outcomes, logs)
    ensures accounts[0] == account && final == accounts[|fetches|]
    ensures console == Concat(logs)
    ensures SomeRoundLoaded(outcomes) ==> fresh(final)
  {
    final := account;
    outcomes := [];
    console := [];
    accounts := [account];
    logs := [];
    var round := 0;
    while round < |fetches|
      invariant 0 <= round <= |fetches| && |outcomes| == round
      invariant Rounds(group, ctxs, fetches, dec, accounts, outcomes, logs)
      invariant accounts[0] == account && final == accounts[round]
      invariant console == Concat(logs)
      invariant SomeRoundLoaded(outcomes) ==> fresh(final)
    {
      var next, message, failure, log := Iteration(group, final, ctxs, fetches[round], dec);
      RoundsSnoc(group, ctxs, fetches, dec, accounts, outcomes, logs, next, failure, log);
      SomeRoundLoadedSnoc(outcomes, failure);
      assert (logs + [log])[..|logs|] == logs;
      final := next;
      outcomes := outcomes + [failure];
      accounts := accounts + [next];
      logs := logs + [log];
      console := console + log;
      round := round + 1;
    }
  }
}
