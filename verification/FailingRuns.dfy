/**
 Runs from a fresh node that end where one would not expect: coins created and destroyed, a
 canonical block that does not validate, and a chain that fails its own audit.
 */
module FailingRuns {
  import opened Ledger
  import opened CodeKeys
  import opened Chain
  import opened ChainLaws
  import opened ChainAudit
  import opened Reorg
  import opened Runs
  import opened CleanRuns

  lemma TwoActions(env: Env, s: State, a: Action, b: Action)
    ensures AfterAll(env, s, [a, b]) == After(env, After(env, s, a), b)
  {
    hide After;
    assert [a, b][..1] == [a] && [a][..0] == [];
    assert AfterAll(env, s, [a]) == After(env, AfterAll(env, s, []), a);
  }

  lemma ThreeActions(env: Env, s: State, a: Action, b: Action, c: Action)
    ensures AfterAll(env, s, [a, b, c]) == After(env, After(env, After(env, s, a), b), c)
  {
    hide After;
    assert [a, b, c][..2] == [a, b];
    TwoActions(env, s, a, b);
  }

  // ---- coins ------------------------------------------------------------------------------------------

  predicate IsPayment(tx: Tx, from: Address, to: Address, value: int) {
    tx.from == from && tx.to == to && tx.value == value
  }

  lemma StepBalances(env: Env, a: Accounts, tx: Tx)
    requires IsTransfer(tx)
    ensures Step(env, a, tx).balances == Moved(a.balances, tx)
  {
    hide Moved;
    ExecuteKeepsBalances(env, Transfer(a, tx), tx);
  }

  /** An account with one coin pays it twice: the second transfer creates the coin it pays. */
  lemma UncoveredTransferMints(env: Env, start: int, pay: Tx, h1: Hash, h2: Hash, now: Moment)
    requires GoodRoots(env) && Usable(h1) && Usable(h2) && IsPayment(pay, "a", "b", 1)
    ensures var s := Fresh(env, map["a" := 1], start);
      Total(AfterAll(env, s, [Submit(pay, true, h1, now), Submit(pay, true, h2, now)]).accounts.balances)
      == Total(s.accounts.balances) + 1
  {
    hide Consistent, Submitted, Total, Usable, Step, PlaceAll, Norm, Clash, CodeOk, Indexed, PersistAll, GoodRoots, AfterAll;
    var s := Fresh(env, map["a" := 1], start);
    TwoActions(env, s, Submit(pay, true, h1, now), Submit(pay, true, h2, now));
    FreshFaithful(env, map["a" := 1], start);
    SubmitOne(env, s, pay, h1, now);
    var t := Submitted(env, s, pay, true, h1, now);
    SubmitOne(env, t, pay, h2, now);
    StepBalances(env, s.accounts, pay);
    StepSupply(env, s.accounts, pay);
    StepSupply(env, t.accounts, pay);
  }

  /** With signed values coins can also vanish: a sends b minus five coins and holds five, b owes five;
      then b, who cannot cover minus three, sends c minus three and is not credited for it. */
  lemma NegativeTransferBurns(env: Env, start: int, first: Tx, second: Tx, h1: Hash, h2: Hash, now: Moment)
    requires GoodRoots(env) && Usable(h1) && Usable(h2)
    requires IsPayment(first, "a", "b", -5) && IsPayment(second, "b", "c", -3)
    ensures var s := Fresh(env, map[], start);
      Total(AfterAll(env, s, [Submit(first, true, h1, now), Submit(second, true, h2, now)]).accounts.balances)
      == Total(s.accounts.balances) - 3
  {
    hide Consistent, Submitted, Total, Usable, Step, PlaceAll, Norm, Clash, CodeOk, Indexed, PersistAll, GoodRoots, AfterAll;
    var s := Fresh(env, map[], start);
    TwoActions(env, s, Submit(first, true, h1, now), Submit(second, true, h2, now));
    FreshFaithful(env, map[], start);
    SubmitOne(env, s, first, h1, now);
    var t := Submitted(env, s, first, true, h1, now);
    SubmitOne(env, t, second, h2, now);
    StepBalances(env, s.accounts, first);
    StepSupply(env, s.accounts, first);
    StepSupply(env, t.accounts, second);
  }

  /** What a reorganisation of the one block above genesis leaves. */
  lemma UndoneOnce(env: Env, s: State, pay: Tx, h1: Hash, other: Hash, now: Moment)
    requires Consistent(env, s) && s.height == 1 && s.pool == [] && Usable(h1) && other != h1
    ensures var r := After(env, Submitted(env, s, pay, true, h1, now), Reorganise(2, other));
      Consistent(env, r) && r.accounts == s.snapshots[1].accounts && r.pool == [Strip(pay)]
  {
    hide Consistent, Submitted, Reorged, Usable, Step, PlaceAll, StripAll, TxsOf;
    SubmitOne(env, s, pay, h1, now);
    var t := Submitted(env, s, pay, true, h1, now);
    var b := t.blocks[|t.blocks| - 1];
    assert |t.blocks| == 2 by { Blocks(env, t); }
    ReorgActsIff(env, t, 2, other);
    ReorgUndoes(env, t, 2, other);
    ReorgedConsistent(env, t, 2, other);
    assert t.blocks[1..] == [b];
    TxsOfOne(b);
    StripOfPlaced([pay], h1, t.height);
    StripOne(pay);
    assert t.pool + TxsOf(t.blocks[1..]) == [Strip(pay)];
    FirstSnapshot(env, s, pay, h1, now);
  }

  lemma Blocks(env: Env, s: State)
    requires Consistent(env, s)
    ensures |s.blocks| == s.height
  {
    hide LinkOk, Bare, PlainOk;
  }

  lemma FirstSnapshot(env: Env, s: State, tx: Tx, hash: Hash, now: Moment)
    requires Consistent(env, s) && Usable(hash)
    ensures var t := Submitted(env, s, tx, true, hash, now); 1 in s.snapshots && 1 in t.snapshots && t.snapshots[1] == s.snapshots[1]
  {
    hide LinkOk, Bare, PlainOk, Mined, Usable, PlaceAll, Indexed, Run, Sealed, Copied;
    var s1 := s.(pool := s.pool + [tx]);
    PoolGrows(env, s, s1);
    MinedGrows(env, s1, hash, now);
  }

  lemma PaidTwice(env: Env, a: Accounts, pay: Tx)
    requires IsPayment(pay, "a", "b", 1) && a.balances == map["a" := 1]
    ensures Total(Run(env, a, [Strip(pay), pay]).balances) == Total(a.balances) + 1
  {
    hide Total, Step;
    var two := [Strip(pay), pay];
    assert two[..1] == [Strip(pay)] && [Strip(pay)][..0] == [];
    assert Run(env, a, []) == a;
    var once := Step(env, a, Strip(pay));
    assert Run(env, a, [Strip(pay)]) == once;
    assert Run(env, a, two) == Step(env, once, pay);
    StepBalances(env, a, Strip(pay));
    StepSupply(env, a, Strip(pay));
    StepSupply(env, once, pay);
  }

  /** Strict mode does not help once a transaction waits in the pool: a strictly valid payment is
      mined, a reorganisation requeues it, the same payment is strictly valid again, and mining both
      creates a coin. */
  lemma StrictRunMints(env: Env, start: int, pay: Tx, h1: Hash, h2: Hash, other: Hash, now: Moment)
    requires GoodRoots(env) && Usable(h1) && Usable(h2) && other != h1 && IsPayment(pay, "a", "b", 1)
    ensures var s := Fresh(env, map["a" := 1], start);
      var a, b, c := Submit(pay, true, h1, now), Reorganise(2, other), Submit(pay, true, h2, now);
      && StrictlyValid(s.accounts, pay) && StrictlyValid(AfterAll(env, s, [a, b]).accounts, pay)
      && Total(AfterAll(env, s, [a, b, c]).accounts.balances) == Total(s.accounts.balances) + 1
  {
    hide Consistent, Mined, Reorged, Total, Usable, PlaceAll, Norm, Clash, CodeOk, Indexed, PersistAll, GoodRoots, AfterAll, Run, CanReorg, Grows;
    var s := Fresh(env, map["a" := 1], start);
    var a, b, c := Submit(pay, true, h1, now), Reorganise(2, other), Submit(pay, true, h2, now);
    TwoActions(env, s, a, b);
    ThreeActions(env, s, a, b, c);
    FreshFaithful(env, map["a" := 1], start);
    UndoneOnce(env, s, pay, h1, other, now);
    var r := After(env, After(env, s, a), b);
    var r1 := r.(pool := r.pool + [pay]);
    assert r1.pool == [Strip(pay), pay];
    PoolGrows(env, r, r1);
    MinedGrows(env, r1, h2, now);
    PaidTwice(env, r.accounts, pay);
  }

  // ---- code -------------------------------------------------------------------------------------------

  /** A raw transaction: no sender, no recipient, nonce zero. */
  predicate IsRaw(tx: Tx) {
    tx.from == "" && tx.to == "" && tx.nonce == 0
  }

  lemma DeployedOnce(env: Env, tx: Tx, n: Address)
    requires IsRaw(tx) && n == env.contractAddress("", 0)
    ensures Deployed(env, [tx], n).Some? && Deployed(env, [tx], n).value == tx.input
  {
  }

  lemma PlacedOnce(env: Env, tx: Tx, n: Address, hash: Hash, number: nat)
    requires IsRaw(tx) && n == env.contractAddress("", 0)
    ensures Deployed(env, PlaceAll([tx], hash, number), n).Some? && Deployed(env, PlaceAll([tx], hash, number), n).value == tx.input
  {
    var placed := PlaceAll([tx], hash, number);
    assert placed[|placed| - 1] == Placed(tx, hash, number, 0);
  }

  /** A mined raw transaction leaves its input as the code of the head's snapshot. */
  lemma RawLeavesCode(env: Env, s: State, raw: Tx, n: Address, hash: Hash, now: Moment)
    requires Faithful(env, s) && s.pool == [] && Usable(hash) && IsRaw(raw) && n == env.contractAddress("", 0) && !env.plain(n)
    requires !Redeploys(env, s.accounts.code, [raw])
    ensures var t := Submitted(env, s, raw, true, hash, now);
      && Faithful(env, t) && t.pool == [] && t.height == s.height + 1 && |t.blocks| == t.height
      && t.height in t.snapshots && n in t.snapshots[t.height].accounts.code.lower
      && t.snapshots[t.height].accounts.code.lower[n] == raw.input
      && t.blocks[t.height - 1].txs == PlaceAll([raw], hash, t.height)
      && s.height in s.snapshots && s.height in t.snapshots && t.snapshots[s.height] == s.snapshots[s.height]
  {
    hide Mined, Usable, PlaceAll, Indexed, Run, Sealed, Clash, Redeploys, CodeOk, LinkOk, Bare, PlainOk, Deployed;
    var s1 := s.(pool := s.pool + [raw]);
    assert s1.pool == [raw];
    PoolFaithful(env, s, s1);
    MinedFaithful(env, s1, hash, now);
    MinedGrows(env, s1, hash, now);
    var t := Mined(env, s1, hash, now);
    DeployedOnce(env, raw, n);
    CodeAfter(env, s.accounts, [raw], n);
    assert n in t.accounts.code.mixed && t.accounts.code.mixed[n] == raw.input;
  }

  /** Two raw transactions with different inputs, mined in two blocks, deploy to one address. The audit
      succeeds, and yet the second block does not validate when the walks visit lower-case keys last. */
  lemma TwoRawTransactions(env: Env, balances: map<Address, int>, start: int, raw1: Tx, raw2: Tx, h1: Hash, h2: Hash, now: Moment)
    requires GoodRoots(env) && RootsTellCode(env) && Usable(h1) && Usable(h2)
    requires IsRaw(raw1) && IsRaw(raw2) && raw1.input != raw2.input && !env.plain(env.contractAddress("", 0))
    ensures var s := Fresh(env, balances, start);
      var t := AfterAll(env, s, [Submit(raw1, true, h1, now), Submit(raw2, true, h2, now)]);
      && Faithful(env, t) && t.height == 3 && |t.blocks| == 3
      && (forall later :: AuditResult(env, t, later) == (true, 2))
      && (forall time :: !RecordValid(env, t, t.blocks[2], LowerLast(time)))
  {
    hide Consistent, Submitted, Usable, PlaceAll, Norm, Clash, CodeOk, GoodRoots, RootsTellCode, AfterAll, AuditResult, RecordValid, Deployed, Redeploys;
    var s := Fresh(env, balances, start);
    var n := env.contractAddress("", 0);
    TwoActions(env, s, Submit(raw1, true, h1, now), Submit(raw2, true, h2, now));
    FreshFaithful(env, balances, start);
    FreshUnrestored(env, balances, start);
    QuietSubmit(env, s, raw1, h1, now);
    RawLeavesCode(env, s, raw1, n, h1, now);
    var t1 := Submitted(env, s, raw1, true, h1, now);
    QuietSubmit(env, t1, raw2, h2, now);
    RawLeavesCode(env, t1, raw2, n, h2, now);
    var t := Submitted(env, t1, raw2, true, h2, now);
    PlacedOnce(env, raw2, n, h2, 3);
    assert Redeploys(env, t.snapshots[2].accounts.code, t.blocks[2].txs) by {
      RedeploysAt(env, t.snapshots[2].accounts.code, t.blocks[2].txs, n);
    }
    CanonicalBlockValidIff(env, t, 3, t.blocks[2]);
    forall later
      ensures AuditResult(env, t, later) == (true, 2)
    {
      AuditSucceeds(env, t, later);
    }
  }

  lemma RedeploysAt(env: Env, c: CodeStore, txs: seq<Tx>, n: Address)
    requires n in c.lower && !env.plain(n) && Deployed(env, txs, n).Some? && Deployed(env, txs, n).value != c.lower[n]
    ensures Redeploys(env, c, txs)
  {
    hide Deployed;
  }

  lemma QuietSubmit(env: Env, s: State, raw: Tx, hash: Hash, now: Moment)
    requires Unrestored(env, s) && s.pool == [] && Usable(hash)
    ensures Unrestored(env, Submitted(env, s, raw, true, hash, now)) && !Redeploys(env, s.accounts.code, [raw])
  {
    hide Unrestored, Submitted, Usable, Redeploys;
    assert s.pool + [raw] == [raw];
    QuietKeeps(env, s, Submit(raw, true, hash, now));
  }

  /** Once any replay has restored the live accounts, a further raw transaction with another input can
      leave a chain that fails its own audit, whenever and however it is audited later. */
  lemma RestoredThenRaw(env: Env, s: State, raw: Tx, n: Address, saved: Moment, hash: Hash, time: int, later: Moment)
    requires RootsTellCode(env) && Faithful(env, s) && s.pool == [] && Usable(hash)
    requires IsRaw(raw) && n == env.contractAddress("", 0) && !env.plain(n)
    requires s.height in s.snapshots && n in s.snapshots[s.height].accounts.code.lower
    requires s.snapshots[s.height].accounts.code.lower[n] != raw.input
    ensures var v := After(env, s, AuditChain(saved));
      !AuditResult(env, After(env, v, Submit(raw, true, hash, LowerLast(time))), later).0
  {
    hide Mined, Usable, Clash, CodeOk, LinkOk, Bare, PlainOk, RootsTellCode, AuditResult, Deployed, Redeploys, Copied;
    Blocks(env, s);
    var v := After(env, s, AuditChain(saved));
    RestoredKeeps(env, s, saved);
    CopyIffNoClash(s.accounts);
    assert v.accounts == Norm(s.accounts) == s.snapshots[s.height].accounts;
    var v1 := v.(pool := v.pool + [raw]);
    assert v1.pool == [raw];
    PoolFaithful(env, v, v1);
    DeployedOnce(env, raw, n);
    RedeploysAt(env, v1.accounts.code, v1.pool, n);
    MineThenAuditIff(env, v1, hash);
  }
}
