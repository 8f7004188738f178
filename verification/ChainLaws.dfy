/**
 What every operation of the node keeps. In every reachable state the chain is consistent: blocks,
 canonical map and snapshots fit together, and except for contract code the live accounts are the
 newest snapshot and each snapshot is its predecessor after executing one block. The chain is
 moreover faithful, code and state roots included, as long as no block redeploys code over a
 lower-case key of the live accounts; a single block that does can end it.
 */
module ChainLaws {
  import opened Ledger
  import opened CodeKeys
  import opened Chain

  // ---- executing transactions ---------------------------------------------------------------------

  /** The fields that executing transactions leaves alone. */
  predicate SameChain(s: State, t: State) {
    && t.height == s.height && t.blocks == s.blocks && t.canonical == s.canonical && t.index == s.index
    && t.snapshots == s.snapshots && t.pool == s.pool && t.replayMode == s.replayMode
  }

  /** Besides the chain, bridge calls leave accounts, transactions and receipts alone. */
  predicate SameLedger(s: State, t: State) {
    SameChain(s, t) && t.accounts == s.accounts && t.txs == s.txs && t.receipts == s.receipts
  }

  lemma WithdrawalFacts(env: Env, s: State, tx: Tx, now: Moment)
    ensures SameLedger(s, InitiateWithdrawal(env, s, tx, now))
  {
  }

  lemma AnchorFacts(env: Env, s: State, tx: Tx, at: Place, now: Moment)
    ensures SameLedger(s, SubmitAnchor(env, s, tx, at, now))
  {
    hide PersistAll;
  }

  lemma BridgeFacts(env: Env, s: State, tx: Tx, at: Place, now: Moment)
    ensures SameLedger(s, BridgeEffects(env, s, tx, at, now))
  {
    hide InitiateWithdrawal, SubmitAnchor, IsWithdraw, IsAnchor;
    var s1 := if IsWithdraw(env, tx) && tx.from != "" then InitiateWithdrawal(env, s, tx, now) else s;
    WithdrawalFacts(env, s, tx, now);
    AnchorFacts(env, s1, tx, at, now);
  }

  lemma BridgeExecutesNothing(env: Env, a: Accounts, tx: Tx)
    requires CallsBridge(env, tx)
    ensures Execute(env, a, tx) == a
  {
    hide IsStore;
  }

  lemma AppliedFacts(env: Env, s: State, tx: Tx, at: Place, now: Moment)
    ensures var t := Applied(env, s, tx, at, now);
      t.accounts == Step(env, s.accounts, tx) && SameChain(s, t) && t.txs == s.txs && t.receipts == s.receipts
  {
    hide Transfer, BridgeEffects, Execute, CallsBridge;
    var s1 := s.(accounts := Transfer(s.accounts, tx));
    if CallsBridge(env, tx) {
      BridgeFacts(env, s1, tx, at, now);
      BridgeExecutesNothing(env, s1.accounts, tx);
    }
  }

  lemma ReceiptSeen(env: Env, s: State, tx: Tx, at: Place, now: Moment)
    ensures Seen(ReceiptOf(env, s, tx, at, now)) == OutcomeOf(env, tx)
  {
    hide Applied, LogsOf;
    var r := ReceiptOf(env, s, tx, at, now);
    assert Seen(r).logs == LogsOf(env, tx);
  }

  lemma RecordedFacts(s: State, tx: Tx, r: Receipt)
    ensures SameChain(s, Recorded(s, tx, r)) && Recorded(s, tx, r).accounts == s.accounts
  {
  }

  lemma OneMore(env: Env, a: Accounts, txs: seq<Tx>, n: nat)
    requires 0 < n <= |txs|
    ensures Run(env, a, txs[..n]) == Step(env, Run(env, a, txs[..n - 1]), txs[n - 1])
    ensures OutcomesOf(env, txs[..n]) == OutcomesOf(env, txs[..n - 1]) + [OutcomeOf(env, txs[n - 1])]
  {
    hide Step, OutcomeOf;
    assert txs[..n][..n - 1] == txs[..n - 1];
  }

  /** A pass executes the transactions on the accounts and leaves the chain alone; the outcomes
      depend on the transactions only. */
  lemma {:induction false} PassedFacts(env: Env, s: State, txs: seq<Tx>, n: nat, hash: Hash, number: nat, now: Moment, record: bool)
    requires n <= |txs|
    ensures var p := Passed(env, s, txs, n, hash, number, now, record);
      && p.state.accounts == Run(env, s.accounts, txs[..n]) && SameChain(s, p.state)
      && SeenAll(p.receipts) == OutcomesOf(env, txs[..n])
      && (!record ==> p.state.txs == s.txs && p.state.receipts == s.receipts)
  {
    hide Applied, ReceiptOf, Step, Seen, OutcomeOf, Recorded, Placed, OutcomesOf;
    if n == 0 {
      assert OutcomesOf(env, txs[..0]) == [];
    } else {
      PassedFacts(env, s, txs, n - 1, hash, number, now, record);
      var p := Passed(env, s, txs, n - 1, hash, number, now, record);
      var at := Place(hash, number, n - 1);
      AppliedFacts(env, p.state, txs[n - 1], at, now);
      ReceiptSeen(env, p.state, txs[n - 1], at, now);
      OneMore(env, s.accounts, txs, n);
      RecordedFacts(Applied(env, p.state, txs[n - 1], at, now), Placed(txs[n - 1], hash, number, n - 1),
                    ReceiptOf(env, p.state, txs[n - 1], at, now));
    }
  }

  lemma ReplayedFacts(env: Env, s: State, b: Block, now: Moment)
    ensures var p := Replayed(env, s, b, now);
      && p.state.accounts == Run(env, s.accounts, b.txs)
      && SameChain(s.(height := b.number, replayMode := true), p.state)
      && p.state.txs == s.txs && p.state.receipts == s.receipts
      && SeenAll(p.receipts) == OutcomesOf(env, b.txs)
  {
    hide Passed, Run, SeenAll, OutcomesOf;
    PassedFacts(env, s.(height := b.number, replayMode := true), b.txs, |b.txs|, b.hash, b.number, now, false);
    assert b.txs[..|b.txs|] == b.txs;
  }

  // ---- the invariant ------------------------------------------------------------------------------

  /** Hash functions never give the empty or the zero string. */
  ghost predicate GoodRoots(env: Env) {
    && Usable(env.genesisHash)
    && (forall a :: Usable(env.stateRoot(a)))
    && (forall r :: env.receiptRoot(r) != "")
  }

  /** A block whose transactions are placed and which declares their roots. */
  ghost predicate Sealed(env: Env, b: Block) {
    && Usable(b.hash)
    && b.txs == PlaceAll(b.txs, b.hash, b.number)
    && b.txRoot == env.txRoot(b.txs)
    && b.receiptRoot == env.receiptRoot(OutcomesOf(env, b.txs))
    && b.bloom == env.bloom(OutcomesOf(env, b.txs))
  }

  /** Block number h and the snapshot after it. */
  ghost predicate LinkOk(env: Env, s: State, h: nat) {
    && 1 <= h <= |s.blocks| && h in s.snapshots && h in s.canonical
    && s.canonical[h] == s.blocks[h - 1].hash
    && s.blocks[h - 1].number == h && Usable(s.blocks[h - 1].hash)
    && s.snapshots[h].height == h && s.snapshots[h].complete
    && (h > 1 ==>
          && h - 1 in s.snapshots
          && s.blocks[h - 1].parent == s.blocks[h - 2].hash
          && Bare(s.snapshots[h].accounts) == Bare(Run(env, s.snapshots[h - 1].accounts, s.blocks[h - 1].txs))
          && Sealed(env, s.blocks[h - 1]))
  }

  /** In every reachable state. */
  ghost predicate Consistent(env: Env, s: State) {
    && s.height >= 1 && |s.blocks| == s.height
    && (forall h: nat :: h in s.canonical ==> 1 <= h <= s.height)
    && (forall h: nat :: h in s.snapshots ==> 1 <= h <= s.height)
    && (forall h: nat :: 1 <= h <= s.height ==> LinkOk(env, s, h))
    && s.height in s.snapshots && Bare(s.accounts) == Bare(s.snapshots[s.height].accounts)
    && PlainOk(env, s.accounts.code)
    && 1 in s.snapshots && s.snapshots[1].accounts.code == NoCode()
    && !s.replayMode
  }

  /** Code and state root of block number h. */
  ghost predicate CodeOk(env: Env, s: State, h: nat) {
    1 < h <= |s.blocks| && h in s.snapshots && h - 1 in s.snapshots ==>
      && s.snapshots[h].accounts == Norm(Run(env, s.snapshots[h - 1].accounts, s.blocks[h - 1].txs))
      && s.blocks[h - 1].stateRoot == env.stateRoot(s.snapshots[h].accounts)
  }

  /** The live accounts and the snapshots are the fold of execution over the blocks, code included,
      and no address has two different codes. */
  ghost predicate Faithful(env: Env, s: State) {
    && Consistent(env, s)
    && (forall h: nat :: 1 <= h <= s.height ==> CodeOk(env, s, h))
    && Norm(s.accounts) == s.snapshots[s.height].accounts
    && !Clash(s.accounts.code)
  }

  /** A fresh node: the genesis block, its root taken before the opening balances are booked. */
  function Fresh(env: Env, balances: map<Address, int>, now: int): State {
    var genesis := Block(1, env.genesisHash, ZeroHash, env.stateRoot(NoAccounts()), ZeroHash, ZeroHash, ZeroHash, now, []);
    var accounts: Settled := NoAccounts().(balances := balances);
    State(1, [genesis], map[1 := genesis.hash], Indexed(map[], genesis, "local", now),
          map[1 := Snapshot(1, genesis.hash, genesis.stateRoot, true, accounts)], accounts,
          [], [], map[], [], map[], map[], PersistAll([], env.stateTries(NoAccounts()), 1), false)
  }

  lemma FreshFaithful(env: Env, balances: map<Address, int>, now: int)
    requires GoodRoots(env)
    ensures Faithful(env, Fresh(env, balances, now))
  {
    hide Indexed, PersistAll;
    var s := Fresh(env, balances, now);
    CopyOfSettled(s.accounts, {});
    assert LinkOk(env, s, 1);
  }

  // ---- growing the chain --------------------------------------------------------------------------

  /** What mining and importing have in common: one block on top, with the roots and the snapshot of
      the accounts after it as the walks of the moment give them. */
  ghost predicate Grows(env: Env, s: State, t: State, b: Block, now: Moment) {
    && t.height == s.height + 1 == b.number && t.blocks == s.blocks + [b] && !t.replayMode
    && t.canonical == s.canonical[b.number := b.hash]
    && t.snapshots == s.snapshots[b.number := Snapshot(b.number, b.hash, b.stateRoot, true, Copied(t.accounts, now.snapshot))]
    && t.accounts == Run(env, s.accounts, b.txs)
    && b.parent == LastHash(s) && Sealed(env, b) && b.stateRoot == env.stateRoot(Copied(t.accounts, now.root(b.number)))
  }

  lemma LinkKept(env: Env, s: State, t: State, b: Block, now: Moment, h: nat)
    requires Consistent(env, s) && Grows(env, s, t, b, now) && 1 <= h <= s.height
    ensures LinkOk(env, t, h)
  {
    hide Sealed, Run, Usable, Copied, Bare;
    assert LinkOk(env, s, h);
    assert t.blocks[h - 1] == s.blocks[h - 1];
    if h > 1 {
      assert LinkOk(env, s, h - 1);
    }
  }

  lemma GrowsConsistent(env: Env, s: State, t: State, b: Block, now: Moment)
    requires Consistent(env, s) && Grows(env, s, t, b, now)
    ensures Consistent(env, t)
  {
    hide LinkOk, Sealed, Run, Usable, Copied, Bare, PlainOk;
    forall h: nat | 1 <= h <= t.height
      ensures LinkOk(env, t, h)
    {
      if h <= s.height {
        LinkKept(env, s, t, b, now, h);
      } else {
        TopLink(env, s, t, b, now);
      }
    }
    assert LinkOk(env, t, t.height);
    RunPlainOk(env, s.accounts, b.txs);
    BareOfCopy(t.accounts, now.snapshot);
  }

  lemma TopLink(env: Env, s: State, t: State, b: Block, now: Moment)
    requires Consistent(env, s) && Grows(env, s, t, b, now)
    ensures LinkOk(env, t, t.height)
  {
    hide Run, Usable, Copied, Bare, PlaceAll, OutcomesOf;
    assert LinkOk(env, s, s.height);
    assert t.blocks[t.height - 1] == b && t.blocks[t.height - 2] == s.blocks[s.height - 1];
    assert Usable(b.hash);
    BareOfCopy(t.accounts, now.snapshot);
    BareRun(env, s.accounts, s.snapshots[s.height].accounts, b.txs);
  }

  lemma CodeKept(env: Env, s: State, t: State, b: Block, now: Moment, h: nat)
    requires Faithful(env, s) && Grows(env, s, t, b, now) && 1 <= h <= s.height
    ensures CodeOk(env, t, h)
  {
    hide Sealed, Run, Usable, Copied, Bare, Norm, PlainOk, LinkOk;
    assert CodeOk(env, s, h);
    assert t.blocks[h - 1] == s.blocks[h - 1];
  }

  /** A block that leaves no clash keeps the chain faithful. */
  lemma GrowsFaithful(env: Env, s: State, t: State, b: Block, now: Moment)
    requires Faithful(env, s) && Grows(env, s, t, b, now) && !Clash(t.accounts.code)
    ensures Faithful(env, t)
  {
    hide Sealed, Run, Usable, Copied, Bare, Norm, PlainOk, LinkOk, CodeOk, Clash;
    GrowsConsistent(env, s, t, b, now);
    CopyIffNoClash(t.accounts);
    NormRun(env, s.accounts, b.txs);
    assert Copied(t.accounts, now.snapshot) == Norm(t.accounts) && Copied(t.accounts, now.root(b.number)) == Norm(t.accounts);
    assert t.snapshots[t.height].accounts == Norm(t.accounts);
    forall h: nat | 1 <= h <= t.height
      ensures CodeOk(env, t, h)
    {
      if h <= s.height {
        CodeKept(env, s, t, b, now, h);
      } else {
        TopCode(env, s, t, b, now);
      }
    }
  }

  lemma TopCode(env: Env, s: State, t: State, b: Block, now: Moment)
    requires Faithful(env, s) && Grows(env, s, t, b, now)
    requires Copied(t.accounts, now.snapshot) == Norm(t.accounts) && Copied(t.accounts, now.root(b.number)) == Norm(t.accounts)
    ensures CodeOk(env, t, t.height)
  {
    hide Sealed, Run, Usable, Copied, Bare, Norm, PlainOk, LinkOk, Clash;
    NormRun(env, s.accounts, b.txs);
    assert t.blocks[t.height - 1] == b;
    assert t.snapshots[t.height - 1] == s.snapshots[s.height];
  }

  /** Mining adds one sealed block holding the pool. */
  lemma MinedGrows(env: Env, s: State, hash: Hash, now: Moment)
    requires Consistent(env, s) && Usable(hash)
    ensures var t := Mined(env, s, hash, now);
      && t.blocks != [] && Grows(env, s, t, t.blocks[|t.blocks| - 1], now)
      && t.blocks[|t.blocks| - 1].txs == PlaceAll(s.pool, hash, s.height + 1) && t.pool == []
      && t.blocks[|t.blocks| - 1].hash == hash
      && t.index == Indexed(s.index, t.blocks[|t.blocks| - 1], "local", now.time)
      && t.accounts == Run(env, s.accounts, s.pool)
  {
    hide Passed, Run, SeenAll, OutcomesOf, PlaceAll, PersistAll, Indexed, Usable, LinkOk, Copied, Bare;
    var n := |s.pool|;
    var p := Passed(env, s.(pool := []), s.pool, n, hash, s.height + 1, now, true);
    PassedFacts(env, s.(pool := []), s.pool, n, hash, s.height + 1, now, true);
    assert s.pool[..n] == s.pool;
    var mined := PlaceAll(s.pool, hash, s.height + 1);
    StripOfPlaced(s.pool, hash, s.height + 1);
    RunIgnoresPlace(env, s.accounts, s.pool, mined);
    OutcomesIgnorePlace(env, s.pool, mined);
    var t := Mined(env, s, hash, now);
    var b := MinedBlock(env, s, p, s.pool, hash, now);
    assert t.blocks == s.blocks + [b];
  }

  lemma MinedConsistent(env: Env, s: State, hash: Hash, now: Moment)
    requires Consistent(env, s) && Usable(hash)
    ensures Consistent(env, Mined(env, s, hash, now))
  {
    hide Consistent, Grows, Mined, Usable, Run;
    MinedGrows(env, s, hash, now);
    var t := Mined(env, s, hash, now);
    GrowsConsistent(env, s, t, t.blocks[|t.blocks| - 1], now);
  }

  /** The live accounts clash after mining exactly when the pool redeploys. */
  lemma MinedClashIff(env: Env, s: State, hash: Hash, now: Moment)
    requires Faithful(env, s) && Usable(hash)
    ensures Clash(Mined(env, s, hash, now).accounts.code) <==> Redeploys(env, s.accounts.code, s.pool)
  {
    hide Mined, Run, Usable, Clash, Redeploys, LinkOk, CodeOk, PlaceAll, Grows, Indexed, PlainOk, Norm;
    MinedGrows(env, s, hash, now);
    ClashIff(env, s.accounts, s.pool);
  }

  lemma MinedFaithful(env: Env, s: State, hash: Hash, now: Moment)
    requires Faithful(env, s) && Usable(hash) && !Redeploys(env, s.accounts.code, s.pool)
    ensures Faithful(env, Mined(env, s, hash, now))
  {
    hide Consistent, Grows, Mined, Usable, Run, Redeploys, Clash, CodeOk, Norm;
    MinedGrows(env, s, hash, now);
    MinedClashIff(env, s, hash, now);
    var t := Mined(env, s, hash, now);
    GrowsFaithful(env, s, t, t.blocks[|t.blocks| - 1], now);
  }

  lemma SubmittedConsistent(env: Env, s: State, tx: Tx, autoMine: bool, hash: Hash, now: Moment)
    requires Consistent(env, s) && Usable(hash)
    ensures Consistent(env, Submitted(env, s, tx, autoMine, hash, now))
  {
    hide Mined, Usable, LinkOk, Bare, PlainOk;
    var s1 := s.(pool := s.pool + [tx]);
    assert Consistent(env, s1) by { SameLinks(env, s, s1); }
    if autoMine {
      MinedConsistent(env, s1, hash, now);
    }
  }

  lemma SameLinks(env: Env, s: State, t: State)
    requires Consistent(env, s)
    requires t.height == s.height && t.blocks == s.blocks && t.canonical == s.canonical && t.snapshots == s.snapshots
    requires Bare(t.accounts) == Bare(s.accounts) && PlainOk(env, t.accounts.code) && !t.replayMode
    ensures Consistent(env, t)
  {
    hide Sealed, Run, Usable, Bare, PlainOk;
    forall h: nat | 1 <= h <= t.height
      ensures LinkOk(env, t, h)
    {
      assert LinkOk(env, s, h);
    }
  }

  lemma SameCode(env: Env, s: State, t: State)
    requires Faithful(env, s) && Consistent(env, t)
    requires t.height == s.height && t.blocks == s.blocks && t.snapshots == s.snapshots
    requires Norm(t.accounts) == Norm(s.accounts) && !Clash(t.accounts.code)
    ensures Faithful(env, t)
  {
    hide Sealed, Run, Usable, Bare, PlainOk, LinkOk, Norm, Clash;
    forall h: nat | 1 <= h <= t.height
      ensures CodeOk(env, t, h)
    {
      assert CodeOk(env, s, h);
    }
  }

  /** A restore keeps the chain consistent, and faithful if it was. */
  lemma RestoredKeeps(env: Env, s: State, now: Moment)
    requires Consistent(env, s)
    ensures Consistent(env, Restored(s, now))
    ensures Faithful(env, s) ==> Faithful(env, Restored(s, now))
  {
    hide Consistent, Copied, Bare, Clash, LinkOk, CodeOk, Norm;
    var t := Restored(s, now);
    BareOfCopy(s.accounts, now.saved);
    assert Consistent(env, t) by { RestoredConsistent(env, s, now); }
    if Faithful(env, s) {
      CopyIffNoClash(s.accounts);
      NormOfCopy(s.accounts, now.saved);
      CopyOfSettled(Copied(s.accounts, now.saved), {});
      SameCode(env, s, t);
    }
  }

  lemma RestoredConsistent(env: Env, s: State, now: Moment)
    requires Consistent(env, s)
    ensures Consistent(env, Restored(s, now))
  {
    hide LinkOk, Bare, Merged;
    BareOfCopy(s.accounts, now.saved);
    SameLinks(env, s, Restored(s, now));
  }

  /** Accepting what a peer sends: the block validates at the next height and replays. */
  ghost predicate Accepted(env: Env, s: State, b: Block, now: Moment) {
    PeerBlockOk(env, s, b, s.height + 1) && Replays(env, s, b, now)
  }

  lemma {:induction false} KeptFacts(s: State, mined: seq<Tx>, receipts: seq<Receipt>, n: nat)
    requires n <= |mined| == |receipts|
    ensures SameChain(s, Kept(s, mined, receipts, n)) && Kept(s, mined, receipts, n).accounts == s.accounts
  {
    hide Known;
    if n > 0 {
      KeptFacts(s, mined, receipts, n - 1);
    }
  }

  /** So does importing: the peer's block with its transactions placed and its roots filled in. */
  lemma ImportedGrows(env: Env, s: State, b: Block, now: Moment)
    requires Consistent(env, s) && Accepted(env, s, b, now)
    ensures var t := Imported(env, s, b, now);
      && t.blocks != [] && Grows(env, s, t, t.blocks[|t.blocks| - 1], now)
      && t.blocks[|t.blocks| - 1].txs == PlaceAll(b.txs, b.hash, b.number)
      && t.blocks[|t.blocks| - 1].hash == b.hash && t.pool == s.pool
      && t.index == Indexed(s.index, t.blocks[|t.blocks| - 1], "peer", now.time)
      && t.accounts == Run(env, s.accounts, b.txs)
  {
    hide Replayed, Run, SeenAll, OutcomesOf, PlaceAll, PersistAll, Indexed, Kept, Copied, Bare;
    var p := Replayed(env, s, b, now);
    ReplayedFacts(env, s, b, now);
    var c := Completed(env, b, p.receipts);
    StripOfPlaced(b.txs, b.hash, b.number);
    RunIgnoresPlace(env, s.accounts, b.txs, c.txs);
    OutcomesIgnorePlace(env, b.txs, c.txs);
    var linked := Linked(WithReceiptTries(env, p.state.(replayMode := s.replayMode), SeenAll(p.receipts)), c, "peer", now);
    KeptFacts(linked, c.txs, p.receipts, |c.txs|);
    var t := Imported(env, s, b, now);
    assert LinkOk(env, s, s.height);
    assert HashAt(s.canonical, s.height) == s.blocks[s.height - 1].hash == LastHash(s);
    assert t.blocks == s.blocks + [c];
  }

  lemma ImportedConsistent(env: Env, s: State, b: Block, now: Moment)
    requires Consistent(env, s) && Accepted(env, s, b, now)
    ensures Consistent(env, Imported(env, s, b, now))
  {
    hide Consistent, Grows, Imported, Accepted, Run;
    ImportedGrows(env, s, b, now);
    var t := Imported(env, s, b, now);
    GrowsConsistent(env, s, t, t.blocks[|t.blocks| - 1], now);
  }

  /** The live accounts clash after importing exactly when the block redeploys. */
  lemma ImportedClashIff(env: Env, s: State, b: Block, now: Moment)
    requires Faithful(env, s) && Accepted(env, s, b, now)
    ensures Clash(Imported(env, s, b, now).accounts.code) <==> Redeploys(env, s.accounts.code, b.txs)
  {
    hide Imported, Run, Accepted, Clash, Redeploys, LinkOk, CodeOk, PlaceAll, Grows, Indexed, PlainOk, Norm;
    ImportedGrows(env, s, b, now);
    ClashIff(env, s.accounts, b.txs);
  }

  lemma ImportedFaithful(env: Env, s: State, b: Block, now: Moment)
    requires Faithful(env, s) && Accepted(env, s, b, now) && !Redeploys(env, s.accounts.code, b.txs)
    ensures Faithful(env, Imported(env, s, b, now))
  {
    hide Consistent, Grows, Imported, Accepted, Run, Redeploys, Clash, CodeOk, Norm;
    ImportedGrows(env, s, b, now);
    ImportedClashIff(env, s, b, now);
    var t := Imported(env, s, b, now);
    GrowsFaithful(env, s, t, t.blocks[|t.blocks| - 1], now);
  }
}
