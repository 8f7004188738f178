/**
 Audits. `replayChain` accepts a chain exactly when every block above genesis follows its
 predecessor and declares the roots of executing all blocks in order on the genesis accounts.
 Every faithful chain passes in full, whatever the order of the walks. A block of it validates on
 its own, whatever the order, exactly when it does not redeploy over the snapshot below it; and the
 chain still passes after mining, whatever the order, exactly when the pool does not redeploy over
 the live accounts.
 */
module ChainAudit {
  import opened Ledger
  import opened CodeKeys
  import opened Chain
  import opened ChainLaws

  /** The accounts after the first n blocks, the first being genesis. */
  function AfterBlocks(env: Env, a: Accounts, blocks: seq<Block>, n: nat): Accounts
    requires 1 <= n <= |blocks|
  {
    if n == 1 then a else Run(env, AfterBlocks(env, a, blocks, n - 1), blocks[n - 1].txs)
  }

  /** The declared roots are those of an execution whose accounts were copied as given. */
  predicate Declares(env: Env, b: Block, after: Settled) {
    && b.stateRoot == env.stateRoot(after)
    && Agrees(b.txRoot, env.txRoot(PlaceAll(b.txs, b.hash, b.number)))
    && Agrees(b.receiptRoot, env.receiptRoot(OutcomesOf(env, b.txs)))
    && (b.bloom == ZeroHash || Agrees(b.bloom, env.bloom(OutcomesOf(env, b.txs))))
  }

  /** Block i follows its predecessor and declares the right roots. */
  predicate BlockSound(env: Env, a: Accounts, blocks: seq<Block>, i: nat, now: Moment)
    requires 1 <= i < |blocks|
  {
    && blocks[i].number == blocks[0].number + i && blocks[i].parent == blocks[i - 1].hash
    && Declares(env, blocks[i], Copied(AfterBlocks(env, a, blocks, i + 1), now.root(blocks[i].number)))
  }

  /** A replay's comparison of roots, without the replay. */
  lemma ReplaysIff(env: Env, s: State, b: Block, now: Moment)
    ensures Replays(env, s, b, now) <==> Declares(env, b, Copied(Run(env, s.accounts, b.txs), now.root(b.number)))
  {
    hide Replayed, Run, PlaceAll, OutcomesOf, SeenAll, Agrees, Copied;
    ReplayedFacts(env, s, b, now);
  }

  lemma {:induction false} AuditedFacts(s: State, mined: seq<Tx>, receipts: seq<Receipt>, n: nat)
    requires n <= |mined| == |receipts|
    ensures SameChain(s, Audited(s, mined, receipts, n)) && Audited(s, mined, receipts, n).accounts == s.accounts
  {
    hide Recorded;
    if n > 0 {
      AuditedFacts(s, mined, receipts, n - 1);
      RecordedFacts(Audited(s, mined, receipts, n - 1), mined[n - 1], receipts[n - 1]);
    }
  }

  /** The audit checks block after block and stops at the first unsound one. */
  lemma {:induction false} AuditToMeaning(env: Env, start: State, blocks: seq<Block>, n: nat, now: Moment)
    requires 1 <= n <= |blocks|
    ensures var a, r := start.accounts, AuditTo(env, start, blocks, n, now);
      && r.checked < n
      && (forall i :: 1 <= i <= r.checked ==> BlockSound(env, a, blocks, i, now))
      && (r.valid <==> r.checked == n - 1)
      && (!r.valid ==> !BlockSound(env, a, blocks, r.checked + 1, now))
      && (r.valid ==> r.state.accounts == AfterBlocks(env, a, blocks, n))
  {
    hide Replayed, Run, PlaceAll, RootsAgree, Declares, Audited, Copied;
    if n > 1 {
      AuditToMeaning(env, start, blocks, n - 1, now);
      var r, b := AuditTo(env, start, blocks, n - 1, now), blocks[n - 1];
      var p := Replayed(env, r.state, b, now);
      ReplaysIff(env, r.state, b, now);
      ReplayedFacts(env, r.state, b, now);
      AuditedFacts(p.state, PlaceAll(b.txs, b.hash, b.number), p.receipts, |b.txs|);
    }
  }

  /** There is a complete genesis snapshot and every block above it is sound. */
  ghost predicate AllSound(env: Env, s: State, now: Moment) {
    Auditable(s) && forall i :: 1 <= i < |s.blocks| ==> BlockSound(env, s.snapshots[s.blocks[0].number].accounts, s.blocks, i, now)
  }

  /** `replayChain` says valid exactly when there is a complete genesis snapshot and every block
      above it is sound; it reports how many blocks passed before the first unsound one. */
  lemma AuditMeaning(env: Env, s: State, now: Moment)
    ensures var r := AuditResult(env, s, now);
      && (r.0 <==> AllSound(env, s, now))
      && (r.0 ==> r.1 == |s.blocks| - 1)
      && (!r.0 && Auditable(s) ==>
            r.1 + 1 < |s.blocks| && !BlockSound(env, s.snapshots[s.blocks[0].number].accounts, s.blocks, r.1 + 1, now))
  {
    hide AuditTo, BlockSound;
    if Auditable(s) {
      AuditToMeaning(env, AuditStart(s, s.snapshots[s.blocks[0].number]), s.blocks, |s.blocks|, now);
    }
  }

  // ---- faithful chains ----------------------------------------------------------------------------

  /** The audit's accounts start without code, so they never clash. */
  lemma {:induction false} FoldPlain(env: Env, a: Settled, blocks: seq<Block>, n: nat)
    requires a.code == NoCode() && 1 <= n <= |blocks|
    ensures var c := AfterBlocks(env, a, blocks, n).code; !Clash(c) && OnlyPlain(env, c) && PlainOk(env, c)
  {
    hide Run, Clash;
    if n == 1 {
      CopyOfSettled(a, {});
    } else {
      FoldPlain(env, a, blocks, n - 1);
      RunOnlyPlain(env, AfterBlocks(env, a, blocks, n - 1), blocks[n - 1].txs);
    }
  }

  /** In a faithful chain the snapshots are, up to spelling, the fold of execution over the blocks. */
  lemma {:induction false} SnapshotIsFold(env: Env, s: State, n: nat)
    requires Faithful(env, s) && 1 <= n <= s.height
    ensures n in s.snapshots && s.snapshots[n].accounts == Norm(AfterBlocks(env, s.snapshots[1].accounts, s.blocks, n))
  {
    hide Run, Sealed, Usable, Norm, Bare, Clash, PlainOk, OnlyPlain;
    assert LinkOk(env, s, n);
    var g := s.snapshots[1].accounts;
    if n == 1 {
      CopyOfSettled(g, {});
    } else {
      SnapshotIsFold(env, s, n - 1);
      assert CodeOk(env, s, n);
      FoldPlain(env, g, s.blocks, n - 1);
      NormRun(env, AfterBlocks(env, g, s.blocks, n - 1), s.blocks[n - 1].txs);
    }
  }

  /** The state root the audit expects of block i. */
  ghost predicate RootRight(env: Env, s: State, i: nat)
    requires 1 <= i < |s.blocks| && 1 in s.snapshots
  {
    s.blocks[i].stateRoot == env.stateRoot(Norm(AfterBlocks(env, s.snapshots[1].accounts, s.blocks, i + 1)))
  }

  lemma SoundIff(env: Env, s: State, i: nat, now: Moment)
    requires Consistent(env, s) && 1 <= i < |s.blocks|
    ensures BlockSound(env, s.snapshots[1].accounts, s.blocks, i, now) <==> RootRight(env, s, i)
  {
    hide Run, Sealed, Usable, Declares, AfterBlocks, Norm, Copied, Clash, Bare, PlainOk, OnlyPlain;
    assert LinkOk(env, s, i + 1) && LinkOk(env, s, 1) && LinkOk(env, s, i);
    var a := AfterBlocks(env, s.snapshots[1].accounts, s.blocks, i + 1);
    FoldPlain(env, s.snapshots[1].accounts, s.blocks, i + 1);
    CopyIffNoClash(a);
    SealedDeclares(env, s.blocks[i], Norm(a));
  }

  /** In every reachable state the audit's verdict does not depend on the order of its walks: it is
      valid exactly when every block declares the root of the fold with the newer code keys. */
  lemma AuditIffRootsRight(env: Env, s: State, now: Moment)
    requires Consistent(env, s)
    ensures AuditResult(env, s, now).0 <==> forall i :: 1 <= i < |s.blocks| ==> RootRight(env, s, i)
    ensures AuditResult(env, s, now).0 ==> AuditResult(env, s, now).1 == s.height - 1
  {
    hide AuditResult, BlockSound, Run, Sealed, Usable, RootRight, Bare, PlainOk;
    assert LinkOk(env, s, 1);
    AuditMeaning(env, s, now);
    forall i | 1 <= i < |s.blocks|
      ensures BlockSound(env, s.snapshots[1].accounts, s.blocks, i, now) <==> RootRight(env, s, i)
    {
      SoundIff(env, s, i, now);
    }
  }

  lemma SealedDeclares(env: Env, b: Block, after: Settled)
    requires Sealed(env, b)
    ensures Declares(env, b, after) <==> b.stateRoot == env.stateRoot(after)
  {
    hide PlaceAll, OutcomesOf;
  }

  lemma CanonicalRootRight(env: Env, s: State, i: nat)
    requires Faithful(env, s) && 1 <= i < |s.blocks|
    ensures RootRight(env, s, i)
  {
    hide Run, Sealed, Usable, AfterBlocks, Norm, Clash, Bare, PlainOk;
    assert LinkOk(env, s, i + 1) && LinkOk(env, s, i) && CodeOk(env, s, i + 1);
    SnapshotIsFold(env, s, i + 1);
  }

  /** In every faithful state the audit succeeds, whatever the order of the walks, and has checked
      every block above genesis. */
  lemma AuditSucceeds(env: Env, s: State, now: Moment)
    requires Faithful(env, s)
    ensures AuditResult(env, s, now) == (true, s.height - 1)
  {
    hide AuditResult, RootRight, Norm, Bare, Clash, CodeOk, LinkOk, PlainOk;
    AuditIffRootsRight(env, s, now);
    forall i | 1 <= i < |s.blocks|
      ensures RootRight(env, s, i)
    {
      CanonicalRootRight(env, s, i);
    }
  }

  /** A record validates exactly when its parent is canonical and its roots are those of executing it
      on the parent's snapshot. */
  lemma RecordValidIff(env: Env, s: State, b: Block, now: Moment)
    ensures RecordValid(env, s, b, now) <==>
      && b.number > 1 && Usable(b.hash) && Usable(b.stateRoot) && b.receiptRoot != ""
      && b.number - 1 in s.canonical && s.canonical[b.number - 1] != "" && b.parent == s.canonical[b.number - 1]
      && b.number - 1 in s.snapshots && s.snapshots[b.number - 1].complete
      && Declares(env, b, Copied(Run(env, s.snapshots[b.number - 1].accounts, b.txs), now.root(b.number)))
  {
    hide Run, RootsAgree, Declares, Replayed, Usable, Copied, Replays;
    if b.number > 1 && b.number - 1 in s.snapshots {
      ReplaysIff(env, Rewound(s, s.snapshots[b.number - 1]), b, now);
    }
  }

  /** A peer's block is accepted exactly when it has usable hashes, comes next after the last block,
      declares the roots of executing it on the live accounts, and its transaction root, if it has
      one, is that of its transactions both as sent and as placed. */
  lemma AcceptedIff(env: Env, s: State, b: Block, now: Moment)
    requires Consistent(env, s)
    ensures Accepted(env, s, b, now) <==>
      && Usable(b.hash) && Usable(b.stateRoot) && b.receiptRoot != ""
      && b.number == s.height + 1 && b.parent == s.blocks[s.height - 1].hash
      && (b.txRoot == "" || b.txRoot == env.txRoot(b.txs) == env.txRoot(PlaceAll(b.txs, b.hash, b.number)))
      && b.stateRoot == env.stateRoot(Copied(Run(env, s.accounts, b.txs), now.root(b.number)))
      && b.receiptRoot == env.receiptRoot(OutcomesOf(env, b.txs))
      && (b.bloom == "" || b.bloom == ZeroHash || b.bloom == env.bloom(OutcomesOf(env, b.txs)))
  {
    hide Run, Copied, Replays, PlaceAll, OutcomesOf, ZeroHash, Bare, PlainOk, Sealed;
    ReplaysIff(env, s, b, now);
    assert LinkOk(env, s, s.height);
    NextIsFree(env, s);
  }

  lemma NextIsFree(env: Env, s: State)
    requires Consistent(env, s)
    ensures HashAt(s.canonical, s.height + 1) == ""
  {
    hide LinkOk, Bare, PlainOk;
  }

  /** A canonical block validates exactly when the walk of its replay gives the snapshot after it. */
  lemma CanonicalRecord(env: Env, s: State, h: nat, now: Moment)
    requires GoodRoots(env) && Faithful(env, s) && 2 <= h <= s.height && h - 1 in s.snapshots && h in s.snapshots
    ensures var replayed := Copied(Run(env, s.snapshots[h - 1].accounts, s.blocks[h - 1].txs), now.root(h));
      RecordValid(env, s, s.blocks[h - 1], now) <==> env.stateRoot(s.snapshots[h].accounts) == env.stateRoot(replayed)
  {
    hide Run, Declares, Norm, Copied, OutcomesOf, PlaceAll, Bare, Clash, RecordValid;
    assert LinkOk(env, s, h) && LinkOk(env, s, h - 1) && CodeOk(env, s, h);
    RecordValidIff(env, s, s.blocks[h - 1], now);
    SealedDeclares(env, s.blocks[h - 1], Copied(Run(env, s.snapshots[h - 1].accounts, s.blocks[h - 1].txs), now.root(h)));
  }

  /** Snapshots have no mixed-case keys, so nothing clashes in them. */
  lemma SnapshotSettled(env: Env, a: Settled)
    ensures !Clash(a.code) && PlainOk(env, a.code)
  {
  }

  /** A canonical block that does not redeploy over the snapshot below it validates. */
  lemma CanonicalBlockValid(env: Env, s: State, h: nat, now: Moment)
    requires GoodRoots(env) && Faithful(env, s) && 2 <= h <= s.height && h - 1 in s.snapshots
    requires !Redeploys(env, s.snapshots[h - 1].accounts.code, s.blocks[h - 1].txs)
    ensures RecordValid(env, s, s.blocks[h - 1], now)
  {
    hide Run, Norm, Copied, Bare, Clash, RecordValid, Redeploys, PlainOk, Sealed, Usable, GoodRoots;
    assert LinkOk(env, s, h) && CodeOk(env, s, h);
    var below, txs := s.snapshots[h - 1].accounts, s.blocks[h - 1].txs;
    SnapshotSettled(env, below);
    ClashIff(env, below, txs);
    CopyIffNoClash(Run(env, below, txs));
    CanonicalRecord(env, s, h, now);
  }

  /** Accounts with different code have different roots. */
  ghost predicate RootsTellCode(env: Env) {
    forall a: Settled, b: Settled :: env.stateRoot(a) == env.stateRoot(b) ==> a.code == b.code
  }

  /** A moment in which every walk visits the lower-case keys last. */
  function LowerLast(time: int): Moment {
    Moment(time, n => {}, (n, i) => {}, {}, {})
  }

  /** A canonical block validates whatever the order of the walk exactly when none of its deployments
      leaves, at an address where the snapshot below holds code, a different code. */
  lemma CanonicalBlockValidIff(env: Env, s: State, h: nat, b: Block)
    requires GoodRoots(env) && RootsTellCode(env) && Faithful(env, s)
    requires 2 <= h <= s.height && h - 1 in s.snapshots && b == s.blocks[h - 1]
    ensures (forall now :: RecordValid(env, s, b, now)) <==> !Redeploys(env, s.snapshots[h - 1].accounts.code, b.txs)
    ensures Redeploys(env, s.snapshots[h - 1].accounts.code, b.txs) ==> forall time :: !RecordValid(env, s, b, LowerLast(time))
  {
    hide Run, Norm, Copied, Bare, Clash, RecordValid, Redeploys, PlainOk, Sealed, Usable, GoodRoots, LinkOk, CodeOk;
    if !Redeploys(env, s.snapshots[h - 1].accounts.code, b.txs) {
      forall now
        ensures RecordValid(env, s, b, now)
      {
        CanonicalBlockValid(env, s, h, now);
      }
    } else {
      forall time
        ensures !RecordValid(env, s, b, LowerLast(time))
      {
        RedeployingRecord(env, s, h, time);
      }
      assert !RecordValid(env, s, b, LowerLast(0));
    }
  }

  lemma RedeployingRecord(env: Env, s: State, h: nat, time: int)
    requires GoodRoots(env) && RootsTellCode(env) && Faithful(env, s) && 2 <= h <= s.height && h - 1 in s.snapshots
    requires Redeploys(env, s.snapshots[h - 1].accounts.code, s.blocks[h - 1].txs)
    ensures !RecordValid(env, s, s.blocks[h - 1], LowerLast(time))
  {
    hide Run, Norm, Copied, Bare, Clash, RecordValid, Redeploys, PlainOk, Sealed, Usable, GoodRoots;
    assert LinkOk(env, s, h) && CodeOk(env, s, h);
    var below, txs := s.snapshots[h - 1].accounts, s.blocks[h - 1].txs;
    SnapshotSettled(env, below);
    ClashIff(env, below, txs);
    CopyIffNoClash(Run(env, below, txs));
    CanonicalRecord(env, s, h, LowerLast(time));
  }

  // ---- one more block -------------------------------------------------------------------------------

  /** A block on top of a faithful chain passes the audit exactly when it declares the root of the
      copy in which the newer keys win. */
  lemma GrownAuditIff(env: Env, s: State, t: State, b: Block, now: Moment, later: Moment)
    requires Faithful(env, s) && Grows(env, s, t, b, now)
    ensures AuditResult(env, t, later).0 <==> b.stateRoot == env.stateRoot(Norm(t.accounts))
  {
    hide AuditResult, RootRight, Run, Sealed, Usable, Norm, Bare, Clash, CodeOk, Copied, PlainOk, LinkOk;
    GrowsConsistent(env, s, t, b, now);
    AuditIffRootsRight(env, t, later);
    forall i | 1 <= i < |s.blocks|
      ensures RootRight(env, t, i)
    {
      CanonicalRootRight(env, s, i);
      SameRootRight(env, s, t, b, i);
    }
    TopRootRight(env, s, t, b, now);
  }

  lemma {:induction false} SameFold(env: Env, a: Accounts, blocks: seq<Block>, b: Block, n: nat)
    requires 1 <= n <= |blocks|
    ensures AfterBlocks(env, a, blocks + [b], n) == AfterBlocks(env, a, blocks, n)
  {
    hide Run;
    if n > 1 {
      SameFold(env, a, blocks, b, n - 1);
    }
  }

  lemma SameRootRight(env: Env, s: State, t: State, b: Block, i: nat)
    requires 1 <= i < |s.blocks| && 1 in s.snapshots && RootRight(env, s, i)
    requires t.blocks == s.blocks + [b] && 1 in t.snapshots && t.snapshots[1] == s.snapshots[1]
    ensures RootRight(env, t, i)
  {
    hide AfterBlocks, Norm;
    SameFold(env, s.snapshots[1].accounts, s.blocks, b, i + 1);
  }

  lemma TopRootRight(env: Env, s: State, t: State, b: Block, now: Moment)
    requires Faithful(env, s) && Grows(env, s, t, b, now)
    ensures RootRight(env, t, s.height) <==> b.stateRoot == env.stateRoot(Norm(t.accounts))
  {
    hide Run, Sealed, Usable, Norm, Bare, Clash, CodeOk, Copied, PlainOk, OnlyPlain, LinkOk;
    var g := s.snapshots[1].accounts;
    var a := AfterBlocks(env, g, s.blocks, s.height);
    SnapshotIsFold(env, s, s.height);
    SameFold(env, g, s.blocks, b, s.height);
    assert t.blocks[s.height] == b && t.snapshots[1] == s.snapshots[1];
    FoldPlain(env, g, s.blocks, s.height);
    NormRun(env, a, b.txs);
    NormRun(env, s.accounts, b.txs);
  }

  /** After mining on a faithful chain, the audit succeeds whatever the order of the walks exactly when
      the pool does not redeploy over the live accounts. */
  lemma MineThenAuditIff(env: Env, s: State, hash: Hash)
    requires RootsTellCode(env) && Faithful(env, s) && Usable(hash)
    ensures (forall now, later :: AuditResult(env, Mined(env, s, hash, now), later).0) <==> !Redeploys(env, s.accounts.code, s.pool)
    ensures Redeploys(env, s.accounts.code, s.pool) ==>
      forall time, later :: !AuditResult(env, Mined(env, s, hash, LowerLast(time)), later).0
  {
    hide AuditResult, Mined, Redeploys, Faithful, Usable;
    if !Redeploys(env, s.accounts.code, s.pool) {
      forall now, later
        ensures AuditResult(env, Mined(env, s, hash, now), later).0
      {
        MinedFaithful(env, s, hash, now);
        AuditSucceeds(env, Mined(env, s, hash, now), later);
      }
    } else {
      forall time, later
        ensures !AuditResult(env, Mined(env, s, hash, LowerLast(time)), later).0
      {
        RedeployingMine(env, s, hash, time, later);
      }
      assert !AuditResult(env, Mined(env, s, hash, LowerLast(0)), LowerLast(0)).0;
    }
  }

  lemma RedeployingMine(env: Env, s: State, hash: Hash, time: int, later: Moment)
    requires RootsTellCode(env) && Faithful(env, s) && Usable(hash) && Redeploys(env, s.accounts.code, s.pool)
    ensures !AuditResult(env, Mined(env, s, hash, LowerLast(time)), later).0
  {
    hide AuditResult, Mined, Redeploys, Usable, Norm, Copied, Bare, Clash, CodeOk, LinkOk, PlaceAll, Indexed, Run, Sealed;
    var now := LowerLast(time);
    var t := Mined(env, s, hash, now);
    MinedGrows(env, s, hash, now);
    MinedClashIff(env, s, hash, now);
    CopyIffNoClash(t.accounts);
    GrownAuditIff(env, s, t, t.blocks[|t.blocks| - 1], now, later);
  }
}
