/**
 Runs and contract code. A run is clean when no block it mines or imports redeploys over a
 lower-case key of the live accounts; such keys come from restored snapshots, so a run without
 audits, validations, refused blocks and reorganisations is always clean. After a clean run the
 audit succeeds whatever the order of the walks.
 */
module CleanRuns {
  import opened Ledger
  import opened CodeKeys
  import opened Chain
  import opened ChainLaws
  import opened ChainAudit
  import opened Reorg
  import opened Runs

  /** The transactions a request would execute on the live accounts. */
  ghost function Executes(env: Env, s: State, a: Action): seq<Tx> {
    match a
    case Submit(tx, autoMine, _, _) => if autoMine then s.pool + [tx] else []
    case Mine(_, _) => s.pool
    case PeerBlock(b, now) => if Accepted(env, s, b, now) then b.txs else []
    case _ => []
  }

  ghost predicate CleanAction(env: Env, s: State, a: Action) {
    !Redeploys(env, s.accounts.code, Executes(env, s, a))
  }

  ghost predicate CleanRun(env: Env, s: State, actions: seq<Action>) {
    forall i :: 0 <= i < |actions| ==> CleanAction(env, AfterAll(env, s, actions[..i]), actions[i])
  }

  lemma PoolFaithful(env: Env, s: State, t: State)
    requires Faithful(env, s) && t == s.(pool := t.pool)
    ensures Faithful(env, t)
  {
    hide Consistent, Norm, Clash, CodeOk;
    PoolGrows(env, s, t);
    SameCode(env, s, t);
  }

  lemma AfterFaithful(env: Env, s: State, a: Action)
    requires Faithful(env, s) && Drawn(a) && CleanAction(env, s, a)
    ensures Faithful(env, After(env, s, a))
  {
    hide Faithful, Mined, Imported, Reorged, Accepted, CanReorg, Usable, Restored, Examined, PeerBlockOk, Redeploys;
    assert Consistent(env, s) by { FaithfulIsConsistent(env, s); }
    match a
    case Submit(tx, autoMine, hash, now) =>
      var s1 := s.(pool := s.pool + [tx]);
      PoolFaithful(env, s, s1);
      if autoMine {
        MinedFaithful(env, s1, hash, now);
      }
    case Mine(hash, now) => MinedFaithful(env, s, hash, now);
    case PeerBlock(b, now) =>
      if Accepted(env, s, b, now) {
        ImportedFaithful(env, s, b, now);
      } else {
        RestoredKeeps(env, s, now);
      }
    case Reorganise(h, newHash) =>
      if CanReorg(s, h, newHash) {
        ReorgedConsistent(env, s, h, newHash);
      }
    case AuditChain(now) => RestoredKeeps(env, s, now);
    case Validate(b, now) => RestoredKeeps(env, s, now);
  }

  lemma FaithfulIsConsistent(env: Env, s: State)
    requires Faithful(env, s)
    ensures Consistent(env, s)
  {
    hide Consistent;
  }

  lemma {:induction false} RunFaithful(env: Env, s: State, actions: seq<Action>)
    requires Faithful(env, s) && AllDrawn(actions) && CleanRun(env, s, actions)
    ensures Faithful(env, AfterAll(env, s, actions))
  {
    hide Faithful, After, Drawn, CleanAction;
    if actions != [] {
      var n := |actions| - 1;
      var front := actions[..n];
      forall i | 0 <= i < n
        ensures CleanAction(env, AfterAll(env, s, front[..i]), front[i])
      {
        assert front[..i] == actions[..i];
      }
      RunFaithful(env, s, front);
      assert CleanAction(env, AfterAll(env, s, actions[..n]), actions[n]);
      AfterFaithful(env, AfterAll(env, s, front), actions[n]);
    }
  }

  /** After a clean run from a fresh node the audit is valid with every block above genesis checked,
      whatever the order of its walks. Each of those blocks validates whatever the order exactly when
      it does not redeploy over the snapshot below it. */
  lemma CleanRunAudits(env: Env, balances: map<Address, int>, start: int, actions: seq<Action>, later: Moment)
    requires GoodRoots(env) && RootsTellCode(env) && AllDrawn(actions) && CleanRun(env, Fresh(env, balances, start), actions)
    ensures var s := AfterAll(env, Fresh(env, balances, start), actions);
      && Consistent(env, s) && AuditResult(env, s, later) == (true, s.height - 1)
      && forall i :: 1 <= i < |s.blocks| ==> i in s.snapshots && BlockValidIff(env, s, s.blocks[i], s.snapshots[i].accounts)
  {
    hide GoodRoots, RootsTellCode, Fresh, AfterAll, AuditResult, AllDrawn, CleanRun, LinkOk, CodeOk, Norm, Bare, Clash, PlainOk, BlockValidIff;
    FreshFaithful(env, balances, start);
    RunFaithful(env, Fresh(env, balances, start), actions);
    var s := AfterAll(env, Fresh(env, balances, start), actions);
    AuditSucceeds(env, s, later);
    forall i | 1 <= i < |s.blocks|
      ensures i in s.snapshots && BlockValidIff(env, s, s.blocks[i], s.snapshots[i].accounts)
    {
      HeadOf(env, s, i);
      BlockIff(env, s, i);
    }
  }

  /** The block validates whatever the order exactly when it does not redeploy over the accounts below. */
  ghost predicate BlockValidIff(env: Env, s: State, b: Block, below: Settled) {
    (forall now :: RecordValid(env, s, b, now)) <==> !Redeploys(env, below.code, b.txs)
  }

  lemma BlockIff(env: Env, s: State, i: nat)
    requires GoodRoots(env) && RootsTellCode(env) && Faithful(env, s) && 1 <= i < |s.blocks| && i in s.snapshots
    ensures BlockValidIff(env, s, s.blocks[i], s.snapshots[i].accounts)
  {
    hide GoodRoots, RootsTellCode, LinkOk, CodeOk, Norm, Bare, Clash, PlainOk, RecordValid, Redeploys;
    CanonicalBlockValidIff(env, s, i + 1, s.blocks[i]);
  }

  // ---- quiet runs -------------------------------------------------------------------------------------

  /** Requests that restore no snapshot. */
  ghost predicate QuietAction(env: Env, s: State, a: Action) {
    a.Submit? || a.Mine? || (a.PeerBlock? && (Accepted(env, s, a.block, a.now) || !PeerBlockOk(env, s, a.block, s.height + 1)))
  }

  ghost predicate QuietRun(env: Env, s: State, actions: seq<Action>) {
    forall i :: 0 <= i < |actions| ==> QuietAction(env, AfterAll(env, s, actions[..i]), actions[i])
  }

  /** The live accounts have lower-case keys for plain addresses only. */
  ghost predicate Unrestored(env: Env, s: State) {
    Consistent(env, s) && OnlyPlain(env, s.accounts.code)
  }

  lemma ConsistentPlainOk(env: Env, s: State)
    requires Consistent(env, s)
    ensures PlainOk(env, s.accounts.code)
  {
    hide LinkOk, Bare, PlainOk;
  }

  lemma QuietKeeps(env: Env, s: State, a: Action)
    requires Unrestored(env, s) && Drawn(a) && QuietAction(env, s, a)
    ensures Unrestored(env, After(env, s, a)) && CleanAction(env, s, a)
  {
    hide Consistent, Mined, Imported, Accepted, Usable, PeerBlockOk, Redeploys, OnlyPlain, PlainOk, Run, Grows, PlaceAll, Indexed, Clash;
    ConsistentPlainOk(env, s);
    AfterConsistent(env, s, a);
    RunOnlyPlain(env, s.accounts, Executes(env, s, a));
    match a
    case Submit(tx, autoMine, hash, now) =>
      var s1 := s.(pool := s.pool + [tx]);
      PoolGrows(env, s, s1);
      if autoMine {
        MinedGrows(env, s1, hash, now);
      }
    case Mine(hash, now) => MinedGrows(env, s, hash, now);
    case PeerBlock(b, now) =>
      if Accepted(env, s, b, now) {
        ImportedGrows(env, s, b, now);
      }
  }

  /** Without audits, validations, refused blocks and reorganisations every run is clean. */
  lemma {:induction false} QuietRunIsClean(env: Env, s: State, actions: seq<Action>)
    requires Unrestored(env, s) && AllDrawn(actions) && QuietRun(env, s, actions)
    ensures Unrestored(env, AfterAll(env, s, actions)) && CleanRun(env, s, actions)
  {
    hide Unrestored, After, Drawn, CleanAction, QuietAction;
    if actions != [] {
      var n := |actions| - 1;
      var front := actions[..n];
      forall i | 0 <= i < n
        ensures QuietAction(env, AfterAll(env, s, front[..i]), front[i])
      {
        assert front[..i] == actions[..i];
      }
      QuietRunIsClean(env, s, front);
      assert QuietAction(env, AfterAll(env, s, actions[..n]), actions[n]);
      QuietKeeps(env, AfterAll(env, s, front), actions[n]);
      forall i | 0 <= i < |actions|
        ensures CleanAction(env, AfterAll(env, s, actions[..i]), actions[i])
      {
        if i < n {
          assert CleanAction(env, AfterAll(env, s, front[..i]), front[i]);
          assert front[..i] == actions[..i];
        }
      }
    }
  }

  lemma FreshUnrestored(env: Env, balances: map<Address, int>, start: int)
    requires GoodRoots(env)
    ensures Unrestored(env, Fresh(env, balances, start))
  {
    hide Consistent, Norm, Clash, CodeOk, Indexed, PersistAll;
    FreshFaithful(env, balances, start);
  }
}
