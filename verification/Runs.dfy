/**
 Whole runs of a node: any list of submissions, mining, peer blocks, reorganisations, audits and
 validations, with any walk orders. The chain stays consistent, no transaction is lost or
 duplicated, a reorganisation undoes what was built above it, money is accounted for, and with new
 block hashes fork choice follows the chain. What a run does to code and audits is in CleanRuns.
 */
module Runs {
  import opened Ledger
  import opened CodeKeys
  import opened Chain
  import opened ChainLaws
  import opened ChainAudit
  import opened Reorg
  import opened ForkChoice

  /** One request to the node, with the hash it would draw and the moment it happens in. */
  datatype Action =
    | Submit(tx: Tx, autoMine: bool, hash: Hash, now: Moment)
    | Mine(hash: Hash, now: Moment)
    | PeerBlock(block: Block, now: Moment)
    | Reorganise(height: nat, newHash: Hash)
    | AuditChain(now: Moment)
    | Validate(block: Block, now: Moment)

  /** The state after one request. Audits, validations and refused peer blocks cost a restore. */
  ghost function After(env: Env, s: State, a: Action): State {
    match a
    case Submit(tx, autoMine, hash, now) => Submitted(env, s, tx, autoMine, hash, now)
    case Mine(hash, now) => Mined(env, s, hash, now)
    case PeerBlock(b, now) =>
      if Accepted(env, s, b, now) then Imported(env, s, b, now)
      else if PeerBlockOk(env, s, b, s.height + 1) then Restored(s, now) else s
    case Reorganise(h, newHash) => if CanReorg(s, h, newHash) then Reorged(s, h) else s
    case AuditChain(now) => AfterAudit(s, now)
    case Validate(b, now) => Validated(s, b, now)
  }

  ghost function AfterAll(env: Env, s: State, actions: seq<Action>): State {
    if actions == [] then s else After(env, AfterAll(env, s, actions[..|actions| - 1]), actions[|actions| - 1])
  }

  /** Hashes the node draws are neither empty nor zero. */
  predicate Drawn(a: Action) {
    (a.Submit? || a.Mine?) ==> Usable(a.hash)
  }

  predicate AllDrawn(actions: seq<Action>) {
    forall i :: 0 <= i < |actions| ==> Drawn(actions[i])
  }

  // ---- the invariant over runs ---------------------------------------------------------------------

  lemma AfterConsistent(env: Env, s: State, a: Action)
    requires Consistent(env, s) && Drawn(a)
    ensures Consistent(env, After(env, s, a))
  {
    hide Consistent, Submitted, Mined, Imported, Reorged, Accepted, CanReorg, Usable, Restored, Examined, PeerBlockOk;
    match a
    case Submit(tx, autoMine, hash, now) => SubmittedConsistent(env, s, tx, autoMine, hash, now);
    case Mine(hash, now) => MinedConsistent(env, s, hash, now);
    case PeerBlock(b, now) =>
      if Accepted(env, s, b, now) {
        ImportedConsistent(env, s, b, now);
      } else {
        RestoredConsistent(env, s, now);
      }
    case Reorganise(h, newHash) =>
      if CanReorg(s, h, newHash) {
        ReorgedConsistent(env, s, h, newHash);
      }
    case AuditChain(now) => RestoredConsistent(env, s, now);
    case Validate(b, now) => RestoredConsistent(env, s, now);
  }

  lemma {:induction false} RunConsistent(env: Env, s: State, actions: seq<Action>)
    requires Consistent(env, s) && AllDrawn(actions)
    ensures Consistent(env, AfterAll(env, s, actions))
  {
    hide Consistent, After, Drawn;
    if actions != [] {
      var n := |actions| - 1;
      RunConsistent(env, s, actions[..n]);
      AfterConsistent(env, AfterAll(env, s, actions[..n]), actions[n]);
    }
  }

  // ---- no transaction is lost or duplicated ----------------------------------------------------------

  /** The transactions a request brings in. */
  ghost function Brought(env: Env, s: State, a: Action): multiset<Tx> {
    match a
    case Submit(tx, _, _, _) => multiset{Strip(tx)}
    case PeerBlock(b, now) => if Accepted(env, s, b, now) then multiset(StripAll(b.txs)) else multiset{}
    case _ => multiset{}
  }

  ghost function BroughtAll(env: Env, s: State, actions: seq<Action>): multiset<Tx> {
    if actions == [] then multiset{} else
      var n := |actions| - 1;
      BroughtAll(env, s, actions[..n]) + Brought(env, AfterAll(env, s, actions[..n]), actions[n])
  }

  lemma AfterConserves(env: Env, s: State, a: Action)
    requires Consistent(env, s) && Drawn(a)
    ensures Holdings(After(env, s, a)) == Holdings(s) + Brought(env, s, a)
  {
    hide Consistent, Submitted, Mined, Imported, Reorged, Accepted, CanReorg, Strip, StripAll, Usable, Examined, TxsOf, Copied, PeerBlockOk;
    match a
    case Submit(tx, autoMine, hash, now) => SubmitAdds(env, s, tx, autoMine, hash, now);
    case Mine(hash, now) => MiningConserves(env, s, hash, now);
    case PeerBlock(b, now) =>
      if Accepted(env, s, b, now) {
        ImportAdds(env, s, b, now);
      }
    case Reorganise(h, newHash) =>
      if CanReorg(s, h, newHash) {
        ReorgConserves(env, s, h, newHash);
      }
    case AuditChain(_) =>
    case Validate(_, _) =>
  }

  /** Over every run the transactions held are those held before plus those submitted or imported. */
  lemma {:induction false} EveryRunConserves(env: Env, s: State, actions: seq<Action>)
    requires Consistent(env, s) && AllDrawn(actions)
    ensures Holdings(AfterAll(env, s, actions)) == Holdings(s) + BroughtAll(env, s, actions)
  {
    hide Consistent, After, Brought, Holdings, Drawn;
    if actions != [] {
      var n := |actions| - 1;
      EveryRunConserves(env, s, actions[..n]);
      RunConsistent(env, s, actions[..n]);
      AfterConserves(env, AfterAll(env, s, actions[..n]), actions[n]);
    }
  }

  // ---- a reorganisation undoes any run above it ------------------------------------------------------

  /** The run never goes below the given height. */
  ghost predicate StaysAbove(env: Env, s: State, actions: seq<Action>, n: nat) {
    forall i :: 0 <= i <= |actions| ==> AfterAll(env, s, actions[..i]).height >= n
  }

  /** The view at head n. */
  ghost predicate SameViewAt(s: State, t: State, n: nat) {
    n <= |s.blocks| && n <= |t.blocks| && ViewAt(s, n) == ViewAt(t, n)
  }

  lemma MinedView(env: Env, s: State, hash: Hash, now: Moment, n: nat)
    requires Consistent(env, s) && Usable(hash) && 1 <= n <= s.height
    ensures SameViewAt(s, Mined(env, s, hash, now), n)
  {
    hide Mined, Usable, PlaceAll, Indexed, Sealed, Run, LinkOk, Bare, PlainOk, Copied, ViewAt;
    MinedGrows(env, s, hash, now);
    var t := Mined(env, s, hash, now);
    ViewAtGrows(env, s, t, t.blocks[|t.blocks| - 1], now, n);
  }

  lemma ImportedView(env: Env, s: State, b: Block, now: Moment, n: nat)
    requires Consistent(env, s) && Accepted(env, s, b, now) && 1 <= n <= s.height
    ensures SameViewAt(s, Imported(env, s, b, now), n)
  {
    hide Imported, Accepted, PlaceAll, Indexed, Sealed, Run, LinkOk, Bare, PlainOk, Copied, ViewAt;
    ImportedGrows(env, s, b, now);
    var t := Imported(env, s, b, now);
    ViewAtGrows(env, s, t, t.blocks[|t.blocks| - 1], now, n);
  }

  lemma ReorgedView(env: Env, s: State, h: nat, newHash: Hash, n: nat)
    requires Consistent(env, s) && CanReorg(s, h, newHash) && 1 <= n <= h - 1
    ensures SameViewAt(s, Reorged(s, h), n)
  {
    hide Reorged, TxsOf, Sealed, Run, LinkOk, Bare, PlainOk;
    ReorgUndoes(env, s, h, newHash);
    HeadOf(env, s, n);
    var t := Reorged(s, h);
    assert t.blocks[..n] == s.blocks[..n];
    assert ViewAt(t, n).canonical == ViewAt(s, n).canonical;
    assert ViewAt(t, n).snapshots == ViewAt(s, n).snapshots;
  }

  lemma PoolView(env: Env, s: State, tx: Tx, n: nat)
    requires Consistent(env, s) && 1 <= n <= s.height
    ensures Consistent(env, s.(pool := s.pool + [tx])) && SameViewAt(s, s.(pool := s.pool + [tx]), n)
  {
    hide LinkOk, Bare, PlainOk;
    HeadOf(env, s, n);
    PoolGrows(env, s, s.(pool := s.pool + [tx]));
  }

  lemma SameViewTrans(s: State, t: State, u: State, n: nat)
    requires SameViewAt(s, t, n) && SameViewAt(t, u, n)
    ensures SameViewAt(s, u, n)
  {
    hide ViewAt;
  }

  lemma RestoredView(s: State, now: Moment, n: nat)
    requires n <= |s.blocks|
    ensures SameViewAt(s, Restored(s, now), n) && SameViewAt(s, s, n) && Restored(s, now).height == s.height
  {
  }

  lemma AfterView(env: Env, s: State, a: Action, n: nat)
    requires Consistent(env, s) && Drawn(a) && 1 <= n <= s.height && n <= After(env, s, a).height
    ensures SameViewAt(s, After(env, s, a), n)
  {
    hide Consistent, Mined, Imported, Reorged, Accepted, Usable, Restored, Examined, PeerBlockOk, SameViewAt;
    HeadOf(env, s, n);
    RestoredView(s, LowerLast(0), n);
    match a
    case Submit(tx, autoMine, hash, now) =>
      PoolView(env, s, tx, n);
      if autoMine {
        var s1 := s.(pool := s.pool + [tx]);
        MinedView(env, s1, hash, now, n);
        SameViewTrans(s, s1, Mined(env, s1, hash, now), n);
      }
    case Mine(hash, now) => MinedView(env, s, hash, now, n);
    case PeerBlock(b, now) =>
      if Accepted(env, s, b, now) {
        ImportedView(env, s, b, now, n);
      } else {
        RestoredView(s, now, n);
      }
    case Reorganise(h, newHash) =>
      if CanReorg(s, h, newHash) {
        ReorgUndoes(env, s, h, newHash);
        ReorgHeight(env, s, h, newHash);
        ReorgedView(env, s, h, newHash, n);
      }
    case AuditChain(now) => RestoredView(s, now, n);
    case Validate(_, now) => RestoredView(s, now, n);
  }

  lemma ReorgHeight(env: Env, s: State, h: nat, newHash: Hash)
    requires Consistent(env, s) && CanReorg(s, h, newHash)
    ensures Reorged(s, h).height == h - 1
  {
    hide Reorged, LinkOk, TxsOf, Bare, PlainOk;
    ReorgUndoes(env, s, h, newHash);
  }

  lemma {:induction false} RunView(env: Env, s: State, actions: seq<Action>)
    requires Consistent(env, s) && AllDrawn(actions) && StaysAbove(env, s, actions, s.height)
    ensures SameViewAt(s, AfterAll(env, s, actions), s.height)
  {
    hide Consistent, After, Drawn, ViewAt;
    assert s.height >= 1 by { AtLeastOne(env, s); }
    HeadOf(env, s, s.height);
    if actions != [] {
      var n := |actions| - 1;
      var front := actions[..n];
      forall i | 0 <= i <= n
        ensures AfterAll(env, s, front[..i]).height >= s.height
      {
        assert front[..i] == actions[..i];
      }
      RunView(env, s, front);
      RunConsistent(env, s, front);
      assert actions[..n + 1] == actions && front[..n] == front;
      AfterView(env, AfterAll(env, s, front), actions[n], s.height);
    }
  }

  lemma AtLeastOne(env: Env, s: State)
    requires Consistent(env, s)
    ensures s.height >= 1
  {
    hide LinkOk, Bare, PlainOk;
  }

  /** However the chain grew and shrank above it, a reorganisation just above a former head brings
      back the height, blocks, canonical map and snapshots of that head, and its accounts: exactly for
      all but the code, and up to the spelling of code keys if the chain was faithful. */
  lemma ReorgUndoesRun(env: Env, s: State, actions: seq<Action>, t: State, newHash: Hash)
    requires Consistent(env, s) && AllDrawn(actions) && StaysAbove(env, s, actions, s.height)
    requires t == AfterAll(env, s, actions) && CanReorg(t, s.height + 1, newHash)
    ensures var r := After(env, t, Reorganise(s.height + 1, newHash));
      && ViewOf(r) == ViewOf(s) && Bare(r.accounts) == Bare(s.accounts)
      && (Faithful(env, s) ==> r.accounts == Norm(s.accounts))
  {
    hide AfterAll, StaysAbove, AllDrawn, Reorged, CanReorg, Norm, Bare, LinkOk, CodeOk, Clash, PlainOk, TxsOf;
    RunView(env, s, actions);
    RunConsistent(env, s, actions);
    ReorgUndoes(env, t, s.height + 1, newHash);
    HeadSnapshots(s, t);
    ViewAtHead(env, s);
  }

  lemma HeadSnapshots(s: State, t: State)
    requires SameViewAt(s, t, s.height) && s.height in s.snapshots
    ensures s.height in t.snapshots && t.snapshots[s.height] == s.snapshots[s.height]
  {
    assert s.height in ViewAt(s, s.height).snapshots;
    assert ViewAt(t, s.height).snapshots[s.height] == ViewAt(s, s.height).snapshots[s.height];
  }

  // ---- the ledger over runs ---------------------------------------------------------------------------

  /** Nonces and supply of a consistent state: genesis, plus what its blocks did. When no value in
      them is negative, supply has not fallen, and it is that of genesis exactly when every transfer
      was covered at its turn or moved nothing. */
  lemma ChainAccounting(env: Env, s: State, who: Address)
    requires Consistent(env, s)
    ensures 1 in s.snapshots
    ensures var g, txs := s.snapshots[1].accounts, TxsOf(s.blocks[1..]);
      && NatAt(s.accounts.nonces, who) == NatAt(g.nonces, who) + SentBy(txs, who)
      && Total(s.accounts.balances) == Total(g.balances) + Minted(env, g, txs)
      && (NonNegative(txs) ==> Total(g.balances) <= Total(s.accounts.balances))
      && (NonNegative(txs) ==>
            (Total(s.accounts.balances) == Total(g.balances) <==> forall i :: 0 <= i < |txs| ==> PaidFor(env, g, txs, i)))
  {
    hide TxsOf, Run, Total, Minted, SentBy, PaidFor, Sealed, Usable, NonNegative, PlainOk;
    assert LinkOk(env, s, 1);
    BlocksAsOne(env, s, 1, s.height);
    assert s.blocks[1..s.height] == s.blocks[1..];
    var g, txs := s.snapshots[1].accounts, TxsOf(s.blocks[1..]);
    assert Bare(s.accounts).nonces == s.accounts.nonces && Bare(s.accounts).balances == s.accounts.balances;
    NonceCounts(env, g, txs, who);
    SupplyAfter(env, g, txs);
    if NonNegative(txs) {
      SupplyConstantIff(env, g, txs);
    }
  }

  /** What strict mode lets through: a submission its sender can pay now. */
  predicate StrictlyValid(a: Accounts, tx: Tx) {
    IsTransfer(tx) ==> Covered(a, tx)
  }

  /** Requests of a strict node that mines at once, is not reorganised and has no peers. */
  predicate StrictAction(s: State, a: Action) {
    || (a.Submit? && a.autoMine && StrictlyValid(s.accounts, a.tx))
    || a.Mine? || a.AuditChain? || a.Validate?
  }

  lemma RunOne(env: Env, a: Accounts, tx: Tx)
    ensures Run(env, a, [tx]) == Step(env, a, tx)
  {
    hide Step;
    assert [tx][..0] == [];
  }

  /** A submission to an empty pool that is mined at once. */
  lemma SubmitOne(env: Env, s: State, tx: Tx, hash: Hash, now: Moment)
    requires Consistent(env, s) && s.pool == [] && Usable(hash)
    ensures var t := Submitted(env, s, tx, true, hash, now);
      && Consistent(env, t) && t.pool == [] && t.height == s.height + 1 && t.accounts == Step(env, s.accounts, tx)
      && t.blocks != [] && t.blocks == s.blocks + [t.blocks[|t.blocks| - 1]]
      && t.blocks[|t.blocks| - 1].hash == hash && t.blocks[|t.blocks| - 1].txs == PlaceAll([tx], hash, t.height)
  {
    hide Consistent, Mined, Run, Usable, Step, PlaceAll, Indexed, Sealed, Copied;
    var s1 := s.(pool := s.pool + [tx]);
    assert s1.pool == [tx];
    assert Consistent(env, s1) by { PoolGrows(env, s, s1); }
    MinedGrows(env, s1, hash, now);
    MinedConsistent(env, s1, hash, now);
    RunOne(env, s.accounts, tx);
  }

  lemma RestoredMoney(s: State, now: Moment)
    ensures var t := Restored(s, now); t.pool == s.pool && t.accounts.balances == s.accounts.balances
  {
  }

  lemma StrictKeepsSupply(env: Env, s: State, a: Action)
    requires Consistent(env, s) && Drawn(a) && s.pool == [] && StrictAction(s, a)
    ensures var t := After(env, s, a); t.pool == [] && Total(t.accounts.balances) == Total(s.accounts.balances)
  {
    hide Consistent, Mined, Submitted, Run, Total, Usable, Step, Covered, Grows, PlaceAll, Indexed, Restored, Examined, PeerBlockOk;
    match a
    case Submit(tx, autoMine, hash, now) =>
      SubmitOne(env, s, tx, hash, now);
      StepSupply(env, s.accounts, tx);
    case Mine(hash, now) =>
      MinedGrows(env, s, hash, now);
      RunNothing(env, s.accounts);
    case AuditChain(now) => RestoredMoney(s, now);
    case Validate(_, now) => RestoredMoney(s, now);
  }

  /** Every request of a run is one of a strict node when it is made. */
  ghost predicate StrictRun(env: Env, s: State, actions: seq<Action>) {
    forall i :: 0 <= i < |actions| ==> StrictAction(AfterAll(env, s, actions[..i]), actions[i])
  }

  /** On a strict node that mines at once, without reorganisations and peer blocks, the supply never
      changes. */
  lemma {:induction false} StrictRunKeepsSupply(env: Env, s: State, actions: seq<Action>)
    requires Consistent(env, s) && AllDrawn(actions) && s.pool == [] && StrictRun(env, s, actions)
    ensures var t := AfterAll(env, s, actions); t.pool == [] && Total(t.accounts.balances) == Total(s.accounts.balances)
  {
    hide Consistent, After, Total, Drawn, StrictAction;
    if actions != [] {
      var n := |actions| - 1;
      var front := actions[..n];
      forall i | 0 <= i < n
        ensures StrictAction(AfterAll(env, s, front[..i]), front[i])
      {
        assert front[..i] == actions[..i];
      }
      StrictRunKeepsSupply(env, s, front);
      RunConsistent(env, s, front);
      assert StrictAction(AfterAll(env, s, actions[..n]), actions[n]);
      StrictKeepsSupply(env, AfterAll(env, s, front), actions[n]);
    }
  }

  // ---- fork choice over runs ---------------------------------------------------------------------------

  /** The hash a request adds is new to the index. */
  ghost predicate BringsNewHash(env: Env, s: State, a: Action) {
    match a
    case Submit(_, autoMine, hash, _) => autoMine ==> hash !in s.index
    case Mine(hash, _) => hash !in s.index
    case PeerBlock(b, now) => Accepted(env, s, b, now) ==> b.hash !in s.index
    case _ => true
  }

  lemma AfterIndexed(env: Env, s: State, a: Action)
    requires Consistent(env, s) && IndexOk(s) && Drawn(a) && BringsNewHash(env, s, a)
    ensures IndexOk(After(env, s, a))
  {
    hide Consistent, Mined, Imported, Reorged, Accepted, CanReorg, EntryOk, InBlocks, Usable, IndexAt, Copied, Examined, PeerBlockOk;
    match a
    case Submit(tx, autoMine, hash, now) =>
      var s1 := s.(pool := s.pool + [tx]);
      assert Consistent(env, s1) by { PoolGrows(env, s, s1); }
      assert IndexOk(s1) by { SameIndex(s, s1); }
      if autoMine {
        MinedIndex(env, s1, hash, now);
      }
    case Mine(hash, now) => MinedIndex(env, s, hash, now);
    case PeerBlock(b, now) =>
      if Accepted(env, s, b, now) {
        ImportedIndex(env, s, b, now);
      } else {
        SameIndex(s, Restored(s, now));
      }
    case Reorganise(h, newHash) =>
      if CanReorg(s, h, newHash) {
        ReorgIndex(env, s, h, newHash);
      }
    case AuditChain(now) => SameIndex(s, Restored(s, now));
    case Validate(_, now) => SameIndex(s, Restored(s, now));
  }

  lemma SameIndex(s: State, t: State)
    requires IndexOk(s) && t.blocks == s.blocks && t.index == s.index
    ensures IndexOk(t)
  {
    forall i | 0 <= i < |t.blocks|
      ensures EntryOk(t, i)
    {
      assert EntryOk(s, i);
    }
  }

  ghost predicate NewHashes(env: Env, s: State, actions: seq<Action>) {
    forall i :: 0 <= i < |actions| ==> BringsNewHash(env, AfterAll(env, s, actions[..i]), actions[i])
  }

  lemma {:induction false} RunIndexed(env: Env, s: State, actions: seq<Action>)
    requires Consistent(env, s) && IndexOk(s) && AllDrawn(actions) && NewHashes(env, s, actions)
    ensures IndexOk(AfterAll(env, s, actions))
  {
    hide Consistent, IndexOk, After, Drawn, BringsNewHash;
    if actions != [] {
      var n := |actions| - 1;
      var front := actions[..n];
      forall i | 0 <= i < n
        ensures BringsNewHash(env, AfterAll(env, s, front[..i]), front[i])
      {
        assert front[..i] == actions[..i];
      }
      RunIndexed(env, s, front);
      RunConsistent(env, s, front);
      assert BringsNewHash(env, AfterAll(env, s, actions[..n]), actions[n]);
      AfterIndexed(env, AfterAll(env, s, front), actions[n]);
    }
  }

  /** After any run from a fresh node in which every new block has a new hash: each block's weight is
      its height, no entry beats that of the last block, and the last block is the only tip. */
  lemma ForkChoiceFollowsChain(env: Env, balances: map<Address, int>, start: int, actions: seq<Action>)
    requires GoodRoots(env) && AllDrawn(actions) && NewHashes(env, Fresh(env, balances, start), actions)
    ensures var s := AfterAll(env, Fresh(env, balances, start), actions);
      && (forall i :: 0 <= i < |s.blocks| ==> EntryOk(s, i))
      && (forall e :: e in s.index.Values ==> LastHash(s) in s.index && (e == s.index[LastHash(s)] || Better(s.index[LastHash(s)], e)))
      && (forall k :: IsTip(s.index, k) <==> k == LastHash(s))
  {
    hide GoodRoots, Fresh, AfterAll, AllDrawn, NewHashes, Consistent, EntryOk, InBlocks, IsTip, Better, LastHash, Norm, Clash, CodeOk;
    FreshFaithful(env, balances, start);
    FreshIndexed(env, balances, start);
    RunConsistent(env, Fresh(env, balances, start), actions);
    RunIndexed(env, Fresh(env, balances, start), actions);
    var s := AfterAll(env, Fresh(env, balances, start), actions);
    forall e | e in s.index.Values
      ensures LastHash(s) in s.index && (e == s.index[LastHash(s)] || Better(s.index[LastHash(s)], e))
    {
      BestIsLast(env, s, e);
    }
    forall k
      ensures IsTip(s.index, k) <==> k == LastHash(s)
    {
      OneTip(env, s, k);
    }
  }

  lemma MinedIndexAt(env: Env, s: State, hash: Hash, now: Moment, n: nat)
    requires Consistent(env, s) && Usable(hash) && hash !in s.index && n <= s.height
    ensures IndexAt(Mined(env, s, hash, now).index, n) == IndexAt(s.index, n)
  {
    hide Mined, Consistent, Grows, Usable, Indexed, PlaceAll, IndexAt, Run;
    MinedGrows(env, s, hash, now);
    var t := Mined(env, s, hash, now);
    IndexAtGrows(env, s, t, t.blocks[|t.blocks| - 1], "local", now, n);
  }

  lemma ImportedIndexAt(env: Env, s: State, b: Block, now: Moment, n: nat)
    requires Consistent(env, s) && Accepted(env, s, b, now) && b.hash !in s.index && n <= s.height
    ensures IndexAt(Imported(env, s, b, now).index, n) == IndexAt(s.index, n)
  {
    hide Imported, Consistent, Grows, Accepted, Indexed, PlaceAll, IndexAt, Run;
    ImportedGrows(env, s, b, now);
    var t := Imported(env, s, b, now);
    IndexAtGrows(env, s, t, t.blocks[|t.blocks| - 1], "peer", now, n);
  }

  lemma ReorgedIndexAt(env: Env, s: State, h: nat, newHash: Hash, n: nat)
    requires Consistent(env, s) && IndexOk(s) && CanReorg(s, h, newHash) && n <= h - 1
    ensures IndexAt(Reorged(s, h).index, n) == IndexAt(s.index, n)
  {
    hide Reorged, Consistent, IndexOk, CanReorg;
    ReorgIndex(env, s, h, newHash);
  }

  lemma AfterIndexAt(env: Env, s: State, a: Action, n: nat)
    requires Consistent(env, s) && IndexOk(s) && Drawn(a) && BringsNewHash(env, s, a) && n <= s.height
    requires n <= After(env, s, a).height
    ensures IndexAt(After(env, s, a).index, n) == IndexAt(s.index, n)
  {
    hide Consistent, IndexOk, Mined, Imported, Reorged, Accepted, CanReorg, Usable, IndexAt, Copied, Examined, PeerBlockOk;
    match a
    case Submit(tx, autoMine, hash, now) =>
      if autoMine {
        var s1 := s.(pool := s.pool + [tx]);
        assert Consistent(env, s1) by { PoolGrows(env, s, s1); }
        MinedIndexAt(env, s1, hash, now, n);
      }
    case Mine(hash, now) => MinedIndexAt(env, s, hash, now, n);
    case PeerBlock(b, now) =>
      if Accepted(env, s, b, now) {
        ImportedIndexAt(env, s, b, now, n);
      }
    case Reorganise(h, newHash) =>
      if CanReorg(s, h, newHash) {
        ReorgHeight(env, s, h, newHash);
        ReorgedIndexAt(env, s, h, newHash, n);
      }
    case AuditChain(_) =>
    case Validate(_, _) =>
  }

  lemma {:induction false} RunIndexAt(env: Env, s: State, actions: seq<Action>)
    requires Consistent(env, s) && IndexOk(s) && AllDrawn(actions)
    requires NewHashes(env, s, actions) && StaysAbove(env, s, actions, s.height)
    ensures IndexAt(AfterAll(env, s, actions).index, s.height) == IndexAt(s.index, s.height)
  {
    hide Consistent, IndexOk, After, Drawn, BringsNewHash, IndexAt;
    if actions != [] {
      var n := |actions| - 1;
      var front := actions[..n];
      forall i | 0 <= i <= n
        ensures AfterAll(env, s, front[..i]).height >= s.height
        ensures i < n ==> BringsNewHash(env, AfterAll(env, s, front[..i]), front[i])
      {
        assert front[..i] == actions[..i];
      }
      RunIndexAt(env, s, front);
      RunConsistent(env, s, front);
      RunIndexed(env, s, front);
      assert actions[..n + 1] == actions && front[..n] == front;
      assert BringsNewHash(env, AfterAll(env, s, actions[..n]), actions[n]);
      AfterIndexAt(env, AfterAll(env, s, front), actions[n], s.height);
    }
  }

  /** With new hashes throughout, the same reorganisation brings back the block index too. */
  lemma ReorgUndoesIndex(env: Env, s: State, actions: seq<Action>, t: State, newHash: Hash)
    requires Consistent(env, s) && IndexOk(s) && AllDrawn(actions)
    requires NewHashes(env, s, actions) && StaysAbove(env, s, actions, s.height)
    requires t == AfterAll(env, s, actions) && CanReorg(t, s.height + 1, newHash)
    ensures After(env, t, Reorganise(s.height + 1, newHash)).index == s.index
  {
    hide AfterAll, StaysAbove, AllDrawn, NewHashes, IndexAt, Reorged, CanReorg, EntryOk, InBlocks, LinkOk, Bare, PlainOk;
    RunIndexAt(env, s, actions);
    RunConsistent(env, s, actions);
    RunIndexed(env, s, actions);
    ReorgIndex(env, t, s.height + 1, newHash);
    IndexAtHead(s);
  }
}
