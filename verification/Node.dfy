/**
 The BHTE node: an object whose procedures mine, replay, import, audit and reorganise in place.
 Each is proved against the function of Chain that describes its effect on the whole state. Every
 replay that does not end in an import leaves the whole state as it was, except that the live
 accounts have been copied.
 */
module Node {
  import opened Outcomes
  import opened Ledger
  import opened CodeKeys
  import opened Chain
  import opened ChainLaws
  import opened ChainAudit

  /** The fields that replaying blocks never touches. */
  predicate Untouched(s: State, t: State) {
    t.blocks == s.blocks && t.canonical == s.canonical && t.index == s.index && t.snapshots == s.snapshots && t.pool == s.pool
  }

  lemma ReplayTouchesNothing(env: Env, s: State, b: Block, n: nat, now: Moment)
    requires n <= |b.txs|
    ensures Untouched(s, Passed(env, s, b.txs, n, b.hash, b.number, now, false).state)
  {
    hide Passed, Run;
    PassedFacts(env, s, b.txs, n, b.hash, b.number, now, false);
  }

  lemma {:induction false} AuditTouchesNothing(env: Env, start: State, blocks: seq<Block>, n: nat, now: Moment)
    requires 1 <= n <= |blocks|
    ensures Untouched(start, AuditTo(env, start, blocks, n, now).state)
  {
    hide Passed, RootsAgree, Audited, PlaceAll, Copied;
    if n > 1 {
      AuditTouchesNothing(env, start, blocks, n - 1, now);
      var a, b := AuditTo(env, start, blocks, n - 1, now), blocks[n - 1];
      var p := Replayed(env, a.state, b, now);
      ReplayTouchesNothing(env, a.state.(height := b.number, replayMode := true), b, |b.txs|, now);
      AuditedFacts(p.state, PlaceAll(b.txs, b.hash, b.number), p.receipts, |b.txs|);
    }
  }

  lemma PassedStep(env: Env, s: State, txs: seq<Tx>, n: nat, hash: Hash, number: nat, now: Moment, record: bool)
    requires n < |txs|
    ensures var p, q := Passed(env, s, txs, n, hash, number, now, record), Passed(env, s, txs, n + 1, hash, number, now, record);
      var at := Place(hash, number, n);
      var next, r := Applied(env, p.state, txs[n], at, now), ReceiptOf(env, p.state, txs[n], at, now);
      q == Pass(if record then Recorded(next, Placed(txs[n], hash, number, n), r) else next, p.receipts + [r])
  {
    hide Applied, ReceiptOf, Recorded, Placed;
  }

  lemma PassedStart(env: Env, s: State, txs: seq<Tx>, hash: Hash, number: nat, now: Moment, record: bool)
    ensures Passed(env, s, txs, 0, hash, number, now, record) == Pass(s, [])
  {
  }

  lemma NothingAbove(env: Env, s: State)
    requires Consistent(env, s)
    ensures HashAt(s.canonical, s.height + 1) == ""
  {
    hide LinkOk, Bare, PlainOk;
  }

  lemma GrowsShape(env: Env, s: State, t: State, b: Block, now: Moment)
    requires Grows(env, s, t, b, now)
    ensures s.blocks <= t.blocks && t.height == s.height + 1
  {
    hide Run, Sealed, Copied;
  }

  /** Why synchronisation stops at a block: it does not fit, or it was replayed and refused. */
  ghost predicate Stopped(env: Env, s: State, b: Block, now: Moment) {
    !PeerBlockOk(env, s, b, s.height + 1) || exists before :: s == Restored(before, now) && !Accepted(env, before, b, now)
  }

  lemma StoppedByCheck(env: Env, s: State, now: Moment)
    ensures forall b :: !PeerBlockOk(env, s, b, s.height + 1) ==> Stopped(env, s, b, now)
    ensures forall b :: !Replays(env, s, b, now) ==> Stopped(env, Restored(s, now), b, now)
  {
    hide PeerBlockOk, Replays, Restored;
  }

  lemma HashOfPeer(env: Env, s: State, b: Block)
    requires PeerBlockOk(env, s, b, s.height + 1)
    ensures b.hash != "" && b.number == s.height + 1
  {
  }

  lemma RestoredShape(s: State, now: Moment)
    ensures var t := Restored(s, now); t.height == s.height && t.blocks == s.blocks && t.pool == s.pool
  {
  }

  /** An audit that has stopped stays as it is. */
  lemma {:induction false} AuditStops(env: Env, start: State, blocks: seq<Block>, n: nat, now: Moment)
    requires 1 <= n <= |blocks| && !AuditTo(env, start, blocks, n, now).valid
    ensures AuditTo(env, start, blocks, |blocks|, now) == AuditTo(env, start, blocks, n, now)
    decreases |blocks| - n
  {
    hide Replayed, RootsAgree, Audited, PlaceAll;
    if n < |blocks| {
      AuditStops(env, start, blocks, n + 1, now);
    }
  }

  /** One more block of an audit that has not stopped. */
  lemma AuditNext(env: Env, start: State, blocks: seq<Block>, i: nat, now: Moment)
    requires 1 <= i < |blocks| && AuditTo(env, start, blocks, i, now).valid
    ensures var a, b := AuditTo(env, start, blocks, i, now), blocks[i];
      AuditTo(env, start, blocks, i + 1, now)
      == if b.number != blocks[0].number + i || b.parent != blocks[i - 1].hash || !Replays(env, a.state, b, now) then a.(valid := false)
         else
           var p := Replayed(env, a.state, b, now);
           Audit(Audited(p.state, PlaceAll(b.txs, b.hash, b.number), p.receipts, |b.txs|), a.checked + 1, true)
  {
    hide Replayed, RootsAgree, Audited, PlaceAll;
  }

  lemma AuditFirst(env: Env, start: State, blocks: seq<Block>, now: Moment)
    requires blocks != []
    ensures AuditTo(env, start, blocks, 1, now) == Audit(start, 0, true)
  {
  }

  lemma DropStart(h: nat, canonical: map<nat, Hash>)
    ensures BlocksBelow([], h) == [] && RemovedTxs([], h) == [] && RemovedNumbers([], h) == {}
    ensures canonical == canonical - RemovedNumbers([], h)
  {
  }

  lemma DropStep(blocks: seq<Block>, i: nat, h: nat)
    requires i < |blocks|
    ensures blocks[i].number >= h ==>
      && BlocksBelow(blocks[..i + 1], h) == BlocksBelow(blocks[..i], h)
      && RemovedTxs(blocks[..i + 1], h) == RemovedTxs(blocks[..i], h) + StripAll(blocks[i].txs)
      && RemovedNumbers(blocks[..i + 1], h) == RemovedNumbers(blocks[..i], h) + {blocks[i].number}
    ensures blocks[i].number < h ==>
      && BlocksBelow(blocks[..i + 1], h) == BlocksBelow(blocks[..i], h) + [blocks[i]]
      && RemovedTxs(blocks[..i + 1], h) == RemovedTxs(blocks[..i], h)
      && RemovedNumbers(blocks[..i + 1], h) == RemovedNumbers(blocks[..i], h)
  {
    hide StripAll;
    var next := blocks[..i + 1];
    assert next[..i] == blocks[..i] && next[i] == blocks[i];
    assert BlocksBelow(next, h) == BlocksBelow(blocks[..i], h) + if blocks[i].number >= h then [] else [blocks[i]];
    assert RemovedTxs(next, h) == RemovedTxs(blocks[..i], h) + if blocks[i].number >= h then StripAll(blocks[i].txs) else [];
    NumbersStep(blocks, i, h);
  }

  lemma NumbersStep(blocks: seq<Block>, i: nat, h: nat)
    requires i < |blocks|
    ensures RemovedNumbers(blocks[..i + 1], h) == RemovedNumbers(blocks[..i], h) + if blocks[i].number >= h then {blocks[i].number} else {}
  {
    var small, next := blocks[..i], blocks[..i + 1];
    forall n: nat
      ensures n in RemovedNumbers(next, h) <==> n in RemovedNumbers(small, h) || (n == blocks[i].number && n >= h)
    {
      if n in RemovedNumbers(small, h) {
        var j :| 0 <= j < |small| && small[j].number >= h && small[j].number == n;
        assert next[j] == small[j];
      }
      if n == blocks[i].number && n >= h {
        assert next[i].number == n;
      }
      if n in RemovedNumbers(next, h) {
        var j :| 0 <= j < |next| && next[j].number >= h && next[j].number == n;
        if j < i {
          assert small[j] == next[j];
        }
      }
    }
  }

  /** How an import can end: done, already in the chain, or refused. */
  datatype ImportResult = Done | AlreadyThere | Refused

  class RpcNode {
    const env: Env

    /** The persistent state, with the trie commits and the replay flag kept beside it. */
    var state: State

    /** A fresh node. */
    constructor (env: Env, balances: map<Address, int>, now: int)
      ensures this.env == env && state == Fresh(env, balances, now)
    {
      this.env := env;
      var empty: Settled := NoAccounts();
      var genesis := Block(1, env.genesisHash, ZeroHash, env.stateRoot(empty), ZeroHash, ZeroHash, ZeroHash, now, []);
      var commits := PersistAll([], env.stateTries(empty), 1);
      var canonical, index := map[1 := genesis.hash], Indexed(map[], genesis, "local", now);
      var accounts: Settled := empty.(balances := balances);
      var snapshots := map[1 := Snapshot(1, genesis.hash, genesis.stateRoot, true, accounts)];
      state := State(1, [genesis], canonical, index, snapshots, accounts, [], [], map[], [], map[], map[], commits, false);
    }

    // ---- one transaction --------------------------------------------------------------------------

    /** `persistTrieNodes` for a list of tries, at the current height. */
    method PersistTries(tries: seq<Trie>)
      modifies this
      ensures state == old(state).(commits := PersistAll(old(state).commits, tries, old(state).height))
    {
      for i := 0 to |tries|
        invariant state == old(state).(commits := PersistAll(old(state).commits, tries[..i], old(state).height))
      {
        assert tries[..i + 1][..i] == tries[..i];
        var commit := Commit(tries[i], state.height);
        if commit !in state.commits {
          state := state.(commits := state.commits + [commit]);
        }
      }
      assert tries[..|tries|] == tries;
    }

    /** `copyStringMap` on code: mixed-case keys outside the order, then lower-case keys, then the
        mixed-case keys in the order; later writes win. */
    method CopyStringMap(c: CodeStore, order: Order) returns (out: map<Address, string>)
      ensures out == Merged(c, order)
    {
      var early := map n | n in c.mixed && n !in order :: c.mixed[n];
      var late := map n | n in c.mixed && n in order :: c.mixed[n];
      out := early + c.lower + late;
    }

    /** The accounts of `currentStateSnapshot`. */
    method CopyAccounts(order: Order) returns (copy: Settled)
      ensures copy == Copied(state.accounts, order)
    {
      var code := CopyStringMap(state.accounts.code, order);
      copy := state.accounts.(code := CodeStore(map[], code));
    }

    /** `computeStateTrieRoot`. */
    method ComputeStateTrieRoot(order: Order) returns (root: Hash)
      modifies this
      ensures root == env.stateRoot(Copied(old(state).accounts, order)) && state == WithStateTries(env, old(state), order)
    {
      hide Copied;
      var copy := CopyAccounts(order);
      PersistTries(env.stateTries(copy));
      root := env.stateRoot(copy);
    }

    /** `initiateWithdrawal` for a bridge call. */
    method StartWithdrawal(tx: Tx, now: Moment)
      modifies this
      ensures state == InitiateWithdrawal(env, old(state), tx, now)
    {
      var id := if tx.hash == "" then env.fallbackId(tx.from, tx.value, now.time) else tx.hash;
      var w := Withdrawal(id, id, tx.from, tx.value, now.time + env.challengeSeconds, false, false, now.time);
      state := state.(withdrawals := state.withdrawals[id := w]);
      if !state.replayMode {
        var log := Log(LogData(env.bridge, [env.topic("WithdrawalInitiated"), env.padded(tx.from)], tx.value),
                       Place(LastHash(state), state.height, 0), id, |state.logs|);
        state := state.(logs := state.logs + [log]);
      }
    }

    /** `submitAnchor` for a bridge call. */
    method StartAnchor(tx: Tx, at: Place, now: Moment)
      modifies this
      ensures state == SubmitAnchor(env, old(state), tx, at, now)
    {
      hide PersistAll, Copied;
      var root := ComputeStateTrieRoot(now.anchor(at.number, at.index));
      var anchor := Anchor(at.number, root, at.blockHash, if tx.hash == "" then env.digest(root) else tx.hash, now.time);
      state := state.(anchors := state.anchors[at.number := anchor]);
    }

    /** `executeBridgeCall`, for a call of the bridge. */
    method ExecuteBridgeCall(tx: Tx, at: Place, now: Moment)
      modifies this
      ensures state == BridgeEffects(env, old(state), tx, at, now)
    {
      hide IsWithdraw, IsAnchor, InitiateWithdrawal, SubmitAnchor;
      if IsWithdraw(env, tx) && tx.from != "" {
        StartWithdrawal(tx, now);
      }
      if IsAnchor(env, tx) {
        StartAnchor(tx, at, now);
      }
    }

    /** The balances and the nonce in `applyMinedTransaction`. */
    method MoveValue(tx: Tx)
      modifies this
      ensures state == old(state).(accounts := Transfer(old(state).accounts, tx))
    {
      if tx.from != "" && tx.to != "" {
        var balances, nonces := state.accounts.balances, state.accounts.nonces;
        var fromBalance := IntAt(balances, tx.from);
        if fromBalance >= tx.value {
          balances := balances[tx.from := fromBalance - tx.value];
        }
        var toBalance := IntAt(balances, tx.to);
        balances := balances[tx.to := toBalance + tx.value];
        nonces := nonces[tx.from := NatAt(nonces, tx.from) + 1];
        state := state.(accounts := state.accounts.(balances := balances, nonces := nonces));
      }
    }

    /** `applyMinedTransaction` with `executeTransaction`. */
    method ApplyMinedTransaction(tx: Tx, at: Place, now: Moment) returns (mined: Tx, receipt: Receipt)
      modifies this
      ensures state == Applied(env, old(state), tx, at, now)
      ensures mined == Placed(tx, at.blockHash, at.number, at.index)
      ensures receipt == ReceiptOf(env, old(state), tx, at, now)
    {
      hide Transfer, BridgeEffects, IsStore, BridgeTopic;
      MoveValue(tx);
      mined := tx.(place := Some(at), confirmations := 1);
      var emitted: seq<Log> := [];
      var a := state.accounts;
      if tx.to == "" {
        state := state.(accounts := a.(code := Wrote(env, a.code, env.contractAddress(tx.from, tx.nonce), tx.input)));
      } else if tx.to == env.bridge {
        ExecuteBridgeCall(tx, at, now);
        emitted := [Log(LogData(env.bridge, [BridgeTopic(env, tx), env.padded(tx.from), env.padded(tx.to)], tx.value),
                        at, tx.hash, |state.logs|)];
      } else if IsStore(env, tx) {
        var slots := if tx.to in a.storage then a.storage[tx.to] else map[];
        state := state.(accounts := a.(storage := a.storage[tx.to := slots[ZeroHash := tx.value]]));
      }
      receipt := Receipt(tx.hash, at, tx.from, tx.to, 1, emitted);
      assert emitted == ReceiptOf(env, old(state), tx, at, now).logs;
    }

    // ---- mining -------------------------------------------------------------------------------------

    /** Keeps a mined transaction, its receipt and its logs. */
    method Record(tx: Tx, r: Receipt)
      modifies this
      ensures state == Recorded(old(state), tx, r)
    {
      state := state.(receipts := state.receipts[tx.hash := r], logs := state.logs + r.logs, txs := state.txs + [tx]);
    }

    /** The loops that apply a list of transactions, keeping their records or not. */
    method ApplyAll(list: seq<Tx>, hash: Hash, number: nat, now: Moment, record: bool) returns (mined: seq<Tx>, rs: seq<Receipt>)
      modifies this
      ensures Pass(state, rs) == Passed(env, old(state), list, |list|, hash, number, now, record)
      ensures mined == PlaceAll(list, hash, number)
    {
      hide Passed, Applied, ReceiptOf, Recorded, Placed;
      mined, rs := [], [];
      ghost var start := state;
      PassedStart(env, start, list, hash, number, now, record);
      for i := 0 to |list|
        invariant Pass(state, rs) == Passed(env, start, list, i, hash, number, now, record)
        invariant |mined| == i && forall j :: 0 <= j < i ==> mined[j] == Placed(list[j], hash, number, j)
      {
        PassedStep(env, start, list, i, hash, number, now, record);
        var m, r := ApplyMinedTransaction(list[i], Place(hash, number, i), now);
        if record {
          Record(m, r);
        }
        mined, rs := mined + [m], rs + [r];
      }
    }

    /** `indexBlock` for a validated block of the canonical chain. */
    method IndexBlock(b: Block, source: string, now: int)
      modifies this
      ensures state == old(state).(index := Indexed(old(state).index, b, source, now))
    {
      var index := state.index;
      var parentWeight := 0;
      if b.parent in index {
        parentWeight := index[b.parent].weight;
      }
      var record := IndexEntry(b.hash, b.parent, b.number, parentWeight + 1, true, true, source, now);
      if b.hash in index {
        var existing := index[b.hash];
        record := existing.(hash := b.hash, parent := b.parent, height := b.number, canonical := true, validated := true);
        if existing.weight == 0 || existing.weight < parentWeight + 1 {
          record := record.(weight := parentWeight + 1);
        }
        if existing.source == "" {
          record := record.(source := source);
        }
        if existing.receivedAt == 0 {
          record := record.(receivedAt := now);
        }
      }
      state := state.(index := index[b.hash := record]);
    }

    /** Appends a block to the chain. */
    method Link(b: Block, source: string, now: Moment)
      modifies this
      ensures state == Linked(old(state), b, source, now)
    {
      hide Indexed, Copied;
      state := state.(height := b.number, blocks := state.blocks + [b], canonical := state.canonical[b.number := b.hash]);
      IndexBlock(b, source, now.time);
      var anchor := Anchor(b.number, b.stateRoot, b.hash, b.txRoot, now.time);
      state := state.(anchors := state.anchors[b.number := anchor]);
      var copy := CopyAccounts(now.snapshot);
      var snapshot := Snapshot(b.number, b.hash, b.stateRoot, true, copy);
      state := state.(snapshots := state.snapshots[b.number := snapshot]);
    }

    /** `minePendingBlock`. */
    method MinePendingBlock(hash: Hash, now: Moment) returns (b: Block)
      requires state.blocks != []
      modifies this
      ensures state == Mined(env, old(state), hash, now) && state.blocks == old(state).blocks + [b]
    {
      hide Passed, PersistAll, Indexed, PlaceAll, SeenAll, Copied;
      var parent := state.blocks[|state.blocks| - 1];
      var pending := state.pool;
      state := state.(pool := []);
      var number := state.height + 1;
      ghost var emptied := state;
      var mined, rs := ApplyAll(pending, hash, number, now, true);
      assert state.blocks == emptied.blocks by { PassedFacts(env, emptied, pending, |pending|, hash, number, now, true); }
      state := state.(height := number);
      var stateRoot := ComputeStateTrieRoot(now.root(number));
      PersistTries(env.receiptTries(SeenAll(rs)));
      b := Block(number, hash, parent.hash, stateRoot, env.txRoot(mined), env.receiptRoot(SeenAll(rs)),
                 env.bloom(SeenAll(rs)), now.time, mined);
      Link(b, "local", now);
    }

    /** `validateTransaction`: in strict mode only what the sender can pay now passes. */
    method ValidateTransaction(tx: Tx, gas: nat, nonce: Option<nat>, strict: bool, minGas: nat, maxGas: nat) returns (ok: bool)
      ensures ok <==>
        && env.isAddress(tx.from) && (tx.to == "" || env.isAddress(tx.to))
        && minGas <= (if gas == 0 then minGas else gas) <= maxGas
        && (nonce.Some? ==> nonce.value == NatAt(state.accounts.nonces, tx.from))
        && (strict ==> Covered(state.accounts, tx))
    {
      var limit := if gas == 0 then minGas else gas;
      if !env.isAddress(tx.from) {
        return false;
      }
      if tx.to != "" && !env.isAddress(tx.to) {
        return false;
      }
      if limit < minGas || limit > maxGas {
        return false;
      }
      if nonce.Some? && nonce.value != NatAt(state.accounts.nonces, tx.from) {
        return false;
      }
      return !(strict && IntAt(state.accounts.balances, tx.from) < tx.value);
    }

    /** `addPendingTransaction` and `addRawTransaction`, once the record is built. */
    method AddTransaction(tx: Tx, autoMine: bool, hash: Hash, now: Moment)
      requires state.blocks != []
      modifies this
      ensures state == Submitted(env, old(state), tx, autoMine, hash, now)
    {
      hide Mined;
      state := state.(pool := state.pool + [tx]);
      if autoMine {
        var b := MinePendingBlock(hash, now);
      }
    }

    // ---- replaying ------------------------------------------------------------------------------------

    /** `restoreReplayState`: the saved fields come back, the accounts as they were copied; the others
        were never touched. */
    method RestoreReplayState(saved: State, copy: Settled)
      requires Untouched(saved, state)
      modifies this
      ensures state == saved.(accounts := copy)
    {
      state := state.(height := saved.height, accounts := copy, receipts := saved.receipts, logs := saved.logs,
                      txs := saved.txs, withdrawals := saved.withdrawals, anchors := saved.anchors, commits := saved.commits,
                      replayMode := saved.replayMode);
    }

    /** Executes a block in replay mode and compares its roots. */
    method ReplayBlock(b: Block, now: Moment) returns (agrees: bool, mined: seq<Tx>, rs: seq<Receipt>)
      modifies this
      ensures Pass(state, rs) == Replayed(env, old(state), b, now) && mined == PlaceAll(b.txs, b.hash, b.number)
      ensures agrees <==> Replays(env, old(state), b, now)
    {
      hide Passed, PlaceAll, SeenAll, Copied;
      state := state.(height := b.number, replayMode := true);
      mined, rs := ApplyAll(b.txs, b.hash, b.number, now, false);
      var copy := CopyAccounts(now.root(b.number));
      agrees := true;
      if b.stateRoot != env.stateRoot(copy) {
        agrees := false;
      } else if b.txRoot != "" && b.txRoot != env.txRoot(mined) {
        agrees := false;
      } else if b.receiptRoot != "" && b.receiptRoot != env.receiptRoot(SeenAll(rs)) {
        agrees := false;
      } else if b.bloom != "" && b.bloom != ZeroHash && b.bloom != env.bloom(SeenAll(rs)) {
        agrees := false;
      }
    }

    /** `replayPeerBlock`: a rejected block leaves no trace but the copied accounts. */
    method ReplayPeerBlock(b: Block, now: Moment) returns (r: Option<(seq<Tx>, seq<Receipt>)>)
      modifies this
      ensures r.Some? <==> Replays(env, old(state), b, now)
      ensures r.None? ==> state == Restored(old(state), now)
      ensures r.Some? ==>
        && state == Replayed(env, old(state), b, now).state.(replayMode := old(state).replayMode)
        && r.value == (PlaceAll(b.txs, b.hash, b.number), Replayed(env, old(state), b, now).receipts)
    {
      hide Passed, PlaceAll, SeenAll, RootsAgree, Copied;
      var before := state;
      var copy := CopyAccounts(now.saved);
      ReplayTouchesNothing(env, before.(height := b.number, replayMode := true), b, |b.txs|, now);
      var agrees, mined, rs := ReplayBlock(b, now);
      if !agrees {
        RestoreReplayState(before, copy);
        return None;
      }
      state := state.(replayMode := before.replayMode);
      return Some((mined, rs));
    }

    /** `validatePeerBlock`. */
    method ValidatePeerBlock(b: Block, expected: nat) returns (ok: bool)
      ensures ok <==> PeerBlockOk(env, state, b, expected)
    {
      if b.hash == "" || b.hash == ZeroHash || b.stateRoot == "" || b.stateRoot == ZeroHash || b.receiptRoot == "" {
        return false;
      }
      if b.number != expected {
        return false;
      }
      var existing := HashAt(state.canonical, expected);
      if existing != "" && existing != b.hash {
        return false;
      }
      var parent := HashAt(state.canonical, expected - 1);
      if parent == "" && state.blocks != [] {
        parent := state.blocks[|state.blocks| - 1].hash;
      }
      if expected > 1 && b.parent != parent {
        return false;
      }
      return b.txRoot == "" || b.txRoot == env.txRoot(b.txs);
    }

    /** The receipts, logs and transactions an import keeps. */
    method KeepImported(mined: seq<Tx>, rs: seq<Receipt>)
      requires |mined| == |rs|
      modifies this
      ensures state == Kept(old(state), mined, rs, |mined|)
    {
      hide Known;
      ghost var start := state;
      for i := 0 to |mined|
        invariant state == Kept(start, mined, rs, i)
      {
        var tx, r := mined[i], rs[i];
        var known := Known(state, tx.hash);
        state := state.(receipts := state.receipts[tx.hash := r], logs := state.logs + r.logs);
        if !known {
          state := state.(txs := state.txs + [tx]);
        }
      }
    }

    /** `importPeerBlock`. */
    method ImportPeerBlock(b: Block, now: Moment) returns (r: ImportResult)
      modifies this
      ensures r.AlreadyThere? <==> b.hash != "" && HashAt(old(state).canonical, b.number) == b.hash
      ensures r.Done? ==> Replays(env, old(state), b, now) && state == Imported(env, old(state), b, now)
      ensures r.Refused? ==> !Replays(env, old(state), b, now) && state == Restored(old(state), now)
      ensures r.AlreadyThere? ==> state == old(state)
    {
      hide Passed, PlaceAll, SeenAll, RootsAgree, PersistAll, Kept, Indexed, Copied;
      var existing := HashAt(state.canonical, b.number);
      if existing != "" && existing == b.hash {
        return AlreadyThere;
      }
      var replay := ReplayPeerBlock(b, now);
      if replay.None? {
        return Refused;
      }
      var (mined, rs) := replay.value;
      PersistTries(env.receiptTries(SeenAll(rs)));
      var c := b.(txs := mined, txRoot := env.txRoot(mined), receiptRoot := env.receiptRoot(SeenAll(rs)), bloom := env.bloom(SeenAll(rs)));
      Link(c, "peer", now);
      KeepImported(mined, rs);
      return Done;
    }

    /** `syncPeerBlocks`: takes blocks from the next height on until one is missing or refused. The
        blocks are what the peer answers, one per height, each at its own moment. */
    method SyncPeerBlocks(fetched: seq<(Option<Block>, Moment)>, limit: nat) returns (imported: nat)
      requires Consistent(env, state)
      modifies this
      ensures Consistent(env, state) && state.height == old(state).height + imported && imported <= limit
      ensures old(state).blocks <= state.blocks && state.pool == old(state).pool
      ensures imported < |fetched| && imported < limit ==>
        fetched[imported].0.None? || Stopped(env, state, fetched[imported].0.value, fetched[imported].1)
    {
      hide Consistent, Imported, Replays, Grows, Indexed, PlaceAll, Run, Restored, PeerBlockOk;
      imported := 0;
      ghost var first := state.height;
      var height := state.height + 1;
      while imported < |fetched| && imported < limit
        invariant Consistent(env, state) && state.height == first + imported && height == state.height + 1 && imported <= limit
        invariant old(state).blocks <= state.blocks && state.pool == old(state).pool
        decreases |fetched| - imported
      {
        var (answer, now) := fetched[imported];
        ghost var before := state;
        StoppedByCheck(env, before, now);
        if answer.None? {
          return;
        }
        var b := answer.value;
        var ok := ValidatePeerBlock(b, height);
        if !ok {
          return;
        }
        NothingAbove(env, before);
        HashOfPeer(env, before, b);
        var r := ImportPeerBlock(b, now);
        if r.Refused? {
          RestoredConsistent(env, before, now);
          RestoredShape(before, now);
          return;
        }
        ImportedConsistent(env, before, b, now);
        ImportedGrows(env, before, b, now);
        GrowsShape(env, before, state, state.blocks[|state.blocks| - 1], now);
        imported := imported + 1;
        height := height + 1;
      }
    }

    // ---- validation and audit ---------------------------------------------------------------------------

    /** `validateBlockRecord` with `replayBlockForValidation`: whatever the verdict, a block that gets as
        far as the replay leaves the state with copied accounts, any other leaves it as it was. */
    method ValidateBlockRecord(b: Block, now: Moment) returns (valid: bool)
      modifies this
      ensures valid <==> RecordValid(env, old(state), b, now)
      ensures state == Validated(old(state), b, now)
    {
      hide Passed, RootsAgree, Copied;
      if b.number == 0 || b.hash == "" || b.hash == ZeroHash || b.stateRoot == "" || b.stateRoot == ZeroHash || b.receiptRoot == "" {
        return false;
      }
      if b.number <= 1 {
        return false;
      }
      var parent := HashAt(state.canonical, b.number - 1);
      if parent == "" || b.parent != parent {
        return false;
      }
      if b.number - 1 !in state.snapshots || !state.snapshots[b.number - 1].complete {
        return false;
      }
      var before := state;
      var copy := CopyAccounts(now.saved);
      var snapshot := state.snapshots[b.number - 1];
      state := state.(height := snapshot.height, accounts := snapshot.accounts);
      ReplayTouchesNothing(env, state.(height := b.number, replayMode := true), b, |b.txs|, now);
      var mined, rs;
      valid, mined, rs := ReplayBlock(b, now);
      RestoreReplayState(before, copy);
    }

    /** The audit's records of a block that passed. */
    method KeepAudited(mined: seq<Tx>, rs: seq<Receipt>)
      requires |mined| == |rs|
      modifies this
      ensures state == Audited(old(state), mined, rs, |mined|)
    {
      hide Recorded;
      ghost var start := state;
      for i := 0 to |mined|
        invariant state == Audited(start, mined, rs, i)
      {
        Record(mined[i], rs[i]);
      }
    }

    /** The loop of `replayChain` over the blocks above genesis. */
    method AuditBlocks(now: Moment) returns (valid: bool, checked: nat)
      requires state.blocks != []
      modifies this
      ensures Audit(state, checked, valid).(state := AuditTo(env, old(state), old(state).blocks, |old(state).blocks|, now).state)
              == AuditTo(env, old(state), old(state).blocks, |old(state).blocks|, now)
      ensures Untouched(old(state), state)
    {
      hide Passed, Replays, Audited, PlaceAll, AuditTo;
      ghost var start := state;
      var blocks := state.blocks;
      var genesis := blocks[0];
      var parentHash := genesis.hash;
      valid, checked := true, 0;
      AuditFirst(env, start, blocks, now);
      for i := 1 to |blocks|
        invariant valid && parentHash == blocks[i - 1].hash
        invariant Audit(state, checked, true) == AuditTo(env, start, blocks, i, now)
      {
        AuditTouchesNothing(env, start, blocks, i, now);
        AuditNext(env, start, blocks, i, now);
        var b := blocks[i];
        if b.number != genesis.number + i || b.parent != parentHash {
          valid := false;
          AuditStops(env, start, blocks, i + 1, now);
          return;
        }
        ReplayTouchesNothing(env, state.(height := b.number, replayMode := true), b, |b.txs|, now);
        var agrees, mined, rs := ReplayBlock(b, now);
        if !agrees {
          valid := false;
          AuditStops(env, start, blocks, i + 1, now);
          return;
        }
        KeepAudited(mined, rs);
        checked := checked + 1;
        parentHash := b.hash;
      }
      AuditTouchesNothing(env, start, blocks, |blocks|, now);
    }

    /** `replayChain`: on every path out the state is as before, with copied accounts unless there was
        no block at all. */
    method ReplayChain(now: Moment) returns (valid: bool, checked: nat)
      modifies this
      ensures (valid, checked) == AuditResult(env, old(state), now)
      ensures state == AfterAudit(old(state), now)
    {
      hide AuditTo, Copied;
      if state.blocks == [] {
        return false, 0;
      }
      var before := state;
      var copy := CopyAccounts(now.saved);
      var g := state.blocks[0].number;
      if g !in state.snapshots || !state.snapshots[g].complete {
        RestoreReplayState(before, copy);
        return false, 0;
      }
      var snapshot := state.snapshots[g];
      state := state.(height := snapshot.height, accounts := snapshot.accounts, receipts := map[], logs := [], txs := [],
                      withdrawals := map[], anchors := map[], replayMode := true);
      valid, checked := AuditBlocks(now);
      RestoreReplayState(before, copy);
    }

    // ---- reorganisation -----------------------------------------------------------------------------------

    /** The loop over the blocks in `handleReorg`. */
    method DropBlocks(h: nat) returns (removed: seq<Tx>)
      modifies this
      ensures removed == RemovedTxs(old(state).blocks, h)
      ensures state == old(state).(blocks := BlocksBelow(old(state).blocks, h),
                                   canonical := old(state).canonical - RemovedNumbers(old(state).blocks, h))
    {
      hide BlocksBelow, RemovedTxs, StripAll, RemovedNumbers;
      var all := state.blocks;
      var kept: seq<Block>, canonical := [], state.canonical;
      removed := [];
      DropStart(h, canonical);
      for i := 0 to |all|
        invariant state == old(state) && kept == BlocksBelow(all[..i], h) && removed == RemovedTxs(all[..i], h)
        invariant canonical == state.canonical - RemovedNumbers(all[..i], h)
      {
        DropStep(all, i, h);
        if all[i].number >= h {
          removed := removed + StripAll(all[i].txs);
          canonical := canonical - {all[i].number};
        } else {
          kept := kept + [all[i]];
        }
      }
      assert all[..|all|] == all;
      state := state.(blocks := kept, canonical := canonical);
    }

    /** The filtering loop over the transactions. */
    method FilterTxs(txs: seq<Tx>, gone: set<Hash>) returns (kept: seq<Tx>)
      ensures kept == TxsWithout(txs, gone)
    {
      kept := [];
      for i := 0 to |txs|
        invariant kept == TxsWithout(txs[..i], gone)
      {
        assert txs[..i + 1][..i] == txs[..i];
        if txs[i].hash !in gone {
          kept := kept + [txs[i]];
        }
      }
      assert txs[..|txs|] == txs;
    }

    /** The filtering loop over the logs. */
    method FilterLogs(logs: seq<Log>, h: nat, gone: set<Hash>) returns (kept: seq<Log>)
      ensures kept == LogsWithout(logs, h, gone)
    {
      kept := [];
      for i := 0 to |logs|
        invariant kept == LogsWithout(logs[..i], h, gone)
      {
        assert logs[..i + 1][..i] == logs[..i];
        if !(logs[i].place.number >= h || logs[i].txHash in gone) {
          kept := kept + [logs[i]];
        }
      }
      assert logs[..|logs|] == logs;
    }

    /** The filtering loop over the trie commits. */
    method FilterCommits(commits: seq<Commit>, h: nat) returns (kept: seq<Commit>)
      ensures kept == CommitsBelow(commits, h)
    {
      kept := [];
      for i := 0 to |commits|
        invariant kept == CommitsBelow(commits[..i], h)
      {
        assert commits[..i + 1][..i] == commits[..i];
        if commits[i].height < h {
          kept := kept + [commits[i]];
        }
      }
      assert commits[..|commits|] == commits;
    }

    /** `handleReorg`. */
    method HandleReorg(h: nat, newHash: Hash) returns (acted: bool)
      modifies this
      ensures acted <==> CanReorg(old(state), h, newHash)
      ensures state == if acted then Reorged(old(state), h) else old(state)
    {
      hide BlocksBelow, RemovedTxs, TxsWithout, LogsWithout, CommitsBelow, RemovedNumbers, HashesOf;
      if h <= 1 {
        return false;
      }
      var oldHash := HashAt(state.canonical, h);
      if oldHash == "" || oldHash == newHash {
        return false;
      }
      if h - 1 !in state.snapshots {
        return false;
      }
      var snapshot := state.snapshots[h - 1];
      var removed := DropBlocks(h);
      var gone := HashesOf(removed);
      state := state.(height := snapshot.height, accounts := snapshot.accounts);
      var txs := FilterTxs(state.txs, gone);
      var logs := FilterLogs(state.logs, h, gone);
      var commits := FilterCommits(state.commits, h);
      state := state.(txs := txs, logs := logs, commits := commits);
      state := state.(receipts := map k | k in state.receipts && k !in gone :: state.receipts[k],
                      withdrawals := map k | k in state.withdrawals && state.withdrawals[k].l2TxHash !in gone :: state.withdrawals[k],
                      anchors := map n | n in state.anchors && n < h :: state.anchors[n],
                      snapshots := map n | n in state.snapshots && n < h :: state.snapshots[n],
                      index := map k | k in state.index && !(state.index[k].canonical && state.index[k].height >= h) :: state.index[k]);
      state := state.(pool := state.pool + removed);
      return true;
    }
  }
}
