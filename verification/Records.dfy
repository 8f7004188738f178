/**
 What the node remembers about transactions. As long as all transactions brought to a node have
 different, non-empty hashes, in every state a run reaches the remembered transactions are those of
 the blocks in order, there is a receipt for exactly those, each naming the block and index where
 its transaction sits, a withdrawal for exactly the withdraw calls among them, every log belongs to
 one of them, and there is an anchor for exactly the blocks above genesis.
 */
module Records {
  import opened Outcomes
  import opened Ledger
  import opened CodeKeys
  import opened Chain
  import opened ChainLaws
  import opened Reorg
  import opened Runs

  // ---- transactions with different hashes -----------------------------------------------------------------

  /** The transactions of a list of blocks as recorded there. */
  function ChainTxs(blocks: seq<Block>): seq<Tx> {
    if blocks == [] then [] else ChainTxs(blocks[..|blocks| - 1]) + blocks[|blocks| - 1].txs
  }

  lemma {:induction false} ChainTxsAppend(xs: seq<Block>, ys: seq<Block>)
    ensures ChainTxs(xs + ys) == ChainTxs(xs) + ChainTxs(ys)
    decreases |ys|
  {
    if ys == [] {
      assert xs + ys == xs;
    } else {
      var n := |ys| - 1;
      assert (xs + ys)[..|xs + ys| - 1] == xs + ys[..n];
      ChainTxsAppend(xs, ys[..n]);
    }
  }

  lemma ChainTxsOne(b: Block)
    ensures ChainTxs([b]) == b.txs
  {
    assert [b][..0] == [] && ChainTxs([b][..0]) == [];
  }

  lemma {:induction false} ChainTxsStripped(blocks: seq<Block>)
    ensures StripAll(ChainTxs(blocks)) == TxsOf(blocks)
  {
    hide StripAll;
    if blocks == [] {
      EmptyStrip();
    } else {
      var n := |blocks| - 1;
      ChainTxsStripped(blocks[..n]);
      StripAppend(ChainTxs(blocks[..n]), blocks[n].txs);
    }
  }

  /** Different transactions have different hashes, none of them empty, and none occurs twice. */
  ghost predicate Unique(m: multiset<Tx>) {
    && (forall t :: t in m ==> m[t] == 1 && t.hash != "")
    && (forall t, u :: t in m && u in m && t.hash == u.hash ==> t == u)
  }

  lemma UniquePart(m: multiset<Tx>, n: multiset<Tx>)
    requires Unique(m + n)
    ensures Unique(m)
  {
    forall t | t in m
      ensures t in m + n && m[t] == 1
    {
      assert (m + n)[t] == m[t] + n[t];
      assert (m + n)[t] == 1;
    }
  }

  predicate Distinct(txs: seq<Tx>) {
    && (forall i :: 0 <= i < |txs| ==> txs[i].hash != "")
    && (forall i, j :: 0 <= i < j < |txs| ==> txs[i].hash != txs[j].hash)
  }

  lemma CountTwo(txs: seq<Tx>, i: nat, j: nat)
    requires i < j < |txs| && txs[i] == txs[j]
    ensures multiset(txs)[txs[i]] >= 2
  {
    var front, back := txs[..j], txs[j..];
    assert txs == front + back;
    assert front[i] in multiset(front) && back[0] in multiset(back);
  }

  lemma UniqueDistinct(txs: seq<Tx>)
    requires Unique(multiset(StripAll(txs)))
    ensures Distinct(txs)
  {
    var ys := StripAll(txs);
    forall i | 0 <= i < |txs|
      ensures txs[i].hash != ""
    {
      assert ys[i] in multiset(ys);
    }
    forall i, j | 0 <= i < j < |txs|
      ensures txs[i].hash != txs[j].hash
    {
      assert ys[i] in multiset(ys) && ys[j] in multiset(ys);
      if ys[i] == ys[j] {
        CountTwo(ys, i, j);
      }
    }
  }

  /** The chain's transactions followed by the waiting ones. */
  function Held(s: State): seq<Tx> {
    ChainTxs(s.blocks) + s.pool
  }

  lemma HeldDistinct(s: State)
    requires Unique(Holdings(s))
    ensures Distinct(Held(s))
  {
    hide StripAll, Unique, Distinct;
    ChainTxsStripped(s.blocks);
    StripAppend(ChainTxs(s.blocks), s.pool);
    assert multiset(StripAll(Held(s))) == Holdings(s);
    UniqueDistinct(Held(s));
  }

  /** No transaction of the list has the hash. */
  predicate Absent(txs: seq<Tx>, hash: Hash) {
    forall i :: 0 <= i < |txs| ==> txs[i].hash != hash
  }

  // ---- what the records say about a list of transactions -----------------------------------------------------

  /** A call of the bridge that asks for a withdrawal. */
  predicate Withdraws(env: Env, tx: Tx) {
    && tx.from != "" && tx.to != "" && tx.to == env.bridge
    && (env.selector(tx.input) == "0x7a0f1d9e" || env.mentions(tx.input, "withdraw"))
  }

  lemma WithdrawsIff(env: Env, tx: Tx)
    ensures Withdraws(env, tx) <==> CallsBridge(env, tx) && IsWithdraw(env, tx) && tx.from != ""
  {
  }

  /** The name of the event that a bridge call leaves: anchors before withdrawals before transfers. */
  function EventName(env: Env, input: string): string {
    if env.selector(input) == "0x3de90c0b" || env.mentions(input, "anchor") then "AnchorSubmitted"
    else if env.selector(input) == "0x7a0f1d9e" || env.mentions(input, "withdraw") then "WithdrawalInitiated"
    else "BridgeTransfer"
  }

  /** The logs a receipt must hold: one for a bridge call, with the event, the sender and the bridge as
      topics and the value as data, and none for anything else. */
  ghost predicate LogsRight(env: Env, r: Receipt, tx: Tx) {
    if tx.to != "" && tx.to == env.bridge then
      && |r.logs| == 1 && r.logs[0].data.address == env.bridge && r.logs[0].data.value == tx.value
      && r.logs[0].data.topics == [env.topic(EventName(env, tx.input)), env.padded(tx.from), env.padded(env.bridge)]
    else r.logs == []
  }

  lemma SeenLogs(env: Env, r: Receipt, tx: Tx)
    requires Seen(r) == OutcomeOf(env, tx)
    ensures LogsRight(env, r, tx)
  {
    assert |Seen(r).logs| == |r.logs|;
    assert BridgeTopic(env, tx) == env.topic(EventName(env, tx.input));
    if tx.to != "" && tx.to == env.bridge {
      assert Seen(r).logs[0] == r.logs[0].data;
    }
  }

  predicate WithdrawalFits(env: Env, w: Withdrawal, tx: Tx) {
    && w.id == tx.hash && w.l2TxHash == tx.hash && w.recipient == tx.from && w.amount == tx.value
    && !w.processed && !w.challenged && w.deadline == w.createdAt + env.challengeSeconds
  }

  /** There is a withdrawal for exactly the withdraw calls among the transactions. */
  ghost predicate WithdrawalsOk(env: Env, m: map<Hash, Withdrawal>, txs: seq<Tx>) {
    && (forall k :: k in m ==> exists j :: 0 <= j < |txs| && txs[j].hash == k && Withdraws(env, txs[j]))
    && (forall j :: 0 <= j < |txs| && Withdraws(env, txs[j]) ==>
          txs[j].hash in m && WithdrawalFits(env, m[txs[j].hash], txs[j]))
  }

  /** A receipt of a transaction at its place. */
  predicate ReceiptFits(env: Env, r: Receipt, tx: Tx) {
    && r.txHash == tx.hash && tx.place == Some(r.place) && r.from == tx.from && r.to == tx.to && r.status == 1
    && Seen(r) == OutcomeOf(env, tx)
    && forall l :: l in r.logs ==> l.txHash == tx.hash && l.place == r.place
  }

  /** There is a receipt for exactly the transactions. */
  ghost predicate ReceiptsOk(env: Env, m: map<Hash, Receipt>, txs: seq<Tx>) {
    && (forall k :: k in m ==> exists j :: 0 <= j < |txs| && txs[j].hash == k)
    && (forall j :: 0 <= j < |txs| ==> txs[j].hash in m && ReceiptFits(env, m[txs[j].hash], txs[j]))
  }

  /** The log a locally mined withdraw call leaves besides that of its receipt. */
  predicate IsNotice(env: Env, l: Log, tx: Tx) {
    && Withdraws(env, tx) && l.data == LogData(env.bridge, [env.topic("WithdrawalInitiated"), env.padded(tx.from)], tx.value)
    && tx.place.Some? && l.place.number < tx.place.value.number
  }

  /** A log that one of the transactions left. */
  ghost predicate LogFits(env: Env, l: Log, receipts: map<Hash, Receipt>, tx: Tx) {
    l.txHash == tx.hash && tx.hash in receipts && (l in receipts[tx.hash].logs || IsNotice(env, l, tx))
  }

  /** The logs of all receipts are there, and every log was left by one of the transactions. */
  ghost predicate LogsOk(env: Env, logs: seq<Log>, receipts: map<Hash, Receipt>, txs: seq<Tx>) {
    && (forall k, l :: k in receipts && l in receipts[k].logs ==> l in logs)
    && (forall l :: l in logs ==> exists j :: 0 <= j < |txs| && LogFits(env, l, receipts, txs[j]))
  }

  /** The records of transactions: list, receipts, logs and withdrawals. */
  ghost predicate Remembers(env: Env, s: State, txs: seq<Tx>) {
    s.txs == txs && ReceiptsOk(env, s.receipts, txs) && LogsOk(env, s.logs, s.receipts, txs) && WithdrawalsOk(env, s.withdrawals, txs)
  }

  // ---- one more transaction ----------------------------------------------------------------------------------

  lemma WithdrawalsGrow(env: Env, m: map<Hash, Withdrawal>, txs: seq<Tx>, tx: Tx, w: Withdrawal)
    requires WithdrawalsOk(env, m, txs) && Absent(txs, tx.hash)
    requires Withdraws(env, tx) ==> WithdrawalFits(env, w, tx)
    ensures WithdrawalsOk(env, if Withdraws(env, tx) then m[tx.hash := w] else m, txs + [tx])
  {
    hide Withdraws, WithdrawalFits;
    var n, us := |txs|, txs + [tx];
    assert us[n] == tx && forall i :: 0 <= i < n ==> us[i] == txs[i];
    forall k | k in m
      ensures exists j :: 0 <= j < |us| && us[j].hash == k && Withdraws(env, us[j])
    {
      var j :| 0 <= j < |txs| && txs[j].hash == k && Withdraws(env, txs[j]);
      assert us[j].hash == k && Withdraws(env, us[j]);
    }
  }

  lemma ReceiptsGrow(env: Env, m: map<Hash, Receipt>, txs: seq<Tx>, tx: Tx, r: Receipt)
    requires ReceiptsOk(env, m, txs) && Absent(txs, tx.hash) && ReceiptFits(env, r, tx)
    ensures tx.hash !in m && ReceiptsOk(env, m[tx.hash := r], txs + [tx])
  {
    hide ReceiptFits;
    var n, us := |txs|, txs + [tx];
    assert us[n] == tx && forall i :: 0 <= i < n ==> us[i] == txs[i];
    forall k | k in m
      ensures exists j :: 0 <= j < |us| && us[j].hash == k
    {
      var j :| 0 <= j < |txs| && txs[j].hash == k;
      assert us[j].hash == k;
    }
  }

  lemma LogsGrow(env: Env, logs: seq<Log>, m: map<Hash, Receipt>, txs: seq<Tx>, tx: Tx, r: Receipt, more: seq<Log>)
    requires LogsOk(env, logs, m, txs) && tx.hash !in m && ReceiptFits(env, r, tx)
    requires forall l :: l in more ==> l.txHash == tx.hash && IsNotice(env, l, tx)
    ensures LogsOk(env, logs + more + r.logs, m[tx.hash := r], txs + [tx])
  {
    hide IsNotice, OutcomeOf, Seen;
    var n, us, all, m' := |txs|, txs + [tx], logs + more + r.logs, m[tx.hash := r];
    assert us[n] == tx && forall i :: 0 <= i < n ==> us[i] == txs[i];
    forall l | l in all
      ensures exists j :: 0 <= j < |us| && LogFits(env, l, m', us[j])
    {
      if l in logs {
        var j :| 0 <= j < |txs| && LogFits(env, l, m, txs[j]);
        assert LogFits(env, l, m', us[j]);
      } else {
        assert LogFits(env, l, m', us[n]);
      }
    }
  }

  /** What a transaction writes besides accounts: a withdrawal, a notice outside replay, perhaps an
      anchor for its block and tries at the current height. */
  ghost predicate Writes(env: Env, s: State, t: State, tx: Tx, number: nat, w: Withdrawal, more: seq<Log>) {
    && (Withdraws(env, tx) ==> WithdrawalFits(env, w, tx))
    && t.withdrawals == (if Withdraws(env, tx) then s.withdrawals[tx.hash := w] else s.withdrawals)
    && t.logs == s.logs + more && (s.replayMode ==> more == [])
    && (forall l :: l in more ==>
          && Withdraws(env, tx) && l.txHash == tx.hash && l.place.number == s.height
          && l.data == LogData(env.bridge, [env.topic("WithdrawalInitiated"), env.padded(tx.from)], tx.value))
    && (forall n :: n in s.anchors && n != number ==> n in t.anchors && t.anchors[n] == s.anchors[n])
    && (forall n :: n in t.anchors && n != number ==> n in s.anchors)
    && (CommitsOk(s.commits, s.height) ==> CommitsOk(t.commits, s.height))
    && (forall c :: c in s.commits ==> c in t.commits)
  }

  /** Tries are recorded once per height, up to the current one. */
  predicate CommitsOk(commits: seq<Commit>, height: nat) {
    && (forall i :: 0 <= i < |commits| ==> commits[i].height <= height)
    && (forall i, j :: 0 <= i < j < |commits| ==> commits[i] != commits[j])
  }

  lemma {:induction false} PersistOk(commits: seq<Commit>, tries: seq<Trie>, height: nat)
    requires CommitsOk(commits, height)
    ensures CommitsOk(PersistAll(commits, tries, height), height)
  {
    if tries != [] {
      PersistOk(commits, tries[..|tries| - 1], height);
    }
  }

  /** Persisting adds the tries at the height and drops nothing. */
  lemma {:induction false} PersistHolds(commits: seq<Commit>, tries: seq<Trie>, height: nat)
    ensures forall c :: c in commits ==> c in PersistAll(commits, tries, height)
    ensures forall t :: t in tries ==> Commit(t, height) in PersistAll(commits, tries, height)
  {
    if tries != [] {
      var n := |tries| - 1;
      PersistHolds(commits, tries[..n], height);
      forall t | t in tries
        ensures t in tries[..n] || t == tries[n]
      {
        assert tries == tries[..n] + [tries[n]];
      }
    }
  }

  lemma InitiateWrites(env: Env, s: State, tx: Tx, number: nat, now: Moment) returns (w: Withdrawal, more: seq<Log>)
    requires tx.hash != "" && Withdraws(env, tx)
    ensures Writes(env, s, InitiateWithdrawal(env, s, tx, now), tx, number, w, more)
  {
    hide CommitsOk, CallsBridge, IsWithdraw;
    var t := InitiateWithdrawal(env, s, tx, now);
    w, more := t.withdrawals[tx.hash], t.logs[|s.logs|..];
  }

  lemma AnchorWrites(env: Env, s: State, tx: Tx, at: Place, now: Moment)
    ensures var t := SubmitAnchor(env, s, tx, at, now);
      && t.withdrawals == s.withdrawals && t.logs == s.logs
      && (forall n :: n in s.anchors && n != at.number ==> n in t.anchors && t.anchors[n] == s.anchors[n])
      && (forall n :: n in t.anchors && n != at.number ==> n in s.anchors)
      && (CommitsOk(s.commits, s.height) ==> CommitsOk(t.commits, s.height))
      && (forall c :: c in s.commits ==> c in t.commits)
  {
    hide CommitsOk, PersistAll;
    var tries := env.stateTries(Copied(s.accounts, now.anchor(at.number, at.index)));
    PersistHolds(s.commits, tries, s.height);
    if CommitsOk(s.commits, s.height) {
      PersistOk(s.commits, tries, s.height);
    }
  }

  lemma BridgeWrites(env: Env, s: State, tx: Tx, at: Place, now: Moment) returns (w: Withdrawal, more: seq<Log>)
    requires tx.hash != "" && CallsBridge(env, tx)
    ensures Writes(env, s, BridgeEffects(env, s, tx, at, now), tx, at.number, w, more)
  {
    hide CommitsOk, CallsBridge, IsWithdraw, IsAnchor, InitiateWithdrawal, SubmitAnchor, WithdrawalFits, Withdraws;
    WithdrawsIff(env, tx);
    w, more := Withdrawal("", "", "", 0, 0, false, false, 0), [];
    var s1 := s;
    if Withdraws(env, tx) {
      w, more := InitiateWrites(env, s, tx, at.number, now);
      s1 := InitiateWithdrawal(env, s, tx, now);
      WithdrawalFacts(env, s, tx, now);
    } else {
      assert Writes(env, s, s, tx, at.number, w, more);
    }
    AnchorWrites(env, s1, tx, at, now);
  }

  lemma AppliedWrites(env: Env, s: State, tx: Tx, at: Place, now: Moment) returns (w: Withdrawal, more: seq<Log>)
    requires tx.hash != ""
    ensures Writes(env, s, Applied(env, s, tx, at, now), tx, at.number, w, more)
  {
    hide CommitsOk, IsWithdraw, BridgeEffects, WithdrawalFits, CallsBridge, Transfer, Execute, Withdraws;
    WithdrawsIff(env, tx);
    w, more := Withdrawal("", "", "", 0, 0, false, false, 0), [];
    var s1 := s.(accounts := Transfer(s.accounts, tx));
    if CallsBridge(env, tx) {
      w, more := BridgeWrites(env, s1, tx, at, now);
    }
  }

  lemma ReceiptOfFits(env: Env, s: State, tx: Tx, at: Place, now: Moment)
    ensures ReceiptFits(env, ReceiptOf(env, s, tx, at, now), Placed(tx, at.blockHash, at.number, at.index))
  {
    hide Applied, LogsOf, Seen;
    ReceiptSeen(env, s, tx, at, now);
    var u := Placed(tx, at.blockHash, at.number, at.index);
    assert OutcomeOf(env, u) == OutcomeOf(env, tx) by {
      assert Strip(u) == Strip(tx);
      StepIgnoresPlace(env, NoAccounts(), u, tx);
    }
  }

  // ---- mining ------------------------------------------------------------------------------------------------

  lemma PlacedSame(env: Env, tx: Tx, w: Withdrawal, hash: Hash, number: nat, index: nat)
    ensures var u := Placed(tx, hash, number, index);
      u.hash == tx.hash && (Withdraws(env, u) <==> Withdraws(env, tx)) && (WithdrawalFits(env, w, u) <==> WithdrawalFits(env, w, tx))
  {
  }

  lemma OneRecorded(env: Env, s: State, txs: seq<Tx>, tx: Tx, at: Place, now: Moment)
    requires Remembers(env, s, txs) && Absent(txs, tx.hash) && tx.hash != "" && s.height < at.number
    ensures var u := Placed(tx, at.blockHash, at.number, at.index);
      Remembers(env, Recorded(Applied(env, s, tx, at, now), u, ReceiptOf(env, s, tx, at, now)), txs + [u])
  {
    hide Applied, ReceiptOf, ReceiptFits, WithdrawalFits, Withdraws, ReceiptsOk, LogsOk, WithdrawalsOk, CommitsOk, Step;
    var w, more := AppliedWrites(env, s, tx, at, now);
    AppliedFacts(env, s, tx, at, now);
    ReceiptOfFits(env, s, tx, at, now);
    var u, r := Placed(tx, at.blockHash, at.number, at.index), ReceiptOf(env, s, tx, at, now);
    PlacedSame(env, tx, w, at.blockHash, at.number, at.index);
    WithdrawalsGrow(env, s.withdrawals, txs, u, w);
    ReceiptsGrow(env, s.receipts, txs, u, r);
    LogsGrow(env, s.logs, s.receipts, txs, u, r, more);
  }

  /** Outside the number of its block, a pass leaves the anchors alone; tries are recorded once. */
  ghost predicate Around(s: State, t: State, number: nat) {
    && t.height == s.height && t.replayMode == s.replayMode
    && (forall n :: n in s.anchors && n != number ==> n in t.anchors && t.anchors[n] == s.anchors[n])
    && (forall n :: n in t.anchors && n != number ==> n in s.anchors)
    && (CommitsOk(s.commits, s.height) ==> CommitsOk(t.commits, t.height))
    && (forall c :: c in s.commits ==> c in t.commits)
  }

  lemma OneAround(env: Env, s: State, t: State, tx: Tx, at: Place, now: Moment, record: bool)
    requires Around(s, t, at.number) && tx.hash != ""
    ensures var next := Applied(env, t, tx, at, now);
      Around(s, if record then Recorded(next, Placed(tx, at.blockHash, at.number, at.index), ReceiptOf(env, t, tx, at, now)) else next, at.number)
  {
    hide Applied, ReceiptOf, CommitsOk, Step, Withdraws, WithdrawalFits;
    var w, more := AppliedWrites(env, t, tx, at, now);
    AppliedFacts(env, t, tx, at, now);
  }

  lemma PlaceOneMore(txs: seq<Tx>, hash: Hash, number: nat, n: nat)
    requires 0 < n <= |txs|
    ensures PlaceAll(txs, hash, number)[..n] == PlaceAll(txs, hash, number)[..n - 1] + [Placed(txs[n - 1], hash, number, n - 1)]
  {
  }

  lemma AbsentNext(done: seq<Tx>, txs: seq<Tx>, hash: Hash, number: nat, n: nat)
    requires Distinct(done + txs) && n < |txs|
    ensures txs[n].hash != "" && Absent(done + PlaceAll(txs, hash, number)[..n], txs[n].hash)
  {
    var all, ds := done + txs, done + PlaceAll(txs, hash, number)[..n];
    assert all[|done| + n] == txs[n];
    forall i | 0 <= i < |ds|
      ensures ds[i].hash != txs[n].hash
    {
      assert ds[i].hash == all[i].hash;
    }
  }

  lemma {:induction false} PassRemembers(env: Env, s: State, done: seq<Tx>, txs: seq<Tx>, n: nat, hash: Hash, number: nat, now: Moment)
    requires n <= |txs| && Remembers(env, s, done) && Distinct(done + txs) && s.height < number
    ensures var t := Passed(env, s, txs, n, hash, number, now, true).state;
      Remembers(env, t, done + PlaceAll(txs, hash, number)[..n]) && Around(s, t, number)
  {
    hide Remembers, Applied, ReceiptOf, Recorded, PlaceAll, CommitsOk, Distinct;
    var mined := PlaceAll(txs, hash, number);
    if n == 0 {
      assert done + mined[..0] == done;
    } else {
      PassRemembers(env, s, done, txs, n - 1, hash, number, now);
      var t := Passed(env, s, txs, n - 1, hash, number, now, true).state;
      var at := Place(hash, number, n - 1);
      AbsentNext(done, txs, hash, number, n - 1);
      OneRecorded(env, t, done + mined[..n - 1], txs[n - 1], at, now);
      OneAround(env, s, t, txs[n - 1], at, now, true);
      PlaceOneMore(txs, hash, number, n);
      assert done + mined[..n] == done + mined[..n - 1] + [Placed(txs[n - 1], hash, number, n - 1)];
    }
  }

  // ---- the records of a chain ----------------------------------------------------------------------------------

  /** The anchor of a block. */
  predicate AnchorFits(a: Anchor, b: Block) {
    a.height == b.number && a.stateRoot == b.stateRoot && a.blockHash == b.hash && a.txHash == b.txRoot
  }

  /** There is an anchor for exactly the blocks above genesis. */
  ghost predicate AnchorsOk(anchors: map<nat, Anchor>, blocks: seq<Block>) {
    && (forall n :: n in anchors ==> 2 <= n <= |blocks|)
    && (forall n :: 2 <= n <= |blocks| ==> n in anchors && AnchorFits(anchors[n], blocks[n - 1]))
  }

  /** The receipt tries of every block above genesis are recorded at its height. */
  ghost predicate TriesHeld(env: Env, commits: seq<Commit>, blocks: seq<Block>) {
    forall n, t :: 2 <= n <= |blocks| && t in env.receiptTries(OutcomesOf(env, blocks[n - 1].txs)) ==> Commit(t, n) in commits
  }

  lemma TriesGrow(env: Env, before: seq<Commit>, commits: seq<Commit>, blocks: seq<Block>, b: Block)
    requires TriesHeld(env, before, blocks) && forall c :: c in before ==> c in commits
    requires forall t :: t in env.receiptTries(OutcomesOf(env, b.txs)) ==> Commit(t, |blocks| + 1) in commits
    ensures TriesHeld(env, commits, blocks + [b])
  {
    hide OutcomesOf;
    var all := blocks + [b];
    forall n, t | 2 <= n <= |all| && t in env.receiptTries(OutcomesOf(env, all[n - 1].txs))
      ensures Commit(t, n) in commits
    {
      assert n <= |blocks| ==> all[n - 1] == blocks[n - 1];
    }
  }

  /** The records are those of the blocks, of which the first has no transactions. */
  ghost predicate RecordsOk(env: Env, s: State) {
    && Remembers(env, s, ChainTxs(s.blocks)) && AnchorsOk(s.anchors, s.blocks) && CommitsOk(s.commits, s.height)
    && TriesHeld(env, s.commits, s.blocks) && s.blocks != [] && s.blocks[0].txs == []
  }

  lemma AnchorsGrow(s: State, t: State, b: Block, a: Anchor)
    requires AnchorsOk(s.anchors, s.blocks) && |s.blocks| >= 1 && b.number == |s.blocks| + 1
    requires Around(s, t, b.number) && AnchorFits(a, b)
    ensures AnchorsOk(t.anchors[b.number := a], s.blocks + [b])
  {
    hide CommitsOk, AnchorFits;
    var blocks := s.blocks + [b];
    var m := t.anchors[b.number := a];
    forall n | 2 <= n <= |blocks|
      ensures n in m && AnchorFits(m[n], blocks[n - 1])
    {
      assert n < b.number ==> blocks[n - 1] == s.blocks[n - 1];
    }
  }

  lemma HigherCommits(commits: seq<Commit>, m: nat, n: nat)
    requires CommitsOk(commits, m) && m <= n
    ensures CommitsOk(commits, n)
  {
  }

  /** The pass over the pool that mining makes. */
  lemma MinedPass(env: Env, s: State, hash: Hash, now: Moment, p: Pass, b: Block)
    requires Consistent(env, s) && RecordsOk(env, s) && Distinct(Held(s))
    requires p == Passed(env, s.(pool := []), s.pool, |s.pool|, hash, s.height + 1, now, true)
    requires b == MinedBlock(env, s, p, s.pool, hash, now)
    ensures Remembers(env, p.state, ChainTxs(s.blocks + [b])) && Around(s, p.state, s.height + 1)
    ensures p.state.blocks == s.blocks && SeenAll(p.receipts) == OutcomesOf(env, b.txs)
  {
    hide Consistent, Passed, PlaceAll, CommitsOk, Distinct, Remembers, ChainTxs, AnchorsOk, TriesHeld, SeenAll, Run, Copied, OutcomesOf, LastHash;
    var n, number, s0 := |s.pool|, s.height + 1, s.(pool := []);
    SameRecords(env, s, s0, ChainTxs(s.blocks));
    PassRemembers(env, s0, ChainTxs(s.blocks), s.pool, n, hash, number, now);
    assert b.txs[..n] == b.txs && s.pool[..n] == s.pool;
    PassedFacts(env, s0, s.pool, n, hash, number, now, true);
    StripOfPlaced(s.pool, hash, number);
    OutcomesIgnorePlace(env, s.pool, b.txs);
    ChainTxsAppend(s.blocks, [b]);
    ChainTxsOne(b);
  }

  lemma MinedRecords(env: Env, s: State, hash: Hash, now: Moment)
    requires Consistent(env, s) && Usable(hash) && RecordsOk(env, s) && Distinct(Held(s))
    ensures RecordsOk(env, Mined(env, s, hash, now))
  {
    hide Consistent, Passed, PlaceAll, CommitsOk, Distinct, Remembers, ChainTxs, Indexed, Usable, PersistAll, AnchorsOk, TriesHeld, SeenAll,
      Copied, OutcomesOf, LastHash;
    var number := s.height + 1;
    var p := Passed(env, s.(pool := []), s.pool, |s.pool|, hash, number, now, true);
    var b := MinedBlock(env, s, p, s.pool, hash, now);
    var t := Mined(env, s, hash, now);
    MinedPass(env, s, hash, now, p, b);
    BlockCount(env, s);
    AnchorsGrow(s, p.state, b, Anchor(b.number, b.stateRoot, b.hash, b.txRoot, now.time));
    assert t.blocks == s.blocks + [b];
    SameRecords(env, p.state, t, ChainTxs(t.blocks));
    TwicePersisted(p.state.commits, env.stateTries(Copied(p.state.accounts, now.root(number))), env.receiptTries(SeenAll(p.receipts)), s.height, number);
    TriesGrow(env, s.commits, t.commits, s.blocks, b);
  }

  lemma TwicePersisted(commits: seq<Commit>, xs: seq<Trie>, ys: seq<Trie>, m: nat, n: nat)
    requires CommitsOk(commits, m) && m <= n
    ensures var all := PersistAll(PersistAll(commits, xs, n), ys, n);
      CommitsOk(all, n) && (forall c :: c in commits ==> c in all) && (forall t :: t in ys ==> Commit(t, n) in all)
  {
    hide CommitsOk, PersistAll;
    PersistHolds(commits, xs, n);
    PersistHolds(PersistAll(commits, xs, n), ys, n);
    HigherCommits(commits, m, n);
    PersistOk(commits, xs, n);
    PersistOk(PersistAll(commits, xs, n), ys, n);
  }

  lemma BlockCount(env: Env, s: State)
    requires Consistent(env, s)
    ensures |s.blocks| == s.height >= 1 && !s.replayMode
  {
    hide LinkOk, Bare, PlainOk;
  }

  lemma SameRecords(env: Env, s: State, t: State, txs: seq<Tx>)
    requires Remembers(env, s, txs)
    requires t.txs == s.txs && t.receipts == s.receipts && t.logs == s.logs && t.withdrawals == s.withdrawals
    ensures Remembers(env, t, txs)
  {
  }

  // ---- importing ---------------------------------------------------------------------------------------------

  lemma OneReplayed(env: Env, s: State, txs: seq<Tx>, tx: Tx, at: Place, now: Moment)
    requires WithdrawalsOk(env, s.withdrawals, txs) && Absent(txs, tx.hash) && tx.hash != "" && s.replayMode
    ensures var t := Applied(env, s, tx, at, now);
      && t.logs == s.logs && t.replayMode
      && WithdrawalsOk(env, t.withdrawals, txs + [Placed(tx, at.blockHash, at.number, at.index)])
  {
    hide Applied, WithdrawalFits, Withdraws, WithdrawalsOk, CommitsOk, Step;
    var w, more := AppliedWrites(env, s, tx, at, now);
    AppliedFacts(env, s, tx, at, now);
    var u := Placed(tx, at.blockHash, at.number, at.index);
    PlacedSame(env, tx, w, at.blockHash, at.number, at.index);
    WithdrawalsGrow(env, s.withdrawals, txs, u, w);
  }

  /** The first receipts fit the first transactions. */
  ghost predicate AllFit(env: Env, receipts: seq<Receipt>, mined: seq<Tx>) {
    |receipts| <= |mined| && forall i :: 0 <= i < |receipts| ==> ReceiptFits(env, receipts[i], mined[i])
  }

  lemma {:induction false} ReplayRemembers(env: Env, s: State, done: seq<Tx>, txs: seq<Tx>, n: nat, hash: Hash, number: nat, now: Moment)
    requires n <= |txs| && WithdrawalsOk(env, s.withdrawals, done) && Distinct(done + txs) && s.replayMode
    ensures var p := Passed(env, s, txs, n, hash, number, now, false);
      && WithdrawalsOk(env, p.state.withdrawals, done + PlaceAll(txs, hash, number)[..n]) && p.state.logs == s.logs
      && Around(s, p.state, number) && AllFit(env, p.receipts, PlaceAll(txs, hash, number))
  {
    hide Applied, ReceiptOf, CommitsOk, Distinct, WithdrawalsOk, ReceiptFits, PlaceAll;
    var mined := PlaceAll(txs, hash, number);
    if n == 0 {
      assert done + mined[..0] == done;
    } else {
      ReplayRemembers(env, s, done, txs, n - 1, hash, number, now);
      var p := Passed(env, s, txs, n - 1, hash, number, now, false);
      var at := Place(hash, number, n - 1);
      AbsentNext(done, txs, hash, number, n - 1);
      OneReplayed(env, p.state, done + mined[..n - 1], txs[n - 1], at, now);
      OneAround(env, s, p.state, txs[n - 1], at, now, false);
      PlaceOneMore(txs, hash, number, n);
      assert done + mined[..n] == done + mined[..n - 1] + [Placed(txs[n - 1], hash, number, n - 1)];
      ReceiptOfFits(env, p.state, txs[n - 1], at, now);
      assert mined[n - 1] == mined[..n][n - 1] == Placed(txs[n - 1], hash, number, n - 1);
    }
  }

  lemma {:induction false} KeptRemembers(env: Env, s: State, done: seq<Tx>, mined: seq<Tx>, receipts: seq<Receipt>, n: nat)
    requires n <= |mined| == |receipts| && AllFit(env, receipts, mined)
    requires s.txs == done && ReceiptsOk(env, s.receipts, done) && LogsOk(env, s.logs, s.receipts, done)
    requires Distinct(done + s.pool + mined)
    ensures var k := Kept(s, mined, receipts, n);
      && k.txs == done + mined[..n] && k.pool == s.pool && ReceiptsOk(env, k.receipts, k.txs) && LogsOk(env, k.logs, k.receipts, k.txs)
      && k == s.(receipts := k.receipts, logs := k.logs, txs := k.txs)
  {
    hide Distinct, ReceiptsOk, LogsOk, ReceiptFits, Known;
    if n > 0 {
      KeptRemembers(env, s, done, mined, receipts, n - 1);
      var k, tx, r := Kept(s, mined, receipts, n - 1), mined[n - 1], receipts[n - 1];
      NewToAll(done, s.pool, mined, n - 1);
      assert !Known(k, tx.hash) by { Unknown(k, tx.hash); }
      ReceiptsGrow(env, k.receipts, k.txs, tx, r);
      LogsGrow(env, k.logs, k.receipts, k.txs, tx, r, []);
      assert k.logs + [] + r.logs == k.logs + r.logs;
      assert done + mined[..n] == done + mined[..n - 1] + [tx];
    }
  }

  lemma Unknown(s: State, hash: Hash)
    requires Absent(s.pool, hash) && Absent(s.txs, hash)
    ensures !Known(s, hash)
  {
  }

  lemma NewToAll(done: seq<Tx>, pool: seq<Tx>, mined: seq<Tx>, n: nat)
    requires Distinct(done + pool + mined) && n < |mined|
    ensures Absent(pool, mined[n].hash) && Absent(done + mined[..n], mined[n].hash)
  {
    var all := done + pool + mined;
    var d := |done| + |pool|;
    assert all[d + n] == mined[n];
    forall i | 0 <= i < |pool|
      ensures pool[i].hash != mined[n].hash
    {
      assert all[|done| + i] == pool[i];
    }
    var ds := done + mined[..n];
    forall i | 0 <= i < |ds|
      ensures ds[i].hash != mined[n].hash
    {
      assert ds[i] == if i < |done| then all[i] else all[i + |pool|];
    }
  }

  lemma DistinctPlaced(done: seq<Tx>, pool: seq<Tx>, txs: seq<Tx>, hash: Hash, number: nat)
    requires Distinct(done + pool + txs)
    ensures Distinct(done + pool + PlaceAll(txs, hash, number)) && Distinct(done + txs)
  {
    var all, placed := done + pool + txs, done + pool + PlaceAll(txs, hash, number);
    assert |all| == |placed| && forall i :: 0 <= i < |all| ==> placed[i].hash == all[i].hash;
    var some := done + txs;
    forall i | 0 <= i < |some|
      ensures some[i] == all[if i < |done| then i else i + |pool|]
    {
    }
  }

  lemma ImportedRecords(env: Env, s: State, b: Block, now: Moment)
    requires Consistent(env, s) && Accepted(env, s, b, now) && RecordsOk(env, s) && Distinct(Held(s) + b.txs)
    ensures RecordsOk(env, Imported(env, s, b, now))
  {
    hide Consistent, Passed, PlaceAll, CommitsOk, Distinct, ChainTxs, Indexed, PersistAll, AnchorsOk, TriesHeld, SeenAll, RootsAgree, HashAt, LastHash, WithdrawalsOk, ReceiptsOk, LogsOk, ReceiptFits, Kept;
    var done, number := ChainTxs(s.blocks), b.number;
    var s0 := s.(height := number, replayMode := true);
    var p := Replayed(env, s, b, now);
    var c := Completed(env, b, p.receipts);
    BlockCount(env, s);
    DistinctPlaced(done, s.pool, b.txs, b.hash, number);
    ReplayRemembers(env, s0, done, b.txs, |b.txs|, b.hash, number, now);
    ReplayedFacts(env, s, b, now);
    assert c.txs[..|c.txs|] == c.txs;
    var s1 := WithReceiptTries(env, p.state.(replayMode := s.replayMode), SeenAll(p.receipts));
    var l := Linked(s1, c, "peer", now);
    KeptRemembers(env, l, done, c.txs, p.receipts, |c.txs|);
    var t := Imported(env, s, b, now);
    assert t.blocks == s.blocks + [c];
    ChainTxsAppend(s.blocks, [c]);
    ChainTxsOne(c);
    HigherCommits(s.commits, s.height, number);
    PersistOk(p.state.commits, env.receiptTries(SeenAll(p.receipts)), number);
    PersistHolds(p.state.commits, env.receiptTries(SeenAll(p.receipts)), number);
    StripOfPlaced(b.txs, b.hash, number);
    OutcomesIgnorePlace(env, b.txs, c.txs);
    TriesGrow(env, s.commits, t.commits, s.blocks, c);
    assert Around(s, p.state.(height := s.height, replayMode := s.replayMode, commits := s.commits), number);
    AnchorsGrow(s, p.state.(height := s.height, replayMode := s.replayMode, commits := s.commits), c,
                Anchor(c.number, c.stateRoot, c.hash, c.txRoot, now.time));
  }

  // ---- reorganising ------------------------------------------------------------------------------------------

  /** A transaction of the blocks has the hash. */
  predicate SitsIn(blocks: seq<Block>, hash: Hash) {
    exists b, i :: 0 <= b < |blocks| && 0 <= i < |blocks[b].txs| && blocks[b].txs[i].hash == hash
  }

  lemma {:induction false} SitsInChain(blocks: seq<Block>, hash: Hash)
    ensures SitsIn(blocks, hash) <==> !Absent(ChainTxs(blocks), hash)
  {
    if blocks != [] {
      var n := |blocks| - 1;
      var front, last := blocks[..n], blocks[n];
      SitsInChain(front, hash);
      var xs, all := ChainTxs(front), ChainTxs(blocks);
      assert all == xs + last.txs;
      assert forall i :: 0 <= i < |last.txs| ==> all[|xs| + i] == last.txs[i];
      assert forall i :: 0 <= i < |xs| ==> all[i] == xs[i];
      if SitsIn(blocks, hash) {
        var b, i :| 0 <= b < |blocks| && 0 <= i < |blocks[b].txs| && blocks[b].txs[i].hash == hash;
        if b < n {
          assert front[b].txs[i].hash == hash;
          assert SitsIn(front, hash);
        } else {
          assert all[|xs| + i].hash == hash;
        }
      }
      if SitsIn(front, hash) {
        var b, i :| 0 <= b < |front| && 0 <= i < |front[b].txs| && front[b].txs[i].hash == hash;
        assert blocks[b].txs[i].hash == hash;
      }
    }
  }

  lemma GoneHash(env: Env, s: State, h: nat, k: Hash)
    requires Consistent(env, s) && 1 <= h <= s.height
    ensures k in HashesOf(RemovedTxs(s.blocks, h)) <==> SitsIn(s.blocks[h - 1..], k)
  {
    hide RemovedTxs, ChainTxs, LinkOk, Bare, PlainOk, TxsOf, BlocksBelow, SitsIn;
    ConsistentNumbered(env, s);
    BelowIsPrefix(s.blocks, h);
    ChainTxsStripped(s.blocks[h - 1..]);
    var xs := ChainTxs(s.blocks[h - 1..]);
    var ys := RemovedTxs(s.blocks, h);
    assert ys == StripAll(xs);
    assert |ys| == |xs| && forall i :: 0 <= i < |xs| ==> ys[i].hash == xs[i].hash;
    SitsInChain(s.blocks[h - 1..], k);
  }

  lemma {:induction false} LogKept(logs: seq<Log>, h: nat, gone: set<Hash>, l: Log)
    ensures l in LogsWithout(logs, h, gone) <==> l in logs && l.place.number < h && l.txHash !in gone
  {
    if logs != [] {
      var n := |logs| - 1;
      LogKept(logs[..n], h, gone, l);
      assert logs == logs[..n] + [logs[n]];
    }
  }

  /** Exactly what belongs to the removed blocks is forgotten, whatever was recorded before. */
  lemma ReorgForgets(env: Env, s: State, h: nat, newHash: Hash, k: Hash, l: Log, n: nat)
    requires Consistent(env, s) && CanReorg(s, h, newHash)
    ensures 1 <= h <= |s.blocks|
    ensures var t, gone := Reorged(s, h), s.blocks[h - 1..];
      && (k in t.receipts <==> k in s.receipts && !SitsIn(gone, k)) && (k in t.receipts ==> t.receipts[k] == s.receipts[k])
      && (k in t.withdrawals <==> k in s.withdrawals && !SitsIn(gone, s.withdrawals[k].l2TxHash))
      && (k in t.withdrawals ==> t.withdrawals[k] == s.withdrawals[k])
      && (l in t.logs <==> l in s.logs && l.place.number < h && !SitsIn(gone, l.txHash))
      && (n in t.anchors <==> n in s.anchors && n < h) && (n in t.anchors ==> t.anchors[n] == s.anchors[n])
  {
    hide Consistent, BlocksBelow, RemovedTxs, HashesOf, ChainTxs, TxsWithout, LogsWithout, CommitsBelow, RemovedNumbers, Absent, SitsIn, HashAt;
    ReorgActsIff(env, s, h, newHash);
    BlockCount(env, s);
    GoneHash(env, s, h, k);
    GoneHash(env, s, h, l.txHash);
    if k in s.withdrawals {
      GoneHash(env, s, h, s.withdrawals[k].l2TxHash);
    }
    LogKept(s.logs, h, HashesOf(RemovedTxs(s.blocks, h)), l);
  }

  lemma {:induction false} KeepAll(txs: seq<Tx>, gone: set<Hash>)
    requires forall i :: 0 <= i < |txs| ==> txs[i].hash !in gone
    ensures TxsWithout(txs, gone) == txs
  {
    if txs != [] {
      KeepAll(txs[..|txs| - 1], gone);
    }
  }

  lemma {:induction false} KeepFirst(keep: seq<Tx>, drop: seq<Tx>, gone: set<Hash>)
    requires forall i :: 0 <= i < |keep| ==> keep[i].hash !in gone
    requires forall i :: 0 <= i < |drop| ==> drop[i].hash in gone
    ensures TxsWithout(keep + drop, gone) == keep
    decreases |drop|
  {
    if drop == [] {
      KeepAll(keep, gone);
      assert keep + drop == keep;
    } else {
      var n := |drop| - 1;
      var all := keep + drop;
      KeepFirst(keep, drop[..n], gone);
      assert all[..|all| - 1] == keep + drop[..n] && all[|all| - 1] == drop[n];
    }
  }

  /** The hashes of the second part, none of them in the first. */
  ghost predicate Splits(keep: seq<Tx>, drop: seq<Tx>, gone: set<Hash>) {
    && (forall i :: 0 <= i < |keep| ==> keep[i].hash !in gone)
    && (forall i :: 0 <= i < |drop| ==> drop[i].hash in gone)
  }

  lemma ReceiptsShrink(env: Env, m: map<Hash, Receipt>, keep: seq<Tx>, drop: seq<Tx>, gone: set<Hash>)
    requires ReceiptsOk(env, m, keep + drop) && Splits(keep, drop, gone)
    ensures ReceiptsOk(env, map k | k in m && k !in gone :: m[k], keep)
  {
    hide ReceiptFits;
    var all := keep + drop;
    assert forall j :: 0 <= j < |all| ==> all[j] == if j < |keep| then keep[j] else drop[j - |keep|];
    forall k | k in m && k !in gone
      ensures exists j :: 0 <= j < |keep| && keep[j].hash == k
    {
      var j :| 0 <= j < |all| && all[j].hash == k;
      assert keep[j].hash == k;
    }
  }

  lemma WithdrawalsShrink(env: Env, m: map<Hash, Withdrawal>, keep: seq<Tx>, drop: seq<Tx>, gone: set<Hash>)
    requires WithdrawalsOk(env, m, keep + drop) && Splits(keep, drop, gone)
    ensures WithdrawalsOk(env, map k | k in m && m[k].l2TxHash !in gone :: m[k], keep)
  {
    hide Withdraws;
    var all := keep + drop;
    assert forall j :: 0 <= j < |all| ==> all[j] == if j < |keep| then keep[j] else drop[j - |keep|];
    forall k | k in m && m[k].l2TxHash !in gone
      ensures exists j :: 0 <= j < |keep| && keep[j].hash == k && Withdraws(env, keep[j])
    {
      var j :| 0 <= j < |all| && all[j].hash == k && Withdraws(env, all[j]);
      assert WithdrawalFits(env, m[all[j].hash], all[j]);
      assert keep[j].hash == k && Withdraws(env, keep[j]);
    }
  }

  /** Every transaction of the list sits below the height. */
  ghost predicate Below(txs: seq<Tx>, h: nat) {
    forall i :: 0 <= i < |txs| ==> txs[i].place.Some? && txs[i].place.value.number < h
  }

  lemma LogsShrink(env: Env, logs: seq<Log>, m: map<Hash, Receipt>, keep: seq<Tx>, drop: seq<Tx>, h: nat, gone: set<Hash>)
    requires LogsOk(env, logs, m, keep + drop) && ReceiptsOk(env, m, keep + drop) && Splits(keep, drop, gone) && Below(keep, h)
    ensures LogsOk(env, LogsWithout(logs, h, gone), map k | k in m && k !in gone :: m[k], keep)
  {
    hide IsNotice, LogsWithout, OutcomeOf, Seen;
    var all, some, m' := keep + drop, LogsWithout(logs, h, gone), map k | k in m && k !in gone :: m[k];
    assert forall j :: 0 <= j < |all| ==> all[j] == if j < |keep| then keep[j] else drop[j - |keep|];
    forall l
      ensures l in some <==> l in logs && l.place.number < h && l.txHash !in gone
    {
      LogKept(logs, h, gone, l);
    }
    forall k, l | k in m' && l in m'[k].logs
      ensures l in some
    {
      assert l in logs;
      var j :| 0 <= j < |all| && all[j].hash == k;
      assert ReceiptFits(env, m[all[j].hash], all[j]);
      assert keep[j].place.value.number < h;
    }
    forall l | l in some
      ensures exists j :: 0 <= j < |keep| && LogFits(env, l, m', keep[j])
    {
      var j :| 0 <= j < |all| && LogFits(env, l, m, all[j]);
      assert LogFits(env, l, m', keep[j]);
    }
  }

  lemma {:induction false} CommitsShrink(commits: seq<Commit>, height: nat, h: nat)
    requires CommitsOk(commits, height) && h >= 1
    ensures CommitsOk(CommitsBelow(commits, h), h - 1)
    ensures forall c :: c in CommitsBelow(commits, h) <==> c in commits && c.height < h
  {
    if commits != [] {
      var n := |commits| - 1;
      var front := commits[..n];
      CommitsShrink(front, height, h);
      assert commits == front + [commits[n]];
      assert commits[n] !in front;
    }
  }

  lemma {:induction false} ChainBelow(env: Env, s: State, n: nat)
    requires Consistent(env, s) && 1 <= n <= s.height && s.blocks[0].txs == []
    ensures Below(ChainTxs(s.blocks[..n]), n + 1)
  {
    hide LinkOk, Bare, PlainOk, PlaceAll;
    var front, last := s.blocks[..n], s.blocks[n - 1];
    if n == 1 {
      assert front == [s.blocks[0]];
      ChainTxsOne(s.blocks[0]);
    } else {
      ChainBelow(env, s, n - 1);
      assert front[..n - 1] == s.blocks[..n - 1];
      BlockPlaced(env, s, n);
    }
  }

  /** A block's transactions say where they sit. */
  lemma BlockPlaced(env: Env, s: State, h: nat)
    requires Consistent(env, s) && 1 < h <= s.height
    ensures var b := s.blocks[h - 1];
      forall i :: 0 <= i < |b.txs| ==> b.txs[i].place == Some(Place(b.hash, h, i))
  {
    hide Bare, PlainOk, Usable, OutcomesOf, Run;
    assert LinkOk(env, s, h);
    var b := s.blocks[h - 1];
    assert b.txs == PlaceAll(b.txs, b.hash, b.number);
    forall i | 0 <= i < |b.txs|
      ensures b.txs[i].place == Some(Place(b.hash, h, i))
    {
      assert b.txs[i] == PlaceAll(b.txs, b.hash, b.number)[i];
    }
  }

  lemma SplitChain(env: Env, s: State, h: nat)
    requires Consistent(env, s) && 1 <= h <= s.height && Distinct(Held(s))
    ensures var keep, drop := ChainTxs(s.blocks[..h - 1]), ChainTxs(s.blocks[h - 1..]);
      ChainTxs(s.blocks) == keep + drop && Splits(keep, drop, HashesOf(RemovedTxs(s.blocks, h)))
  {
    hide Consistent, ChainTxs, HashesOf, RemovedTxs, SitsIn;
    BlockCount(env, s);
    var keep, drop := ChainTxs(s.blocks[..h - 1]), ChainTxs(s.blocks[h - 1..]);
    var gone := HashesOf(RemovedTxs(s.blocks, h));
    ChainTxsAppend(s.blocks[..h - 1], s.blocks[h - 1..]);
    assert s.blocks[..h - 1] + s.blocks[h - 1..] == s.blocks;
    var all := Held(s);
    assert forall i :: 0 <= i < |keep| ==> all[i] == keep[i];
    assert forall i :: 0 <= i < |drop| ==> all[|keep| + i] == drop[i];
    forall i | 0 <= i < |keep|
      ensures keep[i].hash !in gone
    {
      GoneHash(env, s, h, keep[i].hash);
      SitsInChain(s.blocks[h - 1..], keep[i].hash);
    }
    forall i | 0 <= i < |drop|
      ensures drop[i].hash in gone
    {
      GoneHash(env, s, h, drop[i].hash);
      SitsInChain(s.blocks[h - 1..], drop[i].hash);
    }
  }

  lemma AnchorsShrink(anchors: map<nat, Anchor>, blocks: seq<Block>, h: nat)
    requires AnchorsOk(anchors, blocks) && 1 < h <= |blocks|
    ensures AnchorsOk(map n | n in anchors && n < h :: anchors[n], blocks[..h - 1])
  {
    hide AnchorFits;
    var m, front := map n | n in anchors && n < h :: anchors[n], blocks[..h - 1];
    forall n | 2 <= n <= |front|
      ensures n in m && AnchorFits(m[n], front[n - 1])
    {
      assert front[n - 1] == blocks[n - 1];
    }
  }

  lemma TriesShrink(env: Env, commits: seq<Commit>, below: seq<Commit>, blocks: seq<Block>, h: nat)
    requires TriesHeld(env, commits, blocks) && 1 < h <= |blocks|
    requires forall c :: c in commits && c.height < h ==> c in below
    ensures TriesHeld(env, below, blocks[..h - 1])
  {
    hide OutcomesOf;
    var front := blocks[..h - 1];
    forall n, t | 2 <= n <= |front| && t in env.receiptTries(OutcomesOf(env, front[n - 1].txs))
      ensures Commit(t, n) in below
    {
      assert front[n - 1] == blocks[n - 1];
      assert Commit(t, n) in commits;
    }
  }

  lemma ReorgedRecords(env: Env, s: State, h: nat, newHash: Hash)
    requires Consistent(env, s) && CanReorg(s, h, newHash) && RecordsOk(env, s) && Distinct(Held(s))
    ensures RecordsOk(env, Reorged(s, h))
  {
    hide Consistent, CanReorg, ChainTxs, HashesOf, RemovedTxs, BlocksBelow, TxsWithout, LogsWithout, CommitsBelow, Splits, Below,
      ReceiptsOk, LogsOk, WithdrawalsOk, AnchorsOk, TriesHeld, CommitsOk, Distinct, RemovedNumbers;
    BlockCount(env, s);
    ReorgActsIff(env, s, h, newHash);
    var keep, drop := ChainTxs(s.blocks[..h - 1]), ChainTxs(s.blocks[h - 1..]);
    var gone := HashesOf(RemovedTxs(s.blocks, h));
    SplitChain(env, s, h);
    ReceiptsShrink(env, s.receipts, keep, drop, gone);
    WithdrawalsShrink(env, s.withdrawals, keep, drop, gone);
    ChainBelow(env, s, h - 1);
    LogsShrink(env, s.logs, s.receipts, keep, drop, h, gone);
    SplitKeeps(keep, drop, gone);
    AnchorsShrink(s.anchors, s.blocks, h);
    CommitsShrink(s.commits, s.height, h);
    TriesShrink(env, s.commits, CommitsBelow(s.commits, h), s.blocks, h);
    ReorgBlocks(env, s, h, newHash);
  }

  lemma SplitKeeps(keep: seq<Tx>, drop: seq<Tx>, gone: set<Hash>)
    requires Splits(keep, drop, gone)
    ensures TxsWithout(keep + drop, gone) == keep
  {
    KeepFirst(keep, drop, gone);
  }

  lemma ReorgBlocks(env: Env, s: State, h: nat, newHash: Hash)
    requires Consistent(env, s) && CanReorg(s, h, newHash)
    ensures 1 < h <= |s.blocks| && Reorged(s, h).blocks == s.blocks[..h - 1] && Reorged(s, h).height == h - 1
  {
    hide Reorged, LinkOk, Bare, PlainOk, TxsOf;
    ReorgUndoes(env, s, h, newHash);
  }

  // ---- runs --------------------------------------------------------------------------------------------------

  lemma SubmittedRecords(env: Env, s: State, tx: Tx, autoMine: bool, hash: Hash, now: Moment)
    requires Consistent(env, s) && Usable(hash) && RecordsOk(env, s) && Unique(Holdings(s) + multiset{Strip(tx)})
    ensures RecordsOk(env, Submitted(env, s, tx, autoMine, hash, now))
  {
    hide Consistent, Mined, Unique, Remembers, AnchorsOk, TriesHeld, CommitsOk, ChainTxs, Usable, Distinct, Held, Holdings;
    var s1 := s.(pool := s.pool + [tx]);
    SameRecords(env, s, s1, ChainTxs(s.blocks));
    if autoMine {
      PoolGrows(env, s, s1);
      SubmitAdds(env, s, tx, false, hash, now);
      HeldDistinct(s1);
      MinedRecords(env, s1, hash, now);
    }
  }

  lemma PeerDistinct(s: State, txs: seq<Tx>)
    requires Unique(Holdings(s) + multiset(StripAll(txs)))
    ensures Distinct(Held(s) + txs)
  {
    hide StripAll, Unique, Distinct, TxsOf, ChainTxs;
    ChainTxsStripped(s.blocks);
    StripAppend(ChainTxs(s.blocks), s.pool);
    StripAppend(Held(s), txs);
    assert multiset(StripAll(Held(s) + txs)) == Holdings(s) + multiset(StripAll(txs));
    UniqueDistinct(Held(s) + txs);
  }

  lemma RestoredRecords(env: Env, s: State, now: Moment)
    requires RecordsOk(env, s)
    ensures RecordsOk(env, Restored(s, now))
  {
    hide Remembers, AnchorsOk, TriesHeld, CommitsOk, ChainTxs;
    SameRecords(env, s, Restored(s, now), ChainTxs(s.blocks));
  }

  lemma AfterRecords(env: Env, s: State, a: Action)
    requires Consistent(env, s) && Drawn(a) && RecordsOk(env, s) && Unique(Holdings(s) + Brought(env, s, a))
    ensures RecordsOk(env, After(env, s, a))
  {
    hide Consistent, Submitted, Mined, Imported, Reorged, Accepted, CanReorg, Usable, Restored, Examined, PeerBlockOk, RecordsOk, Unique, Holdings, Distinct, Held, StripAll;
    UniquePart(Holdings(s), Brought(env, s, a));
    HeldDistinct(s);
    match a
    case Submit(tx, autoMine, hash, now) => SubmittedRecords(env, s, tx, autoMine, hash, now);
    case Mine(hash, now) => MinedRecords(env, s, hash, now);
    case PeerBlock(b, now) =>
      if Accepted(env, s, b, now) {
        PeerDistinct(s, b.txs);
        ImportedRecords(env, s, b, now);
      } else {
        RestoredRecords(env, s, now);
      }
    case Reorganise(h, newHash) =>
      if CanReorg(s, h, newHash) {
        ReorgedRecords(env, s, h, newHash);
      }
    case AuditChain(now) => RestoredRecords(env, s, now);
    case Validate(b, now) => RestoredRecords(env, s, now);
  }

  /** Over every run that brings transactions with new, different hashes, the records stay those of the
      blocks. */
  lemma {:induction false} RunRecords(env: Env, s: State, actions: seq<Action>)
    requires Consistent(env, s) && AllDrawn(actions) && RecordsOk(env, s) && Unique(Holdings(s) + BroughtAll(env, s, actions))
    ensures RecordsOk(env, AfterAll(env, s, actions))
  {
    hide Consistent, After, Drawn, RecordsOk, Holdings, Brought, Unique;
    if actions != [] {
      var n := |actions| - 1;
      var front := actions[..n];
      var t := AfterAll(env, s, front);
      var brought := BroughtAll(env, s, front);
      assert Holdings(s) + BroughtAll(env, s, actions) == (Holdings(s) + brought) + Brought(env, t, actions[n]);
      UniquePart(Holdings(s) + brought, Brought(env, t, actions[n]));
      RunRecords(env, s, front);
      RunConsistent(env, s, front);
      EveryRunConserves(env, s, front);
      AfterRecords(env, t, actions[n]);
    }
  }

  /** Transaction i of block b. */
  predicate IsAt(blocks: seq<Block>, b: nat, i: nat, tx: Tx) {
    b < |blocks| && i < |blocks[b].txs| && blocks[b].txs[i] == tx
  }

  /** What the records say, block by block. */
  ghost predicate RecordedRight(env: Env, s: State) {
    && (forall k :: k in s.receipts <==> SitsIn(s.blocks, k))
    && (forall b: nat, i: nat, tx :: IsAt(s.blocks, b, i, tx) ==>
          && tx.hash in s.receipts
          && var r := s.receipts[tx.hash];
             && r.txHash == tx.hash && r.place == Place(s.blocks[b].hash, b + 1, i)
             && r.from == tx.from && r.to == tx.to && r.status == 1 && LogsRight(env, r, tx))
    && (forall k :: k in s.withdrawals <==> exists b: nat, i: nat, tx :: IsAt(s.blocks, b, i, tx) && tx.hash == k && Withdraws(env, tx))
    && (forall b: nat, i: nat, tx :: IsAt(s.blocks, b, i, tx) && Withdraws(env, tx) ==>
          && tx.hash in s.withdrawals
          && s.withdrawals[tx.hash].recipient == tx.from && s.withdrawals[tx.hash].amount == tx.value)
    && (forall l :: l in s.logs ==> SitsIn(s.blocks, l.txHash))
    && TriesHeld(env, s.commits, s.blocks)
    && (forall n :: n in s.anchors <==> 2 <= n <= |s.blocks|)
    && (forall n :: 2 <= n <= |s.blocks| ==> s.anchors[n].blockHash == s.blocks[n - 1].hash && s.anchors[n].stateRoot == s.blocks[n - 1].stateRoot)
  }

  lemma {:induction false} InChain(blocks: seq<Block>, tx: Tx)
    ensures tx in ChainTxs(blocks) <==> exists b: nat, i: nat :: IsAt(blocks, b, i, tx)
  {
    if blocks != [] {
      var n := |blocks| - 1;
      var front, last := blocks[..n], blocks[n];
      InChain(front, tx);
      forall b: nat, i: nat
        ensures IsAt(blocks, b, i, tx) <==> IsAt(front, b, i, tx) || (b == n && i < |last.txs| && last.txs[i] == tx)
      {
        assert b < n ==> front[b] == blocks[b];
      }
      if tx in last.txs {
        var i :| 0 <= i < |last.txs| && last.txs[i] == tx;
        assert IsAt(blocks, n, i, tx);
      }
    }
  }

  lemma ReceiptKeys(env: Env, s: State, k: Hash)
    requires RecordsOk(env, s)
    ensures k in s.receipts <==> SitsIn(s.blocks, k)
    ensures forall l :: l in s.logs && l.txHash == k ==> SitsIn(s.blocks, k)
  {
    hide ChainTxs, ReceiptFits, WithdrawalsOk, AnchorsOk, CommitsOk, SitsIn, IsNotice;
    SitsInChain(s.blocks, k);
  }

  lemma PlaceOf(env: Env, s: State, b: nat, i: nat, tx: Tx)
    requires Consistent(env, s) && RecordsOk(env, s) && IsAt(s.blocks, b, i, tx)
    ensures tx in s.txs && tx.place == Some(Place(s.blocks[b].hash, b + 1, i))
  {
    hide Consistent, ChainTxs, ReceiptsOk, LogsOk, WithdrawalsOk, AnchorsOk, CommitsOk;
    BlockCount(env, s);
    InChain(s.blocks, tx);
    var h := b + 1;
    BlockPlaced(env, s, h);
    var block := s.blocks[h - 1];
    assert block.txs[i].place == Some(Place(block.hash, h, i));
  }

  lemma RecordAt(env: Env, s: State, tx: Tx)
    requires RecordsOk(env, s) && tx in s.txs
    ensures tx.hash in s.receipts && ReceiptFits(env, s.receipts[tx.hash], tx)
    ensures Withdraws(env, tx) ==> tx.hash in s.withdrawals && WithdrawalFits(env, s.withdrawals[tx.hash], tx)
  {
    hide ChainTxs, LogsOk, AnchorsOk, CommitsOk, Withdraws, WithdrawalFits, ReceiptFits;
    var j :| 0 <= j < |s.txs| && s.txs[j] == tx;
  }

  lemma WithdrawalKeys(env: Env, s: State, k: Hash)
    requires RecordsOk(env, s)
    ensures k in s.withdrawals <==> exists b: nat, i: nat, tx :: IsAt(s.blocks, b, i, tx) && tx.hash == k && Withdraws(env, tx)
  {
    hide ChainTxs, ReceiptsOk, LogsOk, AnchorsOk, CommitsOk, Withdraws, WithdrawalFits, IsAt;
    if k in s.withdrawals {
      var j :| 0 <= j < |s.txs| && s.txs[j].hash == k && Withdraws(env, s.txs[j]);
      InChain(s.blocks, s.txs[j]);
    }
    if b: nat, i: nat, tx :| IsAt(s.blocks, b, i, tx) && tx.hash == k && Withdraws(env, tx) {
      InChain(s.blocks, tx);
      RecordAt(env, s, tx);
    }
  }

  lemma RecordsMeaning(env: Env, s: State)
    requires Consistent(env, s) && RecordsOk(env, s)
    ensures RecordedRight(env, s)
  {
    hide Consistent, Remembers, CommitsOk, Withdraws, IsAt, SitsIn, ChainTxs, LogsRight, OutcomeOf, Seen;
    forall k
      ensures k in s.receipts <==> SitsIn(s.blocks, k)
      ensures forall l :: l in s.logs && l.txHash == k ==> SitsIn(s.blocks, k)
      ensures k in s.withdrawals <==> exists b: nat, i: nat, tx :: IsAt(s.blocks, b, i, tx) && tx.hash == k && Withdraws(env, tx)
    {
      ReceiptKeys(env, s, k);
      WithdrawalKeys(env, s, k);
    }
    forall b: nat, i: nat, tx | IsAt(s.blocks, b, i, tx)
      ensures b < |s.blocks| && tx.place == Some(Place(s.blocks[b].hash, b + 1, i))
      ensures tx.hash in s.receipts && ReceiptFits(env, s.receipts[tx.hash], tx) && LogsRight(env, s.receipts[tx.hash], tx)
      ensures Withdraws(env, tx) ==> tx.hash in s.withdrawals && WithdrawalFits(env, s.withdrawals[tx.hash], tx)
    {
      assert b < |s.blocks| by { AtBlock(s.blocks, b, i, tx); }
      PlaceOf(env, s, b, i, tx);
      RecordAt(env, s, tx);
      SeenLogs(env, s.receipts[tx.hash], tx);
    }
  }

  lemma AtBlock(blocks: seq<Block>, b: nat, i: nat, tx: Tx)
    requires IsAt(blocks, b, i, tx)
    ensures b < |blocks|
  {
  }

  lemma FreshRecords(env: Env, balances: map<Address, int>, start: int)
    ensures RecordsOk(env, Fresh(env, balances, start)) && Holdings(Fresh(env, balances, start)) == multiset{}
  {
    hide Indexed, PersistAll, CommitsOk;
    var s := Fresh(env, balances, start);
    assert CommitsOk([], 1) by { NoCommits(); }
    PersistOk([], env.stateTries(NoAccounts()), 1);
    ChainTxsOne(s.blocks[0]);
    assert s.blocks == [s.blocks[0]];
    ChainTxsStripped(s.blocks);
  }

  lemma NoCommits()
    ensures CommitsOk([], 1)
  {
  }

  /** After every run from a fresh node in which all transactions brought in have different, non-empty
      hashes: receipts and withdrawals are exactly those of the transactions in the blocks, each where
      its transaction sits. */
  lemma RecordsOfRun(env: Env, balances: map<Address, int>, start: int, actions: seq<Action>)
    requires GoodRoots(env) && AllDrawn(actions) && Unique(BroughtAll(env, Fresh(env, balances, start), actions))
    ensures RecordedRight(env, AfterAll(env, Fresh(env, balances, start), actions))
  {
    hide Fresh, Faithful, RecordsOk, AfterAll, BroughtAll, Unique, Holdings, AllDrawn, GoodRoots, RecordedRight;
    var s := Fresh(env, balances, start);
    FreshRecords(env, balances, start);
    FreshConsistent(env, balances, start);
    assert Holdings(s) + BroughtAll(env, s, actions) == BroughtAll(env, s, actions);
    RunRecords(env, s, actions);
    RunConsistent(env, s, actions);
    RecordsMeaning(env, AfterAll(env, s, actions));
  }

  lemma FreshConsistent(env: Env, balances: map<Address, int>, start: int)
    requires GoodRoots(env)
    ensures Consistent(env, Fresh(env, balances, start))
  {
    hide Fresh, Consistent, CodeOk, Norm, Clash, GoodRoots;
    FreshFaithful(env, balances, start);
  }

  // ---- times ---------------------------------------------------------------------------------------------------

  /** Withdrawals that are not the ones before were opened at the given time. */
  ghost predicate OpenedAt(env: Env, s: State, t: State, time: int) {
    forall k :: k in t.withdrawals ==>
      || (k in s.withdrawals && t.withdrawals[k] == s.withdrawals[k])
      || (t.withdrawals[k].createdAt == time && t.withdrawals[k].deadline == time + env.challengeSeconds)
  }

  lemma InitiateOpens(env: Env, s: State, tx: Tx, now: Moment)
    ensures OpenedAt(env, s, InitiateWithdrawal(env, s, tx, now), now.time)
  {
  }

  lemma BridgeOpens(env: Env, s: State, tx: Tx, at: Place, now: Moment)
    ensures OpenedAt(env, s, BridgeEffects(env, s, tx, at, now), now.time)
  {
    hide InitiateWithdrawal, SubmitAnchor, IsWithdraw, IsAnchor, CommitsOk;
    var s1 := if IsWithdraw(env, tx) && tx.from != "" then InitiateWithdrawal(env, s, tx, now) else s;
    InitiateOpens(env, s, tx, now);
    AnchorWrites(env, s1, tx, at, now);
  }

  lemma AppliedOpens(env: Env, s: State, tx: Tx, at: Place, now: Moment)
    ensures OpenedAt(env, s, Applied(env, s, tx, at, now), now.time)
  {
    hide Transfer, Execute, CallsBridge, BridgeEffects;
    BridgeOpens(env, s.(accounts := Transfer(s.accounts, tx)), tx, at, now);
  }

  lemma {:induction false} PassOpens(env: Env, s: State, txs: seq<Tx>, n: nat, hash: Hash, number: nat, now: Moment, record: bool)
    requires n <= |txs|
    ensures OpenedAt(env, s, Passed(env, s, txs, n, hash, number, now, record).state, now.time)
  {
    hide Applied, ReceiptOf;
    if n > 0 {
      PassOpens(env, s, txs, n - 1, hash, number, now, record);
      AppliedOpens(env, Passed(env, s, txs, n - 1, hash, number, now, record).state, txs[n - 1], Place(hash, number, n - 1), now);
    }
  }

  lemma {:induction false} KeptWithdrawals(s: State, mined: seq<Tx>, receipts: seq<Receipt>, n: nat)
    requires n <= |mined| == |receipts|
    ensures var k := Kept(s, mined, receipts, n);
      k.withdrawals == s.withdrawals && k.anchors == s.anchors && k.blocks == s.blocks
  {
    hide Known;
    if n > 0 {
      KeptWithdrawals(s, mined, receipts, n - 1);
    }
  }

  /** A mined block, its anchor and the withdrawals it opens carry the time of mining, and the challenge
      windows of those end a challenge period later. */
  lemma MinedTimes(env: Env, s: State, hash: Hash, now: Moment)
    ensures var t := Mined(env, s, hash, now);
      && t.blocks != [] && t.blocks[|t.blocks| - 1].timestamp == now.time
      && t.height in t.anchors && t.anchors[t.height].timestamp == now.time && OpenedAt(env, s, t, now.time)
  {
    hide Passed, PersistAll, Indexed, SeenAll, Copied, PlaceAll;
    PassOpens(env, s.(pool := []), s.pool, |s.pool|, hash, s.height + 1, now, true);
  }

  /** An imported block keeps the peer's time; its anchor and withdrawals carry the time of importing. */
  lemma ImportedTimes(env: Env, s: State, b: Block, now: Moment)
    ensures var t := Imported(env, s, b, now);
      && t.blocks != [] && t.blocks[|t.blocks| - 1].timestamp == b.timestamp
      && b.number in t.anchors && t.anchors[b.number].timestamp == now.time && OpenedAt(env, s, t, now.time)
  {
    hide Passed, PersistAll, Indexed, SeenAll, Copied, Kept, PlaceAll;
    PassOpens(env, s.(height := b.number, replayMode := true), b.txs, |b.txs|, b.hash, b.number, now, false);
    var p := Replayed(env, s, b, now);
    var c := Completed(env, b, p.receipts);
    var s1 := WithReceiptTries(env, p.state.(replayMode := s.replayMode), SeenAll(p.receipts));
    KeptWithdrawals(Linked(s1, c, "peer", now), c.txs, p.receipts, |c.txs|);
  }

  // ---- log indices -----------------------------------------------------------------------------------------------

  /** The logs of the receipts sit where their index says. */
  ghost predicate Filed(receipts: seq<Receipt>, logs: seq<Log>) {
    forall i, l :: 0 <= i < |receipts| && l in receipts[i].logs ==> l.logIndex < |logs| && logs[l.logIndex] == l
  }

  lemma ReceiptIndices(env: Env, s: State, tx: Tx, at: Place, now: Moment)
    ensures var r, next := ReceiptOf(env, s, tx, at, now), Applied(env, s, tx, at, now);
      |r.logs| <= 1 && forall l :: l in r.logs ==> l.logIndex == |next.logs|
  {
    hide Applied, BridgeTopic;
  }

  lemma FiledNext(receipts: seq<Receipt>, logs: seq<Log>, more: seq<Log>, r: Receipt)
    requires Filed(receipts, logs) && |r.logs| <= 1 && forall l :: l in r.logs ==> l.logIndex == |logs| + |more|
    ensures Filed(receipts + [r], logs + more + r.logs)
  {
    var rs, all := receipts + [r], logs + more + r.logs;
    forall i, l | 0 <= i < |rs| && l in rs[i].logs
      ensures l.logIndex < |all| && all[l.logIndex] == l
    {
      if i < |receipts| {
        assert l in receipts[i].logs;
      } else {
        assert r.logs == [l];
      }
    }
  }

  lemma {:induction false} PassFiles(env: Env, s: State, txs: seq<Tx>, n: nat, hash: Hash, number: nat, now: Moment)
    requires n <= |txs| && forall i :: 0 <= i < |txs| ==> txs[i].hash != ""
    ensures var p := Passed(env, s, txs, n, hash, number, now, true); Filed(p.receipts, p.state.logs)
  {
    hide Applied, ReceiptOf, Withdraws, WithdrawalFits, CommitsOk, Filed;
    if n == 0 {
      assert Filed([], s.logs) by { NothingFiled(s.logs); }
    } else {
      PassFiles(env, s, txs, n - 1, hash, number, now);
      var p := Passed(env, s, txs, n - 1, hash, number, now, true);
      var tx, at := txs[n - 1], Place(hash, number, n - 1);
      var w, more := AppliedWrites(env, p.state, tx, at, now);
      ReceiptIndices(env, p.state, tx, at, now);
      FiledNext(p.receipts, p.state.logs, more, ReceiptOf(env, p.state, tx, at, now));
    }
  }

  lemma NothingFiled(logs: seq<Log>)
    ensures Filed([], logs)
  {
  }

  /** In a mined block every log of a receipt sits in the node's list where its index says. */
  lemma MinedLogIndex(env: Env, s: State, hash: Hash, now: Moment)
    requires forall i :: 0 <= i < |s.pool| ==> s.pool[i].hash != ""
    ensures Filed(Passed(env, s.(pool := []), s.pool, |s.pool|, hash, s.height + 1, now, true).receipts, Mined(env, s, hash, now).logs)
  {
    hide Passed, PersistAll, Indexed, Filed, MinedBlock, SeenAll, Copied;
    PassFiles(env, s.(pool := []), s.pool, |s.pool|, hash, s.height + 1, now);
  }

  /** In an imported block every log carries the number of logs before the import, so that only the first
      of several sits where its index says. */
  lemma {:induction false} ReplayedLogIndex(env: Env, s: State, txs: seq<Tx>, n: nat, hash: Hash, number: nat, now: Moment)
    requires n <= |txs| && s.replayMode && forall i :: 0 <= i < |txs| ==> txs[i].hash != ""
    ensures var p := Passed(env, s, txs, n, hash, number, now, false);
      && p.state.logs == s.logs && p.state.replayMode
      && forall i, l :: 0 <= i < n && l in p.receipts[i].logs ==> l.logIndex == |s.logs|
  {
    hide Applied, ReceiptOf, Withdraws, WithdrawalFits, CommitsOk, Step;
    if n > 0 {
      ReplayedLogIndex(env, s, txs, n - 1, hash, number, now);
      var p := Passed(env, s, txs, n - 1, hash, number, now, false);
      var tx, at := txs[n - 1], Place(hash, number, n - 1);
      var w, more := AppliedWrites(env, p.state, tx, at, now);
      AppliedFacts(env, p.state, tx, at, now);
      ReceiptIndices(env, p.state, tx, at, now);
    }
  }

  // ---- hashes that come twice ----------------------------------------------------------------------------------

  lemma {:induction false} SitsInAppend(xs: seq<Block>, ys: seq<Block>, k: Hash)
    ensures SitsIn(xs + ys, k) <==> SitsIn(xs, k) || SitsIn(ys, k)
  {
    var all := xs + ys;
    assert forall b :: 0 <= b < |all| ==> all[b] == if b < |xs| then xs[b] else ys[b - |xs|];
    if b, i :| 0 <= b < |xs| && 0 <= i < |xs[b].txs| && xs[b].txs[i].hash == k {
      assert all[b].txs[i].hash == k;
    }
    if b, i :| 0 <= b < |ys| && 0 <= i < |ys[b].txs| && ys[b].txs[i].hash == k {
      assert all[|xs| + b].txs[i].hash == k;
    }
  }

  /** There is a receipt for exactly the transactions in the blocks. */
  ghost predicate ReceiptsMatch(s: State) {
    forall k :: k in s.receipts <==> SitsIn(s.blocks, k)
  }

  /** A reorganisation keeps receipts and blocks in step exactly when no hash sits both in a block it
      keeps and in one it removes. */
  lemma ReorgReceiptsIff(env: Env, s: State, h: nat, newHash: Hash, keep: seq<Block>, drop: seq<Block>)
    requires Consistent(env, s) && CanReorg(s, h, newHash) && ReceiptsMatch(s)
    requires 1 < h <= |s.blocks| && keep == s.blocks[..h - 1] && drop == s.blocks[h - 1..]
    ensures ReceiptsMatch(Reorged(s, h)) <==> forall k :: !(SitsIn(keep, k) && SitsIn(drop, k))
  {
    hide Consistent, Reorged, SitsIn;
    ReorgBlocks(env, s, h, newHash);
    var t := Reorged(s, h);
    assert keep + drop == s.blocks;
    forall k
      ensures k in t.receipts <==> (SitsIn(keep, k) || SitsIn(drop, k)) && !SitsIn(drop, k)
    {
      SitsInAppend(keep, drop, k);
      ReceiptForgotten(env, s, h, newHash, k);
    }
  }

  lemma ReceiptForgotten(env: Env, s: State, h: nat, newHash: Hash, k: Hash)
    requires Consistent(env, s) && CanReorg(s, h, newHash)
    ensures 1 <= h <= |s.blocks| && (k in Reorged(s, h).receipts <==> k in s.receipts && !SitsIn(s.blocks[h - 1..], k))
  {
    hide Consistent, CanReorg, Reorged, SitsIn;
    ReorgForgets(env, s, h, newHash, k, Log(LogData("", [], 0), Place("", 0, 0), "", 0), 0);
  }

  lemma SitsInLast(blocks: seq<Block>, txs: seq<Tx>, hash: Hash, number: nat, j: nat)
    requires blocks != [] && blocks[|blocks| - 1].txs == PlaceAll(txs, hash, number) && j < |txs|
    ensures SitsIn(blocks[|blocks| - 1..], txs[j].hash) && SitsIn(blocks, txs[j].hash)
  {
    var last := blocks[|blocks| - 1..];
    assert last[0].txs[j].hash == txs[j].hash;
    assert blocks[|blocks| - 1].txs[j].hash == txs[j].hash;
  }

  /** Importing leaves a transaction that is already waiting in the pool. Mined again and then undone, it
      still sits in the imported block, and its receipt is gone. */
  lemma PooledImportLosesReceipt(env: Env, s: State, b: Block, i: nat, j: nat, hash: Hash, newHash: Hash, now: Moment, later: Moment)
    requires Consistent(env, s) && Accepted(env, s, b, now) && Usable(hash) && newHash != hash
    requires i < |b.txs| && j < |s.pool| && b.txs[i].hash == s.pool[j].hash
    ensures var t := Mined(env, Imported(env, s, b, now), hash, later);
      && CanReorg(t, t.height, newHash)
      && var u := Reorged(t, t.height); SitsIn(u.blocks, b.txs[i].hash) && b.txs[i].hash !in u.receipts
  {
    hide Consistent, Accepted, Usable, Mined, Imported, Reorged, CanReorg, SitsIn, Indexed, Run, PlaceAll, Sealed, Copied;
    var m := Imported(env, s, b, now);
    ImportedGrows(env, s, b, now);
    ImportedConsistent(env, s, b, now);
    SitsInLast(m.blocks, b.txs, b.hash, b.number, i);
    var t := Mined(env, m, hash, later);
    MinedGrows(env, m, hash, later);
    MinedConsistent(env, m, hash, later);
    SitsInLast(t.blocks, s.pool, hash, m.height + 1, j);
    BlockCount(env, t);
    BlockCount(env, m);
    ReorgActsIff(env, t, t.height, newHash);
    ReorgBlocks(env, t, t.height, newHash);
    ReceiptForgotten(env, t, t.height, newHash, b.txs[i].hash);
    assert t.blocks[..t.height - 1] == m.blocks;
  }

  // ---- first in, first out -------------------------------------------------------------------------------------

  /** The submissions of a run, in order. */
  function SubmittedIn(actions: seq<Action>): seq<Tx> {
    if actions == [] then [] else
      var a := actions[|actions| - 1];
      SubmittedIn(actions[..|actions| - 1]) + if a.Submit? then [Strip(a.tx)] else []
  }

  predicate Local(a: Action) {
    !a.PeerBlock? && !a.Reorganise?
  }

  lemma MinedHeld(env: Env, s: State, hash: Hash, now: Moment)
    requires Consistent(env, s) && Usable(hash)
    ensures StripAll(Held(Mined(env, s, hash, now))) == StripAll(Held(s))
  {
    hide Consistent, Mined, Usable, StripAll, PlaceAll, Run, Sealed, Copied, ChainTxs, Indexed;
    MinedGrows(env, s, hash, now);
    var t := Mined(env, s, hash, now);
    var b := t.blocks[|t.blocks| - 1];
    ChainTxsAppend(s.blocks, [b]);
    ChainTxsOne(b);
    StripOfPlaced(s.pool, hash, s.height + 1);
    StripAppend(ChainTxs(s.blocks), s.pool);
    StripAppend(ChainTxs(s.blocks), b.txs);
    assert Held(t) == ChainTxs(s.blocks) + b.txs;
  }

  lemma LocalHeld(env: Env, s: State, a: Action)
    requires Consistent(env, s) && Drawn(a) && Local(a)
    ensures StripAll(Held(After(env, s, a))) == StripAll(Held(s)) + if a.Submit? then [Strip(a.tx)] else []
  {
    hide Consistent, Mined, Usable, StripAll, ChainTxs, Examined, Copied;
    match a
    case Submit(tx, autoMine, hash, now) =>
      var s1 := s.(pool := s.pool + [tx]);
      assert Held(s1) == Held(s) + [tx];
      StripAppend(Held(s), [tx]);
      StripOne(tx);
      if autoMine {
        PoolGrows(env, s, s1);
        MinedHeld(env, s1, hash, now);
      }
    case Mine(hash, now) => MinedHeld(env, s, hash, now);
    case AuditChain(now) => assert Held(Restored(s, now)) == Held(s);
    case Validate(_, now) => assert Held(Restored(s, now)) == Held(s);
  }

  /** On a node without peers and reorganisations, transactions are mined in the order in which they
      were submitted: those of the chain followed by those waiting are the ones before, followed by the
      ones submitted. */
  lemma {:induction false} FirstInFirstOut(env: Env, s: State, actions: seq<Action>)
    requires Consistent(env, s) && AllDrawn(actions) && forall i :: 0 <= i < |actions| ==> Local(actions[i])
    ensures StripAll(Held(AfterAll(env, s, actions))) == StripAll(Held(s)) + SubmittedIn(actions)
  {
    hide Consistent, After, Drawn, Held, StripAll, Local, Strip;
    if actions != [] {
      var n := |actions| - 1;
      FirstInFirstOut(env, s, actions[..n]);
      RunConsistent(env, s, actions[..n]);
      LocalHeld(env, AfterAll(env, s, actions[..n]), actions[n]);
    }
  }
}
