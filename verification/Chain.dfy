/**
 The chain state of the BHTE node and what each operation does to it, as functions of the
 state. The node's procedures that compute them step by step are in the module Node.
 */
module Chain {
  import opened Ledger
  import opened CodeKeys

  /** What one operation draws from its surroundings: the time, and the orders in which it walks the
      code map for the root of a block, for the root of an anchor (by block and transaction), for a
      snapshot to keep, and for the copy a replay saves and restores. */
  datatype Moment = Moment(time: int, root: nat -> Order, anchor: (nat, nat) -> Order, snapshot: Order, saved: Order)

  datatype Block = Block(number: nat, hash: Hash, parent: Hash, stateRoot: Hash, txRoot: Hash, receiptRoot: Hash,
                         bloom: Hash, timestamp: int, txs: seq<Tx>)

  datatype Snapshot = Snapshot(height: nat, blockHash: Hash, stateRoot: Hash, complete: bool, accounts: Settled)

  datatype IndexEntry = IndexEntry(hash: Hash, parent: Hash, height: nat, weight: nat, canonical: bool, validated: bool,
                                   source: string, receivedAt: int)

  datatype Log = Log(data: LogData, place: Place, txHash: Hash, logIndex: nat)

  datatype Receipt = Receipt(txHash: Hash, place: Place, from: Address, to: Address, status: nat, logs: seq<Log>)

  datatype Withdrawal = Withdrawal(id: Hash, l2TxHash: Hash, recipient: Address, amount: int, deadline: int,
                                   processed: bool, challenged: bool, createdAt: int)

  datatype Anchor = Anchor(height: nat, stateRoot: Hash, blockHash: Hash, txHash: Hash, timestamp: int)

  datatype Commit = Commit(trie: Trie, height: nat)

  datatype State = State(
    height: nat,
    blocks: seq<Block>,
    canonical: map<nat, Hash>,
    index: map<Hash, IndexEntry>,
    snapshots: map<nat, Snapshot>,
    accounts: Accounts,
    pool: seq<Tx>,
    txs: seq<Tx>,
    receipts: map<Hash, Receipt>,
    logs: seq<Log>,
    withdrawals: map<Hash, Withdrawal>,
    anchors: map<nat, Anchor>,
    commits: seq<Commit>,
    replayMode: bool)

  // ---- trie commits ------------------------------------------------------------------------------

  /** `persistTrieNodes`: a trie is recorded once per height. */
  function Persist(commits: seq<Commit>, trie: Trie, height: nat): seq<Commit> {
    if Commit(trie, height) in commits then commits else commits + [Commit(trie, height)]
  }

  function PersistAll(commits: seq<Commit>, tries: seq<Trie>, height: nat): seq<Commit> {
    if tries == [] then commits else
      Persist(PersistAll(commits, tries[..|tries| - 1], height), tries[|tries| - 1], height)
  }

  /** The side effect of `computeStateTrieRoot`. */
  function WithStateTries(env: Env, s: State, order: Order): State {
    s.(commits := PersistAll(s.commits, env.stateTries(Copied(s.accounts, order)), s.height))
  }

  // ---- one transaction ----------------------------------------------------------------------------

  function LastHash(s: State): Hash {
    if s.blocks == [] then "" else s.blocks[|s.blocks| - 1].hash
  }

  /** `initiateWithdrawal` for a bridge call: outside replay it also writes a log. */
  function InitiateWithdrawal(env: Env, s: State, tx: Tx, now: Moment): State {
    var id := if tx.hash == "" then env.fallbackId(tx.from, tx.value, now.time) else tx.hash;
    var w := Withdrawal(id, id, tx.from, tx.value, now.time + env.challengeSeconds, false, false, now.time);
    var log := Log(LogData(env.bridge, [env.topic("WithdrawalInitiated"), env.padded(tx.from)], tx.value),
                   Place(LastHash(s), s.height, 0), id, |s.logs|);
    s.(withdrawals := s.withdrawals[id := w], logs := if s.replayMode then s.logs else s.logs + [log])
  }

  /** `submitAnchor` for a bridge call. */
  function SubmitAnchor(env: Env, s: State, tx: Tx, at: Place, now: Moment): State {
    var order := now.anchor(at.number, at.index);
    var root := env.stateRoot(Copied(s.accounts, order));
    var anchor := Anchor(at.number, root, at.blockHash, if tx.hash == "" then env.digest(root) else tx.hash, now.time);
    WithStateTries(env, s, order).(anchors := s.anchors[at.number := anchor])
  }

  /** What a bridge call does besides its log: withdrawals first, then anchors. */
  function BridgeEffects(env: Env, s: State, tx: Tx, at: Place, now: Moment): State {
    var s1 := if IsWithdraw(env, tx) && tx.from != "" then InitiateWithdrawal(env, s, tx, now) else s;
    if IsAnchor(env, tx) then SubmitAnchor(env, s1, tx, at, now) else s1
  }

  /** The state after `applyMinedTransaction`. */
  function Applied(env: Env, s: State, tx: Tx, at: Place, now: Moment): State {
    var s1 := s.(accounts := Transfer(s.accounts, tx));
    if CallsBridge(env, tx) then BridgeEffects(env, s1, tx, at, now)
    else s1.(accounts := Execute(env, s1.accounts, tx))
  }

  /** Its receipt; the log index counts the logs of the state it runs in. */
  function ReceiptOf(env: Env, s: State, tx: Tx, at: Place, now: Moment): Receipt {
    var count := |Applied(env, s, tx, at, now).logs|;
    var logs := seq(|LogsOf(env, tx)|, i requires 0 <= i < |LogsOf(env, tx)| => Log(LogsOf(env, tx)[i], at, tx.hash, count));
    Receipt(tx.hash, at, tx.from, tx.to, 1, logs)
  }

  /** What roots and blooms see of a receipt. */
  function Seen(r: Receipt): Outcome {
    Outcome(r.status, seq(|r.logs|, i requires 0 <= i < |r.logs| => r.logs[i].data))
  }

  function SeenAll(rs: seq<Receipt>): (r: seq<Outcome>)
    ensures |r| == |rs|
  {
    seq(|rs|, i requires 0 <= i < |rs| => Seen(rs[i]))
  }

  /** Keeps a mined transaction with its receipt and logs. */
  function Recorded(s: State, tx: Tx, r: Receipt): State {
    s.(receipts := s.receipts[tx.hash := r], logs := s.logs + r.logs, txs := s.txs + [tx])
  }

  /** A run over the first transactions of a block. */
  datatype Pass = Pass(state: State, receipts: seq<Receipt>)

  function Passed(env: Env, s: State, txs: seq<Tx>, n: nat, hash: Hash, number: nat, now: Moment, record: bool): (p: Pass)
    requires n <= |txs|
    ensures |p.receipts| == n
  {
    if n == 0 then Pass(s, []) else
      var p := Passed(env, s, txs, n - 1, hash, number, now, record);
      var at := Place(hash, number, n - 1);
      var next := Applied(env, p.state, txs[n - 1], at, now);
      var r := ReceiptOf(env, p.state, txs[n - 1], at, now);
      Pass(if record then Recorded(next, Placed(txs[n - 1], hash, number, n - 1), r) else next, p.receipts + [r])
  }

  // ---- the chain ----------------------------------------------------------------------------------

  /** `indexBlock`. */
  function Indexed(index: map<Hash, IndexEntry>, b: Block, source: string, now: int): map<Hash, IndexEntry> {
    var parentWeight := if b.parent in index then index[b.parent].weight else 0;
    if b.hash in index then
      var e := index[b.hash];
      index[b.hash := e.(hash := b.hash, parent := b.parent, height := b.number,
                         weight := if e.weight == 0 || e.weight < parentWeight + 1 then parentWeight + 1 else e.weight,
                         canonical := true, validated := true,
                         source := if e.source == "" then source else e.source,
                         receivedAt := if e.receivedAt == 0 then now else e.receivedAt)]
    else index[b.hash := IndexEntry(b.hash, b.parent, b.number, parentWeight + 1, true, true, source, now)]
  }

  /** A block joins the chain: list, canonical map, index, anchor and snapshot. */
  function Linked(s: State, b: Block, source: string, now: Moment): State {
    s.(height := b.number, blocks := s.blocks + [b], canonical := s.canonical[b.number := b.hash],
       index := Indexed(s.index, b, source, now.time),
       anchors := s.anchors[b.number := Anchor(b.number, b.stateRoot, b.hash, b.txRoot, now.time)],
       snapshots := s.snapshots[b.number := Snapshot(b.number, b.hash, b.stateRoot, true, Copied(s.accounts, now.snapshot))])
  }

  /** The block `minePendingBlock` makes of a run over the pool. */
  function MinedBlock(env: Env, s: State, p: Pass, txs: seq<Tx>, hash: Hash, now: Moment): Block {
    var mined := PlaceAll(txs, hash, s.height + 1);
    Block(s.height + 1, hash, LastHash(s), env.stateRoot(Copied(p.state.accounts, now.root(s.height + 1))), env.txRoot(mined),
          env.receiptRoot(SeenAll(p.receipts)), env.bloom(SeenAll(p.receipts)), now.time, mined)
  }

  /** `minePendingBlock`. */
  function Mined(env: Env, s: State, hash: Hash, now: Moment): State {
    var p := Passed(env, s.(pool := []), s.pool, |s.pool|, hash, s.height + 1, now, true);
    var b := MinedBlock(env, s, p, s.pool, hash, now);
    var rooted := WithStateTries(env, p.state.(height := s.height + 1), now.root(s.height + 1));
    Linked(WithReceiptTries(env, rooted, SeenAll(p.receipts)), b, "local", now)
  }

  function WithReceiptTries(env: Env, s: State, outcomes: seq<Outcome>): State {
    s.(commits := PersistAll(s.commits, env.receiptTries(outcomes), s.height))
  }

  /** `addPendingTransaction` and `addRawTransaction`, with and without mining at once. */
  function Submitted(env: Env, s: State, tx: Tx, autoMine: bool, hash: Hash, now: Moment): State {
    var s1 := s.(pool := s.pool + [tx]);
    if autoMine then Mined(env, s1, hash, now) else s1
  }

  // ---- peer blocks --------------------------------------------------------------------------------

  predicate Usable(h: Hash) {
    h != "" && h != ZeroHash
  }

  /** A root a block declares, which may be missing, agrees with the computed one. */
  predicate Agrees(declared: Hash, computed: Hash) {
    declared == "" || declared == computed
  }

  function HashAt(canonical: map<nat, Hash>, n: int): Hash {
    if n >= 0 && n in canonical then canonical[n] else ""
  }

  /** `validatePeerBlock`. */
  predicate PeerBlockOk(env: Env, s: State, b: Block, expected: nat) {
    var parent := if HashAt(s.canonical, expected - 1) == "" then LastHash(s) else HashAt(s.canonical, expected - 1);
    && Usable(b.hash) && Usable(b.stateRoot) && b.receiptRoot != "" && b.number == expected
    && (HashAt(s.canonical, expected) == "" || HashAt(s.canonical, expected) == b.hash)
    && (expected > 1 ==> b.parent == parent)
    && Agrees(b.txRoot, env.txRoot(b.txs))
  }

  /** The run over a block's transactions that every replay makes. */
  function Replayed(env: Env, s: State, b: Block, now: Moment): (p: Pass)
    ensures |p.receipts| == |b.txs|
  {
    Passed(env, s.(height := b.number, replayMode := true), b.txs, |b.txs|, b.hash, b.number, now, false)
  }

  /** The checks of a replayed block against its declared roots. */
  predicate RootsAgree(env: Env, b: Block, p: Pass, order: Order) {
    && b.stateRoot == env.stateRoot(Copied(p.state.accounts, order))
    && Agrees(b.txRoot, env.txRoot(PlaceAll(b.txs, b.hash, b.number)))
    && Agrees(b.receiptRoot, env.receiptRoot(SeenAll(p.receipts)))
    && (b.bloom == ZeroHash || Agrees(b.bloom, env.bloom(SeenAll(p.receipts))))
  }

  /** The block as the node stores it after a successful replay. */
  function Completed(env: Env, b: Block, receipts: seq<Receipt>): Block {
    var mined := PlaceAll(b.txs, b.hash, b.number);
    b.(txs := mined, txRoot := env.txRoot(mined), receiptRoot := env.receiptRoot(SeenAll(receipts)),
       bloom := env.bloom(SeenAll(receipts)))
  }

  /** `transactionByHash` finds it. */
  predicate Known(s: State, hash: Hash) {
    (exists i :: 0 <= i < |s.pool| && s.pool[i].hash == hash) || (exists i :: 0 <= i < |s.txs| && s.txs[i].hash == hash)
  }

  /** The receipts, logs and new transactions of the first n transactions of an imported block. */
  function Kept(s: State, mined: seq<Tx>, receipts: seq<Receipt>, n: nat): State
    requires n <= |mined| == |receipts|
  {
    if n == 0 then s else
      var k := Kept(s, mined, receipts, n - 1);
      var tx, r := mined[n - 1], receipts[n - 1];
      k.(receipts := k.receipts[tx.hash := r], logs := k.logs + r.logs,
         txs := if Known(k, tx.hash) then k.txs else k.txs + [tx])
  }

  /** The block replays to the roots it declares. */
  predicate Replays(env: Env, s: State, b: Block, now: Moment) {
    RootsAgree(env, b, Replayed(env, s, b, now), now.root(b.number))
  }

  /** What saving and restoring leaves: everything as it was, with the accounts copied. */
  function Restored(s: State, now: Moment): State {
    s.(accounts := Copied(s.accounts, now.saved))
  }

  /** `importPeerBlock`, of a block that replays. */
  function Imported(env: Env, s: State, b: Block, now: Moment): State {
    var p := Replayed(env, s, b, now);
    var c := Completed(env, b, p.receipts);
    var s1 := WithReceiptTries(env, p.state.(replayMode := s.replayMode), SeenAll(p.receipts));
    Kept(Linked(s1, c, "peer", now), c.txs, p.receipts, |c.txs|)
  }

  // ---- reorganisation -----------------------------------------------------------------------------

  function BlocksBelow(blocks: seq<Block>, h: nat): seq<Block> {
    if blocks == [] then [] else
      var b := blocks[|blocks| - 1];
      BlocksBelow(blocks[..|blocks| - 1], h) + if b.number >= h then [] else [b]
  }

  /** The transactions of the removed blocks, stripped, in order. */
  function RemovedTxs(blocks: seq<Block>, h: nat): seq<Tx> {
    if blocks == [] then [] else
      var b := blocks[|blocks| - 1];
      RemovedTxs(blocks[..|blocks| - 1], h) + if b.number >= h then StripAll(b.txs) else []
  }

  ghost function RemovedNumbers(blocks: seq<Block>, h: nat): set<nat> {
    set i | 0 <= i < |blocks| && blocks[i].number >= h :: blocks[i].number
  }

  function HashesOf(txs: seq<Tx>): set<Hash> {
    set i | 0 <= i < |txs| :: txs[i].hash
  }

  function TxsWithout(txs: seq<Tx>, gone: set<Hash>): seq<Tx> {
    if txs == [] then [] else
      TxsWithout(txs[..|txs| - 1], gone) + if txs[|txs| - 1].hash in gone then [] else [txs[|txs| - 1]]
  }

  function LogsWithout(logs: seq<Log>, h: nat, gone: set<Hash>): seq<Log> {
    if logs == [] then [] else
      var log := logs[|logs| - 1];
      LogsWithout(logs[..|logs| - 1], h, gone) + if log.place.number >= h || log.txHash in gone then [] else [log]
  }

  function CommitsBelow(commits: seq<Commit>, h: nat): seq<Commit> {
    if commits == [] then [] else
      CommitsBelow(commits[..|commits| - 1], h) + if commits[|commits| - 1].height >= h then [] else [commits[|commits| - 1]]
  }

  /** When `handleReorg` acts. */
  predicate CanReorg(s: State, h: nat, newHash: Hash) {
    h > 1 && HashAt(s.canonical, h) != "" && HashAt(s.canonical, h) != newHash && h - 1 in s.snapshots
  }

  /** `handleReorg`, when it acts. */
  ghost function Reorged(s: State, h: nat): State
    requires h > 1 && h - 1 in s.snapshots
  {
    var snap := s.snapshots[h - 1];
    var removed := RemovedTxs(s.blocks, h);
    var gone := HashesOf(removed);
    State(
      snap.height,
      BlocksBelow(s.blocks, h),
      s.canonical - RemovedNumbers(s.blocks, h),
      map k | k in s.index && !(s.index[k].canonical && s.index[k].height >= h) :: s.index[k],
      map n | n in s.snapshots && n < h :: s.snapshots[n],
      snap.accounts,
      s.pool + removed,
      TxsWithout(s.txs, gone),
      map k | k in s.receipts && k !in gone :: s.receipts[k],
      LogsWithout(s.logs, h, gone),
      map k | k in s.withdrawals && s.withdrawals[k].l2TxHash !in gone :: s.withdrawals[k],
      map n | n in s.anchors && n < h :: s.anchors[n],
      CommitsBelow(s.commits, h),
      s.replayMode)
  }

  // ---- validation and audit -------------------------------------------------------------------------

  /** The state a replay starts from. */
  function Rewound(s: State, snap: Snapshot): State {
    s.(height := snap.height, accounts := snap.accounts)
  }

  /** The checks of `validateBlockRecord` before it replays the block. */
  predicate Examined(s: State, b: Block) {
    && b.number > 1 && Usable(b.hash) && Usable(b.stateRoot) && b.receiptRoot != ""
    && HashAt(s.canonical, b.number - 1) != "" && b.parent == HashAt(s.canonical, b.number - 1)
    && b.number - 1 in s.snapshots && s.snapshots[b.number - 1].complete
  }

  /** `validateBlockRecord`. */
  predicate RecordValid(env: Env, s: State, b: Block, now: Moment) {
    Examined(s, b) && Replays(env, Rewound(s, s.snapshots[b.number - 1]), b, now)
  }

  /** The state after validating a record: a block that gets as far as the replay costs a restore. */
  function Validated(s: State, b: Block, now: Moment): State {
    if Examined(s, b) then Restored(s, now) else s
  }

  /** The audit's view of the first blocks: the state after re-executing those that passed, and how
      many did. */
  datatype Audit = Audit(state: State, checked: nat, valid: bool)

  /** What the audit keeps of a block that passed. */
  function Audited(s: State, mined: seq<Tx>, receipts: seq<Receipt>, n: nat): State
    requires n <= |mined| == |receipts|
  {
    if n == 0 then s else Recorded(Audited(s, mined, receipts, n - 1), mined[n - 1], receipts[n - 1])
  }

  /** `replayChain` over the first n blocks, starting from the genesis snapshot; it stops at the
      first block that fails. */
  function AuditTo(env: Env, start: State, blocks: seq<Block>, n: nat, now: Moment): Audit
    requires 1 <= n <= |blocks|
  {
    if n == 1 then Audit(start, 0, true) else
      var a := AuditTo(env, start, blocks, n - 1, now);
      var b := blocks[n - 1];
      if !a.valid then a
      else if b.number != blocks[0].number + (n - 1) || b.parent != blocks[n - 2].hash then a.(valid := false)
      else
        var p := Replayed(env, a.state, b, now);
        if !RootsAgree(env, b, p, now.root(b.number)) then a.(valid := false)
        else Audit(Audited(p.state, PlaceAll(b.txs, b.hash, b.number), p.receipts, |b.txs|), a.checked + 1, true)
  }

  /** The cleared state the audit starts from. */
  function AuditStart(s: State, snap: Snapshot): State {
    s.(height := snap.height, accounts := snap.accounts, receipts := map[], logs := [], txs := [],
       withdrawals := map[], anchors := map[], replayMode := true)
  }

  /** There is a chain with a complete genesis snapshot. */
  predicate Auditable(s: State) {
    s.blocks != [] && s.blocks[0].number in s.snapshots && s.snapshots[s.blocks[0].number].complete
  }

  /** `replayChain`: whether the chain is valid and how many blocks were checked. */
  function AuditResult(env: Env, s: State, now: Moment): (bool, nat) {
    if !Auditable(s) then (false, 0) else
      var a := AuditTo(env, AuditStart(s, s.snapshots[s.blocks[0].number]), s.blocks, |s.blocks|, now);
      (a.valid, a.checked)
  }

  /** The state after an audit. An audit of a chain without blocks saves nothing. */
  function AfterAudit(s: State, now: Moment): State {
    if s.blocks == [] then s else Restored(s, now)
  }
}
