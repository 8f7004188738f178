/**
 The ledger of the BHTE node: accounts, transactions and what executing a transaction does to
 the accounts. Roots, blooms and hashes are parameters, and quantities are signed, as the node
 parses them.

 Nonces count transfers. Supply changes by the values of the uncovered transfers, which debit
 nobody and still credit their recipients; with values that are not negative it never falls, and
 stays constant exactly when every transfer is covered at its turn or moves nothing.
 */
module Ledger {
  import opened Outcomes

  /** A normalised address; the empty string stands for a missing one. */
  type Address = string

  type Hash = string

  datatype Place = Place(blockHash: Hash, number: nat, index: nat)

  /** A transaction record; `details` holds gas, times, fee and raw bytes. */
  datatype Tx = Tx(hash: Hash, from: Address, to: Address, value: int, nonce: nat, input: string, details: string,
                   place: Option<Place>, confirmations: nat)

  /** Contract code under the two spellings of an address: the mixed-case one that execution writes
      and the lower-case one that copies write. */
  datatype CodeStore = CodeStore(mixed: map<Address, string>, lower: map<Address, string>)

  datatype Accounts = Accounts(balances: map<Address, int>, nonces: map<Address, nat>, code: CodeStore,
                               storage: map<Address, map<string, int>>)

  /** What the receipt root and the bloom see of a log. */
  datatype LogData = LogData(address: Address, topics: seq<string>, value: int)

  /** What the receipt root and the bloom see of a receipt. */
  datatype Outcome = Outcome(status: nat, logs: seq<LogData>)

  /** A trie written to the trie database. */
  datatype Trie = Trie(root: Hash, kind: string)

  /** The node's configuration and the functions of the libraries it calls. `plain` holds of the
      addresses without letters, whose two spellings are one. */
  datatype Env = Env(
    bridge: Address,
    challengeSeconds: int,
    isAddress: Address -> bool,
    genesisHash: Hash,
    contractAddress: (Address, nat) -> Address,
    plain: Address -> bool,
    selector: string -> string,
    mentions: (string, string) -> bool,
    topic: string -> string,
    padded: Address -> string,
    fallbackId: (Address, int, int) -> Hash,
    digest: Hash -> Hash,
    stateRoot: Accounts -> Hash,
    stateTries: Accounts -> seq<Trie>,
    txRoot: seq<Tx> -> Hash,
    receiptRoot: seq<Outcome> -> Hash,
    receiptTries: seq<Outcome> -> seq<Trie>,
    bloom: seq<Outcome> -> Hash)

  function NoCode(): CodeStore {
    CodeStore(map[], map[])
  }

  function NoAccounts(): Accounts {
    Accounts(map[], map[], NoCode(), map[])
  }

  function NatAt(m: map<Address, nat>, a: Address): nat {
    if a in m then m[a] else 0
  }

  function IntAt(m: map<Address, int>, a: Address): int {
    if a in m then m[a] else 0
  }

  /** A transaction that moves value and counts against the sender's nonce. */
  predicate IsTransfer(tx: Tx) {
    tx.from != "" && tx.to != ""
  }

  /** The sender can pay. */
  predicate Covered(a: Accounts, tx: Tx) {
    IntAt(a.balances, tx.from) >= tx.value
  }

  /** The balances after a transfer: an uncovered one debits nobody. */
  function Moved(balances: map<Address, int>, tx: Tx): map<Address, int> {
    var fb := IntAt(balances, tx.from);
    var paid := if fb >= tx.value then balances[tx.from := fb - tx.value] else balances;
    paid[tx.to := IntAt(paid, tx.to) + tx.value]
  }

  /** The first half of `applyMinedTransaction`. */
  function Transfer(a: Accounts, tx: Tx): Accounts {
    if IsTransfer(tx) then
      a.(balances := Moved(a.balances, tx), nonces := a.nonces[tx.from := NatAt(a.nonces, tx.from) + 1])
    else a
  }

  const StoreSelector: string := "0x6057361d"
  const ZeroHash: Hash := "0x0000000000000000000000000000000000000000000000000000000000000000"

  predicate IsStore(env: Env, tx: Tx) {
    tx.input != "" && tx.input != "0x" && env.selector(tx.input) == StoreSelector
  }

  /** A deployment writes under the mixed-case spelling, which for a plain address is the lower-case one. */
  function Wrote(env: Env, c: CodeStore, n: Address, input: string): CodeStore {
    if env.plain(n) then c.(lower := c.lower[n := input]) else c.(mixed := c.mixed[n := input])
  }

  /** What `executeTransaction` does to code and storage. */
  function Execute(env: Env, a: Accounts, tx: Tx): Accounts {
    if tx.to == "" then a.(code := Wrote(env, a.code, env.contractAddress(tx.from, tx.nonce), tx.input))
    else if tx.to != env.bridge && IsStore(env, tx) then
      var slots := if tx.to in a.storage then a.storage[tx.to] else map[];
      a.(storage := a.storage[tx.to := slots[ZeroHash := tx.value]])
    else a
  }

  /** The accounts after one transaction. */
  function Step(env: Env, a: Accounts, tx: Tx): Accounts {
    Execute(env, Transfer(a, tx), tx)
  }

  /** The accounts after a list of transactions. */
  function Run(env: Env, a: Accounts, txs: seq<Tx>): Accounts {
    if txs == [] then a else Step(env, Run(env, a, txs[..|txs| - 1]), txs[|txs| - 1])
  }

  predicate IsWithdraw(env: Env, tx: Tx) {
    env.selector(tx.input) == "0x7a0f1d9e" || env.mentions(tx.input, "withdraw")
  }

  predicate IsAnchor(env: Env, tx: Tx) {
    env.selector(tx.input) == "0x3de90c0b" || env.mentions(tx.input, "anchor")
  }

  function BridgeTopic(env: Env, tx: Tx): string {
    env.topic(if IsAnchor(env, tx) then "AnchorSubmitted" else if IsWithdraw(env, tx) then "WithdrawalInitiated" else "BridgeTransfer")
  }

  predicate CallsBridge(env: Env, tx: Tx) {
    tx.to != "" && tx.to == env.bridge
  }

  function LogsOf(env: Env, tx: Tx): seq<LogData> {
    if CallsBridge(env, tx) then
      [LogData(env.bridge, [BridgeTopic(env, tx), env.padded(tx.from), env.padded(tx.to)], tx.value)]
    else []
  }

  function OutcomeOf(env: Env, tx: Tx): Outcome {
    Outcome(1, LogsOf(env, tx))
  }

  function OutcomesOf(env: Env, txs: seq<Tx>): (r: seq<Outcome>)
    ensures |r| == |txs|
  {
    seq(|txs|, i requires 0 <= i < |txs| => OutcomeOf(env, txs[i]))
  }

  // ---- where a transaction sits does not matter --------------------------------------------------

  /** A transaction without the fields that say where it was mined. */
  function Strip(tx: Tx): Tx {
    tx.(place := None, confirmations := 0)
  }

  function StripAll(txs: seq<Tx>): (r: seq<Tx>)
    ensures |r| == |txs|
  {
    seq(|txs|, i requires 0 <= i < |txs| => Strip(txs[i]))
  }

  /** A transaction as a block records it. */
  function Placed(tx: Tx, hash: Hash, number: nat, index: nat): Tx {
    tx.(place := Some(Place(hash, number, index)), confirmations := 1)
  }

  function PlaceAll(txs: seq<Tx>, hash: Hash, number: nat): (r: seq<Tx>)
    ensures |r| == |txs|
  {
    seq(|txs|, i requires 0 <= i < |txs| => Placed(txs[i], hash, number, i))
  }

  lemma StripOfPlaced(txs: seq<Tx>, hash: Hash, number: nat)
    ensures StripAll(PlaceAll(txs, hash, number)) == StripAll(txs)
    ensures PlaceAll(PlaceAll(txs, hash, number), hash, number) == PlaceAll(txs, hash, number)
    ensures PlaceAll(StripAll(txs), hash, number) == PlaceAll(txs, hash, number)
    ensures StripAll(StripAll(txs)) == StripAll(txs)
  {
  }

  /** Execution does not look at where a transaction sits. */
  lemma {:induction false} RunIgnoresPlace(env: Env, a: Accounts, txs: seq<Tx>, us: seq<Tx>)
    requires StripAll(txs) == StripAll(us)
    ensures Run(env, a, txs) == Run(env, a, us)
  {
    if txs != [] {
      var n := |txs| - 1;
      assert |us| == n + 1;
      assert StripAll(txs[..n]) == StripAll(us[..n]) by {
        assert StripAll(txs[..n]) == StripAll(txs)[..n] && StripAll(us[..n]) == StripAll(us)[..n];
      }
      RunIgnoresPlace(env, a, txs[..n], us[..n]);
      assert Strip(txs[n]) == StripAll(txs)[n] == StripAll(us)[n] == Strip(us[n]);
      StepIgnoresPlace(env, Run(env, a, txs[..n]), txs[n], us[n]);
    }
  }

  lemma StepIgnoresPlace(env: Env, a: Accounts, t: Tx, u: Tx)
    requires Strip(t) == Strip(u)
    ensures Step(env, a, t) == Step(env, a, u) && OutcomeOf(env, t) == OutcomeOf(env, u)
  {
    StepOfStrip(env, a, t);
    StepOfStrip(env, a, u);
  }

  lemma StepOfStrip(env: Env, a: Accounts, t: Tx)
    ensures Step(env, a, t) == Step(env, a, Strip(t)) && OutcomeOf(env, t) == OutcomeOf(env, Strip(t))
  {
    hide Moved;
    var u := Strip(t);
    assert Moved(a.balances, t) == Moved(a.balances, u) by { MovedOfStrip(a.balances, t); }
    assert Transfer(a, t) == Transfer(a, u);
    assert IsStore(env, t) == IsStore(env, u);
    assert Execute(env, Transfer(a, t), t) == Execute(env, Transfer(a, u), u);
    assert BridgeTopic(env, t) == BridgeTopic(env, u);
  }

  lemma MovedOfStrip(balances: map<Address, int>, t: Tx)
    ensures Moved(balances, t) == Moved(balances, Strip(t))
  {
  }

  lemma OutcomesIgnorePlace(env: Env, txs: seq<Tx>, us: seq<Tx>)
    requires StripAll(txs) == StripAll(us)
    ensures OutcomesOf(env, txs) == OutcomesOf(env, us)
  {
    assert |StripAll(txs)| == |StripAll(us)|;
    forall i | 0 <= i < |txs|
      ensures OutcomeOf(env, txs[i]) == OutcomeOf(env, us[i])
    {
      assert StripAll(txs)[i] == StripAll(us)[i];
      StepIgnoresPlace(env, NoAccounts(), txs[i], us[i]);
    }
  }

  lemma {:induction false} RunAppend(env: Env, a: Accounts, xs: seq<Tx>, ys: seq<Tx>)
    ensures Run(env, a, xs + ys) == Run(env, Run(env, a, xs), ys)
    decreases |ys|
  {
    if ys == [] {
      assert xs + ys == xs;
    } else {
      var n := |ys| - 1;
      assert (xs + ys)[..|xs + ys| - 1] == xs + ys[..n];
      RunAppend(env, a, xs, ys[..n]);
    }
  }

  // ---- nonces -----------------------------------------------------------------------------------

  /** How many of the transactions are transfers of one sender. */
  function SentBy(txs: seq<Tx>, who: Address): nat {
    if txs == [] then 0 else
      SentBy(txs[..|txs| - 1], who) + if IsTransfer(txs[|txs| - 1]) && txs[|txs| - 1].from == who then 1 else 0
  }

  /** Each account's nonce grows by its number of transactions with a recipient. */
  lemma {:induction false} NonceCounts(env: Env, a: Accounts, txs: seq<Tx>, who: Address)
    ensures NatAt(Run(env, a, txs).nonces, who) == NatAt(a.nonces, who) + SentBy(txs, who)
  {
    if txs != [] {
      NonceCounts(env, a, txs[..|txs| - 1], who);
    }
  }

  // ---- supply -----------------------------------------------------------------------------------

  ghost function Total(m: map<Address, int>): int {
    if m == map[] then 0 else
      assert m.Keys != {};
      var k :| k in m;
      m[k] + Total(m - {k})
  }

  lemma {:induction false} TotalRemove(m: map<Address, int>, k: Address)
    requires k in m
    ensures Total(m) == m[k] + Total(m - {k})
    decreases |m|
  {
    assert m.Keys != {} && m != map[];
    var j :| j in m && Total(m) == m[j] + Total(m - {j});
    if j != k {
      assert |m - {j}| < |m| by { SmallerWithout(m, j); }
      assert |m - {k}| < |m| by { SmallerWithout(m, k); }
      TotalRemove(m - {j}, k);
      TotalRemove(m - {k}, j);
      assert m - {j} - {k} == m - {k} - {j};
    }
  }

  lemma SmallerWithout(m: map<Address, int>, k: Address)
    requires k in m
    ensures |m - {k}| < |m|
  {
    assert (m - {k}).Keys == m.Keys - {k};
    assert |m.Keys| == |m| && |(m - {k}).Keys| == |m - {k}|;
  }

  lemma TotalUpdate(m: map<Address, int>, k: Address, v: int)
    ensures Total(m[k := v]) == Total(m) - IntAt(m, k) + v
  {
    var u := m[k := v];
    TotalRemove(u, k);
    assert u - {k} == m - {k};
    if k in m {
      TotalRemove(m, k);
    } else {
      assert m - {k} == m;
    }
  }

  /** What one transaction adds to the supply: the value of an uncovered transfer, which may be negative. */
  function MintedBy(a: Accounts, tx: Tx): int {
    if IsTransfer(tx) && !Covered(a, tx) then tx.value else 0
  }

  lemma StepSupply(env: Env, a: Accounts, tx: Tx)
    ensures Total(Step(env, a, tx).balances) == Total(a.balances) + MintedBy(a, tx)
  {
    hide Total;
    if IsTransfer(tx) {
      var fb := IntAt(a.balances, tx.from);
      var paid := if fb >= tx.value then a.balances[tx.from := fb - tx.value] else a.balances;
      if fb >= tx.value {
        TotalUpdate(a.balances, tx.from, fb - tx.value);
      }
      TotalUpdate(paid, tx.to, IntAt(paid, tx.to) + tx.value);
    }
  }

  /** What a list of transactions adds to the supply. */
  function Minted(env: Env, a: Accounts, txs: seq<Tx>): int {
    if txs == [] then 0 else
      Minted(env, a, txs[..|txs| - 1]) + MintedBy(Run(env, a, txs[..|txs| - 1]), txs[|txs| - 1])
  }

  /** Supply is the old supply plus the values of the uncovered transfers; so it falls exactly when
      those add up to less than zero. */
  lemma {:induction false} SupplyAfter(env: Env, a: Accounts, txs: seq<Tx>)
    ensures Total(Run(env, a, txs).balances) == Total(a.balances) + Minted(env, a, txs)
    ensures Total(Run(env, a, txs).balances) < Total(a.balances) <==> Minted(env, a, txs) < 0
  {
    hide Total, Step;
    if txs != [] {
      var n := |txs| - 1;
      SupplyAfter(env, a, txs[..n]);
      StepSupply(env, Run(env, a, txs[..n]), txs[n]);
    }
  }

  /** Transfer i, at its turn, is covered or moves nothing. */
  predicate PaidFor(env: Env, a: Accounts, txs: seq<Tx>, i: nat)
    requires i < |txs|
  {
    !IsTransfer(txs[i]) || Covered(Run(env, a, txs[..i]), txs[i]) || txs[i].value == 0
  }

  /** No value is negative. */
  predicate NonNegative(txs: seq<Tx>) {
    forall i :: 0 <= i < |txs| ==> txs[i].value >= 0
  }

  lemma {:induction false} MintedNothing(env: Env, a: Accounts, txs: seq<Tx>)
    requires NonNegative(txs)
    ensures Minted(env, a, txs) >= 0
    ensures Minted(env, a, txs) == 0 <==> forall i :: 0 <= i < |txs| ==> PaidFor(env, a, txs, i)
  {
    hide Run, Covered;
    if txs != [] {
      var n := |txs| - 1;
      var front := txs[..n];
      MintedNothing(env, a, front);
      forall i | 0 <= i < n
        ensures PaidFor(env, a, front, i) <==> PaidFor(env, a, txs, i)
      {
        assert front[..i] == txs[..i];
      }
      assert PaidFor(env, a, txs, n) <==> MintedBy(Run(env, a, front), txs[n]) == 0;
      if forall i :: 0 <= i < |txs| ==> PaidFor(env, a, txs, i) {
        assert forall i :: 0 <= i < n ==> PaidFor(env, a, front, i);
      }
    }
  }

  /** When no value is negative, supply never falls, and it is constant exactly when every transfer is
      covered at its turn or moves nothing; transfers to oneself are no exception. */
  lemma SupplyConstantIff(env: Env, a: Accounts, txs: seq<Tx>)
    requires NonNegative(txs)
    ensures Total(a.balances) <= Total(Run(env, a, txs).balances)
    ensures Total(Run(env, a, txs).balances) == Total(a.balances) <==> forall i :: 0 <= i < |txs| ==> PaidFor(env, a, txs, i)
  {
    hide Total, Run, PaidFor;
    SupplyAfter(env, a, txs);
    MintedNothing(env, a, txs);
  }

  /** Whom a transfer costs coins: the recipient of a negative value unless it is a sender who covers
      it, and a sender who pays a positive value to someone else. */
  predicate Costs(a: Accounts, tx: Tx, who: Address) {
    && IsTransfer(tx)
    && (if who != tx.from then tx.to == who && tx.value < 0
        else if tx.to == who then tx.value < 0 && !Covered(a, tx)
        else tx.value > 0 && Covered(a, tx))
  }

  /** An account loses coins exactly when the transfer costs it some; in particular one that is not
      the sender loses exactly when it is sent a negative value, covered or not. */
  lemma WhoLoses(env: Env, a: Accounts, tx: Tx, who: Address)
    ensures IntAt(Step(env, a, tx).balances, who) < IntAt(a.balances, who) <==> Costs(a, tx, who)
  {
    ExecuteKeepsBalances(env, Transfer(a, tx), tx);
  }

  lemma ExecuteKeepsBalances(env: Env, a: Accounts, tx: Tx)
    ensures Execute(env, a, tx).balances == a.balances && Execute(env, a, tx).nonces == a.nonces
  {
  }
}
