/**
 What a list of transactions leaves in one account, told by the transactions alone: the balance is
 what was there plus what was received minus what was paid, a contract's slot holds the value of the
 last store call to it, and the code at an address is the input of the last deployment there. On a
 chain reached by any run from a fresh node, starting from the opening balances.
 */
module Accounting {
  import opened Outcomes
  import opened Ledger
  import opened CodeKeys
  import opened Chain
  import opened ChainLaws
  import opened Reorg
  import opened Runs

  // ---- balances ---------------------------------------------------------------------------------------

  /** What the transactions send to an account. */
  function Received(txs: seq<Tx>, who: Address): int {
    if txs == [] then 0 else
      var tx := txs[|txs| - 1];
      Received(txs[..|txs| - 1], who) + if tx.from != "" && tx.to != "" && tx.to == who then tx.value else 0
  }

  /** What an account pays for: the transfers it sends and has the coins for at their turn. */
  function Spent(env: Env, a: Accounts, txs: seq<Tx>, who: Address): int {
    if txs == [] then 0 else
      var front, tx := txs[..|txs| - 1], txs[|txs| - 1];
      Spent(env, a, front, who)
      + if tx.from == who && who != "" && tx.to != "" && IntAt(Run(env, a, front).balances, who) >= tx.value then tx.value else 0
  }

  lemma StepBalance(env: Env, a: Accounts, tx: Tx, who: Address)
    ensures IntAt(Step(env, a, tx).balances, who)
            == IntAt(a.balances, who)
               + (if tx.from != "" && tx.to != "" && tx.to == who then tx.value else 0)
               - (if tx.from == who && who != "" && tx.to != "" && IntAt(a.balances, who) >= tx.value then tx.value else 0)
  {
    ExecuteKeepsBalances(env, Transfer(a, tx), tx);
  }

  /** A balance is what it was, plus what the account received, minus what it paid. */
  lemma {:induction false} BalanceAfter(env: Env, a: Accounts, txs: seq<Tx>, who: Address)
    ensures IntAt(Run(env, a, txs).balances, who) == IntAt(a.balances, who) + Received(txs, who) - Spent(env, a, txs, who)
  {
    hide Step;
    if txs != [] {
      var n := |txs| - 1;
      BalanceAfter(env, a, txs[..n], who);
      StepBalance(env, Run(env, a, txs[..n]), txs[n], who);
    }
  }

  // ---- storage ----------------------------------------------------------------------------------------

  /** One slot of a contract. */
  function SlotAt(a: Accounts, c: Address, slot: string): Option<int> {
    if c in a.storage && slot in a.storage[c] then Some(a.storage[c][slot]) else None
  }

  /** A store call to a contract other than the bridge. */
  predicate StoresTo(env: Env, tx: Tx, c: Address) {
    && tx.to == c && c != "" && c != env.bridge
    && tx.input != "" && tx.input != "0x" && env.selector(tx.input) == "0x6057361d"
  }

  /** Transaction i is the last store call to a contract. */
  predicate LastStore(env: Env, txs: seq<Tx>, c: Address, i: nat) {
    i < |txs| && StoresTo(env, txs[i], c) && forall j :: i < j < |txs| ==> !StoresTo(env, txs[j], c)
  }

  lemma StepSlot(env: Env, a: Accounts, tx: Tx, c: Address, slot: string)
    ensures SlotAt(Step(env, a, tx), c, slot)
            == if StoresTo(env, tx, c) && slot == ZeroHash then Some(tx.value) else SlotAt(a, c, slot)
  {
    hide Moved;
  }

  /** Slot zero of a contract holds the value of the last store call to it, or what it held if there
      is none; no other slot changes, and none of the bridge. */
  ghost predicate StorageMeaning(env: Env, txs: seq<Tx>, c: Address, slot: string, before: Option<int>, after: Option<int>) {
    && (forall i: nat :: LastStore(env, txs, c, i) ==> after == if slot == ZeroHash then Some(txs[i].value) else before)
    && ((forall i :: 0 <= i < |txs| ==> !StoresTo(env, txs[i], c)) ==> after == before)
  }

  lemma MeaningGrows(env: Env, txs: seq<Tx>, tx: Tx, c: Address, slot: string, before: Option<int>, mid: Option<int>, after: Option<int>)
    requires StorageMeaning(env, txs, c, slot, before, mid)
    requires after == if StoresTo(env, tx, c) && slot == ZeroHash then Some(tx.value) else mid
    ensures StorageMeaning(env, txs + [tx], c, slot, before, after)
  {
    hide StoresTo, ZeroHash;
    var n, us := |txs|, txs + [tx];
    assert us[n] == tx && forall i :: 0 <= i < n ==> us[i] == txs[i];
    forall i: nat | LastStore(env, us, c, i)
      ensures after == if slot == ZeroHash then Some(us[i].value) else before
    {
      if i < n {
        assert LastStore(env, txs, c, i) && !StoresTo(env, us[n], c);
      } else if slot != ZeroHash {
        UntouchedSlot(env, txs, c, slot, before, mid);
      }
    }
  }

  lemma UntouchedSlot(env: Env, txs: seq<Tx>, c: Address, slot: string, before: Option<int>, after: Option<int>)
    requires StorageMeaning(env, txs, c, slot, before, after) && slot != ZeroHash
    ensures after == before
  {
    hide StoresTo, ZeroHash;
    if !forall i :: 0 <= i < |txs| ==> !StoresTo(env, txs[i], c) {
      var i: nat :| i < |txs| && StoresTo(env, txs[i], c);
      var k := LastFrom(env, txs, c, i);
    }
  }

  lemma LastFrom(env: Env, txs: seq<Tx>, c: Address, i: nat) returns (k: nat)
    requires i < |txs| && StoresTo(env, txs[i], c)
    ensures LastStore(env, txs, c, k)
    decreases |txs| - i
  {
    hide StoresTo;
    if j :| i < j < |txs| && StoresTo(env, txs[j], c) {
      k := LastFrom(env, txs, c, j);
    } else {
      k := i;
    }
  }

  lemma {:induction false} StorageAfter(env: Env, a: Accounts, txs: seq<Tx>, c: Address, slot: string)
    ensures StorageMeaning(env, txs, c, slot, SlotAt(a, c, slot), SlotAt(Run(env, a, txs), c, slot))
  {
    hide Step, SlotAt, StoresTo, ZeroHash;
    if txs != [] {
      var n := |txs| - 1;
      var front := txs[..n];
      StorageAfter(env, a, front, c, slot);
      StepSlot(env, Run(env, a, front), txs[n], c, slot);
      MeaningGrows(env, front, txs[n], c, slot, SlotAt(a, c, slot), SlotAt(Run(env, a, front), c, slot), SlotAt(Run(env, a, txs), c, slot));
      assert front + [txs[n]] == txs;
    }
  }

  // ---- code -------------------------------------------------------------------------------------------

  /** The code at an address, the newer spelling first. */
  function CodeAt(a: Accounts, n: Address): Option<string> {
    if n in a.code.mixed then Some(a.code.mixed[n]) else if n in a.code.lower then Some(a.code.lower[n]) else None
  }

  predicate LastDeployment(env: Env, txs: seq<Tx>, n: Address, i: nat) {
    i < |txs| && Deploys(env, txs[i], n) && forall j :: i < j < |txs| ==> !Deploys(env, txs[j], n)
  }

  /** The code at an address is the input of the last deployment there, or what it was if there is none. */
  ghost predicate CodeMeaning(env: Env, txs: seq<Tx>, n: Address, before: Option<string>, after: Option<string>) {
    && (forall i: nat :: LastDeployment(env, txs, n, i) ==> after == Some(txs[i].input))
    && ((forall i :: 0 <= i < |txs| ==> !Deploys(env, txs[i], n)) ==> after == before)
  }

  lemma StepCodeAt(env: Env, a: Accounts, tx: Tx, n: Address)
    requires PlainOk(env, a.code)
    ensures CodeAt(Step(env, a, tx), n) == if Deploys(env, tx, n) then Some(tx.input) else CodeAt(a, n)
  {
    hide Step;
    StepCode(env, a, tx);
  }

  lemma {:induction false} CodeLast(env: Env, a: Accounts, txs: seq<Tx>, n: Address)
    requires PlainOk(env, a.code)
    ensures CodeMeaning(env, txs, n, CodeAt(a, n), CodeAt(Run(env, a, txs), n))
  {
    hide Step, CodeAt, Deploys, PlainOk;
    if txs != [] {
      var k := |txs| - 1;
      var front := txs[..k];
      CodeLast(env, a, front, n);
      RunPlainOk(env, a, front);
      StepCodeAt(env, Run(env, a, front), txs[k], n);
      forall i: nat | LastDeployment(env, txs, n, i)
        ensures i == k || (!Deploys(env, txs[k], n) && LastDeployment(env, front, n, i))
      {
        assert i < k ==> front[i] == txs[i];
        assert forall j :: i < j < k ==> front[j] == txs[j];
      }
      if forall i :: 0 <= i < |txs| ==> !Deploys(env, txs[i], n) {
        assert forall i :: 0 <= i < k ==> front[i] == txs[i];
      }
    }
  }

  lemma CodeOfNorm(a: Accounts, n: Address)
    ensures CodeAt(Norm(a), n) == CodeAt(a, n)
  {
    NewestAt(a.code, n);
  }

  // ---- chains and runs ----------------------------------------------------------------------------------

  /** Balances and storage of a consistent chain: those after genesis and what its transactions did. */
  lemma ChainAccounts(env: Env, s: State, who: Address, slot: string)
    requires Consistent(env, s)
    ensures 1 in s.snapshots
    ensures var g, txs := s.snapshots[1].accounts, TxsOf(s.blocks[1..]);
      && IntAt(s.accounts.balances, who) == IntAt(g.balances, who) + Received(txs, who) - Spent(env, g, txs, who)
      && StorageMeaning(env, txs, who, slot, SlotAt(g, who, slot), SlotAt(s.accounts, who, slot))
  {
    hide TxsOf, Run, Received, Spent, Sealed, Usable, PlainOk, StorageMeaning;
    assert LinkOk(env, s, 1);
    BlocksAsOne(env, s, 1, s.height);
    assert s.blocks[1..s.height] == s.blocks[1..];
    var g, txs := s.snapshots[1].accounts, TxsOf(s.blocks[1..]);
    var r := Run(env, g, txs);
    assert Bare(s.accounts) == Bare(r);
    assert Bare(s.accounts).balances == s.accounts.balances && Bare(s.accounts).storage == s.accounts.storage;
    assert Bare(r).balances == r.balances && Bare(r).storage == r.storage;
    BalanceAfter(env, g, txs, who);
    StorageAfter(env, g, txs, who, slot);
  }

  /** Code of a faithful chain: the input of the last deployment at each address, in the live accounts
      and in the newest snapshot. */
  lemma ChainCode(env: Env, s: State, n: Address)
    requires Faithful(env, s)
    ensures var txs := TxsOf(s.blocks[1..]);
      && CodeMeaning(env, txs, n, None, CodeAt(s.accounts, n))
      && CodeMeaning(env, txs, n, None, CodeAt(s.snapshots[s.height].accounts, n))
  {
    hide TxsOf, Run, Sealed, Usable, PlainOk, CodeMeaning, Clash, CodeOk, Bare, Norm, CodeAt;
    assert LinkOk(env, s, 1);
    FaithfulBlocksAsOne(env, s, 1, s.height);
    assert s.blocks[1..s.height] == s.blocks[1..];
    var g, txs := s.snapshots[1].accounts, TxsOf(s.blocks[1..]);
    SettledPlainOk(env, g);
    CodeLast(env, g, txs, n);
    CodeOfNorm(Run(env, g, txs), n);
    CodeOfNorm(s.accounts, n);
    NoCodeAt(g, n);
  }

  lemma NoCodeAt(a: Accounts, n: Address)
    requires a.code == NoCode()
    ensures CodeAt(a, n) == None
  {
  }

  lemma NeverBelowGenesis(env: Env, s: State, actions: seq<Action>)
    requires Consistent(env, s) && AllDrawn(actions)
    ensures StaysAbove(env, s, actions, 1)
  {
    hide Consistent, AfterAll, Drawn;
    forall i | 0 <= i <= |actions|
      ensures AfterAll(env, s, actions[..i]).height >= 1
    {
      RunConsistent(env, s, actions[..i]);
      AtLeastOne(env, AfterAll(env, s, actions[..i]));
    }
  }

  /** No run changes what a fresh node opened with. */
  lemma GenesisStays(env: Env, balances: map<Address, int>, start: int, actions: seq<Action>)
    requires GoodRoots(env) && AllDrawn(actions)
    ensures var t := AfterAll(env, Fresh(env, balances, start), actions);
      Consistent(env, t) && 1 in t.snapshots && t.snapshots[1].accounts == NoAccounts().(balances := balances)
  {
    hide AfterAll, AllDrawn, GoodRoots, LinkOk, CodeOk, Bare, Norm, Clash, PlainOk, StaysAbove, Indexed, PersistAll;
    var s := Fresh(env, balances, start);
    FreshFaithful(env, balances, start);
    RunConsistent(env, s, actions);
    NeverBelowGenesis(env, s, actions);
    RunView(env, s, actions);
    HeadSnapshots(s, AfterAll(env, s, actions));
  }

  /** After every run from a fresh node, each balance is the opening balance plus what the chain's
      transactions sent there minus what it paid for, each nonce is the number of transfers sent, and
      each slot holds what the last store call on the chain put there, or nothing. */
  lemma AccountsOfRun(env: Env, balances: map<Address, int>, start: int, actions: seq<Action>, who: Address, slot: string)
    requires GoodRoots(env) && AllDrawn(actions)
    ensures var t, g := AfterAll(env, Fresh(env, balances, start), actions), NoAccounts().(balances := balances);
      var txs := if t.blocks == [] then [] else TxsOf(t.blocks[1..]);
      && IntAt(t.accounts.balances, who) == IntAt(balances, who) + Received(txs, who) - Spent(env, g, txs, who)
      && NatAt(t.accounts.nonces, who) == SentBy(txs, who)
      && StorageMeaning(env, txs, who, slot, None, SlotAt(t.accounts, who, slot))
  {
    hide AfterAll, AllDrawn, GoodRoots, Fresh, Received, Spent, TxsOf, StorageMeaning, LinkOk, Bare, PlainOk, Total, Minted, SentBy;
    var t := AfterAll(env, Fresh(env, balances, start), actions);
    GenesisStays(env, balances, start, actions);
    ChainAccounts(env, t, who, slot);
    ChainAccounting(env, t, who);
  }
}
