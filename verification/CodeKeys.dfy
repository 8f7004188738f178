/**
 Contract code under two spellings of one address. Execution writes code under the mixed-case
 spelling; every snapshot, restore and state root goes through a copy that lower-cases the keys
 while it walks a Go map, so that of two keys for one address the one visited last wins.

 As long as the two spellings agree, copying loses nothing and the order of the walk does not
 matter. A list of transactions brings them into disagreement exactly when one of its deployments
 leaves, at an address that has code under its lower-case spelling, a different code.
 */
module CodeKeys {
  import opened Outcomes
  import opened Ledger

  /** A walk over a code map: the addresses whose mixed-case key is visited after the lower-case one. */
  type Order = set<Address>

  /** `copyStringMap` on code. */
  function Merged(c: CodeStore, order: Order): map<Address, string> {
    map n | n in c.mixed.Keys + c.lower.Keys ::
      if n in c.mixed && (n in order || n !in c.lower) then c.mixed[n] else c.lower[n]
  }

  /** Accounts as copies hold them: no mixed-case keys. */
  type Settled = a: Accounts | a.code.mixed == map[] witness NoAccounts()

  /** A copy of accounts, walked in the given order. */
  function Copied(a: Accounts, order: Order): Settled {
    a.(code := CodeStore(map[], Merged(a.code, order)))
  }

  /** The copy in which the mixed-case keys, which are the newer ones, win everywhere. */
  function Norm(a: Accounts): Settled {
    Copied(a, a.code.mixed.Keys)
  }

  /** Two different codes for one address. */
  predicate Clash(c: CodeStore) {
    exists n :: n in c.mixed && n in c.lower && c.mixed[n] != c.lower[n]
  }

  lemma CopyOfSettled(a: Settled, order: Order)
    ensures Copied(a, order) == a && Norm(a) == a && !Clash(a.code)
  {
    assert Merged(a.code, order) == a.code.lower;
    assert Merged(a.code, a.code.mixed.Keys) == a.code.lower;
  }

  lemma NormOfCopy(a: Accounts, order: Order)
    ensures Norm(Copied(a, order)) == Copied(a, order) && Norm(Norm(a)) == Norm(a)
  {
    CopyOfSettled(Copied(a, order), {});
    CopyOfSettled(Norm(a), {});
  }

  /** Every walk gives the same copy exactly when the two spellings agree. */
  lemma CopyIffNoClash(a: Accounts)
    ensures (forall order :: Copied(a, order) == Norm(a)) <==> !Clash(a.code)
    ensures Clash(a.code) ==> Copied(a, {}).code != Norm(a).code
  {
    if Clash(a.code) {
      var n :| n in a.code.mixed && n in a.code.lower && a.code.mixed[n] != a.code.lower[n];
      assert Merged(a.code, {})[n] == a.code.lower[n];
      assert Merged(a.code, a.code.mixed.Keys)[n] == a.code.mixed[n];
      assert Copied(a, {}).code.lower[n] != Norm(a).code.lower[n];
    } else {
      forall order
        ensures Copied(a, order) == Norm(a)
      {
        assert Merged(a.code, order) == Merged(a.code, a.code.mixed.Keys);
      }
    }
  }

  /** Copying leaves everything but the code alone. */
  function Bare(a: Accounts): Accounts {
    a.(code := NoCode())
  }

  lemma BareOfCopy(a: Accounts, order: Order)
    ensures Bare(Copied(a, order)) == Bare(a) && Bare(Norm(a)) == Bare(a) && Bare(Bare(a)) == Bare(a)
  {
  }

  // ---- execution ----------------------------------------------------------------------------------

  /** Plain addresses have one spelling only. */
  predicate PlainOk(env: Env, c: CodeStore) {
    forall n :: n in c.mixed ==> !env.plain(n)
  }

  predicate Deploys(env: Env, tx: Tx, n: Address) {
    tx.to == "" && env.contractAddress(tx.from, tx.nonce) == n
  }

  /** The code the last deployment at an address leaves. */
  function Deployed(env: Env, txs: seq<Tx>, n: Address): Option<string> {
    if txs == [] then None
    else if Deploys(env, txs[|txs| - 1], n) then Some(txs[|txs| - 1].input)
    else Deployed(env, txs[..|txs| - 1], n)
  }

  lemma StepCode(env: Env, a: Accounts, tx: Tx)
    ensures Step(env, a, tx).code
            == if tx.to == "" then Wrote(env, a.code, env.contractAddress(tx.from, tx.nonce), tx.input) else a.code
  {
    hide Moved, IsStore;
  }

  /** What a list of transactions does to the two spellings of one address. */
  lemma {:induction false} CodeAfter(env: Env, a: Accounts, txs: seq<Tx>, n: Address)
    ensures var c, d := Run(env, a, txs).code, Deployed(env, txs, n);
      && (!env.plain(n) && d.Some? ==> n in c.mixed && c.mixed[n] == d.value)
      && (!env.plain(n) && d.None? ==> (n in c.mixed <==> n in a.code.mixed) && (n in c.mixed ==> c.mixed[n] == a.code.mixed[n]))
      && (!env.plain(n) ==> (n in c.lower <==> n in a.code.lower) && (n in c.lower ==> c.lower[n] == a.code.lower[n]))
      && (env.plain(n) ==> (n in c.mixed <==> n in a.code.mixed))
  {
    hide Step;
    if txs != [] {
      var k := |txs| - 1;
      CodeAfter(env, a, txs[..k], n);
      StepCode(env, Run(env, a, txs[..k]), txs[k]);
    }
  }

  lemma RunPlainOk(env: Env, a: Accounts, txs: seq<Tx>)
    requires PlainOk(env, a.code)
    ensures PlainOk(env, Run(env, a, txs).code)
  {
    hide Run;
    forall n | n in Run(env, a, txs).code.mixed
      ensures !env.plain(n)
    {
      CodeAfter(env, a, txs, n);
    }
  }

  /** One of the deployments leaves, at an address with code under its lower-case spelling, a
      different code. */
  predicate Redeploys(env: Env, c: CodeStore, txs: seq<Tx>) {
    exists n :: n in c.lower && !env.plain(n) && Deployed(env, txs, n).Some? && Deployed(env, txs, n).value != c.lower[n]
  }

  /** Executing transactions on accounts whose spellings agree brings them into disagreement exactly
      when one of them redeploys. */
  lemma ClashIff(env: Env, a: Accounts, txs: seq<Tx>)
    requires !Clash(a.code) && PlainOk(env, a.code)
    ensures Clash(Run(env, a, txs).code) <==> Redeploys(env, a.code, txs)
  {
    hide Run, Deployed;
    var c := Run(env, a, txs).code;
    if Redeploys(env, a.code, txs) {
      var n :| n in a.code.lower && !env.plain(n) && Deployed(env, txs, n).Some? && Deployed(env, txs, n).value != a.code.lower[n];
      CodeAfter(env, a, txs, n);
    }
    if Clash(c) {
      var n :| n in c.mixed && n in c.lower && c.mixed[n] != c.lower[n];
      CodeAfter(env, a, txs, n);
      RunPlainOk(env, a, txs);
      assert !env.plain(n);
      assert n in a.code.lower && a.code.lower[n] == c.lower[n];
    }
  }

  /** A node that has not restored a snapshot has lower-case keys for plain addresses only. */
  predicate OnlyPlain(env: Env, c: CodeStore) {
    forall n :: n in c.lower ==> env.plain(n)
  }

  lemma RunOnlyPlain(env: Env, a: Accounts, txs: seq<Tx>)
    requires OnlyPlain(env, a.code) && PlainOk(env, a.code)
    ensures OnlyPlain(env, Run(env, a, txs).code) && PlainOk(env, Run(env, a, txs).code)
    ensures !Redeploys(env, a.code, txs) && !Clash(Run(env, a, txs).code)
  {
    hide Run, Deployed;
    RunPlainOk(env, a, txs);
    forall n | n in Run(env, a, txs).code.lower
      ensures env.plain(n)
    {
      CodeAfter(env, a, txs, n);
    }
  }

  /** What the newest-wins copy holds. */
  lemma NewestAt(c: CodeStore, n: Address)
    ensures var m := Merged(c, c.mixed.Keys);
      && (n in m <==> n in c.mixed || n in c.lower)
      && (n in c.mixed ==> m[n] == c.mixed[n]) && (n !in c.mixed && n in c.lower ==> m[n] == c.lower[n])
  {
  }

  lemma NormOfWrite(env: Env, c: CodeStore, n: Address, input: string)
    requires PlainOk(env, c)
    ensures var d, e := Wrote(env, c, n, input), Wrote(env, CodeStore(map[], Merged(c, c.mixed.Keys)), n, input);
      Merged(d, d.mixed.Keys) == Merged(e, e.mixed.Keys)
  {
    hide Merged;
    var m := Merged(c, c.mixed.Keys);
    var d, e := Wrote(env, c, n, input), Wrote(env, CodeStore(map[], m), n, input);
    var x, y := Merged(d, d.mixed.Keys), Merged(e, e.mixed.Keys);
    forall k
      ensures (k in x <==> k in y) && (k in x && k in y ==> x[k] == y[k])
    {
      NewestAt(c, k);
      NewestAt(d, k);
      NewestAt(e, k);
    }
  }

  lemma BareStep(env: Env, a: Accounts, tx: Tx)
    ensures Bare(Step(env, a, tx)) == Bare(Step(env, Bare(a), tx))
    ensures Bare(Step(env, a, tx)) == Bare(Step(env, Norm(a), tx))
  {
    hide Moved, IsStore, Merged, Wrote;
    BareParts(env, a, Bare(a), tx);
    BareParts(env, a, Norm(a), tx);
  }

  lemma BareParts(env: Env, a: Accounts, b: Accounts, tx: Tx)
    requires a.balances == b.balances && a.nonces == b.nonces && a.storage == b.storage
    ensures Bare(Step(env, a, tx)) == Bare(Step(env, b, tx))
  {
    hide Moved, IsStore, Wrote;
    var t, u := Transfer(a, tx), Transfer(b, tx);
    assert t.balances == u.balances && t.nonces == u.nonces && t.storage == u.storage;
  }

  lemma NormStep(env: Env, a: Accounts, tx: Tx)
    requires PlainOk(env, a.code)
    ensures Norm(Step(env, a, tx)) == Norm(Step(env, Norm(a), tx))
  {
    hide Step, Wrote, Merged;
    StepCode(env, a, tx);
    StepCode(env, Norm(a), tx);
    BareStep(env, a, tx);
    if tx.to == "" {
      NormOfWrite(env, a.code, env.contractAddress(tx.from, tx.nonce), tx.input);
    } else {
      NormOfCopy(a, {});
    }
    SameButCode(Norm(Step(env, a, tx)), Norm(Step(env, Norm(a), tx)));
  }

  lemma SameButCode(a: Accounts, b: Accounts)
    requires Bare(a) == Bare(b) && a.code == b.code
    ensures a == b
  {
    assert Bare(a).balances == a.balances && Bare(a).nonces == a.nonces && Bare(a).storage == a.storage;
    assert Bare(b).balances == b.balances && Bare(b).nonces == b.nonces && Bare(b).storage == b.storage;
  }

  /** Up to spelling, executing on a copy is executing on the original. */
  lemma {:induction false} NormRun(env: Env, a: Accounts, txs: seq<Tx>)
    requires PlainOk(env, a.code)
    ensures Norm(Run(env, a, txs)) == Norm(Run(env, Norm(a), txs))
  {
    hide Step, Norm, PlainOk;
    if txs == [] {
      NormOfCopy(a, {});
    } else {
      var k := |txs| - 1;
      var front := txs[..k];
      NormRun(env, a, front);
      RunPlainOk(env, a, front);
      NormPlainOk(env, a);
      RunPlainOk(env, Norm(a), front);
      NormStep(env, Run(env, a, front), txs[k]);
      NormStep(env, Run(env, Norm(a), front), txs[k]);
    }
  }

  lemma NormPlainOk(env: Env, a: Accounts)
    ensures PlainOk(env, Norm(a).code)
  {
  }

  /** Balances, nonces and storage do not depend on the code. */
  lemma {:induction false} BareRun(env: Env, a: Accounts, b: Accounts, txs: seq<Tx>)
    requires Bare(a) == Bare(b)
    ensures Bare(Run(env, a, txs)) == Bare(Run(env, b, txs))
  {
    hide Step, Bare;
    if txs != [] {
      var k := |txs| - 1;
      BareRun(env, a, b, txs[..k]);
      BareStep(env, Run(env, a, txs[..k]), txs[k]);
      BareStep(env, Run(env, b, txs[..k]), txs[k]);
    }
  }
}
