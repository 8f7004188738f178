/**
 Reorganisation: it undoes the blocks from a height on and puts their transactions back into the
 pool. Mining them again reproduces the accounts up to the spelling of code keys, and the state
 root, whatever the order of the walks, exactly when they do not redeploy over the snapshot. No
 transaction is lost or duplicated.
 */
module Reorg {
  import opened Ledger
  import opened CodeKeys
  import opened Chain
  import opened ChainLaws
  import opened ChainAudit

  // ---- the shape of a reorganised chain ---------------------------------------------------------------

  ghost predicate Numbered(blocks: seq<Block>) {
    forall i :: 0 <= i < |blocks| ==> blocks[i].number == i + 1
  }

  /** The transactions of a list of blocks, stripped, in order. */
  function TxsOf(blocks: seq<Block>): seq<Tx> {
    if blocks == [] then [] else TxsOf(blocks[..|blocks| - 1]) + StripAll(blocks[|blocks| - 1].txs)
  }

  lemma LastBelow(blocks: seq<Block>, h: nat)
    requires blocks != [] && blocks[|blocks| - 1].number < h
    ensures var n := |blocks| - 1;
      BlocksBelow(blocks, h) == BlocksBelow(blocks[..n], h) + [blocks[n]] && RemovedTxs(blocks, h) == RemovedTxs(blocks[..n], h)
  {
    hide StripAll;
    assert RemovedTxs(blocks, h) == RemovedTxs(blocks[..|blocks| - 1], h) + [];
  }

  lemma NoneBelow(h: nat)
    ensures BlocksBelow([], h) == [] && RemovedTxs([], h) == []
  {
  }

  lemma {:induction false} AllBelow(blocks: seq<Block>, h: nat)
    requires Numbered(blocks) && |blocks| < h
    ensures BlocksBelow(blocks, h) == blocks && RemovedTxs(blocks, h) == []
  {
    hide BlocksBelow, RemovedTxs;
    if blocks == [] {
      NoneBelow(h);
    } else {
      var n := |blocks| - 1;
      AllBelow(blocks[..n], h);
      LastBelow(blocks, h);
      assert blocks[..n] + [blocks[n]] == blocks;
    }
  }

  lemma {:induction false} BelowIsPrefix(blocks: seq<Block>, h: nat)
    requires Numbered(blocks) && 1 <= h <= |blocks| + 1
    ensures BlocksBelow(blocks, h) == blocks[..h - 1] && RemovedTxs(blocks, h) == TxsOf(blocks[h - 1..])
  {
    hide StripAll;
    if h == |blocks| + 1 {
      AllBelow(blocks, h);
      assert blocks[h - 1..] == [] && blocks[..h - 1] == blocks;
    } else {
      var n := |blocks| - 1;
      var front, rest := blocks[..n], blocks[h - 1..];
      BelowIsPrefix(front, h);
      assert rest[..|rest| - 1] == front[h - 1..] && rest[|rest| - 1] == blocks[n];
      assert front[..h - 1] == blocks[..h - 1];
      assert blocks[n].number == n + 1;
    }
  }

  lemma ConsistentNumbered(env: Env, s: State)
    requires Consistent(env, s)
    ensures Numbered(s.blocks)
  {
    hide Run, Sealed, Usable, Bare;
    forall i | 0 <= i < |s.blocks|
      ensures s.blocks[i].number == i + 1
    {
      assert LinkOk(env, s, i + 1);
    }
  }

  /** What a reorganisation brings back, besides the accounts. */
  datatype View = View(height: nat, blocks: seq<Block>, canonical: map<nat, Hash>, snapshots: map<nat, Snapshot>)

  function ViewOf(s: State): View {
    View(s.height, s.blocks, s.canonical, s.snapshots)
  }

  /** The entries of a map by height, up to a height. */
  function UpTo<V>(m: map<nat, V>, n: nat): map<nat, V> {
    map k | k in m && k <= n :: m[k]
  }

  lemma UpToGrows<V>(m: map<nat, V>, k: nat, v: V, n: nat)
    requires n < k
    ensures UpTo(m[k := v], n) == UpTo(m, n)
  {
  }

  lemma UpToAll<V>(m: map<nat, V>, n: nat)
    requires forall k :: k in m ==> k <= n
    ensures UpTo(m, n) == m
  {
  }

  /** The view when block n was the head. */
  function ViewAt(s: State, n: nat): View
    requires n <= |s.blocks|
  {
    View(n, s.blocks[..n], UpTo(s.canonical, n), UpTo(s.snapshots, n))
  }

  lemma ViewAtHead(env: Env, s: State)
    requires Consistent(env, s)
    ensures ViewAt(s, s.height) == ViewOf(s)
  {
    hide LinkOk, Bare, PlainOk;
    assert s.blocks[..s.height] == s.blocks;
    UpToAll(s.canonical, s.height);
    UpToAll(s.snapshots, s.height);
  }

  /** A block on top does not change the view at an earlier head. */
  lemma ViewAtGrows(env: Env, s: State, t: State, b: Block, now: Moment, n: nat)
    requires Consistent(env, s) && Grows(env, s, t, b, now) && 1 <= n <= s.height
    ensures n <= |t.blocks| && ViewAt(t, n) == ViewAt(s, n)
  {
    hide Sealed, Run, LinkOk, Bare, PlainOk, Copied, UpTo;
    assert t.blocks[..n] == s.blocks[..n];
    UpToGrows(s.canonical, b.number, b.hash, n);
    UpToGrows(s.snapshots, b.number, t.snapshots[b.number], n);
  }

  lemma RemovedHeights(env: Env, s: State, h: nat)
    requires Consistent(env, s) && h > 1
    ensures forall k: nat :: k in RemovedNumbers(s.blocks, h) <==> h <= k <= s.height
  {
    ConsistentNumbered(env, s);
    forall k: nat | h <= k <= s.height
      ensures k in RemovedNumbers(s.blocks, h)
    {
      assert s.blocks[k - 1].number == k;
    }
  }

  /** A reorganisation at h returns to the view when block h - 1 was the head and to the accounts of
      its snapshot, and puts the transactions of the removed blocks back into the pool. */
  lemma ReorgUndoes(env: Env, s: State, h: nat, newHash: Hash)
    requires Consistent(env, s) && CanReorg(s, h, newHash)
    ensures h <= s.height && ViewOf(Reorged(s, h)) == ViewAt(s, h - 1) && Reorged(s, h).accounts == s.snapshots[h - 1].accounts
    ensures Reorged(s, h).pool == s.pool + TxsOf(s.blocks[h - 1..])
  {
    hide BlocksBelow, RemovedTxs, TxsOf, TxsWithout, LogsWithout, CommitsBelow, RemovedNumbers, Run, Sealed, HashesOf, Bare;
    assert LinkOk(env, s, h) && LinkOk(env, s, h - 1);
    ConsistentNumbered(env, s);
    BelowIsPrefix(s.blocks, h);
    RemovedHeights(env, s, h);
    var t := Reorged(s, h);
    assert t.canonical == UpTo(s.canonical, h - 1);
    assert t.snapshots == UpTo(s.snapshots, h - 1);
  }

  /** It acts exactly when asked to replace a block above genesis by another one. */
  lemma ReorgActsIff(env: Env, s: State, h: nat, newHash: Hash)
    requires Consistent(env, s)
    ensures CanReorg(s, h, newHash) <==> 2 <= h <= s.height && s.blocks[h - 1].hash != newHash
  {
    hide Run, Sealed, Bare;
    if 2 <= h <= s.height {
      assert LinkOk(env, s, h) && LinkOk(env, s, h - 1);
    }
  }

  lemma ViewConsistent(env: Env, s: State, t: State, n: nat)
    requires Consistent(env, s) && 1 <= n <= s.height && n in s.snapshots && ViewOf(t) == ViewAt(s, n) && !t.replayMode
    requires t.accounts == s.snapshots[n].accounts
    ensures Consistent(env, t)
  {
    hide Run, Sealed, Usable, Bare;
    assert t.height == n && t.blocks == s.blocks[..n];
    assert t.canonical == ViewAt(s, n).canonical && t.snapshots == ViewAt(s, n).snapshots;
    forall h: nat | 1 <= h <= n
      ensures LinkOk(env, t, h)
    {
      assert LinkOk(env, s, h);
      assert t.blocks[h - 1] == s.blocks[h - 1];
      if h > 1 {
        assert LinkOk(env, s, h - 1);
        assert t.blocks[h - 2] == s.blocks[h - 2];
      }
    }
    assert LinkOk(env, t, n);
  }

  lemma ViewFaithful(env: Env, s: State, t: State, n: nat)
    requires Faithful(env, s) && Consistent(env, t) && 1 <= n <= s.height && n in s.snapshots && ViewOf(t) == ViewAt(s, n)
    requires t.accounts == s.snapshots[n].accounts
    ensures Faithful(env, t)
  {
    hide Run, Sealed, Usable, Bare, Norm, LinkOk, PlainOk, Clash;
    assert t.height == n && t.blocks == s.blocks[..n] && t.snapshots == ViewAt(s, n).snapshots;
    CopyOfSettled(s.snapshots[n].accounts, {});
    forall h: nat | 1 <= h <= n
      ensures CodeOk(env, t, h)
    {
      assert CodeOk(env, s, h);
      assert t.blocks[h - 1] == s.blocks[h - 1];
    }
  }

  lemma ReorgedConsistent(env: Env, s: State, h: nat, newHash: Hash)
    requires Consistent(env, s) && CanReorg(s, h, newHash)
    ensures Consistent(env, Reorged(s, h)) && (Faithful(env, s) ==> Faithful(env, Reorged(s, h)))
  {
    hide Consistent, Reorged, ViewOf, ViewAt, Clash, CodeOk, Norm;
    ReorgUndoes(env, s, h, newHash);
    HeadOf(env, s, h - 1);
    ReorgMode(env, s, h);
    ViewConsistent(env, s, Reorged(s, h), h - 1);
    if Faithful(env, s) {
      ViewFaithful(env, s, Reorged(s, h), h - 1);
    }
  }

  lemma HeadOf(env: Env, s: State, n: nat)
    requires Consistent(env, s) && 1 <= n <= s.height
    ensures n in s.snapshots && |s.blocks| == s.height
  {
    hide Run, Sealed, Usable, Bare;
    assert LinkOk(env, s, n);
  }

  lemma ReorgMode(env: Env, s: State, h: nat)
    requires Consistent(env, s) && h > 1 && h - 1 in s.snapshots
    ensures !Reorged(s, h).replayMode
  {
    hide BlocksBelow, RemovedTxs, TxsWithout, LogsWithout, CommitsBelow, RemovedNumbers, HashesOf, LinkOk, Bare, PlainOk;
  }

  // ---- redoing ------------------------------------------------------------------------------------

  lemma LastOfPart(env: Env, a: Accounts, blocks: seq<Block>, m: nat, n: nat)
    requires m < n <= |blocks|
    ensures Run(env, a, TxsOf(blocks[m..n])) == Run(env, Run(env, a, TxsOf(blocks[m..n - 1])), blocks[n - 1].txs)
  {
    hide Run, StripAll;
    var part, last := blocks[m..n], blocks[n - 1];
    assert part[..|part| - 1] == blocks[m..n - 1] && part[|part| - 1] == last;
    RunAppend(env, a, TxsOf(blocks[m..n - 1]), StripAll(last.txs));
    StripOfPlaced(last.txs, "", 0);
    RunIgnoresPlace(env, Run(env, a, TxsOf(blocks[m..n - 1])), last.txs, StripAll(last.txs));
  }

  lemma NoBlocks(blocks: seq<Block>, m: nat)
    requires m <= |blocks|
    ensures TxsOf(blocks[m..m]) == []
  {
  }

  /** Executing blocks one after the other is executing their transactions in one go, for all but the
      code. */
  lemma {:induction false} BlocksAsOne(env: Env, s: State, m: nat, n: nat)
    requires Consistent(env, s) && 1 <= m <= n <= s.height
    ensures m in s.snapshots && n in s.snapshots
    ensures Bare(s.snapshots[n].accounts) == Bare(Run(env, s.snapshots[m].accounts, TxsOf(s.blocks[m..n])))
  {
    hide Run, Sealed, Usable, TxsOf, Bare, PlainOk;
    assert LinkOk(env, s, m) && LinkOk(env, s, n);
    var start := s.snapshots[m].accounts;
    if m == n {
      RunNothing(env, start);
      NoBlocks(s.blocks, m);
    } else {
      BlocksAsOne(env, s, m, n - 1);
      LastOfPart(env, start, s.blocks, m, n);
      BareRun(env, s.snapshots[n - 1].accounts, Run(env, start, TxsOf(s.blocks[m..n - 1])), s.blocks[n - 1].txs);
    }
  }

  /** In a faithful chain for the code as well. */
  lemma {:induction false} FaithfulBlocksAsOne(env: Env, s: State, m: nat, n: nat)
    requires Faithful(env, s) && 1 <= m <= n <= s.height
    ensures m in s.snapshots && n in s.snapshots
    ensures s.snapshots[n].accounts == Norm(Run(env, s.snapshots[m].accounts, TxsOf(s.blocks[m..n])))
  {
    hide Run, Sealed, Usable, TxsOf, Bare, Norm, PlainOk, Clash;
    assert LinkOk(env, s, m) && LinkOk(env, s, n);
    var start := s.snapshots[m].accounts;
    if m == n {
      RunNothing(env, start);
      CopyOfSettled(start, {});
      NoBlocks(s.blocks, m);
    } else {
      FaithfulBlocksAsOne(env, s, m, n - 1);
      LastOfPart(env, start, s.blocks, m, n);
      assert CodeOk(env, s, n);
      SettledPlainOk(env, start);
      RunPlainOk(env, start, TxsOf(s.blocks[m..n - 1]));
      NormRun(env, Run(env, start, TxsOf(s.blocks[m..n - 1])), s.blocks[n - 1].txs);
    }
  }

  lemma SettledPlainOk(env: Env, a: Settled)
    ensures PlainOk(env, a.code)
  {
  }

  lemma RunNothing(env: Env, a: Accounts)
    ensures Run(env, a, []) == a
  {
  }

  /** After a reorganisation with an empty pool, the requeued transactions lead back to the accounts
      up to spelling. */
  lemma RequeuedAccounts(env: Env, s: State, h: nat, newHash: Hash)
    requires Faithful(env, s) && CanReorg(s, h, newHash) && s.pool == []
    ensures Norm(Run(env, Reorged(s, h).accounts, Reorged(s, h).pool)) == Norm(s.accounts) && Reorged(s, h).height == h - 1
  {
    hide Reorged, Run, TxsOf, Sealed, Usable, Bare, Norm, PlainOk, Clash, CodeOk, LinkOk;
    ReorgUndoes(env, s, h, newHash);
    FaithfulBlocksAsOne(env, s, h - 1, s.height);
    assert s.blocks[h - 1..s.height] == s.blocks[h - 1..];
    assert [] + TxsOf(s.blocks[h - 1..]) == TxsOf(s.blocks[h - 1..]);
  }

  lemma HeadRoot(env: Env, s: State)
    requires Faithful(env, s) && s.height > 1
    ensures s.blocks[s.height - 1].stateRoot == env.stateRoot(Norm(s.accounts))
  {
    hide Run, Usable, Sealed, Bare, Norm, Clash, PlainOk;
    assert LinkOk(env, s, s.height) && CodeOk(env, s, s.height);
  }

  /** The root of the block that mining after a reorganisation makes. */
  lemma RequeuedRoot(env: Env, s: State, h: nat, newHash: Hash, hash: Hash, now: Moment)
    requires Faithful(env, s) && CanReorg(s, h, newHash) && s.pool == [] && Usable(hash)
    ensures var t := Mined(env, Reorged(s, h), hash, now);
      && t.height == h && t.blocks != [] && Norm(t.accounts) == Norm(s.accounts)
      && t.blocks[|t.blocks| - 1].stateRoot == env.stateRoot(Copied(t.accounts, now.root(h)))
      && (Clash(t.accounts.code) <==> Redeploys(env, Reorged(s, h).accounts.code, Reorged(s, h).pool))
  {
    hide Reorged, Mined, Run, PlaceAll, Usable, OutcomesOf, LinkOk, CodeOk, StripAll, Indexed, TxsOf, Norm, Copied, Clash, Redeploys, Bare, PlainOk, Sealed;
    ReorgedConsistent(env, s, h, newHash);
    RequeuedAccounts(env, s, h, newHash);
    MinedGrows(env, Reorged(s, h), hash, now);
    MinedClashIff(env, Reorged(s, h), hash, now);
  }

  /** The mined block carries the old head's root. */
  predicate SameRoot(s: State, t: State) {
    s.blocks != [] && t.blocks != [] && t.blocks[|t.blocks| - 1].stateRoot == s.blocks[|s.blocks| - 1].stateRoot
  }

  /** With an empty pool, mining what a reorganisation put back reproduces the accounts up to spelling,
      wherever the block boundaries were; it reproduces the state root, whatever the order of the
      walks, exactly when the requeued transactions do not redeploy over the restored snapshot. */
  lemma ReorgThenMine(env: Env, s: State, h: nat, newHash: Hash, hash: Hash, r: State)
    requires RootsTellCode(env) && Faithful(env, s) && CanReorg(s, h, newHash) && s.pool == [] && Usable(hash)
    requires r == Reorged(s, h)
    ensures forall now :: Norm(Mined(env, r, hash, now).accounts) == Norm(s.accounts)
    ensures (forall now :: SameRoot(s, Mined(env, r, hash, now))) <==> !Redeploys(env, r.accounts.code, r.pool)
  {
    hide Reorged, Mined, Norm, Copied, Clash, Redeploys, Usable, CanReorg, Bare, LinkOk, CodeOk, PlainOk, Run;
    ReorgActsIff(env, s, h, newHash);
    HeadRoot(env, s);
    forall now
      ensures Norm(Mined(env, r, hash, now).accounts) == Norm(s.accounts)
      ensures !Redeploys(env, r.accounts.code, r.pool) ==> SameRoot(s, Mined(env, r, hash, now))
    {
      RequeuedRoot(env, s, h, newHash, hash, now);
      CopyIffNoClash(Mined(env, r, hash, now).accounts);
    }
    if Redeploys(env, r.accounts.code, r.pool) {
      var now := LowerLast(0);
      RequeuedRoot(env, s, h, newHash, hash, now);
      CopyIffNoClash(Mined(env, r, hash, now).accounts);
      assert !SameRoot(s, Mined(env, r, hash, now));
    }
  }

  // ---- conservation of transactions ---------------------------------------------------------------

  /** All transactions the node holds, in the pool or in blocks, wherever they sit. */
  ghost function Holdings(s: State): multiset<Tx> {
    multiset(StripAll(s.pool)) + multiset(TxsOf(s.blocks))
  }

  lemma {:induction false} TxsOfAppend(xs: seq<Block>, ys: seq<Block>)
    ensures TxsOf(xs + ys) == TxsOf(xs) + TxsOf(ys)
    decreases |ys|
  {
    hide StripAll;
    if ys == [] {
      assert xs + ys == xs;
    } else {
      var n := |ys| - 1;
      assert (xs + ys)[..|xs + ys| - 1] == xs + ys[..n];
      TxsOfAppend(xs, ys[..n]);
    }
  }

  lemma TxsOfOne(b: Block)
    ensures TxsOf([b]) == StripAll(b.txs)
  {
    assert [b][..0] == [];
    assert TxsOf([b][..0]) == [];
  }

  lemma StripAppend(xs: seq<Tx>, ys: seq<Tx>)
    ensures StripAll(xs + ys) == StripAll(xs) + StripAll(ys)
  {
  }

  lemma {:induction false} TxsOfStripped(blocks: seq<Block>)
    ensures StripAll(TxsOf(blocks)) == TxsOf(blocks)
  {
    if blocks != [] {
      var n := |blocks| - 1;
      TxsOfStripped(blocks[..n]);
      StripAppend(TxsOf(blocks[..n]), StripAll(blocks[n].txs));
      StripOfPlaced(blocks[n].txs, "", 0);
    }
  }

  /** Mining neither loses nor duplicates a transaction. */
  lemma MiningConserves(env: Env, s: State, hash: Hash, now: Moment)
    requires Consistent(env, s) && Usable(hash)
    ensures Holdings(Mined(env, s, hash, now)) == Holdings(s)
  {
    hide Mined, TxsOf, StripAll, PlaceAll, Consistent, Usable, Run, Sealed, Copied;
    MinedGrows(env, s, hash, now);
    var t := Mined(env, s, hash, now);
    var b := t.blocks[|t.blocks| - 1];
    TxsOfAppend(s.blocks, [b]);
    TxsOfOne(b);
    StripOfPlaced(s.pool, hash, s.height + 1);
    EmptyStrip();
  }

  lemma EmptyStrip()
    ensures StripAll([]) == []
  {
  }

  /** Neither does a reorganisation. */
  lemma ReorgConserves(env: Env, s: State, h: nat, newHash: Hash)
    requires Consistent(env, s) && CanReorg(s, h, newHash)
    ensures Holdings(Reorged(s, h)) == Holdings(s)
  {
    hide Reorged, TxsOf, StripAll, Run, Sealed, Usable, LinkOk, Bare, PlainOk;
    ReorgUndoes(env, s, h, newHash);
    var keep, drop := s.blocks[..h - 1], s.blocks[h - 1..];
    assert s.blocks == keep + drop;
    TxsOfAppend(keep, drop);
    StripAppend(s.pool, TxsOf(drop));
    TxsOfStripped(drop);
  }

  /** Importing adds the peer's transactions, nothing else. */
  lemma ImportAdds(env: Env, s: State, b: Block, now: Moment)
    requires Consistent(env, s) && Accepted(env, s, b, now)
    ensures Holdings(Imported(env, s, b, now)) == Holdings(s) + multiset(StripAll(b.txs))
  {
    hide Imported, TxsOf, StripAll, PlaceAll, Consistent, Accepted, Run, Sealed, Copied;
    ImportedGrows(env, s, b, now);
    var t := Imported(env, s, b, now);
    var c := t.blocks[|t.blocks| - 1];
    TxsOfAppend(s.blocks, [c]);
    TxsOfOne(c);
    StripOfPlaced(b.txs, b.hash, b.number);
  }

  /** Submitting adds one transaction. */
  lemma SubmitAdds(env: Env, s: State, tx: Tx, autoMine: bool, hash: Hash, now: Moment)
    requires Consistent(env, s) && Usable(hash)
    ensures Holdings(Submitted(env, s, tx, autoMine, hash, now)) == Holdings(s) + multiset{Strip(tx)}
  {
    hide Mined, TxsOf, Consistent, Usable, StripAll;
    var s1 := s.(pool := s.pool + [tx]);
    StripAppend(s.pool, [tx]);
    StripOne(tx);
    assert Holdings(s1) == Holdings(s) + multiset{Strip(tx)};
    assert Consistent(env, s1) by { PoolGrows(env, s, s1); }
    if autoMine {
      MiningConserves(env, s1, hash, now);
    }
  }

  lemma StripOne(tx: Tx)
    ensures StripAll([tx]) == [Strip(tx)]
  {
  }

  lemma PoolGrows(env: Env, s: State, t: State)
    requires Consistent(env, s) && t == s.(pool := t.pool)
    ensures Consistent(env, t)
  {
    hide LinkOk, Bare, PlainOk;
    SameLinks(env, s, t);
  }
}
