/**
 The block index behind fork choice. With distinct block hashes it mirrors the chain: a block's
 cumulative weight is its height, the best head is the last block and there is one tip. Nothing
 checks that an imported hash is new, and one that is not breaks the index.
 */
module ForkChoice {
  import opened Outcomes
  import opened Ledger
  import opened CodeKeys
  import opened Chain
  import opened ChainLaws
  import opened ChainAudit
  import opened Reorg

  /** The entry of block i. */
  ghost predicate EntryOk(s: State, i: nat) {
    && i < |s.blocks| && s.blocks[i].hash in s.index
    && var e := s.index[s.blocks[i].hash];
       e.hash == s.blocks[i].hash && e.parent == s.blocks[i].parent && e.height == i + 1 && e.weight == i + 1
       && e.canonical && e.validated
  }

  ghost predicate InBlocks(blocks: seq<Block>, k: Hash) {
    exists i :: 0 <= i < |blocks| && blocks[i].hash == k
  }

  /** The index holds the blocks of the chain, each with its height as weight, and nothing else. */
  ghost predicate IndexOk(s: State) {
    && s.blocks != [] && s.blocks[0].parent == ZeroHash
    && (forall i :: 0 <= i < |s.blocks| ==> EntryOk(s, i))
    && (forall k :: k in s.index ==> InBlocks(s.blocks, k))
  }

  lemma FreshIndexed(env: Env, balances: map<Address, int>, now: int)
    ensures IndexOk(Fresh(env, balances, now))
  {
    hide PersistAll;
    var s := Fresh(env, balances, now);
    assert s.index == map[env.genesisHash := IndexEntry(env.genesisHash, ZeroHash, 1, 1, true, true, "local", now)];
    assert EntryOk(s, 0);
  }

  lemma NewEntry(env: Env, s: State, t: State, b: Block, source: string, now: Moment)
    requires Consistent(env, s) && IndexOk(s) && Grows(env, s, t, b, now) && t.index == Indexed(s.index, b, source, now.time)
    requires b.hash !in s.index
    ensures IndexOk(t)
  {
    hide Sealed, Run, LinkOk, Bare, PlainOk, Copied;
    assert EntryOk(s, s.height - 1);
    assert LastHash(s) == s.blocks[s.height - 1].hash;
    assert s.index[b.parent].weight == s.height;
    assert t.blocks[s.height] == b;
    assert EntryOk(t, s.height);
    forall i | 0 <= i < |t.blocks|
      ensures EntryOk(t, i)
    {
      if i < s.height {
        assert EntryOk(s, i);
        assert t.blocks[i] == s.blocks[i];
      }
    }
    forall k | k in t.index
      ensures InBlocks(t.blocks, k)
    {
      if k in s.index {
        var i :| 0 <= i < |s.blocks| && s.blocks[i].hash == k;
        assert t.blocks[i].hash == k;
      } else {
        assert t.blocks[s.height].hash == k;
      }
    }
  }

  /** A block on top keeps the index in step with the chain exactly when its hash is new. */
  lemma IndexKeptIffNew(env: Env, s: State, t: State, b: Block, source: string, now: Moment)
    requires Consistent(env, s) && IndexOk(s) && Grows(env, s, t, b, now) && t.index == Indexed(s.index, b, source, now.time)
    ensures IndexOk(t) <==> b.hash !in s.index
  {
    hide Sealed, Run, LinkOk, Bare, PlainOk, Copied;
    if b.hash !in s.index {
      NewEntry(env, s, t, b, source, now);
    } else {
      assert InBlocks(s.blocks, b.hash);
      var i :| 0 <= i < |s.blocks| && s.blocks[i].hash == b.hash;
      assert t.blocks[i] == s.blocks[i];
      assert t.index[b.hash].height == b.number == s.height + 1;
      assert !EntryOk(t, i);
    }
  }

  /** So it is for mining. */
  lemma MinedIndex(env: Env, s: State, hash: Hash, now: Moment)
    requires Consistent(env, s) && IndexOk(s) && Usable(hash)
    ensures IndexOk(Mined(env, s, hash, now)) <==> hash !in s.index
  {
    hide Mined, Consistent, IndexOk, Grows, Usable, Indexed, PlaceAll, Run;
    MinedGrows(env, s, hash, now);
    var t := Mined(env, s, hash, now);
    IndexKeptIffNew(env, s, t, t.blocks[|t.blocks| - 1], "local", now);
  }

  /** And for importing: a peer block whose hash is already indexed is accepted and corrupts the index. */
  lemma ImportedIndex(env: Env, s: State, b: Block, now: Moment)
    requires Consistent(env, s) && IndexOk(s) && Accepted(env, s, b, now)
    ensures IndexOk(Imported(env, s, b, now)) <==> b.hash !in s.index
  {
    hide Imported, Consistent, IndexOk, Grows, Accepted, Indexed, PlaceAll, Run;
    ImportedGrows(env, s, b, now);
    var t := Imported(env, s, b, now);
    IndexKeptIffNew(env, s, t, t.blocks[|t.blocks| - 1], "peer", now);
  }

  /** The block a peer would send: empty, on top of genesis, with the genesis hash as its own. */
  function ReusingBlock(env: Env, s: State): Block {
    Block(2, env.genesisHash, env.genesisHash, env.stateRoot(s.accounts), "", env.receiptRoot([]), ZeroHash, 0, [])
  }

  lemma ReusingBlockReplays(env: Env, s: State, now: Moment)
    requires s.accounts.code.mixed == map[]
    ensures Replays(env, s, ReusingBlock(env, s), now)
  {
    hide Replays, PlaceAll, Copied;
    var b := ReusingBlock(env, s);
    ReplaysIff(env, s, b, now);
    RunNothing(env, s.accounts);
    CopyOfSettled(s.accounts, now.root(2));
    assert OutcomesOf(env, []) == [];
  }

  /** Such a block is accepted by a fresh node and breaks its index. */
  lemma ReusedHashAccepted(env: Env, balances: map<Address, int>, start: int, now: Moment)
    requires GoodRoots(env)
    ensures var s := Fresh(env, balances, start); var b := ReusingBlock(env, s);
      Accepted(env, s, b, now) && b.hash in s.index && !IndexOk(Imported(env, s, b, now))
  {
    hide Replays, Imported, Consistent, Norm, Clash, CodeOk, PersistAll, EntryOk, InBlocks;
    var s := Fresh(env, balances, start);
    var b := ReusingBlock(env, s);
    FreshFaithful(env, balances, start);
    FreshIndexed(env, balances, start);
    ReusingBlockReplays(env, s, now);
    assert Usable(env.stateRoot(s.accounts));
    assert Accepted(env, s, b, now);
    ImportedIndex(env, s, b, now);
  }

  // ---- reorganisation -----------------------------------------------------------------------------

  /** The index when block n was the head. */
  function IndexAt(index: map<Hash, IndexEntry>, n: nat): map<Hash, IndexEntry> {
    map k | k in index && index[k].height <= n :: index[k]
  }

  lemma EntryHeight(s: State, k: Hash) returns (i: nat)
    requires IndexOk(s) && k in s.index
    ensures i < |s.blocks| && s.blocks[i].hash == k && s.index[k].height == i + 1 && s.index[k].canonical && EntryOk(s, i)
  {
    assert InBlocks(s.blocks, k);
    i :| 0 <= i < |s.blocks| && s.blocks[i].hash == k;
    assert EntryOk(s, i);
  }

  /** A reorganisation at h restores the index of head h - 1 and keeps it in step. */
  lemma ReorgIndex(env: Env, s: State, h: nat, newHash: Hash)
    requires Consistent(env, s) && IndexOk(s) && CanReorg(s, h, newHash)
    ensures Reorged(s, h).index == IndexAt(s.index, h - 1) && IndexOk(Reorged(s, h))
  {
    hide BlocksBelow, RemovedTxs, TxsOf, TxsWithout, LogsWithout, CommitsBelow, RemovedNumbers, Run, Sealed, HashesOf, LinkOk, Bare, PlainOk;
    var t := Reorged(s, h);
    ReorgUndoes(env, s, h, newHash);
    assert t.blocks == s.blocks[..h - 1];
    forall k | k in s.index
      ensures s.index[k].canonical
    {
      var i := EntryHeight(s, k);
    }
    assert t.index == IndexAt(s.index, h - 1);
    TruncatedIndex(s, t, h - 1);
  }

  lemma TruncatedIndex(s: State, t: State, n: nat)
    requires IndexOk(s) && 1 <= n <= |s.blocks| && t.blocks == s.blocks[..n] && t.index == IndexAt(s.index, n)
    ensures IndexOk(t)
  {
    forall i | 0 <= i < n
      ensures EntryOk(t, i)
    {
      assert EntryOk(s, i);
    }
    forall k | k in t.index
      ensures InBlocks(t.blocks, k)
    {
      var i := EntryHeight(s, k);
      assert t.blocks[i].hash == k;
    }
  }

  /** The index at an earlier head is not touched by a new block. */
  lemma IndexAtGrows(env: Env, s: State, t: State, b: Block, source: string, now: Moment, n: nat)
    requires Consistent(env, s) && Grows(env, s, t, b, now) && t.index == Indexed(s.index, b, source, now.time)
    requires b.hash !in s.index && n <= s.height
    ensures IndexAt(t.index, n) == IndexAt(s.index, n)
  {
    hide Sealed, Run, LinkOk, Bare, PlainOk, Copied;
  }

  lemma IndexAtHead(s: State)
    requires IndexOk(s)
    ensures IndexAt(s.index, |s.blocks|) == s.index
  {
    forall k | k in s.index
      ensures s.index[k].height <= |s.blocks|
    {
      var i := EntryHeight(s, k);
    }
  }

  // ---- the choice -----------------------------------------------------------------------------------

  /** `record` beats `best`. */
  predicate Better(record: IndexEntry, best: IndexEntry) {
    record.weight > best.weight || (record.weight == best.weight && record.height > best.height)
  }

  /** `bestIndexedHead`: none of the validated entries beats the result, whatever the order in
      which the map is walked. */
  method BestIndexedHead(index: map<Hash, IndexEntry>) returns (best: Option<IndexEntry>)
    ensures best.None? <==> forall k :: k in index ==> !index[k].validated
    ensures best.Some? ==> best.value in index.Values && best.value.validated
    ensures best.Some? ==> forall k :: k in index && index[k].validated ==> !Better(index[k], best.value)
  {
    best := None;
    var todo := index.Keys;
    while todo != {}
      invariant todo <= index.Keys
      invariant best.None? <==> forall k :: k in index && k !in todo ==> !index[k].validated
      invariant best.Some? ==> best.value in index.Values && best.value.validated
      invariant best.Some? ==> forall k :: k in index && k !in todo && index[k].validated ==> !Better(index[k], best.value)
    {
      var k :| k in todo;
      todo := todo - {k};
      var record := index[k];
      if record.validated && (best.None? || Better(record, best.value)) {
        best := Some(record);
      }
    }
  }

  predicate NamesParent(e: IndexEntry, k: Hash) {
    Usable(e.parent) && e.parent == k
  }

  /** A validated entry that no entry names as its parent. */
  ghost predicate IsTip(index: map<Hash, IndexEntry>, k: Hash) {
    k in index && index[k].validated && forall j :: j in index ==> !NamesParent(index[j], k)
  }

  /** `forkChoiceTips`, before sorting. */
  method ForkChoiceTips(index: map<Hash, IndexEntry>) returns (tips: set<Hash>)
    ensures forall k :: k in tips <==> IsTip(index, k)
  {
    var children: set<Hash> := {};
    var todo := index.Keys;
    while todo != {}
      invariant todo <= index.Keys
      invariant forall k :: k in children <==> exists j :: j in index && j !in todo && NamesParent(index[j], k)
    {
      var j :| j in todo;
      ghost var before := todo;
      todo := todo - {j};
      if Usable(index[j].parent) {
        children := children + {index[j].parent};
      }
      forall k
        ensures k in children <==> exists i :: i in index && i !in todo && NamesParent(index[i], k)
      {
        if NamesParent(index[j], k) {
          assert j in index && j !in todo;
        }
        if i :| i in index && i !in before && NamesParent(index[i], k) {
          assert i !in todo;
        }
      }
    }
    tips := set k | k in index && index[k].validated && k !in children;
  }

  lemma TwoHashesDiffer(s: State, i: nat, j: nat)
    requires IndexOk(s) && i < |s.blocks| && j < |s.blocks| && i != j
    ensures s.blocks[i].hash != s.blocks[j].hash
  {
    assert EntryOk(s, i) && EntryOk(s, j);
  }

  /** The last block is the one tip. */
  lemma OneTip(env: Env, s: State, k: Hash)
    requires Consistent(env, s) && IndexOk(s)
    ensures IsTip(s.index, k) <==> k == LastHash(s)
  {
    hide Sealed, Run, Bare, PlainOk, Copied;
    var last := |s.blocks| - 1;
    assert EntryOk(s, last);
    forall j | j in s.index
      ensures !NamesParent(s.index[j], LastHash(s))
    {
      var i := EntryHeight(s, j);
      if i > 0 {
        assert LinkOk(env, s, i + 1);
        TwoHashesDiffer(s, i - 1, last);
      }
    }
    if k in s.index && k != LastHash(s) {
      var i := EntryHeight(s, k);
      assert LinkOk(env, s, i + 1) && LinkOk(env, s, i + 2);
      assert EntryOk(s, i + 1);
      assert NamesParent(s.index[s.blocks[i + 1].hash], k);
    }
  }

  /** Nothing beats the last block, and it beats everything else. */
  lemma BestIsLast(env: Env, s: State, e: IndexEntry)
    requires Consistent(env, s) && IndexOk(s) && e in s.index.Values
    ensures LastHash(s) in s.index && s.index[LastHash(s)].weight == s.height
    ensures e == s.index[LastHash(s)] || Better(s.index[LastHash(s)], e)
  {
    hide Sealed, Run, LinkOk, Bare, PlainOk, Copied;
    var last := |s.blocks| - 1;
    assert EntryOk(s, last);
    var k :| k in s.index && s.index[k] == e;
    var i := EntryHeight(s, k);
  }
}
