/**
 The payment-channel manager. Over every run the two balances of a channel add up to its opening
 deposit as integers, although the code compares sums that wrap at 2^64; sequences only rise,
 balances freeze once a channel leaves Open, Closed is reached only after the challenge window and
 is final. The state index files each channel exactly once, but disputed channels stay filed under
 the state they had before.
 */
module Channels {

  type Id = string
  type Address = string

  datatype ChannelState = Open | Closing | Closed | Disputed

  const MaxChannelAmount: nat := 1_000_000_000_000_000_000
  const MaxChannelBalance: nat := 1_000_000_000_000_000_000
  const ChallengePeriod: nat := 7 * 24 * 3600 * 1_000_000_000
  const Modulus: nat := 0x1_0000_0000_0000_0000

  type Uint64 = n: nat | n < 0x1_0000_0000_0000_0000

  datatype Channel = Channel(first: Address, second: Address, left: Uint64, right: Uint64, sequence: Uint64,
                             state: ChannelState, openTime: int, closeTime: int, challengeEnd: int, disputeNonce: Uint64)

  /** Addition on uint64. */
  function Plus(a: Uint64, b: Uint64): Uint64 {
    (a + b) % Modulus
  }

  type Lists<!K> = map<K, seq<Id>>

  function ListOf<K>(lists: Lists<K>, k: K): seq<Id> {
    if k in lists then lists[k] else []
  }

  function Filed<K>(lists: Lists<K>, k: K, id: Id): Lists<K> {
    lists[k := ListOf(lists, k) + [id]]
  }

  function Without(list: seq<Id>, id: Id): seq<Id> {
    if list == [] then [] else
      Without(list[..|list| - 1], id) + if list[|list| - 1] == id then [] else [list[|list| - 1]]
  }

  /** `updateStateIndex`. */
  function Refiled(lists: Lists<ChannelState>, id: Id, source: ChannelState, target: ChannelState): Lists<ChannelState> {
    Filed(lists[source := Without(ListOf(lists, source), id)], target, id)
  }

  datatype Book = Book(channels: map<Id, Channel>, byParticipant: Lists<Address>, byState: Lists<ChannelState>)

  datatype Call =
    | OpenCall(id: Id, first: Address, second: Address, deposit: Uint64, now: int)
    | UpdateCall(id: Id, left: Uint64, right: Uint64, sequence: Uint64, signed: bool)
    | CloseCall(id: Id, initiator: nat, now: int)
    | ConfirmCall(id: Id, now: int)
    | DisputeCall(id: Id)

  /** Whether a call succeeds. */
  predicate Succeeds(b: Book, c: Call) {
    match c
    case OpenCall(_, p, q, deposit, _) => p != q && deposit <= MaxChannelAmount
    case UpdateCall(id, left, right, sequence, signed) =>
      && id in b.channels && b.channels[id].state == Open && sequence > b.channels[id].sequence
      && Plus(left, right) == Plus(b.channels[id].left, b.channels[id].right)
      && left <= MaxChannelBalance && right <= MaxChannelBalance && signed
    case CloseCall(id, initiator, _) => id in b.channels && b.channels[id].state == Open && initiator <= 1
    case ConfirmCall(id, now) => id in b.channels && b.channels[id].state == Closing && now >= b.channels[id].challengeEnd
    case DisputeCall(id) => id in b.channels && b.channels[id].state != Closed
  }

  function Put(b: Book, id: Id, ch: Channel): Book {
    b.(channels := b.channels[id := ch])
  }

  /** The book after a call; a call that fails changes nothing. A dispute leaves the state index as
      it is: the branches that would update it test the state after it was overwritten. */
  function After(b: Book, c: Call): Book {
    if !Succeeds(b, c) then b else
      match c
      case OpenCall(id, p, q, deposit, now) =>
        Book(b.channels[id := Channel(p, q, deposit, 0, 0, Open, now, 0, 0, 0)],
             Filed(Filed(b.byParticipant, p, id), q, id), Filed(b.byState, Open, id))
      case UpdateCall(id, left, right, sequence, _) =>
        Put(b, id, b.channels[id].(left := left, right := right, sequence := sequence))
      case CloseCall(id, _, now) =>
        Put(b, id, b.channels[id].(state := Closing, closeTime := now, challengeEnd := now + ChallengePeriod))
        .(byState := Refiled(b.byState, id, Open, Closing))
      case ConfirmCall(id, _) =>
        Put(b, id, b.channels[id].(state := Closed)).(byState := Refiled(b.byState, id, Closing, Closed))
      case DisputeCall(id) =>
        Put(b, id, b.channels[id].(state := Disputed, disputeNonce := Plus(b.channels[id].disputeNonce, 1)))
  }

  // ---- the manager --------------------------------------------------------------------------------------

  class Manager {
    var channels: map<Id, Channel>
    var byParticipant: Lists<Address>
    var byState: Lists<ChannelState>

    ghost function Contents(): Book
      reads this
    {
      Book(channels, byParticipant, byState)
    }

    constructor ()
      ensures Contents() == Book(map[], map[], map[])
    {
      channels, byParticipant, byState := map[], map[], map[];
    }

    method OpenChannel(id: Id, p: Address, q: Address, deposit: Uint64, now: int) returns (ok: bool)
      modifies this
      ensures ok == Succeeds(old(Contents()), OpenCall(id, p, q, deposit, now))
      ensures Contents() == After(old(Contents()), OpenCall(id, p, q, deposit, now))
    {
      if p == q || deposit > MaxChannelAmount {
        return false;
      }
      channels := channels[id := Channel(p, q, deposit, 0, 0, Open, now, 0, 0, 0)];
      byParticipant := byParticipant[p := ListOf(byParticipant, p) + [id]];
      byParticipant := byParticipant[q := ListOf(byParticipant, q) + [id]];
      byState := byState[Open := ListOf(byState, Open) + [id]];
      return true;
    }

    method UpdateBalance(id: Id, left: Uint64, right: Uint64, sequence: Uint64, signed: bool) returns (ok: bool)
      modifies this
      ensures ok == Succeeds(old(Contents()), UpdateCall(id, left, right, sequence, signed))
      ensures Contents() == After(old(Contents()), UpdateCall(id, left, right, sequence, signed))
    {
      hide Plus;
      if id !in channels {
        return false;
      }
      var ch := channels[id];
      if ch.state != Open || sequence <= ch.sequence {
        return false;
      }
      var totalOld, totalNew := Plus(ch.left, ch.right), Plus(left, right);
      if totalNew != totalOld {
        return false;
      }
      if left > MaxChannelBalance || right > MaxChannelBalance || !signed {
        return false;
      }
      channels := channels[id := ch.(left := left, right := right, sequence := sequence)];
      return true;
    }

    method UpdateStateIndex(id: Id, source: ChannelState, target: ChannelState)
      modifies this
      ensures Contents() == old(Contents()).(byState := Refiled(old(byState), id, source, target))
    {
      var oldList := ListOf(byState, source);
      var newList: seq<Id> := [];
      for i := 0 to |oldList|
        invariant Contents() == old(Contents())
        invariant newList == Without(oldList[..i], id)
      {
        assert oldList[..i + 1][..i] == oldList[..i];
        if oldList[i] != id {
          newList := newList + [oldList[i]];
        }
      }
      assert oldList[..|oldList|] == oldList;
      byState := byState[source := newList];
      byState := byState[target := ListOf(byState, target) + [id]];
    }

    method CloseChannel(id: Id, initiator: nat, now: int) returns (ok: bool)
      modifies this
      ensures ok == Succeeds(old(Contents()), CloseCall(id, initiator, now))
      ensures Contents() == After(old(Contents()), CloseCall(id, initiator, now))
    {
      if id !in channels || channels[id].state != Open || initiator > 1 {
        return false;
      }
      channels := channels[id := channels[id].(state := Closing, closeTime := now, challengeEnd := now + ChallengePeriod)];
      UpdateStateIndex(id, Open, Closing);
      return true;
    }

    method ConfirmClose(id: Id, now: int) returns (ok: bool)
      modifies this
      ensures ok == Succeeds(old(Contents()), ConfirmCall(id, now))
      ensures Contents() == After(old(Contents()), ConfirmCall(id, now))
    {
      if id !in channels || channels[id].state != Closing || now < channels[id].challengeEnd {
        return false;
      }
      channels := channels[id := channels[id].(state := Closed)];
      UpdateStateIndex(id, Closing, Closed);
      return true;
    }

    method DisputeChannel(id: Id) returns (ok: bool)
      modifies this
      ensures ok == Succeeds(old(Contents()), DisputeCall(id))
      ensures Contents() == After(old(Contents()), DisputeCall(id))
    {
      if id !in channels || channels[id].state == Closed {
        return false;
      }
      var ch := channels[id];
      channels := channels[id := ch.(state := Disputed, disputeNonce := Plus(ch.disputeNonce, 1))];
      // What follows would refile the channel if it were Closing or Open, which it no longer is.
      assert channels[id].state != Closing && channels[id].state != Open;
      return true;
    }
  }

  // ---- money --------------------------------------------------------------------------------------------

  ghost predicate Bounded(ch: Channel) {
    ch.left <= MaxChannelBalance && ch.right <= MaxChannelBalance
  }

  ghost predicate AllBounded(b: Book) {
    forall id :: id in b.channels ==> Bounded(b.channels[id])
  }

  lemma AfterBounded(b: Book, c: Call)
    requires AllBounded(b)
    ensures AllBounded(After(b, c))
  {
    hide Filed, Refiled, Plus;
  }

  /** Sums that agree after wrapping agree as integers when the parts are bounded. */
  lemma SumsAgree(a: Uint64, b: Uint64, c: Uint64, d: Uint64)
    requires Plus(a, b) == Plus(c, d) && a <= MaxChannelBalance && b <= MaxChannelBalance
    requires c <= MaxChannelBalance && d <= MaxChannelBalance
    ensures a + b == c + d
  {
  }

  /** How a channel can look later. */
  ghost predicate Evolves(a: Channel, z: Channel) {
    && z.first == a.first && z.second == a.second && z.openTime == a.openTime
    && z.left + z.right == a.left + a.right
    && a.sequence <= z.sequence
    && (a.sequence == z.sequence ==> z.left == a.left && z.right == a.right)
    && (a.state != Open ==> z.left == a.left && z.right == a.right && z.sequence == a.sequence)
    && (a.state == Closed ==> z == a)
    && (a.state != Open ==> z.state != Open)
    && (a.state == Disputed ==> z.state == Disputed)
    && (a.state != Open ==> z.challengeEnd == a.challengeEnd)
  }

  /** The call does not reuse an id. */
  predicate FreshId(b: Book, c: Call) {
    c.OpenCall? ==> c.id !in b.channels
  }

  lemma AfterEvolves(b: Book, c: Call, id: Id)
    requires AllBounded(b) && FreshId(b, c) && id in b.channels
    ensures id in After(b, c).channels && Evolves(b.channels[id], After(b, c).channels[id])
  {
    hide Filed, Refiled, Plus;
    if c.UpdateCall? && Succeeds(b, c) && c.id == id {
      SumsAgree(c.left, c.right, b.channels[id].left, b.channels[id].right);
    }
  }

  lemma EvolvesTransitive(a: Channel, b: Channel, c: Channel)
    requires Evolves(a, b) && Evolves(b, c)
    ensures Evolves(a, c)
  {
  }

  function AfterAll(b: Book, calls: seq<Call>): Book {
    if calls == [] then b else After(AfterAll(b, calls[..|calls| - 1]), calls[|calls| - 1])
  }

  ghost predicate FreshIds(b: Book, calls: seq<Call>) {
    forall i :: 0 <= i < |calls| ==> FreshId(AfterAll(b, calls[..i]), calls[i])
  }

  lemma {:induction false} RunBounded(b: Book, calls: seq<Call>)
    requires AllBounded(b)
    ensures AllBounded(AfterAll(b, calls))
  {
    hide After, AllBounded;
    if calls != [] {
      RunBounded(b, calls[..|calls| - 1]);
      AfterBounded(AfterAll(b, calls[..|calls| - 1]), calls[|calls| - 1]);
    }
  }

  /** Over any stretch of a run a channel keeps its participants and the integer sum of its balances;
      sequences do not fall, and the balances change only while it is open and only with a higher
      sequence; a closed channel does not change at all. */
  lemma {:induction false} RunEvolves(b: Book, calls: seq<Call>, id: Id)
    requires AllBounded(b) && FreshIds(b, calls) && id in b.channels
    ensures id in AfterAll(b, calls).channels && Evolves(b.channels[id], AfterAll(b, calls).channels[id])
  {
    hide After, Evolves, AllBounded, FreshId;
    if calls == [] {
      EvolvesReflexive(b.channels[id]);
    } else {
      var n := |calls| - 1;
      var front := calls[..n];
      forall i | 0 <= i < n
        ensures FreshId(AfterAll(b, front[..i]), front[i])
      {
        assert front[..i] == calls[..i];
      }
      RunEvolves(b, front, id);
      RunBounded(b, front);
      assert FreshId(AfterAll(b, calls[..n]), calls[n]);
      AfterEvolves(AfterAll(b, front), calls[n], id);
      EvolvesTransitive(b.channels[id], AfterAll(b, front).channels[id], AfterAll(b, calls).channels[id]);
    }
  }

  lemma EvolvesReflexive(a: Channel)
    ensures Evolves(a, a)
  {
  }

  /** From the call that opens it, a channel's balances always add up to the deposit. */
  lemma DepositConserved(b: Book, c: Call, calls: seq<Call>)
    requires AllBounded(b) && c.OpenCall? && Succeeds(b, c) && FreshIds(After(b, c), calls)
    ensures var z := AfterAll(After(b, c), calls);
      c.id in z.channels && z.channels[c.id].left + z.channels[c.id].right == c.deposit
  {
    hide AfterAll, FreshIds, AllBounded;
    AfterBounded(b, c);
    RunEvolves(After(b, c), calls, c.id);
  }

  /** Call i of a run succeeds. */
  predicate SucceedsAt(b: Book, calls: seq<Call>, i: nat)
    requires i < |calls|
  {
    Succeeds(AfterAll(b, calls[..i]), calls[i])
  }

  lemma AfterNext(b: Book, calls: seq<Call>, i: nat)
    requires i < |calls|
    ensures AfterAll(b, calls[..i + 1]) == After(AfterAll(b, calls[..i]), calls[i])
  {
    hide After;
    assert calls[..i + 1][..i] == calls[..i];
  }

  lemma FreshAt(b: Book, calls: seq<Call>, i: nat)
    requires FreshIds(b, calls) && i < |calls|
    ensures FreshId(AfterAll(b, calls[..i]), calls[i])
  {
    hide FreshId, AfterAll;
  }

  /** Between two points of a run a channel evolves. */
  lemma {:induction false} EvolvesBetween(b: Book, calls: seq<Call>, i: nat, j: nat, id: Id)
    requires AllBounded(b) && FreshIds(b, calls) && i <= j <= |calls| && id in AfterAll(b, calls[..i]).channels
    ensures var x, z := AfterAll(b, calls[..i]), AfterAll(b, calls[..j]); id in z.channels && Evolves(x.channels[id], z.channels[id])
    decreases j - i
  {
    hide After, AfterAll, Evolves, AllBounded, FreshId;
    if i == j {
      EvolvesReflexive(AfterAll(b, calls[..i]).channels[id]);
    } else {
      EvolvesBetween(b, calls, i, j - 1, id);
      var x, y := AfterAll(b, calls[..i]), AfterAll(b, calls[..j - 1]);
      RunBounded(b, calls[..j - 1]);
      FreshAt(b, calls, j - 1);
      AfterNext(b, calls, j - 1);
      AfterEvolves(y, calls[j - 1], id);
      EvolvesTransitive(x.channels[id], y.channels[id], AfterAll(b, calls[..j]).channels[id]);
    }
  }

  /** Accepted updates of one channel have strictly rising sequences. */
  lemma UpdatesRise(b: Book, calls: seq<Call>, i: nat, j: nat)
    requires AllBounded(b) && FreshIds(b, calls) && i < j < |calls|
    requires calls[i].UpdateCall? && calls[j].UpdateCall? && calls[i].id == calls[j].id
    requires SucceedsAt(b, calls, i) && SucceedsAt(b, calls, j)
    ensures calls[i].sequence < calls[j].sequence
  {
    hide AfterAll, AllBounded, FreshIds, Plus;
    AfterNext(b, calls, i);
    EvolvesBetween(b, calls, i + 1, j, calls[i].id);
  }

  /** Once a channel is not open, no update of it is accepted. */
  lemma NoUpdateAfter(b: Book, calls: seq<Call>, i: nat, m: nat, id: Id)
    requires AllBounded(b) && FreshIds(b, calls) && i <= m < |calls|
    requires id in AfterAll(b, calls[..i]).channels && AfterAll(b, calls[..i]).channels[id].state != Open
    requires calls[m].UpdateCall? && calls[m].id == id
    ensures !SucceedsAt(b, calls, m)
  {
    hide AfterAll, AllBounded, FreshIds, Plus;
    EvolvesBetween(b, calls, i, m, id);
  }

  /** How a channel comes to be closing. */
  lemma BecomesClosing(b: Book, c: Call, id: Id)
    requires FreshId(b, c) && id in After(b, c).channels && After(b, c).channels[id].state == Closing
    ensures id in b.channels
    ensures (b.channels[id].state == Closing && After(b, c).channels[id].challengeEnd == b.channels[id].challengeEnd)
         || (c.CloseCall? && c.id == id && Succeeds(b, c) && After(b, c).channels[id].challengeEnd == c.now + ChallengePeriod)
  {
    hide Filed, Refiled, Plus;
  }

  /** How a channel comes to be closed: by confirming at or after the end of its window. */
  lemma BecomesClosed(b: Book, c: Call, id: Id)
    requires FreshId(b, c) && id in After(b, c).channels && After(b, c).channels[id].state == Closed
    ensures id in b.channels
    ensures b.channels[id].state == Closed
         || (b.channels[id].state == Closing && c.ConfirmCall? && c.id == id && Succeeds(b, c) && c.now >= b.channels[id].challengeEnd)
  {
    hide Filed, Refiled, Plus;
  }

  function Empty(): Book {
    Book(map[], map[], map[])
  }

  /** A closing channel was closed by an accepted call that set its window. */
  lemma {:induction false} ClosingHistory(calls: seq<Call>, n: nat, id: Id) returns (i: nat)
    requires FreshIds(Empty(), calls) && n <= |calls| && id in AfterAll(Empty(), calls[..n]).channels
    requires AfterAll(Empty(), calls[..n]).channels[id].state == Closing
    ensures i < n && calls[i].CloseCall? && calls[i].id == id && SucceedsAt(Empty(), calls, i)
    ensures AfterAll(Empty(), calls[..n]).channels[id].challengeEnd == calls[i].now + ChallengePeriod
  {
    hide After, Succeeds, FreshIds, FreshId;
    if n == 0 {
      assert false;
    } else {
      AfterNext(Empty(), calls, n - 1);
      FreshAt(Empty(), calls, n - 1);
      BecomesClosing(AfterAll(Empty(), calls[..n - 1]), calls[n - 1], id);
      if AfterAll(Empty(), calls[..n - 1]).channels[id].state == Closing
         && AfterAll(Empty(), calls[..n]).channels[id].challengeEnd == AfterAll(Empty(), calls[..n - 1]).channels[id].challengeEnd {
        i := ClosingHistory(calls, n - 1, id);
      } else {
        i := n - 1;
      }
    }
  }

  /** A closed channel was closed and, at least the challenge period later, confirmed. */
  lemma {:induction false} ClosedHistory(calls: seq<Call>, n: nat, id: Id) returns (i: nat, k: nat)
    requires FreshIds(Empty(), calls) && n <= |calls| && id in AfterAll(Empty(), calls[..n]).channels
    requires AfterAll(Empty(), calls[..n]).channels[id].state == Closed
    ensures i < k < n && calls[i].CloseCall? && calls[i].id == id && calls[k].ConfirmCall? && calls[k].id == id
    ensures SucceedsAt(Empty(), calls, i) && SucceedsAt(Empty(), calls, k) && calls[k].now >= calls[i].now + ChallengePeriod
  {
    hide After, Succeeds, FreshIds, FreshId;
    if n == 0 {
      assert false;
    } else {
      AfterNext(Empty(), calls, n - 1);
      FreshAt(Empty(), calls, n - 1);
      BecomesClosed(AfterAll(Empty(), calls[..n - 1]), calls[n - 1], id);
      if AfterAll(Empty(), calls[..n - 1]).channels[id].state == Closed {
        i, k := ClosedHistory(calls, n - 1, id);
      } else {
        i := ClosingHistory(calls, n - 1, id);
        k := n - 1;
      }
    }
  }

  lemma ClosedByCall(b: Book, c: Call)
    requires c.CloseCall? && Succeeds(b, c)
    ensures c.id in After(b, c).channels && After(b, c).channels[c.id].state == Closing
  {
    hide Refiled;
  }

  /** In every run a closed channel has been through an accepted close and, at least the challenge
      period later, an accepted confirmation, with no accepted update of it since the close. */
  lemma ClosedOnlyAfterWindow(calls: seq<Call>, id: Id) returns (i: nat, k: nat)
    requires FreshIds(Empty(), calls) && id in AfterAll(Empty(), calls).channels && AfterAll(Empty(), calls).channels[id].state == Closed
    ensures i < k < |calls| && calls[i].CloseCall? && calls[i].id == id && calls[k].ConfirmCall? && calls[k].id == id
    ensures SucceedsAt(Empty(), calls, i) && SucceedsAt(Empty(), calls, k) && calls[k].now >= calls[i].now + ChallengePeriod
    ensures forall m :: i < m < |calls| && calls[m].UpdateCall? && calls[m].id == id ==> !SucceedsAt(Empty(), calls, m)
  {
    hide After, AfterAll, Succeeds, FreshIds, FreshId;
    assert calls[..|calls|] == calls;
    i, k := ClosedHistory(calls, |calls|, id);
    AfterNext(Empty(), calls, i);
    ClosedByCall(AfterAll(Empty(), calls[..i]), calls[i]);
    forall m | i < m < |calls| && calls[m].UpdateCall? && calls[m].id == id
      ensures !SucceedsAt(Empty(), calls, m)
    {
      NoUpdateAfter(Empty(), calls, i + 1, m, id);
    }
  }

  // ---- the state index ------------------------------------------------------------------------------------

  ghost function CountIn(lists: Lists<ChannelState>, st: ChannelState, id: Id): nat {
    multiset(ListOf(lists, st))[id]
  }

  /** Filed once, under the given state and no other. */
  ghost predicate FiledUnder(lists: Lists<ChannelState>, id: Id, st: ChannelState) {
    forall s :: CountIn(lists, s, id) == if s == st then 1 else 0
  }

  ghost predicate NotFiled(lists: Lists<ChannelState>, id: Id) {
    forall s :: CountIn(lists, s, id) == 0
  }

  /** A channel's own state, or for a disputed channel the state it had before. */
  predicate Fits(filed: ChannelState, actual: ChannelState) {
    filed == actual || (actual == Disputed && (filed == Open || filed == Closing))
  }

  ghost predicate ChannelFiled(b: Book, id: Id) {
    id in b.channels && exists st :: FiledUnder(b.byState, id, st) && Fits(st, b.channels[id].state) && st != Disputed
  }

  ghost predicate IndexOk(b: Book) {
    && (forall id :: id in b.channels ==> ChannelFiled(b, id))
    && (forall id :: id !in b.channels ==> NotFiled(b.byState, id))
  }

  lemma {:induction false} WithoutCount(list: seq<Id>, id: Id, other: Id)
    ensures multiset(Without(list, id))[other] == if other == id then 0 else multiset(list)[other]
  {
    if list != [] {
      var n := |list| - 1;
      WithoutCount(list[..n], id, other);
      assert list == list[..n] + [list[n]];
    }
  }

  lemma FiledCount(lists: Lists<ChannelState>, st: ChannelState, id: Id, s: ChannelState, other: Id)
    ensures CountIn(Filed(lists, st, id), s, other) == CountIn(lists, s, other) + if s == st && other == id then 1 else 0
  {
  }

  lemma RefiledCount(lists: Lists<ChannelState>, id: Id, source: ChannelState, target: ChannelState, s: ChannelState, other: Id)
    requires source != target
    ensures other != id ==> CountIn(Refiled(lists, id, source, target), s, other) == CountIn(lists, s, other)
    ensures CountIn(Refiled(lists, id, source, target), s, id)
            == if s == source then 0 else if s == target then CountIn(lists, s, id) + 1 else CountIn(lists, s, id)
  {
    hide Filed, Without;
    var removed := lists[source := Without(ListOf(lists, source), id)];
    WithoutCount(ListOf(lists, source), id, other);
    WithoutCount(ListOf(lists, source), id, id);
    FiledCount(removed, target, id, s, other);
    FiledCount(removed, target, id, s, id);
  }

  lemma RefiledKeeps(lists: Lists<ChannelState>, id: Id, source: ChannelState, target: ChannelState, other: Id)
    requires source != target && other != id
    ensures NotFiled(lists, other) ==> NotFiled(Refiled(lists, id, source, target), other)
    ensures forall st :: FiledUnder(lists, other, st) ==> FiledUnder(Refiled(lists, id, source, target), other, st)
  {
    hide Refiled, CountIn;
    forall s
      ensures CountIn(Refiled(lists, id, source, target), s, other) == CountIn(lists, s, other)
    {
      RefiledCount(lists, id, source, target, s, other);
    }
  }

  lemma RefiledMoves(lists: Lists<ChannelState>, id: Id, source: ChannelState, target: ChannelState)
    requires source != target && FiledUnder(lists, id, source)
    ensures FiledUnder(Refiled(lists, id, source, target), id, target)
  {
    hide Refiled, CountIn;
    forall s
      ensures CountIn(Refiled(lists, id, source, target), s, id) == if s == target then 1 else 0
    {
      RefiledCount(lists, id, source, target, s, id);
    }
  }

  /** Refiling one channel to a new state. */
  lemma MoveKeepsIndex(b: Book, z: Book, id: Id, source: ChannelState, target: ChannelState)
    requires IndexOk(b) && id in b.channels && b.channels[id].state == source && source != target
    requires source != Disputed && target != Disputed
    requires z.byState == Refiled(b.byState, id, source, target)
    requires z.channels.Keys == b.channels.Keys && z.channels[id].state == target
    requires forall k :: k in b.channels && k != id ==> z.channels[k] == b.channels[k]
    ensures IndexOk(z)
  {
    hide Refiled, FiledUnder, NotFiled;
    assert ChannelFiled(b, id);
    RefiledMoves(b.byState, id, source, target);
    assert ChannelFiled(z, id);
    forall k | k != id
      ensures k in z.channels ==> ChannelFiled(z, k)
      ensures k !in z.channels ==> NotFiled(z.byState, k)
    {
      RefiledKeeps(b.byState, id, source, target, k);
      if k in b.channels {
        assert ChannelFiled(b, k);
        var st :| FiledUnder(b.byState, k, st) && Fits(st, b.channels[k].state) && st != Disputed;
        assert FiledUnder(z.byState, k, st);
      }
    }
  }

  lemma OpenFiles(lists: Lists<ChannelState>, id: Id, other: Id)
    ensures NotFiled(lists, id) ==> FiledUnder(Filed(lists, Open, id), id, Open)
    ensures other != id && NotFiled(lists, other) ==> NotFiled(Filed(lists, Open, id), other)
    ensures forall st :: other != id && FiledUnder(lists, other, st) ==> FiledUnder(Filed(lists, Open, id), other, st)
  {
    hide Filed, CountIn;
    forall s, k
      ensures CountIn(Filed(lists, Open, id), s, k) == CountIn(lists, s, k) + if s == Open && k == id then 1 else 0
    {
      FiledCount(lists, Open, id, s, k);
    }
  }

  lemma OpenKeepsIndex(b: Book, c: Call)
    requires IndexOk(b) && c.OpenCall? && Succeeds(b, c) && c.id !in b.channels
    ensures IndexOk(After(b, c))
  {
    hide Filed, FiledUnder, NotFiled;
    var z := After(b, c);
    OpenFiles(b.byState, c.id, c.id);
    assert ChannelFiled(z, c.id);
    forall k | k != c.id
      ensures k in z.channels ==> ChannelFiled(z, k)
      ensures k !in z.channels ==> NotFiled(z.byState, k)
    {
      OpenFiles(b.byState, c.id, k);
      if k in b.channels {
        assert ChannelFiled(b, k);
        var st :| FiledUnder(b.byState, k, st) && Fits(st, b.channels[k].state) && st != Disputed;
        assert FiledUnder(z.byState, k, st);
      }
    }
  }

  /** Reusing an id files it twice. */
  lemma ReusedIdBreaksIndex(b: Book, c: Call)
    requires IndexOk(b) && c.OpenCall? && Succeeds(b, c) && c.id in b.channels
    ensures !IndexOk(After(b, c))
  {
    hide Filed, CountIn;
    var z := After(b, c);
    assert ChannelFiled(b, c.id);
    var st :| FiledUnder(b.byState, c.id, st) && Fits(st, b.channels[c.id].state) && st != Disputed;
    FiledCount(b.byState, Open, c.id, Open, c.id);
    FiledCount(b.byState, Open, c.id, st, c.id);
    assert CountIn(b.byState, st, c.id) == 1;
    assert CountIn(z.byState, st, c.id) == if st == Open then 2 else 1;
    assert CountIn(z.byState, Open, c.id) == if st == Open then 2 else 1;
    forall u
      ensures !FiledUnder(z.byState, c.id, u)
    {
    }
    assert !ChannelFiled(z, c.id);
  }

  lemma SameIndex(b: Book, z: Book, id: Id)
    requires IndexOk(b) && id in b.channels && z.byState == b.byState && z.channels.Keys == b.channels.Keys
    requires z.channels[id].state == b.channels[id].state || (z.channels[id].state == Disputed && b.channels[id].state != Closed)
    requires forall k :: k in b.channels && k != id ==> z.channels[k] == b.channels[k]
    ensures IndexOk(z)
  {
    hide FiledUnder, NotFiled;
    forall k | k in z.channels
      ensures ChannelFiled(z, k)
    {
      assert ChannelFiled(b, k);
    }
  }

  /** Each channel is filed exactly once, under its own state or the one before its dispute; this
      holds after a call exactly when the call does not reuse an id. */
  lemma AfterIndexed(b: Book, c: Call)
    requires IndexOk(b)
    ensures IndexOk(After(b, c)) <==> FreshId(b, c) || !Succeeds(b, c)
  {
    hide IndexOk, Filed, Refiled, Plus;
    if Succeeds(b, c) {
      match c
      case OpenCall(id, _, _, _, _) =>
        if id in b.channels {
          ReusedIdBreaksIndex(b, c);
        } else {
          OpenKeepsIndex(b, c);
        }
      case UpdateCall(id, _, _, _, _) => SameIndex(b, After(b, c), id);
      case CloseCall(id, _, _) => MoveKeepsIndex(b, After(b, c), id, Open, Closing);
      case ConfirmCall(id, _) => MoveKeepsIndex(b, After(b, c), id, Closing, Closed);
      case DisputeCall(id) => SameIndex(b, After(b, c), id);
    }
  }

  lemma {:induction false} RunIndexed(b: Book, calls: seq<Call>)
    requires IndexOk(b) && FreshIds(b, calls)
    ensures IndexOk(AfterAll(b, calls))
  {
    hide IndexOk, After, FreshId;
    if calls != [] {
      var n := |calls| - 1;
      var front := calls[..n];
      forall i | 0 <= i < n
        ensures FreshId(AfterAll(b, front[..i]), front[i])
      {
        assert front[..i] == calls[..i];
      }
      RunIndexed(b, front);
      assert FreshId(AfterAll(b, calls[..n]), calls[n]);
      AfterIndexed(AfterAll(b, front), calls[n]);
    }
  }

  /** In every reachable state the list of disputed channels is empty, however many are disputed. */
  lemma DisputedListEmpty(calls: seq<Call>, id: Id)
    requires FreshIds(Empty(), calls)
    ensures var z := AfterAll(Empty(), calls);
      IndexOk(z) && CountIn(z.byState, Disputed, id) == 0
  {
    hide AfterAll, FreshIds, Fits;
    var empty := Empty();
    assert IndexOk(empty);
    RunIndexed(empty, calls);
    var z := AfterAll(empty, calls);
    if id in z.channels {
      assert ChannelFiled(z, id);
    } else {
      assert NotFiled(z.byState, id);
    }
  }
}
