/**
 What a run of the channel manager amounts to, told by its calls alone. An id stands for its latest
 valid opening. An update is accepted exactly when it is signed, comes before any close or dispute,
 splits the deposit exactly, and carries a higher sequence than every such update before it; the
 balances are those of the highest one. A close, a confirmation and a dispute succeed exactly when
 the calls before them allow it.
 */
module ChannelHistory {
  import opened Outcomes
  import opened Channels

  // ---- the calls that matter --------------------------------------------------------------------------

  predicate ValidOpening(c: Call, id: Id) {
    c.OpenCall? && c.id == id && c.first != c.second && c.deposit <= MaxChannelAmount
  }

  /** Before call n the id stands for the opening of call o. */
  predicate OpenedBy(calls: seq<Call>, o: nat, n: nat, id: Id) {
    o < n <= |calls| && ValidOpening(calls[o], id) && forall k :: o < k < n ==> !ValidOpening(calls[k], id)
  }

  predicate IsClose(c: Call, id: Id) {
    c.CloseCall? && c.id == id && c.initiator <= 1
  }

  /** Between o and n the channel was neither closed nor disputed. */
  predicate OpenUntil(calls: seq<Call>, o: nat, n: nat, id: Id) {
    o < n <= |calls| && forall k :: o < k < n ==> !IsClose(calls[k], id) && calls[k] != DisputeCall(id)
  }

  /** Call v splits the deposit of opening o, signed, while the channel was open. */
  predicate Splits(calls: seq<Call>, o: nat, v: nat, id: Id) {
    && o < v < |calls| && calls[o].OpenCall? && calls[v].UpdateCall? && calls[v].id == id && calls[v].signed
    && calls[v].left + calls[v].right == calls[o].deposit && OpenUntil(calls, o, v, id)
  }

  /** Call v carries a higher sequence than every earlier split. */
  predicate Leads(calls: seq<Call>, o: nat, v: nat, id: Id) {
    && Splits(calls, o, v, id) && calls[v].sequence > 0
    && forall w :: o < w < v && Splits(calls, o, w, id) ==> calls[w].sequence < calls[v].sequence
  }

  /** Call v leads and no split up to n carries a higher sequence. */
  predicate Latest(calls: seq<Call>, o: nat, v: nat, n: nat, id: Id) {
    v < n && Leads(calls, o, v, id) && forall w :: v < w < n && Splits(calls, o, w, id) ==> calls[w].sequence <= calls[v].sequence
  }

  /** Call c closed the channel of opening o. */
  predicate ClosedBy(calls: seq<Call>, o: nat, c: nat, id: Id) {
    o < c < |calls| && IsClose(calls[c], id) && OpenUntil(calls, o, c, id)
  }

  /** Call k confirms the close of call c after its challenge period. */
  predicate Confirms(calls: seq<Call>, c: nat, k: nat, id: Id) {
    c < k < |calls| && calls[c].CloseCall? && calls[k].ConfirmCall? && calls[k].id == id && calls[k].now >= calls[c].now + ChallengePeriod
  }

  predicate NoDispute(calls: seq<Call>, c: nat, n: nat, id: Id) {
    n <= |calls| && forall k :: c < k < n ==> calls[k] != DisputeCall(id)
  }

  /** The channel was closed by call c and since then neither disputed nor confirmed. */
  predicate ClosingBy(calls: seq<Call>, o: nat, c: nat, n: nat, id: Id) {
    && c < n <= |calls| && ClosedBy(calls, o, c, id) && NoDispute(calls, c, n, id)
    && forall k :: c < k < n ==> !Confirms(calls, c, k, id)
  }

  /** The close of call c was confirmed by call k without a dispute before. */
  predicate SettledBy(calls: seq<Call>, o: nat, c: nat, k: nat, n: nat, id: Id) {
    c < k < n <= |calls| && ClosedBy(calls, o, c, id) && Confirms(calls, c, k, id) && NoDispute(calls, c, k, id)
  }

  // ---- one channel --------------------------------------------------------------------------------------

  /** What one call, not an opening, makes of a channel. */
  function Advanced(ch: Channel, id: Id, c: Call): Channel {
    match c
    case UpdateCall(i, left, right, sequence, signed) =>
      if i == id && ch.state == Open && signed && left + right == ch.left + ch.right && sequence > ch.sequence
      then ch.(left := left, right := right, sequence := sequence) else ch
    case CloseCall(i, initiator, now) =>
      if i == id && ch.state == Open && initiator <= 1
      then ch.(state := Closing, closeTime := now, challengeEnd := now + ChallengePeriod) else ch
    case ConfirmCall(i, now) =>
      if i == id && ch.state == Closing && now >= ch.challengeEnd then ch.(state := Closed) else ch
    case DisputeCall(i) =>
      if i == id && ch.state != Closed then ch.(state := Disputed, disputeNonce := (ch.disputeNonce + 1) % Modulus) else ch
    case OpenCall(_, _, _, _, _) => ch
  }

  /** What the calls after opening o up to n make of its channel. */
  function Course(calls: seq<Call>, o: nat, n: nat): (ch: Channel)
    requires o < n <= |calls| && calls[o].OpenCall? && calls[o].deposit <= MaxChannelAmount
    ensures ch.left + ch.right == calls[o].deposit
    ensures ch.first == calls[o].first && ch.second == calls[o].second && ch.openTime == calls[o].now
  {
    if n == o + 1 then Channel(calls[o].first, calls[o].second, calls[o].deposit, 0, 0, Open, calls[o].now, 0, 0, 0)
    else Advanced(Course(calls, o, n - 1), calls[o].id, calls[n - 1])
  }

  function Standing(b: Book, id: Id): Option<Channel> {
    if id in b.channels then Some(b.channels[id]) else None
  }

  lemma StandingAfter(b: Book, c: Call, id: Id)
    requires Standing(b, id).Some? && !ValidOpening(c, id)
    requires var ch := Standing(b, id).value; ch.left + ch.right <= MaxChannelAmount
    ensures Standing(After(b, c), id) == Some(Advanced(Standing(b, id).value, id, c))
  {
    hide Filed, Refiled;
    var ch := Standing(b, id).value;
    if c.UpdateCall? && c.id == id {
      WrappedSum(c.left, c.right, ch.left, ch.right);
    }
  }

  /** Within the limits, sums that agree after wrapping are sums that agree. */
  lemma WrappedSum(a: Uint64, b: Uint64, c: Uint64, d: Uint64)
    requires c + d <= MaxChannelAmount
    ensures a <= MaxChannelBalance && b <= MaxChannelBalance && Plus(a, b) == Plus(c, d) <==> a + b == c + d
  {
  }

  lemma StandingNew(b: Book, c: Call, id: Id)
    requires Standing(b, id).None? && !ValidOpening(c, id)
    ensures Standing(After(b, c), id).None?
  {
    hide Filed, Refiled, Plus;
  }

  lemma StandingOpened(b: Book, c: Call, id: Id)
    requires ValidOpening(c, id)
    ensures Standing(After(b, c), id) == Some(Channel(c.first, c.second, c.deposit, 0, 0, Open, c.now, 0, 0, 0))
  {
    hide Filed;
  }

  /** The history of an id before call n. */
  ghost predicate History(calls: seq<Call>, n: nat, id: Id, standing: Option<Channel>) {
    && (standing.Some? ==> exists o: nat :: OpenedBy(calls, o, n, id))
    && (forall o: nat :: OpenedBy(calls, o, n, id) ==> standing == Some(Course(calls, o, n)))
  }

  /** In every run an id stands for its latest valid opening, in the state that the calls since then
      brought it to. */
  lemma {:induction false} HistoryAt(calls: seq<Call>, n: nat, id: Id)
    requires n <= |calls|
    ensures History(calls, n, id, Standing(AfterAll(Empty(), calls[..n]), id))
  {
    hide After, Standing, Advanced;
    if n == 0 {
      assert Standing(Empty(), id).None? by { NothingStands(id); }
    } else {
      HistoryAt(calls, n - 1, id);
      AfterNext(Empty(), calls, n - 1);
      var before := AfterAll(Empty(), calls[..n - 1]);
      if ValidOpening(calls[n - 1], id) {
        StandingOpened(before, calls[n - 1], id);
        assert OpenedBy(calls, n - 1, n, id);
      } else if Standing(before, id).Some? {
        var o: nat :| OpenedBy(calls, o, n - 1, id);
        assert OpenedBy(calls, o, n, id);
        StandingAfter(before, calls[n - 1], id);
      } else {
        StandingNew(before, calls[n - 1], id);
        NoOpening(calls, n - 1, n, id);
      }
    }
  }

  lemma NoOpening(calls: seq<Call>, m: nat, n: nat, id: Id)
    requires n == m + 1 <= |calls| && !ValidOpening(calls[m], id) && forall o: nat :: !OpenedBy(calls, o, m, id)
    ensures forall o: nat :: !OpenedBy(calls, o, n, id)
  {
    assert forall o: nat :: OpenedBy(calls, o, n, id) ==> OpenedBy(calls, o, m, id);
  }

  lemma NothingStands(id: Id)
    ensures Standing(Empty(), id).None?
  {
  }

  // ---- what the calls since the opening amount to ------------------------------------------------------------

  /** A channel is open until it is closed or disputed. */
  lemma {:induction false} OpenMeaning(calls: seq<Call>, o: nat, n: nat)
    requires o < n <= |calls| && calls[o].OpenCall? && calls[o].deposit <= MaxChannelAmount
    ensures Course(calls, o, n).state == Open <==> OpenUntil(calls, o, n, calls[o].id)
  {
    if n > o + 1 {
      OpenMeaning(calls, o, n - 1);
    }
  }

  /** What the sequence and the balances are. */
  ghost predicate Balances(calls: seq<Call>, o: nat, n: nat, ch: Channel)
    requires o < n <= |calls| && calls[o].OpenCall?
  {
    var id := calls[o].id;
    && (forall w: nat :: w < n && Splits(calls, o, w, id) ==> calls[w].sequence <= ch.sequence)
    && ((ch.sequence == 0 && ch.left == calls[o].deposit && ch.right == 0)
        || exists v: nat :: v < n && Leads(calls, o, v, id) && ch.sequence == calls[v].sequence && ch.left == calls[v].left && ch.right == calls[v].right)
  }

  lemma {:induction false} BalancesMeaning(calls: seq<Call>, o: nat, n: nat)
    requires o < n <= |calls| && calls[o].OpenCall? && calls[o].deposit <= MaxChannelAmount
    ensures Balances(calls, o, n, Course(calls, o, n))
  {
    hide OpenUntil;
    if n > o + 1 {
      BalancesMeaning(calls, o, n - 1);
      OpenMeaning(calls, o, n - 1);
      var p, z, c, id := Course(calls, o, n - 1), Course(calls, o, n), calls[n - 1], calls[o].id;
      if c.UpdateCall? && c.id == id && p.state == Open && c.signed && c.left + c.right == p.left + p.right && c.sequence > p.sequence {
        assert Splits(calls, o, n - 1, id) && Leads(calls, o, n - 1, id);
      } else {
        assert Splits(calls, o, n - 1, id) ==> c.sequence <= p.sequence;
      }
    }
  }

  /** The balances are those of the split with the highest sequence, the first one if several share
      it, or the deposit and nothing if none has a sequence above zero. */
  lemma LatestBalances(calls: seq<Call>, o: nat, n: nat, ch: Channel)
    requires o < n <= |calls| && calls[o].OpenCall? && Balances(calls, o, n, ch)
    ensures forall v: nat :: Latest(calls, o, v, n, calls[o].id) ==>
              ch.left == calls[v].left && ch.right == calls[v].right && ch.sequence == calls[v].sequence
    ensures (forall v: nat :: v < n && Splits(calls, o, v, calls[o].id) ==> calls[v].sequence == 0) ==>
              ch.left == calls[o].deposit && ch.right == 0 && ch.sequence == 0
  {
    hide OpenUntil;
    var id := calls[o].id;
    forall v: nat | Latest(calls, o, v, n, id)
      ensures ch.left == calls[v].left && ch.right == calls[v].right && ch.sequence == calls[v].sequence
    {
      var u: nat :| u < n && Leads(calls, o, u, id) && ch.sequence == calls[u].sequence && ch.left == calls[u].left && ch.right == calls[u].right;
      assert Splits(calls, o, v, id) && Splits(calls, o, u, id);
      assert u == v;
    }
  }

  /** A channel is closing since its close until it is disputed or confirmed, and closed once the close
      was confirmed after its window with no dispute in between. */
  ghost predicate Closure(calls: seq<Call>, o: nat, n: nat, ch: Channel)
    requires o < n <= |calls| && calls[o].OpenCall?
  {
    var id := calls[o].id;
    && (ch.state == Closing <==> exists c: nat :: ClosingBy(calls, o, c, n, id))
    && (forall c: nat :: ClosingBy(calls, o, c, n, id) ==> ch.closeTime == calls[c].now && ch.challengeEnd == calls[c].now + ChallengePeriod)
    && (ch.state == Closed <==> exists c: nat, k: nat :: SettledBy(calls, o, c, k, n, id))
  }

  lemma ClosureAtOpening(calls: seq<Call>, o: nat)
    requires o < |calls| && calls[o].OpenCall? && calls[o].deposit <= MaxChannelAmount
    ensures Closure(calls, o, o + 1, Course(calls, o, o + 1))
  {
  }

  lemma {:induction false} ClosureMeaning(calls: seq<Call>, o: nat, n: nat)
    requires o < n <= |calls| && calls[o].OpenCall? && calls[o].deposit <= MaxChannelAmount
    ensures Closure(calls, o, n, Course(calls, o, n))
  {
    hide Advanced, ClosingBy, SettledBy, OpenUntil;
    if n == o + 1 {
      ClosureAtOpening(calls, o);
    } else {
      ClosureMeaning(calls, o, n - 1);
      OpenMeaning(calls, o, n - 1);
      ClosingStep(calls, o, n, Course(calls, o, n - 1));
      SettledStep(calls, o, n, Course(calls, o, n - 1));
    }
  }

  lemma ClosingStep(calls: seq<Call>, o: nat, n: nat, p: Channel)
    requires o + 1 < n <= |calls| && calls[o].OpenCall? && Closure(calls, o, n - 1, p)
    requires p.state == Open <==> OpenUntil(calls, o, n - 1, calls[o].id)
    ensures var z, id := Advanced(p, calls[o].id, calls[n - 1]), calls[o].id;
      && (z.state == Closing <==> exists c: nat :: ClosingBy(calls, o, c, n, id))
      && (forall c: nat :: ClosingBy(calls, o, c, n, id) ==> z.closeTime == calls[c].now && z.challengeEnd == calls[c].now + ChallengePeriod)
  {
    hide OpenUntil, SettledBy;
    var z, id, m := Advanced(p, calls[o].id, calls[n - 1]), calls[o].id, n - 1;
    forall c: nat | ClosingBy(calls, o, c, n, id)
      ensures z.state == Closing && z.closeTime == calls[c].now && z.challengeEnd == calls[c].now + ChallengePeriod
    {
      if c < m {
        assert ClosingBy(calls, o, c, m, id);
        assert !Confirms(calls, c, m, id);
      }
    }
    if z.state == Closing {
      if p.state == Closing {
        var c: nat :| ClosingBy(calls, o, c, m, id);
        assert !Confirms(calls, c, m, id);
        assert ClosingBy(calls, o, c, n, id);
      } else {
        assert ClosingBy(calls, o, m, n, id);
      }
    }
  }

  lemma SettledStep(calls: seq<Call>, o: nat, n: nat, p: Channel)
    requires o + 1 < n <= |calls| && calls[o].OpenCall? && Closure(calls, o, n - 1, p)
    ensures var z, id := Advanced(p, calls[o].id, calls[n - 1]), calls[o].id;
      z.state == Closed <==> exists c: nat, k: nat :: SettledBy(calls, o, c, k, n, id)
  {
    hide OpenUntil;
    var z, id, m := Advanced(p, calls[o].id, calls[n - 1]), calls[o].id, n - 1;
    forall c: nat, k: nat | SettledBy(calls, o, c, k, n, id)
      ensures z.state == Closed
    {
      if k < m {
        assert SettledBy(calls, o, c, k, m, id);
      } else if j: nat :| c < j < m && Confirms(calls, c, j, id) {
        assert SettledBy(calls, o, c, j, m, id);
      } else {
        assert ClosingBy(calls, o, c, m, id);
      }
    }
    if z.state == Closed {
      if p.state == Closed {
        var c: nat, k: nat :| SettledBy(calls, o, c, k, m, id);
        assert SettledBy(calls, o, c, k, n, id);
      } else {
        var c: nat :| ClosingBy(calls, o, c, m, id);
        assert SettledBy(calls, o, c, m, n, id);
      }
    }
  }

  /** In every run the channel of an opening has its participants, is open until closed or disputed,
      closing and closed exactly as the calls say, and its balances are those of the latest split. */
  lemma ChannelMeaning(calls: seq<Call>, o: nat, id: Id, v: nat)
    requires OpenedBy(calls, o, |calls|, id)
    ensures var b := AfterAll(Empty(), calls);
      && id in b.channels
      && var ch := b.channels[id];
         && ch.first == calls[o].first && ch.second == calls[o].second && ch.openTime == calls[o].now
         && ch.left + ch.right == calls[o].deposit
         && (ch.state == Open <==> OpenUntil(calls, o, |calls|, id))
         && Closure(calls, o, |calls|, ch)
         && (Latest(calls, o, v, |calls|, id) ==>
               ch.left == calls[v].left && ch.right == calls[v].right && ch.sequence == calls[v].sequence)
         && ((forall w: nat :: w < |calls| && Splits(calls, o, w, id) ==> calls[w].sequence == 0) ==>
               ch.left == calls[o].deposit && ch.right == 0 && ch.sequence == 0)
  {
    hide AfterAll, OpenUntil, Closure, Balances, Latest, Splits;
    var n := |calls|;
    assert calls[..n] == calls;
    HistoryAt(calls, n, id);
    OpenMeaning(calls, o, n);
    ClosureMeaning(calls, o, n);
    BalancesMeaning(calls, o, n);
    LatestBalances(calls, o, n, Course(calls, o, n));
  }

  // ---- when calls succeed -----------------------------------------------------------------------------------

  /** An update is accepted exactly when the id stands for an opening that is neither closed nor
      disputed, whose deposit it splits, signed, with a higher sequence than every earlier split. */
  lemma UpdateAcceptedIff(calls: seq<Call>, n: nat)
    requires n < |calls| && calls[n].UpdateCall?
    ensures SucceedsAt(Empty(), calls, n) <==> exists o: nat :: OpenedBy(calls, o, n, calls[n].id) && Leads(calls, o, n, calls[n].id)
  {
    hide AfterAll, Plus, OpenUntil;
    var id := calls[n].id;
    HistoryAt(calls, n, id);
    forall o: nat | OpenedBy(calls, o, n, id)
      ensures SucceedsAt(Empty(), calls, n) <==> Leads(calls, o, n, id)
    {
      var ch := Course(calls, o, n);
      OpenMeaning(calls, o, n);
      BalancesMeaning(calls, o, n);
      WrappedSum(calls[n].left, calls[n].right, ch.left, ch.right);
      HigherThanAll(calls, o, n, ch);
    }
  }

  /** A sequence is higher than the channel's exactly when it is higher than all before. */
  lemma HigherThanAll(calls: seq<Call>, o: nat, n: nat, ch: Channel)
    requires o < n < |calls| && calls[o].OpenCall? && calls[n].UpdateCall? && Balances(calls, o, n, ch)
    ensures calls[n].sequence > ch.sequence <==>
            calls[n].sequence > 0 && forall w :: o < w < n && Splits(calls, o, w, calls[o].id) ==> calls[w].sequence < calls[n].sequence
  {
    hide OpenUntil;
  }

  /** A close succeeds exactly when the channel was neither closed nor disputed before, a confirmation
      when the channel was closed a challenge period ago and neither disputed nor confirmed since, and
      a dispute unless the channel was closed for good. */
  lemma OthersAcceptedIff(calls: seq<Call>, n: nat)
    requires n < |calls| && !calls[n].UpdateCall? && !calls[n].OpenCall?
    ensures var id := calls[n].id;
      && (calls[n].CloseCall? ==> (SucceedsAt(Empty(), calls, n) <==> exists o: nat :: OpenedBy(calls, o, n, id) && ClosedBy(calls, o, n, id)))
      && (calls[n].ConfirmCall? ==>
            (SucceedsAt(Empty(), calls, n) <==>
             exists o: nat, c: nat :: OpenedBy(calls, o, n, id) && ClosingBy(calls, o, c, n, id) && Confirms(calls, c, n, id)))
      && (calls[n].DisputeCall? ==>
            (SucceedsAt(Empty(), calls, n) <==>
             exists o: nat :: OpenedBy(calls, o, n, id) && forall c: nat, k: nat :: !SettledBy(calls, o, c, k, n, id)))
  {
    hide AfterAll, OpenUntil, SettledBy, NoDispute;
    var id := calls[n].id;
    HistoryAt(calls, n, id);
    forall o: nat | OpenedBy(calls, o, n, id)
      ensures Course(calls, o, n).state == Open <==> OpenUntil(calls, o, n, id)
      ensures Closure(calls, o, n, Course(calls, o, n))
    {
      OpenMeaning(calls, o, n);
      ClosureMeaning(calls, o, n);
    }
  }

  // ---- participants -------------------------------------------------------------------------------------------

  /** The ids opened with a participant, in order. */
  function OpenedWith(calls: seq<Call>, who: Address): seq<Id> {
    if calls == [] then [] else
      var c := calls[|calls| - 1];
      OpenedWith(calls[..|calls| - 1], who) + if ValidOpening(c, c.id) && (c.first == who || c.second == who) then [c.id] else []
  }

  lemma ParticipantStep(b: Book, c: Call, who: Address)
    ensures ListOf(After(b, c).byParticipant, who)
            == ListOf(b.byParticipant, who) + if ValidOpening(c, c.id) && (c.first == who || c.second == who) then [c.id] else []
  {
    hide Refiled, Plus;
  }

  /** A participant's list holds exactly the channels opened with it, in order. */
  lemma {:induction false} ParticipantLists(calls: seq<Call>, who: Address)
    ensures ListOf(AfterAll(Empty(), calls).byParticipant, who) == OpenedWith(calls, who)
  {
    hide After, ValidOpening, ListOf;
    if calls == [] {
      assert ListOf(Empty().byParticipant, who) == [] by { NoList(who); }
    } else {
      var n := |calls| - 1;
      ParticipantLists(calls[..n], who);
      ParticipantStep(AfterAll(Empty(), calls[..n]), calls[n], who);
    }
  }

  lemma NoList(who: Address)
    ensures ListOf(Empty().byParticipant, who) == []
  {
  }
}
