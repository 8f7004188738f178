/**
 The L1 withdrawal validator: a list of requests searched by first match, so that a repeated
 submission of an id is hidden behind the first one. Over every run, within one epoch an id is
 executed at most once, only after it was approved past its challenge window, and never once it
 was challenged. Signatures and fraud proofs are verified elsewhere; their verdicts are inputs.
 */
module Withdrawals {

  type Id = string

  datatype Status = Pending | Challenged | Approved | Executed | Expired | Fraudulent

  datatype Root = Root(height: nat, stateRoot: Id, confirmed: bool)

  /** A request with its id, which depends on neither status nor challenge window. */
  datatype Request = Request(id: Id, amount: nat, root: Root, challengeEnd: nat, status: Status, reason: Id)

  datatype FraudProof = FraudProof(block: Id, transition: Id)

  const MaxWithdrawalDelay: nat := 24 * 60 * 60

  datatype Book = Book(roots: seq<Root>, pending: seq<Request>, proofs: seq<FraudProof>)

  /** The first request with the given id, or the length of the list. */
  function First(s: seq<Request>, id: Id): (i: nat)
    ensures i <= |s| && (forall j :: 0 <= j < i ==> s[j].id != id) && (i < |s| ==> s[i].id == id)
  {
    if s == [] then 0
    else
      var i := First(s[..|s| - 1], id);
      if i < |s| - 1 then i else if s[|s| - 1].id == id then |s| - 1 else |s|
  }

  function WithStatus(s: seq<Request>, i: nat, st: Status): (r: seq<Request>)
    requires i < |s|
    ensures |r| == |s|
  {
    s[i := s[i].(status := st)]
  }

  predicate CanExpire(r: Request, id: Id) {
    r.id == id && (r.status == Pending || r.status == Challenged)
  }

  /** The first request that expiry can act on; unlike the others it skips requests it cannot. */
  function FirstExpirable(s: seq<Request>, id: Id): (i: nat)
    ensures i <= |s| && (forall j :: 0 <= j < i ==> !CanExpire(s[j], id)) && (i < |s| ==> CanExpire(s[i], id))
  {
    if s == [] then 0
    else
      var i := FirstExpirable(s[..|s| - 1], id);
      if i < |s| - 1 then i else if CanExpire(s[|s| - 1], id) then |s| - 1 else |s|
  }

  predicate Anchored(roots: seq<Root>, r: Root) {
    exists i :: 0 <= i < |roots| && roots[i].height == r.height && roots[i].stateRoot == r.stateRoot && roots[i].confirmed
  }

  datatype Event =
    | Submit(request: Request, signed: bool)
    | Challenge(id: Id, proof: FraudProof, proven: bool)
    | Approve(id: Id, now: nat)
    | Execute(id: Id)
    | Expire(id: Id)
    | NewEpoch(stateRoot: Id, height: nat)

  /** Whether a call succeeds. */
  predicate Succeeds(b: Book, e: Event) {
    match e
    case Submit(r, signed) => signed && Anchored(b.roots, r.root)
    case Challenge(id, _, proven) => First(b.pending, id) < |b.pending| && proven
    case Approve(id, now) =>
      var i := First(b.pending, id);
      i < |b.pending| && b.pending[i].status == Pending && now >= b.pending[i].challengeEnd
    case Execute(id) =>
      var i := First(b.pending, id);
      i < |b.pending| && b.pending[i].status == Approved && b.pending[i].amount <= MaxWithdrawalDelay
    case Expire(id) => FirstExpirable(b.pending, id) < |b.pending|
    case NewEpoch(_, _) => true
  }

  /** The book after a call; a call that fails changes nothing. */
  function After(b: Book, e: Event): Book {
    if !Succeeds(b, e) then b else
      match e
      case Submit(r, _) => b.(pending := b.pending + [r.(status := Pending)])
      case Challenge(id, proof, _) =>
        var i := First(b.pending, id);
        b.(pending := b.pending[i := b.pending[i].(status := Challenged, reason := proof.transition)], proofs := b.proofs + [proof])
      case Approve(id, _) => b.(pending := WithStatus(b.pending, First(b.pending, id), Approved))
      case Execute(id) => b.(pending := WithStatus(b.pending, First(b.pending, id), Executed))
      case Expire(id) => b.(pending := WithStatus(b.pending, FirstExpirable(b.pending, id), Expired))
      case NewEpoch(root, height) => Book([Root(height, root, true)], [], [])
  }

  // ---- the validator ----------------------------------------------------------------------------------

  class Validator {
    var roots: seq<Root>
    var pending: seq<Request>
    var proofs: seq<FraudProof>

    ghost function Contents(): Book
      reads this
    {
      Book(roots, pending, proofs)
    }

    constructor ()
      ensures Contents() == Book([], [], [])
    {
      roots, pending, proofs := [], [], [];
    }

    /** The search loop all calls share. */
    method Find(id: Id) returns (i: nat)
      ensures i == First(pending, id)
    {
      i := 0;
      while i < |pending| && pending[i].id != id
        invariant i <= |pending| && forall j :: 0 <= j < i ==> pending[j].id != id
      {
        i := i + 1;
      }
      FirstUnique(pending, id, i);
    }

    method InitWithdrawalEpoch(stateRoot: Id, height: nat)
      modifies this
      ensures Contents() == After(old(Contents()), NewEpoch(stateRoot, height))
    {
      roots, pending, proofs := [Root(height, stateRoot, true)], [], [];
    }

    /** `verifyStateRootAnchor`. */
    method VerifyStateRootAnchor(r: Root) returns (found: bool)
      ensures found <==> Anchored(roots, r)
    {
      for i := 0 to |roots|
        invariant forall j :: 0 <= j < i ==> !(roots[j].height == r.height && roots[j].stateRoot == r.stateRoot && roots[j].confirmed)
      {
        if roots[i].height == r.height && roots[i].stateRoot == r.stateRoot && roots[i].confirmed {
          return true;
        }
      }
      return false;
    }

    method SubmitWithdrawal(request: Request, signed: bool) returns (ok: bool)
      modifies this
      ensures ok == Succeeds(old(Contents()), Submit(request, signed))
      ensures Contents() == After(old(Contents()), Submit(request, signed))
    {
      if !signed {
        return false;
      }
      var anchored := VerifyStateRootAnchor(request.root);
      if !anchored {
        return false;
      }
      pending := pending + [request.(status := Pending)];
      return true;
    }

    method ChallengeWithdrawal(id: Id, proof: FraudProof, proven: bool) returns (ok: bool)
      modifies this
      ensures ok == Succeeds(old(Contents()), Challenge(id, proof, proven))
      ensures Contents() == After(old(Contents()), Challenge(id, proof, proven))
    {
      var i := Find(id);
      if i == |pending| || !proven {
        return false;
      }
      pending := pending[i := pending[i].(status := Challenged, reason := proof.transition)];
      proofs := proofs + [proof];
      return true;
    }

    method ApproveWithdrawal(id: Id, now: nat) returns (ok: bool)
      modifies this
      ensures ok == Succeeds(old(Contents()), Approve(id, now))
      ensures Contents() == After(old(Contents()), Approve(id, now))
    {
      var i := Find(id);
      if i == |pending| || pending[i].status != Pending || now < pending[i].challengeEnd {
        return false;
      }
      pending := pending[i := pending[i].(status := Approved)];
      return true;
    }

    method ExecuteWithdrawal(id: Id) returns (ok: bool)
      modifies this
      ensures ok == Succeeds(old(Contents()), Execute(id))
      ensures Contents() == After(old(Contents()), Execute(id))
    {
      var i := Find(id);
      if i == |pending| || pending[i].status != Approved || pending[i].amount > MaxWithdrawalDelay {
        return false;
      }
      pending := pending[i := pending[i].(status := Executed)];
      return true;
    }

    method ExpireWithdrawal(id: Id) returns (ok: bool)
      modifies this
      ensures ok == Succeeds(old(Contents()), Expire(id))
      ensures Contents() == After(old(Contents()), Expire(id))
    {
      for i := 0 to |pending|
        invariant Contents() == old(Contents())
        invariant forall j :: 0 <= j < i ==> !CanExpire(pending[j], id)
      {
        if pending[i].id == id && (pending[i].status == Pending || pending[i].status == Challenged) {
          ExpirableUnique(pending, id, i);
          pending := pending[i := pending[i].(status := Expired)];
          return true;
        }
      }
      ExpirableUnique(pending, id, |pending|);
      return false;
    }
  }

  lemma FirstUnique(s: seq<Request>, id: Id, i: nat)
    requires i <= |s| && (forall j :: 0 <= j < i ==> s[j].id != id) && (i < |s| ==> s[i].id == id)
    ensures First(s, id) == i
  {
  }

  lemma ExpirableUnique(s: seq<Request>, id: Id, i: nat)
    requires i <= |s| && (forall j :: 0 <= j < i ==> !CanExpire(s[j], id)) && (i < |s| ==> CanExpire(s[i], id))
    ensures FirstExpirable(s, id) == i
  {
  }

  // ---- runs -----------------------------------------------------------------------------------------------

  function AfterAll(b: Book, events: seq<Event>): Book {
    if events == [] then b else After(AfterAll(b, events[..|events| - 1]), events[|events| - 1])
  }

  /** Call i of a run succeeds. */
  predicate SucceedsAt(b: Book, events: seq<Event>, i: nat)
    requires i < |events|
  {
    Succeeds(AfterAll(b, events[..i]), events[i])
  }

  /** No new epoch among the events from i up to j. */
  predicate SameEpoch(events: seq<Event>, i: nat, j: nat)
    requires i <= j <= |events|
  {
    forall k :: i <= k < j ==> !events[k].NewEpoch?
  }

  /** The request an id stands for has been executed, challenged or expired. */
  predicate Finished(b: Book, id: Id) {
    var i := First(b.pending, id);
    i < |b.pending| && (b.pending[i].status == Executed || b.pending[i].status == Challenged || b.pending[i].status == Expired)
  }

  /** The request an id stands for, if any, keeps its place, window and amount. */
  lemma FirstStays(b: Book, e: Event, id: Id)
    requires !e.NewEpoch? && First(b.pending, id) < |b.pending|
    ensures var i, c := First(b.pending, id), After(b, e);
      && First(c.pending, id) == i && i < |c.pending|
      && c.pending[i].challengeEnd == b.pending[i].challengeEnd && c.pending[i].amount == b.pending[i].amount
  {
    var i, c := First(b.pending, id), After(b, e);
    assert |b.pending| <= |c.pending| && forall j :: 0 <= j < |b.pending| ==> c.pending[j].id == b.pending[j].id;
    FirstUnique(c.pending, id, i);
  }

  /** Nothing but a new epoch revives a finished request. */
  lemma FinishedStays(b: Book, e: Event, id: Id)
    requires !e.NewEpoch? && Finished(b, id)
    ensures Finished(After(b, e), id)
  {
    FirstStays(b, e, id);
  }

  lemma {:induction false} FinishedForGood(b: Book, events: seq<Event>, i: nat, j: nat, id: Id)
    requires i <= j <= |events| && SameEpoch(events, i, j) && Finished(AfterAll(b, events[..i]), id)
    ensures Finished(AfterAll(b, events[..j]), id)
    decreases j - i
  {
    hide Finished, After;
    if i < j {
      FinishedForGood(b, events, i, j - 1, id);
      assert events[..j][..j - 1] == events[..j - 1];
      FinishedStays(AfterAll(b, events[..j - 1]), events[j - 1], id);
    }
  }

  /** Execution and challenge finish a request. */
  lemma EndsFinished(b: Book, e: Event)
    requires (e.Execute? || e.Challenge?) && Succeeds(b, e)
    ensures Finished(After(b, e), e.id)
  {
    FirstStays(b, e, e.id);
  }

  lemma FinishedAfter(b: Book, events: seq<Event>, i: nat)
    requires i < |events| && (events[i].Execute? || events[i].Challenge?) && SucceedsAt(b, events, i)
    ensures Finished(AfterAll(b, events[..i + 1]), events[i].id)
  {
    hide Finished, After, Succeeds;
    assert events[..i + 1][..i] == events[..i];
    EndsFinished(AfterAll(b, events[..i]), events[i]);
  }

  /** Within an epoch an id is executed at most once, however often it was submitted, and not at all
      once it was challenged. */
  lemma NeverExecutedAgain(b: Book, events: seq<Event>, i: nat, j: nat)
    requires i < j < |events| && SameEpoch(events, i + 1, j)
    requires (events[i].Execute? || events[i].Challenge?) && SucceedsAt(b, events, i)
    requires events[j].Execute? && events[j].id == events[i].id
    ensures !SucceedsAt(b, events, j)
  {
    hide After, AfterAll;
    FinishedAfter(b, events, i);
    FinishedForGood(b, events, i + 1, j, events[i].id);
  }

  /** The id stands for an approved request. */
  predicate IsApproved(b: Book, id: Id) {
    var i := First(b.pending, id);
    i < |b.pending| && b.pending[i].status == Approved
  }

  /** A request becomes approved only by a successful approval, or stays so. */
  lemma ApprovedFrom(b: Book, e: Event, id: Id)
    requires IsApproved(After(b, e), id)
    ensures !e.NewEpoch?
    ensures IsApproved(b, id) || (e.Approve? && e.id == id && Succeeds(b, e))
  {
    var i := First(b.pending, id);
    if !e.NewEpoch? && i < |b.pending| {
      FirstStays(b, e, id);
    }
  }

  /** The window of the request an id stands for. */
  function WindowEnd(b: Book, id: Id): nat {
    var i := First(b.pending, id);
    if i < |b.pending| then b.pending[i].challengeEnd else 0
  }

  lemma {:induction false} ApprovalBehind(b: Book, events: seq<Event>, j: nat, id: Id) returns (i: nat)
    requires b.pending == [] && j <= |events| && IsApproved(AfterAll(b, events[..j]), id)
    ensures i < j && SameEpoch(events, i, j) && SucceedsAt(b, events, i)
    ensures events[i].Approve? && events[i].id == id && events[i].now >= WindowEnd(AfterAll(b, events[..j]), id)
  {
    hide After, Succeeds;
    if j == 0 {
      assert false;
    } else {
      var before := AfterAll(b, events[..j - 1]);
      assert events[..j][..j - 1] == events[..j - 1];
      ApprovedFrom(before, events[j - 1], id);
      if events[j - 1].Approve? && events[j - 1].id == id && Succeeds(before, events[j - 1]) {
        i := j - 1;
        WindowAtApproval(before, events[j - 1]);
      } else {
        i := ApprovalBehind(b, events, j - 1, id);
        FirstStays(before, events[j - 1], id);
      }
    }
  }

  lemma WindowAtApproval(b: Book, e: Event)
    requires e.Approve? && Succeeds(b, e)
    ensures e.now >= WindowEnd(After(b, e), e.id)
  {
    FirstStays(b, e, e.id);
  }

  /** Every execution follows, in the same epoch, a successful approval at or after the end of the
      challenge window of the request that is executed, with no challenge of that id in between. */
  lemma ExecutedWasApproved(b: Book, events: seq<Event>, j: nat) returns (i: nat)
    requires b.pending == [] && j < |events| && events[j].Execute? && SucceedsAt(b, events, j)
    ensures i < j && SameEpoch(events, i, j) && SucceedsAt(b, events, i)
    ensures events[i].Approve? && events[i].id == events[j].id
    ensures events[i].now >= WindowEnd(AfterAll(b, events[..j]), events[j].id)
    ensures forall k :: 0 <= k < j && SameEpoch(events, k + 1, j) && events[k].Challenge? && events[k].id == events[j].id ==>
      !SucceedsAt(b, events, k)
  {
    hide AfterAll, After, SameEpoch;
    i := ApprovalBehind(b, events, j, events[j].id);
    forall k | 0 <= k < j && SameEpoch(events, k + 1, j) && events[k].Challenge? && events[k].id == events[j].id
      ensures !SucceedsAt(b, events, k)
    {
      if SucceedsAt(b, events, k) {
        NeverExecutedAgain(b, events, k, j);
      }
    }
  }
}
