/**
 What a run of the withdrawal validator amounts to, told by its calls alone. From an empty book, a
 submission is accepted exactly when it is signed and names the height and state root that opened
 the current epoch; the id then stands for the first such submission of the epoch; and an execution
 succeeds exactly when that submission, of a bounded amount, was approved after its window, with
 nothing against it in between and no execution before.
 */
module WithdrawalHistory {
  import opened Outcomes
  import opened Withdrawals

  // ---- the calls that matter --------------------------------------------------------------------------

  /** The current epoch at call j was opened by call e. */
  predicate OpenedBy(events: seq<Event>, e: nat, j: nat) {
    e < j <= |events| && events[e].NewEpoch? && forall k :: e < k < j ==> !events[k].NewEpoch?
  }

  /** Call i asks, signed, for a withdrawal of an id against the root that call e opened its epoch with. */
  predicate AnchoredRequest(events: seq<Event>, e: nat, i: nat, id: Id) {
    && e < i < |events| && events[e].NewEpoch? && events[i].Submit? && events[i].signed && events[i].request.id == id
    && events[i].request.root.height == events[e].height && events[i].request.root.stateRoot == events[e].stateRoot
  }

  /** At call j the id stands for the submission of call i: the first anchored one of the epoch. */
  predicate StandsFor(events: seq<Event>, e: nat, i: nat, j: nat, id: Id) {
    && OpenedBy(events, e, j) && e < i < j && AnchoredRequest(events, e, i, id)
    && forall k :: e < k < i ==> !AnchoredRequest(events, e, k, id)
  }

  predicate IsChallenge(c: Event, id: Id) {
    c.Challenge? && c.id == id && c.proven
  }

  predicate IsApproval(c: Event, r: Request) {
    c.Approve? && c.id == r.id && c.now >= r.challengeEnd
  }

  /** Between i and k nothing was decided about the request of call i. */
  predicate Undecided(events: seq<Event>, i: nat, k: nat, r: Request) {
    && i < k <= |events|
    && forall m :: i < m < k ==> !IsChallenge(events[m], r.id) && !IsApproval(events[m], r) && events[m] != Expire(r.id)
  }

  /** The request of call i was approved by call k, and between k and j neither challenged nor executed. */
  predicate ApprovedBy(events: seq<Event>, i: nat, k: nat, j: nat, r: Request) {
    && i < k < j <= |events| && Undecided(events, i, k, r) && IsApproval(events[k], r)
    && forall m :: k < m < j ==> !IsChallenge(events[m], r.id) && (r.amount <= MaxWithdrawalDelay ==> events[m] != Execute(r.id))
  }

  // ---- roots --------------------------------------------------------------------------------------------

  lemma {:induction false} RootsAt(b: Book, events: seq<Event>, j: nat)
    requires b.roots == [] && j <= |events|
    ensures var roots := AfterAll(b, events[..j]).roots;
      || (roots == [] && forall k :: 0 <= k < j ==> !events[k].NewEpoch?)
      || exists e: nat :: OpenedBy(events, e, j) && roots == [Root(events[e].height, events[e].stateRoot, true)]
  {
    hide Succeeds;
    if j > 0 {
      RootsAt(b, events, j - 1);
      var before := AfterAll(b, events[..j - 1]);
      assert events[..j][..j - 1] == events[..j - 1];
      if events[j - 1].NewEpoch? {
        NewEpochSucceeds(before, events[j - 1]);
        assert OpenedBy(events, j - 1, j);
      } else if before.roots != [] {
        var e: nat :| OpenedBy(events, e, j - 1) && before.roots == [Root(events[e].height, events[e].stateRoot, true)];
        assert OpenedBy(events, e, j);
      }
    }
  }

  lemma NewEpochSucceeds(b: Book, c: Event)
    requires c.NewEpoch?
    ensures Succeeds(b, c)
  {
  }

  lemma OneOpening(events: seq<Event>, d: nat, e: nat, j: nat)
    requires OpenedBy(events, d, j) && OpenedBy(events, e, j)
    ensures d == e
  {
  }

  /** A submission succeeds exactly when it is signed and carries the height and state root that the
      current epoch was opened with. */
  lemma SubmittedIff(b: Book, events: seq<Event>, i: nat)
    requires b.roots == [] && i < |events| && events[i].Submit?
    ensures SucceedsAt(b, events, i) <==> exists e: nat :: OpenedBy(events, e, i) && AnchoredRequest(events, e, i, events[i].request.id)
  {
    hide AfterAll;
    RootsAt(b, events, i);
    var roots := AfterAll(b, events[..i]).roots;
    if SucceedsAt(b, events, i) {
      var k :| 0 <= k < |roots| && roots[k].height == events[i].request.root.height
        && roots[k].stateRoot == events[i].request.root.stateRoot && roots[k].confirmed;
      var e: nat :| OpenedBy(events, e, i) && roots == [Root(events[e].height, events[e].stateRoot, true)];
      assert AnchoredRequest(events, e, i, events[i].request.id);
    }
    if e: nat :| OpenedBy(events, e, i) && AnchoredRequest(events, e, i, events[i].request.id) {
      assert roots != [];
      var d: nat :| OpenedBy(events, d, i) && roots == [Root(events[d].height, events[d].stateRoot, true)];
      OneOpening(events, d, e, i);
      assert roots[0].confirmed;
    }
  }

  // ---- one request --------------------------------------------------------------------------------------

  /** What one call makes of the request an id stands for. */
  function Advanced(r: Request, c: Event): Request {
    if IsChallenge(c, r.id) then r.(status := Challenged, reason := c.proof.transition)
    else if IsApproval(c, r) && r.status == Pending then r.(status := Approved)
    else if c == Execute(r.id) && r.status == Approved && r.amount <= MaxWithdrawalDelay then r.(status := Executed)
    else if c == Expire(r.id) && (r.status == Pending || r.status == Challenged) then r.(status := Expired)
    else r
  }

  /** What the calls after i up to j make of the request of call i. */
  function Course(events: seq<Event>, i: nat, j: nat): (r: Request)
    requires i < j <= |events| && events[i].Submit?
    ensures var q := events[i].request;
      r.id == q.id && r.amount == q.amount && r.challengeEnd == q.challengeEnd && r.root == q.root
  {
    if j == i + 1 then events[i].request.(status := Pending) else Advanced(Course(events, i, j - 1), events[j - 1])
  }

  /** The request an id stands for, if any. */
  function Standing(b: Book, id: Id): Option<Request> {
    var i := First(b.pending, id);
    if i < |b.pending| then Some(b.pending[i]) else None
  }

  lemma StandingAfter(b: Book, c: Event, id: Id)
    requires !c.NewEpoch? && Standing(b, id).Some?
    ensures Standing(After(b, c), id) == Some(Advanced(Standing(b, id).value, c))
  {
    var i := First(b.pending, id);
    FirstStays(b, c, id);
    if c.Expire? && c.id == id {
      var x := FirstExpirable(b.pending, id);
      if CanExpire(b.pending[i], id) {
        assert x == i;
      }
    }
  }

  lemma StandingNew(b: Book, c: Event, id: Id)
    requires !c.NewEpoch? && Standing(b, id).None?
    ensures Standing(After(b, c), id)
            == if c.Submit? && c.request.id == id && Succeeds(b, c) then Some(c.request.(status := Pending)) else None
  {
    var i := First(b.pending, id);
    var d := After(b, c);
    assert forall k :: 0 <= k < |b.pending| ==> b.pending[k].id != id;
    if c.Submit? && Succeeds(b, c) {
      assert d.pending == b.pending + [c.request.(status := Pending)];
      FirstUnique(d.pending, id, if c.request.id == id then |b.pending| else |b.pending| + 1);
    } else {
      assert forall k :: 0 <= k < |d.pending| ==> d.pending[k].id == b.pending[k].id;
      FirstUnique(d.pending, id, |d.pending|);
    }
  }

  // ---- the request an id stands for, from the calls alone ------------------------------------------------

  lemma {:induction false} FirstRequest(events: seq<Event>, e: nat, i: nat, j: nat, id: Id) returns (f: nat)
    requires OpenedBy(events, e, j) && i < j && AnchoredRequest(events, e, i, id)
    ensures f <= i && StandsFor(events, e, f, j, id)
    decreases i
  {
    if k: nat :| e < k < i && AnchoredRequest(events, e, k, id) {
      f := FirstRequest(events, e, k, j, id);
    } else {
      f := i;
    }
  }

  /** The history of an id at call j. */
  ghost predicate History(events: seq<Event>, j: nat, id: Id, standing: Option<Request>) {
    && (standing.Some? ==> exists e: nat, i: nat :: StandsFor(events, e, i, j, id))
    && (forall e: nat, i: nat :: StandsFor(events, e, i, j, id) ==> standing == Some(Course(events, i, j)))
  }

  lemma HistoryOpens(b: Book, events: seq<Event>, j: nat, id: Id)
    requires 0 < j <= |events| && events[j - 1].NewEpoch?
    ensures History(events, j, id, Standing(After(b, events[j - 1]), id))
  {
    NewEpochSucceeds(b, events[j - 1]);
  }

  lemma HistoryGoesOn(b: Book, events: seq<Event>, j: nat, id: Id)
    requires 0 < j <= |events| && !events[j - 1].NewEpoch?
    requires Standing(b, id).Some? && History(events, j - 1, id, Standing(b, id))
    ensures History(events, j, id, Standing(After(b, events[j - 1]), id))
  {
    hide After, Standing, AnchoredRequest, Advanced;
    StandingAfter(b, events[j - 1], id);
    var d: nat, f: nat :| StandsFor(events, d, f, j - 1, id);
    assert StandsFor(events, d, f, j, id);
    forall e: nat, i: nat | StandsFor(events, e, i, j, id)
      ensures i == f
    {
      OneOpening(events, d, e, j);
    }
  }

  lemma HistoryBegins(b: Book, events: seq<Event>, j: nat, id: Id)
    requires b.roots == [] && 0 < j <= |events| && !events[j - 1].NewEpoch?
    requires var before := AfterAll(b, events[..j - 1]);
      Standing(before, id).None? && History(events, j - 1, id, Standing(before, id))
    ensures History(events, j, id, Standing(After(AfterAll(b, events[..j - 1]), events[j - 1]), id))
  {
    hide After, Standing, AfterAll, Succeeds, Advanced;
    var before, c := AfterAll(b, events[..j - 1]), events[j - 1];
    StandingNew(before, c, id);
    if c.Submit? {
      SubmittedIff(b, events, j - 1);
      if Succeeds(before, c) && c.request.id == id {
        var e: nat :| OpenedBy(events, e, j - 1) && AnchoredRequest(events, e, j - 1, id);
        assert OpenedBy(events, e, j);
        var f := FirstRequest(events, e, j - 1, j, id);
      }
    }
    forall e: nat, i: nat | StandsFor(events, e, i, j, id)
      ensures i == j - 1 && c.Submit? && c.request.id == id && Succeeds(before, c)
    {
      assert i < j - 1 ==> StandsFor(events, e, i, j - 1, id);
      assert i == j - 1 ==> OpenedBy(events, e, j - 1);
    }
  }

  /** In every run from an empty book, an id stands for the first anchored submission of the epoch, in
      the state that the calls since then brought it to. */
  lemma {:induction false} HistoryAt(b: Book, events: seq<Event>, j: nat, id: Id)
    requires b.roots == [] && b.pending == [] && j <= |events|
    ensures History(events, j, id, Standing(AfterAll(b, events[..j]), id))
  {
    hide After;
    if j > 0 {
      HistoryAt(b, events, j - 1, id);
      assert events[..j][..j - 1] == events[..j - 1];
      var before := AfterAll(b, events[..j - 1]);
      if events[j - 1].NewEpoch? {
        HistoryOpens(before, events, j, id);
      } else if Standing(before, id).Some? {
        HistoryGoesOn(before, events, j, id);
      } else {
        HistoryBegins(b, events, j, id);
      }
    }
  }

  // ---- when a request is approved -------------------------------------------------------------------------

  /** A request is pending while nothing was decided about it, and approved exactly when it was
      approved and neither challenged nor executed since. */
  lemma {:induction false} CourseMeaning(events: seq<Event>, i: nat, j: nat)
    requires i < j <= |events| && events[i].Submit?
    ensures var r := events[i].request;
      && (Course(events, i, j).status == Pending <==> Undecided(events, i, j, r))
      && (Course(events, i, j).status == Approved <==> exists k: nat :: ApprovedBy(events, i, k, j, r))
  {
    var r := events[i].request;
    if j > i + 1 {
      CourseMeaning(events, i, j - 1);
      var p := Course(events, i, j - 1);
      if k: nat :| ApprovedBy(events, i, k, j, r) {
        if k < j - 1 {
          assert ApprovedBy(events, i, k, j - 1, r);
        } else {
          assert Undecided(events, i, j - 1, r);
        }
      }
      if Course(events, i, j).status == Approved {
        if p.status == Approved {
          var k: nat :| ApprovedBy(events, i, k, j - 1, r);
          assert ApprovedBy(events, i, k, j, r);
        } else {
          assert ApprovedBy(events, i, j - 1, j, r);
        }
      }
    }
  }

  /** The request of call i was approved by call k, can still be executed at j, and is small enough. */
  predicate ExecutableBy(events: seq<Event>, e: nat, i: nat, k: nat, j: nat, id: Id) {
    && StandsFor(events, e, i, j, id) && ApprovedBy(events, i, k, j, events[i].request)
    && events[i].request.amount <= MaxWithdrawalDelay
  }

  /** An execution succeeds exactly when the id stands for an anchored submission of the epoch, of a
      bounded amount, which was approved past its window with nothing against it, and was neither
      challenged nor executed since. */
  lemma ExecutedIff(b: Book, events: seq<Event>, j: nat)
    requires b.roots == [] && b.pending == [] && j < |events| && events[j].Execute?
    ensures SucceedsAt(b, events, j) <==>
            exists e: nat, i: nat, k: nat :: ExecutableBy(events, e, i, k, j, events[j].id)
  {
    hide AfterAll, ApprovedBy;
    var id := events[j].id;
    HistoryAt(b, events, j, id);
    var standing := Standing(AfterAll(b, events[..j]), id);
    assert SucceedsAt(b, events, j)
      <==> standing.Some? && standing.value.status == Approved && standing.value.amount <= MaxWithdrawalDelay;
    if standing.Some? {
      var e: nat, i: nat :| StandsFor(events, e, i, j, id);
      CourseMeaning(events, i, j);
      if SucceedsAt(b, events, j) {
        var k: nat :| ApprovedBy(events, i, k, j, events[i].request);
        assert ExecutableBy(events, e, i, k, j, id);
      }
    }
    forall e: nat, i: nat, k: nat | ExecutableBy(events, e, i, k, j, id)
      ensures SucceedsAt(b, events, j)
    {
      CourseMeaning(events, i, j);
    }
  }

  /** Every execution follows, in the same epoch, a signed submission of its id with the height and
      state root the epoch was opened with. */
  lemma ExecutedWasAnchored(b: Book, events: seq<Event>, j: nat) returns (e: nat, i: nat)
    requires b.roots == [] && b.pending == [] && j < |events| && events[j].Execute? && SucceedsAt(b, events, j)
    ensures e < i < j && events[e].NewEpoch? && forall k :: e < k < j ==> !events[k].NewEpoch?
    ensures events[i].Submit? && events[i].signed && events[i].request.id == events[j].id
    ensures events[i].request.root.height == events[e].height && events[i].request.root.stateRoot == events[e].stateRoot
  {
    hide AfterAll, ApprovedBy, SucceedsAt;
    ExecutedIff(b, events, j);
    var d: nat, f: nat, k: nat :| ExecutableBy(events, d, f, k, j, events[j].id);
    e, i := d, f;
  }

  /** An approval succeeds exactly when the id stands for a submission about which nothing was decided
      and whose window is over. */
  lemma ApprovedIff(b: Book, events: seq<Event>, j: nat)
    requires b.roots == [] && b.pending == [] && j < |events| && events[j].Approve?
    ensures SucceedsAt(b, events, j) <==>
            exists e: nat, i: nat ::
              StandsFor(events, e, i, j, events[j].id) && Undecided(events, i, j, events[i].request) && IsApproval(events[j], events[i].request)
  {
    hide AfterAll;
    var id := events[j].id;
    HistoryAt(b, events, j, id);
    forall e: nat, i: nat | StandsFor(events, e, i, j, id)
      ensures Course(events, i, j).status == Pending <==> Undecided(events, i, j, events[i].request)
    {
      CourseMeaning(events, i, j);
    }
  }

  /** A challenge succeeds exactly when its proof holds and the id stands for a submission. */
  ghost predicate Upheld(events: seq<Event>, j: nat)
    requires j < |events|
  {
    events[j].Challenge? && events[j].proven && exists e: nat, i: nat :: StandsFor(events, e, i, j, events[j].id)
  }

  lemma ChallengedIff(b: Book, events: seq<Event>, j: nat)
    requires b.roots == [] && b.pending == [] && j < |events| && events[j].Challenge?
    ensures SucceedsAt(b, events, j) <==> Upheld(events, j)
  {
    hide AfterAll, StandsFor;
    HistoryAt(b, events, j, events[j].id);
  }

  /** The proofs of the challenges upheld in the epoch. */
  ghost function ProofsUpheld(events: seq<Event>, j: nat): seq<FraudProof>
    requires j <= |events|
  {
    if j == 0 || events[j - 1].NewEpoch? then []
    else ProofsUpheld(events, j - 1) + if Upheld(events, j - 1) then [events[j - 1].proof] else []
  }

  lemma {:induction false} ProofsKept(b: Book, events: seq<Event>, j: nat)
    requires b == Book([], [], []) && j <= |events|
    ensures AfterAll(b, events[..j]).proofs == ProofsUpheld(events, j)
  {
    hide Upheld, Succeeds;
    if j > 0 {
      ProofsKept(b, events, j - 1);
      var before, c := AfterAll(b, events[..j - 1]), events[j - 1];
      assert events[..j][..j - 1] == events[..j - 1];
      if c.NewEpoch? {
        NewEpochSucceeds(before, c);
      } else if c.Challenge? {
        ChallengedIff(b, events, j - 1);
      } else {
        assert !Upheld(events, j - 1) by { OnlyChallenges(events, j - 1); }
      }
    }
  }

  lemma OnlyChallenges(events: seq<Event>, j: nat)
    requires j < |events| && !events[j].Challenge?
    ensures !Upheld(events, j)
  {
  }
}
