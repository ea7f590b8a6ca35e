/**
 bdrv_aio_multiwrite behind the merge: requests are submitted one by one, their
 completions come at any time, and the user's callbacks must be called once all of
 them are through. A dummy request keeps the count above zero until the submit
 loop has ended.
 */
module MultiwriteCallbacks {

  const EIO := -5

  /** Where bdrv_aio_multiwrite is: in its submit loop, behind it (the loop ended
      or was left because a later request could not be submitted), returned 0,
      or returned -1 because the first request could not be submitted. */
  datatype Phase = Submitting | Closing | Returned | Refused

  /** MultiwriteCB and its surroundings. outstanding holds the writes the driver
      has accepted and not completed; rets are the values multiwrite_cb has been
      called with; calls are the user callbacks made, with the error they got. */
  datatype Mcb = Mcb(
    error: int, numRequests: int, numCallbacks: nat,
    reqs: nat, next: nat, phase: Phase, outstanding: set<nat>, freed: bool,
    rets: seq<int>, calls: seq<(nat, int)>)

  datatype Event =
    | Submit(accepted: bool)
    | Complete(j: nat, ret: int)
    | Close

  function Start(numCallbacks: nat, reqs: nat): Mcb {
    Mcb(0, 1, numCallbacks, reqs, 0, Submitting, {}, false, [], [])
  }

  /** multiwrite_user_cb: one call for every original request, in order. */
  function UserCalls(n: nat, error: int): (c: seq<(nat, int)>)
    ensures |c| == n && forall i :: 0 <= i < n ==> c[i] == (i, error)
  {
    seq(n, i => (i, error))
  }

  /** multiwrite_cb */
  function Cb(s: Mcb, ret: int): Mcb {
    var error := if ret < 0 && s.error == 0 then ret else s.error;
    var s' := s.(error := error, numRequests := s.numRequests - 1, rets := s.rets + [ret]);
    if s'.numRequests == 0 then s'.(calls := s'.calls + UserCalls(s.numCallbacks, error), freed := true) else s'
  }

  /** Which steps are possible. A completion needs a write the driver has taken;
      nothing else keeps it from coming while the submit loop still runs. */
  predicate Enabled(s: Mcb, e: Event) {
    match e
    case Submit(_) => s.phase == Submitting && s.next < s.reqs
    case Complete(j, _) => j in s.outstanding
    case Close => s.phase == Closing || (s.phase == Submitting && s.next == s.reqs)
  }

  function Step(s: Mcb, e: Event): Mcb {
    match e
    case Submit(true) =>
      s.(numRequests := s.numRequests + 1, outstanding := s.outstanding + {s.next}, next := s.next + 1)
    case Submit(false) =>
      var s' := s.(numRequests := s.numRequests + 1);
      if s.next == 0 then s'.(phase := Refused, freed := true)
      else Cb(s', EIO).(phase := Closing)
    case Complete(j, ret) => Cb(s.(outstanding := s.outstanding - {j}), ret)
    case Close => Cb(s, 0).(phase := Returned)
  }

  predicate Runs(s: Mcb, events: seq<Event>, s': Mcb)
    decreases |events|
  {
    if events == [] then s == s'
    else Enabled(s, events[0]) && Runs(Step(s, events[0]), events[1..], s')
  }

  /** The error to report: the first negative return value, or zero. */
  function FirstError(rets: seq<int>): int {
    if rets == [] then 0
    else
      var before := FirstError(rets[..|rets| - 1]);
      if before != 0 then before else if rets[|rets| - 1] < 0 then rets[|rets| - 1] else 0
  }

  lemma {:induction false} NoErrorExactly(rets: seq<int>)
    ensures FirstError(rets) == 0 <==> forall r <- rets :: r >= 0
    ensures FirstError(rets) <= 0
    decreases |rets|
  {
    if rets != [] {
      var init, last := rets[..|rets| - 1], rets[|rets| - 1];
      NoErrorExactly(init);
      assert rets == init + [last];
      assert last in rets && forall r <- init :: r in rets;
    }
  }

  lemma FirstErrorSnoc(rets: seq<int>, ret: int)
    ensures FirstError(rets + [ret]) ==
              if FirstError(rets) != 0 then FirstError(rets) else if ret < 0 then ret else 0
  {
    assert (rets + [ret])[..|rets|] == rets;
  }

  /** The count is the writes in flight and, until the function returns, the
      dummy; while it lives nothing has been called back. */
  ghost predicate Inv(s: Mcb) {
    && s.error == FirstError(s.rets)
    && s.next <= s.reqs
    && (forall j <- s.outstanding :: j < s.next)
    && (s.phase == Submitting && s.next == 0 ==> s.rets == [])
    && (s.phase == Refused ==> s.freed && s.outstanding == {} && s.calls == [] && s.rets == [] && s.next == 0)
    && (s.phase != Refused ==>
          && (s.freed <==> s.phase == Returned && s.outstanding == {})
          && (if s.freed then s.calls == UserCalls(s.numCallbacks, s.error)
              else s.calls == [] &&
                   s.numRequests == |s.outstanding| + (if s.phase == Returned then 0 else 1)))
  }

  lemma CbInv(s: Mcb, ret: int)
    requires s.error == FirstError(s.rets) && s.calls == []
    ensures Cb(s, ret).error == FirstError(Cb(s, ret).rets)
    ensures Cb(s, ret) == s.(error := Cb(s, ret).error, numRequests := s.numRequests - 1, rets := s.rets + [ret],
                             calls := if s.numRequests == 1 then UserCalls(s.numCallbacks, Cb(s, ret).error) else [],
                             freed := s.numRequests == 1 || s.freed)
  {
    FirstErrorSnoc(s.rets, ret);
    assert [] + UserCalls(s.numCallbacks, Cb(s, ret).error) == UserCalls(s.numCallbacks, Cb(s, ret).error);
  }

  lemma RejectedInv(s: Mcb)
    requires Inv(s) && Enabled(s, Submit(false))
    ensures Inv(Step(s, Submit(false)))
  {
    hide FirstError, Cb, UserCalls;
    if s.next == 0 {
      assert s.outstanding == {};
    } else {
      CbInv(s.(numRequests := s.numRequests + 1), EIO);
    }
  }

  /** Every step keeps the invariant; no step touches a freed structure. */
  lemma StepInv(s: Mcb, e: Event)
    requires Inv(s) && Enabled(s, e)
    ensures Inv(Step(s, e)) && !s.freed
  {
    hide FirstError, Cb, UserCalls;
    match e
    case Submit(true) =>
      assert s.next !in s.outstanding;
      assert |s.outstanding + {s.next}| == |s.outstanding| + 1;
    case Submit(false) =>
      RejectedInv(s);
    case Complete(j, ret) =>
      var left := s.outstanding - {j};
      assert left + {j} == s.outstanding;
      assert |left| == |s.outstanding| - 1;
      assert left == {} <==> |left| == 0;
      CbInv(s.(outstanding := left), ret);
    case Close =>
      assert s.outstanding == {} <==> |s.outstanding| == 0;
      CbInv(s, 0);
  }

  lemma {:induction false} RunInv(s: Mcb, events: seq<Event>, s': Mcb)
    requires Inv(s) && Runs(s, events, s')
    ensures Inv(s') && s'.numCallbacks == s.numCallbacks
    decreases |events|
  {
    hide Inv;
    if events != [] {
      StepInv(s, events[0]);
      RunInv(Step(s, events[0]), events[1..], s');
    }
  }

  // ---- what the events alone say ----------------------------------------------------

  /** What an event reports: a submission that is refused counts as -EIO. */
  function Reported(e: Event): int {
    match e
    case Submit(accepted) => if accepted then 0 else EIO
    case Complete(_, ret) => ret
    case Close => 0
  }

  function FirstFailure(events: seq<Event>): int {
    if events == [] then 0
    else
      var before, last := FirstFailure(events[..|events| - 1]), Reported(events[|events| - 1]);
      if before != 0 then before else if last < 0 then last else 0
  }

  /** The number of writes the driver has accepted. */
  function Accepted(events: seq<Event>): nat {
    if events == [] then 0
    else Accepted(events[..|events| - 1]) + (if events[|events| - 1] == Submit(true) then 1 else 0)
  }

  predicate HasCompleted(events: seq<Event>, j: nat) {
    exists e <- events :: e.Complete? && e.j == j
  }

  /** The accepted writes that have not completed. */
  function Waiting(events: seq<Event>): (w: set<nat>)
    ensures forall j: nat :: j in w <==> j < Accepted(events) && !HasCompleted(events, j)
  {
    set j: nat | j < Accepted(events) && !HasCompleted(events, j)
  }

  lemma {:induction false} NoFailureExactly(events: seq<Event>)
    ensures FirstFailure(events) == 0 <==>
              forall e <- events :: e != Submit(false) && (e.Complete? ==> e.ret >= 0)
    decreases |events|
  {
    if events != [] {
      var init, last := events[..|events| - 1], events[|events| - 1];
      NoFailureExactly(init);
      assert events == init + [last];
      assert last in events && forall e <- init :: e in events;
    }
  }

  lemma HistorySnoc(events: seq<Event>, e: Event)
    ensures FirstFailure(events + [e]) ==
              if FirstFailure(events) != 0 then FirstFailure(events) else if Reported(e) < 0 then Reported(e) else 0
    ensures Accepted(events + [e]) == Accepted(events) + (if e == Submit(true) then 1 else 0)
    ensures forall j: nat :: HasCompleted(events + [e], j) <==> HasCompleted(events, j) || (e.Complete? && e.j == j)
  {
    var all := events + [e];
    assert all[..|events|] == events && all[|events|] == e;
    forall j: nat ensures HasCompleted(all, j) <==> HasCompleted(events, j) || (e.Complete? && e.j == j) {
      if HasCompleted(events, j) {
        var c :| c in events && c.Complete? && c.j == j;
        assert c in all;
      }
      if e.Complete? && e.j == j {
        assert e in all;
      }
    }
  }

  /** Which writes were accepted, and which of them are out. */
  ghost predicate WritesFollow(next: nat, outstanding: set<nat>, events: seq<Event>) {
    && next == Accepted(events) && outstanding == Waiting(events)
    && (forall j: nat :: HasCompleted(events, j) ==> j < Accepted(events))
  }

  ghost predicate PhaseFollows(phase: Phase, next: nat, events: seq<Event>) {
    && (phase == Refused <==> events == [Submit(false)])
    && (phase == Returned <==> Close in events)
    && (phase == Submitting <==> Close !in events && Submit(false) !in events)
    && (phase == Submitting && next == 0 <==> events == [])
  }

  /** The state is what the events before it make it. */
  ghost predicate Follows(s: Mcb, n: nat, events: seq<Event>) {
    && s.numCallbacks == n
    && WritesFollow(s.next, s.outstanding, events)
    && PhaseFollows(s.phase, s.next, events)
    && (s.phase != Refused ==> s.error == FirstFailure(events))
  }

  lemma WritesStep(s: Mcb, events: seq<Event>, e: Event)
    requires WritesFollow(s.next, s.outstanding, events) && Enabled(s, e)
    ensures WritesFollow(Step(s, e).next, Step(s, e).outstanding, events + [e])
  {
    hide FirstFailure, Accepted, HasCompleted, UserCalls;
    HistorySnoc(events, e);
    assert Step(s, e).outstanding == Waiting(events + [e]);
  }

  lemma PhaseStep(s: Mcb, events: seq<Event>, e: Event)
    requires PhaseFollows(s.phase, s.next, events) && Enabled(s, e)
    requires (s.phase == Refused ==> s.outstanding == {}) && forall j <- s.outstanding :: j < s.next
    ensures PhaseFollows(Step(s, e).phase, Step(s, e).next, events + [e])
  {
    hide UserCalls;
    assert forall x :: x in events + [e] <==> x in events || x == e;
    assert events + [e] == [Submit(false)] <==> events == [] && e == Submit(false);
  }

  lemma ErrorStep(s: Mcb, events: seq<Event>, e: Event)
    requires s.phase != Refused ==> s.error == FirstFailure(events)
    requires Enabled(s, e) && (s.phase == Refused ==> s.outstanding == {})
    ensures Step(s, e).phase != Refused ==> Step(s, e).error == FirstFailure(events + [e])
    ensures Step(s, e).numCallbacks == s.numCallbacks
  {
    hide FirstFailure, Accepted, HasCompleted, UserCalls;
    HistorySnoc(events, e);
  }

  lemma StepFollows(s: Mcb, n: nat, events: seq<Event>, e: Event)
    requires Inv(s) && Follows(s, n, events) && Enabled(s, e)
    ensures Follows(Step(s, e), n, events + [e])
  {
    hide FirstFailure, FirstError, WritesFollow, PhaseFollows, Step, Enabled;
    WritesStep(s, events, e);
    PhaseStep(s, events, e);
    ErrorStep(s, events, e);
  }

  lemma {:induction false} RunFollows(s: Mcb, n: nat, past: seq<Event>, events: seq<Event>, s': Mcb)
    requires Inv(s) && Follows(s, n, past) && Runs(s, events, s')
    ensures Follows(s', n, past + events)
    decreases |events|
  {
    hide Inv, Follows, Enabled;
    if events == [] {
      assert past + events == past;
    } else {
      StepInv(s, events[0]);
      StepFollows(s, n, past, events[0]);
      RunFollows(Step(s, events[0]), n, past + [events[0]], events[1..], s');
      assert past + [events[0]] + events[1..] == past + events;
    }
  }

  /** In every interleaving of completions with the submit loop, from the events
      alone: each user callback is called exactly once, when the loop has ended and
      every accepted write has completed, and not before; the error it gets is the
      first failure, a late refused submission among them; and if the first request
      could not be submitted no callback is called. */
  lemma CallbacksOnce(numCallbacks: nat, reqs: nat, events: seq<Event>, s: Mcb)
    requires Runs(Start(numCallbacks, reqs), events, s)
    ensures s.phase == Refused <==> events == [Submit(false)]
    ensures s.calls == if events != [Submit(false)] && Close in events && Waiting(events) == {}
                       then UserCalls(numCallbacks, FirstFailure(events)) else []
    ensures s.phase != Refused ==>
              (s.error == 0 <==> forall e <- events :: e != Submit(false) && (e.Complete? ==> e.ret >= 0))
    ensures s.error == FirstError(s.rets) && (s.error == 0 <==> forall r <- s.rets :: r >= 0)
  {
    hide FirstFailure, FirstError, Step, Enabled, UserCalls;
    var s0 := Start(numCallbacks, reqs);
    StartInv(numCallbacks, reqs);
    RunInv(s0, events, s);
    RunFollows(s0, numCallbacks, [], events, s);
    assert [] + events == events;
    NoErrorExactly(s.rets);
    NoFailureExactly(events);
  }

  lemma StartInv(numCallbacks: nat, reqs: nat)
    ensures Inv(Start(numCallbacks, reqs)) && Follows(Start(numCallbacks, reqs), numCallbacks, [])
  {
  }

  /** A multiwrite is never stuck: until the callbacks are called or the whole is
      refused, the next request can be submitted, the loop left, or a write completed. */
  lemma NeverStuck(numCallbacks: nat, reqs: nat, events: seq<Event>, s: Mcb) returns (e: Event)
    requires Runs(Start(numCallbacks, reqs), events, s) && !s.freed
    ensures Enabled(s, e)
  {
    StartInv(numCallbacks, reqs);
    RunInv(Start(numCallbacks, reqs), events, s);
    if s.phase == Returned {
      var j :| j in s.outstanding;
      e := Complete(j, 0);
    } else if s.phase == Submitting && s.next < s.reqs {
      e := Submit(true);
    } else {
      e := Close;
    }
  }

  // ---- the callback code ----------------------------------------------------------

  class MultiwriteCb {
    var error: int
    var numRequests: int
    const numCallbacks: nat
    var freed: bool
    var calls: seq<(nat, int)>

    constructor (n: nat)
      ensures error == 0 && numRequests == 1 && numCallbacks == n && !freed && calls == []
    {
      error, numRequests, numCallbacks, freed, calls := 0, 1, n, false, [];
    }

    /** multiwrite_user_cb */
    method UserCb()
      modifies this`calls
      ensures calls == old(calls) + UserCalls(numCallbacks, error)
    {
      var i := 0;
      while i < numCallbacks
        invariant 0 <= i <= numCallbacks
        invariant calls == old(calls) + UserCalls(numCallbacks, error)[..i]
      {
        ghost var all := UserCalls(numCallbacks, error);
        assert all[..i + 1] == all[..i] + [all[i]];
        calls := calls + [(i, error)];
        i := i + 1;
      }
    }

    /** multiwrite_cb does what the step Cb says. */
    method Completed(ret: int, ghost s: Mcb)
      requires !freed
      requires s.error == error && s.numRequests == numRequests && s.numCallbacks == numCallbacks
      requires s.calls == calls && !s.freed
      modifies this
      ensures var s' := Cb(s, ret);
              error == s'.error && numRequests == s'.numRequests && calls == s'.calls && freed == s'.freed
    {
      if ret < 0 && error == 0 {
        error := ret;
      }
      numRequests := numRequests - 1;
      if numRequests == 0 {
        UserCb();
        freed := true;
      }
    }
  }
}
