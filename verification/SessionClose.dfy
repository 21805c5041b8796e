/** Deferred close of a helper session under every interleaving (dream/core/context_counter.py, _Session.close,
    _Session.count, _fail and _shut). One step is one read or write another thread can see: `dead` and `_pending` are
    written without a lock, `_closed` and the pipes only with `_io` held. Any number of threads, any number of calls. */
module SessionClose {
  import opened Common

  type Tid = nat
  type Reason = string

  datatype Pc =
    // close(reason)
    | CloseTest(reason: Reason)     // about to look at dead
    | CloseMark(reason: Reason)     // saw None, about to write dead
    | ClosePend                     // about to set _pending
    | CloseTry                      // about to try the I/O lock without waiting
    | CloseShut                     // holds it, about to look at _closed
    | CloseCut                      // has set _closed, about to close the pipes
    | CloseRelease
    // count(...)
    | CountWait                     // waiting for the I/O lock
    | CountTest                     // holds it, about to look at dead
    | CountReady                    // saw None, has not sent anything
    | CountTalk                     // mid-exchange
    | FailTest(reason: Reason)
    | FailMark(reason: Reason)
    | FailShut
    | FailCut
    | CountRelease
    | CountTail                     // has released, about to look at _pending

  datatype State = State(dead: Option<Reason>, pending: bool, closed: bool, shuts: nat,
                         io: Option<Tid>, pcs: map<Tid, Pc>)

  predicate Holding(pc: Pc) {
    match pc
    case CloseShut | CloseCut | CloseRelease | CountTest | CountReady | CountTalk | FailTest(_) | FailMark(_)
       | FailShut | FailCut | CountRelease => true
    case _ => false
  }

  predicate Cutting(pc: Pc) { pc.CloseCut? || pc.FailCut? }

  ghost predicate Init(s: State) { s == State(None, false, false, 0, None, map[]) }

  function At(s: State, t: Tid, pc: Pc): State { s.(pcs := s.pcs[t := pc]) }

  function Leave(s: State, t: Tid): State { s.(pcs := s.pcs - {t}) }

  // A thread that is in neither call enters one.
  ghost predicate Enter(s: State, t: Tid, s': State) {
    t !in s.pcs && (s' == At(s, t, CountWait) || exists r :: s' == At(s, t, CloseTest(r)))
  }

  ghost predicate Move(s: State, t: Tid, s': State)
    requires t in s.pcs
  {
    match s.pcs[t]
    case CloseTest(r) => s' == At(s, t, if s.dead.None? then CloseMark(r) else ClosePend)
    case CloseMark(r) => s' == At(s.(dead := Some(r)), t, ClosePend)
    case ClosePend => s' == At(s.(pending := true), t, CloseTry)
    case CloseTry => s' == if s.io.None? then At(s.(io := Some(t)), t, CloseShut) else Leave(s, t)
    case CloseShut => s' == if s.closed then At(s, t, CloseRelease) else At(s.(closed := true), t, CloseCut)
    case CloseCut => s' == At(s.(shuts := s.shuts + 1), t, CloseRelease)
    case CloseRelease => s' == Leave(s.(io := None), t)
    case CountWait =>
      || s' == Leave(s, t)                                              // timed out
      || (s.io.None? && s' == At(s.(io := Some(t)), t, CountTest))
    case CountTest => s' == At(s, t, if s.dead.None? then CountReady else CountRelease)
    case CountReady =>
      || s' == At(s, t, CountRelease)                                   // the request is too large
      || s' == At(s, t, CountTalk)
    case CountTalk =>
      || s' == At(s, t, CountRelease)
      || exists r :: s' == At(s, t, FailTest(r))
    case FailTest(r) => s' == At(s, t, if s.dead.None? then FailMark(r) else FailShut)
    case FailMark(r) => s' == At(s.(dead := Some(r)), t, FailShut)
    case FailShut => s' == if s.closed then At(s, t, CountRelease) else At(s.(closed := true), t, FailCut)
    case FailCut => s' == At(s.(shuts := s.shuts + 1), t, CountRelease)
    case CountRelease => s' == At(s.(io := None), t, CountTail)
    case CountTail =>
      if s.pending then s' == At(s, t, if s.dead.None? then CloseTest("counter_closed") else CloseTest(s.dead.value))
      else s' == Leave(s, t)
  }

  ghost predicate Next(s: State, s': State) {
    exists t :: Enter(s, t, s') || (t in s.pcs && Move(s, t, s'))
  }

  // ---- the invariant ---------------------------------------------------------------------------------------

  // A thread that will still close the pipes if nobody does before it.
  predicate Responsible(pc: Pc) {
    !(pc.CountWait? || pc.CloseCut? || pc.FailCut? || pc.CloseRelease?)
  }

  ghost predicate SomeoneWillClose(s: State) { exists t :: t in s.pcs && Responsible(s.pcs[t]) }

  // What a thread's position says about the session.
  predicate Consistent(s: State, pc: Pc) {
    && (pc.ClosePend? || pc.CloseTry? || pc.CloseShut? || pc.FailShut? ==> s.dead.Some?)
    && (Cutting(pc) ==> s.closed && s.shuts == 0)
    && (pc.CloseRelease? ==> s.closed)
  }

  ghost predicate LockInv(s: State) {
    && (s.io.Some? ==> s.io.value in s.pcs && Holding(s.pcs[s.io.value]))
    && (forall t :: t in s.pcs && Holding(s.pcs[t]) ==> s.io == Some(t))
  }

  ghost predicate Inv(s: State) {
    && LockInv(s)
    && (forall t :: t in s.pcs ==> Consistent(s, s.pcs[t]))
    && (s.pending || s.closed ==> s.dead.Some?)
    && s.shuts <= 1 && (s.shuts == 1 ==> s.closed)
    && (s.closed && s.shuts == 0 ==> s.io.Some? && Cutting(s.pcs[s.io.value]))
    && (s.pending && !s.closed ==> SomeoneWillClose(s))
  }

  lemma EnterKeeps(s: State, t: Tid, s': State)
    requires Inv(s) && Enter(s, t, s')
    ensures Inv(s')
  {
    if s.pending && !s.closed {
      var w :| w in s.pcs && Responsible(s.pcs[w]);
      assert w in s'.pcs && s'.pcs[w] == s.pcs[w];
    }
  }

  lemma OthersStay(s: State, t: Tid, s': State, u: Tid)
    requires Enter(s, t, s') || (t in s.pcs && Move(s, t, s'))
    requires u != t
    ensures u in s'.pcs <==> u in s.pcs
    ensures u in s.pcs ==> s'.pcs[u] == s.pcs[u]
  {
  }

  // The lock is taken only when free, by a thread that then holds it, and given back only by that thread.
  lemma MoverAndLock(s: State, t: Tid, s': State)
    requires t in s.pcs && Move(s, t, s') && (Holding(s.pcs[t]) <==> s.io == Some(t))
    ensures t in s'.pcs && Holding(s'.pcs[t]) <==> s'.io == Some(t)
    ensures s'.io == s.io || (s.io == None && s'.io == Some(t)) || (s.io == Some(t) && s'.io == None)
  {
  }

  lemma LockKept(s: State, t: Tid, s': State)
    requires Inv(s) && t in s.pcs && Move(s, t, s')
    ensures LockInv(s')
  {
    hide Move, Consistent;
    MoverAndLock(s, t, s');
    forall u | u in s'.pcs && Holding(s'.pcs[u])
      ensures s'.io == Some(u)
    {
      if u != t {
        OthersStay(s, t, s', u);
      }
    }
    if s'.io.Some? && s'.io.value != t {
      OthersStay(s, t, s', s'.io.value);
    }
  }

  // Whoever stops being responsible leaves a thread that is, or pipes that are closed.
  lemma ClosureKept(s: State, t: Tid, s': State)
    requires Inv(s) && t in s.pcs && Move(s, t, s')
    ensures s'.pending && !s'.closed ==> SomeoneWillClose(s')
  {
    if s'.pending && !s'.closed {
      if t in s'.pcs && Responsible(s'.pcs[t]) {
      } else if s.pcs[t].CloseTry? {
        var holder := s.io.value;
        assert Responsible(s.pcs[holder]);
        assert holder in s'.pcs && s'.pcs[holder] == s.pcs[holder];
      } else {
        assert s.pcs[t].CountWait?;
        var w :| w in s.pcs && Responsible(s.pcs[w]);
        assert w in s'.pcs && s'.pcs[w] == s.pcs[w];
      }
    }
  }

  lemma PositionsKept(s: State, t: Tid, s': State)
    requires Inv(s) && t in s.pcs && Move(s, t, s')
    ensures forall u :: u in s'.pcs ==> Consistent(s', s'.pcs[u])
  {
    forall u | u in s'.pcs
      ensures Consistent(s', s'.pcs[u])
    {
      assert Consistent(s, s.pcs[t]);
      assert Holding(s.pcs[t]) ==> s.io == Some(t);
      if u != t {
        assert Consistent(s, s.pcs[u]);
        assert Holding(s.pcs[u]) ==> s.io == Some(u);
      }
    }
  }

  lemma FlagsKept(s: State, t: Tid, s': State)
    requires Inv(s) && t in s.pcs && Move(s, t, s')
    ensures s'.pending || s'.closed ==> s'.dead.Some?
    ensures s'.shuts <= 1 && (s'.shuts == 1 ==> s'.closed)
    ensures s'.closed && s'.shuts == 0 ==> s'.io.Some? && s'.io.value in s'.pcs && Cutting(s'.pcs[s'.io.value])
  {
    assert Consistent(s, s.pcs[t]);
    assert Holding(s.pcs[t]) ==> s.io == Some(t);
  }

  lemma MoveKeeps(s: State, t: Tid, s': State)
    requires Inv(s) && t in s.pcs && Move(s, t, s')
    ensures Inv(s')
  {
    LockKept(s, t, s');
    PositionsKept(s, t, s');
    FlagsKept(s, t, s');
    ClosureKept(s, t, s');
  }

  // ---- runs ------------------------------------------------------------------------------------------------

  ghost predicate Run(run: seq<State>) {
    |run| > 0 && Init(run[0]) && forall i :: 0 <= i < |run| - 1 ==> Next(run[i], run[i + 1])
  }

  lemma {:induction false} RunKeepsInv(run: seq<State>, i: nat)
    requires Run(run) && i < |run|
    ensures Inv(run[i])
  {
    if i > 0 {
      RunKeepsInv(run, i - 1);
      assert Next(run[i - 1], run[i]);
      NextKeepsInv(run[i - 1], run[i]);
    }
  }

  // The pipes are shut at most once, and never while another thread is mid-exchange.
  lemma ShutOnceAndAlone(run: seq<State>, i: nat)
    requires Run(run) && i < |run| - 1
    ensures run[i + 1].shuts <= 1
    ensures run[i + 1].shuts != run[i].shuts ==> forall t :: !PastTest(run[i], t)
  {
    RunKeepsInv(run, i);
    RunKeepsInv(run, i + 1);
    var s, s' := run[i], run[i + 1];
    assert Next(s, s');
    var t :| Enter(s, t, s') || (t in s.pcs && Move(s, t, s'));
    if s'.shuts != s.shuts {
      assert Holding(s.pcs[t]);
    }
  }

  // A close that was asked for is never lost: with no thread inside a call it has happened.
  lemma CloseIsNotLost(run: seq<State>, i: nat)
    requires Run(run) && i < |run| && run[i].pcs == map[] && run[i].pending
    ensures run[i].closed && run[i].shuts == 1 && run[i].dead.Some? && run[i].io.None?
  {
    RunKeepsInv(run, i);
  }

  // ---- from dead to shut -----------------------------------------------------------------------------------

  // A session that died by a fault is shut by the thread that found it, one that was closed by the closing thread.
  predicate Shutting(pc: Pc) { pc.ClosePend? || pc.FailShut? }

  ghost predicate DeadInv(s: State) {
    s.dead.Some? && !s.closed && !s.pending ==> exists t :: t in s.pcs && Shutting(s.pcs[t])
  }

  lemma DeadKept(s: State, s': State)
    requires Inv(s) && DeadInv(s) && Next(s, s')
    ensures DeadInv(s')
  {
    hide Move, Enter, LockInv, Consistent;
    var t :| Enter(s, t, s') || (t in s.pcs && Move(s, t, s'));
    if s'.dead.Some? && !s'.closed && !s'.pending {
      ShuttingMoves(s, t, s');
      if u :| u in s.pcs && Shutting(s.pcs[u]) && u != t {
        OthersStay(s, t, s', u);
      }
    }
  }

  // Its own thread marks the session pending or closed, or has just become the one to do so.
  lemma ShuttingMoves(s: State, t: Tid, s': State)
    requires Enter(s, t, s') || (t in s.pcs && Move(s, t, s'))
    requires s'.dead.Some? && !s'.closed && !s'.pending
    ensures !s.closed && !s.pending && !(t in s.pcs && Shutting(s.pcs[t]))
    ensures s.dead.None? ==> t in s'.pcs && Shutting(s'.pcs[t])
  {
  }

  // Dead, or about to be: a thread has entered close, or is failing.
  predicate Dying(pc: Pc) { pc.CloseTest? || pc.CloseMark? || pc.FailMark? }

  ghost predicate Doomed(s: State) { s.dead.Some? || exists t :: t in s.pcs && Dying(s.pcs[t]) }

  lemma DoomedStays(s: State, s': State)
    requires Doomed(s) && Next(s, s')
    ensures Doomed(s')
  {
    hide Move, Enter;
    var t :| Enter(s, t, s') || (t in s.pcs && Move(s, t, s'));
    DyingMoves(s, t, s');
    if s.dead.None? {
      var u :| u in s.pcs && Dying(s.pcs[u]);
      if u != t {
        OthersStay(s, t, s', u);
      }
    }
  }

  lemma DyingMoves(s: State, t: Tid, s': State)
    requires Enter(s, t, s') || (t in s.pcs && Move(s, t, s'))
    ensures s.dead.Some? ==> s'.dead.Some?
    ensures t in s.pcs && Dying(s.pcs[t]) ==> s'.dead.Some? || (t in s'.pcs && Dying(s'.pcs[t]))
  {
  }

  lemma NextKeepsInv(s: State, s': State)
    requires Inv(s) && Next(s, s')
    ensures Inv(s')
  {
    hide Move, Enter, Inv;
    var t :| Enter(s, t, s') || (t in s.pcs && Move(s, t, s'));
    if Enter(s, t, s') {
      EnterKeeps(s, t, s');
    } else {
      MoveKeeps(s, t, s');
    }
  }

  // With no thread inside a call, a doomed session is dead and its pipes are shut, once.
  lemma DoomedIsShut(s: State)
    requires Inv(s) && DeadInv(s) && Doomed(s) && s.pcs == map[]
    ensures s.dead.Some? && s.closed && s.shuts == 1 && s.io.None?
  {
  }

  // Once dead, pending or closed, always so.
  lemma {:induction false} DeadIsForever(run: seq<State>, i: nat, j: nat)
    requires Run(run) && i <= j < |run|
    ensures run[i].dead.Some? ==> run[j].dead.Some?
    ensures run[i].pending ==> run[j].pending
    ensures run[i].closed ==> run[j].closed
    decreases j
  {
    if i < j {
      DeadIsForever(run, i, j - 1);
      assert Next(run[j - 1], run[j]);
    }
  }

  // Past the test of dead, and not done with the helper yet.
  predicate PastTest(s: State, t: Tid) { t in s.pcs && (s.pcs[t].CountReady? || s.pcs[t].CountTalk?) }

  lemma PastTestStep(s: State, s': State, t: Tid)
    requires Next(s, s') && s.dead.Some? && PastTest(s', t)
    ensures PastTest(s, t)
  {
    hide Move, Enter;
    var u :| Enter(s, u, s') || (u in s.pcs && Move(s, u, s'));
    if u == t {
      TestedWhenNone(s, t, s');
    } else {
      OthersStay(s, u, s', t);
    }
  }

  lemma TestedWhenNone(s: State, t: Tid, s': State)
    requires (Enter(s, t, s') || (t in s.pcs && Move(s, t, s'))) && s.dead.Some? && PastTest(s', t)
    ensures PastTest(s, t)
  {
  }

  // Once the session has died only a thread that was past the test by then talks to the helper, and it has been past
  // it ever since; there is one such thread at most.
  lemma {:induction false} DeadStartsNothing(run: seq<State>, i: nat, j: nat, t: Tid)
    requires Run(run) && i <= j < |run| && run[i].dead.Some? && PastTest(run[j], t)
    ensures forall k :: i <= k <= j ==> PastTest(run[k], t)
    ensures forall u :: PastTest(run[i], u) ==> u == t
    decreases j
  {
    hide Next;
    if i < j {
      DeadIsForever(run, i, j - 1);
      assert Next(run[j - 1], run[j]);
      PastTestStep(run[j - 1], run[j], t);
      DeadStartsNothing(run, i, j - 1, t);
    } else {
      RunKeepsInv(run, i);
      forall u | PastTest(run[i], u)
        ensures u == t
      {
        OnePastTest(run[i], t, u);
      }
    }
  }

  lemma OnePastTest(s: State, t: Tid, u: Tid)
    requires LockInv(s) && PastTest(s, t) && PastTest(s, u)
    ensures t == u
  {
    assert Holding(s.pcs[t]) && Holding(s.pcs[u]);
  }

  // A close may land between the test and the first byte: a request is then still sent.
  lemma SentAfterDeath() returns (run: seq<State>)
    ensures Run(run) && |run| == 8
    ensures run[6].dead.Some? && 1 in run[6].pcs && run[6].pcs[1].CountReady?
    ensures 1 in run[7].pcs && run[7].pcs[1].CountTalk?
  {
    var s0 := State(None, false, false, 0, None, map[]);
    var s1 := At(s0, 1, CountWait);
    var s2 := At(s1.(io := Some(1)), 1, CountTest);
    var s3 := At(s2, 1, CountReady);
    var s4 := At(s3, 2, CloseTest("gone"));
    var s5 := At(s4, 2, CloseMark("gone"));
    var s6 := At(s5.(dead := Some("gone")), 2, ClosePend);
    var s7 := At(s6, 1, CountTalk);
    run := [s0, s1, s2, s3, s4, s5, s6, s7];
    assert Enter(s0, 1, s1) && Move(s1, 1, s2) && Move(s2, 1, s3) && Enter(s3, 2, s4);
    assert Move(s4, 2, s5) && Move(s5, 2, s6) && Move(s6, 1, s7);
    assert forall i :: 0 <= i < 7 ==> Next(run[i], run[i + 1]);
  }

  // The first reason is not always the one that stays: `dead` is tested and written in two steps.
  lemma ReasonCanBeReplaced() returns (run: seq<State>)
    ensures Run(run) && |run| == 7
    ensures run[5].dead == Some("first") && run[6].dead == Some("second")
  {
    var s0 := State(None, false, false, 0, None, map[]);
    var s1 := At(s0, 1, CloseTest("first"));
    var s2 := At(s1, 2, CloseTest("second"));
    var s3 := At(s2, 1, CloseMark("first"));
    var s4 := At(s3, 2, CloseMark("second"));
    var s5 := At(s4.(dead := Some("first")), 1, ClosePend);
    var s6 := At(s5.(dead := Some("second")), 2, ClosePend);
    run := [s0, s1, s2, s3, s4, s5, s6];
    assert Enter(s0, 1, s1) && Enter(s1, 2, s2);
    assert Move(s2, 1, s3) && Move(s3, 2, s4) && Move(s4, 1, s5) && Move(s5, 2, s6);
    assert forall i :: 0 <= i < 6 ==> Next(run[i], run[i + 1]);
  }

  // ---- which reason stays ----------------------------------------------------------------------------------

  // The reason a thread is about to write, having read None.
  function About(pc: Pc): Option<Reason> {
    if pc.CloseMark? || pc.FailMark? then Some(pc.reason) else None
  }

  predicate Writes(s: State, t: Tid) { t in s.pcs && About(s.pcs[t]).Some? }

  // A step writes the reason its thread was about to write, and no other; a thread comes to be about to write only
  // by reading None.
  lemma WritesInTwoSteps(s: State, t: Tid, s': State)
    requires Enter(s, t, s') || (t in s.pcs && Move(s, t, s'))
    ensures s'.dead == if Writes(s, t) then About(s.pcs[t]) else s.dead
    ensures Writes(s', t) ==> s.dead.None? && s'.dead.None? && !Writes(s, t)
  {
  }

  // Thread t read None in step i, and has been about to write the same reason from then until state j.
  ghost predicate ReadNone(run: seq<State>, i: nat, j: nat, t: Tid) {
    && i < j < |run| && run[i].dead.None? && Writes(run[j], t)
    && forall k :: i < k <= j ==> Writes(run[k], t) && run[k].pcs[t] == run[j].pcs[t]
  }

  lemma {:induction false} WriterReadNone(run: seq<State>, j: nat, t: Tid) returns (i: nat)
    requires Run(run) && j < |run| && Writes(run[j], t)
    ensures ReadNone(run, i, j, t)
  {
    hide Move, Enter;
    assert j > 0;
    var s, s' := run[j - 1], run[j];
    assert Next(s, s');
    var u :| Enter(s, u, s') || (u in s.pcs && Move(s, u, s'));
    WritesInTwoSteps(s, u, s');
    if u == t {
      i := j - 1;
    } else {
      OthersStay(s, u, s', t);
      i := WriterReadNone(run, j - 1, t);
    }
  }

  // A reason is replaced only by a thread that read None before any reason was written.
  lemma ReasonReplacedOnlyByRacer(run: seq<State>, j: nat) returns (t: Tid, i: nat)
    requires Run(run) && j + 1 < |run| && run[j].dead.Some? && run[j + 1].dead != run[j].dead
    ensures ReadNone(run, i, j, t) && run[j + 1].dead == About(run[j].pcs[t])
  {
    hide Move, Enter;
    var s, s' := run[j], run[j + 1];
    assert Next(s, s');
    t :| Enter(s, t, s') || (t in s.pcs && Move(s, t, s'));
    WritesInTwoSteps(s, t, s');
    i := WriterReadNone(run, j, t);
  }

  // Dead, with no thread about to write another reason.
  ghost predicate Settled(s: State) {
    s.dead.Some? && forall t :: Writes(s, t) ==> About(s.pcs[t]) == s.dead
  }

  lemma SettledStep(s: State, s': State)
    requires Settled(s) && Next(s, s')
    ensures Settled(s') && s'.dead == s.dead
  {
    hide Move, Enter;
    var t :| Enter(s, t, s') || (t in s.pcs && Move(s, t, s'));
    WritesInTwoSteps(s, t, s');
    forall u | Writes(s', u)
      ensures About(s'.pcs[u]) == s.dead
    {
      if u != t {
        OthersStay(s, t, s', u);
      }
    }
  }

  lemma {:induction false} SettledStays(run: seq<State>, i: nat, j: nat)
    requires Run(run) && i <= j < |run| && Settled(run[i])
    ensures Settled(run[j]) && run[j].dead == run[i].dead
    decreases j
  {
    hide Next, Settled, Init;
    if i < j {
      SettledStays(run, i, j - 1);
      SettledStep(run[j - 1], run[j]);
    }
  }

  // A racing thread can always make its write next.
  lemma RacerReplaces(s: State, t: Tid) returns (s': State)
    requires s.dead.Some? && Writes(s, t) && About(s.pcs[t]) != s.dead
    ensures Next(s, s') && s'.dead == About(s.pcs[t])
  {
    var after := s.(dead := About(s.pcs[t]));
    s' := At(after, t, if s.pcs[t].CloseMark? then ClosePend else FailShut);
    assert Move(s, t, s');
  }

  ghost predicate KeepsReason(run: seq<State>, n: nat)
    requires 0 < n <= |run|
  {
    forall j :: n <= j < |run| ==> run[j].dead == run[n - 1].dead
  }

  // The exact condition: however the run goes on, the reason stays, if and only if the session is settled.
  lemma ReasonStaysExactly(run: seq<State>)
    requires Run(run) && run[|run| - 1].dead.Some?
    ensures Settled(run[|run| - 1]) <==>
              forall more: seq<State> :: Run(run + more) ==> KeepsReason(run + more, |run|)
  {
    var n, s := |run|, run[|run| - 1];
    if Settled(s) {
      forall more: seq<State> | Run(run + more)
        ensures KeepsReason(run + more, n)
      {
        forall j | n <= j < |run + more|
          ensures (run + more)[j].dead == s.dead
        {
          SettledStays(run + more, n - 1, j);
        }
      }
    } else {
      var t :| Writes(s, t) && About(s.pcs[t]) != s.dead;
      var s' := RacerReplaces(s, t);
      var longer := run + [s'];
      forall i | 0 <= i < |longer| - 1
        ensures Next(longer[i], longer[i + 1])
      {
        assert i < n - 1 ==> Next(run[i], run[i + 1]);
      }
      assert Run(longer) && longer[n].dead != longer[n - 1].dead;
    }
  }
}
