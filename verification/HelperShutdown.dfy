/** The counter and its sessions together (dream/core/context_counter.py: _drop, _start, _Session): the lifecycle's
    steps, each session's own steps beside them, and the calls of close that tie the two. */
module HelperShutdown {
  import opened Common
  import opened HelperLifecycle
  import HelperSafety
  import S = SessionClose

  // Every session object there has been, by its process.
  datatype World = World(life: State, sessions: map<Proc, S.State>)

  const NEW: S.State := S.State(None, false, false, 0, None, map[])

  // The session a step of the counter calls close on.
  ghost function Calls(s: State, a: Action): Option<Proc>
    requires Enabled(s, a)
  {
    match a
    case Capture(want, _, _) =>
      if s.sh.state != Some(want) && s.sh.session.Some? then Some(s.sh.session.value.proc) else None
    case Reset => if s.sh.session.Some? then Some(s.sh.session.value.proc) else None
    case Conclude(t) =>
      var start := s.starters[t];
      if s.sh.epoch != start.job.epoch && start.pc.result.Some? then Some(start.pc.result.value.proc) else None
    case _ => None
  }

  // The session a step makes: a start whose helper said that it is ready.
  ghost function Makes(s: State, a: Action): Option<Proc>
    requires Enabled(s, a)
  {
    match a
    case Ready(t, _, _) => if Apply(s, a).starters[t].pc.Finishing? then Some(s.starters[t].pc.proc) else None
    case _ => None
  }

  // A step of the counter: a thread of its own, t, enters the close it calls.
  ghost predicate LifeStep(w: World, a: Action, t: S.Tid, w': World) {
    && Enabled(w.life, a) && !a.Die? && w'.life == Apply(w.life, a)
    && match (Makes(w.life, a), Calls(w.life, a)) {
         case (Some(p), _) => w'.sessions == w.sessions[p := NEW]
         case (None, Some(p)) =>
           && p in w.sessions && t !in w.sessions[p].pcs
           && w'.sessions == w.sessions[p := S.At(w.sessions[p], t, S.CloseTest("counter_closed"))]
         case (None, None) => w'.sessions == w.sessions
       }
  }

  // A step of one session's threads; the counter sees its flag change.
  ghost predicate SessionStep(w: World, p: Proc, w': World) {
    && p in w.sessions && p in w'.sessions && S.Next(w.sessions[p], w'.sessions[p])
    && w'.sessions == w.sessions[p := w'.sessions[p]]
    && var dead := w'.sessions[p].dead;
       w'.life == if dead.Some? && dead != w.sessions[p].dead then Apply(w.life, Die(p, dead.value)) else w.life
  }

  ghost predicate Step(w: World, w': World) {
    || (exists a, t :: LifeStep(w, a, t, w'))
    || (exists p :: SessionStep(w, p, w'))
  }

  ghost predicate Begins(w: World) { Init(w.life) && w.sessions == map[] }

  // Published, or a start's result about to be.
  ghost predicate InUse(s: State, p: Proc) {
    || (s.sh.session.Some? && s.sh.session.value.proc == p)
    || (exists t :: t in s.starters && Result(s.starters[t].pc) == Some(p))
  }

  function Result(pc: Pc): Option<Proc> {
    if pc.Finishing? && pc.result.Some? then Some(pc.result.value.proc) else None
  }

  // A start's process that is no session yet.
  function Child(pc: Pc): Option<Proc> {
    if pc.Spawned? || pc.Registered? || pc.Awaiting? || pc.Discarding? then Some(pc.proc) else None
  }

  ghost predicate SessionsInv(w: World) {
    && (forall p :: p in w.sessions ==> S.Inv(w.sessions[p]) && S.DeadInv(w.sessions[p]))
    && (forall p :: p in w.sessions && p in w.life.dead ==> S.Doomed(w.sessions[p]))
  }

  ghost predicate LinkInv(s: State, sessions: set<Proc>) {
    && (forall p <- sessions :: p in s.dead || InUse(s, p))
    && (forall p :: InUse(s, p) ==> p in sessions)
    && s.dead.Keys <= sessions <= s.spawned.Keys
    && (forall t :: t in s.starters && Child(s.starters[t].pc).Some? ==> Child(s.starters[t].pc).value !in sessions)
  }

  ghost predicate WorldInv(w: World) {
    Inv(w.life) && SessionsInv(w) && LinkInv(w.life, w.sessions.Keys)
  }

  // ---- the counter's steps ---------------------------------------------------------------------------------

  // A session is marked dead by its own threads, or by a step that calls its close.
  lemma DeadOnlyWhenClosed(s: State, a: Action, p: Proc)
    requires Enabled(s, a) && !a.Die?
    ensures p in s.dead ==> p in Apply(s, a).dead
    ensures p in Apply(s, a).dead ==> p in s.dead || Calls(s, a) == Some(p)
    ensures Calls(s, a) == Some(p) ==> p in Apply(s, a).dead
  {
    hide Living, Finish, Lookup, Publish;
  }

  lemma SessionAfterEnsure(s: State, want: Wanted, refusal: Reason, t: Tid)
    ensures var e := Ensure(s.sh, s.dead, s.alive, s.now, want, refusal, t);
            && (e.sh.session.Some? ==> e.sh.session == s.sh.session)
            && (s.sh.session.Some? && e.sh.session.None? ==> s.sh.session.value.proc in e.dead)
            && (forall p <- s.dead :: p in e.dead)
  {
    hide Living;
  }

  // What is in use stays so until it is marked dead, and only a session just made comes into use.
  lemma InUseByCapture(s: State, a: Action, p: Proc)
    requires Inv(s) && Enabled(s, a) && a.Capture?
    ensures InUse(s, p) ==> InUse(Apply(s, a), p) || p in Apply(s, a).dead
    ensures InUse(Apply(s, a), p) ==> InUse(s, p)
  {
    hide Ensure, ProcInv, RetiredInv, SlotInv, EpochInv, CountInv;
    SessionAfterEnsure(s, a.want, a.refusal, a.tid);
    HelperSafety.EnsureSummary(s.sh, s.dead, s.alive, s.now, a.want, a.refusal, a.tid);
    var s' := Apply(s, a);
    assert forall t :: t in s.starters ==> t in s'.starters && s'.starters[t] == s.starters[t];
    assert forall t :: t in s'.starters && t !in s.starters ==> s'.starters[t].pc == Checking;
  }

  lemma InUseByOthers(s: State, a: Action, p: Proc)
    requires Inv(s) && Enabled(s, a) && !a.Capture?
    ensures InUse(s, p) ==> InUse(Apply(s, a), p) || p in Apply(s, a).dead
    ensures InUse(Apply(s, a), p) ==> InUse(s, p) || Makes(s, a) == Some(p)
  {
    hide Apply, Enabled, Inv;
    var s' := Apply(s, a);
    if t :| t in s.starters && Result(s.starters[t].pc) == Some(p) {
      ResultKept(s, a, t);
    } else if s.sh.session.Some? && s.sh.session.value.proc == p {
      SessionKept(s, a);
    }
    if s'.sh.session.Some? {
      SessionCameFrom(s, a);
    }
    if t :| t in s'.starters && Result(s'.starters[t].pc) == Some(p) {
      ResultCameFrom(s, a, t);
    }
  }

  lemma ResultKept(s: State, a: Action, t: Tid)
    requires Inv(s) && Enabled(s, a) && !a.Capture? && t in s.starters && Result(s.starters[t].pc).Some?
    ensures var s', p := Apply(s, a), Result(s.starters[t].pc).value;
            || (t in s'.starters && Result(s'.starters[t].pc) == Some(p))
            || (s'.sh.session.Some? && s'.sh.session.value.proc == p) || p in s'.dead
  {
    hide Ensure, Living, Find, Store, Inv;
  }

  lemma ResultCameFrom(s: State, a: Action, t: Tid)
    requires Enabled(s, a) && !a.Capture? && t in Apply(s, a).starters
    requires Result(Apply(s, a).starters[t].pc).Some?
    ensures var p := Result(Apply(s, a).starters[t].pc).value;
            (t in s.starters && Result(s.starters[t].pc) == Some(p)) || Makes(s, a) == Some(p)
  {
    hide Ensure, Living, Find, Store;
  }

  lemma SessionKept(s: State, a: Action)
    requires Inv(s) && Enabled(s, a) && !a.Capture? && s.sh.session.Some?
    ensures var s', p := Apply(s, a), s.sh.session.value.proc;
            (s'.sh.session.Some? && s'.sh.session.value.proc == p) || p in s'.dead
  {
    hide Ensure, Living, Find, Store, ProcInv, RetiredInv, SlotInv, EpochInv, CountInv;
  }

  lemma SessionCameFrom(s: State, a: Action)
    requires Enabled(s, a) && !a.Capture? && Apply(s, a).sh.session.Some?
    ensures InUse(s, Apply(s, a).sh.session.value.proc)
  {
    hide Ensure, Living, Find, Store;
    if a.Conclude? {
      assert Result(s.starters[a.t].pc).Some? || s.sh.session.Some?;
    }
  }

  lemma InUseKept(s: State, a: Action, p: Proc)
    requires Inv(s) && Enabled(s, a)
    ensures InUse(s, p) ==> InUse(Apply(s, a), p) || p in Apply(s, a).dead
    ensures InUse(Apply(s, a), p) ==> InUse(s, p) || Makes(s, a) == Some(p)
  {
    hide Apply, Enabled, Inv, InUse, Makes;
    if a.Capture? {
      InUseByCapture(s, a, p);
    } else {
      InUseByOthers(s, a, p);
    }
  }

  // A session just made is in use, and was a start's child.
  lemma MadeIsInUse(s: State, a: Action, p: Proc)
    requires Enabled(s, a) && Makes(s, a) == Some(p)
    ensures InUse(Apply(s, a), p)
    ensures exists t :: t in s.starters && Child(s.starters[t].pc) == Some(p)
  {
    assert Result(Apply(s, a).starters[a.t].pc) == Some(p);
    assert Child(s.starters[a.t].pc) == Some(p);
  }

  lemma MadeIsNew(s: State, sessions: set<Proc>, a: Action)
    requires LinkInv(s, sessions) && Enabled(s, a)
    ensures Makes(s, a).Some? ==> Makes(s, a).value !in sessions && Calls(s, a) == None
  {
    assert Makes(s, a).Some? ==> Child(s.starters[a.t].pc) == Makes(s, a);
  }

  // What is called close on is in use.
  lemma CalledIsInUse(s: State, a: Action, p: Proc)
    requires Enabled(s, a) && Calls(s, a) == Some(p)
    ensures InUse(s, p) && Makes(s, a) == None
  {
    if a.Conclude? {
      assert Result(s.starters[a.t].pc) == Some(p);
    }
  }

  // A child of a start was one before, or is new to the record.
  lemma ChildKept(s: State, a: Action, t: Tid)
    requires Inv(s) && Enabled(s, a) && t in Apply(s, a).starters && Child(Apply(s, a).starters[t].pc).Some?
    ensures var p := Child(Apply(s, a).starters[t].pc).value;
            (t in s.starters && Child(s.starters[t].pc) == Some(p)) || p !in s.spawned
    ensures Makes(s, a) != Child(Apply(s, a).starters[t].pc)
  {
    hide Ensure, Living, Find, Store, Close, ProcInv, RetiredInv, SlotInv, EpochInv, CountInv;
  }

  lemma SpawnedGrows(s: State, a: Action)
    requires Enabled(s, a)
    ensures s.spawned.Keys <= Apply(s, a).spawned.Keys
  {
    hide Ensure, Living, Find, Store, Close;
  }

  lemma ChildIsSpawned(s: State, t: Tid)
    requires Inv(s) && t in s.starters && Child(s.starters[t].pc).Some?
    ensures Child(s.starters[t].pc).value in s.spawned
  {
    assert Child(s.starters[t].pc).value in Own(s.starters[t].pc);
  }

  ghost function Known(sessions: set<Proc>, made: Option<Proc>): set<Proc> {
    if made.Some? then sessions + {made.value} else sessions
  }

  lemma LinkKept(s: State, sessions: set<Proc>, a: Action)
    requires Inv(s) && LinkInv(s, sessions) && Enabled(s, a) && !a.Die?
    ensures LinkInv(Apply(s, a), Known(sessions, Makes(s, a)))
  {
    hide Apply, Enabled, Inv, InUse, Makes, Calls, Child;
    var s', after := Apply(s, a), Known(sessions, Makes(s, a));
    forall p <- after
      ensures p in s'.dead || InUse(s', p)
    {
      if p in sessions {
        InUseKept(s, a, p);
        DeadOnlyWhenClosed(s, a, p);
      } else {
        MadeIsInUse(s, a, p);
      }
    }
    forall p | InUse(s', p)
      ensures p in after
    {
      InUseKept(s, a, p);
    }
    forall p <- s'.dead
      ensures p in after
    {
      DeadOnlyWhenClosed(s, a, p);
      if p !in s.dead {
        CalledIsInUse(s, a, p);
      }
    }
    SpawnedGrows(s, a);
    if Makes(s, a).Some? {
      MadeIsInUse(s, a, Makes(s, a).value);
      var t :| t in s.starters && Child(s.starters[t].pc) == Makes(s, a);
      ChildIsSpawned(s, t);
    }
    forall t | t in s'.starters && Child(s'.starters[t].pc).Some?
      ensures Child(s'.starters[t].pc).value !in after
    {
      ChildKept(s, a, t);
    }
  }

  // The session a step calls close on is there.
  lemma CallsAreAnswered(w: World, a: Action, p: Proc)
    requires WorldInv(w) && Enabled(w.life, a) && Calls(w.life, a) == Some(p)
    ensures p in w.sessions
  {
    CalledIsInUse(w.life, a, p);
  }

  lemma NewIsSound()
    ensures S.Inv(NEW) && S.DeadInv(NEW)
  {
  }

  lemma Entered(s: S.State, t: S.Tid, s': S.State)
    requires S.Inv(s) && S.DeadInv(s) && t !in s.pcs && s' == S.At(s, t, S.CloseTest("counter_closed"))
    ensures S.Inv(s') && S.DeadInv(s') && S.Doomed(s')
  {
    assert S.Enter(s, t, s');
    assert S.Next(s, s');
    S.NextKeepsInv(s, s');
    S.DeadKept(s, s');
    assert t in s'.pcs && S.Dying(s'.pcs[t]);
  }

  // What a step marks dead was marked before, or has a thread in close now.
  lemma MarkedIsDoomed(w: World, a: Action, t: S.Tid, w': World, q: Proc)
    requires WorldInv(w) && LifeStep(w, a, t, w') && q in w'.sessions && q in w'.life.dead
    ensures S.Doomed(w'.sessions[q])
  {
    hide Apply, Enabled, Inv, InUse, Makes, Calls, Child, S.Inv, S.DeadInv, S.Doomed;
    DeadOnlyWhenClosed(w.life, a, q);
    if Calls(w.life, a) == Some(q) {
      CalledIsInUse(w.life, a, q);
      Entered(w.sessions[q], t, w'.sessions[q]);
    } else {
      MadeIsNew(w.life, w.sessions.Keys, a);
      assert q in w.sessions;
    }
  }

  lemma LifeStepKeeps(w: World, a: Action, t: S.Tid, w': World)
    requires WorldInv(w) && LifeStep(w, a, t, w')
    ensures WorldInv(w')
  {
    hide Apply, Enabled, Inv, InUse, LinkInv, Makes, Calls, S.Inv, S.DeadInv, S.Doomed;
    HelperSafety.StepKeepsInv(w.life, a);
    LinkKept(w.life, w.sessions.Keys, a);
    NewIsSound();
    match (Makes(w.life, a), Calls(w.life, a)) {
      case (Some(p), _) =>
        assert w'.sessions.Keys == w.sessions.Keys + {p};
      case (None, Some(p)) =>
        assert w'.sessions.Keys == w.sessions.Keys;
        Entered(w.sessions[p], t, w'.sessions[p]);
      case (None, None) =>
    }
    forall q | q in w'.sessions && q in w'.life.dead
      ensures S.Doomed(w'.sessions[q])
    {
      MarkedIsDoomed(w, a, t, w', q);
    }
  }

  // ---- a session's steps -----------------------------------------------------------------------------------

  lemma LinkKeptByDie(s: State, sessions: set<Proc>, p: Proc, why: Reason)
    requires LinkInv(s, sessions) && p in sessions
    ensures LinkInv(Apply(s, Die(p, why)), sessions)
  {
    var s' := Apply(s, Die(p, why));
    assert forall q :: InUse(s', q) <==> InUse(s, q);
  }

  lemma SessionStepKeeps(w: World, p: Proc, w': World)
    requires WorldInv(w) && SessionStep(w, p, w')
    ensures WorldInv(w')
  {
    hide Inv, InUse, LinkInv, Child, S.Inv, S.DeadInv, S.Next;
    S.NextKeepsInv(w.sessions[p], w'.sessions[p]);
    S.DeadKept(w.sessions[p], w'.sessions[p]);
    assert w'.sessions.Keys == w.sessions.Keys;
    if S.Doomed(w.sessions[p]) {
      S.DoomedStays(w.sessions[p], w'.sessions[p]);
    }
    var dead := w'.sessions[p].dead;
    if dead.Some? && dead != w.sessions[p].dead {
      HelperSafety.StepKeepsInv(w.life, Die(p, dead.value));
      LinkKeptByDie(w.life, w.sessions.Keys, p, dead.value);
    }
  }

  // ---- runs ------------------------------------------------------------------------------------------------

  ghost predicate Run(run: seq<World>) {
    |run| > 0 && Begins(run[0]) && forall i :: 0 <= i < |run| - 1 ==> Step(run[i], run[i + 1])
  }

  lemma {:induction false} RunKeepsInv(run: seq<World>, i: nat)
    requires Run(run) && i < |run|
    ensures WorldInv(run[i])
  {
    hide WorldInv, LifeStep, SessionStep;
    if i == 0 {
      BeginsSound(run[0]);
    } else {
      RunKeepsInv(run, i - 1);
      var w, w' := run[i - 1], run[i];
      assert Step(w, w');
      if a, t :| LifeStep(w, a, t, w') {
        LifeStepKeeps(w, a, t, w');
      } else {
        var p :| SessionStep(w, p, w');
        SessionStepKeeps(w, p, w');
      }
    }
  }

  lemma BeginsSound(w: World)
    requires Begins(w)
    ensures WorldInv(w)
  {
  }

  // In every reachable state, a session that is neither published nor about to be is dead or has a thread in close,
  // and once no thread is inside its calls its pipes have been shut, exactly once. So no dropped helper keeps its pipes.
  lemma DroppedIsShut(run: seq<World>, i: nat, p: Proc)
    requires Run(run) && i < |run| && p in run[i].sessions && !InUse(run[i].life, p)
    ensures p in run[i].life.dead && S.Doomed(run[i].sessions[p])
    ensures run[i].sessions[p].pcs == map[] ==>
              run[i].sessions[p].dead.Some? && run[i].sessions[p].closed && run[i].sessions[p].shuts == 1
  {
    hide InUse, S.Inv, S.DeadInv, S.Doomed;
    RunKeepsInv(run, i);
    if run[i].sessions[p].pcs == map[] {
      S.DoomedIsShut(run[i].sessions[p]);
    }
  }

  // A session whose process is retired is one of those.
  lemma RetiredIsNotInUse(run: seq<World>, i: nat, p: Proc)
    requires Run(run) && i < |run| && p in run[i].life.sh.retired
    ensures !InUse(run[i].life, p)
  {
    RunKeepsInv(run, i);
    var s := run[i].life;
    assert forall t :: t in s.starters && Result(s.starters[t].pc) == Some(p) ==> p in Own(s.starters[t].pc);
  }

  // What the counter hands out is not being shut by it: a session not marked dead has no close called on it.
  lemma LiveIsOpen(run: seq<World>, i: nat, p: Proc)
    requires Run(run) && i < |run| && p in run[i].sessions && p !in run[i].life.dead
    ensures InUse(run[i].life, p)
  {
    RunKeepsInv(run, i);
  }
}
