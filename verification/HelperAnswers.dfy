/** What the counter answers, and when it acts: which captures are given the session and which are refused, for what
    reason, and when a helper is started; which counts come from memory. All of it is read off the state before the
    call, for every state a run can reach. */
module HelperAnswers {
  import opened Common
  import opened HelperLifecycle
  import opened HelperSafety

  // ---- captures --------------------------------------------------------------------------------------------

  // There is a session for exactly what is wanted, and it has not died.
  ghost predicate Serving(s: State, want: Wanted) {
    want.keys.Some? && s.sh.state == Some(want) && s.sh.session.Some? && s.sh.session.value.proc !in s.dead
  }

  // Why no helper may be started for what is wanted yet: its session is found dead, or its start failed less than the
  // backoff ago.
  ghost function Failing(s: State, want: Wanted): Option<Reason> {
    if s.sh.state != Some(want) then None
    else if s.sh.session.Some? then
      if s.sh.session.value.proc in s.dead then Some(s.dead[s.sh.session.value.proc]) else None
    else if s.sh.failure.Some? && s.now < s.sh.failure.value.until then Some(s.sh.failure.value.reason)
    else None
  }

  // Why a capture that gets no session is refused.
  ghost function Refusal(s: State, want: Wanted): Reason {
    if s.sh.starter.Some? then "counter_helper_starting"
    else if Failing(s, want).Some? then Failing(s, want).value
    else if s.alive != {} then "counter_helper_stopping"
    else "counter_helper_starting"
  }

  // What is retired when a start is considered: who was, and the session's helper if the session is no longer one.
  ghost predicate Holds(s: State, procs: seq<Proc>) {
    forall p :: p in s.alive ==>
      (p in procs <==> p in s.sh.retired || (s.sh.session.Some? && s.sh.session.value.proc == p))
  }

  ghost predicate Waiting(s: State, procs: seq<Proc>) {
    forall p :: p in s.alive ==> (p in procs <==> p in s.sh.retired)
  }

  // Without a start, a helper is left exactly when a process is alive.
  lemma WhoIsLeft(s: State, procs: seq<Proc>)
    requires Inv(s) && s.sh.starter.None? && Holds(s, procs)
    ensures Living(procs, s.alive) == [] <==> s.alive == {}
  {
    hide Living, RetiredInv, SlotInv, EpochInv, CountInv;
    var left := Living(procs, s.alive);
    forall p | p in s.alive
      ensures p in left
    {
      assert Owned(s, p);
    }
    assert left != [] ==> left[0] in s.alive;
  }

  lemma RefreshHolds(s: State, want: Wanted)
    ensures var (sh1, dead1) := Refresh(s.sh, s.dead, s.alive, want);
            && sh1.starter == s.sh.starter && sh1.state == Some(want)
            && sh1.session == (if s.sh.state == Some(want) then s.sh.session else None)
            && sh1.failure == (if s.sh.state == Some(want) then s.sh.failure else None)
            && sh1.epoch == (if s.sh.state == Some(want) then s.sh.epoch else s.sh.epoch + 1)
            && sh1.counts == (if s.sh.state == Some(want) then s.sh.counts else [])
            && dead1 == (if s.sh.state == Some(want) then s.dead else Close(s.dead, s.sh.session))
            && (sh1.session.Some? ==> Holds(s, sh1.retired + [sh1.session.value.proc]) && Waiting(s, sh1.retired))
            && (sh1.session.None? ==> Holds(s, sh1.retired))
  {
    hide Living;
  }

  lemma OrderAnswers(s: State, sh: Shared, dead: map<Proc, Reason>, config: string, keys: Keys, tid: Tid)
    requires Inv(s) && sh.starter == s.sh.starter && Holds(s, sh.retired)
    ensures var failing := sh.failure.Some? && s.now < sh.failure.value.until;
            var e := Order(sh, dead, s.alive, s.now, config, keys, tid);
            && e.reply == Refused(if sh.starter.Some? then "counter_helper_starting"
                                  else if failing then sh.failure.value.reason
                                  else if s.alive != {} then "counter_helper_stopping"
                                  else "counter_helper_starting")
            && (e.job.Some? <==> sh.starter.None? && !failing && s.alive == {})
            && (e.job.Some? ==> e.job.value == Job(e.sh.epoch, config, keys)) && e.sh.epoch == sh.epoch
            && e.sh.failure == (if sh.starter.None? && !failing then None else sh.failure)
            && e.dead == dead && e.sh.session == sh.session && e.sh.state == sh.state && e.sh.counts == sh.counts
            && Holds(s, e.sh.retired)
  {
    hide Living, Inv;
    if sh.starter.None? {
      WhoIsLeft(s, sh.retired);
    }
  }

  // The session is given out exactly when it is alive and of exactly what is wanted; otherwise the reason is this one.
  // A helper is started exactly when there are files to start it from, no session, no start, no failure that is not old
  // enough, and no helper that is still there.
  lemma CaptureAnswers(s: State, want: Wanted, refusal: Reason, tid: Tid)
    requires Inv(s)
    ensures var e := Ensure(s.sh, s.dead, s.alive, s.now, want, refusal, tid);
            && e.reply == (if Serving(s, want) then Use(s.sh.session.value)
                           else Refused(if want.keys.None? then refusal else Refusal(s, want)))
            && (e.job.Some? <==> && want.keys.Some? && !Serving(s, want) && s.sh.starter.None?
                                 && Failing(s, want).None? && s.alive == {})
            && (e.job.Some? ==> e.job.value == Job(e.sh.epoch, want.config, want.keys.value))
  {
    hide Refresh, Order, Inv, Holds;
    RefreshHolds(s, want);
    var (sh1, dead1) := Refresh(s.sh, s.dead, s.alive, want);
    if want.keys.Some? && !Serving(s, want) {
      var sh2 := Settled(sh1, dead1, s.now);
      OrderAnswers(s, sh2, dead1, want.config, want.keys.value, tid);
    }
  }

  // The failure a capture leaves on record: one just found, or the one there was, until it is too old or of other files.
  ghost function LeftFailure(s: State, want: Wanted): Option<Failure> {
    if s.sh.state != Some(want) then None
    else if s.sh.session.Some? && s.sh.session.value.proc in s.dead
    then Some(Failure(s.dead[s.sh.session.value.proc], s.now + 60))
    else if want.keys.Some? && s.sh.session.None? && s.sh.starter.None? && Failing(s, want).None? then None
    else s.sh.failure
  }

  // What a capture leaves behind, whatever it answers: the wanted state, its session and counts if it is served, the
  // processes to wait for, and the failure that still counts.
  lemma CaptureLeaves(s: State, want: Wanted, refusal: Reason, tid: Tid)
    requires Inv(s)
    ensures var e := Ensure(s.sh, s.dead, s.alive, s.now, want, refusal, tid);
            && e.sh.state == Some(want)
            && e.sh.session == (if Serving(s, want) then s.sh.session else None)
            && e.sh.counts == (if Serving(s, want) then s.sh.counts else [])
            && e.sh.epoch == (if s.sh.state == Some(want) then s.sh.epoch else s.sh.epoch + 1)
            && e.dead == (if s.sh.state == Some(want) then s.dead else Close(s.dead, s.sh.session))
            && e.sh.failure == LeftFailure(s, want)
            && (if Serving(s, want) then Waiting(s, e.sh.retired) else Holds(s, e.sh.retired))
  {
    hide Refresh, Order, Holds, Waiting, ProcInv, RetiredInv, SlotInv, CountInv;
    RefreshHolds(s, want);
    if s.sh.session.None? {
      NoCounts(s);
    }
    var (sh1, dead1) := Refresh(s.sh, s.dead, s.alive, want);
    if want.keys.Some? && !Serving(s, want) {
      var sh2 := Settled(sh1, dead1, s.now);
      OrderAnswers(s, sh2, dead1, want.config, want.keys.value, tid);
    }
  }

  // What a capture is answered at a later moment.
  ghost function At(s: State, time: nat): State { s.(now := time) }

  // A session found dead is not replaced for 60 seconds: captures are told why it died, and then whether its process is
  // still there; only when it is not does one start the next.
  lemma DeadSessionBacksOff(s: State, want: Wanted, refusal: Reason, t1: Tid, t2: Tid, later: nat)
    requires Inv(s) && t1 !in s.starters && want.keys.Some? && s.now <= later
    requires s.sh.state == Some(want) && s.sh.session.Some? && s.sh.session.value.proc in s.dead
    ensures var s1 := Apply(s, Capture(want, refusal, t1));
            var e := Ensure(s1.sh, s1.dead, s1.alive, later, want, refusal, t2);
            var waits := later < s.now + 60;
            && e.reply == Refused(if waits then s.dead[s.sh.session.value.proc]
                                  else if s.alive != {} then "counter_helper_stopping" else "counter_helper_starting")
            && (e.job.Some? <==> !waits && s.alive == {})
  {
    hide Ensure, ProcInv, RetiredInv, SlotInv, EpochInv, CountInv;
    var s1 := Apply(s, Capture(want, refusal, t1));
    CaptureLeaves(s, want, refusal, t1);
    CaptureAnswers(s, want, refusal, t1);
    StepKeepsInv(s, Capture(want, refusal, t1));
    StepKeepsInv(s1, Tick(later));
    CaptureAnswers(At(s1, later), want, refusal, t2);
    EnsureSlots(s.sh, s.dead, s.alive, s.now, want, refusal, t1);
  }

  // Once its process is gone too, and the 60 seconds are over, the next capture starts another.
  lemma ReplacedOnceGone(s: State, want: Wanted, refusal: Reason, t1: Tid, t2: Tid, later: nat)
    requires Inv(s) && t1 !in s.starters && want.keys.Some? && s.now + 60 <= later
    requires s.sh.state == Some(want) && s.sh.session.Some? && s.sh.session.value.proc in s.dead
    requires s.sh.session.value.proc in s.alive
    ensures var s1 := Apply(s, Capture(want, refusal, t1));
            && Enabled(s1, Exit(s.sh.session.value.proc))
            && var s2 := Apply(s1, Exit(s.sh.session.value.proc));
               Ensure(s2.sh, s2.dead, s2.alive, later, want, refusal, t2).job.Some?
  {
    hide Ensure, RetiredInv, SlotInv, EpochInv, CountInv;
    var exit, s1 := Exit(s.sh.session.value.proc), Apply(s, Capture(want, refusal, t1));
    CaptureLeaves(s, want, refusal, t1);
    CaptureAnswers(s, want, refusal, t1);
    StepKeepsInv(s, Capture(want, refusal, t1));
    EnsureSlots(s.sh, s.dead, s.alive, s.now, want, refusal, t1);
    StepKeepsInv(s1, exit);
    var s2 := Apply(s1, exit);
    StepKeepsInv(s2, Tick(later));
    CaptureAnswers(At(s2, later), want, refusal, t2);
    assert s2.alive == {};
  }

  // Why a start has stopped short, if it has.
  function Why(pc: Pc): Option<Reason> {
    match pc
    case Discarding(_, why) => Some(why)
    case Finishing(None, reason) => Some(reason)
    case _ => None
  }

  // What the step met with that was not its own doing.
  function FaultOf(a: Action): Option<Reason> {
    match a
    case Check(_, _, fault) => fault
    case Vet(_, fault) => fault
    case Ready(_, _, fault) => fault
    case Spawn(_, None) => Some("counter_helper_failed")
    case _ => None
  }

  // A step of a start stops it for what it met with, for a file that is not the one it was started for, or, before it
  // runs anything and once its child is on record, for an epoch that is over; and for nothing else.
  lemma WhyStartsStop(s: State, a: Action, t: Tid)
    requires Enabled(s, a) && (a == Register(t) || ((a.Check? || a.Spawn? || a.Vet? || a.Ready?) && a.t == t))
    ensures t in s.starters
    ensures var start, next := s.starters[t], Apply(s, a).starters;
            var differs := || (a.Check? && a.seen != start.job.keys)
                           || (a.Vet? && start.held.helper != start.job.keys.helper)
                           || (a.Ready? && start.held.gguf != start.job.keys.gguf);
            && t in next
            && Why(next[t].pc) == if FaultOf(a).Some? then FaultOf(a)
                                  else if differs then Some("counter_source_changed")
                                  else if (a.Check? || a.Register?) && s.sh.epoch != start.job.epoch
                                  then Some("counter_closed")
                                  else None
  {
  }

  // A start that failed, and was still wanted, is not tried again for 60 seconds either.
  lemma FailedStartBacksOff(s: State, t: Tid, refusal: Reason, t2: Tid, later: nat)
    requires Inv(s) && Enabled(s, Conclude(t)) && s.now <= later
    requires s.starters[t].pc.result.None? && s.starters[t].job.epoch == s.sh.epoch
    ensures var job, s1 := s.starters[t].job, Apply(s, Conclude(t));
            var e := Ensure(s1.sh, s1.dead, s1.alive, later, Wanted(job.config, Some(job.keys)), refusal, t2);
            var waits := later < s.now + 60;
            && e.reply == Refused(if waits then s.starters[t].pc.reason
                                  else if s.alive != {} then "counter_helper_stopping" else "counter_helper_starting")
            && (e.job.Some? <==> !waits && s.alive == {})
  {
    hide Ensure, ProcInv, RetiredInv, SlotInv, CountInv;
    var job, s1 := s.starters[t].job, Apply(s, Conclude(t));
    StepKeepsInv(s, Conclude(t));
    StepKeepsInv(s1, Tick(later));
    CaptureAnswers(At(s1, later), Wanted(job.config, Some(job.keys)), refusal, t2);
    assert JobInv(s, s.starters[t]);
  }

  // A start that succeeded serves what it was started for, unless its session has died since or it is no longer wanted;
  // then its process is retired, and its session told to close.
  lemma StartedServes(s: State, t: Tid)
    requires Inv(s) && Enabled(s, Conclude(t)) && s.starters[t].pc.result.Some?
    ensures var job, session, s1 := s.starters[t].job, s.starters[t].pc.result.value, Apply(s, Conclude(t));
            var wanted := job.epoch == s.sh.epoch;
            && (wanted ==> s1.sh.session == Some(session)
                           && (Serving(s1, Wanted(job.config, Some(job.keys))) <==> session.proc !in s.dead))
            && (!wanted ==> s1.sh.session.None? && session.proc in s1.sh.retired && session.proc in s1.dead)
  {
    hide ProcInv, RetiredInv, SlotInv, CountInv;
    assert JobInv(s, s.starters[t]);
  }

  // ---- counts ----------------------------------------------------------------------------------------------

  // The session is still the published one and has not died.
  ghost predicate Live(s: State, client: SessionRef) { s.sh.session == Some(client) && client.proc !in s.dead }

  // Why it is not.
  ghost function Loss(s: State, client: SessionRef): Reason {
    if client.proc in s.dead then s.dead[client.proc] else "counter_closed"
  }

  // A remembered count is what a look finds: the one entry of that text, which becomes the newest.
  lemma LookFinds(s: State, client: SessionRef, sha: string)
    requires Inv(s)
    ensures var (sh1, r) := Lookup(s.sh, s.dead, client, sha);
            && (r.Lost? <==> !Live(s, client)) && (r.Lost? ==> r.reason == Loss(s, client))
            && (r.Hit? <==> Live(s, client) && exists c <- s.sh.counts :: c.sha == sha)
            && (r.Hit? ==> Cached(client.digest, sha, r.count) in s.sh.counts)
            && sh1 == s.sh.(counts := sh1.counts)
            && (!r.Hit? ==> sh1.counts == s.sh.counts)
            && (r.Hit? ==> exists at ::
                  && 0 <= at < |s.sh.counts| && s.sh.counts[at] == Cached(client.digest, sha, r.count)
                  && sh1.counts == s.sh.counts[..at] + s.sh.counts[at + 1..] + [s.sh.counts[at]])
  {
  }

  // An answer is returned, and remembered for the next look, exactly while its session is the current one and alive.
  lemma AnswerIsFound(s: State, client: SessionRef, sha: string, count: Option<nat>)
    requires Inv(s)
    ensures var (sh1, r) := Publish(s.sh, s.dead, client, sha, count);
            && r == (if Live(s, client) then count else None)
            && (r.None? ==> sh1 == s.sh)
            && sh1 == s.sh.(counts := sh1.counts)
            && (r.Some? ==> Lookup(sh1, s.dead, client, sha).1 == Hit(r.value))
  {
    if Live(s, client) && count.Some? {
      var entry := Cached(client.digest, sha, count.value);
      forall c <- s.sh.counts
        ensures c.digest == client.digest
      {
        assert IsAnswer(s, c);
      }
      StoreKeeps(s.sh.counts, entry);
      FoundAgain(Store(s.sh.counts, entry), entry);
    }
  }

  lemma FoundAgain(counts: seq<Cached>, entry: Cached)
    requires entry in counts && forall i, j :: 0 <= i < j < |counts| ==> counts[i].sha != counts[j].sha
    ensures var at := Find(counts, entry.digest, entry.sha); at < |counts| && counts[at] == entry
  {
    var at :| 0 <= at < |counts| && counts[at] == entry;
    OneSha(counts, at);
  }

  // ---- a run -----------------------------------------------------------------------------------------------

  lemma OneMore(run: seq<State>, actions: seq<Action>, a: Action, s: State)
    requires Run(run, actions) && Enabled(run[|actions|], a) && s == Apply(run[|actions|], a)
    ensures Run(run + [s], actions + [a])
  {
    hide Apply, Enabled;
  }

  // A run that has come to a state.
  ghost predicate Comes(s: State) {
    exists run: seq<State>, actions: seq<Action> :: Run(run, actions) && run[|actions|] == s
  }

  lemma Leads(s: State, a: Action, s': State)
    requires Comes(s) && Enabled(s, a) && Apply(s, a) == s'
    ensures Comes(s')
  {
    hide Apply, Enabled;
    var run: seq<State>, actions: seq<Action> :| Run(run, actions) && run[|actions|] == s;
    OneMore(run, actions, a, Apply(s, a));
    assert (run + [Apply(s, a)])[|actions + [a]|] == Apply(s, a);
  }

  // One helper's life: what is wanted, its process and start thread, and one text it counts.
  datatype Story = Story(config: string, keys: Keys, proc: Proc, tid: Tid, digest: string, sha: string, count: nat) {
    function Want(): Wanted { Wanted(config, Some(keys)) }
    function Session(): SessionRef { SessionRef(proc, 1, config, keys, digest) }

    // While its start is at pc: before its process is there, once it is, and once it is on record.
    function Before(pc: Pc): State {
      State(Shared(None, Some(Want()), Some(tid), None, None, 1, [], []), map[tid := Start(Job(1, config, keys), pc, keys)],
            {}, map[], map[], {}, 0)
    }
    function Running(pc: Pc): State { Before(pc).(alive := {proc}, spawned := map[proc := keys]) }
    function OnRecord(pc: Pc): State { Running(pc).(sh := Running(pc).sh.(startingProc := Some(proc))) }

    // Once it serves
    function Serves(given: set<Given>, counts: seq<Cached>): State {
      State(Shared(Some(Session()), Some(Want()), None, None, None, 1, [], counts), map[], {proc}, map[proc := keys], map[],
            given, 0)
    }
  }

  lemma StartOrdered(x: Story, refusal: Reason)
    ensures Comes(x.Before(Checking))
  {
    var s0 := State(Shared(None, None, None, None, None, 0, [], []), map[], {}, map[], map[], {}, 0);
    assert Comes(s0) by {
      assert Run([s0], []) && [s0][0] == s0;
    }
    hide Comes;
    Leads(s0, Capture(x.Want(), refusal, x.tid), x.Before(Checking));
  }

  lemma StartRuns(x: Story)
    requires Comes(x.Before(Checking))
    ensures Comes(x.OnRecord(Registered(x.proc)))
  {
    hide Comes;
    Leads(x.Before(Checking), Check(x.tid, x.keys, None), x.Before(Cleared));
    Leads(x.Before(Cleared), Spawn(x.tid, Some(x.proc)), x.Running(Spawned(x.proc)));
    Leads(x.Running(Spawned(x.proc)), Register(x.tid), x.OnRecord(Registered(x.proc)));
  }

  lemma StartServes(x: Story)
    requires Comes(x.OnRecord(Registered(x.proc)))
    ensures Comes(x.Serves({}, []))
  {
    hide Comes;
    var done := Finishing(Some(x.Session()), "");
    Leads(x.OnRecord(Registered(x.proc)), Vet(x.tid, None), x.OnRecord(Awaiting(x.proc)));
    Leads(x.OnRecord(Awaiting(x.proc)), Ready(x.tid, x.digest, None), x.OnRecord(done));
    Leads(x.OnRecord(done), Conclude(x.tid), x.Serves({}, []));
  }

  // A count can be had: a capture, a start that goes well, an answer, and the look after it.
  lemma CountIsHad(x: Story)
    ensures exists s :: Comes(s) && Lookup(s.sh, s.dead, x.Session(), x.sha).1 == Hit(x.count)
  {
    hide Comes;
    StartOrdered(x, "");
    StartRuns(x);
    StartServes(x);
    var answer, entry := Given(x.proc, x.sha, x.count), Cached(x.digest, x.sha, x.count);
    Leads(x.Serves({}, []), Give(answer), x.Serves({answer}, []));
    Leads(x.Serves({answer}, []), Answered(x.Session(), x.sha, Some(x.count)), x.Serves({answer}, [entry]));
  }
}
