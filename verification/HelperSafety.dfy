/** What every run of HelperLifecycle keeps: one live helper at most, always answered for; a published session that
    is of the current epoch, configuration and files; remembered counts that are that session's own answers. */
module HelperSafety {
  import opened Common
  import opened HelperLifecycle

  // ---- the locked blocks -----------------------------------------------------------------------------------

  lemma RefreshSlots(sh: Shared, dead: map<Proc, Reason>, alive: set<Proc>, want: Wanted)
    ensures var sh1 := Refresh(sh, dead, alive, want).0;
            && sh1.startingProc == sh.startingProc && sh1.starter == sh.starter && sh1.state == Some(want)
            && sh1.epoch >= sh.epoch && (sh1.epoch == sh.epoch ==> sh1.state == sh.state)
  {
    hide Living;
  }

  lemma OrderSlots(sh: Shared, dead: map<Proc, Reason>, alive: set<Proc>, now: nat, config: string, keys: Keys, tid: Tid)
    ensures var e := Order(sh, dead, alive, now, config, keys, tid);
            && e.sh.startingProc == sh.startingProc && e.sh.session == sh.session && e.sh.state == sh.state
            && e.sh.epoch == sh.epoch
            && e.sh.starter == (if e.job.Some? then Some(tid) else sh.starter)
            && (e.job.Some? ==> sh.starter.None? && e.sh.retired == [] && e.job.value == Job(sh.epoch, config, keys))
  {
    hide Living;
  }

  // The session that was found dead is retired.
  function Settled(sh1: Shared, dead1: map<Proc, Reason>, now: nat): Shared
    requires sh1.session.Some? ==> sh1.session.value.proc in dead1
  {
    if sh1.session.None? then sh1
    else sh1.(session := None, retired := sh1.retired + [sh1.session.value.proc],
              failure := Some(Failure(dead1[sh1.session.value.proc], now + RETRY_AFTER)), counts := [])
  }

  // What Ensure does to everything but the retired list ...
  lemma EnsureSlots(sh: Shared, dead: map<Proc, Reason>, alive: set<Proc>, now: nat, want: Wanted, reason: Reason,
                    tid: Tid)
    ensures var e := Ensure(sh, dead, alive, now, want, reason, tid);
            && e.sh.startingProc == sh.startingProc
            && e.sh.epoch >= sh.epoch && (e.sh.epoch == sh.epoch ==> e.sh.state == sh.state)
            && e.sh.starter == (if e.job.Some? then Some(tid) else sh.starter)
            && (e.job.Some? ==> sh.starter.None? && e.sh.session.None? && e.sh.retired == [])
            && (e.job.Some? ==> e.sh.state == Some(want) && want.keys.Some?
                                && e.job.value == Job(e.sh.epoch, want.config, want.keys.value))
  {
    hide Living, Refresh, Order;
    RefreshSlots(sh, dead, alive, want);
    var (sh1, dead1) := Refresh(sh, dead, alive, want);
    if want.keys.Some? && (sh1.session.None? || sh1.session.value.proc in dead1) {
      OrderSlots(Settled(sh1, dead1, now), dead1, alive, now, want.config, want.keys.value, tid);
    }
  }

  lemma EnsureSession(sh: Shared, dead: map<Proc, Reason>, alive: set<Proc>, now: nat, want: Wanted, reason: Reason,
                      tid: Tid)
    ensures var e := Ensure(sh, dead, alive, now, want, reason, tid);
            && (e.sh.session.Some? ==>
                  e.sh.session == sh.session && e.sh.epoch == sh.epoch && e.sh.counts == sh.counts)
            && (e.sh.session.None? ==> e.sh.counts == [] || (sh.session.None? && e.sh.counts == sh.counts))
  {
    hide Living;
  }

  // ... and to that list: no live process leaves it, and a live session that goes joins it.
  lemma EnsureRetired(sh: Shared, dead: map<Proc, Reason>, alive: set<Proc>, now: nat, want: Wanted, reason: Reason,
                      tid: Tid, p: Proc)
    requires p in alive
    requires p in sh.retired || (sh.session.Some? && sh.session.value.proc == p)
    ensures var e := Ensure(sh, dead, alive, now, want, reason, tid);
            p in e.sh.retired || (e.sh.session.Some? && e.sh.session.value.proc == p)
  {
    hide Living;
  }

  lemma EnsureRetiredOnly(sh: Shared, dead: map<Proc, Reason>, alive: set<Proc>, now: nat, want: Wanted, reason: Reason,
                          tid: Tid)
    ensures var e := Ensure(sh, dead, alive, now, want, reason, tid);
            forall p <- e.sh.retired ::
              p in sh.retired || (sh.session.Some? && e.sh.session.None? && p == sh.session.value.proc)
  {
    hide Living;
  }

  lemma EnsureSummary(sh: Shared, dead: map<Proc, Reason>, alive: set<Proc>, now: nat, want: Wanted, reason: Reason,
                      tid: Tid)
    ensures var e := Ensure(sh, dead, alive, now, want, reason, tid);
            && e.sh.startingProc == sh.startingProc
            && e.sh.epoch >= sh.epoch && (e.sh.epoch == sh.epoch ==> e.sh.state == sh.state)
            && e.sh.starter == (if e.job.Some? then Some(tid) else sh.starter)
            && (e.job.Some? ==> sh.starter.None? && e.sh.session.None? && e.sh.retired == [])
            && (e.job.Some? ==> e.sh.state == Some(want) && want.keys.Some?
                                && e.job.value == Job(e.sh.epoch, want.config, want.keys.value))
            && (e.sh.session.Some? ==>
                  e.sh.session == sh.session && e.sh.epoch == sh.epoch && e.sh.counts == sh.counts)
            && (e.sh.session.None? ==> e.sh.counts == [] || (sh.session.None? && e.sh.counts == sh.counts))
            && (forall p :: p in alive && (p in sh.retired || (sh.session.Some? && sh.session.value.proc == p)) ==>
                  p in e.sh.retired || (e.sh.session.Some? && e.sh.session.value.proc == p))
  {
    hide Ensure;
    EnsureSlots(sh, dead, alive, now, want, reason, tid);
    EnsureSession(sh, dead, alive, now, want, reason, tid);
    forall p | p in alive && (p in sh.retired || (sh.session.Some? && sh.session.value.proc == p))
      ensures var e := Ensure(sh, dead, alive, now, want, reason, tid);
              p in e.sh.retired || (e.sh.session.Some? && e.sh.session.value.proc == p)
    {
      EnsureRetired(sh, dead, alive, now, want, reason, tid, p);
    }
  }

  // A capture is handed a session only when it is live and of exactly the configuration and files it asked for.
  lemma CaptureUsesCurrent(s: State, want: Wanted, refusal: Reason, tid: Tid)
    requires Inv(s)
    ensures var e := Ensure(s.sh, s.dead, s.alive, s.now, want, refusal, tid);
            e.reply.Use? ==> var session := e.reply.session;
              && s.sh.session == Some(session) == e.sh.session && session.proc !in e.dead
              && want == Wanted(session.config, Some(session.keys))
              && s.spawned[session.proc] == session.keys
  {
    hide Living, ProcInv, SlotInv, CountInv, RetiredInv;
  }

  // A start is ordered only when no helper is left: none of a session, of a start or retired and still there.
  lemma StartOnlyWhenAlone(s: State, want: Wanted, refusal: Reason, tid: Tid)
    requires Inv(s) && tid !in s.starters
    ensures Ensure(s.sh, s.dead, s.alive, s.now, want, refusal, tid).job.Some? ==> s.alive == {}
  {
    var e := Ensure(s.sh, s.dead, s.alive, s.now, want, refusal, tid);
    EnsureSummary(s.sh, s.dead, s.alive, s.now, want, refusal, tid);
    assert e.job.Some? ==> forall p :: Owned(s, p) ==> p !in s.alive;
  }

  // ---- each part of the invariant over a step --------------------------------------------------------------

  lemma StarterKept(s: State, a: Action)
    requires Inv(s) && Enabled(s, a)
    ensures StarterInv(Apply(s, a))
  {
    hide Apply, Enabled, Inv, StarterInv;
    if a.Capture? {
      StarterKeptByCapture(s, a);
    } else {
      StarterKeptByOthers(s, a);
    }
  }

  lemma StarterKeptByCapture(s: State, a: Action)
    requires Inv(s) && Enabled(s, a) && a.Capture?
    ensures StarterInv(Apply(s, a))
  {
    hide Ensure, ProcInv, RetiredInv, SlotInv, EpochInv, CountInv;
    EnsureSummary(s.sh, s.dead, s.alive, s.now, a.want, a.refusal, a.tid);
  }

  lemma StarterKeptByOthers(s: State, a: Action)
    requires Inv(s) && Enabled(s, a) && !a.Capture?
    ensures StarterInv(Apply(s, a))
  {
    hide Living, Find, Store, Close, Remaining, Own, ProcInv, RetiredInv, SlotInv, EpochInv, CountInv;
  }

  lemma OwnedKept(s: State, a: Action, p: Proc)
    requires Inv(s) && Enabled(s, a) && p in Apply(s, a).alive
    ensures Owned(Apply(s, a), p)
  {
    hide Apply, Enabled, Inv, Owned;
    if a.Capture? {
      OwnedKeptByCapture(s, a, p);
    } else {
      OwnedKeptByOthers(s, a, p);
    }
  }

  lemma OwnedKeptByCapture(s: State, a: Action, p: Proc)
    requires Inv(s) && Enabled(s, a) && a.Capture? && p in Apply(s, a).alive
    ensures Owned(Apply(s, a), p)
  {
    hide Ensure, RetiredInv, SlotInv, EpochInv, CountInv;
    EnsureSummary(s.sh, s.dead, s.alive, s.now, a.want, a.refusal, a.tid);
    StartOnlyWhenAlone(s, a.want, a.refusal, a.tid);
    assert Owned(s, p);
  }

  lemma OwnedKeptByOthers(s: State, a: Action, p: Proc)
    requires Inv(s) && Enabled(s, a) && !a.Capture? && p in Apply(s, a).alive
    ensures Owned(Apply(s, a), p)
  {
    hide Ensure, Living, Find, Store, Close, Remaining, RetiredInv, SlotInv, EpochInv, CountInv;
    assert p in s.alive ==> Owned(s, p);
  }

  // The processes alive are one at most, on record, and a start's own until it has given it away.
  ghost predicate Alone(s: State) {
    && (forall p, q :: p in s.alive && q in s.alive ==> p == q)
    && (forall t :: t in s.starters ==> Exclusive(s.starters[t].pc, s.alive))
    && s.alive <= s.spawned.Keys
  }

  lemma AloneKept(s: State, a: Action)
    requires Inv(s) && Enabled(s, a)
    ensures Alone(Apply(s, a))
  {
    hide Apply, Enabled, Inv, Alone;
    if a.Capture? {
      AloneKeptByCapture(s, a);
    } else {
      AloneKeptByOthers(s, a);
    }
  }

  lemma AloneKeptByCapture(s: State, a: Action)
    requires Inv(s) && Enabled(s, a) && a.Capture?
    ensures Alone(Apply(s, a))
  {
    hide Ensure, RetiredInv, EpochInv, CountInv;
    EnsureSummary(s.sh, s.dead, s.alive, s.now, a.want, a.refusal, a.tid);
    StartOnlyWhenAlone(s, a.want, a.refusal, a.tid);
  }

  lemma AloneKeptByOthers(s: State, a: Action)
    requires Inv(s) && Enabled(s, a) && !a.Capture?
    ensures Alone(Apply(s, a))
  {
    hide Ensure, Living, Find, Store, Close, Remaining, RetiredInv, EpochInv, CountInv;
  }

  // The first steps of a start, before its child is on record, and the later ones.
  predicate OfLaunch(a: Action) { a.Check? || a.Register? }

  predicate OfHandshake(a: Action) { a.Written? || a.Vet? || a.Ready? || a.Discard? }

  // A start thread moves; everything else is the other threads' and the environment's.
  predicate OfStart(a: Action) { OfLaunch(a) || a.Spawn? || OfHandshake(a) || a.Conclude? }

  lemma RetiredKept(s: State, a: Action)
    requires Inv(s) && Enabled(s, a)
    ensures RetiredInv(Apply(s, a))
  {
    hide Apply, Enabled, Inv, RetiredInv;
    if a.Conclude? {
      RetiredKeptAtTheEnd(s, a);
    } else if a.Spawn? {
      RetiredKeptBySpawn(s, a);
    } else if OfLaunch(a) {
      RetiredKeptByLaunch(s, a);
    } else if OfHandshake(a) {
      RetiredKeptByHandshake(s, a);
    } else {
      RetiredKeptByOthers(s, a);
    }
  }

  lemma RetiredKeptAtTheEnd(s: State, a: Action)
    requires Inv(s) && Enabled(s, a) && a.Conclude?
    ensures RetiredInv(Apply(s, a))
  {
    hide Close, SlotInv, CountInv;
  }

  lemma RetiredKeptBySpawn(s: State, a: Action)
    requires Inv(s) && Enabled(s, a) && a.Spawn?
    ensures RetiredInv(Apply(s, a))
  {
    hide Close, SlotInv, CountInv, EpochInv, ProcInv, StarterInv;
  }

  lemma RetiredKeptByLaunch(s: State, a: Action)
    requires Inv(s) && Enabled(s, a) && OfLaunch(a)
    ensures RetiredInv(Apply(s, a))
  {
    hide Close, SlotInv, CountInv, EpochInv, ProcInv, StarterInv;
  }

  lemma RetiredKeptByHandshake(s: State, a: Action)
    requires Inv(s) && Enabled(s, a) && OfHandshake(a)
    ensures RetiredInv(Apply(s, a))
  {
    hide Close, SlotInv, CountInv, ProcInv;
  }

  lemma RetiredKeptByOthers(s: State, a: Action)
    requires Inv(s) && Enabled(s, a) && !OfStart(a)
    ensures RetiredInv(Apply(s, a))
  {
    hide Ensure, Living, Find, Store, Close, Remaining,
         SlotInv, CountInv;
    if a.Capture? {
      EnsureSummary(s.sh, s.dead, s.alive, s.now, a.want, a.refusal, a.tid);
      EnsureRetiredOnly(s.sh, s.dead, s.alive, s.now, a.want, a.refusal, a.tid);
    }
  }

  lemma SlotKept(s: State, a: Action)
    requires Inv(s) && Enabled(s, a)
    ensures SlotInv(Apply(s, a))
  {
    hide Apply, Enabled, Inv, SlotInv;
    if OfLaunch(a) {
      SlotKeptByLaunch(s, a);
    } else if a.Spawn? {
      SlotKeptBySpawn(s, a);
    } else if OfHandshake(a) {
      SlotKeptByHandshake(s, a);
    } else if a.Conclude? {
      SlotKeptByEnd(s, a);
    } else {
      SlotKeptByOthers(s, a);
    }
  }

  lemma SlotKeptByLaunch(s: State, a: Action)
    requires Inv(s) && Enabled(s, a) && OfLaunch(a)
    ensures SlotInv(Apply(s, a))
  {
    hide Finish, Close, EpochInv, CountInv;
  }

  lemma SlotKeptBySpawn(s: State, a: Action)
    requires Inv(s) && Enabled(s, a) && a.Spawn?
    ensures SlotInv(Apply(s, a))
  {
    hide Finish, Close, EpochInv, CountInv;
  }

  lemma SlotKeptByHandshake(s: State, a: Action)
    requires Inv(s) && Enabled(s, a) && OfHandshake(a)
    ensures SlotInv(Apply(s, a))
  {
    hide Finish, Close, EpochInv, CountInv;
  }

  lemma SlotKeptByEnd(s: State, a: Action)
    requires Inv(s) && Enabled(s, a) && a.Conclude?
    ensures SlotInv(Apply(s, a))
  {
    hide Finish, Close, EpochInv, CountInv;
  }

  lemma SlotKeptByOthers(s: State, a: Action)
    requires Inv(s) && Enabled(s, a) && !OfStart(a)
    ensures SlotInv(Apply(s, a))
  {
    hide Ensure, Find, Store, Close, Remaining, EpochInv, CountInv;
    if a.Capture? {
      EnsureSummary(s.sh, s.dead, s.alive, s.now, a.want, a.refusal, a.tid);
    }
  }

  lemma EpochKept(s: State, a: Action)
    requires Inv(s) && Enabled(s, a)
    ensures EpochInv(Apply(s, a))
  {
    hide Apply, Enabled, Inv, EpochInv;
    if a.Conclude? {
      EpochKeptAtTheEnd(s, a);
    } else if OfLaunch(a) {
      EpochKeptByLaunch(s, a);
    } else if a.Spawn? {
      EpochKeptBySpawn(s, a);
    } else if OfHandshake(a) {
      EpochKeptByHandshake(s, a);
    } else {
      EpochKeptByOthers(s, a);
    }
  }

  lemma EpochKeptAtTheEnd(s: State, a: Action)
    requires Inv(s) && Enabled(s, a) && a.Conclude?
    ensures EpochInv(Apply(s, a))
  {
    hide Close, ProcInv, RetiredInv, SlotInv, CountInv;
  }

  lemma EpochKeptByLaunch(s: State, a: Action)
    requires Inv(s) && Enabled(s, a) && OfLaunch(a)
    ensures EpochInv(Apply(s, a))
  {
    hide Close, ProcInv, RetiredInv, SlotInv, CountInv;
  }

  lemma EpochKeptBySpawn(s: State, a: Action)
    requires Inv(s) && Enabled(s, a) && a.Spawn?
    ensures EpochInv(Apply(s, a))
  {
    hide Close, ProcInv, RetiredInv, SlotInv, CountInv;
  }

  lemma EpochKeptByHandshake(s: State, a: Action)
    requires Inv(s) && Enabled(s, a) && OfHandshake(a)
    ensures EpochInv(Apply(s, a))
  {
    hide Close, ProcInv, RetiredInv, SlotInv, CountInv;
  }

  lemma EpochKeptByOthers(s: State, a: Action)
    requires Inv(s) && Enabled(s, a) && !OfStart(a)
    ensures EpochInv(Apply(s, a))
  {
    hide Ensure, Living, Find, Store, Close, Remaining,
         ProcInv, RetiredInv, SlotInv, CountInv;
    if a.Capture? {
      EnsureSummary(s.sh, s.dead, s.alive, s.now, a.want, a.refusal, a.tid);
    }
  }

  lemma StoreKeeps(counts: seq<Cached>, entry: Cached)
    requires |counts| <= COUNT_CACHE
    requires forall c <- counts :: c.digest == entry.digest
    requires forall i, j :: 0 <= i < j < |counts| ==> counts[i].sha != counts[j].sha
    ensures var r := Store(counts, entry);
            && |r| <= COUNT_CACHE && entry in r
            && (forall c <- r :: c == entry || c in counts)
            && (forall i, j :: 0 <= i < j < |r| ==> r[i].sha != r[j].sha)
            && (|counts| < COUNT_CACHE ==> forall c <- counts :: c in r || c.sha == entry.sha)
            && (forall i :: 1 <= i < |counts| ==> counts[i] in r || counts[i].sha == entry.sha)
  {
    var at := Find(counts, entry.digest, entry.sha);
    var all := if at < |counts| then counts[at := entry] else counts + [entry];
    hide Find;
    if at < |counts| {
      OneSha(counts, at);
      assert all[at] == entry;
    } else {
      assert forall c <- counts :: c.sha != entry.sha;
      assert all[|counts|] == entry;
    }
    PutKeeps(counts, entry, at, all);
    var r := Store(counts, entry);
    assert r == if |all| > COUNT_CACHE then all[1..] else all;
  }

  lemma OneSha(counts: seq<Cached>, at: nat)
    requires at < |counts| && forall i, j :: 0 <= i < j < |counts| ==> counts[i].sha != counts[j].sha
    ensures forall i :: 0 <= i < |counts| && i != at ==> counts[i].sha != counts[at].sha
  {
  }

  lemma PutKeeps(counts: seq<Cached>, entry: Cached, at: nat, all: seq<Cached>)
    requires at <= |counts| && all == if at < |counts| then counts[at := entry] else counts + [entry]
    requires forall i :: 0 <= i < |counts| && i != at ==> counts[i].sha != entry.sha
    requires forall i, j :: 0 <= i < j < |counts| ==> counts[i].sha != counts[j].sha
    ensures forall i, j :: 0 <= i < j < |all| ==> all[i].sha != all[j].sha
    ensures forall i :: 0 <= i < |counts| && i != at ==> all[i] == counts[i]
    ensures forall i :: 0 <= i < |all| ==> all[i] == entry || all[i] in counts
  {
    forall i, j | 0 <= i < j < |all|
      ensures all[i].sha != all[j].sha
    {
      assert i < |counts| && i != at ==> counts[i].sha != entry.sha;
      assert j < |counts| && j != at ==> counts[j].sha != entry.sha;
    }
  }

  lemma CountKept(s: State, a: Action)
    requires Inv(s) && Enabled(s, a)
    ensures CountInv(Apply(s, a))
  {
    var s' := Apply(s, a);
    if a.Capture? {
      EnsureSummary(s.sh, s.dead, s.alive, s.now, a.want, a.refusal, a.tid);
    } else if a.Answered? {
      AnswerKeeps(s, a.client, a.sha, a.count);
    } else if a.Look? {
      LookKeeps(s, a.client, a.sha);
    } else if a.Conclude? || a.Reset? {
      if s.sh.session.None? {
        NoCounts(s);
      }
    } else {
      assert s'.sh.counts == s.sh.counts && s'.sh.session == s.sh.session && s.given <= s'.given;
      forall c <- s'.sh.counts
        ensures IsAnswer(s', c)
      {
        assert IsAnswer(s, c);
      }
    }
  }

  lemma AnswerKeeps(s: State, client: SessionRef, sha: string, count: Option<nat>)
    requires Inv(s) && Enabled(s, Answered(client, sha, count))
    ensures CountInv(Apply(s, Answered(client, sha, count)))
  {
    var s' := Apply(s, Answered(client, sha, count));
    if Current(s.sh, s.dead, client) && count.Some? {
      var entry := Cached(client.digest, sha, count.value);
      forall c <- s.sh.counts
        ensures c.digest == client.digest
      {
        assert IsAnswer(s, c);
      }
      StoreKeeps(s.sh.counts, entry);
      forall c <- s'.sh.counts
        ensures IsAnswer(s', c)
      {
        if c != entry {
          assert IsAnswer(s, c);
        }
      }
    }
  }

  lemma NoCounts(s: State)
    requires CountInv(s) && s.sh.session.None?
    ensures s.sh.counts == []
  {
    assert s.sh.counts != [] ==> IsAnswer(s, s.sh.counts[0]);
  }

  lemma LookKeeps(s: State, client: SessionRef, sha: string)
    requires Inv(s)
    ensures CountInv(s.(sh := Lookup(s.sh, s.dead, client, sha).0))
  {
    var s' := s.(sh := Lookup(s.sh, s.dead, client, sha).0);
    var counts, counts' := s.sh.counts, s'.sh.counts;
    forall c <- counts'
      ensures IsAnswer(s', c)
    {
      assert c in counts;
      assert IsAnswer(s, c);
    }
  }

  lemma StepKeepsInv(s: State, a: Action)
    requires Inv(s) && Enabled(s, a)
    ensures Inv(Apply(s, a))
  {
    StarterKept(s, a);
    AloneKept(s, a);
    forall p | p in Apply(s, a).alive
      ensures Owned(Apply(s, a), p)
    {
      OwnedKept(s, a, p);
    }
    RetiredKept(s, a);
    SlotKept(s, a);
    EpochKept(s, a);
    CountKept(s, a);
  }

  // ---- runs ------------------------------------------------------------------------------------------------

  ghost predicate Run(run: seq<State>, actions: seq<Action>) {
    && |run| == |actions| + 1 && Init(run[0])
    && forall i :: 0 <= i < |actions| ==> Enabled(run[i], actions[i]) && run[i + 1] == Apply(run[i], actions[i])
  }

  lemma {:induction false} RunKeepsInv(run: seq<State>, actions: seq<Action>, i: nat)
    requires Run(run, actions) && i < |run|
    ensures Inv(run[i])
  {
    if i > 0 {
      RunKeepsInv(run, actions, i - 1);
      StepKeepsInv(run[i - 1], actions[i - 1]);
    }
  }

  // In every reachable state at most one helper process is alive, and somebody answers for it.
  lemma OneHelperNeverLost(run: seq<State>, actions: seq<Action>, i: nat)
    requires Run(run, actions) && i < |run|
    ensures |run[i].alive| <= 1
    ensures forall p :: p in run[i].alive ==> Owned(run[i], p)
  {
    RunKeepsInv(run, actions, i);
    var alive := run[i].alive;
    AtMostOne(alive);
  }

  // A published session is of the current epoch, hence of the current configuration and files; and its process was run
  // from, and given, files of those very identities.
  lemma PublishedIsCurrent(run: seq<State>, actions: seq<Action>, i: nat)
    requires Run(run, actions) && i < |run| && run[i].sh.session.Some?
    ensures var s, session := run[i], run[i].sh.session.value;
            && session.epoch == s.sh.epoch
            && s.sh.state == Some(Wanted(session.config, Some(session.keys)))
            && session.proc in s.spawned && s.spawned[session.proc] == session.keys
  {
    RunKeepsInv(run, actions, i);
  }

  // A count is returned, from the cache or fresh, only from the session current at that moment, alive, and it is an
  // answer that very session gave for that text.
  lemma CountsAreCurrent(run: seq<State>, actions: seq<Action>, i: nat, client: SessionRef, sha: string, n: nat)
    requires Run(run, actions) && i < |actions|
    requires || (actions[i] == Look(client, sha) && Lookup(run[i].sh, run[i].dead, client, sha).1 == Hit(n))
             || (exists count :: actions[i] == Answered(client, sha, count)
                                 && Publish(run[i].sh, run[i].dead, client, sha, count).1 == Some(n))
    ensures run[i].sh.session == Some(client) && client.proc !in run[i].dead
    ensures Given(client.proc, sha, n) in run[i].given
  {
    RunKeepsInv(run, actions, i);
    var s := run[i];
    if actions[i] == Look(client, sha) {
      var at := Find(s.sh.counts, client.digest, sha);
      assert IsAnswer(s, s.sh.counts[at]);
    }
  }

  // The cache is bounded in every state, and no entry outlives its session.
  lemma CacheIsBounded(run: seq<State>, actions: seq<Action>, i: nat)
    requires Run(run, actions) && i < |run|
    ensures |run[i].sh.counts| <= 4096
    ensures run[i].sh.session.None? ==> run[i].sh.counts == []
  {
    RunKeepsInv(run, actions, i);
    if run[i].sh.session.None? {
      NoCounts(run[i]);
    }
  }

  // No helper is alive but the published session's own, and no start is under way with its child unregistered.
  ghost predicate NothingLeft(s: State) {
    && (s.sh.starter.None? || s.sh.startingProc.Some?)
    && (forall p :: p in s.alive ==> s.sh.session.Some? && p == s.sh.session.value.proc)
  }

  // What reset reports is never more than one, and zero exactly when nothing is left.
  lemma ResetReport(run: seq<State>, actions: seq<Action>, i: nat)
    requires Run(run, actions) && i < |run|
    ensures var left := Remaining(Reap(run[i].sh, run[i].alive), run[i].alive);
            left <= 1 && (left == 0 <==> NothingLeft(run[i]))
  {
    RunKeepsInv(run, actions, i);
    RemainingIs(run[i]);
  }

  lemma AtMostOne(s: set<Proc>)
    requires forall p, q :: p in s && q in s ==> p == q
    ensures |s| <= 1
  {
    if s != {} {
      var p :| p in s;
      assert s == {p};
    }
  }

  // A process reset still counts: retired, or registered by a start, and alive.
  ghost predicate Counted(s: State, p: Proc) {
    p in s.alive && (p in s.sh.retired || s.sh.startingProc == Some(p))
  }

  // Alive and not counted is the session's, or a start's that has not registered it.
  lemma UncountedIs(s: State, p: Proc)
    requires Inv(s) && p in s.alive && !Counted(s, p)
    ensures (s.sh.session.Some? && p == s.sh.session.value.proc) || (s.sh.starter.Some? && s.sh.startingProc.None?)
  {
    assert Owned(s, p);
  }

  // A counted process is not the session's, and no unregistered start is under way beside it.
  lemma CountedIs(s: State, p: Proc)
    requires Inv(s) && Counted(s, p)
    ensures !NothingLeft(s) && (s.sh.starter.None? || s.sh.startingProc.Some?)
  {
    if s.sh.starter.Some? {
      assert s.sh.starter.value in s.starters;
    }
  }

  // The processes Remaining counts.
  function LiveOf(s: State): set<Proc> {
    var sh := Reap(s.sh, s.alive);
    var retired := set p | p in sh.retired;
    if sh.startingProc.Some? && sh.startingProc.value in s.alive then retired + {sh.startingProc.value} else retired
  }

  lemma LiveIs(s: State, p: Proc)
    ensures p in LiveOf(s) <==> Counted(s, p)
  {
  }

  lemma RemainingIs(s: State)
    requires Inv(s)
    ensures var left := Remaining(Reap(s.sh, s.alive), s.alive);
            left <= 1 && (left == 0 <==> NothingLeft(s))
  {
    var live := LiveOf(s);
    forall p
      ensures p in live <==> Counted(s, p)
    {
      LiveIs(s, p);
    }
    hide Owned, RetiredInv, SlotInv, EpochInv, CountInv, StarterInv;
    AtMostOne(live);
    if live != {} {
      var p :| p in live;
      CountedIs(s, p);
    } else {
      assert forall p :: p in s.alive ==> !Counted(s, p);
      forall p | p in s.alive
        ensures (s.sh.session.Some? && p == s.sh.session.value.proc) || (s.sh.starter.Some? && s.sh.startingProc.None?)
      {
        UncountedIs(s, p);
      }
    }
  }
}
