/** GgufHelperCounter's own fields and the blocks that update them with `_lock` held
    (dream/core/context_counter.py): each is the step HelperLifecycle takes. */
module HelperCounter {
  import opened Common
  import opened HelperLifecycle

  class GgufHelperCounter {
    var session: Option<SessionRef>
    var state: Option<Wanted>
    var starter: Option<Tid>
    var startingProc: Option<Proc>
    var failure: Option<Failure>
    var epoch: nat
    var retired: seq<Proc>
    var counts: seq<Cached>
    var starts: nat
    var dead: map<Proc, Reason>     // each session's own flag

    ghost function View(): Shared
      reads this
    {
      Shared(session, state, starter, startingProc, failure, epoch, retired, counts)
    }

    constructor ()
      ensures View() == Shared(None, None, None, None, None, 0, [], []) && dead == map[] && starts == 0
    {
      session, state, starter, startingProc, failure := None, None, None, None, None;
      epoch, retired, counts, starts, dead := 0, [], [], 0, map[];
    }

    method Reap(alive: set<Proc>)
      modifies this`retired
      ensures View() == HelperLifecycle.Reap(old(View()), alive)
    {
      var left: seq<Proc> := [];
      for i := 0 to |retired|
        invariant Living(retired, alive) == left + Living(retired[i..], alive)
      {
        assert retired[i..][1..] == retired[i + 1..];
        if retired[i] in alive {
          left := left + [retired[i]];
        }
      }
      retired := left;
    }

    method Drop()
      modifies this`epoch, this`failure, this`counts, this`session, this`dead, this`retired
      ensures View() == HelperLifecycle.Drop(old(View()))
      ensures dead == Close(old(dead), old(session))
    {
      epoch, failure, counts := epoch + 1, None, [];
      var was := session;
      session := None;
      if was.Some? {
        if was.value.proc !in dead {
          dead := dead[was.value.proc := "counter_closed"];
        }
        retired := retired + [was.value.proc];
      }
    }

    // The first part of _ensure's block
    method Refresh(want: Wanted, alive: set<Proc>)
      modifies this
      ensures (View(), dead) == HelperLifecycle.Refresh(old(View()), old(dead), alive, want)
      ensures starts == old(starts)
    {
      Reap(alive);
      if state != Some(want) {
        Drop();
        state := Some(want);
      }
    }

    // _ensure's block: a session, or why there is none and whether a start thread was started (under `tid`).
    method Ensure(want: Wanted, reason: Reason, now: nat, alive: set<Proc>, tid: Tid)
      returns (reply: Reply, job: Option<Job>)
      modifies this
      ensures var e := HelperLifecycle.Ensure(old(View()), old(dead), alive, now, want, reason, tid);
              View() == e.sh && dead == e.dead && reply == e.reply && job == e.job
      ensures starts == old(starts)
    {
      hide HelperLifecycle.Refresh, Order;
      Refresh(want, alive);
      if want.keys.None? {
        return Refused(reason), None;
      }
      if session.Some? {
        var live := session.value;
        if live.proc !in dead {
          return Use(live), None;
        }
        session, retired := None, retired + [live.proc];
        failure, counts := Some(Failure(dead[live.proc], now + RETRY_AFTER)), [];
      }
      reply, job := StartUnless(want.config, want.keys.value, now, alive, tid);
    }

    // Its last part, with no session to hand out
    method StartUnless(config: string, keys: Keys, now: nat, alive: set<Proc>, tid: Tid)
      returns (reply: Reply, job: Option<Job>)
      modifies this`failure, this`retired, this`starter
      ensures var e := Order(old(View()), dead, alive, now, config, keys, tid);
              View() == e.sh && dead == e.dead && reply == e.reply && job == e.job
    {
      if starter.Some? {
        return Refused("counter_helper_starting"), None;
      }
      if failure.Some? {
        if now < failure.value.until {
          return Refused(failure.value.reason), None;
        }
        failure := None;
      }
      Reap(alive);
      if retired != [] {
        return Refused("counter_helper_stopping"), None;
      }
      starter := Some(tid);
      return Refused("counter_helper_starting"), Some(Job(epoch, config, keys));
    }

    // _launch, once Popen has returned: the child is on record before anything is asked of it.
    method Register(job: Job, proc: Proc) returns (current: bool)
      modifies this`starts, this`startingProc
      ensures View() == old(View()).(startingProc := Some(proc)) && starts == old(starts) + 1
      ensures current <==> epoch == job.epoch
    {
      starts, startingProc := starts + 1, Some(proc);
      current := epoch == job.epoch;
    }

    // _start's last block
    method Finish(job: Job, result: Option<SessionRef>, reason: Reason, now: nat)
      modifies this
      ensures View() == HelperLifecycle.Finish(old(View()), job, result, reason, now)
      ensures dead == if epoch != job.epoch then Close(old(dead), result) else old(dead)
      ensures starts == old(starts)
    {
      starter, startingProc := None, None;
      if epoch != job.epoch {
        if result.Some? {
          if result.value.proc !in dead {
            dead := dead[result.value.proc := "counter_closed"];
          }
          retired := retired + [result.value.proc];
        }
      } else if result.Some? {
        session := result;
      } else {
        failure := Some(Failure(reason, now + RETRY_AFTER));
      }
    }

    method IndexOf(digest: string, sha: string) returns (at: nat)
      ensures at == Find(counts, digest, sha)
    {
      at := 0;
      while at < |counts| && !(counts[at].digest == digest && counts[at].sha == sha)
        invariant at <= |counts|
        invariant Find(counts, digest, sha) == at + Find(counts[at..], digest, sha)
      {
        assert counts[at..][1..] == counts[at + 1..];
        at := at + 1;
      }
    }

    // _count's first block: a remembered count moves to the newest place.
    method Lookup(client: SessionRef, sha: string) returns (found: Looked)
      modifies this`counts
      ensures (View(), found) == HelperLifecycle.Lookup(old(View()), dead, client, sha)
    {
      if session != Some(client) || client.proc in dead {
        return Lost(if client.proc in dead then dead[client.proc] else "counter_closed");
      }
      var at := IndexOf(client.digest, sha);
      if at == |counts| {
        return Ask;
      }
      found := Hit(counts[at].count);
      counts := counts[..at] + counts[at + 1..] + [counts[at]];
    }

    // The oldest go first.
    method Evict()
      modifies this`counts
      ensures counts == var all := old(counts); if |all| > COUNT_CACHE then all[|all| - COUNT_CACHE..] else all
    {
      ghost var all := counts;
      while |counts| > COUNT_CACHE
        invariant |counts| <= |all| && counts == all[|all| - |counts|..]
        invariant if |all| > COUNT_CACHE then |counts| >= COUNT_CACHE else counts == all
      {
        counts := counts[1..];
      }
    }

    // _count's second block: what the helper answered is kept and returned only if its session is still the one.
    method Publish(client: SessionRef, sha: string, count: Option<nat>) returns (answer: Option<nat>)
      modifies this`counts
      ensures (View(), answer) == HelperLifecycle.Publish(old(View()), dead, client, sha, count)
    {
      if session != Some(client) || client.proc in dead {
        return None;
      }
      if count.Some? {
        var entry := Cached(client.digest, sha, count.value);
        var at := IndexOf(client.digest, sha);
        counts := if at < |counts| then counts[at := entry] else counts + [entry];
        Evict();
      }
      return count;
    }

    // reset's first block
    method Reset()
      modifies this
      ensures View() == HelperLifecycle.Drop(old(View())).(state := None)
      ensures dead == Close(old(dead), old(session)) && starts == old(starts)
    {
      Drop();
      state := None;
    }

    // reset's last block: how many helpers are still there, a start that has no child yet counted as one.
    method Report(alive: set<Proc>) returns (left: nat)
      modifies this`retired
      ensures View() == HelperLifecycle.Reap(old(View()), alive)
      ensures left == Remaining(View(), alive)
    {
      Reap(alive);
      var live := set p | p in retired;
      if startingProc.Some? && startingProc.value in alive {
        live := live + {startingProc.value};
      }
      left := |live| + if starter.Some? && startingProc.None? then 1 else 0;
    }
  }
}
