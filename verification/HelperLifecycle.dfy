/** The one helper process a counter may own (dream/core/context_counter.py, GgufHelperCounter) as a transition
    system: every block that holds `_lock` is one step, and so is everything the environment does between them (a
    process starts or exits, a session dies, the clock moves, a file or the configuration is another one). Any
    number of capturing threads, resets and start threads interleave. */
module HelperLifecycle {
  import opened Common

  type Proc = nat
  type Tid = nat
  type Reason = string
  // Device, inode, size, times, mode and owner of a file. Of one open file the later is never smaller: a write in place
  // moves its times on and never brings an old identity back.
  type FileKey = nat

  const RETRY_AFTER: nat := 60
  const COUNT_CACHE: nat := 4096

  datatype Keys = Keys(helper: FileKey, gguf: FileKey)
  datatype Wanted = Wanted(config: string, keys: Option<Keys>)
  datatype SessionRef = SessionRef(proc: Proc, epoch: nat, config: string, keys: Keys, digest: string)
  datatype Failure = Failure(reason: Reason, until: nat)
  datatype Cached = Cached(digest: string, sha: string, count: nat)

  // What `_lock` guards.
  datatype Shared = Shared(session: Option<SessionRef>, state: Option<Wanted>, starter: Option<Tid>,
                           startingProc: Option<Proc>, failure: Option<Failure>, epoch: nat, retired: seq<Proc>,
                           counts: seq<Cached>)

  // A start thread: what it was started for, and where it is in _start and _launch.
  datatype Job = Job(epoch: nat, config: string, keys: Keys)
  datatype Pc =
    | Checking                                                  // before the epoch check that precedes Popen
    | Cleared
    | Spawned(proc: Proc)                                       // running, not registered yet
    | Registered(proc: Proc)                                    // on record, the helper's file not looked at again yet
    | Awaiting(proc: Proc)                                      // waiting for the ready line
    | Discarding(proc: Proc, why: Reason)                       // shut, not retired yet
    | Finishing(result: Option<SessionRef>, reason: Reason)
  // held: the identities the files it has open have now
  datatype Start = Start(job: Job, pc: Pc, held: Keys)

  datatype Given = Given(proc: Proc, sha: string, count: nat)

  // spawned: the identities of the files each process was run from and given, at that moment
  datatype State = State(sh: Shared, starters: map<Tid, Start>, alive: set<Proc>, spawned: map<Proc, Keys>,
                         dead: map<Proc, Reason>, given: set<Given>, now: nat)

  // ---- the blocks that hold the lock -----------------------------------------------------------------------

  function Living(procs: seq<Proc>, alive: set<Proc>): (r: seq<Proc>)
    ensures forall p :: p in r <==> p in procs && p in alive
  {
    if |procs| == 0 then []
    else (if procs[0] in alive then [procs[0]] else []) + Living(procs[1..], alive)
  }

  function Reap(sh: Shared, alive: set<Proc>): Shared { sh.(retired := Living(sh.retired, alive)) }

  function Drop(sh: Shared): Shared {
    sh.(epoch := sh.epoch + 1, failure := None, counts := [], session := None,
        retired := if sh.session.Some? then sh.retired + [sh.session.value.proc] else sh.retired)
  }

  // _Session.close, as one step: a session that is not dead dies. What its own threads race over is SessionClose's
  // subject; Die may give a session any reason at any time.
  function Close(dead: map<Proc, Reason>, session: Option<SessionRef>): map<Proc, Reason> {
    if session.Some? && session.value.proc !in dead then dead[session.value.proc := "counter_closed"] else dead
  }

  datatype Reply = Use(session: SessionRef) | Refused(reason: Reason)
  datatype Ensured = Ensured(sh: Shared, dead: map<Proc, Reason>, reply: Reply, job: Option<Job>)

  // _ensure's locked block: first, whether what is wanted is what there is.
  function Refresh(sh: Shared, dead: map<Proc, Reason>, alive: set<Proc>, want: Wanted): (Shared, map<Proc, Reason>) {
    var sh0 := Reap(sh, alive);
    if sh0.state != Some(want) then (Drop(sh0).(state := Some(want)), Close(dead, sh0.session)) else (sh0, dead)
  }

  // With no session: whether a start is ordered, and why not.
  function Order(sh2: Shared, dead1: map<Proc, Reason>, alive: set<Proc>, now: nat, config: string, keys: Keys, tid: Tid)
    : Ensured
  {
    if sh2.starter.Some? then Ensured(sh2, dead1, Refused("counter_helper_starting"), None)
    else if sh2.failure.Some? && now < sh2.failure.value.until
    then Ensured(sh2, dead1, Refused(sh2.failure.value.reason), None)
    else
      var sh3 := Reap(sh2.(failure := None), alive);
      if |sh3.retired| > 0 then Ensured(sh3, dead1, Refused("counter_helper_stopping"), None)
      else Ensured(sh3.(starter := Some(tid)), dead1, Refused("counter_helper_starting"),
                   Some(Job(sh3.epoch, config, keys)))
  }

  // The whole block. `reason` is why the files could not be read, when they could not.
  function Ensure(sh: Shared, dead: map<Proc, Reason>, alive: set<Proc>, now: nat, want: Wanted, reason: Reason,
                  tid: Tid): Ensured
  {
    var (sh1, dead1) := Refresh(sh, dead, alive, want);
    if want.keys.None? then Ensured(sh1, dead1, Refused(reason), None)
    else if sh1.session.Some? && sh1.session.value.proc !in dead1
    then Ensured(sh1, dead1, Use(sh1.session.value), None)
    else
      var sh2 := if sh1.session.None? then sh1
                 else sh1.(session := None, retired := sh1.retired + [sh1.session.value.proc],
                           failure := Some(Failure(dead1[sh1.session.value.proc], now + RETRY_AFTER)), counts := []);
      Order(sh2, dead1, alive, now, want.config, want.keys.value, tid)
  }

  // _start's last block
  function Finish(sh: Shared, job: Job, result: Option<SessionRef>, reason: Reason, now: nat): Shared {
    var sh0 := sh.(starter := None, startingProc := None);
    if sh.epoch != job.epoch then
      if result.Some? then sh0.(retired := sh0.retired + [result.value.proc]) else sh0
    else if result.Some? then sh0.(session := result)
    else sh0.(failure := Some(Failure(reason, now + RETRY_AFTER)))
  }

  function Find(counts: seq<Cached>, digest: string, sha: string): (at: nat)
    ensures at <= |counts|
    ensures at < |counts| ==> counts[at].digest == digest && counts[at].sha == sha
    ensures forall i :: 0 <= i < at ==> !(counts[i].digest == digest && counts[i].sha == sha)
  {
    if |counts| == 0 || (counts[0].digest == digest && counts[0].sha == sha) then 0
    else 1 + Find(counts[1..], digest, sha)
  }

  function Current(sh: Shared, dead: map<Proc, Reason>, client: SessionRef): bool {
    sh.session == Some(client) && client.proc !in dead
  }

  function Gone(dead: map<Proc, Reason>, client: SessionRef): Reason {
    if client.proc in dead then dead[client.proc] else "counter_closed"
  }

  datatype Looked = Hit(count: nat) | Ask | Lost(reason: Reason)

  // _count's first block
  function Lookup(sh: Shared, dead: map<Proc, Reason>, client: SessionRef, sha: string): (Shared, Looked) {
    if !Current(sh, dead, client) then (sh, Lost(Gone(dead, client)))
    else
      var at := Find(sh.counts, client.digest, sha);
      if at == |sh.counts| then (sh, Ask)
      else (sh.(counts := sh.counts[..at] + sh.counts[at + 1..] + [sh.counts[at]]), Hit(sh.counts[at].count))
  }

  function Store(counts: seq<Cached>, entry: Cached): seq<Cached> {
    var at := Find(counts, entry.digest, entry.sha);
    var all := if at < |counts| then counts[at := entry] else counts + [entry];
    if |all| > COUNT_CACHE then all[|all| - COUNT_CACHE..] else all
  }

  // _count's second block: the helper answered `count` (None: it did not), and the session may have gone meanwhile
  function Publish(sh: Shared, dead: map<Proc, Reason>, client: SessionRef, sha: string, count: Option<nat>)
    : (Shared, Option<nat>)
  {
    if !Current(sh, dead, client) then (sh, None)
    else if count.None? then (sh, None)
    else (sh.(counts := Store(sh.counts, Cached(client.digest, sha, count.value))), count)
  }

  // What reset returns, in its last block (after reaping)
  function Remaining(sh: Shared, alive: set<Proc>): nat {
    var retired := set p | p in sh.retired;
    var live := if sh.startingProc.Some? && sh.startingProc.value in alive then retired + {sh.startingProc.value}
                else retired;
    |live| + if sh.starter.Some? && sh.startingProc.None? then 1 else 0
  }

  // ---- steps -----------------------------------------------------------------------------------------------

  datatype Action =
    | Tick(time: nat)
    | Exit(proc: Proc)
    | Die(proc: Proc, why: Reason)
    | Give(answer: Given)
    | Capture(want: Wanted, refusal: Reason, tid: Tid)
    | Reset
    | ReapOnly
    | Check(t: Tid, seen: Keys, fault: Option<Reason>)
    | Written(t: Tid, held: Keys)               // a file the start has open is written in place
    | Spawn(t: Tid, child: Option<Proc>)
    | Register(t: Tid)
    | Vet(t: Tid, fault: Option<Reason>)
    | Ready(t: Tid, digest: string, fault: Option<Reason>)
    | Discard(t: Tid)
    | Conclude(t: Tid)
    | Look(client: SessionRef, sha: string)
    | Answered(client: SessionRef, sha: string, count: Option<nat>)

  predicate NotBefore(k: Keys, l: Keys) { k.helper <= l.helper && k.gguf <= l.gguf }

  ghost predicate Enabled(s: State, a: Action) {
    match a
    case Tick(time) => s.now <= time
    case Exit(p) => p in s.alive
    case Capture(_, _, t) => t !in s.starters
    case Check(t, _, _) => t in s.starters && s.starters[t].pc.Checking?
    case Spawn(t, child) => t in s.starters && s.starters[t].pc.Cleared? && (child.Some? ==> child.value !in s.spawned)
    case Written(t, held) => t in s.starters && NotBefore(s.starters[t].held, held)
    case Register(t) => t in s.starters && s.starters[t].pc.Spawned?
    case Vet(t, _) => t in s.starters && s.starters[t].pc.Registered?
    case Ready(t, _, _) => t in s.starters && s.starters[t].pc.Awaiting?
    case Discard(t) => t in s.starters && s.starters[t].pc.Discarding?
    case Conclude(t) => t in s.starters && s.starters[t].pc.Finishing?
    case Answered(client, sha, count) => count.Some? ==> Given(client.proc, sha, count.value) in s.given
    case _ => true
  }

  function To(s: State, t: Tid, pc: Pc): State
    requires t in s.starters
  {
    s.(starters := s.starters[t := s.starters[t].(pc := pc)])
  }

  function Apply(s: State, a: Action): State
    requires Enabled(s, a)
  {
    match a
    case Tick(time) => s.(now := time)
    case Exit(p) => s.(alive := s.alive - {p})
    case Die(p, why) => s.(dead := s.dead[p := why])
    case Give(answer) => s.(given := s.given + {answer})
    case Capture(want, refusal, t) =>
      var e := Ensure(s.sh, s.dead, s.alive, s.now, want, refusal, t);
      s.(sh := e.sh, dead := e.dead,
         starters := if e.job.Some? then s.starters[t := Start(e.job.value, Checking, e.job.value.keys)] else s.starters)
    case Reset => s.(sh := Drop(s.sh).(state := None), dead := Close(s.dead, s.sh.session))
    case ReapOnly => s.(sh := Reap(s.sh, s.alive))
    case Check(t, seen, fault) =>
      var job := s.starters[t].job;
      if fault.Some? then To(s, t, Finishing(None, fault.value))
      else if seen != job.keys then To(s, t, Finishing(None, "counter_source_changed"))
      else if s.sh.epoch != job.epoch then To(s, t, Finishing(None, "counter_closed"))
      else s.(starters := s.starters[t := Start(job, Cleared, seen)])
    case Written(t, held) => s.(starters := s.starters[t := s.starters[t].(held := held)])
    case Spawn(t, child) =>
      if child.None? then To(s, t, Finishing(None, "counter_helper_failed"))
      else To(s, t, Spawned(child.value)).(alive := s.alive + {child.value},
                                           spawned := s.spawned[child.value := s.starters[t].held])
    case Register(t) =>
      var job, p := s.starters[t].job, s.starters[t].pc.proc;
      To(s, t, if s.sh.epoch != job.epoch then Discarding(p, "counter_closed") else Registered(p))
        .(sh := s.sh.(startingProc := Some(p)))
    case Vet(t, fault) =>
      var job, p := s.starters[t].job, s.starters[t].pc.proc;
      To(s, t, if fault.Some? then Discarding(p, fault.value)
               else if s.starters[t].held.helper != job.keys.helper then Discarding(p, "counter_source_changed")
               else Awaiting(p))
    case Ready(t, digest, fault) =>
      var job, p := s.starters[t].job, s.starters[t].pc.proc;
      To(s, t, if fault.Some? then Discarding(p, fault.value)
               else if s.starters[t].held.gguf != job.keys.gguf then Discarding(p, "counter_source_changed")
               else Finishing(Some(SessionRef(p, job.epoch, job.config, job.keys, digest)), ""))
    case Discard(t) =>
      var pc := s.starters[t].pc;
      To(s, t, Finishing(None, pc.why)).(sh := s.sh.(retired := s.sh.retired + [pc.proc]))
    case Conclude(t) =>
      var job, pc := s.starters[t].job, s.starters[t].pc;
      s.(sh := Finish(s.sh, job, pc.result, pc.reason, s.now), starters := s.starters - {t},
         dead := if s.sh.epoch != job.epoch then Close(s.dead, pc.result) else s.dead)
    case Look(client, sha) => s.(sh := Lookup(s.sh, s.dead, client, sha).0)
    case Answered(client, sha, count) => s.(sh := Publish(s.sh, s.dead, client, sha, count).0)
  }

  ghost predicate Init(s: State) {
    && s.sh == Shared(None, None, None, None, None, 0, [], [])
    && s.starters == map[] && s.alive == {} && s.spawned == map[] && s.dead == map[] && s.given == {}
  }

  // ---- the invariant ---------------------------------------------------------------------------------------

  // The process a start thread answers for by itself.
  function Own(pc: Pc): set<Proc> {
    match pc
    case Spawned(p) => {p}
    case Registered(p) => {p}
    case Awaiting(p) => {p}
    case Discarding(p, _) => {p}
    case Finishing(result, _) => if result.Some? then {result.value.proc} else {}
    case _ => {}
  }

  // A process someone answers for: the session's, a retired one, or the running starter's.
  ghost predicate Owned(s: State, p: Proc) {
    || (s.sh.session.Some? && s.sh.session.value.proc == p)
    || p in s.sh.retired
    || (s.sh.starter.Some? && s.sh.starter.value in s.starters && p in Own(s.starters[s.sh.starter.value].pc))
  }

  // At most one start thread, the one in the slot; no session while it runs.
  ghost predicate StarterInv(s: State) {
    && s.starters.Keys == (if s.sh.starter.Some? then {s.sh.starter.value} else {})
    && (s.sh.starter.Some? ==> s.sh.session.None?)
    && (s.sh.starter.None? ==> s.sh.startingProc.None?)
  }

  // Until it has given its process away, a start thread's is the only one.
  predicate Exclusive(pc: Pc, alive: set<Proc>) {
    (pc.Finishing? && pc.result.None?) || alive <= Own(pc)
  }

  ghost predicate ProcInv(s: State) {
    && (forall p :: p in s.alive ==> Owned(s, p))
    && (forall p, q :: p in s.alive && q in s.alive ==> p == q)
    && (forall t :: t in s.starters ==> Exclusive(s.starters[t].pc, s.alive))
    && s.alive <= s.spawned.Keys
  }

  // Nobody answers for a process twice over: what is retired is neither the session's nor a start's own.
  ghost predicate RetiredInv(s: State) {
    && (forall p <- s.sh.retired :: p in s.spawned)
    && (s.sh.session.Some? ==> s.sh.session.value.proc !in s.sh.retired)
    && (forall t :: t in s.starters ==>
          forall p <- Own(s.starters[t].pc) :: p in s.spawned && p !in s.sh.retired)
  }

  // The slot names the starter's own process, or one it has retired.
  ghost predicate SlotInv(s: State) {
    forall t :: t in s.starters ==>
      match s.starters[t].pc
      case Checking | Cleared | Spawned(_) => s.sh.startingProc.None?
      case Registered(p) => s.sh.startingProc == Some(p)
      case Awaiting(p) => s.sh.startingProc == Some(p)
      case Discarding(p, _) => s.sh.startingProc == Some(p)
      case Finishing(result, _) =>
        if result.Some? then s.sh.startingProc == Some(result.value.proc)
        else if s.sh.startingProc.None? then s.alive == {}
        else s.sh.startingProc.value in s.sh.retired || s.sh.startingProc.value !in s.alive
  }

  // What was launched, for which configuration and files, and under which epoch.
  ghost predicate Launched(s: State, session: SessionRef) {
    session.proc in s.spawned && s.spawned[session.proc] == session.keys
  }

  ghost predicate JobInv(s: State, start: Start) {
    && start.job.epoch <= s.sh.epoch
    && (start.job.epoch == s.sh.epoch ==> s.sh.state == Some(Wanted(start.job.config, Some(start.job.keys))))
    && (start.pc.Cleared? ==> NotBefore(start.job.keys, start.held))
    && (start.pc.Spawned? || start.pc.Registered? || start.pc.Awaiting? ==>
          && start.pc.proc in s.spawned
          && NotBefore(start.job.keys, s.spawned[start.pc.proc]) && NotBefore(s.spawned[start.pc.proc], start.held)
          && (start.pc.Awaiting? ==> s.spawned[start.pc.proc].helper == start.job.keys.helper))
    && (start.pc.Finishing? && start.pc.result.Some? ==>
          var session := start.pc.result.value;
          Launched(s, session) && start.job == Job(session.epoch, session.config, session.keys))
  }

  ghost predicate EpochInv(s: State) {
    && (forall t :: t in s.starters ==> JobInv(s, s.starters[t]))
    && (s.sh.session.Some? ==>
          var session := s.sh.session.value;
          && Launched(s, session)
          && session.epoch == s.sh.epoch
          && s.sh.state == Some(Wanted(session.config, Some(session.keys))))
  }

  // A remembered count is the current session's own answer for that text.
  ghost predicate IsAnswer(s: State, entry: Cached) {
    && s.sh.session.Some? && entry.digest == s.sh.session.value.digest
    && Given(s.sh.session.value.proc, entry.sha, entry.count) in s.given
  }

  ghost predicate CountInv(s: State) {
    && |s.sh.counts| <= COUNT_CACHE
    && (forall entry <- s.sh.counts :: IsAnswer(s, entry))
    && (forall i, j :: 0 <= i < j < |s.sh.counts| ==> s.sh.counts[i].sha != s.sh.counts[j].sha)
  }

  ghost predicate Inv(s: State) {
    StarterInv(s) && ProcInv(s) && RetiredInv(s) && SlotInv(s) && EpochInv(s) && CountInv(s)
  }
}
