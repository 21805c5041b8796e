/** What a checkpoint records and what restoring it does to the workspace (dream/core/checkpoints.py: _observe,
    _current, restore, _put_back). The workspace maps paths to what is there; a path not in it is absent. A SHA-256
    is the free injective function of the contents: the constructor Sha. */
module Checkpoints {
  import opened Common

  type Bytes = seq<Byte>

  datatype Path = Path(dir: string, name: string)
  datatype Node = Regular(bytes: Bytes, mode: nat) | Other      // Other: a directory, a symlink, a device
  type Files = map<Path, Node>

  // A file's state as it is compared: every content past the limit is the one token Oversize.
  datatype Sum = Sha(content: Bytes) | Oversize

  datatype Entry =
    | Skip(path: Path)
    | Kept(path: Path, before: Option<Bytes>, mode: nat, after: Option<Option<Sum>>)
    // before: whose SHA-256 is recorded, None when nothing was there; after: None until sealed

  function Current(files: Files, p: Path, maxBytes: nat): Option<Sum> {
    if p !in files || files[p].Other? then None
    else if |files[p].bytes| > maxBytes then Some(Oversize)
    else Some(Sha(files[p].bytes))
  }

  function BeforeSum(e: Entry): Option<Sum>
    requires e.Kept?
  {
    if e.before.None? then None else Some(Sha(e.before.value))
  }

  // What take records of a path; `unreadable` are the paths whose read fails.
  function Observe(files: Files, unreadable: set<Path>, p: Path, maxBytes: nat): Entry {
    if p !in files then Kept(p, None, 0, None)
    else if files[p].Other? || |files[p].bytes| > maxBytes || p in unreadable then Skip(p)
    else Kept(p, Some(files[p].bytes), files[p].mode, None)
  }

  function Sealed(files: Files, unreadable: set<Path>, e: Entry, maxBytes: nat): Entry {
    if e.Skip? then e
    else e.(after := if e.path in unreadable then None else Some(Current(files, e.path, maxBytes)))
  }

  function SealAll(files: Files, unreadable: set<Path>, entries: seq<Entry>, maxBytes: nat): (r: seq<Entry>)
    ensures |r| == |entries|
    ensures forall i :: 0 <= i < |r| ==> r[i] == Sealed(files, unreadable, entries[i], maxBytes)
  {
    if |entries| == 0 then []
    else [Sealed(files, unreadable, entries[0], maxBytes)] + SealAll(files, unreadable, entries[1..], maxBytes)
  }

  // ---- restoring -------------------------------------------------------------------------------------------

  // Where a restored file is written before it is moved into place.
  function Scratch(p: Path): Path { Path(p.dir, "." + p.name + ".dream-restore") }

  lemma ScratchIsOther(p: Path, q: Path)
    ensures Scratch(p) != p
    ensures Scratch(p) == Scratch(q) ==> p == q
  {
    assert |Scratch(p).name| == |p.name| + 15;
    var a, b := Scratch(p).name, Scratch(q).name;
    assert a[1..|a| - 14] == p.name && b[1..|b| - 14] == q.name;
  }

  // How an operating-system error may cut one entry's restore short; `Torn` leaves part of the scratch file.
  datatype Fault = Sound | NoRead | NoUnlink | NoWrite | Torn(partial: Bytes) | NoChmod | NoReplace

  // Why an entry is skipped: it holds no snapshot, something other than a file is there, it was never sealed, the file
  // is another one than Dream left, the contents are missing from the store, or the operating system refused.
  datatype Why = Unrecorded | NotAFile | Unsealed | Edited | Missing | Failed

  datatype Outcome = Restored | Deleted | Unchanged | Skipped(why: Why)

  datatype Step = Step(files: Files, outcome: Outcome)

  const FRESH_MODE: nat := 0x1a4      // what a new scratch file gets before its chmod

  function PutBack(files: Files, p: Path, data: Bytes, mode: nat, fault: Fault): Step {
    var s := Scratch(p);
    var left := if s in files && files[s].Regular? then files[s].mode else FRESH_MODE;
    if fault.NoWrite? || (s in files && files[s].Other?) then Step(files, Skipped(Failed))
    else if fault.Torn? then Step(files[s := Regular(fault.partial, left)], Skipped(Failed))
    else if fault.NoChmod? then Step(files[s := Regular(data, left)], Skipped(Failed))
    else if fault.NoReplace? then Step(files[s := Regular(data, mode)], Skipped(Failed))
    else Step((files - {s})[p := Regular(data, mode)], Restored)
  }

  // Restoring one entry. `blobs` are the contents the store still has.
  function RestoreEntry(files: Files, blobs: set<Bytes>, e: Entry, force: bool, fault: Fault, maxBytes: nat): Step {
    if e.Skip? then Step(files, Skipped(Unrecorded))
    else if e.path in files && files[e.path].Other? then Step(files, Skipped(NotAFile))
    else
      var now := Current(files, e.path, maxBytes);
      if fault.NoRead? && e.path in files then Step(files, Skipped(Failed))
      else if now == BeforeSum(e) then Step(files, Unchanged)
      else if !force && e.after.None? then Step(files, Skipped(Unsealed))
      else if !force && e.after.value != now then Step(files, Skipped(Edited))
      else if e.before.None? then
        if fault.NoUnlink? then Step(files, Skipped(Failed)) else Step(files - {e.path}, Deleted)
      else if e.before.value !in blobs then Step(files, Skipped(Missing))
      else PutBack(files, e.path, e.before.value, e.mode, fault)
  }

  function FaultAt(faults: map<Path, Fault>, p: Path): Fault { if p in faults then faults[p] else Sound }

  datatype Run = Run(files: Files, outcomes: seq<Outcome>)

  function RestoreAll(files: Files, blobs: set<Bytes>, entries: seq<Entry>, force: bool, faults: map<Path, Fault>,
                      maxBytes: nat): (r: Run)
    ensures |r.outcomes| == |entries|
  {
    if |entries| == 0 then Run(files, [])
    else
      var e := entries[|entries| - 1];
      var run := RestoreAll(files, blobs, entries[..|entries| - 1], force, faults, maxBytes);
      var step := RestoreEntry(run.files, blobs, e, force, FaultAt(faults, e.path), maxBytes);
      Run(step.files, run.outcomes + [step.outcome])
  }

  // ---- one path at a time ----------------------------------------------------------------------------------

  function At(files: Files, p: Path): Option<Node> { if p in files then Some(files[p]) else None }

  predicate IsOther(files: Files, p: Path) { At(files, p) == Some(Other) }

  function SumOf(node: Option<Node>, maxBytes: nat): Option<Sum> {
    if node.None? || node.value.Other? then None
    else if |node.value.bytes| > maxBytes then Some(Oversize) else Some(Sha(node.value.bytes))
  }

  // What becomes of the node at an entry's own path. `blocked`: something other than a file has the staging name.
  function ResultAt(node: Option<Node>, blocked: bool, blobs: set<Bytes>, e: Entry, force: bool, fault: Fault,
                    maxBytes: nat): Option<Node>
  {
    if e.Skip? || node == Some(Other) || (fault.NoRead? && node.Some?) then node
    else if SumOf(node, maxBytes) == BeforeSum(e) then node
    else if !force && e.after != Some(SumOf(node, maxBytes)) then node
    else if e.before.None? then if fault.NoUnlink? then node else None
    else if e.before.value !in blobs || blocked then node
    else if fault.Sound? || fault.NoUnlink? || fault.NoRead? then Some(Regular(e.before.value, e.mode))
    else node
  }

  ghost predicate Distinct(entries: seq<Entry>) {
    forall i, j :: 0 <= i < j < |entries| ==> entries[i].path != entries[j].path
  }

  // No recorded file is staged at p.
  ghost predicate NotStaging(entries: seq<Entry>, p: Path) { forall e <- entries :: Scratch(e.path) != p }

  ghost predicate NotRecorded(entries: seq<Entry>, p: Path) { forall e <- entries :: e.path != p }

  lemma EntryAt(files: Files, blobs: set<Bytes>, e: Entry, force: bool, fault: Fault, maxBytes: nat)
    ensures At(RestoreEntry(files, blobs, e, force, fault, maxBytes).files, e.path)
         == ResultAt(At(files, e.path), IsOther(files, Scratch(e.path)), blobs, e, force, fault, maxBytes)
  {
    ScratchIsOther(e.path, e.path);
    assert Current(files, e.path, maxBytes) == SumOf(At(files, e.path), maxBytes);
  }

  lemma EntryFrame(files: Files, blobs: set<Bytes>, e: Entry, force: bool, fault: Fault, maxBytes: nat, q: Path)
    ensures var files' := RestoreEntry(files, blobs, e, force, fault, maxBytes).files;
            && (q != e.path && q != Scratch(e.path) ==> At(files', q) == At(files, q))
            && (IsOther(files', q) <==> IsOther(files, q))
  {
    ScratchIsOther(e.path, q);
  }

  // Whatever fails and however much is forced, a path that is not recorded is left alone, save a staging name; and
  // nothing but a file is ever made or removed.
  lemma {:induction false} RestoreFrame(files: Files, blobs: set<Bytes>, entries: seq<Entry>, force: bool,
                                        faults: map<Path, Fault>, maxBytes: nat, q: Path)
    ensures var files' := RestoreAll(files, blobs, entries, force, faults, maxBytes).files;
            && (NotRecorded(entries, q) && NotStaging(entries, q) ==> At(files', q) == At(files, q))
            && (IsOther(files', q) <==> IsOther(files, q))
    decreases |entries|
  {
    if |entries| > 0 {
      var rest, e := entries[..|entries| - 1], entries[|entries| - 1];
      RestoreFrame(files, blobs, rest, force, faults, maxBytes, q);
      EntryFrame(RestoreAll(files, blobs, rest, force, faults, maxBytes).files, blobs, e, force,
                 FaultAt(faults, e.path), maxBytes, q);
      assert e in entries && forall d <- rest :: d in entries;
    }
  }

  // A recorded path ends as its own entry says, when no other recorded file is staged there.
  lemma {:induction false} RestoreAt(files: Files, blobs: set<Bytes>, entries: seq<Entry>, force: bool,
                                     faults: map<Path, Fault>, maxBytes: nat, i: nat)
    requires i < |entries| && Distinct(entries) && NotStaging(entries, entries[i].path)
    ensures var e, files' := entries[i], RestoreAll(files, blobs, entries, force, faults, maxBytes).files;
            At(files', e.path) == ResultAt(At(files, e.path), IsOther(files, Scratch(e.path)), blobs, e, force,
                                           FaultAt(faults, e.path), maxBytes)
    decreases |entries|
  {
    var p := entries[i].path;
    var rest, e := entries[..|entries| - 1], entries[|entries| - 1];
    var mid := RestoreAll(files, blobs, rest, force, faults, maxBytes).files;
    assert forall d <- rest :: d in entries;
    assert e in entries;
    if i == |entries| - 1 {
      RestoreFrame(files, blobs, rest, force, faults, maxBytes, p);
      RestoreFrame(files, blobs, rest, force, faults, maxBytes, Scratch(p));
      EntryAt(mid, blobs, e, force, FaultAt(faults, p), maxBytes);
    } else {
      RestoreAt(files, blobs, rest, force, faults, maxBytes, i);
      EntryFrame(mid, blobs, e, force, FaultAt(faults, e.path), maxBytes, p);
    }
  }

  // ---- the staging names -----------------------------------------------------------------------------------

  // Restoring the entry gets as far as writing its staging file.
  predicate Stages(node: Option<Node>, blocked: bool, blobs: set<Bytes>, e: Entry, force: bool, fault: Fault,
                   maxBytes: nat)
  {
    && e.Kept? && node != Some(Other) && !(fault.NoRead? && node.Some?)
    && SumOf(node, maxBytes) != BeforeSum(e) && (force || e.after == Some(SumOf(node, maxBytes)))
    && e.before.Some? && e.before.value in blobs && !blocked && !fault.NoWrite?
  }

  // What becomes of `staging`, the node at an entry's staging name, when the entry's own path holds `node`: the whole
  // restore moves it away, one cut short leaves it behind.
  function StagedAt(staging: Option<Node>, node: Option<Node>, blobs: set<Bytes>, e: Entry, force: bool, fault: Fault,
                    maxBytes: nat): Option<Node>
  {
    if !Stages(node, staging == Some(Other), blobs, e, force, fault, maxBytes) then staging
    else
      var left := if staging.Some? && staging.value.Regular? then staging.value.mode else FRESH_MODE;
      match fault
      case Torn(partial) => Some(Regular(partial, left))
      case NoChmod => Some(Regular(e.before.value, left))
      case NoReplace => Some(Regular(e.before.value, e.mode))
      case _ => None
  }

  lemma EntryStage(files: Files, blobs: set<Bytes>, e: Entry, force: bool, fault: Fault, maxBytes: nat)
    ensures At(RestoreEntry(files, blobs, e, force, fault, maxBytes).files, Scratch(e.path))
         == StagedAt(At(files, Scratch(e.path)), At(files, e.path), blobs, e, force, fault, maxBytes)
  {
    ScratchIsOther(e.path, e.path);
    assert Current(files, e.path, maxBytes) == SumOf(At(files, e.path), maxBytes);
  }

  lemma OneStager(entries: seq<Entry>, i: nat)
    requires i < |entries| && Distinct(entries)
    ensures forall k :: 0 <= k < |entries| && k != i ==> Scratch(entries[k].path) != Scratch(entries[i].path)
  {
    forall k | 0 <= k < |entries| && k != i
      ensures Scratch(entries[k].path) != Scratch(entries[i].path)
    {
      ScratchIsOther(entries[k].path, entries[i].path);
    }
  }

  // The workspace as it is when entry i's turn comes.
  function Reached(files: Files, blobs: set<Bytes>, entries: seq<Entry>, force: bool, faults: map<Path, Fault>,
                   maxBytes: nat, i: nat): Files
    requires i <= |entries|
  {
    RestoreAll(files, blobs, entries[..i], force, faults, maxBytes).files
  }

  lemma ReachedLast(files: Files, blobs: set<Bytes>, entries: seq<Entry>, force: bool, faults: map<Path, Fault>,
                    maxBytes: nat, i: nat)
    requires i < |entries|
    ensures Reached(files, blobs, entries[..|entries| - 1], force, faults, maxBytes, i)
         == Reached(files, blobs, entries, force, faults, maxBytes, i)
  {
    assert entries[..|entries| - 1][..i] == entries[..i];
  }

  // A staging name that is not recorded ends as its one entry leaves it, whatever fails.
  lemma {:induction false} RestoreStage(files: Files, blobs: set<Bytes>, entries: seq<Entry>, force: bool,
                                        faults: map<Path, Fault>, maxBytes: nat, i: nat)
    requires i < |entries| && Distinct(entries) && NotRecorded(entries, Scratch(entries[i].path))
    ensures var e, files' := entries[i], RestoreAll(files, blobs, entries, force, faults, maxBytes).files;
            At(files', Scratch(e.path))
              == StagedAt(At(files, Scratch(e.path)),
                          At(Reached(files, blobs, entries, force, faults, maxBytes, i), e.path), blobs, e, force,
                          FaultAt(faults, e.path), maxBytes)
    decreases |entries|
  {
    hide StagedAt, RestoreEntry;
    var q := Scratch(entries[i].path);
    var rest, e := entries[..|entries| - 1], entries[|entries| - 1];
    var mid := RestoreAll(files, blobs, rest, force, faults, maxBytes).files;
    assert e in entries && forall d <- rest :: d in entries;
    OneStager(entries, i);
    if i == |entries| - 1 {
      RestoreFrame(files, blobs, rest, force, faults, maxBytes, q);
      EntryStage(mid, blobs, e, force, FaultAt(faults, e.path), maxBytes);
    } else {
      RestoreStage(files, blobs, rest, force, faults, maxBytes, i);
      ReachedLast(files, blobs, entries, force, faults, maxBytes, i);
      EntryFrame(mid, blobs, e, force, FaultAt(faults, e.path), maxBytes, q);
    }
  }

  // A recorded path that is the staging name of another entry, j: whichever of the two comes first acts first.
  lemma {:induction false} RestoreStagedPath(files: Files, blobs: set<Bytes>, entries: seq<Entry>, force: bool,
                                             faults: map<Path, Fault>, maxBytes: nat, i: nat, j: nat)
    requires i < |entries| && j < |entries| && Distinct(entries) && entries[i].path == Scratch(entries[j].path)
    ensures var e, d, p := entries[i], entries[j], entries[i].path;
            var node, blocked := At(files, p), IsOther(files, Scratch(p));
            var over := At(Reached(files, blobs, entries, force, faults, maxBytes, j), d.path);
            At(RestoreAll(files, blobs, entries, force, faults, maxBytes).files, p)
              == if i < j
                 then StagedAt(ResultAt(node, blocked, blobs, e, force, FaultAt(faults, p), maxBytes), over, blobs, d,
                               force, FaultAt(faults, d.path), maxBytes)
                 else ResultAt(StagedAt(node, over, blobs, d, force, FaultAt(faults, d.path), maxBytes), blocked, blobs,
                               e, force, FaultAt(faults, p), maxBytes)
    decreases |entries|
  {
    hide StagedAt, ResultAt, RestoreEntry;
    var p := entries[i].path;
    var rest, last := entries[..|entries| - 1], entries[|entries| - 1];
    var mid := RestoreAll(files, blobs, rest, force, faults, maxBytes).files;
    ScratchIsOther(entries[j].path, p);
    OneStager(entries, j);
    assert rest == entries[..|rest|];
    if j == |rest| {
      assert NotStaging(rest, p);
      RestoreAt(files, blobs, rest, force, faults, maxBytes, i);
      EntryStage(mid, blobs, last, force, FaultAt(faults, last.path), maxBytes);
    } else if i == |rest| {
      assert NotRecorded(rest, p);
      RestoreStage(files, blobs, rest, force, faults, maxBytes, j);
      ReachedLast(files, blobs, entries, force, faults, maxBytes, j);
      RestoreFrame(files, blobs, rest, force, faults, maxBytes, Scratch(p));
      EntryAt(mid, blobs, last, force, FaultAt(faults, p), maxBytes);
    } else {
      RestoreStagedPath(files, blobs, rest, force, faults, maxBytes, i, j);
      ReachedLast(files, blobs, entries, force, faults, maxBytes, j);
      EntryFrame(mid, blobs, last, force, FaultAt(faults, last.path), maxBytes, p);
    }
  }

  // The exact condition under which a file of a user's own, of an unrecorded staging name, is lost; otherwise it is
  // untouched.
  lemma StagingNameLost(files: Files, blobs: set<Bytes>, entries: seq<Entry>, force: bool, maxBytes: nat, i: nat)
    requires i < |entries| && Distinct(entries) && NotStaging(entries, entries[i].path)
    requires NotRecorded(entries, Scratch(entries[i].path))
    ensures var e := entries[i];
            var q, now := Scratch(e.path), SumOf(At(files, e.path), maxBytes);
            At(RestoreAll(files, blobs, entries, force, map[], maxBytes).files, q)
              == if e.Kept? && !IsOther(files, e.path) && now != BeforeSum(e) && (force || e.after == Some(now))
                    && e.before.Some? && e.before.value in blobs && !IsOther(files, q)
                 then None else At(files, q)
  {
    RestoreStage(files, blobs, entries, force, map[], maxBytes, i);
    var first := entries[..i];
    assert forall d <- first :: d in entries;
    forall d <- first
      ensures d.path != entries[i].path
    {
      var k :| 0 <= k < i && first[k] == d;
      assert entries[k] == d;
    }
    RestoreFrame(files, blobs, first, force, map[], maxBytes, entries[i].path);
  }

  // ---- what the report says --------------------------------------------------------------------------------

  // What may be said of an entry, from what was found at its path and what is left there.
  ghost function Told(found: Option<Node>, left: Option<Node>, unread: bool, blobs: set<Bytes>, e: Entry, force: bool,
                      maxBytes: nat): Outcome
  {
    if e.Skip? then Skipped(Unrecorded)
    else if found == Some(Other) then Skipped(NotAFile)
    else if found.Some? && unread then Skipped(Failed)
    else if SumOf(found, maxBytes) == BeforeSum(e) then Unchanged
    else if left != found then if left.None? then Deleted else Restored
    else if !force && e.after.None? then Skipped(Unsealed)
    else if !force && e.after.value != SumOf(found, maxBytes) then Skipped(Edited)
    else if e.before.Some? && e.before.value !in blobs then Skipped(Missing)
    else Skipped(Failed)
  }

  // Take records no contents past the limit.
  ghost predicate WithinLimit(e: Entry, maxBytes: nat) {
    e.Kept? && e.before.Some? ==> |e.before.value| <= maxBytes
  }

  // An outcome that is true of what was found and what is left.
  ghost predicate Tells(outcome: Outcome, found: Option<Node>, left: Option<Node>, unread: bool, blobs: set<Bytes>,
                        e: Entry, force: bool, maxBytes: nat)
  {
    && outcome == Told(found, left, unread, blobs, e, force, maxBytes)
    && (outcome.Deleted? <==> found.Some? && left.None?)
    && (outcome.Restored? <==> left != found && e.Kept? && e.before.Some? && left == Some(Regular(e.before.value, e.mode)))
    && (outcome.Unchanged? || outcome.Skipped? <==> left == found)
    && (outcome.Unchanged? <==> && e.Kept? && found != Some(Other) && !(found.Some? && unread)
                                && SumOf(found, maxBytes) == BeforeSum(e))
  }

  lemma EntryTells(files: Files, blobs: set<Bytes>, e: Entry, force: bool, fault: Fault, maxBytes: nat)
    requires WithinLimit(e, maxBytes)
    ensures var step := RestoreEntry(files, blobs, e, force, fault, maxBytes);
            Tells(step.outcome, At(files, e.path), At(step.files, e.path), fault.NoRead?, blobs, e, force, maxBytes)
  {
    ScratchIsOther(e.path, e.path);
    assert Current(files, e.path, maxBytes) == SumOf(At(files, e.path), maxBytes);
  }

  // The i-th outcome is that of the i-th entry, restored into the workspace as it was when its turn came.
  lemma {:induction false} OutcomeAt(files: Files, blobs: set<Bytes>, entries: seq<Entry>, force: bool,
                                     faults: map<Path, Fault>, maxBytes: nat, i: nat)
    requires i < |entries|
    ensures Step(Reached(files, blobs, entries, force, faults, maxBytes, i + 1),
                 RestoreAll(files, blobs, entries, force, faults, maxBytes).outcomes[i])
         == RestoreEntry(Reached(files, blobs, entries, force, faults, maxBytes, i), blobs, entries[i], force,
                         FaultAt(faults, entries[i].path), maxBytes)
    decreases |entries|
  {
    hide RestoreEntry;
    var rest := entries[..|entries| - 1];
    if i < |rest| {
      OutcomeAt(files, blobs, rest, force, faults, maxBytes, i);
      assert rest[..i] == entries[..i] && rest[..i + 1] == entries[..i + 1];
    } else {
      assert entries[..i] == rest && entries[..i + 1] == entries;
    }
  }

  // Each entry's outcome tells what its restore did, whatever failed: deleted, a node was there and is gone; restored,
  // another content became the one of take; unchanged, it was there already; and otherwise nothing was done, and why.
  lemma OutcomeIsTrue(files: Files, blobs: set<Bytes>, entries: seq<Entry>, force: bool, faults: map<Path, Fault>,
                      maxBytes: nat, i: nat)
    requires i < |entries| && WithinLimit(entries[i], maxBytes)
    ensures var p := entries[i].path;
            Tells(RestoreAll(files, blobs, entries, force, faults, maxBytes).outcomes[i],
                  At(Reached(files, blobs, entries, force, faults, maxBytes, i), p),
                  At(Reached(files, blobs, entries, force, faults, maxBytes, i + 1), p),
                  FaultAt(faults, p).NoRead?, blobs, entries[i], force, maxBytes)
  {
    hide Tells, RestoreEntry;
    OutcomeAt(files, blobs, entries, force, faults, maxBytes, i);
    EntryTells(Reached(files, blobs, entries, force, faults, maxBytes, i), blobs, entries[i], force,
               FaultAt(faults, entries[i].path), maxBytes);
  }

  // Where no other recorded file is staged, what was found and what is left are those of the whole restore.
  lemma OutcomeIsTrueOfTheWhole(files: Files, blobs: set<Bytes>, entries: seq<Entry>, force: bool,
                                faults: map<Path, Fault>, maxBytes: nat, i: nat)
    requires i < |entries| && WithinLimit(entries[i], maxBytes)
    requires Distinct(entries) && NotStaging(entries, entries[i].path)
    ensures var p, run := entries[i].path, RestoreAll(files, blobs, entries, force, faults, maxBytes);
            Tells(run.outcomes[i], At(files, p), At(run.files, p), FaultAt(faults, p).NoRead?, blobs, entries[i], force,
                  maxBytes)
  {
    hide Tells, RestoreEntry;
    var p, first := entries[i].path, entries[..i];
    OutcomeIsTrue(files, blobs, entries, force, faults, maxBytes, i);
    FirstOnly(entries, i);
    RestoreFrame(files, blobs, first, force, faults, maxBytes, p);
    RestoreFrame(files, blobs, first, force, faults, maxBytes, Scratch(p));
    assert forall d <- entries[..i + 1] :: d in entries;
    RestoreAt(files, blobs, entries, force, faults, maxBytes, i);
    RestoreAt(files, blobs, entries[..i + 1], force, faults, maxBytes, i);
  }

  lemma FirstOnly(entries: seq<Entry>, i: nat)
    requires i < |entries| && Distinct(entries) && NotStaging(entries, entries[i].path)
    ensures NotRecorded(entries[..i], entries[i].path) && NotStaging(entries[..i], entries[i].path)
  {
  }

  // ---- what undo promises ----------------------------------------------------------------------------------

  function ContentOf(node: Option<Node>): Option<Bytes> {
    if node.Some? && node.value.Regular? then Some(node.value.bytes) else None
  }

  // Take records a path exactly when nothing is there, or a file within the limit that can be read; and then what is
  // there, with no word yet of what Dream leaves.
  lemma ObserveIsExact(files: Files, unreadable: set<Path>, p: Path, maxBytes: nat)
    ensures var e, node := Observe(files, unreadable, p, maxBytes), At(files, p);
            && e.path == p && WithinLimit(e, maxBytes)
            && (e.Kept? <==> || node.None?
                             || (node.value.Regular? && |node.value.bytes| <= maxBytes && p !in unreadable))
            && (e.Kept? ==> e.before == ContentOf(node) && e.after.None? && (node.Some? ==> e.mode == node.value.mode))
  {
  }

  // A path that cannot be read when its entry is sealed is left alone by undo without force, however often it was
  // sealed before; any other is compared with what was there at that moment.
  lemma SealForgetsTheUnread(files: Files, unreadable: set<Path>, e: Entry, edited: Files, blobs: set<Bytes>,
                             fault: Fault, maxBytes: nat)
    ensures var marked := Sealed(files, unreadable, e, maxBytes);
            && marked.path == e.path && marked.Kept? == e.Kept?
            && (e.Kept? ==> && marked.before == e.before && marked.mode == e.mode
                            && (marked.after.None? <==> e.path in unreadable)
                            && (e.path !in unreadable ==> marked.after.value == SumOf(At(files, e.path), maxBytes)))
            && (e.path in unreadable ==> RestoreEntry(edited, blobs, marked, false, fault, maxBytes).files == edited)
  {
    assert Current(files, e.path, maxBytes) == SumOf(At(files, e.path), maxBytes);
  }

  // The entry take makes for a path it can record, sealed after Dream's writes.
  ghost predicate RecordOf(e: Entry, taken: Files, sealed: Files, maxBytes: nat) {
    && e == Sealed(sealed, {}, Observe(taken, {}, e.path, maxBytes), maxBytes)
    && e.Kept?
  }

  // Take, any writes, seal, restore: the path has its contents of take again, or is absent again. A file that is
  // there after the writes in another form than a file (a directory) is left, whatever it was.
  lemma UndoRestoresContents(taken: Files, sealed: Files, blobs: set<Bytes>, entries: seq<Entry>, force: bool,
                             maxBytes: nat, i: nat)
    requires i < |entries| && Distinct(entries) && NotStaging(entries, entries[i].path)
    requires RecordOf(entries[i], taken, sealed, maxBytes)
    requires entries[i].before.Some? ==> entries[i].before.value in blobs
    requires !IsOther(sealed, entries[i].path) && !IsOther(sealed, Scratch(entries[i].path))
    ensures var p := entries[i].path;
            var undone := RestoreAll(sealed, blobs, entries, force, map[], maxBytes).files;
            && ContentOf(At(undone, p)) == ContentOf(At(taken, p))
            && (p in undone <==> p in taken)
            // its mode too, exactly when the writes changed the contents or left the mode
            && (At(undone, p) == At(taken, p) <==>
                  (ContentOf(At(sealed, p)) != ContentOf(At(taken, p)) || At(sealed, p) == At(taken, p)))
  {
    RestoreAt(sealed, blobs, entries, force, map[], maxBytes, i);
  }

  // A change of mode alone is not undone: with these files the writes leave the mode 7 where take saw 0.
  lemma ModeChangeStays() returns (taken: Files, sealed: Files, p: Path)
    ensures var entries := [Sealed(sealed, {}, Observe(taken, {}, p, 10), 10)];
            && At(taken, p) == Some(Regular([1], 0)) && At(sealed, p) == Some(Regular([1], 7))
            && At(RestoreAll(sealed, {[1]}, entries, false, map[], 10).files, p) == At(sealed, p)
  {
    p := Path("", "a");
    taken, sealed := map[p := Regular([1], 0)], map[p := Regular([1], 7)];
    var e := Sealed(sealed, {}, Observe(taken, {}, p, 10), 10);
    ScratchIsOther(p, p);
    RestoreAt(sealed, {[1]}, [e], false, map[], 10, 0);
  }

  // Undo without force leaves a file as it was edited after the seal exactly when it has become no file, has its
  // contents of take, or can be told from what Dream left; modes are not looked at.
  lemma LaterEditKept(taken: Files, sealed: Files, edited: Files, blobs: set<Bytes>, entries: seq<Entry>,
                      maxBytes: nat, i: nat)
    requires i < |entries| && Distinct(entries) && NotStaging(entries, entries[i].path)
    requires RecordOf(entries[i], taken, sealed, maxBytes)
    requires entries[i].before.Some? ==> entries[i].before.value in blobs
    requires !IsOther(edited, Scratch(entries[i].path))
    ensures var p := entries[i].path;
            var undone := RestoreAll(edited, blobs, entries, false, map[], maxBytes).files;
            At(undone, p) == At(edited, p) <==>
              || IsOther(edited, p)
              || SumOf(At(edited, p), maxBytes) == BeforeSum(entries[i])
              || SumOf(At(edited, p), maxBytes) != SumOf(At(sealed, p), maxBytes)
  {
    RestoreAt(edited, blobs, entries, false, map[], maxBytes, i);
  }

  // A later edit of the mode alone is overwritten with the contents of take.
  lemma ModeEditIsOverwritten() returns (taken: Files, sealed: Files, edited: Files, p: Path)
    ensures var entries := [Sealed(sealed, {}, Observe(taken, {}, p, 10), 10)];
            && At(sealed, p) == Some(Regular([2], 0)) && At(edited, p) == Some(Regular([2], 7))
            && At(RestoreAll(edited, {[1]}, entries, false, map[], 10).files, p) == Some(Regular([1], 0))
  {
    p := Path("", "a");
    taken, sealed, edited := map[p := Regular([1], 0)], map[p := Regular([2], 0)], map[p := Regular([2], 7)];
    var e := Sealed(sealed, {}, Observe(taken, {}, p, 10), 10);
    ScratchIsOther(p, p);
    RestoreAt(edited, {[1]}, [e], false, map[], 10, 0);
  }

  // Of edits to the contents, other than putting back those of take, exactly those with the edited file and the sealed
  // one both past the limit are overwritten.
  lemma LaterContentsKept(taken: Files, sealed: Files, edited: Files, blobs: set<Bytes>, entries: seq<Entry>,
                          maxBytes: nat, i: nat)
    requires i < |entries| && Distinct(entries) && NotStaging(entries, entries[i].path)
    requires RecordOf(entries[i], taken, sealed, maxBytes)
    requires entries[i].before.Some? ==> entries[i].before.value in blobs
    requires !IsOther(edited, Scratch(entries[i].path))
    requires ContentOf(At(edited, entries[i].path)) != ContentOf(At(sealed, entries[i].path))
    requires ContentOf(At(edited, entries[i].path)) != ContentOf(At(taken, entries[i].path))
    ensures var p := entries[i].path;
            var undone := RestoreAll(edited, blobs, entries, false, map[], maxBytes).files;
            At(undone, p) == At(edited, p) <==>
              !(SumOf(At(edited, p), maxBytes) == SumOf(At(sealed, p), maxBytes) == Some(Oversize))
  {
    LaterEditKept(taken, sealed, edited, blobs, entries, maxBytes, i);
  }

  // With force or without, faults or none, a path ends as it was found, as it was at take, or absent as at take.
  lemma RestoreNeverInvents(files: Files, blobs: set<Bytes>, entries: seq<Entry>, force: bool,
                            faults: map<Path, Fault>, maxBytes: nat, i: nat)
    requires i < |entries| && Distinct(entries) && NotStaging(entries, entries[i].path)
    ensures var e := entries[i];
            var after := At(RestoreAll(files, blobs, entries, force, faults, maxBytes).files, e.path);
            || after == At(files, e.path)
            || (e.Kept? && after == (if e.before.None? then None else Some(Regular(e.before.value, e.mode))))
  {
    RestoreAt(files, blobs, entries, force, faults, maxBytes, i);
  }

  // The staging name is the one place undo may destroy: a user's own file of that name is lost.
  lemma StagingNameIsLost() returns (files: Files, entries: seq<Entry>)
    ensures |entries| == 1 && RecordOf(entries[0], map[entries[0].path := Regular([1], 0)], files, 10)
    ensures var mine := Scratch(entries[0].path);
            && At(files, mine) == Some(Regular([7], 0)) && NotRecorded(entries, mine)
            && At(RestoreAll(files, {[1]}, entries, false, map[], 10).files, mine) == None
  {
    var p := Path("", "a");
    ScratchIsOther(p, p);
    files := map[p := Regular([2], 0), Scratch(p) := Regular([7], 0)];
    var e := Kept(p, Some([1]), 0, Some(Some(Sha([2]))));
    entries := [e];
    assert entries[..0] == [];
    assert RestoreAll(files, {[1]}, entries[..0], false, map[], 10).files == files;
    assert PutBack(files, p, [1], 0, Sound).outcome == Restored;
  }

  // A second restore finds nothing to do where the first one, unhindered, did its work.
  lemma RestoreTwice(files: Files, blobs: set<Bytes>, entries: seq<Entry>, force: bool, maxBytes: nat, i: nat)
    requires i < |entries| && Distinct(entries) && NotStaging(entries, entries[i].path)
    requires entries[i].Kept? && entries[i].before.Some? ==> |entries[i].before.value| <= maxBytes
    ensures var once := RestoreAll(files, blobs, entries, force, map[], maxBytes).files;
            var twice := RestoreAll(once, blobs, entries, force, map[], maxBytes).files;
            At(twice, entries[i].path) == At(once, entries[i].path)
  {
    var once := RestoreAll(files, blobs, entries, force, map[], maxBytes).files;
    RestoreAt(files, blobs, entries, force, map[], maxBytes, i);
    RestoreAt(once, blobs, entries, force, map[], maxBytes, i);
    RestoreFrame(files, blobs, entries, force, map[], maxBytes, Scratch(entries[i].path));
  }
}
