/** The checkpoint store (dream/core/checkpoints.py, CheckpointStore): manifests and blobs on disk, and the workspace.
    `history` is every state of the store's disk, one for each file operation, so a crash leaves one of them. */
module CheckpointStore {
  import opened Common
  import opened Checkpoints

  datatype Checkpoint = Checkpoint(title: string, entries: seq<Entry>)
  // Ids are numbers here: CheckpointIds shows their text sorts the same way. Blobs are keyed by what they hash to.
  datatype Disk = Disk(manifests: map<nat, Checkpoint>, blobs: map<Bytes, Bytes>)

  // The contents a checkpoint needs to be restored.
  function Needs(cp: Checkpoint): set<Bytes> {
    set e | e in cp.entries && e.Kept? && e.before.Some? :: e.before.value
  }

  ghost predicate Consistent(disk: Disk) {
    && (forall id <- disk.manifests :: Needs(disk.manifests[id]) <= disk.blobs.Keys)
    && (forall sum <- disk.blobs :: disk.blobs[sum] == sum)
  }

  ghost predicate AllConsistent(history: seq<Disk>) {
    forall k :: 0 <= k < |history| ==> Consistent(history[k])
  }

  lemma OneMore(history: seq<Disk>, disk: Disk)
    requires AllConsistent(history) && Consistent(disk)
    ensures AllConsistent(history + [disk])
  {
  }

  lemma LastIsConsistent(history: seq<Disk>)
    requires AllConsistent(history) && |history| > 0
    ensures Consistent(history[|history| - 1])
  {
  }

  // The four file operations, as what they do to the disk.
  lemma BlobAdded(disk: Disk, data: Bytes)
    requires Consistent(disk)
    ensures Consistent(disk.(blobs := disk.blobs[data := data]))
    ensures data in disk.blobs ==> disk.blobs[data := data] == disk.blobs
  {
    assert disk.blobs[data := data].Keys == disk.blobs.Keys + {data};
  }

  lemma ManifestAdded(disk: Disk, id: nat, cp: Checkpoint)
    requires Consistent(disk) && Needs(cp) <= disk.blobs.Keys
    ensures Consistent(disk.(manifests := disk.manifests[id := cp]))
  {
    hide Needs;
  }

  lemma ManifestGone(disk: Disk, id: nat)
    requires Consistent(disk)
    ensures Consistent(disk.(manifests := disk.manifests - {id}))
  {
    hide Needs;
  }

  lemma BlobGone(disk: Disk, sum: Bytes)
    requires Consistent(disk) && sum !in Referenced(disk.manifests)
    ensures Consistent(disk.(blobs := disk.blobs - {sum}))
  {
    hide Needs;
    forall id <- disk.manifests
      ensures Needs(disk.manifests[id]) <= (disk.blobs - {sum}).Keys
    {
      assert sum !in Needs(disk.manifests[id]);
    }
  }

  function Referenced(manifests: map<nat, Checkpoint>): set<Bytes> {
    set id, sum | id in manifests && sum in Needs(manifests[id]) :: sum
  }

  function Members(ids: seq<nat>): set<nat> { set id | id in ids }

  ghost predicate SortedIds(ids: seq<nat>, keys: set<nat>) {
    && (forall i, j :: 0 <= i < j < |ids| ==> ids[i] < ids[j])
    && Members(ids) == keys
  }

  lemma Extend(ids: seq<nat>, keys: set<nat>, next: nat)
    requires SortedIds(ids, keys) && forall i <- ids :: i < next
    ensures SortedIds(ids + [next], keys + {next})
  {
    var all := ids + [next];
    forall i, j | 0 <= i < j < |all|
      ensures all[i] < all[j]
    {
      assert all[i] in ids;
    }
    forall id | id in keys + {next}
      ensures id in all
    {
      assert id == next ==> all[|ids|] == id;
    }
  }

  lemma {:induction false} SortedIdsCount(ids: seq<nat>, keys: set<nat>)
    requires SortedIds(ids, keys)
    ensures |ids| == |keys|
    decreases |ids|
  {
    if |ids| > 0 {
      var last := ids[|ids| - 1];
      assert last in keys;
      var rest := ids[..|ids| - 1];
      forall id | id in keys - {last}
        ensures id in rest
      {
        var i :| 0 <= i < |ids| && ids[i] == id;
        assert rest[i] == id;
      }
      SortedIdsCount(rest, keys - {last});
    } else {
      assert keys == {};
    }
  }

  lemma SplitMembers(ids: seq<nat>, k: nat)
    requires k <= |ids| && forall i, j :: 0 <= i < j < |ids| ==> ids[i] < ids[j]
    ensures Members(ids[k..]) == Members(ids) - Members(ids[..k])
    ensures forall older <- Members(ids[..k]), kept <- Members(ids[k..]) :: older < kept
  {
    var first, rest := ids[..k], ids[k..];
    assert ids == first + rest;
    forall older <- first, kept <- rest
      ensures older < kept
    {
      var i :| 0 <= i < k && first[i] == older;
      var j :| 0 <= j < |ids| - k && rest[j] == kept;
      assert ids[i] < ids[k + j];
    }
  }

  // What is left of the manifests once the k oldest are gone.
  lemma OldestGone(ids: seq<nat>, keys: set<nat>, k: nat)
    requires SortedIds(ids, keys) && k <= |ids|
    ensures var gone := Members(ids[..k]);
            && gone <= keys && |keys - gone| == |ids| - k
            && (forall older <- gone, kept <- keys - gone :: older < kept)
  {
    SplitMembers(ids, k);
    SortedIdsCount(ids[k..], keys - Members(ids[..k]));
  }

  // Marking changes neither where an entry is nor what it needs.
  predicate Alike(e: Entry, d: Entry) {
    e.path == d.path && e.Kept? == d.Kept? && (e.Kept? ==> e.before == d.before)
  }

  lemma AlikeNeedTheSame(es: seq<Entry>, ds: seq<Entry>)
    requires |es| == |ds| && forall k :: 0 <= k < |es| ==> Alike(es[k], ds[k])
    ensures Needs(Checkpoint("", es)) <= Needs(Checkpoint("", ds))
    ensures Distinct(ds) ==> Distinct(es)
  {
    forall sum | sum in Needs(Checkpoint("", es))
      ensures sum in Needs(Checkpoint("", ds))
    {
      var k :| 0 <= k < |es| && es[k].Kept? && es[k].before == Some(sum);
      assert Alike(es[k], ds[k]) && ds[k] in ds;
    }
  }

  lemma SealNeedsTheSame(files: Files, unreadable: set<Path>, entries: seq<Entry>, maxBytes: nat)
    ensures var marked := SealAll(files, unreadable, entries, maxBytes);
            && Needs(Checkpoint("", marked)) == Needs(Checkpoint("", entries))
            && (Distinct(entries) ==> Distinct(marked))
  {
    hide Needs, Distinct, Current;
    var marked := SealAll(files, unreadable, entries, maxBytes);
    forall k | 0 <= k < |marked|
      ensures Alike(marked[k], entries[k]) && Alike(entries[k], marked[k])
    {
    }
    AlikeNeedTheSame(marked, entries);
    AlikeNeedTheSame(entries, marked);
  }

  // take's loop over its paths: what is recorded already keeps its first observation.
  function Record(entries: seq<Entry>, files: Files, unreadable: set<Path>, paths: seq<Path>, maxBytes: nat): seq<Entry>
  {
    if |paths| == 0 then entries
    else
      var rest := Record(entries, files, unreadable, paths[..|paths| - 1], maxBytes);
      var p := paths[|paths| - 1];
      if exists e <- rest :: e.path == p then rest else rest + [Observe(files, unreadable, p, maxBytes)]
  }

  // Every path asked for is recorded once; the old entries stay, the new ones are observations of now.
  lemma {:induction false} RecordIsComplete(entries: seq<Entry>, files: Files, unreadable: set<Path>, paths: seq<Path>,
                                            maxBytes: nat)
    requires Distinct(entries)
    ensures var r := Record(entries, files, unreadable, paths, maxBytes);
            && Distinct(r) && entries <= r
            && (forall p <- paths :: exists e <- r :: e.path == p)
            && (forall i :: |entries| <= i < |r| ==>
                  r[i] == Observe(files, unreadable, r[i].path, maxBytes) && r[i].path in paths)
    decreases |paths|
  {
    if |paths| > 0 {
      var before, p := paths[..|paths| - 1], paths[|paths| - 1];
      RecordIsComplete(entries, files, unreadable, before, maxBytes);
      var rest := Record(entries, files, unreadable, before, maxBytes);
      var r := Record(entries, files, unreadable, paths, maxBytes);
      if !exists e <- rest :: e.path == p {
        assert r[|rest|].path == p && r[|rest|] in r;
        forall i | 0 <= i < |rest|
          ensures r[i].path != p
        {
          assert rest[i] in rest;
        }
      }
      forall q <- paths
        ensures exists e <- r :: e.path == q
      {
        if q in before {
          var e :| e in rest && e.path == q;
          assert e in r;
        }
      }
    }
  }

  datatype Report = Report(restored: seq<Path>, deleted: seq<Path>, same: seq<Path>, skipped: seq<(Path, Why)>)

  function ReportOf(entries: seq<Entry>, outcomes: seq<Outcome>): Report
    requires |entries| == |outcomes|
  {
    if |entries| == 0 then Report([], [], [], [])
    else Reported(ReportOf(entries[..|entries| - 1], outcomes[..|outcomes| - 1]), entries[|entries| - 1].path,
                  outcomes[|outcomes| - 1])
  }

  function Reported(r: Report, p: Path, outcome: Outcome): Report {
    match outcome
    case Restored => r.(restored := r.restored + [p])
    case Deleted => r.(deleted := r.deleted + [p])
    case Unchanged => r.(same := r.same + [p])
    case Skipped(why) => r.(skipped := r.skipped + [(p, why)])
  }

  function Paths(entries: seq<Entry>): (r: seq<Path>)
    ensures |r| == |entries| && forall i :: 0 <= i < |r| ==> r[i] == entries[i].path
  {
    seq(|entries|, i requires 0 <= i < |entries| => entries[i].path)
  }

  function SkippedPaths(skipped: seq<(Path, Why)>): (r: seq<Path>)
    ensures |r| == |skipped| && forall i :: 0 <= i < |r| ==> r[i] == skipped[i].0
  {
    seq(|skipped|, i requires 0 <= i < |skipped| => skipped[i].0)
  }

  // Every path the report names, list after list.
  function Named(r: Report): seq<Path> { r.restored + r.deleted + r.same + SkippedPaths(r.skipped) }

  lemma NamesOneMore(r: Report, p: Path, outcome: Outcome)
    ensures multiset(Named(Reported(r, p, outcome))) == multiset(Named(r)) + multiset{p}
  {
    if outcome.Skipped? {
      assert SkippedPaths(r.skipped + [(p, outcome.why)]) == SkippedPaths(r.skipped) + [p];
    }
  }

  lemma NamesNone()
    ensures Named(Report([], [], [], [])) == []
  {
  }

  // The report names the recorded paths, each as often as it is recorded ...
  lemma {:induction false} ReportNamesAll(entries: seq<Entry>, outcomes: seq<Outcome>)
    requires |entries| == |outcomes|
    ensures multiset(Named(ReportOf(entries, outcomes))) == multiset(Paths(entries))
    decreases |entries|
  {
    hide Named, Reported;
    if |entries| == 0 {
      NamesNone();
    } else {
      var n := |entries| - 1;
      ReportNamesAll(entries[..n], outcomes[..n]);
      NamesOneMore(ReportOf(entries[..n], outcomes[..n]), entries[n].path, outcomes[n]);
      assert Paths(entries) == Paths(entries[..n]) + [entries[n].path];
    }
  }

  // The lists of one report behind those of another.
  function After(r: Report, s: Report): Report {
    Report(r.restored + s.restored, r.deleted + s.deleted, r.same + s.same, r.skipped + s.skipped)
  }

  lemma AfterNothing(r: Report)
    ensures After(r, Report([], [], [], [])) == r
  {
  }

  lemma AfterOne(r: Report, s: Report, p: Path, outcome: Outcome)
    ensures Reported(After(r, s), p, outcome) == After(r, Reported(s, p, outcome))
  {
  }

  // Each list is in the order of the entries: what is reported of some and then more is the one report and then the other.
  lemma {:induction false} ReportInOrder(entries: seq<Entry>, outcomes: seq<Outcome>, more: seq<Entry>,
                                         others: seq<Outcome>)
    requires |entries| == |outcomes| && |more| == |others|
    ensures var r, s := ReportOf(entries, outcomes), ReportOf(more, others);
            ReportOf(entries + more, outcomes + others) == After(r, s)
    decreases |more|
  {
    hide Reported, After;
    if |more| == 0 {
      assert entries + more == entries && outcomes + others == outcomes;
      AfterNothing(ReportOf(entries, outcomes));
    } else {
      var n := |more| - 1;
      AfterOne(ReportOf(entries, outcomes), ReportOf(more[..n], others[..n]), more[n].path, others[n]);
      ReportInOrder(entries, outcomes, more[..n], others[..n]);
      assert (entries + more)[..|entries| + n] == entries + more[..n];
      assert (outcomes + others)[..|entries| + n] == outcomes + others[..n];
    }
  }

  ghost predicate Lists(r: Report, p: Path, outcome: Outcome) {
    match outcome
    case Restored => p in r.restored
    case Deleted => p in r.deleted
    case Unchanged => p in r.same
    case Skipped(why) => (p, why) in r.skipped
  }

  // An entry of that path came out so.
  ghost predicate CameOut(entries: seq<Entry>, outcomes: seq<Outcome>, p: Path, outcome: Outcome)
    requires |entries| == |outcomes|
  {
    exists i :: 0 <= i < |entries| && entries[i].path == p && outcomes[i] == outcome
  }

  lemma CameOutNext(entries: seq<Entry>, outcomes: seq<Outcome>, p: Path, outcome: Outcome)
    requires |entries| == |outcomes| > 0
    ensures var n := |entries| - 1;
            CameOut(entries, outcomes, p, outcome) <==>
              CameOut(entries[..n], outcomes[..n], p, outcome) || (entries[n].path == p && outcomes[n] == outcome)
  {
    var n := |entries| - 1;
    if CameOut(entries[..n], outcomes[..n], p, outcome) {
      var i :| 0 <= i < n && entries[..n][i].path == p && outcomes[..n][i] == outcome;
      assert entries[i].path == p && outcomes[i] == outcome;
    }
    if CameOut(entries, outcomes, p, outcome) {
      var i :| 0 <= i < |entries| && entries[i].path == p && outcomes[i] == outcome;
      if i < n {
        assert entries[..n][i].path == p && outcomes[..n][i] == outcome;
      }
    }
  }

  // ... and lists each of them under what came out of its entry and under nothing else.
  lemma {:induction false} ReportSorts(entries: seq<Entry>, outcomes: seq<Outcome>, p: Path, outcome: Outcome)
    requires |entries| == |outcomes|
    ensures Lists(ReportOf(entries, outcomes), p, outcome) <==> CameOut(entries, outcomes, p, outcome)
    decreases |entries|
  {
    hide CameOut;
    if |entries| > 0 {
      var n := |entries| - 1;
      ReportSorts(entries[..n], outcomes[..n], p, outcome);
      CameOutNext(entries, outcomes, p, outcome);
    } else {
      NoneCameOut(p, outcome);
    }
  }

  lemma NoneCameOut(p: Path, outcome: Outcome)
    ensures !CameOut([], [], p, outcome)
  {
  }

  lemma NothingRestored(files: Files, blobs: set<Bytes>, entries: seq<Entry>, force: bool, faults: map<Path, Fault>,
                        maxBytes: nat)
    ensures RestoreAll(files, blobs, entries[..0], force, faults, maxBytes) == Run(files, [])
    ensures ReportOf(entries[..0], []) == Report([], [], [], [])
  {
  }

  lemma RestoreNext(files: Files, blobs: set<Bytes>, entries: seq<Entry>, force: bool, faults: map<Path, Fault>,
                    maxBytes: nat, i: nat)
    requires i < |entries|
    ensures var run := RestoreAll(files, blobs, entries[..i], force, faults, maxBytes);
            var step := RestoreEntry(run.files, blobs, entries[i], force, FaultAt(faults, entries[i].path), maxBytes);
            RestoreAll(files, blobs, entries[..i + 1], force, faults, maxBytes)
              == Run(step.files, run.outcomes + [step.outcome])
  {
    hide RestoreEntry;
    assert entries[..i + 1][..i] == entries[..i];
  }

  lemma ReportNext(entries: seq<Entry>, outcomes: seq<Outcome>, outcome: Outcome, i: nat)
    requires i < |entries| && |outcomes| == i
    ensures ReportOf(entries[..i + 1], outcomes + [outcome])
         == Reported(ReportOf(entries[..i], outcomes), entries[i].path, outcome)
  {
    hide Reported;
    assert entries[..i + 1][..i] == entries[..i] && (outcomes + [outcome])[..i] == outcomes;
  }

  // Of two checkpoints one of which is gone, the gone one is older; the others are as they were.
  ghost predicate Newest(all: map<nat, Checkpoint>, left: map<nat, Checkpoint>) {
    && left.Keys <= all.Keys
    && (forall id <- left :: left[id] == all[id])
    && (forall gone <- all.Keys - left.Keys, kept <- left.Keys :: gone < kept)
  }

  lemma LargestStays(all: map<nat, Checkpoint>, left: map<nat, Checkpoint>, id: nat)
    requires Newest(all, left) && left.Keys != {} && id in all
    requires forall other <- all :: other <= id
    ensures id in left && left[id] == all[id]
  {
    var kept :| kept in left.Keys;
    assert id !in left ==> id in all.Keys - left.Keys && id < kept;
  }

  // From take to restore: whatever is written to the recorded paths in between, and to any other, each path taken in
  // the limit has its contents of take again, or is absent again; every path taken is recorded.
  lemma TakeSealRestore(taken: Files, sealed: Files, paths: seq<Path>, blobs: set<Bytes>, force: bool, maxBytes: nat,
                        i: nat)
    requires var entries := SealAll(sealed, {}, Record([], taken, {}, paths, maxBytes), maxBytes);
             && i < |entries| && entries[i].Kept? && NotStaging(entries, entries[i].path)
             && !IsOther(sealed, entries[i].path) && !IsOther(sealed, Scratch(entries[i].path))
             && Needs(Checkpoint("", entries)) <= blobs
    ensures var entries := SealAll(sealed, {}, Record([], taken, {}, paths, maxBytes), maxBytes);
            var p := entries[i].path;
            var undone := RestoreAll(sealed, blobs, entries, force, map[], maxBytes).files;
            && p in paths
            && ContentOf(At(undone, p)) == ContentOf(At(taken, p)) && (p in undone <==> p in taken)
  {
    hide RestoreAll, Record, SealAll, ContentOf, At, IsOther;
    RecordIsComplete([], taken, {}, paths, maxBytes);
    var recorded := Record([], taken, {}, paths, maxBytes);
    var entries := SealAll(sealed, {}, recorded, maxBytes);
    assert entries[i] in entries;
    assert recorded[i] == Observe(taken, {}, recorded[i].path, maxBytes);
    UndoRestoresContents(taken, sealed, blobs, entries, force, maxBytes, i);
  }

  class Store {
    const limit: nat
    const maxBytes: nat
    var manifests: map<nat, Checkpoint>
    var blobs: map<Bytes, Bytes>
    var files: Files
    ghost var history: seq<Disk>

    ghost function Now(): Disk
      reads `manifests, `blobs
    {
      Disk(manifests, blobs)
    }

    // Not only the disk as it is but every disk there has been since: no crash finds a checkpoint without a blob.
    ghost predicate Valid()
      reads `manifests, `blobs, `history
    {
      && limit >= 1
      && |history| > 0 && history[|history| - 1] == Now()
      && AllConsistent(history)
      && (forall id <- manifests :: Distinct(manifests[id].entries))
    }

    constructor (limit: nat, maxBytes: nat, files: Files)
      requires limit >= 1
      ensures Valid() && manifests == map[] && this.files == files
      ensures this.limit == limit && this.maxBytes == maxBytes
    {
      this.limit, this.maxBytes, this.files := limit, maxBytes, files;
      manifests, blobs := map[], map[];
      history := [Disk(map[], map[])];
    }

    // ---- the file operations -------------------------------------------------------------------------------

    // A replace puts a whole manifest or a whole blob in place; an unlink takes one away.
    method WriteBlob(data: Bytes)
      requires Valid()
      modifies this`blobs, this`history
      ensures Valid() && blobs == old(blobs)[data := data] && old(history) <= history
    {
      hide Consistent, AllConsistent;
      LastIsConsistent(history);
      BlobAdded(Now(), data);
      if data !in blobs {
        blobs := blobs[data := data];
        OneMore(history, Now());
        history := history + [Now()];
      }
    }

    method WriteManifest(id: nat, cp: Checkpoint)
      requires Valid() && Needs(cp) <= blobs.Keys && Distinct(cp.entries)
      modifies this`manifests, this`history
      ensures Valid() && manifests == old(manifests)[id := cp] && old(history) <= history
    {
      hide Consistent, AllConsistent, Needs;
      LastIsConsistent(history);
      ManifestAdded(Now(), id, cp);
      manifests := manifests[id := cp];
      OneMore(history, Now());
      history := history + [Now()];
    }

    method DeleteManifest(id: nat)
      requires Valid()
      modifies this`manifests, this`history
      ensures Valid() && manifests == old(manifests) - {id} && old(history) <= history
    {
      hide Consistent, AllConsistent, Needs;
      LastIsConsistent(history);
      ManifestGone(Now(), id);
      manifests := manifests - {id};
      OneMore(history, Now());
      history := history + [Now()];
    }

    method DeleteBlob(sum: Bytes)
      requires Valid() && sum !in Referenced(manifests)
      modifies this`blobs, this`history
      ensures Valid() && blobs == old(blobs) - {sum} && old(history) <= history
    {
      hide Consistent, AllConsistent, Needs, Referenced;
      LastIsConsistent(history);
      BlobGone(Now(), sum);
      blobs := blobs - {sum};
      OneMore(history, Now());
      history := history + [Now()];
    }

    // ---- ids -----------------------------------------------------------------------------------------------

    method Ids() returns (ids: seq<nat>)
      ensures SortedIds(ids, manifests.Keys)
    {
      ids := [];
      var left := manifests.Keys;
      while left != {}
        invariant left <= manifests.Keys
        invariant SortedIds(ids, manifests.Keys - left)
        invariant forall i <- ids, j <- left :: i < j
        decreases left
      {
        var least :| least in left;
        var others := left;
        while others != {}
          invariant least in left && others <= left
          invariant forall j <- left :: j in others || least <= j
          decreases others
        {
          var j :| j in others;
          if j < least {
            least := j;
          }
          others := others - {j};
        }
        Extend(ids, manifests.Keys - left, least);
        assert manifests.Keys - left + {least} == manifests.Keys - (left - {least});
        ids, left := ids + [least], left - {least};
      }
      assert manifests.Keys - left == manifests.Keys;
    }

    // One more than the largest id: fresh, and the largest once it is in.
    method NextId() returns (id: nat)
      ensures id !in manifests && id >= 1 && forall other <- manifests :: other < id
    {
      var ids := Ids();
      assert forall other :: other in manifests <==> other in ids;
      id := if |ids| > 0 then ids[|ids| - 1] + 1 else 1;
    }

    // ---- the operations ------------------------------------------------------------------------------------

    // Drops the oldest checkpoints beyond `keep`, then every blob no other checkpoint needs.
    method Prune(keep: nat) returns (dropped: nat)
      requires Valid()
      modifies this`manifests, this`blobs, this`history
      ensures Valid() && old(history) <= history
      ensures |old(manifests)| <= keep ==> dropped == 0 && manifests == old(manifests) && blobs == old(blobs)
      ensures |old(manifests)| > keep ==>
                && dropped == |old(manifests)| - keep && |manifests| == keep
                && blobs.Keys == Referenced(manifests)
      ensures Newest(old(manifests), manifests)
    {
      var ids := Ids();
      ghost var keys := manifests.Keys;
      SortedIdsCount(ids, keys);
      if |ids| <= keep {
        return 0;
      }
      dropped := |ids| - keep;
      OldestGone(ids, keys, dropped);
      DropOldest(ids, dropped);
      Sweep();
    }

    // prune's first half
    method DropOldest(ids: seq<nat>, count: nat)
      requires Valid() && count <= |ids|
      modifies this`manifests, this`history
      ensures Valid() && old(history) <= history
      ensures manifests == old(manifests) - Members(ids[..count])
    {
      for k := 0 to count
        invariant Valid() && old(history) <= history
        invariant manifests == old(manifests) - Members(ids[..k])
      {
        assert ids[..k + 1] == ids[..k] + [ids[k]];
        DeleteManifest(ids[k]);
      }
    }

    // prune's second half
    method Sweep()
      requires Valid()
      modifies this`blobs, this`history
      ensures Valid() && old(history) <= history
      ensures blobs.Keys == Referenced(manifests)
    {
      assert Consistent(Now());
      var live := Referenced(manifests);
      var left := blobs.Keys;
      while left != {}
        invariant Valid() && old(history) <= history
        invariant left <= blobs.Keys && live <= blobs.Keys <= live + left
        decreases left
      {
        var sum :| sum in left;
        left := left - {sum};
        if sum !in live {
          DeleteBlob(sum);
        }
      }
    }

    // Snapshots what is at `paths` now, into an existing checkpoint when there is one of that id, else into a new one.
    method Take(title: string, paths: seq<Path>, into: Option<nat>, unreadable: set<Path>) returns (id: nat)
      requires Valid()
      modifies this`manifests, this`blobs, this`history
      ensures Valid() && old(history) <= history && id in manifests
      ensures into.Some? && into.value in old(manifests) ==>
                && id == into.value
                && manifests == old(manifests)[id := old(manifests)[id].(entries :=
                     Record(old(manifests)[id].entries, files, unreadable, paths, maxBytes))]
      ensures into.None? || into.value !in old(manifests) ==>
                && id !in old(manifests) && (forall other <- old(manifests) :: other < id)
                && manifests[id] == Checkpoint(title, Record([], files, unreadable, paths, maxBytes))
                && Newest(old(manifests)[id := manifests[id]], manifests)
                && |manifests| == (if |old(manifests)| < limit then |old(manifests)| + 1 else limit)
    {
      var isNew := into.None? || into.value !in manifests;
      var cp;
      if isNew {
        id := NextId();
        cp := Checkpoint(title, []);
      } else {
        id := into.value;
        cp := manifests[id];
        assert Consistent(Now());
      }
      var entries := Snapshot(cp.entries, paths, unreadable);
      cp := cp.(entries := entries);
      WriteManifest(id, cp);
      if isNew {
        ghost var all := manifests;
        assert |all| == |old(manifests)| + 1;
        var _ := Prune(limit);
        LargestStays(all, manifests, id);
      }
    }

    // take's loop: contents are in the store before any manifest names them.
    method Snapshot(known: seq<Entry>, paths: seq<Path>, unreadable: set<Path>) returns (entries: seq<Entry>)
      requires Valid() && Distinct(known)
      requires Needs(Checkpoint("", known)) <= blobs.Keys
      modifies this`blobs, this`history
      ensures Valid() && old(history) <= history && old(blobs).Keys <= blobs.Keys
      ensures entries == Record(known, files, unreadable, paths, maxBytes)
      ensures Distinct(entries) && Needs(Checkpoint("", entries)) <= blobs.Keys
    {
      entries := known;
      for i := 0 to |paths|
        invariant Valid() && old(history) <= history && old(blobs).Keys <= blobs.Keys
        invariant entries == Record(known, files, unreadable, paths[..i], maxBytes)
        invariant Needs(Checkpoint("", entries)) <= blobs.Keys
      {
        assert paths[..i + 1][..i] == paths[..i];
        if !exists e <- entries :: e.path == paths[i] {
          var e := Observe(files, unreadable, paths[i], maxBytes);
          if e.Kept? && e.before.Some? {
            WriteBlob(e.before.value);
          }
          entries := entries + [e];
        }
      }
      assert paths[..|paths|] == paths;
      RecordIsComplete(known, files, unreadable, paths, maxBytes);
    }

    // Records what Dream left. False when there is no such checkpoint.
    method Seal(id: nat, unreadable: set<Path>) returns (ok: bool)
      requires Valid()
      modifies this`manifests, this`history
      ensures Valid() && old(history) <= history
      ensures ok <==> id in old(manifests)
      ensures manifests == if ok then old(manifests)[id := old(manifests)[id].(entries :=
                                        SealAll(files, unreadable, old(manifests)[id].entries, maxBytes))]
                           else old(manifests)
    {
      if id !in manifests {
        return false;
      }
      var entries := manifests[id].entries;
      var marked: seq<Entry> := [];
      for i := 0 to |entries|
        invariant Valid() && manifests == old(manifests) && history == old(history)
        invariant marked == SealAll(files, unreadable, entries[..i], maxBytes)
      {
        assert entries[..i + 1] == entries[..i] + [entries[i]];
        var e := entries[i];
        if e.Kept? {
          e := e.(after := if e.path in unreadable then None else Some(Current(files, e.path, maxBytes)));
        }
        marked := marked + [e];
      }
      assert entries[..|entries|] == entries;
      assert Consistent(Now());
      SealNeedsTheSame(files, unreadable, entries, maxBytes);
      WriteManifest(id, manifests[id].(entries := marked));
      return true;
    }

    // Puts the snapshotted files back, reporting what it did with each. No such checkpoint: nothing is done.
    method Restore(id: nat, force: bool, faults: map<Path, Fault>) returns (report: Option<Report>)
      requires Valid()
      modifies this`files
      ensures Valid()
      ensures report.Some? <==> id in manifests
      ensures id !in manifests ==> files == old(files)
      ensures id in manifests ==>
                var run := RestoreAll(old(files), blobs.Keys, manifests[id].entries, force, faults, maxBytes);
                files == run.files && report == Some(ReportOf(manifests[id].entries, run.outcomes))
    {
      if id !in manifests {
        return None;
      }
      var rep := RestoreEach(manifests[id].entries, force, faults);
      return Some(rep);
    }

    // restore's loop
    method RestoreEach(entries: seq<Entry>, force: bool, faults: map<Path, Fault>) returns (rep: Report)
      requires Valid()
      modifies this`files
      ensures var run := RestoreAll(old(files), blobs.Keys, entries, force, faults, maxBytes);
              files == run.files && rep == ReportOf(entries, run.outcomes)
    {
      hide *;
      rep := Report([], [], [], []);
      ghost var outcomes: seq<Outcome> := [];
      ghost var was, stored := files, blobs.Keys;
      NothingRestored(was, stored, entries, force, faults, maxBytes);
      for i := 0 to |entries|
        invariant Run(files, outcomes) == RestoreAll(was, stored, entries[..i], force, faults, maxBytes)
        invariant rep == ReportOf(entries[..i], outcomes)
      {
        var e := entries[i];
        RestoreNext(was, stored, entries, force, faults, maxBytes, i);
        var outcome := RestoreOne(e, force, FaultAt(faults, e.path));
        ReportNext(entries, outcomes, outcome, i);
        rep, outcomes := Reported(rep, e.path, outcome), outcomes + [outcome];
      }
      assert entries[..|entries|] == entries;
    }

    method RestoreOne(e: Entry, force: bool, fault: Fault) returns (outcome: Outcome)
      requires Valid()
      modifies this`files
      ensures Step(files, outcome) == RestoreEntry(old(files), blobs.Keys, e, force, fault, maxBytes)
    {
      hide PutBack, AllConsistent;
      if e.Skip? {
        return Skipped(Unrecorded);
      }
      var p := e.path;
      if p in files && files[p].Other? {
        return Skipped(NotAFile);
      }
      if fault.NoRead? && p in files {
        return Skipped(Failed);
      }
      var now := Current(files, p, maxBytes);
      if now == BeforeSum(e) {
        return Unchanged;
      }
      if !force {
        if e.after.None? {
          return Skipped(Unsealed);
        }
        if now != e.after.value {
          return Skipped(Edited);
        }
      }
      if e.before.None? {
        if fault.NoUnlink? {
          return Skipped(Failed);
        }
        files := files - {p};
        return Deleted;
      }
      if e.before.value !in blobs {
        return Skipped(Missing);
      }
      assert blobs[e.before.value] == e.before.value by { LastIsConsistent(history); }
      outcome := WriteBack(p, blobs[e.before.value], e.mode, fault);
    }

    // The scratch file, its mode, and the move into place
    method WriteBack(p: Path, data: Bytes, mode: nat, fault: Fault) returns (outcome: Outcome)
      modifies this`files
      ensures Step(files, outcome) == PutBack(old(files), p, data, mode, fault)
    {
      ScratchIsOther(p, p);
      var scratch := Scratch(p);
      if fault.NoWrite? || (scratch in files && files[scratch].Other?) {
        return Skipped(Failed);
      }
      var left := if scratch in files then files[scratch].mode else FRESH_MODE;
      files := files[scratch := Regular(if fault.Torn? then fault.partial else data, left)];
      if fault.Torn? || fault.NoChmod? {
        return Skipped(Failed);
      }
      files := files[scratch := Regular(data, mode)];
      if fault.NoReplace? {
        return Skipped(Failed);
      }
      files := (files - {scratch})[p := Regular(data, mode)];
      return Restored;
    }
  }
}
