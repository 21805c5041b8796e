/** The bounded inspection journal (dream/core/context_inspection.py: _reduce, Journal): records per session, sessions
    oldest-written first, and apart from them the records of backends with no session. A record's body, what each
    reduction leaves of it and its serialised size are arbitrary functions. */
module Journal {
  datatype Label = Previews | ToolListing | Components

  const REDUCTIONS: seq<Label> := [Previews, ToolListing, Components]

  datatype Record<Body> = Record(id: string, body: Body, reduced: seq<Label>, bytes: nat)
  datatype Session<Body> = Session(ident: string, records: seq<Record<Body>>)
  datatype Kind = Bound | Private

  // How large a body is as stored, with its reductions named, and what a reduction leaves of it.
  datatype Shape<!Body> = Shape(size: (Body, seq<Label>) -> nat, drop: (Label, Body) -> Body)

  datatype Limits = Limits(records: nat, bytes: nat, record: nat)

  ghost predicate Sane(limits: Limits) { limits.records >= 1 && limits.bytes >= 1 && 1 <= limits.record <= limits.bytes }

  function AtLeastOne(n: int): nat { if n > 1 then n else 1 }

  // ---- reducing one record ---------------------------------------------------------------------------------

  function Measured<Body>(shape: Shape<Body>, r: Record<Body>): Record<Body> {
    r.(bytes := shape.size(r.body, r.reduced))
  }

  function Taken<Body>(shape: Shape<Body>, r: Record<Body>, step: Label): Record<Body> {
    if step in r.reduced then r
    else Measured(shape, r.(body := shape.drop(step, r.body), reduced := r.reduced + [step]))
  }

  // The record after the first k reductions.
  function After<Body>(shape: Shape<Body>, r: Record<Body>, k: nat): Record<Body>
    requires k <= |REDUCTIONS|
  {
    if k == 0 then Measured(shape, r) else Taken(shape, After(shape, r, k - 1), REDUCTIONS[k - 1])
  }

  // The fewest reductions that fit, or all of them.
  function StepsFrom<Body>(shape: Shape<Body>, r: Record<Body>, limit: nat, k: nat): (steps: nat)
    requires k <= |REDUCTIONS|
    ensures k <= steps <= |REDUCTIONS|
    ensures forall j :: k <= j < steps ==> After(shape, r, j).bytes > limit
    ensures After(shape, r, steps).bytes <= limit || steps == |REDUCTIONS|
    decreases |REDUCTIONS| - k
  {
    if k == |REDUCTIONS| || After(shape, r, k).bytes <= limit then k else StepsFrom(shape, r, limit, k + 1)
  }

  function Reduced<Body>(shape: Shape<Body>, r: Record<Body>, limit: nat): Record<Body> {
    After(shape, r, StepsFrom(shape, r, limit, 0))
  }

  // Least loss first: it fits if any number of the reductions makes it fit, and then with the fewest.
  lemma ReducedIsLeastLoss<Body>(shape: Shape<Body>, r: Record<Body>, limit: nat)
    ensures var out := Reduced(shape, r, limit);
            && (out.bytes <= limit <==> exists k :: 0 <= k <= |REDUCTIONS| && After(shape, r, k).bytes <= limit)
            && (forall k :: 0 <= k <= |REDUCTIONS| && After(shape, r, k).bytes <= limit ==>
                  r.reduced <= out.reduced <= After(shape, r, k).reduced)
            && out.bytes == shape.size(out.body, out.reduced) && out.id == r.id
  {
    var steps := StepsFrom(shape, r, limit, 0);
    AfterIsMeasured(shape, r, steps);
    forall k | 0 <= k <= |REDUCTIONS| && After(shape, r, k).bytes <= limit
      ensures r.reduced <= After(shape, r, steps).reduced <= After(shape, r, k).reduced
    {
      AfterGrows(shape, r, 0, steps);
      AfterGrows(shape, r, steps, k);
    }
  }

  // The labels of `all` that are not among `reduced`, in their order.
  function Missing(reduced: seq<Label>, all: seq<Label>): seq<Label> {
    if |all| == 0 then []
    else
      var rest, last := Missing(reduced, all[..|all| - 1]), all[|all| - 1];
      if last in reduced then rest else rest + [last]
  }

  function Dropped<Body>(shape: Shape<Body>, body: Body, labels: seq<Label>): Body {
    if |labels| == 0 then body
    else shape.drop(labels[|labels| - 1], Dropped(shape, body, labels[..|labels| - 1]))
  }

  // The reductions go previews, tool listing, components; one named in the record already is not made again, and those
  // made are named after the others.
  lemma {:induction false} AfterIsExact<Body>(shape: Shape<Body>, r: Record<Body>, k: nat)
    requires k <= 3
    ensures k <= |REDUCTIONS| && REDUCTIONS == [Previews, ToolListing, Components]
    ensures After(shape, r, k) == Relieved(shape, r, Missing(r.reduced, REDUCTIONS[..k]))
  {
    if k > 0 {
      AfterIsExact(shape, r, k - 1);
      var step, labels := REDUCTIONS[k - 1], Missing(r.reduced, REDUCTIONS[..k - 1]);
      MissingNext(r.reduced, REDUCTIONS, k - 1);
      MissingAre(r.reduced, REDUCTIONS[..k - 1]);
      assert step !in REDUCTIONS[..k - 1];
      OneMoreDropped(shape, r, labels, step);
    } else {
      assert r.reduced + [] == r.reduced;
    }
  }

  // The record with these reductions made.
  function Relieved<Body>(shape: Shape<Body>, r: Record<Body>, labels: seq<Label>): Record<Body> {
    var body := Dropped(shape, r.body, labels);
    Record(r.id, body, r.reduced + labels, shape.size(body, r.reduced + labels))
  }

  lemma OneMoreDropped<Body>(shape: Shape<Body>, r: Record<Body>, labels: seq<Label>, step: Label)
    ensures Taken(shape, Relieved(shape, r, labels), step)
         == if step in r.reduced || step in labels then Relieved(shape, r, labels) else Relieved(shape, r, labels + [step])
  {
    assert (labels + [step])[..|labels|] == labels;
    assert r.reduced + labels + [step] == r.reduced + (labels + [step]);
  }

  lemma MissingNext(reduced: seq<Label>, all: seq<Label>, k: nat)
    requires k < |all|
    ensures Missing(reduced, all[..k + 1])
         == if all[k] in reduced then Missing(reduced, all[..k]) else Missing(reduced, all[..k]) + [all[k]]
  {
    assert all[..k + 1][..k] == all[..k];
  }

  lemma {:induction false} MissingAre(reduced: seq<Label>, all: seq<Label>)
    ensures forall x :: x in Missing(reduced, all) <==> x in all && x !in reduced
  {
    if |all| > 0 {
      MissingAre(reduced, all[..|all| - 1]);
      assert all == all[..|all| - 1] + [all[|all| - 1]];
    }
  }

  lemma {:induction false} AfterIsMeasured<Body>(shape: Shape<Body>, r: Record<Body>, k: nat)
    requires k <= |REDUCTIONS|
    ensures var out := After(shape, r, k); out.bytes == shape.size(out.body, out.reduced) && out.id == r.id
  {
    if k > 0 {
      AfterIsMeasured(shape, r, k - 1);
    }
  }

  lemma {:induction false} AfterGrows<Body>(shape: Shape<Body>, r: Record<Body>, j: nat, k: nat)
    requires j <= k <= |REDUCTIONS|
    ensures After(shape, r, j).reduced <= After(shape, r, k).reduced
    decreases k
  {
    if j < k {
      AfterGrows(shape, r, j, k - 1);
    }
  }

  // ---- one session's records -------------------------------------------------------------------------------

  function Bytes<Body>(rs: seq<Record<Body>>): nat {
    if |rs| == 0 then 0 else rs[0].bytes + Bytes(rs[1..])
  }

  predicate InBounds<Body>(limits: Limits, rs: seq<Record<Body>>) {
    |rs| <= limits.records && Bytes(rs) <= limits.bytes
  }

  // The records kept: the oldest go until the bounds hold.
  function Fit<Body>(limits: Limits, rs: seq<Record<Body>>): (kept: seq<Record<Body>>)
    ensures InBounds(limits, kept)
    ensures exists k :: Cut(limits, rs, kept, k)
  {
    if |rs| == 0 || InBounds(limits, rs) then
      assert Cut(limits, rs, rs, 0);
      rs
    else
      var kept := Fit(limits, rs[1..]);
      assert exists k :: Cut(limits, rs, kept, k) by { FitStep(limits, rs, kept); }
      kept
  }

  // kept is rs without its k oldest, and no fewer could have gone.
  ghost predicate Cut<Body>(limits: Limits, rs: seq<Record<Body>>, kept: seq<Record<Body>>, k: nat) {
    k <= |rs| && kept == rs[k..] && forall j :: 0 <= j < k ==> !InBounds(limits, rs[j..])
  }

  lemma FitStep<Body>(limits: Limits, rs: seq<Record<Body>>, kept: seq<Record<Body>>)
    requires |rs| > 0 && !InBounds(limits, rs) && exists k :: Cut(limits, rs[1..], kept, k)
    ensures exists k :: Cut(limits, rs, kept, k)
  {
    var k: nat :| Cut(limits, rs[1..], kept, k);
    assert rs[1..][k..] == rs[k + 1..];
    forall j | 0 <= j < k + 1
      ensures !InBounds(limits, rs[j..])
    {
      if j > 0 {
        assert rs[1..][j - 1..] == rs[j..];
      } else {
        assert rs[0..] == rs;
      }
    }
    assert Cut(limits, rs, kept, k + 1);
  }

  // records[id] = r: an id already there keeps its place, a new one is the newest.
  function Position<Body>(rs: seq<Record<Body>>, id: string): (at: nat)
    ensures at <= |rs| && (at < |rs| ==> rs[at].id == id)
    ensures forall i :: 0 <= i < at ==> rs[i].id != id
  {
    IndexOf(rs, (r: Record<Body>) => r.id, id)
  }

  // The first of s by this name; the length when there is none.
  function IndexOf<T>(s: seq<T>, name: T -> string, wanted: string): (at: nat)
    ensures at <= |s| && (at < |s| ==> name(s[at]) == wanted)
    ensures forall i :: 0 <= i < at ==> name(s[i]) != wanted
  {
    if |s| == 0 || name(s[0]) == wanted then 0 else 1 + IndexOf(s[1..], name, wanted)
  }

  function Put<Body>(rs: seq<Record<Body>>, r: Record<Body>): seq<Record<Body>> {
    var at := Position(rs, r.id);
    if at < |rs| then rs[at := r] else rs + [r]
  }

  predicate Holds<Body>(rs: seq<Record<Body>>, id: string) { Position(rs, id) < |rs| }

  // A new record within the per-record bound is never itself evicted.
  lemma FreshIsKept<Body>(limits: Limits, rs: seq<Record<Body>>, r: Record<Body>)
    requires Sane(limits) && r.bytes <= limits.record
    ensures var kept := Fit(limits, rs + [r]); |kept| > 0 && kept[|kept| - 1] == r
  {
    var all := rs + [r];
    var kept := Fit(limits, all);
    var k: nat :| Cut(limits, all, kept, k);
    assert all[|rs|..] == [r];
    assert Bytes([r]) == r.bytes + Bytes([r][1..]);
    assert InBounds(limits, all[|rs|..]);
  }

  lemma {:induction false} BytesOfRest<Body>(rs: seq<Record<Body>>, k: nat)
    requires k <= |rs|
    ensures Bytes(rs[k..]) <= Bytes(rs)
  {
    if k > 0 {
      BytesOfRest(rs[1..], k - 1);
      assert rs[1..][k - 1..] == rs[k..];
    } else {
      assert rs[0..] == rs;
    }
  }

  ghost predicate DistinctIds<Body>(rs: seq<Record<Body>>) {
    forall i, j :: 0 <= i < j < |rs| ==> rs[i].id != rs[j].id
  }

  // For an id that is already there: it keeps its old place, and stays exactly when it fits together with the records
  // that are newer.
  lemma KnownIsKept<Body>(limits: Limits, rs: seq<Record<Body>>, r: Record<Body>)
    requires DistinctIds(rs) && Holds(rs, r.id)
    ensures Holds(Fit(limits, Put(rs, r)), r.id) <==> InBounds(limits, [r] + rs[Position(rs, r.id) + 1..])
  {
    hide IndexOf, InBounds, Fit;
    var at, all := Position(rs, r.id), Put(rs, r);
    var kept := Fit(limits, all);
    var k: nat :| Cut(limits, all, kept, k);
    assert all[at..] == [r] + rs[at + 1..];
    if k <= at {
      assert kept[at - k] == r && kept[at - k..] == all[at..];
      RestIsInBounds(limits, kept, at - k);
    } else {
      assert kept == rs[k..];
      assert forall i :: 0 <= i < |kept| ==> kept[i].id != rs[at].id;
    }
  }

  lemma RestIsInBounds<Body>(limits: Limits, rs: seq<Record<Body>>, k: nat)
    requires k <= |rs| && InBounds(limits, rs)
    ensures InBounds(limits, rs[k..])
  {
    BytesOfRest(rs, k);
  }

  // So it may be the first to go.
  lemma KnownMayGo() returns (limits: Limits, rs: seq<Record<int>>, r: Record<int>)
    ensures Sane(limits) && InBounds(limits, rs) && r.bytes <= limits.record && Holds(rs, r.id)
    ensures !Holds(Fit(limits, Put(rs, r)), r.id)
  {
    hide Fit, Put;
    limits := Limits(48, 25, 25);
    var a, b := Record("a", 0, [], 10), Record("b", 0, [], 10);
    rs, r := [a, b], Record("a", 0, [], 20);
    BytesOfTwo(a, b);
    BytesOfTwo(r, b);
    assert rs[0].id == r.id;
    assert [r] + rs[1..] == [r, b];
    KnownIsKept(limits, rs, r);
  }

  lemma BytesOfTwo<Body>(a: Record<Body>, b: Record<Body>)
    ensures Bytes([a, b]) == a.bytes + b.bytes
  {
    assert [a, b][1..] == [b] && [b][1..] == [];
    assert Bytes([b]) == b.bytes + Bytes([b][1..]);
  }

  // ---- sessions --------------------------------------------------------------------------------------------

  function Find<Body>(store: seq<Session<Body>>, ident: string): (at: nat)
    ensures at <= |store| && (at < |store| ==> store[at].ident == ident)
    ensures forall i :: 0 <= i < at ==> store[i].ident != ident
  {
    IndexOf(store, (s: Session<Body>) => s.ident, ident)
  }

  // The sessions of other names, in their order.
  function Others<Body>(store: seq<Session<Body>>, ident: string): seq<Session<Body>> {
    if |store| == 0 then []
    else if store[0].ident == ident then Others(store[1..], ident) else [store[0]] + Others(store[1..], ident)
  }

  function RecordsOf<Body>(store: seq<Session<Body>>, ident: string): seq<Record<Body>> {
    var at := Find(store, ident);
    if at < |store| then store[at].records else []
  }

  function Without<Body>(store: seq<Session<Body>>, ident: string): seq<Session<Body>> {
    var at := Find(store, ident);
    if at < |store| then store[..at] + store[at + 1..] else store
  }

  // An emptied session leaves the store.
  function Kept<Body>(ident: string, rs: seq<Record<Body>>): seq<Session<Body>> {
    if |rs| == 0 then [] else [Session(ident, rs)]
  }

  function Newest<Body>(store: seq<Session<Body>>, most: nat): seq<Session<Body>> {
    if |store| > most then store[|store| - most..] else store
  }

  ghost predicate GoodRecord<Body>(shape: Shape<Body>, limits: Limits, r: Record<Body>) {
    r.bytes == shape.size(r.body, r.reduced) && r.bytes <= limits.record
  }

  ghost predicate GoodSession<Body>(shape: Shape<Body>, limits: Limits, s: Session<Body>) {
    && |s.records| > 0 && InBounds(limits, s.records)
    && (forall i :: 0 <= i < |s.records| ==> GoodRecord(shape, limits, s.records[i]))
    && (forall i, j :: 0 <= i < j < |s.records| ==> s.records[i].id != s.records[j].id)
  }

  ghost predicate GoodStore<Body>(shape: Shape<Body>, limits: Limits, most: nat, store: seq<Session<Body>>) {
    |store| <= most && GoodSessions(shape, limits, store)
  }

  ghost predicate GoodSessions<Body>(shape: Shape<Body>, limits: Limits, store: seq<Session<Body>>) {
    && (forall i :: 0 <= i < |store| ==> GoodSession(shape, limits, store[i]))
    && (forall i, j :: 0 <= i < j < |store| ==> store[i].ident != store[j].ident)
  }

  // What add makes of a store, the record already reduced.
  function Added<Body>(limits: Limits, most: nat, store: seq<Session<Body>>, ident: string, r: Record<Body>)
    : seq<Session<Body>>
  {
    Newest(Without(store, ident) + Kept(ident, Fit(limits, Put(RecordsOf(store, ident), r))), most)
  }

  ghost predicate GoodRecords<Body>(shape: Shape<Body>, limits: Limits, rs: seq<Record<Body>>) {
    && (forall i :: 0 <= i < |rs| ==> GoodRecord(shape, limits, rs[i]))
    && (forall i, j :: 0 <= i < j < |rs| ==> rs[i].id != rs[j].id)
  }

  lemma PutKeeps<Body>(shape: Shape<Body>, limits: Limits, rs: seq<Record<Body>>, r: Record<Body>)
    requires GoodRecords(shape, limits, rs) && GoodRecord(shape, limits, r)
    ensures GoodRecords(shape, limits, Put(rs, r))
  {
  }

  lemma FitKeeps<Body>(shape: Shape<Body>, limits: Limits, rs: seq<Record<Body>>, ident: string)
    requires GoodRecords(shape, limits, rs)
    ensures GoodRecords(shape, limits, Fit(limits, rs))
    ensures forall s <- Kept(ident, Fit(limits, rs)) :: GoodSession(shape, limits, s) && s.ident == ident
  {
    var kept := Fit(limits, rs);
    var k: nat :| Cut(limits, rs, kept, k);
  }

  lemma WithoutKeeps<Body>(shape: Shape<Body>, limits: Limits, store: seq<Session<Body>>, ident: string)
    requires GoodSessions(shape, limits, store)
    ensures var out := Without(store, ident);
            GoodSessions(shape, limits, out) && forall i :: 0 <= i < |out| ==> out[i].ident != ident
  {
    hide GoodSession;
    var at, out := Find(store, ident), Without(store, ident);
    assert forall i :: 0 <= i < |out| ==> out[i] == store[if i < at then i else i + 1];
  }

  lemma AppendKeeps<Body>(shape: Shape<Body>, limits: Limits, store: seq<Session<Body>>, s: Session<Body>)
    requires GoodSessions(shape, limits, store) && GoodSession(shape, limits, s)
    requires forall i :: 0 <= i < |store| ==> store[i].ident != s.ident
    ensures GoodSessions(shape, limits, store + [s])
  {
  }

  lemma NewestKeeps<Body>(shape: Shape<Body>, limits: Limits, most: nat, store: seq<Session<Body>>)
    requires GoodSessions(shape, limits, store)
    ensures GoodStore(shape, limits, most, Newest(store, most))
  {
  }

  lemma RecordsAreGood<Body>(shape: Shape<Body>, limits: Limits, store: seq<Session<Body>>, ident: string)
    requires GoodSessions(shape, limits, store)
    ensures GoodRecords(shape, limits, RecordsOf(store, ident))
  {
    var at := Find(store, ident);
    assert at < |store| ==> GoodSession(shape, limits, store[at]);
  }

  lemma AddedIsGood<Body>(shape: Shape<Body>, limits: Limits, most: nat, store: seq<Session<Body>>, ident: string,
                          r: Record<Body>)
    requires GoodStore(shape, limits, most, store) && GoodRecord(shape, limits, r)
    ensures GoodStore(shape, limits, most, Added(limits, most, store, ident, r))
  {
    hide GoodSessions, GoodSession, GoodRecords, Without, Fit;
    var rs, without := RecordsOf(store, ident), Without(store, ident);
    RecordsAreGood(shape, limits, store, ident);
    PutKeeps(shape, limits, rs, r);
    FitKeeps(shape, limits, Put(rs, r), ident);
    WithoutKeeps(shape, limits, store, ident);
    var kept := Kept(ident, Fit(limits, Put(rs, r)));
    if |kept| > 0 {
      assert kept[0] in kept && kept == [kept[0]];
      AppendKeeps(shape, limits, without, kept[0]);
    } else {
      assert without + kept == without;
    }
    NewestKeeps(shape, limits, most, without + kept);
  }

  lemma PutFresh<Body>(rs: seq<Record<Body>>, r: Record<Body>)
    requires !Holds(rs, r.id)
    ensures Put(rs, r) == rs + [r]
  {
  }

  // A fresh id whose record could be reduced is stored, newest of its session, its session newest of all.
  lemma AddedIsThere<Body>(limits: Limits, most: nat, store: seq<Session<Body>>, ident: string, r: Record<Body>)
    requires Sane(limits) && most >= 1 && r.bytes <= limits.record && !Holds(RecordsOf(store, ident), r.id)
    ensures var store' := Added(limits, most, store, ident, r);
            && |store'| > 0 && store'[|store'| - 1].ident == ident
            && var rs := store'[|store'| - 1].records; |rs| > 0 && rs[|rs| - 1] == r
  {
    hide IndexOf, Position, Find, RecordsOf, Fit, Without;
    assert Put(RecordsOf(store, ident), r) == RecordsOf(store, ident) + [r] by { PutFresh(RecordsOf(store, ident), r); }
    FreshIsKept(limits, RecordsOf(store, ident), r);
  }

  lemma LastIsFound<Body>(shape: Shape<Body>, limits: Limits, store: seq<Session<Body>>, ident: string, r: Record<Body>)
    requires GoodSessions(shape, limits, store)
    requires |store| > 0 && store[|store| - 1].ident == ident
    requires var rs := store[|store| - 1].records; |rs| > 0 && rs[|rs| - 1] == r
    ensures Holds(RecordsOf(store, ident), r.id)
  {
  }

  lemma NotWithout<Body>(shape: Shape<Body>, limits: Limits, store: seq<Session<Body>>, s: Session<Body>)
    requires forall i :: 0 <= i < |store| ==> store[i].ident != s.ident
    ensures RecordsOf(store + [s], s.ident) == s.records && RecordsOf(store, s.ident) == []
  {
    hide IndexOf;
    var all := store + [s];
    assert all[|store|] == s && forall i :: 0 <= i < |store| ==> all[i] == store[i];
    assert Find(all, s.ident) == |store| && Find(store, s.ident) == |store|;
  }

  // The session added to has exactly the records that fit.
  lemma AddedRecords<Body>(shape: Shape<Body>, limits: Limits, most: nat, store: seq<Session<Body>>, ident: string,
                           r: Record<Body>)
    requires GoodSessions(shape, limits, store) && most >= 1
    ensures RecordsOf(Added(limits, most, store, ident, r), ident) == Fit(limits, Put(RecordsOf(store, ident), r))
  {
    hide Fit, Put, Without, RecordsOf, GoodSessions, Newest;
    WithoutKeeps(shape, limits, store, ident);
    var without, rs := Without(store, ident), Fit(limits, Put(RecordsOf(store, ident), r));
    if |rs| == 0 {
      assert without + Kept(ident, rs) == without;
      NewestIsRest(without, most);
      NotWithout(shape, limits, Newest(without, most), Session(ident, rs));
    } else {
      NewestOfMore(without, Session(ident, rs), most);
      NewestIsRest(without, most - 1);
      NotWithout(shape, limits, Newest(without, most - 1), Session(ident, rs));
    }
  }

  // What add leaves of a store: the other sessions as they were and in their order, the oldest gone while there are too
  // many, and the one added to behind them, unless it is left with no record.
  lemma AddedIsExact<Body>(shape: Shape<Body>, limits: Limits, most: nat, store: seq<Session<Body>>, ident: string,
                           r: Record<Body>)
    requires GoodSessions(shape, limits, store)
    ensures var before := Others(store, ident);
            var rs := Fit(limits, Put(RecordsOf(store, ident), r));
            var all := if rs == [] then before else before + [Session(ident, rs)];
            Added(limits, most, store, ident, r) == all[if |all| > most then |all| - most else 0..]
  {
    hide Fit, Put, RecordsOf, Without, Others, GoodSession;
    WithoutIsOthers(store, ident);
    var others := Others(store, ident);
    assert others + [] == others && others[0..] == others;
  }

  lemma {:induction false} OthersAll<Body>(store: seq<Session<Body>>, ident: string)
    requires forall i :: 0 <= i < |store| ==> store[i].ident != ident
    ensures Others(store, ident) == store
  {
    if |store| > 0 {
      OthersAll(store[1..], ident);
    }
  }

  lemma {:induction false} WithoutIsOthers<Body>(store: seq<Session<Body>>, ident: string)
    requires forall i, j :: 0 <= i < j < |store| ==> store[i].ident != store[j].ident
    ensures Without(store, ident) == Others(store, ident)
  {
    var at := Find(store, ident);
    if |store| > 0 {
      if at == 0 {
        OthersAll(store[1..], ident);
      } else {
        WithoutIsOthers(store[1..], ident);
        assert Find(store[1..], ident) == at - 1;
        assert store[1..][..at - 1] == store[1..at];
      }
    }
  }

  lemma NewestIsRest<Body>(store: seq<Session<Body>>, most: nat)
    ensures exists k :: 0 <= k <= |store| && Newest(store, most) == store[k..]
  {
    assert store[0..] == store;
  }

  lemma NewestOfMore<Body>(store: seq<Session<Body>>, s: Session<Body>, most: nat)
    requires most >= 1
    ensures Newest(store + [s], most) == Newest(store, most - 1) + [s]
  {
  }

  // add under an id that is there already.
  lemma KnownIsStored<Body>(shape: Shape<Body>, limits: Limits, most: nat, store: seq<Session<Body>>, ident: string,
                            r: Record<Body>)
    requires GoodSessions(shape, limits, store) && most >= 1 && Holds(RecordsOf(store, ident), r.id)
    ensures var rs := RecordsOf(store, ident);
            Holds(RecordsOf(Added(limits, most, store, ident, r), ident), r.id) <==>
              InBounds(limits, [r] + rs[Position(rs, r.id) + 1..])
  {
    hide RecordsOf, Added, GoodSessions, Fit, Put;
    AddedRecords(shape, limits, most, store, ident, r);
    RecordsAreGood(shape, limits, store, ident);
    KnownIsKept(limits, RecordsOf(store, ident), r);
  }

  // add, whole: the store stays good, and a record with a fresh id is in it.
  lemma AddIsSound<Body>(shape: Shape<Body>, limits: Limits, most: nat, store: seq<Session<Body>>, ident: string,
                         record: Record<Body>)
    requires GoodStore(shape, limits, most, store) && Sane(limits) && most >= 1
    requires Reduced(shape, record, limits.record).bytes <= limits.record
    ensures var r := Reduced(shape, record, limits.record);
            && r.id == record.id
            && GoodStore(shape, limits, most, Added(limits, most, store, ident, r))
            && (!Holds(RecordsOf(store, ident), r.id) ==>
                  Holds(RecordsOf(Added(limits, most, store, ident, r), ident), r.id))
  {
    hide GoodSessions, Added, Reduced, RecordsOf, Holds;
    var r := Reduced(shape, record, limits.record);
    ReducedIsLeastLoss(shape, record, limits.record);
    AddedIsGood(shape, limits, most, store, ident, r);
    if !Holds(RecordsOf(store, ident), r.id) {
      AddedIsThere(limits, most, store, ident, r);
      LastIsFound(shape, limits, Added(limits, most, store, ident, r), ident, r);
    }
  }

  // Changing one session's records in place: the session stays where it is, or goes when nothing of it is left.
  function Changed<Body>(store: seq<Session<Body>>, ident: string, rs: seq<Record<Body>>): seq<Session<Body>> {
    var at := Find(store, ident);
    if at < |store| then store[..at] + Kept(ident, rs) + store[at + 1..] else store
  }

  lemma ChangedIsGood<Body>(shape: Shape<Body>, limits: Limits, most: nat, store: seq<Session<Body>>, ident: string,
                            rs: seq<Record<Body>>)
    requires GoodStore(shape, limits, most, store) && GoodRecords(shape, limits, rs)
    ensures GoodStore(shape, limits, most, Changed(store, ident, Fit(limits, rs)))
  {
    hide Fit, GoodSessions, GoodSession, GoodRecords, IndexOf;
    FitKeeps(shape, limits, rs, ident);
    var at, fit := Find(store, ident), Fit(limits, rs);
    if at < |store| {
      if |fit| == 0 {
        SplicedNone(store, at);
        WithoutKeeps(shape, limits, store, ident);
      } else {
        var session := Session(ident, fit);
        assert session in Kept(ident, fit);
        SplicedOne(store, at, session);
        ReplaceKeeps(shape, limits, store, at, session);
      }
    }
  }

  lemma SplicedNone<T>(s: seq<T>, at: nat)
    requires at < |s|
    ensures s[..at] + [] + s[at + 1..] == s[..at] + s[at + 1..]
  {
  }

  lemma SplicedOne<T>(s: seq<T>, at: nat, x: T)
    requires at < |s|
    ensures s[..at] + [x] + s[at + 1..] == s[at := x]
  {
  }

  lemma ReplaceKeeps<Body>(shape: Shape<Body>, limits: Limits, store: seq<Session<Body>>, at: nat, s: Session<Body>)
    requires GoodSessions(shape, limits, store) && GoodSession(shape, limits, s)
    requires at < |store| && store[at].ident == s.ident
    ensures GoodSessions(shape, limits, store[at := s])
  {
    hide GoodSession;
  }

  function Deleted<Body>(rs: seq<Record<Body>>, id: string): seq<Record<Body>> {
    var at := Position(rs, id);
    if at < |rs| then rs[..at] + rs[at + 1..] else rs
  }

  // What update leaves of a session's records: the changed record reduced, or dropped when it cannot be.
  function Updated<Body>(shape: Shape<Body>, limits: Limits, rs: seq<Record<Body>>, id: string, change: Body -> Body)
    : seq<Record<Body>>
  {
    var at := Position(rs, id);
    if at == |rs| then rs
    else
      var r := Reduced(shape, rs[at].(body := change(rs[at].body)), limits.record);
      if r.bytes <= limits.record then rs[at := r] else Deleted(rs, id)
  }

  lemma DeletedKeeps<Body>(shape: Shape<Body>, limits: Limits, rs: seq<Record<Body>>, id: string)
    requires GoodRecords(shape, limits, rs)
    ensures GoodRecords(shape, limits, Deleted(rs, id)) && !Holds(Deleted(rs, id), id)
  {
    hide IndexOf;
    var at, out := Position(rs, id), Deleted(rs, id);
    assert forall i :: 0 <= i < |out| ==> out[i] == rs[if i < at then i else i + 1];
  }

  lemma UpdatedKeeps<Body>(shape: Shape<Body>, limits: Limits, rs: seq<Record<Body>>, id: string, change: Body -> Body)
    requires GoodRecords(shape, limits, rs)
    ensures GoodRecords(shape, limits, Updated(shape, limits, rs, id, change))
  {
    hide Reduced, IndexOf, Deleted;
    var at := Position(rs, id);
    if at < |rs| {
      var record := rs[at].(body := change(rs[at].body));
      ReducedIsLeastLoss(shape, record, limits.record);
      DeletedKeeps(shape, limits, rs, id);
    }
  }

  // A change to the record `id`, at place `at`: the records of its session are those that fit of the old ones with the
  // changed record, reduced, in its old place, or without it when it cannot be reduced to its bound. Every other session
  // is as it was, and in its place; this one is in its own, or gone when it is left with no record.
  lemma UpdateIsExact<Body>(shape: Shape<Body>, limits: Limits, store: seq<Session<Body>>, ident: string, id: string,
                            change: Body -> Body, k: nat, at: nat)
    requires GoodSessions(shape, limits, store)
    requires k < |store| && store[k].ident == ident && at < |store[k].records| && store[k].records[at].id == id
    ensures var rs := store[k].records;
            var r := Reduced(shape, rs[at].(body := change(rs[at].body)), limits.record);
            var left := Fit(limits, if r.bytes <= limits.record then rs[..at] + [r] + rs[at + 1..]
                                    else rs[..at] + rs[at + 1..]);
            Changed(store, ident, Fit(limits, Updated(shape, limits, RecordsOf(store, ident), id, change)))
              == if left == [] then store[..k] + store[k + 1..] else store[k := Session(ident, left)]
  {
    hide Reduced, Fit, IndexOf, GoodRecord, InBounds;
    var rs := store[k].records;
    assert Find(store, ident) == k && RecordsOf(store, ident) == rs;
    assert GoodSession(shape, limits, store[k]) && Position(rs, id) == at;
    hide Find, Position, GoodSessions;
    SplicedOne(rs, at, Reduced(shape, rs[at].(body := change(rs[at].body)), limits.record));
    var left := Fit(limits, Updated(shape, limits, rs, id, change));
    if left == [] {
      SplicedNone(store, k);
    } else {
      SplicedOne(store, k, Session(ident, left));
    }
  }

  lemma UpdateIsSound<Body>(shape: Shape<Body>, limits: Limits, most: nat, store: seq<Session<Body>>, ident: string,
                            id: string, change: Body -> Body)
    requires GoodStore(shape, limits, most, store)
    ensures GoodStore(shape, limits, most,
              Changed(store, ident, Fit(limits, Updated(shape, limits, RecordsOf(store, ident), id, change))))
  {
    hide GoodSessions, GoodRecords;
    RecordsAreGood(shape, limits, store, ident);
    UpdatedKeeps(shape, limits, RecordsOf(store, ident), id, change);
    ChangedIsGood(shape, limits, most, store, ident, Updated(shape, limits, RecordsOf(store, ident), id, change));
  }

  lemma AddIsKept<Body>(shape: Shape<Body>, limits: Limits, most: nat, store: seq<Session<Body>>, ident: string,
                        r: Record<Body>)
    requires GoodStore(shape, limits, most, store) && most >= 1
    ensures var rs := RecordsOf(store, ident);
            Holds(rs, r.id) ==>
              (Holds(RecordsOf(Added(limits, most, store, ident, r), ident), r.id) <==>
                 InBounds(limits, [r] + rs[Position(rs, r.id) + 1..]))
  {
    hide Holds, RecordsOf, Added, GoodSessions, InBounds, Position;
    if Holds(RecordsOf(store, ident), r.id) {
      KnownIsStored(shape, limits, most, store, ident, r);
    }
  }

  class Journal<Body> {
    const shape: Shape<Body>
    const limits: Limits
    const most: map<Kind, nat>
    var stores: map<Kind, seq<Session<Body>>>

    ghost predicate Valid()
      reads this
    {
      && Sane(limits) && most.Keys == stores.Keys == {Bound, Private}
      && forall kind <- most :: most[kind] >= 1 && GoodStore(shape, limits, most[kind], stores[kind])
    }

    // Every bound is raised to one, and a record's is kept within its session's.
    constructor (shape: Shape<Body>, sessions: int, privates: int, records: int, bytes: int, recordBytes: int)
      ensures Valid() && stores == map[Bound := [], Private := []] && this.shape == shape
      ensures most == map[Bound := if sessions < 1 then 1 else sessions, Private := if privates < 1 then 1 else privates]
      ensures limits.records == (if records < 1 then 1 else records) && limits.bytes == (if bytes < 1 then 1 else bytes)
      ensures limits.record == if recordBytes > bytes then limits.bytes else if recordBytes < 1 then 1 else recordBytes
    {
      this.shape := shape;
      var total := AtLeastOne(bytes);
      var single := AtLeastOne(recordBytes);
      limits := Limits(AtLeastOne(records), total, if single < total then single else total);
      most := map[Bound := AtLeastOne(sessions), Private := AtLeastOne(privates)];
      stores := map[Bound := [], Private := []];
    }

    method Reduce(r: Record<Body>) returns (out: Record<Body>, ok: bool)
      ensures out == Reduced(shape, r, limits.record) && (ok <==> out.bytes <= limits.record)
    {
      out := r.(bytes := shape.size(r.body, r.reduced));
      var k := 0;
      while k < |REDUCTIONS| && out.bytes > limits.record
        invariant k <= |REDUCTIONS| && out == After(shape, r, k)
        invariant StepsFrom(shape, r, limits.record, 0) == StepsFrom(shape, r, limits.record, k)
      {
        var step := REDUCTIONS[k];
        if step !in out.reduced {
          out := out.(body := shape.drop(step, out.body), reduced := out.reduced + [step]);
          out := out.(bytes := shape.size(out.body, out.reduced));
        }
        k := k + 1;
      }
      ok := out.bytes <= limits.record;
    }

    method FitRecords(rs: seq<Record<Body>>) returns (kept: seq<Record<Body>>)
      ensures kept == Fit(limits, rs)
    {
      kept := rs;
      while |kept| > 0 && (|kept| > limits.records || Bytes(kept) > limits.bytes)
        invariant Fit(limits, rs) == Fit(limits, kept)
      {
        kept := kept[1..];
      }
    }

    // Keeps `record`, reduced as far as its bound needs; false when it is not among the records afterwards.
    method Add(kind: Kind, ident: string, record: Record<Body>) returns (kept: bool)
      requires Valid()
      modifies this
      ensures Valid()
      ensures var r := Reduced(shape, record, limits.record);
              if r.bytes > limits.record then !kept && stores == old(stores)
              else && stores == old(stores)[kind := Added(limits, most[kind], old(stores)[kind], ident, r)]
                   && (kept <==> Holds(RecordsOf(stores[kind], ident), record.id))
      // a new id stays when its record could be reduced to fit; a known one when it then fits with the newer records
      ensures var rs, r := RecordsOf(old(stores)[kind], ident), Reduced(shape, record, limits.record);
              kept <==> r.bytes <= limits.record &&
                        (Holds(rs, record.id) ==> InBounds(limits, [r] + rs[Position(rs, record.id) + 1..]))
    {
      hide GoodStore, Reduced, RecordsOf, Without, Holds, Fit, Put, Kept, Newest, Sane;
      var r, ok := Reduce(record);
      if !ok {
        return false;
      }
      AddIsSound(shape, limits, most[kind], stores[kind], ident, record);
      AddIsKept(shape, limits, most[kind], stores[kind], ident, r);
      var store := stores[kind];
      var records := FitRecords(Put(RecordsOf(store, ident), r));
      store := Trim(Without(store, ident) + Kept(ident, records), most[kind]);
      stores := stores[kind := store];
      kept := Holds(RecordsOf(store, ident), r.id);
    }

    method Trim(store: seq<Session<Body>>, most: nat) returns (left: seq<Session<Body>>)
      ensures left == Newest(store, most)
    {
      left := store;
      while |left| > most
        invariant |left| <= |store| && left == store[|store| - |left|..]
        invariant if |store| > most then |left| >= most else left == store
      {
        left := left[1..];
      }
    }

    // Changes a stored record; the bounds are of what is stored after it.
    method Update(kind: Kind, ident: string, id: string, change: Body -> Body)
      requires Valid()
      modifies this
      ensures Valid()
      ensures var was := old(stores)[kind];
              stores == if Holds(RecordsOf(was, ident), id)
                        then old(stores)[kind := Changed(was, ident,
                               Fit(limits, Updated(shape, limits, RecordsOf(was, ident), id, change)))]
                        else old(stores)
    {
      hide GoodStore, Reduced, Fit, Changed, IndexOf, Position, Find, RecordsOf, Sane, After;
      var store := stores[kind];
      var records := RecordsOf(store, ident);
      var at := Position(records, id);
      if at == |records| {
        return;
      }
      UpdateIsSound(shape, limits, most[kind], store, ident, id, change);
      var r, ok := Reduce(records[at].(body := change(records[at].body)));
      records := if ok then records[at := r] else records[..at] + records[at + 1..];
      records := FitRecords(records);
      stores := stores[kind := Changed(store, ident, records)];
    }

    // A bound session's records, newest first: nothing of a private one can be asked for.
    method List(ident: string) returns (rs: seq<Record<Body>>)
      requires Valid()
      ensures var all := RecordsOf(stores[Bound], ident);
              |rs| == |all| && forall i :: 0 <= i < |rs| ==> rs[i] == all[|all| - 1 - i]
    {
      var all := RecordsOf(stores[Bound], ident);
      rs := seq(|all|, i requires 0 <= i < |all| => all[|all| - 1 - i]);
    }
  }
}
