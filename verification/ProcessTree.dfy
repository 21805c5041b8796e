/** The processes below a process (dream/computer.py, _descendants): one pass over the process table groups the
    processes by parent, then a worklist visits them. The links are arbitrary: a table read while processes come and
    go may hold cycles, orphans and repeats. */
module ProcessTree {
  import opened Common

  const CAP: nat := 4096            // _DESCENDANT_CAP

  // What reading one process's stat gave: it is gone, it was refused or malformed, or it names its parent.
  datatype Stat = Gone | Unreadable | Parent(pid: int)
  datatype Row = Row(pid: int, stat: Stat)

  predicate Link(rows: seq<Row>, parent: int, child: int) {
    Row(child, Parent(parent)) in rows
  }

  // ---- what "below" means ----------------------------------------------------------------------------------

  predicate IsPath(rows: seq<Row>, path: seq<int>) {
    |path| > 0 && forall i :: 0 < i < |path| ==> Link(rows, path[i - 1], path[i])
  }

  ghost predicate Reaches(rows: seq<Row>, pid: int, q: int) {
    exists path :: IsPath(rows, path) && path[0] == pid && path[|path| - 1] == q
  }

  ghost predicate Below(rows: seq<Row>, pid: int, q: int) {
    q != pid && Reaches(rows, pid, q)
  }

  function Pids(rows: seq<Row>): set<int> { set r <- rows :: r.pid }

  ghost function AllBelow(rows: seq<Row>, pid: int): set<int> {
    set q <- Pids(rows) | Below(rows, pid, q)
  }

  lemma ReachesItself(rows: seq<Row>, pid: int)
    ensures Reaches(rows, pid, pid)
  {
    assert IsPath(rows, [pid]);
  }

  lemma ReachesChild(rows: seq<Row>, pid: int, p: int, q: int)
    requires Reaches(rows, pid, p) && Link(rows, p, q)
    ensures Reaches(rows, pid, q) && q in Pids(rows)
  {
    var path :| IsPath(rows, path) && path[0] == pid && path[|path| - 1] == p;
    var longer := path + [q];
    assert IsPath(rows, longer) && longer[0] == pid && longer[|longer| - 1] == q;
    assert Row(q, Parent(p)).pid in Pids(rows);
  }

  // Everything below pid is in the table.
  lemma BelowIsListed(rows: seq<Row>, pid: int, q: int)
    requires Below(rows, pid, q)
    ensures q in Pids(rows)
  {
    var path :| IsPath(rows, path) && path[0] == pid && path[|path| - 1] == q;
    assert Link(rows, path[|path| - 2], path[|path| - 1]);
    assert Row(q, Parent(path[|path| - 2])).pid in Pids(rows);
  }

  predicate Closed(rows: seq<Row>, s: set<int>) {
    forall r <- rows :: r.stat.Parent? && r.stat.pid in s ==> r.pid in s
  }

  // A path never leaves a closed set.
  lemma {:induction false} PathStays(rows: seq<Row>, s: set<int>, path: seq<int>)
    requires IsPath(rows, path) && path[0] in s && Closed(rows, s)
    ensures path[|path| - 1] in s
  {
    if |path| > 1 {
      var front := path[..|path| - 1];
      PathStays(rows, s, front);
      assert Link(rows, path[|path| - 2], path[|path| - 1]);
      assert Row(path[|path| - 1], Parent(path[|path| - 2])) in rows;
    }
  }

  lemma ClosedHoldsAll(rows: seq<Row>, pid: int, s: set<int>, q: int)
    requires pid in s && Closed(rows, s) && Reaches(rows, pid, q)
    ensures q in s
  {
    var path :| IsPath(rows, path) && path[0] == pid && path[|path| - 1] == q;
    PathStays(rows, s, path);
  }

  // ---- grouping by parent ----------------------------------------------------------------------------------

  function ChildrenOf(rows: seq<Row>, parent: int): (r: seq<int>)
    ensures forall q :: q in r <==> Link(rows, parent, q)
  {
    if rows == [] then []
    else
      var front, last := rows[..|rows| - 1], rows[|rows| - 1];
      assert rows == front + [last];
      ChildrenOf(front, parent) + if last.stat == Parent(parent) then [last.pid] else []
  }

  function Get(children: map<int, seq<int>>, parent: int): seq<int> {
    if parent in children then children[parent] else []
  }

  ghost predicate Grouped(children: map<int, seq<int>>, rows: seq<Row>) {
    forall p :: Get(children, p) == ChildrenOf(rows, p)
  }

  // The map with one more row in it.
  function WithRow(children: map<int, seq<int>>, row: Row): map<int, seq<int>> {
    if row.stat.Parent? then children[row.stat.pid := Get(children, row.stat.pid) + [row.pid]] else children
  }

  lemma GroupedNext(children: map<int, seq<int>>, rows: seq<Row>, i: nat)
    requires i < |rows| && Grouped(children, rows[..i])
    ensures Grouped(WithRow(children, rows[i]), rows[..i + 1])
  {
    forall p
      ensures Get(WithRow(children, rows[i]), p) == ChildrenOf(rows[..i + 1], p)
    {
      ChildrenNext(rows, i, p);
    }
  }

  lemma ChildrenNext(rows: seq<Row>, i: nat, p: int)
    requires i < |rows|
    ensures ChildrenOf(rows[..i + 1], p)
         == ChildrenOf(rows[..i], p) + if rows[i].stat == Parent(p) then [rows[i].pid] else []
  {
    assert rows[..i + 1][..i] == rows[..i];
  }

  method Group(rows: seq<Row>) returns (r: Option<map<int, seq<int>>>)
    ensures r.None? <==> exists row <- rows :: row.stat.Unreadable?
    ensures r.Some? ==> Grouped(r.value, rows)
  {
    hide Grouped;
    var children: map<int, seq<int>> := map[];
    NothingGrouped(rows);
    for i := 0 to |rows|
      invariant forall j :: 0 <= j < i ==> !rows[j].stat.Unreadable?
      invariant Grouped(children, rows[..i])
    {
      GroupedNext(children, rows, i);
      match rows[i].stat {
        case Unreadable =>
          return None;
        case Gone =>
        case Parent(parent) =>
          children := children[parent := Get(children, parent) + [rows[i].pid]];
      }
    }
    assert rows[..|rows|] == rows;
    r := Some(children);
  }

  lemma NothingGrouped(rows: seq<Row>)
    ensures Grouped(map[], rows[..0])
  {
  }

  // ---- the worklist ----------------------------------------------------------------------------------------

  function Set(s: seq<int>): set<int> { set x <- s }

  predicate Distinct(s: seq<int>) {
    forall i, j :: 0 <= i < j < |s| ==> s[i] != s[j]
  }

  lemma {:induction false} DistinctCount(s: seq<int>)
    requires Distinct(s)
    ensures |Set(s)| == |s|
  {
    if s != [] {
      var front, last := s[..|s| - 1], s[|s| - 1];
      DistinctCount(front);
      assert Set(s) == Set(front) + {last};
    }
  }

  lemma SubsetCount(s: set<int>, t: set<int>)
    requires s <= t
    ensures |s| <= |t|
  {
    assert t == s + (t - s) && s !! (t - s);
  }

  // Every found process is below pid, once, and what is still to be expanded was found.
  ghost predicate Sound(rows: seq<Row>, pid: int, found: seq<int>, frontier: seq<int>) {
    && Distinct(found)
    && (forall q :: q in found ==> Below(rows, pid, q))
    && (forall q :: q in frontier ==> q == pid || q in found)
  }

  // The children of every expanded process were found.
  ghost predicate Expanded(rows: seq<Row>, pid: int, found: seq<int>, frontier: seq<int>) {
    forall p, q :: (p == pid || p in found) && p !in frontier && Link(rows, p, q) ==> q == pid || q in found
  }

  lemma TooMany(rows: seq<Row>, pid: int, found: seq<int>, child: int)
    requires Distinct(found) && (forall q :: q in found ==> Below(rows, pid, q))
    requires Below(rows, pid, child) && child !in found && |found| >= CAP
    ensures |AllBelow(rows, pid)| > CAP
  {
    var more := found + [child];
    forall q | q in more
      ensures q in AllBelow(rows, pid)
    {
      BelowIsListed(rows, pid, q);
    }
    DistinctCount(more);
    SubsetCount(Set(more), AllBelow(rows, pid));
  }

  lemma NothingMissed(rows: seq<Row>, pid: int, found: seq<int>)
    requires Sound(rows, pid, found, []) && Expanded(rows, pid, found, [])
    ensures Set(found) == AllBelow(rows, pid)
  {
    var s := Set(found) + {pid};
    assert Closed(rows, s) by {
      forall r <- rows | r.stat.Parent? && r.stat.pid in s
        ensures r.pid in s
      {
        assert r == Row(r.pid, Parent(r.stat.pid));
        assert Link(rows, r.stat.pid, r.pid);
      }
    }
    forall q | q in AllBelow(rows, pid)
      ensures q in found
    {
      ClosedHoldsAll(rows, pid, s, q);
    }
    forall q | q in found
      ensures q in AllBelow(rows, pid)
    {
      BelowIsListed(rows, pid, q);
    }
  }

  // The children of p not seen before join the found and the frontier; refused when that is one too many.
  method Expand(rows: seq<Row>, pid: int, p: int, children: seq<int>, found0: seq<int>, rest: seq<int>)
    returns (ok: bool, found: seq<int>, frontier: seq<int>)
    requires p == pid || p in found0
    requires forall q :: q in children <==> Link(rows, p, q)
    requires |found0| <= CAP && Sound(rows, pid, found0, rest) && Expanded(rows, pid, found0, rest + [p])
    ensures !ok ==> |AllBelow(rows, pid)| > CAP
    ensures ok ==> |found0| <= |found| <= CAP && |frontier| == |rest| + |found| - |found0|
    ensures ok ==> Sound(rows, pid, found, frontier) && Expanded(rows, pid, found, frontier)
  {
    found, frontier := found0, rest;
    for i := 0 to |children|
      invariant |found0| <= |found| <= CAP && |frontier| == |rest| + |found| - |found0|
      invariant p == pid || p in found
      invariant Sound(rows, pid, found, frontier)
      invariant Expanded(rows, pid, found, frontier + [p])
      invariant forall j :: 0 <= j < i ==> children[j] == pid || children[j] in found
    {
      var child := children[i];
      if child != pid && child !in found {
        IsBelow(rows, pid, p, child, found);
        if |found| >= CAP {
          TooMany(rows, pid, found, child);
          return false, found, frontier;
        }
        Joined(rows, pid, p, child, found, frontier);
        found, frontier := found + [child], frontier + [child];
      }
    }
    ok := true;
    AllExpanded(rows, pid, p, children, found, frontier);
  }

  lemma IsBelow(rows: seq<Row>, pid: int, p: int, child: int, found: seq<int>)
    requires p == pid || p in found
    requires forall q :: q in found ==> Below(rows, pid, q)
    requires Link(rows, p, child) && child != pid
    ensures Below(rows, pid, child)
  {
    ReachesItself(rows, pid);
    ReachesChild(rows, pid, p, child);
  }

  lemma Joined(rows: seq<Row>, pid: int, p: int, child: int, found: seq<int>, frontier: seq<int>)
    requires Sound(rows, pid, found, frontier) && Expanded(rows, pid, found, frontier + [p])
    requires Below(rows, pid, child) && child !in found
    ensures Sound(rows, pid, found + [child], frontier + [child])
    ensures Expanded(rows, pid, found + [child], frontier + [child] + [p])
  {
  }

  lemma AllExpanded(rows: seq<Row>, pid: int, p: int, children: seq<int>, found: seq<int>, frontier: seq<int>)
    requires Expanded(rows, pid, found, frontier + [p])
    requires forall q :: q in children <==> Link(rows, p, q)
    requires forall j :: 0 <= j < |children| ==> children[j] == pid || children[j] in found
    ensures Expanded(rows, pid, found, frontier)
  {
    forall a, q | (a == pid || a in found) && a !in frontier && Link(rows, a, q)
      ensures q == pid || q in found
    {
      if a != p {
        assert a !in frontier + [p];
      }
    }
  }

  // Exactly the processes below pid, each once; None exactly when the table could not be read or they are too many.
  method Descendants(rows: seq<Row>, pid: int) returns (r: Option<seq<int>>)
    ensures r.None? <==> (exists row <- rows :: row.stat.Unreadable?) || |AllBelow(rows, pid)| > 4096
    ensures r.Some? ==> Distinct(r.value) && Set(r.value) == AllBelow(rows, pid)
  {
    hide AllBelow, Expanded, Below, Distinct, Sound;
    var grouped := Group(rows);
    if grouped.None? {
      return None;
    }
    var children := grouped.value;
    var found, frontier := [], [pid];
    Start(rows, pid);
    while frontier != []
      invariant |found| <= CAP && Sound(rows, pid, found, frontier) && Expanded(rows, pid, found, frontier)
      decreases CAP - |found|, |frontier|
    {
      var p, rest := frontier[|frontier| - 1], frontier[..|frontier| - 1];
      assert frontier == rest + [p];
      Popped(rows, pid, found, rest, p);
      var ok, found1, frontier1 := Expand(rows, pid, p, Get(children, p), found, rest);
      if !ok {
        return None;
      }
      found, frontier := found1, frontier1;
    }
    NothingMissed(rows, pid, found);
    FoundCount(rows, pid, found);
    r := Some(found);
  }

  lemma Start(rows: seq<Row>, pid: int)
    ensures Sound(rows, pid, [], [pid]) && Expanded(rows, pid, [], [pid])
  {
  }

  lemma Popped(rows: seq<Row>, pid: int, found: seq<int>, rest: seq<int>, p: int)
    requires Sound(rows, pid, found, rest + [p])
    ensures Sound(rows, pid, found, rest) && (p == pid || p in found)
  {
    assert p in rest + [p];
    assert forall q :: q in rest ==> q in rest + [p];
  }

  lemma FoundCount(rows: seq<Row>, pid: int, found: seq<int>)
    requires Sound(rows, pid, found, []) && Set(found) == AllBelow(rows, pid)
    ensures |AllBelow(rows, pid)| == |found| && Distinct(found)
  {
    DistinctCount(found);
  }

  // The answer does not depend on the order of the table.
  lemma AnyOrder(rows: seq<Row>, other: seq<Row>, pid: int)
    requires forall r :: r in rows <==> r in other
    ensures AllBelow(rows, pid) == AllBelow(other, pid)
  {
    SameBelow(rows, other, pid);
    SameBelow(other, rows, pid);
  }

  lemma SameBelow(rows: seq<Row>, other: seq<Row>, pid: int)
    requires forall r :: r in rows ==> r in other
    ensures AllBelow(rows, pid) <= AllBelow(other, pid)
  {
    forall q | q in AllBelow(rows, pid)
      ensures q in AllBelow(other, pid)
    {
      var path :| IsPath(rows, path) && path[0] == pid && path[|path| - 1] == q;
      assert IsPath(other, path);
      BelowIsListed(other, pid, q);
    }
  }
}
