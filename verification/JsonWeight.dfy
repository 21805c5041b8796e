/** Weighing a JSON value before serialising it (dream/core/context_inspection.py: _weigh, _Work.canonical): an
    iterative walk with a stack that stops early, against the recursive weight it must decide. */
module JsonWeight {
  // Dict entries in order; a key that is not text weighs 8.
  datatype Key = Text(s: string) | Opaque(n: int)
  datatype Field = Field(key: Key, value: Json)
  datatype Json = Scalar | Str(s: string) | List(items: seq<Json>) | Dict(fields: seq<Field>)

  function Max(a: nat, b: nat): nat { if a > b then a else b }

  function KeyWeight(k: Key): nat { if k.Text? then |k.s| else 8 }

  function OwnWeight(v: Json): (w: nat)
    ensures w >= 8
  {
    8 + if v.Str? then |v.s| else 0
  }

  function Weight(v: Json): (w: nat)
    ensures w >= 8
    decreases v
  {
    match v
    case Scalar => 8
    case Str(s) => 8 + |s|
    case List(items) => 8 + |items| + WeightAll(items)
    case Dict(fields) => 8 + WeightFields(fields)
  }

  function WeightAll(items: seq<Json>): (w: nat)
    ensures w >= 8 * |items|
    decreases items
  {
    if |items| == 0 then 0 else Weight(items[0]) + WeightAll(items[1..])
  }

  function WeightField(f: Field): (w: nat)
    ensures w >= 8
    decreases f
  {
    KeyWeight(f.key) + Weight(f.value)
  }

  function WeightFields(fields: seq<Field>): (w: nat)
    ensures w >= 8 * |fields|
    decreases fields
  {
    if |fields| == 0 then 0 else WeightField(fields[0]) + WeightFields(fields[1..])
  }

  // The value itself and everything in it.
  function Elements(v: Json): (n: nat)
    ensures n >= 1
    decreases v
  {
    match v
    case List(items) => 1 + ElementsAll(items)
    case Dict(fields) => 1 + ElementsIn(fields)
    case _ => 1
  }

  function ElementsAll(items: seq<Json>): (n: nat)
    ensures n >= |items|
    decreases items
  {
    if |items| == 0 then 0 else Elements(items[0]) + ElementsAll(items[1..])
  }

  function ElementsIn(fields: seq<Field>): (n: nat)
    ensures n >= |fields|
    decreases fields
  {
    if |fields| == 0 then 0 else ElementsOf(fields[0]) + ElementsIn(fields[1..])
  }

  function ElementsOf(f: Field): (n: nat)
    ensures n >= 1
    decreases f
  {
    Elements(f.value)
  }

  // Everything there is in a value, itself first.
  function Nodes(v: Json): seq<Json>
    decreases v
  {
    match v
    case List(items) => [v] + NodesAll(items)
    case Dict(fields) => [v] + NodesIn(fields)
    case _ => [v]
  }

  function NodesAll(items: seq<Json>): seq<Json>
    decreases items
  {
    if |items| == 0 then [] else Nodes(items[0]) + NodesAll(items[1..])
  }

  function NodesIn(fields: seq<Field>): seq<Json>
    decreases fields
  {
    if |fields| == 0 then [] else NodesOf(fields[0]) + NodesIn(fields[1..])
  }

  function NodesOf(f: Field): seq<Json>
    decreases f
  {
    Nodes(f.value)
  }

  // What each of them adds: eight, a text's characters, a list's length, a dict's keys, eight for one that is no text.
  function Adds(v: Json): nat {
    match v
    case Scalar => 8
    case Str(s) => 8 + |s|
    case List(items) => 8 + |items|
    case Dict(fields) => 8 + KeysAdd(fields)
  }

  function KeysAdd(fields: seq<Field>): nat {
    if |fields| == 0 then 0
    else (if fields[0].key.Opaque? then 8 else |fields[0].key.s|) + KeysAdd(fields[1..])
  }

  function Sum(nodes: seq<Json>): nat {
    if |nodes| == 0 then 0 else Sum(nodes[..|nodes| - 1]) + Adds(nodes[|nodes| - 1])
  }

  lemma {:induction false} SumAppend(a: seq<Json>, b: seq<Json>)
    ensures Sum(a + b) == Sum(a) + Sum(b)
    decreases |b|
  {
    if |b| == 0 {
      assert a + b == a;
    } else {
      assert (a + b)[..|a + b| - 1] == a + b[..|b| - 1];
      SumAppend(a, b[..|b| - 1]);
    }
  }

  lemma SumOne(v: Json)
    ensures Sum([v]) == Adds(v)
  {
    assert [v][..0] == [];
  }

  // The weight is what all of a value's nodes add, and each of them is counted once.
  lemma {:induction false} WeightIsSum(v: Json)
    ensures Weight(v) == Sum(Nodes(v)) && Elements(v) == |Nodes(v)|
    decreases v
  {
    SumOne(v);
    match v {
      case List(items) =>
        SumAppend([v], NodesAll(items));
        WeightAllIsSum(items);
      case Dict(fields) =>
        SumAppend([v], NodesIn(fields));
        WeightInIsSum(fields);
      case _ =>
    }
  }

  lemma {:induction false} WeightAllIsSum(items: seq<Json>)
    ensures WeightAll(items) == Sum(NodesAll(items)) && ElementsAll(items) == |NodesAll(items)|
    decreases items
  {
    if |items| > 0 {
      WeightIsSum(items[0]);
      WeightAllIsSum(items[1..]);
      SumAppend(Nodes(items[0]), NodesAll(items[1..]));
    }
  }

  lemma {:induction false} WeightInIsSum(fields: seq<Field>)
    ensures WeightFields(fields) == KeysAdd(fields) + Sum(NodesIn(fields)) && ElementsIn(fields) == |NodesIn(fields)|
    decreases fields
  {
    if |fields| > 0 {
      WeightOfIsSum(fields[0]);
      WeightInIsSum(fields[1..]);
      SumAppend(NodesOf(fields[0]), NodesIn(fields[1..]));
    }
  }

  lemma {:induction false} WeightOfIsSum(f: Field)
    ensures WeightField(f) == (if f.key.Opaque? then 8 else |f.key.s|) + Sum(NodesOf(f))
    ensures ElementsOf(f) == |NodesOf(f)|
    decreases f
  {
    WeightIsSum(f.value);
  }

  // A dict's keys are pairwise different, at every depth.
  ghost predicate Wf(v: Json)
    decreases v
  {
    match v
    case List(items) => forall i :: 0 <= i < |items| ==> Wf(items[i])
    case Dict(fields) => Different(fields) && forall i :: 0 <= i < |fields| ==> WfField(fields[i])
    case _ => true
  }

  ghost predicate WfField(f: Field)
    decreases f
  {
    Wf(f.value)
  }

  ghost predicate Different(fields: seq<Field>) {
    forall i, j :: 0 <= i < j < |fields| ==> fields[i].key != fields[j].key
  }

  function KeysWeight(fields: seq<Field>): nat {
    if |fields| == 0 then 0 else KeysWeight(fields[..|fields| - 1]) + KeyWeight(fields[|fields| - 1].key)
  }

  // At most one key is the empty text, so n different keys weigh at least n - 1.
  lemma {:induction false} KeysOutweigh(fields: seq<Field>)
    requires Different(fields)
    ensures KeysWeight(fields) + 1 >= |fields|
    ensures (forall f <- fields :: f.key != Text("")) ==> KeysWeight(fields) >= |fields|
    decreases |fields|
  {
    if |fields| > 0 {
      var rest, last := fields[..|fields| - 1], fields[|fields| - 1];
      KeysOutweigh(rest);
      if last.key == Text("") {
        assert forall f <- rest :: f.key != Text("");
        assert last in fields;
      } else {
        assert KeyWeight(last.key) >= 1;
        assert forall f <- rest :: f in fields;
      }
    }
  }

  lemma {:induction false} WeightAllAppend(a: seq<Json>, b: seq<Json>)
    ensures WeightAll(a + b) == WeightAll(a) + WeightAll(b)
    decreases |a|
  {
    if |a| == 0 {
      assert a + b == b;
    } else {
      assert (a + b)[1..] == a[1..] + b;
      WeightAllAppend(a[1..], b);
    }
  }

  lemma WeightAllLast(a: seq<Json>)
    requires |a| > 0
    ensures WeightAll(a) == WeightAll(a[..|a| - 1]) + Weight(a[|a| - 1])
  {
    var b := [a[|a| - 1]];
    assert a == a[..|a| - 1] + b;
    WeightAllAppend(a[..|a| - 1], b);
    assert WeightAll(b) == Weight(b[0]) + WeightAll(b[1..]);
  }

  lemma {:induction false} WeightFieldsSplit(fields: seq<Field>, k: nat)
    requires k < |fields|
    ensures WeightFields(fields[k..]) == KeyWeight(fields[k].key) + Weight(fields[k].value) + WeightFields(fields[k + 1..])
  {
    assert fields[k..][1..] == fields[k + 1..];
  }

  lemma {:induction false} ElementsAppend(a: seq<Json>, b: seq<Json>)
    ensures ElementsAll(a + b) == ElementsAll(a) + ElementsAll(b)
    decreases |a|
  {
    if |a| == 0 {
      assert a + b == b;
    } else {
      assert (a + b)[1..] == a[1..] + b;
      ElementsAppend(a[1..], b);
    }
  }

  function Values(fields: seq<Field>): (r: seq<Json>)
    ensures |r| == |fields|
  {
    seq(|fields|, i requires 0 <= i < |fields| => fields[i].value)
  }

  lemma {:induction false} ElementsOfFields(fields: seq<Field>)
    ensures ElementsIn(fields) == ElementsAll(Values(fields))
    decreases |fields|
  {
    if |fields| > 0 {
      ElementsOfFields(fields[1..]);
      assert Values(fields)[1..] == Values(fields[1..]);
    }
  }

  // What is put on the stack for an element.
  function Inside(v: Json): seq<Json> {
    match v
    case List(items) => items
    case Dict(fields) => Values(fields)
    case _ => []
  }

  // Taking an element off the stack and putting what is inside it there visits no element twice and misses none.
  ghost predicate Counted(visited: nat, stack: seq<Json>, value: Json) {
    visited + ElementsAll(stack) == Elements(value) + |stack|
  }

  lemma CountedNext(visited: nat, rest: seq<Json>, item: Json, value: Json)
    requires Counted(visited, rest + [item], value)
    ensures Counted(visited + |Inside(item)|, rest + Inside(item), value)
    ensures visited + |Inside(item)| <= Elements(value)
  {
    ElementsAppend(rest, [item]);
    ElementsAppend(rest, Inside(item));
    assert ElementsAll([item]) == Elements(item) + ElementsAll([item][1..]);
    if item.Dict? {
      ElementsOfFields(item.fields);
    }
  }

  lemma CountedEnds(visited: nat, stack: seq<Json>, value: Json)
    requires Counted(visited, stack, value)
    ensures visited <= Elements(value) && (stack == [] ==> visited == Elements(value))
  {
  }

  lemma CountedStarts(value: Json)
    ensures Counted(1, [value], value)
  {
    assert ElementsAll([value]) == Elements(value) + ElementsAll([value][1..]);
  }

  // What the walk has found out: the weight of everything while it is within the limit, else only that it is not.
  ghost predicate Decides(v: Json, limit: nat, weight: nat) {
    if Weight(v) <= limit then weight == Weight(v) else weight > limit
  }

  // One element each: what is on the stack has not been weighed, what has been is in `total`.
  ghost predicate Accounted(total: nat, visited: nat, stack: seq<Json>) {
    && |stack| <= visited && 8 * visited <= total + 8 * |stack|
    && forall i <- stack :: Wf(i)
  }

  lemma PopAccounted(total: nat, visited: nat, stack: seq<Json>)
    requires Accounted(total, visited, stack) && |stack| > 0
    ensures var rest, item := stack[..|stack| - 1], stack[|stack| - 1];
            && Accounted(total + OwnWeight(item), visited, rest) && Wf(item)
            && WeightAll(stack) == WeightAll(rest) + Weight(item)
  {
    WeightAllLast(stack);
    assert stack[|stack| - 1] in stack;
  }

  lemma PushAccounted(total: nat, visited: nat, stack: seq<Json>, items: seq<Json>)
    requires Accounted(total, visited, stack) && forall i <- items :: Wf(i)
    ensures Accounted(total, visited + |items|, stack + items)
    ensures WeightAll(stack + items) == WeightAll(stack) + WeightAll(items)
  {
    WeightAllAppend(stack, items);
  }

  // What has been weighed so far and what is still to be weighed make up the value, and everything still to be
  // weighed weighs at least 8 an element: so past either bound, the value is past the limit.
  lemma TooManyIsTooHeavy(total: nat, visited: nat, stack: seq<Json>, more: nat, limit: nat)
    requires Accounted(total, visited, stack) && visited + more > limit
    ensures total + WeightAll(stack) + 8 * more > limit
  {
  }

  lemma Parts(v: Json)
    ensures v.Dict? ==> Weight(v) == 8 + WeightFields(v.fields)
    ensures v.List? ==> Weight(v) == 8 + |v.items| + WeightAll(v.items) && (Wf(v) ==> forall i <- v.items :: Wf(i))
    ensures !v.Dict? && !v.List? ==> Weight(v) == OwnWeight(v)
    ensures Weight(v) >= OwnWeight(v)
  {
  }

  lemma AtStart(value: Json)
    requires Wf(value)
    ensures Accounted(0, 1, [value]) && WeightAll([value]) == Weight(value)
  {
  }

  lemma AtEnd(total: nat, visited: nat)
    requires Accounted(total, visited, [])
    ensures WeightAll([]) == 0 && 8 * visited <= total
  {
  }

  // The walk so far: what is weighed and what is on the stack make up the value.
  ghost predicate Walking(value: Json, limit: nat, total: nat, visited: nat, stack: seq<Json>) {
    && total + WeightAll(stack) == Weight(value) && total <= limit
    && Accounted(total, visited, stack) && Counted(visited, stack, value)
    && (visited == 1 || 1 <= visited <= total)
  }

  lemma StartsWalking(value: Json, limit: nat)
    requires Wf(value)
    ensures Walking(value, limit, 0, 1, [value])
  {
    AtStart(value);
    CountedStarts(value);
  }

  lemma TopTaken(value: Json, limit: nat, total: nat, visited: nat, rest: seq<Json>, item: Json)
    requires Walking(value, limit, total, visited, rest + [item])
    ensures Accounted(total + OwnWeight(item), visited, rest) && Wf(item)
    ensures total + WeightAll(rest) + Weight(item) == Weight(value) && Weight(item) >= OwnWeight(item)
    ensures visited + 7 <= total + OwnWeight(item) && (visited == 1 || 1 <= visited <= limit)
    ensures Counted(visited + |Inside(item)|, rest + Inside(item), value)
    ensures visited + |Inside(item)| <= Elements(value)
  {
    hide Weight, WeightAll, Wf, Accounted, Counted, Elements, Inside, OwnWeight;
    TopPopped(total, visited, rest, item);
    CountedNext(visited, rest, item, value);
  }

  lemma TopPopped(total: nat, visited: nat, rest: seq<Json>, item: Json)
    requires Accounted(total, visited, rest + [item])
    ensures Accounted(total + OwnWeight(item), visited, rest) && Wf(item)
    ensures WeightAll(rest + [item]) == WeightAll(rest) + Weight(item) && Weight(item) >= OwnWeight(item)
  {
    hide Weight, WeightAll, Wf, Accounted, OwnWeight;
    var stack := rest + [item];
    assert stack[..|stack| - 1] == rest && stack[|stack| - 1] == item;
    PopAccounted(total, visited, stack);
    Parts(item);
  }

  lemma EndsWalking(value: Json, limit: nat, total: nat, visited: nat)
    requires Walking(value, limit, total, visited, [])
    ensures total == Weight(value) && 8 * visited <= total && visited == Elements(value)
  {
    AtEnd(total, visited);
    CountedEnds(visited, [], value);
  }

  // ---- the walk --------------------------------------------------------------------------------------------

  // What is on the stack once these have been taken off it, and what is inside each put there.
  ghost function Stacked(value: Json, walked: seq<Json>): seq<Json> {
    if |walked| == 0 then [value]
    else
      var before := Stacked(value, walked[..|walked| - 1]);
      if |before| == 0 then [] else before[..|before| - 1] + Inside(walked[|walked| - 1])
  }

  // Each was on top when it was taken.
  ghost predicate FromTheTop(value: Json, walked: seq<Json>) {
    |walked| == 0 ||
    var front := walked[..|walked| - 1];
    var stack := Stacked(value, front);
    FromTheTop(value, front) && |stack| > 0 && walked[|walked| - 1] == stack[|stack| - 1]
  }

  // The value itself, and what was put on the stack.
  function Put(walked: seq<Json>): nat {
    if |walked| == 0 then 1 else Put(walked[..|walked| - 1]) + |Inside(walked[|walked| - 1])|
  }

  // The walk stops at this element: for its own weight, with nothing inside it visited; at a list that is too long, the
  // same; or at the first key of a dict that is one too many.
  ghost predicate StopsAt(item: Json, total: nat, visited: nat, limit: nat, stopped: nat) {
    var now := total + OwnWeight(item);
    if now > limit then stopped == visited
    else match item
      case List(items) => (now + |items| > limit || visited + |items| > limit) && stopped == visited
      case Dict(fields) => KeyTooMany(fields, now, visited, limit, stopped)
      case _ => false
  }

  ghost predicate KeyTooMany(fields: seq<Field>, total: nat, visited: nat, limit: nat, stopped: nat) {
    && visited < stopped <= visited + |fields| && !KeysFit(fields, stopped - visited, total, visited, limit)
    && forall k :: 0 < k < stopped - visited ==> KeysFit(fields, k, total, visited, limit)
  }

  // The first k keys are neither too heavy nor too many.
  ghost predicate KeysFit(fields: seq<Field>, k: nat, total: nat, visited: nat, limit: nat)
    requires k <= |fields|
  {
    total + KeysWeight(fields[..k]) <= limit && visited + k <= limit
  }

  // What a walk has come to: of a value within the limit it has taken everything off the stack; of another it has stopped
  // at the last of `walked`, and at none before.
  ghost predicate Walked(value: Json, limit: nat, weight: nat, visited: nat, walked: seq<Json>) {
    && FromTheTop(value, walked)
    && if weight <= limit then Stacked(value, walked) == [] && visited == Put(walked) && weight == Sum(walked)
       else && |walked| > 0
            && var front := walked[..|walked| - 1];
               && Sum(front) <= limit && (front != [] ==> Put(front) <= limit)
               && StopsAt(walked[|walked| - 1], Sum(front), Put(front), limit, visited)
  }

  // How many elements of the value the walk visits.
  ghost predicate Visits(value: Json, limit: nat, visited: nat) {
    exists weight, walked :: Walked(value, limit, weight, visited, walked)
  }

  lemma OneMoreWalked(value: Json, walked: seq<Json>, item: Json)
    requires FromTheTop(value, walked)
    requires var stack := Stacked(value, walked); |stack| > 0 && stack[|stack| - 1] == item
    ensures FromTheTop(value, walked + [item])
    ensures var stack := Stacked(value, walked);
            Stacked(value, walked + [item]) == stack[..|stack| - 1] + Inside(item)
    ensures Put(walked + [item]) == Put(walked) + |Inside(item)|
    ensures Sum(walked + [item]) == Sum(walked) + Adds(item)
    ensures (walked + [item])[..|walked|] == walked
  {
    hide FromTheTop, Stacked, Put, Sum, Inside, Adds;
    Before(walked, item);
    TakenNext(value, walked, item, walked + [item]);
    CountedUp(walked, item, walked + [item]);
  }

  lemma Before(walked: seq<Json>, item: Json)
    ensures var more := walked + [item]; more[..|more| - 1] == walked && more[|more| - 1] == item && |more| > 0
  {
  }

  lemma TakenNext(value: Json, walked: seq<Json>, item: Json, more: seq<Json>)
    requires |more| > 0 && more[..|more| - 1] == walked && more[|more| - 1] == item
    requires FromTheTop(value, walked)
    requires var stack := Stacked(value, walked); |stack| > 0 && stack[|stack| - 1] == item
    ensures FromTheTop(value, more)
    ensures var stack := Stacked(value, walked); Stacked(value, more) == stack[..|stack| - 1] + Inside(item)
  {
    hide Inside;
  }

  lemma CountedUp(walked: seq<Json>, item: Json, more: seq<Json>)
    requires |more| > 0 && more[..|more| - 1] == walked && more[|more| - 1] == item
    ensures Put(more) == Put(walked) + |Inside(item)| && Sum(more) == Sum(walked) + Adds(item)
  {
    hide Inside, Adds;
  }

  lemma {:induction false} KeysAddIs(fields: seq<Field>)
    ensures KeysAdd(fields) == KeysWeight(fields)
    decreases |fields|
  {
    if |fields| > 0 {
      KeysAddIs(fields[1..]);
      KeysFromFront(fields);
    }
  }

  lemma {:induction false} KeysFromFront(fields: seq<Field>)
    requires |fields| > 0
    ensures KeysWeight(fields) == KeyWeight(fields[0].key) + KeysWeight(fields[1..])
    decreases |fields|
  {
    if |fields| > 1 {
      KeysFromFront(fields[..|fields| - 1]);
      assert fields[..|fields| - 1][1..] == fields[1..][..|fields| - 2];
    }
  }

  lemma {:induction false} SameWalk(value: Json, a: seq<Json>, b: seq<Json>)
    requires FromTheTop(value, a) && FromTheTop(value, b) && |a| <= |b|
    ensures a == b[..|a|]
    decreases |b|
  {
    hide Stacked;
    if |a| < |b| {
      SameWalk(value, a, b[..|b| - 1]);
      assert b[..|b| - 1][..|a|] == b[..|a|];
    } else if |a| > 0 {
      var n := |a| - 1;
      SameWalk(value, a[..n], b[..n]);
      assert b[..n][..n] == b[..n];
      assert a == a[..n] + [a[n]] && b == b[..n] + [b[n]] && b[..|a|] == b;
    }
  }

  lemma {:induction false} WalkGrows(walked: seq<Json>, k: nat)
    requires k <= |walked|
    ensures Sum(walked[..k]) <= Sum(walked) && Put(walked[..k]) <= Put(walked)
    decreases |walked|
  {
    if k < |walked| {
      WalkGrows(walked[..|walked| - 1], k);
      assert walked[..|walked| - 1][..k] == walked[..k];
    } else {
      assert walked[..k] == walked;
    }
  }

  lemma {:induction false} KeysGrow(fields: seq<Field>, k: nat)
    requires k <= |fields|
    ensures KeysWeight(fields[..k]) <= KeysWeight(fields)
    decreases |fields|
  {
    if k < |fields| {
      KeysGrow(fields[..|fields| - 1], k);
      assert fields[..|fields| - 1][..k] == fields[..k];
    } else {
      assert fields[..k] == fields;
    }
  }

  // Where the walk stops, a bound is passed by what the element adds or holds.
  lemma StoppedIsPast(item: Json, total: nat, visited: nat, limit: nat, stopped: nat)
    requires StopsAt(item, total, visited, limit, stopped)
    ensures total + Adds(item) > limit || visited + |Inside(item)| > limit
  {
    if item.Dict? {
      KeysAddIs(item.fields);
      if total + OwnWeight(item) <= limit {
        KeysGrow(item.fields, stopped - visited);
      }
    }
  }

  // So of a value past the limit the elements visited are of one number only.
  lemma WalkedOnce(value: Json, limit: nat, w: nat, visited: nat, walked: seq<Json>, x: nat, other: nat, walk: seq<Json>)
    requires Walked(value, limit, w, visited, walked) && Walked(value, limit, x, other, walk) && w > limit && x > limit
    ensures visited == other && walked == walk
  {
    hide StopsAt, Stacked, Adds, Inside;
    var a, b := if |walked| <= |walk| then walked else walk, if |walked| <= |walk| then walk else walked;
    SameWalk(value, a, b);
    var item, front := a[|a| - 1], a[..|a| - 1];
    StoppedIsPast(item, Sum(front), Put(front), limit, if |walked| <= |walk| then visited else other);
    if |a| < |b| {
      assert b[..|b| - 1][..|a|] == a;
      WalkGrows(b[..|b| - 1], |a|);
    } else {
      assert a == b;
      StopsOnce(item, Sum(front), Put(front), limit, visited, other);
    }
  }

  lemma StopsOnce(item: Json, total: nat, visited: nat, limit: nat, stopped: nat, other: nat)
    requires StopsAt(item, total, visited, limit, stopped) && StopsAt(item, total, visited, limit, other)
    ensures stopped == other
  {
  }

  method Weigh(value: Json, limit: nat) returns (weight: nat, visited: nat, ghost walked: seq<Json>)
    requires Wf(value)
    ensures Decides(value, limit, weight)
    ensures Walked(value, limit, weight, visited, walked)
    // an accepted value costs at least 8 for each element visited; a refused one is never visited past the limit
    ensures weight <= limit ==> 8 * visited <= weight
    ensures weight > limit ==> visited == 1 || visited <= limit
    // it is visited once, all of it when it is accepted
    ensures 1 <= visited <= Elements(value) && (weight <= limit ==> visited == Elements(value))
  {
    hide Weight, WeightAll, WeightFields, Wf, Accounted, Counted, Elements, Inside, OwnWeight, Walking, FromTheTop, StopsAt,
         Stacked, Put, Sum;
    var total: nat := 0;
    visited := 1;
    var stack := [value];
    walked := [];
    StartsWalking(value, limit);
    NothingWalked(value);
    while stack != []
      invariant total <= limit && Walking(value, limit, total, visited, stack)
      invariant FromTheTop(value, walked) && stack == Stacked(value, walked)
      invariant total == Sum(walked) && visited == Put(walked) && (walked != [] ==> visited <= limit)
      decreases limit - total
    {
      var rest, item := stack[..|stack| - 1], stack[|stack| - 1];
      assert stack == rest + [item];
      TopTaken(value, limit, total, visited, rest, item);
      OneMoreWalked(value, walked, item);
      ghost var total0, visited0 := total, visited;
      walked := walked + [item];
      stack := rest;
      total := total + OwnWeight(item);
      if total > limit {
        TooHeavy(item, total0, visited0, limit);
        return total, visited, walked;
      }
      var stopped;
      total, visited, stack, stopped := Push(item, total, visited, stack, limit);
      if stopped {
        StopsInside(item, total0, visited0, limit, visited);
        return Max(total, limit + 1), visited, walked;
      }
      GoesOn(value, limit, total, visited, stack);
    }
    EndsWalking(value, limit, total, visited);
    return total, visited, walked;
  }

  lemma NothingWalked(value: Json)
    ensures FromTheTop(value, []) && Stacked(value, []) == [value] && Sum([]) == 0 && Put([]) == 1
  {
  }

  lemma TooHeavy(item: Json, total: nat, visited: nat, limit: nat)
    requires total + OwnWeight(item) > limit
    ensures StopsAt(item, total, visited, limit, visited)
  {
  }

  lemma StopsInside(item: Json, total: nat, visited: nat, limit: nat, stopped: nat)
    requires total + OwnWeight(item) <= limit && PushStops(item, total + OwnWeight(item), visited, limit, stopped)
    ensures StopsAt(item, total, visited, limit, stopped)
  {
  }

  ghost predicate PushStops(item: Json, total: nat, visited: nat, limit: nat, stopped: nat) {
    match item
    case List(items) => (total + |items| > limit || visited + |items| > limit) && stopped == visited
    case Dict(fields) => KeyTooMany(fields, total, visited, limit, stopped)
    case _ => false
  }

  lemma GoesOn(value: Json, limit: nat, total: nat, visited: nat, stack: seq<Json>)
    requires total + WeightAll(stack) == Weight(value) && total <= limit
    requires Accounted(total, visited, stack) && Counted(visited, stack, value) && 1 <= visited <= total
    ensures Walking(value, limit, total, visited, stack)
  {
  }

  // What is inside an element goes on the stack, or the walk stops.
  method Push(item: Json, total0: nat, visited0: nat, stack0: seq<Json>, limit: nat)
    returns (total: nat, visited: nat, stack: seq<Json>, stopped: bool)
    requires Wf(item) && Accounted(total0, visited0, stack0)
    requires total0 <= limit && visited0 + 7 <= total0
    ensures total >= total0 && visited0 <= visited <= visited0 + |Inside(item)|
    ensures !stopped ==> total + WeightAll(stack) + OwnWeight(item) == total0 + WeightAll(stack0) + Weight(item)
    ensures !stopped ==> total <= limit && Accounted(total, visited, stack) && visited <= total
    ensures !stopped ==> visited == visited0 + |Inside(item)| && stack == stack0 + Inside(item)
    ensures stopped ==> total0 + WeightAll(stack0) + Weight(item) > limit + OwnWeight(item) && visited <= limit
    ensures if stopped then PushStops(item, total0, visited0, limit, visited)
            else total + OwnWeight(item) == total0 + Adds(item) && (visited0 <= limit ==> visited <= limit)
  {
    hide Weight, WeightAll, WeightFields, Wf, Accounted, Values, KeyTooMany, KeysAdd, KeysWeight;
    Parts(item);
    if item.Dict? {
      KeysAddIs(item.fields);
    }
    total, visited, stack, stopped := total0, visited0, stack0, false;
    if item.Dict? {
      total, visited, stack, stopped := PushFields(item.fields, total, visited, stack, limit);
    } else if item.List? {
      total, visited, stack, stopped := PushItems(item.items, total, visited, stack, limit);
    } else {
      assert stack + [] == stack;
    }
  }

  // A list is taken whole or, when that is past a bound, not at all.
  method PushItems(items: seq<Json>, total0: nat, visited0: nat, stack0: seq<Json>, limit: nat)
    returns (total: nat, visited: nat, stack: seq<Json>, stopped: bool)
    requires Accounted(total0, visited0, stack0) && forall i <- items :: Wf(i)
    requires visited0 <= total0 <= limit
    ensures total == total0 + |items|
    ensures !stopped ==> total + WeightAll(stack) == total0 + WeightAll(stack0) + |items| + WeightAll(items)
    ensures !stopped ==> total <= limit && Accounted(total, visited, stack) && visited <= total
    ensures stopped ==> total0 + WeightAll(stack0) + |items| + WeightAll(items) > limit && visited <= limit
    ensures if stopped then visited == visited0 else visited == visited0 + |items| && stack == stack0 + items
    ensures stopped <==> total > limit || visited0 + |items| > limit
  {
    total, visited, stack := total0 + |items|, visited0, stack0;
    if total > limit || visited + |items| > limit {
      if visited + |items| > limit {
        TooManyIsTooHeavy(total0, visited, stack, |items|, limit);
      }
      stopped := true;
    } else {
      PushAccounted(total0, visited, stack, items);
      visited, stack, stopped := visited + |items|, stack + items, false;
    }
  }

  // The loop over a dict's entries.
  method PushFields(fields: seq<Field>, total0: nat, visited0: nat, stack0: seq<Json>, limit: nat)
    returns (total: nat, visited: nat, stack: seq<Json>, stopped: bool)
    requires Wf(Dict(fields)) && Accounted(total0, visited0, stack0)
    requires total0 <= limit && visited0 + 7 <= total0
    ensures !stopped ==> total + WeightAll(stack) == total0 + WeightAll(stack0) + WeightFields(fields)
    ensures total >= total0
    ensures !stopped ==> total <= limit && Accounted(total, visited, stack) && visited <= total
    ensures stopped ==> total0 + WeightAll(stack0) + WeightFields(fields) > limit && visited <= limit
    ensures visited0 <= visited <= visited0 + |fields|
    ensures !stopped ==> visited == visited0 + |fields| && stack == stack0 + Values(fields)
    ensures stopped ==> KeyTooMany(fields, total0, visited0, limit, visited)
    ensures !stopped ==> total == total0 + KeysWeight(fields) && (visited0 <= limit ==> visited <= limit)
  {
    hide Weight, WeightAll, WeightFields, KeysWeight, KeyWeight, Accounted, Wf;
    total, visited, stack, stopped := total0, visited0, stack0, false;
    ghost var base := total0 + WeightAll(stack0) + WeightFields(fields);
    FieldsStart(fields);
    for k := 0 to |fields|
      invariant Accounted(total, visited, stack) && total <= limit
      invariant total + WeightAll(stack) + WeightFields(fields[k..]) == base
      invariant total == total0 + KeysWeight(fields[..k]) && visited == visited0 + k
      invariant visited + 6 <= total
      invariant stack == stack0 + Values(fields[..k])
      invariant forall j :: 0 < j <= k ==> KeysFit(fields, j, total0, visited0, limit)
      invariant k == 0 || visited <= limit
    {
      var Field(key, inner) := fields[k];
      WfParts(fields, k);
      KeysNext(fields, k);
      FieldsNext(fields, k, total, stack);
      HeavierAccounted(total, visited, stack, KeyWeight(key));
      PushAccounted(total + KeyWeight(key), visited, stack, [inner]);
      total := total + KeyWeight(key);
      visited := visited + 1;
      if total > limit || visited > limit {
        stopped := true;
        return;
      }
      stack := stack + [inner];
      assert Values(fields[..k + 1]) == Values(fields[..k]) + [inner];
    }
    assert fields[..|fields|] == fields;
  }

  lemma HeavierAccounted(total: nat, visited: nat, stack: seq<Json>, more: nat)
    requires Accounted(total, visited, stack)
    ensures Accounted(total + more, visited, stack)
  {
  }

  lemma WfParts(fields: seq<Field>, k: nat)
    requires Wf(Dict(fields)) && k < |fields|
    ensures Different(fields) && Wf(fields[k].value)
  {
    assert WfField(fields[k]);
  }

  lemma FieldsStart(fields: seq<Field>)
    ensures fields[0..] == fields && KeysWeight(fields[..0]) == 0 && Values(fields[..0]) == []
    ensures WeightFields(fields[|fields|..]) == 0
  {
  }

  // n different keys weigh n - 1 at least, however far the loop has come.
  lemma KeysNext(fields: seq<Field>, k: nat)
    requires Different(fields) && k < |fields|
    ensures KeysWeight(fields[..k + 1]) == KeysWeight(fields[..k]) + KeyWeight(fields[k].key) >= k
  {
    assert fields[..k + 1][..k] == fields[..k];
    KeysOutweigh(fields[..k + 1]);
  }

  lemma FieldsNext(fields: seq<Field>, k: nat, total: nat, stack: seq<Json>)
    requires k < |fields|
    ensures total + WeightAll(stack) + WeightFields(fields[k..])
         == total + KeyWeight(fields[k].key) + WeightAll(stack + [fields[k].value]) + WeightFields(fields[k + 1..])
  {
    WeightFieldsSplit(fields, k);
    var inner := [fields[k].value];
    WeightAllAppend(stack, inner);
    assert WeightAll(inner) == Weight(inner[0]) + WeightAll(inner[1..]);
  }
}

/** One capture's allowance of work (_Work): what is accepted is charged its size, what is refused is charged what
    finding that out cost, and the books balance to the character. */
module CaptureWork {
  import opened JsonWeight

  const EXHAUSTED := "work_budget_exhausted"

  class Work {
    var left: nat
    var countLeft: nat
    var skipped: map<string, nat>
    ghost const start: nat
    ghost var spent: nat        // on text taken and values accepted
    ghost var refused: nat      // elements visited in values that were then refused

    ghost predicate Valid()
      reads this
    {
      spent + refused + left == start
    }

    constructor (allowance: nat, countAllowance: nat)
      ensures Valid() && left == start == allowance && countLeft == countAllowance && refused == 0 && spent == 0
      ensures skipped == map[]
    {
      left, countLeft, skipped := allowance, countAllowance, map[];
      start, spent, refused := allowance, 0, 0;
    }

    function Skips(why: string): nat
      reads this
    {
      if why in skipped then skipped[why] else 0
    }

    method Note(why: string)
      modifies this`skipped
      ensures skipped == old(skipped)[why := old(Skips(why)) + 1]
    {
      skipped := skipped[why := Skips(why) + 1];
    }

    method Take(chars: nat) returns (ok: bool)
      requires Valid()
      modifies this`left, this`skipped, this`spent
      ensures Valid() && (ok <==> chars <= old(left))
      ensures left == old(left) - (if ok then chars else 0)
      ensures Skips(EXHAUSTED) == old(Skips(EXHAUSTED)) + (if ok then 0 else 1)
    {
      if chars > left {
        Note(EXHAUSTED);
        return false;
      }
      left, spent := left - chars, spent + chars;
      return true;
    }

    method Allow(chars: nat) returns (ok: bool)
      modifies this`countLeft
      ensures ok <==> chars <= old(countLeft)
      ensures countLeft == old(countLeft) - (if ok then chars else 0)
    {
      if chars > countLeft {
        return false;
      }
      countLeft := countLeft - chars;
      return true;
    }

    // Whether the value is serialised: exactly when its weight is within what is left. `visited`: how many of its
    // elements were looked at to tell.
    method Canonical(value: Json) returns (ok: bool, visited: nat)
      requires Valid() && Wf(value)
      modifies this`left, this`skipped, this`spent, this`refused
      ensures Valid()
      ensures ok <==> Weight(value) <= old(left)
      ensures ok ==> left == old(left) - Weight(value) && refused == old(refused) && skipped == old(skipped)
      ensures !ok ==> left == old(left) - visited && spent == old(spent) && refused == old(refused) + visited
      ensures (if old(left) == 0 then visited == 0 else 1 <= visited) && visited <= Elements(value)
      ensures ok ==> visited == Elements(value) && 8 * visited <= Weight(value)
      ensures old(left) > 0 ==> Visits(value, old(left), visited)
      ensures !ok ==> Skips(EXHAUSTED) == old(Skips(EXHAUSTED)) + 1
    {
      if left == 0 {
        Note(EXHAUSTED);
        return false, 0;
      }
      var weight;
      ghost var walked;
      weight, visited, walked := Weigh(value, left);
      assert Visits(value, left, visited);
      if weight > left {
        Note(EXHAUSTED);
        refused := refused + visited;
        left := left - if visited < left then visited else left;
        return false, visited;
      }
      left, spent := left - weight, spent + weight;
      return true, visited;
    }
  }

  // The values one after another: how many elements of each were looked at, and what was left before it.
  datatype Verdict = Verdict(accepted: bool, visited: nat, before: nat)

  // Each is accepted exactly when it fits in what is left, and charged its weight, or what finding out cost.
  ghost predicate Settles(value: Json, v: Verdict, left: nat) {
    && (v.accepted <==> Weight(value) <= v.before)
    && left == v.before - (if v.accepted then Weight(value) else v.visited)
    && (v.accepted ==> 8 * v.visited <= Weight(value))
    && (if v.before > 0 then v.visited >= 1 && Visits(value, v.before, v.visited) else v.visited == 0)
    && v.visited <= Elements(value)
  }

  // Each in turn, from the allowance to what is left in the end.
  ghost predicate AllSettled(values: seq<Json>, verdicts: seq<Verdict>, allowance: nat, left: nat)
    requires |values| == |verdicts|
  {
    if |values| == 0 then left == allowance
    else
      var n := |values| - 1;
      && AllSettled(values[..n], verdicts[..n], allowance, verdicts[n].before)
      && Settles(values[n], verdicts[n], left)
  }

  function AcceptedWeight(values: seq<Json>, verdicts: seq<Verdict>): nat
    requires |values| == |verdicts|
  {
    if |values| == 0 then 0
    else AcceptedWeight(values[..|values| - 1], verdicts[..|values| - 1])
         + if verdicts[|values| - 1].accepted then Weight(values[|values| - 1]) else 0
  }

  function RefusedVisits(verdicts: seq<Verdict>): nat {
    if |verdicts| == 0 then 0
    else RefusedVisits(verdicts[..|verdicts| - 1])
         + if verdicts[|verdicts| - 1].accepted then 0 else verdicts[|verdicts| - 1].visited
  }

  // Over any sequence of values the elements visited for the refused ones never pass the allowance: with the weight
  // of the accepted ones and what is left they make it up exactly.
  lemma {:induction false} BooksBalance(values: seq<Json>, verdicts: seq<Verdict>, allowance: nat, left: nat)
    requires |values| == |verdicts| && AllSettled(values, verdicts, allowance, left)
    ensures AcceptedWeight(values, verdicts) + RefusedVisits(verdicts) + left == allowance
  {
    hide Weight, Elements;
    if |values| > 0 {
      var n := |values| - 1;
      BooksBalance(values[..n], verdicts[..n], allowance, verdicts[n].before);
    }
  }

  method CanonicalAll(values: seq<Json>, allowance: nat) returns (verdicts: seq<Verdict>, left: nat)
    requires forall v <- values :: Wf(v)
    ensures |verdicts| == |values| && AllSettled(values, verdicts, allowance, left)
  {
    hide Weight, Wf, Elements;
    var work := new Work(allowance, 0);
    verdicts := [];
    for i := 0 to |values|
      invariant fresh(work) && work.Valid() && |verdicts| == i
      invariant AllSettled(values[..i], verdicts, allowance, work.left)
    {
      assert values[i] in values;
      var before := work.left;
      var ok, visited := work.Canonical(values[i]);
      var v := Verdict(ok, visited, before);
      assert values[..i + 1][..i] == values[..i] && (verdicts + [v])[..i] == verdicts;
      assert Settles(values[i], v, work.left);
      verdicts := verdicts + [v];
    }
    assert values[..|values|] == values;
    left := work.left;
  }
}
