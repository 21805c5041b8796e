/** What a browser action presses it releases (dream/computer.py, Computer._browser_action and _release_input). The
    page's answers and the checks before each input are parameters; the log holds every input that was attempted. */
module InputRelease {
  type Key = string
  datatype Point = Point(x: int, y: int)
  datatype Input = Down(key: Key) | Up(key: Key) | Press | Release | Move(to: Point)

  // A release came back, was refused, or hung until the five seconds for all of them were over.
  datatype Answer = Accepted | Raised | Hung

  datatype Outcome = Done | DispatchFailed | ReleaseFailed | BothFailed

  // ---- presses and their releases --------------------------------------------------------------------------------

  function Downs(keys: seq<Key>): seq<Input> { seq(|keys|, i requires 0 <= i < |keys| => Down(keys[i])) }

  // The keys in reverse order.
  function Ups(keys: seq<Key>): seq<Input> {
    seq(|keys|, i requires 0 <= i < |keys| => Up(keys[|keys| - 1 - i]))
  }

  // Replays a log over a stack of pressed keys: those with no release attempted yet, whatever became of the attempts.
  // A release must match the key pressed last.
  function Unreleased(pressed: seq<Key>, log: seq<Input>): (r: seq<Key>)
    decreases |log|
  {
    if log == [] then pressed
    else
      match log[0] {
        case Down(key) => Unreleased(pressed + [key], log[1..])
        case Up(key) =>
          if pressed != [] && pressed[|pressed| - 1] == key then Unreleased(pressed[..|pressed| - 1], log[1..]) else pressed
        case _ => Unreleased(pressed, log[1..])
      }
  }

  lemma {:induction false} PressedPileUp(pressed: seq<Key>, keys: seq<Key>, rest: seq<Input>)
    ensures Unreleased(pressed, Downs(keys) + rest) == Unreleased(pressed + keys, rest)
    decreases |keys|
  {
    if keys == [] {
      assert pressed + keys == pressed && Downs(keys) + rest == rest;
    } else {
      PressedPileUp(pressed + [keys[0]], keys[1..], rest);
      assert (Downs(keys) + rest)[1..] == Downs(keys[1..]) + rest;
      assert pressed + keys == pressed + [keys[0]] + keys[1..];
    }
  }

  lemma {:induction false} ReleasedComeOff(pressed: seq<Key>, keys: seq<Key>, n: nat)
    requires n <= |keys|
    ensures Unreleased(pressed + keys, Ups(keys)[..n]) == pressed + keys[..|keys| - n]
    decreases n
  {
    if n == 0 {
      assert keys[..|keys|] == keys;
    } else {
      var front, last := keys[..|keys| - 1], keys[|keys| - 1];
      assert keys == front + [last];
      UpsBegin(front, last, n);
      OneComesOff(pressed + front, last, Ups(front)[..n - 1]);
      assert pressed + keys == pressed + front + [last];
      ReleasedComeOff(pressed, front, n - 1);
      assert front[..|front| - (n - 1)] == keys[..|keys| - n];
    }
  }

  lemma UpsBegin(keys: seq<Key>, key: Key, n: nat)
    requires 0 < n <= |keys| + 1
    ensures Ups(keys + [key])[..n] == [Up(key)] + Ups(keys)[..n - 1]
  {
  }

  lemma OneComesOff(pressed: seq<Key>, key: Key, rest: seq<Input>)
    ensures Unreleased(pressed + [key], [Up(key)] + rest) == Unreleased(pressed, rest)
  {
    assert (pressed + [key])[..|pressed|] == pressed && ([Up(key)] + rest)[1..] == rest;
  }

  // After n attempted releases, in reverse order, exactly the keys pressed first have none.
  lemma LeftUnreleased(keys: seq<Key>, n: nat)
    requires n <= |keys|
    ensures Unreleased([], Downs(keys) + Ups(keys)[..n]) == keys[..|keys| - n]
  {
    PressedPileUp([], keys, Ups(keys)[..n]);
    ReleasedComeOff([], keys, n);
  }

  // ---- keys ------------------------------------------------------------------------------------------------

  // The keys of a chord: before each a check, which may refuse; then the press, which may fail.
  datatype Typing = Typing(refused: nat -> bool, failed: nat -> bool, answer: nat -> Answer)

  // The first key at or after `from` whose check or press fails, or the number of keys.
  function StopFrom(n: nat, w: Typing, from: nat): (at: nat)
    requires from <= n
    ensures from <= at <= n && (forall i :: from <= i < at ==> !w.refused(i) && !w.failed(i))
    ensures at < n ==> w.refused(at) || w.failed(at)
    decreases n - from
  {
    if from == n || w.refused(from) || w.failed(from) then from else StopFrom(n, w, from + 1)
  }

  function StopsAt(n: nat, w: Typing): nat { StopFrom(n, w, 0) }

  // A key is attempted once its check has let it through, whether or not the press then fails.
  function Attempted(n: nat, w: Typing): nat {
    var at := StopsAt(n, w);
    if at < n && !w.refused(at) then at + 1 else at
  }

  lemma StopIs(n: nat, w: Typing, at: nat)
    requires at <= n && (forall i :: 0 <= i < at ==> !w.refused(i) && !w.failed(i))
    requires at < n ==> w.refused(at) || w.failed(at)
    ensures StopsAt(n, w) == at
  {
  }

  // A key is pressed, or is attempted to be, exactly when every key before it went down and its own check let it through.
  lemma AttemptedExactly(n: nat, w: Typing, i: nat)
    requires i < n
    ensures i < Attempted(n, w) <==> !w.refused(i) && forall j :: 0 <= j < i ==> !w.refused(j) && !w.failed(j)
    ensures Attempted(n, w) <= n
  {
  }

  // How many of n releases are attempted: all of them, unless one hangs.
  predicate Releases(n: nat, answer: nat -> Answer, done: nat) {
    && done <= n && (forall i :: 0 <= i < done - 1 ==> !answer(i).Hung?)
    && (done < n ==> done > 0 && answer(done - 1).Hung?)
  }

  predicate AllAccepted(n: nat, answer: nat -> Answer) {
    forall i :: 0 <= i < n ==> answer(i).Accepted?
  }

  method ReleaseKeys(attempted: seq<Key>, answer: nat -> Answer) returns (log: seq<Input>, ok: bool)
    ensures log <= Ups(attempted) && Releases(|attempted|, answer, |log|)
    ensures ok <==> AllAccepted(|attempted|, answer)
  {
    log, ok := [], true;
    var i := |attempted|;
    while i > 0
      invariant 0 <= i <= |attempted| && log == Ups(attempted)[..|attempted| - i]
      invariant forall j :: 0 <= j < |log| ==> !answer(j).Hung?
      invariant ok <==> AllAccepted(|log|, answer)
    {
      i := i - 1;
      ghost var j := |log|;
      assert Ups(attempted)[j] == Up(attempted[i]);
      var a := answer(|log|);
      log := log + [Up(attempted[i])];
      match a {
        case Accepted =>
        case Raised =>
          ok := false;
        case Hung =>
          return log, false;
      }
    }
  }

  // ---- what is held down -----------------------------------------------------------------------------------

  function UpCount(log: seq<Input>): nat {
    if log == [] then 0 else UpCount(log[..|log| - 1]) + if log[|log| - 1].Up? then 1 else 0
  }

  // The keys that are down after a log: pressed, or attempted to be, and no release accepted since.
  function Held(log: seq<Input>, answer: nat -> Answer): set<Key> {
    if log == [] then {}
    else
      var before, held, last := log[..|log| - 1], Held(log[..|log| - 1], answer), log[|log| - 1];
      if last.Down? then held + {last.key}
      else if last.Up? && answer(UpCount(before)).Accepted? then held - {last.key}
      else held
  }

  lemma HeldNext(log: seq<Input>, e: Input, answer: nat -> Answer)
    ensures UpCount(log + [e]) == UpCount(log) + if e.Up? then 1 else 0
    ensures Held(log + [e], answer) ==
              if e.Down? then Held(log, answer) + {e.key}
              else if e.Up? && answer(UpCount(log)).Accepted? then Held(log, answer) - {e.key}
              else Held(log, answer)
  {
    assert (log + [e])[..|log|] == log;
  }

  lemma {:induction false} PressedAreHeld(keys: seq<Key>, answer: nat -> Answer)
    ensures Held(Downs(keys), answer) == (set k <- keys) && UpCount(Downs(keys)) == 0
  {
    if keys != [] {
      var front, last := keys[..|keys| - 1], keys[|keys| - 1];
      assert Downs(keys) == Downs(front) + [Down(last)];
      HeldNext(Downs(front), Down(last), answer);
      PressedAreHeld(front, answer);
    }
  }

  // One of the first `done` releases, which go in reverse order, was of this key and accepted.
  predicate Freed(keys: seq<Key>, answer: nat -> Answer, done: nat, key: Key)
    requires done <= |keys|
  {
    exists i :: 0 <= i < done && answer(i).Accepted? && keys[|keys| - 1 - i] == key
  }

  // A chord's keys are down until a release of theirs is accepted.
  lemma {:induction false} HeldUntilFreed(keys: seq<Key>, answer: nat -> Answer, done: nat)
    requires done <= |keys|
    ensures Held(Downs(keys) + Ups(keys)[..done], answer) == set k <- keys | !Freed(keys, answer, done, k)
    ensures UpCount(Downs(keys) + Ups(keys)[..done]) == done
    decreases done
  {
    hide Held, UpCount;
    if done == 0 {
      assert Downs(keys) + Ups(keys)[..0] == Downs(keys);
      PressedAreHeld(keys, answer);
    } else {
      var log, key := Downs(keys) + Ups(keys)[..done - 1], keys[|keys| - done];
      HeldUntilFreed(keys, answer, done - 1);
      assert Downs(keys) + Ups(keys)[..done] == log + [Up(key)];
      HeldNext(log, Up(key), answer);
      assert answer(done - 1).Accepted? ==> Freed(keys, answer, done, key);
      forall k | k in keys
        ensures Freed(keys, answer, done, k) <==>
                  Freed(keys, answer, done - 1, k) || (answer(done - 1).Accepted? && k == key)
      {
      }
    }
  }

  predicate Different(keys: seq<Key>) { forall i, j :: 0 <= i < j < |keys| ==> keys[i] != keys[j] }

  // No key stays down exactly when each has a release of its own accepted; for different keys, when all are.
  lemma NothingStaysHeld(keys: seq<Key>, answer: nat -> Answer, done: nat)
    requires Releases(|keys|, answer, done)
    ensures Held(Downs(keys) + Ups(keys)[..done], answer) == {} <==> forall k <- keys :: Freed(keys, answer, done, k)
    ensures AllAccepted(|keys|, answer) ==> Held(Downs(keys) + Ups(keys)[..done], answer) == {}
    ensures Different(keys) ==>
              (Held(Downs(keys) + Ups(keys)[..done], answer) == {} <==> AllAccepted(|keys|, answer))
  {
    hide Held, Freed;
    HeldUntilFreed(keys, answer, done);
    var held := Held(Downs(keys) + Ups(keys)[..done], answer);
    assert held == {} <==> forall k <- keys :: Freed(keys, answer, done, k) by {
      assert forall k <- keys :: k in held <==> !Freed(keys, answer, done, k);
    }
    FreedByAll(keys, answer, done);
  }

  lemma FreedByAll(keys: seq<Key>, answer: nat -> Answer, done: nat)
    requires Releases(|keys|, answer, done)
    ensures AllAccepted(|keys|, answer) ==> forall k <- keys :: Freed(keys, answer, done, k)
    ensures Different(keys) ==> (forall k <- keys :: Freed(keys, answer, done, k)) ==> AllAccepted(|keys|, answer)
  {
    if AllAccepted(|keys|, answer) {
      forall k <- keys
        ensures Freed(keys, answer, done, k)
      {
        var j :| 0 <= j < |keys| && keys[j] == k;
        assert answer(|keys| - 1 - j).Accepted?;
      }
    }
    if forall k <- keys :: Freed(keys, answer, done, k) {
      if Different(keys) {
        forall i | 0 <= i < |keys|
          ensures answer(i).Accepted?
        {
          assert Freed(keys, answer, done, keys[|keys| - 1 - i]);
        }
      }
    }
  }

  // A first release that hangs leaves the key pressed first without one, and down with the other.
  lemma HungReleaseLeavesKeys() returns (keys: seq<Key>, answer: nat -> Answer)
    ensures keys == ["A", "B"] && Releases(2, answer, 1)
    ensures Unreleased([], Downs(keys) + Ups(keys)[..1]) == ["A"]
    ensures Held(Downs(keys) + Ups(keys)[..1], answer) == {"A", "B"}
  {
    keys, answer := ["A", "B"], i => Hung;
    LeftUnreleased(keys, 1);
    HeldUntilFreed(keys, answer, 1);
  }

  // A chord: what was attempted is a prefix of the keys, and every attempted press is followed by one attempted
  // release, in reverse order, unless a release hangs.
  method PressKeys(keys: seq<Key>, w: Typing) returns (log: seq<Input>, outcome: Outcome)
    ensures |log| >= Attempted(|keys|, w)
    ensures log[..Attempted(|keys|, w)] == Downs(keys[..Attempted(|keys|, w)])
    ensures log[Attempted(|keys|, w)..] <= Ups(keys[..Attempted(|keys|, w)])
    ensures Releases(Attempted(|keys|, w), w.answer, |log| - Attempted(|keys|, w))
    ensures outcome.Done? || outcome.ReleaseFailed? <==> StopsAt(|keys|, w) == |keys|
    ensures outcome.Done? || outcome.DispatchFailed? <==> AllAccepted(Attempted(|keys|, w), w.answer)
    // no failed release reported, no key down
    ensures outcome.Done? || outcome.DispatchFailed? ==> Held(log, w.answer) == {}
  {
    hide Held, UpCount, Freed;
    var attempted: seq<Key> := [];
    log := [];
    var failed := false;
    var i := 0;
    while i < |keys| && !failed
      invariant 0 <= i <= |keys|
      invariant forall j :: 0 <= j < i - 1 ==> !w.refused(j) && !w.failed(j)
      invariant !failed ==> attempted == keys[..i] && (i > 0 ==> !w.refused(i - 1) && !w.failed(i - 1))
      invariant failed ==> i > 0 && (w.refused(i - 1) || w.failed(i - 1))
      invariant failed ==> attempted == keys[..if w.refused(i - 1) then i - 1 else i]
      invariant log == Downs(attempted)
    {
      if w.refused(i) {
        failed := true;
      } else {
        attempted := attempted + [keys[i]];
        log := log + [Down(keys[i])];
        failed := w.failed(i);
      }
      i := i + 1;
    }
    StopIs(|keys|, w, if failed then i - 1 else i);
    assert attempted == keys[..Attempted(|keys|, w)];
    var ups, ok := ReleaseKeys(attempted, w.answer);
    NothingStaysHeld(attempted, w.answer, |ups|);
    assert ups == Ups(attempted)[..|ups|];
    log := log + ups;
    outcome := if ok then (if failed then DispatchFailed else Done) else if failed then BothFailed else ReleaseFailed;
  }

  // Every attempted press has its release attempted exactly when no release but the last hangs.
  lemma EveryPressHasARelease(keys: seq<Key>, answer: nat -> Answer, done: nat)
    requires Releases(|keys|, answer, done)
    ensures Unreleased([], Downs(keys) + Ups(keys)[..done]) == [] <==>
              forall i :: 0 <= i < |keys| - 1 ==> !answer(i).Hung?
  {
    LeftUnreleased(keys, done);
    if done < |keys| {
      assert answer(done - 1).Hung?;
    }
  }

  // ---- the pointer -----------------------------------------------------------------------------------------

  // Up to the press: the first move and the checks around it. Then the press, and for each further point the check
  // before it and the move; and, for a paced stroke, a check at the end.
  datatype Stroke = Stroke(moved: bool, checked: bool, pressed: bool, follows: nat -> bool, moves: nat -> bool,
                           ends: bool, released: bool)

  function Path(points: seq<Point>): seq<Input> {
    seq(|points|, i requires 0 <= i < |points| => Move(points[i]))
  }

  predicate AllFollow(w: Stroke, n: nat) {
    forall i :: 0 < i < n ==> w.follows(i) && w.moves(i)
  }

  // A click, drag or stroke: pressed at the first point, moved along the others, released once, last.
  method Drag(points: seq<Point>, w: Stroke) returns (log: seq<Input>, ok: bool)
    requires |points| > 0
    ensures !w.checked ==> log == [] && !ok
    ensures w.checked && !w.moved ==> log == [Move(points[0])] && !ok
    ensures w.checked && w.moved ==>
              exists k :: 0 < k <= |points| && log == [Move(points[0]), Press] + Path(points[1..k]) + [Release] &&
                          AllFollow(w, k - 1) &&
                          (k > 1 ==> w.pressed && w.follows(k - 1)) &&
                          (k < |points| ==> !w.pressed || (k > 1 && !w.moves(k - 1)) || !w.follows(k))
    ensures ok <==> w.checked && w.moved && w.pressed && AllFollow(w, |points|) && w.ends && w.released
  {
    log, ok := [], false;
    if !w.checked {
      return;
    }
    log := [Move(points[0])];
    if !w.moved {
      return;
    }
    log := log + [Press];
    ok := w.pressed;
    var k := 1;
    while ok && k < |points|
      invariant 0 < k <= |points|
      invariant log == [Move(points[0]), Press] + Path(points[1..k])
      invariant AllFollow(w, k - 1)
      invariant k > 1 ==> w.pressed && w.follows(k - 1)
      invariant ok ==> w.pressed && (k > 1 ==> w.moves(k - 1))
      invariant !ok && w.pressed ==> (k > 1 && !w.moves(k - 1)) || (k < |points| && !w.follows(k))
      decreases |points| - k, ok
    {
      if !w.follows(k) {
        ok := false;
      } else {
        assert Path(points[1..k + 1]) == Path(points[1..k]) + [Move(points[k])];
        log := log + [Move(points[k])];
        ok := w.moves(k);
        k := k + 1;
      }
    }
    log := log + [Release];
    assert ok ==> AllFollow(w, |points|);
    assert !ok && w.pressed ==> !AllFollow(w, |points|);
    ok := ok && w.ends && w.released;
  }

  function Count(log: seq<Input>, e: Input): nat {
    multiset(log)[e]
  }

  // One press at most, and one release for it, whatever fails.
  lemma OneReleaseEach(points: seq<Point>, k: nat)
    requires 0 < k <= |points|
    ensures Count([Move(points[0]), Press] + Path(points[1..k]) + [Release], Press) == 1
    ensures Count([Move(points[0]), Press] + Path(points[1..k]) + [Release], Release) == 1
  {
    var path := Path(points[1..k]);
    assert Press !in path && Release !in path;
    assert multiset(path)[Press] == 0 && multiset(path)[Release] == 0;
  }
}
