/** Observation tokens of the computer tool (dream/computer.py: Computer.open, _observe, act and close). Every answer
    of the environment (page and window states, captures, the outcome of the dispatch, the clock) is a parameter. A
    ghost log records which tokens were issued and what was sent under them. */
module ObservationTokens {
  import opened Common

  type Id = nat                     // uuid4().hex
  type Digest = nat                  // a fingerprint of a state
  type Pixels = nat                 // a digest of a screenshot

  const MAX_AGE: int := 300
  const MAX_TARGETS: nat := 4
  const PAGE: nat := 30

  datatype Kind = Browser | Desktop
  datatype Element = Element(id: nat, disabled: bool)

  // What _state reads; content stands for the fields no check looks at one by one.
  datatype Screen = Screen(content: nat, elements: seq<Element>, own: bool, viewOnly: bool)

  // The target's dictionary. No observation: the key is absent, the other fields may be left over.
  datatype Target = Target(kind: Kind, observation: Option<Id>, digest: Digest, observed: int, pixels: Option<Pixels>,
                           visible: set<nat>, handles: set<nat>)

  datatype Event =
    | Issued(target: Id, id: Id, screen: Screen, at: int, pixels: Option<Pixels>, visible: set<nat>)
    | Sent(target: Id, id: Id, screen: Screen, at: int, kind: Kind, action: Action, captured: Option<Pixels>)

  datatype Action = Click(element: Option<nat>) | Type(element: Option<nat>) | Key | Scroll | Focus | Drag | Stroke

  // Aimed at a place on the screen; at an element of the page.
  predicate NeedsCoordinates(action: Action) {
    action.Drag? || action.Stroke? || (action.Click? && action.element.None?)
  }

  predicate NeedsElement(kind: Kind, action: Action) {
    kind.Browser? && (action.Type? || (action.Click? && action.element.Some?))
  }

  predicate Enabled(elements: seq<Element>, id: nat) {
    exists k :: 0 <= k < |elements| && elements[k] == Element(id, false) &&
                forall j :: 0 <= j < k ==> elements[j].id != id
  }

  // The window takes input: never an own one, and one that is view-only may at most be focused.
  predicate TakesInput(kind: Kind, screen: Screen, action: Action) {
    kind.Desktop? ==> !screen.own && (action.Focus? || !screen.viewOnly)
  }

  // ---- what the log promises -------------------------------------------------------------------------------

  // The token was issued for this target when it looked the same, not too long before, and licenses this action.
  predicate Licensed(log: seq<Event>, digest: Screen -> Digest, e: Event)
    requires e.Sent?
  {
    exists i :: 0 <= i < |log| && Licenses(log[i], digest, e)
  }

  predicate Licenses(issue: Event, digest: Screen -> Digest, e: Event)
    requires e.Sent?
  {
    && issue.Issued? && issue.target == e.target && issue.id == e.id
    && digest(issue.screen) == digest(e.screen) && e.at - issue.at <= MAX_AGE
    && Fits(issue, e)
  }

  // The pixels under a coordinate are those of the issued screenshot; an element is one that was shown, and enabled.
  predicate Fits(issue: Event, e: Event)
    requires issue.Issued? && e.Sent?
  {
    && TakesInput(e.kind, e.screen, e.action)
    && (NeedsCoordinates(e.action) ==> e.captured.Some? && e.captured == issue.pixels)
    && (NeedsElement(e.kind, e.action) ==>
          && e.action.element.Some? && e.action.element.value in issue.visible
          && Enabled(e.screen.elements, e.action.element.value))
  }

  // The ids under which something was sent, in order.
  function Spent(log: seq<Event>): seq<Id> {
    if log == [] then []
    else
      var front, last := Spent(log[..|log| - 1]), log[|log| - 1];
      if last.Sent? then front + [last.id] else front
  }

  function Issues(log: seq<Event>): seq<Id> {
    if log == [] then []
    else
      var front, last := Issues(log[..|log| - 1]), log[|log| - 1];
      if last.Issued? then front + [last.id] else front
  }

  predicate Distinct(ids: seq<Id>) {
    forall i, j :: 0 <= i < j < |ids| ==> ids[i] != ids[j]
  }

  // Each thing sent used up a token of its own, issued earlier.
  predicate Sound(log: seq<Event>, digest: Screen -> Digest) {
    && Distinct(Spent(log)) && Distinct(Issues(log))
    && forall k :: 0 <= k < |log| && log[k].Sent? ==> Licensed(log[..k], digest, log[k])
  }

  // The target's token, when it has one, was issued for what its dictionary holds and was not used.
  predicate Live(log: seq<Event>, digest: Screen -> Digest, t: Id, target: Target) {
    target.observation.Some? ==>
      && target.observation.value !in Spent(log)
      && exists i :: 0 <= i < |log| && Describes(log[i], digest, t, target)
  }

  predicate Describes(e: Event, digest: Screen -> Digest, t: Id, target: Target) {
    && e.Issued? && target.observation == Some(e.id) && e.target == t
    && target.digest == digest(e.screen) && target.observed == e.at
    && target.pixels == e.pixels && target.visible == e.visible && e.visible <= target.handles
  }

  predicate Inv(log: seq<Event>, digest: Screen -> Digest, targets: map<Id, Target>) {
    && Sound(log, digest)
    && |targets| <= MAX_TARGETS
    && AllLive(log, digest, targets)
    && Apart(targets)
    && (forall id <- Spent(log) :: id in Issues(log))
  }

  predicate AllLive(log: seq<Event>, digest: Screen -> Digest, targets: map<Id, Target>) {
    forall t :: t in targets ==> Live(log, digest, t, targets[t])
  }

  // No two targets hold the same token.
  predicate Apart(targets: map<Id, Target>) {
    forall t, u :: t in targets && u in targets && t != u && targets[t].observation.Some? ==>
                     targets[t].observation != targets[u].observation
  }

  lemma SpentOf(log: seq<Event>, e: Event)
    ensures Spent(log + [e]) == if e.Sent? then Spent(log) + [e.id] else Spent(log)
    ensures Issues(log + [e]) == if e.Issued? then Issues(log) + [e.id] else Issues(log)
  {
    assert (log + [e])[..|log|] == log;
  }

  lemma {:induction false} IssuedIsListed(log: seq<Event>, k: nat)
    requires k < |log|
    ensures log[k].Issued? ==> log[k].id in Issues(log)
    ensures log[k].Sent? ==> log[k].id in Spent(log)
  {
    var front, last := log[..|log| - 1], log[|log| - 1];
    assert log == front + [last];
    SpentOf(front, last);
    if k < |front| {
      IssuedIsListed(front, k);
    }
  }

  lemma LicensedStays(log: seq<Event>, e: Event, digest: Screen -> Digest)
    requires Sound(log, digest)
    ensures forall k :: 0 <= k < |log| && log[k].Sent? ==> Licensed((log + [e])[..k], digest, (log + [e])[k])
  {
    forall k | 0 <= k < |log| && log[k].Sent?
      ensures Licensed((log + [e])[..k], digest, (log + [e])[k])
    {
      assert (log + [e])[..k] == log[..k];
    }
  }

  lemma LiveStays(log: seq<Event>, e: Event, digest: Screen -> Digest, t: Id, target: Target)
    requires Live(log, digest, t, target)
    requires target.observation.Some? && e.Sent? ==> e.id != target.observation.value
    ensures Live(log + [e], digest, t, target)
  {
    SpentOf(log, e);
    if target.observation.Some? {
      var i :| 0 <= i < |log| && Describes(log[i], digest, t, target);
      assert (log + [e])[i] == log[i];
    }
  }

  // The other targets keep their tokens when something happens to t.
  lemma AllLiveStays(log: seq<Event>, e: Event, digest: Screen -> Digest, targets: map<Id, Target>, t: Id,
                     target: Target)
    requires AllLive(log, digest, targets) && t in targets && Live(log + [e], digest, t, target)
    requires forall u :: u in targets && u != t && targets[u].observation.Some? && e.Sent? ==>
                           e.id != targets[u].observation.value
    ensures AllLive(log + [e], digest, targets[t := target])
  {
    var after := targets[t := target];
    forall u | u in after
      ensures Live(log + [e], digest, u, after[u])
    {
      if u != t {
        LiveStays(log, e, digest, u, targets[u]);
      }
    }
  }

  lemma LiveWasIssued(log: seq<Event>, digest: Screen -> Digest, targets: map<Id, Target>, t: Id)
    requires AllLive(log, digest, targets) && t in targets && targets[t].observation.Some?
    ensures targets[t].observation.value in Issues(log)
  {
    var i :| 0 <= i < |log| && Describes(log[i], digest, t, targets[t]);
    IssuedIsListed(log, i);
  }

  lemma SoundStays(log: seq<Event>, e: Event, digest: Screen -> Digest)
    requires Sound(log, digest)
    requires e.Issued? ==> e.id !in Issues(log)
    requires e.Sent? ==> e.id !in Spent(log) && Licensed(log, digest, e)
    ensures Sound(log + [e], digest)
  {
    hide Licensed;
    SpentOf(log, e);
    LicensedStays(log, e, digest);
    assert (log + [e])[..|log|] == log;
  }

  // An observation adds one fresh token.
  lemma IssueKeeps(log: seq<Event>, digest: Screen -> Digest, targets: map<Id, Target>, t: Id, target: Target,
                   e: Event)
    requires Inv(log, digest, targets) && t in targets
    requires e.Issued? && e.id !in Issues(log) && Describes(e, digest, t, target)
    ensures Inv(log + [e], digest, targets[t := target])
  {
    hide Sound, Describes;
    SpentOf(log, e);
    SoundStays(log, e, digest);
    assert target.observation == Some(e.id) && (log + [e])[|log|] == e by { ObservationOf(e, digest, t, target); }
    hide Live, AllLive;
    IssuedIsLive(log, e, digest, t, target);
    AllLiveStays(log, e, digest, targets, t, target);
    forall u | u in targets && targets[u].observation.Some?
      ensures targets[u].observation.value in Issues(log)
    {
      LiveWasIssued(log, digest, targets, u);
    }
  }

  lemma ObservationOf(e: Event, digest: Screen -> Digest, t: Id, target: Target)
    requires Describes(e, digest, t, target)
    ensures target.observation == Some(e.id)
  {
  }

  lemma IssuedIsLive(log: seq<Event>, e: Event, digest: Screen -> Digest, t: Id, target: Target)
    requires Describes(e, digest, t, target) && e.id !in Spent(log)
    ensures Live(log + [e], digest, t, target)
  {
    SpentOf(log, e);
    assert (log + [e])[|log|] == e;
  }

  // What the target's dictionary says allows it.
  predicate Allowed(target: Target, e: Event)
    requires e.Sent?
  {
    && TakesInput(e.kind, e.screen, e.action)
    && (NeedsCoordinates(e.action) ==> e.captured.Some? && e.captured == target.pixels)
    && (NeedsElement(e.kind, e.action) ==>
          && e.action.element.Some? && e.action.element.value in target.visible
          && Enabled(e.screen.elements, e.action.element.value))
  }

  // A dispatch uses up the target's token.
  lemma SendKeeps(log: seq<Event>, digest: Screen -> Digest, targets: map<Id, Target>, t: Id, spent: Target, e: Event)
    requires Inv(log, digest, targets) && t in targets
    requires e.Sent? && e.target == t && targets[t].observation == Some(e.id)
    requires digest(e.screen) == targets[t].digest && e.at - targets[t].observed <= MAX_AGE
    requires Allowed(targets[t], e)
    requires spent.observation == None
    ensures Inv(log + [e], digest, targets[t := spent])
  {
    hide Sound, Issues;
    SpentOf(log, e);
    LiveWasIssued(log, digest, targets, t);
    assert Licensed(log, digest, e) by {
      var i :| 0 <= i < |log| && Describes(log[i], digest, t, targets[t]);
      assert Licenses(log[i], digest, e);
    }
    assert e.id !in Spent(log);
    SoundStays(log, e, digest);
    assert Live(log + [e], digest, t, spent);
    hide Live;
    AllLiveStays(log, e, digest, targets, t, spent);
  }

  // Forgetting a token harms nothing.
  lemma ForgetKeeps(log: seq<Event>, digest: Screen -> Digest, targets: map<Id, Target>, t: Id, target: Target)
    requires Inv(log, digest, targets) && t in targets && target.observation == None
    ensures Inv(log, digest, targets[t := target])
  {
    hide Sound;
  }

  // Nor does adding a target without one, or dropping a target.
  lemma AddKeeps(log: seq<Event>, digest: Screen -> Digest, targets: map<Id, Target>, t: Id, target: Target)
    requires Inv(log, digest, targets) && t !in targets && |targets| < MAX_TARGETS && target.observation == None
    ensures Inv(log, digest, targets[t := target])
  {
    hide Sound;
    assert (targets[t := target]).Keys == targets.Keys + {t};
  }

  lemma DropKeeps(log: seq<Event>, digest: Screen -> Digest, targets: map<Id, Target>, t: Id)
    requires Inv(log, digest, targets) && t in targets
    ensures Inv(log, digest, targets - {t})
  {
    hide Sound;
    assert (targets - {t}).Keys == targets.Keys - {t};
  }

  // ---- what follows ----------------------------------------------------------------------------------------

  // At most one dispatch for each observation, and none without one.
  lemma AtMostOneDispatch(log: seq<Event>, digest: Screen -> Digest, i: nat, j: nat)
    requires Sound(log, digest) && i < j < |log| && log[i].Sent? && log[j].Sent?
    ensures log[i].id != log[j].id
  {
    SpentApart(log, i, j);
  }

  lemma {:induction false} SpentApart(log: seq<Event>, i: nat, j: nat)
    requires Distinct(Spent(log)) && i < j < |log| && log[i].Sent? && log[j].Sent?
    ensures log[i].id != log[j].id
  {
    var front, last := log[..|log| - 1], log[|log| - 1];
    assert log == front + [last];
    SpentOf(front, last);
    assert Distinct(Spent(front)) by {
      assert forall k :: 0 <= k < |Spent(front)| ==> Spent(log)[k] == Spent(front)[k];
    }
    if j < |front| {
      SpentApart(front, i, j);
    } else {
      IssuedIsListed(front, i);
      var k :| 0 <= k < |Spent(front)| && Spent(front)[k] == log[i].id;
      assert Spent(log)[k] == log[i].id && Spent(log)[|Spent(front)|] == last.id;
    }
  }

  // Whatever was sent passed the checks against the observation it was sent under.
  lemma SentWasChecked(log: seq<Event>, digest: Screen -> Digest, k: nat)
    requires Sound(log, digest) && k < |log| && log[k].Sent?
    ensures exists i :: 0 <= i < k && log[i].Issued? && log[i].target == log[k].target && log[i].id == log[k].id &&
                        Fits(log[i], log[k])
    ensures log[k].kind.Desktop? ==> !log[k].screen.own
    ensures log[k].kind.Desktop? && !log[k].action.Focus? ==> !log[k].screen.viewOnly
  {
    hide Enabled;
    assert Licensed(log[..k], digest, log[k]);
    var i :| 0 <= i < k && Licenses(log[..k][i], digest, log[k]);
    assert log[i] == log[..k][i];
  }

  // With fingerprints that tell states apart, what was sent went to the very state that was observed.
  lemma SentAsObserved(log: seq<Event>, digest: Screen -> Digest, k: nat)
    requires Sound(log, digest) && k < |log| && log[k].Sent?
    requires forall s, u :: digest(s) == digest(u) ==> s == u
    ensures exists i :: 0 <= i < k && log[i].Issued? && log[i].target == log[k].target && log[i].id == log[k].id &&
                        log[i].screen == log[k].screen && log[k].at - log[i].at <= MAX_AGE
  {
    assert Licensed(log[..k], digest, log[k]);
    var i :| 0 <= i < k && Licenses(log[..k][i], digest, log[k]);
    assert log[i] == log[..k][i];
  }

  // ---- the environment -------------------------------------------------------------------------------------

  // One observation: each part says whether that step of _observe went through and what it read.
  datatype Look = Look(breached: bool, settled: Option<Screen>, fallback: Option<Screen>, handled: bool,
                       captured: Option<Option<Pixels>>, confirm: Option<Screen>, offset: int, shown: nat,
                       bounded: bool, id: Id, now: int)

  function Ids(elements: seq<Element>): set<nat> { set e <- elements :: e.id }

  function Clip(i: int, n: nat): nat {
    if i < 0 then (if n + i < 0 then 0 else n + i) else if i < n then i else n
  }

  // elements[offset:offset + 30], with Python's treatment of negative and large indices.
  function Slice(elements: seq<Element>, offset: int): seq<Element> {
    var low, high := Clip(offset, |elements|), Clip(offset + PAGE, |elements|);
    if low <= high then elements[low..high] else []
  }

  function Seen(w: Look): Option<Screen> {
    if w.settled.Some? then w.settled else w.fallback
  }

  predicate GoodOffset(offset: int, n: nat) { offset == 0 || 0 < offset < n }

  // Every step of the observation goes through, and the state is the same after the capture as before it.
  predicate Succeeds(kind: Kind, w: Look) {
    && !w.breached && Seen(w).Some? && (kind.Browser? ==> w.handled) && w.captured.Some?
    && w.confirm == Seen(w) && w.bounded
    && (kind.Browser? ==> GoodOffset(w.offset, |Seen(w).value.elements|))
  }

  // The elements left after the observation was cut to its size bound: the first of the page.
  function Shown(elements: seq<Element>, offset: int, shown: nat): set<nat> {
    var page := Slice(elements, offset);
    Ids(if shown < |page| then page[..shown] else page)
  }

  // One act: the clock, what each read gave, and whether the dispatch came back.
  datatype World = World(now: int, breached: bool, before: Option<Screen>, proper: bool, captured: Option<Option<Pixels>>,
                         again: Option<Screen>, returned: bool, look: Look)

  // The target and the action suit each other; proper stands for the format of the remaining arguments.
  predicate Permitted(target: Target, before: Screen, action: Action, proper: bool) {
    && TakesInput(target.kind, before, action)
    && proper
    && (target.kind.Browser? ==> !action.Focus?)
    && (target.kind.Desktop? ==> !(action.Click? && action.element.Some?) && !(action.Type? && action.element.Some?))
    && (NeedsElement(target.kind, action) ==>
          && action.element.Some? && Enabled(before.elements, action.element.value)
          && action.element.value in target.visible)
  }

  // The screenshot taken for a coordinate; no other action takes one.
  function Aim(action: Action, w: World): Option<Pixels> {
    if NeedsCoordinates(action) && w.captured.Some? then w.captured.value else None
  }

  // The event of something going out.
  function Sending(t: Id, target: Target, observation: Option<Id>, action: Action, w: World): Event
    requires observation.Some? && w.before.Some?
  {
    Sent(t, observation.value, w.before.value, w.now, target.kind, action, Aim(action, w))
  }

  lemma GoesIsAllowed(t: Id, target: Target, observation: Option<Id>, action: Action, w: World,
                      digest: Screen -> Digest)
    requires Goes(target, observation, action, w, digest)
    ensures Allowed(target, Sending(t, target, observation, action, w))
  {
  }

  // The guards before the capture.
  predicate Current(target: Target, observation: Option<Id>, w: World) {
    && !w.breached && observation.Some? && target.observation == observation && w.now - target.observed <= MAX_AGE
    && w.before.Some?
  }

  predicate Unmoved(target: Target, w: World, digest: Screen -> Digest)
    requires w.before.Some?
  {
    digest(w.before.value) == target.digest
  }

  // Something goes out: every check of act passes.
  predicate Goes(target: Target, observation: Option<Id>, action: Action, w: World, digest: Screen -> Digest) {
    && Current(target, observation, w) && Unmoved(target, w, digest)
    && Permitted(target, w.before.value, action, w.proper)
    && (NeedsCoordinates(action) ==>
          w.captured.Some? && w.captured.value.Some? && w.captured.value == target.pixels && w.again == w.before)
  }

  // A refusal that also takes the token away: what was observed is no longer there.
  predicate Moved(target: Target, observation: Option<Id>, action: Action, w: World, digest: Screen -> Digest) {
    && Current(target, observation, w)
    && (!Unmoved(target, w, digest) ||
        (Permitted(target, w.before.value, action, w.proper) && NeedsCoordinates(action) && w.captured.Some? &&
         (w.captured.value.None? || w.captured.value != target.pixels || (w.again.Some? && w.again != w.before))))
  }

  // ---- when a token is issued and an action goes out -------------------------------------------------------

  // An offset that is answered at all shows the page from there: thirty elements, or those that are left.
  lemma PageFrom(elements: seq<Element>, offset: int)
    requires offset >= 0
    ensures Slice(elements, offset)
         == if offset >= |elements| then []
            else if offset + 30 >= |elements| then elements[offset..] else elements[offset..offset + 30]
  {
  }

  // The ids shown are those of the page's first elements, as many as were left of it.
  lemma ShownAre(elements: seq<Element>, offset: int, shown: nat, id: nat)
    requires offset >= 0
    ensures id in Shown(elements, offset, shown) <==>
              exists k :: offset <= k < |elements| && k < offset + 30 && k < offset + shown && elements[k].id == id
  {
    PageFrom(elements, offset);
    var page := Slice(elements, offset);
    var first := if shown < |page| then page[..shown] else page;
    assert forall k :: 0 <= k < |first| ==> first[k] == elements[offset + k];
    if id in Shown(elements, offset, shown) {
      var e :| e in first && e.id == id;
      var k :| 0 <= k < |first| && first[k] == e;
      assert elements[offset + k].id == id;
    }
    if k :| offset <= k < |elements| && k < offset + 30 && k < offset + shown && elements[k].id == id {
      assert first[k - offset] in first;
    }
  }

  // A token is issued exactly when one and the same state was read before the capture, settled or not, and after it, of
  // a page that was not breached, with what it takes to show it; in a browser, from an offset there is.
  lemma SucceedsExactly(kind: Kind, w: Look)
    ensures Succeeds(kind, w) <==>
              && !w.breached && w.captured.Some? && w.bounded
              && w.confirm.Some? && (w.settled == w.confirm || (w.settled.None? && w.fallback == w.confirm))
              && (kind.Browser? ==>
                    w.handled && (w.offset == 0 || 0 < w.offset < |w.confirm.value.elements|))
  {
  }

  // The observation is this target's unused one, at most 300 seconds old, and the target can be looked at again.
  predicate Timely(target: Target, observation: Option<Id>, w: World) {
    && !w.breached && observation.Some? && target.observation == observation && w.now <= target.observed + 300
    && w.before.Some?
  }

  // The first element of that id is there, enabled, and was shown.
  predicate Hits(target: Target, elements: seq<Element>, id: nat) {
    && id in target.visible
    && exists k :: 0 <= k < |elements| && elements[k].id == id && !elements[k].disabled &&
                   forall j :: 0 <= j < k ==> elements[j].id != id
  }

  // Aimed at a place on the screen.
  predicate Places(action: Action) { action == Drag || action == Stroke || action == Click(None) }

  // Which actions a target takes, as it looks: none on an own window, only a focus on a view-only one; a focus on windows
  // only, a click on an element in the browser only, and typing into an element there, into the window here.
  predicate Suits(target: Target, screen: Screen, action: Action) {
    && (target.kind.Desktop? ==> !screen.own && (screen.viewOnly ==> action.Focus?))
    && (action.Focus? ==> target.kind.Desktop?)
    && (action.Click? && action.element.Some? ==>
          target.kind.Browser? && Hits(target, screen.elements, action.element.value))
    && (action.Type? ==> if action.element.None? then target.kind.Desktop?
                         else target.kind.Browser? && Hits(target, screen.elements, action.element.value))
  }

  lemma SuitsExactly(target: Target, screen: Screen, action: Action, proper: bool)
    ensures Permitted(target, screen, action, proper) <==> proper && Suits(target, screen, action)
    ensures NeedsCoordinates(action) <==> Places(action)
  {
    if action.Click? || action.Type? {
      if action.element.Some? {
        EnabledIs(screen.elements, action.element.value);
      }
    }
  }

  lemma EnabledIs(elements: seq<Element>, id: nat)
    ensures Enabled(elements, id) <==>
              exists k :: 0 <= k < |elements| && elements[k].id == id && !elements[k].disabled &&
                          forall j :: 0 <= j < k ==> elements[j].id != id
  {
  }

  // An action goes out exactly under a timely observation, on a target that looks as it did and takes the action, and at
  // a place only where the pixels and then the state are found once more as they were.
  lemma GoesExactly(target: Target, observation: Option<Id>, action: Action, w: World, digest: Screen -> Digest)
    ensures Goes(target, observation, action, w, digest) <==>
              && Timely(target, observation, w) && digest(w.before.value) == target.digest
              && w.proper && Suits(target, w.before.value, action)
              && (Places(action) ==> w.captured.Some? && w.captured.value.Some? && w.captured.value == target.pixels
                                     && w.again == w.before)
  {
    hide Permitted, Suits, NeedsCoordinates, Places;
    if w.before.Some? {
      SuitsExactly(target, w.before.value, action, w.proper);
    }
  }

  // A refusal forgets the observation exactly when what it was of is seen to have changed: the state, or the pixels or
  // the state at the second look before an action at a place.
  lemma MovedExactly(target: Target, observation: Option<Id>, action: Action, w: World, digest: Screen -> Digest)
    ensures Moved(target, observation, action, w, digest) ==> !Goes(target, observation, action, w, digest)
    ensures Moved(target, observation, action, w, digest) <==>
              && Timely(target, observation, w)
              && (digest(w.before.value) != target.digest ||
                  (&& w.proper && Suits(target, w.before.value, action) && Places(action) && w.captured.Some?
                   && (w.captured.value.None? || w.captured.value != target.pixels
                       || (w.again.Some? && w.again != w.before))))
  {
    hide Permitted, Suits, NeedsCoordinates, Places;
    if w.before.Some? {
      SuitsExactly(target, w.before.value, action, w.proper);
    }
  }

  datatype Outcome = Refused | Uncertain | Done(after: Option<Id>)

  lemma OnlyAdded(was: map<Id, Target>, now: map<Id, Target>, t: Id)
    requires t !in was && now.Keys == was.Keys + {t} && forall u <- now :: u != t ==> now[u] == was[u]
    ensures now == was[t := now[t]] && now - {t} == was
  {
  }

  class Computer {
    const digest: Screen -> Digest
    var targets: map<Id, Target>
    ghost var log: seq<Event>

    ghost predicate Valid()
      reads this
    {
      Inv(log, digest, targets)
    }

    constructor (digest: Screen -> Digest)
      ensures Valid() && targets == map[] && log == [] && this.digest == digest
    {
      this.digest := digest;
      targets := map[];
      log := [];
    }

    // A token is issued exactly when every step went through, for the state read last.
    method Look(t: Id, w: Look) returns (r: Option<Id>)
      requires Valid() && w.id !in Issues(log)
      modifies this
      ensures Valid()
      ensures r == if t in old(targets) && Succeeds(old(targets)[t].kind, w) then Some(w.id) else None
      ensures targets.Keys == old(targets).Keys
      ensures forall u <- targets :: u != t ==> targets[u] == old(targets)[u]
      ensures t in targets ==> targets[t].kind == old(targets)[t].kind && targets[t].observation == r
      ensures r.None? ==> log == old(log)
      ensures r.Some? ==>
                && log == old(log) + [Issued(t, w.id, w.confirm.value, w.now, w.captured.value, targets[t].visible)]
                && targets[t].digest == digest(w.confirm.value) && targets[t].observed == w.now
                && targets[t].pixels == w.captured.value
                && (old(targets)[t].kind.Browser? ==>
                      && targets[t].handles == Ids(Slice(w.confirm.value.elements, w.offset))
                      && targets[t].visible == Shown(w.confirm.value.elements, w.offset, w.shown))
    {
      hide Inv, Sound, Issues, Spent, Slice, Shown;
      if t !in targets {
        return None;
      }
      var target := targets[t].(observation := None, visible := {});
      ForgetKeeps(log, digest, targets, t, target);
      targets := targets[t := target];
      if w.breached {
        return None;
      }
      target := target.(handles := {});
      ForgetKeeps(log, digest, targets, t, target);
      targets := targets[t := target];
      var state := w.settled;
      if state.None? {
        state := w.fallback;
      }
      if state.None? || (target.kind.Browser? && !w.handled) {
        return None;
      }
      var screen := state.value;
      if target.kind.Browser? {
        target := target.(handles := Ids(Slice(screen.elements, w.offset)));
        ForgetKeeps(log, digest, targets, t, target);
        targets := targets[t := target];
      }
      if w.captured.None? || w.confirm != Some(screen) {
        return None;
      }
      if (target.kind.Browser? && !GoodOffset(w.offset, |screen.elements|)) || !w.bounded {
        return None;
      }
      if target.kind.Browser? {
        target := target.(visible := Shown(screen.elements, w.offset, w.shown));
        ShownIsHandled(screen.elements, w.offset, w.shown);
      }
      target := target.(observation := Some(w.id), digest := digest(screen), observed := w.now, pixels := w.captured.value);
      IssueKeeps(log, digest, targets, t, target, Issued(t, w.id, screen, w.now, w.captured.value, target.visible));
      targets := targets[t := target];
      log := log + [Issued(t, w.id, screen, w.now, w.captured.value, target.visible)];
      r := Some(w.id);
    }

    method Open(t: Id, kind: Kind, reached: bool, w: Look) returns (r: Option<Id>)
      requires Valid() && w.id !in Issues(log) && t !in targets
      modifies this
      ensures Valid()
      ensures r.Some? <==> |old(targets)| < 4 && reached && Succeeds(kind, w)
      ensures r.Some? ==> r == Some(w.id) && t in targets && targets == old(targets)[t := targets[t]]
      ensures r.Some? ==> targets[t].observation == r && targets[t].kind == kind
      ensures r.Some? ==> |log| == |old(log)| + 1 && log[..|old(log)|] == old(log)
      ensures r.Some? ==> log[|old(log)|].Issued? && log[|old(log)|].target == t && log[|old(log)|].id == w.id
      ensures r.None? ==> targets == old(targets) && log == old(log)
    {
      hide Inv, Succeeds, Slice, Shown, Issues;
      if |targets| >= MAX_TARGETS || !reached {
        return None;
      }
      var target := Target(kind, None, 0, 0, None, {}, {});
      AddKeeps(log, digest, targets, t, target);
      ghost var was := targets;
      targets := targets[t := target];
      assert targets.Keys == was.Keys + {t};
      r := Look(t, w);
      OnlyAdded(was, targets, t);
      if r.None? {
        DropKeeps(log, digest, targets, t);
        targets := targets - {t};
      }
    }

    method Close(t: Id) returns (ok: bool)
      requires Valid()
      modifies `targets
      ensures Valid() && ok == (t in old(targets)) && targets == old(targets) - {t}
    {
      hide Inv;
      ok := t in targets;
      if ok {
        DropKeeps(log, digest, targets, t);
        targets := targets - {t};
      } else {
        assert targets == targets - {t};
      }
    }

    // An action: it goes out exactly when every check passes, uses up its token whatever happens then, and is
    // never sent again.
    method Act(t: Id, observation: Option<Id>, action: Action, w: World) returns (r: Outcome)
      requires Valid() && w.look.id !in Issues(log)
      modifies this
      ensures Valid() && targets.Keys == old(targets).Keys
      ensures forall u <- targets :: u != t ==> targets[u] == old(targets)[u]
      ensures r.Refused? <==> t !in old(targets) || !Goes(old(targets)[t], observation, action, w, digest)
      ensures r.Refused? ==> log == old(log)
      ensures r.Refused? && t in targets ==>
                targets[t] == if Moved(old(targets)[t], observation, action, w, digest)
                              then old(targets)[t].(observation := None) else old(targets)[t]
      ensures !r.Refused? ==>
                && |log| > |old(log)| && log[..|old(log)|] == old(log)
                && log[|old(log)|] == Sending(t, old(targets)[t], observation, action, w)
                && (|log| == |old(log)| + 1 ||
                    (|log| == |old(log)| + 2 && log[|old(log)| + 1].Issued? && log[|old(log)| + 1].id == w.look.id))
                && targets[t].observation != observation
      ensures r.Uncertain? <==> t in old(targets) && Goes(old(targets)[t], observation, action, w, digest) && !w.returned
      ensures r.Done? ==> targets[t].observation == r.after &&
                          (r.after.Some? <==> Succeeds(old(targets)[t].kind, w.look.(offset := 0)))
    {
      hide Inv, Sound, Issues, Spent, Succeeds, Permitted, Slice, Shown;
      r := Refused;
      if t !in targets {
        return;
      }
      var target := targets[t];
      ForgetKeeps(log, digest, targets, t, target.(observation := None));
      if w.breached || observation.None? || target.observation != observation || w.now - target.observed > MAX_AGE {
        return;
      }
      if w.before.None? {
        return;
      }
      var before := w.before.value;
      if digest(before) != target.digest {
        targets := targets[t := target.(observation := None)];
        return;
      }
      if !Permitted(target, before, action, w.proper) {
        return;
      }
      if NeedsCoordinates(action) {
        if w.captured.None? {
          return;
        }
        if w.captured.value.None? || w.captured.value != target.pixels {
          targets := targets[t := target.(observation := None)];
          return;
        }
        if w.again.None? {
          return;
        }
        if w.again != w.before {
          targets := targets[t := target.(observation := None)];
          return;
        }
      }
      ghost var sent := Sending(t, target, observation, action, w);
      GoesIsAllowed(t, target, observation, action, w, digest);
      SendKeeps(log, digest, targets, t, target.(observation := None), sent);
      SpentOf(log, sent);
      assert observation.value in Issues(log) by { WasIssued(log, digest, targets, t); }
      targets := targets[t := target.(observation := None)];
      log := log + [sent];
      if !w.returned {
        return Uncertain;
      }
      var after := Look(t, w.look.(offset := 0));
      r := Done(after);
    }
  }

  lemma WasIssued(log: seq<Event>, digest: Screen -> Digest, targets: map<Id, Target>, t: Id)
    requires Inv(log, digest, targets) && t in targets && targets[t].observation.Some?
    ensures targets[t].observation.value in Issues(log)
  {
    LiveWasIssued(log, digest, targets, t);
  }

  lemma ShownIsHandled(elements: seq<Element>, offset: int, shown: nat)
    ensures Shown(elements, offset, shown) <= Ids(Slice(elements, offset))
  {
  }

  // ---- whole runs ------------------------------------------------------------------------------------------

  datatype Command =
    | Opening(target: Id, kind: Kind, reached: bool, look: Look)
    | Observing(target: Id, look: Look)
    | Acting(target: Id, observation: Option<Id>, action: Action, world: World)
    | Closing(target: Id)

  // The id a command would give its observation.
  function NewId(c: Command): seq<Id> {
    match c
    case Acting(_, _, _, world) => [world.look.id]
    case Closing(_) => []
    case _ => [c.look.id]
  }

  function NewIds(commands: seq<Command>): seq<Id> {
    if commands == [] then [] else NewIds(commands[..|commands| - 1]) + NewId(commands[|commands| - 1])
  }

  function NewTargets(commands: seq<Command>): seq<Id> {
    if commands == [] then []
    else
      var front, last := NewTargets(commands[..|commands| - 1]), commands[|commands| - 1];
      if last.Opening? then front + [last.target] else front
  }

  // What uuid4 is trusted for.
  predicate FreshIds(commands: seq<Command>) { Distinct(NewIds(commands)) && Distinct(NewTargets(commands)) }

  // The command went out as an action, under that observation.
  predicate Dispatched(c: Command, r: Outcome) { c.Acting? && !r.Refused? }

  predicate UsedTwice(c: Command, r: Outcome, d: Command, q: Outcome) {
    Dispatched(c, r) && Dispatched(d, q) && c.observation == d.observation
  }

  lemma {:induction false} IdsBefore(commands: seq<Command>, i: nat)
    requires i <= |commands|
    ensures NewIds(commands[..i]) <= NewIds(commands) && NewTargets(commands[..i]) <= NewTargets(commands)
    decreases |commands| - i
  {
    if i < |commands| {
      assert commands[..i + 1][..i] == commands[..i];
      IdsBefore(commands, i + 1);
    } else {
      assert commands[..i] == commands;
    }
  }

  lemma FreshNow(commands: seq<Command>, i: nat)
    requires FreshIds(commands) && i < |commands|
    ensures NewIds(commands[..i + 1]) == NewIds(commands[..i]) + NewId(commands[i])
    ensures forall id <- NewId(commands[i]) :: id !in NewIds(commands[..i])
    ensures commands[i].Opening? ==> NewTargets(commands[..i + 1]) == NewTargets(commands[..i]) + [commands[i].target]
    ensures commands[i].Opening? ==> commands[i].target !in NewTargets(commands[..i])
    ensures !commands[i].Opening? ==> NewTargets(commands[..i + 1]) == NewTargets(commands[..i])
  {
    assert commands[..i + 1][..i] == commands[..i];
    IdsBefore(commands, i + 1);
    var ids, targets := NewIds(commands[..i]), NewTargets(commands[..i]);
    DistinctPrefix(NewIds(commands[..i + 1]), NewIds(commands));
    DistinctPrefix(NewTargets(commands[..i + 1]), NewTargets(commands));
    DistinctLast(ids, NewId(commands[i]));
    DistinctLast(targets, if commands[i].Opening? then [commands[i].target] else []);
  }

  lemma DistinctPrefix(a: seq<Id>, b: seq<Id>)
    requires a <= b && Distinct(b)
    ensures Distinct(a)
  {
    assert forall i :: 0 <= i < |a| ==> a[i] == b[i];
  }

  lemma DistinctLast(a: seq<Id>, more: seq<Id>)
    requires Distinct(a + more)
    ensures forall id <- more :: id !in a
  {
    forall id <- more
      ensures id !in a
    {
      var k :| 0 <= k < |more| && more[k] == id;
      assert (a + more)[|a| + k] == id;
      assert forall i :: 0 <= i < |a| ==> (a + more)[i] == a[i];
    }
  }

  // A log only grows: what was issued and what was spent stay so.
  lemma {:induction false} LogGrows(log: seq<Event>, longer: seq<Event>)
    requires log <= longer
    ensures Spent(log) <= Spent(longer) && Issues(log) <= Issues(longer)
    decreases |longer|
  {
    if |log| < |longer| {
      var front := longer[..|longer| - 1];
      assert longer == front + [longer[|longer| - 1]];
      SpentOf(front, longer[|longer| - 1]);
      LogGrows(log, front);
    } else {
      assert log == longer;
    }
  }

  lemma IssuedOne(log: seq<Event>, longer: seq<Event>, id: Id)
    requires longer == log || (|longer| == |log| + 1 && log <= longer &&
                               longer[|log|].Issued? && longer[|log|].id == id)
    ensures forall x <- Issues(longer) :: x in Issues(log) || x == id
    ensures Spent(longer) == Spent(log)
  {
    if longer != log {
      assert longer == log + [longer[|log|]];
      SpentOf(log, longer[|log|]);
    }
  }

  lemma SentOne(log: seq<Event>, longer: seq<Event>, digest: Screen -> Digest, id: Id)
    requires log <= longer && |log| < |longer| && longer[|log|].Sent? && longer[|log|].id == id
    requires Sound(longer, digest)
    ensures id !in Spent(log) && id in Spent(longer)
  {
    var upto := log + [longer[|log|]];
    assert upto <= longer;
    SpentOf(log, longer[|log|]);
    LogGrows(upto, longer);
    DistinctPrefix(Spent(upto), Spent(longer));
    DistinctLast(Spent(log), [id]);
    assert Spent(longer)[|Spent(log)|] == id;
  }

  // Any commands in any order: no observation is acted on twice, whatever became of the action it was used for, and
  // the log of what went out is sound.
  method Run(commands: seq<Command>, digest: Screen -> Digest) returns (replies: seq<Outcome>, ghost log: seq<Event>)
    requires FreshIds(commands)
    ensures |replies| == |commands|
    ensures forall i, j :: 0 <= i < j < |commands| ==> !UsedTwice(commands[i], replies[i], commands[j], replies[j])
    ensures Sound(log, digest)
    ensures forall i :: 0 <= i < |commands| && Dispatched(commands[i], replies[i]) ==>
                          commands[i].observation.Some? && commands[i].observation.value in Spent(log)
  {
    hide Inv, Sound, Issues, Spent, NewIds, NewTargets, FreshIds, Goes, Moved, Succeeds, Shown, Slice;
    var computer := new Computer(digest);
    replies := [];
    NothingYet(commands);
    for i := 0 to |commands|
      invariant fresh(computer) && computer.Valid() && computer.digest == digest && |replies| == i
      invariant forall id <- Issues(computer.log) :: id in NewIds(commands[..i])
      invariant forall t <- computer.targets :: t in NewTargets(commands[..i])
      invariant forall k :: 0 <= k < i && Dispatched(commands[k], replies[k]) ==>
                              commands[k].observation.Some? && commands[k].observation.value in Spent(computer.log)
      invariant forall k, l :: 0 <= k < l < i ==> !UsedTwice(commands[k], replies[k], commands[l], replies[l])
    {
      FreshNow(commands, i);
      ghost var before := computer.log;
      var reply := Step(computer, commands[i]);
      LogGrows(before, computer.log);
      assert Sound(computer.log, digest) by { InvIsSound(computer.log, digest, computer.targets); }
      if Dispatched(commands[i], reply) {
        SentOne(before, computer.log, digest, commands[i].observation.value);
      }
      replies := replies + [reply];
    }
    log := computer.log;
    InvIsSound(log, digest, computer.targets);
  }

  lemma NothingYet(commands: seq<Command>)
    ensures NewIds(commands[..0]) == [] && NewTargets(commands[..0]) == [] && Issues([]) == []
  {
  }

  lemma InvIsSound(log: seq<Event>, digest: Screen -> Digest, targets: map<Id, Target>)
    requires Inv(log, digest, targets)
    ensures Sound(log, digest)
  {
  }

  method Step(computer: Computer, c: Command) returns (r: Outcome)
    requires computer.Valid()
    requires forall id <- NewId(c) :: id !in Issues(computer.log)
    requires c.Opening? ==> c.target !in computer.targets
    modifies computer
    ensures computer.Valid() && old(computer.log) <= computer.log
    ensures forall id <- Issues(computer.log) :: id in old(Issues(computer.log)) || id in NewId(c)
    ensures forall t <- computer.targets :: t in old(computer.targets) || (c.Opening? && t == c.target)
    ensures Dispatched(c, r) ==>
              c.observation.Some? && |computer.log| > |old(computer.log)| &&
              computer.log[|old(computer.log)|].Sent? && computer.log[|old(computer.log)|].id == c.observation.value
  {
    hide Inv, Sound, Issues, Spent, Moved, Succeeds, Shown, Slice, Permitted;
    ghost var before := computer.log;
    match c {
      case Opening(t, kind, reached, look) =>
        var id := computer.Open(t, kind, reached, look);
        IssuedOne(before, computer.log, look.id);
        r := Done(id);
      case Observing(t, look) =>
        var id := computer.Look(t, look);
        IssuedOne(before, computer.log, look.id);
        r := Done(id);
      case Acting(t, observation, action, world) =>
        r := computer.Act(t, observation, action, world);
        if r.Refused? {
        } else {
          ghost var sent := before + [computer.log[|before|]];
          SpentOf(before, computer.log[|before|]);
          IssuedOne(sent, computer.log, world.look.id);
        }
      case Closing(t) =>
        var ok := computer.Close(t);
        r := Done(None);
    }
  }
}
