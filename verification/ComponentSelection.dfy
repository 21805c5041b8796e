/** Which parts of a request's messages are stored as components (dream/core/context_inspection.py: spans_of, _units,
    _components). Text is its length; a message also carries its JSON value, which the work allowance is charged for. */
module ComponentSelection {
  import opened Common
  import opened JsonWeight
  import opened CaptureWork

  const MAX_SPANS: nat := 10_000
  const MAX_PARTS: nat := 4096
  const MAX_MESSAGE_COMPONENTS: nat := 24
  const HEAD_COMPONENTS: nat := 32
  const MAX_COMPONENTS: nat := 160
  const MAX_WORK_MESSAGES: nat := 4096

  // ---- spans -----------------------------------------------------------------------------------------------

  // What an assembler may have left as provenance: anything at all.
  datatype RawSpan = NotASpan | Raw(start: int, end: int, source: string)
  datatype Span = Span(start: nat, end: nat, source: string)

  // The spans cover 0..chars without a gap or an overlap.
  ghost predicate Tile(spans: seq<Span>, chars: nat) {
    && |spans| > 0 && spans[0].start == 0 && spans[|spans| - 1].end == chars
    && (forall i :: 0 <= i < |spans| ==> spans[i].start <= spans[i].end)
    && (forall i :: 0 < i < |spans| ==> spans[i].start == spans[i - 1].end)
  }

  ghost predicate Reads(spans: seq<Span>, raw: seq<RawSpan>) {
    |spans| == |raw| &&
    forall i :: 0 <= i < |raw| ==> raw[i] == Raw(spans[i].start, spans[i].end, spans[i].source)
  }

  // The spans as read from the front, and where the last one ends, while each begins where the one before it ended.
  function ReadSpans(raw: seq<RawSpan>): Option<(seq<Span>, nat)> {
    if |raw| == 0 then Some(([], 0))
    else
      var before, last := ReadSpans(raw[..|raw| - 1]), raw[|raw| - 1];
      if before.None? || last.NotASpan? || last.start != before.value.1 || last.end < last.start then None
      else Some((before.value.0 + [Span(last.start, last.end, last.source)], last.end))
  }

  function Unknown(chars: nat): seq<Span> { [Span(0, chars, "unknown")] }

  function SpanList(chars: nat, provenance: Option<seq<RawSpan>>): seq<Span> {
    if provenance.None? || |provenance.value| == 0 || |provenance.value| > MAX_SPANS then Unknown(chars)
    else
      var found := ReadSpans(provenance.value);
      if found.None? || found.value.1 != chars then Unknown(chars) else found.value.0
  }

  lemma {:induction false} UnreadableStays(raw: seq<RawSpan>, i: nat)
    requires i <= |raw| && ReadSpans(raw[..i]).None?
    ensures ReadSpans(raw).None?
    decreases |raw| - i
  {
    if i < |raw| {
      assert raw[..i + 1][..i] == raw[..i];
      UnreadableStays(raw, i + 1);
    } else {
      assert raw[..i] == raw;
    }
  }

  method SpansOf(chars: nat, provenance: Option<seq<RawSpan>>) returns (spans: seq<Span>)
    ensures spans == SpanList(chars, provenance)
  {
    if provenance.None? || |provenance.value| == 0 || |provenance.value| > MAX_SPANS {
      return Unknown(chars);
    }
    var raw := provenance.value;
    var at: nat := 0;
    var out: seq<Span> := [];
    for i := 0 to |raw|
      invariant ReadSpans(raw[..i]) == Some((out, at))
    {
      assert raw[..i + 1][..i] == raw[..i];
      if raw[i].NotASpan? || raw[i].start != at || raw[i].end < raw[i].start {
        UnreadableStays(raw, i + 1);
        return Unknown(chars);
      }
      out := out + [Span(at, raw[i].end, raw[i].source)];
      at := raw[i].end;
    }
    assert raw[..|raw|] == raw;
    return if at == chars then out else Unknown(chars);
  }

  lemma {:induction false} ReadSpansTile(raw: seq<RawSpan>)
    ensures ReadSpans(raw).Some? && |raw| > 0 ==>
              Tile(ReadSpans(raw).value.0, ReadSpans(raw).value.1) && Reads(ReadSpans(raw).value.0, raw)
  {
    if |raw| > 0 && ReadSpans(raw).Some? {
      var init := raw[..|raw| - 1];
      ReadSpansTile(init);
      var before, after := ReadSpans(init).value.0, ReadSpans(raw).value.0;
      assert |init| == 0 ==> before == [];
      assert |before| == |init| && after[..|before|] == before;
      assert forall i :: 0 <= i < |init| ==> raw[i] == init[i] && after[i] == before[i];
      assert |init| > 0 ==> after[|init| - 1].end == ReadSpans(init).value.1;
      assert |init| == 0 ==> ReadSpans(init).value.1 == 0;
    }
  }

  lemma {:induction false} TilingIsRead(raw: seq<RawSpan>, found: seq<Span>, chars: nat)
    requires Tile(found, chars) && Reads(found, raw)
    ensures ReadSpans(raw) == Some((found, chars))
  {
    var n := |raw| - 1;
    if n == 0 {
      assert raw[..0] == [];
      assert ReadSpans(raw[..0]) == Some(([], 0));
      assert raw[0] == Raw(found[0].start, found[0].end, found[0].source);
      assert found == [] + [found[0]];
    } else {
      assert raw[n] == Raw(found[n].start, found[n].end, found[n].source);
      assert Tile(found[..n], found[n - 1].end);
      TilingIsRead(raw[..n], found[..n], found[n - 1].end);
      assert found == found[..n] + [found[n]];
    }
  }

  // The spans always tile the text. They are the provenance's exactly when that tiles it; otherwise the whole text
  // is one span from an unknown source.
  lemma SpanListIsExact(chars: nat, provenance: Option<seq<RawSpan>>)
    ensures Tile(SpanList(chars, provenance), chars)
    ensures if provenance.Some? && |provenance.value| <= 10_000 &&
               exists found :: Tile(found, chars) && Reads(found, provenance.value)
            then Reads(SpanList(chars, provenance), provenance.value)
            else SpanList(chars, provenance) == [Span(0, chars, "unknown")]
  {
    if provenance.Some? {
      var raw := provenance.value;
      ReadSpansTile(raw);
      if found: seq<Span> :| Tile(found, chars) && Reads(found, raw) {
        TilingIsRead(raw, found, chars);
      }
    }
  }

  // ---- units -----------------------------------------------------------------------------------------------

  datatype Part = Image | TextPart(chars: nat) | OtherPart
  datatype Form = Nothing | Text | Multipart

  datatype Content =
    | NotADict
    | System(chars: nat, provenance: Option<seq<RawSpan>>)           // a system message whose content is text
    | Plain(form: Form, chars: nat, parts: seq<Part>, calls: seq<nat>)
    // parts: a multipart content's; calls: the length of each tool call's arguments

  datatype UnitKind = IsSection | IsMessage | IsPart | IsCall

  datatype Unit =
    | Section(start: nat, end: nat, source: string)
    | Whole(form: Form, images: nat, others: nat)
    | PartUnit(index: nat)
    | CallUnit(index: nat)
    | Merged(count: nat, kinds: multiset<UnitKind>, span: Option<(nat, nat)>)

  function KindOf(u: Unit): UnitKind
    requires !u.Merged?
  {
    match u
    case Section(_, _, _) => IsSection
    case Whole(_, _, _) => IsMessage
    case PartUnit(_) => IsPart
    case CallUnit(_) => IsCall
  }

  function Front<T>(s: seq<T>, n: nat): seq<T> { if |s| > n then s[..n] else s }

  function Images(parts: seq<Part>): nat {
    if |parts| == 0 then 0 else Images(parts[..|parts| - 1]) + if parts[|parts| - 1].Image? then 1 else 0
  }

  function TextIndexes(parts: seq<Part>): seq<nat> {
    if |parts| == 0 then []
    else TextIndexes(parts[..|parts| - 1]) + if parts[|parts| - 1].TextPart? then [|parts| - 1] else []
  }

  lemma {:induction false} PartsCounted(parts: seq<Part>)
    ensures Images(parts) + |TextIndexes(parts)| <= |parts|
  {
    if |parts| > 0 {
      PartsCounted(parts[..|parts| - 1]);
    }
  }

  // Every unit of a message, before the cap. `spans` are a system message's.
  function AllUnits(content: Content, spans: seq<Span>): seq<Unit> {
    match content
    case NotADict => [Whole(Nothing, 0, 0)]
    case System(_, _) => Sections(spans)
    case Plain(form, _, parts, calls) =>
      var seen, texts := Front(parts, MAX_PARTS), TextIndexes(Front(parts, MAX_PARTS));
      PartsCounted(seen);
      [Whole(form, Images(seen), |seen| - Images(seen) - |texts| + (|parts| - |seen|))]
        + seq(|texts|, i requires 0 <= i < |texts| => PartUnit(texts[i]))
        + seq(|Front(calls, MAX_PARTS)|, i requires 0 <= i => CallUnit(i))
  }

  // Where the parts looked at are of each kind.
  ghost function ImagesAt(parts: seq<Part>, n: nat): set<nat>
    requires n <= |parts|
  {
    set i: nat | i < n && parts[i].Image?
  }

  ghost function TextsAt(parts: seq<Part>, n: nat): set<nat>
    requires n <= |parts|
  {
    set i: nat | i < n && parts[i].TextPart?
  }

  lemma PartsFound(parts: seq<Part>)
    ensures Images(parts) == |ImagesAt(parts, |parts|)| && |TextIndexes(parts)| == |TextsAt(parts, |parts|)|
    ensures forall k :: 0 <= k < |TextIndexes(parts)| ==> TextIndexes(parts)[k] in TextsAt(parts, |parts|)
    ensures forall j, k :: 0 <= j < k < |TextIndexes(parts)| ==> TextIndexes(parts)[j] < TextIndexes(parts)[k]
  {
    ImagesFound(parts);
    TextsFound(parts);
  }

  lemma {:induction false} ImagesFound(parts: seq<Part>)
    ensures Images(parts) == |ImagesAt(parts, |parts|)|
  {
    if |parts| > 0 {
      var n := |parts| - 1;
      ImagesFound(parts[..n]);
      assert ImagesAt(parts, n + 1) == ImagesAt(parts[..n], n) + (if parts[n].Image? then {n} else {});
      assert n !in ImagesAt(parts[..n], n);
    } else {
      assert ImagesAt(parts, 0) == {};
    }
  }

  lemma TextsNext(parts: seq<Part>, n: nat)
    requires |parts| == n + 1
    ensures TextsAt(parts, n + 1) == TextsAt(parts[..n], n) + (if parts[n].TextPart? then {n} else {})
    ensures forall i <- TextsAt(parts[..n], n) :: i < n
  {
  }

  lemma {:induction false} TextsFound(parts: seq<Part>)
    ensures var texts := TextIndexes(parts);
            && |texts| == |TextsAt(parts, |parts|)|
            && (forall k :: 0 <= k < |texts| ==> texts[k] in TextsAt(parts, |parts|))
            && (forall j, k :: 0 <= j < k < |texts| ==> texts[j] < texts[k])
  {
    if |parts| > 0 {
      var n := |parts| - 1;
      TextsFound(parts[..n]);
      TextsNext(parts, n);
      hide TextsAt;
      assert n !in TextsAt(parts[..n], n);
    } else {
      assert TextsAt(parts, 0) == {};
    }
  }

  // A message's units: the message with its images and what else of its content is no text, each text part that is looked
  // at, in order, and each tool call that is.
  lemma PlainUnits(form: Form, chars: nat, parts: seq<Part>, calls: seq<nat>)
    ensures var n := if |parts| < 4096 then |parts| else 4096;
            var c := if |calls| < 4096 then |calls| else 4096;
            var images, texts := |ImagesAt(parts, n)|, |TextsAt(parts, n)|;
            var units := AllUnits(Plain(form, chars, parts, calls), []);
            && |units| == 1 + texts + c && images + texts <= |parts|
            && units[0] == Whole(form, images, |parts| - images - texts)
            && (forall k :: 1 <= k <= texts ==> units[k].PartUnit? && units[k].index in TextsAt(parts, n))
            && (forall j, k :: 1 <= j < k <= texts ==> units[j].index < units[k].index)
            && (forall k :: 0 <= k < c ==> units[1 + texts + k] == CallUnit(k))
    ensures AllUnits(NotADict, []) == [Whole(Nothing, 0, 0)]
  {
    hide ImagesAt, TextsAt, TextIndexes, Images;
    var seen := Front(parts, MAX_PARTS);
    PartsFound(seen);
    PartsCounted(seen);
    SeenAt(parts, |seen|);
    assert seen == parts[..|seen|];
  }

  lemma SeenAt(parts: seq<Part>, n: nat)
    requires n <= |parts|
    ensures ImagesAt(parts[..n], n) == ImagesAt(parts, n) && TextsAt(parts[..n], n) == TextsAt(parts, n)
  {
  }

  function Kinds(units: seq<Unit>): multiset<UnitKind>
    requires forall u <- units :: !u.Merged?
  {
    if |units| == 0 then multiset{} else Kinds(units[..|units| - 1]) + multiset{KindOf(units[|units| - 1])}
  }

  ghost function Places(units: seq<Unit>, which: Unit -> bool): set<nat> {
    set i: nat | i < |units| && which(units[i])
  }

  lemma CountNext(units: seq<Unit>, which: Unit -> bool)
    requires |units| > 0
    ensures var n := |units| - 1;
            |Places(units, which)| == |Places(units[..n], which)| + if which(units[n]) then 1 else 0
  {
    var n := |units| - 1;
    assert Places(units, which) == Places(units[..n], which) + if which(units[n]) then {n} else {};
    assert n !in Places(units[..n], which);
  }

  // The kinds, by how many units there are of each.
  lemma {:induction false} KindsCounted(units: seq<Unit>, kind: UnitKind)
    requires forall u <- units :: !u.Merged?
    ensures Kinds(units)[kind] == |Places(units, u => OfKind(u, kind))|
  {
    if |units| > 0 {
      KindsCounted(units[..|units| - 1], kind);
      CountNext(units, u => OfKind(u, kind));
    } else {
      assert Places(units, u => OfKind(u, kind)) == {};
    }
  }

  predicate OfKind(u: Unit, kind: UnitKind) {
    match kind
    case IsSection => u.Section?
    case IsMessage => u.Whole?
    case IsPart => u.PartUnit?
    case IsCall => u.CallUnit?
  }

  // At most MAX_MESSAGE_COMPONENTS: past that the last one stands for all the rest.
  function Capped(units: seq<Unit>): seq<Unit>
    requires forall u <- units :: !u.Merged?
  {
    if |units| <= MAX_MESSAGE_COMPONENTS then units
    else
      var rest := units[MAX_MESSAGE_COMPONENTS - 1..];
      var last := rest[|rest| - 1];
      var span := if rest[0].Section? && last.Section? then Some((rest[0].start, last.end)) else None;
      units[..MAX_MESSAGE_COMPONENTS - 1] + [Merged(|rest|, Kinds(rest), span)]
  }

  function UnitsOf(content: Content): (units: seq<Unit>)
    ensures 1 <= |units| <= 24
  {
    var spans := if content.System? then SpanListIsExact(content.chars, content.provenance);
                   SpanList(content.chars, content.provenance) else [];
    Capped(AllUnits(content, spans))
  }

  predicate HasStretch(u: Unit) { u.Section? || (u.Merged? && u.span.Some?) }

  // The stretch of a system text a unit is about.
  function Stretch(u: Unit): Span
    requires HasStretch(u)
  {
    if u.Section? then Span(u.start, u.end, u.source) else Span(u.span.value.0, u.span.value.1, "merged")
  }

  function Stretches(units: seq<Unit>): seq<Span>
    requires forall u <- units :: HasStretch(u)
  {
    seq(|units|, i requires 0 <= i < |units| => assert units[i] in units; Stretch(units[i]))
  }

  // Whatever the cap, a system message's sections with any merged stretch tile its text exactly.
  lemma SectionsTile(chars: nat, provenance: Option<seq<RawSpan>>)
    ensures var units := UnitsOf(System(chars, provenance));
            (forall u <- units :: HasStretch(u)) && Tile(Stretches(units), chars)
  {
    var spans, units := SpanList(chars, provenance), UnitsOf(System(chars, provenance));
    SpanListIsExact(chars, provenance);
    hide SpanList, Tile, Capped, Stretches;
    StretchesOfSections(spans);
    if |spans| > MAX_MESSAGE_COMPONENTS {
      assert spans[|spans| - 1].end == chars by { TileEnds(spans, chars); }
      MergedTile(spans, chars, MAX_MESSAGE_COMPONENTS - 1);
    }
  }

  lemma TileEnds(spans: seq<Span>, chars: nat)
    requires Tile(spans, chars)
    ensures |spans| > 0 && spans[|spans| - 1].end == chars
  {
  }

  function Sections(spans: seq<Span>): seq<Unit> {
    seq(|spans|, i requires 0 <= i < |spans| => Section(spans[i].start, spans[i].end, spans[i].source))
  }

  // The stretches of a system message's capped units: the spans, those past the cap run together.
  lemma StretchesOfSections(spans: seq<Span>)
    ensures forall u <- Sections(spans) :: !u.Merged?
    ensures forall u <- Capped(Sections(spans)) :: HasStretch(u)
    ensures var last := MAX_MESSAGE_COMPONENTS - 1;
            Stretches(Capped(Sections(spans)))
              == if |spans| <= MAX_MESSAGE_COMPONENTS then spans
                 else spans[..last] + [Span(spans[last].start, spans[|spans| - 1].end, "merged")]
  {
    hide Kinds;
    var all := Sections(spans);
    if |spans| <= MAX_MESSAGE_COMPONENTS {
      assert Stretches(Capped(all)) == spans;
    } else {
      var last := MAX_MESSAGE_COMPONENTS - 1;
      assert all[last..][0] == all[last] && all[last..][|all| - last - 1] == all[|all| - 1];
    }
  }

  lemma MergedTile(spans: seq<Span>, chars: nat, k: nat)
    requires Tile(spans, chars) && k < |spans|
    ensures Tile(spans[..k] + [Span(spans[k].start, chars, "merged")], chars)
  {
    TileOrder(spans, chars, k, |spans| - 1);
  }

  lemma {:induction false} TileOrder(spans: seq<Span>, chars: nat, i: nat, j: nat)
    requires Tile(spans, chars) && i <= j < |spans|
    ensures spans[i].start <= spans[j].end
    decreases j
  {
    if i < j {
      TileOrder(spans, chars, i, j - 1);
    }
  }

  // What each unit stands for.
  function Standing(units: seq<Unit>): nat {
    if |units| == 0 then 0
    else Standing(units[..|units| - 1]) + if units[|units| - 1].Merged? then units[|units| - 1].count else 1
  }

  lemma {:induction false} StandingOfPlain(units: seq<Unit>)
    requires forall u <- units :: !u.Merged?
    ensures Standing(units) == |units| && |Kinds(units)| == |units|
  {
    if |units| > 0 {
      StandingOfPlain(units[..|units| - 1]);
    }
  }

  // The units stored one by one, of each kind.
  function StoredKinds(units: seq<Unit>): multiset<UnitKind> {
    if |units| == 0 then multiset{}
    else StoredKinds(units[..|units| - 1]) + match units[|units| - 1] {
      case Merged(_, kinds, _) => kinds
      case u => multiset{KindOf(u)}
    }
  }

  lemma {:induction false} StoredOfPlain(units: seq<Unit>)
    requires forall u <- units :: !u.Merged?
    ensures StoredKinds(units) == Kinds(units)
  {
    if |units| > 0 {
      StoredOfPlain(units[..|units| - 1]);
    }
  }

  lemma {:induction false} KindsAppend(units: seq<Unit>, more: seq<Unit>)
    requires forall u <- units + more :: !u.Merged?
    ensures forall u <- units :: !u.Merged?
    ensures forall u <- more :: !u.Merged?
    ensures Kinds(units + more) == Kinds(units) + Kinds(more)
    decreases |more|
  {
    assert forall u <- units :: u in units + more;
    assert forall u <- more :: u in units + more;
    if |more| == 0 {
      assert units + more == units;
    } else {
      assert (units + more)[..|units + more| - 1] == units + more[..|more| - 1];
      KindsAppend(units, more[..|more| - 1]);
    }
  }

  // The cap loses no unit: what is stored one by one and what is merged add up to all of them, kind by kind.
  lemma CapAccounts(units: seq<Unit>)
    requires forall u <- units :: !u.Merged?
    ensures Standing(Capped(units)) == |units|
    ensures StoredKinds(Capped(units)) == Kinds(units)
    ensures |units| <= MAX_MESSAGE_COMPONENTS ==> Capped(units) == units
    ensures |units| > MAX_MESSAGE_COMPONENTS ==>
              Capped(units)[..MAX_MESSAGE_COMPONENTS - 1] == units[..MAX_MESSAGE_COMPONENTS - 1]
    ensures |units| > MAX_MESSAGE_COMPONENTS ==>
              var last := Capped(units)[MAX_MESSAGE_COMPONENTS - 1];
              last.Merged? && last.count == |last.kinds| == |units| - MAX_MESSAGE_COMPONENTS + 1
  {
    if |units| > MAX_MESSAGE_COMPONENTS {
      var first, rest := units[..MAX_MESSAGE_COMPONENTS - 1], units[MAX_MESSAGE_COMPONENTS - 1..];
      assert units == first + rest;
      var last := Capped(units)[MAX_MESSAGE_COMPONENTS - 1];
      assert Capped(units) == first + [last];
      StandingOfPlain(rest);
      MergedAccounts(first, rest, last);
    } else {
      StandingOfPlain(units);
      StoredOfPlain(units);
    }
  }

  lemma MergedAccounts(first: seq<Unit>, rest: seq<Unit>, last: Unit)
    requires forall u <- first + rest :: !u.Merged?
    requires forall u <- rest :: !u.Merged?
    requires last.Merged? && last.count == |rest| && last.kinds == Kinds(rest)
    ensures Standing(first + [last]) == |first + rest| && StoredKinds(first + [last]) == Kinds(first + rest)
  {
    KindsAppend(first, rest);
    StandingOfPlain(first);
    StoredOfPlain(first);
    assert (first + [last])[..|first|] == first;
  }

  // ---- the selection ---------------------------------------------------------------------------------------

  // bytes: the size of the message's canonical JSON
  datatype Message = Message(content: Content, json: Json, bytes: nat)
  datatype Component = Component(index: nat, unit: Unit)

  function Count(messages: seq<Message>, lo: nat, hi: nat): nat
    requires lo <= hi <= |messages|
  {
    if lo == hi then 0 else Count(messages, lo, hi - 1) + |UnitsOf(messages[hi - 1].content)|
  }

  lemma {:induction false} CountAtLeast(messages: seq<Message>, lo: nat, hi: nat)
    requires lo <= hi <= |messages|
    ensures hi - lo <= Count(messages, lo, hi)
  {
    hide UnitsOf;
    if lo < hi {
      CountAtLeast(messages, lo, hi - 1);
    }
  }

  lemma {:induction false} CountFront(messages: seq<Message>, lo: nat, hi: nat)
    requires lo < hi <= |messages|
    ensures Count(messages, lo, hi) == |UnitsOf(messages[lo].content)| + Count(messages, lo + 1, hi)
    decreases hi
  {
    hide UnitsOf;
    if lo + 1 < hi {
      CountFront(messages, lo, hi - 1);
    }
  }

  // What is stored: the head, then as much of the tail as fits.
  ghost predicate Selected(messages: seq<Message>, head: nat, tail: nat) {
    && head <= tail <= |messages| && (|messages| > 0 ==> head >= 1)
    && Count(messages, 0, head) <= 32
    && Count(messages, 0, head) + Count(messages, tail, |messages|) <= 160
    // neither could have taken one more
    && (1 <= head < |messages| ==> Count(messages, 0, head + 1) > 32)
    && (head < tail ==> Count(messages, 0, head) + Count(messages, tail - 1, |messages|) > 160)
  }

  method Select(messages: seq<Message>) returns (head: nat, tail: nat)
    ensures Selected(messages, head, tail)
  {
    hide UnitsOf;
    var total := |messages|;
    var used := 0;
    head := 0;
    while head < total
      invariant head <= total && used == Count(messages, 0, head) <= HEAD_COMPONENTS
    {
      var units := |UnitsOf(messages[head].content)|;
      if head > 0 && used + units > HEAD_COMPONENTS {
        break;
      }
      used, head := used + units, head + 1;
    }
    tail := total;
    ghost var front := used;
    while tail > head
      invariant head <= tail <= total && used == front + Count(messages, tail, total) <= MAX_COMPONENTS
    {
      var units := |UnitsOf(messages[tail - 1].content)|;
      CountFront(messages, tail - 1, total);
      if used + units > MAX_COMPONENTS {
        break;
      }
      used, tail := used + units, tail - 1;
    }
  }

  // The stretch [lo, hi) that is never visited: none, until there are more messages than may be walked.
  function Unwalked(total: nat, head: nat, tail: nat): (r: (nat, nat))
    requires head <= tail <= total
    ensures r.0 <= r.1 <= total
  {
    var edge := MAX_WORK_MESSAGES / 2;
    if total <= MAX_WORK_MESSAGES then (total, total)
    else
      var lo := if edge > head then edge else head;
      var end := if total - edge < tail then total - edge else tail;
      (lo, if lo > end then lo else end)
  }

  // It never meets a stored message, and leaves at most MAX_WORK_MESSAGES to walk: exactly that many, when there
  // are more.
  lemma UnwalkedIsBetween(messages: seq<Message>, head: nat, tail: nat)
    requires Selected(messages, head, tail)
    ensures var total, (lo, hi) := |messages|, Unwalked(|messages|, head, tail);
            && lo <= hi <= total
            && (lo < hi ==> head <= lo && hi <= tail)
            && total - (hi - lo) == (if total > 4096 then 4096 else total)
            && (total > 4096 ==> lo == 2048 == total - hi)
  {
    hide Count;
    CountAtLeast(messages, 0, head);
    CountAtLeast(messages, tail, |messages|);
  }

  // digested: the messages whose digests went into the running one, in order
  datatype Totals = Totals(images: nat, bytes: nat, omittedBytes: nat, digested: seq<nat>)
  datatype Stats = Stats(omitted: nat, undigested: nat, unwalked: Option<(nat, nat)>, totals: Totals, complete: bool,
                         digest: Option<seq<nat>>)

  function ImagesOf(content: Content): nat {
    if content.Plain? then Images(Front(content.parts, MAX_PARTS)) else 0
  }

  function ImageSum(messages: seq<Message>, lo: nat, hi: nat): nat
    requires lo <= hi <= |messages|
  {
    if lo == hi then 0 else ImageSum(messages, lo, hi - 1) + ImagesOf(messages[hi - 1].content)
  }

  // The sizes of some messages; of those of them between head and tail.
  function ByteSum(messages: seq<Message>, these: seq<nat>): nat
    requires forall i :: 0 <= i < |these| ==> these[i] < |messages|
  {
    if |these| == 0 then 0 else ByteSum(messages, these[..|these| - 1]) + messages[these[|these| - 1]].bytes
  }

  function OmittedSum(messages: seq<Message>, these: seq<nat>, head: nat, tail: nat): nat
    requires forall i :: 0 <= i < |these| ==> these[i] < |messages|
  {
    if |these| == 0 then 0
    else
      var last := these[|these| - 1];
      OmittedSum(messages, these[..|these| - 1], head, tail) + if head <= last < tail then messages[last].bytes else 0
  }

  // Images, bytes and omitted bytes are sums over the messages: of none nothing, of one its own, of more those of each.
  lemma ImagesOfOne(content: Content)
    ensures ImagesOf(content) == if content.Plain?
                                 then |ImagesAt(content.parts, if |content.parts| < 4096 then |content.parts| else 4096)|
                                 else 0
  {
    if content.Plain? {
      var seen := Front(content.parts, MAX_PARTS);
      PartsFound(seen);
      SeenAt(content.parts, |seen|);
      assert seen == content.parts[..|seen|];
    }
  }

  lemma {:induction false} ImageSumSplits(messages: seq<Message>, lo: nat, mid: nat, hi: nat)
    requires lo <= mid <= hi <= |messages|
    ensures ImageSum(messages, lo, hi) == ImageSum(messages, lo, mid) + ImageSum(messages, mid, hi)
    ensures lo < |messages| ==> ImageSum(messages, lo, lo + 1) == ImagesOf(messages[lo].content)
    decreases hi
  {
    hide ImagesOf;
    if mid < hi {
      ImageSumSplits(messages, lo, mid, hi - 1);
    }
  }

  lemma {:induction false} ByteSumsSplit(messages: seq<Message>, these: seq<nat>, more: seq<nat>, head: nat, tail: nat)
    requires forall i :: 0 <= i < |these + more| ==> (these + more)[i] < |messages|
    ensures forall i :: 0 <= i < |these| ==> these[i] == (these + more)[i]
    ensures forall i :: 0 <= i < |more| ==> more[i] == (these + more)[|these| + i]
    ensures ByteSum(messages, these + more) == ByteSum(messages, these) + ByteSum(messages, more)
    ensures OmittedSum(messages, these + more, head, tail)
         == OmittedSum(messages, these, head, tail) + OmittedSum(messages, more, head, tail)
    decreases |more|
  {
    if |more| == 0 {
      assert these + more == these;
    } else {
      var n := |more| - 1;
      assert (these + more)[..|these| + n] == these + more[..n];
      forall i | 0 <= i < |these + more[..n]|
        ensures (these + more[..n])[i] < |messages|
      {
        assert (these + more[..n])[i] == (these + more)[i];
      }
      ByteSumsSplit(messages, these, more[..n], head, tail);
    }
  }

  lemma ByteSumsOfOne(messages: seq<Message>, index: nat, head: nat, tail: nat)
    requires index < |messages|
    ensures ByteSum(messages, [index]) == messages[index].bytes
    ensures OmittedSum(messages, [index], head, tail) == if head <= index < tail then messages[index].bytes else 0
  {
    assert [index][..0] == [];
  }

  ghost predicate Ascending(these: seq<nat>, below: nat) {
    && (forall i :: 0 <= i < |these| ==> these[i] < below)
    && forall i, j :: 0 <= i < j < |these| ==> these[i] < these[j]
  }

  // The totals are of the digested messages, which are among the first `upto`.
  ghost predicate Totalled(messages: seq<Message>, head: nat, tail: nat, totals: Totals, upto: nat) {
    && upto <= |messages| && Ascending(totals.digested, upto)
    && totals.bytes == ByteSum(messages, totals.digested)
    && totals.omittedBytes == OmittedSum(messages, totals.digested, head, tail)
  }

  lemma TotalledNext(messages: seq<Message>, head: nat, tail: nat, totals: Totals, index: nat)
    requires Totalled(messages, head, tail, totals, index) && index < |messages|
    ensures Totalled(messages, head, tail, totals, index + 1)
    ensures Totalled(messages, head, tail, totals.(bytes := totals.bytes + messages[index].bytes,
              omittedBytes := totals.omittedBytes + (if head <= index < tail then messages[index].bytes else 0),
              digested := totals.digested + [index]), index + 1)
  {
    var these := totals.digested + [index];
    assert these[..|these| - 1] == totals.digested;
  }

  lemma TotalledLater(messages: seq<Message>, head: nat, tail: nat, totals: Totals, lo: nat, hi: nat)
    requires Totalled(messages, head, tail, totals, lo) && lo <= hi <= |messages|
    ensures Totalled(messages, head, tail, totals, hi)
  {
  }

  // As many ascending numbers below n as there are are all of them.
  lemma {:induction false} AscendingFull(these: seq<nat>, n: nat)
    requires Ascending(these, n) && |these| == n
    ensures these == seq(n, i requires 0 <= i < n => i)
    decreases n
  {
    if n > 0 {
      var front := these[..n - 1];
      forall i | 0 <= i < |front|
        ensures front[i] < n - 1
      {
        assert these[i] < these[n - 1];
      }
      AscendingFull(front, n - 1);
      assert n > 1 ==> these[n - 2] == front[n - 2] == n - 2 && these[n - 2] < these[n - 1];
      assert these == front + [these[n - 1]];
    }
  }

  function Tagged(index: nat, units: seq<Unit>): (r: seq<Component>)
    ensures |r| == |units|
  {
    seq(|units|, i requires 0 <= i < |units| => Component(index, units[i]))
  }

  // The components of the stored messages among the first `upto`.
  function StoredBefore(messages: seq<Message>, head: nat, tail: nat, upto: nat): seq<Component>
    requires upto <= |messages|
  {
    if upto == 0 then []
    else StoredBefore(messages, head, tail, upto - 1)
         + if upto - 1 < head || upto - 1 >= tail then Tagged(upto - 1, UnitsOf(messages[upto - 1].content)) else []
  }

  lemma {:induction false} StoredCount(messages: seq<Message>, head: nat, tail: nat, upto: nat)
    requires head <= tail <= |messages| && upto <= |messages|
    ensures |StoredBefore(messages, head, tail, upto)|
         == Count(messages, 0, if upto < head then upto else head)
            + (if upto > tail then Count(messages, tail, upto) else 0)
  {
    hide UnitsOf;
    if upto > 0 {
      StoredCount(messages, head, tail, upto - 1);
    }
  }

  // Behind the components of the messages before it stand those of a stored message: its units, each under its index.
  lemma {:induction false} StoredAt(messages: seq<Message>, head: nat, tail: nat, upto: nat, i: nat, k: nat)
    requires i < upto <= |messages| && (i < head || i >= tail) && k < |UnitsOf(messages[i].content)|
    ensures var before := |StoredBefore(messages, head, tail, i)|;
            && before + k < |StoredBefore(messages, head, tail, upto)|
            && StoredBefore(messages, head, tail, upto)[before + k] == Component(i, UnitsOf(messages[i].content)[k])
    decreases upto
  {
    hide UnitsOf;
    if i < upto - 1 {
      StoredAt(messages, head, tail, upto - 1, i, k);
    }
  }

  // Nothing stored comes from between head and tail.
  lemma {:induction false} NothingBetween(messages: seq<Message>, head: nat, tail: nat, lo: nat, hi: nat)
    requires head <= lo <= hi <= tail <= |messages|
    ensures StoredBefore(messages, head, tail, hi) == StoredBefore(messages, head, tail, lo)
    decreases hi
  {
    hide UnitsOf, Tagged;
    if lo < hi {
      NothingBetween(messages, head, tail, lo, hi - 1);
    }
  }

  function Between(index: nat, head: nat, tail: nat): nat
    requires head <= tail
  {
    if index <= head then 0 else if index <= tail then index - head else tail - head
  }

  // Every message is stored or counted as omitted; what was never walked is said, and what was not digested counted.
  ghost predicate Accounts(messages: seq<Message>, head: nat, tail: nat, components: seq<Component>, stats: Stats) {
    && Selected(messages, head, tail)
    && components == StoredBefore(messages, head, tail, |messages|) && |components| <= MAX_COMPONENTS
    && head + stats.omitted + (|messages| - tail) == |messages|
    && var (lo, hi) := Unwalked(|messages|, head, tail);
       && stats.unwalked == (if lo < hi then Some((lo, hi)) else None)
       && hi - lo <= stats.undigested && |stats.totals.digested| + stats.undigested == |messages|
       && Totalled(messages, head, tail, stats.totals, |messages|)
       && (forall d <- stats.totals.digested :: d < lo || hi <= d)
       && stats.totals.images == ImageSum(messages, 0, lo) + ImageSum(messages, hi, |messages|)
       && (stats.complete <==> stats.undigested == 0)
       // a digest of the whole is given exactly when every message went into it, in order
       && (stats.digest.Some? <==> stats.complete)
       && (stats.digest.Some? ==> stats.digest.value == seq(|messages|, i requires 0 <= i < |messages| => i))
  }

  lemma SelectedFits(messages: seq<Message>, head: nat, tail: nat)
    requires Selected(messages, head, tail)
    ensures head <= tail <= |messages|
    ensures |StoredBefore(messages, head, tail, |messages|)| <= MAX_COMPONENTS
  {
    StoredCount(messages, head, tail, |messages|);
    assert tail == |messages| ==> Count(messages, tail, |messages|) == 0;
  }

  // What a walked message costs: its weight when that is within what is left, otherwise the elements looked at to tell;
  // and, when it is stored, what storing it takes, if that much is left.
  ghost predicate Charged(json: Json, kept: bool, further: nat, before: nat, after: nat) {
    exists cost: nat ::
      && Costs(json, before, cost)
      && after == if kept && further <= before - cost then before - cost - further else before - cost
  }

  ghost predicate Costs(json: Json, before: nat, cost: nat): (yes: bool)
    ensures yes ==> cost <= before
  {
    && cost <= before
    && if Weight(json) <= before then cost == Weight(json)
       else cost <= Elements(json) && (before > 0 ==> cost >= 1 && Visits(json, before, cost))
  }

  // It is digested exactly when its weight is within what is left at its turn.
  ghost predicate Paid(m: Message, kept: bool, further: nat, before: nat, after: nat, digested: bool) {
    (digested <==> Weight(m.json) <= before) && Charged(m.json, kept, further, before, after)
  }

  // One walked message: stored or omitted, digested or not. `further` is what storing its pieces is charged.
  method Visit(m: Message, index: nat, head: nat, tail: nat, components: seq<Component>, stats: Stats, further: nat,
               work: Work)
    returns (components': seq<Component>, stats': Stats)
    requires work.Valid() && Wf(m.json) && head <= tail
    modifies work
    ensures work.Valid()
    ensures var kept := index < head || index >= tail;
            && components' == components + (if kept then Tagged(index, UnitsOf(m.content)) else [])
            && stats'.omitted == stats.omitted + (if kept then 0 else 1)
    ensures stats'.undigested == stats.undigested + (if Weight(m.json) <= old(work.left) then 0 else 1)
    ensures stats'.unwalked == stats.unwalked
    ensures var t := stats.totals.(images := stats.totals.images + ImagesOf(m.content));
            stats'.totals == if Weight(m.json) > old(work.left) then t
                             else t.(bytes := t.bytes + m.bytes, digested := t.digested + [index], omittedBytes :=
                                     t.omittedBytes + if head <= index < tail then m.bytes else 0)
    ensures Charged(m.json, index < head || index >= tail, further, old(work.left), work.left)
  {
    components', stats' := components, stats;
    hide Weight, Elements, UnitsOf, ImagesOf, Tagged, Wf, Visits, Charged;
    ghost var before := work.left;
    var ok, visited := work.Canonical(m.json);
    ghost var between := work.left;
    CostIs(m.json, before, between, ok, visited);
    hide Costs;
    var totals := stats.totals;
    if !ok {
      stats' := stats'.(undigested := stats'.undigested + 1);
    } else {
      totals := totals.(digested := totals.digested + [index], bytes := totals.bytes + m.bytes);
    }
    totals := totals.(images := totals.images + ImagesOf(m.content));
    if index < head || index >= tail {
      components' := components' + Tagged(index, UnitsOf(m.content));
      var _ := work.Take(further);
    } else {
      stats' := stats'.(omitted := stats'.omitted + 1);
      totals := totals.(omittedBytes := totals.omittedBytes + if ok then m.bytes else 0);
    }
    stats' := stats'.(totals := totals);
    ChargeIs(m.json, index < head || index >= tail, further, before, between, work.left);
  }

  lemma CostIs(json: Json, before: nat, between: nat, ok: bool, visited: nat)
    requires between <= before && (ok <==> Weight(json) <= before)
    requires between == before - if ok then Weight(json) else visited
    requires visited <= Elements(json) && (before > 0 ==> visited >= 1 && Visits(json, before, visited))
    ensures Costs(json, before, before - between)
  {
  }

  lemma ChargeIs(json: Json, kept: bool, further: nat, before: nat, between: nat, after: nat)
    requires between <= before && Costs(json, before, before - between)
    requires after == if kept && further <= between then between - further else between
    ensures Charged(json, kept, further, before, after)
  {
    hide Costs;
  }

  lemma CountedNext(messages: seq<Message>, head: nat, tail: nat, totals: Totals, index: nat)
    requires Totalled(messages, head, tail, totals, index) && index < |messages|
    ensures var t := totals.(images := totals.images + ImagesOf(messages[index].content));
            && Totalled(messages, head, tail, t, index + 1)
            && Totalled(messages, head, tail,
                 t.(bytes := t.bytes + messages[index].bytes, digested := t.digested + [index], omittedBytes :=
                    t.omittedBytes + if head <= index < tail then messages[index].bytes else 0), index + 1)
  {
    TotalledNext(messages, head, tail, totals, index);
  }

  method Walk(messages: seq<Message>, from: nat, to: nat, head: nat, tail: nat, components: seq<Component>,
              stats: Stats, further: nat -> nat, work: Work, ghost lefts: seq<nat>)
    returns (components': seq<Component>, stats': Stats, ghost lefts': seq<nat>)
    requires from <= to <= |messages| && head <= tail <= |messages|
    requires |lefts| == from + 1 && lefts[from] == work.left
    requires work.Valid() && forall m <- messages :: Wf(m.json)
    requires components == StoredBefore(messages, head, tail, from)
    requires Totalled(messages, head, tail, stats.totals, from)
    modifies work
    ensures work.Valid()
    ensures components' == StoredBefore(messages, head, tail, to)
    ensures stats'.omitted == stats.omitted + (Between(to, head, tail) - Between(from, head, tail))
    ensures stats.undigested <= stats'.undigested && stats'.unwalked == stats.unwalked
    ensures Totalled(messages, head, tail, stats'.totals, to)
    ensures stats'.totals.images == stats.totals.images + ImageSum(messages, from, to)
    ensures |stats'.totals.digested| + stats'.undigested == |stats.totals.digested| + stats.undigested + (to - from)
    ensures forall d <- stats'.totals.digested :: d in stats.totals.digested || from <= d
    ensures |lefts'| == to + 1 && lefts <= lefts' && lefts'[to] == work.left
    ensures forall k :: from <= k < to ==> PaidAt(messages, head, tail, further, lefts', stats'.totals.digested, k)
    ensures forall d <- stats.totals.digested :: d in stats'.totals.digested
  {
    hide UnitsOf, ImagesOf, Totalled, Weight, Wf, Tagged, Charged, PaidAt;
    components', stats', lefts' := components, stats, lefts;
    for index := from to to
      invariant work.Valid()
      invariant components' == StoredBefore(messages, head, tail, index)
      invariant stats'.omitted == stats.omitted + (Between(index, head, tail) - Between(from, head, tail))
      invariant stats.undigested <= stats'.undigested && stats'.unwalked == stats.unwalked
      invariant Totalled(messages, head, tail, stats'.totals, index)
      invariant stats'.totals.images == stats.totals.images + ImageSum(messages, from, index)
      invariant |stats'.totals.digested| + stats'.undigested == |stats.totals.digested| + stats.undigested + (index - from)
      invariant forall d <- stats'.totals.digested :: d in stats.totals.digested || from <= d
      invariant |lefts'| == index + 1 && lefts <= lefts' && lefts'[index] == work.left
      invariant forall k :: from <= k < index ==>
                  PaidAt(messages, head, tail, further, lefts', stats'.totals.digested, k)
      invariant forall d <- stats.totals.digested :: d in stats'.totals.digested
    {
      assert messages[index] in messages;
      assert index !in stats'.totals.digested by { DigestedBefore(messages, head, tail, stats'.totals, index); }
      CountedNext(messages, head, tail, stats'.totals, index);
      ghost var was := stats'.totals.digested;
      components', stats' := Visit(messages[index], index, head, tail, components', stats',
                                     further(index), work);
      PaidNext(messages, head, tail, further, from, lefts', was, index, work.left, stats'.totals.digested);
      lefts' := lefts' + [work.left];
    }
  }

  // One more message, and what was so of those before it stays so.
  lemma PaidNext(messages: seq<Message>, head: nat, tail: nat, further: nat -> nat, from: nat, lefts: seq<nat>,
                 digested: seq<nat>, index: nat, left: nat, digested': seq<nat>)
    requires from <= index < |messages| && |lefts| == index + 1
    requires forall k :: from <= k < index ==> PaidAt(messages, head, tail, further, lefts, digested, k)
    requires index !in digested
    requires digested' == if Weight(messages[index].json) > lefts[index] then digested else digested + [index]
    requires Charged(messages[index].json, index < head || index >= tail, further(index), lefts[index], left)
    ensures forall k :: from <= k <= index ==> PaidAt(messages, head, tail, further, lefts + [left], digested', k)
  {
    hide Weight, Charged;
    forall k | from <= k <= index
      ensures PaidAt(messages, head, tail, further, lefts + [left], digested', k)
    {
      assert k < index ==> PaidAt(messages, head, tail, further, lefts, digested, k);
    }
  }

  // The message at k, at its turn.
  ghost predicate PaidAt(messages: seq<Message>, head: nat, tail: nat, further: nat -> nat, lefts: seq<nat>,
                         digested: seq<nat>, k: nat)
    requires k < |messages| && k + 1 < |lefts|
  {
    Paid(messages[k], k < head || k >= tail, further(k), lefts[k], lefts[k + 1], k in digested)
  }

  lemma DigestedBefore(messages: seq<Message>, head: nat, tail: nat, totals: Totals, index: nat)
    requires Totalled(messages, head, tail, totals, index)
    ensures forall d <- totals.digested :: d < index
  {
  }

  // What was left before each message and in the end; the ones never walked cost nothing.
  ghost predicate Spends(messages: seq<Message>, head: nat, tail: nat, further: nat -> nat, digested: seq<nat>,
                         lefts: seq<nat>)
    requires head <= tail <= |messages|
  {
    var (lo, hi) := Unwalked(|messages|, head, tail);
    && |lefts| == |messages| + 1
    && forall k :: 0 <= k < |messages| ==> Turn(messages, head, tail, further, digested, lefts, lo, hi, k)
  }

  ghost predicate Turn(messages: seq<Message>, head: nat, tail: nat, further: nat -> nat, digested: seq<nat>,
                       lefts: seq<nat>, lo: nat, hi: nat, k: nat)
    requires k < |messages| && k + 1 < |lefts|
  {
    if lo <= k < hi then lefts[k + 1] == lefts[k]
    else PaidAt(messages, head, tail, further, lefts, digested, k)
  }

  // A request's messages as components, with the totals.
  method Components(messages: seq<Message>, further: nat -> nat, work: Work)
    returns (components: seq<Component>, stats: Stats, ghost lefts: seq<nat>)
    requires work.Valid() && forall m <- messages :: Wf(m.json)
    modifies work
    ensures work.Valid()
    ensures exists head: nat, tail: nat ::
              && Accounts(messages, head, tail, components, stats)
              && Spends(messages, head, tail, further, stats.totals.digested, lefts)
    ensures |lefts| == |messages| + 1 && lefts[0] == old(work.left) && lefts[|messages|] == work.left
  {
    hide UnitsOf, Selected, Count, Paid, ImageSum, Totalled;
    var head, tail := Select(messages);
    UnwalkedIsBetween(messages, head, tail);
    SelectedFits(messages, head, tail);
    var total := |messages|;
    var (lo, hi) := Unwalked(total, head, tail);
    components := [];
    stats := Stats(hi - lo, hi - lo, if lo < hi then Some((lo, hi)) else None, Totals(0, 0, 0, []), false, None);
    NothingTotalled(messages, head, tail);
    components, stats, lefts := Walk(messages, 0, lo, head, tail, components, stats, further, work, [work.left]);
    if lo < hi {
      NothingBetween(messages, head, tail, lo, hi);
    }
    TotalledLater(messages, head, tail, stats.totals, lo, hi);
    ghost var before, first := stats.totals.digested, lefts;
    DigestedBefore(messages, head, tail, stats.totals, lo);
    ghost var left := work.left;
    lefts := lefts + seq(hi - lo, _ => left);
    components, stats, lefts := Walk(messages, hi, total, head, tail, components, stats, further, work, lefts);
    SpendsWhole(messages, head, tail, further, before, stats.totals.digested, first, lefts);
    // the final truncation finds nothing to cut
    components := Front(components, MAX_COMPONENTS);
    var complete := stats.undigested == 0;
    stats := stats.(complete := complete, digest := if complete then Some(stats.totals.digested) else None);
    if complete {
      WholeIsDigested(messages, head, tail, stats.totals);
    }
    assert Accounts(messages, head, tail, components, stats);
  }

  lemma NothingTotalled(messages: seq<Message>, head: nat, tail: nat)
    ensures Totalled(messages, head, tail, Totals(0, 0, 0, []), 0)
  {
  }

  lemma WholeIsDigested(messages: seq<Message>, head: nat, tail: nat, totals: Totals)
    requires Totalled(messages, head, tail, totals, |messages|) && |totals.digested| == |messages|
    ensures totals.digested == seq(|messages|, i requires 0 <= i < |messages| => i)
  {
    AscendingFull(totals.digested, |messages|);
  }

  // The two walks together.
  lemma SpendsWhole(messages: seq<Message>, head: nat, tail: nat, further: nat -> nat, before: seq<nat>,
                    digested: seq<nat>, first: seq<nat>, lefts: seq<nat>)
    requires head <= tail <= |messages|
    requires var (lo, hi) := Unwalked(|messages|, head, tail);
             && hi <= |messages| && |first| == lo + 1 && |lefts| == |messages| + 1
             && first + seq(hi - lo, _ => first[lo]) <= lefts
             && (forall k :: 0 <= k < lo ==> PaidAt(messages, head, tail, further, first, before, k))
             && (forall d <- before :: d < lo && d in digested)
             && (forall d <- digested :: d in before || hi <= d)
             && forall k :: hi <= k < |messages| ==>
                  PaidAt(messages, head, tail, further, lefts, digested, k)
    ensures Spends(messages, head, tail, further, digested, lefts)
  {
    hide PaidAt, Unwalked;
    var (lo, hi) := Unwalked(|messages|, head, tail);
    var middle := first + seq(hi - lo, _ => first[lo]);
    assert forall k :: 0 <= k < |middle| ==> lefts[k] == middle[k];
    assert forall k :: lo <= k < |middle| ==> middle[k] == first[lo];
    forall k | 0 <= k < |messages|
      ensures Turn(messages, head, tail, further, digested, lefts, lo, hi, k)
    {
      if k < lo {
        assert lefts[k] == first[k] && lefts[k + 1] == first[k + 1];
        SamePaid(messages, head, tail, further, first, before, lefts, digested, k);
      } else if k < hi {
        assert middle[k] == first[lo] && middle[k + 1] == first[lo];
      }
    }
  }

  lemma SamePaid(messages: seq<Message>, head: nat, tail: nat, further: nat -> nat, first: seq<nat>, before: seq<nat>,
                 lefts: seq<nat>, digested: seq<nat>, k: nat)
    requires k < |messages| && k + 1 < |first| && k + 1 < |lefts|
    requires PaidAt(messages, head, tail, further, first, before, k)
    requires lefts[k] == first[k] && lefts[k + 1] == first[k + 1] && (k in before <==> k in digested)
    ensures PaidAt(messages, head, tail, further, lefts, digested, k)
  {
    hide Paid;
  }
}
