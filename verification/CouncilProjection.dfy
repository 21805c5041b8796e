/** Bounded projection of stored council context (dream/core/council_context.py). A message is its JSON body; what
    fits is any test of a list of messages, which need not be monotone. */
module CouncilProjection {
  import opened Common

  datatype Source = Source(session: string, turn: int)
  // Who advised: the advisor, its model and its effort, none of which the projection looks into.
  type Identity = nat
  datatype Advisor = Advisor(who: Identity, answer: string)
  datatype Content = Malformed | Consultation(question: string, advisors: seq<Advisor>) | Turn(role: string, text: string)
  datatype Record = Record(source: Source, content: Content, chars: nat)

  datatype Status = Full | Partial | Omitted
  datatype Row = Row(index: nat, who: Identity, answer: string, chars: nat, status: Status, omitted: nat)
  datatype Msg =
    | Unreadable(source: Source, chars: nat)
    | Advice(source: Source, question: string, questionOmitted: nat, rows: seq<Row>)
    | History(source: Source, role: string, text: string, omitted: nat)
  datatype Notice =
    | Left(source: Source, history: bool, who: seq<(nat, Identity)>)
    | Shortened(item: Msg)

  const MAX_CAP: nat := 3000
  const QUESTION: nat := 1000

  // ---- excerpts --------------------------------------------------------------------------------------------

  function Excerpt(text: string, cap: nat): string {
    if |text| <= cap then text
    else if cap == 0 then ""
    else
      var head := (cap + 1) / 2;
      if cap > head then text[..head] + text[|text| - (cap - head)..] else text[..head]
  }

  function Monus(x: nat, y: nat): nat { if x < y then 0 else x - y }

  // What is kept is the two ends of the text, the first half never the shorter; what is left out lies between them.
  lemma ExcerptIsEnds(text: string, cap: nat)
    ensures exists a, b :: 0 <= a <= b <= |text| && Excerpt(text, cap) == text[..a] + text[b..] &&
                           b - a == Monus(|text|, cap) && (a < b ==> |text| - b <= a <= |text| - b + 1)
  {
    var head := (cap + 1) / 2;
    if |text| <= cap {
      assert text == text[..|text|] + text[|text|..];
    } else {
      var b := |text| - (cap - head);
      assert Excerpt(text, cap) == text[..head] + text[b..];
    }
  }

  lemma KeptAndOmitted(text: string, cap: nat)
    ensures |Excerpt(text, cap)| + Monus(|text|, cap) == |text|
  {
  }

  // A larger allowance never keeps less of an answer.
  lemma ExcerptGrows(text: string, cap: nat, larger: nat)
    requires cap <= larger
    ensures |Excerpt(text, cap)| <= |Excerpt(text, larger)|
  {
    KeptAndOmitted(text, cap);
    KeptAndOmitted(text, larger);
  }

  // ---- one record as a message -----------------------------------------------------------------------------

  function RowOf(advisor: Advisor, index: nat, cap: nat): Row {
    var n := |advisor.answer|;
    Row(index, advisor.who, Excerpt(advisor.answer, cap), n,
        if n <= cap then Full else if cap > 0 then Partial else Omitted, Monus(n, cap))
  }

  function Rows(advisors: seq<Advisor>, cap: nat): seq<Row> {
    seq(|advisors|, i requires 0 <= i < |advisors| => RowOf(advisors[i], i, cap))
  }

  function Message(record: Record, cap: nat): Msg {
    match record.content
    case Malformed => Unreadable(record.source, record.chars)
    case Consultation(question, advisors) =>
      Advice(record.source, Excerpt(question, QUESTION), Monus(|question|, QUESTION), Rows(advisors, cap))
    case Turn(role, text) => History(record.source, role, text, Monus(record.chars, |text|))
  }

  // Every advisor is named in every message of its record, and its answer's length is accounted for.
  lemma AnswersAccounted(record: Record, cap: nat, i: nat)
    requires record.content.Consultation? && i < |record.content.advisors|
    ensures var m, a := Message(record, cap), record.content.advisors[i];
            && |m.rows| == |record.content.advisors|
            && m.rows[i].who == a.who && m.rows[i].index == i
            && |m.rows[i].answer| + m.rows[i].omitted == m.rows[i].chars == |a.answer|
            && (m.rows[i].status.Full? <==> m.rows[i].answer == a.answer)
            && (m.rows[i].status.Omitted? <==> m.rows[i].answer == "" && a.answer != "")
  {
    KeptAndOmitted(record.content.advisors[i].answer, cap);
  }

  // e is the two ends of the text with `over` characters between them left out, the first end never the shorter.
  ghost predicate IsEnds(text: string, over: nat, e: string) {
    exists a, b :: 0 <= a <= b <= |text| && e == text[..a] + text[b..] && b - a == over
                   && (a < b ==> |text| - b <= a <= |text| - b + 1)
  }

  // What an answer has more than the allowance is left out of it, and counted.
  ghost predicate Answers(row: Row, advisor: Advisor, index: nat, cap: nat) {
    && row.index == index && row.who == advisor.who && row.chars == |advisor.answer|
    && IsEnds(advisor.answer, row.omitted, row.answer)
    && row.omitted == (if |advisor.answer| > cap then |advisor.answer| - cap else 0)
    && (row.status.Full? <==> row.answer == advisor.answer)
    && (row.status.Omitted? <==> row.answer == "" && advisor.answer != "")
  }

  // m is what the record says: a turn's own role and text, and how much of it was not stored; a consultation's question
  // and answers, each shortened to its two ends; of a record that cannot be read, where it is and how long.
  ghost predicate Speaks(record: Record, cap: nat, m: Msg) {
    match record.content
    case Malformed => m.Unreadable? && m.source == record.source && m.chars == record.chars
    case Turn(role, text) =>
      && m.History? && m.source == record.source && m.role == role && m.text == text
      && m.omitted == (if record.chars > |text| then record.chars - |text| else 0)
    case Consultation(question, advisors) =>
      && m.Advice? && m.source == record.source
      && IsEnds(question, m.questionOmitted, m.question)
      && m.questionOmitted == (if |question| > 1000 then |question| - 1000 else 0)
      && |m.rows| == |advisors| && forall i :: 0 <= i < |advisors| ==> Answers(m.rows[i], advisors[i], i, cap)
  }

  lemma MessageSpeaks(record: Record, cap: nat)
    ensures Speaks(record, cap, Message(record, cap))
  {
    if record.content.Consultation? {
      ExcerptIsEnds(record.content.question, QUESTION);
      forall i | 0 <= i < |record.content.advisors|
        ensures Answers(Message(record, cap).rows[i], record.content.advisors[i], i, cap)
      {
        ExcerptIsEnds(record.content.advisors[i].answer, cap);
        AnswersAccounted(record, cap, i);
      }
    }
  }

  function Identities(rows: seq<Row>): seq<(nat, Identity)> {
    seq(|rows|, i requires 0 <= i < |rows| => (rows[i].index, rows[i].who))
  }

  function OmissionNotice(m: Msg): Notice {
    Left(m.source, m.History?, if m.Advice? then Identities(m.rows) else [])
  }

  predicate Shortens(m: Msg) {
    m.Advice? && exists i :: 0 <= i < |m.rows| && m.rows[i].omitted > 0
  }

  // A record left out is noticed by its source, its kind and its advisors; one that is included, when an answer is
  // longer than its allowance.
  lemma NoticesTell(record: Record, cap: nat)
    ensures var n := OmissionNotice(Message(record, 0));
            && n.Left? && n.source == record.source && (n.history <==> record.content.Turn?)
            && (if record.content.Consultation?
                then && |n.who| == |record.content.advisors|
                     && forall i :: 0 <= i < |n.who| ==> n.who[i] == (i, record.content.advisors[i].who)
                else n.who == [])
    ensures Shortens(Message(record, cap)) <==>
              record.content.Consultation? && exists a <- record.content.advisors :: |a.answer| > cap
  {
    if record.content.Consultation? {
      var advisors, rows := record.content.advisors, Rows(record.content.advisors, cap);
      forall i | 0 <= i < |advisors|
        ensures rows[i].omitted > 0 <==> |advisors[i].answer| > cap
      {
        assert advisors[i] in advisors;
      }
      if exists a <- advisors :: |a.answer| > cap {
        var a :| a in advisors && |a.answer| > cap;
        var i :| 0 <= i < |advisors| && advisors[i] == a;
        assert rows[i].omitted > 0;
      }
    }
  }

  // ---- what the projection amounts to ----------------------------------------------------------------------

  // The messages of the records that were given an allowance, in order.
  function Chosen(records: seq<Record>, picks: seq<Option<nat>>): seq<Msg>
    requires |records| == |picks|
  {
    if records == [] then []
    else
      var n := |records| - 1;
      Chosen(records[..n], picks[..n]) + ChosenOne(records[n], picks[n])
  }

  function ChosenOne(record: Record, pick: Option<nat>): seq<Msg> {
    if pick.Some? then [Message(record, pick.value)] else []
  }

  // The records that were given an allowance, and which, in order.
  function Included(records: seq<Record>, picks: seq<Option<nat>>): seq<(Record, nat)>
    requires |records| == |picks|
  {
    if records == [] then []
    else
      var n := |records| - 1;
      Included(records[..n], picks[..n]) + if picks[n].Some? then [(records[n], picks[n].value)] else []
  }

  // The messages are those records', one for each and in their order.
  ghost predicate Spoken(records: seq<Record>, picks: seq<Option<nat>>, messages: seq<Msg>)
    requires |records| == |picks|
  {
    var included := Included(records, picks);
    |messages| == |included| && forall j :: 0 <= j < |messages| ==> Speaks(included[j].0, included[j].1, messages[j])
  }

  lemma {:induction false} ChosenSpeaks(records: seq<Record>, picks: seq<Option<nat>>)
    requires |records| == |picks|
    ensures Spoken(records, picks, Chosen(records, picks))
    decreases |records|
  {
    hide Speaks, Message;
    if records != [] {
      var n := |records| - 1;
      ChosenSpeaks(records[..n], picks[..n]);
      if picks[n].Some? {
        MessageSpeaks(records[n], picks[n].value);
      }
    }
  }

  function Noticed(records: seq<Record>, picks: seq<Option<nat>>): seq<Notice>
    requires |records| == |picks|
  {
    if records == [] then []
    else
      var n := |records| - 1;
      Noticed(records[..n], picks[..n]) + NoticedOne(records[n], picks[n])
  }

  function NoticedOne(record: Record, pick: Option<nat>): seq<Notice> {
    if pick.None? then [OmissionNotice(Message(record, 0))]
    else
      var m := Message(record, pick.value);
      if Shortens(m) then [Shortened(m)] else []
  }

  predicate Fits(fits: seq<Msg> -> bool, selected: seq<Msg>, record: Record, cap: nat) {
    fits(selected + [Message(record, cap)])
  }

  // Left out only when not even the shortest form fits beside what was chosen before; else an allowance that fits
  // while one more does not.
  predicate Picked(fits: seq<Msg> -> bool, selected: seq<Msg>, record: Record, pick: Option<nat>) {
    match pick
    case None => !Fits(fits, selected, record, 0)
    case Some(cap) =>
      && Fits(fits, selected, record, 0) && cap <= 3000 && Fits(fits, selected, record, cap)
      && (cap < 3000 ==> !Fits(fits, selected, record, cap + 1))
  }

  predicate AllPicked(fits: seq<Msg> -> bool, records: seq<Record>, picks: seq<Option<nat>>)
    requires |records| == |picks|
  {
    forall i :: 0 <= i < |records| ==> Picked(fits, Chosen(records[..i], picks[..i]), records[i], picks[i])
  }

  predicate Monotone(fits: seq<Msg> -> bool, selected: seq<Msg>, record: Record) {
    forall c: nat, d: nat :: c <= d <= MAX_CAP && Fits(fits, selected, record, d) ==> Fits(fits, selected, record, c)
  }

  // Where fitting is monotone in the allowance, the one picked is the largest that fits.
  lemma PickedIsLargest(fits: seq<Msg> -> bool, selected: seq<Msg>, record: Record, cap: nat, other: nat)
    requires Picked(fits, selected, record, Some(cap)) && Monotone(fits, selected, record)
    requires other <= MAX_CAP
    ensures other <= cap <==> Fits(fits, selected, record, other)
  {
    if cap < other {
      assert !Fits(fits, selected, record, cap + 1);
    }
  }

  lemma {:induction false} ChosenFits(fits: seq<Msg> -> bool, records: seq<Record>, picks: seq<Option<nat>>)
    requires |records| == |picks| && AllPicked(fits, records, picks) && fits([])
    ensures fits(Chosen(records, picks))
  {
    if records != [] {
      var n := |records| - 1;
      var rs, ps := records[..n], picks[..n];
      forall i | 0 <= i < n
        ensures Picked(fits, Chosen(rs[..i], ps[..i]), rs[i], ps[i])
      {
        assert rs[..i] == records[..i] && ps[..i] == picks[..i];
      }
      ChosenFits(fits, rs, ps);
      assert Picked(fits, Chosen(rs, ps), records[n], picks[n]);
      if picks[n].None? {
        assert Chosen(records, picks) == Chosen(rs, ps);
      }
    }
  }

  // No record vanishes: it is included, or a notice names its source and its advisors.
  lemma {:induction false} Accounted(records: seq<Record>, picks: seq<Option<nat>>, i: nat)
    requires |records| == |picks| && i < |records|
    ensures picks[i].Some? ==> Message(records[i], picks[i].value) in Chosen(records, picks)
    ensures picks[i].None? ==> OmissionNotice(Message(records[i], 0)) in Noticed(records, picks)
    ensures picks[i].Some? && Shortens(Message(records[i], picks[i].value)) ==>
              Shortened(Message(records[i], picks[i].value)) in Noticed(records, picks)
  {
    var n := |records| - 1;
    if i < n {
      Accounted(records[..n], picks[..n], i);
    }
  }

  lemma {:induction false} ChosenCount(records: seq<Record>, picks: seq<Option<nat>>)
    requires |records| == |picks|
    ensures |Chosen(records, picks)| + Lefts(Noticed(records, picks)) == |records|
  {
    hide Message, Shortens, Lefts, OmissionNotice;
    if records != [] {
      var n := |records| - 1;
      ChosenCount(records[..n], picks[..n]);
      LeftsAppend(Noticed(records[..n], picks[..n]), NoticedOne(records[n], picks[n]));
      assert picks[n].None? ==> OmissionNotice(Message(records[n], 0)).Left? by { NoticeIsLeft(records[n]); }
    } else {
      assert Lefts([]) == 0 by { NothingLeft(); }
    }
  }

  lemma NoticeIsLeft(record: Record)
    ensures OmissionNotice(Message(record, 0)).Left?
  {
  }

  lemma NothingLeft()
    ensures Lefts([]) == 0
  {
  }

  function Lefts(notices: seq<Notice>): nat {
    if notices == [] then 0
    else Lefts(notices[..|notices| - 1]) + if notices[|notices| - 1].Left? then 1 else 0
  }

  lemma LeftsAppend(notices: seq<Notice>, more: seq<Notice>)
    requires |more| <= 1
    ensures Lefts(notices + more) == Lefts(notices) + if more != [] && more[0].Left? then 1 else 0
  {
    if more == [] {
      assert notices + more == notices;
    } else {
      assert (notices + more)[..|notices|] == notices;
    }
  }

  // ---- the allocation --------------------------------------------------------------------------------------

  // Binary search for an allowance; fits need not be monotone.
  method Allocate(record: Record, selected: seq<Msg>, fits: seq<Msg> -> bool) returns (pick: Option<nat>)
    ensures Picked(fits, selected, record, pick)
  {
    if !fits(selected + [Message(record, 0)]) {
      return None;
    }
    var low: nat, high: nat := 0, MAX_CAP;
    while low < high
      invariant low <= high <= MAX_CAP
      invariant Fits(fits, selected, record, low)
      invariant high < MAX_CAP ==> !Fits(fits, selected, record, high + 1)
    {
      var mid := (low + high + 1) / 2;
      if fits(selected + [Message(record, mid)]) {
        low := mid;
      } else {
        high := mid - 1;
      }
    }
    pick := Some(low);
  }

  function Reverse<T>(s: seq<T>): (r: seq<T>)
    ensures |r| == |s|
  {
    seq(|s|, i requires 0 <= i < |s| => s[|s| - 1 - i])
  }

  datatype Transfer = Transfer(history: seq<Record>, consultations: seq<Record>)

  predicate WellFormed(transfer: Transfer) {
    && (forall r <- transfer.consultations :: !r.content.Turn?)
    && (forall r <- transfer.history :: r.content.Turn?)
  }

  // In what order the records are offered: whole consultations newest first, then history newest first.
  function Offered(transfer: Transfer): seq<Record> {
    Reverse(transfer.consultations) + Reverse(transfer.history)
  }

  lemma PickNext(fits: seq<Msg> -> bool, records: seq<Record>, picks: seq<Option<nat>>, record: Record, pick: Option<nat>)
    requires |records| == |picks| && AllPicked(fits, records, picks)
    requires Picked(fits, Chosen(records, picks), record, pick)
    ensures AllPicked(fits, records + [record], picks + [pick])
    ensures Chosen(records + [record], picks + [pick]) == Chosen(records, picks) + ChosenOne(record, pick)
    ensures Noticed(records + [record], picks + [pick]) == Noticed(records, picks) + NoticedOne(record, pick)
  {
    var rs, ps, n := records + [record], picks + [pick], |records|;
    assert rs[..n] == records && ps[..n] == picks;
    forall i | 0 <= i < |rs|
      ensures Picked(fits, Chosen(rs[..i], ps[..i]), rs[i], ps[i])
    {
      if i < n {
        assert rs[..i] == records[..i] && ps[..i] == picks[..i];
      }
    }
  }

  // A turn reads the same under every allowance.
  lemma TurnIsPicked(fits: seq<Msg> -> bool, selected: seq<Msg>, record: Record)
    requires record.content.Turn?
    ensures Picked(fits, selected, record, if Fits(fits, selected, record, 0) then Some(MAX_CAP) else None)
    ensures Message(record, MAX_CAP) == Message(record, 0) && !Shortens(Message(record, 0))
  {
  }

  method Project(transfer: Transfer, fits: seq<Msg> -> bool)
    returns (messages: seq<Msg>, notices: seq<Notice>, ghost picks: seq<Option<nat>>)
    requires WellFormed(transfer)
    ensures |picks| == |Offered(transfer)| && AllPicked(fits, Offered(transfer), picks)
    ensures messages == Reverse(Chosen(Offered(transfer), picks))
    ensures notices == Noticed(Offered(transfer), picks)
    ensures Spoken(transfer.history + transfer.consultations, Reverse(picks), messages)
    ensures fits([]) ==> fits(Reverse(messages))
  {
    hide Message, Shortens, Picked, AllPicked, Chosen, Noticed, OmissionNotice, Fits;
    var selected: seq<Msg>;
    selected, notices, picks := [], [], [];
    ghost var offered := Offered(transfer);
    var consultations, history := Reverse(transfer.consultations), Reverse(transfer.history);
    Nothing(fits, offered);
    for i := 0 to |consultations|
      invariant |picks| == i && AllPicked(fits, offered[..i], picks)
      invariant selected == Chosen(offered[..i], picks) && notices == Noticed(offered[..i], picks)
    {
      var record := consultations[i];
      var pick := Allocate(record, selected, fits);
      PickNext(fits, offered[..i], picks, record, pick);
      assert offered[..i] + [record] == offered[..i + 1];
      if pick.None? {
        notices := notices + [OmissionNotice(Message(record, 0))];
      } else {
        var item := Message(record, pick.value);
        selected := selected + [item];
        if Shortens(item) {
          notices := notices + [Shortened(item)];
        }
      }
      picks := picks + [pick];
    }
    var m := |consultations|;
    for i := 0 to |history|
      invariant |picks| == m + i && AllPicked(fits, offered[..m + i], picks)
      invariant selected == Chosen(offered[..m + i], picks) && notices == Noticed(offered[..m + i], picks)
    {
      var record := history[i];
      assert record == transfer.history[|history| - 1 - i];
      TurnIsPicked(fits, selected, record);
      var item := Message(record, 0);
      var ok := fits(selected + [item]);
      ghost var pick: Option<nat> := if ok then Some(MAX_CAP) else None;
      assert Fits(fits, selected, record, 0) == ok by { FitsIs(fits, selected, record, 0); }
      PickNext(fits, offered[..m + i], picks, record, pick);
      assert offered[..m + i] + [record] == offered[..m + i + 1];
      if ok {
        selected := selected + [item];
      } else {
        notices := notices + [OmissionNotice(item)];
      }
      picks := picks + [pick];
    }
    assert offered[..m + |history|] == offered;
    messages := Reverse(selected);
    assert Reverse(messages) == selected;
    InOrder(transfer, picks);
    if fits([]) {
      ChosenFits(fits, offered, picks);
    }
  }

  lemma InOrder(transfer: Transfer, picks: seq<Option<nat>>)
    requires |picks| == |Offered(transfer)|
    ensures Spoken(transfer.history + transfer.consultations, Reverse(picks), Reverse(Chosen(Offered(transfer), picks)))
  {
    hide Chosen, Spoken, Reverse;
    ReadsInOrder(Offered(transfer), picks);
    OfferedInReverse(transfer);
    ChosenSpeaks(Reverse(Offered(transfer)), Reverse(picks));
  }

  lemma FitsIs(fits: seq<Msg> -> bool, selected: seq<Msg>, record: Record, cap: nat)
    ensures Fits(fits, selected, record, cap) == fits(selected + [Message(record, cap)])
  {
  }

  lemma Nothing(fits: seq<Msg> -> bool, records: seq<Record>)
    ensures AllPicked(fits, records[..0], []) && Chosen(records[..0], []) == [] && Noticed(records[..0], []) == []
  {
  }

  // The projection reads in the stored order: history first, oldest first, then the consultations.
  lemma {:induction false} ReadsInOrder(records: seq<Record>, picks: seq<Option<nat>>)
    requires |records| == |picks|
    ensures Reverse(Chosen(records, picks)) == Chosen(Reverse(records), Reverse(picks))
  {
    hide ChosenOne, Reverse;
    if records == [] {
      EmptyReverse(records);
      EmptyReverse(picks);
      assert Reverse(records) == [] && Reverse(picks) == [] && Chosen(Reverse(records), Reverse(picks)) == [];
    } else {
      var n := |records| - 1;
      var rs, ps, r, p := records[..n], picks[..n], records[n], picks[n];
      calc {
        Reverse(Chosen(records, picks));
      ==
        Reverse(Chosen(rs, ps) + ChosenOne(r, p));
      == { ReverseAppend(Chosen(rs, ps), ChosenOne(r, p)); }
        Reverse(ChosenOne(r, p)) + Reverse(Chosen(rs, ps));
      == { ReadsInOrder(rs, ps); ReverseOne(r, p); ChosenJust(r, p); }
        Chosen([r], [p]) + Chosen(Reverse(rs), Reverse(ps));
      == { ChosenAppend([r], [p], Reverse(rs), Reverse(ps)); }
        Chosen([r] + Reverse(rs), [p] + Reverse(ps));
      == { ReverseSnoc(records); ReverseSnoc(picks); }
        Chosen(Reverse(records), Reverse(picks));
      }
    }
  }

  lemma EmptyReverse<T>(s: seq<T>)
    requires s == []
    ensures Reverse(s) == []
    ensures Reverse<Msg>([]) == []
  {
  }

  lemma ReverseSnoc<T>(s: seq<T>)
    requires s != []
    ensures Reverse(s) == [s[|s| - 1]] + Reverse(s[..|s| - 1])
  {
  }

  lemma ReverseAppend<T>(s: seq<T>, t: seq<T>)
    ensures Reverse(s + t) == Reverse(t) + Reverse(s)
  {
  }

  lemma ReverseOne(r: Record, p: Option<nat>)
    ensures Reverse(ChosenOne(r, p)) == ChosenOne(r, p)
  {
  }

  lemma ChosenJust(r: Record, p: Option<nat>)
    ensures Chosen([r], [p]) == ChosenOne(r, p)
  {
    assert [r][..0] == [] && [p][..0] == [];
  }

  lemma {:induction false} ChosenAppend(rs: seq<Record>, ps: seq<Option<nat>>, more: seq<Record>, qs: seq<Option<nat>>)
    requires |rs| == |ps| && |more| == |qs|
    ensures Chosen(rs + more, ps + qs) == Chosen(rs, ps) + Chosen(more, qs)
    decreases |more|
  {
    hide ChosenOne;
    if more == [] {
      assert rs + more == rs && ps + qs == ps;
    } else {
      var n := |more| - 1;
      ChosenAppend(rs, ps, more[..n], qs[..n]);
      assert (rs + more)[..|rs| + n] == rs + more[..n] && (ps + qs)[..|ps| + n] == ps + qs[..n];
    }
  }

  lemma OfferedInReverse(transfer: Transfer)
    ensures Reverse(Offered(transfer)) == transfer.history + transfer.consultations
  {
  }
}
