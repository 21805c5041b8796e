/** One request at a time over the helper's pipes (dream/core/context_counter.py: _send, _recv_line, _parse_count and
    _Session.count with its I/O lock held). What the pipe does is an arbitrary sequence of poll outcomes. */
module HelperWire {
  import opened Common
  import opened ByteStreams

  const CHUNK: nat := 4096
  const SEND_CHUNK: nat := 65536
  const MAX_REQUEST_BYTES: nat := 4 * 1024 * 1024
  const MAX_RESPONSE_BYTES: nat := 512

  // ---- what a poll and the call after it can come to ------------------------------------------------------

  datatype Event =
    | Late                        // the deadline has passed
    | Quiet                       // poll timed out, or the call would block
    | Moved(bytes: seq<Byte>)     // bytes read; when sending, as many bytes written
    | Ended                       // end of input, or an OSError of the read or write
    | Unpolled                    // poll itself fails
    | Cancelled                   // an exception that is not ours passes through

  predicate EventOk(e: Event, chunk: nat) { e.Moved? ==> 0 < |e.bytes| <= chunk }

  function Bytes(events: seq<Event>): seq<Byte> {
    if |events| == 0 then []
    else Bytes(events[..|events| - 1]) + Payload(events[|events| - 1])
  }

  function Payload(e: Event): seq<Byte> { if e.Moved? then e.bytes else [] }

  // The buffer with everything the first k events brought.
  function Arrived(buffer: seq<Byte>, events: seq<Event>, k: nat): seq<Byte>
    requires k <= |events|
  {
    buffer + Bytes(events[..k])
  }

  lemma ArrivedStep(buffer: seq<Byte>, events: seq<Event>, k: nat)
    requires k < |events|
    ensures Arrived(buffer, events, k + 1) == Arrived(buffer, events, k) + Payload(events[k])
  {
    assert events[..k + 1][..k] == events[..k];
  }

  lemma NoneArrived(buffer: seq<Byte>, events: seq<Event>)
    ensures Arrived(buffer, events, 0) == buffer
  {
  }

  datatype Wire<+T> = Got(value: T) | Fault(reason: string) | Raised

  const DEADLINE := "counter_deadline"
  const EXITED := "counter_helper_exited"
  const OVERSIZED := "counter_response_oversized"
  const INVALID := "counter_response_invalid"
  const FAILED := "counter_helper_failed"
  const INTERRUPTED := "counter_interrupted"
  const TOO_LARGE := "component_too_large_to_count"

  // What stops an exchange at an event: nothing when the exchange goes on. A sequence that has run out is late.
  function Stops(events: seq<Event>, k: nat): Option<Wire<seq<Byte>>>
  {
    if k >= |events| || events[k].Late? then Some(Fault(DEADLINE))
    else if events[k].Ended? then Some(Fault(EXITED))
    else if events[k].Unpolled? then Some(Fault(FAILED))
    else if events[k].Cancelled? then Some(Raised)
    else None
  }

  // What each thing that stops an exchange is called.
  lemma StopsTells(events: seq<Event>, k: nat)
    ensures Stops(events, k) == Some(Fault("counter_deadline")) <==> k >= |events| || events[k].Late?
    ensures Stops(events, k) == Some(Fault("counter_helper_exited")) <==> k < |events| && events[k].Ended?
    ensures Stops(events, k) == Some(Fault("counter_helper_failed")) <==> k < |events| && events[k].Unpolled?
    ensures Stops(events, k) == Some(Raised) <==> k < |events| && events[k].Cancelled?
    ensures Stops(events, k).None? <==> k < |events| && (events[k].Moved? || events[k].Quiet?)
  {
  }

  // No complete line yet, and not too much without one.
  predicate Waiting(buffer: seq<Byte>, limit: nat) { NewlineAt(buffer) == |buffer| <= limit }

  // What receiving a line comes to, once `used` events have been met: reading goes on exactly while no line is complete
  // and the limit is kept.
  ghost predicate Received(buffer: seq<Byte>, limit: nat, events: seq<Event>, used: nat, r: Wire<seq<Byte>>) {
    && used <= |events|
    && (forall k :: 0 <= k < used ==> Waiting(Arrived(buffer, events, k), limit) && Stops(events, k).None?)
    && var all := Arrived(buffer, events, used);
       if NewlineAt(all) > limit then r == Fault(OVERSIZED)
       else if NewlineAt(all) < |all| then r == Got(all[..NewlineAt(all)])
       else Some(r) == Stops(events, used)
  }

  lemma ReceivedOnce(buffer: seq<Byte>, limit: nat, events: seq<Event>, i: nat, r: Wire<seq<Byte>>, j: nat,
                     s: Wire<seq<Byte>>)
    requires Received(buffer, limit, events, i, r) && Received(buffer, limit, events, j, s)
    ensures i == j && r == s
  {
    hide Arrived, NewlineFrom;
    var p, q := Arrived(buffer, events, i), Arrived(buffer, events, j);
    assert i < j ==> Waiting(p, limit) && Stops(events, i).None?;
    assert j < i ==> Waiting(q, limit) && Stops(events, j).None?;
  }

  method RecvLine(buffer: seq<Byte>, limit: nat, events: seq<Event>)
    returns (r: Wire<seq<Byte>>, left: seq<Byte>, used: nat)
    requires forall e <- events :: EventOk(e, CHUNK)
    // every byte is accounted for
    ensures used <= |events|
    ensures (if r.Got? then r.value + [NEWLINE] else []) + left == Arrived(buffer, events, used)
    ensures Received(buffer, limit, events, used, r)
    ensures |left| <= |buffer| || |left| <= limit + CHUNK
  {
    hide Arrived, NewlineFrom;
    NoneArrived(buffer, events);
    used := 0;
    left := buffer;
    while true
      invariant used <= |events|
      invariant left == Arrived(buffer, events, used)
      invariant forall k :: 0 <= k < used ==> Waiting(Arrived(buffer, events, k), limit) && Stops(events, k).None?
      invariant |left| <= |buffer| || |left| <= limit + CHUNK
      decreases |events| - used
    {
      var at := NewlineAt(left);
      if at < |left| {
        if at > limit {
          return Fault(OVERSIZED), left, used;
        }
        var line := left[..at];
        assert left == line + [NEWLINE] + left[at + 1..];
        return Got(line), left[at + 1..], used;
      }
      if |left| > limit {
        return Fault(OVERSIZED), left, used;
      }
      if used == |events| || events[used].Late? {
        return Fault(DEADLINE), left, used;
      }
      if events[used].Ended? {
        return Fault(EXITED), left, used;
      }
      if events[used].Unpolled? {
        return Fault(FAILED), left, used;
      }
      if events[used].Cancelled? {
        return Raised, left, used;
      }
      assert events[used] in events;
      ArrivedStep(buffer, events, used);
      left := left + Payload(events[used]);
      used := used + 1;
    }
  }

  // How many bytes are offered to the pipe at once, and how many of n it has taken after k events.
  function Offered(left: nat): nat { if left < SEND_CHUNK then left else SEND_CHUNK }

  function Written(n: nat, events: seq<Event>, k: nat): (w: nat)
    requires k <= |events|
    ensures w <= n
  {
    if k == 0 then 0
    else
      var before, taken := Written(n, events, k - 1), |Payload(events[k - 1])|;
      var offered := Offered(n - before);
      before + if taken < offered then taken else offered
  }

  // Each write takes as many bytes as the pipe took, all of at most 65536 that were offered, or the last of them.
  lemma WrittenNext(n: nat, events: seq<Event>, k: nat)
    requires k < |events|
    ensures var before, after := Written(n, events, k), Written(n, events, k + 1);
            && before <= after <= before + |Payload(events[k])| && after <= before + 65536
            && (after == before + |Payload(events[k])| || after == before + 65536 || after == n)
    ensures Written(n, events, 0) == 0
  {
  }

  // What sending n bytes comes to, once `used` events have been met: it goes on exactly while the pipe has not taken them.
  ghost predicate Taken(n: nat, events: seq<Event>, used: nat, r: Wire<seq<Byte>>) {
    && used <= |events|
    && (forall k :: 0 <= k < used ==> Written(n, events, k) < n && Stops(events, k).None?)
    && if Written(n, events, used) == n then r == Got([]) else Some(r) == Stops(events, used)
  }

  lemma TakenOnce(n: nat, events: seq<Event>, i: nat, r: Wire<seq<Byte>>, j: nat, s: Wire<seq<Byte>>)
    requires Taken(n, events, i, r) && Taken(n, events, j, s)
    ensures i == j && r == s
  {
    hide Written;
  }

  // `accepted` is what the pipe took of `data`: always a prefix, and all of it exactly when the send succeeds.
  method Send(data: seq<Byte>, events: seq<Event>) returns (r: Wire<seq<Byte>>, accepted: nat, used: nat)
    ensures accepted <= |data| && used <= |events|
    ensures accepted == Written(|data|, events, used) && (r.Got? <==> accepted == |data|)
    ensures Taken(|data|, events, used, r)
  {
    accepted, used := 0, 0;
    while accepted < |data|
      invariant accepted <= |data| && used <= |events|
      invariant accepted == Written(|data|, events, used)
      invariant forall k :: 0 <= k < used ==> Written(|data|, events, k) < |data|
      invariant forall k :: 0 <= k < used ==> Stops(events, k).None?
      decreases |events| - used
    {
      if used == |events| || events[used].Late? {
        return Fault(DEADLINE), accepted, used;
      }
      match events[used] {
        case Ended => return Fault(EXITED), accepted, used;
        case Unpolled => return Fault(FAILED), accepted, used;
        case Cancelled => return Raised, accepted, used;
        case Quiet =>
        case Moved(bytes) =>
          var offered := Offered(|data| - accepted);
          accepted := accepted + if |bytes| < offered then |bytes| else offered;
      }
      used := used + 1;
    }
    return Got([]), accepted, used;
  }

  // ---- the answer ------------------------------------------------------------------------------------------

  datatype Json = Null | Bool(b: bool) | Int(i: int) | Float | Str(s: string) | List(items: seq<Json>)
                | Obj(fields: map<string, Json>)

  datatype Answer = Count(n: nat) | Refused(reason: string) | Broken(reason: string)

  function Refusal(said: string): Option<string> {
    match said
    case "encode_failed" => Some("counter_encode_failed")
    case "text_too_large" => Some(TOO_LARGE)
    case "bos_auto_add_unsupported" => Some("counter_bos_policy_unsupported")
    case "empty_text_not_zero" => Some("counter_bos_policy_unsupported")
    case _ => None
  }

  function Get(m: map<string, Json>, key: string): Json { if key in m then m[key] else Null }

  function ParseCount(message: Option<Json>, id: nat, token: string, nbytes: nat): Answer {
    if message.None? || !message.value.Obj? then Broken(INVALID)
    else
      var m := message.value.fields;
      if Get(m, "v") != Int(1) then Broken(INVALID)
      else if Get(m, "type") == Str("fatal") then Broken(FAILED)
      else if Get(m, "type") != Str("count") || Get(m, "id") != Int(id) || Get(m, "session") != Str(token)
      then Broken(INVALID)
      else if Get(m, "ok") == Bool(true) then
        var count := Get(m, "count");
        if m.Keys != {"v", "type", "id", "session", "ok", "count"} || !count.Int? || !(0 <= count.i <= 2 * nbytes + 8)
        then Broken(INVALID)
        else Count(count.i)
      else if Get(m, "ok") == Bool(false) && m.Keys == {"v", "type", "id", "session", "ok", "reason"} then
        var said := Get(m, "reason");
        var reason := if said.Str? then Refusal(said.s) else None;
        if reason.Some? then Refused(reason.value) else Broken(INVALID)
      else Broken(INVALID)
  }

  // The two messages that are answers to request `id`.
  function CountMessage(id: nat, token: string, n: int): Json {
    Obj(map["v" := Int(1), "type" := Str("count"), "id" := Int(id), "session" := Str(token),
            "ok" := Bool(true), "count" := Int(n)])
  }

  function RefusalMessage(id: nat, token: string, said: string): Json {
    Obj(map["v" := Int(1), "type" := Str("count"), "id" := Int(id), "session" := Str(token),
            "ok" := Bool(false), "reason" := Str(said)])
  }

  // A count is believed exactly when the message is, field for field, the answer to this request in this session
  // and the number is one this text could have.
  lemma CountIsBelieved(message: Option<Json>, id: nat, token: string, nbytes: nat, n: nat)
    ensures ParseCount(message, id, token, nbytes) == Count(n)
        <==> n <= 2 * nbytes + 8 && message == Some(CountMessage(id, token, n))
  {
    if ParseCount(message, id, token, nbytes) == Count(n) {
      assert message.value.fields == CountMessage(id, token, n).fields;
    }
  }

  // What a helper may refuse with, and what its user is told.
  const REFUSALS: map<string, string> :=
    map["encode_failed" := "counter_encode_failed", "text_too_large" := "component_too_large_to_count",
        "bos_auto_add_unsupported" := "counter_bos_policy_unsupported",
        "empty_text_not_zero" := "counter_bos_policy_unsupported"]

  lemma RefusalListed(said: string)
    ensures Refusal(said) == if said in REFUSALS then Some(REFUSALS[said]) else None
  {
  }

  lemma RefusalRead(id: nat, token: string, nbytes: nat, said: string)
    ensures ParseCount(Some(RefusalMessage(id, token, said)), id, token, nbytes)
         == if Refusal(said).Some? then Refused(Refusal(said).value) else Broken(INVALID)
  {
    hide Refusal;
  }

  lemma RefusalSaid(message: Option<Json>, id: nat, token: string, nbytes: nat)
    requires ParseCount(message, id, token, nbytes).Refused?
    ensures exists said :: message == Some(RefusalMessage(id, token, said))
  {
    hide Refusal;
    var said := message.value.fields["reason"].s;
    assert message.value.fields == RefusalMessage(id, token, said).fields;
  }

  lemma RefusalIsBelieved(message: Option<Json>, id: nat, token: string, nbytes: nat, reason: string)
    ensures ParseCount(message, id, token, nbytes) == Refused(reason)
        <==> exists said <- REFUSALS :: REFUSALS[said] == reason && message == Some(RefusalMessage(id, token, said))
  {
    hide ParseCount, Refusal, RefusalMessage;
    if ParseCount(message, id, token, nbytes) == Refused(reason) {
      RefusalSaid(message, id, token, nbytes);
      var said :| message == Some(RefusalMessage(id, token, said));
      RefusalRead(id, token, nbytes, said);
      RefusalListed(said);
    }
    if said :| said in REFUSALS && REFUSALS[said] == reason && message == Some(RefusalMessage(id, token, said)) {
      RefusalRead(id, token, nbytes, said);
      RefusalListed(said);
    }
  }

  // Everything else breaks the session: a fatal message as a failed helper, whatever request it came for, and the rest as
  // no answer.
  lemma OthersBreak(message: Option<Json>, id: nat, token: string, nbytes: nat)
    ensures var r := ParseCount(message, id, token, nbytes);
            var isFatal := message.Some? && message.value.Obj? && Get(message.value.fields, "v") == Int(1)
                           && Get(message.value.fields, "type") == Str("fatal");
            && (isFatal ==> r == Broken("counter_helper_failed"))
            && (r.Broken? && !isFatal ==> r == Broken("counter_response_invalid"))
  {
  }

  // ---- the session -----------------------------------------------------------------------------------------

  datatype Counted = Number(n: nat) | Nothing(reason: string) | Unwound

  // What one call of count meets: the request's bytes, what poll says before it, and the pipe's behaviour.
  datatype Request = Request(line: seq<Byte>, nbytes: nat, polled: bool, readable: bool, hungUp: bool,
                             sending: seq<Event>, receiving: seq<Event>)

  // What one exchange comes to: nothing may be waiting before the request; then it is sent; then one line comes back, and
  // nothing behind it.
  ghost predicate Exchanged(q: Request, buffer: seq<Byte>, r: Wire<seq<Byte>>) {
    if !q.polled then r == Fault(FAILED)
    else if buffer != [] || q.readable then r == Fault(INVALID)
    else if q.hungUp then r == Fault(EXITED)
    else exists sent: Wire<seq<Byte>>, k: nat ::
           Taken(|q.line|, q.sending, k, sent) && (if sent.Got? then Answered(q, r) else r == sent)
  }

  ghost predicate Answered(q: Request, r: Wire<seq<Byte>>) {
    exists got: Wire<seq<Byte>>, k: nat ::
      Received([], 512, q.receiving, k, got) && k <= |q.receiving| && r == Alone(got, Bytes(q.receiving[..k]))
  }

  // A line that is not all that arrived is not an answer.
  function Alone(got: Wire<seq<Byte>>, all: seq<Byte>): Wire<seq<Byte>> {
    if got.Got? && got.value + [NEWLINE] != all then Fault(INVALID) else got
  }

  // That is one thing only.
  lemma ExchangedOnce(q: Request, buffer: seq<Byte>, r: Wire<seq<Byte>>, s: Wire<seq<Byte>>)
    requires Exchanged(q, buffer, r) && Exchanged(q, buffer, s)
    ensures r == s
  {
    hide Taken, Answered;
    if q.polled && buffer == [] && !q.readable && !q.hungUp {
      var sent: Wire<seq<Byte>>, k: nat :|
        Taken(|q.line|, q.sending, k, sent) && (if sent.Got? then Answered(q, r) else r == sent);
      var other: Wire<seq<Byte>>, j: nat :|
        Taken(|q.line|, q.sending, j, other) && (if other.Got? then Answered(q, s) else s == other);
      TakenOnce(|q.line|, q.sending, k, sent, j, other);
      if sent.Got? {
        AnsweredOnce(q, r, s);
      }
    }
  }

  lemma AnsweredOnce(q: Request, r: Wire<seq<Byte>>, s: Wire<seq<Byte>>)
    requires Answered(q, r) && Answered(q, s)
    ensures r == s
  {
    hide Received;
    var got: Wire<seq<Byte>>, k: nat :|
      Received([], 512, q.receiving, k, got) && k <= |q.receiving| && r == Alone(got, Bytes(q.receiving[..k]));
    var other: Wire<seq<Byte>>, j: nat :|
      Received([], 512, q.receiving, j, other) && j <= |q.receiving| && s == Alone(other, Bytes(q.receiving[..j]));
    ReceivedOnce([], 512, q.receiving, k, got, j, other);
  }

  class Session {
    const token: string
    const decode: seq<Byte> -> Option<Json>
    var dead: Option<string>
    var closed: bool
    var next: nat
    var buffer: seq<Byte>
    ghost var asked: seq<nat>       // the ids put on the wire, in order

    // A live session is in step: nothing is left over from an earlier answer, its pipes are open, and ids only grow.
    ghost predicate Valid()
      reads this
    {
      && (dead.None? ==> buffer == [] && !closed)
      && (forall i :: 0 <= i < |asked| ==> asked[i] < next)
      && (forall i, j :: 0 <= i < j < |asked| ==> asked[i] < asked[j])
    }

    constructor (token: string, decode: seq<Byte> -> Option<Json>)
      ensures Valid() && dead.None? && asked == [] && this.token == token && this.decode == decode
    {
      this.token, this.decode := token, decode;
      dead, closed, next, buffer := None, false, 1, [];
      asked := [];
    }

    method Fail(reason: string)
      modifies this`dead, this`closed
      ensures dead == if old(dead).None? then Some(reason) else old(dead)
      ensures closed
    {
      if dead.None? {
        dead := Some(reason);
      }
      closed := true;
    }

    method Exchange(q: Request) returns (r: Wire<seq<Byte>>)
      requires forall e <- q.receiving :: EventOk(e, CHUNK)
      modifies this`buffer
      ensures Exchanged(q, old(buffer), r)
      ensures r.Got? ==> old(buffer) == [] && buffer == [] && q.polled && !q.readable && !q.hungUp
      ensures r.Got? ==> NEWLINE !in r.value && |r.value| <= 512
      // the pipe took the whole request
      ensures r.Got? ==> exists k :: 0 <= k <= |q.sending| && Written(|q.line|, q.sending, k) == |q.line|
      // the answer is the one line that arrived after the request, and nothing came with it
      ensures r.Got? ==> exists used :: 0 <= used <= |q.receiving| &&
                                        Bytes(q.receiving[..used]) == r.value + [NEWLINE]
    {
      if !q.polled {
        return Fault(FAILED);
      }
      if buffer != [] || q.readable {
        return Fault(INVALID);
      }
      if q.hungUp {
        return Fault(EXITED);
      }
      var sent, accepted, until := Send(q.line, q.sending);
      if !sent.Got? {
        return sent;
      }
      var used;
      r, buffer, used := RecvLine(buffer, MAX_RESPONSE_BYTES, q.receiving);
      if r.Got? && buffer != [] {
        return Fault(INVALID);
      }
      if r.Got? {
        assert Bytes(q.receiving[..used]) == Arrived([], q.receiving, used) == r.value + [NEWLINE];
      }
    }

    // One count with the I/O lock held. A number is this request's own answer; whatever goes wrong on the wire
    // leaves the session dead, and a dead session never asks again.
    method Count(q: Request) returns (c: Counted)
      requires Valid()
      requires forall e <- q.receiving :: EventOk(e, CHUNK)
      modifies this
      ensures Valid()
      ensures old(dead).Some? ==> c == Nothing(old(dead).value) && next == old(next) && dead == old(dead)
      ensures || (next == old(next) && asked == old(asked))
              || (next == old(next) + 1 && asked == old(asked) + [old(next)])
      ensures c.Number? ==> dead.None? && c.n <= 2 * q.nbytes + 8 && asked == old(asked) + [old(next)]
      ensures c.Number? ==> exists used, raw :: 0 <= used <= |q.receiving|
                              && Bytes(q.receiving[..used]) == raw + [NEWLINE]
                              && decode(raw) == Some(CountMessage(old(next), token, c.n))
      // alive afterwards only when nothing was asked, or the helper's answer was a count or a stated refusal
      ensures dead.None? ==> old(dead).None? && (next == old(next) ==> c == Nothing(TOO_LARGE))
      ensures dead.None? && next > old(next) ==>
                (exists used, raw :: 0 <= used <= |q.receiving|
                  && Bytes(q.receiving[..used]) == raw + [NEWLINE]
                  && !ParseCount(decode(raw), old(next), token, q.nbytes).Broken?)
      ensures old(dead).None? && dead.Some? ==> closed
      // what was exchanged decides the answer, and whether the session lives on
      ensures old(dead).None? && |q.line| > 4 * 1024 * 1024 ==> c == Nothing(TOO_LARGE) && next == old(next)
      ensures old(dead).None? && |q.line| <= 4 * 1024 * 1024 ==>
                forall r :: Exchanged(q, old(buffer), r) ==>
                  match r
                  case Fault(reason) => c == Nothing(reason) && dead == Some(reason)
                  case Raised => c == Unwound && dead == Some("counter_interrupted")
                  case Got(raw) =>
                    match ParseCount(decode(raw), old(next), token, q.nbytes)
                    case Count(n) => c == Number(n) && dead.None?
                    case Refused(reason) => c == Nothing(reason) && dead.None?
                    case Broken(reason) => c == Nothing(reason) && dead == Some(reason)
    {
      hide Exchanged, ParseCount, NewlineFrom;
      if dead.Some? {
        return Nothing(dead.value);
      }
      var id := next;
      if |q.line| > MAX_REQUEST_BYTES {
        return Nothing(TOO_LARGE);
      }
      next, asked := next + 1, asked + [next];
      ghost var before := buffer;
      var r := Exchange(q);
      forall s | Exchanged(q, before, s)
        ensures s == r
      {
        ExchangedOnce(q, before, r, s);
      }
      match r {
        case Fault(reason) =>
          Fail(reason);
          return Nothing(reason);
        case Raised =>
          Fail(INTERRUPTED);
          return Unwound;
        case Got(raw) =>
          var answer := ParseCount(decode(raw), id, token, q.nbytes);
          match answer {
            case Broken(reason) =>
              Fail(reason);
              return Nothing(reason);
            case Refused(reason) =>
              return Nothing(reason);
            case Count(n) =>
              CountIsBelieved(decode(raw), id, token, q.nbytes, n);
              return Number(n);
          }
      }
    }
  }
}
