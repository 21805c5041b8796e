/** Bytes on a pipe, and where their lines end. */
module ByteStreams {
  import opened Common

  const NEWLINE: Byte := 10

  // The first newline at or after `from`; the length when there is none.
  function NewlineFrom(s: seq<Byte>, from: nat): (at: nat)
    requires from <= |s|
    ensures from <= at <= |s|
    ensures at < |s| ==> s[at] == NEWLINE
    ensures forall i :: from <= i < at ==> s[i] != NEWLINE
    decreases |s| - from
  {
    if from == |s| || s[from] == NEWLINE then from else NewlineFrom(s, from + 1)
  }

  function NewlineAt(s: seq<Byte>): nat { NewlineFrom(s, 0) }

  lemma NewlineUnique(s: seq<Byte>, at: nat)
    requires at <= |s| && (at < |s| ==> s[at] == NEWLINE)
    requires forall i :: 0 <= i < at ==> s[i] != NEWLINE
    ensures NewlineAt(s) == at
  {
  }

  // A newline found in a prefix is the whole stream's first newline.
  lemma NewlineInPrefix(s: seq<Byte>, more: seq<Byte>)
    requires NewlineAt(s) < |s|
    ensures NewlineAt(s + more) == NewlineAt(s)
  {
    NewlineUnique(s + more, NewlineAt(s));
  }

  lemma NewlineBeyond(s: seq<Byte>, more: seq<Byte>)
    requires NewlineAt(s) == |s|
    ensures NewlineAt(s + more) >= |s|
  {
  }
}

/** The helper's bounded line input (scripts/context_tokenizer_counter.cpp, class Lines): a buffer filled by reads
    of any size, against the lines of the byte stream itself. */
module LineReader {
  import opened Common
  import opened ByteStreams

  const CHUNK: nat := 65536

  // What read(2) can answer; the end of the sequence is the end of the input.
  datatype Read = Data(bytes: seq<Byte>) | Interrupted | Failed

  predicate ReadOk(r: Read) { r.Data? ==> 0 < |r.bytes| <= CHUNK }

  // The bytes that arrive before the input ends or a read fails, and whether one fails.
  function Content(input: seq<Read>): seq<Byte> {
    if |input| == 0 || input[0].Failed? then []
    else (if input[0].Data? then input[0].bytes else []) + Content(input[1..])
  }

  predicate Fails(input: seq<Read>) {
    |input| > 0 && (input[0].Failed? || Fails(input[1..]))
  }

  datatype Verdict = End | TooLong | Broken
  datatype Outcome = Outcome(lines: seq<seq<Byte>>, verdict: Verdict)

  // What a reader must make of a byte stream, whichever way it was cut.
  function Parse(content: seq<Byte>, fails: bool, limit: nat): Outcome
    decreases |content|
  {
    var at := NewlineAt(content);
    if at > limit then Outcome([], TooLong)
    else if at < |content| then
      var rest := Parse(content[at + 1..], fails, limit);
      Outcome([content[..at]] + rest.lines, rest.verdict)
    else Outcome([], if fails || content != [] then Broken else End)
  }

  function Joined(lines: seq<seq<Byte>>): seq<Byte> {
    if |lines| == 0 then [] else lines[0] + [NEWLINE] + Joined(lines[1..])
  }

  predicate IsLine(line: seq<Byte>, limit: nat) { |line| <= limit && NEWLINE !in line }

  // `rest` is what is left of the stream after the lines, and the verdict is about it.
  ghost predicate EndsWith(out: Outcome, rest: seq<Byte>, content: seq<Byte>, fails: bool, limit: nat) {
    && content == Joined(out.lines) + rest
    && (out.verdict == TooLong <==> NewlineAt(rest) > limit)
    && (out.verdict == End <==> !fails && rest == [])
    && (out.verdict == Broken ==> NEWLINE !in rest)
  }

  // The lines are exactly the newline-separated ones, each within the limit, up to where the verdict falls.
  lemma {:induction false} ParseIsExact(content: seq<Byte>, fails: bool, limit: nat)
    ensures forall line <- Parse(content, fails, limit).lines :: IsLine(line, limit)
    ensures exists rest :: EndsWith(Parse(content, fails, limit), rest, content, fails, limit)
    decreases |content|
  {
    hide NewlineFrom;
    var at, out := NewlineAt(content), Parse(content, fails, limit);
    if at > limit || at == |content| {
      assert Joined(out.lines) + content == content;
      assert EndsWith(out, content, content, fails, limit);
    } else {
      var line, tail := content[..at], content[at + 1..];
      ParseIsExact(tail, fails, limit);
      var inner := Parse(tail, fails, limit);
      var rest :| EndsWith(inner, rest, tail, fails, limit);
      JoinedCons(line, inner.lines, rest);
      assert content == line + [NEWLINE] + tail;
      assert EndsWith(out, rest, content, fails, limit);
    }
  }

  lemma JoinedCons(line: seq<Byte>, lines: seq<seq<Byte>>, rest: seq<Byte>)
    ensures Joined([line] + lines) + rest == line + [NEWLINE] + (Joined(lines) + rest)
  {
    assert ([line] + lines)[1..] == lines;
  }

  // Every list of lines is read back as itself.
  lemma {:induction false} ParseJoined(lines: seq<seq<Byte>>, limit: nat)
    requires forall line <- lines :: IsLine(line, limit)
    ensures Parse(Joined(lines), false, limit) == Outcome(lines, End)
    decreases |lines|
  {
    if |lines| > 0 {
      var all, line, rest := Joined(lines), lines[0], Joined(lines[1..]);
      assert IsLine(line, limit);
      assert all == line + [NEWLINE] + rest;
      NewlineUnique(all, |line|);
      ParseJoined(lines[1..], limit);
      assert all[..|line|] == line && all[|line| + 1..] == rest;
      assert [line] + lines[1..] == lines;
    }
  }

  datatype Result = Line(line: seq<Byte>) | Stop(verdict: Verdict)

  class Lines {
    const limit: nat
    var buffer: seq<Byte>
    var scanned: nat
    var ended: bool
    var input: seq<Read>

    // `scanned` never skips a newline, and the buffer stays within the limit and one chunk.
    ghost predicate Valid()
      reads this
    {
      && scanned <= |buffer| <= limit + CHUNK
      && (forall i :: 0 <= i < scanned ==> buffer[i] != NEWLINE)
      && (ended ==> input == [])
      && (forall r <- input :: ReadOk(r))
    }

    // Everything still to be parsed.
    ghost function Rest(): seq<Byte>
      reads this
    {
      buffer + Content(input)
    }

    constructor (limit: nat, input: seq<Read>)
      requires forall r <- input :: ReadOk(r)
      ensures Valid() && Rest() == Content(input) && Fails(this.input) == Fails(input) && this.limit == limit
    {
      this.limit, this.input := limit, input;
      buffer, scanned, ended := [], 0, false;
    }

    method Next() returns (r: Result)
      requires Valid()
      modifies this
      ensures Valid()
      ensures var content, at := old(Rest()), NewlineAt(old(Rest()));
              match r
              case Line(line) => at < |content| && at <= limit && line == content[..at]
                                 && Rest() == content[at + 1..] && Fails(input) == old(Fails(input))
              case Stop(verdict) => Outcome([], verdict) == Parse(content, old(Fails(input)), limit)
    {
      while true
        invariant Valid() && Rest() == old(Rest()) && Fails(input) == old(Fails(input))
        decreases |input|, if ended then 0 else 1
      {
        var at := NewlineFrom(buffer, scanned);
        NewlineUnique(buffer, at);
        if at < |buffer| {
          NewlineInPrefix(buffer, Content(input));
          if at > limit {
            return Stop(TooLong);
          }
          var line := buffer[..at];
          assert Rest()[at + 1..] == buffer[at + 1..] + Content(input);
          assert Rest()[..at] == line;
          buffer, scanned := buffer[at + 1..], 0;
          return Line(line);
        }
        scanned := |buffer|;
        NewlineBeyond(buffer, Content(input));
        if |buffer| > limit {
          return Stop(TooLong);
        }
        if ended {
          assert Rest() == buffer;
          return Stop(if buffer == [] then End else Broken);
        }
        if input == [] {
          ended := true;
        } else {
          var read := input[0];
          assert read in input;
          if read.Failed? {
            assert Rest() == buffer;
            return Stop(Broken);
          }
          if read.Data? {
            assert buffer + (read.bytes + Content(input[1..])) == buffer + read.bytes + Content(input[1..]);
            buffer := buffer + read.bytes;
          }
          input := input[1..];
        }
      }
    }
  }

  lemma ParseLine(content: seq<Byte>, rest: seq<Byte>, line: seq<Byte>, fails: bool, limit: nat, got: seq<seq<Byte>>)
    requires NewlineAt(content) < |content| && NewlineAt(content) <= limit
    requires line == content[..NewlineAt(content)] && rest == content[NewlineAt(content) + 1..]
    ensures var all, more := Parse(content, fails, limit), Parse(rest, fails, limit);
            got + all.lines == got + [line] + more.lines && all.verdict == more.verdict
  {
    var more := Parse(rest, fails, limit);
    assert got + ([line] + more.lines) == got + [line] + more.lines;
  }

  // The whole input: lines until something else. The answer depends on the bytes that arrived, never on how.
  method ReadAll(input: seq<Read>, limit: nat) returns (out: Outcome)
    requires forall r <- input :: ReadOk(r)
    ensures out == Parse(Content(input), Fails(input), limit)
  {
    hide NewlineFrom, Content, Parse;
    var lines := new Lines(limit, input);
    ghost var content, fails := Content(input), Fails(input);
    var got: seq<seq<Byte>> := [];
    while true
      invariant fresh(lines) && lines.Valid() && lines.limit == limit && Fails(lines.input) == fails
      invariant var rest := Parse(lines.Rest(), fails, limit);
                Parse(content, fails, limit) == Outcome(got + rest.lines, rest.verdict)
      decreases |lines.Rest()|
    {
      ghost var before := lines.Rest();
      var next := lines.Next();
      match next {
        case Line(line) =>
          ParseLine(before, lines.Rest(), line, fails, limit, got);
          got := got + [line];
        case Stop(verdict) =>
          assert got + [] == got;
          return Outcome(got, verdict);
      }
    }
  }
}
