/** The line framing of the redaction service: a byte stream cut into reads, put together again, and cut at
  the newlines. */
module Framing {

  type byte = b: int | 0 <= b < 256

  type Bytes = seq<byte>

  const NEWLINE: byte := 10

  /** What a line turns out to be once decoded and stripped. Lines that cannot be decoded or parsed are
    payloads too: they are answered with an error. */
  datatype LineKind = Blank | Http | Payload

  /** The position of the first newline from `k` on, or the length. */
  function FindFrom(s: Bytes, k: nat): (i: nat)
    requires k <= |s|
    ensures k <= i <= |s| && (i < |s| ==> s[i] == NEWLINE)
    decreases |s| - k
  {
    if k == |s| || s[k] == NEWLINE then k else FindFrom(s, k + 1)
  }

  /** The position of the first newline, or the length. */
  function FindNewline(s: Bytes): (i: nat)
    ensures i <= |s| && (i < |s| ==> s[i] == NEWLINE)
  {
    FindFrom(s, 0)
  }

  lemma {:induction false} FirstFrom(s: Bytes, k: nat)
    requires k <= |s|
    ensures forall j :: k <= j < FindFrom(s, k) ==> s[j] != NEWLINE
    decreases |s| - k
  {
    if k < |s| && s[k] != NEWLINE {
      FirstFrom(s, k + 1);
    }
  }

  lemma {:induction false} FirstNewline(s: Bytes)
    ensures NEWLINE !in s[..FindNewline(s)] && (NEWLINE in s <==> FindNewline(s) < |s|)
  {
    FirstFrom(s, 0);
    if FindNewline(s) < |s| {
      assert s[FindNewline(s)] in s;
    }
  }

  // ---------------------------------------------------------------- the stream as a whole

  /** The newline-terminated segments of a stream. */
  function Lines(s: Bytes): seq<Bytes>
    decreases |s|
  {
    var i := FindNewline(s);
    if i == |s| then [] else [s[..i]] + Lines(s[i + 1..])
  }

  /** What follows the last newline. */
  function Tail(s: Bytes): Bytes
    decreases |s|
  {
    var i := FindNewline(s);
    if i == |s| then s else Tail(s[i + 1..])
  }

  predicate Stops(classify: Bytes -> LineKind, line: Bytes) {
    line != [] && classify(line) == Http
  }

  predicate Handed(classify: Bytes -> LineKind, line: Bytes) {
    line != [] && classify(line) == Payload
  }

  function Passed(classify: Bytes -> LineKind, handed: seq<Bytes>, line: Bytes): seq<Bytes> {
    if Handed(classify, line) then handed + [line] else handed
  }

  /** The payloads among the lines up to the first that looks like HTTP. */
  function Payloads(classify: Bytes -> LineKind, lines: seq<Bytes>): seq<Bytes> {
    if lines == [] || Stops(classify, lines[0]) then []
    else Passed(classify, [], lines[0]) + Payloads(classify, lines[1..])
  }

  predicate Stopped(classify: Bytes -> LineKind, lines: seq<Bytes>) {
    exists k :: 0 <= k < |lines| && Stops(classify, lines[k])
  }

  /** The reads up to the empty one that ends the stream. */
  function Stream(chunks: seq<Bytes>): Bytes {
    if chunks == [] || chunks[0] == [] then [] else chunks[0] + Stream(chunks[1..])
  }

  // ---------------------------------------------------------------- read by read

  /** `handed` are the lines passed on so far; `open` says that no HTTP line has ended the connection. */
  datatype Connection = Connection(buffer: Bytes, handed: seq<Bytes>, open: bool)

  /** The inner loop: the complete lines of the buffer, one after another. */
  function Cut(classify: Bytes -> LineKind, c: Connection): Connection
    decreases |c.buffer|
  {
    var i := FindNewline(c.buffer);
    if !c.open || i == |c.buffer| then c
    else
      var line, rest := c.buffer[..i], c.buffer[i + 1..];
      if Stops(classify, line) then Connection(rest, c.handed, false)
      else Cut(classify, Connection(rest, Passed(classify, c.handed, line), true))
  }

  function Serve(classify: Bytes -> LineKind, c: Connection, chunks: seq<Bytes>): Connection
    decreases |chunks|
  {
    if !c.open || chunks == [] || chunks[0] == [] then c
    else Serve(classify, Cut(classify, c.(buffer := c.buffer + chunks[0])), chunks[1..])
  }

  const FRESH := Connection([], [], true)

  /** One turn of the inner loop. */
  lemma {:induction false} CutOne(classify: Bytes -> LineKind, buffer: Bytes, handed: seq<Bytes>)
    ensures var i := FindNewline(buffer);
            Cut(classify, Connection(buffer, handed, true)) ==
              if i == |buffer| then Connection(buffer, handed, true)
              else if Stops(classify, buffer[..i]) then Connection(buffer[i + 1..], handed, false)
              else Cut(classify, Connection(buffer[i + 1..], Passed(classify, handed, buffer[..i]), true))
  {
  }

  /** The inner loop of `handle_client`. */
  method CutLines(classify: Bytes -> LineKind, received: Bytes, before: seq<Bytes>) returns (c: Connection)
    ensures c == Cut(classify, Connection(received, before, true))
  {
    var buffer, handed := received, before;
    while NEWLINE in buffer
      invariant Cut(classify, Connection(received, before, true)) == Cut(classify, Connection(buffer, handed, true))
      decreases |buffer|
    {
      FirstNewline(buffer);
      CutOne(classify, buffer, handed);
      var i := FindNewline(buffer);
      var line := buffer[..i];
      buffer := buffer[i + 1..];
      if line != [] {
        var kind := classify(line);
        if kind == Http {
          return Connection(buffer, handed, false);
        } else if kind == Payload {
          handed := handed + [line];
        }
      }
    }
    FirstNewline(buffer);
    CutOne(classify, buffer, handed);
    c := Connection(buffer, handed, true);
  }

  /** `handle_client`. */
  method HandleClient(classify: Bytes -> LineKind, chunks: seq<Bytes>) returns (c: Connection)
    ensures c == Serve(classify, FRESH, chunks)
  {
    c := FRESH;
    var k := 0;
    while k < |chunks| && chunks[k] != []
      invariant k <= |chunks| && c.open
      invariant Serve(classify, FRESH, chunks) == Serve(classify, c, chunks[k..])
    {
      assert chunks[k..][1..] == chunks[k + 1..];
      c := CutLines(classify, c.buffer + chunks[k], c.handed);
      if !c.open {
        return;
      }
      k := k + 1;
    }
  }

  // ---------------------------------------------------------------- reads do not matter

  lemma {:induction false} FindBehind(a: Bytes, b: Bytes, k: nat)
    requires k <= |b|
    ensures FindFrom(a + b, |a| + k) == |a| + FindFrom(b, k)
    decreases |b| - k
  {
    if k < |b| {
      assert (a + b)[|a| + k] == b[k];
      if b[k] != NEWLINE {
        FindBehind(a, b, k + 1);
      }
    }
  }

  lemma {:induction false} FindThrough(a: Bytes, b: Bytes, k: nat)
    requires k <= |a|
    ensures FindFrom(a + b, k) == if FindFrom(a, k) < |a| then FindFrom(a, k) else |a| + FindFrom(b, 0)
    decreases |a| - k
  {
    if k == |a| {
      FindBehind(a, b, 0);
    } else {
      assert (a + b)[k] == a[k];
      if a[k] != NEWLINE {
        FindThrough(a, b, k + 1);
      }
    }
  }

  /** A newline ends its line whatever follows; without one, the line goes on. */
  lemma {:induction false} FindInFront(a: Bytes, b: Bytes)
    ensures FindNewline(a + b) == if FindNewline(a) < |a| then FindNewline(a) else |a| + FindNewline(b)
  {
    FindThrough(a, b, 0);
  }

  /** Cutting the buffer and then adding the next read leads where cutting both together does. */
  predicate AppendsTo(classify: Bytes -> LineKind, cut: Connection, next: Bytes, both: Connection) {
    both == if cut.open then Cut(classify, cut.(buffer := cut.buffer + next)) else cut.(buffer := cut.buffer + next)
  }

  lemma {:induction false} CutFirstOfBoth(classify: Bytes -> LineKind, buffer: Bytes, handed: seq<Bytes>, next: Bytes)
    requires FindNewline(buffer) < |buffer|
    ensures var i := FindNewline(buffer);
            Cut(classify, Connection(buffer + next, handed, true)) ==
              if Stops(classify, buffer[..i]) then Connection(buffer[i + 1..] + next, handed, false)
              else Cut(classify, Connection(buffer[i + 1..] + next, Passed(classify, handed, buffer[..i]), true))
  {
    FindInFront(buffer, next);
    var i := FindNewline(buffer);
    assert (buffer + next)[..i] == buffer[..i];
    assert (buffer + next)[i + 1..] == buffer[i + 1..] + next;
    CutOne(classify, buffer + next, handed);
  }

  lemma {:induction false} CutThenAppend(classify: Bytes -> LineKind, buffer: Bytes, handed: seq<Bytes>, next: Bytes)
    ensures AppendsTo(classify, Cut(classify, Connection(buffer, handed, true)), next,
                      Cut(classify, Connection(buffer + next, handed, true)))
    decreases |buffer|
  {
    CutOne(classify, buffer, handed);
    var i := FindNewline(buffer);
    if i < |buffer| {
      CutFirstOfBoth(classify, buffer, handed, next);
      if !Stops(classify, buffer[..i]) {
        CutThenAppend(classify, buffer[i + 1..], Passed(classify, handed, buffer[..i]), next);
      }
    }
  }

  /** Cutting a whole stream: the payloads of its lines up to the first HTTP line, and its tail. */
  lemma {:induction false} CutIsPayloads(classify: Bytes -> LineKind, s: Bytes, handed: seq<Bytes>)
    ensures var c := Cut(classify, Connection(s, handed, true));
            && c.handed == handed + Payloads(classify, Lines(s))
            && (c.open <==> !Stopped(classify, Lines(s)))
            && (c.open ==> c.buffer == Tail(s))
    decreases |s|
  {
    CutOne(classify, s, handed);
    var i := FindNewline(s);
    if i < |s| {
      var line, rest := s[..i], s[i + 1..];
      FirstLine(classify, line, Lines(rest));
      if !Stops(classify, line) {
        CutIsPayloads(classify, rest, Passed(classify, handed, line));
        PassedInFront(classify, handed, line, Payloads(classify, Lines(rest)));
      } else {
        assert handed + [] == handed;
      }
    } else {
      assert handed + [] == handed;
    }
  }

  lemma {:induction false} PassedInFront(classify: Bytes -> LineKind, handed: seq<Bytes>, line: Bytes, more: seq<Bytes>)
    ensures Passed(classify, handed, line) + more == handed + (Passed(classify, [], line) + more)
  {
  }

  lemma {:induction false} FirstLine(classify: Bytes -> LineKind, line: Bytes, lines: seq<Bytes>)
    ensures Stopped(classify, [line] + lines) <==> Stops(classify, line) || Stopped(classify, lines)
    ensures Payloads(classify, [line] + lines)
            == if Stops(classify, line) then [] else Passed(classify, [], line) + Payloads(classify, lines)
  {
    var all := [line] + lines;
    assert all[1..] == lines;
    if Stopped(classify, lines) {
      var k :| 0 <= k < |lines| && Stops(classify, lines[k]);
      assert all[k + 1] == lines[k];
    }
    if Stopped(classify, all) && !Stops(classify, line) {
      var k :| 0 <= k < |all| && Stops(classify, all[k]);
      assert all[k] == lines[k - 1];
    }
    assert all[0] == line;
  }

  /** Both connections have passed on the same lines, and hold the same tail if they are open. */
  predicate SameService(a: Connection, b: Connection) {
    a.open == b.open && a.handed == b.handed && (a.open ==> a.buffer == b.buffer)
  }

  lemma {:induction false} ServeIsCut(classify: Bytes -> LineKind, c: Connection, chunks: seq<Bytes>)
    requires c.open && Cut(classify, c) == c
    ensures SameService(Serve(classify, c, chunks), Cut(classify, c.(buffer := c.buffer + Stream(chunks))))
    decreases |chunks|, 0
  {
    if chunks == [] || chunks[0] == [] {
      assert c.buffer + [] == c.buffer;
    } else {
      var received, more := c.buffer + chunks[0], chunks[1..];
      var next := Cut(classify, Connection(received, c.handed, true));
      assert received + Stream(more) == c.buffer + Stream(chunks);
      var whole := Cut(classify, Connection(received + Stream(more), c.handed, true));
      CutThenAppend(classify, received, c.handed, Stream(more));
      CutIsDone(classify, received, c.handed);
      ServeMore(classify, next, more, whole);
    }
  }

  lemma {:induction false} ServeMore(classify: Bytes -> LineKind, next: Connection, chunks: seq<Bytes>,
                                     whole: Connection)
    requires Cut(classify, next) == next && AppendsTo(classify, next, Stream(chunks), whole)
    ensures SameService(Serve(classify, next, chunks), whole)
    decreases |chunks|, 1
  {
    if next.open {
      ServeIsCut(classify, next, chunks);
    }
  }

  lemma {:induction false} CutIsDone(classify: Bytes -> LineKind, buffer: Bytes, handed: seq<Bytes>)
    ensures var c := Cut(classify, Connection(buffer, handed, true)); Cut(classify, c) == c
    decreases |buffer|
  {
    CutOne(classify, buffer, handed);
    var i := FindNewline(buffer);
    if i < |buffer| && !Stops(classify, buffer[..i]) {
      CutIsDone(classify, buffer[i + 1..], Passed(classify, handed, buffer[..i]));
    }
  }

  /** However the stream is cut into reads: the lines handed on are the payloads among the
    newline-terminated segments of the whole, in order, up to the first that looks like HTTP, and the
    buffer of an open connection is the unterminated tail. */
  lemma {:induction false} FramingIsChunkIndependent(classify: Bytes -> LineKind, chunks: seq<Bytes>)
    ensures var served := Serve(classify, FRESH, chunks);
            var lines := Lines(Stream(chunks));
            && served.handed == Payloads(classify, lines)
            && (served.open <==> !Stopped(classify, lines))
            && (served.open ==> served.buffer == Tail(Stream(chunks)))
  {
    NothingToCut(classify);
    ServeIsCut(classify, FRESH, chunks);
    StartsEmpty(Stream(chunks));
    WholeStream(classify, Stream(chunks));
  }

  lemma {:induction false} NothingToCut(classify: Bytes -> LineKind)
    ensures Cut(classify, FRESH) == FRESH
  {
  }

  lemma {:induction false} StartsEmpty(s: Bytes)
    ensures FRESH.(buffer := FRESH.buffer + s) == Connection(s, [], true)
  {
    assert [] + s == s;
  }

  lemma {:induction false} WholeStream(classify: Bytes -> LineKind, s: Bytes)
    ensures var c := Cut(classify, Connection(s, [], true));
            && c.handed == Payloads(classify, Lines(s))
            && (c.open <==> !Stopped(classify, Lines(s)))
            && (c.open ==> c.buffer == Tail(s))
  {
    CutIsPayloads(classify, s, []);
    assert [] + Payloads(classify, Lines(s)) == Payloads(classify, Lines(s));
  }

  /** An HTTP line, which ends the connection. */
  predicate EndsAt(classify: Bytes -> LineKind, lines: seq<Bytes>, k: nat)
    requires k < |lines|
  {
    lines[k] != [] && classify(lines[k]) == Http
  }

  lemma {:induction false} StoppedExactly(classify: Bytes -> LineKind, lines: seq<Bytes>)
    ensures Stopped(classify, lines) <==> exists k: nat :: k < |lines| && EndsAt(classify, lines, k)
  {
    if Stopped(classify, lines) {
      var k :| 0 <= k < |lines| && Stops(classify, lines[k]);
      assert EndsAt(classify, lines, k);
    }
    if exists k: nat :: k < |lines| && EndsAt(classify, lines, k) {
      var k: nat :| k < |lines| && EndsAt(classify, lines, k);
      assert Stops(classify, lines[k]);
    }
  }

  /** One line more: it is handed on if it is not empty, a payload, and comes behind no HTTP line; blank lines and
    what follows an HTTP line are not. */
  lemma {:induction false} PayloadsGrow(classify: Bytes -> LineKind, lines: seq<Bytes>, line: Bytes)
    ensures Payloads(classify, []) == []
    ensures Payloads(classify, lines + [line])
            == Payloads(classify, lines)
               + if line != [] && classify(line) == Payload && !Stopped(classify, lines) then [line] else []
  {
    if lines == [] {
      assert [line][1..] == [] && [] + [line] == [line];
      assert Payloads(classify, [line][1..]) == [];
    } else {
      var head, rest := lines[0], lines[1..];
      assert lines == [head] + rest && lines + [line] == [head] + (rest + [line]);
      PayloadsGrow(classify, rest, line);
      FirstLine(classify, head, rest);
      FirstLine(classify, head, rest + [line]);
    }
  }

  /** Lines and tail are the stream again. */
  function Joined(lines: seq<Bytes>): Bytes {
    if lines == [] then [] else lines[0] + [NEWLINE] + Joined(lines[1..])
  }

  lemma {:induction false} JoinedInFront(line: Bytes, rest: Bytes, lines: seq<Bytes>, tail: Bytes)
    requires Joined(lines) + tail == rest
    ensures Joined([line] + lines) + tail == line + [NEWLINE] + rest
  {
    assert ([line] + lines)[1..] == lines;
    assert line + [NEWLINE] + Joined(lines) + tail == line + [NEWLINE] + (Joined(lines) + tail);
  }

  lemma {:induction false} SplitAtNewline(s: Bytes)
    requires FindNewline(s) < |s|
    ensures s == s[..FindNewline(s)] + [NEWLINE] + s[FindNewline(s) + 1..]
  {
  }

  /** The segments with their newlines, and the tail, make up the stream. */
  lemma {:induction false} LinesMakeUpTheStream(s: Bytes)
    ensures Joined(Lines(s)) + Tail(s) == s
    decreases |s|
  {
    var i := FindNewline(s);
    if i < |s| {
      LinesMakeUpTheStream(s[i + 1..]);
      JoinedInFront(s[..i], s[i + 1..], Lines(s[i + 1..]), Tail(s[i + 1..]));
      SplitAtNewline(s);
    }
  }

  /** No segment, and no tail, holds a newline. */
  lemma {:induction false} LinesHoldNoNewline(s: Bytes)
    ensures NEWLINE !in Tail(s) && forall line :: line in Lines(s) ==> NEWLINE !in line
    decreases |s|
  {
    var i := FindNewline(s);
    FirstNewline(s);
    if i < |s| {
      LinesHoldNoNewline(s[i + 1..]);
    } else {
      assert s[..i] == s;
    }
  }
}
