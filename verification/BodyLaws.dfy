/** What the body filter keeps: bytes, their order, the end-of-body mark, and the meaning of the body. */
module BodyLaws {
  import opened Basics
  import opened Order
  import opened BodyStream

  /** The body bytes that a chain of buffers stands for. */
  function Bytes(bufs: seq<Buf>): bytes {
    if bufs == [] then [] else bufs[0].Payload() + Bytes(bufs[1..])
  }

  /** The bytes of the chunks the guest has been given. */
  function Given(calls: seq<Chunk>): bytes {
    if calls == [] then [] else Given(calls[..|calls| - 1]) + calls[|calls| - 1].data
  }

  function InFlight(f: Option<Flight>): bytes { if f.Some? then f.value.Data() else [] }

  /** Given, then in flight, then queued: all the bytes the filter is responsible for, in order. */
  function Total<G>(s: Stream<G>): bytes { Given(s.calls) + InFlight(s.flight) + Bytes(s.pending) }

  ghost predicate Readable(bufs: seq<Buf>) { forall b :: b in bufs ==> b.Readable() }

  ghost predicate Sound<G>(s: Stream<G>) {
    Readable(s.pending) && (s.flight.Some? ==> s.flight.value.offset + s.flight.value.size <= |s.flight.value.file|)
  }

  lemma GivenSnoc(calls: seq<Chunk>, c: Chunk)
    ensures Given(calls + [c]) == Given(calls) + c.data
  {
    assert (calls + [c])[..|calls|] == calls;
  }

  lemma {:induction false} BytesConcat(a: seq<Buf>, b: seq<Buf>)
    ensures Bytes(a + b) == Bytes(a) + Bytes(b)
  {
    if a == [] {
      assert a + b == b;
    } else {
      assert (a + b)[1..] == a[1..] + b;
      BytesConcat(a[1..], b);
    }
  }

  lemma {:induction false} CopiesSame(bufs: seq<Buf>)
    ensures Bytes(Copies(bufs)) == Bytes(bufs) && |Copies(bufs)| == |bufs| && Copies(Copies(bufs)) == Copies(bufs)
    ensures Readable(bufs) ==> Readable(Copies(bufs))
    ensures FileBytes(Copies(bufs)) == FileBytes(bufs)
  {
    if bufs != [] {
      CopiesSame(bufs[1..]);
      assert Copies(bufs) == [bufs[0].Copy()] + Copies(bufs[1..]);
      assert Copies(bufs)[1..] == Copies(bufs[1..]);
      if Readable(bufs) { assert bufs[0] in bufs && forall b :: b in bufs[1..] ==> b in bufs; }
    }
  }

  /** File bytes still to be read in a chain. */
  function FileBytes(bufs: seq<Buf>): nat {
    if bufs == [] then 0 else (if bufs[0].FileOnly() then bufs[0].Available() else 0) + FileBytes(bufs[1..])
  }

  /** How process cuts a chain: the bytes that go to the guest or into a read, and the buffers it queues. */
  function Cut(chunk: nat, input: seq<Buf>): (bytes, seq<Buf>) {
    if input == [] then ([], [])
    else
      var b := input[0];
      if b.FileOnly() then
        if b.Available() == 0 then ([], Copies(input[1..]))
        else
          var size := Min(b.Available(), chunk);
          (if b.filePos + size <= |b.file| then b.file[b.filePos..b.filePos + size] else [],
           [b.(filePos := b.filePos + size)] + Copies(input[1..]))
      else
        var (ahead, queued) := Cut(chunk, input[1..]);
        (b.Payload() + ahead, queued)
  }

  lemma Assoc(a: bytes, b: bytes, c: bytes)
    ensures (a + b) + c == a + (b + c) && [] + a == a && a + [] == a
  {
  }

  lemma {:induction false} CutBytes(chunk: nat, input: seq<Buf>)
    requires chunk > 0 && Readable(input)
    ensures var (ahead, queued) := Cut(chunk, input); ahead + Bytes(queued) == Bytes(input) && Readable(queued)
  {
    if input != [] {
      var b := input[0];
      assert b in input && forall x :: x in input[1..] ==> x in input;
      if b.FileOnly() {
        CutFile(chunk, b, input[1..]);
        assert input == [b] + input[1..];
      } else {
        CutBytes(chunk, input[1..]);
        var (ahead, queued) := Cut(chunk, input[1..]);
        Assoc(b.Payload(), ahead, Bytes(queued));
      }
    }
  }

  lemma CutFile(chunk: nat, b: Buf, rest: seq<Buf>)
    requires chunk > 0 && b.FileOnly() && b.Readable() && Readable(rest)
    ensures var (ahead, queued) := Cut(chunk, [b] + rest);
      ahead + Bytes(queued) == b.Payload() + Bytes(rest) && Readable(queued)
  {
    CopiesSame(rest);
    assert ([b] + rest)[1..] == rest && ([b] + rest)[0] == b;
    if b.Available() > 0 {
      var size := Min(b.Available(), chunk);
      var r := b.(filePos := b.filePos + size);
      PieceAndResidual(b, size);
      assert Cut(chunk, [b] + rest) == (b.file[b.filePos..b.filePos + size], [r] + Copies(rest));
      hide Cut, Buf.Payload, Copies, Bytes;
      ResidualAhead(b.file[b.filePos..b.filePos + size], r, Copies(rest));
      assert Readable([r] + Copies(rest));
    } else {
      assert Cut(chunk, [b] + rest) == ([], Copies(rest)) && b.Payload() == [];
      hide Cut, Copies, Bytes;
      Assoc(Bytes(rest), [], []);
    }
  }

  lemma ResidualAhead(piece: bytes, r: Buf, rest: seq<Buf>)
    ensures piece + Bytes([r] + rest) == piece + r.Payload() + Bytes(rest)
  {
    BytesConcat([r], rest);
    BytesOne(r);
    hide Bytes, Buf.Payload;
    Assoc(piece, r.Payload(), Bytes(rest));
  }

  lemma BytesOne(b: Buf)
    ensures Bytes([b]) == b.Payload()
  {
    Assoc(b.Payload(), [], []);
  }

  lemma PieceAndResidual(b: Buf, size: nat)
    requires b.FileOnly() && b.Readable() && 0 < size <= b.Available()
    ensures b.filePos + size <= |b.file|
    ensures b.Payload() == b.file[b.filePos..b.filePos + size] + b.(filePos := b.filePos + size).Payload()
  {
  }

  /** Every completion shrinks the work left: file bytes to read plus buffers queued. */
  lemma {:induction false} CutShrinks(chunk: nat, input: seq<Buf>)
    requires chunk > 0
    ensures var queued := Cut(chunk, input).1;
      FileBytes(queued) + |queued| <= FileBytes(input) + |input|
      && (queued != [] ==> FileBytes(queued) + |queued| < FileBytes(input) + |input|)
  {
    if input != [] {
      var b := input[0];
      if b.FileOnly() {
        CopiesSame(input[1..]);
        if b.Available() > 0 {
          var r := b.(filePos := b.filePos + Min(b.Available(), chunk));
          assert ([r] + Copies(input[1..]))[1..] == Copies(input[1..]);
        }
      } else {
        CutShrinks(chunk, input[1..]);
      }
    }
  }

  /** process, by its effect on bytes: it gives or starts reading the first part and queues the rest behind what is queued. */
  lemma {:induction false} ProcessCut<G>(guest: Guest<G>, chunk: nat, s: Stream<G>, input: seq<Buf>, out: seq<Buf>)
    requires chunk > 0 && Readable(input) && s.flight.None?
    ensures var s', (ahead, queued) := Process(guest, chunk, s, input, out), Cut(chunk, input);
      Given(s'.calls) + InFlight(s'.flight) == Given(s.calls) + ahead
      && s'.pending == s.pending + queued
      && (s'.flight.Some? ==> s'.flight.value.offset + s'.flight.value.size <= |s'.flight.value.file|)
    decreases |input|
  {
    if input != [] {
      var b := input[0];
      assert b in input && forall x :: x in input[1..] ==> x in input;
      var ahead := Cut(chunk, input[1..]).0;
      if b.FileOnly() {
        ScheduleCut(chunk, s, input, out);
      } else if (b.inMemory && (b.data != [] || b.Eof())) || (b.Special() && b.Eof()) {
        var (s', o) := RunChunk(guest, s, b, b.Payload(), b.Eof(), b);
        GivenSnoc(s.calls, Chunk(b.Payload(), b.Eof()));
        hide Given;
        ProcessCut(guest, chunk, s', input[1..], out + [o]);
        Assoc(Given(s.calls), b.Payload(), ahead);
      } else {
        hide Given;
        ProcessCut(guest, chunk, s, input[1..], out + [b]);
        Assoc(ahead, [], []);
      }
    }
  }

  lemma ScheduleCut<G>(chunk: nat, s: Stream<G>, input: seq<Buf>, out: seq<Buf>)
    requires chunk > 0 && input != [] && input[0].FileOnly() && input[0].Readable() && s.flight.None?
    ensures var s', (ahead, queued) := Schedule(chunk, s.(sent := s.sent + out), input).(buffered := true), Cut(chunk, input);
      Given(s'.calls) + InFlight(s'.flight) == Given(s.calls) + ahead
      && s'.pending == s.pending + queued
      && (s'.flight.Some? ==> s'.flight.value.offset + s'.flight.value.size <= |s'.flight.value.file|)
  {
  }

  // ---- Conservation, step by step

  /** More input than the queue can keep in order: buffers wait, but no read will ever wake them. */
  ghost predicate Stalled<G>(s: Stream<G>) { s.flight.None? && s.pending != [] }

  lemma CompleteConserves<G>(guest: Guest<G>, chunk: nat, s: Stream<G>)
    requires chunk > 0 && Sound(s) && s.flight.Some?
    ensures Sound(Complete(guest, chunk, s)) && Total(Complete(guest, chunk, s)) == Total(s)
  {
    var f := s.flight.value;
    var (s', o) := RunChunk(guest, s, f.Source(), f.Data(), f.lastBuf || f.lastInChain, f.Source().Replaced(f.Data()));
    var s1 := s'.(flight := None, pending := []);
    GivenSnoc(s.calls, Chunk(f.Data(), f.lastBuf || f.lastInChain));
    hide Given, Process, Cut;
    ProcessCut(guest, chunk, s1, s.pending, [o]);
    CutBytes(chunk, s.pending);
    var (ahead, queued) := Cut(chunk, s.pending);
    Assoc(Given(s1.calls), ahead, Bytes(queued));
    assert [] + queued == queued;
  }

  lemma FeedSound<G>(guest: Guest<G>, chunk: nat, s: Stream<G>, input: seq<Buf>)
    requires chunk > 0 && Sound(s) && Readable(input)
    ensures Sound(Feed(guest, chunk, s, input))
  {
    CopiesSame(input);
    if s.flight.None? {
      ProcessCut(guest, chunk, s, input, []);
      CutBytes(chunk, input);
    }
  }

  lemma FeedConserves<G>(guest: Guest<G>, chunk: nat, s: Stream<G>, input: seq<Buf>)
    requires chunk > 0 && Sound(s) && Readable(input) && !Stalled(s)
    ensures Total(Feed(guest, chunk, s, input)) == Total(s) + Bytes(input)
  {
    hide Given, Process, Cut, Sound;
    CopiesSame(input);
    if input == [] {
      Assoc(Total(s), [], []);
    } else if s.flight.Some? {
      BytesConcat(s.pending, Copies(input));
      Assoc(Given(s.calls) + InFlight(s.flight), Bytes(s.pending), Bytes(input));
    } else {
      ProcessCut(guest, chunk, s, input, []);
      CutBytes(chunk, input);
      var (ahead, queued) := Cut(chunk, input);
      assert [] + queued == queued;
      Assoc(Given(s.calls), ahead, Bytes(queued));
      Assoc(Given(s.calls), [], []);
    }
  }

  /** Feeding a stalled stream overtakes the queue: the order survives iff the overtaking bytes commute with the queued ones. */
  lemma StalledFeed<G>(guest: Guest<G>, chunk: nat, s: Stream<G>, input: seq<Buf>)
    requires chunk > 0 && Sound(s) && Readable(input) && Stalled(s)
    ensures var ahead := Cut(chunk, input).0;
      Total(Feed(guest, chunk, s, input)) == Total(s) + Bytes(input)
      <==> ahead + Bytes(s.pending) == Bytes(s.pending) + ahead
  {
    hide Given, Process, Cut, Sound, Bytes;
    var (ahead, queued) := Cut(chunk, input);
    var g, p, q := Given(s.calls), Bytes(s.pending), Bytes(queued);
    var s' := Feed(guest, chunk, s, input);
    if input == [] {
      EmptyCut(chunk);
      assert Bytes(input) == [] && ahead == [] by { EmptyCut(chunk); }
      Assoc(Total(s), [], []);
      Assoc(p, [], []);
    } else {
      ProcessCut(guest, chunk, s, input, []);
      CutBytes(chunk, input);
      BytesConcat(s.pending, queued);
      assert Total(s') == g + ahead + (p + q) && Total(s) + Bytes(input) == g + [] + p + (ahead + q);
      Swapped(g, ahead, p, q);
    }
  }

  lemma EmptyCut(chunk: nat)
    ensures Cut(chunk, []).0 == [] && Bytes([]) == []
  {
  }

  lemma Swapped(g: bytes, a: bytes, p: bytes, q: bytes)
    ensures g + a + (p + q) == g + [] + p + (a + q) <==> a + p == p + a
  {
    var l, r := g + a + (p + q), g + [] + p + (a + q);
    assert l == g + (a + p) + q && r == g + (p + a) + q;
    assert l[|g|..|g| + |a| + |p|] == a + p && r[|g|..|g| + |a| + |p|] == p + a;
  }

  // ---- Conservation over runs

  datatype Step = Feeding(input: seq<Buf>) | Completing

  function After<G>(guest: Guest<G>, chunk: nat, s: Stream<G>, step: Step): Stream<G> {
    match step
    case Feeding(input) => Feed(guest, chunk, s, input)
    case Completing => if s.flight.Some? then Complete(guest, chunk, s) else s
  }

  function Run<G>(guest: Guest<G>, chunk: nat, s: Stream<G>, steps: seq<Step>): Stream<G> {
    if steps == [] then s else After(guest, chunk, Run(guest, chunk, s, steps[..|steps| - 1]), steps[|steps| - 1])
  }

  function Fed(steps: seq<Step>): bytes {
    if steps == [] then []
    else Fed(steps[..|steps| - 1]) + match steps[|steps| - 1] case Feeding(input) => Bytes(input) case Completing => []
  }

  /** Readable input, and none of it while the stream is stalled. */
  ghost predicate Orderly<G>(guest: Guest<G>, chunk: nat, s: Stream<G>, steps: seq<Step>) {
    steps == [] ||
    var before, step := steps[..|steps| - 1], steps[|steps| - 1];
    Orderly(guest, chunk, s, before)
    && (step.Feeding? ==> Readable(step.input) && !Stalled(Run(guest, chunk, s, before)))
  }

  /** Whatever the mix of buffers and the chunk size: given ++ in flight ++ queued is all that was fed, in order. */
  lemma {:induction false} BytesConserved<G>(guest: Guest<G>, chunk: nat, s: Stream<G>, steps: seq<Step>)
    requires chunk > 0 && Sound(s) && Orderly(guest, chunk, s, steps)
    ensures Sound(Run(guest, chunk, s, steps)) && Total(Run(guest, chunk, s, steps)) == Total(s) + Fed(steps)
  {
    hide Sound, Total, Feed, Complete, Bytes, Readable, Stalled;
    if steps == [] {
      Assoc(Total(s), [], []);
    } else {
      var before, step := steps[..|steps| - 1], steps[|steps| - 1];
      BytesConserved(guest, chunk, s, before);
      var s1 := Run(guest, chunk, s, before);
      match step
      case Feeding(input) =>
        FeedConserves(guest, chunk, s1, input);
        FeedSound(guest, chunk, s1, input);
        Assoc(Total(s), Fed(before), Bytes(input));
      case Completing =>
        if s1.flight.Some? { CompleteConserves(guest, chunk, s1); }
        Assoc(Fed(before), [], []);
    }
  }
}
