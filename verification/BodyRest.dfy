/** When the body filter comes to rest with nothing queued, and whether the guest learns of the end, over whole runs. */
module BodyRest {
  import opened Basics
  import opened Order
  import opened BodyStream
  import opened BodyLaws
  import opened BodyDrain

  /** The buffers ahead of the first file buffer. */
  function Lead(bufs: seq<Buf>): seq<Buf> {
    if bufs == [] || bufs[0].FileOnly() then [] else [bufs[0]] + Lead(bufs[1..])
  }

  /** The first file buffer and all that follows it. */
  function Tail(bufs: seq<Buf>): seq<Buf> {
    if bufs == [] || bufs[0].FileOnly() then bufs else Tail(bufs[1..])
  }

  lemma {:induction false} LeadAndTail(bufs: seq<Buf>)
    ensures bufs == Lead(bufs) + Tail(bufs) && NoFiles(Lead(bufs)) && (Tail(bufs) != [] ==> Tail(bufs)[0].FileOnly())
  {
    if bufs != [] && !bufs[0].FileOnly() {
      LeadAndTail(bufs[1..]);
      assert bufs == [bufs[0]] + bufs[1..];
    }
  }

  predicate Marked(calls: seq<Chunk>) { exists c :: c in calls && c.eof }

  lemma MarkedConcat(a: seq<Chunk>, b: seq<Chunk>)
    ensures Marked(a + b) <==> Marked(a) || Marked(b)
  {
    if Marked(a) || Marked(b) {
      var c :| (c in a || c in b) && c.eof;
      assert c in a + b;
    }
  }

  /** Input that arrives now leaves something behind that no read will reach. */
  predicate Strands<G>(s: Stream<G>, input: seq<Buf>) {
    if s.flight.Some? then input != [] else |Tail(input)| > 1
  }

  /** Input that arrives now carries an end mark that the guest gets to see. */
  predicate Marks<G>(s: Stream<G>, input: seq<Buf>) {
    s.flight.None? && (Marked(CallsOf(Lead(input))) || (Tail(input) != [] && Tail(input)[0].Eof() && Tail(input)[0].Available() > 0))
  }

  /** Some input of the run left something behind. */
  predicate Stranding<G>(guest: Guest<G>, chunk: nat, s: Stream<G>, steps: seq<Step>) {
    steps != [] &&
    var before, step := steps[..|steps| - 1], steps[|steps| - 1];
    Stranding(guest, chunk, s, before) || (step.Feeding? && Strands(Run(guest, chunk, s, before), step.input))
  }

  /** Some input of the run carried an end mark in time. */
  predicate Marking<G>(guest: Guest<G>, chunk: nat, s: Stream<G>, steps: seq<Step>) {
    steps != [] &&
    var before, step := steps[..|steps| - 1], steps[|steps| - 1];
    Marking(guest, chunk, s, before) || (step.Feeding? && Marks(Run(guest, chunk, s, before), step.input))
  }

  /** At rest the queue tells whether input was stranded; during a read its first element is the rest of the file being read. */
  predicate Tracks<G>(s: Stream<G>, stranded: bool, marked: bool) {
    match s.flight
    case None => (s.pending != [] <==> stranded) && (Marked(s.calls) <==> marked)
    case Some(f) =>
      && s.pending != [] && s.pending[0].FileOnly()
      && (|s.pending| > 1 <==> stranded)
      && ((f.lastBuf || f.lastInChain) <==> s.pending[0].Eof() && s.pending[0].Available() == 0)
      && (Marked(s.calls) || s.pending[0].Eof() <==> marked)
  }

  /** Scheduling the first of `input`, a file buffer, on an idle stream. */
  lemma ScheduleTracks<G>(chunk: nat, s: Stream<G>, input: seq<Buf>, marked: bool)
    requires chunk > 0 && s.flight.None? && s.pending == [] && input != [] && input[0].FileOnly()
    requires Marked(s.calls) || (input[0].Eof() && input[0].Available() > 0) <==> marked
    ensures Tracks(Schedule(chunk, s, input), |input| > 1, marked)
  {
    CopiesSame(input[1..]);
  }

  lemma FeedTracks<G>(guest: Guest<G>, chunk: nat, s: Stream<G>, input: seq<Buf>, stranded: bool, marked: bool)
    requires chunk > 0 && Tracks(s, stranded, marked) && !Stalled(s)
    ensures Tracks(Feed(guest, chunk, s, input), stranded || Strands(s, input), marked || Marks(s, input))
  {
    if input == [] {
      assert CallsOf(Lead(input)) == [];
    } else if s.flight.Some? {
      CopiesSame(input);
    } else {
      var lead, tail := Lead(input), Tail(input);
      LeadAndTail(input);
      ProcessThrough(guest, chunk, s, lead, tail, []);
      MarkedConcat(s.calls, CallsOf(lead));
      var (s1, out) := Through(guest, s, lead, []);
      if tail != [] {
        ScheduleTracks(chunk, s1.(sent := s1.sent + out), tail, marked || Marks(s, input));
        assert tail == [tail[0]] + tail[1..];
        FileFirst(guest, chunk, s1, tail[0], tail[1..], out);
      }
    }
  }

  lemma CompleteTracks<G>(guest: Guest<G>, chunk: nat, s: Stream<G>, stranded: bool, marked: bool)
    requires chunk > 0 && s.flight.Some? && Tracks(s, stranded, marked)
    ensures Tracks(Complete(guest, chunk, s), stranded, marked)
  {
    var f := s.flight.value;
    var c := Chunk(f.Data(), f.lastBuf || f.lastInChain);
    var (s1, o) := RunChunk(guest, s, f.Source(), c.data, c.eof, f.Source().Replaced(c.data));
    var s2 := s1.(flight := None, pending := []);
    MarkedConcat(s.calls, [c]);
    assert Marked([c]) <==> c.eof by { assert c in [c]; }
    ScheduleTracks(chunk, s2.(sent := s2.sent + [o]), s.pending, marked);
    assert s.pending == [s.pending[0]] + s.pending[1..];
    FileFirst(guest, chunk, s2, s.pending[0], s.pending[1..], [o]);
  }

  /**
   * An orderly run from an idle stream that ends with no read in flight has emptied the queue if and only if every
   * input came while no read was in flight and had nothing behind its first file buffer. The guest has been told of the
   * end if and only if a mark came while no read was in flight, ahead of the first file buffer or on it and it not empty.
   */
  lemma {:induction false} RunRests<G>(guest: Guest<G>, chunk: nat, s: Stream<G>, steps: seq<Step>)
    requires chunk > 0 && s.flight.None? && s.pending == [] && Orderly(guest, chunk, s, steps)
    ensures Tracks(Run(guest, chunk, s, steps), Stranding(guest, chunk, s, steps), Marked(s.calls) || Marking(guest, chunk, s, steps))
  {
    if steps != [] {
      var before, step := steps[..|steps| - 1], steps[|steps| - 1];
      var z := Run(guest, chunk, s, before);
      RunRests(guest, chunk, s, before);
      var stranded, marked := Stranding(guest, chunk, s, before), Marked(s.calls) || Marking(guest, chunk, s, before);
      hide Feed, Complete, Tracks, Strands, Marks;
      match step
      case Feeding(input) => FeedTracks(guest, chunk, z, input, stranded, marked);
      case Completing => if z.flight.Some? { CompleteTracks(guest, chunk, z, stranded, marked); }
    }
  }

  // ---- One callback from any state, a stalled one included

  /** Whether a read is under way after input that finds none: exactly if its first file buffer has bytes to read. */
  lemma ReadBegins<G>(guest: Guest<G>, chunk: nat, s: Stream<G>, input: seq<Buf>)
    requires chunk > 0 && s.flight.None?
    ensures var tail := Tail(input);
      && (Feed(guest, chunk, s, input).flight.Some? <==> tail != [] && tail[0].Available() > 0)
      && (tail == [] ==> Feed(guest, chunk, s, input).pending == s.pending)
      && (tail != [] && tail[0].Available() == 0 ==> Feed(guest, chunk, s, input).pending == s.pending + Copies(tail[1..]))
  {
    var lead, tail := Lead(input), Tail(input);
    LeadAndTail(input);
    ProcessThrough(guest, chunk, s, lead, tail, []);
    var (s1, out) := Through(guest, s, lead, []);
    if tail != [] {
      assert tail == [tail[0]] + tail[1..];
      FileFirst(guest, chunk, s1, tail[0], tail[1..], out);
    }
  }

  lemma CompletionRests<G>(guest: Guest<G>, chunk: nat, s: Stream<G>)
    requires chunk > 0 && s.flight.Some? && Complete(guest, chunk, s).flight.None?
    ensures Complete(guest, chunk, s).pending == [] <==> |Tail(s.pending)| <= 1
  {
    var f := s.flight.value;
    var (s1, o) := RunChunk(guest, s, f.Source(), f.Data(), f.lastBuf || f.lastInChain, f.Source().Replaced(f.Data()));
    var s2 := s1.(flight := None, pending := []);
    var lead, tail := Lead(s.pending), Tail(s.pending);
    LeadAndTail(s.pending);
    ProcessThrough(guest, chunk, s2, lead, tail, [o]);
    var (s3, out) := Through(guest, s2, lead, [o]);
    hide Through, RunChunk, CallsOf, Copies, Process, NoFiles, Lead, Tail;
    if tail != [] {
      assert tail == [tail[0]] + tail[1..];
      FileFirst(guest, chunk, s3, tail[0], tail[1..], out);
      CopiesSame(tail[1..]);
    }
  }

  /**
   * Any callback that ends with no read in flight leaves the queue empty exactly if it was empty before, not counting
   * what a completed read takes up, and nothing came behind the first file buffer that the callback met.
   */
  lemma RestsAfter<G>(guest: Guest<G>, chunk: nat, s: Stream<G>, step: Step)
    requires chunk > 0 && After(guest, chunk, s, step).flight.None?
    ensures After(guest, chunk, s, step).pending == [] <==>
      match step
      case Feeding(input) => s.pending == [] && |Tail(input)| <= 1
      case Completing => |Tail(s.pending)| <= 1 && (s.flight.None? ==> s.pending == [])
  {
    match step
    case Feeding(input) =>
      if s.flight.None? {
        ReadBegins(guest, chunk, s, input);
        if Tail(input) != [] { CopiesSame(Tail(input)[1..]); }
      }
    case Completing => if s.flight.Some? { CompletionRests(guest, chunk, s); }
  }

  // ---- Input that comes while a file is being read

  /**
   * While `b` is being read, whatever else arrives joins what already followed it: the file is read to its end as if
   * nothing had come, then all of it is queued with no read to reach it, and an end mark on it is never seen.
   */
  lemma LateInput<G>(guest: Guest<G>, chunk: nat, s: Stream<G>, b: Buf, post: seq<Buf>, more: seq<Buf>)
    requires chunk > 0 && s.flight.None? && s.pending == [] && b.FileOnly() && b.Readable() && b.Available() > 0
    requires Readable(post) && Readable(more)
    ensures var s0 := Feed(guest, chunk, Schedule(chunk, s, [b] + post), more);
      Sound(s0)
      && var (s', count) := Drain(guest, chunk, s0);
      s'.pending == Copies(post + more) && (s'.buffered <==> post + more != [])
      && s'.calls == s.calls + ChunkCalls(b.Payload(), chunk, b.Eof())
      && count == CeilDiv(b.Available(), chunk)
      && (NoEof(s.calls) && !b.Eof() ==> NoEof(s'.calls))
  {
    hide Schedule, Feed, Drain, ChunkCalls, Copies, Given, Sound, NoEof, Buf.Payload;
    var all := Schedule(chunk, s, [b] + (post + more));
    LateJoins(guest, chunk, s, b, post, more);
    FirstScheduled(chunk, s, b, post + more);
    ReadLoop(guest, chunk, s, b, post + more);
    BufferedIsLost(guest, chunk, all, Feed(guest, chunk, Schedule(chunk, s, [b] + post), more).buffered);
    ChunkCallsShape(b.Payload(), chunk, b.Eof());
    if NoEof(s.calls) { LastMark(s.calls, ChunkCalls(b.Payload(), chunk, b.Eof()), b.Eof()); }
  }

  lemma LateJoins<G>(guest: Guest<G>, chunk: nat, s: Stream<G>, b: Buf, post: seq<Buf>, more: seq<Buf>)
    requires chunk > 0 && s.flight.None? && s.pending == [] && b.FileOnly() && b.Readable() && b.Available() > 0
    requires Readable(post) && Readable(more)
    ensures var s0 := Feed(guest, chunk, Schedule(chunk, s, [b] + post), more);
      s0 == Schedule(chunk, s, [b] + (post + more)).(buffered := s0.buffered)
      && Sound(s0) && s0.flight.Some? && Readable(post + more)
  {
    FirstScheduled(chunk, s, b, post);
    FirstScheduled(chunk, s, b, post + more);
    CopiesConcat(post, more);
    hide Schedule, Copies, Sound, Buf.Payload;
    var r := b.(filePos := b.filePos + Min(b.Available(), chunk));
    assert [r] + Copies(post) + Copies(more) == [r] + (Copies(post) + Copies(more));
    if more == [] { assert post + more == post; }
  }

  lemma {:induction false} CopiesConcat(a: seq<Buf>, b: seq<Buf>)
    ensures Copies(a + b) == Copies(a) + Copies(b)
  {
    if a == [] {
      assert a + b == b;
    } else {
      assert (a + b)[1..] == a[1..] + b;
      CopiesConcat(a[1..], b);
    }
  }

  // ---- A body that arrives out of order

  function Silent(): Guest<()> { (g: (), data: bytes, eof: bool) => (g, None) }

  function Memory(data: bytes): Buf { Buf(true, data, false, [], 0, 0, false, false, false, false) }

  function File(data: bytes): Buf { Buf(false, [], true, data, 0, |data|, false, false, false, false) }

  /** A file of one byte that is read at once, with `b` behind it: first the read, then the completion. */
  lemma OneByte(x: byte, b: Buf)
    requires !b.FileOnly()
    ensures var s0 := Stream((), [], [], None, [], false);
      var s1 := Feed(Silent(), 16, s0, [File([x]), b]);
      s1.flight.Some? && var s2 := Complete(Silent(), 16, s1);
      s2.flight.None? && s2.pending == [b.Copy()] && s2.calls == [Chunk([x], false)]
  {
    var s0, f := Stream((), [], [], None, [], false), File([x]);
    var s1 := Feed(Silent(), 16, s0, [f, b]);
    assert [] + [f] + [b] == [f, b] && [b][1..] == [];
    FileChain(Silent(), 16, s0, [], f, [b]);
    assert f.Payload() == [x] && ChunkCalls([x], 16, false) == [Chunk([x], false)] && CallsOf([]) == [];
    assert Copies([b]) == [b.Copy()];
    var (z, count) := Drain(Silent(), 16, s1);
    assert count == 1 && z.calls == [Chunk([x], false)];
    CompleteShrinks(Silent(), 16, s1);
    hide Complete, Feed, ChunkCalls, Copies, FileBytes;
  }

  /** "a" from a file with "b" behind it, and "c" once the file is read: the guest gets "ac", while "b" stays queued. */
  lemma Overtaken()
    ensures var s0 := Stream((), [], [], None, [], false);
      var steps := [Feeding([File([97]), Memory([98])]), Completing, Feeding([Memory([99])])];
      var s := Run(Silent(), 16, s0, steps);
      Given(s.calls) == [97, 99] && s.flight.None? && s.pending == [Memory([98])] && Fed(steps) == [97, 98, 99]
  {
    var s0 := Stream((), [], [], None, [], false);
    var x, z := Feeding([File([97]), Memory([98])]), Feeding([Memory([99])]);
    var steps := [x, Completing, z];
    OneByte(97, Memory([98]));
    var s2 := Complete(Silent(), 16, Feed(Silent(), 16, s0, x.input));
    RunThree(Silent(), 16, s0, x, z);
    LateByte(s2, 99);
    FedBytes(x.input, z.input, steps);
  }

  lemma RunThree<G>(guest: Guest<G>, chunk: nat, s: Stream<G>, x: Step, z: Step)
    ensures var s1 := After(guest, chunk, s, x);
      var s2 := After(guest, chunk, s1, Completing);
      Run(guest, chunk, s, [x, Completing, z]) == After(guest, chunk, s2, z)
  {
    hide After;
    var l := [x, Completing, z];
    assert l[..2] == [x, Completing] && l[..2][..1] == [x] && [x][..0] == [];
    assert Run(guest, chunk, s, [x]) == After(guest, chunk, s, x);
    assert Run(guest, chunk, s, l[..2]) == After(guest, chunk, After(guest, chunk, s, x), Completing);
  }

  lemma LateByte(s: Stream<()>, x: byte)
    requires s.flight.None? && s.calls == [Chunk([97], false)]
    ensures var z := Feed(Silent(), 16, s, [Memory([x])]);
      z.flight.None? && z.pending == s.pending && Given(z.calls) == [97, x]
  {
    var c := [Memory([x])];
    assert c + [] == c;
    OneMemory(Memory([x]));
    ReadBegins(Silent(), 16, s, c);
    ProcessThrough(Silent(), 16, s, c, [], []);
    GivenSnoc([], Chunk([97], false));
    GivenSnoc(s.calls, Chunk([x], false));
    assert [] + [Chunk([97], false)] == s.calls;
  }

  lemma OneMemory(b: Buf)
    requires b.inMemory && b.data != []
    ensures Tail([b]) == [] && CallsOf([b]) == [Chunk(b.data, b.Eof())]
  {
    var c := [b];
    assert c[1..] == [];
    assert CallsOf(c) == [Chunk(b.data, b.Eof())] + CallsOf(c[1..]);
  }

  lemma FedBytes(a: seq<Buf>, c: seq<Buf>, steps: seq<Step>)
    requires a == [File([97]), Memory([98])] && c == [Memory([99])] && steps == [Feeding(a), Completing, Feeding(c)]
    ensures Fed(steps) == [97, 98, 99]
  {
    assert steps[..2] == [Feeding(a), Completing] && steps[..2][..1] == [Feeding(a)] && [Feeding(a)][..0] == [];
    assert a[1..] == [Memory([98])] && a[1..][1..] == [] && c[1..] == [];
    assert Fed(steps[..1]) == Bytes(a) && Fed(steps[..2]) == Bytes(a) by {
      assert steps[..1] == [Feeding(a)] && steps[..2][..1] == steps[..1] && steps[..1][..0] == [];
      Assoc(Bytes(a), [], []);
    }
    assert Bytes(c) == [99] && Bytes(a[1..]) == [98] && Bytes(a) == [97, 98];
  }
}
