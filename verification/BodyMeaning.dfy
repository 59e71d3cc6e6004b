/** Splitting the body into chunks does not change what a streaming guest makes of it. */
module BodyMeaning {
  import opened Basics
  import opened Order
  import opened BodyStream
  import opened BodyLaws
  import opened BodyDrain
  import opened BodyInput

  /** What a call makes of its chunk: the output, or without one the chunk itself. */
  function Made<G>(guest: Guest<G>, g: G, data: bytes, eof: bool): (G, bytes) {
    var (g', out) := guest(g, data, eof);
    (g', if out.Some? then out.value else data)
  }

  /** The guest's state and all downstream bytes after a series of calls. */
  function Play<G>(guest: Guest<G>, g: G, calls: seq<Chunk>): (G, bytes) {
    if calls == [] then (g, [])
    else
      var (g1, o1) := Play(guest, g, calls[..|calls| - 1]);
      var c := calls[|calls| - 1];
      var (g2, o2) := Made(guest, g1, c.data, c.eof);
      (g2, o1 + o2)
  }

  /** The stream has sent downstream exactly what its guest made of its calls. */
  ghost predicate Faithful<G>(guest: Guest<G>, g0: G, s: Stream<G>, out: seq<Buf>) {
    Play(guest, g0, s.calls) == (s.state, Bytes(s.sent) + Bytes(out))
  }

  lemma ChunkFaithful<G>(guest: Guest<G>, g0: G, s: Stream<G>, out: seq<Buf>, b: Buf, data: bytes, eof: bool, pass: Buf)
    requires Faithful(guest, g0, s, out) && pass.Payload() == data
    ensures var (s', o) := RunChunk(guest, s, b, data, eof, pass); Faithful(guest, g0, s', out + [o])
  {
    var (s', o) := RunChunk(guest, s, b, data, eof, pass);
    assert s'.calls[..|s'.calls| - 1] == s.calls;
    PassFaithful(out, o);
    Assoc(Bytes(s.sent), Bytes(out), o.Payload());
  }

  lemma PassFaithful(out: seq<Buf>, b: Buf)
    ensures Bytes(out + [b]) == Bytes(out) + b.Payload()
  {
    BytesConcat(out, [b]);
    assert [b][1..] == [];
    Assoc(b.Payload(), [], []);
  }

  lemma SentFaithful<G>(guest: Guest<G>, g0: G, s: Stream<G>, out: seq<Buf>)
    requires Faithful(guest, g0, s, out)
    ensures Faithful(guest, g0, s.(sent := s.sent + out), [])
  {
    BytesConcat(s.sent, out);
    Assoc(Bytes(s.sent + out), [], []);
  }

  lemma {:induction false} ProcessFaithful<G>(guest: Guest<G>, chunk: nat, g0: G, s: Stream<G>, input: seq<Buf>, out: seq<Buf>)
    requires chunk > 0 && Faithful(guest, g0, s, out)
    ensures Faithful(guest, g0, Process(guest, chunk, s, input, out), [])
    decreases |input|
  {
    hide Play, Bytes;
    SentFaithful(guest, g0, s, out);
    if input == [] {
      assert s.sent + [] == s.sent;
    } else {
      var b := input[0];
      if b.FileOnly() {
      } else if (b.inMemory && (b.data != [] || b.Eof())) || (b.Special() && b.Eof()) {
        var data := if b.inMemory then b.data else [];
        ChunkFaithful(guest, g0, s, out, b, data, b.Eof(), b);
        var (s', o) := RunChunk(guest, s, b, data, b.Eof(), b);
        ProcessFaithful(guest, chunk, g0, s', input[1..], out + [o]);
      } else {
        PassFaithful(out, b);
        Assoc(Bytes(s.sent), Bytes(out), []);
        Assoc(Bytes(out), [], []);
        ProcessFaithful(guest, chunk, g0, s, input[1..], out + [b]);
      }
    }
  }

  lemma {:induction false} RunFaithful<G>(guest: Guest<G>, chunk: nat, g0: G, s: Stream<G>, steps: seq<Step>)
    requires chunk > 0 && Faithful(guest, g0, s, [])
    ensures Faithful(guest, g0, Run(guest, chunk, s, steps), [])
  {
    if steps != [] {
      RunFaithful(guest, chunk, g0, s, steps[..|steps| - 1]);
      StepFaithful(guest, chunk, g0, Run(guest, chunk, s, steps[..|steps| - 1]), steps[|steps| - 1]);
    }
  }

  /** After every callback, downstream has exactly the guest's output so far. */
  lemma StepFaithful<G>(guest: Guest<G>, chunk: nat, g0: G, s: Stream<G>, step: Step)
    requires chunk > 0 && Faithful(guest, g0, s, [])
    ensures Faithful(guest, g0, After(guest, chunk, s, step), [])
  {
    hide Play, Bytes;
    match step
    case Feeding(input) =>
      if input != [] && s.flight.None? { ProcessFaithful(guest, chunk, g0, s, input, []); }
    case Completing =>
      if s.flight.Some? {
        var f := s.flight.value;
        ChunkFaithful(guest, g0, s, [], f.Source(), f.Data(), f.lastBuf || f.lastInChain, f.Source().Replaced(f.Data()));
        var (s', o) := RunChunk(guest, s, f.Source(), f.Data(), f.lastBuf || f.lastInChain, f.Source().Replaced(f.Data()));
        assert [] + [o] == [o];
        ProcessFaithful(guest, chunk, g0, s'.(flight := None, pending := []), s.pending, [o]);
      }
  }

  // ---- Streaming guests

  /** A guest that works byte by byte and may add a tail at the end of the body. */
  datatype Machine<!G> = Machine(step: (G, byte) -> (G, bytes), finish: G -> (G, bytes))

  function Consume<G>(m: Machine<G>, g: G, data: bytes): (G, bytes) {
    if data == [] then (g, [])
    else
      var (g1, o1) := Consume(m, g, data[..|data| - 1]);
      var (g2, o2) := m.step(g1, data[|data| - 1]);
      (g2, o1 + o2)
  }

  /** The machine on a whole body, with or without its end. */
  function Whole<G>(m: Machine<G>, g: G, data: bytes, eof: bool): (G, bytes) {
    var (g1, o1) := Consume(m, g, data);
    if eof then (var (g2, o2) := m.finish(g1); (g2, o1 + o2)) else (g1, o1)
  }

  /** The guest works like this machine; where the machine would copy, it may as well set no output. */
  ghost predicate Streams<G(!new)>(guest: Guest<G>, m: Machine<G>) {
    forall g, data, eof :: Made(guest, g, data, eof) == Whole(m, g, data, eof)
  }

  lemma {:induction false} ConsumeConcat<G>(m: Machine<G>, g: G, a: bytes, b: bytes)
    ensures var (g1, o1) := Consume(m, g, a); var (g2, o2) := Consume(m, g1, b);
      Consume(m, g, a + b) == (g2, o1 + o2)
    decreases |b|
  {
    if b == [] {
      assert a + b == a;
      Assoc(Consume(m, g, a).1, [], []);
    } else {
      ConsumeConcat(m, g, a, b[..|b| - 1]);
      assert (a + b)[..|a + b| - 1] == a + b[..|b| - 1];
      var (g1, o1) := Consume(m, g, a);
      var (g2, o2) := Consume(m, g1, b[..|b| - 1]);
      Assoc(o1, o2, m.step(g2, b[|b| - 1]).1);
    }
  }

  /** However the body is cut into calls, the machine makes of them what it makes of the whole. */
  lemma {:induction false} PlayWhole<G(!new)>(guest: Guest<G>, m: Machine<G>, g: G, calls: seq<Chunk>)
    requires Streams(guest, m) && EofLast(calls)
    ensures Play(guest, g, calls) == Whole(m, g, Given(calls), Ended(calls))
  {
    if calls != [] {
      var before, c := calls[..|calls| - 1], calls[|calls| - 1];
      assert !Ended(before) by { if before != [] { assert before[|before| - 1] == calls[|before| - 1]; } }
      PlayWhole(guest, m, g, before);
      ConsumeConcat(m, g, Given(before), c.data);
      var (g1, o1) := Consume(m, g, Given(before));
      assert Made(guest, g1, c.data, c.eof) == Whole(m, g1, c.data, c.eof);
      var (g2, o2) := Consume(m, g1, c.data);
      if c.eof { Assoc(o1, o2, m.finish(g2).1); }
    }
  }

  /**
   * Any orderly run from a fresh stream that has drained, whatever its chunk size and its mix of buffers, has sent
   * downstream what the machine makes of the whole fed body.
   */
  lemma ChunkingKeepsMeaning<G(!new)>(guest: Guest<G>, m: Machine<G>, chunk: nat, g0: G, steps: seq<Step>)
    requires chunk > 0 && Streams(guest, m)
    requires var s0 := Stream(g0, [], [], None, [], false);
      Orderly(guest, chunk, s0, steps)
      && var s := Run(guest, chunk, s0, steps); s.flight.None? && s.pending == [] && EofLast(s.calls)
    ensures var s := Run(guest, chunk, Stream(g0, [], [], None, [], false), steps);
      (s.state, Bytes(s.sent)) == Whole(m, g0, Fed(steps), Ended(s.calls))
  {
    var s0 := Stream(g0, [], [], None, [], false);
    var s := Run(guest, chunk, s0, steps);
    assert Bytes(s0.sent) + Bytes([]) == [];
    RunFaithful(guest, chunk, g0, s0, steps);
    BytesConserved(guest, chunk, s0, steps);
    Assoc(Given(s.calls), [], []);
    Assoc(Fed(steps), [], []);
    Assoc(Bytes(s.sent), [], []);
    PlayWhole(guest, m, g0, s.calls);
  }

  /** A guest that never sets an output passes every byte through unchanged, on any run at all. */
  lemma {:induction false} SilentGuestIsIdentity<G(!new)>(guest: Guest<G>, g: G, calls: seq<Chunk>)
    requires forall g, data, eof :: guest(g, data, eof).1 == None
    ensures Play(guest, g, calls).1 == Given(calls)
  {
    if calls != [] {
      SilentGuestIsIdentity(guest, g, calls[..|calls| - 1]);
      var c, g1 := calls[|calls| - 1], Play(guest, g, calls[..|calls| - 1]).0;
      assert guest(g1, c.data, c.eof).1 == None;
    }
  }

  /**
    * A guest that never sets an output, over any orderly run from a fresh filter: what has gone downstream, what is being
    * read and what is queued make up the body as it was fed.
    */
  lemma SilentRun<G(!new)>(guest: Guest<G>, chunk: nat, g0: G, steps: seq<Step>)
    requires chunk > 0 && (forall g, data, eof :: guest(g, data, eof).1 == None)
    requires Orderly(guest, chunk, Stream(g0, [], [], None, [], false), steps)
    ensures var s := Run(guest, chunk, Stream(g0, [], [], None, [], false), steps);
      Bytes(s.sent) + InFlight(s.flight) + Bytes(s.pending) == Fed(steps)
  {
    var s0 := Stream(g0, [], [], None, [], false);
    var s := Run(guest, chunk, s0, steps);
    assert Bytes(s0.sent) + Bytes([]) == [];
    RunFaithful(guest, chunk, g0, s0, steps);
    BytesConserved(guest, chunk, s0, steps);
    SilentGuestIsIdentity(guest, g0, s.calls);
    Assoc(Bytes(s.sent), [], []);
    Assoc(Fed(steps), [], []);
  }

  // ---- A whole body, end to end

  /**
    * Every condition is on the input: it comes in order, every read it asks for has completed, nothing is left behind, and
    * no buffer but the last has an end mark. Then the guest has had the calls foreseen, nothing is pending, and downstream
    * has what the machine makes of the whole body, with its end exactly if the last buffer brings it to the guest.
    */
  lemma WholeBody<G(!new)>(guest: Guest<G>, m: Machine<G>, chunk: nat, g0: G, steps: seq<Step>)
    requires chunk > 0 && Streams(guest, m) && InOrder(chunk, steps) && MarkLast(FedBufs(steps))
    requires Foresee(chunk, steps).toRead == 0 && !Foresee(chunk, steps).stranded
    ensures var s := Run(guest, chunk, Stream(g0, [], [], None, [], false), steps);
      && s.flight.None? && s.pending == [] && s.calls == Foresee(chunk, steps).calls
      && (s.state, Bytes(s.sent)) == Whole(m, g0, Fed(steps), EndsBody(FedBufs(steps)))
  {
    RunMeets(guest, chunk, Stream(g0, [], [], None, [], false), steps);
    EndForeseen(chunk, steps);
    MarkedLast(Foresee(chunk, steps).calls, EndsBody(FedBufs(steps)));
    hide Run, Whole, Bytes, Orderly, InOrder, Foresee, Fed, FedBufs, EndsBody;
    ChunkingKeepsMeaning(guest, m, chunk, g0, steps);
  }

  // ---- A whole file, end to end

  lemma {:induction false} RunCons<G>(guest: Guest<G>, chunk: nat, s: Stream<G>, step: Step, steps: seq<Step>)
    ensures Run(guest, chunk, s, [step] + steps) == Run(guest, chunk, After(guest, chunk, s, step), steps)
    decreases |steps|
  {
    var l := [step] + steps;
    if steps == [] {
      assert l[..|l| - 1] == [];
    } else {
      assert l[..|l| - 1] == [step] + steps[..|steps| - 1];
      RunCons(guest, chunk, s, step, steps[..|steps| - 1]);
    }
  }

  function Completions(n: nat): seq<Step> { if n == 0 then [] else [Completing] + Completions(n - 1) }

  /** Draining is a run of completions, as many as it counts. */
  lemma {:induction false} DrainIsRun<G>(guest: Guest<G>, chunk: nat, s: Stream<G>)
    requires chunk > 0 && Sound(s)
    ensures var (z, count) := Drain(guest, chunk, s); Run(guest, chunk, s, Completions(count)) == z
    decreases s.flight.Some?, Work(s.pending)
  {
    if s.flight.Some? {
      CompleteShrinks(guest, chunk, s);
      var z := Complete(guest, chunk, s);
      DrainIsRun(guest, chunk, z);
      RunCons(guest, chunk, s, Completing, Completions(Drain(guest, chunk, z).1));
    }
  }

  lemma {:induction false} OneFeed<G>(guest: Guest<G>, chunk: nat, s: Stream<G>, input: seq<Buf>, n: nat)
    requires !Stalled(s) && Readable(input)
    ensures var steps := [Feeding(input)] + Completions(n);
      Orderly(guest, chunk, s, steps) && Fed(steps) == Bytes(input)
  {
    hide Bytes, Readable;
    var steps := [Feeding(input)] + Completions(n);
    if n == 0 {
      hide Feed, Complete;
      assert steps[..|steps| - 1] == [];
      Assoc(Bytes(input), [], []);
    } else {
      OneFeed(guest, chunk, s, input, n - 1);
      CompletionsLast(n);
      hide Run, Completions;
      assert steps[..|steps| - 1] == [Feeding(input)] + Completions(n - 1);
      Assoc(Bytes(input), [], []);
    }
  }

  lemma {:induction false} CompletionsLast(n: nat)
    requires n > 0
    ensures |Completions(n)| == n && Completions(n)[n - 1] == Completing && Completions(n)[..n - 1] == Completions(n - 1)
  {
    if n > 1 {
      CompletionsLast(n - 1);
      assert Completions(n)[..n - 1] == [Completing] + Completions(n - 1)[..n - 2];
    }
  }

  /** Such a chain, drained: how many reads, and how the guest's calls are marked. */
  lemma WholeFileDrains<G>(guest: Guest<G>, chunk: nat, s: Stream<G>, pre: seq<Buf>, f: Buf)
    requires chunk > 0 && s.flight.None? && s.pending == [] && s.calls == []
    requires NoFiles(pre) && f.FileOnly() && Readable(pre + [f]) && forall b :: b in pre ==> !b.Eof()
    ensures Sound(Feed(guest, chunk, s, pre + [f]))
    ensures var (z, count) := Drain(guest, chunk, Feed(guest, chunk, s, pre + [f]));
      z.pending == [] && count == CeilDiv(f.Available(), chunk) && MarksEnd(z.calls, f.Eof() && f.Available() > 0)
  {
    hide Drain, Feed, CallsOf, ChunkCalls, CeilDiv, Sound, Copies;
    assert pre + [f] + [] == pre + [f];
    NoMarksAhead(pre);
    assert s.calls + CallsOf(pre) == CallsOf(pre);
    FileChain(guest, chunk, s, pre, f, []);
    EofOnce(guest, chunk, s, pre, f);
  }

  /** The run of such a chain: drained, and the guest's calls marked as they should be. */
  lemma WholeFileRuns<G>(guest: Guest<G>, chunk: nat, g0: G, pre: seq<Buf>, f: Buf)
    requires chunk > 0 && NoFiles(pre) && f.FileOnly() && Readable(pre + [f]) && forall b :: b in pre ==> !b.Eof()
    ensures var s0 := Stream(g0, [], [], None, [], false);
      var s := Run(guest, chunk, s0, [Feeding(pre + [f])] + Completions(CeilDiv(f.Available(), chunk)));
      s.flight.None? && s.pending == [] && EofLast(s.calls) && (Ended(s.calls) <==> f.Eof() && f.Available() > 0)
  {
    hide Run, Drain, Feed, Completions, CeilDiv, EofLast, Ended, Sound, MarksEnd, NoFiles, Readable;
    var s0, n := Stream(g0, [], [], None, [], false), CeilDiv(f.Available(), chunk);
    var s1 := Feed(guest, chunk, s0, pre + [f]);
    WholeFileDrains(guest, chunk, s0, pre, f);
    DrainIsRun(guest, chunk, s1);
    RunCons(guest, chunk, s0, Feeding(pre + [f]), Completions(n));
    MarkedLast(Drain(guest, chunk, s1).0.calls, f.Eof() && f.Available() > 0);
  }

  /**
   * End to end: a chain of memory buffers and one last file buffer, fed to a fresh filter. After ceil(length / chunk)
   * completed reads nothing is pending, and downstream has what the machine makes of the whole body, with its end if
   * the file buffer carries the mark and is not empty.
   */
  lemma WholeFile<G(!new)>(guest: Guest<G>, m: Machine<G>, chunk: nat, g0: G, pre: seq<Buf>, f: Buf)
    requires chunk > 0 && Streams(guest, m) && NoFiles(pre) && f.FileOnly() && Readable(pre + [f])
    requires forall b :: b in pre ==> !b.Eof()
    ensures var steps := [Feeding(pre + [f])] + Completions(CeilDiv(f.Available(), chunk));
      var s := Run(guest, chunk, Stream(g0, [], [], None, [], false), steps);
      && s.flight.None? && s.pending == []
      && (s.state, Bytes(s.sent)) == Whole(m, g0, Bytes(pre + [f]), f.Eof() && f.Available() > 0)
  {
    var s0, n := Stream(g0, [], [], None, [], false), CeilDiv(f.Available(), chunk);
    WholeFileRuns(guest, chunk, g0, pre, f);
    OneFeed(guest, chunk, s0, pre + [f], n);
    hide Run, Whole, Bytes, Orderly, Completions, EofLast, Ended, CeilDiv;
    ChunkingKeepsMeaning(guest, m, chunk, g0, [Feeding(pre + [f])] + Completions(n));
  }
}
