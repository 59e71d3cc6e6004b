/** What a run of the body filter comes to, told from its input alone. */
module BodyInput {
  import opened Basics
  import opened BodyStream
  import opened BodyLaws
  import opened BodyDrain
  import opened BodyRest

  /** The reads that are still to complete, all that the guest is or will be called with, and whether anything is left behind. */
  datatype Outlook = Outlook(toRead: nat, calls: seq<Chunk>, stranded: bool)

  /** The reads and the calls that a chain asks for, up to the end of its first file buffer. */
  function ReadsOf(chunk: nat, input: seq<Buf>): nat
    requires chunk > 0
  {
    if Tail(input) == [] then 0 else CeilDiv(Tail(input)[0].Available(), chunk)
  }

  function ChunksOf(chunk: nat, input: seq<Buf>): seq<Chunk>
    requires chunk > 0
  {
    CallsOf(Lead(input))
      + (if Tail(input) == [] then [] else ChunkCalls(Tail(input)[0].Payload(), chunk, Tail(input)[0].Eof()))
  }

  /** A count of reads, and no queue: input during a read is lost, and of other input all that follows a file buffer. */
  function Advance(chunk: nat, o: Outlook, step: Step): Outlook
    requires chunk > 0
  {
    match step
    case Completing => o.(toRead := if o.toRead > 0 then o.toRead - 1 else 0)
    case Feeding(input) =>
      if o.toRead > 0 then o.(stranded := o.stranded || input != [])
      else Outlook(ReadsOf(chunk, input), o.calls + ChunksOf(chunk, input), o.stranded || |Tail(input)| > 1)
  }

  function Foresee(chunk: nat, steps: seq<Step>): Outlook
    requires chunk > 0
  {
    if steps == [] then Outlook(0, [], false) else Advance(chunk, Foresee(chunk, steps[..|steps| - 1]), steps[|steps| - 1])
  }

  /** Readable input, and none of it once something was left behind and no read is to come. */
  ghost predicate InOrder(chunk: nat, steps: seq<Step>)
    requires chunk > 0
  {
    steps == [] ||
    var before, step := steps[..|steps| - 1], steps[|steps| - 1];
    InOrder(chunk, before)
    && (step.Feeding? ==> Readable(step.input) && (Foresee(chunk, before).stranded ==> Foresee(chunk, before).toRead > 0))
  }

  /** The stream is where the outlook says; the read in flight and the rest of its file are the calls to come. */
  ghost predicate Meets<G>(chunk: nat, s: Stream<G>, o: Outlook)
    requires chunk > 0
  {
    match s.flight
    case None => o.toRead == 0 && s.calls == o.calls && (s.pending != [] <==> o.stranded)
    case Some(f) =>
      && s.pending != [] && (|s.pending| > 1 <==> o.stranded)
      && var r := s.pending[0];
      && r.FileOnly() && r.Readable() && o.toRead == 1 + CeilDiv(r.Available(), chunk)
      && s.calls + [Chunk(f.Data(), f.lastBuf || f.lastInChain)] + ChunkCalls(r.Payload(), chunk, r.Eof()) == o.calls
  }

  /** The calls for a file range are its first piece and those for the rest. */
  lemma FirstPiece(chunk: nat, b: Buf)
    requires chunk > 0 && b.FileOnly() && b.Readable() && b.Available() > 0
    ensures var size := Min(b.Available(), chunk);
      var r := b.(filePos := b.filePos + size);
      && r.Readable() && b.filePos + size <= |b.file| && CeilDiv(b.Available(), chunk) == 1 + CeilDiv(r.Available(), chunk)
      && [Chunk(b.file[b.filePos..b.filePos + size], r.Available() == 0 && b.Eof())] + ChunkCalls(r.Payload(), chunk, b.Eof())
        == ChunkCalls(b.Payload(), chunk, b.Eof())
  {
    var size := Min(b.Available(), chunk);
    var r, data := b.(filePos := b.filePos + size), b.Payload();
    assert |data| == b.Available() && data[..size] == b.file[b.filePos..b.filePos + size] && r.Payload() == data[size..];
    hide Buf.Payload;
    if |data| <= chunk {
      assert data[..size] == data && r.Payload() == [];
    } else {
      assert size == chunk && r.Available() == |data| - chunk;
    }
  }

  lemma ChunkAssoc(a: seq<Chunk>, b: seq<Chunk>, c: seq<Chunk>)
    ensures (a + b) + c == a + (b + c)
  {
  }

  /** Scheduling a file buffer makes its first chunk the one in flight. */
  lemma ScheduleMeets<G>(chunk: nat, s: Stream<G>, input: seq<Buf>, bit: bool)
    requires chunk > 0 && s.flight.None? && s.pending == [] && input != [] && input[0].FileOnly() && input[0].Readable()
    ensures var b := input[0];
      Meets(chunk, Schedule(chunk, s, input).(buffered := bit),
            Outlook(CeilDiv(b.Available(), chunk), s.calls + ChunkCalls(b.Payload(), chunk, b.Eof()), |input| > 1))
  {
    CopiesSame(input[1..]);
    var b := input[0];
    if b.Available() > 0 {
      PieceMeets(chunk, s, input, bit);
    } else {
      assert b.Payload() == [] && s.calls + [] == s.calls;
    }
  }

  lemma PieceMeets<G>(chunk: nat, s: Stream<G>, input: seq<Buf>, bit: bool)
    requires chunk > 0 && s.flight.None? && s.pending == []
    requires input != [] && input[0].FileOnly() && input[0].Readable() && input[0].Available() > 0
    ensures var b := input[0];
      Meets(chunk, Schedule(chunk, s, input).(buffered := bit),
            Outlook(CeilDiv(b.Available(), chunk), s.calls + ChunkCalls(b.Payload(), chunk, b.Eof()), |input| > 1))
  {
    hide ChunkCalls, Buf.Payload, Copies, CeilDiv;
    var b := input[0];
    FirstPiece(chunk, b);
    CopiesSame(input[1..]);
    var size := Min(b.Available(), chunk);
    var r := b.(filePos := b.filePos + size);
    var z := Schedule(chunk, s, input).(buffered := bit);
    var f := z.flight.value;
    assert z.pending == [r] + Copies(input[1..]) && z.calls == s.calls;
    assert f.Data() == b.file[b.filePos..b.filePos + size] && (f.lastBuf || f.lastInChain) == (r.Available() == 0 && b.Eof());
    hide Schedule;
    var first := Chunk(f.Data(), f.lastBuf || f.lastInChain);
    ChunkAssoc(s.calls, [first], ChunkCalls(r.Payload(), chunk, b.Eof()));
    assert z.pending[0] == r && r.Eof() == b.Eof() && |z.pending| == |input|;
  }

  lemma EmptyLead()
    ensures Lead([]) == [] && Tail([]) == [] && CallsOf([]) == []
  {
  }

  lemma FeedMeets<G>(guest: Guest<G>, chunk: nat, s: Stream<G>, input: seq<Buf>, o: Outlook)
    requires chunk > 0 && Meets(chunk, s, o) && Readable(input) && !Stalled(s)
    ensures Meets(chunk, Feed(guest, chunk, s, input), Advance(chunk, o, Feeding(input)))
  {
    hide ChunkCalls, Buf.Payload, CeilDiv;
    if s.flight.Some? {
      CopiesSame(input);
      hide Copies;
    } else {
      var lead, tail := Lead(input), Tail(input);
      LeadAndTail(input);
      ProcessThrough(guest, chunk, s, lead, tail, []);
      var (s1, out) := Through(guest, s, lead, []);
      hide Through, CallsOf, Lead, Tail, Schedule;
      if input == [] {
        assert CallsOf(lead) == [] && lead == [] by { EmptyLead(); }
        assert s.calls + ([] + []) == s.calls;
      } else if tail == [] {
        assert s.calls + (CallsOf(lead) + []) == s.calls + CallsOf(lead);
      } else {
        assert tail[0] in input;
        FileFirst(guest, chunk, s1, tail[0], tail[1..], out);
        assert tail == [tail[0]] + tail[1..];
        ScheduleMeets(chunk, s1.(sent := s1.sent + out), tail, true);
        ChunkAssoc(s.calls, CallsOf(lead), ChunkCalls(tail[0].Payload(), chunk, tail[0].Eof()));
      }
    }
  }

  lemma CompleteMeets<G>(guest: Guest<G>, chunk: nat, s: Stream<G>, o: Outlook)
    requires chunk > 0 && Meets(chunk, s, o) && s.flight.Some?
    ensures Meets(chunk, Complete(guest, chunk, s), Advance(chunk, o, Completing))
  {
    hide ChunkCalls, Buf.Payload, CeilDiv, Flight.Data;
    var f, r := s.flight.value, s.pending[0];
    var (s1, out) := RunChunk(guest, s, f.Source(), f.Data(), f.lastBuf || f.lastInChain, f.Source().Replaced(f.Data()));
    var s2 := s1.(flight := None, pending := []);
    FileFirst(guest, chunk, s2, r, s.pending[1..], [out]);
    assert s.pending == [r] + s.pending[1..];
    var s3 := s2.(sent := s2.sent + [out]);
    var z := Schedule(chunk, s3, s.pending);
    ScheduleMeets(chunk, s3, s.pending, z.flight.Some? || z.pending != []);
    hide Schedule, RunChunk;
  }

  /** Any run from an idle stream whose input is in order goes as foreseen. */
  lemma {:induction false} RunMeets<G>(guest: Guest<G>, chunk: nat, s: Stream<G>, steps: seq<Step>)
    requires chunk > 0 && s.flight.None? && s.pending == [] && s.calls == [] && InOrder(chunk, steps)
    ensures Meets(chunk, Run(guest, chunk, s, steps), Foresee(chunk, steps)) && Orderly(guest, chunk, s, steps)
  {
    if steps != [] {
      var before, step := steps[..|steps| - 1], steps[|steps| - 1];
      RunMeets(guest, chunk, s, before);
      var z, o := Run(guest, chunk, s, before), Foresee(chunk, before);
      hide Feed, Complete, Advance;
      match step
      case Feeding(input) => FeedMeets(guest, chunk, z, input, o);
      case Completing =>
        if z.flight.Some? { CompleteMeets(guest, chunk, z, o); } else { NothingCompletes(chunk, o); }
    }
  }

  lemma NothingCompletes(chunk: nat, o: Outlook)
    requires chunk > 0 && o.toRead == 0
    ensures Advance(chunk, o, Completing) == o
  {
  }

  // ---- Where the end mark comes

  /** The end mark, if any, is on the last call. */
  ghost predicate EofLast(calls: seq<Chunk>) { forall i :: 0 <= i < |calls| - 1 ==> !calls[i].eof }

  predicate Ended(calls: seq<Chunk>) { calls != [] && calls[|calls| - 1].eof }

  /** No call but the last has the end mark, and the last has it as said. */
  ghost predicate MarksEnd(calls: seq<Chunk>, ended: bool) {
    if ended then calls != [] && calls[|calls| - 1].eof && NoEof(calls[..|calls| - 1]) else NoEof(calls)
  }

  lemma MarkedLast(calls: seq<Chunk>, ended: bool)
    requires MarksEnd(calls, ended)
    ensures EofLast(calls) && (Ended(calls) <==> ended)
  {
    forall i | 0 <= i < |calls| - 1 ensures !calls[i].eof { assert calls[i] in calls && calls[i] in calls[..|calls| - 1]; }
    if calls != [] { assert calls[|calls| - 1] in calls; }
  }

  lemma {:induction false} NoMarksAhead(pre: seq<Buf>)
    requires forall b :: b in pre ==> !b.Eof()
    ensures NoEof(CallsOf(pre))
  {
    if pre != [] {
      assert pre[0] in pre;
      NoMarksAhead(pre[1..]);
    }
  }

  /** All the buffers of a run, in the order they came. */
  function FedBufs(steps: seq<Step>): seq<Buf> {
    if steps == [] then []
    else FedBufs(steps[..|steps| - 1]) + match steps[|steps| - 1] case Feeding(input) => input case Completing => []
  }

  /** No buffer but the last has an end mark. */
  ghost predicate MarkLast(bufs: seq<Buf>) { forall i :: 0 <= i < |bufs| - 1 ==> !bufs[i].Eof() }

  /** The last buffer has a mark, and is one that the guest is called for. */
  predicate EndsBody(bufs: seq<Buf>) {
    bufs != [] &&
    var b := bufs[|bufs| - 1];
    b.Eof() && if b.FileOnly() then b.Available() > 0 else b.inMemory || b.Special()
  }

  lemma {:induction false} CallsConcat(a: seq<Buf>, b: seq<Buf>)
    ensures CallsOf(a + b) == CallsOf(a) + CallsOf(b)
  {
    if a == [] {
      assert a + b == b;
    } else {
      assert (a + b)[1..] == a[1..] + b;
      CallsConcat(a[1..], b);
    }
  }

  lemma OneCall(b: Buf)
    requires !b.FileOnly()
    ensures var c := CallsOf([b]);
      |c| <= 1 && (c != [] ==> c[0].eof == b.Eof()) && (b.Eof() ==> (c != [] <==> b.inMemory || b.Special()))
  {
    assert [b][1..] == [] && CallsOf([]) == [];
  }

  lemma MemoryMarks(before: seq<Chunk>, bufs: seq<Buf>)
    requires NoEof(before) && bufs != [] && NoFiles(bufs) && forall b :: b in bufs[..|bufs| - 1] ==> !b.Eof()
    ensures MarksEnd(before + CallsOf(bufs), EndsBody(bufs))
  {
    var ahead, last := bufs[..|bufs| - 1], bufs[|bufs| - 1];
    assert bufs == ahead + [last] && last in bufs;
    CallsConcat(ahead, [last]);
    OneCall(last);
    NoMarksAhead(ahead);
    hide CallsOf;
    ChunkAssoc(before, CallsOf(ahead), CallsOf([last]));
    LastMark(before + CallsOf(ahead), CallsOf([last]), last.Eof());
  }

  lemma FileMarks(chunk: nat, before: seq<Chunk>, lead: seq<Buf>, f: Buf)
    requires chunk > 0 && NoEof(before) && f.FileOnly() && f.Readable() && forall b :: b in lead ==> !b.Eof()
    ensures MarksEnd(before + (CallsOf(lead) + ChunkCalls(f.Payload(), chunk, f.Eof())), EndsBody(lead + [f]))
  {
    var cs := ChunkCalls(f.Payload(), chunk, f.Eof());
    ChunkCallsShape(f.Payload(), chunk, f.Eof());
    assert cs != [] <==> f.Available() > 0;
    NoMarksAhead(lead);
    hide ChunkCalls, CallsOf, Buf.Payload, Given, CeilDiv;
    ChunkAssoc(before, CallsOf(lead), cs);
    LastMark(before + CallsOf(lead), cs, f.Eof());
  }

  /** A chain with nothing behind its first file buffer, and no mark but on its last buffer. */
  lemma ChainMarks(chunk: nat, before: seq<Chunk>, input: seq<Buf>)
    requires chunk > 0 && NoEof(before) && input != [] && MarkLast(input) && |Tail(input)| <= 1 && Readable(input)
    ensures MarksEnd(before + ChunksOf(chunk, input), EndsBody(input))
  {
    var n, lead, tail := |input|, Lead(input), Tail(input);
    LeadAndTail(input);
    forall b | b in input[..n - 1] ensures !b.Eof() { var i :| 0 <= i < n - 1 && input[i] == b; }
    hide Lead, Tail, MarksEnd, EndsBody, CallsOf, ChunkCalls;
    if tail == [] {
      assert lead == input && CallsOf(lead) + [] == CallsOf(lead);
      MemoryMarks(before, input);
    } else {
      assert tail == [tail[0]] && lead == input[..n - 1] && tail[0] in input;
      FileMarks(chunk, before, lead, tail[0]);
    }
  }

  /** One more chain, after buffers of which none but the last may have had a mark. */
  lemma ChainEnds(chunk: nat, o: Outlook, bufs: seq<Buf>, input: seq<Buf>)
    requires chunk > 0 && input != [] && |Tail(input)| <= 1 && Readable(input) && MarkLast(bufs + input)
    requires MarksEnd(o.calls, EndsBody(bufs))
    ensures MarksEnd(o.calls + ChunksOf(chunk, input), EndsBody(bufs + input))
  {
    assert bufs != [] ==> !bufs[|bufs| - 1].Eof() by { if bufs != [] { assert (bufs + input)[|bufs| - 1] == bufs[|bufs| - 1]; } }
    assert NoEof(o.calls);
    assert MarkLast(input) by { assert forall i :: 0 <= i < |input| ==> input[i] == (bufs + input)[|bufs| + i]; }
    assert (bufs + input)[|bufs + input| - 1] == input[|input| - 1];
    hide MarksEnd, ChunksOf;
    ChainMarks(chunk, o.calls, input);
  }

  /** With no mark but on the last buffer and nothing left behind, the guest is told of the end on its last call, if at all. */
  lemma {:induction false} EndForeseen(chunk: nat, steps: seq<Step>)
    requires chunk > 0 && InOrder(chunk, steps) && !Foresee(chunk, steps).stranded && MarkLast(FedBufs(steps))
    ensures MarksEnd(Foresee(chunk, steps).calls, EndsBody(FedBufs(steps)))
  {
    if steps != [] {
      var before, step := steps[..|steps| - 1], steps[|steps| - 1];
      var bufs, o := FedBufs(before), Foresee(chunk, before);
      hide ChunksOf, ReadsOf, Tail, MarksEnd, EndsBody;
      match step
      case Completing =>
        assert FedBufs(steps) == bufs;
        EndForeseen(chunk, before);
      case Feeding(input) =>
        assert MarkLast(bufs) by { assert forall i :: 0 <= i < |bufs| ==> bufs[i] == (bufs + input)[i]; }
        EndForeseen(chunk, before);
        if input == [] {
          assert bufs + input == bufs;
          NothingFed(chunk, o);
        } else {
          ChainEnds(chunk, o, bufs, input);
        }
    }
  }

  lemma NothingFed(chunk: nat, o: Outlook)
    requires chunk > 0
    ensures o.calls + ChunksOf(chunk, []) == o.calls
  {
    EmptyLead();
  }
}
