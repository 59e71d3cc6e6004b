/** What goes downstream besides bytes: the flags of the buffers, and the BUFFERED bit. */
module BodyFlags {
  import opened Basics
  import opened BodyStream
  import opened BodyLaws
  import opened BodyDrain
  import opened BodyRest
  import opened BodyInput

  datatype Flags = Flags(flush: bool, sync: bool, lastBuf: bool, lastInChain: bool)
  {
    predicate Marked() { lastBuf || lastInChain }
  }

  const Plain := Flags(false, false, false, false)

  function FlagsOf(b: Buf): Flags { Flags(b.flush, b.sync, b.lastBuf, b.lastInChain) }

  function AllFlags(bufs: seq<Buf>): seq<Flags> {
    if bufs == [] then [] else [FlagsOf(bufs[0])] + AllFlags(bufs[1..])
  }

  lemma {:induction false} FlagsConcat(a: seq<Buf>, b: seq<Buf>)
    ensures AllFlags(a + b) == AllFlags(a) + AllFlags(b)
  {
    if a == [] {
      assert a + b == b;
    } else {
      assert (a + b)[1..] == a[1..] + b;
      FlagsConcat(a[1..], b);
    }
  }

  lemma FlagsSnoc(a: seq<Buf>, b: Buf)
    ensures AllFlags(a + [b]) == AllFlags(a) + [FlagsOf(b)]
  {
    FlagsConcat(a, [b]);
    assert [b][1..] == [];
  }

  lemma {:induction false} FlagsLength(bufs: seq<Buf>)
    ensures |AllFlags(bufs)| == |bufs| && forall i :: 0 <= i < |bufs| ==> AllFlags(bufs)[i] == FlagsOf(bufs[i])
  {
    if bufs != [] {
      FlagsLength(bufs[1..]);
    }
  }

  /** A buffer that waits in the queue keeps its flags. */
  lemma {:induction false} CopiesKeepFlags(bufs: seq<Buf>)
    ensures AllFlags(Copies(bufs)) == AllFlags(bufs)
  {
    if bufs != [] {
      CopiesKeepFlags(bufs[1..]);
      assert Copies(bufs)[1..] == Copies(bufs[1..]);
    }
  }

  lemma FlagsAssoc(a: seq<Flags>, b: seq<Flags>, c: seq<Flags>)
    ensures (a + b) + c == a + (b + c) && a + [] == a && [] + a == a
  {
  }

  // ---- One callback

  /** Each buffer that is processed sends on one buffer with its flags, up to the first file buffer. */
  lemma {:induction false} ProcessFlags<G>(guest: Guest<G>, chunk: nat, s: Stream<G>, input: seq<Buf>, out: seq<Buf>)
    requires chunk > 0
    ensures AllFlags(Process(guest, chunk, s, input, out).sent) == AllFlags(s.sent) + (AllFlags(out) + AllFlags(Lead(input)))
    decreases |input|
  {
    if input == [] {
      assert s.sent + [] == s.sent && Lead(input) == [];
      FlagsConcat(s.sent, out);
      FlagsAssoc(AllFlags(s.sent), AllFlags(out), []);
      FlagsAssoc(AllFlags(out), [], []);
    } else {
      var b := input[0];
      if b.FileOnly() {
        FlagsConcat(s.sent, out);
        FlagsAssoc(AllFlags(out), [], []);
      } else if (b.inMemory && (b.data != [] || b.Eof())) || (b.Special() && b.Eof()) {
        var (s', o) := RunChunk(guest, s, b, if b.inMemory then b.data else [], b.Eof(), b);
        assert FlagsOf(o) == FlagsOf(b) && s'.sent == s.sent;
        hide AllFlags, Lead, RunChunk;
        OneAhead(input, out, o);
        ProcessFlags(guest, chunk, s', input[1..], out + [o]);
      } else {
        hide AllFlags, Lead;
        OneAhead(input, out, b);
        ProcessFlags(guest, chunk, s, input[1..], out + [b]);
      }
    }
  }

  lemma OneAhead(input: seq<Buf>, out: seq<Buf>, o: Buf)
    requires input != [] && !input[0].FileOnly() && FlagsOf(o) == FlagsOf(input[0])
    ensures AllFlags(out) + AllFlags(Lead(input)) == AllFlags(out + [o]) + AllFlags(Lead(input[1..]))
  {
    var rest := Lead(input[1..]);
    assert Lead(input)[1..] == rest && AllFlags(Lead(input)) == [FlagsOf(o)] + AllFlags(rest);
    FlagsSnoc(out, o);
    FlagsAssoc(AllFlags(out), [FlagsOf(o)], AllFlags(rest));
  }

  /** Input sends on what comes ahead of its first file buffer, flags and all; during a read it sends nothing. */
  lemma FeedFlags<G>(guest: Guest<G>, chunk: nat, s: Stream<G>, input: seq<Buf>)
    requires chunk > 0
    ensures var z := Feed(guest, chunk, s, input);
      if s.flight.Some? then z.sent == s.sent else AllFlags(z.sent) == AllFlags(s.sent) + AllFlags(Lead(input))
  {
    if s.flight.None? {
      ProcessFlags(guest, chunk, s, input, []);
      FlagsAssoc(AllFlags(s.sent), AllFlags(Lead(input)), []);
      if input == [] { assert Lead(input) == []; }
    }
  }

  function FlightFlags(f: Flight): Flags { Flags(f.flush, f.sync, f.lastBuf, f.lastInChain) }

  /** A read that is over sends on one buffer with its flags, then what the queue has ahead of its first file buffer. */
  lemma CompleteFlags<G>(guest: Guest<G>, chunk: nat, s: Stream<G>)
    requires chunk > 0 && s.flight.Some?
    ensures AllFlags(Complete(guest, chunk, s).sent)
      == AllFlags(s.sent) + ([FlightFlags(s.flight.value)] + AllFlags(Lead(s.pending)))
  {
    var f := s.flight.value;
    var (s1, o) := RunChunk(guest, s, f.Source(), f.Data(), f.lastBuf || f.lastInChain, f.Source().Replaced(f.Data()));
    assert FlagsOf(o) == FlightFlags(f) && s1.sent == s.sent;
    assert AllFlags([o]) == [FlagsOf(o)] by { FlagsSnoc([], o); assert [] + [o] == [o]; }
    ProcessFlags(guest, chunk, s1.(flight := None, pending := []), s.pending, [o]);
  }

  /** The last piece of a file buffer is read with its flags, an earlier piece with none. */
  lemma ReadFlags<G>(chunk: nat, s: Stream<G>, input: seq<Buf>)
    requires chunk > 0 && s.flight.None? && input != [] && input[0].FileOnly()
    ensures var b, z := input[0], Schedule(chunk, s, input);
      && (z.flight.Some? <==> b.fileLast > b.filePos)
      && (z.flight.Some? ==>
        FlightFlags(z.flight.value) == if b.fileLast - b.filePos <= chunk then FlagsOf(b) else Flags(false, false, false, false))
  {
  }

  /** The BUFFERED bit after any callback: never clear while a read is in flight or something is queued. */
  lemma BitAfter<G>(guest: Guest<G>, chunk: nat, s: Stream<G>, input: seq<Buf>)
    requires chunk > 0 && input != []
    ensures var z := Feed(guest, chunk, s, input);
      z.buffered <==> s.flight.Some? || Tail(input) != [] || s.pending != []
    ensures s.flight.Some? ==> var z := Complete(guest, chunk, s); z.buffered <==> z.flight.Some? || z.pending != []
  {
    if s.flight.None? {
      var lead, tail := Lead(input), Tail(input);
      LeadAndTail(input);
      ProcessThrough(guest, chunk, s, lead, tail, []);
      var (s1, out) := Through(guest, s, lead, []);
      hide Through;
      if tail != [] {
        assert tail == [tail[0]] + tail[1..];
        FileFirst(guest, chunk, s1, tail[0], tail[1..], out);
      }
    }
  }

  /** Over any run from a fresh filter, a read in flight or a queued buffer has the bit set. */
  lemma {:induction false} BitCovers<G>(guest: Guest<G>, chunk: nat, s: Stream<G>, steps: seq<Step>)
    requires chunk > 0 && (s.flight.Some? || s.pending != [] ==> s.buffered)
    ensures var z := Run(guest, chunk, s, steps); z.flight.Some? || z.pending != [] ==> z.buffered
  {
    if steps != [] {
      var before, step := steps[..|steps| - 1], steps[|steps| - 1];
      var z := Run(guest, chunk, s, before);
      BitCovers(guest, chunk, s, before);
      var input := if step.Feeding? && step.input != [] then step.input else [File([])];
      BitAfter(guest, chunk, z, input);
      if step.Feeding? && z.flight.None? {
        ReadBegins(guest, chunk, z, step.input);
      }
      hide Feed, Complete;
      assert step == Feeding([]) ==> After(guest, chunk, z, step) == z by { NothingToFeed(guest, chunk, z); }
    }
  }

  lemma NothingToFeed<G>(guest: Guest<G>, chunk: nat, s: Stream<G>)
    ensures Feed(guest, chunk, s, []) == s
  {
  }

  /** When one buffer calls the guest: one in memory with bytes or an end mark, and an empty one that is flagged as the last. */
  lemma OneBuffer<G>(guest: Guest<G>, chunk: nat, s: Stream<G>, b: Buf)
    requires chunk > 0 && s.flight.None? && !b.FileOnly()
    ensures var marked := b.lastBuf || b.lastInChain;
      Feed(guest, chunk, s, [b]).calls == s.calls + (
        if b.inMemory then (if b.data != [] || marked then [Chunk(b.data, marked)] else [])
        else if marked && (b.flush || b.sync || b.lastBuf) then [Chunk([], true)]
        else [])
  {
    var c := [b];
    assert c + [] == c && c[1..] == [] && CallsOf([]) == [];
    assert CallsOf(c) == (if (b.inMemory && (b.data != [] || b.Eof())) || (b.Special() && b.Eof()) then
                            [Chunk(if b.inMemory then b.data else [], b.Eof())] else []) + CallsOf(c[1..]);
    ProcessThrough(guest, chunk, s, c, [], []);
  }

  // ---- A whole run, from its input

  /** The flags that so many pieces of a file buffer carry: its own on the last, none on the others. */
  function PieceFlags(pieces: nat, b: Buf): seq<Flags> {
    if pieces == 0 then [] else if pieces == 1 then [FlagsOf(b)] else [Plain] + PieceFlags(pieces - 1, b)
  }

  function ChainFlags(chunk: nat, input: seq<Buf>): seq<Flags>
    requires chunk > 0
  {
    AllFlags(Lead(input)) + (if Tail(input) == [] then [] else PieceFlags(CeilDiv(Tail(input)[0].Available(), chunk), Tail(input)[0]))
  }

  /** The flags of all that a run sends on, or will once its reads are over. */
  function FlagsForeseen(chunk: nat, steps: seq<Step>): seq<Flags>
    requires chunk > 0
  {
    if steps == [] then []
    else
      var before := steps[..|steps| - 1];
      FlagsForeseen(chunk, before) + match steps[|steps| - 1]
        case Completing => []
        case Feeding(input) => if Foresee(chunk, before).toRead > 0 then [] else ChainFlags(chunk, input)
  }

  /** What is still to be sent of the file that is being read. */
  function ToCome<G>(chunk: nat, s: Stream<G>): seq<Flags>
    requires chunk > 0
  {
    if s.flight.None? || s.pending == [] then []
    else [FlightFlags(s.flight.value)] + PieceFlags(CeilDiv(s.pending[0].Available(), chunk), s.pending[0])
  }

  lemma ScheduleToCome<G>(chunk: nat, s: Stream<G>, input: seq<Buf>, bit: bool)
    requires chunk > 0 && s.flight.None? && s.pending == [] && input != [] && input[0].FileOnly() && input[0].Readable()
    ensures ToCome(chunk, Schedule(chunk, s, input).(buffered := bit)) == PieceFlags(CeilDiv(input[0].Available(), chunk), input[0])
  {
    if input[0].Available() > 0 {
      PieceToCome(chunk, s, input, bit);
    }
  }

  lemma PieceToCome<G>(chunk: nat, s: Stream<G>, input: seq<Buf>, bit: bool)
    requires chunk > 0 && s.flight.None? && s.pending == [] && input != []
    requires input[0].FileOnly() && input[0].Readable() && input[0].Available() > 0
    ensures ToCome(chunk, Schedule(chunk, s, input).(buffered := bit)) == PieceFlags(CeilDiv(input[0].Available(), chunk), input[0])
  {
    hide CeilDiv, Copies, Buf.Payload, ChunkCalls;
    var b := input[0];
    var size := Min(b.Available(), chunk);
    var r := b.(filePos := b.filePos + size);
    var z := Schedule(chunk, s, input).(buffered := bit);
    assert z.flight.Some? && z.pending == [r] + Copies(input[1..]);
    ReadFlags(chunk, s, input);
    var f := z.flight.value;
    assert FlightFlags(f) == if r.Available() == 0 then FlagsOf(b) else Plain;
    hide Schedule;
    FirstPiece(chunk, b);
    Pieces(r.Available(), chunk);
    SameFlagsSamePieces(CeilDiv(r.Available(), chunk), r, b);
    assert z.pending[0] == r && ToCome(chunk, z) == [FlightFlags(f)] + PieceFlags(CeilDiv(r.Available(), chunk), b);
    FirstFlags(CeilDiv(r.Available(), chunk), b);
  }

  lemma FirstFlags(n: nat, b: Buf)
    ensures PieceFlags(n + 1, b) == [if n == 0 then FlagsOf(b) else Plain] + PieceFlags(n, b)
  {
  }

  lemma Pieces(n: nat, chunk: nat)
    requires chunk > 0
    ensures CeilDiv(n, chunk) == 0 <==> n == 0
  {
  }

  lemma {:induction false} SameFlagsSamePieces(n: nat, a: Buf, b: Buf)
    requires FlagsOf(a) == FlagsOf(b)
    ensures PieceFlags(n, a) == PieceFlags(n, b)
  {
    if n > 1 {
      SameFlagsSamePieces(n - 1, a, b);
    }
  }

  lemma FeedToCome<G>(guest: Guest<G>, chunk: nat, s: Stream<G>, input: seq<Buf>, o: Outlook)
    requires chunk > 0 && Meets(chunk, s, o) && Readable(input) && !Stalled(s)
    ensures var z := Feed(guest, chunk, s, input);
      AllFlags(z.sent) + ToCome(chunk, z)
        == AllFlags(s.sent) + ToCome(chunk, s) + (if o.toRead > 0 then [] else ChainFlags(chunk, input))
  {
    var z := Feed(guest, chunk, s, input);
    FeedFlags(guest, chunk, s, input);
    FlagsAssoc(AllFlags(s.sent), ToCome(chunk, s), []);
    FlagsAssoc(AllFlags(s.sent) + ToCome(chunk, s), [], []);
    if s.flight.Some? {
      hide AllFlags, PieceFlags, CeilDiv;
      CopiesSame(input);
      assert z.flight == s.flight && z.pending[0] == s.pending[0] && z.pending != [];
    } else {
      var lead, tail := Lead(input), Tail(input);
      LeadAndTail(input);
      hide AllFlags, PieceFlags, CeilDiv;
      FlagsAssoc(AllFlags(s.sent), AllFlags(lead), ToCome(chunk, z));
      FlagsAssoc(AllFlags(lead), [], []);
      ReadBegins(guest, chunk, s, input);
      if tail != [] {
        ProcessThrough(guest, chunk, s, lead, tail, []);
        var (s1, out) := Through(guest, s, lead, []);
        assert tail == [tail[0]] + tail[1..] && tail[0] in input;
        FileFirst(guest, chunk, s1, tail[0], tail[1..], out);
        ScheduleToCome(chunk, s1.(sent := s1.sent + out), tail, true);
        hide Through, Schedule, Process;
      }
    }
  }

  lemma CompleteToCome<G>(guest: Guest<G>, chunk: nat, s: Stream<G>, o: Outlook)
    requires chunk > 0 && Meets(chunk, s, o) && s.flight.Some?
    ensures var z := Complete(guest, chunk, s); AllFlags(z.sent) + ToCome(chunk, z) == AllFlags(s.sent) + ToCome(chunk, s)
  {
    hide PieceFlags, CeilDiv, ChunkCalls, Buf.Payload, Flight.Data;
    var f, r := s.flight.value, s.pending[0];
    var z := Complete(guest, chunk, s);
    CompleteFlags(guest, chunk, s);
    assert Lead(s.pending) == [] && AllFlags([]) == [];
    var (s1, out) := RunChunk(guest, s, f.Source(), f.Data(), f.lastBuf || f.lastInChain, f.Source().Replaced(f.Data()));
    var s2 := s1.(flight := None, pending := []);
    assert s.pending == [r] + s.pending[1..];
    FileFirst(guest, chunk, s2, r, s.pending[1..], [out]);
    var s3 := s2.(sent := s2.sent + [out]);
    ScheduleToCome(chunk, s3, s.pending, z.buffered);
    hide Schedule, RunChunk, Process, AllFlags;
    FlagsAssoc([FlightFlags(f)], [], []);
    FlagsAssoc(AllFlags(s.sent), [FlightFlags(f)], ToCome(chunk, z));
  }

  /** Over any run whose input is in order: the flags of what was sent and of what the reads will send are those foreseen. */
  lemma {:induction false} RunFlags<G>(guest: Guest<G>, chunk: nat, s: Stream<G>, steps: seq<Step>)
    requires chunk > 0 && s.flight.None? && s.pending == [] && s.calls == [] && s.sent == [] && InOrder(chunk, steps)
    ensures var z := Run(guest, chunk, s, steps); AllFlags(z.sent) + ToCome(chunk, z) == FlagsForeseen(chunk, steps)
  {
    if steps != [] {
      var before, step := steps[..|steps| - 1], steps[|steps| - 1];
      RunFlags(guest, chunk, s, before);
      RunMeets(guest, chunk, s, before);
      var z, o := Run(guest, chunk, s, before), Foresee(chunk, before);
      hide Feed, Complete, ToCome, AllFlags, ChainFlags;
      FlagsAssoc(FlagsForeseen(chunk, before), [], []);
      match step
      case Feeding(input) => FeedToCome(guest, chunk, z, input, o);
      case Completing => if z.flight.Some? { CompleteToCome(guest, chunk, z, o); }
    }
  }

  // ---- The end of the body, downstream

  ghost predicate NoMark(fs: seq<Flags>) { forall i :: 0 <= i < |fs| ==> !fs[i].Marked() }

  /** A buffer that is sent on: any but an empty file range. */
  predicate Carried(b: Buf) { b.FileOnly() ==> b.Available() > 0 }

  /** The flags end with those of the last buffer, if it is sent on, and have no end mark before. */
  ghost predicate EndsLike(fs: seq<Flags>, bufs: seq<Buf>) {
    if bufs != [] && Carried(bufs[|bufs| - 1]) then
      fs != [] && fs[|fs| - 1] == FlagsOf(bufs[|bufs| - 1]) && NoMark(fs[..|fs| - 1])
    else NoMark(fs)
  }

  /** What comes before without a mark does not matter. */
  lemma MarksJoin(p: seq<Flags>, q: seq<Flags>, bufs: seq<Buf>)
    requires NoMark(p) && EndsLike(q, bufs)
    ensures EndsLike(p + q, bufs)
  {
    if q != [] {
      assert (p + q)[..|p + q| - 1] == p + q[..|q| - 1];
    } else {
      assert p + q == p;
    }
  }

  lemma {:induction false} PiecesEnd(n: nat, b: Buf)
    ensures if n > 0 then |PieceFlags(n, b)| == n && PieceFlags(n, b)[n - 1] == FlagsOf(b) && NoMark(PieceFlags(n, b)[..n - 1])
      else PieceFlags(n, b) == []
  {
    if n > 1 {
      PiecesEnd(n - 1, b);
      assert PieceFlags(n, b)[..n - 1] == [Plain] + PieceFlags(n - 1, b)[..n - 2];
    }
  }

  lemma MemoryEnds(bufs: seq<Buf>)
    requires bufs != [] && MarkLast(bufs) && NoFiles(bufs)
    ensures EndsLike(AllFlags(bufs), bufs)
  {
    FlagsLength(bufs);
    assert bufs[|bufs| - 1] in bufs;
  }

  lemma UnmarkedFlags(bufs: seq<Buf>)
    requires forall i :: 0 <= i < |bufs| ==> !bufs[i].Eof()
    ensures NoMark(AllFlags(bufs))
  {
    FlagsLength(bufs);
  }

  lemma ChainEndsLike(chunk: nat, before: seq<Flags>, input: seq<Buf>)
    requires chunk > 0 && NoMark(before) && input != [] && MarkLast(input) && |Tail(input)| <= 1
    ensures EndsLike(before + ChainFlags(chunk, input), input)
  {
    var lead, tail := Lead(input), Tail(input);
    LeadAndTail(input);
    if tail == [] {
      assert lead == input;
      MemoryEnds(input);
      FlagsAssoc(AllFlags(lead), [], []);
      hide AllFlags, EndsLike, NoMark, Lead, Tail;
      MarksJoin(before, AllFlags(input), input);
    } else {
      var f := tail[0];
      var n := CeilDiv(f.Available(), chunk);
      assert input == lead + [f] && forall i :: 0 <= i < |lead| ==> lead[i] == input[i];
      UnmarkedFlags(lead);
      PiecesEnd(n, f);
      Pieces(f.Available(), chunk);
      assert EndsLike(PieceFlags(n, f), input);
      hide AllFlags, EndsLike, NoMark, Lead, Tail, PieceFlags, CeilDiv;
      MarksJoin(AllFlags(lead), PieceFlags(n, f), input);
      MarksJoin(before, AllFlags(lead) + PieceFlags(n, f), input);
    }
  }

  /** With no mark but on the last buffer and nothing left behind, so it is downstream too. */
  lemma {:induction false} FlagsEnd(chunk: nat, steps: seq<Step>)
    requires chunk > 0 && !Foresee(chunk, steps).stranded && MarkLast(FedBufs(steps))
    ensures EndsLike(FlagsForeseen(chunk, steps), FedBufs(steps))
  {
    if steps != [] {
      var before, step := steps[..|steps| - 1], steps[|steps| - 1];
      var bufs, fs := FedBufs(before), FlagsForeseen(chunk, before);
      hide ChainFlags, ChunksOf, ReadsOf, Tail, EndsLike;
      match step
      case Completing =>
        assert FedBufs(steps) == bufs;
        FlagsAssoc(fs, [], []);
        FlagsEnd(chunk, before);
      case Feeding(input) =>
        assert MarkLast(bufs) by { assert forall i :: 0 <= i < |bufs| ==> bufs[i] == (bufs + input)[i]; }
        FlagsEnd(chunk, before);
        if input == [] {
          assert bufs + input == bufs;
          NothingMore(chunk, fs);
          FlagsAssoc(fs, [], []);
        } else {
          MoreEndsLike(chunk, fs, bufs, input);
        }
    }
  }

  lemma NothingMore(chunk: nat, fs: seq<Flags>)
    requires chunk > 0
    ensures fs + ChainFlags(chunk, []) == fs
  {
    EmptyLead();
  }

  lemma MoreEndsLike(chunk: nat, fs: seq<Flags>, bufs: seq<Buf>, input: seq<Buf>)
    requires chunk > 0 && input != [] && |Tail(input)| <= 1 && MarkLast(bufs + input) && EndsLike(fs, bufs)
    ensures EndsLike(fs + ChainFlags(chunk, input), bufs + input)
  {
    assert bufs != [] ==> !bufs[|bufs| - 1].Eof() by { if bufs != [] { assert (bufs + input)[|bufs| - 1] == bufs[|bufs| - 1]; } }
    assert NoMark(fs) by { assert forall i :: 0 <= i < |fs| - 1 ==> fs[i] == fs[..|fs| - 1][i]; }
    assert MarkLast(input) by { assert forall i :: 0 <= i < |input| ==> input[i] == (bufs + input)[|bufs| + i]; }
    assert (bufs + input)[|bufs + input| - 1] == input[|input| - 1];
    hide ChainFlags, NoMark;
    ChainEndsLike(chunk, fs, input);
  }

  /** Once all reads are over, the flags of what was sent are those foreseen. */
  lemma SentFlags<G>(guest: Guest<G>, chunk: nat, s: Stream<G>, steps: seq<Step>)
    requires chunk > 0 && s.flight.None? && s.pending == [] && s.calls == [] && s.sent == [] && InOrder(chunk, steps)
    requires Foresee(chunk, steps).toRead == 0
    ensures AllFlags(Run(guest, chunk, s, steps).sent) == FlagsForeseen(chunk, steps)
  {
    var z := Run(guest, chunk, s, steps);
    RunFlags(guest, chunk, s, steps);
    RunMeets(guest, chunk, s, steps);
    assert z.flight.None?;
    FlagsAssoc(AllFlags(z.sent), [], []);
    hide Run, Foresee, FlagsForeseen, AllFlags;
  }

  /** The buffers end with the end mark of the last of `bufs`, and have none before. */
  ghost predicate SentEnd(sent: seq<Buf>, bufs: seq<Buf>) {
    if bufs != [] && Carried(bufs[|bufs| - 1]) then
      && sent != []
      && var last, end := sent[|sent| - 1], bufs[|bufs| - 1];
      && last.flush == end.flush && last.sync == end.sync && last.lastBuf == end.lastBuf && last.lastInChain == end.lastInChain
      && forall i :: 0 <= i < |sent| - 1 ==> !sent[i].lastBuf && !sent[i].lastInChain
    else forall i :: 0 <= i < |sent| ==> !sent[i].lastBuf && !sent[i].lastInChain
  }

  lemma FlagsOfSent(sent: seq<Buf>, bufs: seq<Buf>)
    requires EndsLike(AllFlags(sent), bufs)
    ensures SentEnd(sent, bufs)
  {
    FlagsLength(sent);
    hide AllFlags;
    var fs := AllFlags(sent);
    assert forall i :: 0 <= i < |sent| - 1 ==> fs[..|fs| - 1][i] == FlagsOf(sent[i]);
  }

  /**
    * The end of a whole body downstream, under the conditions of the input alone: what is sent ends with the flags of the
    * last buffer, its end mark among them, and has no end mark before; an empty file range at the end takes its mark with it.
    */
  lemma BodyEnds<G>(guest: Guest<G>, chunk: nat, g0: G, steps: seq<Step>)
    requires chunk > 0 && InOrder(chunk, steps) && MarkLast(FedBufs(steps))
    requires Foresee(chunk, steps).toRead == 0 && !Foresee(chunk, steps).stranded
    ensures SentEnd(Run(guest, chunk, Stream(g0, [], [], None, [], false), steps).sent, FedBufs(steps))
  {
    hide Run, InOrder, Foresee, FlagsForeseen, AllFlags, FedBufs, EndsLike, SentEnd, MarkLast;
    var s0 := Stream(g0, [], [], None, [], false);
    SentFlags(guest, chunk, s0, steps);
    FlagsEnd(chunk, steps);
    FlagsOfSent(Run(guest, chunk, s0, steps).sent, FedBufs(steps));
  }
}
