/** When the body filter drains, how many reads that takes, and when the guest learns of the end. */
module BodyDrain {
  import opened Basics
  import opened Order
  import opened BodyStream
  import opened BodyLaws

  function Work(bufs: seq<Buf>): nat { FileBytes(bufs) + |bufs| }

  lemma CompleteShrinks<G>(guest: Guest<G>, chunk: nat, s: Stream<G>)
    requires chunk > 0 && Sound(s) && s.flight.Some?
    ensures var s' := Complete(guest, chunk, s);
      Sound(s') && (s'.flight.Some? ==> Work(s'.pending) < Work(s.pending))
  {
    CompleteConserves(guest, chunk, s);
    var f := s.flight.value;
    var (s1, o) := RunChunk(guest, s, f.Source(), f.Data(), f.lastBuf || f.lastInChain, f.Source().Replaced(f.Data()));
    var s2 := s1.(flight := None, pending := []);
    ProcessCut(guest, chunk, s2, s.pending, [o]);
    CutShrinks(chunk, s.pending);
    FlightHasResidual(guest, chunk, s2, s.pending, [o]);
    assert [] + Cut(chunk, s.pending).1 == Cut(chunk, s.pending).1;
  }

  lemma {:induction false} FlightHasResidual<G>(guest: Guest<G>, chunk: nat, s: Stream<G>, input: seq<Buf>, out: seq<Buf>)
    requires s.flight.None? && chunk > 0
    ensures Process(guest, chunk, s, input, out).flight.Some? ==> Cut(chunk, input).1 != []
    decreases |input|
  {
    if input != [] {
      var b := input[0];
      if (b.inMemory && (b.data != [] || b.Eof())) || (!b.FileOnly() && b.Special() && b.Eof()) {
        var (s', o) := RunChunk(guest, s, b, b.Payload(), b.Eof(), b);
        FlightHasResidual(guest, chunk, s', input[1..], out + [o]);
      } else if !b.FileOnly() {
        FlightHasResidual(guest, chunk, s, input[1..], out + [b]);
      }
    }
  }

  /** All reads complete, one after the other, with no more input. */
  function Drain<G>(guest: Guest<G>, chunk: nat, s: Stream<G>): (r: (Stream<G>, nat))
    requires chunk > 0 && Sound(s)
    ensures r.0.flight.None?
    decreases s.flight.Some?, Work(s.pending)
  {
    if s.flight.None? then (s, 0)
    else
      CompleteShrinks(guest, chunk, s);
      var (s', count) := Drain(guest, chunk, Complete(guest, chunk, s));
      (s', count + 1)
  }

  /** n / d rounded up. */
  function CeilDiv(n: nat, d: nat): (r: nat)
    requires d > 0
    ensures n <= d * r && (n > 0 ==> d * (r - 1) < n) && (n == 0 ==> r == 0)
  {
    if n == 0 then 0 else if n <= d then 1 else 1 + CeilDiv(n - d, d)
  }

  /** A file range as the guest sees it: full chunks, the end mark on the last one alone. */
  function ChunkCalls(data: bytes, chunk: nat, eof: bool): seq<Chunk>
    requires chunk > 0
  {
    if data == [] then []
    else if |data| <= chunk then [Chunk(data, eof)]
    else [Chunk(data[..chunk], false)] + ChunkCalls(data[chunk..], chunk, eof)
  }

  /** ... which loses no byte, makes ceil(length / chunk) chunks, and marks exactly the last one. */
  lemma {:induction false} ChunkCallsShape(data: bytes, chunk: nat, eof: bool)
    requires chunk > 0
    ensures var cs := ChunkCalls(data, chunk, eof);
      |cs| == CeilDiv(|data|, chunk) && Given(cs) == data
      && (forall i :: 0 <= i < |cs| - 1 ==> !cs[i].eof && |cs[i].data| == chunk)
      && (cs != [] ==> cs[|cs| - 1].eof == eof)
  {
    if 0 < |data| <= chunk {
      GivenCons(Chunk(data, eof), []);
    } else if |data| > chunk {
      hide Given;
      var rest := ChunkCalls(data[chunk..], chunk, eof);
      ChunkCallsShape(data[chunk..], chunk, eof);
      GivenCons(Chunk(data[..chunk], false), rest);
      assert data == data[..chunk] + data[chunk..];
    }
  }

  lemma {:induction false} GivenCons(c: Chunk, cs: seq<Chunk>)
    ensures Given([c] + cs) == c.data + Given(cs)
    decreases |cs|
  {
    if cs == [] {
      assert [c] + cs == [] + [c];
      GivenSnoc([], c);
    } else {
      var l := [c] + cs;
      assert l[..|l| - 1] == [c] + cs[..|cs| - 1];
      GivenCons(c, cs[..|cs| - 1]);
      Assoc(c.data, Given(cs[..|cs| - 1]), cs[|cs| - 1].data);
    }
  }

  // ---- Reading one file buffer to its end

  /** Once its first piece is being read, a file buffer is read piece by piece to the end; then what followed it is queued, unread. */
  lemma {:induction false} ReadLoop<G>(guest: Guest<G>, chunk: nat, s: Stream<G>, b: Buf, post: seq<Buf>)
    requires chunk > 0 && s.flight.None? && s.pending == [] && b.Readable() && Readable(post)
    requires b.FileOnly() && b.Available() > 0
    ensures var s0 := Schedule(chunk, s, [b] + post);
      Sound(s0)
      && var (s', count) := Drain(guest, chunk, s0);
      s'.pending == Copies(post) && s'.buffered == (post != [])
      && s'.calls == s.calls + ChunkCalls(b.Payload(), chunk, b.Eof())
      && count == CeilDiv(b.Available(), chunk)
    decreases b.Available()
  {
    hide Copies, Buf.Payload, Complete, Between, Schedule, Sound, ChunkCalls;
    var r := b.(filePos := b.filePos + Min(b.Available(), chunk));
    var s0, s2 := Schedule(chunk, s, [b] + post), Between(guest, chunk, s, b);
    var s3 := Schedule(chunk, s2, [r] + Copies(post));
    FirstScheduled(chunk, s, b, post);
    FirstDelivered(guest, chunk, s, b);
    FirstCompleted(guest, chunk, s, b, post);
    CopiesSame(post);
    CompleteShrinks(guest, chunk, s0);
    assert Drain(guest, chunk, s0).1 == Drain(guest, chunk, Settle(s3)).1 + 1
      && Drain(guest, chunk, s0).0 == Drain(guest, chunk, Settle(s3)).0;
    if r.Available() > 0 {
      ReadLoop(guest, chunk, s2, r, Copies(post));
      FirstScheduled(chunk, s2, r, Copies(post));
      BufferedIsLost(guest, chunk, s3, true);
      PiecesJoin(s.calls, b.Payload(), chunk, b.Eof());
    } else {
      LastPiece(chunk, s2, r, post);
      OneChunk(b.Payload(), chunk, b.Eof());
    }
  }

  lemma OneChunk(data: bytes, chunk: nat, eof: bool)
    requires 0 < |data| <= chunk
    ensures ChunkCalls(data, chunk, eof) == [Chunk(data[..|data|], eof)]
  {
    assert data[..|data|] == data;
  }

  lemma LastPiece<G>(chunk: nat, s: Stream<G>, r: Buf, post: seq<Buf>)
    requires s.pending == [] && r.Available() == 0
    ensures Schedule(chunk, s, [r] + Copies(post)) == s.(pending := Copies(post))
  {
    CopiesSame(post);
    assert ([r] + Copies(post))[1..] == Copies(post);
  }

  lemma PiecesJoin(calls: seq<Chunk>, data: bytes, chunk: nat, eof: bool)
    requires 0 < chunk < |data|
    ensures calls + [Chunk(data[..chunk], false)] + ChunkCalls(data[chunk..], chunk, eof) == calls + ChunkCalls(data, chunk, eof)
  {
  }

  /** The stream after the first piece of `b` was given to the guest and sent on. */
  function Between<G>(guest: Guest<G>, chunk: nat, s: Stream<G>, b: Buf): Stream<G>
    requires b.Available() > 0
  {
    var f := Schedule(chunk, s, [b]).flight.value;
    var (s', o) := RunChunk(guest, s, f.Source(), f.Data(), f.lastBuf || f.lastInChain, f.Source().Replaced(f.Data()));
    s'.(flight := None, pending := [], sent := s'.sent + [o])
  }

  lemma FirstScheduled<G>(chunk: nat, s: Stream<G>, b: Buf, post: seq<Buf>)
    requires chunk > 0 && s.flight.None? && s.pending == [] && b.Readable() && Readable(post)
    requires b.FileOnly() && b.Available() > 0
    ensures var s0 := Schedule(chunk, s, [b] + post);
      var r := b.(filePos := b.filePos + Min(b.Available(), chunk));
      Sound(s0) && s0.flight.Some? && s0.pending == [r] + Copies(post)
      && s0.flight == Schedule(chunk, s, [b]).flight && s0 == s.(flight := s0.flight, pending := s0.pending)
  {
    CopiesSame(post);
    assert ([b] + post)[1..] == post;
    hide Copies, Buf.Payload;
    var r := b.(filePos := b.filePos + Min(b.Available(), chunk));
    assert [] + [r] + Copies(post) == [r] + Copies(post);
  }

  lemma FirstDelivered<G>(guest: Guest<G>, chunk: nat, s: Stream<G>, b: Buf)
    requires chunk > 0 && b.Readable() && b.FileOnly() && b.Available() > 0
    ensures var size := Min(b.Available(), chunk);
      var r, s2 := b.(filePos := b.filePos + size), Between(guest, chunk, s, b);
      s2.flight.None? && s2.pending == []
      && |b.Payload()| == b.Available() && r.Payload() == b.Payload()[size..]
      && s2.calls == s.calls + [Chunk(b.Payload()[..size], r.Available() == 0 && b.Eof())]
  {
    hide Copies;
    var size := Min(b.Available(), chunk);
    assert b.Payload()[..size] == b.file[b.filePos..b.filePos + size];
  }

  lemma FirstCompleted<G>(guest: Guest<G>, chunk: nat, s: Stream<G>, b: Buf, post: seq<Buf>)
    requires chunk > 0 && s.flight.None? && s.pending == [] && b.Readable() && Readable(post)
    requires b.FileOnly() && b.Available() > 0
    ensures Schedule(chunk, s, [b] + post).flight.Some?
    ensures var r := b.(filePos := b.filePos + Min(b.Available(), chunk));
      Complete(guest, chunk, Schedule(chunk, s, [b] + post))
        == Settle(Schedule(chunk, Between(guest, chunk, s, b), [r] + Copies(post)))
  {
    FirstScheduled(chunk, s, b, post);
    hide Copies, Buf.Payload, Sound, Flight.Data;
    var r := b.(filePos := b.filePos + Min(b.Available(), chunk));
    assert ([r] + Copies(post))[0] == r;
  }

  /** The BUFFERED bit before a completion has no influence on anything after it. */
  lemma BufferedIsLost<G>(guest: Guest<G>, chunk: nat, s: Stream<G>, bit: bool)
    requires chunk > 0 && Sound(s) && s.flight.Some?
    ensures Drain(guest, chunk, s.(buffered := bit)) == Drain(guest, chunk, s)
  {
    var f := s.flight.value;
    var (s', o) := RunChunk(guest, s, f.Source(), f.Data(), f.lastBuf || f.lastInChain, f.Source().Replaced(f.Data()));
    BitIrrelevant(guest, chunk, s'.(flight := None, pending := []), s.pending, [o], bit);
  }

  lemma {:induction false} BitIrrelevant<G>(guest: Guest<G>, chunk: nat, s: Stream<G>, input: seq<Buf>, out: seq<Buf>, bit: bool)
    ensures Settle(Process(guest, chunk, s.(buffered := bit), input, out)) == Settle(Process(guest, chunk, s, input, out))
    decreases |input|
  {
    if input != [] {
      var b := input[0];
      if (b.inMemory && (b.data != [] || b.Eof())) || (!(b.FileOnly() && chunk != 0) && b.Special() && b.Eof()) {
        var (s', o) := RunChunk(guest, s, b, if b.inMemory then b.data else [], b.Eof(), b);
        BitIrrelevant(guest, chunk, s', input[1..], out + [o], bit);
      } else if !(b.FileOnly() && chunk != 0) {
        BitIrrelevant(guest, chunk, s, input[1..], out + [b], bit);
      }
    }
  }

  // ---- A whole chain

  ghost predicate NoFiles(bufs: seq<Buf>) { forall b :: b in bufs ==> !b.FileOnly() }

  /** What the guest is called with for buffers that need no read. */
  function CallsOf(bufs: seq<Buf>): seq<Chunk> {
    if bufs == [] then []
    else
      var b := bufs[0];
      (if (b.inMemory && (b.data != [] || b.Eof())) || (b.Special() && b.Eof()) then
         [Chunk(if b.inMemory then b.data else [], b.Eof())]
       else []) + CallsOf(bufs[1..])
  }

  /** The stream and the collected output once the leading buffers that need no read are through. */
  function Through<G>(guest: Guest<G>, s: Stream<G>, bufs: seq<Buf>, out: seq<Buf>): (Stream<G>, seq<Buf>)
    decreases |bufs|
  {
    if bufs == [] then (s, out)
    else
      var b := bufs[0];
      if (b.inMemory && (b.data != [] || b.Eof())) || (b.Special() && b.Eof()) then
        var (s', o) := RunChunk(guest, s, b, if b.inMemory then b.data else [], b.Eof(), b);
        Through(guest, s', bufs[1..], out + [o])
      else Through(guest, s, bufs[1..], out + [b])
  }

  lemma {:induction false} ProcessThrough<G>(guest: Guest<G>, chunk: nat, s: Stream<G>, pre: seq<Buf>, rest: seq<Buf>, out: seq<Buf>)
    requires NoFiles(pre)
    ensures var (s', out') := Through(guest, s, pre, out);
      Process(guest, chunk, s, pre + rest, out) == Process(guest, chunk, s', rest, out')
      && s'.calls == s.calls + CallsOf(pre) && s' == s.(state := s'.state, calls := s'.calls)
      && |out'| == |out| + |pre|
    decreases |pre|
  {
    if pre == [] {
      assert pre + rest == rest;
    } else {
      var b := pre[0];
      assert (pre + rest)[0] == b && (pre + rest)[1..] == pre[1..] + rest && b in pre;
      assert NoFiles(pre[1..]);
      if (b.inMemory && (b.data != [] || b.Eof())) || (b.Special() && b.Eof()) {
        var c := Chunk(if b.inMemory then b.data else [], b.Eof());
        var (s', o) := RunChunk(guest, s, b, c.data, c.eof, b);
        ProcessThrough(guest, chunk, s', pre[1..], rest, out + [o]);
        assert s.calls + [c] + CallsOf(pre[1..]) == s.calls + ([c] + CallsOf(pre[1..]));
      } else {
        ProcessThrough(guest, chunk, s, pre[1..], rest, out + [b]);
        assert [] + CallsOf(pre[1..]) == CallsOf(pre[1..]);
      }
    }
  }

  /** A chain that needs no read goes straight through, and clears the BUFFERED bit. */
  lemma MemoryChain<G>(guest: Guest<G>, chunk: nat, s: Stream<G>, input: seq<Buf>)
    requires NoFiles(input) && input != [] && s.flight.None? && s.pending == []
    ensures var s' := Feed(guest, chunk, s, input);
      s'.flight.None? && s'.pending == [] && !s'.buffered && s'.calls == s.calls + CallsOf(input)
  {
    assert input + [] == input;
    ProcessThrough(guest, chunk, s, input, [], []);
  }

  /**
   * A chain whose first file buffer is `f`, fed to an idle stream and left alone until no read is in flight:
   * the guest has seen everything up to the end of `f`, in ceil(length / chunk) reads, and what follows `f` is
   * queued with nothing to wake it. So the stream drains iff nothing follows `f`, and the BUFFERED bit is clear
   * iff moreover `f` is not empty.
   */
  lemma FileChain<G>(guest: Guest<G>, chunk: nat, s: Stream<G>, pre: seq<Buf>, f: Buf, post: seq<Buf>)
    requires chunk > 0 && s.flight.None? && s.pending == []
    requires NoFiles(pre) && f.FileOnly() && Readable(pre + [f] + post)
    ensures var s0 := Feed(guest, chunk, s, pre + [f] + post);
      Sound(s0)
      && var (s', count) := Drain(guest, chunk, s0);
      s'.pending == Copies(post) && (s'.pending == [] <==> post == [])
      && s'.calls == s.calls + CallsOf(pre) + ChunkCalls(f.Payload(), chunk, f.Eof())
      && count == CeilDiv(f.Available(), chunk)
      && (!s'.buffered <==> post == [] && f.Available() > 0)
  {
    var input := pre + [f] + post;
    assert f in input && (forall b :: b in post ==> b in input);
    FeedSound(guest, chunk, s, input);
    assert input == pre + ([f] + post);
    ProcessThrough(guest, chunk, s, pre, [f] + post, []);
    var (s1, out) := Through(guest, s, pre, []);
    var s2 := s1.(sent := s1.sent + out);
    CopiesSame(post);
    hide Through, Process;
    FileFirst(guest, chunk, s1, f, post, out);
    if f.Available() > 0 {
      FirstScheduled(chunk, s2, f, post);
      ReadLoop(guest, chunk, s2, f, post);
      BufferedIsLost(guest, chunk, Schedule(chunk, s2, [f] + post), true);
    } else {
      assert ([f] + post)[1..] == post;
      assert s.calls + CallsOf(pre) + [] == s.calls + CallsOf(pre);
    }
  }

  lemma FileFirst<G>(guest: Guest<G>, chunk: nat, s: Stream<G>, f: Buf, post: seq<Buf>, out: seq<Buf>)
    requires chunk > 0 && f.FileOnly()
    ensures Process(guest, chunk, s, [f] + post, out)
      == Schedule(chunk, s.(sent := s.sent + out), [f] + post).(buffered := true)
  {
    assert ([f] + post)[0] == f;
  }

  ghost predicate NoEof(calls: seq<Chunk>) { forall c :: c in calls ==> !c.eof }

  /** With the end mark on a final file buffer alone, the guest sees the end exactly once, on its last chunk; an empty file buffer hides it. */
  lemma EofOnce<G>(guest: Guest<G>, chunk: nat, s: Stream<G>, pre: seq<Buf>, f: Buf)
    requires chunk > 0 && s.flight.None? && s.pending == []
    requires NoFiles(pre) && f.FileOnly() && Readable(pre + [f] + []) && NoEof(s.calls + CallsOf(pre))
    ensures Sound(Feed(guest, chunk, s, pre + [f] + []))
    ensures var calls := Drain(guest, chunk, Feed(guest, chunk, s, pre + [f] + [])).0.calls;
      if f.Eof() && f.Available() > 0 then calls != [] && calls[|calls| - 1].eof && NoEof(calls[..|calls| - 1])
      else NoEof(calls)
  {
    hide Drain, Feed, ChunkCalls, CallsOf, Sound, Given;
    FileChain(guest, chunk, s, pre, f, []);
    var cs := ChunkCalls(f.Payload(), chunk, f.Eof());
    ChunkCallsShape(f.Payload(), chunk, f.Eof());
    assert f in pre + [f] + [];
    assert |cs| > 0 <==> f.Available() > 0;
    LastMark(s.calls + CallsOf(pre), cs, f.Eof());
  }

  lemma LastMark(before: seq<Chunk>, cs: seq<Chunk>, eof: bool)
    requires NoEof(before) && (forall i :: 0 <= i < |cs| - 1 ==> !cs[i].eof) && (cs != [] ==> cs[|cs| - 1].eof == eof)
    ensures var calls := before + cs;
      if eof && cs != [] then calls[|calls| - 1].eof && NoEof(calls[..|calls| - 1]) else NoEof(calls)
  {
    if cs != [] {
      assert (before + cs)[..|before + cs| - 1] == before + cs[..|cs| - 1];
    }
  }
}
