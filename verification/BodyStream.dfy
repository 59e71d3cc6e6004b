/** The body filter as a machine on values: what each callback does to the stream. */
module BodyStream {
  import opened Basics
  import opened Order

  /** An nginx buffer: memory bytes, or a range of a file, and the four flags. */
  datatype Buf = Buf(inMemory: bool, data: bytes, inFile: bool, file: bytes, filePos: nat, fileLast: nat,
                     flush: bool, sync: bool, lastBuf: bool, lastInChain: bool)
  {
    predicate Eof() { lastBuf || lastInChain }

    predicate Special() { (flush || lastBuf || sync) && !inMemory && !inFile }

    /** In this order: memory wins over a file range. */
    predicate FileOnly() { inFile && !inMemory }

    function Available(): nat { if filePos < fileLast then fileLast - filePos else 0 }

    /** The bytes of the body that this buffer stands for. */
    function Payload(): bytes {
      if inMemory then data else if inFile && filePos < fileLast <= |file| then file[filePos..fileLast] else []
    }

    /** The file range lies inside the file. */
    predicate Readable() { FileOnly() ==> fileLast <= |file| }

    /** copy_buf: a memory buffer forgets its file. */
    function Copy(): Buf { if inMemory then this.(inFile := false) else this }

    /** create_buf: a memory buffer with this buffer's flags. */
    function Replaced(bs: bytes): Buf { Buf(true, bs, false, [], 0, 0, flush, sync, lastBuf, lastInChain) }
  }

  datatype Chunk = Chunk(data: bytes, eof: bool)

  /** A file read under way, with the flags its chunk will carry. */
  datatype Flight = Flight(file: bytes, offset: nat, size: nat, flush: bool, sync: bool, lastBuf: bool, lastInChain: bool)
  {
    function Data(): bytes { if offset + size <= |file| then file[offset..offset + size] else [] }

    function Source(): Buf { Buf(false, [], false, [], 0, 0, flush, sync, lastBuf, lastInChain) }
  }

  /** The guest: from its state and a chunk to a new state and, if it sets one, a replacement. */
  type Guest<!G> = (G, bytes, bool) -> (G, Option<bytes>)

  datatype Stream<G> = Stream(state: G, calls: seq<Chunk>, sent: seq<Buf>, flight: Option<Flight>, pending: seq<Buf>, buffered: bool)

  function Copies(bufs: seq<Buf>): seq<Buf> {
    if bufs == [] then [] else [bufs[0].Copy()] + Copies(bufs[1..])
  }

  /** run_chunk: the guest sees the bytes; downstream gets its output, or `pass` if it set none. */
  function RunChunk<G>(guest: Guest<G>, s: Stream<G>, b: Buf, data: bytes, eof: bool, pass: Buf): (Stream<G>, Buf) {
    var (g, out) := guest(s.state, data, eof);
    (s.(state := g, calls := s.calls + [Chunk(data, eof)]), if out.Some? then b.Replaced(out.value) else pass)
  }

  function Settle<G>(s: Stream<G>): Stream<G> { s.(buffered := s.flight.Some? || s.pending != []) }

  /** process: `out` is what this callback has for downstream so far. */
  function Process<G>(guest: Guest<G>, chunk: nat, s: Stream<G>, input: seq<Buf>, out: seq<Buf>): Stream<G>
    decreases |input|
  {
    if input == [] then
      if out == [] then (if s.flight.None? && s.pending == [] then s.(buffered := false) else s)
      else Settle(s.(sent := s.sent + out))
    else
      var b := input[0];
      if b.inMemory && (b.data != [] || b.Eof()) then
        var (s', o) := RunChunk(guest, s, b, b.data, b.Eof(), b);
        Process(guest, chunk, s', input[1..], out + [o])
      else if b.FileOnly() && chunk != 0 then
        Schedule(chunk, s.(sent := s.sent + out), input).(buffered := true)
      else if b.Special() && b.Eof() then
        var (s', o) := RunChunk(guest, s, b, [], true, b);
        Process(guest, chunk, s', input[1..], out + [o])
      else
        Process(guest, chunk, s, input[1..], out + [b])
  }

  /** schedule_file_chunk: read the first piece of the file buffer, queue its residual and all that follows. */
  function Schedule<G>(chunk: nat, s: Stream<G>, input: seq<Buf>): Stream<G>
    requires input != []
  {
    var b := input[0];
    if b.Available() == 0 then s.(pending := s.pending + Copies(input[1..]))
    else
      var size := Min(b.Available(), chunk);
      var whole := size == b.Available();
      s.(flight := Some(Flight(b.file, b.filePos, size, whole && b.flush, whole && b.sync, whole && b.lastBuf, whole && b.lastInChain)),
         pending := s.pending + [b.(filePos := b.filePos + size)] + Copies(input[1..]))
  }

  /** handler */
  function Feed<G>(guest: Guest<G>, chunk: nat, s: Stream<G>, input: seq<Buf>): Stream<G> {
    if input == [] then s
    else if s.flight.Some? then s.(pending := s.pending + Copies(input), buffered := true)
    else Process(guest, chunk, s, input, [])
  }

  /** The completion of the read in flight. */
  function Complete<G>(guest: Guest<G>, chunk: nat, s: Stream<G>): Stream<G>
    requires s.flight.Some?
  {
    var f := s.flight.value;
    var (s', o) := RunChunk(guest, s, f.Source(), f.Data(), f.lastBuf || f.lastInChain, f.Source().Replaced(f.Data()));
    Settle(Process(guest, chunk, s'.(flight := None, pending := []), s.pending, [o]))
  }
}
