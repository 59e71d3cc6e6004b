/** The body filter of the module: its context fields, updated step by step. */
module BodyFilters {
  import opened Basics
  import opened Order
  import opened BodyStream

  const OK := 0
  const ERROR := -1
  const AGAIN := -2

  /** How the thread event handler ends. */
  datatype EventEnd = TimedOut | RequestOver | Finalized | GoesOn

  class BodyFilter<!G> {
    const guest: Guest<G>
    const chunkSize: nat
    /** Whether the n-th pool allocation, guest run, file read or downstream call fails. */
    const fails: nat -> bool
    /** Whether the n-th of these, a downstream call, takes what it is given but cannot send it on yet. */
    const full: nat -> bool
    var tick: nat
    var state: G
    var waiting: bool
    var pending: seq<Buf>
    var readFile: bytes
    var readOffset: nat
    var readSize: nat
    var chunkFlush: bool
    var chunkSync: bool
    var chunkLastBuf: bool
    var chunkLastInChain: bool
    /** This module's bit of r->buffered. */
    var buffered: bool
    /** r->main->blocked and r->aio. */
    var blocked: nat
    var aio: bool
    ghost var calls: seq<Chunk>
    ghost var sent: seq<Buf>

    constructor (guest: Guest<G>, chunkSize: nat, fails: nat -> bool, full: nat -> bool, initial: G)
      ensures View() == Stream(initial, [], [], None, [], false)
      ensures this.guest == guest && this.chunkSize == chunkSize && this.fails == fails && this.full == full && tick == 0 && blocked == 0 && !aio
    {
      this.guest, this.chunkSize, this.fails, this.full, tick, state := guest, chunkSize, fails, full, 0, initial;
      waiting, pending, readFile, readOffset, readSize := false, [], [], 0, 0;
      chunkFlush, chunkSync, chunkLastBuf, chunkLastInChain, buffered := false, false, false, false, false;
      blocked, aio, calls, sent := 0, false, [], [];
    }

    ghost function View(): Stream<G>
      reads this
    {
      Stream(state, calls, sent,
             if waiting then Some(Read()) else None,
             pending, buffered)
    }

    ghost function Read(): Flight
      reads this
    {
      Flight(readFile, readOffset, readSize, chunkFlush, chunkSync, chunkLastBuf, chunkLastInChain)
    }

    /** No outside call failed between these two ticks. */
    ghost predicate Clean(a: nat, b: nat) { a <= b && forall k :: a <= k < b ==> !fails(k) }

    lemma CleanJoin(a: nat, b: nat, c: nat)
      requires a <= b <= c
      ensures Clean(a, c) <==> Clean(a, b) && Clean(b, c)
      ensures Clean(a, a)
    {
    }

    method Outside() returns (ok: bool)
      modifies this`tick
      ensures tick == old(tick) + 1 && ok == !fails(old(tick)) && (ok <==> Clean(old(tick), tick))
    {
      ok := !fails(tick);
      tick := tick + 1;
    }

    method Append(out: seq<Buf>, b: Buf) returns (ok: bool, longer: seq<Buf>)
      modifies this`tick
      ensures old(tick) < tick && (ok <==> Clean(old(tick), tick)) && (ok ==> longer == out + [b])
    {
      ok := Outside();
      longer := out + [b];
    }

    method Enqueue(b: Buf) returns (ok: bool)
      modifies this`tick, this`pending
      ensures old(tick) < tick && (ok <==> Clean(old(tick), tick)) && (ok ==> pending == old(pending) + [b])
    {
      ok := Outside();
      if ok {
        pending := pending + [b];
      }
    }

    method CopyBuf(src: Buf) returns (ok: bool, dst: Buf)
      modifies this`tick
      ensures old(tick) < tick && (ok <==> Clean(old(tick), tick)) && (ok ==> dst == src.Copy())
    {
      dst := src;
      ok := Outside();
      if ok && src.inMemory {
        if src.data != [] {
          ok := Outside();
        }
        dst := dst.(inFile := false);
      }
    }

    method QueueTail(bufs: seq<Buf>) returns (ok: bool)
      modifies this`tick, this`pending
      ensures old(tick) <= tick && (ok <==> Clean(old(tick), tick)) && (ok ==> pending == old(pending) + Copies(bufs))
    {
      for i := 0 to |bufs|
        invariant old(tick) <= tick && Clean(old(tick), tick)
        invariant old(pending) + Copies(bufs) == pending + Copies(bufs[i..])
      {
        var b;
        ok, b := CopyBuf(bufs[i]);
        if !ok {
          return false;
        }
        ok := Enqueue(b);
        if !ok {
          return false;
        }
        assert bufs[i..][1..] == bufs[i + 1..];
        assert pending + Copies(bufs[i + 1..]) == old(pending) + Copies(bufs);
      }
      return true;
    }

    static function Remaining(bufs: seq<Buf>, filePos: nat): seq<Buf> {
      if bufs != [] && filePos != 0 && bufs[0].inFile then
        [bufs[0].Copy().(filePos := filePos, fileLast := if bufs[0].fileLast < filePos then filePos else bufs[0].fileLast)]
        + Copies(bufs[1..])
      else Copies(bufs)
    }

    /** queue_remaining: a file buffer goes on from `filePos`, the rest follows as it is. */
    method QueueRemaining(bufs: seq<Buf>, filePos: nat) returns (ok: bool)
      modifies this`tick, this`pending
      ensures old(tick) <= tick && (ok <==> Clean(old(tick), tick))
      ensures ok ==> pending == old(pending) + Remaining(bufs, filePos)
    {
      if |bufs| == 0 {
        return true;
      }
      if filePos != 0 && bufs[0].inFile {
        var b;
        ok, b := CopyBuf(bufs[0]);
        if !ok {
          return false;
        }
        b := b.(filePos := filePos);
        if b.fileLast < b.filePos {
          b := b.(fileLast := b.filePos);
        }
        ok := Enqueue(b);
        if !ok {
          return false;
        }
        ok := QueueTail(bufs[1..]);
        return;
      }
      ok := QueueTail(bufs);
    }

    method RunChunkNow(b: Buf, data: bytes, eof: bool) returns (ok: bool, replacement: Option<Buf>)
      modifies this`tick, this`state, this`calls
      ensures old(tick) < tick && (ok <==> Clean(old(tick), tick))
      ensures ok ==> forall pass ::
        RunChunk(guest, old(View()), b, data, eof, pass) == (View(), if replacement.Some? then replacement.value else pass)
    {
      replacement := None;
      ok := Outside();
      if !ok {
        return;
      }
      var out := guest(state, data, eof);
      state, calls := out.0, calls + [Chunk(data, eof)];
      if out.1.Some? {
        ok := Outside();
        replacement := Some(b.Replaced(out.1.value));
      }
    }

    method Downstream(out: seq<Buf>) returns (rc: int)
      modifies this`tick, this`sent
      ensures old(tick) < tick && rc in {OK, AGAIN, ERROR} && (rc != ERROR <==> Clean(old(tick), tick))
      ensures rc != ERROR ==> sent == old(sent) + out && rc == Answer()
      ensures rc == ERROR ==> sent == old(sent)
    {
      var ok := Outside();
      if !ok {
        return ERROR;
      }
      sent := sent + out;
      return if full(tick - 1) then AGAIN else OK;
    }

    /** What the outside call just made has answered, if it was one downstream and has not failed. */
    ghost function Answer(): int
      reads this
    {
      if tick > 0 && full(tick - 1) then AGAIN else OK
    }

    /** A file buffer that is to be read. */
    ghost predicate Stops(bufs: seq<Buf>) { chunkSize != 0 && exists b :: b in bufs && b.FileOnly() }

    method ScheduleFileChunk(bufs: seq<Buf>) returns (ok: bool)
      requires bufs != [] && bufs[0].FileOnly() && chunkSize > 0 && !waiting
      modifies this
      ensures old(tick) <= tick && (ok <==> Clean(old(tick), tick))
      ensures ok ==> View() == Schedule(chunkSize, old(View()), bufs) && Posted(old(blocked), old(aio))
    {
      hide Clean, Copies, Remaining, View, Read;
      ghost var t0 := tick;
      var b := bufs[0];
      if b.fileLast <= b.filePos {
        FromTheStart(bufs[1..]);
        ok := QueueTailOf(bufs[1..], 0);
        return;
      }
      ghost var before := View();
      var size;
      ok, size := BeginRead(b);
      if !ok {
        return;
      }
      ghost var t1 := tick;
      ResidualQueued(pending, bufs, b.filePos + size);
      ok := QueueAndPost(bufs, b.filePos + size);
      CleanJoin(t0, t1, tick);
    }

    method QueueTailOf(bufs: seq<Buf>, filePos: nat) returns (ok: bool)
      modifies this`tick, this`pending
      ensures old(tick) <= tick && (ok <==> Clean(old(tick), tick))
      ensures ok ==> View() == old(View()).(pending := old(View()).pending + Remaining(bufs, filePos))
    {
      hide Clean, Remaining;
      ok := QueueRemaining(bufs, filePos);
    }

    /** The start of schedule_file_chunk: what to read, and the flags its chunk will carry. */
    method BeginRead(b: Buf) returns (ok: bool, size: nat)
      requires b.Available() > 0 && chunkSize > 0
      modifies this`tick, this`readFile, this`readOffset, this`readSize
      modifies this`chunkFlush, this`chunkSync, this`chunkLastBuf, this`chunkLastInChain
      ensures old(tick) < tick && (ok <==> Clean(old(tick), tick))
      ensures size == Min(b.Available(), chunkSize)
      ensures !waiting ==> View() == old(View())
      ensures pending == View().pending == old(View()).pending
      ensures ok ==> var whole := size == b.Available();
        Read() == Flight(b.file, b.filePos, size, whole && b.flush, whole && b.sync, whole && b.lastBuf, whole && b.lastInChain)
    {
      var available := b.fileLast - b.filePos;
      size := available;
      if size > chunkSize {
        size := chunkSize;
      }
      readFile, readOffset, readSize := b.file, b.filePos, size;
      ok := Outside();
      if !ok {
        return;
      }
      SetChunkFlags(b, size == available);
    }

    /** Only the last piece of a file buffer carries its flags. */
    method SetChunkFlags(b: Buf, whole: bool)
      modifies this`chunkFlush, this`chunkSync, this`chunkLastBuf, this`chunkLastInChain
      ensures chunkFlush == (whole && b.flush) && chunkSync == (whole && b.sync)
      ensures chunkLastBuf == (whole && b.lastBuf) && chunkLastInChain == (whole && b.lastInChain)
    {
      chunkFlush, chunkSync, chunkLastBuf, chunkLastInChain := false, false, false, false;
      if whole {
        chunkFlush, chunkSync, chunkLastBuf, chunkLastInChain := b.flush, b.sync, b.lastBuf, b.lastInChain;
      }
    }

    /** The end of schedule_file_chunk: queue the residual, post the read to the thread pool. */
    method QueueAndPost(bufs: seq<Buf>, filePos: nat) returns (ok: bool)
      modifies this`tick, this`pending, this`waiting, this`blocked, this`aio
      ensures old(tick) <= tick && (ok <==> Clean(old(tick), tick))
      ensures ok ==> View() == old(View()).(flight := Some(old(Read())), pending := old(pending) + Remaining(bufs, filePos))
      ensures ok ==> waiting && blocked == old(blocked) + 1 && aio
    {
      hide Clean, Remaining;
      ghost var t0 := tick;
      ok := QueueRemaining(bufs, filePos);
      if !ok {
        return;
      }
      ghost var t1 := tick;
      ok := Outside();
      CleanJoin(t0, t1, tick);
      if ok {
        blocked, aio := blocked + 1, true;
        waiting := true;
      }
    }

    static lemma FromTheStart(bufs: seq<Buf>)
      ensures Remaining(bufs, 0) == Copies(bufs)
    {
    }

    static lemma ResidualQueued(pending: seq<Buf>, bufs: seq<Buf>, filePos: nat)
      requires bufs != [] && bufs[0].FileOnly() && 0 < filePos <= bufs[0].fileLast
      ensures pending + Remaining(bufs, filePos) == pending + [bufs[0].(filePos := filePos)] + Copies(bufs[1..])
    {
    }

    /** Since `blocked` and `aio` were these and no read was in flight, a read has been posted if one is in flight now. */
    ghost predicate Posted(blocked: nat, aio: bool)
      reads this
    {
      if waiting then this.blocked == blocked + 1 && this.aio else this.blocked == blocked && this.aio == aio
    }

    /** process: run the guest over a chain until it ends or a file buffer needs a read. */
    method ProcessChain(input: seq<Buf>, out0: seq<Buf>) returns (rc: int)
      requires !waiting
      modifies this
      ensures old(tick) <= tick && rc in {OK, AGAIN, ERROR} && (rc != ERROR <==> Clean(old(tick), tick))
      ensures rc != ERROR ==> View() == Process(guest, chunkSize, old(View()), input, out0) && Posted(old(blocked), old(aio))
      ensures rc != ERROR ==> rc == if Stops(input) then AGAIN else if out0 + input == [] then OK else Answer()
    {
      var out := out0;
      ghost var t0 := tick;
      for i := 0 to |input|
        invariant old(tick) <= tick && Clean(old(tick), tick) && !waiting && blocked == old(blocked) && aio == old(aio)
        invariant |out| == |out0| + i && forall j :: 0 <= j < i ==> chunkSize == 0 || !input[j].FileOnly()
        invariant Process(guest, chunkSize, old(View()), input, out0) == Process(guest, chunkSize, View(), input[i..], out)
      {
        var b := input[i];
        assert input[i..] != [] && input[i..][0] == b && input[i..][1..] == input[i + 1..];
        var ok, o := true, b;
        if b.inMemory {
          if b.data != [] || b.Eof() {
            var replacement;
            ok, replacement := RunChunkNow(b, b.data, b.Eof());
            if !ok {
              return ERROR;
            }
            o := if replacement.Some? then replacement.value else b;
          }
        } else if b.inFile && chunkSize != 0 {
          rc := StopAtFile(input[i..], out);
          return;
        } else if b.Special() && b.Eof() {
          var replacement;
          ok, replacement := RunChunkNow(b, [], true);
          if !ok {
            return ERROR;
          }
          o := if replacement.Some? then replacement.value else b;
        }
        ok, out := Append(out, o);
        if !ok {
          return ERROR;
        }
      }
      assert input[|input|..] == [];
      ghost var t1 := tick;
      hide View, Clean;
      rc := EndChain(out);
      CleanJoin(t0, t1, tick);
    }

    /** The chain is at its end: send what is ready. */
    method EndChain(out: seq<Buf>) returns (rc: int)
      modifies this`tick, this`sent, this`buffered
      ensures old(tick) <= tick && rc in {OK, AGAIN, ERROR} && (rc != ERROR <==> Clean(old(tick), tick))
      ensures rc != ERROR ==> View() == Process(guest, chunkSize, old(View()), [], out)
      ensures rc != ERROR ==> rc == if out == [] then OK else Answer()
    {
      if |out| == 0 {
        if !waiting && pending == [] {
          buffered := false;
        }
        return OK;
      }
      rc := Downstream(out);
      if rc == ERROR {
        return;
      }
      buffered := waiting || pending != [];
    }

    /** A file buffer ends the loop: send what is ready, schedule the read. */
    method StopAtFile(bufs: seq<Buf>, out: seq<Buf>) returns (rc: int)
      requires bufs != [] && bufs[0].FileOnly() && chunkSize > 0 && !waiting
      modifies this
      ensures old(tick) <= tick && rc in {AGAIN, ERROR} && (rc != ERROR <==> Clean(old(tick), tick))
      ensures rc != ERROR ==> Posted(old(blocked), old(aio))
      ensures var s := old(View()); rc != ERROR ==> View() == Schedule(chunkSize, s.(sent := s.sent + out), bufs).(buffered := true)
    {
      hide Clean, Schedule;
      ghost var t0 := tick;
      CleanJoin(t0, t0, t0);
      if |out| != 0 {
        var sentRc := Downstream(out);
        if sentRc == ERROR {
          return ERROR;
        }
      }
      assert sent == old(sent) + out;
      ghost var t1 := tick;
      var ok := ScheduleFileChunk(bufs);
      CleanJoin(t0, t1, tick);
      if !ok {
        return ERROR;
      }
      buffered := true;
      return AGAIN;
    }

    /** handler */
    method Handler(input: seq<Buf>) returns (rc: int)
      modifies this
      ensures old(tick) <= tick && rc in {OK, AGAIN, ERROR} && (rc != ERROR <==> Clean(old(tick), tick))
      ensures rc != ERROR && input != [] ==> View() == Feed(guest, chunkSize, old(View()), input)
      ensures input == [] ==> View() == old(View())
      ensures rc != ERROR ==> rc == if input != [] && (old(waiting) || Stops(input)) then AGAIN else Answer()
      ensures rc != ERROR ==> if old(waiting) then waiting && blocked == old(blocked) && aio == old(aio) else Posted(old(blocked), old(aio))
    {
      if |input| == 0 {
        rc := Downstream([]);
        assert old(sent) + [] == old(sent);
        return;
      }
      if waiting {
        var ok := QueueTail(input);
        if !ok {
          return ERROR;
        }
        buffered := true;
        return AGAIN;
      }
      rc := ProcessChain(input, []);
    }

    /** complete_file_chunk: the bytes of the finished read go to the guest. */
    method CompleteFileChunk() returns (ok: bool, out: seq<Buf>)
      modifies this`tick, this`state, this`calls
      ensures old(tick) < tick && (ok <==> Clean(old(tick), tick) && readOffset + readSize <= |readFile|)
      ensures ok ==> var f := Read();
        var (s, o) := RunChunk(guest, old(View()), f.Source(), f.Data(), f.lastBuf || f.lastInChain, f.Source().Replaced(f.Data()));
        View() == s && out == [o]
    {
      hide Clean, Buf.Payload;
      out := [];
      ghost var t0 := tick;
      ok := Outside();
      if !ok || |readFile| < readOffset + readSize {
        return false, [];
      }
      ghost var t1 := tick;
      var data := readFile[readOffset..readOffset + readSize];
      var src := Buf(false, [], false, [], 0, 0, chunkFlush, chunkSync, chunkLastBuf, chunkLastInChain);
      var replacement;
      ghost var pass := src.Replaced(data);
      assert View() == old(View()) && src == Read().Source() && data == Read().Data();
      ghost var wanted := RunChunk(guest, View(), src, data, src.Eof(), pass);
      ok, replacement := RunChunkNow(src, data, src.Eof());
      CleanJoin(t0, t1, tick);
      if !ok {
        return;
      }
      ghost var t2 := tick;
      hide RunChunk, View;
      ok, out := PassOn(src, data, replacement);
      CleanJoin(t0, t2, tick);
    }

    /** What goes downstream: the guest's replacement, or else the bytes of the chunk in a new buffer. */
    method PassOn(src: Buf, data: bytes, replacement: Option<Buf>) returns (ok: bool, out: seq<Buf>)
      modifies this`tick
      ensures old(tick) < tick && (ok <==> Clean(old(tick), tick))
      ensures ok ==> out == [if replacement.Some? then replacement.value else src.Replaced(data)]
    {
      ghost var t0 := tick;
      out := [];
      if replacement.Some? {
        ok, out := Append(out, replacement.value);
        return;
      }
      ok := Outside();
      if !ok {
        return;
      }
      ghost var t1 := tick;
      ok, out := Append(out, src.Replaced(data));
      CleanJoin(t0, t1, tick);
    }

    /** The thread event handler. `over`: the request is done or terminated. */
    method ThreadEvent(timedOut: bool, over: bool) returns (end: EventEnd)
      requires waiting && blocked > 0
      modifies this
      ensures old(tick) <= tick
      ensures timedOut ==> end == TimedOut && unchanged(this)
      ensures !timedOut ==> (end == RequestOver <==> over)
      ensures end == RequestOver ==> View() == old(View()) && blocked == old(blocked) - 1 && !aio
      ensures !timedOut && !over ==> end in {Finalized, GoesOn}
      ensures !timedOut && !over ==> (end == GoesOn <==> Clean(old(tick), tick) && old(readOffset + readSize <= |readFile|))
      ensures end == GoesOn ==> View() == Complete(guest, chunkSize, old(View())) && Posted(old(blocked) - 1, false)
    {
      if timedOut {
        return TimedOut;
      }
      blocked, aio := blocked - 1, false;
      if over {
        return RequestOver;
      }
      var ok := ReadOver();
      end := if ok then GoesOn else Finalized;
    }

    /** The read is over: its chunk, then the queue from its start; `false` means an error. */
    method ReadOver() returns (ok: bool)
      requires waiting
      modifies this
      ensures old(tick) < tick
      ensures ok <==> Clean(old(tick), tick) && old(readOffset + readSize <= |readFile|)
      ensures ok ==> View() == Complete(guest, chunkSize, old(View())) && Posted(old(blocked), old(aio))
    {
      var out;
      ok, out := CompleteFileChunk();
      if !ok {
        return;
      }
      waiting := false;
      var input := pending;
      pending := [];
      var rc := ProcessChain(input, out);
      if rc == ERROR {
        return false;
      }
      buffered := waiting || pending != [];
    }
  }
}
