/** Pipes: a ring of 4096 bytes between a writer and a reader that wait for each other. */
module Pipes {
  import opened RingBuffers

  const PIPE_SIZE: nat := 4096

  type byte = n: int | 0 <= n < 256

  /** Bytes that were put in are those taken out and then those in the ring. */
  ghost predicate Stream(buffer: seq<byte>, writePos: nat, readPos: nat, sent: seq<byte>, received: seq<byte>) {
    && |buffer| == PIPE_SIZE && writePos < PIPE_SIZE && readPos < PIPE_SIZE
    && sent == received + Pending(buffer, writePos, readPos)
  }

  lemma PutByte(buffer: seq<byte>, writePos: nat, readPos: nat, sent: seq<byte>, received: seq<byte>, b: byte)
    requires Stream(buffer, writePos, readPos, sent, received) && !IsFull(PIPE_SIZE, writePos, readPos)
    ensures Stream(buffer[writePos := b], Advance(PIPE_SIZE, writePos), readPos, sent + [b], received)
  {
    PutPending(buffer, writePos, readPos, b);
    assert received + Pending(buffer, writePos, readPos) + [b] == received + (Pending(buffer, writePos, readPos) + [b]);
  }

  lemma TakeByte(buffer: seq<byte>, writePos: nat, readPos: nat, sent: seq<byte>, received: seq<byte>)
    requires Stream(buffer, writePos, readPos, sent, received) && writePos != readPos
    ensures Stream(buffer, writePos, Advance(PIPE_SIZE, readPos), sent, received + [buffer[readPos]])
  {
    TakePending(buffer, writePos, readPos);
    var rest := Pending(buffer, writePos, Advance(PIPE_SIZE, readPos));
    assert received + ([buffer[readPos]] + rest) == received + [buffer[readPos]] + rest;
  }

  /** The room in a pipe whose stream is in order; without room it cannot be in order. */
  lemma RoomLeft(buffer: seq<byte>, writePos: nat, readPos: nat, sent: seq<byte>, received: seq<byte>, room: int)
    requires |buffer| == PIPE_SIZE && writePos < PIPE_SIZE && readPos < PIPE_SIZE
             && |sent| == |received| + PIPE_SIZE - 1 - room
    ensures room < 0 ==> !Stream(buffer, writePos, readPos, sent, received)
    ensures Stream(buffer, writePos, readPos, sent, received) ==>
              && (IsFull(PIPE_SIZE, writePos, readPos) <==> room == 0)
              && (readPos != 0 ==> (writePos == Rem(readPos - 1, PIPE_SIZE) <==> room == 0))
    ensures readPos == 0 ==> writePos != Rem(readPos - 1, PIPE_SIZE)
  {
    FullCount(PIPE_SIZE, writePos, readPos);
    NonblockingFullTest(writePos, readPos);
  }

  /** The position so many bytes on, around the ring. */
  function Further(pos: nat, n: nat): (to: nat)
    ensures to < PIPE_SIZE
  {
    (pos + n) % PIPE_SIZE
  }

  lemma OneFurther(start: nat, n: nat, n': nat)
    requires n' == n + 1
    ensures Advance(PIPE_SIZE, Further(start, n)) == Further(start, n')
    ensures start < PIPE_SIZE ==> Further(start, 0) == start
  {
    AdvanceWraps(PIPE_SIZE, Further(start, n));
  }

  /** A write in progress, with what had been sent before it. */
  datatype Write = NoWrite | Writing(data: seq<byte>, written: nat)

  /** A read in progress. */
  datatype Read = NoRead | Reading(size: int, got: seq<byte>)

  class Pipe {
    const buffer: array<byte>
    var readPos: nat
    var writePos: nat
    var flushed: bool
    var writer: Write
    var reader: Read

    ghost var sent: seq<byte>
    ghost var received: seq<byte>
    ghost var sentBefore: seq<byte>
    ghost var receivedBefore: seq<byte>

    ghost predicate Valid()
      reads this, buffer
    {
      && Stream(buffer[..], writePos, readPos, sent, received)
      && (writer.Writing? ==> writer.written <= |writer.data| && sent == sentBefore + writer.data[..writer.written])
      && (reader.Reading? ==>
            received == receivedBefore + reader.got && (|reader.got| == 0 || |reader.got| <= reader.size))
    }

    constructor ()
      ensures Valid() && sent == [] && received == [] && writer == NoWrite && reader == NoRead
      ensures readPos == 0 && writePos == 0 && fresh(buffer)
    {
      buffer := new byte[PIPE_SIZE](_ => 0);
      readPos, writePos, flushed := 0, 0, false;
      writer, reader := NoWrite, NoRead;
      sent, received, sentBefore, receivedBefore := [], [], [], [];
    }

    /** pipe_flush */
    method Flush()
      modifies this`flushed
      ensures flushed
    {
      flushed := true;
    }

    method BeginWrite(data: seq<byte>)
      requires Valid() && writer == NoWrite
      modifies this`writer, this`sentBefore
      ensures Valid() && writer == Writing(data, 0) && sentBefore == sent
    {
      writer := Writing(data, 0);
      sentBefore := sent;
    }

    /** The next step of a blocking pipe_write: a byte goes in, or the writer waits for room, or the
        write ends, because all is written or because the pipe was flushed while it was full. */
    method WriteStep() returns (ended: bool, r: int)
      requires Valid() && writer.Writing?
      modifies this`writer, this`writePos, this`flushed, this`sent, buffer
      ensures Valid() && received == old(received)
      ensures ended ==>
                && writer == NoWrite && !flushed && sent == old(sent) && r == old(writer).written
                && sent == sentBefore + old(writer).data[..r]
                && (r == |old(writer).data| || (old(flushed) && |sent| - |received| == 4095))
      ensures !ended ==>
                && old(writer.written < |writer.data|) && flushed == old(flushed)
                && if old(|sent| - |received|) < 4095
                   then writer == Writing(old(writer).data, old(writer).written + 1) && |sent| == |old(sent)| + 1
                   else !flushed && writer == old(writer) && sent == old(sent)
    {
      ended, r := false, 0;
      var w := writer;
      FullCount(PIPE_SIZE, writePos, readPos);
      if w.written < |w.data| {
        if Advance(PIPE_SIZE, writePos) == readPos {
          if flushed {
            flushed := false;
            writer := NoWrite;
            return true, w.written;
          }
          // process_wait
        } else {
          PutByte(buffer[..], writePos, readPos, sent, received, w.data[w.written]);
          ghost var before := buffer[..];
          buffer[writePos] := w.data[w.written];
          assert buffer[..] == before[writePos := w.data[w.written]];
          writePos := Advance(PIPE_SIZE, writePos);
          sent := sent + [w.data[w.written]];
          assert w.data[..w.written + 1] == w.data[..w.written] + [w.data[w.written]];
          writer := Writing(w.data, w.written + 1);
        }
      } else {
        assert w.data[..w.written] == w.data;
        flushed := false;
        writer := NoWrite;
        ended, r := true, w.written;
      }
    }

    method BeginRead(size: int)
      requires Valid() && reader == NoRead
      modifies this`reader, this`receivedBefore
      ensures Valid() && reader == Reading(size, []) && receivedBefore == received
    {
      reader := Reading(size, []);
      receivedBefore := received;
    }

    /** The next step of a blocking pipe_read: a byte comes out, or the reader waits for one, or the
        read ends, because it has all it wants or because the pipe was flushed while it was empty. */
    method ReadStep() returns (ended: bool, data: seq<byte>)
      requires Valid() && reader.Reading?
      modifies this`reader, this`readPos, this`flushed, this`received
      ensures Valid() && sent == old(sent)
      ensures ended ==>
                && reader == NoRead && !flushed && received == old(received) && data == old(reader).got
                && received == receivedBefore + data
                && (|data| >= old(reader).size || (old(flushed) && sent == received))
      ensures !ended ==>
                && |old(reader).got| < old(reader).size && flushed == old(flushed)
                && if sent != old(received)
                   then reader.Reading? && reader.size == old(reader).size && |reader.got| == |old(reader).got| + 1
                        && old(reader).got <= reader.got && |received| == |old(received)| + 1
                   else !flushed && reader == old(reader) && received == old(received)
    {
      ended, data := false, [];
      var d := reader;
      FullCount(PIPE_SIZE, writePos, readPos);
      if |d.got| < d.size {
        if writePos == readPos {
          if flushed {
            flushed := false;
            reader := NoRead;
            assert received + [] == received;
            return true, d.got;
          }
          // process_wait
        } else {
          TakeByte(buffer[..], writePos, readPos, sent, received);
          var b := buffer[readPos];
          readPos := Advance(PIPE_SIZE, readPos);
          received := received + [b];
          assert receivedBefore + d.got + [b] == receivedBefore + (d.got + [b]);
          reader := Reading(d.size, d.got + [b]);
        }
      } else {
        flushed := false;
        reader := NoRead;
        ended, data := true, d.got;
      }
    }

    /** pipe_read_nonblock: as much as there is. */
    method ReadNonblock(size: nat) returns (data: seq<byte>)
      requires Valid() && reader == NoRead
      modifies this`readPos, this`flushed, this`received
      ensures Valid() && !flushed && sent == old(sent) && received == old(received) + data
      ensures |data| == if size < |old(sent)| - |old(received)| then size else |old(sent)| - |old(received)|
    {
      data := [];
      assert received + data == received;
      while |data| < size && readPos != writePos
        invariant Valid() && sent == old(sent) && received == old(received) + data && |data| <= size
      {
        TakeByte(buffer[..], writePos, readPos, sent, received);
        assert received + [buffer[readPos]] == old(received) + (data + [buffer[readPos]]);
        received, data := received + [buffer[readPos]], data + [buffer[readPos]];
        readPos := Advance(PIPE_SIZE, readPos);
      }
      FullCount(PIPE_SIZE, writePos, readPos);
      flushed := false;
    }

    /** How many bytes there is room for. */
    function Room(): (n: nat)
      requires writePos < PIPE_SIZE && readPos < PIPE_SIZE
      reads this
    {
      PIPE_SIZE - 1 - Count(PIPE_SIZE, writePos, readPos)
    }

    /** pipe_write_nonblock: as much as there is room for, unless the reader is at the start of the
        ring: then everything is written. The stream is kept exactly when the reader is elsewhere or
        there is room for everything. */
    method WriteNonblock(data: seq<byte>) returns (r: nat)
      requires Valid() && writer == NoWrite
      modifies this`writePos, this`flushed, this`sent, buffer
      ensures r <= |data| && !flushed && sent == old(sent) + data[..r]
      ensures r == if old(readPos) == 0 || |data| <= old(Room()) then |data| else old(Room())
      ensures writePos == Further(old(writePos), r)
      ensures Valid() <==> (old(readPos) != 0 || |data| <= old(Room()))
    {
      hide Further, Pending;
      ghost var room, sent0, start := Room(), sent, writePos;
      r := 0;
      OneFurther(start, 0, 1);
      while r < |data| && writePos != Rem(readPos - 1, PIPE_SIZE)
        invariant r <= |data| && writePos == Further(start, r) && |buffer[..]| == PIPE_SIZE
        invariant sent == sent0 + data[..r] && |sent0| == |received| + PIPE_SIZE - 1 - room
        invariant (readPos != 0 ==> r <= room) && (r <= room ==> Stream(buffer[..], writePos, readPos, sent, received))
      {
        RoomLeft(buffer[..], writePos, readPos, sent, received, room - r);
        OneFurther(start, r, r + 1);
        PutUnchecked(data[r]);
        assert sent0 + data[..r] + [data[r]] == sent0 + data[..r + 1];
        r := r + 1;
      }
      flushed := false;
      RoomLeft(buffer[..], writePos, readPos, sent, received, room - r);
    }

    /** A byte goes in, whether there is room or not. */
    method PutUnchecked(b: byte)
      requires writePos < PIPE_SIZE && readPos < PIPE_SIZE && |buffer[..]| == PIPE_SIZE
      modifies this`writePos, this`sent, buffer
      ensures writePos == Advance(PIPE_SIZE, old(writePos)) && sent == old(sent) + [b]
      ensures old(Stream(buffer[..], writePos, readPos, sent, received) && !IsFull(PIPE_SIZE, writePos, readPos)) ==>
                Stream(buffer[..], writePos, readPos, sent, received)
    {
      ghost var before, at := buffer[..], writePos;
      if Stream(before, at, readPos, sent, received) && !IsFull(PIPE_SIZE, at, readPos) {
        PutByte(before, at, readPos, sent, received, b);
      }
      buffer[writePos] := b;
      assert buffer[..] == before[at := b];
      writePos := Advance(PIPE_SIZE, writePos);
      sent := sent + [b];
    }

    /** Any interleaving of the steps of writes and of reads, with flushes at any time: what the
        writes say they wrote is what the reads returned followed by what is still in the pipe. */
    method Run(steps: seq<Step>) returns (written: seq<byte>, read: seq<byte>)
      requires Valid() && writer == NoWrite && reader == NoRead && sent == [] && received == []
      modifies this, buffer
      ensures Valid()
      ensures written + (if writer.Writing? then writer.data[..writer.written] else [])
           == read + (if reader.Reading? then reader.got else []) + Pending(buffer[..], writePos, readPos)
    {
      hide Pending, Count, Further;
      written, read := [], [];
      for k := 0 to |steps|
        invariant Valid()
        invariant written == (if writer.Writing? then sentBefore else sent)
                  && read == (if reader.Reading? then receivedBefore else received)
      {
        match steps[k] {
          case StartWrite(data) => if writer == NoWrite { BeginWrite(data); }
          case WriterStep =>
            if writer.Writing? {
              var data := writer.data;
              var ended, r := WriteStep();
              if ended { written := written + data[..r]; }
            }
          case StartRead(size) => if reader == NoRead { BeginRead(size); }
          case ReaderStep =>
            if reader.Reading? {
              var ended, data := ReadStep();
              if ended { read := read + data; }
            }
          case TryRead(most) =>
            if reader == NoRead {
              var data := ReadNonblock(most);
              read := read + data;
            }
          case TryWrite(data) =>
            if writer == NoWrite && (readPos != 0 || |data| <= Room()) {
              var r := WriteNonblock(data);
              written := written + data[..r];
            }
          case FlushStep => Flush();
        }
      }
      assert written + [] == written && read + [] == read;
    }
  }

  datatype Step = StartWrite(data: seq<byte>) | WriterStep | StartRead(size: int) | ReaderStep | TryRead(most: nat)
                | TryWrite(data: seq<byte>) | FlushStep

  /** The remainder as the source's language computes it, with the sign of the dividend. */
  function Rem(a: int, b: int): int
    requires b > 0
  {
    if a >= 0 then a % b else -(-a % b)
  }

  /** The full test of a non-blocking write compares with (read_pos - 1) % PIPE_SIZE. It says what
      it should except when the reader is at the start of the ring and the writer at its end. */
  lemma NonblockingFullTest(writePos: nat, readPos: nat)
    requires writePos < PIPE_SIZE && readPos < PIPE_SIZE
    ensures (writePos == Rem(readPos - 1, PIPE_SIZE) <==> IsFull(PIPE_SIZE, writePos, readPos))
       <==> !(readPos == 0 && writePos == PIPE_SIZE - 1)
  {
    if readPos == 0 {
      assert Rem(-1, PIPE_SIZE) == -1;
    } else {
      assert Rem(readPos - 1, PIPE_SIZE) == readPos - 1;
    }
  }

  /** Where the stream breaks: 4096 bytes written to a new pipe, all of them accepted, leave it
      looking empty. */
  method Overrun() returns (p: Pipe, r: nat)
    ensures r == 4096 && p.writePos == p.readPos && |p.sent| == |p.received| + 4096 && !p.Valid()
  {
    p := new Pipe();
    r := p.WriteNonblock(seq(PIPE_SIZE, _ => 0));
  }
}
