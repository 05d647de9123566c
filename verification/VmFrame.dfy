/** Cursors over memory, and byte access to a vector of frames. */
module VmFrames {
  import opened PageTables
  import opened FlatMemory

  class VmReader {
    const mem: array<Byte>
    var cursor: nat
    var end: nat

    ghost predicate Valid()
      reads this
    {
      cursor <= end <= mem.Length
    }

    constructor (mem: array<Byte>)
      ensures Valid() && this.mem == mem && cursor == 0 && end == mem.Length
    {
      this.mem, cursor, end := mem, 0, mem.Length;
    }

    function Remain(): nat
      requires Valid()
      reads this
    {
      end - cursor
    }

    /** `limit`. */
    method Limit(maxRemain: nat)
      requires Valid()
      modifies this`end
      ensures Valid() && Remain() == Min(maxRemain, old(Remain()))
    {
      if maxRemain < Remain() { end := cursor + maxRemain; }
    }

    /** `skip`: the caller must not skip more than remains. */
    method Skip(n: nat)
      requires Valid() && n <= Remain()
      modifies this`cursor
      ensures Valid() && Remain() == old(Remain()) - n && cursor == old(cursor) + n
    {
      cursor := cursor + n;
    }

    /** `VmReader::read`, which is `VmWriter::write` seen from the other side: as many bytes as both sides have are
        copied,
        as they were before, even if the two ranges overlap. */
    method Read(writer: VmWriter) returns (len: nat)
      requires Valid() && writer.Valid()
      modifies this`cursor, writer`cursor, writer.mem
      ensures Valid() && writer.Valid()
      ensures len == Min(old(Remain()), old(writer.Avail()))
      ensures cursor == old(cursor) + len && writer.cursor == old(writer.cursor) + len
      ensures forall k | 0 <= k < writer.mem.Length ::
                writer.mem[k] == if old(writer.cursor) <= k < writer.cursor
                                 then old(mem[..])[old(cursor) + (k - old(writer.cursor))] else old(writer.mem[k])
    {
      len := Min(Remain(), writer.Avail());
      if len == 0 { return; }
      ghost var source := mem[..];
      forall k | writer.cursor <= k < writer.cursor + len { writer.mem[k] := mem[cursor + (k - writer.cursor)]; }
      cursor := cursor + len;
      writer.cursor := writer.cursor + len;
    }
  }

  class VmWriter {
    const mem: array<Byte>
    var cursor: nat
    var end: nat

    ghost predicate Valid()
      reads this
    {
      cursor <= end <= mem.Length
    }

    constructor (mem: array<Byte>)
      ensures Valid() && this.mem == mem && cursor == 0 && end == mem.Length
    {
      this.mem, cursor, end := mem, 0, mem.Length;
    }

    function Avail(): nat
      requires Valid()
      reads this
    {
      end - cursor
    }

    /** `limit`. */
    method Limit(maxAvail: nat)
      requires Valid()
      modifies this`end
      ensures Valid() && Avail() == Min(maxAvail, old(Avail()))
    {
      if maxAvail < Avail() { end := cursor + maxAvail; }
    }

    /** `skip`: the caller must not skip more than is available. */
    method Skip(n: nat)
      requires Valid() && n <= Avail()
      modifies this`cursor
      ensures Valid() && Avail() == old(Avail()) - n && cursor == old(cursor) + n
    {
      cursor := cursor + n;
    }
  }

  ghost predicate FramesValid(frames: seq<array<Byte>>) {
    && (forall i | 0 <= i < |frames| :: frames[i].Length == PAGE_SIZE)
    && (forall i, j | 0 <= i < j < |frames| :: frames[i] != frames[j])
  }

  /** `VmFrameVec::read_bytes`: the frames are one run of bytes, of which the given range is read. */
  method ReadFrames(frames: seq<array<Byte>>, offset: nat, buf: array<Byte>) returns (ok: bool)
    requires FramesValid(frames) && buf !in frames
    modifies buf
    ensures ok <==> buf.Length + offset <= |frames| * PAGE_SIZE
    ensures !ok ==> buf[..] == old(buf[..])
    ensures ok ==> ReadTo(frames, offset, buf, buf.Length)
  {
    if buf.Length + offset > |frames| * PAGE_SIZE { return false; }
    var start: nat := offset % PAGE_SIZE;
    var writer := new VmWriter(buf);
    var n := offset / PAGE_SIZE;
    while n < |frames|
      invariant fresh(writer) && writer.Valid() && writer.mem == buf && writer.end == buf.Length
      invariant start < PAGE_SIZE && (writer.cursor == buf.Length || offset + writer.cursor == n * PAGE_SIZE + start)
      invariant ReadTo(frames, offset, buf, writer.cursor)
    {
      var len := ReadNext(frames, n, start, offset, writer);
      if len == 0 { break; }
      start := 0;
      n := n + 1;
    }
    return true;
  }

  /** What is read from one frame. */
  method ReadNext(frames: seq<array<Byte>>, n: nat, start: nat, ghost offset: nat, writer: VmWriter) returns (len: nat)
    requires FramesValid(frames) && writer.mem !in frames && n < |frames| && start < PAGE_SIZE
    requires writer.Valid() && writer.end == writer.mem.Length && ReadTo(frames, offset, writer.mem, writer.cursor)
    requires writer.cursor == writer.mem.Length || offset + writer.cursor == n * PAGE_SIZE + start
    modifies writer`cursor, writer.mem
    ensures writer.Valid() && ReadTo(frames, offset, writer.mem, writer.cursor)
    ensures writer.cursor == old(writer.cursor) + len && (len == 0 <==> old(writer.cursor) == writer.mem.Length)
    ensures writer.cursor == writer.mem.Length || offset + writer.cursor == (n + 1) * PAGE_SIZE
  {
    var reader := new VmReader(frames[n]);
    reader.Skip(start);
    len := reader.Read(writer);
  }

  /** The first `done` bytes of `buf` are those of the frames from `offset` on. */
  ghost predicate ReadTo(frames: seq<array<Byte>>, offset: nat, buf: array<Byte>, done: nat)
    requires FramesValid(frames) && done <= buf.Length
    reads frames, buf
  {
    forall i, j | 0 <= i < |frames| && 0 <= j < PAGE_SIZE && offset <= i * PAGE_SIZE + j < offset + done ::
      buf[i * PAGE_SIZE + j - offset] == frames[i][j]
  }

  /** `VmFrameVec::write_bytes`: exactly the given range of the frames is written. */
  method WriteFrames(frames: seq<array<Byte>>, offset: nat, buf: array<Byte>) returns (ok: bool)
    requires FramesValid(frames) && buf !in frames
    modifies frames
    ensures ok <==> buf.Length + offset <= |frames| * PAGE_SIZE
    ensures forall i, j | 0 <= i < |frames| && 0 <= j < PAGE_SIZE ::
              frames[i][j] == if ok && offset <= i * PAGE_SIZE + j < offset + buf.Length
                              then buf[i * PAGE_SIZE + j - offset] else old(frames[i][j])
  {
    if buf.Length + offset > |frames| * PAGE_SIZE { return false; }
    var start: nat := offset % PAGE_SIZE;
    var reader := new VmReader(buf);
    var n := offset / PAGE_SIZE;
    ghost var before := seq(|frames|, i requires 0 <= i < |frames| reads frames => frames[i][..]);
    while n < |frames|
      invariant fresh(reader) && reader.Valid() && reader.mem == buf && reader.end == buf.Length
      invariant start < PAGE_SIZE && (reader.cursor == buf.Length || offset + reader.cursor == n * PAGE_SIZE + start)
      invariant WrittenTo(frames, before, offset, buf, reader.cursor)
    {
      var len := WriteNext(frames, before, n, start, offset, reader);
      if len == 0 { break; }
      start := 0;
      n := n + 1;
    }
    return true;
  }

  ghost predicate WrittenTo(frames: seq<array<Byte>>, before: seq<seq<Byte>>, offset: nat, buf: array<Byte>, done: nat)
    requires FramesValid(frames) && done <= buf.Length
    reads frames, buf
  {
    && |before| == |frames| && (forall i | 0 <= i < |before| :: |before[i]| == PAGE_SIZE)
    && forall i, j | 0 <= i < |frames| && 0 <= j < PAGE_SIZE ::
         frames[i][j] == if offset <= i * PAGE_SIZE + j < offset + done then buf[i * PAGE_SIZE + j - offset]
                         else before[i][j]
  }

  /** What is written to one frame. */
  method WriteNext(frames: seq<array<Byte>>, ghost before: seq<seq<Byte>>, n: nat, start: nat, ghost offset: nat,
                   reader: VmReader) returns (len: nat)
    requires FramesValid(frames) && reader.mem !in frames && n < |frames| && start < PAGE_SIZE
    requires reader.Valid() && reader.end == reader.mem.Length
    requires WrittenTo(frames, before, offset, reader.mem, reader.cursor)
    requires reader.cursor == reader.mem.Length || offset + reader.cursor == n * PAGE_SIZE + start
    modifies reader`cursor, frames[n]
    ensures reader.Valid() && WrittenTo(frames, before, offset, reader.mem, reader.cursor)
    ensures reader.cursor == old(reader.cursor) + len && (len == 0 <==> old(reader.cursor) == reader.mem.Length)
    ensures reader.cursor == reader.mem.Length || offset + reader.cursor == (n + 1) * PAGE_SIZE
  {
    var writer := new VmWriter(frames[n]);
    writer.Skip(start);
    len := reader.Read(writer);
  }
}
