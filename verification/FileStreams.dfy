/** FileWrite and FileRead as their callers see them: chunks of any size go in, reads and skips of any size come out.
    What the rings of streams do with the blocks is in WriteRing and ReadRing. */
module FileStreams {
  import opened FileBlocks
  import ReadRing
  import WriteRing

  /** All blocks but the last are full, and none is empty. */
  ghost predicate WellCut(blocks: seq<Block>) {
    (forall k :: 0 <= k < |blocks| - 1 ==> |blocks[k]| == FILE_BUF_SIZE) &&
    (forall k :: 0 <= k < |blocks| ==> 0 < |blocks[k]| <= FILE_BUF_SIZE)
  }

  ghost predicate AllFull(blocks: seq<Block>) {
    forall k :: 0 <= k < |blocks| ==> |blocks[k]| == FILE_BUF_SIZE
  }

  lemma {:induction false} FullLength(blocks: seq<Block>)
    requires AllFull(blocks)
    ensures |Joined(blocks)| == |blocks| * FILE_BUF_SIZE
    decreases |blocks|
  {
    if blocks != [] {
      FullLength(blocks[..|blocks| - 1]);
    }
  }

  /** There is only one way to cut a byte sequence. */
  lemma {:induction false} CutUnique(blocks: seq<Block>)
    requires WellCut(blocks)
    ensures Blocks(Joined(blocks)) == blocks
    decreases |blocks|
  {
    var data := Joined(blocks);
    if blocks != [] {
      var last := |blocks| - 1;
      var front := blocks[..last];
      assert AllFull(front);
      FullLength(front);
      CutUnique(front);
      assert BlockCount(data) == |blocks|;
      forall k | 0 <= k < |blocks| ensures BlockAt(data, k) == blocks[k] {
        CutAt(blocks, k);
      }
    }
  }

  lemma CutAt(blocks: seq<Block>, k: nat)
    requires WellCut(blocks) && k < |blocks| == BlockCount(Joined(blocks))
    requires Blocks(Joined(blocks[..|blocks| - 1])) == blocks[..|blocks| - 1]
    requires |Joined(blocks[..|blocks| - 1])| == (|blocks| - 1) * FILE_BUF_SIZE
    ensures BlockAt(Joined(blocks), k) == blocks[k]
  {
    var last := |blocks| - 1;
    var front := Joined(blocks[..last]);
    if k < last {
      assert blocks[k] == blocks[..last][k] == Blocks(front)[k] == BlockAt(front, k);
      assert BlockAt(Joined(blocks), k) == BlockAt(front, k);
    }
  }

  lemma JoinedOne(blocks: seq<Block>, b: Block)
    ensures Joined(blocks + [b]) == Joined(blocks) + b
  {
    assert (blocks + [b])[..|blocks|] == blocks;
  }

  lemma Associate(a: seq<Byte>, b: seq<Byte>, c: seq<Byte>)
    ensures a + (b + c) == (a + b) + c
  {
  }

  // ---- writing ---------------------------------------------------------------------------------------------

  class FileWrite {
    var m_buf: seq<Byte>
    var m_offset: nat
    var m_srcBytes: nat
    var finished: bool
    /** The blocks handed to the ring. */
    var blocks: seq<Block>
    /** All bytes written. */
    ghost var data: seq<Byte>

    ghost predicate Valid()
      reads this
    {
      m_offset == |m_buf| <= FILE_BUF_SIZE && data == Joined(blocks) + m_buf && m_srcBytes == |Joined(blocks)| &&
      (if finished then m_buf == [] && WellCut(blocks) else AllFull(blocks))
    }

    constructor ()
      ensures Valid() && data == [] && !finished
    {
      m_buf, m_offset, m_srcBytes, finished, blocks, data := [], 0, 0, false, [], [];
    }

    method WriteSmall(src: seq<Byte>)
      requires Valid() && !finished && m_offset + |src| <= FILE_BUF_SIZE
      modifies this
      ensures Valid() && !finished && data == old(data) + src
    {
      Associate(Joined(blocks), m_buf, src);
      m_buf := m_buf[..m_offset] + src;
      m_offset := m_offset + |src|;
      data := data + src;
    }

    /** WriteBlock: hands the buffer to the next stream and goes on with an empty one. */
    method WriteBlock()
      requires Valid() && !finished && m_offset > 0
      modifies this
      ensures data == old(data) && m_buf == [] && m_offset == 0 && blocks == old(blocks) + [old(m_buf)]
      ensures WellCut(blocks) && data == Joined(blocks) && m_srcBytes == |data| && finished == old(finished)
      ensures old(m_offset) == FILE_BUF_SIZE ==> Valid()
    {
      m_srcBytes := m_srcBytes + m_offset;
      JoinedOne(blocks, m_buf);
      blocks := blocks + [m_buf];
      m_offset, m_buf := 0, [];
    }

    /** WriteBig: fills the buffer piece by piece, handing it on whenever it is full. */
    method WriteBig(src: seq<Byte>)
      requires Valid() && !finished
      modifies this
      ensures Valid() && !finished && data == old(data) + src
    {
      var done := 0;
      while done < |src|
        invariant 0 <= done <= |src| && Valid() && !finished
        invariant data == old(data) + src[..done]
        decreases |src| - done, m_offset
      {
        var sz := if |src| - done < FILE_BUF_SIZE - m_offset then |src| - done else FILE_BUF_SIZE - m_offset;
        assert src[..done] + src[done..done + sz] == src[..done + sz];
        Associate(old(data), src[..done], src[done..done + sz]);
        WriteSmall(src[done..done + sz]);
        done := done + sz;
        if m_offset == FILE_BUF_SIZE {
          WriteBlock();
        }
      }
      assert src[..|src|] == src;
    }

    /** Write */
    method Write(src: seq<Byte>)
      requires Valid() && !finished
      modifies this
      ensures Valid() && !finished && data == old(data) + src
    {
      if m_offset + |src| <= FILE_BUF_SIZE {
        WriteSmall(src);
      } else {
        WriteBig(src);
      }
    }

    /** Finish: whatever the sizes of the chunks were, the blocks handed out are those of the data as a whole. */
    method Finish()
      requires Valid() && !finished
      modifies this
      ensures Valid() && finished && data == old(data) && blocks == Blocks(data)
    {
      if m_offset > 0 {
        WriteBlock();
      }
      finished := true;
      assert data == Joined(blocks);
      CutUnique(blocks);
    }
  }

  // ---- reading ---------------------------------------------------------------------------------------------

  class FileRead {
    /** The blocks the ring delivers, and how many have been taken. */
    const blocks: seq<Block>
    var taken: nat
    var m_buf: Block
    var m_offset: nat
    ghost const data: seq<Byte>

    ghost predicate Valid()
      reads this
    {
      blocks == Blocks(data) && 0 < taken <= |blocks| && m_buf == blocks[taken - 1] && m_offset <= FILE_BUF_SIZE &&
      Pos() <= |data|
    }

    /** How many bytes have been read or skipped. */
    ghost function Pos(): int
      reads this
    {
      (taken - 1) * FILE_BUF_SIZE + m_offset
    }

    constructor (blocks: seq<Block>, ghost data: seq<Byte>)
      requires blocks == Blocks(data) && |data| > 0
      ensures Valid() && Pos() == 0 && this.data == data
    {
      this.blocks, this.data := blocks, data;
      taken, m_buf, m_offset := 1, blocks[0], 0;
    }

    /** GetNextDataBlock */
    method GetNextDataBlock()
      requires Valid() && m_offset == FILE_BUF_SIZE && Pos() < |data|
      modifies this
      ensures Valid() && Pos() == old(Pos()) && m_offset == 0
    {
      m_buf := blocks[taken];
      taken := taken + 1;
      m_offset := 0;
    }

    /** The buffer holds what the data holds from here on, as far as the data go. */
    lemma BufferHolds(size: nat)
      requires Valid() && size <= FILE_BUF_SIZE - m_offset && Pos() + size <= |data|
      ensures m_offset + size <= |m_buf| && 0 <= Pos() && m_buf[m_offset..m_offset + size] == data[Pos()..Pos() + size]
    {
      assert m_buf == BlockAt(data, taken - 1);
    }

    method ReadSmall(size: nat) returns (dst: seq<Byte>)
      requires Valid() && size <= FILE_BUF_SIZE - m_offset && Pos() + size <= |data|
      modifies this`m_offset
      ensures Valid() && Pos() == old(Pos()) + size && 0 <= old(Pos()) && dst == data[old(Pos())..old(Pos()) + size]
    {
      BufferHolds(size);
      dst := m_buf[m_offset..m_offset + size];
      m_offset := m_offset + size;
    }

    /** ReadBig: piece by piece, with the next block whenever the buffer is used up. */
    method ReadBig(size: nat) returns (dst: seq<Byte>)
      requires Valid() && size > 0 && Pos() + size <= |data|
      modifies this
      ensures Valid() && Pos() == old(Pos()) + size && 0 <= old(Pos()) && dst == data[old(Pos())..old(Pos()) + size]
    {
      dst := [];
      ghost var from := Pos();
      var left := size;
      while left > 0
        invariant Valid() && 0 <= left <= size && 0 <= from && Pos() == from + size - left
        invariant dst == data[from..Pos()]
        decreases left
      {
        if m_offset == FILE_BUF_SIZE {
          GetNextDataBlock();
        }
        ghost var at := Pos();
        var sz := if left < FILE_BUF_SIZE - m_offset then left else FILE_BUF_SIZE - m_offset;
        var piece := ReadSmall(sz);
        assert data[from..at] + data[at..at + sz] == data[from..at + sz];
        dst := dst + piece;
        left := left - sz;
      }
    }

    /** Read: the bytes the data hold at the position, if there are as many. */
    method Read(size: nat) returns (dst: seq<Byte>)
      requires Valid() && Pos() + size <= |data|
      modifies this
      ensures Valid() && Pos() == old(Pos()) + size && 0 <= old(Pos()) && dst == data[old(Pos())..old(Pos()) + size]
    {
      if size <= FILE_BUF_SIZE - m_offset {
        dst := ReadSmall(size);
      } else {
        dst := ReadBig(size);
      }
    }

    method SkipBig(size: nat)
      requires Valid() && Pos() + size <= |data|
      modifies this
      ensures Valid() && Pos() == old(Pos()) + size
    {
      var left := size;
      while left > 0
        invariant Valid() && 0 <= left <= size && Pos() == old(Pos()) + size - left
        decreases left
      {
        if m_offset == FILE_BUF_SIZE {
          GetNextDataBlock();
        }
        var sz := if left < FILE_BUF_SIZE - m_offset then left else FILE_BUF_SIZE - m_offset;
        m_offset := m_offset + sz;
        left := left - sz;
      }
    }

    /** Skip */
    method Skip(size: nat)
      requires Valid() && Pos() + size <= |data|
      modifies this
      ensures Valid() && Pos() == old(Pos()) + size
    {
      if size <= FILE_BUF_SIZE - m_offset {
        m_offset := m_offset + size;
      } else {
        SkipBig(size);
      }
    }
  }

  // ---- writing, then reading -------------------------------------------------------------------------------

  /** Whatever the interleaving of the writer's threads was, and whatever that of the reader's threads is: all bytes
      read from the file of a finished writer are those that were written at that position, as many as asked for. */
  lemma RoundTrip(c: Codec, data: seq<Byte>, n: nat, writing: seq<WriteRing.Step>, m: nat, reading: seq<ReadRing.Step>)
    requires Inverse(c) && n > 0 && |data| > 0
    requires WriteRing.IsRun(c, data, n, WriteRing.Init(n), writing)
    requires WriteRing.After(c, data, n, WriteRing.Init(n), writing).pc == WriteRing.Done
    requires m == ReadRing.RingSize(n, |WriteRing.After(c, data, n, WriteRing.Init(n), writing).file|)
    requires m > 0 &&
      ReadRing.IsRun(c, data, WriteRing.After(c, data, n, WriteRing.Init(n), writing).file, m, ReadRing.Init(m),
                     reading)
    ensures ghost var file := WriteRing.After(c, data, n, WriteRing.Init(n), writing).file;
      ReadRing.Delivered(data, ReadRing.After(c, data, file, m, ReadRing.Init(m), reading).log,
                         ReadRing.Asked(reading, 0))
  {
    hide WriteRing.IsRun, WriteRing.After, ReadRing.IsRun, ReadRing.After, Inverse, ReadRing.Delivered, ReadRing.Asked,
      Frames, Blocks;
    WriteRing.WritingEnds(c, data, n, writing);
    ReadRing.CountsAre(c, data, n);
    ReadRing.ReadingWorks(c, data, n, m, reading);
  }
}
