/** A byte sequence cut into file blocks, dealt to streams in turn, each compressed in the context of the stream's
    earlier blocks and of the block before, which is still in the stream's other half-buffer. */
module FileBlocks {
  import opened Arithmetic

  type Byte = bv8
  type Block = seq<Byte>

  const FILE_BUF_SIZE: nat := 64 * 1024

  function BlockCount(data: seq<Byte>): nat {
    (|data| + FILE_BUF_SIZE - 1) / FILE_BUF_SIZE
  }

  function BlockEnd(data: seq<Byte>, k: nat): (e: nat) {
    if (k + 1) * FILE_BUF_SIZE < |data| then (k + 1) * FILE_BUF_SIZE else |data|
  }

  /** The k-th block: full but for the last one. */
  function BlockAt(data: seq<Byte>, k: nat): (b: Block)
    requires k < BlockCount(data)
  {
    data[k * FILE_BUF_SIZE..BlockEnd(data, k)]
  }

  function Blocks(data: seq<Byte>): (r: seq<Block>) {
    seq(BlockCount(data), k requires 0 <= k < BlockCount(data) => BlockAt(data, k))
  }

  function Joined(blocks: seq<Block>): (data: seq<Byte>) {
    if blocks == [] then [] else Joined(blocks[..|blocks| - 1]) + blocks[|blocks| - 1]
  }

  lemma JoinedMore(blocks: seq<Block>, k: nat)
    requires k < |blocks|
    ensures Joined(blocks[..k + 1]) == Joined(blocks[..k]) + blocks[k]
  {
    assert blocks[..k + 1][..k] == blocks[..k];
  }

  lemma JoinedNone()
    ensures Joined([]) == []
  {
  }

  lemma SliceMore(data: seq<Byte>, from: nat, to: nat)
    requires from <= to <= |data|
    ensures data[..from] + data[from..to] == data[..to]
  {
  }

  lemma {:induction false} JoinedPrefix(data: seq<Byte>, k: nat)
    requires k < BlockCount(data)
    ensures Joined(Blocks(data)[..k + 1]) == data[..BlockEnd(data, k)]
    decreases k
  {
    hide Joined;
    var blocks := Blocks(data);
    JoinedMore(blocks, k);
    if k > 0 {
      JoinedPrefix(data, k - 1);
      SliceMore(data, k * FILE_BUF_SIZE, BlockEnd(data, k));
    } else {
      JoinedNone();
    }
  }

  /** The blocks joined are the data, and only the last one may be short. */
  lemma JoinedBlocks(data: seq<Byte>)
    ensures Joined(Blocks(data)) == data
    ensures forall k :: 0 <= k < |Blocks(data)| - 1 ==> |Blocks(data)[k]| == FILE_BUF_SIZE
    ensures forall k :: 0 <= k < |Blocks(data)| ==> 0 < |Blocks(data)[k]| <= FILE_BUF_SIZE
  {
    var n := BlockCount(data);
    if n > 0 {
      JoinedPrefix(data, n - 1);
      assert Blocks(data)[..n] == Blocks(data);
    }
  }

  // ---- turns -----------------------------------------------------------------------------------------------

  /** The first turn of stream s from turn p on, with n streams in a ring. */
  function NextTurn(s: nat, p: nat, n: nat): (k: nat)
    requires s < n
  {
    p + (s - p) % n
  }

  lemma SameRemainder(j: nat, k: nat, n: nat)
    requires n > 0 && j % n == k % n && j <= k < j + n
    ensures j == k
  {
    RemainderIs(j, n);
    RemainderIs(k, n);
    assert (k / n - j / n) * n == k - j;
    TimesBetween(k / n - j / n, n);
  }

  lemma NextTurnIs(s: nat, p: nat, n: nat)
    requires s < n
    ensures p <= NextTurn(s, p, n) < p + n && NextTurn(s, p, n) % n == s
  {
    var q := (s - p) / n;
    RemainderIs(s - p, n);
    RemainderUnique(NextTurn(s, p, n), n, -q, s);
  }

  /** Which streams' turns move when turn p is taken. */
  lemma NextTurnStep(s: nat, p: nat, n: nat)
    requires s < n
    ensures NextTurn(s, p, n) == p <==> s == p % n
    ensures NextTurn(s, p + 1, n) == if s == p % n then p + n else NextTurn(s, p, n)
  {
    NextTurnIs(s, p, n);
    NextTurnIs(s, p + 1, n);
    var k, k' := NextTurn(s, p, n), NextTurn(s, p + 1, n);
    if s == p % n {
      SameRemainder(p, k, n);
      RemainderIs(p, n);
      RemainderUnique(p + n, n, p / n + 1, s);
      if k' <= p + n {
        SameRemainder(k', p + n, n);
      }
    } else if k <= k' {
      SameRemainder(k, k', n);
    } else {
      SameRemainder(k', k, n);
    }
  }

  lemma RingStep(p: nat, n: nat)
    requires n > 0
    ensures (p % n + 1) % n == (p + 1) % n
  {
    var r := p % n;
    RemainderIs(p, n);
    if r + 1 < n {
      RemainderUnique(p + 1, n, p / n, r + 1);
      RemainderUnique(r + 1, n, 0, r + 1);
    } else {
      RemainderUnique(p + 1, n, p / n + 1, 0);
      RemainderUnique(r + 1, n, 1, 0);
    }
  }

  /** The stream of the oldest pending turn. */
  lemma OldestTurn(p: nat, t: nat, n: nat)
    requires n > 0 && t <= p <= t + n
    ensures (p % n + n - (p - t)) % n == t % n
  {
    var r := t % n;
    RemainderIs(p, n);
    RemainderIs(t, n);
    RemainderUnique(p % n + n - (p - t), n, t / n + 1 - p / n, r);
  }

  lemma TurnTaken(t: nat, k: nat, n: nat, id: nat, i: nat)
    requires id < n && i < n && k % n == i && id == t % n && k <= t + 2 * n
    ensures k == t + n ==> i == id
    ensures i == id && k >= n && t <= k - n < t + n ==> k == t + n
  {
    RemainderIs(t, n);
    RemainderIs(k, n);
    if k == t + n {
      RemainderUnique(k, n, t / n + 1, t % n);
    }
    if i == id && k >= n && t <= k - n < t + n {
      RemainderUnique(k - n, n, k / n - 1, k % n);
      SameRemainder(t, k - n, n);
    }
  }

  /** The next turn of the stream whose turn t is the oldest one pending. */
  lemma OldestIs(t: nat, p: nat, k: nat, n: nat, id: nat)
    requires n > 0 && id == t % n && k % n == id && t < p <= k < p + n && p <= t + n
    ensures k == t + n
  {
    RemainderIs(t, n);
    RemainderUnique(t + n, n, t / n + 1, id);
    if k <= t + n {
      SameRemainder(k, t + n, n);
    } else {
      SameRemainder(t + n, k, n);
    }
  }

  // ---- the codec -------------------------------------------------------------------------------------------

  type Frame = seq<Byte>

  /** One stream's codec. What it makes of a block depends on the blocks that went through it before and on the
      contents of the other half-buffer. */
  datatype Codec = Codec(enc: (seq<Block>, Block, Block) -> Frame, dec: (seq<Block>, Block, Frame) -> Block)

  ghost predicate Inverse(c: Codec) {
    forall h: seq<Block>, d: Block, b: Block :: c.dec(h, d, c.enc(h, d, b)) == b
  }

  /** The blocks of turn k's stream before it, and the last of them. */
  function History(blocks: seq<Block>, n: nat, k: nat): (h: seq<Block>)
    requires n > 0 && k < |blocks| + n
  {
    if k < n then [] else History(blocks, n, k - n) + [blocks[k - n]]
  }

  function Previous(blocks: seq<Block>, n: nat, k: nat): (b: Block)
    requires k < |blocks| + n
  {
    if k < n then [] else blocks[k - n]
  }

  function FrameAt(c: Codec, blocks: seq<Block>, n: nat, k: nat): (f: Frame)
    requires n > 0 && k < |blocks|
  {
    c.enc(History(blocks, n, k), Previous(blocks, n, k), blocks[k])
  }

  /** The file: one frame a block, in order. */
  function Frames(c: Codec, blocks: seq<Block>, n: nat): (r: seq<Frame>)
    requires n > 0
  {
    seq(|blocks|, k requires 0 <= k < |blocks| => FrameAt(c, blocks, n, k))
  }
}
