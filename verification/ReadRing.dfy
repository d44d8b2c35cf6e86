/** The reading side of the file streams as a step machine: the main thread hands the frames of the file to a ring of
    streams, takes their output in turn, and reads from the half-buffer it got while the stream's worker already
    unpacks the stream's next block into the other half. */
module ReadRing {
  import opened Arithmetic
  import opened FileBlocks

  /** Where a worker is: waiting, about to swap its halves, unpacking into the new one, about to signal its output,
      or returned. */
  datatype WorkerPc = Idle | Busy | Unpacking | Signalling | Gone

  datatype Stream = Stream(half0: Block, half1: Block, cur: bool, src: Frame, hist: seq<Block>,
                           inputReady: bool, outputReady: bool, exit: bool, pc: WorkerPc)
  {
    function Half(which: bool): Block {
      if which then half1 else half0
    }

    function Current(): Block {
      Half(cur)
    }

    function Other(): Block {
      Half(!cur)
    }

    function WithCurrent(b: Block): Stream {
      if cur then this.(half1 := b) else this.(half0 := b)
    }
  }

  datatype MainPc = Setup(i: nat) | Waiting | Posting | Reading | Exiting(i: nat) | Joining | Done

  /** Bytes read, and the position in the data they were asked for. */
  datatype Piece = Piece(from: nat, bytes: seq<Byte>)

  /** dataOffset counts the frames handed out, got the blocks taken; pos is the sum of all sizes read and skipped. */
  datatype State = State(streams: seq<Stream>, pc: MainPc, offset: nat, held: (nat, bool), streamId: nat,
                         dataOffset: nat, got: nat, pos: nat, log: seq<Piece>)

  datatype Step =
    | SetupStream | TakeOutput | PostNext | Read(sz: nat) | Skip(sz: nat) | NextBlock | Quit | SetExit | Join
    | Start(i: nat) | Swap(i: nat) | Unpack(i: nat) | Signal(i: nat) | Leave(i: nat)

  function Fresh(): Stream {
    Stream([], [], false, [], [], false, false, false, Idle)
  }

  /** There are as many streams as the file says, or as there are frames if these are fewer. */
  function RingSize(n: nat, blockCount: nat): (m: nat) {
    if n < blockCount then n else blockCount
  }

  function Init(m: nat): State {
    State(seq(m, _ => Fresh()), Setup(0), 0, (0, false), 0, 0, 0, 0, [])
  }

  // ---- steps -----------------------------------------------------------------------------------------------

  predicate Shape(m: nat, s: State) {
    |s.streams| == m > 0 && s.streamId < m && s.held.0 < m && (s.pc.Setup? ==> s.pc.i <= m) &&
      (s.pc.Exiting? ==> s.pc.i <= m)
  }

  predicate Enabled(data: seq<Byte>, file: seq<Frame>, m: nat, s: State, step: Step)
    requires Shape(m, s)
  {
    match step
    case SetupStream => s.pc.Setup? && (s.pc.i < m ==> s.dataOffset < |file|)
    case TakeOutput => s.pc == Waiting && s.streams[s.streamId].outputReady
    case PostNext => s.pc == Posting
    case Read(sz) => s.pc == Reading && 0 < sz <= |data| - s.pos && s.offset + sz <= FILE_BUF_SIZE
    case Skip(sz) => s.pc == Reading && 0 < sz <= |data| - s.pos && s.offset + sz <= FILE_BUF_SIZE
    case NextBlock => s.pc == Reading && s.offset == FILE_BUF_SIZE && s.pos < |data|
    case Quit => s.pc == Reading
    case SetExit => s.pc.Exiting?
    case Join => s.pc == Joining && forall i :: 0 <= i < m ==> s.streams[i].pc == Gone
    case Start(i) => i < m && s.streams[i].pc == Idle && s.streams[i].inputReady && !s.streams[i].exit
    case Swap(i) => i < m && s.streams[i].pc == Busy
    case Unpack(i) => i < m && s.streams[i].pc == Unpacking
    case Signal(i) => i < m && s.streams[i].pc == Signalling
    case Leave(i) => i < m && s.streams[i].pc == Idle && s.streams[i].exit
  }

  function WithStream(s: State, i: nat, st: Stream): State
    requires i < |s.streams|
  {
    s.(streams := s.streams[i := st])
  }

  /** What memcpy finds at the offset. */
  function BytesAt(half: Block, offset: nat, sz: nat): seq<Byte> {
    if offset + sz <= |half| then half[offset..offset + sz] else []
  }

  function Fed(st: Stream, f: Frame): Stream {
    st.(src := f, inputReady := true)
  }

  function Unpacked(c: Codec, st: Stream): Stream {
    var b := c.dec(st.hist, st.Other(), st.src);
    st.WithCurrent(b).(hist := st.hist + [b], inputReady := false, pc := Signalling)
  }

  function Apply(c: Codec, data: seq<Byte>, file: seq<Frame>, m: nat, s: State, step: Step): State
    requires Shape(m, s) && Enabled(data, file, m, s, step)
  {
    match step
    case SetupStream =>
      if s.pc.i == m then s.(pc := Waiting)
      else WithStream(s, s.pc.i, Fed(s.streams[s.pc.i], file[s.dataOffset]))
           .(dataOffset := s.dataOffset + 1, pc := Setup(s.pc.i + 1))
    case TakeOutput =>
      var st := s.streams[s.streamId];
      WithStream(s, s.streamId, st.(outputReady := false))
      .(held := (s.streamId, st.cur), offset := 0, got := s.got + 1, pc := Posting)
    case PostNext =>
      var p := if s.dataOffset < |file|
               then WithStream(s, s.streamId,
                               Fed(s.streams[s.streamId], file[s.dataOffset])).(dataOffset := s.dataOffset + 1)
               else s;
      p.(streamId := (s.streamId + 1) % m, pc := Reading)
    case Read(sz) =>
      s.(log := s.log + [Piece(s.pos, BytesAt(s.streams[s.held.0].Half(s.held.1), s.offset, sz))],
         offset := s.offset + sz, pos := s.pos + sz)
    case Skip(sz) => s.(offset := s.offset + sz, pos := s.pos + sz)
    case NextBlock => s.(pc := Waiting)
    case Quit => s.(pc := Exiting(0))
    case SetExit =>
      if s.pc.i == m then s.(pc := Joining)
      else WithStream(s, s.pc.i, s.streams[s.pc.i].(exit := true)).(pc := Exiting(s.pc.i + 1))
    case Join => s.(pc := Done)
    case Start(i) => WithStream(s, i, s.streams[i].(pc := Busy))
    case Swap(i) => WithStream(s, i, s.streams[i].(cur := !s.streams[i].cur, pc := Unpacking))
    case Unpack(i) => WithStream(s, i, Unpacked(c, s.streams[i]))
    case Signal(i) => WithStream(s, i, s.streams[i].(outputReady := true, pc := Idle))
    case Leave(i) => WithStream(s, i, s.streams[i].(pc := Gone))
  }

  // ---- the invariant ---------------------------------------------------------------------------------------

  predicate AtRest(st: Stream) {
    st.pc == Idle || (st.pc == Gone && st.exit)
  }

  /** Stream st, whose next turn is k, while the blocks before g have been taken. */
  ghost predicate StreamAt(c: Codec, blocks: seq<Block>, m: nat, g: nat, k: nat, st: Stream) {
    m > 0 && k < |blocks| + m &&
    if k < m || k - m < g then
      AtRest(st) && !st.inputReady && !st.outputReady && st.hist == History(blocks, m, k) &&
      st.Current() == Previous(blocks, m, k)
    else if st.inputReady then
      !st.outputReady && st.src == FrameAt(c, blocks, m, k - m) && st.hist == History(blocks, m, k - m) &&
      (AtRest(st) || st.pc == Busy || st.pc == Unpacking) &&
      (if st.pc == Unpacking then st.Other() else st.Current()) == Previous(blocks, m, k - m)
    else
      ((st.pc == Signalling && !st.outputReady) || (AtRest(st) && st.outputReady)) &&
      st.hist == History(blocks, m, k) && st.Current() == blocks[k - m] && st.Other() == Previous(blocks, m, k - m)
  }

  ghost predicate StreamsOk(c: Codec, blocks: seq<Block>, m: nat, g: nat, p: nat, streams: seq<Stream>) {
    |streams| == m && forall i :: 0 <= i < m ==> StreamAt(c, blocks, m, g, NextTurn(i, p, m), streams[i])
  }

  /** The half the stream's output before the one in progress is in. */
  function LastOutput(st: Stream): bool {
    if st.pc == Unpacking || st.pc == Signalling || st.outputReady then !st.cur else st.cur
  }

  function Min(x: nat, y: nat): nat {
    if x < y then x else y
  }

  ghost predicate AllStay(s: State) {
    forall i :: 0 <= i < |s.streams| ==> !s.streams[i].exit
  }

  /** The main thread holds the block taken last, in the half that no worker writes to. */
  ghost predicate HeldOk(blocks: seq<Block>, m: nat, s: State)
    requires Shape(m, s)
  {
    0 < s.got <= |blocks| && s.held.0 == (s.got - 1) % m && s.held.1 == LastOutput(s.streams[s.held.0]) &&
    s.streams[s.held.0].Half(s.held.1) == blocks[s.got - 1]
  }

  ghost predicate MainOk(data: seq<Byte>, blocks: seq<Block>, m: nat, s: State)
    requires Shape(m, s)
  {
    match s.pc
    case Setup(i) => s.dataOffset == i && s.got == 0 && s.pos == 0 && s.streamId == 0 && AllStay(s)
    case Waiting =>
      s.got < |blocks| && s.dataOffset == Min(|blocks|, s.got + m) && s.streamId == s.got % m &&
      s.pos == s.got * FILE_BUF_SIZE && AllStay(s)
    case Posting =>
      HeldOk(blocks, m, s) && s.dataOffset == Min(|blocks|, s.got - 1 + m) && s.streamId == (s.got - 1) % m &&
      s.pos == (s.got - 1) * FILE_BUF_SIZE && s.offset == 0 && AllStay(s)
    case Reading =>
      HeldOk(blocks, m, s) && s.dataOffset == Min(|blocks|, s.got + m) && s.streamId == s.got % m &&
      s.pos == (s.got - 1) * FILE_BUF_SIZE + s.offset && s.offset <= FILE_BUF_SIZE && AllStay(s)
    case Exiting(i) => forall j :: 0 <= j < m ==> s.streams[j].exit == (j < i)
    case Joining => forall j :: 0 <= j < m ==> s.streams[j].exit
    case Done => true
  }

  ghost predicate Inv(c: Codec, data: seq<Byte>, m: nat, s: State) {
    Shape(m, s) && m <= BlockCount(data) && s.pos <= |data| && s.got <= BlockCount(data) &&
      s.dataOffset <= BlockCount(data) &&
    StreamsOk(c, Blocks(data), m, s.got, s.dataOffset, s.streams) && MainOk(data, Blocks(data), m, s)
  }

  lemma InitInv(c: Codec, data: seq<Byte>, m: nat)
    requires 0 < m <= BlockCount(data)
    ensures Inv(c, data, m, Init(m))
  {
    var s := Init(m);
    forall i | 0 <= i < m ensures StreamAt(c, Blocks(data), m, 0, NextTurn(i, 0, m), s.streams[i]) {
      NextTurnIs(i, 0, m);
    }
  }

  // ---- worker steps ----------------------------------------------------------------------------------------

  /** The turn of stream i and its state. */
  lemma StreamTurn(c: Codec, data: seq<Byte>, m: nat, s: State, i: nat) returns (k: nat)
    requires Inv(c, data, m, s) && i < m
    ensures k == NextTurn(i, s.dataOffset, m) && s.dataOffset <= k < s.dataOffset + m && k % m == i
    ensures k == s.dataOffset <==> i == s.dataOffset % m
    ensures |s.streams| == m && StreamAt(c, Blocks(data), m, s.got, k, s.streams[i])
  {
    k := NextTurn(i, s.dataOffset, m);
    NextTurnIs(i, s.dataOffset, m);
    NextTurnStep(i, s.dataOffset, m);
  }

  /** A step of worker i that keeps its stream in order keeps the invariant, if the last output stays where it is. */
  lemma WorkerKeeps(c: Codec, data: seq<Byte>, m: nat, s: State, i: nat, st: Stream)
    requires Inv(c, data, m, s) && i < m && |s.streams| == m
    requires StreamAt(c, Blocks(data), m, s.got, NextTurn(i, s.dataOffset, m), st)
    requires st.exit == s.streams[i].exit && LastOutput(st) == LastOutput(s.streams[i])
    requires st.Half(LastOutput(st)) == s.streams[i].Half(LastOutput(s.streams[i]))
    ensures Inv(c, data, m, WithStream(s, i, st))
  {
    hide StreamAt, Blocks, NextTurn, BlockCount, LastOutput;
  }

  lemma StartKeeps(c: Codec, data: seq<Byte>, file: seq<Frame>, m: nat, s: State, i: nat)
    requires Inv(c, data, m, s) && Enabled(data, file, m, s, Start(i))
    ensures Inv(c, data, m, Apply(c, data, file, m, s, Start(i)))
  {
    hide Inv, NextTurn, Blocks;
    var k := StreamTurn(c, data, m, s, i);
    WorkerKeeps(c, data, m, s, i, s.streams[i].(pc := Busy));
  }

  lemma SwapKeeps(c: Codec, data: seq<Byte>, file: seq<Frame>, m: nat, s: State, i: nat)
    requires Inv(c, data, m, s) && Enabled(data, file, m, s, Swap(i))
    ensures Inv(c, data, m, Apply(c, data, file, m, s, Swap(i)))
  {
    hide Inv, NextTurn, Blocks;
    var k := StreamTurn(c, data, m, s, i);
    WorkerKeeps(c, data, m, s, i, s.streams[i].(cur := !s.streams[i].cur, pc := Unpacking));
  }

  /** Unpacking in the context of the last block, still in the other half, gives back the block that was packed. */
  lemma UnpackedAt(c: Codec, blocks: seq<Block>, m: nat, g: nat, k: nat, st: Stream)
    requires Inverse(c) && StreamAt(c, blocks, m, g, k, st) && st.pc == Unpacking
    ensures StreamAt(c, blocks, m, g, k, Unpacked(c, st))
    ensures LastOutput(Unpacked(c, st)) == LastOutput(st) == !st.cur && Unpacked(c, st).Other() == st.Other()
    ensures Unpacked(c, st).exit == st.exit && Unpacked(c, st).cur == st.cur
  {
    assert c.dec(st.hist, st.Other(), st.src) == blocks[k - m];
  }

  lemma UnpackKeeps(c: Codec, data: seq<Byte>, file: seq<Frame>, m: nat, s: State, i: nat)
    requires Inverse(c) && Inv(c, data, m, s) && Enabled(data, file, m, s, Unpack(i))
    ensures Inv(c, data, m, Apply(c, data, file, m, s, Unpack(i)))
  {
    hide Inv, NextTurn, Blocks, StreamAt, Unpacked, Inverse;
    var k := StreamTurn(c, data, m, s, i);
    UnpackedAt(c, Blocks(data), m, s.got, k, s.streams[i]);
    WorkerKeeps(c, data, m, s, i, Unpacked(c, s.streams[i]));
  }

  lemma SignalKeeps(c: Codec, data: seq<Byte>, file: seq<Frame>, m: nat, s: State, i: nat)
    requires Inv(c, data, m, s) && Enabled(data, file, m, s, Signal(i))
    ensures Inv(c, data, m, Apply(c, data, file, m, s, Signal(i)))
  {
    hide Inv, NextTurn, Blocks;
    var k := StreamTurn(c, data, m, s, i);
    WorkerKeeps(c, data, m, s, i, s.streams[i].(outputReady := true, pc := Idle));
  }

  lemma LeaveKeeps(c: Codec, data: seq<Byte>, file: seq<Frame>, m: nat, s: State, i: nat)
    requires Inv(c, data, m, s) && Enabled(data, file, m, s, Leave(i))
    ensures Inv(c, data, m, Apply(c, data, file, m, s, Leave(i)))
  {
    hide Inv, NextTurn, Blocks;
    var k := StreamTurn(c, data, m, s, i);
    WorkerKeeps(c, data, m, s, i, s.streams[i].(pc := Gone));
  }

  // ---- main thread steps -----------------------------------------------------------------------------------

  /** The file was written with n streams; read with fewer, when there are fewer frames, it is the same. */
  lemma SameHistory(blocks: seq<Block>, n: nat, m: nat, k: nat)
    requires n > 0 && |blocks| > 0 && m == RingSize(n, |blocks|) && k < |blocks|
    ensures m > 0 && History(blocks, n, k) == History(blocks, m, k) && Previous(blocks, n, k) == Previous(blocks, m, k)
  {
  }

  lemma SameFrames(c: Codec, blocks: seq<Block>, n: nat, m: nat)
    requires n > 0 && |blocks| > 0 && m == RingSize(n, |blocks|)
    ensures m > 0 && Frames(c, blocks, n) == Frames(c, blocks, m)
  {
    forall k | 0 <= k < |blocks| ensures FrameAt(c, blocks, n, k) == FrameAt(c, blocks, m, k) {
      SameHistory(blocks, n, m, k);
    }
  }

  lemma FedAt(c: Codec, blocks: seq<Block>, m: nat, g: nat, p: nat, st: Stream)
    requires StreamAt(c, blocks, m, g, p, st) && g <= p < |blocks| && (p < m || p - m < g)
    ensures StreamAt(c, blocks, m, g, p + m, Fed(st, FrameAt(c, blocks, m, p)))
    ensures ghost var fed := Fed(st, FrameAt(c, blocks, m, p));
      LastOutput(fed) == LastOutput(st) && fed.Half(LastOutput(fed)) == st.Half(LastOutput(st)) && fed.exit == st.exit
  {
  }

  /** All streams but the one that gets the frame keep their turns. */
  lemma FedStreams(c: Codec, data: seq<Byte>, m: nat, s: State, id: nat)
    requires Inv(c, data, m, s) && |s.streams| == m && id < m && id == s.dataOffset % m
    requires s.got <= s.dataOffset < |Blocks(data)| && (s.dataOffset < m || s.dataOffset - m < s.got)
    ensures ghost var st := Fed(s.streams[id], FrameAt(c, Blocks(data), m, s.dataOffset));
      StreamsOk(c, Blocks(data), m, s.got, s.dataOffset + 1, s.streams[id := st]) &&
      LastOutput(st) == LastOutput(s.streams[id]) && st.exit == s.streams[id].exit &&
      st.Half(LastOutput(st)) == s.streams[id].Half(LastOutput(s.streams[id]))
  {
    hide Inv, StreamAt, NextTurn, Blocks, FrameAt, Fed, LastOutput;
    var k0 := StreamTurn(c, data, m, s, id);
    FedAt(c, Blocks(data), m, s.got, s.dataOffset, s.streams[id]);
    var st := Fed(s.streams[id], FrameAt(c, Blocks(data), m, s.dataOffset));
    var streams := s.streams[id := st];
    forall i | 0 <= i < m ensures StreamAt(c, Blocks(data), m, s.got, NextTurn(i, s.dataOffset + 1, m), streams[i]) {
      NextTurnStep(i, s.dataOffset, m);
      var k := StreamTurn(c, data, m, s, i);
    }
  }

  lemma FrameOf(c: Codec, data: seq<Byte>, m: nat, k: nat)
    requires m > 0 && k < BlockCount(data)
    ensures |Blocks(data)| == BlockCount(data) == |Frames(c, Blocks(data), m)|
    ensures Frames(c, Blocks(data), m)[k] == FrameAt(c, Blocks(data), m, k)
  {
  }

  lemma CountsAre(c: Codec, data: seq<Byte>, m: nat)
    requires m > 0
    ensures |Blocks(data)| == BlockCount(data) == |Frames(c, Blocks(data), m)|
  {
  }

  lemma SetupKeeps(c: Codec, data: seq<Byte>, m: nat, s: State)
    requires Inv(c, data, m, s) && Enabled(data, Frames(c, Blocks(data), m), m, s, SetupStream)
    ensures Inv(c, data, m, Apply(c, data, Frames(c, Blocks(data), m), m, s, SetupStream))
  {
    CountsAre(c, data, m);
    if s.pc.i < m {
      var i := s.pc.i;
      FrameOf(c, data, m, i);
      RemainderUnique(i, m, 0, i);
      FedStreams(c, data, m, s, i);
    } else {
      RemainderUnique(0, m, 0, 0);
    }
    hide StreamsOk, Blocks, BlockCount, Frames, FrameAt;
  }

  lemma TakenAt(c: Codec, blocks: seq<Block>, m: nat, g: nat, k: nat, st: Stream)
    requires StreamAt(c, blocks, m, g, k, st)
    ensures k != g + m ==> StreamAt(c, blocks, m, g + 1, k, st)
    ensures k == g + m && st.outputReady ==> StreamAt(c, blocks, m, g + 1, k, st.(outputReady := false)) &&
                                             g < |blocks| && st.Current() == blocks[g] && st.pc != Signalling &&
                                               st.pc != Unpacking
  {
  }

  lemma TakenStreams(c: Codec, data: seq<Byte>, m: nat, s: State, id: nat)
    requires Inv(c, data, m, s) && |s.streams| == m && id < m && id == s.got % m && s.streams[id].outputReady
    requires s.got < s.dataOffset <= s.got + m
    ensures s.got < |Blocks(data)| && s.streams[id].Current() == Blocks(data)[s.got]
    ensures s.streams[id].pc != Signalling && s.streams[id].pc != Unpacking
    ensures StreamsOk(c, Blocks(data), m, s.got + 1, s.dataOffset,
                      s.streams[id := s.streams[id].(outputReady := false)])
  {
    hide Inv, StreamAt, NextTurn, Blocks, FrameAt;
    var streams := s.streams[id := s.streams[id].(outputReady := false)];
    var k0 := StreamTurn(c, data, m, s, id);
    OldestIs(s.got, s.dataOffset, k0, m, id);
    TakenAt(c, Blocks(data), m, s.got, k0, s.streams[id]);
    forall i | 0 <= i < m ensures StreamAt(c, Blocks(data), m, s.got + 1, NextTurn(i, s.dataOffset, m), streams[i]) {
      var k := StreamTurn(c, data, m, s, i);
      TurnTaken(s.got, k, m, id, i);
      TakenAt(c, Blocks(data), m, s.got, k, s.streams[i]);
    }
  }

  lemma TakeKeeps(c: Codec, data: seq<Byte>, file: seq<Frame>, m: nat, s: State)
    requires Inv(c, data, m, s) && Enabled(data, file, m, s, TakeOutput)
    ensures Inv(c, data, m, Apply(c, data, file, m, s, TakeOutput))
  {
    TakenStreams(c, data, m, s, s.streamId);
    CountsAre(c, data, m);
    hide StreamsOk, Blocks, BlockCount;
  }

  /** Stream id has got its next frame, or there was none. */
  lemma PostedMain(data: seq<Byte>, blocks: seq<Block>, m: nat, s: State, t: State, id: nat, st: Stream)
    requires Shape(m, s) && MainOk(data, blocks, m, s) && s.pc == Posting && id < m
    requires LastOutput(st) == LastOutput(s.streams[id]) && st.exit == s.streams[id].exit
    requires st.Half(LastOutput(st)) == s.streams[id].Half(LastOutput(s.streams[id]))
    requires t == s.(streams := s.streams[id := st], dataOffset := t.dataOffset, streamId := s.got % m, pc := Reading)
    requires t.dataOffset == Min(|blocks|, s.got + m)
    ensures Shape(m, t) && MainOk(data, blocks, m, t)
  {
    hide LastOutput, Min;
  }

  lemma PostingShape(c: Codec, data: seq<Byte>, m: nat, s: State)
    requires Inv(c, data, m, s) && s.pc == Posting
    ensures 0 < s.got <= BlockCount(data) && s.dataOffset == Min(BlockCount(data), s.got - 1 + m) &&
      s.streamId == (s.got - 1) % m
    ensures Shape(m, s) && MainOk(data, Blocks(data), m, s)
    ensures StreamsOk(c, Blocks(data), m, s.got, s.dataOffset, s.streams)
  {
  }

  /** The stream whose output was taken is the one whose turn it is to get a frame. */
  lemma PostTurn(p: nat, g: nat, m: nat, count: nat)
    requires m > 0 && g > 0 && p == Min(count, g - 1 + m)
    ensures p < count ==> p % m == (g - 1) % m && p - m < g && p + 1 == Min(count, g + m)
    ensures p >= count ==> p == Min(count, g + m)
    ensures ((g - 1) % m + 1) % m == g % m
  {
    RingStep(g - 1, m);
    RemainderIs(g - 1, m);
    if p < count {
      RemainderUnique(p, m, (g - 1) / m + 1, (g - 1) % m);
    }
  }

  lemma PostFed(c: Codec, data: seq<Byte>, m: nat, s: State, t: State)
    requires Inv(c, data, m, s) && s.pc == Posting && s.dataOffset < BlockCount(data) == |Blocks(data)| && Shape(m, s)
    requires t == WithStream(s, s.streamId, Fed(s.streams[s.streamId], FrameAt(c, Blocks(data), m, s.dataOffset)))
                  .(dataOffset := s.dataOffset + 1, streamId := (s.streamId + 1) % m, pc := Reading)
    ensures Inv(c, data, m, t)
  {
    hide StreamsOk, Blocks, BlockCount, FrameAt, LastOutput, Fed, MainOk, Min;
    PostingShape(c, data, m, s);
    PostTurn(s.dataOffset, s.got, m, BlockCount(data));
    PostingBound(c, data, m, s);
    FedStreams(c, data, m, s, s.streamId);
    PostedMain(data, Blocks(data), m, s, t, s.streamId, t.streams[s.streamId]);
  }

  lemma PostingBound(c: Codec, data: seq<Byte>, m: nat, s: State)
    requires Inv(c, data, m, s) && s.pc == Posting
    ensures s.got <= s.dataOffset || s.dataOffset >= BlockCount(data)
    ensures s.dataOffset < m || s.dataOffset - m < s.got
  {
  }

  lemma PostNone(c: Codec, data: seq<Byte>, m: nat, s: State, t: State)
    requires Inv(c, data, m, s) && s.pc == Posting && s.dataOffset >= BlockCount(data) == |Blocks(data)| && Shape(m, s)
    requires t == s.(streamId := (s.streamId + 1) % m, pc := Reading)
    ensures Inv(c, data, m, t)
  {
    hide StreamsOk, Blocks, BlockCount, LastOutput, MainOk, Min;
    PostingShape(c, data, m, s);
    PostTurn(s.dataOffset, s.got, m, BlockCount(data));
    assert s.streams[s.streamId := s.streams[s.streamId]] == s.streams;
    PostedMain(data, Blocks(data), m, s, t, s.streamId, s.streams[s.streamId]);
  }

  lemma PostKeeps(c: Codec, data: seq<Byte>, m: nat, s: State)
    requires Inv(c, data, m, s) && Shape(m, s) && Enabled(data, Frames(c, Blocks(data), m), m, s, PostNext)
    ensures Inv(c, data, m, Apply(c, data, Frames(c, Blocks(data), m), m, s, PostNext))
  {
    hide Inv, Blocks, BlockCount, Frames, FrameAt, Fed;
    CountsAre(c, data, m);
    var t := Apply(c, data, Frames(c, Blocks(data), m), m, s, PostNext);
    if s.dataOffset < BlockCount(data) {
      FrameOf(c, data, m, s.dataOffset);
      PostFed(c, data, m, s, t);
    } else {
      PostNone(c, data, m, s, t);
    }
  }

  /** What is read is what the data holds at that position, although the last block may be shorter than its buffer. */
  lemma ReadBytes(data: seq<Byte>, g: nat, offset: nat, sz: nat)
    requires 0 < g <= BlockCount(data) && offset + sz <= FILE_BUF_SIZE &&
      (g - 1) * FILE_BUF_SIZE + offset + sz <= |data|
    ensures ghost var pos := (g - 1) * FILE_BUF_SIZE + offset;
      BytesAt(BlockAt(data, g - 1), offset, sz) == data[pos..pos + sz]
  {
  }

  /** The half held is the block taken last, and the position is the offset in it. */
  lemma HeldBlock(c: Codec, data: seq<Byte>, m: nat, s: State)
    requires Inv(c, data, m, s) && s.pc == Reading
    ensures s.held.0 < |s.streams| && 0 < s.got <= BlockCount(data) && s.pos == (s.got - 1) * FILE_BUF_SIZE + s.offset
    ensures s.streams[s.held.0].Half(s.held.1) == BlockAt(data, s.got - 1)
  {
    hide StreamsOk, BlockCount, BlockAt, LastOutput;
  }

  lemma ReadPiece(c: Codec, data: seq<Byte>, m: nat, s: State, sz: nat)
    requires Inv(c, data, m, s) && s.pc == Reading && sz <= |data| - s.pos && s.offset + sz <= FILE_BUF_SIZE
    ensures s.held.0 < |s.streams| && s.pos + sz <= |data|
    ensures BytesAt(s.streams[s.held.0].Half(s.held.1), s.offset, sz) == data[s.pos..s.pos + sz]
  {
    hide Inv, BlockCount, BlockAt, BytesAt;
    HeldBlock(c, data, m, s);
    ReadBytes(data, s.got, s.offset, sz);
  }

  lemma MainAdvanced(data: seq<Byte>, blocks: seq<Block>, m: nat, s: State, log: seq<Piece>, sz: nat)
    requires Shape(m, s) && MainOk(data, blocks, m, s) && s.pc == Reading && s.offset + sz <= FILE_BUF_SIZE
    ensures ghost var t := s.(log := log, offset := s.offset + sz, pos := s.pos + sz);
      Shape(m, t) && MainOk(data, blocks, m, t)
  {
    hide LastOutput, Min;
  }

  lemma ReadKeeps(c: Codec, data: seq<Byte>, file: seq<Frame>, m: nat, s: State, sz: nat)
    requires Inv(c, data, m, s) && Enabled(data, file, m, s, Read(sz))
    ensures Inv(c, data, m, Apply(c, data, file, m, s, Read(sz)))
    ensures ghost var t := Apply(c, data, file, m, s, Read(sz));
      s.pos + sz <= |data| && t.log == s.log + [Piece(s.pos, data[s.pos..s.pos + sz])]
  {
    hide StreamsOk, Blocks, BlockCount, LastOutput, MainOk, BytesAt;
    ReadPiece(c, data, m, s, sz);
    MainAdvanced(data, Blocks(data), m, s, s.log + [Piece(s.pos, data[s.pos..s.pos + sz])], sz);
  }

  lemma SkipKeeps(c: Codec, data: seq<Byte>, file: seq<Frame>, m: nat, s: State, sz: nat)
    requires Inv(c, data, m, s) && Enabled(data, file, m, s, Skip(sz))
    ensures Inv(c, data, m, Apply(c, data, file, m, s, Skip(sz)))
  {
    hide StreamsOk, Blocks, BlockCount, LastOutput, MainOk;
    MainAdvanced(data, Blocks(data), m, s, s.log, sz);
  }

  lemma NextBlockKeeps(c: Codec, data: seq<Byte>, file: seq<Frame>, m: nat, s: State)
    requires Inv(c, data, m, s) && Enabled(data, file, m, s, NextBlock)
    ensures Inv(c, data, m, Apply(c, data, file, m, s, NextBlock))
  {
    hide StreamsOk, LastOutput;
  }

  lemma EndKeeps(c: Codec, data: seq<Byte>, file: seq<Frame>, m: nat, s: State, step: Step)
    requires Inv(c, data, m, s) && Enabled(data, file, m, s, step) && (step == Quit || step == Join)
    ensures Inv(c, data, m, Apply(c, data, file, m, s, step))
  {
    hide StreamsOk, Blocks, BlockCount, LastOutput;
  }

  lemma ExitAt(c: Codec, blocks: seq<Block>, m: nat, g: nat, k: nat, st: Stream)
    requires StreamAt(c, blocks, m, g, k, st)
    ensures StreamAt(c, blocks, m, g, k, st.(exit := true))
  {
  }

  lemma SetExitKeeps(c: Codec, data: seq<Byte>, file: seq<Frame>, m: nat, s: State)
    requires Inv(c, data, m, s) && Enabled(data, file, m, s, SetExit)
    ensures Inv(c, data, m, Apply(c, data, file, m, s, SetExit))
  {
    if s.pc.i < m {
      var k := StreamTurn(c, data, m, s, s.pc.i);
      ExitAt(c, Blocks(data), m, s.got, k, s.streams[s.pc.i]);
    }
    hide StreamAt, NextTurn, Blocks, BlockCount, LastOutput;
  }

  /** Every step of every thread keeps the invariant. */
  lemma StepKeeps(c: Codec, data: seq<Byte>, m: nat, s: State, step: Step)
    requires Inverse(c) && Inv(c, data, m, s) && Shape(m, s) && Enabled(data, Frames(c, Blocks(data), m), m, s, step)
    ensures Inv(c, data, m, Apply(c, data, Frames(c, Blocks(data), m), m, s, step))
  {
    hide Inv, Apply, Enabled, Inverse, Frames, Blocks;
    var file := Frames(c, Blocks(data), m);
    match step
    case SetupStream => SetupKeeps(c, data, m, s);
    case TakeOutput => TakeKeeps(c, data, file, m, s);
    case PostNext => PostKeeps(c, data, m, s);
    case Read(sz) => ReadKeeps(c, data, file, m, s, sz);
    case Skip(sz) => SkipKeeps(c, data, file, m, s, sz);
    case NextBlock => NextBlockKeeps(c, data, file, m, s);
    case Quit => EndKeeps(c, data, file, m, s, step);
    case SetExit => SetExitKeeps(c, data, file, m, s);
    case Join => EndKeeps(c, data, file, m, s, step);
    case Start(i) => StartKeeps(c, data, file, m, s, i);
    case Swap(i) => SwapKeeps(c, data, file, m, s, i);
    case Unpack(i) => UnpackKeeps(c, data, file, m, s, i);
    case Signal(i) => SignalKeeps(c, data, file, m, s, i);
    case Leave(i) => LeaveKeeps(c, data, file, m, s, i);
  }

  // ---- whole runs ------------------------------------------------------------------------------------------

  /** The half-buffer the main thread reads from is never the one a worker writes to. */
  lemma HeldUntouched(c: Codec, data: seq<Byte>, m: nat, s: State, i: nat)
    requires Inv(c, data, m, s) && s.pc == Reading && i < m && s.streams[i].pc == Unpacking
    ensures s.held != (i, s.streams[i].cur)
  {
  }

  /** The worker whose output comes next is on its way. */
  lemma WaitingProgress(c: Codec, data: seq<Byte>, file: seq<Frame>, m: nat, s: State) returns (step: Step)
    requires Inv(c, data, m, s) && s.pc == Waiting
    ensures Enabled(data, file, m, s, step)
  {
    CountsAre(c, data, m);
    var id := s.streamId;
    var k := StreamTurn(c, data, m, s, id);
    OldestIs(s.got, s.dataOffset, k, m, id);
    var st := s.streams[id];
    hide Inv, Blocks, History, Previous, FrameAt, NextTurn;
    step := if st.outputReady then TakeOutput
            else if st.pc == Idle then Start(id)
            else if st.pc == Busy then Swap(id)
            else if st.pc == Unpacking then Unpack(id)
            else Signal(id);
  }

  lemma JoinProgress(c: Codec, data: seq<Byte>, file: seq<Frame>, m: nat, s: State) returns (step: Step)
    requires Inv(c, data, m, s) && s.pc == Joining
    ensures Enabled(data, file, m, s, step)
  {
    if i :| 0 <= i < m && s.streams[i].pc != Gone {
      var k := StreamTurn(c, data, m, s, i);
      var st := s.streams[i];
      step := if st.pc == Idle then Leave(i)
              else if st.pc == Busy then Swap(i)
              else if st.pc == Unpacking then Unpack(i)
              else Signal(i);
    } else {
      step := Join;
    }
  }

  /** Some thread can always take a step, and while data is left the main thread is never stuck before the rest of
      it can be read: it need not quit. */
  lemma Progress(c: Codec, data: seq<Byte>, m: nat, s: State) returns (step: Step)
    requires Inv(c, data, m, s) && s.pc != Done
    ensures Shape(m, s) && Enabled(data, Frames(c, Blocks(data), m), m, s, step)
    ensures s.pos < |data| && s.pc != Joining && !s.pc.Exiting? ==> step != Quit
  {
    CountsAre(c, data, m);
    var file := Frames(c, Blocks(data), m);
    match s.pc
    case Setup(i) => step := SetupStream;
    case Waiting => step := WaitingProgress(c, data, file, m, s);
    case Posting => step := PostNext;
    case Reading => step := if s.pos == |data| then Quit else if s.offset == FILE_BUF_SIZE then NextBlock else Read(1);
    case Exiting(i) => step := SetExit;
    case Joining => step := JoinProgress(c, data, file, m, s);
  }

  function Work(st: Stream): (w: nat) {
    match st.pc
    case Gone => 0
    case Idle => if st.inputReady then 5 else 1
    case Busy => 4
    case Unpacking => 3
    case Signalling => 2
  }

  function TotalWork(streams: seq<Stream>): (w: nat) {
    if streams == [] then 0 else TotalWork(streams[..|streams| - 1]) + Work(streams[|streams| - 1])
  }

  lemma {:induction false} WorkChanged(streams: seq<Stream>, i: nat, st: Stream)
    requires i < |streams|
    ensures TotalWork(streams[i := st]) == TotalWork(streams) - Work(streams[i]) + Work(st)
    decreases |streams|
  {
    var last := |streams| - 1;
    if i < last {
      WorkChanged(streams[..last], i, st);
      assert streams[i := st][..last] == streams[..last][i := st];
    } else {
      assert streams[i := st][..last] == streams[..last];
    }
  }

  function Rank(m: nat, pc: MainPc): (r: int) {
    match pc
    case Setup(_) => m + 8
    case Posting => m + 7
    case Reading => m + 6
    case Waiting => m + 5
    case Exiting(i) => m + 2 - i
    case Joining => 1
    case Done => 0
  }

  /** What is left to do; every step makes it smaller. */
  function Left(data: seq<Byte>, m: nat, s: State): int {
    |data| - s.pos + 6 * (BlockCount(data) - s.dataOffset) + 3 * (BlockCount(data) - s.got) + Rank(m, s.pc) +
    TotalWork(s.streams)
  }

  lemma LeftBound(c: Codec, data: seq<Byte>, m: nat, s: State)
    requires Inv(c, data, m, s)
    ensures Left(data, m, s) >= 0
  {
    hide StreamsOk, BlockCount, TotalWork, MainOk;
  }

  lemma WorkerShrinks(data: seq<Byte>, m: nat, s: State, i: nat, st: Stream)
    requires i < |s.streams| && Work(st) < Work(s.streams[i])
    ensures Left(data, m, WithStream(s, i, st)) < Left(data, m, s)
  {
    WorkChanged(s.streams, i, st);
    hide TotalWork, Work, BlockCount, Rank;
  }

  lemma FeedShrinks(data: seq<Byte>, m: nat, s: State, i: nat, f: Frame, t: State)
    requires i < |s.streams| && t.streams == s.streams[i := Fed(s.streams[i], f)] && t.dataOffset == s.dataOffset + 1
    requires t.pos == s.pos && t.got == s.got && Rank(m, t.pc) <= Rank(m, s.pc)
    ensures Left(data, m, t) < Left(data, m, s)
  {
    WorkChanged(s.streams, i, Fed(s.streams[i], f));
    assert Work(Fed(s.streams[i], f)) <= Work(s.streams[i]) + 4;
    hide TotalWork, Work, BlockCount, Rank;
  }

  lemma MainShrinks(c: Codec, data: seq<Byte>, file: seq<Frame>, m: nat, s: State, step: Step)
    requires Shape(m, s) && Enabled(data, file, m, s, step)
    requires !step.Start? && !step.Swap? && !step.Unpack? && !step.Signal? && !step.Leave?
    ensures Left(data, m, Apply(c, data, file, m, s, step)) < Left(data, m, s)
  {
    var t := Apply(c, data, file, m, s, step);
    if step.TakeOutput? {
      WorkChanged(s.streams, s.streamId, t.streams[s.streamId]);
    } else if step.SetExit? && s.pc.i < m {
      WorkChanged(s.streams, s.pc.i, t.streams[s.pc.i]);
    } else if step.SetupStream? && s.pc.i < m {
      FeedShrinks(data, m, s, s.pc.i, file[s.dataOffset], t);
    } else if step.PostNext? && s.dataOffset < |file| {
      FeedShrinks(data, m, s, s.streamId, file[s.dataOffset], t);
    }
    hide TotalWork, BlockCount, BytesAt;
  }

  lemma UnpackShrinks(c: Codec, data: seq<Byte>, m: nat, s: State, i: nat)
    requires i < |s.streams| && s.streams[i].pc == Unpacking
    ensures Left(data, m, WithStream(s, i, Unpacked(c, s.streams[i]))) < Left(data, m, s)
  {
    hide Left;
    WorkerShrinks(data, m, s, i, Unpacked(c, s.streams[i]));
  }

  lemma SignalShrinks(c: Codec, data: seq<Byte>, m: nat, s: State, i: nat)
    requires Inv(c, data, m, s) && i < m && |s.streams| == m && s.streams[i].pc == Signalling
    ensures Left(data, m, WithStream(s, i, s.streams[i].(outputReady := true, pc := Idle))) < Left(data, m, s)
  {
    var k := StreamTurn(c, data, m, s, i);
    hide Inv, Left;
    WorkerShrinks(data, m, s, i, s.streams[i].(outputReady := true, pc := Idle));
  }

  lemma StepShrinks(c: Codec, data: seq<Byte>, file: seq<Frame>, m: nat, s: State, step: Step)
    requires Inv(c, data, m, s) && Shape(m, s) && Enabled(data, file, m, s, step)
    ensures Left(data, m, Apply(c, data, file, m, s, step)) < Left(data, m, s)
  {
    hide Left, Inv, Unpacked;
    match step
    case Start(i) => WorkerShrinks(data, m, s, i, s.streams[i].(pc := Busy));
    case Swap(i) => WorkerShrinks(data, m, s, i, s.streams[i].(cur := !s.streams[i].cur, pc := Unpacking));
    case Unpack(i) => UnpackShrinks(c, data, m, s, i);
    case Signal(i) => SignalShrinks(c, data, m, s, i);
    case Leave(i) => WorkerShrinks(data, m, s, i, s.streams[i].(pc := Gone));
    case _ => MainShrinks(c, data, file, m, s, step);
  }

  ghost predicate IsRun(c: Codec, data: seq<Byte>, file: seq<Frame>, m: nat, s: State, steps: seq<Step>)
    decreases |steps|
  {
    Shape(m, s) &&
    (steps == [] ||
     (Enabled(data, file, m, s, steps[0]) && IsRun(c, data, file, m, Apply(c, data, file, m, s, steps[0]), steps[1..])))
  }

  ghost function After(c: Codec, data: seq<Byte>, file: seq<Frame>, m: nat, s: State, steps: seq<Step>): State
    requires IsRun(c, data, file, m, s, steps)
    decreases |steps|
  {
    if steps == [] then s else After(c, data, file, m, Apply(c, data, file, m, s, steps[0]), steps[1..])
  }

  /** Positions and sizes of the reads among the steps of a run that starts at a position. */
  function Asked(steps: seq<Step>, pos: nat): seq<(nat, nat)> {
    if steps == [] then []
    else match steps[0]
      case Read(sz) => [(pos, sz)] + Asked(steps[1..], pos + sz)
      case Skip(sz) => Asked(steps[1..], pos + sz)
      case _ => Asked(steps[1..], pos)
  }

  /** The pieces are what the data hold where it was asked for, each of the size asked for. */
  ghost predicate Delivered(data: seq<Byte>, log: seq<Piece>, asked: seq<(nat, nat)>) {
    |log| == |asked| &&
    forall i :: 0 <= i < |asked| ==>
      asked[i].0 + asked[i].1 <= |data| && log[i] == Piece(asked[i].0, data[asked[i].0..asked[i].0 + asked[i].1])
  }

  lemma DeliveredMore(data: seq<Byte>, log: seq<Piece>, asked: seq<(nat, nat)>, pos: nat, sz: nat)
    requires Delivered(data, log, asked) && pos + sz <= |data|
    ensures Delivered(data, log + [Piece(pos, data[pos..pos + sz])], asked + [(pos, sz)])
  {
  }

  /** A step delivers what it asks for, and only reads ask. */
  lemma StepDelivers(c: Codec, data: seq<Byte>, m: nat, s: State, step: Step, asked: seq<(nat, nat)>)
    requires Inv(c, data, m, s) && Shape(m, s) && Enabled(data, Frames(c, Blocks(data), m), m, s, step)
    requires Delivered(data, s.log, asked)
    ensures ghost var t := Apply(c, data, Frames(c, Blocks(data), m), m, s, step);
      Delivered(data, t.log, if step.Read? then asked + [(s.pos, step.sz)] else asked) &&
      t.pos == s.pos + if step.Read? || step.Skip? then step.sz else 0
  {
    hide Inv, Inverse, Frames, Blocks, Delivered, BytesAt, Unpacked, Fed, FrameAt;
    if step.Read? {
      ReadKeeps(c, data, Frames(c, Blocks(data), m), m, s, step.sz);
      DeliveredMore(data, s.log, asked, s.pos, step.sz);
    }
  }

  lemma AskedStep(steps: seq<Step>, pos: nat, asked: seq<(nat, nat)>)
    requires steps != []
    ensures ghost var step := steps[0];
      asked + Asked(steps, pos) ==
      (if step.Read? then asked + [(pos, step.sz)] else asked) +
      Asked(steps[1..], pos + if step.Read? || step.Skip? then step.sz else 0)
  {
  }

  lemma {:induction false} RunKeeps(c: Codec, data: seq<Byte>, m: nat, s: State, steps: seq<Step>,
                                    asked: seq<(nat, nat)>)
    requires Inverse(c) && Inv(c, data, m, s) && m > 0 && IsRun(c, data, Frames(c, Blocks(data), m), m, s, steps)
    requires Delivered(data, s.log, asked)
    ensures ghost var t := After(c, data, Frames(c, Blocks(data), m), m, s, steps);
      Inv(c, data, m, t) && |steps| + Left(data, m, t) <= Left(data, m, s) &&
      Delivered(data, t.log, asked + Asked(steps, s.pos))
    decreases |steps|
  {
    hide Inv, Enabled, Apply, Left, Inverse, Frames, Blocks, Delivered;
    if steps != [] {
      hide Asked;
      var file := Frames(c, Blocks(data), m);
      StepKeeps(c, data, m, s, steps[0]);
      StepShrinks(c, data, file, m, s, steps[0]);
      StepDelivers(c, data, m, s, steps[0], asked);
      AskedStep(steps, s.pos, asked);
      var more := if steps[0].Read? then asked + [(s.pos, steps[0].sz)] else asked;
      RunKeeps(c, data, m, Apply(c, data, file, m, s, steps[0]), steps[1..], more);
    } else {
      assert asked + [] == asked;
    }
  }

  /** Reading back the file that was written from any data of at least one byte, by a ring of the size the reader
      sets up: whatever the interleaving and the sizes read and skipped, everything read is what the data holds at
      that position, as much as was asked for; the run is finite, and until it is over some thread can take a step. */
  lemma ReadingWorks(c: Codec, data: seq<Byte>, n: nat, m: nat, steps: seq<Step>)
    requires Inverse(c) && n > 0 && |data| > 0 && m == RingSize(n, BlockCount(data)) > 0
    requires IsRun(c, data, Frames(c, Blocks(data), n), m, Init(m), steps)
    ensures |steps| <= Left(data, m, Init(m))
    ensures ghost var s := After(c, data, Frames(c, Blocks(data), n), m, Init(m), steps);
      Delivered(data, s.log, Asked(steps, 0)) && Shape(m, s) &&
      (s.pc != Done ==> exists step :: Enabled(data, Frames(c, Blocks(data), n), m, s, step) &&
                                       (s.pos < |data| && s.pc != Joining && !s.pc.Exiting? ==> step != Quit))
  {
    CountsAre(c, data, n);
    SameFrames(c, Blocks(data), n, m);
    hide Inv, Frames, Blocks, Left, Enabled, IsRun, After, Inverse, Delivered, Asked;
    InitInv(c, data, m);
    NothingAsked(data, m, steps);
    RunKeeps(c, data, m, Init(m), steps, []);
    var s := After(c, data, Frames(c, Blocks(data), m), m, Init(m), steps);
    LeftBound(c, data, m, s);
    InvShape(c, data, m, s);
    if s.pc != Done {
      var step := Progress(c, data, m, s);
    }
  }

  lemma NothingAsked(data: seq<Byte>, m: nat, steps: seq<Step>)
    ensures Delivered(data, Init(m).log, []) && Init(m).pos == 0 && [] + Asked(steps, 0) == Asked(steps, 0)
  {
  }

  lemma InvShape(c: Codec, data: seq<Byte>, m: nat, s: State)
    requires Inv(c, data, m, s)
    ensures Shape(m, s)
  {
  }
}
