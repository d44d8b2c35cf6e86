/** The writing side of the file streams as a step machine: the main thread fills a half-buffer, hands it to the next
    stream of a ring, and collects compressed blocks in order; each stream has a worker. Any thread may take the next
    step. */
module WriteRing {
  import opened FileBlocks

  /** Where a worker is: waiting for its signal, compressing, about to signal its output, or returned. */
  datatype WorkerPc = Idle | Busy | Signalling | Gone

  datatype Stream = Stream(half0: Block, half1: Block, cur: bool, size: nat, frame: Frame, hist: seq<Block>,
                           inputReady: bool, outputReady: bool, exit: bool, pc: WorkerPc)
  {
    function Half(which: bool): Block {
      if which then half1 else half0
    }

    function Input(): Block {
      Half(cur)
    }

    function Other(): Block {
      Half(!cur)
    }

    function WithHalf(which: bool, b: Block): Stream {
      if which then this.(half1 := b) else this.(half0 := b)
    }
  }

  /** next says that the call came from WriteBlock, which goes on to the next buffer. */
  datatype MainPc = Writing | Processing(next: bool) | Emitting(next: bool, id: nat) | Exiting(i: nat) | Joining | Done

  /** held is the half-buffer the main thread writes to. posted counts the blocks handed out; the program keeps only
      the position in the ring and the number pending. */
  datatype State = State(streams: seq<Stream>, pc: MainPc, written: nat, offset: nat, held: (nat, bool),
                         streamId: nat, pending: nat, file: seq<Frame>, posted: nat)

  datatype Step = WriteBytes(sz: nat) | WriteBlock | FinishPending | Take | Emit | FinishDone | SetExit | Join
    | Start(i: nat) | Compress(i: nat) | Signal(i: nat) | Leave(i: nat)

  function Fresh(): Stream {
    Stream([], [], false, 0, [], [], false, false, false, Idle)
  }

  function Init(n: nat): State
    requires n > 0
  {
    State(seq(n, _ => Fresh()), Writing, 0, 0, (0, false), 0, 0, [], 0)
  }

  // ---- steps -----------------------------------------------------------------------------------------------

  predicate Shape(n: nat, s: State) {
    |s.streams| == n > 0 && s.streamId < n && s.held.0 < n && (s.pc.Emitting? ==> s.pc.id < n) &&
      s.pending <= s.posted &&
    (s.pc.Exiting? ==> s.pc.i <= n) && s.pending <= n
  }

  function PendingId(n: nat, s: State): (id: nat)
    requires n > 0 && s.pending <= n
    ensures id < n
  {
    (s.streamId + n - s.pending) % n
  }

  predicate Enabled(data: seq<Byte>, n: nat, s: State, step: Step)
    requires Shape(n, s)
  {
    match step
    case WriteBytes(sz) => s.pc == Writing && 0 < sz <= |data| - s.written && s.offset + sz <= FILE_BUF_SIZE
    case WriteBlock => s.pc == Writing && (s.offset == FILE_BUF_SIZE || (s.offset > 0 && s.written == |data|))
    case FinishPending => s.pc == Writing && s.written == |data| && s.offset == 0 && s.pending > 0
    case Take => s.pc.Processing? && s.pending > 0 && s.streams[PendingId(n, s)].outputReady
    case Emit => s.pc.Emitting?
    case FinishDone => s.pc == Writing && s.written == |data| && s.offset == 0 && s.pending == 0
    case SetExit => s.pc.Exiting?
    case Join => s.pc == Joining && forall i :: 0 <= i < n ==> s.streams[i].pc == Gone
    case Start(i) => i < n && s.streams[i].pc == Idle && s.streams[i].inputReady && !s.streams[i].exit
    case Compress(i) => i < n && s.streams[i].pc == Busy && s.streams[i].size <= |s.streams[i].Input()|
    case Signal(i) => i < n && s.streams[i].pc == Signalling
    case Leave(i) => i < n && s.streams[i].pc == Idle && s.streams[i].exit
  }

  /** memcpy into the held half-buffer at the offset. */
  function Wrote(data: seq<Byte>, s: State, sz: nat): State
    requires s.held.0 < |s.streams| && s.written + sz <= |data|
  {
    var st := s.streams[s.held.0];
    var half := st.Half(s.held.1);
    var kept := if s.offset <= |half| then half[..s.offset] else half;
    s.(streams := s.streams[s.held.0 := st.WithHalf(s.held.1, kept + data[s.written..s.written + sz])],
       written := s.written + sz, offset := s.offset + sz)
  }

  /** The end of WriteBlock: on to the input buffer of the next stream. */
  function NextBuffer(s: State): State
    requires s.streamId < |s.streams|
  {
    s.(pc := Writing, offset := 0, held := (s.streamId, s.streams[s.streamId].cur))
  }

  function Posted(n: nat, s: State): State
    requires Shape(n, s)
  {
    var st := s.streams[s.streamId].(inputReady := true, size := s.offset);
    s.(streams := s.streams[s.streamId := st], streamId := (s.streamId + 1) % n, pending := s.pending + 1,
       posted := s.posted + 1)
  }

  /** One turn of a worker's loop, compressing the input buffer and swapping the halves. */
  function Compressed(c: Codec, st: Stream): Stream
    requires st.size <= |st.Input()|
  {
    st.(frame := c.enc(st.hist, st.Other(), st.Input()[..st.size]), hist := st.hist + [st.Input()[..st.size]],
        cur := !st.cur, inputReady := false, pc := Signalling)
  }

  function WithStream(s: State, i: nat, st: Stream): State
    requires i < |s.streams|
  {
    s.(streams := s.streams[i := st])
  }

  function Apply(c: Codec, data: seq<Byte>, n: nat, s: State, step: Step): State
    requires Shape(n, s) && Enabled(data, n, s, step)
  {
    match step
    case WriteBytes(sz) => Wrote(data, s, sz)
    case WriteBlock =>
      var p := Posted(n, s);
      if p.pending == n then p.(pc := Processing(true)) else NextBuffer(p)
    case FinishPending => s.(pc := Processing(false))
    case Take =>
      var id := PendingId(n, s);
      WithStream(s, id, s.streams[id].(outputReady := false)).(pending := s.pending - 1, pc := Emitting(s.pc.next, id))
    case Emit =>
      var e := s.(file := s.file + [s.streams[s.pc.id].frame]);
      if s.pc.next then NextBuffer(e) else e.(pc := Writing)
    case FinishDone => s.(pc := Exiting(0))
    case SetExit =>
      if s.pc.i == n then s.(pc := Joining)
      else WithStream(s, s.pc.i, s.streams[s.pc.i].(exit := true)).(pc := Exiting(s.pc.i + 1))
    case Join => s.(pc := Done)
    case Start(i) => WithStream(s, i, s.streams[i].(pc := Busy))
    case Compress(i) => WithStream(s, i, Compressed(c, s.streams[i]))
    case Signal(i) => WithStream(s, i, s.streams[i].(outputReady := true, pc := Idle))
    case Leave(i) => WithStream(s, i, s.streams[i].(pc := Gone))
  }

  // ---- the invariant ---------------------------------------------------------------------------------------

  /** Stream st, whose next turn is k, while the blocks from t on are pending. */
  ghost predicate StreamAt(c: Codec, blocks: seq<Block>, n: nat, t: nat, k: nat, st: Stream) {
    n > 0 && k < |blocks| + n &&
    if k < n || k - n < t then
      (st.pc == Idle || (st.pc == Gone && st.exit)) && !st.inputReady && !st.outputReady &&
      st.hist == History(blocks, n, k) && st.Other() == Previous(blocks, n, k) &&
      (k >= n ==> st.frame == FrameAt(c, blocks, n, k - n))
    else if st.inputReady then
      (st.pc == Idle || st.pc == Busy) && !st.outputReady && !st.exit && st.hist == History(blocks, n, k - n) &&
      st.Other() == Previous(blocks, n, k - n) && st.Input() == blocks[k - n] && st.size == |blocks[k - n]|
    else
      ((st.pc == Signalling && !st.outputReady) || (st.pc == Idle && st.outputReady)) && !st.exit &&
      st.hist == History(blocks, n, k) && st.Other() == Previous(blocks, n, k) &&
        st.frame == FrameAt(c, blocks, n, k - n)
  }

  ghost predicate StreamsOk(c: Codec, blocks: seq<Block>, n: nat, t: nat, p: nat, streams: seq<Stream>) {
    |streams| == n && forall i :: 0 <= i < n ==> StreamAt(c, blocks, n, t, NextTurn(i, p, n), streams[i])
  }

  /** How many bytes the first p blocks hold. */
  function PostedBytes(data: seq<Byte>, p: nat): nat {
    if p * FILE_BUF_SIZE < |data| then p * FILE_BUF_SIZE else |data|
  }

  ghost predicate HeldOk(data: seq<Byte>, n: nat, s: State)
    requires Shape(n, s)
  {
    s.pending < n && s.held == (s.streamId, s.streams[s.streamId].cur) && s.offset <= FILE_BUF_SIZE &&
    s.written == PostedBytes(data, s.posted) + s.offset && s.written <= |data| &&
    (s.offset > 0 ==> s.streams[s.streamId].Input() == data[PostedBytes(data, s.posted)..s.written])
  }

  ghost predicate AllStay(s: State) {
    forall i :: 0 <= i < |s.streams| ==> !s.streams[i].exit
  }

  ghost predicate MainOk(data: seq<Byte>, n: nat, s: State)
    requires Shape(n, s)
  {
    match s.pc
    case Writing => HeldOk(data, n, s) && AllStay(s)
    case Processing(next) =>
      s.pending > 0 && AllStay(s) &&
      (if next then s.written == PostedBytes(data, s.posted)
       else HeldOk(data, n, s) && s.offset == 0 && s.written == |data|)
    case Emitting(next, id) =>
      s.pending < n && AllStay(s) && s.posted > s.pending && id == (s.posted - s.pending - 1) % n &&
      (if next then s.written == PostedBytes(data, s.posted)
       else HeldOk(data, n, s) && s.offset == 0 && s.written == |data|)
    case Exiting(i) =>
      s.pending == 0 && s.posted == BlockCount(data) &&
      forall j :: 0 <= j < n ==> s.streams[j].exit == (j < i)
    case Joining => s.pending == 0 && s.posted == BlockCount(data) && forall j :: 0 <= j < n ==> s.streams[j].exit
    case Done => s.pending == 0 && s.posted == BlockCount(data)
  }

  function Written(s: State): nat
    requires s.pending <= s.posted && (s.pc.Emitting? ==> s.posted > s.pending)
  {
    s.posted - s.pending - if s.pc.Emitting? then 1 else 0
  }

  ghost predicate FileOk(c: Codec, blocks: seq<Block>, n: nat, s: State) {
    n > 0 && s.pending <= s.posted <= |blocks| && (s.pc.Emitting? ==> s.posted > s.pending) &&
    s.file == Frames(c, blocks, n)[..Written(s)]
  }

  ghost predicate Inv(c: Codec, data: seq<Byte>, n: nat, s: State) {
    Shape(n, s) && s.written <= |data| && s.posted <= BlockCount(data) && s.streamId == s.posted % n &&
    StreamsOk(c, Blocks(data), n, s.posted - s.pending, s.posted, s.streams) &&
    MainOk(data, n, s) && FileOk(c, Blocks(data), n, s)
  }

  lemma InitInv(c: Codec, data: seq<Byte>, n: nat)
    requires n > 0
    ensures Inv(c, data, n, Init(n))
  {
    var s := Init(n);
    forall i | 0 <= i < n ensures StreamAt(c, Blocks(data), n, 0, NextTurn(i, 0, n), s.streams[i]) {
      NextTurnIs(i, 0, n);
    }
  }

  // ---- worker steps ----------------------------------------------------------------------------------------

  /** The turn of stream i and its state. */
  lemma StreamTurn(c: Codec, data: seq<Byte>, n: nat, s: State, i: nat) returns (k: nat)
    requires Inv(c, data, n, s) && i < n
    ensures k == NextTurn(i, s.posted, n) && s.posted <= k < s.posted + n && k % n == i &&
      (k == s.posted <==> i == s.streamId)
    ensures |s.streams| == n && s.pending <= s.posted
    ensures StreamAt(c, Blocks(data), n, s.posted - s.pending, k, s.streams[i])
  {
    k := NextTurn(i, s.posted, n);
    NextTurnIs(i, s.posted, n);
    NextTurnStep(i, s.posted, n);
  }

  /** A step of worker i that keeps its stream in order keeps the invariant, as long as it leaves alone what the main
      thread holds. */
  lemma WorkerKeeps(c: Codec, data: seq<Byte>, n: nat, s: State, i: nat, st: Stream)
    requires Inv(c, data, n, s) && i < n && s.posted >= s.pending
    requires StreamAt(c, Blocks(data), n, s.posted - s.pending, NextTurn(i, s.posted, n), st)
    requires st.exit == s.streams[i].exit
    requires s.pending < n && i == s.streamId ==> st.cur == s.streams[i].cur && st.Input() == s.streams[i].Input()
    ensures Inv(c, data, n, WithStream(s, i, st))
  {
    hide StreamAt, Blocks, NextTurn, BlockCount, Frames;
  }

  lemma StartKeeps(c: Codec, data: seq<Byte>, n: nat, s: State, i: nat)
    requires Inv(c, data, n, s) && Enabled(data, n, s, Start(i))
    ensures Inv(c, data, n, Apply(c, data, n, s, Start(i)))
  {
    hide Inv, NextTurn, Blocks;
    var k := StreamTurn(c, data, n, s, i);
    WorkerKeeps(c, data, n, s, i, s.streams[i].(pc := Busy));
  }

  lemma SignalKeeps(c: Codec, data: seq<Byte>, n: nat, s: State, i: nat)
    requires Inv(c, data, n, s) && Enabled(data, n, s, Signal(i))
    ensures Inv(c, data, n, Apply(c, data, n, s, Signal(i)))
  {
    hide Inv, NextTurn, Blocks;
    var k := StreamTurn(c, data, n, s, i);
    WorkerKeeps(c, data, n, s, i, s.streams[i].(outputReady := true, pc := Idle));
  }

  lemma LeaveKeeps(c: Codec, data: seq<Byte>, n: nat, s: State, i: nat)
    requires Inv(c, data, n, s) && Enabled(data, n, s, Leave(i))
    ensures Inv(c, data, n, Apply(c, data, n, s, Leave(i)))
  {
    hide Inv, NextTurn, Blocks;
    var k := StreamTurn(c, data, n, s, i);
    WorkerKeeps(c, data, n, s, i, s.streams[i].(pc := Gone));
  }

  /** The swap leaves the block just compressed in the other half, as context for the stream's next block. */
  lemma CompressedAt(c: Codec, blocks: seq<Block>, n: nat, t: nat, k: nat, st: Stream)
    requires StreamAt(c, blocks, n, t, k, st) && st.pc == Busy
    ensures k >= n && k - n >= t && st.inputReady && st.size <= |st.Input()|
    ensures StreamAt(c, blocks, n, t, k, Compressed(c, st))
  {
    assert st.Input()[..st.size] == blocks[k - n];
  }

  lemma CompressKeeps(c: Codec, data: seq<Byte>, n: nat, s: State, i: nat)
    requires Inv(c, data, n, s) && Enabled(data, n, s, Compress(i))
    ensures Inv(c, data, n, Apply(c, data, n, s, Compress(i)))
  {
    var k := StreamTurn(c, data, n, s, i);
    CompressedAt(c, Blocks(data), n, s.posted - s.pending, k, s.streams[i]);
    hide Inv, NextTurn, Blocks, StreamAt;
    WorkerKeeps(c, data, n, s, i, Compressed(c, s.streams[i]));
  }

  // ---- main thread steps -----------------------------------------------------------------------------------

  /** The stream whose turn comes next is at rest while fewer than n blocks are pending. */
  lemma HeldAtRest(c: Codec, data: seq<Byte>, n: nat, s: State)
    requires Inv(c, data, n, s) && s.pending < n
    ensures |s.streams| == n && s.streamId < n && NextTurn(s.streamId, s.posted, n) == s.posted
    ensures ghost var st := s.streams[s.streamId];
      !st.inputReady && !st.outputReady && (st.pc == Idle || (st.pc == Gone && st.exit)) &&
      s.posted < |Blocks(data)| + n && st.hist == History(Blocks(data), n, s.posted) &&
      st.Other() == Previous(Blocks(data), n, s.posted)
  {
    var k := StreamTurn(c, data, n, s, s.streamId);
  }

  lemma StreamChanged(c: Codec, blocks: seq<Block>, n: nat, t: nat, p: nat, streams: seq<Stream>, i: nat, st: Stream)
    requires StreamsOk(c, blocks, n, t, p, streams) && i < n && StreamAt(c, blocks, n, t, NextTurn(i, p, n), st)
    ensures StreamsOk(c, blocks, n, t, p, streams[i := st])
  {
    hide StreamAt, NextTurn;
  }

  lemma WrittenStream(c: Codec, data: seq<Byte>, n: nat, s: State, sz: nat)
    requires Inv(c, data, n, s) && Enabled(data, n, s, WriteBytes(sz))
    ensures s.pending <= s.posted && s.held.0 < |s.streams|
    ensures StreamsOk(c, Blocks(data), n, s.posted - s.pending, s.posted, Wrote(data, s, sz).streams)
  {
    HeldAtRest(c, data, n, s);
    var st := Wrote(data, s, sz).streams[s.streamId];
    assert StreamAt(c, Blocks(data), n, s.posted - s.pending, s.posted, st);
    hide StreamAt, Blocks, NextTurn, BlockCount, Frames;
    StreamChanged(c, Blocks(data), n, s.posted - s.pending, s.posted, s.streams, s.streamId, st);
  }

  lemma WrittenHalf(data: seq<Byte>, n: nat, s: State, sz: nat)
    requires Shape(n, s) && HeldOk(data, n, s) && Enabled(data, n, s, WriteBytes(sz))
    ensures HeldOk(data, n, Wrote(data, s, sz))
  {
    var from := PostedBytes(data, s.posted);
    assert data[from..s.written] + data[s.written..s.written + sz] == data[from..s.written + sz];
    assert s.offset == 0 || |s.streams[s.streamId].Input()| == s.offset;
    hide PostedBytes;
  }

  lemma WriteKeeps(c: Codec, data: seq<Byte>, n: nat, s: State, sz: nat)
    requires Inv(c, data, n, s) && Enabled(data, n, s, WriteBytes(sz))
    ensures Inv(c, data, n, Apply(c, data, n, s, WriteBytes(sz)))
  {
    hide HeldOk, StreamsOk, FileOk, Blocks, BlockCount;
    WrittenStream(c, data, n, s, sz);
    WrittenHalf(data, n, s, sz);
    FileOkSame(c, Blocks(data), n, s, Wrote(data, s, sz));
  }

  lemma Unfinished(c: Codec, data: seq<Byte>, n: nat, s: State)
    requires Inv(c, data, n, s) && Enabled(data, n, s, WriteBlock)
    ensures s.posted < BlockCount(data) && s.streams[s.streamId].Input() == BlockAt(data, s.posted)
    ensures PostedBytes(data, s.posted + 1) == s.written && s.offset == |BlockAt(data, s.posted)|
  {
  }

  lemma BlocksAt(data: seq<Byte>, k: nat)
    requires k < BlockCount(data)
    ensures |Blocks(data)| == BlockCount(data) && Blocks(data)[k] == BlockAt(data, k)
  {
  }

  lemma PostedAt(c: Codec, blocks: seq<Block>, n: nat, t: nat, p: nat, st: Stream)
    requires StreamAt(c, blocks, n, t, p, st) && t <= p < |blocks| && (p < n || p - n < t) && !st.exit
    requires st.Input() == blocks[p]
    ensures StreamAt(c, blocks, n, t, p + n, st.(inputReady := true, size := |blocks[p]|))
  {
  }

  lemma PostedStream(c: Codec, data: seq<Byte>, n: nat, s: State, i: nat)
    requires Inv(c, data, n, s) && s.pending < n && s.posted < BlockCount(data) && s.pending <= s.posted &&
      |s.streams| == n
    requires s.streams[s.streamId].Input() == BlockAt(data, s.posted) && s.offset == |BlockAt(data, s.posted)|
    requires AllStay(s) && i < n
    ensures StreamAt(c, Blocks(data), n, s.posted - s.pending, NextTurn(i, s.posted + 1, n), Posted(n, s).streams[i])
  {
    hide Inv, StreamAt, NextTurn, Blocks;
    BlocksAt(data, s.posted);
    var k := StreamTurn(c, data, n, s, i);
    NextTurnStep(i, s.posted, n);
    if i == s.streamId {
      PostedAt(c, Blocks(data), n, s.posted - s.pending, s.posted, s.streams[i]);
    }
  }

  /** All streams but the one that gets the block keep their turns. */
  lemma PostedStreams(c: Codec, data: seq<Byte>, n: nat, s: State)
    requires Inv(c, data, n, s) && s.pending < n && s.posted < BlockCount(data) && s.pending <= s.posted &&
      |s.streams| == n
    requires s.streams[s.streamId].Input() == BlockAt(data, s.posted) && s.offset == |BlockAt(data, s.posted)|
    requires AllStay(s) && Shape(n, s)
    ensures StreamsOk(c, Blocks(data), n, s.posted - s.pending, s.posted + 1, Posted(n, s).streams)
  {
    hide Inv, StreamAt, NextTurn, Blocks, BlockCount;
    forall i | 0 <= i < n
      ensures StreamAt(c, Blocks(data), n, s.posted - s.pending, NextTurn(i, s.posted + 1, n), Posted(n, s).streams[i])
    {
      PostedStream(c, data, n, s, i);
    }
  }

  /** What WriteBlock has done before it collects pending output or goes on to the next buffer. */
  lemma PostedRest(c: Codec, data: seq<Byte>, n: nat, s: State)
    requires Inv(c, data, n, s) && Enabled(data, n, s, WriteBlock) && s.posted < BlockCount(data)
    requires PostedBytes(data, s.posted + 1) == s.written
    ensures Shape(n, s) && s.pending < n && s.pending <= s.posted && AllStay(s)
    ensures ghost var p := Posted(n, s);
      Shape(n, p) && p.posted <= BlockCount(data) && p.streamId == p.posted % n && AllStay(p) && p.pc == Writing &&
      p.pending > 0 && p.written == PostedBytes(data, p.posted) <= |data| && FileOk(c, Blocks(data), n, p)
  {
    RingStep(s.posted, n);
    hide StreamsOk, Frames, BlockAt;
  }

  /** The invariant once the block is handed out, before and after collecting. */
  lemma NextBufferOk(c: Codec, data: seq<Byte>, n: nat, p: State)
    requires Shape(n, p) && p.posted <= BlockCount(data) && p.streamId == p.posted % n && AllStay(p)
    requires p.written == PostedBytes(data, p.posted) <= |data| && !p.pc.Emitting?
    requires FileOk(c, Blocks(data), n, p)
    requires StreamsOk(c, Blocks(data), n, p.posted - p.pending, p.posted, p.streams)
    ensures p.pending < n ==> Inv(c, data, n, NextBuffer(p))
    ensures p.pending > 0 ==> Inv(c, data, n, p.(pc := Processing(true)))
  {
    hide StreamsOk, Blocks, BlockCount, Frames, PostedBytes;
  }

  lemma WriteBlockKeeps(c: Codec, data: seq<Byte>, n: nat, s: State)
    requires Inv(c, data, n, s) && Enabled(data, n, s, WriteBlock)
    ensures Inv(c, data, n, Apply(c, data, n, s, WriteBlock))
  {
    hide Inv, StreamsOk, Blocks, BlockCount, FileOk, PostedBytes, BlockAt, Posted, NextBuffer, AllStay;
    Unfinished(c, data, n, s);
    PostedRest(c, data, n, s);
    PostedStreams(c, data, n, s);
    PostedCounts(n, s);
    NextBufferOk(c, data, n, Posted(n, s));
  }

  lemma PostedCounts(n: nat, s: State)
    requires Shape(n, s)
    ensures Posted(n, s).posted == s.posted + 1 && Posted(n, s).pending == s.pending + 1
  {
  }

  lemma OthersTaken(c: Codec, blocks: seq<Block>, n: nat, t: nat, k: nat, st: Stream)
    requires StreamAt(c, blocks, n, t, k, st) && k != t + n
    ensures StreamAt(c, blocks, n, t + 1, k, st)
  {
  }

  lemma OldestTaken(c: Codec, blocks: seq<Block>, n: nat, t: nat, k: nat, st: Stream)
    requires StreamAt(c, blocks, n, t, k, st) && st.outputReady
    ensures k >= n && k - n >= t && k - n < |blocks|
    ensures k == t + n ==>
      StreamAt(c, blocks, n, t + 1, k, st.(outputReady := false)) && st.frame == FrameAt(c, blocks, n, t)
  {
  }

  lemma TakenStreams(c: Codec, data: seq<Byte>, n: nat, s: State, id: nat)
    requires Inv(c, data, n, s) && 0 < s.pending <= s.posted && id < n && id == (s.posted - s.pending) % n
    requires |s.streams| == n && s.streams[id].outputReady
    ensures StreamsOk(c, Blocks(data), n, s.posted - s.pending + 1, s.posted,
                      s.streams[id := s.streams[id].(outputReady := false)])
    ensures s.posted - s.pending < |Blocks(data)| &&
      s.streams[id].frame == FrameAt(c, Blocks(data), n, s.posted - s.pending)
  {
    PendingBound(c, data, n, s);
    hide Inv, StreamAt, NextTurn, Blocks, FrameAt;
    var t := s.posted - s.pending;
    var k0 := StreamTurn(c, data, n, s, id);
    OldestTaken(c, Blocks(data), n, t, k0, s.streams[id]);
    TurnTaken(t, k0, n, id, id);
    forall i | 0 <= i < n ensures StreamAt(c, Blocks(data), n, t + 1, NextTurn(i, s.posted, n),
                                           s.streams[id := s.streams[id].(outputReady := false)][i]) {
      var k := StreamTurn(c, data, n, s, i);
      TurnTaken(t, k, n, id, i);
      if i != id {
        OthersTaken(c, Blocks(data), n, t, k, s.streams[i]);
      }
    }
  }

  lemma PendingBound(c: Codec, data: seq<Byte>, n: nat, s: State)
    requires Inv(c, data, n, s)
    ensures s.pending <= n && s.pending <= s.posted <= BlockCount(data) && n > 0
  {
  }

  lemma TakenMain(data: seq<Byte>, n: nat, s: State, t: State)
    requires Shape(n, s) && MainOk(data, n, s) && s.pc.Processing? && s.pending > 0 && s.streamId == s.posted % n
    requires PendingId(n, s) == (s.posted - s.pending) % n
    requires ghost var id := PendingId(n, s);
      t == WithStream(s, id, s.streams[id].(outputReady := false)).(pending := s.pending - 1,
                                                                    pc := Emitting(s.pc.next, id))
    ensures Shape(n, t) && MainOk(data, n, t)
  {
    hide PostedBytes, PendingId;
  }

  lemma TakenFile(c: Codec, blocks: seq<Block>, n: nat, s: State, t: State)
    requires FileOk(c, blocks, n, s) && s.pc.Processing? && s.pending > 0
    requires t.file == s.file && t.posted == s.posted && t.pending == s.pending - 1 && t.pc.Emitting?
    ensures FileOk(c, blocks, n, t)
  {
  }

  lemma TakeKeeps(c: Codec, data: seq<Byte>, n: nat, s: State)
    requires Inv(c, data, n, s) && Enabled(data, n, s, Take)
    ensures Inv(c, data, n, Apply(c, data, n, s, Take))
  {
    hide StreamsOk, Blocks, BlockCount, FileOk, PendingId, MainOk;
    var id := PendingId(n, s);
    OldestTurn(s.posted, s.posted - s.pending, n);
    PendingIdIs(n, s);
    TakenStreams(c, data, n, s, id);
    var t := Apply(c, data, n, s, Take);
    TakenFile(c, Blocks(data), n, s, t);
    TakenMain(data, n, s, t);
  }

  lemma PendingIdIs(n: nat, s: State)
    requires n > 0 && s.pending <= n
    ensures PendingId(n, s) == (s.streamId + n - s.pending) % n
  {
  }

  lemma FrameNext(c: Codec, blocks: seq<Block>, n: nat, t: nat)
    requires n > 0 && t < |blocks|
    ensures Frames(c, blocks, n)[..t] + [FrameAt(c, blocks, n, t)] == Frames(c, blocks, n)[..t + 1]
  {
  }

  /** The frame still to be written is the one of the block just taken. */
  lemma EmittedFrame(c: Codec, data: seq<Byte>, n: nat, s: State)
    requires Inv(c, data, n, s) && s.pc.Emitting?
    ensures s.pc.id < n == |s.streams| && 0 < s.posted - s.pending <= |Blocks(data)|
    ensures s.streams[s.pc.id].frame == FrameAt(c, Blocks(data), n, s.posted - s.pending - 1)
  {
    var t := s.posted - s.pending - 1;
    var id := s.pc.id;
    var k := StreamTurn(c, data, n, s, id);
    TurnTaken(t, k, n, id, id);
    OldestIs(t, s.posted, k, n, id);
  }

  lemma EmittedMain(data: seq<Byte>, n: nat, s: State, e: State)
    requires Shape(n, s) && MainOk(data, n, s) && s.pc.Emitting? && e == s.(file := e.file) &&
      s.streamId == s.posted % n
    requires s.written <= |data|
    ensures ghost var t := if s.pc.next then NextBuffer(e) else e.(pc := Writing); Shape(n, t) && MainOk(data, n, t)
  {
    hide PostedBytes;
  }

  lemma EmitKeeps(c: Codec, data: seq<Byte>, n: nat, s: State)
    requires Inv(c, data, n, s) && Enabled(data, n, s, Emit)
    ensures Inv(c, data, n, Apply(c, data, n, s, Emit))
  {
    hide StreamsOk, Blocks, BlockCount, FileOk, FrameAt, MainOk;
    EmittedFrame(c, data, n, s);
    var e := s.(file := s.file + [s.streams[s.pc.id].frame]);
    EmittedFile(c, Blocks(data), n, s, e);
    EmittedMain(data, n, s, e);
    FileOkSame(c, Blocks(data), n, e.(pc := Writing), NextBuffer(e));
  }

  lemma EmittedFile(c: Codec, blocks: seq<Block>, n: nat, s: State, e: State)
    requires FileOk(c, blocks, n, s) && s.pc.Emitting? && e == s.(file := e.file)
    requires s.posted - s.pending - 1 < |blocks|
    requires e.file == s.file + [FrameAt(c, blocks, n, s.posted - s.pending - 1)]
    ensures FileOk(c, blocks, n, e.(pc := Writing))
  {
    FrameNext(c, blocks, n, s.posted - s.pending - 1);
  }

  lemma FileOkSame(c: Codec, blocks: seq<Block>, n: nat, s: State, t: State)
    requires FileOk(c, blocks, n, s) && !s.pc.Emitting? && !t.pc.Emitting?
    requires t.file == s.file && t.posted == s.posted && t.pending == s.pending
    ensures FileOk(c, blocks, n, t)
  {
  }

  lemma EndKeeps(c: Codec, data: seq<Byte>, n: nat, s: State, step: Step)
    requires Inv(c, data, n, s) && Enabled(data, n, s, step) &&
      (step == FinishPending || step == FinishDone || step == Join)
    ensures Inv(c, data, n, Apply(c, data, n, s, step))
  {
    hide StreamsOk, Frames, FrameAt;
  }

  lemma SetExitKeeps(c: Codec, data: seq<Byte>, n: nat, s: State)
    requires Inv(c, data, n, s) && Enabled(data, n, s, SetExit)
    ensures Inv(c, data, n, Apply(c, data, n, s, SetExit))
  {
    if s.pc.i < n {
      var k := StreamTurn(c, data, n, s, s.pc.i);
      assert StreamAt(c, Blocks(data), n, s.posted, k, s.streams[s.pc.i].(exit := true));
    }
    hide StreamAt, Frames, FrameAt, NextTurn, Blocks, BlockCount;
  }

  /** Every step of every thread keeps the invariant. */
  lemma StepKeeps(c: Codec, data: seq<Byte>, n: nat, s: State, step: Step)
    requires Inv(c, data, n, s) && Enabled(data, n, s, step)
    ensures Inv(c, data, n, Apply(c, data, n, s, step))
  {
    hide Inv, Apply, Enabled;
    match step
    case WriteBytes(sz) => WriteKeeps(c, data, n, s, sz);
    case WriteBlock => WriteBlockKeeps(c, data, n, s);
    case FinishPending => EndKeeps(c, data, n, s, step);
    case Take => TakeKeeps(c, data, n, s);
    case Emit => EmitKeeps(c, data, n, s);
    case FinishDone => EndKeeps(c, data, n, s, step);
    case SetExit => SetExitKeeps(c, data, n, s);
    case Join => EndKeeps(c, data, n, s, step);
    case Start(i) => StartKeeps(c, data, n, s, i);
    case Compress(i) => CompressKeeps(c, data, n, s, i);
    case Signal(i) => SignalKeeps(c, data, n, s, i);
    case Leave(i) => LeaveKeeps(c, data, n, s, i);
  }

  // ---- whole runs ------------------------------------------------------------------------------------------

  /** No worker is at its buffers while the main thread writes to the half-buffer it holds of the same stream. */
  lemma HeldUntouched(c: Codec, data: seq<Byte>, n: nat, s: State, i: nat)
    requires Inv(c, data, n, s) && s.pc == Writing && i < n && s.streams[i].pc == Busy
    ensures i != s.held.0
  {
    var k := StreamTurn(c, data, n, s, i);
  }

  /** Until all is written and joined some thread can take a step. */
  lemma Progress(c: Codec, data: seq<Byte>, n: nat, s: State) returns (step: Step)
    requires Inv(c, data, n, s) && s.pc != Done
    ensures Enabled(data, n, s, step)
  {
    match s.pc
    case Writing =>
      if s.offset == FILE_BUF_SIZE || (s.offset > 0 && s.written == |data|) {
        step := WriteBlock;
      } else if s.written < |data| {
        step := WriteBytes(1);
      } else if s.pending > 0 {
        step := FinishPending;
      } else {
        step := FinishDone;
      }
    case Processing(next) =>
      if s.streams[PendingId(n, s)].outputReady {
        step := Take;
      } else {
        step := PendingProgress(c, data, n, s);
      }
    case Emitting(next, id) => step := Emit;
    case Exiting(i) => step := SetExit;
    case Joining => step := JoinProgress(c, data, n, s);
  }

  /** The worker of the oldest pending block is on its way. */
  lemma PendingProgress(c: Codec, data: seq<Byte>, n: nat, s: State) returns (step: Step)
    requires Inv(c, data, n, s) && s.pc.Processing? && s.pending > 0 && !s.streams[PendingId(n, s)].outputReady
    ensures Enabled(data, n, s, step)
  {
    var id := PendingId(n, s);
    OldestTurn(s.posted, s.posted - s.pending, n);
    var k := StreamTurn(c, data, n, s, id);
    OldestIs(s.posted - s.pending, s.posted, k, n, id);
    var st := s.streams[id];
    hide Inv, Blocks, History, Previous, FrameAt, NextTurn;
    step := if st.pc == Idle then Start(id) else if st.pc == Busy then Compress(id) else Signal(id);
  }

  lemma JoinProgress(c: Codec, data: seq<Byte>, n: nat, s: State) returns (step: Step)
    requires Inv(c, data, n, s) && s.pc == Joining
    ensures Enabled(data, n, s, step)
  {
    if i :| 0 <= i < n && s.streams[i].pc != Gone {
      var k := StreamTurn(c, data, n, s, i);
      step := Leave(i);
    } else {
      step := Join;
    }
  }

  function Work(st: Stream): (w: nat) {
    match st.pc
    case Gone => 0
    case Idle => if st.inputReady then 4 else 1
    case Busy => 3
    case Signalling => 2
  }

  function TotalWork(streams: seq<Stream>): (w: nat) {
    if streams == [] then 0 else TotalWork(streams[..|streams| - 1]) + Work(streams[|streams| - 1])
  }

  lemma {:induction false} WorkChanged(streams: seq<Stream>, i: nat, st: Stream)
    requires i < |streams|
    ensures TotalWork(streams[i := st]) == TotalWork(streams) - Work(streams[i]) + Work(st)
    decreases |streams|
  {
    var last := |streams| - 1;
    if i < last {
      WorkChanged(streams[..last], i, st);
      assert streams[i := st][..last] == streams[..last][i := st];
    } else {
      assert streams[i := st][..last] == streams[..last];
    }
  }

  function Rank(n: nat, pc: MainPc): (r: int) {
    match pc
    case Writing => n + 5
    case Processing(_) => n + 4
    case Emitting(_, _) => n + 3
    case Exiting(i) => n + 2 - i
    case Joining => 1
    case Done => 0
  }

  /** What is left to do; every step makes it smaller. */
  function Left(data: seq<Byte>, n: nat, s: State): int {
    |data| - s.written + 4 * (BlockCount(data) - s.posted) + 3 * (BlockCount(data) - |s.file|) + Rank(n, s.pc) +
    TotalWork(s.streams)
  }

  lemma LeftBound(c: Codec, data: seq<Byte>, n: nat, s: State)
    requires Inv(c, data, n, s)
    ensures Left(data, n, s) >= 0
  {
    assert |s.file| <= s.posted;
    hide StreamsOk, BlockCount, TotalWork, HeldOk;
  }

  lemma WorkerShrinks(data: seq<Byte>, n: nat, s: State, i: nat, st: Stream)
    requires i < |s.streams| && Work(st) < Work(s.streams[i])
    ensures Left(data, n, WithStream(s, i, st)) < Left(data, n, s)
  {
    WorkChanged(s.streams, i, st);
    hide TotalWork, Work, BlockCount, Rank;
  }

  lemma WriteShrinks(data: seq<Byte>, n: nat, s: State, sz: nat)
    requires Shape(n, s) && Enabled(data, n, s, WriteBytes(sz))
    ensures Left(data, n, Wrote(data, s, sz)) < Left(data, n, s)
  {
    var t := Wrote(data, s, sz);
    WorkChanged(s.streams, s.held.0, t.streams[s.held.0]);
    hide TotalWork, BlockCount, Rank;
  }

  lemma WriteBlockShrinks(c: Codec, data: seq<Byte>, n: nat, s: State)
    requires Shape(n, s) && Enabled(data, n, s, WriteBlock)
    ensures Left(data, n, Apply(c, data, n, s, WriteBlock)) < Left(data, n, s)
  {
    var t := Posted(n, s);
    WorkChanged(s.streams, s.streamId, t.streams[s.streamId]);
    assert Work(t.streams[s.streamId]) <= Work(s.streams[s.streamId]) + 3;
    hide TotalWork, BlockCount, Work;
  }

  lemma MainShrinks(c: Codec, data: seq<Byte>, n: nat, s: State, step: Step)
    requires Shape(n, s) && Enabled(data, n, s, step)
    requires step.Take? || step.Emit? || step.FinishPending? || step.FinishDone? || step.SetExit? || step.Join?
    ensures Left(data, n, Apply(c, data, n, s, step)) < Left(data, n, s)
  {
    if step.Take? {
      var id := PendingId(n, s);
      WorkChanged(s.streams, id, s.streams[id].(outputReady := false));
    } else if step.SetExit? && s.pc.i < n {
      WorkChanged(s.streams, s.pc.i, s.streams[s.pc.i].(exit := true));
    }
    hide TotalWork, BlockCount, PendingId;
  }

  lemma SignalShrinks(c: Codec, data: seq<Byte>, n: nat, s: State, i: nat)
    requires Inv(c, data, n, s) && i < n && s.streams[i].pc == Signalling
    ensures Left(data, n, WithStream(s, i, s.streams[i].(outputReady := true, pc := Idle))) < Left(data, n, s)
  {
    var k := StreamTurn(c, data, n, s, i);
    hide Inv, Left;
    WorkerShrinks(data, n, s, i, s.streams[i].(outputReady := true, pc := Idle));
  }

  lemma StepShrinks(c: Codec, data: seq<Byte>, n: nat, s: State, step: Step)
    requires Inv(c, data, n, s) && Shape(n, s) && Enabled(data, n, s, step)
    ensures Left(data, n, Apply(c, data, n, s, step)) < Left(data, n, s)
  {
    hide Left, Inv;
    match step
    case WriteBytes(sz) => WriteShrinks(data, n, s, sz);
    case WriteBlock => WriteBlockShrinks(c, data, n, s);
    case Start(i) => WorkerShrinks(data, n, s, i, s.streams[i].(pc := Busy));
    case Compress(i) => WorkerShrinks(data, n, s, i, Compressed(c, s.streams[i]));
    case Signal(i) => SignalShrinks(c, data, n, s, i);
    case Leave(i) => WorkerShrinks(data, n, s, i, s.streams[i].(pc := Gone));
    case _ => MainShrinks(c, data, n, s, step);
  }

  ghost predicate IsRun(c: Codec, data: seq<Byte>, n: nat, s: State, steps: seq<Step>)
    decreases |steps|
  {
    Shape(n, s) &&
    (steps == [] || (Enabled(data, n, s, steps[0]) && IsRun(c, data, n, Apply(c, data, n, s, steps[0]), steps[1..])))
  }

  ghost function After(c: Codec, data: seq<Byte>, n: nat, s: State, steps: seq<Step>): State
    requires IsRun(c, data, n, s, steps)
    decreases |steps|
  {
    if steps == [] then s else After(c, data, n, Apply(c, data, n, s, steps[0]), steps[1..])
  }

  lemma {:induction false} RunKeeps(c: Codec, data: seq<Byte>, n: nat, s: State, steps: seq<Step>)
    requires Inv(c, data, n, s) && IsRun(c, data, n, s, steps)
    ensures Inv(c, data, n, After(c, data, n, s, steps))
    ensures |steps| + Left(data, n, After(c, data, n, s, steps)) <= Left(data, n, s)
    decreases |steps|
  {
    hide Inv, Enabled, Apply, Left;
    if steps != [] {
      StepKeeps(c, data, n, s, steps[0]);
      StepShrinks(c, data, n, s, steps[0]);
      RunKeeps(c, data, n, Apply(c, data, n, s, steps[0]), steps[1..]);
    }
  }

  /** Every run, whatever the interleaving, is finite and can only end when the file holds the frames of all blocks
      in order. */
  lemma WritingEnds(c: Codec, data: seq<Byte>, n: nat, steps: seq<Step>)
    requires n > 0 && IsRun(c, data, n, Init(n), steps)
    ensures |steps| <= Left(data, n, Init(n))
    ensures ghost var s := After(c, data, n, Init(n), steps);
      Shape(n, s) &&
        if s.pc == Done then s.file == Frames(c, Blocks(data), n) else exists step :: Enabled(data, n, s, step)
  {
    InitInv(c, data, n);
    RunKeeps(c, data, n, Init(n), steps);
    var s := After(c, data, n, Init(n), steps);
    LeftBound(c, data, n, s);
    if s.pc != Done {
      var step := Progress(c, data, n, s);
    }
  }
}
