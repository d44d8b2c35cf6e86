/** A write or read of any size as a sequence of steps of the rings: what a caller of FileWrite and FileRead asks for,
    the threads can do, from wherever they are. */
module StreamRuns {
  import opened FileBlocks
  import opened FileStreams
  import R = ReadRing
  import W = WriteRing

  // ---- writing ---------------------------------------------------------------------------------------------

  lemma WriteCons(c: Codec, data: seq<Byte>, n: nat, s: W.State, step: W.Step, rest: seq<W.Step>)
    requires W.Shape(n, s) && W.Enabled(data, n, s, step)
    requires W.IsRun(c, data, n, W.Apply(c, data, n, s, step), rest)
    ensures W.IsRun(c, data, n, s, [step] + rest)
    ensures W.After(c, data, n, s, [step] + rest) == W.After(c, data, n, W.Apply(c, data, n, s, step), rest)
  {
    hide W.Apply, W.Enabled;
    assert ([step] + rest)[1..] == rest;
  }

  lemma {:induction false} WriteJoin(c: Codec, data: seq<Byte>, n: nat, s: W.State, xs: seq<W.Step>, ys: seq<W.Step>)
    requires W.IsRun(c, data, n, s, xs) && W.IsRun(c, data, n, W.After(c, data, n, s, xs), ys)
    ensures W.IsRun(c, data, n, s, xs + ys)
    ensures W.After(c, data, n, s, xs + ys) == W.After(c, data, n, W.After(c, data, n, s, xs), ys)
    decreases |xs|
  {
    hide W.Apply, W.Enabled;
    if xs == [] {
      assert xs + ys == ys;
    } else {
      WriteJoin(c, data, n, W.Apply(c, data, n, s, xs[0]), xs[1..], ys);
      assert (xs + ys)[1..] == xs[1..] + ys;
    }
  }

  /** The main thread is writing, or on its way back to it from WriteBlock. */
  predicate Returning(s: W.State) {
    s.pc == W.Writing || s.pc == W.Processing(true) || (s.pc.Emitting? && s.pc.next)
  }

  lemma ReturningStep(c: Codec, data: seq<Byte>, n: nat, s: W.State, step: W.Step)
    requires W.Shape(n, s) && W.Enabled(data, n, s, step) && Returning(s) && s.pc != W.Writing
    ensures ghost var t := W.Apply(c, data, n, s, step);
      Returning(t) && t.written == s.written && t.posted == s.posted && (t.pc == W.Writing ==> t.offset == 0)
  {
    hide W.Compressed;
  }

  /** WriteBlock always returns: with the next buffer, and nothing written in between. */
  lemma {:induction false} BackToWriting(c: Codec, data: seq<Byte>, n: nat, s: W.State) returns (steps: seq<W.Step>)
    requires W.Inv(c, data, n, s) && Returning(s)
    ensures W.IsRun(c, data, n, s, steps)
    ensures ghost var t := W.After(c, data, n, s, steps);
      W.Inv(c, data, n, t) && t.pc == W.Writing && t.written == s.written && t.posted == s.posted &&
      if s.pc == W.Writing then t == s else t.offset == 0
    decreases W.Left(data, n, s)
  {
    hide W.Inv, W.Apply, W.Enabled, W.Left, Returning;
    WriteShape(c, data, n, s);
    if s.pc == W.Writing {
      steps := [];
    } else {
      ReturningNotDone(s);
      var step := W.Progress(c, data, n, s);
      W.StepKeeps(c, data, n, s, step);
      W.StepShrinks(c, data, n, s, step);
      ReturningStep(c, data, n, s, step);
      var t := W.Apply(c, data, n, s, step);
      W.LeftBound(c, data, n, t);
      var rest := BackToWriting(c, data, n, t);
      WriteCons(c, data, n, s, step, rest);
      steps := [step] + rest;
    }
  }

  lemma ReturningNotDone(s: W.State)
    requires Returning(s)
    ensures s.pc != W.Done
  {
  }

  lemma WriteShape(c: Codec, data: seq<Byte>, n: nat, s: W.State)
    requires W.Inv(c, data, n, s)
    ensures W.Shape(n, s) && s.written <= |data| && (s.pc == W.Writing ==> s.offset <= FILE_BUF_SIZE)
  {
  }

  lemma PieceEnabled(c: Codec, data: seq<Byte>, n: nat, s: W.State, k: nat)
    requires W.Inv(c, data, n, s) && s.pc == W.Writing && 0 < k && s.written + k <= |data| &&
      s.offset + k <= FILE_BUF_SIZE
    ensures W.Shape(n, s) && W.Enabled(data, n, s, W.WriteBytes(k))
    ensures ghost var t := W.Apply(c, data, n, s, W.WriteBytes(k));
      t.pc == W.Writing && t.written == s.written + k && t.offset == s.offset + k
  {
  }

  lemma BlockEnabled(c: Codec, data: seq<Byte>, n: nat, s: W.State)
    requires W.Inv(c, data, n, s) && s.pc == W.Writing && s.offset == FILE_BUF_SIZE
    ensures W.Shape(n, s) && W.Enabled(data, n, s, W.WriteBlock)
    ensures ghost var t := W.Apply(c, data, n, s, W.WriteBlock);
      Returning(t) && t.written == s.written && (t.pc == W.Writing ==> t.offset == 0)
  {
  }

  /** From wherever the threads are, a write of any size can be taken to its end. */
  lemma {:induction false} WriteSteps(c: Codec, data: seq<Byte>, n: nat, s: W.State, size: nat)
    returns (steps: seq<W.Step>)
    requires W.Inv(c, data, n, s) && s.pc == W.Writing && s.written + size <= |data|
    ensures W.IsRun(c, data, n, s, steps)
    ensures ghost var t := W.After(c, data, n, s, steps);
      W.Inv(c, data, n, t) && t.pc == W.Writing && t.written == s.written + size
    decreases size, s.offset == FILE_BUF_SIZE
  {
    hide W.Inv, W.Apply, W.Enabled, Returning;
    WriteShape(c, data, n, s);
    if size == 0 {
      steps := [];
    } else if s.offset == FILE_BUF_SIZE {
      BlockEnabled(c, data, n, s);
      W.StepKeeps(c, data, n, s, W.WriteBlock);
      var t := W.Apply(c, data, n, s, W.WriteBlock);
      var back := BackToWriting(c, data, n, t);
      var rest := WriteSteps(c, data, n, W.After(c, data, n, t, back), size);
      WriteJoin(c, data, n, t, back, rest);
      WriteCons(c, data, n, s, W.WriteBlock, back + rest);
      steps := [W.WriteBlock] + (back + rest);
    } else {
      var k := if size < FILE_BUF_SIZE - s.offset then size else FILE_BUF_SIZE - s.offset;
      PieceEnabled(c, data, n, s, k);
      W.StepKeeps(c, data, n, s, W.WriteBytes(k));
      var t := W.Apply(c, data, n, s, W.WriteBytes(k));
      var rest := WriteSteps(c, data, n, t, size - k);
      WriteCons(c, data, n, s, W.WriteBytes(k), rest);
      steps := [W.WriteBytes(k)] + rest;
    }
  }

  /** And from wherever they are, they can finish. */
  lemma {:induction false} FinishSteps(c: Codec, data: seq<Byte>, n: nat, s: W.State) returns (steps: seq<W.Step>)
    requires W.Inv(c, data, n, s)
    ensures W.IsRun(c, data, n, s, steps)
    ensures ghost var t := W.After(c, data, n, s, steps);
      W.Inv(c, data, n, t) && t.pc == W.Done
    decreases W.Left(data, n, s)
  {
    hide W.Inv, W.Apply, W.Enabled, W.Left;
    WriteShape(c, data, n, s);
    if s.pc == W.Done {
      steps := [];
    } else {
      var step := W.Progress(c, data, n, s);
      W.StepKeeps(c, data, n, s, step);
      W.StepShrinks(c, data, n, s, step);
      var t := W.Apply(c, data, n, s, step);
      W.LeftBound(c, data, n, t);
      var rest := FinishSteps(c, data, n, t);
      WriteCons(c, data, n, s, step, rest);
      steps := [step] + rest;
    }
  }

  lemma DoneFile(c: Codec, data: seq<Byte>, n: nat, s: W.State)
    requires W.Inv(c, data, n, s) && s.pc == W.Done
    ensures s.file == Frames(c, Blocks(data), n)
  {
  }

  /** Write, and the steps the ring takes for it. data is all that will ever be written. */
  method WriteAlong(f: FileWrite, src: seq<Byte>, ghost c: Codec, ghost data: seq<Byte>, ghost n: nat, ghost s: W.State)
    returns (ghost steps: seq<W.Step>)
    requires f.Valid() && !f.finished && f.data + src <= data
    requires W.Inv(c, data, n, s) && s.pc == W.Writing && s.written == |f.data|
    modifies f
    ensures f.Valid() && !f.finished && f.data == old(f.data) + src
    ensures W.IsRun(c, data, n, s, steps)
    ensures ghost var t := W.After(c, data, n, s, steps);
      W.Inv(c, data, n, t) && t.pc == W.Writing && t.written == |f.data|
  {
    hide W.Inv, W.IsRun, W.After;
    f.Write(src);
    steps := WriteSteps(c, data, n, s, |src|);
  }

  /** Finish, and the steps the ring takes for it: the file has the frames of the blocks handed out. */
  method FinishAlong(f: FileWrite, ghost c: Codec, ghost n: nat, ghost s: W.State) returns (ghost steps: seq<W.Step>)
    requires f.Valid() && !f.finished
    requires W.Inv(c, f.data, n, s) && s.pc == W.Writing && s.written == |f.data|
    modifies f
    ensures f.Valid() && f.finished && f.data == old(f.data)
    ensures W.IsRun(c, f.data, n, s, steps)
    ensures ghost var t := W.After(c, f.data, n, s, steps); t.pc == W.Done && t.file == Frames(c, f.blocks, n)
  {
    hide W.Inv, W.IsRun, W.After, Frames, Blocks;
    steps := FinishSteps(c, f.data, n, s);
    DoneFile(c, f.data, n, W.After(c, f.data, n, s, steps));
    f.Finish();
  }

  // ---- reading ---------------------------------------------------------------------------------------------

  /** The bytes of all pieces read. */
  function Bytes(log: seq<R.Piece>): (r: seq<Byte>) {
    if log == [] then [] else Bytes(log[..|log| - 1]) + log[|log| - 1].bytes
  }

  lemma BytesSnoc(log: seq<R.Piece>, p: R.Piece)
    ensures Bytes(log + [p]) == Bytes(log) + p.bytes
  {
    assert (log + [p])[..|log|] == log;
  }

  lemma ReadCons(c: Codec, data: seq<Byte>, file: seq<Frame>, m: nat, s: R.State, step: R.Step, rest: seq<R.Step>)
    requires R.Shape(m, s) && R.Enabled(data, file, m, s, step)
    requires R.IsRun(c, data, file, m, R.Apply(c, data, file, m, s, step), rest)
    ensures R.IsRun(c, data, file, m, s, [step] + rest)
    ensures R.After(c, data, file, m, s, [step] + rest) ==
            R.After(c, data, file, m, R.Apply(c, data, file, m, s, step), rest)
  {
    hide R.Apply, R.Enabled;
    assert ([step] + rest)[1..] == rest;
  }

  lemma {:induction false} ReadJoin(c: Codec, data: seq<Byte>, file: seq<Frame>, m: nat, s: R.State, xs: seq<R.Step>,
                                    ys: seq<R.Step>)
    requires R.IsRun(c, data, file, m, s, xs) && R.IsRun(c, data, file, m, R.After(c, data, file, m, s, xs), ys)
    ensures R.IsRun(c, data, file, m, s, xs + ys)
    ensures R.After(c, data, file, m, s, xs + ys) == R.After(c, data, file, m, R.After(c, data, file, m, s, xs), ys)
    decreases |xs|
  {
    hide R.Apply, R.Enabled;
    if xs == [] {
      assert xs + ys == ys;
    } else {
      ReadJoin(c, data, file, m, R.Apply(c, data, file, m, s, xs[0]), xs[1..], ys);
      assert (xs + ys)[1..] == xs[1..] + ys;
    }
  }

  /** The main thread is reading, or on its way there. */
  predicate Coming(s: R.State) {
    s.pc.Setup? || s.pc == R.Waiting || s.pc == R.Posting || s.pc == R.Reading
  }

  lemma ComingStep(c: Codec, data: seq<Byte>, file: seq<Frame>, m: nat, s: R.State, step: R.Step)
    requires R.Shape(m, s) && R.Enabled(data, file, m, s, step) && Coming(s) && s.pc != R.Reading
    ensures ghost var t := R.Apply(c, data, file, m, s, step);
      Coming(t) && t.pos == s.pos && t.log == s.log &&
      (t.pc == R.Reading ==> s.pc == R.Posting && t.offset == s.offset)
  {
    hide R.Unpacked, R.Fed;
  }

  lemma ReadShape(c: Codec, data: seq<Byte>, m: nat, s: R.State)
    requires R.Inv(c, data, m, s)
    ensures R.Shape(m, s) && s.pos <= |data| && (s.pc == R.Reading ==> s.offset <= FILE_BUF_SIZE)
    ensures s.pc == R.Posting ==> s.offset == 0
  {
  }

  /** The next block always comes, and nothing is read before. */
  lemma {:induction false} ToReading(c: Codec, data: seq<Byte>, m: nat, s: R.State) returns (steps: seq<R.Step>)
    requires Inverse(c) && R.Inv(c, data, m, s) && Coming(s) && m > 0
    ensures R.IsRun(c, data, Frames(c, Blocks(data), m), m, s, steps)
    ensures ghost var t := R.After(c, data, Frames(c, Blocks(data), m), m, s, steps);
      R.Inv(c, data, m, t) && t.pc == R.Reading && t.pos == s.pos && t.log == s.log &&
      if s.pc == R.Reading then t == s else t.offset == 0
    decreases R.Left(data, m, s)
  {
    hide R.Inv, R.Apply, R.Enabled, R.Left, Inverse, Frames, Blocks, Coming;
    ReadShape(c, data, m, s);
    if s.pc == R.Reading {
      steps := [];
    } else {
      var file := Frames(c, Blocks(data), m);
      ComingNotDone(s);
      var step := R.Progress(c, data, m, s);
      R.StepKeeps(c, data, m, s, step);
      R.StepShrinks(c, data, file, m, s, step);
      ComingStep(c, data, file, m, s, step);
      var t := R.Apply(c, data, file, m, s, step);
      R.LeftBound(c, data, m, t);
      var rest := ToReading(c, data, m, t);
      ReadCons(c, data, file, m, s, step, rest);
      steps := [step] + rest;
    }
  }

  lemma ComingNotDone(s: R.State)
    requires Coming(s)
    ensures s.pc != R.Done
  {
  }

  lemma NextEnabled(c: Codec, data: seq<Byte>, file: seq<Frame>, m: nat, s: R.State)
    requires R.Inv(c, data, m, s) && s.pc == R.Reading && s.offset == FILE_BUF_SIZE && s.pos < |data|
    ensures R.Shape(m, s) && R.Enabled(data, file, m, s, R.NextBlock)
    ensures ghost var t := R.Apply(c, data, file, m, s, R.NextBlock);
      Coming(t) && t.pc == R.Waiting && t.pos == s.pos && t.log == s.log
  {
  }

  lemma ReadEnabled(c: Codec, data: seq<Byte>, file: seq<Frame>, m: nat, s: R.State, k: nat)
    requires R.Inv(c, data, m, s) && s.pc == R.Reading && 0 < k && s.pos + k <= |data| && s.offset + k <= FILE_BUF_SIZE
    ensures R.Shape(m, s) && R.Enabled(data, file, m, s, R.Read(k))
    ensures ghost var t := R.Apply(c, data, file, m, s, R.Read(k)); t.pc == R.Reading && t.pos == s.pos + k
    ensures ghost var t := R.Apply(c, data, file, m, s, R.Read(k));
      Bytes(t.log) == Bytes(s.log) + data[s.pos..s.pos + k]
  {
    R.ReadKeeps(c, data, file, m, s, k);
    BytesSnoc(s.log, R.Piece(s.pos, data[s.pos..s.pos + k]));
    hide R.Inv, Bytes, R.BytesAt;
  }

  lemma SlicesJoined(log: seq<Byte>, data: seq<Byte>, i: nat, j: nat, k: nat)
    requires i <= j <= k <= |data|
    ensures log + data[i..j] + data[j..k] == log + data[i..k]
  {
    assert data[i..j] + data[j..k] == data[i..k];
  }

  /** From wherever the threads are, a read of any size can be taken to its end, in pieces that make up the data from
      the position on. */
  lemma {:induction false} ReadSteps(c: Codec, data: seq<Byte>, m: nat, s: R.State, size: nat)
    returns (steps: seq<R.Step>)
    requires Inverse(c) && R.Inv(c, data, m, s) && s.pc == R.Reading && s.pos + size <= |data| && m > 0
    ensures R.IsRun(c, data, Frames(c, Blocks(data), m), m, s, steps)
    ensures ghost var t := R.After(c, data, Frames(c, Blocks(data), m), m, s, steps);
      R.Inv(c, data, m, t) && t.pc == R.Reading && t.pos == s.pos + size &&
      Bytes(t.log) == Bytes(s.log) + data[s.pos..s.pos + size]
    decreases size, s.offset == FILE_BUF_SIZE
  {
    hide R.Inv, R.Apply, R.Enabled, Inverse, Frames, Blocks, Coming, Bytes;
    ReadShape(c, data, m, s);
    var file := Frames(c, Blocks(data), m);
    if size == 0 {
      steps := [];
      assert Bytes(s.log) + data[s.pos..s.pos] == Bytes(s.log);
    } else if s.offset == FILE_BUF_SIZE {
      NextEnabled(c, data, file, m, s);
      R.StepKeeps(c, data, m, s, R.NextBlock);
      var t := R.Apply(c, data, file, m, s, R.NextBlock);
      var next := ToReading(c, data, m, t);
      var rest := ReadSteps(c, data, m, R.After(c, data, file, m, t, next), size);
      ReadJoin(c, data, file, m, t, next, rest);
      ReadCons(c, data, file, m, s, R.NextBlock, next + rest);
      steps := [R.NextBlock] + (next + rest);
    } else {
      var k := if size < FILE_BUF_SIZE - s.offset then size else FILE_BUF_SIZE - s.offset;
      ReadEnabled(c, data, file, m, s, k);
      R.StepKeeps(c, data, m, s, R.Read(k));
      var t := R.Apply(c, data, file, m, s, R.Read(k));
      var rest := ReadSteps(c, data, m, t, size - k);
      ReadCons(c, data, file, m, s, R.Read(k), rest);
      SlicesJoined(Bytes(s.log), data, s.pos, s.pos + k, s.pos + size);
      steps := [R.Read(k)] + rest;
    }
  }

  /** Read, and the steps the ring takes for it: the pieces they deliver make up what is returned. */
  method ReadAlong(f: FileRead, size: nat, ghost c: Codec, ghost m: nat, ghost s: R.State)
    returns (dst: seq<Byte>, ghost steps: seq<R.Step>)
    requires f.Valid() && f.Pos() + size <= |f.data|
    requires Inverse(c) && R.Inv(c, f.data, m, s) && s.pc == R.Reading && s.pos == f.Pos() && m > 0
    modifies f
    ensures f.Valid() && f.Pos() == old(f.Pos()) + size
    ensures R.IsRun(c, f.data, Frames(c, Blocks(f.data), m), m, s, steps)
    ensures ghost var t := R.After(c, f.data, Frames(c, Blocks(f.data), m), m, s, steps);
      R.Inv(c, f.data, m, t) && t.pc == R.Reading && t.pos == f.Pos() && Bytes(t.log) == Bytes(s.log) + dst
  {
    hide R.Inv, R.IsRun, R.After, Frames, Blocks, Inverse, Bytes;
    dst := f.Read(size);
    steps := ReadSteps(c, f.data, m, s, size);
  }

  /** Opening a file, and the steps that bring the first block. */
  method OpenAlong(blocks: seq<Block>, ghost data: seq<Byte>, ghost c: Codec, ghost m: nat)
    returns (f: FileRead, ghost steps: seq<R.Step>)
    requires blocks == Blocks(data) && |data| > 0 && Inverse(c) && 0 < m <= BlockCount(data)
    ensures fresh(f) && f.Valid() && f.Pos() == 0 && f.data == data
    ensures R.IsRun(c, data, Frames(c, Blocks(data), m), m, R.Init(m), steps)
    ensures ghost var t := R.After(c, data, Frames(c, Blocks(data), m), m, R.Init(m), steps);
      R.Inv(c, data, m, t) && t.pc == R.Reading && t.pos == 0 && t.log == []
  {
    f := new FileRead(blocks, data);
    hide R.Inv, R.IsRun, R.After, Frames, Blocks, Inverse, BlockCount;
    R.InitInv(c, data, m);
    steps := ToReading(c, data, m, R.Init(m));
  }
}
