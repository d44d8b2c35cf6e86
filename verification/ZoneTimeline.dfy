/** Zones of a thread's timeline, and how they are saved: delta-coded times, recursion into the children, and on
    reading a record read ahead together with the end of the zone before it. */
module ZoneTimeline {

  datatype Zone = Zone(srcloc: int, start: int, end: int, extra: nat, children: seq<Zone>)

  /** The values the file is made of. */
  datatype Token = Size(size: nat) | SrcLoc(srcloc: int) | Time(offset: int) | Extra(extra: nat)

  // ---- the format ------------------------------------------------------------------------------------------

  /** The reference time after a list of zones that was begun at ref. */
  function RefAfter(vec: seq<Zone>, ref: int): int {
    if vec == [] then ref else vec[|vec| - 1].end
  }

  function Header(z: Zone, ref: int): (t: seq<Token>) {
    [SrcLoc(z.srcloc), Time(z.start - ref), Extra(z.extra), Size(|z.children|)]
  }

  /** The records of a list of zones; every time is relative to the time written before it. */
  function Encoded(vec: seq<Zone>, ref: int): (t: seq<Token>)
    decreases vec
  {
    if vec == [] then []
    else
      Header(vec[0], ref) + Encoded(vec[0].children, vec[0].start) +
      [Time(vec[0].end - RefAfter(vec[0].children, vec[0].start))] + Encoded(vec[1..], vec[0].end)
  }

  /** How many child vectors the zones of the list have, at any depth. */
  function Vectors(vec: seq<Zone>): (n: nat)
    decreases vec
  {
    if vec == [] then 0
    else (if vec[0].children == [] then 0 else 1 + Vectors(vec[0].children)) + Vectors(vec[1..])
  }

  lemma Associate(a: seq<Token>, b: seq<Token>, c: seq<Token>)
    ensures (a + b) + c == a + (b + c)
  {
  }

  // ---- writing ---------------------------------------------------------------------------------------------

  class TimelineWriter {
    var output: seq<Token>
    var refTime: int

    constructor (refTime: int)
      ensures output == [] && this.refTime == refTime
    {
      output, this.refTime := [], refTime;
    }

    method WriteTimeOffset(time: int)
      modifies this
      ensures output == old(output) + [Time(time - old(refTime))] && refTime == time
    {
      var timeOffset := time - refTime;
      refTime := refTime + timeOffset;
      output := output + [Time(timeOffset)];
    }

    /** WriteTimeline: the number of zones, then their records. */
    method WriteTimeline(vec: seq<Zone>)
      modifies this
      ensures output == old(output) + [Size(|vec|)] + Encoded(vec, old(refTime)) &&
        refTime == RefAfter(vec, old(refTime))
      decreases vec, 2
    {
      output := output + [Size(|vec|)];
      WriteZones(vec);
    }

    method WriteZones(vec: seq<Zone>)
      modifies this
      ensures output == old(output) + Encoded(vec, old(refTime)) && refTime == RefAfter(vec, old(refTime))
      decreases vec, 1
    {
      hide Encoded;
      ghost var out, ref := output, refTime;
      EncodedNone(ref);
      for i := 0 to |vec|
        invariant output == out + Encoded(vec[..i], ref) && refTime == RefAfter(vec[..i], ref)
      {
        assert vec[i] in vec;
        EncodedSnoc(vec, i, ref);
        Associate(out, Encoded(vec[..i], ref), Record(vec[i], refTime));
        WriteZone(vec[i]);
      }
      assert vec[..|vec|] == vec;
    }

    /** One turn of WriteTimelineImpl. */
    method WriteZone(v: Zone)
      modifies this
      ensures output == old(output) + Record(v, old(refTime)) && refTime == v.end
      decreases v, 0
    {
      hide Encoded;
      ghost var out, ref := output, refTime;
      output := output + [SrcLoc(v.srcloc)];
      WriteTimeOffset(v.start);
      output := output + [Extra(v.extra)];
      if v.children == [] {
        output := output + [Size(0)];
        EncodedNone(v.start);
        assert output == out + Header(v, ref) + Encoded(v.children, v.start);
      } else {
        WriteTimeline(v.children);
        assert output == out + Header(v, ref) + Encoded(v.children, v.start);
      }
      WriteTimeOffset(v.end);
      RecordIs(out, v, ref);
    }
  }

  lemma RecordIs(out: seq<Token>, v: Zone, ref: int)
    ensures out + Header(v, ref) + Encoded(v.children, v.start) + [Time(v.end - RefAfter(v.children, v.start))] ==
            out + Record(v, ref)
  {
  }

  /** Everything written for one zone. */
  function Record(z: Zone, ref: int): (t: seq<Token>) {
    Header(z, ref) + Encoded(z.children, z.start) + [Time(z.end - RefAfter(z.children, z.start))]
  }

  lemma EncodedNone(ref: int)
    ensures Encoded([], ref) == []
  {
  }

  lemma EncodedCons(vec: seq<Zone>, ref: int)
    requires vec != []
    ensures Encoded(vec, ref) == Record(vec[0], ref) + Encoded(vec[1..], vec[0].end)
  {
  }

  lemma {:induction false} EncodedSnoc(vec: seq<Zone>, i: nat, ref: int)
    requires i < |vec|
    ensures Encoded(vec[..i + 1], ref) == Encoded(vec[..i], ref) + Record(vec[i], RefAfter(vec[..i], ref))
    ensures RefAfter(vec[..i + 1], ref) == vec[i].end
    decreases i
  {
    hide Encoded, Record;
    EncodedCons(vec[..i + 1], ref);
    if i == 0 {
      EncodedNone(vec[0].end);
      EncodedNone(ref);
      assert vec[..1][1..] == [] && vec[..0] == [];
    } else {
      EncodedCons(vec[..i], ref);
      assert vec[..i + 1][1..] == vec[1..][..i] && vec[..i][1..] == vec[1..][..i - 1];
      EncodedSnoc(vec[1..], i - 1, vec[0].end);
      Associate(Record(vec[0], ref), Encoded(vec[1..][..i - 1], vec[0].end), Record(vec[i], RefAfter(vec[..i], ref)));
    }
  }

  // ---- what the file says by itself --------------------------------------------------------------------------

  /** The times that come of adding up the offsets of the file from ref on. */
  function SummedUp(ts: seq<Token>, ref: int): (times: seq<int>) {
    if ts == [] then []
    else if ts[0].Time? then [ref + ts[0].offset] + SummedUp(ts[1..], ref + ts[0].offset)
    else SummedUp(ts[1..], ref)
  }

  /** The last of them. */
  function LastTime(times: seq<int>, ref: int): int {
    if times == [] then ref else times[|times| - 1]
  }

  /** All begins and ends in the order in which they happened. */
  function Moments(vec: seq<Zone>): (times: seq<int>)
    decreases vec
  {
    if vec == [] then []
    else [vec[0].start] + Moments(vec[0].children) + [vec[0].end] + Moments(vec[1..])
  }

  lemma {:induction false} SummedJoin(a: seq<Token>, b: seq<Token>, ref: int)
    ensures SummedUp(a + b, ref) == SummedUp(a, ref) + SummedUp(b, LastTime(SummedUp(a, ref), ref))
    decreases |a|
  {
    if a == [] {
      assert a + b == b;
    } else {
      assert (a + b)[0] == a[0] && (a + b)[1..] == a[1..] + b;
      SummedJoin(a[1..], b, if a[0].Time? then ref + a[0].offset else ref);
    }
  }

  lemma HeaderSummed(z: Zone, ref: int)
    ensures SummedUp(Header(z, ref), ref) == [z.start]
  {
    var t0, t1, t2, t3 := SrcLoc(z.srcloc), Time(z.start - ref), Extra(z.extra), Size(|z.children|);
    SummedJoin([t0, t1], [t2, t3], ref);
    assert [t0, t1] + [t2, t3] == Header(z, ref);
    assert [t0, t1][1..] == [t1] && [t1][1..] == [] && [t2, t3][1..] == [t3] && [t3][1..] == [];
    assert SummedUp([t1], ref) == [z.start] && SummedUp([t3], z.start) == [];
  }

  lemma RecordSummed(z: Zone, ref: int)
    requires SummedUp(Encoded(z.children, z.start), z.start) == Moments(z.children)
    requires LastTime(Moments(z.children), z.start) == RefAfter(z.children, z.start)
    ensures SummedUp(Record(z, ref), ref) == [z.start] + Moments(z.children) + [z.end]
  {
    hide SummedUp, Header, Encoded, Moments;
    var h, inner, last := Header(z, ref), Encoded(z.children, z.start), RefAfter(z.children, z.start);
    HeaderSummed(z, ref);
    OneSummed(z.end, last);
    SummedJoin(h, inner, ref);
    SummedJoin(h + inner, [Time(z.end - last)], ref);
    assert LastTime([z.start] + Moments(z.children), ref) == last;
  }

  /** Adding up the offsets that were written gives every begin and end. */
  lemma {:induction false} EncodedSummed(vec: seq<Zone>, ref: int)
    ensures SummedUp(Encoded(vec, ref), ref) == Moments(vec)
    ensures LastTime(Moments(vec), ref) == RefAfter(vec, ref)
    decreases vec
  {
    hide Encoded, Record;
    if vec == [] {
      EncodedNone(ref);
    } else {
      hide SummedUp;
      var z := vec[0];
      EncodedSummed(z.children, z.start);
      EncodedSummed(vec[1..], z.end);
      RecordSummed(z, ref);
      EncodedCons(vec, ref);
      SummedJoin(Record(z, ref), Encoded(vec[1..], z.end), ref);
    }
  }

  lemma OneSummed(time: int, ref: int)
    ensures SummedUp([Time(time - ref)], ref) == [time]
  {
    assert [Time(time - ref)][1..] == [];
  }
}
