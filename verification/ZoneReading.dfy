/** Reading a saved timeline back: zones are records whose children are found in a table of vectors. */
module ZoneReading {
  import opened ZoneTimeline

  /** A zone in memory: child is the index of its child vector, or -1. */
  datatype ZoneEvent = ZoneEvent(srcloc: int, start: int, end: int, extra: nat, child: int)

  function VectorsOf(z: Zone): nat {
    if z.children == [] then 0 else 1 + Vectors(z.children)
  }

  ghost predicate SameZone(r: ZoneEvent, z: Zone) {
    r.srcloc == z.srcloc && r.start == z.start && r.end == z.end && r.extra == z.extra
  }

  /** The records hold the zones, and their child vectors are numbered in preorder from idx on: a zone's own vector
      comes before all vectors below it, and these before those of the zones behind it. */
  ghost predicate Represents(table: seq<seq<ZoneEvent>>, recs: seq<ZoneEvent>, vec: seq<Zone>, idx: nat)
    decreases vec
  {
    |recs| == |vec| &&
    (vec == [] ||
     (SameZone(recs[0], vec[0]) &&
      (if vec[0].children == [] then recs[0].child == -1
       else recs[0].child == idx < |table| && Represents(table, table[idx], vec[0].children, idx + 1)) &&
      Represents(table, recs[1..], vec[1..], idx + VectorsOf(vec[0]))))
  }

  /** Only the vectors with the numbers handed out matter. */
  lemma {:induction false} RepresentsFrame(table: seq<seq<ZoneEvent>>, table': seq<seq<ZoneEvent>>,
                                           recs: seq<ZoneEvent>, vec: seq<Zone>, idx: nat)
    requires Represents(table, recs, vec, idx) && |table'| == |table|
    requires forall j :: idx <= j < idx + Vectors(vec) && j < |table| ==> table'[j] == table[j]
    ensures Represents(table', recs, vec, idx)
    decreases vec
  {
    if vec != [] {
      if vec[0].children != [] {
        RepresentsFrame(table, table', table[idx], vec[0].children, idx + 1);
      }
      RepresentsFrame(table, table', recs[1..], vec[1..], idx + VectorsOf(vec[0]));
    }
  }

  lemma {:induction false} VectorsSnoc(vec: seq<Zone>, i: nat)
    requires i < |vec|
    ensures Vectors(vec[..i + 1]) == Vectors(vec[..i]) + VectorsOf(vec[i])
    decreases i
  {
    if i == 0 {
      assert vec[..1][1..] == [] && vec[..0] == [];
    } else {
      assert vec[..i + 1][1..] == vec[1..][..i] && vec[..i][1..] == vec[1..][..i - 1];
      VectorsSnoc(vec[1..], i - 1);
    }
  }

  lemma {:induction false} VectorsPrefix(vec: seq<Zone>, i: nat)
    requires i <= |vec|
    ensures Vectors(vec[..i]) <= Vectors(vec)
    decreases |vec| - i
  {
    if i < |vec| {
      VectorsSnoc(vec, i);
      VectorsPrefix(vec, i + 1);
    } else {
      assert vec[..i] == vec;
    }
  }

  ghost predicate RepresentsOne(table: seq<seq<ZoneEvent>>, r: ZoneEvent, z: Zone, idx: nat) {
    SameZone(r, z) &&
    if z.children == [] then r.child == -1
    else r.child == idx < |table| && Represents(table, table[idx], z.children, idx + 1)
  }

  lemma {:induction false} RepresentsSnoc(table: seq<seq<ZoneEvent>>, recs: seq<ZoneEvent>, r: ZoneEvent,
                                          vec: seq<Zone>, i: nat, idx: nat)
    requires i < |vec| && Represents(table, recs, vec[..i], idx)
    requires RepresentsOne(table, r, vec[i], idx + Vectors(vec[..i]))
    ensures Represents(table, recs + [r], vec[..i + 1], idx)
    decreases i
  {
    if i == 0 {
      assert vec[..1][1..] == [] && vec[..0] == [] && (recs + [r])[1..] == [];
    } else {
      assert vec[..i + 1][1..] == vec[1..][..i] && vec[..i][1..] == vec[1..][..i - 1];
      assert (recs + [r])[1..] == recs[1..] + [r];
      RepresentsSnoc(table, recs[1..], r, vec[1..], i - 1, idx + VectorsOf(vec[0]));
    }
  }

  lemma RecordsFrom(vec: seq<Zone>, i: nat, ref: int, tail: seq<Token>)
    requires i < |vec|
    ensures Encoded(vec[i..], ref) + tail ==
            Header(vec[i], ref) + (Encoded(vec[i].children, vec[i].start) + EndAndRest(vec, i, tail))
  {
    assert vec[i..][1..] == vec[i + 1..];
  }

  /** What follows the children of zone i: its end, and the zones behind it. */
  ghost function EndAndRest(vec: seq<Zone>, i: nat, tail: seq<Token>): seq<Token>
    requires i < |vec|
  {
    [Time(vec[i].end - RefAfter(vec[i].children, vec[i].start))] + (Encoded(vec[i + 1..], vec[i].end) + tail)
  }

  class TimelineReader {
    var input: seq<Token>
    var zoneChildren: seq<seq<ZoneEvent>>
    var childIdx: nat

    constructor (input: seq<Token>, childVectors: nat)
      ensures this.input == input && |zoneChildren| == childVectors && childIdx == 0
    {
      this.input, zoneChildren, childIdx := input, seq(childVectors, _ => []), 0;
    }

    method Read4(ghost z: Zone, ghost ref: int, ghost rest: seq<Token>)
      returns (srcloc: int, tstart: int, extra: nat, childSz: nat)
      requires input == Header(z, ref) + rest
      modifies this`input
      ensures input == rest && srcloc == z.srcloc && tstart == z.start - ref && extra == z.extra &&
        childSz == |z.children|
    {
      srcloc, tstart, extra, childSz := input[0].srcloc, input[1].offset, input[2].extra, input[3].size;
      input := input[4..];
    }

    method ReadTime(ghost offset: int, ghost rest: seq<Token>) returns (t: int)
      requires input == [Time(offset)] + rest
      modifies this`input
      ensures input == rest && t == offset
    {
      t := input[0].offset;
      input := input[1..];
    }

    /** ReadTimelineHaveSize: hands out the next number for the zone's child vector, if it has one. */
    method ReadHaveSize(size: nat, refTime0: int, ghost children: seq<Zone>, ghost rest: seq<Token>)
      returns (child: int, refTime: int)
      requires size == |children| && input == Encoded(children, refTime0) + rest
      requires childIdx + (if children == [] then 0 else 1 + Vectors(children)) <= |zoneChildren|
      modifies this
      ensures input == rest && refTime == RefAfter(children, refTime0) && |zoneChildren| == old(|zoneChildren|)
      ensures childIdx == old(childIdx) + if children == [] then 0 else 1 + Vectors(children)
      ensures forall j :: 0 <= j < |zoneChildren| && !(old(childIdx) <= j < childIdx) ==>
        zoneChildren[j] == old(zoneChildren[j])
      ensures if children == [] then child == -1
              else child == old(childIdx) < |zoneChildren| &&
                   Represents(zoneChildren, zoneChildren[child], children, old(childIdx) + 1)
      decreases children, 1
    {
      if size == 0 {
        assert Encoded(children, refTime0) + rest == rest;
        return -1, refTime0;
      }
      var idx := childIdx;
      childIdx := childIdx + 1;
      var recs;
      recs, refTime := ReadTimeline(size, refTime0, children, rest);
      ghost var table := zoneChildren;
      zoneChildren := zoneChildren[idx := recs];
      RepresentsFrame(table, zoneChildren, recs, children, idx + 1);
      child := idx;
    }

    /** The start of a zone and its children; its end comes later. */
    method ReadZone(srcloc: int, tstart: int, extra: nat, childSz: nat, refTime0: int, ghost z: Zone,
                    ghost rest: seq<Token>)
      returns (zone: ZoneEvent, refTime: int)
      requires srcloc == z.srcloc && tstart == z.start - refTime0 && extra == z.extra && childSz == |z.children|
      requires input == Encoded(z.children, z.start) + rest && childIdx + VectorsOf(z) <= |zoneChildren|
      modifies this
      ensures input == rest && refTime == RefAfter(z.children, z.start) && |zoneChildren| == old(|zoneChildren|)
      ensures childIdx == old(childIdx) + VectorsOf(z)
      ensures forall j :: 0 <= j < |zoneChildren| && !(old(childIdx) <= j < childIdx) ==>
        zoneChildren[j] == old(zoneChildren[j])
      ensures RepresentsOne(zoneChildren, zone.(end := z.end), z, old(childIdx))
      decreases z
    {
      hide Encoded, Represents;
      var start := refTime0 + tstart;
      var child;
      child, refTime := ReadHaveSize(childSz, start, z.children, rest);
      zone := ZoneEvent(srcloc, start, -1, extra, child);
    }

    /** ReadTimeline: one record is read ahead with the end of the zone before it. The zones come back as they were
        written, with their child vectors numbered in preorder. */
    method ReadTimeline(size: nat, refTime0: int, ghost vec: seq<Zone>, ghost tail: seq<Token>)
      returns (recs: seq<ZoneEvent>, refTime: int)
      requires size == |vec| > 0 && input == Encoded(vec, refTime0) + tail
      requires childIdx + Vectors(vec) <= |zoneChildren|
      modifies this
      ensures input == tail && refTime == RefAfter(vec, refTime0) && |zoneChildren| == old(|zoneChildren|)
      ensures childIdx == old(childIdx) + Vectors(vec) && Represents(zoneChildren, recs, vec, old(childIdx))
      ensures forall j :: 0 <= j < |zoneChildren| && !(old(childIdx) <= j < childIdx) ==>
        zoneChildren[j] == old(zoneChildren[j])
      decreases vec, 0
    {
      hide Encoded, Represents, EndAndRest, RepresentsOne, Vectors, VectorsOf, Header, RefAfter, SameZone;
      ghost var idx0 := childIdx;
      refTime, recs := refTime0, [];
      assert vec[0..] == vec && vec[..0] == [];
      RecordsFrom(vec, 0, refTime, tail);
      var srcloc, tstart, extra, childSz :=
        Read4(vec[0], refTime, Encoded(vec[0].children, vec[0].start) + EndAndRest(vec, 0, tail));
      RepresentsNone(zoneChildren, idx0);
      RefAfterLast(vec, refTime0);
      var i := 0;
      while i != size - 1
        invariant 0 <= i < size && |zoneChildren| == old(|zoneChildren|)
        invariant srcloc == vec[i].srcloc && tstart == vec[i].start - refTime && extra == vec[i].extra &&
          childSz == |vec[i].children|
        invariant input == Encoded(vec[i].children, vec[i].start) + EndAndRest(vec, i, tail)
        invariant childIdx == idx0 + Vectors(vec[..i]) && Represents(zoneChildren, recs, vec[..i], idx0)
        invariant forall j :: 0 <= j < |zoneChildren| && !(idx0 <= j < childIdx) ==>
          zoneChildren[j] == old(zoneChildren[j])
        decreases size - i
      {
        assert vec[i] in vec;
        VectorsSnoc(vec, i);
        VectorsPrefix(vec, i + 1);
        ghost var table := zoneChildren;
        var zone;
        zone, refTime := ReadZone(srcloc, tstart, extra, childSz, refTime, vec[i], EndAndRest(vec, i, tail));
        RepresentsFrame(table, zoneChildren, recs, vec[..i], idx0);
        EndThenRest(vec, i, tail);
        ghost var next := Encoded(vec[i + 1].children, vec[i + 1].start) + EndAndRest(vec, i + 1, tail);
        var tend := ReadTime(vec[i].end - RefAfter(vec[i].children, vec[i].start),
                             Header(vec[i + 1], vec[i].end) + next);
        srcloc, tstart, extra, childSz := Read4(vec[i + 1], vec[i].end, next);
        refTime := refTime + tend;
        RepresentsSnoc(zoneChildren, recs, zone.(end := refTime), vec, i, idx0);
        recs := recs + [zone.(end := refTime)];
        i := i + 1;
      }
      assert vec[i] in vec;
      VectorsSnoc(vec, i);
      assert vec[..i + 1] == vec;
      ghost var table := zoneChildren;
      var zone;
      zone, refTime := ReadZone(srcloc, tstart, extra, childSz, refTime, vec[i], EndAndRest(vec, i, tail));
      RepresentsFrame(table, zoneChildren, recs, vec[..i], idx0);
      LastEnd(vec, i, tail);
      var tend := ReadTime(vec[i].end - RefAfter(vec[i].children, vec[i].start), tail);
      refTime := refTime + tend;
      RepresentsSnoc(zoneChildren, recs, zone.(end := refTime), vec, i, idx0);
      recs := recs + [zone.(end := refTime)];
    }
  }

  lemma RefAfterLast(vec: seq<Zone>, ref: int)
    requires vec != []
    ensures RefAfter(vec, ref) == vec[|vec| - 1].end && Vectors([]) == 0
  {
  }

  lemma RepresentsNone(table: seq<seq<ZoneEvent>>, idx: nat)
    ensures Represents(table, [], [], idx)
  {
  }

  lemma EndThenRest(vec: seq<Zone>, i: nat, tail: seq<Token>)
    requires i + 1 < |vec|
    ensures EndAndRest(vec, i, tail) ==
            [Time(vec[i].end - RefAfter(vec[i].children, vec[i].start))] +
            (Header(vec[i + 1], vec[i].end) +
             (Encoded(vec[i + 1].children, vec[i + 1].start) + EndAndRest(vec, i + 1, tail)))
  {
    RecordsFrom(vec, i + 1, vec[i].end, tail);
  }

  lemma LastEnd(vec: seq<Zone>, i: nat, tail: seq<Token>)
    requires i + 1 == |vec|
    ensures EndAndRest(vec, i, tail) == [Time(vec[i].end - RefAfter(vec[i].children, vec[i].start))] + tail
  {
    EncodedNone(vec[i].end);
    assert vec[i + 1..] == [];
  }

  /** Writing a timeline and reading it back gives the same zones, and uses up exactly what was written. */
  method SaveAndLoad(vec: seq<Zone>) returns (reader: TimelineReader, recs: seq<ZoneEvent>)
    requires vec != []
    ensures Represents(reader.zoneChildren, recs, vec, 0) && reader.input == [] && reader.childIdx == Vectors(vec)
  {
    var writer := new TimelineWriter(0);
    writer.WriteTimeline(vec);
    reader := new TimelineReader(writer.output, Vectors(vec));
    var size := reader.input[0].size;
    reader.input := reader.input[1..];
    assert reader.input == Encoded(vec, 0) + [];
    var refTime;
    recs, refTime := reader.ReadTimeline(size, 0, vec, []);
  }
}
