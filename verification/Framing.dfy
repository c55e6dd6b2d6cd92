/** A message as a stream of bytes, and the decoder that cuts a stream into messages. */
module Framing {

  // The segment table in front of the segments, their packed form (src/serialization/message.ts), and
  // the incremental decoder (src/node/index.ts).

  import opened Options
  import opened Packing

  const MAX_STREAM_SEGMENTS: nat := 512
  const MAX_SEGMENT_COUNT: nat := 4096
  const TWO_32: nat := 0x1_0000_0000

  // ---------------------------------------------------------------------------------------------
  // Little-endian 32-bit numbers

  function GetUint32(bytes: seq<byte>, at: nat): nat
    requires at + 4 <= |bytes|
  {
    var a: nat, b: nat, c: nat, d: nat := bytes[at], bytes[at + 1], bytes[at + 2], bytes[at + 3];
    a + 0x100 * b + 0x1_0000 * c + 0x100_0000 * d
  }

  function Uint32Bytes(n: nat): (bytes: seq<byte>)
    ensures |bytes| == 4
    ensures n < TWO_32 ==> GetUint32(bytes, 0) == n
  {
    var q := n / 0x100;
    var r := q / 0x100;
    [n % 0x100, q % 0x100, r % 0x100, r / 0x100 % 0x100]
  }

  /** The lowest byte comes first. */
  lemma LittleEndian()
    ensures GetUint32([0x78, 0x56, 0x34, 0x12], 0) == 0x1234_5678
    ensures Uint32Bytes(0x1234_5678) == [0x78, 0x56, 0x34, 0x12]
  {
  }

  lemma GetInside(a: seq<byte>, b: seq<byte>, c: seq<byte>, at: nat)
    requires at + 4 <= |b|
    ensures GetUint32(a + b + c, |a| + at) == GetUint32(b, at)
  {
    var s := a + b + c;
    assert s[|a| + at] == b[at] && s[|a| + at + 1] == b[at + 1];
    assert s[|a| + at + 2] == b[at + 2] && s[|a| + at + 3] == b[at + 3];
  }

  // ---------------------------------------------------------------------------------------------
  // Segments

  /** A segment: its buffer, of which the first `byteLength` bytes are allocated. */
  datatype Seg = Seg(buffer: seq<byte>, byteLength: nat) {
    predicate Valid() {
      byteLength % 8 == 0 && byteLength <= |buffer| && byteLength / 8 < TWO_32
    }

    function Data(): seq<byte>
      requires Valid()
    {
      buffer[..byteLength]
    }
  }

  predicate AllValid(segs: seq<Seg>) {
    forall s :: s in segs ==> s.Valid()
  }

  function PadToWord(size: nat): nat {
    (size + 7) / 8 * 8
  }

  function Datas(segs: seq<Seg>): seq<seq<byte>>
    requires AllValid(segs)
  {
    if segs == [] then [] else [segs[0].Data()] + Datas(segs[1..])
  }

  function Join(parts: seq<seq<byte>>): seq<byte> {
    if parts == [] then [] else parts[0] + Join(parts[1..])
  }

  // ---------------------------------------------------------------------------------------------
  // Writing a frame

  /** The length of the header as the writer, the reader and the stream decoder compute it. */
  function WrittenHeader(count: nat): nat {
    4 + count * 4 + (1 - count % 2) * 4
  }

  function ReadHeader(count: nat): nat {
    var byteOffset := 4 + count * 4;
    byteOffset + byteOffset % 8
  }

  function DecodedHeader(count: nat): nat {
    var tableInts := 1 + count;
    (tableInts + 1) / 2 * 8
  }

  /** All three agree, and a header is a whole number of words. */
  lemma HeadersAgree(count: nat)
    ensures WrittenHeader(count) == ReadHeader(count) == DecodedHeader(count)
    ensures WrittenHeader(count) % 8 == 0 && WrittenHeader(count) >= 8 * (count + 1) / 2
  {
    var half := count / 2;
    assert count == 2 * half + count % 2;
    if count % 2 == 0 {
      assert 4 + count * 4 == 8 * half + 4;
    } else {
      assert 4 + count * 4 == 8 * (half + 1);
    }
  }

  function Table(segs: seq<Seg>): seq<byte> {
    if segs == [] then [] else Uint32Bytes(segs[0].byteLength / 8) + Table(segs[1..])
  }

  /** The frame header; a message without segments gets a single zero word. */
  function StreamFrame(segs: seq<Seg>): seq<byte> {
    if segs == [] then Blank(8)
    else Uint32Bytes(|segs| - 1) + Table(segs) + Blank((1 - |segs| % 2) * 4)
  }

  function Framed(segs: seq<Seg>): seq<byte>
    requires AllValid(segs)
  {
    StreamFrame(segs) + Join(Datas(segs))
  }

  /** A message without segments gets its first one, with room for the root pointer, after its header was
      computed. */
  function Present(segs: seq<Seg>, first: Seg): seq<Seg> {
    if segs == [] then [first] else segs
  }

  /** What is written: `first` is the segment such a message gets. */
  function Written(segs: seq<Seg>, first: Seg): seq<byte>
    requires AllValid(segs) && first.Valid()
  {
    StreamFrame(segs) + Join(Datas(Present(segs, first)))
  }

  lemma {:induction false} TableLength(segs: seq<Seg>)
    ensures |Table(segs)| == 4 * |segs|
  {
    if segs != [] {
      TableLength(segs[1..]);
    }
  }

  lemma {:induction false} TableEntry(segs: seq<Seg>, i: nat)
    requires AllValid(segs) && i < |segs|
    ensures 4 * i + 4 <= |Table(segs)|
    ensures GetUint32(Table(segs), 4 * i) == segs[i].byteLength / 8
  {
    TableLength(segs);
    var head, tail := Uint32Bytes(segs[0].byteLength / 8), Table(segs[1..]);
    assert Table(segs) == head + tail;
    hide Table, Uint32Bytes, GetUint32;
    if i == 0 {
      assert head + tail == [] + head + tail;
      GetInside([], head, tail, 0);
      assert segs[0].Valid();
    } else {
      TableEntry(segs[1..], i - 1);
      assert head + tail == head + tail + [];
      GetInside(head, tail, [], 4 * (i - 1));
    }
  }

  /** What the header of a written frame says, whatever follows it. */
  lemma FrameSays(segs: seq<Seg>, rest: seq<byte>)
    requires AllValid(segs) && 0 < |segs| <= TWO_32
    ensures var p := StreamFrame(segs) + rest;
      && |StreamFrame(segs)| == WrittenHeader(|segs|) >= 4 + 4 * |segs|
      && GetUint32(p, 0) == |segs| - 1
      && forall i :: 0 <= i < |segs| ==> GetUint32(p, 4 + 4 * i) == segs[i].byteLength / 8
  {
    var count, table, pad := Uint32Bytes(|segs| - 1), Table(segs), Blank((1 - |segs| % 2) * 4);
    TableLength(segs);
    var p := StreamFrame(segs) + rest;
    assert StreamFrame(segs) == count + table + pad;
    hide StreamFrame, Table, Uint32Bytes, GetUint32, Blank;
    Associates(count + table, pad, rest);
    Associates(count, table, pad + rest);
    assert [] + count + (table + (pad + rest)) == count + (table + (pad + rest));
    GetInside([], count, table + (pad + rest), 0);
    forall i | 0 <= i < |segs|
      ensures GetUint32(p, 4 + 4 * i) == segs[i].byteLength / 8
    {
      TableEntry(segs, i);
      GetInside(count, table, pad + rest, 4 * i);
    }
  }

  // ---------------------------------------------------------------------------------------------
  // Reading a frame

  datatype Unframed = Segments(segments: seq<seq<byte>>) | TooManySegments | InvalidHeader

  /** The segments from the `i`-th on, the next of which starts at `offset`. */
  function SegmentsFrom(message: seq<byte>, i: nat, count: nat, offset: nat): Unframed
    requires i <= count && 4 + 4 * count <= |message|
    decreases count - i
  {
    if i == count then Segments([])
    else
      var byteLength := GetUint32(message, 4 + i * 4) * 8;
      if offset + byteLength > |message| then InvalidHeader
      else
        match SegmentsFrom(message, i + 1, count, offset + byteLength)
        case Segments(rest) => Segments([message[offset..offset + byteLength]] + rest)
        case e => e
  }

  function FramedSegments(message: seq<byte>): Unframed {
    if |message| < 4 then InvalidHeader
    else
      var count := GetUint32(message, 0) + 1;
      if count > MAX_STREAM_SEGMENTS then TooManySegments
      else if ReadHeader(count) > |message| then InvalidHeader
      else SegmentsFrom(message, 0, count, ReadHeader(count))
  }

  /** The bytes the segments from the `i`-th on take, as the table has it. */
  function Needed(message: seq<byte>, i: nat, count: nat): nat
    requires i <= count && 4 + 4 * count <= |message|
    decreases count - i
  {
    if i == count then 0 else GetUint32(message, 4 + 4 * i) * 8 + Needed(message, i + 1, count)
  }

  lemma {:induction false} SegmentsFromAre(message: seq<byte>, i: nat, count: nat, offset: nat)
    requires i <= count && 4 + 4 * count <= |message| && offset <= |message|
    ensures var r, needed := SegmentsFrom(message, i, count, offset), Needed(message, i, count);
      if offset + needed > |message| then r == InvalidHeader
      else r.Segments? && |r.segments| == count - i && Join(r.segments) == message[offset..offset + needed]
           && forall j :: 0 <= j < count - i ==> |r.segments[j]| == GetUint32(message, 4 + 4 * (i + j)) * 8
    decreases count - i
  {
    hide GetUint32, SegmentsFrom, Join, Prepend;
    JoinNone();
    SegmentsFromStep(message, i, count, offset);
    if i < count {
      var size := GetUint32(message, 4 + 4 * i) * 8;
      if offset + size <= |message| {
        SegmentsFromAre(message, i + 1, count, offset + size);
        var r := SegmentsFrom(message, i + 1, count, offset + size);
        if r.Segments? {
          FirstAndRest(message, offset, size, Needed(message, i + 1, count), r.segments);
        }
      }
    }
  }

  lemma SegmentsFromStep(message: seq<byte>, i: nat, count: nat, offset: nat)
    requires i <= count && 4 + 4 * count <= |message|
    ensures i == count ==> SegmentsFrom(message, i, count, offset) == Segments([])
    ensures i < count ==>
      var size := GetUint32(message, 4 + 4 * i) * 8;
      if offset + size > |message| then SegmentsFrom(message, i, count, offset) == InvalidHeader
      else
        var r := SegmentsFrom(message, i + 1, count, offset + size);
        SegmentsFrom(message, i, count, offset) == if r.Segments? then Segments([message[offset..offset + size]] + r.segments) else r
  {
    hide GetUint32;
  }

  lemma FirstAndRest(message: seq<byte>, offset: nat, size: nat, needed: nat, rest: seq<seq<byte>>)
    requires offset + size + needed <= |message| && Join(rest) == message[offset + size..offset + size + needed]
    ensures Join([message[offset..offset + size]] + rest) == message[offset..offset + size + needed]
  {
    JoinCons(message[offset..offset + size], rest);
    hide Join;
    assert message[offset..offset + size] + message[offset + size..offset + size + needed] == message[offset..offset + size + needed];
  }

  /** What any bytes read as: segments if and only if there are at most 512 and header and table ask for no more
      than is there, and then they are the bytes behind the header, each as long as the table says. */
  lemma SegmentsIff(message: seq<byte>)
    ensures |message| < 4 ==> FramedSegments(message).InvalidHeader?
    ensures |message| >= 4 ==>
      var count, r := GetUint32(message, 0) + 1, FramedSegments(message);
      if count > 512 then r.TooManySegments?
      else if ReadHeader(count) > |message| then r.InvalidHeader?
      else
        var needed := Needed(message, 0, count);
        if ReadHeader(count) + needed > |message| then r.InvalidHeader?
        else r.Segments? && |r.segments| == count && Join(r.segments) == message[ReadHeader(count)..ReadHeader(count) + needed]
             && forall j :: 0 <= j < count ==> |r.segments[j]| == GetUint32(message, 4 + 4 * j) * 8
  {
    HeaderSays(message);
    hide GetUint32, FramedSegments, SegmentsFrom;
    if |message| >= 4 {
      var count := GetUint32(message, 0) + 1;
      if count <= 512 && ReadHeader(count) <= |message| {
        SegmentsFromAre(message, 0, count, ReadHeader(count));
      }
    }
  }

  lemma OneSegment(message: seq<byte>, i: nat, count: nat, offset: nat, data: seq<byte>, rest: seq<seq<byte>>)
    requires i < count && 4 + 4 * count <= |message|
    requires GetUint32(message, 4 + i * 4) * 8 == |data|
    requires offset + |data| <= |message| && message[offset..offset + |data|] == data
    requires SegmentsFrom(message, i + 1, count, offset + |data|) == Segments(rest)
    ensures SegmentsFrom(message, i, count, offset) == Segments([data] + rest)
  {
    hide GetUint32;
  }

  lemma {:induction false} SegmentsComeBack(segs: seq<Seg>, i: nat, before: seq<byte>, message: seq<byte>)
    requires AllValid(segs) && i <= |segs|
    requires 4 + 4 * |segs| <= |message| && message == before + Join(Datas(segs[i..]))
    requires forall j :: 0 <= j < |segs| ==> GetUint32(message, 4 + 4 * j) == segs[j].byteLength / 8
    ensures SegmentsFrom(message, i, |segs|, |before|) == Segments(Datas(segs[i..]))
    decreases |segs| - i
  {
    hide Join, Datas, GetUint32, SegmentsFrom;
    if i < |segs| {
      var data, rest := segs[i].Data(), Join(Datas(segs[i + 1..]));
      DatasFrom(segs, i);
      assert |data| == segs[i].byteLength == GetUint32(message, 4 + 4 * i) * 8;
      Associates(before, data, rest);
      SegmentsComeBack(segs, i + 1, before + data, message);
      assert message[|before|..|before| + |data|] == data;
      OneSegment(message, i, |segs|, |before|, data, Datas(segs[i + 1..]));
    } else {
      NoSegments(message, i, |before|);
      assert segs[i..] == [];
    }
  }

  lemma NoSegments(message: seq<byte>, count: nat, offset: nat)
    requires 4 + 4 * count <= |message|
    ensures SegmentsFrom(message, count, count, offset) == Segments(Datas([]))
  {
  }

  lemma DatasFrom(segs: seq<Seg>, i: nat)
    requires AllValid(segs) && i < |segs|
    ensures AllValid(segs[i + 1..])
    ensures Datas(segs[i..]) == [segs[i].Data()] + Datas(segs[i + 1..])
    ensures Join(Datas(segs[i..])) == segs[i].Data() + Join(Datas(segs[i + 1..]))
  {
    assert segs[i..][0] == segs[i] && segs[i..][1..] == segs[i + 1..];
    JoinStep(segs[i..]);
  }

  lemma JoinStep(segs: seq<Seg>)
    requires AllValid(segs) && segs != []
    ensures Join(Datas(segs)) == segs[0].Data() + Join(Datas(segs[1..]))
  {
    assert Datas(segs)[1..] == Datas(segs[1..]);
  }

  /** A written frame reads back as each segment's allocated bytes, if and only if the number of segments
      is one the reader accepts. */
  lemma FrameRoundTripIff(segs: seq<Seg>)
    requires AllValid(segs) && 0 < |segs| <= TWO_32
    ensures FramedSegments(Framed(segs)) == Segments(Datas(segs)) <==> |segs| <= MAX_STREAM_SEGMENTS
    ensures |segs| > MAX_STREAM_SEGMENTS ==> FramedSegments(Framed(segs)).TooManySegments?
  {
    hide GetUint32, StreamFrame, SegmentsFrom, Join, Datas;
    FrameSays(segs, Join(Datas(segs)));
    HeadersAgree(|segs|);
    if |segs| <= MAX_STREAM_SEGMENTS {
      assert segs[0..] == segs;
      SegmentsComeBack(segs, 0, StreamFrame(segs), Framed(segs));
    }
  }

  /** A message that has no segment when its header is written gets its first segment afterwards: the
      header says the segment is empty, although the root pointer's word follows. */
  lemma FrameOfNoSegments()
    ensures var root := Seg(Blank(8), 8);
      && FramedSegments(Written([], root)) == Segments([[]])
      && FramedSegments(Framed([root])) == Segments([Blank(8)])
  {
    hide FramedSegments, Datas, Join;
    var root := Seg(Blank(8), 8);
    FrameRoundTripIff([root]);
    DatasOfOne(root);
    assert root.Data() == Blank(8);
    assert Written([], root) == Blank(16);
    BlankReads();
  }

  lemma DatasOfOne(s: Seg)
    requires s.Valid()
    ensures Datas([s]) == [s.Data()] && Join(Datas([s])) == s.Data()
  {
    assert [s][1..] == [];
    assert [s.Data()][1..] == [];
    assert Datas([s]) == [s.Data()] + Datas([]);
    assert Join([s.Data()]) == s.Data() + Join([]);
  }

  lemma BlankReads()
    ensures FramedSegments(Blank(16)) == Segments([[]])
  {
    var zeros := Blank(16);
    assert GetUint32(zeros, 0) == 0 && GetUint32(zeros, 4) == 0;
    assert SegmentsFrom(zeros, 1, 1, 8) == Segments([]);
    assert zeros[8..8] == [];
  }

  // ---------------------------------------------------------------------------------------------
  // Packed messages

  function PackAll(parts: seq<seq<byte>>): seq<byte>
    requires forall p :: p in parts ==> |p| % 8 == 0
  {
    if parts == [] then [] else PackBytes(parts[0]) + PackAll(parts[1..])
  }

  lemma {:induction false} WholeDatas(segs: seq<Seg>)
    requires AllValid(segs)
    ensures forall p :: p in Datas(segs) ==> |p| % 8 == 0
  {
    if segs != [] {
      assert segs[0].Valid();
      WholeDatas(segs[1..]);
    }
  }

  function ToPacked(segs: seq<Seg>, first: Seg): seq<byte>
    requires AllValid(segs) && first.Valid()
  {
    WholeDatas(Present(segs, first));
    WholeFrame(segs);
    PackBytes(StreamFrame(segs)) + PackAll(Datas(Present(segs, first)))
  }

  lemma WholeFrame(segs: seq<Seg>)
    ensures |StreamFrame(segs)| % 8 == 0
  {
    if segs != [] {
      TableLength(segs);
      HeadersAgree(|segs|);
    }
  }

  lemma {:induction false} UnpackAll(parts: seq<seq<byte>>)
    requires forall p :: p in parts ==> |p| % 8 == 0
    ensures UnpackBytes(PackAll(parts)) == Join(parts)
  {
    if parts != [] {
      UnpackAll(parts[1..]);
      UnpackOfPackedThen(parts[0], PackAll(parts[1..]));
    }
  }

  /** A message packed piece by piece unpacks to the message written, which for one with segments is its
      frame. */
  lemma PackedMessageUnpacks(segs: seq<Seg>, first: Seg)
    requires AllValid(segs) && first.Valid()
    ensures UnpackBytes(ToPacked(segs, first)) == Written(segs, first)
    ensures segs != [] ==> Written(segs, first) == Framed(segs)
  {
    var all := Present(segs, first);
    WholeDatas(all);
    WholeFrame(segs);
    UnpackAll(Datas(all));
    UnpackOfPackedThen(StreamFrame(segs), PackAll(Datas(all)));
  }

  // ---------------------------------------------------------------------------------------------
  // Cutting a stream into frames

  datatype Front = Incomplete | Refused | Complete(length: nat)

  function PayloadWords(p: seq<byte>, count: nat): nat
    requires 4 + 4 * count <= |p|
  {
    if count == 0 then 0 else PayloadWords(p, count - 1) + GetUint32(p, 4 + (count - 1) * 4)
  }

  /** What is at the front of the pending bytes. */
  function FrontOf(p: seq<byte>): (f: Front)
    ensures f.Complete? ==> 8 <= f.length <= |p|
  {
    if |p| < 8 then Incomplete
    else
      var count := GetUint32(p, 0) + 1;
      if count > MAX_SEGMENT_COUNT then Refused
      else if |p| < DecodedHeader(count) then Incomplete
      else
        HeadersAgree(count);
        var length := DecodedHeader(count) + PayloadWords(p, count) * 8;
        if |p| < length then Incomplete else Complete(length)
  }

  /** Frames cut off, what is left, and whether a header was refused. */
  datatype Cut = Cut(frames: seq<seq<byte>>, pending: seq<byte>, refused: bool)

  /** The decoder refuses a header if and only if it announces more than 4096 segments. */
  lemma RefusedIff(p: seq<byte>)
    ensures FrontOf(p).Refused? <==> |p| >= 8 && GetUint32(p, 0) + 1 > 4096
  {
    hide GetUint32;
  }

  function CutUp(p: seq<byte>): Cut
    decreases |p|
  {
    match FrontOf(p)
    case Incomplete => Cut([], p, false)
    case Refused => Cut([], p, true)
    case Complete(n) =>
      var rest := CutUp(p[n..]);
      rest.(frames := [p[..n]] + rest.frames)
  }

  lemma {:induction false} PayloadSame(p: seq<byte>, more: seq<byte>, count: nat)
    requires 4 + 4 * count <= |p|
    ensures PayloadWords(p + more, count) == PayloadWords(p, count)
  {
    if count > 0 {
      PayloadSame(p, more, count - 1);
    }
  }

  /** More bytes do not change what a complete front or a refused header is. */
  lemma FrontStays(p: seq<byte>, more: seq<byte>)
    requires !FrontOf(p).Incomplete?
    ensures FrontOf(p + more) == FrontOf(p)
  {
    var count := GetUint32(p, 0) + 1;
    HeadersAgree(count);
    if count <= MAX_SEGMENT_COUNT {
      PayloadSame(p, more, count);
    }
  }

  /** Cutting what came first and then the rest is cutting everything. */
  lemma {:induction false} CutInTwo(a: seq<byte>, b: seq<byte>)
    ensures var first := CutUp(a);
      CutUp(a + b) ==
        if first.refused then Cut(first.frames, first.pending + b, true)
        else
          var second := CutUp(first.pending + b);
          second.(frames := first.frames + second.frames)
    decreases |a|
  {
    hide FrontOf, CutUp;
    CutFront(a);
    if FrontOf(a).Incomplete? {
      assert [] + CutUp(a + b).frames == CutUp(a + b).frames;
    } else {
      FrontStays(a, b);
      CutFront(a + b);
      if FrontOf(a).Complete? {
        var n := FrontOf(a).length;
        assert (a + b)[..n] == a[..n] && (a + b)[n..] == a[n..] + b;
        CutInTwo(a[n..], b);
        Associates([a[..n]], CutUp(a[n..]).frames, CutUp(CutUp(a[n..]).pending + b).frames);
      }
    }
  }

  /** The frames and what is pending are all the bytes received. */
  lemma {:induction false} NothingLost(p: seq<byte>)
    ensures Join(CutUp(p).frames) + CutUp(p).pending == p
    decreases |p|
  {
    hide FrontOf, Join, CutUp;
    CutFront(p);
    JoinNone();
    if FrontOf(p).Complete? {
      var n := FrontOf(p).length;
      var rest := CutUp(p[n..]);
      NothingLost(p[n..]);
      JoinCons(p[..n], rest.frames);
      Associates(p[..n], Join(rest.frames), rest.pending);
    } else {
      assert [] + p == p;
    }
  }

  lemma CutFront(p: seq<byte>)
    ensures !FrontOf(p).Complete? ==> CutUp(p) == Cut([], p, FrontOf(p).Refused?)
    ensures FrontOf(p).Complete? ==>
      var n := FrontOf(p).length;
      CutUp(p) == CutUp(p[n..]).(frames := [p[..n]] + CutUp(p[n..]).frames) && p[..n] + p[n..] == p
  {
  }

  lemma JoinCons(part: seq<byte>, parts: seq<seq<byte>>)
    ensures Join([part] + parts) == part + Join(parts)
  {
    assert ([part] + parts)[1..] == parts;
  }

  lemma JoinNone()
    ensures Join([]) == []
  {
  }

  /** Pushing chunks one after another.  A refused header throws: the frames that the same push had cut
      before it are gone, and the stream ends. */
  function PushAll(pending: seq<byte>, chunks: seq<seq<byte>>): Cut
    decreases |chunks|
  {
    if chunks == [] then Cut([], pending, false)
    else
      var first := CutUp(pending + chunks[0]);
      if first.refused then Cut([], first.pending, true)
      else
        var later := PushAll(first.pending, chunks[1..]);
        later.(frames := first.frames + later.frames)
  }

  /** However a stream is cut into chunks, a chunk is refused exactly when the whole stream holds a header
      that is; otherwise the frames that come out, in all, and the bytes left pending are those of the
      whole. */
  lemma {:induction false} ChunksDoNotMatter(pending: seq<byte>, chunks: seq<seq<byte>>)
    requires FrontOf(pending).Incomplete?
    ensures var pushed, whole := PushAll(pending, chunks), CutUp(pending + Join(chunks));
      && pushed.refused == whole.refused
      && pushed.frames <= whole.frames
      && (!whole.refused ==> pushed == whole)
    decreases |chunks|
  {
    CutFront(pending);
    hide FrontOf, CutUp;
    if chunks == [] {
      assert pending + [] == pending;
    } else {
      var first := CutUp(pending + chunks[0]);
      Associates(pending, chunks[0], Join(chunks[1..]));
      CutInTwo(pending + chunks[0], Join(chunks[1..]));
      if !first.refused {
        PendingIsIncomplete(pending + chunks[0]);
        ChunksDoNotMatter(first.pending, chunks[1..]);
      }
    }
  }

  /** What comes out of a stream with a refused header: the push of chunk `k` is the first to meet it, and
      the frames are those that were complete before that push. */
  lemma {:induction false} RefusedAtChunk(pending: seq<byte>, chunks: seq<seq<byte>>) returns (k: nat)
    requires FrontOf(pending).Incomplete? && CutUp(pending + Join(chunks)).refused
    ensures k < |chunks|
    ensures var before, with := CutUp(pending + Join(chunks[..k])), CutUp(pending + Join(chunks[..k + 1]));
      && !before.refused && with.refused
      && PushAll(pending, chunks) == Cut(before.frames, with.pending, true)
    decreases |chunks|
  {
    CutFront(pending);
    hide FrontOf, CutUp;
    assert chunks[..0] == [] && pending + [] == pending;
    if chunks != [] {
      var more := pending + chunks[0];
      var first := CutUp(more);
      JoinOfPrefix(chunks, 1);
      JoinNone();
      assert chunks[0] + [] == chunks[0];
      if first.refused {
        k := 0;
      } else {
        PendingIsIncomplete(more);
        Associates(pending, chunks[0], Join(chunks[1..]));
        CutInTwo(more, Join(chunks[1..]));
        var later := RefusedAtChunk(first.pending, chunks[1..]);
        k := later + 1;
        JoinOfPrefix(chunks, k);
        JoinOfPrefix(chunks, k + 1);
        Associates(pending, chunks[0], Join(chunks[1..][..later]));
        Associates(pending, chunks[0], Join(chunks[1..][..later + 1]));
        CutInTwo(more, Join(chunks[1..][..later]));
        CutInTwo(more, Join(chunks[1..][..later + 1]));
      }
    }
  }

  lemma JoinOfPrefix(parts: seq<seq<byte>>, n: nat)
    requires 0 < n <= |parts|
    ensures Join(parts[..n]) == parts[0] + Join(parts[1..][..n - 1])
  {
    assert parts[..n][1..] == parts[1..][..n - 1];
  }

  lemma {:induction false} PendingIsIncomplete(p: seq<byte>)
    ensures !CutUp(p).refused ==> FrontOf(CutUp(p).pending).Incomplete?
    decreases |p|
  {
    CutFront(p);
    hide FrontOf, CutUp;
    if FrontOf(p).Complete? {
      PendingIsIncomplete(p[FrontOf(p).length..]);
    }
  }

  // ---------------------------------------------------------------------------------------------
  // The decoder reads what the writer wrote

  lemma {:induction false} PayloadOfFrame(segs: seq<Seg>, p: seq<byte>, count: nat)
    requires AllValid(segs) && count <= |segs| && 4 + 4 * |segs| <= |p|
    requires forall i :: 0 <= i < |segs| ==> GetUint32(p, 4 + 4 * i) == segs[i].byteLength / 8
    ensures PayloadWords(p, count) * 8 == |Join(Datas(segs[..count]))|
  {
    if count == 0 {
      assert segs[..0] == [];
    } else {
      PayloadOfFrame(segs, p, count - 1);
      assert segs[count - 1].Valid();
      assert segs[..count] == segs[..count - 1] + [segs[count - 1]];
      JoinSnoc(segs[..count - 1], segs[count - 1]);
    }
  }

  lemma {:induction false} JoinSnoc(segs: seq<Seg>, s: Seg)
    requires AllValid(segs) && s.Valid()
    ensures AllValid(segs + [s])
    ensures Join(Datas(segs + [s])) == Join(Datas(segs)) + s.Data()
  {
    if segs == [] {
      assert segs + [s] == [s];
      DatasOfOne(s);
    } else {
      assert (segs + [s])[1..] == segs[1..] + [s];
      JoinSnoc(segs[1..], s);
      JoinStep(segs + [s]);
      JoinStep(segs);
      Associates(segs[0].Data(), Join(Datas(segs[1..])), s.Data());
    }
  }

  lemma FrontOfFrame(segs: seq<Seg>, rest: seq<byte>)
    requires AllValid(segs) && 0 < |segs| <= MAX_SEGMENT_COUNT
    ensures FrontOf(Framed(segs) + rest) == Complete(|Framed(segs)|)
  {
    hide GetUint32, PayloadWords, StreamFrame, Join, Datas, FrontOf;
    var p := Framed(segs) + rest;
    Associates(StreamFrame(segs), Join(Datas(segs)), rest);
    FrontIs(p);
    FrameSays(segs, Join(Datas(segs)) + rest);
    HeadersAgree(|segs|);
    PayloadOfFrame(segs, p, |segs|);
    assert segs[..|segs|] == segs;
  }

  function Stream(messages: seq<seq<Seg>>): seq<byte>
    requires forall m :: m in messages ==> AllValid(m)
  {
    if messages == [] then [] else Framed(messages[0]) + Stream(messages[1..])
  }

  function Frames(messages: seq<seq<Seg>>): seq<seq<byte>>
    requires forall m :: m in messages ==> AllValid(m)
  {
    if messages == [] then [] else [Framed(messages[0])] + Frames(messages[1..])
  }

  /** Written one after another and received in any chunks, messages come out of the decoder one by one,
      with nothing left over. */
  lemma {:induction false} StreamIsCutAtMessages(messages: seq<seq<Seg>>)
    requires forall m :: m in messages ==> AllValid(m) && 0 < |m| <= MAX_SEGMENT_COUNT
    ensures CutUp(Stream(messages)) == Cut(Frames(messages), [], false)
  {
    if messages != [] {
      var head, rest := Framed(messages[0]), Stream(messages[1..]);
      FrontOfFrame(messages[0], rest);
      CutFront(head + rest);
      hide FrontOf, CutUp;
      assert (head + rest)[..|head|] == head && (head + rest)[|head|..] == rest;
      StreamIsCutAtMessages(messages[1..]);
    }
  }

  lemma DecoderReadsWriter(messages: seq<seq<Seg>>, chunks: seq<seq<byte>>)
    requires forall m :: m in messages ==> AllValid(m) && 0 < |m| <= MAX_SEGMENT_COUNT
    requires Join(chunks) == Stream(messages)
    ensures PushAll([], chunks) == Cut(Frames(messages), [], false)
  {
    ChunksDoNotMatter([], chunks);
    assert [] + Join(chunks) == Join(chunks);
    StreamIsCutAtMessages(messages);
  }

  // ---------------------------------------------------------------------------------------------
  // The loops

  /** Store a 32-bit number in little-endian order behind what is there. */
  method SetUint32(dst: array<byte>, at: nat, n: nat, ghost out: seq<byte>)
    requires Filled(dst, at, out) && at + 4 <= dst.Length
    modifies dst
    ensures Filled(dst, at + 4, out + Uint32Bytes(n))
  {
    var bytes := Uint32Bytes(n);
    dst[at], dst[at + 1], dst[at + 2], dst[at + 3] := bytes[0], bytes[1], bytes[2], bytes[3];
    assert dst[..at] == out;
    assert dst[at..at + 4] == bytes;
    assert dst[..at + 4] == dst[..at] + dst[at..at + 4];
  }

  method GetStreamFrame(segs: seq<Seg>) returns (frame: array<byte>)
    ensures fresh(frame) && frame[..] == StreamFrame(segs)
  {
    hide Table, Uint32Bytes, Filled;
    if |segs| == 0 {
      frame := new byte[8](_ => 0);
      return;
    }
    assert StreamFrame(segs) == Uint32Bytes(|segs| - 1) + Table(segs) + Blank((1 - |segs| % 2) * 4);
    hide StreamFrame, Blank;
    var frameLength := 4 + |segs| * 4 + (1 - |segs| % 2) * 4;
    frame := new byte[frameLength](_ => 0);
    ghost var count := Uint32Bytes(|segs| - 1);
    NothingFilled(frame);
    SetUint32(frame, 0, |segs| - 1, []);
    EmptyTable();
    assert [] + count == count + Table(segs[..0]);
    for i := 0 to |segs|
      invariant Filled(frame, 4 + 4 * i, count + Table(segs[..i]))
    {
      TableSnoc(segs[..i], segs[i]);
      assert segs[..i + 1] == segs[..i] + [segs[i]];
      Associates(count, Table(segs[..i]), Uint32Bytes(segs[i].byteLength / 8));
      SetUint32(frame, i * 4 + 4, segs[i].byteLength / 8, count + Table(segs[..i]));
    }
    assert segs[..|segs|] == segs;
    TableLength(segs);
    SeekAhead(frame, 4 + 4 * |segs|, count + Table(segs), (1 - |segs| % 2) * 4);
    AllFilled(frame, frameLength, count + Table(segs) + Blank((1 - |segs| % 2) * 4));
  }

  lemma EmptyTable()
    ensures Table([]) == []
  {
  }

  lemma {:induction false} TableSnoc(segs: seq<Seg>, s: Seg)
    ensures Table(segs + [s]) == Table(segs) + Uint32Bytes(s.byteLength / 8)
  {
    if segs == [] {
      assert segs + [s] == [s];
      assert [s][1..] == [];
    } else {
      assert (segs + [s])[1..] == segs[1..] + [s];
      TableSnoc(segs[1..], s);
      Associates(Uint32Bytes(segs[0].byteLength / 8), Table(segs[1..]), Uint32Bytes(s.byteLength / 8));
    }
  }

  /** The header and every segment, one after another in one buffer. */
  method ToArrayBuffer(segments: seq<Seg>, first: Seg) returns (out: array<byte>)
    requires AllValid(segments) && first.Valid()
    ensures out[..] == Written(segments, first)
  {
    hide StreamFrame, Join, Datas, Filled;
    var streamFrame := GetStreamFrame(segments);
    var segs := if |segments| == 0 then [first] else segments;
    var totalLength := TotalLength(segs, streamFrame.Length);
    out := new byte[totalLength](_ => 0);
    ghost var frame := streamFrame[..];
    NothingFilled(out);
    SetBytes(out, 0, streamFrame[..], []);
    assert [] + frame == frame + [];
    NoneJoined();
    assert segs[..0] == [];
    var o := streamFrame.Length;
    for i := 0 to |segs|
      invariant o == streamFrame.Length + |Join(Datas(segs[..i]))|
      invariant Filled(out, o, frame + Join(Datas(segs[..i])))
    {
      var s := segs[i];
      assert s.Valid();
      JoinSnoc(segs[..i], s);
      assert segs[..i + 1] == segs[..i] + [s];
      JoinSplit(segs, i + 1);
      WholeIsPadded(s.byteLength);
      var segmentLength := PadToWord(s.byteLength);
      Associates(frame, Join(Datas(segs[..i])), s.Data());
      SetBytes(out, o, s.buffer[..segmentLength], frame + Join(Datas(segs[..i])));
      o := o + segmentLength;
    }
    assert segs[..|segs|] == segs;
    AllFilled(out, o, frame + Join(Datas(segs)));
  }

  /** The header and every segment, each packed by itself.  Throws when a segment's buffer is not a whole
      number of words. */
  method ToPackedArrayBuffer(segments: seq<Seg>, first: Seg) returns (out: array<byte>, thrown: bool)
    requires AllValid(segments) && first.Valid()
    ensures thrown <==> exists s :: s in Present(segments, first) && |s.buffer| % 8 != 0
    ensures !thrown ==> out[..] == ToPacked(segments, first)
  {
    hide StreamFrame, Datas, Filled, Packed, PackEach, PackAll, Join, PackBytes;
    out, thrown := new byte[0], false;
    WholeFrame(segments);
    var frame := GetStreamFrame(segments);
    var streamFrame := Pack(frame[..], 0, frame.Length);
    assert frame[..][0..frame.Length] == StreamFrame(segments);
    var segs := if |segments| == 0 then [first] else segments;
    WholeDatas(segs);
    var packed: seq<seq<byte>> := [];
    NonePacked();
    for i := 0 to |segs|
      invariant PackEach(segs[..i]) == packed
      invariant forall s :: s in segs[..i] ==> |s.buffer| % 8 == 0
    {
      var s := segs[i];
      assert s.Valid();
      WholeIsPadded(s.byteLength);
      assert segs[..i + 1] == segs[..i] + [s];
      PackEachSnoc(segs[..i], s);
      var part := Pack(s.buffer, 0, PadToWord(s.byteLength));
      if part.None? {
        return out, true;
      }
      assert s.buffer[0..s.byteLength] == s.Data();
      packed := packed + [part.value];
    }
    assert segs[..|segs|] == segs;
    out := Concat(streamFrame.value, packed);
    PackAllIs(segs);
  }

  function PackEach(segs: seq<Seg>): seq<seq<byte>>
    requires AllValid(segs)
  {
    if segs == [] then []
    else
      assert segs[0].Valid();
      [PackBytes(segs[0].Data())] + PackEach(segs[1..])
  }

  lemma NonePacked()
    ensures PackEach([]) == []
  {
  }

  lemma {:induction false} PackEachSnoc(segs: seq<Seg>, s: Seg)
    requires AllValid(segs) && s.Valid()
    ensures AllValid(segs + [s]) && PackEach(segs + [s]) == PackEach(segs) + [PackBytes(s.Data())]
  {
    hide Packed;
    if segs == [] {
      assert segs + [s] == [s] && [s][1..] == [];
    } else {
      assert (segs + [s])[1..] == segs[1..] + [s];
      PackEachSnoc(segs[1..], s);
    }
  }

  lemma {:induction false} PackAllIs(segs: seq<Seg>)
    requires AllValid(segs)
    ensures forall p :: p in Datas(segs) ==> |p| % 8 == 0
    ensures Join(PackEach(segs)) == PackAll(Datas(segs))
  {
    hide Packed;
    WholeDatas(segs);
    if segs != [] {
      PackAllIs(segs[1..]);
      assert Datas(segs)[1..] == Datas(segs[1..]);
      assert PackEach(segs)[1..] == PackEach(segs[1..]);
    }
  }

  /** A buffer with the first part and all the others. */
  method Concat(first: seq<byte>, parts: seq<seq<byte>>) returns (out: array<byte>)
    ensures fresh(out) && out[..] == first + Join(parts)
  {
    hide Filled, Join;
    var totalLength := |first|;
    JoinNone();
    for i := 0 to |parts|
      invariant totalLength == |first| + |Join(parts[..i])|
    {
      assert parts[..i + 1] == parts[..i] + [parts[i]];
      JoinParts(parts[..i], parts[i]);
      totalLength := totalLength + |parts[i]|;
    }
    assert parts[..|parts|] == parts;
    out := new byte[totalLength](_ => 0);
    NothingFilled(out);
    SetBytes(out, 0, first, []);
    assert [] + first == first + [];
    var o := |first|;
    for i := 0 to |parts|
      invariant o == |first| + |Join(parts[..i])| <= totalLength
      invariant Filled(out, o, first + Join(parts[..i]))
    {
      assert parts[..i + 1] == parts[..i] + [parts[i]];
      JoinParts(parts[..i], parts[i]);
      PrefixIsShort(parts, i + 1);
      Associates(first, Join(parts[..i]), parts[i]);
      SetBytes(out, o, parts[i], first + Join(parts[..i]));
      o := o + |parts[i]|;
    }
    AllFilled(out, o, first + Join(parts));
  }

  lemma {:induction false} JoinParts(parts: seq<seq<byte>>, part: seq<byte>)
    ensures Join(parts + [part]) == Join(parts) + part
  {
    if parts == [] {
      assert parts + [part] == [part] && [part][1..] == [];
    } else {
      assert (parts + [part])[1..] == parts[1..] + [part];
      JoinParts(parts[1..], part);
      Associates(parts[0], Join(parts[1..]), part);
    }
  }

  lemma {:induction false} PrefixIsShort(parts: seq<seq<byte>>, i: nat)
    requires i <= |parts|
    ensures |Join(parts[..i])| <= |Join(parts)|
    decreases |parts| - i
  {
    if i == |parts| {
      assert parts[..i] == parts;
    } else {
      PrefixIsShort(parts, i + 1);
      assert parts[..i + 1] == parts[..i] + [parts[i]];
      JoinParts(parts[..i], parts[i]);
    }
  }

  lemma NoneJoined()
    ensures Join(Datas([])) == []
  {
  }

  method TotalLength(segs: seq<Seg>, header: nat) returns (totalLength: nat)
    requires AllValid(segs)
    ensures totalLength == header + |Join(Datas(segs))|
  {
    hide Join, Datas;
    totalLength := header;
    NoneJoined();
    for i := 0 to |segs|
      invariant totalLength == header + |Join(Datas(segs[..i]))|
    {
      assert segs[i].Valid();
      JoinSnoc(segs[..i], segs[i]);
      assert segs[..i + 1] == segs[..i] + [segs[i]];
      WholeIsPadded(segs[i].byteLength);
      totalLength := totalLength + PadToWord(segs[i].byteLength);
    }
    assert segs[..|segs|] == segs;
  }

  lemma WholeIsPadded(n: nat)
    requires n % 8 == 0
    ensures PadToWord(n) == n
  {
  }

  lemma {:induction false} JoinSplit(segs: seq<Seg>, i: nat)
    requires AllValid(segs) && i <= |segs|
    ensures |Join(Datas(segs))| == |Join(Datas(segs[..i]))| + |Join(Datas(segs[i..]))|
    decreases |segs| - i
  {
    if i == |segs| {
      assert segs[..i] == segs && segs[i..] == [];
    } else {
      JoinSplit(segs, i + 1);
      assert segs[..i + 1] == segs[..i] + [segs[i]];
      JoinSnoc(segs[..i], segs[i]);
      assert segs[i..][0] == segs[i] && segs[i..][1..] == segs[i + 1..];
      JoinStep(segs[i..]);
    }
  }

  /** Copy bytes into a buffer behind what is there. */
  method SetBytes(dst: array<byte>, at: nat, bytes: seq<byte>, ghost out: seq<byte>)
    requires Filled(dst, at, out) && at + |bytes| <= dst.Length
    modifies dst
    ensures Filled(dst, at + |bytes|, out + bytes)
  {
    CopyBytes(bytes, 0, |bytes|, dst, at, out);
    assert Take(bytes[0..], |bytes|) == bytes;
  }

  method GetFramedSegments(message: seq<byte>) returns (r: Unframed)
    ensures r == FramedSegments(message)
  {
    hide GetUint32, SegmentsFrom, FramedSegments, Prepend;
    HeaderSays(message);
    if |message| < 4 {
      return InvalidHeader;
    }
    var segmentCount := GetUint32(message, 0) + 1;
    if segmentCount > MAX_STREAM_SEGMENTS {
      return TooManySegments;
    }
    var byteOffset: nat := 4 + segmentCount * 4;
    byteOffset := byteOffset + byteOffset % 8;
    assert byteOffset == ReadHeader(segmentCount);
    hide ReadHeader;
    if byteOffset > |message| {
      return InvalidHeader;
    }
    var segments: seq<seq<byte>> := [];
    PrependNone(SegmentsFrom(message, 0, segmentCount, byteOffset));
    for i := 0 to segmentCount
      invariant byteOffset <= |message|
      invariant FramedSegments(message) == Prepend(segments, SegmentsFrom(message, i, segmentCount, byteOffset))
    {
      var byteLength := GetUint32(message, 4 + i * 4) * 8;
      SegmentsStep(message, i, segmentCount, byteOffset, segments);
      if byteOffset + byteLength > |message| {
        return InvalidHeader;
      }
      segments := segments + [message[byteOffset..byteOffset + byteLength]];
      byteOffset := byteOffset + byteLength;
    }
    SegmentsEnd(message, segmentCount, byteOffset, segments);
    r := Segments(segments);
  }

  lemma HeaderSays(message: seq<byte>)
    ensures |message| < 4 ==> FramedSegments(message) == InvalidHeader
    ensures |message| >= 4 ==>
      var count := GetUint32(message, 0) + 1;
      && 4 + 4 * count <= ReadHeader(count)
      && (count > MAX_STREAM_SEGMENTS ==> FramedSegments(message) == TooManySegments)
      && (count <= MAX_STREAM_SEGMENTS && ReadHeader(count) > |message| ==> FramedSegments(message) == InvalidHeader)
      && (count <= MAX_STREAM_SEGMENTS && ReadHeader(count) <= |message|
          ==> FramedSegments(message) == SegmentsFrom(message, 0, count, ReadHeader(count)))
  {
    hide GetUint32, SegmentsFrom;
  }

  lemma PrependNone(r: Unframed)
    ensures Prepend([], r) == r
  {
    if r.Segments? {
      assert [] + r.segments == r.segments;
    }
  }

  lemma SegmentsStep(message: seq<byte>, i: nat, count: nat, offset: nat, segments: seq<seq<byte>>)
    requires i < count && 4 + 4 * count <= |message|
    ensures var byteLength := GetUint32(message, 4 + i * 4) * 8;
      Prepend(segments, SegmentsFrom(message, i, count, offset)) ==
        if offset + byteLength > |message| then InvalidHeader
        else Prepend(segments + [message[offset..offset + byteLength]], SegmentsFrom(message, i + 1, count, offset + byteLength))
  {
    var byteLength := GetUint32(message, 4 + i * 4) * 8;
    if offset + byteLength <= |message| {
      var rest := SegmentsFrom(message, i + 1, count, offset + byteLength);
      if rest.Segments? {
        Associates(segments, [message[offset..offset + byteLength]], rest.segments);
      }
    }
  }

  lemma SegmentsEnd(message: seq<byte>, count: nat, offset: nat, segments: seq<seq<byte>>)
    requires 4 + 4 * count <= |message|
    ensures Prepend(segments, SegmentsFrom(message, count, count, offset)) == Segments(segments)
  {
    assert segments + [] == segments;
  }

  function Prepend(segments: seq<seq<byte>>, r: Unframed): Unframed {
    if r.Segments? then Segments(segments + r.segments) else r
  }

  class CapnpFrameDecoder {
    var pending: seq<byte>

    constructor ()
      ensures pending == []
    {
      pending := [];
    }

    /** Cut every complete frame off the front of what is pending; throws at a refused header. */
    method Push(chunk: seq<byte>) returns (frames: seq<seq<byte>>, thrown: bool)
      modifies this
      ensures var cut := CutUp(old(pending) + chunk);
        && thrown == cut.refused && pending == cut.pending
        && frames == if thrown then [] else cut.frames
    {
      hide CutUp, FrontOf, GetUint32;
      assert [] + chunk == chunk;
      pending := if |pending| == 0 then chunk else pending + chunk;
      assert pending == old(pending) + chunk;
      frames := [];
      ghost var all := pending;
      assert [] + CutUp(pending).frames == CutUp(pending).frames;
      while true
        invariant CutUp(all) == CutUp(pending).(frames := frames + CutUp(pending).frames)
        decreases |pending|
      {
        CutStep(pending, frames);
        if |pending| < 8 {
          break;
        }
        var segmentCount := GetUint32(pending, 0) + 1;
        if segmentCount <= 0 || segmentCount > MAX_SEGMENT_COUNT {
          return [], true;
        }
        var tableInts := 1 + segmentCount;
        var headerWords := (tableInts + 1) / 2;
        var headerBytes := headerWords * 8;
        if |pending| < headerBytes {
          break;
        }
        HeadersAgree(segmentCount);
        var payloadWords := 0;
        for i := 0 to segmentCount
          invariant payloadWords == PayloadWords(pending, i)
        {
          payloadWords := payloadWords + GetUint32(pending, 4 + i * 4);
        }
        var frameBytes := headerBytes + payloadWords * 8;
        if |pending| < frameBytes {
          break;
        }
        var frame := pending[..frameBytes];
        frames := frames + [frame];
        pending := pending[frameBytes..];
      }
      thrown := false;
    }
  }

  /** One turn of the decoder's loop. */
  lemma CutStep(p: seq<byte>, frames: seq<seq<byte>>)
    ensures |p| < 8 ==> CutUp(p) == Cut([], p, false)
    ensures |p| >= 8 ==>
      var count := GetUint32(p, 0) + 1;
      && (count > MAX_SEGMENT_COUNT ==> CutUp(p) == Cut([], p, true))
      && (count <= MAX_SEGMENT_COUNT && |p| < DecodedHeader(count) ==> CutUp(p) == Cut([], p, false))
      && (count <= MAX_SEGMENT_COUNT && |p| >= DecodedHeader(count) ==>
            4 + 4 * count <= |p| &&
            var n := DecodedHeader(count) + PayloadWords(p, count) * 8;
            && (|p| < n ==> CutUp(p) == Cut([], p, false))
            && (|p| >= n ==>
                  && CutUp(p).(frames := frames + CutUp(p).frames)
                     == CutUp(p[n..]).(frames := frames + [p[..n]] + CutUp(p[n..]).frames)))
    ensures frames + [] == frames
  {
    FrontIs(p);
    CutFront(p);
    hide FrontOf, CutUp, GetUint32, PayloadWords;
    if FrontOf(p).Complete? {
      var n := FrontOf(p).length;
      Associates(frames, [p[..n]], CutUp(p[n..]).frames);
    }
  }

  lemma FrontIs(p: seq<byte>)
    ensures |p| < 8 ==> FrontOf(p).Incomplete?
    ensures |p| >= 8 ==>
      var count := GetUint32(p, 0) + 1;
      && (count > MAX_SEGMENT_COUNT ==> FrontOf(p).Refused?)
      && (count <= MAX_SEGMENT_COUNT && |p| < DecodedHeader(count) ==> FrontOf(p).Incomplete?)
      && (count <= MAX_SEGMENT_COUNT && |p| >= DecodedHeader(count) ==>
            4 + 4 * count <= |p| &&
            var n := DecodedHeader(count) + PayloadWords(p, count) * 8;
            FrontOf(p) == if |p| < n then Incomplete else Complete(n))
  {
    hide GetUint32, PayloadWords;
    if |p| >= 8 {
      HeadersAgree(GetUint32(p, 0) + 1);
    }
  }
}
