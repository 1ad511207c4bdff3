/**
 The reader of pcap files, and the frame numbers that it gives.
 */
module Captures {
  import opened Wrappers
  import opened TcpFrames
  import opened Bytes

  datatype Header = Header(seconds: nat, fraction: nat, included: nat, original: nat)

  datatype Packet = Packet(num: nat, header: Header, data: Bytes)

  /** `struct.unpack_from` of an unsigned 32-bit value */
  function Read32(b: Bytes, at: nat, big: bool): (r: nat)
    requires at + 4 <= |b|
    ensures r < Modulus
  {
    if big then Word32(b[at], b[at + 1], b[at + 2], b[at + 3])
    else Word32(b[at + 3], b[at + 2], b[at + 1], b[at])
  }

  /** The two byte orders, byte by byte. */
  lemma Read32Is(b: Bytes, at: nat)
    requires at + 4 <= |b|
    ensures var w: int, x: int, y: int, z: int := b[at], b[at + 1], b[at + 2], b[at + 3];
      && Read32(b, at, true) == 0x100_0000 * w + 0x1_0000 * x + 0x100 * y + z
      && Read32(b, at, false) == w + 0x100 * x + 0x1_0000 * y + 0x100_0000 * z
  {
    Word32Is(b[at], b[at + 1], b[at + 2], b[at + 3]);
    Word32Is(b[at + 3], b[at + 2], b[at + 1], b[at]);
  }

  /** `_PCAP_MAGICS`: whether the numbers of a file that starts with such a value are big-endian, for the
      microsecond and the nanosecond format. */
  const Magics: map<nat, bool> := map[0xa1b2c3d4 := false, 0xd4c3b2a1 := true, 0xa1b23c4d := false, 0x4d3cb2a1 := true]

  /** `pcap_format` together with that table; `None` is not a pcap file. */
  function ByteOrder(b: Bytes): Option<bool> {
    if |b| >= 4 && Read32(b, 0, false) in Magics then Some(Magics[Read32(b, 0, false)]) else None
  }

  lemma StartsWith(b: Bytes, x: Byte, y: Byte, z: Byte, w: Byte)
    requires |b| >= 4
    ensures b[..4] == [x, y, z, w] <==> Read32(b, 0, false) == Word32(w, z, y, x)
  {
    if Read32(b, 0, false) == Word32(w, z, y, x) {
      Word32Unique(b[3], b[2], b[1], b[0], w, z, y, x);
    }
  }

  /** A file is a pcap file when it starts with the magic number of one of the two formats, written in
      the byte order of its numbers. */
  lemma ByteOrderIs(b: Bytes)
    ensures ByteOrder(b) == Some(true) <==>
              |b| >= 4 && (b[..4] == [0xa1, 0xb2, 0xc3, 0xd4] || b[..4] == [0xa1, 0xb2, 0x3c, 0x4d])
    ensures ByteOrder(b) == Some(false) <==>
              |b| >= 4 && (b[..4] == [0xd4, 0xc3, 0xb2, 0xa1] || b[..4] == [0x4d, 0x3c, 0xb2, 0xa1])
  {
    if |b| >= 4 {
      StartsWith(b, 0xa1, 0xb2, 0xc3, 0xd4);
      StartsWith(b, 0xa1, 0xb2, 0x3c, 0x4d);
      StartsWith(b, 0xd4, 0xc3, 0xb2, 0xa1);
      StartsWith(b, 0x4d, 0x3c, 0xb2, 0xa1);
      MagicWords();
      hide Read32, Word32;
    }
  }

  lemma MagicWords()
    ensures Word32(0xd4, 0xc3, 0xb2, 0xa1) == 0xd4c3b2a1 && Word32(0x4d, 0x3c, 0xb2, 0xa1) == 0x4d3cb2a1
    ensures Word32(0xa1, 0xb2, 0xc3, 0xd4) == 0xa1b2c3d4 && Word32(0xa1, 0xb2, 0x3c, 0x4d) == 0xa1b23c4d
  {
  }

  function Write32(x: nat, big: bool): (r: Bytes)
    requires x < Modulus
    ensures |r| == 4 && Read32(r, 0, big) == x
  {
    var b := Put32(x);
    if big then b else [b[3], b[2], b[1], b[0]]
  }

  predicate Fits(p: Packet) {
    && p.header.seconds < Modulus && p.header.fraction < Modulus && p.header.original < Modulus
    && p.header.included == |p.data| < Modulus
  }

  type Whole = p: Packet | Fits(p) witness Packet(0, Header(0, 0, 0, 0), [])

  /** The 16 bytes before a packet, and the packet */
  function Record(p: Whole, big: bool): (r: Bytes)
    ensures |r| == 16 + |p.data|
  {
    Write32(p.header.seconds, big) + Write32(p.header.fraction, big)
    + Write32(p.header.included, big) + Write32(p.header.original, big) + p.data
  }

  /** The records of the packets, one after the other */
  function Written(ps: seq<Whole>, big: bool): Bytes {
    if ps == [] then [] else Record(ps[0], big) + Written(ps[1..], big)
  }

  /** The rest of a file does not hold another whole record. */
  predicate Truncated(b: Bytes, big: bool) {
    |b| < 16 || |b| < 16 + Read32(b, 8, big)
  }

  ghost predicate Counted(ps: seq<Packet>) {
    forall k :: 0 <= k < |ps| ==> ps[k].num == k + 1
  }

  /** `_iter_pcap`: the packets are those whose records make up the file after its header of 24 bytes,
      numbered from one; a truncated record ends the capture. */
  method IterPcap(b: Bytes) returns (r: seq<Whole>)
    requires ByteOrder(b).Some?
    ensures Counted(r)
    ensures |b| < 24 ==> r == []
    ensures |b| >= 24 ==> exists rest :: b[24..] == Written(r, ByteOrder(b).value) + rest && Truncated(rest, ByteOrder(b).value)
  {
    hide Word32, Write32, Record, ByteOrder, Written;
    r := [];
    var big := ByteOrder(b).value;
    NothingWritten(big);
    if |b| < 24 {
      return;
    }
    var offset := 24;
    while offset + 16 <= |b| && offset + 16 + Read32(b, offset + 8, big) <= |b|
      invariant 24 <= offset <= |b|
      invariant Counted(r)
      invariant b[24..offset] == Written(r, big)
    {
      var h := Header(Read32(b, offset, big), Read32(b, offset + 4, big),
                      Read32(b, offset + 8, big), Read32(b, offset + 12, big));
      var end := offset + 16 + h.included;
      var p := Packet(|r| + 1, h, b[offset + 16..end]);
      ReadRecord(b, offset, big, p);
      WrittenAppend(r, p, big);
      assert b[24..end] == b[24..offset] + b[offset..end];
      r := r + [p];
      offset := end;
    }
    assert b[24..] == b[24..offset] + b[offset..];
    assert Truncated(b[offset..], big);
  }

  lemma NothingWritten(big: bool)
    ensures Written([], big) == []
  {
  }

  lemma {:induction false} WrittenAppend(ps: seq<Whole>, p: Whole, big: bool)
    ensures Written(ps + [p], big) == Written(ps, big) + Record(p, big)
  {
    hide Record;
    if ps != [] {
      WrittenAppend(ps[1..], p, big);
      assert (ps + [p])[1..] == ps[1..] + [p];
    } else {
      assert Written([p][1..], big) == [];
    }
  }

  lemma WriteRead(b: Bytes, at: nat, big: bool)
    requires at + 4 <= |b|
    ensures b[at..at + 4] == Write32(Read32(b, at, big), big)
  {
    Word32Bytes(b[at], b[at + 1], b[at + 2], b[at + 3]);
    Word32Bytes(b[at + 3], b[at + 2], b[at + 1], b[at]);
  }

  lemma ReadRecord(b: Bytes, at: nat, big: bool, p: Whole)
    requires at + 16 + |p.data| <= |b| && b[at + 16..at + 16 + |p.data|] == p.data
    requires p.header == Header(Read32(b, at, big), Read32(b, at + 4, big), Read32(b, at + 8, big), Read32(b, at + 12, big))
    ensures b[at..at + 16 + |p.data|] == Record(p, big)
  {
    WriteRead(b, at, big);
    WriteRead(b, at + 4, big);
    WriteRead(b, at + 8, big);
    WriteRead(b, at + 12, big);
    hide Read32, Write32;
    assert b[at..at + 16 + |p.data|] == b[at..at + 4] + b[at + 4..at + 8] + b[at + 8..at + 12] + b[at + 12..at + 16] + p.data;
  }

  /** The fields of a record can be read back from it. */
  lemma RecordRead(p: Whole, big: bool, rest: Bytes)
    ensures var b := Record(p, big) + rest;
      && p.header == Header(Read32(b, 0, big), Read32(b, 4, big), Read32(b, 8, big), Read32(b, 12, big))
      && p.data == b[16..16 + p.header.included]
      && rest == b[16 + p.header.included..]
      && !Truncated(b, big)
  {
    var h := p.header;
    var b := Record(p, big) + rest;
    var w0, w1, w2, w3 := Write32(h.seconds, big), Write32(h.fraction, big), Write32(h.included, big), Write32(h.original, big);
    hide Read32, Write32;
    assert b == w0 + w1 + w2 + w3 + p.data + rest;
    assert b[4..8] == w1 && b[8..12] == w2 && b[12..16] == w3;
    Read32At(b, 0, big, w0);
    Read32At(b, 4, big, w1);
    Read32At(b, 8, big, w2);
    Read32At(b, 12, big, w3);
  }

  lemma Read32At(b: Bytes, at: nat, big: bool, w: Bytes)
    requires at + 4 <= |b| && |w| == 4 && b[at..at + 4] == w
    ensures Read32(b, at, big) == Read32(w, 0, big)
  {
    var w := b[at..at + 4];
    assert w[0] == b[at] && w[1] == b[at + 1] && w[2] == b[at + 2] && w[3] == b[at + 3];
  }

  /** Only one list of packets makes up a file, so that a file is read back as it was written, whatever
      follows its last whole record. */
  lemma {:induction false} WrittenIsUnique(ps: seq<Whole>, qs: seq<Whole>, rest: Bytes, rest2: Bytes, big: bool)
    requires forall k :: 0 <= k < |ps| && k < |qs| ==> ps[k].num == qs[k].num
    requires Truncated(rest, big) && Truncated(rest2, big)
    requires Written(ps, big) + rest == Written(qs, big) + rest2
    ensures ps == qs && rest == rest2
    decreases |ps|
  {
    hide Truncated, Record;
    assert [] + rest == rest && [] + rest2 == rest2;
    if ps != [] && qs != [] {
      WrittenFirst(ps, rest, big);
      WrittenFirst(qs, rest2, big);
      assert ps[0] == qs[0];
      WrittenIsUnique(ps[1..], qs[1..], rest, rest2, big);
    } else if ps != [] {
      WrittenFirst(ps, rest, big);
    } else if qs != [] {
      WrittenFirst(qs, rest2, big);
    }
  }

  /** A file that starts with a record, and how to read that record. */
  lemma WrittenFirst(ps: seq<Whole>, rest: Bytes, big: bool)
    requires ps != []
    ensures var b, p := Written(ps, big) + rest, ps[0];
      && !Truncated(b, big)
      && p.header == Header(Read32(b, 0, big), Read32(b, 4, big), Read32(b, 8, big), Read32(b, 12, big))
      && p.data == b[16..16 + p.header.included]
      && Written(ps[1..], big) + rest == b[16 + p.header.included..]
  {
    hide Truncated, Record, Read32;
    var more := Written(ps[1..], big) + rest;
    assert Written(ps, big) + rest == Record(ps[0], big) + more;
    RecordRead(ps[0], big, more);
  }

  // ----- the frames of a capture -----

  /** The frames decoded from the packets, with the numbers of these. */
  function FramesOf(ps: seq<Packet>, decode: Bytes -> Option<Frame>): seq<Frame> {
    if ps == [] then []
    else
      var front, p := FramesOf(ps[..|ps| - 1], decode), ps[|ps| - 1];
      match decode(p.data)
      case Some(f) => front + [f.(num := p.num)]
      case None => front
  }

  /** `_parse_all_tcp_frames` of a pcap file; packets that are not decoded are counted too. */
  method ParseAllTcpFrames(b: Bytes, decode: Bytes -> Option<Frame>) returns (frames: seq<Frame>)
    requires ByteOrder(b).Some?
    ensures Increasing(frames)
    ensures |b| < 24 ==> frames == []
    ensures |b| >= 24 ==> exists ps: seq<Whole>, rest ::
      var big := ByteOrder(b).value;
      b[24..] == Written(ps, big) + rest && Truncated(rest, big) && Counted(ps) && frames == FramesOf(ps, decode)
  {
    hide Written, Truncated, Counted, ByteOrder;
    var ps := IterPcap(b);
    frames := [];
    for k := 0 to |ps|
      invariant frames == FramesOf(ps[..k], decode)
    {
      assert ps[..k + 1][..k] == ps[..k];
      var f := decode(ps[k].data);
      if f.Some? {
        frames := frames + [f.value.(num := ps[k].num)];
      }
    }
    assert ps[..|ps|] == ps;
    ReaderNumbers(ps, decode);
  }

  /** The numbers of the frames of a capture strictly increase. */
  lemma {:induction false} ReaderNumbers(ps: seq<Packet>, decode: Bytes -> Option<Frame>)
    requires Counted(ps)
    ensures Increasing(FramesOf(ps, decode))
    ensures forall f :: f in FramesOf(ps, decode) ==> 1 <= f.num <= |ps|
  {
    if ps != [] {
      ReaderNumbers(ps[..|ps| - 1], decode);
    }
  }
}
