/**
 The TCP frames of a capture, as the analysis functions see them.
 */
module TcpFrames {
  import opened Wrappers

  const Modulus: int := 0x1_0000_0000

  /** A sequence or acknowledgement number */
  type Seq32 = x: int | 0 <= x < 0x1_0000_0000

  datatype Flags = Flags(fin: bool, syn: bool, rst: bool, ack: bool)

  datatype Stream = Stream(srcIp: string, srcPort: nat, dstIp: string, dstPort: nat) {
    function Reverse(): Stream {
      Stream(dstIp, dstPort, srcIp, srcPort)
    }
  }

  datatype Frame = Frame(num: nat, stream: Stream, seqNum: Seq32, ackNum: Seq32, flags: Flags,
                         window: nat, payload: nat)

  function Wrap(x: int): Seq32 {
    x % Modulus
  }

  /** `_seq_lt`: smaller in sequence-number arithmetic */
  predicate SeqLt(a: Seq32, b: Seq32) {
    Wrap(a - b) > 0x7FFF_FFFF
  }

  /** Two wrapped positions less than a whole number space apart compare like the positions
      exactly when they are at most half of it apart. */
  lemma SeqLtIsLess(x: int, y: int)
    requires -Modulus < x - y < Modulus
    ensures (SeqLt(Wrap(x), Wrap(y)) <==> x < y) <==> -0x8000_0000 <= x - y < 0x8000_0000
  {
    WrapDifference(x, y);
  }

  lemma WrapDifference(x: int, y: int)
    ensures Wrap(Wrap(x) - Wrap(y)) == Wrap(x - y)
  {
    var d := x / Modulus - y / Modulus;
    assert x - y == Wrap(x) - Wrap(y) + d * Modulus;
    WrapPeriodic(Wrap(x) - Wrap(y), d);
  }

  lemma {:induction false} WrapPeriodic(x: int, d: int)
    ensures Wrap(x + d * Modulus) == Wrap(x)
    decreases if d < 0 then -d else d
  {
    if d > 0 {
      WrapPeriodic(x, d - 1);
      assert x + d * Modulus == x + (d - 1) * Modulus + Modulus;
    } else if d < 0 {
      WrapPeriodic(x, d + 1);
      assert x + d * Modulus == x + (d + 1) * Modulus - Modulus;
    }
  }

  // ----- endpoints -----

  /** `_match_endpoint`, with the addresses without their prefix lengths */
  datatype Endpoints = Endpoints(srcIp: Option<string>, dstIp: Option<string>, srcPort: Option<nat>, dstPort: Option<nat>) {
    predicate Match(f: Frame) {
      && (srcIp.None? || f.stream.srcIp == srcIp.value)
      && (dstIp.None? || f.stream.dstIp == dstIp.value)
      && (srcPort.None? || f.stream.srcPort == srcPort.value)
      && (dstPort.None? || f.stream.dstPort == dstPort.value)
    }
  }

  function From(src: Option<string>): Endpoints {
    Endpoints(src, None, None, None)
  }

  // ----- frame numbers -----

  /** What the capture readers guarantee: see `Captures.ReaderNumbers`. */
  ghost predicate Increasing(frames: seq<Frame>) {
    forall i, j :: 0 <= i < j < |frames| ==> frames[i].num < frames[j].num
  }

  /** `frame_by_number`: the index of the first frame with a number. */
  ghost predicate Numbered(frames: seq<Frame>, n: nat, i: nat) {
    && i < |frames| && frames[i].num == n
    && forall j :: 0 <= j < i ==> frames[j].num != n
  }

  method FrameByNumber(frames: seq<Frame>, n: nat) returns (r: Option<nat>)
    ensures r.Some? ==> Numbered(frames, n, r.value)
    ensures r.None? ==> forall j :: 0 <= j < |frames| ==> frames[j].num != n
  {
    for i := 0 to |frames|
      invariant forall j :: 0 <= j < i ==> frames[j].num != n
    {
      if frames[i].num == n {
        return Some(i);
      }
    }
    return None;
  }

  /** The numbers of the frames at the picked places, in capture order. */
  ghost function Numbers(frames: seq<Frame>, picked: set<nat>, k: nat): seq<nat>
    requires k <= |frames|
  {
    if k == 0 then [] else Numbers(frames, picked, k - 1) + (if k - 1 in picked then [frames[k - 1].num] else [])
  }

  lemma {:induction false} InNumbers(frames: seq<Frame>, picked: set<nat>, k: nat, n: nat)
    requires k <= |frames|
    ensures n in Numbers(frames, picked, k) <==> exists i :: 0 <= i < k && i in picked && frames[i].num == n
  {
    if k > 0 {
      InNumbers(frames, picked, k - 1, n);
    }
  }
}
