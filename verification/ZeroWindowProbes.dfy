/**
 `find_zero_window_probes`, one pass over a capture, against `is_zero_window_probe`, which looks at
 one frame and everything before it.
 */
module ZeroWindowProbes {
  import opened Wrappers
  import opened TcpFrames

  // ----- what was sent on a stream before a place of the capture -----

  /** The last acknowledgement number */
  function LastAck(frames: seq<Frame>, s: Stream, k: nat): Option<Seq32>
    requires k <= |frames|
  {
    if k == 0 then None
    else if frames[k - 1].stream == s && !frames[k - 1].flags.rst && frames[k - 1].flags.ack
    then Some(frames[k - 1].ackNum)
    else LastAck(frames, s, k - 1)
  }

  /** Was a zero window advertised; the SYNs may count or not. */
  predicate Closed(frames: seq<Frame>, s: Stream, k: nat, synToo: bool)
    requires k <= |frames|
  {
    && k > 0
    && var f := frames[k - 1];
    || (f.stream == s && !f.flags.rst && f.window == 0 && (synToo || !f.flags.syn))
    || Closed(frames, s, k - 1, synToo)
  }

  ghost predicate On(frames: seq<Frame>, s: Stream, j: int, k: nat) {
    0 <= j < k <= |frames| && frames[j].stream == s && !frames[j].flags.rst
  }

  lemma {:induction false} ClosedExact(frames: seq<Frame>, s: Stream, k: nat, synToo: bool)
    requires k <= |frames|
    ensures Closed(frames, s, k, synToo) <==>
            exists j :: On(frames, s, j, k) && frames[j].window == 0 && (synToo || !frames[j].flags.syn)
  {
    if k > 0 {
      ClosedExact(frames, s, k - 1, synToo);
      assert forall j :: On(frames, s, j, k) <==> On(frames, s, j, k - 1) || (j == k - 1 && On(frames, s, j, k));
    }
  }

  lemma {:induction false} LastAckExact(frames: seq<Frame>, s: Stream, k: nat, a: Seq32)
    requires k <= |frames|
    ensures LastAck(frames, s, k) == Some(a) <==>
            exists j :: && On(frames, s, j, k) && frames[j].flags.ack && frames[j].ackNum == a
                        && forall o :: On(frames, s, o, k) && frames[o].flags.ack ==> o <= j
    ensures LastAck(frames, s, k) == None <==> forall o :: On(frames, s, o, k) ==> !frames[o].flags.ack
  {
    if k > 0 {
      LastAckExact(frames, s, k - 1, a);
      assert forall j :: On(frames, s, j, k) <==> On(frames, s, j, k - 1) || (j == k - 1 && On(frames, s, j, k));
      if On(frames, s, k - 1, k) && frames[k - 1].flags.ack {
        assert forall j :: On(frames, s, j, k) ==> j <= k - 1;
      }
    }
  }

  // ----- is_zero_window_probe -----

  /** At most one byte, at the position the peer last acknowledged (or just before, when empty),
      after a zero window of the peer. */
  predicate ProbeAt(frames: seq<Frame>, f: Frame, k: nat)
    requires k <= |frames|
  {
    var una := LastAck(frames, f.stream.Reverse(), k);
    && f.payload <= 1
    && Closed(frames, f.stream.Reverse(), k, true)
    && una.Some?
    && (f.seqNum == una.value || (f.payload == 0 && f.seqNum == Wrap(una.value - 1)))
  }

  /** The number of frames before the first one with a number of at least `n` */
  ghost predicate Before(frames: seq<Frame>, n: nat, k: nat) {
    && k <= |frames|
    && (forall j :: 0 <= j < k ==> frames[j].num < n)
    && (k < |frames| ==> frames[k].num >= n)
  }

  method IsZeroWindowProbe(frames: seq<Frame>, n: nat) returns (b: bool)
    ensures forall i: nat, k: nat :: Numbered(frames, n, i) && Before(frames, n, k) ==> (b <==> ProbeAt(frames, frames[i], k))
    ensures (forall i :: 0 <= i < |frames| ==> frames[i].num != n) ==> !b
  {
    var target := FrameByNumber(frames, n);
    if target.None? {
      assert forall i :: !Numbered(frames, n, i);
      return false;
    }
    var f := frames[target.value];
    assert forall i :: Numbered(frames, n, i) ==> i == target.value;
    if f.payload > 1 {
      return false;
    }
    var sawZeroWindow := false;
    var lastAck: Option<Seq32> := None;
    var k := 0;
    while k < |frames| && frames[k].num < n
      invariant k <= |frames| && forall j :: 0 <= j < k ==> frames[j].num < n
      invariant sawZeroWindow == Closed(frames, f.stream.Reverse(), k, true)
      invariant lastAck == LastAck(frames, f.stream.Reverse(), k)
    {
      var g := frames[k];
      if g.stream.srcIp == f.stream.dstIp && g.stream.dstIp == f.stream.srcIp
         && g.stream.srcPort == f.stream.dstPort && g.stream.dstPort == f.stream.srcPort
         && !g.flags.rst {
        if g.window == 0 {
          sawZeroWindow := true;
        }
        if g.flags.ack {
          lastAck := Some(g.ackNum);
        }
      }
      k := k + 1;
    }
    if !sawZeroWindow || lastAck.None? {
      return false;
    }
    if f.payload == 0 {
      b := Wrap(lastAck.value - f.seqNum) <= 1;
    } else {
      b := f.seqNum == lastAck.value;
    }
  }

  // ----- find_zero_window_probes and find_keepalives -----

  predicate Detected(f: Frame, una: Option<Seq32>, zero: bool, src: Option<string>, requireZero: bool) {
    && !f.flags.rst && !f.flags.syn && !f.flags.fin && f.payload <= 1
    && una.Some? && (!requireZero || zero) && From(src).Match(f)
    && ((f.payload == 0 && f.seqNum == Wrap(una.value - 1)) || (f.payload == 1 && f.seqNum == una.value))
  }

  ghost function Probes(frames: seq<Frame>, src: Option<string>, requireZero: bool): set<nat> {
    set i: nat | i < |frames| &&
      Detected(frames[i], LastAck(frames, frames[i].stream.Reverse(), i),
               Closed(frames, frames[i].stream.Reverse(), i, false), src, requireZero)
  }

  method ProbeSegments(frames: seq<Frame>, src: Option<string>, requireZero: bool) returns (r: seq<nat>)
    ensures r == Numbers(frames, Probes(frames, src, requireZero), |frames|)
  {
    hide Wrap, Endpoints.Match, LastAck, Closed, Probes;
    var lastAck: map<Stream, Seq32> := map[];
    var zeroSeen: set<Stream> := {};
    r := [];
    Untracked(frames);
    for k := 0 to |frames|
      invariant Tracks(frames, k, lastAck, zeroSeen)
      invariant r == Numbers(frames, Probes(frames, src, requireZero), k)
    {
      var f := frames[k];
      var peer := f.stream.Reverse();
      TracksAt(frames, src, requireZero, k, lastAck, zeroSeen);
      TracksNext(frames, k + 1, lastAck, zeroSeen);
      if !f.flags.rst {
        if !f.flags.syn && !f.flags.fin && f.payload <= 1
           && peer in lastAck && (!requireZero || peer in zeroSeen) && From(src).Match(f) {
          var una: int := lastAck[peer];
          if (f.payload == 0 && f.seqNum == Wrap(una - 1)) || (f.payload == 1 && f.seqNum == una) {
            r := r + [f.num];
          }
        }
        if f.window == 0 && !f.flags.syn {
          zeroSeen := zeroSeen + {f.stream};
        }
        if f.flags.ack {
          lastAck := lastAck[f.stream := f.ackNum];
        }
      }
    }
  }

  /** What the two dictionaries of the pass hold */
  ghost predicate Tracks(frames: seq<Frame>, k: nat, lastAck: map<Stream, Seq32>, zeroSeen: set<Stream>) {
    && k <= |frames|
    && (forall s :: LastAck(frames, s, k) == if s in lastAck then Some(lastAck[s]) else None)
    && (forall s :: s in zeroSeen <==> Closed(frames, s, k, false))
  }

  lemma Untracked(frames: seq<Frame>)
    ensures Tracks(frames, 0, map[], {})
  {
  }

  lemma TracksAt(frames: seq<Frame>, src: Option<string>, requireZero: bool, k: nat,
                 lastAck: map<Stream, Seq32>, zeroSeen: set<Stream>)
    requires k < |frames| && Tracks(frames, k, lastAck, zeroSeen)
    ensures var peer := frames[k].stream.Reverse();
            k in Probes(frames, src, requireZero) <==>
            Detected(frames[k], if peer in lastAck then Some(lastAck[peer]) else None, peer in zeroSeen, src, requireZero)
  {
    hide Detected;
  }

  lemma TracksNext(frames: seq<Frame>, k: nat, lastAck: map<Stream, Seq32>, zeroSeen: set<Stream>)
    requires 0 < k <= |frames| && Tracks(frames, k - 1, lastAck, zeroSeen)
    ensures var f := frames[k - 1];
            Tracks(frames, k, if !f.flags.rst && f.flags.ack then lastAck[f.stream := f.ackNum] else lastAck,
                   if !f.flags.rst && f.window == 0 && !f.flags.syn then zeroSeen + {f.stream} else zeroSeen)
  {
  }

  // ----- the pass against the definition -----

  lemma {:induction false} ClosedBySyn(frames: seq<Frame>, s: Stream, k: nat)
    requires k <= |frames| && Closed(frames, s, k, false)
    ensures Closed(frames, s, k, true)
  {
    if k > 0 && Closed(frames, s, k - 1, false) {
      ClosedBySyn(frames, s, k - 1);
    }
  }

  lemma WrapDiffers(a: Seq32)
    ensures Wrap(a - 1) != a
  {
  }

  lemma OwnPlace(frames: seq<Frame>, i: nat)
    requires Increasing(frames) && i < |frames|
    ensures Numbered(frames, frames[i].num, i)
    ensures forall k :: Before(frames, frames[i].num, k) <==> k == i
  {
  }

  /** A frame is found when it is a probe by the definition, is a plain segment of the wanted source,
      answers a zero window that a segment other than a SYN advertised, and is not an empty
      segment at the acknowledged position itself, and only then. */
  lemma FoundExactly(frames: seq<Frame>, src: Option<string>, i: nat)
    requires i < |frames|
    ensures var f := frames[i];
      i in Probes(frames, src, true) <==>
        && ProbeAt(frames, f, i)
        && !f.flags.rst && !f.flags.syn && !f.flags.fin && (src.None? || f.stream.srcIp == src.value)
        && Closed(frames, f.stream.Reverse(), i, false)
        && !(f.payload == 0 && LastAck(frames, f.stream.Reverse(), i) == Some(f.seqNum))
  {
    hide Closed, LastAck, Wrap;
    var peer := frames[i].stream.Reverse();
    var una := LastAck(frames, peer, i);
    if una.Some? {
      WrapDiffers(una.value);
    }
    if Closed(frames, peer, i, false) {
      ClosedBySyn(frames, peer, i);
    }
  }

  /** The source filter keeps exactly the frames of that source, for probes and keepalives. */
  lemma SourceFilters(frames: seq<Frame>, a: string, requireZero: bool, i: nat)
    requires i < |frames|
    ensures i in Probes(frames, Some(a), requireZero) <==>
            i in Probes(frames, None, requireZero) && frames[i].stream.srcIp == a
  {
    hide Closed, LastAck, Wrap;
  }

  /** A probe by the definition that is not found: an empty segment at the acknowledged position itself */
  lemma OwnPositionIsMissed(frames: seq<Frame>, s: Stream)
    requires var ack := Flags(false, false, false, true);
             frames == [Frame(1, s.Reverse(), 0, 5, ack, 0, 0), Frame(2, s, 5, 0, ack, 9, 0)]
    ensures Increasing(frames) && ProbeAt(frames, frames[1], 1) && 1 !in Probes(frames, None, true)
  {
    assert s.Reverse().Reverse() == s;
    assert LastAck(frames, s.Reverse(), 1) == Some(5);
    assert Closed(frames, s.Reverse(), 1, true);
  }

  /** Another one: only the SYN-ACK of its peer advertised a zero window. */
  lemma SynWindowIsMissed(frames: seq<Frame>, s: Stream)
    requires frames == [Frame(1, s.Reverse(), 0, 5, Flags(false, true, false, true), 0, 0),
                        Frame(2, s, 5, 0, Flags(false, false, false, true), 9, 1)]
    ensures Increasing(frames) && ProbeAt(frames, frames[1], 1) && 1 !in Probes(frames, None, true)
  {
    assert s.Reverse().Reverse() == s;
    assert LastAck(frames, s.Reverse(), 1) == Some(5);
    assert Closed(frames, s.Reverse(), 1, true) && !Closed(frames, s.Reverse(), 1, false);
  }

  /** Each of the numbers returned satisfies the definition on the same capture. */
  lemma EachIsProbe(frames: seq<Frame>, src: Option<string>, n: nat)
    requires Increasing(frames)
    requires n in Numbers(frames, Probes(frames, src, true), |frames|)
    ensures exists i: nat :: Numbered(frames, n, i) && Before(frames, n, i) && ProbeAt(frames, frames[i], i)
  {
    InNumbers(frames, Probes(frames, src, true), |frames|, n);
    var i :| 0 <= i < |frames| && i in Probes(frames, src, true) && frames[i].num == n;
    OwnPlace(frames, i);
    FoundExactly(frames, src, i);
    assert Numbered(frames, n, i) && Before(frames, n, i) && ProbeAt(frames, frames[i], i);
  }

  /** Numbers out of order mislead the definition: it stops at the first larger one. */
  lemma OrderMatters(frames: seq<Frame>, s: Stream, w: nat)
    requires var zero := Flags(false, false, false, true);
             frames == [Frame(w + 2, s.Reverse(), 0, 5, zero, 0, 0), Frame(1, s, 5, 0, zero, 9, 1)]
    ensures 1 in Numbers(frames, Probes(frames, None, true), 2)
    ensures forall i: nat, k: nat :: Numbered(frames, 1, i) && Before(frames, 1, k) ==> !ProbeAt(frames, frames[i], k)
  {
    assert s.Reverse().Reverse() == s;
    assert LastAck(frames, s.Reverse(), 1) == Some(5);
    assert Closed(frames, s.Reverse(), 1, false);
    assert 1 in Probes(frames, None, true);
    InNumbers(frames, Probes(frames, None, true), 2, 1);
    forall i: nat, k: nat | Numbered(frames, 1, i) && Before(frames, 1, k)
      ensures k == 0
    {
    }
  }

  // ----- find_keepalives against its documentation -----

  /** What the documentation of `find_keepalives` describes: an empty segment just before the
      acknowledged position, whose peer has not advertised a zero window */
  predicate DocumentedKeepalive(frames: seq<Frame>, i: nat)
    requires i < |frames|
  {
    var peer := frames[i].stream.Reverse();
    var una := LastAck(frames, peer, i);
    && frames[i].payload == 0 && una.Some? && frames[i].seqNum == Wrap(una.value - 1)
    && !Closed(frames, peer, i, false)
  }

  /** A keepalive that is found is also found as a zero window probe exactly when its peer advertised
      a zero window before, in a segment other than a SYN. */
  lemma ProbeAmongKeepalives(frames: seq<Frame>, src: Option<string>, i: nat)
    requires i < |frames|
    ensures i in Probes(frames, src, true) <==>
            i in Probes(frames, src, false) && Closed(frames, frames[i].stream.Reverse(), i, false)
  {
    hide Wrap, LastAck, Closed, Endpoints.Match;
  }

  /** A keepalive that is found is what the documentation describes exactly when it is empty and its
      peer has not advertised a zero window: segments of one byte are found too. */
  lemma KeepaliveExactly(frames: seq<Frame>, src: Option<string>, i: nat)
    requires i in Probes(frames, src, false)
    ensures DocumentedKeepalive(frames, i) <==>
            frames[i].payload == 0 && !Closed(frames, frames[i].stream.Reverse(), i, false)
  {
    hide Wrap, LastAck, Closed, Endpoints.Match;
  }

  /** The keepalives of a whole capture keep clear of the zero window probes if and only if none of
      them follows a zero window of its peer. */
  lemma KeepalivesApart(frames: seq<Frame>, src: Option<string>)
    ensures Probes(frames, src, false) !! Probes(frames, src, true) <==>
            forall i :: i in Probes(frames, src, false) ==> !Closed(frames, frames[i].stream.Reverse(), i, false)
  {
    forall i: nat | i < |frames|
      ensures i in Probes(frames, src, true) <==>
              i in Probes(frames, src, false) && Closed(frames, frames[i].stream.Reverse(), i, false)
    {
      ProbeAmongKeepalives(frames, src, i);
    }
    hide Detected, LastAck, Closed;
    if Probes(frames, src, false) !! Probes(frames, src, true) {
      forall i | i in Probes(frames, src, false)
        ensures !Closed(frames, frames[i].stream.Reverse(), i, false)
      {
        assert i !in Probes(frames, src, true);
      }
    }
  }

  /** A capture whose only keepalive is a zero window probe */
  lemma ProbeIsKeepalive(frames: seq<Frame>, s: Stream)
    requires var ack := Flags(false, false, false, true);
             frames == [Frame(1, s.Reverse(), 0, 5, ack, 0, 0), Frame(2, s, 4, 0, ack, 9, 0)]
    ensures 1 in Probes(frames, None, false) && 1 in Probes(frames, None, true) && !DocumentedKeepalive(frames, 1)
  {
    assert s.Reverse().Reverse() == s;
    assert LastAck(frames, s.Reverse(), 1) == Some(5);
    assert Closed(frames, s.Reverse(), 1, false);
  }

  /** A capture whose only keepalive carries a byte */
  lemma ByteIsKeepalive(frames: seq<Frame>, s: Stream)
    requires var ack := Flags(false, false, false, true);
             frames == [Frame(1, s.Reverse(), 0, 5, ack, 9, 0), Frame(2, s, 5, 0, ack, 9, 1)]
    ensures 1 in Probes(frames, None, false) && 1 !in Probes(frames, None, true) && !DocumentedKeepalive(frames, 1)
  {
    assert s.Reverse().Reverse() == s;
    assert LastAck(frames, s.Reverse(), 1) == Some(5);
    assert !Closed(frames, s.Reverse(), 1, false);
  }
}
