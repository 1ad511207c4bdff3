/**
 `find_retransmissions`: one pass over wrapped 32-bit values that finds what a definition on
 unbounded positions says.
 */
module Retransmissions {
  import opened Wrappers
  import opened TcpFrames

  /** The sequence space that a segment occupies */
  function Length(f: Frame): nat {
    f.payload + (if f.flags.syn then 1 else 0)
  }

  // ----- the pass -----

  predicate Repeats(f: Frame, src: Option<string>, highest: map<Stream, Seq32>) {
    && f.payload > 0 && !f.flags.syn
    && f.stream in highest && SeqLt(f.seqNum, highest[f.stream])
    && From(src).Match(f)
  }

  /** `highest` after a frame */
  function Raised(f: Frame, highest: map<Stream, Seq32>): map<Stream, Seq32> {
    var end := Wrap(f.seqNum + Length(f));
    if f.flags.rst || (f.stream in highest && !SeqLt(highest[f.stream], end)) then highest
    else highest[f.stream := end]
  }

  function Highest(frames: seq<Frame>, k: nat): map<Stream, Seq32>
    requires k <= |frames|
  {
    if k == 0 then map[] else Raised(frames[k - 1], Highest(frames, k - 1))
  }

  ghost function Found(frames: seq<Frame>, src: Option<string>): set<nat> {
    set i: nat | i < |frames| && !frames[i].flags.rst && Repeats(frames[i], src, Highest(frames, i))
  }

  method FindRetransmissions(frames: seq<Frame>, src: Option<string>) returns (r: seq<nat>)
    ensures r == Numbers(frames, Found(frames, src), |frames|)
  {
    var highest: map<Stream, Seq32> := map[];
    r := [];
    for k := 0 to |frames|
      invariant highest == Highest(frames, k)
      invariant r == Numbers(frames, Found(frames, src), k)
    {
      var f := frames[k];
      if !f.flags.rst {
        var end := Wrap(f.seqNum + f.payload + (if f.flags.syn then 1 else 0));
        if f.payload > 0 && !f.flags.syn && f.stream in highest && SeqLt(f.seqNum, highest[f.stream])
           && From(src).Match(f) {
          r := r + [f.num];
        }
        if f.stream !in highest || SeqLt(highest[f.stream], end) {
          highest := highest[f.stream := end];
        }
      }
    }
  }

  // ----- the definition -----

  /** The positions of the frames in their streams, without bound. */
  ghost predicate Positions(frames: seq<Frame>, starts: seq<int>) {
    && |starts| == |frames|
    && forall i :: 0 <= i < |frames| ==> Wrap(starts[i]) == frames[i].seqNum
  }

  /** The position after frame `j`: after its data, and one more for a SYN */
  function End(frames: seq<Frame>, starts: seq<int>, j: nat): int
    requires j < |frames| && |starts| == |frames|
  {
    if frames[j].flags.syn then starts[j] + frames[j].payload + 1 else starts[j] + frames[j].payload
  }

  /** Frame `j` is a segment of stream `s` before place `k`. */
  predicate On(frames: seq<Frame>, s: Stream, j: int, k: int) {
    0 <= j < k <= |frames| && frames[j].stream == s && !frames[j].flags.rst
  }

  /** It is the one that reaches furthest. */
  ghost predicate Top(frames: seq<Frame>, starts: seq<int>, s: Stream, j: int, k: int)
    requires |starts| == |frames|
  {
    On(frames, s, j, k) && forall o :: On(frames, s, o, k) ==> End(frames, starts, o) <= End(frames, starts, j)
  }

  /** Every segment stays within half the number space of the furthest position of its stream. */
  ghost predicate InWindow(frames: seq<Frame>, starts: seq<int>)
    requires |starts| == |frames|
  {
    forall i, j :: 0 <= i < |frames| && !frames[i].flags.rst && Top(frames, starts, frames[i].stream, j, i) ==>
      && -0x8000_0000 <= starts[i] - End(frames, starts, j) < 0x8000_0000
      && -0x8000_0000 < End(frames, starts, i) - End(frames, starts, j) <= 0x8000_0000
  }

  /** A data segment, of the wanted source, that starts below a position already reached. */
  ghost predicate Retransmits(frames: seq<Frame>, starts: seq<int>, src: Option<string>, i: nat)
    requires |starts| == |frames|
  {
    && i < |frames|
    && var f := frames[i];
    && !f.flags.rst && !f.flags.syn && f.payload > 0 && (src.None? || f.stream.srcIp == src.value)
    && exists j :: On(frames, f.stream, j, i) && starts[i] < End(frames, starts, j)
  }

  // ----- the pass finds what the definition says -----

  /** `highest` holds the wrapped furthest position of a stream, once it has a segment. */
  ghost predicate Tracked(frames: seq<Frame>, starts: seq<int>, k: nat, s: Stream, highest: map<Stream, Seq32>)
    requires |starts| == |frames|
  {
    if s in highest then exists j :: Top(frames, starts, s, j, k) && highest[s] == Wrap(End(frames, starts, j))
    else forall j :: !On(frames, s, j, k)
  }

  lemma {:induction false} HighestTracks(frames: seq<Frame>, starts: seq<int>, k: nat, s: Stream)
    requires Positions(frames, starts) && InWindow(frames, starts) && k <= |frames|
    ensures Tracked(frames, starts, k, s, Highest(frames, k))
  {
    if k > 0 {
      HighestTracks(frames, starts, k - 1, s);
      hide Raised, InWindow, Positions, Tracked;
      if frames[k - 1].stream != s || frames[k - 1].flags.rst {
        TrackOther(frames, starts, k, s, Highest(frames, k - 1));
      } else {
        var before := Highest(frames, k - 1);
        if s in before {
          var j := TrackedBy(frames, starts, k - 1, s, before);
          TrackNext(frames, starts, k, s, before, j);
        } else {
          TrackFirst(frames, starts, k, s, before);
        }
      }
    }
  }

  lemma TrackedBy(frames: seq<Frame>, starts: seq<int>, k: nat, s: Stream, highest: map<Stream, Seq32>) returns (j: int)
    requires |starts| == |frames| && s in highest && Tracked(frames, starts, k, s, highest)
    ensures Top(frames, starts, s, j, k) && highest[s] == Wrap(End(frames, starts, j))
  {
    j :| Top(frames, starts, s, j, k) && highest[s] == Wrap(End(frames, starts, j));
  }

  lemma TrackOther(frames: seq<Frame>, starts: seq<int>, k: nat, s: Stream, highest: map<Stream, Seq32>)
    requires 0 < k <= |frames| == |starts| && (frames[k - 1].stream != s || frames[k - 1].flags.rst)
    requires Tracked(frames, starts, k - 1, s, highest)
    ensures Tracked(frames, starts, k, s, Raised(frames[k - 1], highest))
  {
    var after := Raised(frames[k - 1], highest);
    assert (s in after <==> s in highest) && (s in after ==> after[s] == highest[s]);
    hide Wrap, SeqLt, Raised;
    assert forall o :: On(frames, s, o, k) ==> On(frames, s, o, k - 1);
    if s in highest {
      var j :| Top(frames, starts, s, j, k - 1) && highest[s] == Wrap(End(frames, starts, j));
      assert Top(frames, starts, s, j, k);
    }
  }

  /** How the furthest segment compares with the next one, in both arithmetics. */
  lemma CompareTop(frames: seq<Frame>, starts: seq<int>, i: nat, j: int)
    requires Positions(frames, starts) && InWindow(frames, starts) && i < |frames|
    requires !frames[i].flags.rst && Top(frames, starts, frames[i].stream, j, i)
    ensures var top := End(frames, starts, j);
      && (SeqLt(frames[i].seqNum, Wrap(top)) <==> starts[i] < top)
      && (SeqLt(Wrap(top), Wrap(End(frames, starts, i))) <==> top < End(frames, starts, i))
  {
    SeqLtIsLess(starts[i], End(frames, starts, j));
    SeqLtIsLess(End(frames, starts, j), End(frames, starts, i));
  }

  lemma WrapEnd(frames: seq<Frame>, starts: seq<int>, i: nat)
    requires Positions(frames, starts) && i < |frames|
    ensures Wrap(frames[i].seqNum + Length(frames[i])) == Wrap(End(frames, starts, i))
  {
    WrapSum(starts[i], Length(frames[i]));
  }

  lemma TopNext(frames: seq<Frame>, starts: seq<int>, s: Stream, j: int, k: nat)
    requires |starts| == |frames| && k > 0 && On(frames, s, k - 1, k) && Top(frames, starts, s, j, k - 1)
    ensures Top(frames, starts, s, if End(frames, starts, j) < End(frames, starts, k - 1) then k - 1 else j, k)
  {
    assert forall o :: On(frames, s, o, k) ==> o == k - 1 || On(frames, s, o, k - 1);
  }

  lemma TrackFirst(frames: seq<Frame>, starts: seq<int>, k: nat, s: Stream, highest: map<Stream, Seq32>)
    requires Positions(frames, starts) && 0 < k <= |frames|
    requires frames[k - 1].stream == s && !frames[k - 1].flags.rst
    requires s !in highest && Tracked(frames, starts, k - 1, s, highest)
    ensures Tracked(frames, starts, k, s, Raised(frames[k - 1], highest))
  {
    WrapEnd(frames, starts, k - 1);
    assert forall o :: On(frames, s, o, k) ==> o == k - 1 || On(frames, s, o, k - 1);
    assert Top(frames, starts, s, k - 1, k);
  }

  lemma TrackNext(frames: seq<Frame>, starts: seq<int>, k: nat, s: Stream, highest: map<Stream, Seq32>, j: int)
    requires Positions(frames, starts) && InWindow(frames, starts) && 0 < k <= |frames|
    requires frames[k - 1].stream == s && !frames[k - 1].flags.rst
    requires Top(frames, starts, s, j, k - 1) && s in highest && highest[s] == Wrap(End(frames, starts, j))
    ensures Tracked(frames, starts, k, s, Raised(frames[k - 1], highest))
  {
    hide Top, On, Wrap, SeqLt, Positions, InWindow, End, Length, Raised, Tracked;
    OnePosition(frames, starts);
    TopIsOn(frames, starts, s, j, k - 1);
    LastIsOn(frames, k);
    WrapEnd(frames, starts, k - 1);
    CompareTop(frames, starts, k - 1, j);
    TopNext(frames, starts, s, j, k);
    RaisedTo(frames[k - 1], highest, Wrap(End(frames, starts, k - 1)));
    var top := if End(frames, starts, j) < End(frames, starts, k - 1) then k - 1 else j;
    TrackedAt(frames, starts, k, s, Raised(frames[k - 1], highest), top);
  }

  lemma OnePosition(frames: seq<Frame>, starts: seq<int>)
    requires Positions(frames, starts)
    ensures |starts| == |frames|
  {
  }

  lemma TopIsOn(frames: seq<Frame>, starts: seq<int>, s: Stream, j: int, k: int)
    requires |starts| == |frames| && Top(frames, starts, s, j, k)
    ensures 0 <= j < k <= |frames|
  {
  }

  lemma LastIsOn(frames: seq<Frame>, k: nat)
    requires 0 < k <= |frames| && !frames[k - 1].flags.rst
    ensures On(frames, frames[k - 1].stream, k - 1, k)
  {
  }

  lemma RaisedTo(f: Frame, highest: map<Stream, Seq32>, end: Seq32)
    requires f.stream in highest && !f.flags.rst && end == Wrap(f.seqNum + Length(f))
    ensures f.stream in Raised(f, highest)
    ensures Raised(f, highest)[f.stream] == if SeqLt(highest[f.stream], end) then end else highest[f.stream]
  {
    hide Wrap, SeqLt, Length;
  }

  lemma TrackedAt(frames: seq<Frame>, starts: seq<int>, k: nat, s: Stream, highest: map<Stream, Seq32>, j: int)
    requires |starts| == |frames| && Top(frames, starts, s, j, k) && s in highest && highest[s] == Wrap(End(frames, starts, j))
    ensures Tracked(frames, starts, k, s, highest)
  {
    hide Top, Wrap, End;
  }

  lemma WrapSum(x: int, n: int)
    ensures Wrap(Wrap(x) + n) == Wrap(x + n)
  {
    WrapPeriodic(Wrap(x) + n, x / Modulus);
  }

  lemma TopIsHighest(frames: seq<Frame>, starts: seq<int>, s: Stream, j: int, k: int, x: int)
    requires |starts| == |frames| && Top(frames, starts, s, j, k)
    ensures x < End(frames, starts, j) <==> exists o :: On(frames, s, o, k) && x < End(frames, starts, o)
  {
  }

  /** For captures of any length and any number of wraps: the reported frames are the data segments
      that start below the largest position that their stream had reached. */
  lemma FoundIsRetransmitted(frames: seq<Frame>, starts: seq<int>, src: Option<string>, i: nat)
    requires Positions(frames, starts) && InWindow(frames, starts) && i < |frames|
    ensures i in Found(frames, src) <==> Retransmits(frames, starts, src, i)
  {
    hide Highest, Wrap, SeqLt, InWindow;
    var s := frames[i].stream;
    HighestTracks(frames, starts, i, s);
    if s in Highest(frames, i) && !frames[i].flags.rst {
      var j :| Top(frames, starts, s, j, i) && Highest(frames, i)[s] == Wrap(End(frames, starts, j));
      CompareTop(frames, starts, i, j);
      TopIsHighest(frames, starts, s, j, i, starts[i]);
    }
  }

  /** A segment that starts where the furthest one of its stream ended is not reported; a data segment that
      starts a byte earlier is. */
  lemma InOrderIsNotFound(frames: seq<Frame>, starts: seq<int>, i: nat, j: nat)
    requires Positions(frames, starts) && InWindow(frames, starts) && i < |frames|
    requires Top(frames, starts, frames[i].stream, j, i)
    ensures var end := starts[j] + frames[j].payload + (if frames[j].flags.syn then 1 else 0);
      && (starts[i] == end ==> i !in Found(frames, None))
      && (starts[i] == end - 1 && frames[i].payload > 0 && !frames[i].flags.syn && !frames[i].flags.rst ==> i in Found(frames, None))
  {
    hide Found, InWindow;
    FoundIsRetransmitted(frames, starts, None, i);
    TopIsHighest(frames, starts, frames[i].stream, j, i, starts[i]);
  }

  /** The source filter keeps exactly the frames of that source. */
  lemma SourceFilters(frames: seq<Frame>, a: string, i: nat)
    requires i < |frames|
    ensures i in Found(frames, Some(a)) <==> i in Found(frames, None) && frames[i].stream.srcIp == a
  {
    hide Highest, SeqLt;
  }

  /** Two segments in order, then the last byte of the second again */
  lemma LastByteAgain(frames: seq<Frame>, s: Stream)
    requires var ack := Flags(false, false, false, true);
             frames == [Frame(1, s, 100, 0, ack, 9, 10), Frame(2, s, 110, 0, ack, 9, 10), Frame(3, s, 119, 0, ack, 9, 1)]
    ensures Found(frames, None) == {2}
  {
    assert Highest(frames, 0) == map[];
    assert Highest(frames, 1) == map[s := 110];
    assert Highest(frames, 2) == map[s := 120];
    assert SeqLt(119, 120) && !SeqLt(110, 110);
  }

  lemma RetransmissionsAreFound(frames: seq<Frame>, starts: seq<int>, src: Option<string>, n: nat)
    requires Positions(frames, starts) && InWindow(frames, starts)
    ensures n in Numbers(frames, Found(frames, src), |frames|)
       <==> exists i: nat :: Retransmits(frames, starts, src, i) && frames[i].num == n
  {
    InNumbers(frames, Found(frames, src), |frames|, n);
    forall i: nat | i < |frames|
      ensures i in Found(frames, src) <==> Retransmits(frames, starts, src, i)
    {
      FoundIsRetransmitted(frames, starts, src, i);
    }
  }
}
