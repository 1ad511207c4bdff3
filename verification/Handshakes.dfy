/**
 `find_handshake` against `handshake_frames_ok`, which checks three frame numbers given by a student.
 */
module Handshakes {
  import opened Wrappers
  import opened TcpFrames

  datatype Server = Server(ip: Option<string>, port: Option<nat>)

  predicate IsSyn(f: Frame, server: Server, client: Option<string>) {
    f.flags.syn && !f.flags.ack && Endpoints(client, server.ip, None, server.port).Match(f)
  }

  predicate IsSynAck(syn: Frame, f: Frame) {
    f.stream == syn.stream.Reverse() && f.flags.syn && f.flags.ack && f.ackNum == Wrap(syn.seqNum + 1)
  }

  predicate IsAck(syn: Frame, synAck: Frame, f: Frame) {
    && f.stream == syn.stream && f.flags.ack && !f.flags.syn
    && f.seqNum == Wrap(syn.seqNum + 1) && f.ackNum == Wrap(synAck.seqNum + 1)
  }

  /** The frames at the three places make a handshake. */
  predicate Handshake(frames: seq<Frame>, server: Server, client: Option<string>, i: int, j: int, k: int) {
    && 0 <= i < j < k < |frames|
    && IsSyn(frames[i], server, client)
    && IsSynAck(frames[i], frames[j])
    && IsAck(frames[i], frames[j], frames[k])
  }

  /** No frame between the two places answers the SYN. */
  predicate FirstAnswer(frames: seq<Frame>, i: int, j: int) {
    0 <= i < j < |frames| && forall o :: i < o < j ==> !IsSynAck(frames[i], frames[o])
  }

  /** A handshake that goes on from the first SYN-ACK */
  ghost predicate Prompt(frames: seq<Frame>, server: Server, client: Option<string>, i: int, j: int, k: int) {
    Handshake(frames, server, client, i, j, k) && FirstAnswer(frames, i, j)
  }

  /** The number after another one */
  function Next(x: Seq32): Seq32 {
    if x == 0xFFFF_FFFF then 0 else x + 1
  }

  /** A handshake (RFC 9293, section 3.5): a SYN from the client to the server, its answer on the way back, and
      the acknowledgement of the answer, each naming the number after the one before. */
  lemma HandshakeIs(frames: seq<Frame>, server: Server, client: Option<string>, i: int, j: int, k: int)
    requires 0 <= i < j < k < |frames|
    ensures Handshake(frames, server, client, i, j, k) <==>
      var a, b, c := frames[i], frames[j], frames[k];
      && a.flags.syn && !a.flags.ack && b.flags.syn && b.flags.ack && !c.flags.syn && c.flags.ack
      && (client.None? || a.stream.srcIp == client.value)
      && (server.ip.None? || a.stream.dstIp == server.ip.value)
      && (server.port.None? || a.stream.dstPort == server.port.value)
      && b.stream.srcIp == c.stream.dstIp == a.stream.dstIp && b.stream.dstIp == c.stream.srcIp == a.stream.srcIp
      && b.stream.srcPort == c.stream.dstPort == a.stream.dstPort && b.stream.dstPort == c.stream.srcPort == a.stream.srcPort
      && b.ackNum == Next(a.seqNum) && c.seqNum == Next(a.seqNum) && c.ackNum == Next(b.seqNum)
  {
  }

  /** What the search takes for an answer to a SYN, and what the check takes for the two answers to it */
  lemma AnswersAre(syn: Frame, f: Frame)
    ensures AnswersStream(syn, f) <==>
      && f.flags.syn && f.flags.ack
      && f.stream.srcIp == syn.stream.dstIp && f.stream.dstIp == syn.stream.srcIp
      && f.stream.srcPort == syn.stream.dstPort && f.stream.dstPort == syn.stream.srcPort
    ensures IsSynAck(syn, f) <==> AnswersStream(syn, f) && f.ackNum == Next(syn.seqNum)
    ensures FollowsStream(syn, f) <==> !f.flags.syn && f.flags.ack && f.stream == syn.stream && f.payload == 0
  {
  }

  datatype Triple = Triple(syn: nat, synAck: nat, ack: nat)

  method FindHandshake(frames: seq<Frame>, server: Server, client: Option<string>) returns (r: Option<Triple>)
    ensures r.None? ==> forall i, j, k :: !Prompt(frames, server, client, i, j, k)
    ensures r.Some? ==> exists i, j, k ::
              && Prompt(frames, server, client, i, j, k)
              && r.value == Triple(frames[i].num, frames[j].num, frames[k].num)
              && (forall i2, j2, k2 :: 0 <= i2 < i ==> !Prompt(frames, server, client, i2, j2, k2))
              && (forall k2 :: j < k2 < k ==> !IsAck(frames[i], frames[j], frames[k2]))
  {
    for i := 0 to |frames|
      invariant forall i2, j2, k2 :: 0 <= i2 < i ==> !Prompt(frames, server, client, i2, j2, k2)
    {
      var syn := frames[i];
      if IsSyn(syn, server, client) {
        var j := i + 1;
        while j < |frames| && !IsSynAck(syn, frames[j])
          invariant i < j <= |frames| && forall o :: i < o < j ==> !IsSynAck(syn, frames[o])
        {
          j := j + 1;
        }
        if j < |frames| {
          for k := j + 1 to |frames|
            invariant forall k2 :: j < k2 < k ==> !IsAck(syn, frames[j], frames[k2])
          {
            if IsAck(syn, frames[j], frames[k]) {
              assert Prompt(frames, server, client, i, j, k);
              return Some(Triple(syn.num, frames[j].num, frames[k].num));
            }
          }
        }
        assert forall j2 :: FirstAnswer(frames, i, j2) && IsSynAck(syn, frames[j2]) ==> j2 == j;
      }
    }
    return None;
  }

  // ----- the check of a student's answer -----

  datatype Verdict = Verdict(syn: bool, synAck: bool, ack: bool, relation: bool)

  /** A SYN-ACK on the reverse of the stream of `syn`, and a plain, empty ACK on that stream */
  predicate AnswersStream(syn: Frame, f: Frame) {
    f.flags.syn && f.flags.ack && f.stream == syn.stream.Reverse()
  }

  predicate FollowsStream(syn: Frame, f: Frame) {
    f.flags.ack && !f.flags.syn && f.stream == syn.stream && f.payload == 0
  }

  /** Each answer of the verdict, from the first frames with the three numbers */
  method HandshakeFramesOk(frames: seq<Frame>, t: Triple, server: Server) returns (v: Verdict)
    ensures v.syn <==> exists i: nat :: Numbered(frames, t.syn, i) && IsSyn(frames[i], server, None)
    ensures v.synAck <==> exists i: nat, j: nat ::
              Numbered(frames, t.syn, i) && Numbered(frames, t.synAck, j) && AnswersStream(frames[i], frames[j])
    ensures v.ack <==> exists i: nat, k: nat ::
              Numbered(frames, t.syn, i) && Numbered(frames, t.ack, k) && FollowsStream(frames[i], frames[k])
    ensures v.relation <==> exists i: nat, j: nat, k: nat ::
              && Numbered(frames, t.syn, i) && Numbered(frames, t.synAck, j) && Numbered(frames, t.ack, k)
              && Consistent(frames, server, i, j, k)
  {
    hide Numbered, IsSyn, AnswersStream, FollowsStream, Consistent;
    var i := FrameByNumber(frames, t.syn);
    var j := FrameByNumber(frames, t.synAck);
    var k := FrameByNumber(frames, t.ack);
    OneNumbered(frames, t.syn, i);
    OneNumbered(frames, t.synAck, j);
    OneNumbered(frames, t.ack, k);
    v := Verdict(false, false, false, false);
    if i.Some? {
      var syn := frames[i.value];
      v := v.(syn := IsSyn(syn, server, None));
      if j.Some? {
        v := v.(synAck := AnswersStream(syn, frames[j.value]));
      }
      if k.Some? {
        v := v.(ack := FollowsStream(syn, frames[k.value]));
      }
      if v.syn && v.synAck && v.ack {
        var synAck, ack := frames[j.value], frames[k.value];
        v := v.(relation := && synAck.ackNum == Wrap(syn.seqNum + 1)
                            && ack.ackNum == Wrap(synAck.seqNum + 1) && ack.seqNum == Wrap(syn.seqNum + 1));
      }
      if j.Some? && k.Some? {
        ConsistentIs(frames, server, i.value, j.value, k.value);
      }
    }
  }

  /** The first frame with a number is the only one that a check sees. */
  lemma OneNumbered(frames: seq<Frame>, n: nat, r: Option<nat>)
    requires r.Some? ==> Numbered(frames, n, r.value)
    requires r.None? ==> forall j :: 0 <= j < |frames| ==> frames[j].num != n
    ensures forall i: nat :: Numbered(frames, n, i) <==> r == Some(i)
    ensures r.Some? ==> r.value < |frames|
  {
  }

  lemma ConsistentIs(frames: seq<Frame>, server: Server, i: nat, j: nat, k: nat)
    requires i < |frames| && j < |frames| && k < |frames|
    ensures Consistent(frames, server, i, j, k) <==>
      && IsSyn(frames[i], server, None)
      && AnswersStream(frames[i], frames[j]) && FollowsStream(frames[i], frames[k])
      && frames[j].ackNum == Wrap(frames[i].seqNum + 1)
      && frames[k].ackNum == Wrap(frames[j].seqNum + 1) && frames[k].seqNum == Wrap(frames[i].seqNum + 1)
  {
  }

  /** What the check accepts: the order of the frames does not count, and the ACK must be empty. */
  predicate Consistent(frames: seq<Frame>, server: Server, i: nat, j: nat, k: nat)
    requires i < |frames| && j < |frames| && k < |frames|
  {
    && IsSyn(frames[i], server, None) && IsSynAck(frames[i], frames[j]) && IsAck(frames[i], frames[j], frames[k])
    && frames[k].payload == 0
  }

  /** The check accepts a handshake that the search returned, unless its ACK carries data. */
  lemma FoundIsAccepted(frames: seq<Frame>, server: Server, client: Option<string>, i: nat, j: nat, k: nat)
    requires Increasing(frames) && Prompt(frames, server, client, i, j, k)
    ensures Numbered(frames, frames[i].num, i) && Numbered(frames, frames[j].num, j) && Numbered(frames, frames[k].num, k)
    ensures Consistent(frames, server, i, j, k) <==> frames[k].payload == 0
  {
  }

  /** A handshake that the search returns and the check refuses: the ACK carries a byte. */
  lemma DataAckIsRefused(frames: seq<Frame>, s: Stream, server: Server)
    requires var syn := Flags(false, true, false, false);
             var both := Flags(false, true, false, true);
             var ack := Flags(false, false, false, true);
             frames == [Frame(1, s, 0, 0, syn, 9, 0), Frame(2, s.Reverse(), 100, 1, both, 9, 0), Frame(3, s, 1, 101, ack, 9, 1)]
    requires server == Server(Some(s.dstIp), Some(s.dstPort))
    ensures Increasing(frames) && Prompt(frames, server, None, 0, 1, 2) && !Consistent(frames, server, 0, 1, 2)
  {
    assert Handshake(frames, server, None, 0, 1, 2);
  }

  /** The first answer to the SYN of a handshake */
  lemma FirstAnswerExists(frames: seq<Frame>, server: Server, client: Option<string>, i: int, j: int, k: int) returns (j1: int)
    requires Handshake(frames, server, client, i, j, k)
    ensures i < j1 <= j && FirstAnswer(frames, i, j1) && IsSynAck(frames[i], frames[j1])
  {
    j1 := i + 1;
    while !IsSynAck(frames[i], frames[j1])
      invariant i < j1 <= j && forall o :: i < o < j1 ==> !IsSynAck(frames[i], frames[o])
      decreases j - j1
    {
      j1 := j1 + 1;
    }
  }

  /** The search goes on to the ACK of a handshake exactly when the first answer to its SYN has the
      number of the answer that the client acknowledges. */
  lemma MissedExactly(frames: seq<Frame>, server: Server, client: Option<string>, i: int, j: int, k: int) returns (j1: int)
    requires Handshake(frames, server, client, i, j, k)
    ensures FirstAnswer(frames, i, j1) && IsSynAck(frames[i], frames[j1])
    ensures (exists j2 :: Prompt(frames, server, client, i, j2, k)) <==> frames[j1].seqNum == frames[j].seqNum
  {
    j1 := FirstAnswerExists(frames, server, client, i, j, k);
    if frames[j1].seqNum == frames[j].seqNum {
      assert Prompt(frames, server, client, i, j1, k);
    }
    if j2 :| Prompt(frames, server, client, i, j2, k) {
      assert j2 == j1;
      SameSuccessor(frames[j1].seqNum, frames[j].seqNum);
    }
  }

  lemma SameSuccessor(a: Seq32, b: Seq32)
    requires Wrap(a + 1) == Wrap(b + 1)
    ensures a == b
  {
  }

  /** For a whole capture: the search finds a handshake if and only if there is one whose client
      acknowledges the number of the first answer. */
  lemma FoundExactly(frames: seq<Frame>, server: Server, client: Option<string>)
    ensures (exists i, j, k :: Prompt(frames, server, client, i, j, k)) <==>
            exists i, j, k, j1 ::
              && Handshake(frames, server, client, i, j, k)
              && FirstAnswer(frames, i, j1) && IsSynAck(frames[i], frames[j1])
              && frames[j1].seqNum == frames[j].seqNum
  {
    if i, j, k :| Prompt(frames, server, client, i, j, k) {
      assert Handshake(frames, server, client, i, j, k) && FirstAnswer(frames, i, j) && IsSynAck(frames[i], frames[j]);
    }
    if i, j, k, j1 :| && Handshake(frames, server, client, i, j, k)
                      && FirstAnswer(frames, i, j1) && IsSynAck(frames[i], frames[j1])
                      && frames[j1].seqNum == frames[j].seqNum {
      var first := MissedExactly(frames, server, client, i, j, k);
      assert first == j1;
    }
  }

  /** It can miss one: a server that answers again with another number, and the client
      that acknowledges the second answer. */
  lemma RestartedIsMissed(frames: seq<Frame>, s: Stream, server: Server)
    requires var syn := Flags(false, true, false, false);
             var both := Flags(false, true, false, true);
             var ack := Flags(false, false, false, true);
             frames == [Frame(1, s, 0, 0, syn, 9, 0), Frame(2, s.Reverse(), 100, 1, both, 9, 0),
                        Frame(3, s.Reverse(), 200, 1, both, 9, 0), Frame(4, s, 1, 201, ack, 9, 0)]
    requires server == Server(Some(s.dstIp), Some(s.dstPort))
    ensures Handshake(frames, server, None, 0, 2, 3)
    ensures forall i, j, k :: !Prompt(frames, server, None, i, j, k)
  {
    assert Handshake(frames, server, None, 0, 2, 3);
    assert IsSynAck(frames[0], frames[1]);
  }
}
