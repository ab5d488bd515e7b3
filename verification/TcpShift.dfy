/**
 Initial sequence numbers are arbitrary (section 3.4 of RFC 9293), so a capture
 should be judged the same whatever a direction's initial sequence number was.
 This module proves exactly when that is so: the ACKs answering the direction
 that were seen before its first segment must all carry the same number.
 */
module TcpShift {
  import opened Wrappers
  import opened Sequences
  import opened TcpTrace
  import opened TcpAnalysis

  function Add(x: int, c: int): Word { (x + c) % SEQ_SPACE }

  /** Renumber direction `d`: its sequence numbers, and the ACK numbers answering it. */
  function ShiftPacket(p: Packet, d: Direction, c: int): Packet {
    if p.tcp.None? then p
    else
      var s := p.tcp.value;
      p.(tcp := Some(s.(
        seqNo := if s.dir == d then Add(s.seqNo, c) else s.seqNo,
        ack := if s.dir.Reply() == d then Add(s.ack, c) else s.ack)))
  }

  function Shift(h: Trace, d: Direction, c: int): (r: Trace)
    ensures |r| == |h| && forall i :: 0 <= i < |h| ==> r[i] == ShiftPacket(h[i], d, c)
  {
    seq(|h|, i requires 0 <= i < |h| => ShiftPacket(h[i], d, c))
  }

  ghost predicate EarlyAcksAgree(h: Trace, d: Direction) {
    forall x, y :: x in EarlyAcks(h, d) && y in EarlyAcks(h, d) ==> x == y
  }

  // ----- Modular arithmetic -----

  lemma ModShift(x: int, m: int, k: int)
    requires m > 0
    ensures (x + k * m) % m == x % m
  {
    var q, r := x / m, x % m;
    var q', r' := (x + k * m) / m, (x + k * m) % m;
    assert m * (q' - q - k) == r - r';
    if q' - q - k >= 1 { MulAtLeast(m, q' - q - k); }
    if q' - q - k <= -1 { MulAtLeast(m, -(q' - q - k)); }
  }

  lemma MulAtLeast(m: int, n: int)
    requires m > 0 && n >= 1
    ensures m * n >= m
  {
  }

  lemma AddRel(x: int, b: int, c: int)
    ensures Rel(Add(x, c), Add(b, c)) == Rel(x, b)
    ensures Rel(Add(x, c), b) == Add(Rel(x, b), c)
  {
    var qx, qb := (x + c) / SEQ_SPACE, (b + c) / SEQ_SPACE;
    assert Add(x, c) == x + c - qx * SEQ_SPACE && Add(b, c) == b + c - qb * SEQ_SPACE;
    ModShift(x - b, SEQ_SPACE, qb - qx);
    ModShift(x - b + c, SEQ_SPACE, -qx);
    ModShift(x - b + c, SEQ_SPACE, -((x - b) / SEQ_SPACE));
  }

  lemma AddInjective(x: Word, y: Word, c: int)
    ensures Add(x, c) == Add(y, c) <==> x == y
  {
  }

  // ----- How each quantity moves -----

  function MoveIf(x: Word, move: bool, c: int): Word { if move then Add(x, c) else x }

  lemma ShiftFront(h: Trace, d: Direction, c: int)
    requires h != []
    ensures Front(Shift(h, d, c)) == Shift(Front(h), d, c)
    ensures Last(Shift(h, d, c)) == ShiftPacket(Last(h), d, c)
  {
  }

  lemma ShiftSnoc(h: Trace, p: Packet, d: Direction, c: int)
    ensures Shift(h + [p], d, c) == Shift(h, d, c) + [ShiftPacket(p, d, c)]
  {
  }

  function MovedBase(b: Option<Word>, move: bool, c: int): Option<Word> {
    match b
    case None => None
    case Some(x) => Some(MoveIf(x, move, c))
  }

  lemma {:induction false} BaseShift(h: Trace, k: Direction, d: Direction, c: int)
    ensures Base(Shift(h, d, c), k) == MovedBase(Base(h, k), k == d, c)
  {
    if h == [] {
    } else {
      ShiftFront(h, d, c);
      BaseShift(Front(h), k, d, c);
    }
  }

  lemma RelSeqShift(h: Trace, p: Packet, d: Direction, c: int)
    requires p.tcp.Some?
    ensures RelSeq(Shift(h, d, c), ShiftPacket(p, d, c).tcp.value) == RelSeq(h, p.tcp.value)
  {
    BaseShift(h, p.tcp.value.dir, d, c);
    if Base(h, p.tcp.value.dir).Some? {
      AddRel(p.tcp.value.seqNo, Base(h, p.tcp.value.dir).value, c);
    }
  }

  lemma PayloadShift(h: Trace, p: Packet, k: Direction, d: Direction, c: int)
    ensures Payload(Shift(h, d, c), ShiftPacket(p, d, c), k) == Payload(h, p, k)
  {
    if p.tcp.Some? { RelSeqShift(h, p, d, c); }
  }

  lemma {:induction false} SeenShift(h: Trace, k: Direction, d: Direction, c: int)
    ensures SeenBytes(Shift(h, d, c), k) == SeenBytes(h, k)
    ensures FirstData(Shift(h, d, c), k) == FirstData(h, k)
  {
    if h == [] {
    } else {
      ShiftFront(h, d, c);
      SeenShift(Front(h), k, d, c);
      PayloadShift(Front(h), Last(h), k, d, c);
      if Last(h).tcp.Some? { RelSeqShift(Front(h), Last(h), d, c); }
    }
  }

  function MovedAck(a: PeerAck, move: bool, c: int): PeerAck {
    if a.Unanchored? then Unanchored(MoveIf(a.ack, move, c)) else a
  }

  lemma {:induction false} AckShift(h: Trace, k: Direction, d: Direction, c: int)
    requires k == d ==> EarlyAcksAgree(h, d)
    ensures PeerAckOf(Shift(h, d, c), k) == MovedAck(PeerAckOf(h, k), k == d, c)
  {
    if h == [] {
    } else {
      var f, p := Front(h), Last(h);
      assert h == f + [p];
      EarlyAcksGrow(f, [p], d);
      AckShift(f, k, d, c);
      ShiftFront(h, d, c);
      BaseShift(f, k, d, c);
      BaseShift(h, k, d, c);
      UnanchoredIsLargest(f, d);
      UnanchoredHasNoBase(f, k);
      if Acknowledges(p, k) {
        if Base(f, k).Some? { AddRel(p.tcp.value.ack, Base(f, k).value, c); }
        if Base(h, k).Some? { AddRel(p.tcp.value.ack, Base(h, k).value, c); }
      }
      if PeerAckOf(f, k).Unanchored? && Base(h, k).Some? {
        AddRel(PeerAckOf(f, k).ack, Base(h, k).value, c);
      }
    }
  }

  lemma ControlShift(h: Trace, p: Packet, d: Direction, c: int)
    requires p.tcp.Some?
    ensures ControlSeen(Shift(h, d, c), ShiftPacket(p, d, c).tcp.value) <==> ControlSeen(h, p.tcp.value)
  {
  }

  lemma JudgeShift(h: Trace, p: Packet, d: Direction, c: int)
    requires Sends(p, d) ==> EarlyAcksAgree(h + [p], d)
    ensures Judge(Shift(h, d, c), ShiftPacket(p, d, c)) == Judge(h, p)
  {
    if p.tcp.Some? {
      var k := p.tcp.value.dir;
      RelSeqShift(h, p, d, c);
      PayloadShift(h, p, k, d, c);
      SeenShift(h, k, d, c);
      ControlShift(h, p, d, c);
      ShiftSnoc(h, p, d, c);
      AckShift(h + [p], k, d, c);
    }
  }

  lemma {:induction false} EarlyAcksGrow(h: Trace, t: Trace, d: Direction)
    ensures EarlyAcks(h, d) <= EarlyAcks(h + t, d)
    ensures Base(h, d).Some? ==> EarlyAcks(h, d) == EarlyAcks(h + t, d) && Base(h + t, d).Some?
  {
    if t == [] {
      assert h + t == h;
    } else {
      EarlyAcksGrow(h, Front(t), d);
      assert h + t == (h + Front(t)) + [Last(t)];
      Snoc(h + Front(t), Last(t));
    }
  }

  lemma {:induction false} JudgedShift(h: Trace, d: Direction, c: int, v: Verdict)
    requires Base(h, d).None? || EarlyAcksAgree(h, d)
    ensures Judged(Shift(h, d, c), v) == Judged(h, v)
  {
    if h == [] {
    } else {
      ShiftFront(h, d, c);
      assert h == Front(h) + [Last(h)];
      EarlyAcksGrow(Front(h), [Last(h)], d);
      JudgedShift(Front(h), d, c, v);
      JudgeShift(Front(h), Last(h), d, c);
    }
  }

  // ----- Handshakes, windows and resets -----

  function MovedKey(key: SynKey, d: Direction, c: int): SynKey {
    (key.0, MoveIf(key.1, key.0 == d, c))
  }

  lemma SynShift(p: Packet, key: SynKey, d: Direction, c: int)
    ensures IsSyn(ShiftPacket(p, d, c), MovedKey(key, d, c)) <==> IsSyn(p, key)
    ensures Answers(ShiftPacket(p, d, c), MovedKey(key, d, c)) <==> Answers(p, key)
    ensures IsSynAck(p) ==>
      IsSynAck(ShiftPacket(p, d, c)) && AnsweredKey(ShiftPacket(p, d, c)) == MovedKey(AnsweredKey(p), d, c)
  {
    if p.tcp.Some? {
      AddInjective(p.tcp.value.seqNo, key.1, c);
      AddRel(p.tcp.value.ack, 1, c);
      AddInjective(Rel(p.tcp.value.ack, 1), key.1, c);
    }
  }

  lemma OpenedShift(h: Trace, key: SynKey, i: int, d: Direction, c: int)
    ensures OpenedBy(Shift(h, d, c), MovedKey(key, d, c), i) <==> OpenedBy(h, key, i)
  {
    var h', key' := Shift(h, d, c), MovedKey(key, d, c);
    forall j | 0 <= j < |h|
      ensures IsSyn(h'[j], key') <==> IsSyn(h[j], key)
      ensures Answers(h'[j], key') <==> Answers(h[j], key)
    {
      SynShift(h[j], key, d, c);
    }
    forall from, to ensures AnsweredBetween(h', key', from, to) <==> AnsweredBetween(h, key, from, to) {
      if AnsweredBetween(h, key, from, to) {
        var m :| from < m < to && 0 <= m < |h| && Answers(h[m], key);
        assert Answers(h'[m], key');
      }
    }
  }

  lemma OpenShift(h: Trace, key: SynKey, d: Direction, c: int)
    ensures IsOpen(Shift(h, d, c), MovedKey(key, d, c)) <==> IsOpen(h, key)
    ensures IsOpen(h, key) ==> OpenSince(Shift(h, d, c), MovedKey(key, d, c)) == OpenSince(h, key)
  {
    var h', key' := Shift(h, d, c), MovedKey(key, d, c);
    forall i ensures OpenedBy(h', key', i) <==> OpenedBy(h, key, i) { OpenedShift(h, key, i, d, c); }
    if IsOpen(h, key) {
      var i :| OpenedBy(h, key, i);
      forall j | OpenedBy(h, key, j) ensures i == j { OpenUnique(h, key, i, j); }
      assert h'[i].timestamp == h[i].timestamp;
    }
  }

  lemma {:induction false} FlagsShift(h: Trace, d: Direction, c: int)
    ensures ZeroWindows(Shift(h, d, c)) == ZeroWindows(h)
    ensures Resets(Shift(h, d, c)) == Resets(h)
  {
    if h == [] {
    } else {
      ShiftFront(h, d, c);
      FlagsShift(Front(h), d, c);
    }
  }

  /** A SYN-ACK completes the same handshake, after the same time. */
  lemma CompletesShift(h: Trace, p: Packet, d: Direction, c: int)
    ensures Completes(Shift(h, d, c), ShiftPacket(p, d, c)) <==> Completes(h, p)
    ensures Completes(h, p) ==> Elapsed(Shift(h, d, c), ShiftPacket(p, d, c)) == Elapsed(h, p)
  {
    if IsSynAck(p) {
      SynShift(p, AnsweredKey(p), d, c);
      OpenShift(h, AnsweredKey(p), d, c);
    }
  }

  lemma {:induction false} SamplesShift(h: Trace, d: Direction, c: int)
    ensures Samples(Shift(h, d, c)) == Samples(h)
  {
    if h == [] {
    } else {
      ShiftFront(h, d, c);
      SamplesShift(Front(h), d, c);
      CompletesShift(Front(h), Last(h), d, c);
    }
  }

  // ----- The theorem, and the traces that need its condition -----

  /** Renumbering a direction whose early ACKs agree changes no metric. */
  lemma ShiftInvariance(h: Trace, d: Direction, c: int)
    requires EarlyAcksAgree(h, d)
    ensures Metrics(Shift(h, d, c)) == Metrics(h)
  {
    FlagsShift(h, d, c);
    SamplesShift(h, d, c);
    JudgedShift(h, d, c, Retransmission);
    JudgedShift(h, d, c, OutOfOrder);
    JudgedShift(h, d, c, Spurious);
  }

  /** Two copies of one byte of data starting at sequence number `a`. */
  function TwoBytes(d: Direction, a: Word): Trace {
    var s := Segment(d, a, 0, 1, 1, false, false, false, false);
    [Packet(0.0, Some(s)), Packet(0.0, Some(s))]
  }

  /** After the two copies the second is spurious exactly when `a` was acknowledged past. */
  lemma TwoBytesJudged(h: Trace, d: Direction, a: Word, x: Word)
    requires Base(h, d).None? && PeerAckOf(h, d) == Unanchored(x)
    ensures Judged(h + TwoBytes(d, a), Spurious) == Judged(h, Spurious) + (if x == a then 0 else 1)
  {
    var p := TwoBytes(d, a)[0];
    var h1 := h + [p];
    assert h + TwoBytes(d, a) == h1 + [p];
    BaseSnoc(h, p, d);
    BaseSnoc(h1, p, d);
    NoBaseNoBytes(h, d);
    SeenSnoc(h, p, d);
    AckSnoc(h, p, d);
    AckSnoc(h1, p, d);
    RelInjective(x, a, a);
    JudgedSnoc(h, p, Spurious);
    JudgedSnoc(h1, p, Spurious);
    assert Rel(a, a) == 0;
    assert 0 in Payload(h, p, d);
    assert Payload(h1, p, d) == Payload(h, p, d);
  }

  lemma {:induction false} NoBaseNoBytes(h: Trace, d: Direction)
    requires Base(h, d).None?
    ensures SeenBytes(h, d) == {}
  {
    if h == [] {
    } else {
      NoBaseNoBytes(Front(h), d);
    }
  }

  lemma {:induction false} EarlyAcksShift(h: Trace, d: Direction, c: int, x: Word)
    requires x in EarlyAcks(h, d)
    ensures Add(x, c) in EarlyAcks(Shift(h, d, c), d)
  {
    ShiftFront(h, d, c);
    BaseShift(Front(h), d, d, c);
    if x in EarlyAcks(Front(h), d) { EarlyAcksShift(Front(h), d, c, x); }
  }

  /** When early ACKs disagree, some continuation is judged differently after renumbering. */
  lemma DisagreementShows(h: Trace, d: Direction, x: Word, y: Word) returns (t: Trace, c: int)
    requires Base(h, d).None?
    requires x in EarlyAcks(h, d) && y in EarlyAcks(h, d) && x < y
    ensures t != [] && Sends(t[0], d)
    ensures Metrics(Shift(h + t, d, c)) != Metrics(h + t)
  {
    UnanchoredIsLargest(h, d);
    var top: int := PeerAckOf(h, d).ack;
    c := -top;
    t := TwoBytes(d, top);
    var h' := Shift(h, d, c);
    EarlyAcksShift(h, d, c, x);
    BaseShift(h, d, d, c);
    UnanchoredIsLargest(h', d);
    var top' := PeerAckOf(h', d).ack;
    assert Add(top, c) == 0 && Add(x, c) > 0;
    assert Shift(h + t, d, c) == h' + Shift(t, d, c);
    TwoBytesJudged(h, d, top, top);
    SelfFlowHasBase(h, d);
    assert Shift(t, d, c) == TwoBytes(d, 0);
    TwoBytesJudged(h', d, 0, top');
    JudgedShift(h, d, c, Spurious);
  }

  /** A flow from an endpoint to itself: whoever acknowledges it also sends in it. */
  lemma {:induction false} SelfFlowHasBase(h: Trace, d: Direction)
    requires EarlyAcks(h, d) != {} && Base(h, d).None?
    ensures d.Reply() != d
  {
    if d.Reply() == d {
      if EarlyAcks(Front(h), d) != {} { SelfFlowHasBase(Front(h), d); }
    }
  }

  lemma {:induction false} EarlyAcksEnd(h: Trace, t: Trace, d: Direction)
    requires t != [] && Sends(t[0], d) && Base(h, d).None?
    requires d.Reply() != d
    ensures EarlyAcks(h + t, d) == EarlyAcks(h, d)
  {
    assert h + t == (h + [t[0]]) + t[1..];
    Snoc(h, t[0]);
    EarlyAcksGrow(h + [t[0]], t[1..], d);
  }

  ghost predicate NumberingIrrelevant(h: Trace, d: Direction) {
    forall t, c :: t != [] && Sends(t[0], d) ==> Metrics(Shift(h + t, d, c)) == Metrics(h + t)
  }

  /**
   Before direction `d` has sent anything: its initial sequence number cannot
   change a metric, however the capture goes on, if and only if the ACKs
   answering it so far all carry the same number.
   */
  lemma SequenceSpaceInvariance(h: Trace, d: Direction)
    requires Base(h, d).None?
    ensures NumberingIrrelevant(h, d) <==> EarlyAcksAgree(h, d)
  {
    if EarlyAcksAgree(h, d) {
      forall t, c | t != [] && Sends(t[0], d) ensures Metrics(Shift(h + t, d, c)) == Metrics(h + t) {
        if d.Reply() != d {
          EarlyAcksEnd(h, t, d);
        } else {
          SelfFlow(h, t, d);
        }
        ShiftInvariance(h + t, d, c);
      }
    } else {
      var x, y :| x in EarlyAcks(h, d) && y in EarlyAcks(h, d) && x < y;
      var t, c := DisagreementShows(h, d, x, y);
    }
  }

  /** In a self flow at most one ACK comes before the base: the first segment's own. */
  lemma SelfFlow(h: Trace, t: Trace, d: Direction)
    requires t != [] && Sends(t[0], d) && Base(h, d).None?
    requires d.Reply() == d
    ensures EarlyAcksAgree(h + t, d)
  {
    if EarlyAcks(h, d) != {} {
      SelfFlowHasBase(h, d);
    } else {
      assert h + t == (h + [t[0]]) + t[1..];
      Snoc(h, t[0]);
      EarlyAcksGrow(h + [t[0]], t[1..], d);
    }
  }
}
