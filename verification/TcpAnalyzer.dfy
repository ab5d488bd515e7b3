/**
 The streaming analyzer of network_analyzer/analysis/tcp_analyzer.py: one object
 whose fields are rewritten packet by packet. `Valid` ties every field to the
 packets observed so far, and `Result` reports exactly `TcpTrace.Metrics`.
 */
module TcpAnalysis {
  import opened Wrappers
  import opened Intervals
  import opened Sequences
  import opened TcpTrace

  type Marker = (Direction, int, ControlKind)

  function Lookup<K, V>(m: map<K, V>, k: K): Option<V> {
    if k in m then Some(m[k]) else None
  }

  function ListOf(covered: map<Direction, seq<Interval>>, k: Direction): seq<Interval> {
    if k in covered then covered[k] else []
  }

  // ----- What each field means -----

  ghost predicate BaseMatches(baseSeq: map<Direction, Word>, h: Trace) {
    forall k :: Lookup(baseSeq, k) == Base(h, k)
  }

  ghost predicate ListMatches(ivs: seq<Interval>, h: Trace, k: Direction) {
    Canonical(ivs) && Bytes(ivs) == SeenBytes(h, k)
  }

  ghost predicate CoveredMatches(covered: map<Direction, seq<Interval>>, h: Trace) {
    forall k :: ListMatches(ListOf(covered, k), h, k)
  }

  /** The frontier of a direction is its smallest missing byte at or after its first data byte. */
  ghost predicate FrontierOf(n: Option<int>, h: Trace, k: Direction) {
    match FirstData(h, k)
    case None => n.None?
    case Some(first) => n.Some? && IsFirstMissing(SeenBytes(h, k), first, n.value)
  }

  ghost predicate FrontierMatches(nextExpected: map<Direction, int>, h: Trace) {
    forall k :: FrontierOf(Lookup(nextExpected, k), h, k)
  }

  function AsPeerAck(ack: Option<Word>, base: Option<Word>): PeerAck {
    if ack.None? then NoAck
    else if base.None? then Unanchored(ack.value)
    else Acked(Rel(ack.value, base.value))
  }

  ghost predicate AckMatches(peerAckAbs: map<Direction, Word>, h: Trace) {
    forall k :: AsPeerAck(Lookup(peerAckAbs, k), Base(h, k)) == PeerAckOf(h, k)
  }

  predicate MarksControl(p: Packet, base: Option<Word>, marker: Marker) {
    && IsControl(p) && p.tcp.value.dir == marker.0 && KindOf(p.tcp.value) == marker.2
    && base.Some? && Rel(p.tcp.value.seqNo, base.value) == marker.1
  }

  ghost predicate ControlMatches(seenControl: set<Marker>, h: Trace) {
    forall m :: m in seenControl <==> exists i :: 0 <= i < |h| && MarksControl(h[i], Base(h, m.0), m)
  }

  ghost predicate SynsMatch(pendingSyns: map<SynKey, real>, h: Trace) {
    forall key ::
      && (key in pendingSyns <==> IsOpen(h, key))
      && (key in pendingSyns ==> pendingSyns[key] == OpenSince(h, key))
  }

  ghost predicate StreamFieldsMatch(baseSeq: map<Direction, Word>, covered: map<Direction, seq<Interval>>,
                                    nextExpected: map<Direction, int>, seenControl: set<Marker>, h: Trace) {
    && BaseMatches(baseSeq, h)
    && CoveredMatches(covered, h)
    && FrontierMatches(nextExpected, h)
    && ControlMatches(seenControl, h)
  }

  ghost predicate CountFieldsMatch(retransmissions: nat, outOfOrder: nat, spurious: nat, h: Trace) {
    && retransmissions == Judged(h, Retransmission)
    && outOfOrder == Judged(h, OutOfOrder)
    && spurious == Judged(h, Spurious)
  }

  // ----- One more packet -----

  lemma BaseSnoc(h: Trace, p: Packet, k: Direction)
    ensures Base(h + [p], k)
         == if Base(h, k).Some? then Base(h, k) else if Sends(p, k) then Some(p.tcp.value.seqNo) else None
  {
  }

  lemma SeenSnoc(h: Trace, p: Packet, k: Direction)
    ensures SeenBytes(h + [p], k) == SeenBytes(h, k) + Payload(h, p, k)
  {
  }

  lemma FirstSnoc(h: Trace, p: Packet, k: Direction)
    ensures FirstData(h + [p], k)
         == if FirstData(h, k).Some? then FirstData(h, k)
            else if SendsData(p, k) then Some(RelSeq(h, p.tcp.value)) else None
  {
  }

  lemma AckSnoc(h: Trace, p: Packet, k: Direction)
    ensures PeerAckOf(h + [p], k)
         == Anchored(if Acknowledges(p, k) then Noted(PeerAckOf(h, k), Base(h, k), p.tcp.value.ack)
                     else PeerAckOf(h, k), Base(h + [p], k))
  {
  }

  lemma JudgedSnoc(h: Trace, p: Packet, v: Verdict)
    ensures Judged(h + [p], v) == Judged(h, v) + (if Judge(h, p) == v then 1 else 0)
  {
  }

  lemma CountersSnoc(h: Trace, p: Packet)
    ensures ZeroWindows(h + [p]) == ZeroWindows(h) + (if IsZeroWindow(p) then 1 else 0)
    ensures Resets(h + [p]) == Resets(h) + (if IsReset(p) then 1 else 0)
  {
  }

  /** Without a first data segment no byte of the direction has been seen. */
  lemma {:induction false} NothingBeforeFirst(h: Trace, k: Direction)
    ensures FirstData(h, k).None? ==> SeenBytes(h, k) == {}
    ensures FirstData(h, k).Some? ==> Base(h, k).Some?
  {
    if h == [] {
    } else {
      NothingBeforeFirst(Front(h), k);
    }
  }

  lemma RelInjective(a: Word, b: Word, base: Word)
    ensures Rel(a, base) == Rel(b, base) <==> a == b
  {
  }

  /** A direction with a packet has a base. */
  lemma {:induction false} SenderHasBase(h: Trace, i: nat, k: Direction)
    requires i < |h| && Sends(h[i], k)
    ensures Base(h, k).Some?
  {
    if i == |h| - 1 {
    } else {
      SenderHasBase(Front(h), i, k);
    }
  }

  lemma {:induction false} UnanchoredHasNoBase(h: Trace, k: Direction)
    ensures PeerAckOf(h, k).Unanchored? ==> Base(h, k).None?
    ensures PeerAckOf(h, k).Acked? ==> Base(h, k).Some?
  {
    if h == [] {
    } else {
      UnanchoredHasNoBase(Front(h), k);
    }
  }

  /** An unanchored acknowledgment is the largest of the early ones. */
  lemma {:induction false} UnanchoredIsLargest(h: Trace, d: Direction)
    ensures Base(h, d).None? && EarlyAcks(h, d) != {} ==> PeerAckOf(h, d).Unanchored?
    ensures PeerAckOf(h, d).Unanchored? ==> PeerAckOf(h, d).ack in EarlyAcks(h, d)
    ensures PeerAckOf(h, d).Unanchored? ==> forall x :: x in EarlyAcks(h, d) ==> x <= PeerAckOf(h, d).ack
  {
    if h == [] {
    } else {
      UnanchoredIsLargest(Front(h), d);
      UnanchoredHasNoBase(Front(h), d);
      UnanchoredHasNoBase(h, d);
    }
  }


  /** An acknowledgment that counts: any since the base was known, and the largest before. */
  ghost predicate Counts(h: Trace, k: Direction, x: Word) {
    || x in LateAcks(h, k)
    || (x in EarlyAcks(h, k) && forall y :: y in EarlyAcks(h, k) ==> y <= x)
  }

  ghost predicate IsHighest(h: Trace, k: Direction, base: Word, rel: int) {
    && (exists x: Word :: Counts(h, k, x) && Rel(x, base) == rel)
    && (forall x: Word :: Counts(h, k, x) ==> Rel(x, base) <= rel)
  }

  /** With a base, the peer's acknowledgment is the highest relative number of those that count. */
  lemma {:induction false} PeerAckIsHighest(h: Trace, k: Direction)
    ensures PeerAckOf(h, k).NoAck? <==> EarlyAcks(h, k) == {} && LateAcks(h, k) == {}
    ensures Base(h, k).None? ==> LateAcks(h, k) == {}
    ensures PeerAckOf(h, k).Acked? <==> Base(h, k).Some? && EarlyAcks(h, k) + LateAcks(h, k) != {}
    ensures PeerAckOf(h, k).Acked? ==> IsHighest(h, k, Base(h, k).value, PeerAckOf(h, k).rel)
  {
    UnanchoredIsLargest(h, k);
    UnanchoredHasNoBase(h, k);
    if h == [] {
    } else {
      PeerAckIsHighest(Front(h), k);
      UnanchoredIsLargest(Front(h), k);
      UnanchoredHasNoBase(Front(h), k);
    }
  }

  lemma AckStep(acks: Option<Word>, h: Trace, p: Packet, k: Direction)
    requires AsPeerAck(acks, Base(h, k)) == PeerAckOf(h, k)
    ensures !Acknowledges(p, k) ==> AsPeerAck(acks, Base(h + [p], k)) == PeerAckOf(h + [p], k)
    ensures Acknowledges(p, k) ==> AsPeerAck(Some(BetterAck(acks, Base(h, k), p.tcp.value.ack)), Base(h + [p], k))
                                   == PeerAckOf(h + [p], k)
  {
  }

  function BetterAck(previous: Option<Word>, base: Option<Word>, ack: Word): Word {
    if previous.None? then ack
    else if base.None? then (if ack > previous.value then ack else previous.value)
    else if Rel(ack, base.value) > Rel(previous.value, base.value) then ack
    else previous.value
  }

  lemma BasesSnoc(baseSeq: map<Direction, Word>, h: Trace, p: Packet)
    requires BaseMatches(baseSeq, h)
    ensures (forall k :: !Sends(p, k)) ==> BaseMatches(baseSeq, h + [p])
    ensures p.tcp.Some? ==> BaseMatches(
      if p.tcp.value.dir in baseSeq then baseSeq else baseSeq[p.tcp.value.dir := p.tcp.value.seqNo], h + [p])
  {
    forall k ensures Base(h + [p], k)
      == if Base(h, k).Some? then Base(h, k) else if Sends(p, k) then Some(p.tcp.value.seqNo) else None
    {
      BaseSnoc(h, p, k);
      assert Lookup(baseSeq, k) == Base(h, k);
    }
  }

  lemma {:induction false} AcksSnoc(acks: map<Direction, Word>, h: Trace, p: Packet)
    requires AckMatches(acks, h)
    ensures (forall k :: !Acknowledges(p, k)) ==> AckMatches(acks, h + [p])
    ensures p.tcp.Some? && p.tcp.value.ackFlag ==>
      var k := p.tcp.value.dir.Reply();
      AckMatches(acks[k := BetterAck(Lookup(acks, k), Base(h, k), p.tcp.value.ack)], h + [p])
  {
    forall k
      ensures !Acknowledges(p, k) ==> AsPeerAck(Lookup(acks, k), Base(h + [p], k)) == PeerAckOf(h + [p], k)
      ensures Acknowledges(p, k) ==>
        AsPeerAck(Some(BetterAck(Lookup(acks, k), Base(h, k), p.tcp.value.ack)), Base(h + [p], k))
        == PeerAckOf(h + [p], k)
    {
      assert AsPeerAck(Lookup(acks, k), Base(h, k)) == PeerAckOf(h, k);
      AckStep(Lookup(acks, k), h, p, k);
    }
  }

  // ----- Bytes and frontiers after one more packet -----

  /** A packet without payload leaves the byte streams alone. */
  lemma NoPayload(h: Trace, p: Packet, covered: map<Direction, seq<Interval>>, nextExpected: map<Direction, int>)
    requires forall k :: !SendsData(p, k)
    requires CoveredMatches(covered, h) && FrontierMatches(nextExpected, h)
    ensures CoveredMatches(covered, h + [p]) && FrontierMatches(nextExpected, h + [p])
  {
  }

  /** Data changes one direction only. */
  lemma CoveredFrame(h: Trace, p: Packet, before: map<Direction, seq<Interval>>, list: seq<Interval>)
    requires p.tcp.Some? && CoveredMatches(before, h)
    requires ListMatches(list, h + [p], p.tcp.value.dir)
    ensures CoveredMatches(before[p.tcp.value.dir := list], h + [p])
  {
    var after := before[p.tcp.value.dir := list];
    forall k ensures ListMatches(ListOf(after, k), h + [p], k) {
      if k != p.tcp.value.dir {
        assert ListMatches(ListOf(before, k), h, k);
        SeenSnoc(h, p, k);
      }
    }
  }

  lemma FrontierFrame(h: Trace, p: Packet, before: map<Direction, int>, next: int)
    requires p.tcp.Some? && FrontierMatches(before, h)
    requires FrontierOf(Some(next), h + [p], p.tcp.value.dir)
    ensures FrontierMatches(before[p.tcp.value.dir := next], h + [p])
  {
    var after := before[p.tcp.value.dir := next];
    forall k ensures FrontierOf(Lookup(after, k), h + [p], k) {
      if k != p.tcp.value.dir {
        assert FrontierOf(Lookup(before, k), h, k);
        SeenSnoc(h, p, k);
        FirstSnoc(h, p, k);
      }
    }
  }

  /** Bytes seen before move neither the set nor the frontier. */
  lemma SeenBefore(h: Trace, p: Packet, k: Direction, next: Option<int>)
    requires SendsData(p, k)
    requires Payload(h, p, k) <= SeenBytes(h, k)
    requires FrontierOf(next, h, k)
    ensures SeenBytes(h + [p], k) == SeenBytes(h, k)
    ensures next.Some? && FrontierOf(next, h + [p], k)
  {
    SeenSnoc(h, p, k);
    FirstSnoc(h, p, k);
    NothingBeforeFirst(h, k);
    assert RelSeq(h, p.tcp.value) in Payload(h, p, k);
  }

  /** The frontier found by advancing from the old one is the first missing byte. */
  lemma FrontierAdvances(h: Trace, p: Packet, k: Direction, previous: Option<int>, from: int, next: int)
    requires SendsData(p, k)
    requires FrontierOf(previous, h, k)
    requires from == if previous.Some? then previous.value else RelSeq(h, p.tcp.value)
    requires IsFirstMissing(SeenBytes(h + [p], k), from, next)
    ensures FrontierOf(Some(next), h + [p], k)
  {
  }

  /** Comparing with the frontier decides whether a segment is ahead of a gap. */
  lemma GapJudgement(h: Trace, k: Direction, start: int, n: int)
    requires FirstData(h, k).None? ==> n == start
    requires FirstData(h, k).Some? ==> IsFirstMissing(SeenBytes(h, k), FirstData(h, k).value, n)
    ensures start > n <==> AheadOfGap(h, k, start)
  {
    if FirstData(h, k).Some? {
      var first := FirstData(h, k).value;
      if start > n {
        assert IsGap(SeenBytes(h, k), first, start, n);
      }
      if AheadOfGap(h, k, start) {
        var b :| IsGap(SeenBytes(h, k), first, start, b);
        assert b !in Range(first, n);
      }
    }
  }

  /** A resend of bytes seen before: the streams stay, and the peer's acknowledgment decides. */
  lemma DataSeenBefore(h: Trace, p: Packet, covered: map<Direction, seq<Interval>>, next: map<Direction, int>)
    requires p.tcp.Some? && p.tcp.value.payload > 0
    requires Payload(h, p, p.tcp.value.dir) <= SeenBytes(h, p.tcp.value.dir)
    requires CoveredMatches(covered, h) && FrontierMatches(next, h)
    ensures CoveredMatches(covered[p.tcp.value.dir := ListOf(covered, p.tcp.value.dir)], h + [p])
    ensures FrontierMatches(next, h + [p])
    ensures var ack := PeerAckOf(h + [p], p.tcp.value.dir);
      Judge(h, p) == if ack.Acked? && ack.rel >= RelSeq(h, p.tcp.value) + p.tcp.value.payload
                     then Spurious else Retransmission
  {
    var key := p.tcp.value.dir;
    assert ListMatches(ListOf(covered, key), h, key);
    assert FrontierOf(Lookup(next, key), h, key);
    SeenBefore(h, p, key, Lookup(next, key));
    CoveredFrame(h, p, covered, ListOf(covered, key));
    FrontierFrame(h, p, next, next[key]);
    assert next == next[key := next[key]];
  }

  /** New bytes: overlap means retransmission, a gap before them means out of order. */
  lemma NewDataJudgement(h: Trace, p: Packet, next: map<Direction, int>, n: int)
    requires p.tcp.Some? && p.tcp.value.payload > 0
    requires !(Payload(h, p, p.tcp.value.dir) <= SeenBytes(h, p.tcp.value.dir))
    requires FrontierMatches(next, h)
    requires n == if p.tcp.value.dir in next then next[p.tcp.value.dir] else RelSeq(h, p.tcp.value)
    ensures Judge(h, p) == if Payload(h, p, p.tcp.value.dir) * SeenBytes(h, p.tcp.value.dir) != {} then Retransmission
                           else if RelSeq(h, p.tcp.value) > n then OutOfOrder else Fresh
  {
    assert FrontierOf(Lookup(next, p.tcp.value.dir), h, p.tcp.value.dir);
    GapJudgement(h, p.tcp.value.dir, RelSeq(h, p.tcp.value), n);
  }

  lemma NewDataRecorded(h: Trace, p: Packet, covered: map<Direction, seq<Interval>>, next: map<Direction, int>,
                        merged: seq<Interval>, from: int, to: int)
    requires p.tcp.Some? && p.tcp.value.payload > 0
    requires CoveredMatches(covered, h) && FrontierMatches(next, h)
    requires Canonical(merged)
    requires Bytes(merged) == SeenBytes(h, p.tcp.value.dir) + Payload(h, p, p.tcp.value.dir)
    requires from == if p.tcp.value.dir in next then next[p.tcp.value.dir] else RelSeq(h, p.tcp.value)
    requires IsFirstMissing(Bytes(merged), from, to)
    ensures CoveredMatches(covered[p.tcp.value.dir := merged], h + [p])
    ensures FrontierMatches(next[p.tcp.value.dir := to], h + [p])
  {
    var key := p.tcp.value.dir;
    SeenSnoc(h, p, key);
    assert FrontierOf(Lookup(next, key), h, key);
    FrontierAdvances(h, p, key, Lookup(next, key), from, to);
    CoveredFrame(h, p, covered, merged);
    FrontierFrame(h, p, next, to);
  }

  // ----- Control segments -----

  lemma ControlSnoc(h: Trace, p: Packet, seen: set<Marker>)
    requires ControlMatches(seen, h)
    ensures !IsControl(p) ==> ControlMatches(seen, h + [p])
    ensures IsControl(p) ==> ControlMatches(seen + {MarkerOf(h, p)}, h + [p])
  {
    var seen' := if IsControl(p) then seen + {MarkerOf(h, p)} else seen;
    var h' := h + [p];
    forall m ensures m in seen' <==> exists i :: 0 <= i < |h'| && MarksControl(h'[i], Base(h', m.0), m) {
      BaseSnoc(h, p, m.0);
      forall i | 0 <= i < |h|
        ensures MarksControl(h[i], Base(h, m.0), m) <==> MarksControl(h'[i], Base(h', m.0), m)
      {
        if Sends(h[i], m.0) { SenderHasBase(h, i, m.0); }
      }
      if m in seen {
        var i :| 0 <= i < |h| && MarksControl(h[i], Base(h, m.0), m);
        assert MarksControl(h'[i], Base(h', m.0), m);
      } else if m in seen' {
        assert MarksControl(h'[|h|], Base(h', m.0), m);
      }
    }
  }

  function MarkerOf(h: Trace, p: Packet): Marker
    requires IsControl(p)
  {
    (p.tcp.value.dir, RelSeq(h, p.tcp.value), KindOf(p.tcp.value))
  }

  /** Looking a marker up decides whether the same SYN or FIN was seen before. */
  lemma ControlJudgement(h: Trace, p: Packet, seen: set<Marker>)
    requires IsControl(p) && ControlMatches(seen, h)
    ensures MarkerOf(h, p) in seen <==> ControlSeen(h, p.tcp.value)
  {
    var s, m := p.tcp.value, MarkerOf(h, p);
    forall i | 0 <= i < |h| ensures MarksControl(h[i], Base(h, m.0), m) <==> SameControl(h[i], s) {
      if Sends(h[i], m.0) {
        SenderHasBase(h, i, m.0);
        RelInjective(h[i].tcp.value.seqNo, s.seqNo, Base(h, m.0).value);
      }
    }
    if m in seen {
      var i :| 0 <= i < |h| && MarksControl(h[i], Base(h, m.0), m);
      assert SameControl(h[i], s);
    }
    if ControlSeen(h, s) {
      var i :| 0 <= i < |h| && SameControl(h[i], s);
      assert MarksControl(h[i], Base(h, m.0), m);
    }
  }

  // ----- Open handshakes -----

  lemma OpenUnique(h: Trace, key: SynKey, i: int, j: int)
    requires OpenedBy(h, key, i) && OpenedBy(h, key, j)
    ensures i == j
  {
  }

  /** When no SYN with this key is open, each one has been answered. */
  lemma {:induction false} ClosedMeansAnswered(h: Trace, key: SynKey, j: int)
    requires 0 <= j < |h| && IsSyn(h[j], key)
    requires !IsOpen(h, key)
    ensures AnsweredBetween(h, key, j, |h|)
    decreases j
  {
    if !AnsweredBetween(h, key, j, |h|) {
      forall i | 0 <= i < j && IsSyn(h[i], key) ensures AnsweredBetween(h, key, i, j) {
        ClosedMeansAnswered(h, key, i);
        var m :| i < m < |h| && Answers(h[m], key);
        assert m < j;
      }
      assert OpenedBy(h, key, j);
    }
  }

  lemma OpenedSnoc(h: Trace, p: Packet, key: SynKey, i: int)
    requires 0 <= i < |h|
    ensures OpenedBy(h + [p], key, i) <==> OpenedBy(h, key, i) && !Answers(p, key)
  {
    var h' := h + [p];
    forall j | 0 <= j < i ensures AnsweredBetween(h', key, j, i) == AnsweredBetween(h, key, j, i) {
      assert forall m :: j < m < i ==> h'[m] == h[m];
    }
    assert h'[|h|] == p;
    if OpenedBy(h', key, i) {
      assert forall j :: i < j < |h| ==> h'[j] == h[j];
      forall j | 0 <= j < i && IsSyn(h[j], key) ensures AnsweredBetween(h, key, j, i) {
        assert h'[j] == h[j];
      }
    }
  }

  /** A SYN opens its key unless it is open already; an answer closes it. */
  lemma OpenSnoc(h: Trace, p: Packet, key: SynKey)
    ensures IsOpen(h + [p], key) <==> IsSyn(p, key) || (IsOpen(h, key) && !Answers(p, key))
    ensures IsOpen(h + [p], key)
      ==> OpenSince(h + [p], key) == if IsOpen(h, key) then OpenSince(h, key) else p.timestamp
  {
    var h' := h + [p];
    forall i | 0 <= i < |h| ensures OpenedBy(h', key, i) <==> OpenedBy(h, key, i) && !Answers(p, key) {
      OpenedSnoc(h, p, key, i);
    }
    if IsOpen(h, key) {
      var i :| OpenedBy(h, key, i);
      forall j | OpenedBy(h, key, j) ensures j == i { OpenUnique(h, key, i, j); }
      forall j | OpenedBy(h', key, j) && OpenedBy(h', key, i) ensures j == i { OpenUnique(h', key, i, j); }
      assert IsSyn(p, key) ==> OpenedBy(h', key, i);
    } else if IsSyn(p, key) {
      forall j | 0 <= j < |h| && IsSyn(h'[j], key) ensures AnsweredBetween(h', key, j, |h|) {
        ClosedMeansAnswered(h, key, j);
        var m :| j < m < |h| && Answers(h[m], key);
        assert Answers(h'[m], key);
      }
      assert OpenedBy(h', key, |h|);
    }
  }

  /** Neither SYN nor SYN-ACK: nothing opens or closes. */
  lemma NoSynSnoc(pending: map<SynKey, real>, h: Trace, p: Packet)
    requires SynsMatch(pending, h) && (p.tcp.None? || !p.tcp.value.syn)
    ensures SynsMatch(pending, h + [p])
  {
    forall key ensures (key in pending <==> IsOpen(h + [p], key))
      && (key in pending ==> pending[key] == OpenSince(h + [p], key))
    {
      OpenSnoc(h, p, key);
    }
  }

  lemma SynSnoc(pending: map<SynKey, real>, h: Trace, p: Packet, key: SynKey)
    requires SynsMatch(pending, h) && IsSyn(p, key)
    ensures SynsMatch(if key in pending then pending else pending[key := p.timestamp], h + [p])
  {
    var pending' := if key in pending then pending else pending[key := p.timestamp];
    forall k ensures (k in pending' <==> IsOpen(h + [p], k))
      && (k in pending' ==> pending'[k] == OpenSince(h + [p], k))
    {
      OpenSnoc(h, p, k);
    }
  }

  lemma SynAckSnoc(pending: map<SynKey, real>, h: Trace, p: Packet)
    requires SynsMatch(pending, h) && IsSynAck(p)
    ensures SynsMatch(pending - {AnsweredKey(p)}, h + [p])
  {
    var pending' := pending - {AnsweredKey(p)};
    forall k ensures (k in pending' <==> IsOpen(h + [p], k))
      && (k in pending' ==> pending'[k] == OpenSince(h + [p], k))
    {
      OpenSnoc(h, p, k);
    }
  }

  // ----- The analyzer -----

  class TcpAnalyzer {
    var pendingSyns: map<SynKey, real>
    var rttSamples: seq<real>
    var baseSeq: map<Direction, Word>
    var covered: map<Direction, seq<Interval>>
    var nextExpected: map<Direction, int>
    var peerAckAbs: map<Direction, Word>
    var seenControl: set<Marker>
    var retransmissionCount: nat
    var outOfOrderCount: nat
    var spuriousCount: nat
    var zeroWindowCount: nat
    var resetCount: nat

    /** The packets observed so far. */
    ghost var trace: Trace

    ghost predicate Valid()
      reads this
    {
      Reflects(trace)
    }

    ghost predicate Reflects(h: Trace)
      reads this
    {
      StreamsReflect(h) && HandshakesReflect(h) && FlagsReflect(h)
    }

    ghost predicate FlagsReflect(h: Trace)
      reads this`zeroWindowCount, this`resetCount
    {
      zeroWindowCount == ZeroWindows(h) && resetCount == Resets(h)
    }

    ghost predicate HandshakesReflect(h: Trace)
      reads this`pendingSyns, this`rttSamples
    {
      SynsMatch(pendingSyns, h) && rttSamples == Samples(h)
    }

    ghost predicate StreamsReflect(h: Trace)
      reads this`baseSeq, this`covered, this`nextExpected, this`seenControl, this`peerAckAbs
      reads this`retransmissionCount, this`outOfOrderCount, this`spuriousCount
    {
      StreamsMatch(h) && AckMatches(peerAckAbs, h) && CountsMatch(h)
    }

    ghost predicate StreamsMatch(h: Trace)
      reads this`baseSeq, this`covered, this`nextExpected, this`seenControl
    {
      StreamFieldsMatch(baseSeq, covered, nextExpected, seenControl, h)
    }

    ghost predicate CountsMatch(h: Trace)
      reads this`retransmissionCount, this`outOfOrderCount, this`spuriousCount
    {
      CountFieldsMatch(retransmissionCount, outOfOrderCount, spuriousCount, h)
    }

    /** A packet that is not TCP changes nothing. */
    lemma IdlePacket(h: Trace, p: Packet)
      requires p.tcp.None? && Reflects(h)
      ensures Reflects(h + [p])
    {
      CountersSnoc(h, p);
      Snoc(h, p);
      BasesSnoc(baseSeq, h, p);
      AcksSnoc(peerAckAbs, h, p);
      NoPayload(h, p, covered, nextExpected);
      ControlSnoc(h, p, seenControl);
      NoSynSnoc(pendingSyns, h, p);
      JudgedSnoc(h, p, Retransmission);
      JudgedSnoc(h, p, OutOfOrder);
      JudgedSnoc(h, p, Spurious);
    }

    constructor ()
      ensures Valid()
      ensures trace == []
    {
      pendingSyns, rttSamples, baseSeq, covered := map[], [], map[], map[];
      nextExpected, peerAckAbs, seenControl := map[], map[], {};
      retransmissionCount, outOfOrderCount, spuriousCount := 0, 0, 0;
      zeroWindowCount, resetCount := 0, 0;
      trace := [];
    }

    /** `observe` */
    method Observe(p: Packet)
      requires Valid()
      modifies this
      ensures Valid()
      ensures trace == old(trace) + [p]
    {
      if p.tcp.None? {
        IdlePacket(trace, p);
      } else {
        ObserveSegment(trace, p);
      }
      trace := trace + [p];
    }

    /** The part of `observe` that a TCP packet reaches. */
    method ObserveSegment(ghost h: Trace, p: Packet)
      requires p.tcp.Some?
      requires FlagsReflect(h) && HandshakesReflect(h) && StreamsReflect(h)
      modifies this
      ensures FlagsReflect(h + [p]) && HandshakesReflect(h + [p]) && StreamsReflect(h + [p])
      ensures trace == old(trace)
    {
      ObserveConnection(h, p);
      ObserveStreams(h, p);
    }

    /** Flags, window and handshake: what does not depend on the byte streams. */
    method ObserveConnection(ghost h: Trace, p: Packet)
      requires p.tcp.Some?
      requires FlagsReflect(h) && HandshakesReflect(h)
      modifies this`zeroWindowCount, this`resetCount, this`pendingSyns, this`rttSamples
      ensures FlagsReflect(h + [p]) && HandshakesReflect(h + [p])
    {
      ObserveFlags(h, p);
      ObserveHandshake(h, p);
    }

    method ObserveFlags(ghost h: Trace, p: Packet)
      requires p.tcp.Some?
      requires FlagsReflect(h)
      modifies this`zeroWindowCount, this`resetCount
      ensures FlagsReflect(h + [p])
    {
      CountersSnoc(h, p);
      if p.tcp.value.rst {
        resetCount := resetCount + 1;
      }
      ObserveZeroWindow(p.tcp.value);
    }

    method ObserveStreams(ghost h: Trace, p: Packet)
      requires p.tcp.Some?
      requires StreamsReflect(h)
      modifies this`baseSeq, this`covered, this`nextExpected, this`seenControl, this`peerAckAbs
      modifies this`retransmissionCount, this`outOfOrderCount, this`spuriousCount
      ensures StreamsReflect(h + [p])
    {
      NotePeerAck(h, p);
      ObserveRetransmission(h, p);
    }

    /** `result` */
    method Result() returns (m: TcpMetrics)
      requires Valid()
      ensures m == Metrics(trace)
    {
      m := TcpMetrics(MeanMs(rttSamples), |rttSamples|, retransmissionCount, outOfOrderCount,
                      spuriousCount, zeroWindowCount, resetCount);
    }

    /** `_observe_zero_window` */
    method ObserveZeroWindow(s: Segment)
      modifies this`zeroWindowCount
      ensures zeroWindowCount
           == old(zeroWindowCount) + (if s.window == 0 && !s.syn && !s.rst then 1 else 0)
    {
      if s.window == 0 && !s.syn && !s.rst {
        zeroWindowCount := zeroWindowCount + 1;
      }
    }

    /** `_observe_handshake` */
    method ObserveHandshake(ghost h: Trace, p: Packet)
      requires p.tcp.Some?
      requires HandshakesReflect(h)
      modifies this`pendingSyns, this`rttSamples
      ensures HandshakesReflect(h + [p])
    {
      Snoc(h, p);
      var s := p.tcp.value;
      if !s.syn {
        NoSynSnoc(pendingSyns, h, p);
        return;
      }
      if !s.ackFlag {
        SynSnoc(pendingSyns, h, p, (s.dir, s.seqNo));
        if (s.dir, s.seqNo) !in pendingSyns {
          pendingSyns := pendingSyns[(s.dir, s.seqNo) := p.timestamp];
        }
        return;
      }
      SynAckSnoc(pendingSyns, h, p);
      var key: SynKey := (s.dir.Reply(), Rel(s.ack, 1));
      if key !in pendingSyns {
        assert pendingSyns - {key} == pendingSyns;
        return;
      }
      var synTimestamp := pendingSyns[key];
      pendingSyns := pendingSyns - {key};
      var elapsed := p.timestamp - synTimestamp;
      if elapsed < 0.0 {
        return;
      }
      rttSamples := rttSamples + [elapsed];
    }

    /** `_note_peer_ack` */
    method NotePeerAck(ghost h: Trace, p: Packet)
      requires p.tcp.Some?
      requires BaseMatches(baseSeq, h) && AckMatches(peerAckAbs, h)
      modifies this`peerAckAbs
      ensures AckMatches(peerAckAbs, h + [p])
    {
      var s := p.tcp.value;
      AcksSnoc(peerAckAbs, h, p);
      assert Lookup(baseSeq, s.dir.Reply()) == Base(h, s.dir.Reply());
      assert peerAckAbs == if s.dir.Reply() in peerAckAbs
                           then peerAckAbs[s.dir.Reply() := peerAckAbs[s.dir.Reply()]] else peerAckAbs;
      if !s.ackFlag {
        return;
      }
      var dataKey := s.dir.Reply();
      if dataKey !in peerAckAbs {
        peerAckAbs := peerAckAbs[dataKey := s.ack];
        return;
      }
      var previous := peerAckAbs[dataKey];
      if dataKey !in baseSeq {
        if s.ack > previous {
          peerAckAbs := peerAckAbs[dataKey := s.ack];
        }
        return;
      }
      var base := baseSeq[dataKey];
      if Rel(s.ack, base) > Rel(previous, base) {
        peerAckAbs := peerAckAbs[dataKey := s.ack];
      }
    }

    /** `_observe_retransmission` */
    method ObserveRetransmission(ghost h: Trace, p: Packet)
      requires p.tcp.Some?
      requires StreamsMatch(h) && CountsMatch(h) && AckMatches(peerAckAbs, h + [p])
      modifies this`baseSeq, this`covered, this`nextExpected, this`seenControl
      modifies this`retransmissionCount, this`outOfOrderCount, this`spuriousCount
      ensures StreamsMatch(h + [p]) && CountsMatch(h + [p])
    {
      var s := p.tcp.value;
      var relativeSeq := RelativeSeq(h, p);
      JudgedSnoc(h, p, Retransmission);
      JudgedSnoc(h, p, OutOfOrder);
      JudgedSnoc(h, p, Spurious);
      ControlSnoc(h, p, seenControl);
      if s.payload > 0 {
        ObserveDataSegment(h, p, relativeSeq);
        return;
      }
      NoPayload(h, p, covered, nextExpected);
      if s.syn || s.fin {
        var marker := (s.dir, relativeSeq, if s.syn then SYN else FIN);
        ControlJudgement(h, p, seenControl);
        if marker in seenControl {
          retransmissionCount := retransmissionCount + 1;
        } else {
          seenControl := seenControl + {marker};
        }
      }
    }

    /** `_relative_seq` */
    method RelativeSeq(ghost h: Trace, p: Packet) returns (rel: int)
      requires p.tcp.Some? && BaseMatches(baseSeq, h)
      modifies this`baseSeq
      ensures BaseMatches(baseSeq, h + [p])
      ensures rel == RelSeq(h, p.tcp.value)
      ensures p.tcp.value.dir in baseSeq && rel == Rel(p.tcp.value.seqNo, baseSeq[p.tcp.value.dir])
    {
      BasesSnoc(baseSeq, h, p);
      assert Lookup(baseSeq, p.tcp.value.dir) == Base(h, p.tcp.value.dir);
      var s := p.tcp.value;
      if s.dir !in baseSeq {
        baseSeq := baseSeq[s.dir := s.seqNo];
      }
      rel := Rel(s.seqNo, baseSeq[s.dir]);
    }

    /** `_observe_data_segment` */
    method ObserveDataSegment(ghost h: Trace, p: Packet, start: int)
      requires p.tcp.Some? && p.tcp.value.payload > 0 && start == RelSeq(h, p.tcp.value)
      requires CoveredMatches(covered, h) && FrontierMatches(nextExpected, h)
      requires BaseMatches(baseSeq, h + [p]) && AckMatches(peerAckAbs, h + [p])
      modifies this`covered, this`nextExpected
      modifies this`retransmissionCount, this`outOfOrderCount, this`spuriousCount
      ensures CoveredMatches(covered, h + [p]) && FrontierMatches(nextExpected, h + [p])
      ensures retransmissionCount
           == old(retransmissionCount) + (if Judge(h, p) == Retransmission then 1 else 0)
      ensures outOfOrderCount == old(outOfOrderCount) + (if Judge(h, p) == OutOfOrder then 1 else 0)
      ensures spuriousCount == old(spuriousCount) + (if Judge(h, p) == Spurious then 1 else 0)
    {
      var key, end := p.tcp.value.dir, start + p.tcp.value.payload;
      ghost var covered0, next0 := covered, nextExpected;
      var list := ListOf(covered, key);
      assert ListMatches(list, h, key);
      covered := covered[key := list];
      var full := FullyCovered(list, start, end);
      if full {
        DataSeenBefore(h, p, covered0, next0);
        var acked := PeerHasAckedThrough(h + [p], key, end);
        if acked {
          spuriousCount := spuriousCount + 1;
        } else {
          retransmissionCount := retransmissionCount + 1;
        }
        return;
      }
      if key !in nextExpected {
        nextExpected := nextExpected[key := start];
      }
      CountNewData(h, p, start, list, next0);
      RecordNewData(h, p, start, covered0, next0);
    }

    /** The counter that new data moves, if any. */
    method CountNewData(ghost h: Trace, p: Packet, start: int, list: seq<Interval>, ghost next0: map<Direction, int>)
      requires p.tcp.Some? && p.tcp.value.payload > 0 && start == RelSeq(h, p.tcp.value)
      requires ListMatches(list, h, p.tcp.value.dir) && FrontierMatches(next0, h)
      requires !(Payload(h, p, p.tcp.value.dir) <= SeenBytes(h, p.tcp.value.dir))
      requires nextExpected == if p.tcp.value.dir in next0 then next0 else next0[p.tcp.value.dir := start]
      modifies this`retransmissionCount, this`outOfOrderCount
      ensures Judge(h, p) != Spurious
      ensures retransmissionCount
           == old(retransmissionCount) + (if Judge(h, p) == Retransmission then 1 else 0)
      ensures outOfOrderCount == old(outOfOrderCount) + (if Judge(h, p) == OutOfOrder then 1 else 0)
    {
      var overlaps := Overlaps(list, start, start + p.tcp.value.payload);
      NewDataJudgement(h, p, next0, nextExpected[p.tcp.value.dir]);
      if overlaps {
        retransmissionCount := retransmissionCount + 1;
      } else if start > nextExpected[p.tcp.value.dir] {
        outOfOrderCount := outOfOrderCount + 1;
      }
    }

    /** The last two steps of `_observe_data_segment`: merge the range, advance the frontier. */
    method RecordNewData(ghost h: Trace, p: Packet, start: int,
                         ghost covered0: map<Direction, seq<Interval>>, ghost next0: map<Direction, int>)
      requires p.tcp.Some? && p.tcp.value.payload > 0 && start == RelSeq(h, p.tcp.value)
      requires CoveredMatches(covered0, h) && FrontierMatches(next0, h)
      requires covered == covered0[p.tcp.value.dir := ListOf(covered0, p.tcp.value.dir)]
      requires nextExpected == if p.tcp.value.dir in next0 then next0 else next0[p.tcp.value.dir := start]
      modifies this`covered, this`nextExpected
      ensures CoveredMatches(covered, h + [p]) && FrontierMatches(nextExpected, h + [p])
    {
      var key, end := p.tcp.value.dir, start + p.tcp.value.payload;
      assert ListMatches(ListOf(covered0, key), h, key);
      var merged := MergeInterval(covered[key], start, end);
      covered := covered[key := merged];
      ghost var from := nextExpected[key];
      AdvanceNextExpected(key);
      NewDataRecorded(h, p, covered0, next0, merged, from, nextExpected[key]);
      assert covered == covered0[key := merged];
      assert nextExpected == next0[key := nextExpected[key]];
    }

    /** `_peer_has_acked_through` */
    method PeerHasAckedThrough(ghost h: Trace, key: Direction, relativeEnd: int) returns (acked: bool)
      requires BaseMatches(baseSeq, h) && AckMatches(peerAckAbs, h)
      ensures acked <==> PeerAckOf(h, key).Acked? && PeerAckOf(h, key).rel >= relativeEnd
    {
      assert Lookup(baseSeq, key) == Base(h, key);
      assert AsPeerAck(Lookup(peerAckAbs, key), Base(h, key)) == PeerAckOf(h, key);
      if key !in peerAckAbs || key !in baseSeq {
        return false;
      }
      return Rel(peerAckAbs[key], baseSeq[key]) >= relativeEnd;
    }

    /** `_advance_next_expected` */
    method AdvanceNextExpected(key: Direction)
      requires key in covered && key in nextExpected && Canonical(covered[key])
      modifies this`nextExpected
      ensures key in nextExpected && nextExpected == old(nextExpected)[key := nextExpected[key]]
      ensures IsFirstMissing(Bytes(covered[key]), old(nextExpected[key]), nextExpected[key])
    {
      var ivs, next := covered[key], nextExpected[key];
      BytesMembers(ivs);
      var i := 0;
      while i < |ivs| && ivs[i].lo <= next
        invariant 0 <= i <= |ivs|
        invariant old(nextExpected[key]) <= next
        invariant Range(old(nextExpected[key]), next) <= Bytes(ivs)
        invariant forall j :: 0 <= j < i ==> ivs[j].hi <= next
      {
        if ivs[i].hi > next {
          forall b | next <= b < ivs[i].hi ensures b in Bytes(ivs) {
            assert Within(ivs, i, b);
          }
          next := ivs[i].hi;
        }
        i := i + 1;
      }
      assert forall j :: !Within(ivs, j, next);
      nextExpected := nextExpected[key := next];
    }
  }
}
