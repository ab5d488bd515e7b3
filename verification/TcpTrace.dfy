/**
 What the TCP metrics of network_analyzer/analysis/tcp_analyzer.py mean.

 Every quantity is a function of the packets seen so far: the bytes of a
 direction are a set, a segment is judged by inclusion and intersection with that
 set, and nothing here keeps intervals, frontiers or tables.
 */
module TcpTrace {
  import opened Wrappers
  import opened Intervals
  import opened Sequences

  const SEQ_SPACE: int := 0x1_0000_0000

  type Word = x: int | 0 <= x < SEQ_SPACE

  /** One direction of one flow. */
  datatype Direction = Direction(srcIp: string, srcPort: nat, dstIp: string, dstPort: nat) {
    function Reply(): Direction {
      Direction(dstIp, dstPort, srcIp, srcPort)
    }
  }

  datatype Segment = Segment(
    dir: Direction, seqNo: Word, ack: Word, window: nat, payload: nat,
    syn: bool, ackFlag: bool, fin: bool, rst: bool)

  datatype Packet = Packet(timestamp: real, tcp: Option<Segment>)

  type Trace = seq<Packet>

  /** Sequence distance from `base`, modulo the 32-bit sequence space. */
  function Rel(seqNo: int, base: int): (r: int)
    ensures 0 <= r < SEQ_SPACE
  {
    (seqNo - base) % SEQ_SPACE
  }

  // ----- Base, bytes and acknowledgments of a direction -----

  predicate Sends(p: Packet, k: Direction) {
    p.tcp.Some? && p.tcp.value.dir == k
  }

  predicate SendsData(p: Packet, k: Direction) {
    Sends(p, k) && p.tcp.value.payload > 0
  }

  predicate Acknowledges(p: Packet, k: Direction) {
    p.tcp.Some? && p.tcp.value.ackFlag && p.tcp.value.dir.Reply() == k
  }

  /** The sequence number of the first segment seen in direction `k`. */
  function Base(h: Trace, k: Direction): Option<Word> {
    if h == [] then None
    else if Base(Front(h), k).Some? then Base(Front(h), k)
    else if Sends(Last(h), k) then Some(Last(h).tcp.value.seqNo)
    else None
  }

  /** Relative sequence number of a segment arriving after `h`. */
  function RelSeq(h: Trace, s: Segment): int {
    match Base(h, s.dir)
    case Some(b) => Rel(s.seqNo, b)
    case None => 0
  }

  /** The bytes a packet arriving after `h` carries in direction `k`. */
  ghost function Payload(h: Trace, p: Packet, k: Direction): set<int> {
    if SendsData(p, k)
    then Range(RelSeq(h, p.tcp.value), RelSeq(h, p.tcp.value) + p.tcp.value.payload)
    else {}
  }

  /** All bytes seen in direction `k`. */
  ghost function SeenBytes(h: Trace, k: Direction): set<int> {
    if h == [] then {} else SeenBytes(Front(h), k) + Payload(Front(h), Last(h), k)
  }

  /** Where the first data segment of direction `k` began. */
  function FirstData(h: Trace, k: Direction): Option<int> {
    if h == [] then None
    else if FirstData(Front(h), k).Some? then FirstData(Front(h), k)
    else if SendsData(Last(h), k) then Some(RelSeq(Front(h), Last(h).tcp.value))
    else None
  }

  /**
   How far the peer has acknowledged a direction. Without a base, absolute
   numbers are compared; with one, only relative numbers are.
   */
  datatype PeerAck = NoAck | Unanchored(ack: Word) | Acked(rel: int)

  function Noted(a: PeerAck, base: Option<Word>, ack: Word): PeerAck {
    match a
    case NoAck => if base.None? then Unanchored(ack) else Acked(Rel(ack, base.value))
    case Unanchored(x) => Unanchored(if ack > x then ack else x)
    case Acked(r) => if base.Some? then Acked(Max(r, Rel(ack, base.value))) else a
  }

  function Anchored(a: PeerAck, base: Option<Word>): PeerAck {
    if a.Unanchored? && base.Some? then Acked(Rel(a.ack, base.value)) else a
  }

  /** The highest acknowledgment of direction `k` seen so far. */
  function PeerAckOf(h: Trace, k: Direction): PeerAck {
    if h == [] then NoAck
    else
      var before := PeerAckOf(Front(h), k);
      var noted := if Acknowledges(Last(h), k)
                   then Noted(before, Base(Front(h), k), Last(h).tcp.value.ack) else before;
      Anchored(noted, Base(h, k))
  }

  /** The numbers acknowledged for direction `k` before its first segment. */
  ghost function EarlyAcks(h: Trace, k: Direction): set<Word> {
    if h == [] then {}
    else if Acknowledges(Last(h), k) && Base(Front(h), k).None?
    then EarlyAcks(Front(h), k) + {Last(h).tcp.value.ack}
    else EarlyAcks(Front(h), k)
  }

  /** The numbers acknowledged for direction `k` once it had a base. */
  ghost function LateAcks(h: Trace, k: Direction): set<Word> {
    if h == [] then {}
    else if Acknowledges(Last(h), k) && Base(Front(h), k).Some?
    then LateAcks(Front(h), k) + {Last(h).tcp.value.ack}
    else LateAcks(Front(h), k)
  }

  // ----- Judging a segment -----

  datatype Verdict = Fresh | Retransmission | Spurious | OutOfOrder

  datatype ControlKind = SYN | FIN

  predicate IsControl(p: Packet) {
    p.tcp.Some? && p.tcp.value.payload == 0 && (p.tcp.value.syn || p.tcp.value.fin)
  }

  function KindOf(s: Segment): ControlKind {
    if s.syn then SYN else FIN
  }

  predicate SameControl(p: Packet, s: Segment) {
    && IsControl(p) && p.tcp.value.dir == s.dir
    && p.tcp.value.seqNo == s.seqNo && KindOf(p.tcp.value) == KindOf(s)
  }

  predicate ControlSeen(h: Trace, s: Segment) {
    exists i :: 0 <= i < |h| && SameControl(h[i], s)
  }

  predicate IsGap(seen: set<int>, first: int, lo: int, b: int) {
    first <= b < lo && b !in seen
  }

  /** Is some byte still missing between the first data byte and `lo`? */
  ghost predicate AheadOfGap(h: Trace, k: Direction, lo: int) {
    FirstData(h, k).Some? && exists b :: IsGap(SeenBytes(h, k), FirstData(h, k).value, lo, b)
  }

  /** What a packet arriving after `h` is. */
  ghost function Judge(h: Trace, p: Packet): Verdict {
    if p.tcp.None? then Fresh
    else
      var s := p.tcp.value;
      var seen, data := SeenBytes(h, s.dir), Payload(h, p, s.dir);
      if s.payload > 0 then
        if data <= seen then
          var ack := PeerAckOf(h + [p], s.dir);
          if ack.Acked? && ack.rel >= RelSeq(h, s) + s.payload then Spurious else Retransmission
        else if data * seen != {} then Retransmission
        else if AheadOfGap(h, s.dir, RelSeq(h, s)) then OutOfOrder
        else Fresh
      else if IsControl(p) && ControlSeen(h, s) then Retransmission
      else Fresh
  }

  /** How many packets of the trace were judged `v`. */
  ghost function Judged(h: Trace, v: Verdict): nat {
    if h == [] then 0
    else Judged(Front(h), v) + (if Judge(Front(h), Last(h)) == v then 1 else 0)
  }

  // ----- Window, reset and handshake -----

  predicate IsZeroWindow(p: Packet) {
    p.tcp.Some? && p.tcp.value.window == 0 && !p.tcp.value.syn && !p.tcp.value.rst
  }

  predicate IsReset(p: Packet) {
    p.tcp.Some? && p.tcp.value.rst
  }

  function ZeroWindows(h: Trace): nat {
    if h == [] then 0 else ZeroWindows(Front(h)) + (if IsZeroWindow(Last(h)) then 1 else 0)
  }

  function Resets(h: Trace): nat {
    if h == [] then 0 else Resets(Front(h)) + (if IsReset(Last(h)) then 1 else 0)
  }

  type SynKey = (Direction, Word)

  predicate IsSyn(p: Packet, key: SynKey) {
    && p.tcp.Some? && p.tcp.value.syn && !p.tcp.value.ackFlag
    && (p.tcp.value.dir, p.tcp.value.seqNo) == key
  }

  predicate IsSynAck(p: Packet) {
    p.tcp.Some? && p.tcp.value.syn && p.tcp.value.ackFlag
  }

  function AnsweredKey(p: Packet): SynKey
    requires IsSynAck(p)
  {
    (p.tcp.value.dir.Reply(), Rel(p.tcp.value.ack, 1))
  }

  predicate Answers(p: Packet, key: SynKey) {
    IsSynAck(p) && AnsweredKey(p) == key
  }

  /**
   Packet `i` is the earliest SYN with this direction and sequence number that
   no SYN-ACK has answered by the end of the trace.
   */
  ghost predicate OpenedBy(h: Trace, key: SynKey, i: int) {
    && 0 <= i < |h| && IsSyn(h[i], key)
    && (forall j :: i < j < |h| ==> !Answers(h[j], key))
    && (forall j :: 0 <= j < i && IsSyn(h[j], key) ==> AnsweredBetween(h, key, j, i))
  }

  ghost predicate AnsweredBetween(h: Trace, key: SynKey, from: int, to: int) {
    exists m :: from < m < to && 0 <= m < |h| && Answers(h[m], key)
  }

  ghost predicate IsOpen(h: Trace, key: SynKey) {
    exists i :: OpenedBy(h, key, i)
  }

  /** When the earliest unanswered SYN with this key was sent. */
  ghost function OpenSince(h: Trace, key: SynKey): real
    requires IsOpen(h, key)
  {
    var i :| OpenedBy(h, key, i);
    h[i].timestamp
  }

  /** A SYN-ACK arriving after `h` that finds a SYN to answer. */
  ghost predicate Completes(h: Trace, p: Packet) {
    IsSynAck(p) && IsOpen(h, AnsweredKey(p))
  }

  ghost function Elapsed(h: Trace, p: Packet): real
    requires Completes(h, p)
  {
    p.timestamp - OpenSince(h, AnsweredKey(p))
  }

  /** The handshake times measured so far; a negative one is discarded. */
  ghost function Samples(h: Trace): seq<real> {
    if h == [] then []
    else if Completes(Front(h), Last(h)) && Elapsed(Front(h), Last(h)) >= 0.0
    then Samples(Front(h)) + [Elapsed(Front(h), Last(h))]
    else Samples(Front(h))
  }

  function Sum(xs: seq<real>): real {
    if xs == [] then 0.0 else Sum(xs[..|xs| - 1]) + xs[|xs| - 1]
  }

  // ----- The report -----

  datatype TcpMetrics = TcpMetrics(
    rttHandshakeMs: Option<real>,
    handshakeSampleCount: nat,
    retransmissionCount: nat,
    outOfOrderCount: nat,
    spuriousRetransmissionCount: nat,
    zeroWindowCount: nat,
    tcpResetCount: nat)

  function MeanMs(samples: seq<real>): Option<real> {
    if samples == [] then None else Some(Sum(samples) / |samples| as real * 1000.0)
  }

  ghost function Metrics(h: Trace): TcpMetrics {
    TcpMetrics(
      MeanMs(Samples(h)), |Samples(h)|,
      Judged(h, Retransmission), Judged(h, OutOfOrder), Judged(h, Spurious),
      ZeroWindows(h), Resets(h))
  }
}
