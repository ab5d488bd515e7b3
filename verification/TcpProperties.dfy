/**
 What holds of the TCP metrics over every capture: the analyzer's report is the
 declarative one, acknowledgments only advance, islands are paid for by
 out-of-order segments, and arrival order does not show in the interval lists.
 */
module TcpProperties {
  import opened Wrappers
  import opened Intervals
  import opened Sequences
  import opened TcpTrace
  import opened TcpAnalysis

  /** `analyze_capture`: feed every packet, then report. */
  method AnalyzeCapture(packets: Trace) returns (m: TcpMetrics)
    ensures m == Metrics(packets)
  {
    var analyzer := new TcpAnalyzer();
    ObserveAll(analyzer, packets);
    m := analyzer.Result();
  }

  /** The loop of `analyze_capture`. */
  method ObserveAll(analyzer: TcpAnalyzer, packets: Trace)
    requires analyzer.Valid() && analyzer.trace == []
    modifies analyzer
    ensures analyzer.Valid() && analyzer.trace == packets
  {
    for i := 0 to |packets|
      invariant analyzer.Valid() && analyzer.trace == packets[..i]
    {
      analyzer.Observe(packets[i]);
      TakeNext(packets, i);
    }
    assert packets[..|packets|] == packets;
  }

  // ----- Once a base is known -----

  lemma {:induction false} BaseStays(h: Trace, t: Trace, k: Direction)
    requires Base(h, k).Some?
    ensures Base(h + t, k) == Base(h, k)
  {
    if t == [] {
      assert h + t == h;
    } else {
      BaseStays(h, Front(t), k);
      assert h + t == (h + Front(t)) + [Last(t)];
      BaseSnoc(h + Front(t), Last(t), k);
    }
  }

  lemma {:induction false} SeenGrows(h: Trace, t: Trace, k: Direction)
    ensures SeenBytes(h, k) <= SeenBytes(h + t, k)
  {
    if t == [] {
      assert h + t == h;
    } else {
      SeenGrows(h, Front(t), k);
      assert h + t == (h + Front(t)) + [Last(t)];
      SeenSnoc(h + Front(t), Last(t), k);
    }
  }

  /** With a base, the highest acknowledgment of a direction never decreases. */
  lemma {:induction false} AckNeverDecreases(h: Trace, t: Trace, k: Direction)
    requires PeerAckOf(h, k).Acked?
    ensures PeerAckOf(h + t, k).Acked?
    ensures PeerAckOf(h, k).rel <= PeerAckOf(h + t, k).rel
  {
    if t == [] {
      assert h + t == h;
    } else {
      AckNeverDecreases(h, Front(t), k);
      assert h + t == (h + Front(t)) + [Last(t)];
      AckSnoc(h + Front(t), Last(t), k);
    }
  }

  /** A resend that is spurious now is spurious after any further traffic. */
  lemma SpuriousStaysSpurious(h: Trace, t: Trace, p: Packet)
    requires Judge(h, p) == Spurious
    ensures Judge(h + t, p) == Spurious
  {
    var s := p.tcp.value;
    var k := s.dir;
    assert RelSeq(h, s) in Payload(h, p, k);
    NothingBeforeFirst(h, k);
    BaseStays(h, t, k);
    SeenGrows(h, t, k);
    AckSnoc(h, p, k);
    AckSnoc(h + t, p, k);
    BaseSnoc(h, p, k);
    BaseSnoc(h + t, p, k);
    if PeerAckOf(h, k).Acked? {
      AckNeverDecreases(h, t, k);
    } else {
      UnanchoredHasNoBase(h, k);
      UnanchoredHasNoBase(h + t, k);
    }
  }

  // ----- Arrival order -----

  predicate CarriesByte(h: Trace, p: Packet, k: Direction, b: int) {
    && SendsData(p, k)
    && RelSeq(h, p.tcp.value) <= b < RelSeq(h, p.tcp.value) + p.tcp.value.payload
  }

  predicate CarriedIn(h: Trace, t: Trace, k: Direction, b: int) {
    exists p :: p in t && CarriesByte(h, p, k, b)
  }

  lemma {:induction false} SeenAfter(h: Trace, t: Trace, k: Direction)
    requires Base(h, k).Some?
    ensures forall b :: b in SeenBytes(h + t, k) <==> b in SeenBytes(h, k) || CarriedIn(h, t, k, b)
  {
    if t == [] {
      assert h + t == h;
    } else {
      SeenAfter(h, Front(t), k);
      assert h + t == (h + Front(t)) + [Last(t)];
      SeenSnoc(h + Front(t), Last(t), k);
      BaseStays(h, Front(t), k);
      assert t == Front(t) + [Last(t)];
      assert forall p :: p in t <==> p in Front(t) || p == Last(t);
      assert forall b :: b in Payload(h + Front(t), Last(t), k) <==> CarriesByte(h, Last(t), k, b);
    }
  }

  /**
   Once a direction has its base, only which data segments of that direction follow
   matters: their order, repeats and all other packets leave an identical interval list.
   */
  lemma ArrivalOrderIrrelevant(h: Trace, a: Trace, b: Trace, k: Direction, la: seq<Interval>, lb: seq<Interval>)
    requires Base(h, k).Some?
    requires forall p :: SendsData(p, k) ==> (p in a <==> p in b)
    requires ListMatches(la, h + a, k) && ListMatches(lb, h + b, k)
    ensures la == lb
  {
    SeenAfter(h, a, k);
    SeenAfter(h, b, k);
    assert SeenBytes(h + a, k) == SeenBytes(h + b, k);
    CanonicalFormUnique(la, lb);
  }

  // ----- Islands beyond the frontier -----

  /** How many packets of direction `k` were judged `v`. */
  ghost function JudgedIn(h: Trace, k: Direction, v: Verdict): nat {
    if h == [] then 0
    else JudgedIn(Front(h), k, v) + (if Sends(Last(h), k) && Judge(Front(h), Last(h)) == v then 1 else 0)
  }

  ghost function Islands(h: Trace, k: Direction): nat {
    match FirstData(h, k)
    case None => 0
    case Some(first) => |RunStarts(SeenBytes(h, k), FirstMissing(SeenBytes(h, k), first))|
  }

  /** Only an out-of-order segment can open an island. */
  lemma {:induction false} IslandsBounded(h: Trace, k: Direction)
    ensures Islands(h, k) <= JudgedIn(h, k, OutOfOrder)
  {
    if h == [] {
    } else {
      IslandsBounded(Front(h), k);
      IslandsNext(Front(h), Last(h), k);
      assert h == Front(h) + [Last(h)];
    }
  }

  lemma IslandsNext(f: Trace, p: Packet, k: Direction)
    ensures Islands(f + [p], k) - Islands(f, k) <= JudgedIn(f + [p], k, OutOfOrder) - JudgedIn(f, k, OutOfOrder)
  {
    Snoc(f, p);
    if SendsData(p, k) {
      IslandStep(f, p, k);
    } else {
      IslandsStay(f, p, k);
    }
  }

  lemma IslandsStay(h: Trace, p: Packet, k: Direction)
    requires !SendsData(p, k)
    ensures Islands(h + [p], k) == Islands(h, k)
  {
    SeenSnoc(h, p, k);
    FirstSnoc(h, p, k);
    assert SeenBytes(h + [p], k) == SeenBytes(h, k);
  }

  lemma IslandStep(h: Trace, p: Packet, k: Direction)
    requires SendsData(p, k)
    ensures Islands(h + [p], k) <= Islands(h, k) + (if Judge(h, p) == OutOfOrder then 1 else 0)
  {
    var lo := RelSeq(h, p.tcp.value);
    var hi := lo + p.tcp.value.payload;
    var seen := SeenBytes(h, k);
    SeenSnoc(h, p, k);
    FirstSnoc(h, p, k);
    NothingBeforeFirst(h, k);
    var first := if FirstData(h, k).Some? then FirstData(h, k).value else lo;
    var n, n' := FirstMissing(seen, first), FirstMissing(seen + Range(lo, hi), first);
    RunsAfterAdding(seen, lo, hi, first, n, n');
    if FirstData(h, k).None? {
      FirstMissingUnique(seen, lo, lo);
      assert RunStarts(seen, n) == {};
    } else {
      GapJudgement(h, k, lo, n);
    }
    if Range(lo, hi) <= seen {
      assert seen + Range(lo, hi) == seen;
    }
  }

  predicate Distinct(keys: seq<Direction>) {
    forall i, j :: 0 <= i < j < |keys| ==> keys[i] != keys[j]
  }

  ghost function JudgedOver(h: Trace, keys: seq<Direction>, v: Verdict): nat {
    if keys == [] then 0 else JudgedIn(h, keys[0], v) + JudgedOver(h, keys[1..], v)
  }

  /** A packet is judged in one direction only. */
  lemma {:induction false} JudgedOverSnoc(h: Trace, p: Packet, keys: seq<Direction>, v: Verdict)
    requires Distinct(keys)
    ensures JudgedOver(h + [p], keys, v)
         == JudgedOver(h, keys, v)
            + (if p.tcp.Some? && p.tcp.value.dir in keys && Judge(h, p) == v then 1 else 0)
  {
    if keys == [] {
    } else {
      JudgedOverSnoc(h, p, keys[1..], v);
      Snoc(h, p);
      assert keys == [keys[0]] + keys[1..];
      assert Sends(p, keys[0]) ==> p.tcp.value.dir !in keys[1..];
    }
  }

  lemma {:induction false} JudgedOverBounded(h: Trace, keys: seq<Direction>, v: Verdict)
    requires Distinct(keys)
    ensures JudgedOver(h, keys, v) <= Judged(h, v)
  {
    if h == [] {
      NothingJudged(keys, v);
    } else {
      JudgedOverBounded(Front(h), keys, v);
      assert h == Front(h) + [Last(h)];
      JudgedOverSnoc(Front(h), Last(h), keys, v);
    }
  }

  lemma {:induction false} NothingJudged(keys: seq<Direction>, v: Verdict)
    ensures JudgedOver([], keys, v) == 0
  {
    if keys == [] {
    } else {
      NothingJudged(keys[1..], v);
    }
  }

  /** The intervals of the given directions that begin beyond their frontiers. */
  function IslandTotal(covered: map<Direction, seq<Interval>>, next: map<Direction, int>, keys: seq<Direction>): nat {
    if keys == [] then 0
    else (if keys[0] in next then CountBeyond(ListOf(covered, keys[0]), next[keys[0]]) else 0)
         + IslandTotal(covered, next, keys[1..])
  }

  /**
   In every reachable state the intervals beyond the frontiers, summed over any
   directions, are no more than the out-of-order segments counted.
   */
  lemma {:induction false} IslandsNeverExceedOutOfOrder(
      h: Trace, covered: map<Direction, seq<Interval>>, next: map<Direction, int>, keys: seq<Direction>)
    requires CoveredMatches(covered, h) && FrontierMatches(next, h)
    requires Distinct(keys)
    ensures IslandTotal(covered, next, keys) <= Judged(h, OutOfOrder)
  {
    IslandTotalBounded(h, covered, next, keys);
    JudgedOverBounded(h, keys, OutOfOrder);
  }

  lemma {:induction false} IslandTotalBounded(
      h: Trace, covered: map<Direction, seq<Interval>>, next: map<Direction, int>, keys: seq<Direction>)
    requires CoveredMatches(covered, h) && FrontierMatches(next, h)
    ensures IslandTotal(covered, next, keys) <= JudgedOver(h, keys, OutOfOrder)
  {
    if keys == [] {
    } else {
      IslandTotalBounded(h, covered, next, keys[1..]);
      var k := keys[0];
      IslandsBounded(h, k);
      assert ListMatches(ListOf(covered, k), h, k);
      assert FrontierOf(Lookup(next, k), h, k);
      if k in next {
        FirstMissingUnique(SeenBytes(h, k), FirstData(h, k).value, next[k]);
        CountBeyondIsRuns(ListOf(covered, k), next[k]);
      }
    }
  }

  // ----- Handshakes -----

  /** SYNs that opened an entry. */
  ghost function Created(h: Trace): nat {
    if h == [] then 0 else Created(Front(h)) + (if Opens(Front(h), Last(h)) then 1 else 0)
  }

  ghost predicate Opens(h: Trace, p: Packet) {
    && p.tcp.Some? && IsSyn(p, (p.tcp.value.dir, p.tcp.value.seqNo))
    && !IsOpen(h, (p.tcp.value.dir, p.tcp.value.seqNo))
  }

  /** Samples dropped because the capture's clock ran backwards. */
  ghost function Discarded(h: Trace): nat {
    if h == [] then 0
    else Discarded(Front(h)) + (if Completes(Front(h), Last(h)) && Elapsed(Front(h), Last(h)) < 0.0 then 1 else 0)
  }

  /** The open keys as a set, built packet by packet. */
  function OpenKeys(h: Trace): set<SynKey> {
    if h == [] then {}
    else if Last(h).tcp.Some? && Last(h).tcp.value.syn then
      if Last(h).tcp.value.ackFlag then OpenKeys(Front(h)) - {AnsweredKey(Last(h))}
      else OpenKeys(Front(h)) + {(Last(h).tcp.value.dir, Last(h).tcp.value.seqNo)}
    else OpenKeys(Front(h))
  }

  lemma {:induction false} OpenKeysMeaning(h: Trace, key: SynKey)
    ensures key in OpenKeys(h) <==> IsOpen(h, key)
  {
    if h == [] {
    } else {
      OpenKeysMeaning(Front(h), key);
      assert h == Front(h) + [Last(h)];
      OpenSnoc(Front(h), Last(h), key);
    }
  }

  lemma {:induction false} OpenKeysCount(h: Trace)
    ensures Created(h) == |OpenKeys(h)| + |Samples(h)| + Discarded(h)
  {
    if h == [] {
    } else {
      OpenKeysCount(Front(h));
      var p, open := Last(h), OpenKeys(Front(h));
      if IsSynAck(p) {
        OpenKeysMeaning(Front(h), AnsweredKey(p));
        assert |open - {AnsweredKey(p)}| == if AnsweredKey(p) in open then |open| - 1 else |open|;
      } else if p.tcp.Some? && p.tcp.value.syn {
        var key := (p.tcp.value.dir, p.tcp.value.seqNo);
        OpenKeysMeaning(Front(h), key);
        assert key in open ==> open + {key} == open;
      }
    }
  }

  /** Every entry ever created is still pending, became a sample, or was discarded. */
  lemma HandshakeConservation(h: Trace, pending: map<SynKey, real>)
    requires SynsMatch(pending, h)
    ensures Created(h) == |pending| + |Samples(h)| + Discarded(h)
  {
    OpenKeysCount(h);
    forall key ensures key in pending.Keys <==> key in OpenKeys(h) { OpenKeysMeaning(h, key); }
    assert pending.Keys == OpenKeys(h);
  }

  /** Sample times come from the SYN at `i` and the SYN-ACK at `a`. */
  ghost predicate Measures(h: Trace, i: int, a: int) {
    && 0 <= i < a < |h| && IsSynAck(h[a])
    && OpenedBy(h[..a], AnsweredKey(h[a]), i)
    && h[a].timestamp - h[i].timestamp >= 0.0
  }

  /** `syns` and `acks` list, sample by sample, the packets it was measured between. */
  ghost predicate Sources(h: Trace, syns: seq<int>, acks: seq<int>) {
    && |syns| == |acks| == |Samples(h)|
    && (forall n :: 0 <= n < |syns| ==> Measures(h, syns[n], acks[n]))
    && (forall n :: 0 <= n < |syns| ==> Samples(h)[n] == h[acks[n]].timestamp - h[syns[n]].timestamp)
    && (forall m, n :: 0 <= m < n < |acks| ==> acks[m] < acks[n])
  }

  lemma MeasuresSnoc(h: Trace, p: Packet, i: int, a: int)
    requires Measures(h, i, a)
    ensures Measures(h + [p], i, a)
  {
    assert h[..a] == (h + [p])[..a];
  }

  /**
   Each sample is the non-negative time from the earliest unanswered SYN to the
   SYN-ACK that answers it, and samples appear in the order of their SYN-ACKs.
   */
  lemma {:induction false} SampleSources(h: Trace) returns (syns: seq<int>, acks: seq<int>)
    ensures Sources(h, syns, acks)
  {
    if h == [] {
      syns, acks := [], [];
    } else {
      var f, p := Front(h), Last(h);
      var syns0, acks0 := SampleSources(f);
      assert h == f + [p];
      forall n | 0 <= n < |syns0| ensures Measures(h, syns0[n], acks0[n]) {
        MeasuresSnoc(f, p, syns0[n], acks0[n]);
      }
      syns, acks := syns0, acks0;
      if Completes(f, p) && Elapsed(f, p) >= 0.0 {
        var i := MeasuresLast(f, p);
        syns, acks := syns0 + [i], acks0 + [|f|];
      }
    }
  }

  lemma MeasuresLast(h: Trace, p: Packet) returns (i: int)
    requires Completes(h, p) && Elapsed(h, p) >= 0.0
    ensures Measures(h + [p], i, |h|)
    ensures Elapsed(h, p) == p.timestamp - (h + [p])[i].timestamp
  {
    var key := AnsweredKey(p);
    i :| OpenedBy(h, key, i) && OpenSince(h, key) == h[i].timestamp;
    assert (h + [p])[..|h|] == h;
  }

  /** No SYN gives two samples: once measured to `a`, it is not open for a later SYN-ACK. */
  lemma OneSamplePerSyn(h: Trace, i: int, a: int, b: int)
    requires Measures(h, i, a)
    requires a < b < |h| && IsSynAck(h[b])
    ensures !Measures(h, i, b)
  {
  }
}
