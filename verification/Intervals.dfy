/**
 The interval functions of network_analyzer/analysis/tcp_analyzer.py.

 A direction's received bytes are kept as a sorted list of half-open ranges. The
 meaning of a list is the set of bytes it covers (`Bytes`); a list in `Canonical`
 form is the only one with its meaning, so everything the analyzer decides by
 scanning a list can be stated about sets.
 */
module Intervals {
  import opened Wrappers

  datatype Interval = Interval(lo: int, hi: int)

  /** The bytes of the half-open range from `lo` up to `hi`. */
  ghost function Range(lo: int, hi: int): (s: set<int>)
    ensures forall b :: b in s <==> lo <= b < hi
    decreases hi - lo
  {
    if lo >= hi then {} else {lo} + Range(lo + 1, hi)
  }

  /** The bytes covered by a list of intervals. */
  ghost function Bytes(ivs: seq<Interval>): set<int> {
    if ivs == [] then {} else Range(ivs[0].lo, ivs[0].hi) + Bytes(ivs[1..])
  }

  predicate Within(ivs: seq<Interval>, i: int, b: int) {
    0 <= i < |ivs| && ivs[i].lo <= b < ivs[i].hi
  }

  lemma {:induction false} BytesMembers(ivs: seq<Interval>)
    ensures forall b :: b in Bytes(ivs) <==> exists i :: Within(ivs, i, b)
  {
    if ivs == [] {
    } else {
      BytesMembers(ivs[1..]);
      forall b | b in Bytes(ivs) ensures exists i :: Within(ivs, i, b) {
        if b in Bytes(ivs[1..]) {
          var i :| Within(ivs[1..], i, b);
          assert Within(ivs, i + 1, b);
        } else {
          assert Within(ivs, 0, b);
        }
      }
      forall b, i | Within(ivs, i, b) ensures b in Bytes(ivs) {
        if i > 0 { assert Within(ivs[1..], i - 1, b); }
      }
    }
  }

  /** Sorted, without empty ranges, and with at least one missing byte between neighbours. */
  ghost predicate Canonical(ivs: seq<Interval>) {
    && (forall i :: 0 <= i < |ivs| ==> ivs[i].lo < ivs[i].hi)
    && (forall i, j :: 0 <= i < j < |ivs| ==> ivs[i].hi < ivs[j].lo)
  }

  /** `n` is the smallest byte at or after `from` that is not in `s`. */
  ghost predicate IsFirstMissing(s: set<int>, from: int, n: int) {
    from <= n && n !in s && Range(from, n) <= s
  }

  /** Every set of bytes has a first missing byte after any starting point. */
  ghost function FirstMissing(s: set<int>, from: int): (n: int)
    ensures IsFirstMissing(s, from, n)
    decreases |s|
  {
    if from !in s then from
    else
      var n := FirstMissing(s - {from}, from + 1);
      assert Range(from, n) <= s by {
        forall b | b in Range(from, n) ensures b in s {
          assert b == from || b in Range(from + 1, n);
        }
      }
      n
  }

  lemma FirstMissingUnique(s: set<int>, from: int, n: int)
    requires IsFirstMissing(s, from, n)
    ensures n == FirstMissing(s, from)
  {
  }

  // ----- Scans over a canonical list -----

  /** `_fully_covered`: is every byte of the range already covered? */
  method FullyCovered(ivs: seq<Interval>, start: int, end: int) returns (covered: bool)
    requires Canonical(ivs)
    ensures covered <==> Range(start, end) <= Bytes(ivs)
  {
    if start >= end {
      return true;
    }
    BytesMembers(ivs);
    var cursor := start;
    for i := 0 to |ivs|
      invariant start <= cursor < end
      invariant Range(start, cursor) <= Bytes(ivs)
      invariant forall j :: 0 <= j < i ==> ivs[j].hi <= cursor
    {
      var iv := ivs[i];
      if iv.hi <= cursor {
        continue;
      }
      if iv.lo > cursor {
        assert cursor in Range(start, end);
        assert forall j :: !Within(ivs, j, cursor);
        return false;
      }
      forall b | cursor <= b < iv.hi ensures b in Bytes(ivs) {
        assert Within(ivs, i, b);
      }
      cursor := iv.hi;
      if cursor >= end {
        return true;
      }
    }
    assert cursor in Range(start, end);
    assert forall j :: !Within(ivs, j, cursor);
    return false;
  }

  /** `_overlaps`: does the range share any byte with the list? */
  method Overlaps(ivs: seq<Interval>, start: int, end: int) returns (shared: bool)
    requires Canonical(ivs)
    requires start < end
    ensures shared <==> Range(start, end) * Bytes(ivs) != {}
  {
    BytesMembers(ivs);
    for i := 0 to |ivs|
      invariant forall j :: 0 <= j < i ==> ivs[j].hi <= start
    {
      var iv := ivs[i];
      if iv.hi <= start {
        continue;
      }
      if iv.lo >= end {
        assert forall b, j :: b in Range(start, end) ==> !Within(ivs, j, b);
        return false;
      }
      var common := Max(start, iv.lo);
      assert Within(ivs, i, common);
      assert common in Range(start, end) * Bytes(ivs);
      return true;
    }
    assert forall b, j :: b in Range(start, end) ==> !Within(ivs, j, b);
    return false;
  }

  /** One turn of the merge loop: where interval `i` goes. */
  lemma MergeStep(merged: seq<Interval>, ivs: seq<Interval>, i: nat, start: int, end: int)
    requires i < |ivs| && start < end
    requires forall a, b :: 0 <= a < b < |ivs| ==> ivs[a].hi < ivs[b].lo
    ensures merged + ivs[i..] == merged + [ivs[i]] + ivs[i + 1..]
    ensures ivs[i].hi < start
      ==> merged + Merge(ivs[i..], start, end) == merged + [ivs[i]] + Merge(ivs[i + 1..], start, end)
    ensures start <= ivs[i].hi && end < ivs[i].lo
      ==> merged + Merge(ivs[i..], start, end) == merged + [Interval(start, end)] + [ivs[i]] + ivs[i + 1..]
    ensures start <= ivs[i].hi && ivs[i].lo <= end
      ==> merged + Merge(ivs[i..], start, end)
          == merged + Merge(ivs[i + 1..], Min(start, ivs[i].lo), Max(end, ivs[i].hi))
  {
    assert ivs[i..] == [ivs[i]] + ivs[i + 1..];
    assert ivs[i..][1..] == ivs[i + 1..];
  }

  /** `_merge_interval`: add a range, absorbing every interval it meets or touches. */
  method MergeInterval(ivs: seq<Interval>, lo: int, hi: int) returns (merged: seq<Interval>)
    requires Canonical(ivs)
    ensures Canonical(merged)
    ensures Bytes(merged) == Bytes(ivs) + Range(lo, hi)
    ensures merged == Merge(ivs, lo, hi)
  {
    merged := MergeLoop(ivs, lo, hi);
    MergeCanonical(ivs, lo, hi);
    MergeBytes(ivs, lo, hi);
  }

  method MergeLoop(ivs: seq<Interval>, lo: int, hi: int) returns (merged: seq<Interval>)
    requires Canonical(ivs)
    ensures merged == Merge(ivs, lo, hi)
  {
    if lo >= hi {
      return ivs;
    }
    ghost var result := Merge(ivs, lo, hi);
    var start, end := lo, hi;
    merged := [];
    var placed := false;
    assert ivs[0..] == ivs;
    for i := 0 to |ivs|
      invariant start < end
      invariant placed ==> forall j :: i <= j < |ivs| ==> end < ivs[j].lo
      invariant placed ==> result == merged + ivs[i..]
      invariant !placed ==> result == merged + Merge(ivs[i..], start, end)
    {
      var iv := ivs[i];
      MergeStep(merged, ivs, i, start, end);
      if iv.hi < start {
        merged := merged + [iv];
        continue;
      }
      if iv.lo > end {
        if !placed {
          merged := merged + [Interval(start, end)];
          placed := true;
        }
        merged := merged + [iv];
        continue;
      }
      start := Min(start, iv.lo);
      end := Max(end, iv.hi);
    }
    if !placed {
      merged := merged + [Interval(start, end)];
    }
    assert merged == result;
  }

  // ----- What merging means -----

  /** The result of `MergeInterval` as a function of the list and the range. */
  function Merge(ivs: seq<Interval>, lo: int, hi: int): seq<Interval> {
    if lo >= hi then ivs
    else if ivs == [] then [Interval(lo, hi)]
    else if ivs[0].hi < lo then [ivs[0]] + Merge(ivs[1..], lo, hi)
    else if ivs[0].lo > hi then [Interval(lo, hi)] + ivs
    else Merge(ivs[1..], Min(lo, ivs[0].lo), Max(hi, ivs[0].hi))
  }

  lemma {:induction false} BytesCons(iv: Interval, ivs: seq<Interval>)
    ensures Bytes([iv] + ivs) == Range(iv.lo, iv.hi) + Bytes(ivs)
  {
  }

  predicate AllAfter(ivs: seq<Interval>, x: int) {
    forall i :: 0 <= i < |ivs| ==> x < ivs[i].lo
  }

  lemma {:induction false} MergeAfter(ivs: seq<Interval>, lo: int, hi: int, x: int)
    requires AllAfter(ivs, x) && x < lo
    ensures AllAfter(Merge(ivs, lo, hi), x)
  {
    if lo < hi && ivs != [] {
      assert AllAfter(ivs[1..], x);
      if ivs[0].hi < lo {
        MergeAfter(ivs[1..], lo, hi, x);
      } else if ivs[0].lo <= hi {
        MergeAfter(ivs[1..], Min(lo, ivs[0].lo), Max(hi, ivs[0].hi), x);
      }
    }
  }

  lemma CanonicalCons(iv: Interval, ivs: seq<Interval>)
    requires iv.lo < iv.hi && AllAfter(ivs, iv.hi) && Canonical(ivs)
    ensures Canonical([iv] + ivs)
  {
  }

  lemma CanonicalTail(ivs: seq<Interval>)
    requires Canonical(ivs) && ivs != []
    ensures Canonical(ivs[1..]) && AllAfter(ivs[1..], ivs[0].hi) && ivs[0].lo < ivs[0].hi
  {
  }

  lemma {:induction false} MergeCanonical(ivs: seq<Interval>, lo: int, hi: int)
    requires Canonical(ivs)
    ensures Canonical(Merge(ivs, lo, hi))
  {
    if lo < hi && ivs != [] {
      CanonicalTail(ivs);
      var rest := ivs[1..];
      if ivs[0].hi < lo {
        MergeCanonical(rest, lo, hi);
        MergeAfter(rest, lo, hi, ivs[0].hi);
        CanonicalCons(ivs[0], Merge(rest, lo, hi));
      } else if ivs[0].lo <= hi {
        MergeCanonical(rest, Min(lo, ivs[0].lo), Max(hi, ivs[0].hi));
      } else {
        CanonicalCons(Interval(lo, hi), ivs);
      }
    }
  }

  lemma {:induction false} MergeBytes(ivs: seq<Interval>, lo: int, hi: int)
    requires Canonical(ivs)
    ensures Bytes(Merge(ivs, lo, hi)) == Bytes(ivs) + Range(lo, hi)
  {
    if lo < hi && ivs != [] {
      CanonicalTail(ivs);
      var rest := ivs[1..];
      if ivs[0].hi < lo {
        MergeBytes(rest, lo, hi);
        BytesCons(ivs[0], Merge(rest, lo, hi));
      } else if ivs[0].lo <= hi {
        var lo', hi' := Min(lo, ivs[0].lo), Max(hi, ivs[0].hi);
        MergeBytes(rest, lo', hi');
        assert Range(lo', hi') == Range(lo, hi) + Range(ivs[0].lo, ivs[0].hi);
      } else {
        BytesCons(Interval(lo, hi), ivs);
      }
    }
  }

  /** A canonical list is determined by the bytes it covers. */
  lemma {:induction false} CanonicalFormUnique(a: seq<Interval>, b: seq<Interval>)
    requires Canonical(a) && Canonical(b)
    requires Bytes(a) == Bytes(b)
    ensures a == b
  {
    if a == [] && b == [] {
    } else if a == [] {
      HeadFromBytes(b);
    } else if b == [] {
      HeadFromBytes(a);
    } else {
      HeadFromBytes(a);
      HeadFromBytes(b);
      var lo := a[0].lo;
      assert lo == b[0].lo by {
        assert lo in Bytes(b) && b[0].lo in Bytes(a);
      }
      FirstMissingUnique(Bytes(a), lo, a[0].hi);
      FirstMissingUnique(Bytes(b), lo, b[0].hi);
      CanonicalFormUnique(a[1..], b[1..]);
      assert a == [a[0]] + a[1..] && b == [b[0]] + b[1..];
    }
  }

  /** The first interval of a canonical list runs from the smallest covered byte to the first gap. */
  lemma {:induction false} HeadFromBytes(ivs: seq<Interval>)
    requires Canonical(ivs) && ivs != []
    ensures ivs[0].lo in Bytes(ivs)
    ensures forall b :: b in Bytes(ivs) ==> ivs[0].lo <= b
    ensures IsFirstMissing(Bytes(ivs), ivs[0].lo, ivs[0].hi)
    ensures Bytes(ivs[1..]) == Bytes(ivs) - Range(ivs[0].lo, ivs[0].hi)
  {
    BytesMembers(ivs);
    BytesMembers(ivs[1..]);
    assert forall b :: ivs[0].lo <= b < ivs[0].hi ==> Within(ivs, 0, b);
    assert forall i :: !Within(ivs, i, ivs[0].hi);
    forall b, i | Within(ivs[1..], i, b) ensures b !in Range(ivs[0].lo, ivs[0].hi) {
      assert Within(ivs, i + 1, b);
    }
  }

  // ----- Runs beyond a frontier -----

  predicate BeginsRun(s: set<int>, b: int) {
    b in s && b - 1 !in s
  }

  /** The covered bytes after `n` that begin a run. */
  ghost function RunStarts(s: set<int>, n: int): set<int> {
    set b | b in s && b > n && BeginsRun(s, b)
  }

  /** How many intervals of a list begin after `n`. */
  function CountBeyond(ivs: seq<Interval>, n: int): nat {
    if ivs == [] then 0 else (if ivs[0].lo > n then 1 else 0) + CountBeyond(ivs[1..], n)
  }

  /** Intervals of a canonical list and runs of covered bytes are the same thing. */
  lemma {:induction false} CountBeyondIsRuns(ivs: seq<Interval>, n: int)
    requires Canonical(ivs)
    ensures CountBeyond(ivs, n) == |RunStarts(Bytes(ivs), n)|
  {
    if ivs == [] {
      assert RunStarts(Bytes(ivs), n) == {};
    } else {
      CountBeyondIsRuns(ivs[1..], n);
      RunsOfHead(ivs, n);
    }
  }

  lemma RunsOfHead(ivs: seq<Interval>, n: int)
    requires Canonical(ivs) && ivs != []
    ensures RunStarts(Bytes(ivs), n)
         == RunStarts(Bytes(ivs[1..]), n) + (if ivs[0].lo > n then {ivs[0].lo} else {})
    ensures ivs[0].lo !in Bytes(ivs[1..])
  {
    HeadFromBytes(ivs);
    BytesMembers(ivs[1..]);
    var head, all, rest := Range(ivs[0].lo, ivs[0].hi), Bytes(ivs), Bytes(ivs[1..]);
    forall b | b in rest ensures b > ivs[0].hi {
      var i :| Within(ivs[1..], i, b);
      assert ivs[0].hi < ivs[i + 1].lo;
    }
    forall b ensures BeginsRun(all, b) <==> b == ivs[0].lo || BeginsRun(rest, b) {
      assert b in all <==> b in head || b in rest;
      assert b - 1 in all <==> b - 1 in head || b - 1 in rest;
    }
  }

  /**
   Adding a range creates a new run beyond the frontier only when the range
   shares no byte with the set and begins after the frontier.
   */
  lemma RunsAfterAdding(s: set<int>, lo: int, hi: int, first: int, n: int, n': int)
    requires lo < hi
    requires IsFirstMissing(s, first, n)
    requires IsFirstMissing(s + Range(lo, hi), first, n')
    ensures n <= n'
    ensures |RunStarts(s + Range(lo, hi), n')| <= |RunStarts(s, n)| + 1
    ensures Range(lo, hi) * s != {} || lo <= n
      ==> |RunStarts(s + Range(lo, hi), n')| <= |RunStarts(s, n)|
  {
    var before, after := RunStarts(s, n), RunStarts(s + Range(lo, hi), n');
    assert n' in Range(first, n) <==> n' < n;
    assert after <= before + {lo};
    SubsetSize(after, before + {lo});
    if lo <= n {
      assert after <= before;
      SubsetSize(after, before);
    } else if Range(lo, hi) * s != {} && lo !in before && lo in after {
      // The first covered byte inside the range used to begin a run and no longer does.
      var b := FirstShared(s, lo, hi);
      assert b in before && b !in after;
      SubsetSize(after, before + {lo} - {b});
    } else if lo in before || lo !in after {
      assert after <= before;
      SubsetSize(after, before);
    }
  }

  lemma FirstShared(s: set<int>, lo: int, hi: int) returns (b: int)
    requires Range(lo, hi) * s != {}
    ensures b in Range(lo, hi) * s
    ensures forall c :: lo <= c < b ==> c !in s
  {
    b := lo;
    var some :| some in Range(lo, hi) * s;
    while b !in s
      invariant lo <= b <= some
      invariant forall c :: lo <= c < b ==> c !in s
      decreases some - b
    {
      b := b + 1;
    }
  }

  lemma SubsetSize<T>(a: set<T>, b: set<T>)
    requires a <= b
    ensures |a| <= |b|
  {
    assert b == a + (b - a);
  }
}
