/**
 The time-bounded cache of storage_consumer/persistence/application_resolver.py:
 hits until they expire, one query for everything else, and no cached misses.
 */
module ApplicationResolver {
  type Registry = map<string, int>

  /** The part of the registry that the wanted names ask for. */
  function Lookup(registry: Registry, wanted: set<string>): Registry {
    map name | name in wanted && name in registry :: registry[name]
  }

  /** What the registry held at each time. */
  type Timeline = real -> Registry

  /** `id` is the registry's answer for `name` now, or was at some moment after `since`. */
  ghost predicate TrueWithin(timeline: Timeline, name: string, id: int, since: real, now: real) {
    Answered(timeline, now, name, id) || exists t: real :: since < t <= now && Answered(timeline, t, name, id)
  }

  predicate Answered(timeline: Timeline, t: real, name: string, id: int) {
    name in timeline(t) && timeline(t)[name] == id
  }

  /** The entry was the registry's answer `ttl` before it expires, at or before `now`. */
  predicate Remembered(timeline: Timeline, name: string, entry: (int, real), ttl: real, now: real) {
    entry.1 - ttl <= now && Answered(timeline, entry.1 - ttl, name, entry.0)
  }

  predicate Remembers(timeline: Timeline, cache: map<string, (int, real)>, ttl: real, now: real) {
    forall name :: name in cache ==> Remembered(timeline, name, cache[name], ttl, now)
  }

  class Resolver {
    const ttlSeconds: real
    /** Name to id and the time the entry expires. */
    var cache: map<string, (int, real)>

    constructor (ttlSeconds: real)
      ensures this.ttlSeconds == ttlSeconds && cache == map[]
    {
      this.ttlSeconds := ttlSeconds;
      cache := map[];
    }

    /** Every entry agrees with this registry. */
    ghost predicate Agrees(registry: Registry)
      reads this
    {
      forall name :: name in cache ==> name in registry && cache[name].0 == registry[name]
    }

    predicate Fresh(name: string, now: real)
      reads this
    {
      name in cache && cache[name].1 > now
    }

    /** `resolve` at time `now`, when the registry holds `registry`. */
    method Resolve(wanted: set<string>, now: real, registry: Registry) returns (resolved: Registry)
      modifies this`cache
      ensures forall name :: name in resolved <==> name in wanted && (old(Fresh(name, now)) || name in registry)
      ensures forall name :: name in resolved ==>
        resolved[name] == if old(Fresh(name, now)) then old(cache)[name].0 else registry[name]
      ensures forall name :: name in cache <==> name in old(cache) || (name in wanted && name in registry)
      ensures forall name :: name in cache ==>
        cache[name] == if name in wanted && name in registry && !old(Fresh(name, now))
                       then (registry[name], now + ttlSeconds) else old(cache)[name]
    {
      if wanted == {} {
        return map[];
      }
      var missing;
      resolved, missing := CachedAnswers(wanted, now);
      if missing != {} {
        var expiresAt := now + ttlSeconds;
        var found := Lookup(registry, missing);
        cache := cache + map name | name in found :: (found[name], expiresAt);
        resolved := resolved + found;
      }
    }

    /** What the cache answers, and the names it cannot. */
    method CachedAnswers(wanted: set<string>, now: real) returns (resolved: Registry, missing: set<string>)
      ensures forall name :: name in resolved <==> name in wanted && Fresh(name, now)
      ensures forall name :: name in resolved ==> name in cache && resolved[name] == cache[name].0
      ensures forall name :: name in missing <==> name in wanted && !Fresh(name, now)
    {
      resolved, missing := map[], {};
      var todo := wanted;
      while todo != {}
        invariant todo <= wanted
        invariant forall name :: name in resolved <==> name in wanted - todo && Fresh(name, now)
        invariant forall name :: name in resolved ==> resolved[name] == cache[name].0
        invariant forall name :: name in missing <==> name in wanted - todo && !Fresh(name, now)
        decreases |todo|
      {
        var name :| name in todo;
        if Fresh(name, now) {
          resolved := resolved[name := cache[name].0];
        } else {
          missing := missing + {name};
        }
        todo := todo - {name};
      }
    }

    /**
     With entries that never change or vanish, a resolve is a direct lookup,
     whatever was asked before and whatever the clock does.
     */
    method ResolveStable(wanted: set<string>, now: real, registry: Registry) returns (resolved: Registry)
      requires Agrees(registry)
      modifies this`cache
      ensures resolved == Lookup(registry, wanted)
      ensures Agrees(registry)
    {
      resolved := Resolve(wanted, now, registry);
    }

    /**
     With a changing registry, every id returned was the registry's answer within
     the last `ttlSeconds`, and every name left out is unknown to it now.
     */
    method ResolveChanging(wanted: set<string>, before: real, now: real, timeline: Timeline)
      returns (resolved: Registry)
      requires before <= now && Remembers(timeline, cache, ttlSeconds, before)
      modifies this`cache
      ensures Remembers(timeline, cache, ttlSeconds, now)
      ensures forall name :: name in resolved ==>
        name in wanted && TrueWithin(timeline, name, resolved[name], now - ttlSeconds, now)
      ensures forall name :: name in wanted && name !in resolved ==> name !in timeline(now)
    {
      ghost var cache0 := cache;
      resolved := Resolve(wanted, now, timeline(now));
      forall name | name in resolved
        ensures TrueWithin(timeline, name, resolved[name], now - ttlSeconds, now)
      {
        if name in cache0 {
          assert Remembered(timeline, name, cache0[name], ttlSeconds, before);
          CachedAnswer(timeline, name, cache0[name], ttlSeconds, before, now);
        }
      }
      forall name | name in cache ensures Remembered(timeline, name, cache[name], ttlSeconds, now) {
        if name in cache0 { assert Remembered(timeline, name, cache0[name], ttlSeconds, before); }
      }
    }
  }

  lemma CachedAnswer(timeline: Timeline, name: string, entry: (int, real), ttl: real, before: real, now: real)
    requires Remembered(timeline, name, entry, ttl, before) && before <= now
    ensures entry.1 > now ==> TrueWithin(timeline, name, entry.0, now - ttl, now)
  {
  }

  /** One call of the resolver: which names, and when. */
  datatype Call = Call(wanted: set<string>, now: real)

  /**
   Any history of calls against a registry that only grows gives, call by call,
   direct lookups: a name registered after a miss is found by the next call.
   */
  method ResolveAll(calls: seq<Call>, registries: seq<Registry>, ttlSeconds: real) returns (answers: seq<Registry>)
    requires |calls| == |registries|
    requires forall i, j :: 0 <= i < j < |registries| ==> Grows(registries[i], registries[j])
    ensures |answers| == |calls|
    ensures forall i :: 0 <= i < |calls| ==> answers[i] == Lookup(registries[i], calls[i].wanted)
  {
    var resolver := new Resolver(ttlSeconds);
    answers := [];
    for i := 0 to |calls|
      invariant fresh(resolver)
      invariant |answers| == i
      invariant forall j :: 0 <= j < i ==> answers[j] == Lookup(registries[j], calls[j].wanted)
      invariant forall j :: i <= j < |calls| ==> resolver.Agrees(registries[j])
    {
      var answer := resolver.ResolveStable(calls[i].wanted, calls[i].now, registries[i]);
      answers := answers + [answer];
      forall j | i + 1 <= j < |calls| ensures resolver.Agrees(registries[j]) {
        assert Grows(registries[i], registries[j]);
      }
    }
  }

  /** The answer was true within the last `ttl`, and what it leaves out is unknown now. */
  ghost predicate RecentlyTrue(timeline: Timeline, ttl: real, call: Call, answer: Registry) {
    && (forall name :: name in answer ==>
          name in call.wanted && TrueWithin(timeline, name, answer[name], call.now - ttl, call.now))
    && (forall name :: name in call.wanted && name !in answer ==> name !in timeline(call.now))
  }

  /** Any history of calls, in the order of the clock, against a registry that changes in any way. */
  method ResolveHistory(calls: seq<Call>, timeline: Timeline, ttlSeconds: real) returns (answers: seq<Registry>)
    requires forall i, j :: 0 <= i < j < |calls| ==> calls[i].now <= calls[j].now
    ensures |answers| == |calls|
    ensures forall i :: 0 <= i < |calls| ==> RecentlyTrue(timeline, ttlSeconds, calls[i], answers[i])
  {
    var resolver := new Resolver(ttlSeconds);
    answers := [];
    for i := 0 to |calls|
      invariant fresh(resolver) && resolver.ttlSeconds == ttlSeconds
      invariant |answers| == i
      invariant forall j :: 0 <= j < i ==> RecentlyTrue(timeline, ttlSeconds, calls[j], answers[j])
      invariant i == 0 ==> resolver.cache == map[]
      invariant i > 0 ==> Remembers(timeline, resolver.cache, ttlSeconds, calls[i - 1].now)
    {
      var answer := resolver.ResolveChanging(
        calls[i].wanted, if i == 0 then calls[0].now else calls[i - 1].now, calls[i].now, timeline);
      answers := answers + [answer];
    }
  }

  /** Entries of `a` are entries of `b`. */
  predicate Grows(a: Registry, b: Registry) {
    forall name :: name in a ==> name in b && a[name] == b[name]
  }
}
