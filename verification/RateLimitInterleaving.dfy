/**
 The limiter of pkg/server/ratelimit.go when requests interleave: getVisitor hands out a bucket under
 the lock, Allow is called after the lock is released, and a sweep may run in between, so a request
 can spend tokens of a bucket that has already left the table.

 L names the buckets; the class RateLimiter uses its limiter objects as the names.
 */
module RateLimitInterleaving {
  import opened TokenBucket
  import Table = RateLimitTable

  type Ip = Table.Ip

  /** Every bucket ever made, the ones the table holds, and when each address last called. */
  datatype World<L(==)> = World(heap: map<L, Bucket>, visitors: map<Ip, L>, seen: map<Ip, int>)

  ghost predicate Linked<L>(w: World<L>) {
    && w.visitors.Keys == w.seen.Keys
    && (forall ip | ip in w.visitors :: w.visitors[ip] in w.heap)
    && (forall ip, ip' | ip in w.visitors && ip' in w.visitors && w.visitors[ip] == w.visitors[ip'] :: ip == ip')
  }

  function GetVisitor<L(==)>(p: Params, w: World<L>, ip: Ip, fresh': L, now: int): World<L> {
    if ip in w.visitors then w.(seen := w.seen[ip := now])
    else World(w.heap[fresh' := NewBucket(p, now)], w.visitors[ip := fresh'], w.seen[ip := now])
  }

  function Allow<L(==)>(p: Params, w: World<L>, l: L, now: int): (World<L>, bool)
    requires l in w.heap
  {
    var (k, ok) := Take(p, w.heap[l], now);
    (w.(heap := w.heap[l := k]), ok)
  }

  function Doomed<L(==)>(p: Params, w: World<L>, now: int): set<Ip>
    requires forall ip | ip in w.visitors :: w.visitors[ip] in w.heap
  {
    set ip | ip in w.visitors && (ip !in w.seen || Evictable(p, w.heap[w.visitors[ip]], w.seen[ip], now))
  }

  function Sweep<L(==)>(p: Params, w: World<L>, now: int): World<L>
    requires forall ip | ip in w.visitors :: w.visitors[ip] in w.heap
  {
    var doomed := Doomed(p, w, now);
    World(w.heap, w.visitors - doomed, w.seen - doomed)
  }

  /** The table of buckets, without their identity. */
  function Contents<L(==)>(w: World<L>): Table.Table
    requires forall ip | ip in w.visitors :: w.visitors[ip] in w.heap
  {
    Table.Table(map ip | ip in w.visitors :: w.heap[w.visitors[ip]], w.seen)
  }

  /** When nothing comes between getVisitor and Allow, a request is one step of the table. */
  lemma {:induction false} AtomicRequest<L>(p: Params, w: World<L>, ip: Ip, fresh': L, now: int)
    requires Linked(w) && (ip !in w.visitors ==> fresh' !in w.heap)
    ensures var g := GetVisitor(p, w, ip, fresh', now);
            && Linked(g)
            && var (a, ok) := Allow(p, g, g.visitors[ip], now);
               Linked(a) && (Contents(a), ok) == Table.RequestTable(p, Contents(w), ip, now)
  {
    var g := GetVisitor(p, w, ip, fresh', now);
    assert Linked(g);
    var l := g.visitors[ip];
    assert g.heap[l] == if ip in Contents(w).visitors then Contents(w).visitors[ip] else NewBucket(p, now);
    Written(p, w, g, ip, Take(p, g.heap[l], now).0);
  }

  /** Writing the bucket of one address changes that entry of the table and no other. */
  lemma {:induction false} Written<L>(p: Params, w: World<L>, g: World<L>, ip: Ip, k: Bucket)
    requires Linked(w) && Linked(g) && ip in g.visitors && g.visitors.Keys == w.visitors.Keys + {ip}
    requires forall ip' | ip' in w.visitors ::
               g.visitors[ip'] == w.visitors[ip'] && g.heap[g.visitors[ip']] == w.heap[w.visitors[ip']]
    ensures var a := g.(heap := g.heap[g.visitors[ip] := k]);
            Linked(a) && Contents(a).visitors == Contents(w).visitors[ip := k]
  {
    var a := g.(heap := g.heap[g.visitors[ip] := k]);
    assert Linked(a);
    forall ip' | ip' in a.visitors
      ensures Contents(a).visitors[ip'] == Contents(w).visitors[ip := k][ip']
    {
    }
  }

  lemma {:induction false} AtomicSweep<L>(p: Params, w: World<L>, now: int)
    requires Linked(w)
    ensures Linked(Sweep(p, w, now))
    ensures Contents(Sweep(p, w, now)) == Table.SweepTable(p, Contents(w), now)
  {
    SameDoomed(p, w, now);
    Kept(w, Doomed(p, w, now));
  }

  /** The sweep of the objects and that of the table choose the same addresses. */
  lemma {:induction false} SameDoomed<L>(p: Params, w: World<L>, now: int)
    requires Linked(w)
    ensures Doomed(p, w, now) ==
              set ip | ip in Contents(w).visitors && Table.Doomed(p, Contents(w), ip, now)
  {
  }

  lemma {:induction false} Kept<L>(w: World<L>, gone: set<Ip>)
    requires Linked(w)
    ensures var kept := World(w.heap, w.visitors - gone, w.seen - gone);
            Linked(kept) && Contents(kept) == Table.Table(Contents(w).visitors - gone, Contents(w).seen - gone)
  {
    var kept := World(w.heap, w.visitors - gone, w.seen - gone);
    assert Contents(kept).visitors == Contents(w).visitors - gone;
  }

  // ---- Interleaved runs ----

  /** A request between its getVisitor and its Allow. */
  datatype Held<L> = Held(ip: Ip, limiter: L, at: int)

  datatype Sys<L(==)> = Sys(world: World<L>, pending: map<nat, Held<L>>)

  /** A limiter as made: no entries, no request under way. */
  function Start<L(==)>(): Sys<L> {
    Sys(World(map[], map[], map[]), map[])
  }

  datatype Event<L> = DoGet(q: nat, ip: Ip, made: L, at: int) | DoAllow(q: nat, at: int) | DoSweep(at: int)

  ghost predicate Enabled<L>(s: Sys<L>, e: Event<L>) {
    match e
    case DoGet(q, ip, made, _) => q !in s.pending && made !in s.world.heap
    case DoAllow(q, _) => q in s.pending
    case DoSweep(_) => true
  }

  ghost predicate Valid<L>(s: Sys<L>) {
    && Linked(s.world)
    && forall q | q in s.pending :: s.pending[q].limiter in s.world.heap
  }

  ghost function Step<L>(p: Params, s: Sys<L>, e: Event<L>): (s': Sys<L>)
    requires Valid(s) && Enabled(s, e)
    ensures Valid(s')
  {
    match e
    case DoGet(q, ip, made, at) =>
      var w := GetVisitor(p, s.world, ip, made, at);
      Sys(w, s.pending[q := Held(ip, w.visitors[ip], at)])
    case DoAllow(q, at) =>
      Sys(Allow(p, s.world, s.pending[q].limiter, at).0, s.pending - {q})
    case DoSweep(at) => s.(world := Sweep(p, s.world, at))
  }

  /** This event admits a request of ip. */
  ghost predicate Admits<L>(p: Params, s: Sys<L>, e: Event<L>, ip: Ip)
    requires Valid(s) && Enabled(s, e)
  {
    e.DoAllow? && s.pending[e.q].ip == ip && Allow(p, s.world, s.pending[e.q].limiter, e.at).1
  }

  /** This event is the Allow of a request of ip whose bucket a sweep evicted after its getVisitor. */
  ghost predicate Caught<L>(s: Sys<L>, e: Event<L>, ip: Ip)
    requires Enabled(s, e)
  {
    && e.DoAllow? && s.pending[e.q].ip == ip
    && (ip in s.world.visitors ==> s.world.visitors[ip] != s.pending[e.q].limiter)
  }

  /** Every Allow follows its getVisitor within delta. */
  ghost predicate Prompt<L>(s: Sys<L>, e: Event<L>, delta: nat)
    requires Enabled(s, e)
  {
    e.DoAllow? ==> e.at <= s.pending[e.q].at + delta
  }

  ghost predicate Inv<L>(p: Params, s: Sys<L>, delta: nat, now: int) {
    && Valid(s)
    && (forall l | l in s.world.heap :: 0 <= s.world.heap[l].tokens <= p.Cap() && s.world.heap[l].last <= now)
    && (forall ip | ip in s.world.visitors ::
          s.world.heap[s.world.visitors[ip]].last <= s.world.seen[ip] + delta && s.world.seen[ip] <= now)
    && (forall q, ip | q in s.pending && ip in s.world.visitors && s.world.visitors[ip] == s.pending[q].limiter ::
          s.pending[q].ip == ip && s.pending[q].at <= s.world.seen[ip])
  }

  /** A possible run from s: enabled, prompt events in time order. */
  ghost predicate Possible<L>(p: Params, s: Sys<L>, es: seq<Event<L>>, delta: nat, now: int)
    requires Valid(s)
    decreases |es|
  {
    es != [] ==>
      && Enabled(s, es[0]) && Prompt(s, es[0], delta) && now <= es[0].at
      && Possible(p, Step(p, s, es[0]), es[1..], delta, es[0].at)
  }

  ghost function Admissions<L>(p: Params, s: Sys<L>, es: seq<Event<L>>, delta: nat, now: int, ip: Ip): nat
    requires Valid(s) && Possible(p, s, es, delta, now)
    decreases |es|
  {
    if es == [] then 0
    else (if Admits(p, s, es[0], ip) then 1 else 0)
         + Admissions(p, Step(p, s, es[0]), es[1..], delta, es[0].at, ip)
  }

  ghost function CaughtCount<L>(p: Params, s: Sys<L>, es: seq<Event<L>>, delta: nat, now: int, ip: Ip): nat
    requires Valid(s) && Possible(p, s, es, delta, now)
    decreases |es|
  {
    if es == [] then 0
    else (if Caught(s, es[0], ip) then 1 else 0)
         + CaughtCount(p, Step(p, s, es[0]), es[1..], delta, es[0].at, ip)
  }

  function End<L>(es: seq<Event<L>>, now: int): int
    decreases |es|
  {
    if es == [] then now else End(es[1..], es[0].at)
  }

  ghost function Final<L>(p: Params, s: Sys<L>, es: seq<Event<L>>, delta: nat, now: int): (s': Sys<L>)
    requires Valid(s) && Possible(p, s, es, delta, now)
    ensures Valid(s')
    decreases |es|
  {
    if es == [] then s else Final(p, Step(p, s, es[0]), es[1..], delta, es[0].at)
  }

  lemma {:induction false} GetInv<L>(p: Params, s: Sys<L>, e: Event<L>, delta: nat, now: int)
    requires Inv(p, s, delta, now) && Enabled(s, e) && e.DoGet? && now <= e.at
    ensures Inv(p, Step(p, s, e), delta, e.at)
  {
    var s' := Step(p, s, e);
    assert forall q | q in s'.pending :: s'.pending[q].limiter in s'.world.heap;
  }

  lemma {:induction false} AllowInv<L>(p: Params, s: Sys<L>, e: Event<L>, delta: nat, now: int)
    requires Inv(p, s, delta, now) && Enabled(s, e) && e.DoAllow? && Prompt(s, e, delta) && now <= e.at
    ensures Inv(p, Step(p, s, e), delta, e.at)
  {
    RefillGrows(p, 0, e.at - s.world.heap[s.pending[e.q].limiter].last);
  }

  lemma {:induction false} StepInv<L>(p: Params, s: Sys<L>, e: Event<L>, delta: nat, now: int)
    requires Inv(p, s, delta, now) && Enabled(s, e) && Prompt(s, e, delta) && now <= e.at
    ensures Inv(p, Step(p, s, e), delta, e.at)
  {
    match e
    case DoGet(_, _, _, _) => GetInv(p, s, e, delta, now);
    case DoAllow(_, _) => AllowInv(p, s, e, delta, now);
    case DoSweep(_) =>
  }

  lemma {:induction false} FinalInv<L>(p: Params, s: Sys<L>, es: seq<Event<L>>, delta: nat, now: int)
    requires Inv(p, s, delta, now) && Possible(p, s, es, delta, now)
    ensures now <= End(es, now)
    ensures Inv(p, Final(p, s, es, delta, now), delta, End(es, now))
    decreases |es|
  {
    if es != [] {
      StepInv(p, s, es[0], delta, now);
      FinalInv(p, Step(p, s, es[0]), es[1..], delta, es[0].at);
    }
  }

  /** What the next getVisitor of ip would find. */
  function Current<L(==)>(p: Params, w: World<L>, ip: Ip): Entry
    requires forall ip | ip in w.visitors :: w.visitors[ip] in w.heap && ip in w.seen
  {
    if ip in w.visitors then Present(w.heap[w.visitors[ip]], w.seen[ip]) else Absent
  }

  /** Entry by entry, an idle bucket refills even if its last Allow came delta after the last getVisitor. */
  predicate RefillsDespiteDelay(p: Params, delta: nat) {
    p.Cap() <= Refill(p, p.cleanup + 1 - delta)
  }

  lemma {:induction false} CurrentLater<L>(p: Params, s: Sys<L>, delta: nat, now: int, later: int, ip: Ip)
    requires Inv(p, s, delta, now) && now <= later
    ensures var c := Current(p, s.world, ip);
            0 <= Level(p, c, later) <= p.Cap() && Level(p, c, later) <= Level(p, c, now) + Refill(p, later - now)
  {
    RefillGrows(p, 0, later - now);
    if ip in s.world.visitors {
      var k := s.world.heap[s.world.visitors[ip]];
      RefillGrows(p, 0, now - k.last);
      RefillAdds(p, now - k.last, later - now);
    }
  }

  /** One event pays for what it admits from the current bucket, unless the request was caught. */
  lemma {:induction false} StepPays<L>(p: Params, s: Sys<L>, e: Event<L>, delta: nat, now: int, ip: Ip)
    requires Inv(p, s, delta, now) && Enabled(s, e) && Prompt(s, e, delta) && now <= e.at
    requires RefillsDespiteDelay(p, delta)
    ensures var c, c' := Current(p, s.world, ip), Current(p, Step(p, s, e).world, ip);
            (if Admits(p, s, e, ip) then UNIT else 0) + Level(p, c', e.at)
              <= Level(p, c, e.at) + (if Caught(s, e, ip) then UNIT else 0)
  {
    StepInv(p, s, e, delta, now);
    RefillAdds(p, 0, 0);
    match e {
      case DoGet(q, ip', made, at) =>
      case DoAllow(q, at) =>
        var l := s.pending[q].limiter;
        var k := s.world.heap[l];
        RefillGrows(p, 0, at - k.last);
      case DoSweep(at) =>
        if ip in s.world.visitors && ip in Doomed(p, s.world, at) {
          var k := s.world.heap[s.world.visitors[ip]];
          if at - s.world.seen[ip] > p.cleanup {
            RefillGrows(p, p.cleanup + 1 - delta, at - k.last);
          }
        }
    }
  }

  lemma {:induction false} SpentStep<L>(p: Params, s: Sys<L>, e: Event<L>, delta: nat, now: int, end: int, ip: Ip)
    requires Inv(p, s, delta, now) && Enabled(s, e) && Prompt(s, e, delta) && now <= e.at
    requires RefillsDespiteDelay(p, delta)
    ensures var c, c' := Current(p, s.world, ip), Current(p, Step(p, s, e).world, ip);
            (if Admits(p, s, e, ip) then UNIT else 0) + Level(p, c', e.at) + Refill(p, end - e.at)
              <= Level(p, c, now) + Refill(p, end - now) + (if Caught(s, e, ip) then UNIT else 0)
  {
    StepPays(p, s, e, delta, now, ip);
    CurrentLater(p, s, delta, now, e.at, ip);
    RefillAdds(p, e.at - now, end - e.at);
  }

  lemma {:induction false} Spent<L>(p: Params, s: Sys<L>, es: seq<Event<L>>, delta: nat, now: int, ip: Ip)
    requires Inv(p, s, delta, now) && Possible(p, s, es, delta, now)
    requires RefillsDespiteDelay(p, delta)
    ensures Admissions(p, s, es, delta, now, ip) * UNIT <=
              Level(p, Current(p, s.world, ip), now) + Refill(p, End(es, now) - now)
              + CaughtCount(p, s, es, delta, now, ip) * UNIT
    decreases |es|
  {
    if es == [] {
      CurrentLater(p, s, delta, now, now, ip);
      RefillAdds(p, 0, 0);
    } else {
      var e := es[0];
      StepInv(p, s, e, delta, now);
      Spent(p, Step(p, s, e), es[1..], delta, e.at, ip);
      SpentStep(p, s, e, delta, now, End(es, now), ip);
    }
  }

  /**
   In every interleaving, if each Allow follows its getVisitor within delta and b <= r * (cleanup + 1ns - delta):
   in any window of length T the admissions of one address are at most b + r * T plus the requests caught
   between getVisitor and Allow by a sweep that evicted their bucket.
   */
  lemma {:induction false} InterleavedBound<L>(p: Params, before: seq<Event<L>>, window: seq<Event<L>>,
            delta: nat, start: int, ip: Ip)
    requires p.b * 1_000_000_000 <= p.r * (p.cleanup + 1 - delta)
    requires var s := Start<L>();
             && Possible(p, s, before, delta, start)
             && Possible(p, Final(p, s, before, delta, start), window, delta, End(before, start))
    ensures var s := Final(p, Start<L>(), before, delta, start);
            var from := End(before, start);
            var T := End(window, from) - from;
            && T >= 0
            && Admissions(p, s, window, delta, from, ip) * 1_000_000_000 <=
                 p.b * 1_000_000_000 + p.r * T + CaughtCount(p, s, window, delta, from, ip) * 1_000_000_000
  {
    var empty := Start<L>();
    var s, from := Final(p, empty, before, delta, start), End(before, start);
    FinalInv(p, empty, before, delta, start);
    FinalInv(p, s, window, delta, from);
    Spent(p, s, window, delta, from, ip);
    CurrentLater(p, s, delta, from, from, ip);
  }

  // ---- The size of the table ----

  /** What an event means for the keys of the table: only getVisitor and the sweep touch them. */
  function CallOf<L>(e: Event<L>): seq<Table.Event> {
    match e
    case DoGet(_, ip, _, at) => [Table.Request(ip, at)]
    case DoAllow(_, _) => []
    case DoSweep(at) => [Table.Sweep(at)]
  }

  function Calls<L>(es: seq<Event<L>>): seq<Table.Event>
    decreases |es|
  {
    if es == [] then [] else CallOf(es[0]) + Calls(es[1..])
  }

  /** The table is swept at least every cleanup interval, whatever else happens in between. */
  predicate SweptInTime<L>(p: Params, es: seq<Event<L>>, swept: int)
    decreases |es|
  {
    es != [] ==> es[0].at <= swept + p.cleanup && SweptInTime(p, es[1..], if es[0].DoSweep? then es[0].at else swept)
  }

  lemma {:induction false} RecentStep<L>(p: Params, s: Sys<L>, e: Event<L>, now: int, past: seq<Table.Event>, swept: int)
    requires Valid(s) && Enabled(s, e) && now <= e.at && swept <= now && e.at <= swept + p.cleanup
    requires Table.SeenSince(Contents(s.world), past, swept - p.cleanup)
    ensures Table.SeenSince(Contents(Step(p, s, e).world), past + CallOf(e),
                            (if e.DoSweep? then e.at else swept) - p.cleanup)
  {
    var seen, since := Step(p, s, e).world.seen, (if e.DoSweep? then e.at else swept) - p.cleanup;
    if e.DoAllow? {
      assert past + CallOf(e) == past;
    } else {
      forall ip | ip in seen
        ensures seen[ip] >= since && ip in Table.Callers(past + CallOf(e), seen[ip])
      {
        Table.CallersGrow(past, CallOf(e)[0], seen[ip], seen[ip]);
      }
    }
  }

  lemma {:induction false} RecentRun<L>(p: Params, s: Sys<L>, es: seq<Event<L>>, delta: nat, now: int,
                                        past: seq<Table.Event>, swept: int)
    requires Valid(s) && Possible(p, s, es, delta, now) && swept <= now <= swept + p.cleanup && SweptInTime(p, es, swept)
    requires Table.SeenSince(Contents(s.world), past, swept - p.cleanup)
    ensures Table.SeenSince(Contents(Final(p, s, es, delta, now).world), past + Calls(es), End(es, now) - 2 * p.cleanup)
    decreases |es|
  {
    if es == [] {
      assert past + Calls(es) == past;
    } else {
      var e := es[0];
      RecentStep(p, s, e, now, past, swept);
      RecentRun(p, Step(p, s, e), es[1..], delta, e.at, past + CallOf(e), if e.DoSweep? then e.at else swept);
      assert past + CallOf(e) + Calls(es[1..]) == past + Calls(es);
    }
  }

  lemma {:induction false} SizeOf<L>(w: World<L>, calls: seq<Table.Event>, since: int, callers: set<Ip>)
    requires Linked(w) && Table.SeenSince(Contents(w), calls, since) && callers == Table.Callers(calls, since)
    ensures forall ip | ip in w.seen :: w.seen[ip] >= since
    ensures w.visitors.Keys <= callers && |w.visitors| <= |callers|
  {
    var t := Contents(w);
    assert t.visitors.Keys == w.visitors.Keys;
    assert |t.visitors| == |t.visitors.Keys| && |w.visitors| == |w.visitors.Keys|;
    Table.SizeOf(t, calls, since, callers);
  }

  lemma {:induction false} RecentFromStart<L>(p: Params, es: seq<Event<L>>, delta: nat, start: int)
    requires Possible(p, Start<L>(), es, delta, start) && SweptInTime(p, es, start)
    ensures var w := Final(p, Start<L>(), es, delta, start).world;
            Linked(w) && Table.SeenSince(Contents(w), Calls(es), End(es, start) - 2 * p.cleanup)
  {
    assert [] + Calls(es) == Calls(es);
    RecentRun(p, Start<L>(), es, delta, start, [], start);
  }

  /**
   In every interleaving, when the table is swept every interval, visitors and lastSeen have the same keys at the end
   w of the run, and they are among the addresses whose getVisitor came within the last two intervals.
   */
  lemma {:induction false} InterleavedTableBound<L>(p: Params, es: seq<Event<L>>, delta: nat, start: int, w: World<L>,
                                                    since: int, callers: set<Ip>)
    requires Possible(p, Start<L>(), es, delta, start) && SweptInTime(p, es, start)
    requires w == Final(p, Start<L>(), es, delta, start).world
    requires since == End(es, start) - 2 * p.cleanup && callers == Table.Callers(Calls(es), since)
    ensures w.visitors.Keys == w.seen.Keys
    ensures forall ip | ip in w.seen :: w.seen[ip] >= since
    ensures w.visitors.Keys <= callers && |w.visitors| <= |callers|
  {
    RecentFromStart(p, es, delta, start);
    SizeOf(w, Calls(es), since, callers);
  }

  // ---- A caught request ----

  lemma {:induction false} Cons<L>(p: Params, s: Sys<L>, e: Event<L>, rest: seq<Event<L>>, now: int, ip: Ip)
    requires Valid(s) && Enabled(s, e) && Prompt(s, e, 0) && now <= e.at
    requires Possible(p, Step(p, s, e), rest, 0, e.at)
    ensures Possible(p, s, [e] + rest, 0, now)
    ensures End([e] + rest, now) == End(rest, e.at)
    ensures Admissions(p, s, [e] + rest, 0, now, ip) ==
              (if Admits(p, s, e, ip) then 1 else 0) + Admissions(p, Step(p, s, e), rest, 0, e.at, ip)
    ensures CaughtCount(p, s, [e] + rest, 0, now, ip) ==
              (if Caught(s, e, ip) then 1 else 0) + CaughtCount(p, Step(p, s, e), rest, 0, e.at, ip)
  {
    assert ([e] + rest)[0] == e && ([e] + rest)[1..] == rest;
  }

  /** A request is caught: evicted with its still full bucket, while the next one makes a new bucket. */
  function Overtaking(ip: Ip): seq<Event<nat>> {
    [DoGet(0, ip, 0, 0), DoSweep(0), DoAllow(0, 0), DoGet(1, ip, 1, 0), DoAllow(1, 0)]
  }

  function OvertakingState(p: Params, ip: Ip, i: nat): Sys<nat> {
    var full, spent := Bucket(p.Cap(), 0), Bucket(0, 0);
    match i
    case 0 => Start()
    case 1 => Sys(World(map[0 := full], map[ip := 0], map[ip := 0]), map[0 := Held(ip, 0, 0)])
    case 2 => Sys(World(map[0 := full], map[], map[]), map[0 := Held(ip, 0, 0)])
    case 3 => Sys(World(map[0 := spent], map[], map[]), map[])
    case 4 => Sys(World(map[0 := spent, 1 := full], map[ip := 1], map[ip := 0]), map[1 := Held(ip, 1, 0)])
    case _ => Sys(World(map[0 := spent, 1 := spent], map[ip := 1], map[ip := 0]), map[])
  }

  lemma {:induction false} OvertakingStep(p: Params, ip: Ip, i: nat)
    requires p.b == 1 && i < 5
    ensures var s, e := OvertakingState(p, ip, i), Overtaking(ip)[i];
            && Valid(s) && Enabled(s, e) && Prompt(s, e, 0)
            && Step(p, s, e) == OvertakingState(p, ip, i + 1) && Valid(OvertakingState(p, ip, i + 1))
            && (Admits(p, s, e, ip) <==> i == 2 || i == 4) && (Caught(s, e, ip) <==> i == 2)
  {
    RefillAdds(p, 0, 0);
    if i == 1 {
      assert Doomed(p, OvertakingState(p, ip, i).world, 0) == {ip};
    }
  }

  lemma {:induction false} OvertakingFrom(p: Params, ip: Ip, i: nat)
    requires p.b == 1 && i <= 5
    ensures var s, es := OvertakingState(p, ip, i), Overtaking(ip)[i..];
            && Valid(s) && Possible(p, s, es, 0, 0) && End(es, 0) == 0
            && Admissions(p, s, es, 0, 0, ip) == (if i <= 2 then 2 else if i <= 4 then 1 else 0)
            && CaughtCount(p, s, es, 0, 0, ip) == (if i <= 2 then 1 else 0)
    decreases 5 - i
  {
    if i < 5 {
      OvertakingStep(p, ip, i);
      OvertakingFrom(p, ip, i + 1);
      Cons(p, OvertakingState(p, ip, i), Overtaking(ip)[i], Overtaking(ip)[i + 1..], 0, ip);
      assert Overtaking(ip)[i..] == [Overtaking(ip)[i]] + Overtaking(ip)[i + 1..];
    }
  }

  /**
   The last term is needed: with b = 1, a request is caught when a sweep evicts its still full bucket,
   and two requests of one address are admitted in a window of length 0.
   */
  lemma {:induction false} CaughtExceedsBurst(p: Params, ip: Ip)
    requires p.b == 1
    ensures Possible(p, Start<nat>(), Overtaking(ip), 0, 0) && End(Overtaking(ip), 0) == 0
    ensures Admissions(p, Start<nat>(), Overtaking(ip), 0, 0, ip) == 2
    ensures CaughtCount(p, Start<nat>(), Overtaking(ip), 0, 0, ip) == 1
  {
    OvertakingFrom(p, ip, 0);
    assert Overtaking(ip)[0..] == Overtaking(ip);
  }
}
