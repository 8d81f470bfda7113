/**
 The per-IP table of pkg/server/ratelimit.go as a value, with every request handled in one step:
 the evicting table against a table that never forgets, and each address against all the others.
 */
module RateLimitTable {
  import opened TokenBucket

  type Ip = string

  datatype Event = Request(ip: Ip, at: int) | Sweep(at: int)

  datatype Table = Table(visitors: map<Ip, Bucket>, seen: map<Ip, int>)

  const EMPTY := Table(map[], map[])

  /** The sweep also drops an entry that has no time stamp. */
  predicate Doomed(p: Params, t: Table, ip: Ip, now: int)
    requires ip in t.visitors
  {
    ip !in t.seen || Evictable(p, t.visitors[ip], t.seen[ip], now)
  }

  function SweepTable(p: Params, t: Table, now: int): Table {
    var doomed := set ip | ip in t.visitors && Doomed(p, t, ip, now);
    Table(t.visitors - doomed, t.seen - doomed)
  }

  function RequestTable(p: Params, t: Table, ip: Ip, now: int): (Table, bool) {
    var (k, ok) := Take(p, if ip in t.visitors then t.visitors[ip] else NewBucket(p, now), now);
    (Table(t.visitors[ip := k], t.seen[ip := now]), ok)
  }

  function Step(p: Params, t: Table, e: Event): Table {
    match e
    case Request(ip, at) => RequestTable(p, t, ip, at).0
    case Sweep(at) => SweepTable(p, t, at)
  }

  function RunTable(p: Params, t: Table, es: seq<Event>): Table
    decreases |es|
  {
    if es == [] then t else RunTable(p, Step(p, t, es[0]), es[1..])
  }

  function Verdict(p: Params, t: Table, e: Event): seq<bool> {
    if e.Request? then [RequestTable(p, t, e.ip, e.at).1] else []
  }

  /** The answers to all requests of a run, in order. */
  function Verdicts(p: Params, t: Table, es: seq<Event>): seq<bool>
    decreases |es|
  {
    if es == [] then [] else Verdict(p, t, es[0]) + Verdicts(p, Step(p, t, es[0]), es[1..])
  }

  /** The answers to the requests of one address, in order. */
  function VerdictsFor(p: Params, t: Table, es: seq<Event>, ip: Ip): seq<bool>
    decreases |es|
  {
    if es == [] then []
    else (if es[0].Request? && es[0].ip == ip then Verdict(p, t, es[0]) else [])
         + VerdictsFor(p, Step(p, t, es[0]), es[1..], ip)
  }

  predicate Monotone(es: seq<Event>, now: int)
    decreases |es|
  {
    es != [] ==> now <= es[0].at && Monotone(es[1..], es[0].at)
  }

  function EndTime(es: seq<Event>, now: int): int
    decreases |es|
  {
    if es == [] then now else EndTime(es[1..], es[0].at)
  }

  predicate KeysAgree(t: Table) {
    t.visitors.Keys == t.seen.Keys
  }

  /** What the table holds for one address. */
  function EntryOf(t: Table, ip: Ip): Entry
    requires KeysAgree(t)
  {
    if ip in t.visitors then Present(t.visitors[ip], t.seen[ip]) else Absent
  }

  ghost predicate Inv(p: Params, t: Table, now: int) {
    KeysAgree(t) && forall ip :: EntryInv(p, EntryOf(t, ip), now)
  }

  // ---- A request and a sweep in numbers ----

  /** What a request finds, which answer it gets and what it leaves, entry by entry. */
  lemma {:induction false} RequestInNumbers(p: Params, t: Table, ip: Ip, at: int)
    ensures var (t', ok) := RequestTable(p, t, ip, at);
            var known := ip in t.visitors;
            var found := if !known then p.b * 1_000_000_000
                         else
                           var k := t.visitors[ip];
                           k.tokens + p.r * if at < k.last then 0 else at - k.last;
            var there := if found > p.b * 1_000_000_000 then p.b * 1_000_000_000 else found;
            && (ok <==> there >= 1_000_000_000)
            && t'.seen == t.seen[ip := at]
            && (ok ==> t'.visitors == t.visitors[ip := Bucket(there - 1_000_000_000, at)])
            && (!ok && known ==> t'.visitors == t.visitors)
            && (!ok && !known ==> t'.visitors == t.visitors[ip := Bucket(p.b * 1_000_000_000, at)])
  {
    assert p.r * 0 == 0;
  }

  /** A sweep keeps an entry, as it is, exactly when it was seen within cleanup and its bucket is not full. */
  lemma {:induction false} SweepInNumbers(p: Params, t: Table, now: int, ip: Ip)
    ensures var t' := SweepTable(p, t, now);
            && (ip in t'.visitors <==>
                  && ip in t.visitors && ip in t.seen && now - t.seen[ip] <= p.cleanup
                  && var k := t.visitors[ip];
                     k.tokens + p.r * (if now < k.last then 0 else now - k.last) < p.b * 1_000_000_000)
            && (ip in t'.visitors ==> ip in t'.seen && t'.visitors[ip] == t.visitors[ip] && t'.seen[ip] == t.seen[ip])
            && (ip in t.visitors && ip !in t'.visitors ==> ip !in t'.seen)
  {
  }

  // ---- One address at a time ----

  /** What one address sees of an event. */
  function OpOf(e: Event, ip: Ip): seq<Op> {
    match e
    case Request(ip', at) => if ip' == ip then [Hit(at)] else []
    case Sweep(at) => [Tick(at)]
  }

  lemma {:induction false} StepEntry(p: Params, t: Table, e: Event, ip: Ip)
    requires KeysAgree(t)
    ensures KeysAgree(Step(p, t, e))
    ensures EntryOf(Step(p, t, e), ip) == Run(p, EntryOf(t, ip), OpOf(e, ip))
    ensures e.Request? && e.ip == ip ==> Verdict(p, t, e) == [Admits(p, EntryOf(t, ip), Hit(e.at))]
  {
    var t' := Step(p, t, e);
    assert t'.visitors.Keys == t'.seen.Keys;
    if OpOf(e, ip) != [] {
      assert OpOf(e, ip)[1..] == [];
    }
  }

  lemma {:induction false} StepInv(p: Params, t: Table, now: int, e: Event)
    requires Inv(p, t, now) && now <= e.at
    ensures Inv(p, Step(p, t, e), e.at)
  {
    forall ip
      ensures KeysAgree(Step(p, t, e)) && EntryInv(p, EntryOf(Step(p, t, e), ip), e.at)
    {
      StepEntry(p, t, e, ip);
      if OpOf(e, ip) != [] {
        EntryInvStep(p, EntryOf(t, ip), now, OpOf(e, ip)[0]);
        assert OpOf(e, ip)[1..] == [];
      }
    }
    StepEntry(p, t, e, "");
  }

  /** In every reachable state the two maps have the same keys and every bucket is within its bounds. */
  lemma {:induction false} ReachableInv(p: Params, t: Table, now: int, es: seq<Event>)
    requires Inv(p, t, now) && Monotone(es, now)
    ensures now <= EndTime(es, now)
    ensures Inv(p, RunTable(p, t, es), EndTime(es, now))
    ensures KeysAgree(RunTable(p, t, es))
    decreases |es|
  {
    if es != [] {
      StepInv(p, t, now, es[0]);
      ReachableInv(p, Step(p, t, es[0]), es[0].at, es[1..]);
    }
  }

  // ---- Isolation ----

  /** The run as seen when every other address is silent. */
  function OnlyFor(es: seq<Event>, ip: Ip): seq<Event>
    decreases |es|
  {
    if es == [] then []
    else (if es[0].Request? && es[0].ip != ip then [] else [es[0]]) + OnlyFor(es[1..], ip)
  }

  /** Sweeps and the address's own requests stay, in order; nothing else does. */
  lemma {:induction false} OnlyForSnoc(es: seq<Event>, e: Event, ip: Ip)
    ensures OnlyFor([], ip) == []
    ensures OnlyFor(es + [e], ip) == OnlyFor(es, ip) + if e.Sweep? || e.ip == ip then [e] else []
    decreases |es|
  {
    if es == [] {
      assert [] + [e] == [e] && [e][1..] == [];
    } else {
      assert (es + [e])[0] == es[0];
      assert (es + [e])[1..] == es[1..] + [e];
      OnlyForSnoc(es[1..], e, ip);
      var first: seq<Event> := if es[0].Request? && es[0].ip != ip then [] else [es[0]];
      var last := OnlyFor(es[1..] + [e], ip)[|OnlyFor(es[1..], ip)|..];
      assert first + (OnlyFor(es[1..], ip) + last) == (first + OnlyFor(es[1..], ip)) + last;
    }
  }

  /**
   Isolation: the answers to one address are those of the run from which the requests of all other
   addresses are removed, whatever they were and however often the table was swept.
   */
  lemma {:induction false} Isolation(p: Params, t: Table, u: Table, es: seq<Event>, ip: Ip)
    requires KeysAgree(t) && KeysAgree(u) && EntryOf(t, ip) == EntryOf(u, ip)
    ensures VerdictsFor(p, t, es, ip) == VerdictsFor(p, u, OnlyFor(es, ip), ip)
    ensures VerdictsFor(p, u, OnlyFor(es, ip), ip) == Verdicts(p, u, OnlyFor(es, ip))
    decreases |es|
  {
    if es != [] {
      var e := es[0];
      StepEntry(p, t, e, ip);
      StepEntry(p, u, e, ip);
      if e.Request? && e.ip != ip {
        Isolation(p, Step(p, t, e), u, es[1..], ip);
        assert OnlyFor(es, ip) == OnlyFor(es[1..], ip);
      } else {
        Isolation(p, Step(p, t, e), Step(p, u, e), es[1..], ip);
        assert OnlyFor(es, ip)[0] == e && OnlyFor(es, ip)[1..] == OnlyFor(es[1..], ip);
      }
    }
  }

  // ---- Eviction is unobservable ----

  /** A table of buckets that are never deleted runs the same events without the sweeps. */
  function NoSweeps(es: seq<Event>): seq<Event>
    decreases |es|
  {
    if es == [] then [] else (if es[0].Sweep? then [] else [es[0]]) + NoSweeps(es[1..])
  }

  /** Requests stay, in order; nothing else does. */
  lemma {:induction false} NoSweepsSnoc(es: seq<Event>, e: Event)
    ensures NoSweeps([]) == []
    ensures NoSweeps(es + [e]) == NoSweeps(es) + if e.Request? then [e] else []
    decreases |es|
  {
    if es == [] {
      assert [] + [e] == [e] && [e][1..] == [];
    } else {
      assert (es + [e])[0] == es[0];
      assert (es + [e])[1..] == es[1..] + [e];
      NoSweepsSnoc(es[1..], e);
      var first: seq<Event> := if es[0].Sweep? then [] else [es[0]];
      var last := NoSweeps(es[1..] + [e])[|NoSweeps(es[1..])|..];
      assert first + (NoSweeps(es[1..]) + last) == (first + NoSweeps(es[1..])) + last;
    }
  }

  ghost predicate SameLevels(p: Params, t: Table, u: Table, now: int) {
    && Inv(p, t, now) && Inv(p, u, now)
    && forall ip :: Level(p, EntryOf(t, ip), now) == Level(p, EntryOf(u, ip), now)
  }

  lemma {:induction false} SameLevelsLater(p: Params, t: Table, u: Table, now: int, later: int)
    requires SameLevels(p, t, u, now) && now <= later
    ensures SameLevels(p, t, u, later)
  {
    forall ip
      ensures Level(p, EntryOf(t, ip), later) == Level(p, EntryOf(u, ip), later)
    {
      LevelLater(p, EntryOf(t, ip), now, later);
      LevelLater(p, EntryOf(u, ip), now, later);
    }
  }

  lemma {:induction false} RequestKeepsLevels(p: Params, t: Table, u: Table, now: int, e: Event)
    requires SameLevels(p, t, u, now) && now <= e.at && e.Request?
    ensures Verdict(p, t, e) == Verdict(p, u, e)
    ensures SameLevels(p, Step(p, t, e), Step(p, u, e), e.at)
  {
    StepInv(p, t, now, e);
    StepInv(p, u, now, e);
    SameLevelsLater(p, t, u, now, e.at);
    forall ip
      ensures Level(p, EntryOf(Step(p, t, e), ip), e.at) == Level(p, EntryOf(Step(p, u, e), ip), e.at)
    {
      StepEntry(p, t, e, ip);
      StepEntry(p, u, e, ip);
      if ip == e.ip {
        SameLevelHit(p, EntryOf(t, ip), EntryOf(u, ip), now, Hit(e.at));
        assert OpOf(e, ip)[1..] == [];
      }
    }
    StepEntry(p, t, e, e.ip);
    StepEntry(p, u, e, e.ip);
    SameLevelHit(p, EntryOf(t, e.ip), EntryOf(u, e.ip), now, Hit(e.at));
  }

  lemma {:induction false} SweepKeepsLevels(p: Params, t: Table, u: Table, now: int, e: Event)
    requires RefillsBeforeIdle(p)
    requires SameLevels(p, t, u, now) && now <= e.at && e.Sweep?
    ensures SameLevels(p, Step(p, t, e), u, e.at)
  {
    StepInv(p, t, now, e);
    SameLevelsLater(p, t, u, now, e.at);
    forall ip
      ensures Level(p, EntryOf(Step(p, t, e), ip), e.at) == Level(p, EntryOf(u, ip), e.at)
    {
      StepEntry(p, t, e, ip);
      TickKeepsLevel(p, EntryOf(t, ip), now, Tick(e.at));
      assert OpOf(e, ip)[1..] == [];
    }
  }

  lemma {:induction false} SweepsUnseen(p: Params, t: Table, u: Table, now: int, es: seq<Event>)
    requires RefillsBeforeIdle(p)
    requires SameLevels(p, t, u, now) && Monotone(es, now)
    ensures Verdicts(p, t, es) == Verdicts(p, u, NoSweeps(es))
    decreases |es|
  {
    if es != [] {
      var e := es[0];
      if e.Sweep? {
        SweepKeepsLevels(p, t, u, now, e);
        SweepsUnseen(p, Step(p, t, e), u, e.at, es[1..]);
        assert NoSweeps(es) == NoSweeps(es[1..]);
      } else {
        RequestKeepsLevels(p, t, u, now, e);
        SweepsUnseen(p, Step(p, t, e), Step(p, u, e), e.at, es[1..]);
        assert NoSweeps(es)[0] == e && NoSweeps(es)[1..] == NoSweeps(es[1..]);
      }
    }
  }

  /** No run of the evicting table answers any request differently from the table that never evicts. */
  ghost predicate EvictionUnobservable(p: Params) {
    forall es: seq<Event>, start: int | Monotone(es, start) ::
      Verdicts(p, EMPTY, es) == Verdicts(p, EMPTY, NoSweeps(es))
  }

  /** n requests of one address at one time. */
  function Burst(ip: Ip, n: nat, at: int): seq<Event> {
    seq(n, i => Request(ip, at))
  }

  lemma {:induction false} BurstUnrolls(ip: Ip, n: nat, at: int)
    requires 0 < n
    ensures Burst(ip, n, at)[0] == Request(ip, at) && Burst(ip, n, at)[1..] == Burst(ip, n - 1, at)
  {
  }

  lemma {:induction false} VerdictsConcat(p: Params, t: Table, xs: seq<Event>, ys: seq<Event>)
    ensures Verdicts(p, t, xs + ys) == Verdicts(p, t, xs) + Verdicts(p, RunTable(p, t, xs), ys)
    decreases |xs|
  {
    if xs == [] {
      assert xs + ys == ys;
    } else {
      var e, more := xs[0], xs[1..];
      assert (xs + ys)[0] == e;
      assert (xs + ys)[1..] == more + ys;
      VerdictsConcat(p, Step(p, t, e), more, ys);
      var first, a, b := Verdict(p, t, e), Verdicts(p, Step(p, t, e), more), Verdicts(p, RunTable(p, t, xs), ys);
      assert first + (a + b) == (first + a) + b;
    }
  }

  lemma {:induction false} BurstStep(p: Params, t: Table, ip: Ip, at: int)
    requires Inv(p, t, at)
    ensures var e, s := Request(ip, at), EntryOf(t, ip);
            var u := Step(p, t, e);
            && Inv(p, u, at) && EntryOf(u, ip).Present? && EntryOf(u, ip).seen == at
            && Verdict(p, t, e) == [Level(p, s, at) >= UNIT]
            && Level(p, EntryOf(u, ip), at) == Level(p, s, at) - if Level(p, s, at) >= UNIT then UNIT else 0
  {
    var e := Request(ip, at);
    StepInv(p, t, at, e);
    StepEntry(p, t, e, ip);
    assert OpOf(e, ip)[1..] == [];
    LevelHit(p, EntryOf(t, ip), at, Hit(at));
  }

  /** A burst that the level covers is admitted in full and paid for. */
  lemma {:induction false} BurstAdmitted(p: Params, t: Table, ip: Ip, n: nat, at: int)
    requires Inv(p, t, at) && n * UNIT <= Level(p, EntryOf(t, ip), at)
    ensures var u, v := RunTable(p, t, Burst(ip, n, at)), Verdicts(p, t, Burst(ip, n, at));
            && Inv(p, u, at) && |v| == n && (forall i | 0 <= i < n :: v[i])
            && Level(p, EntryOf(u, ip), at) == Level(p, EntryOf(t, ip), at) - n * UNIT
            && (0 < n ==> EntryOf(u, ip).Present? && EntryOf(u, ip).seen == at)
    decreases n
  {
    if n > 0 {
      BurstUnrolls(ip, n, at);
      BurstStep(p, t, ip, at);
      var u := Step(p, t, Request(ip, at));
      BurstAdmitted(p, u, ip, n - 1, at);
      if n == 1 {
        assert RunTable(p, u, Burst(ip, 0, at)) == u;
      }
    }
  }

  /** A burst that the level does not cover meets a refusal. */
  lemma {:induction false} BurstRefused(p: Params, t: Table, ip: Ip, n: nat, at: int)
    requires Inv(p, t, at) && Level(p, EntryOf(t, ip), at) < n * UNIT
    ensures |Verdicts(p, t, Burst(ip, n, at))| == n
    ensures exists i :: 0 <= i < n && !Verdicts(p, t, Burst(ip, n, at))[i]
    decreases n
  {
    LevelLater(p, EntryOf(t, ip), at, at);
    BurstUnrolls(ip, n, at);
    BurstStep(p, t, ip, at);
    var e := Request(ip, at);
    var u := Step(p, t, e);
    var v := Verdicts(p, u, Burst(ip, n - 1, at));
    assert Verdicts(p, t, Burst(ip, n, at)) == Verdict(p, t, e) + v;
    if Level(p, EntryOf(t, ip), at) >= UNIT {
      BurstRefused(p, u, ip, n - 1, at);
      var i :| 0 <= i < n - 1 && !v[i];
      assert !Verdicts(p, t, Burst(ip, n, at))[i + 1];
    } else {
      BurstLength(p, u, ip, n - 1, at);
      assert !Verdicts(p, t, Burst(ip, n, at))[0];
    }
  }

  lemma {:induction false} BurstLength(p: Params, t: Table, ip: Ip, n: nat, at: int)
    ensures |Verdicts(p, t, Burst(ip, n, at))| == n
    decreases n
  {
    if n > 0 {
      BurstUnrolls(ip, n, at);
      BurstLength(p, Step(p, t, Request(ip, at)), ip, n - 1, at);
    }
  }

  lemma {:induction false} BurstMonotone(ip: Ip, n: nat, at: int, rest: seq<Event>)
    requires Monotone(rest, at)
    ensures Monotone(Burst(ip, n, at) + rest, at)
    ensures NoSweeps(Burst(ip, n, at) + rest) == Burst(ip, n, at) + NoSweeps(rest)
    decreases n
  {
    var es := Burst(ip, n, at) + rest;
    if n == 0 {
      assert es == rest && Burst(ip, n, at) + NoSweeps(rest) == NoSweeps(rest);
    } else {
      BurstUnrolls(ip, n, at);
      BurstMonotone(ip, n - 1, at, rest);
      assert es[0] == Request(ip, at) && es[1..] == Burst(ip, n - 1, at) + rest;
      assert NoSweeps(es) == [Request(ip, at)] + (Burst(ip, n - 1, at) + NoSweeps(rest));
    }
  }

  /** The distinguishing run: empty the bucket, have it swept once it counts as idle, try to empty it again. */
  function Distinguisher(p: Params, ip: Ip): seq<Event> {
    Burst(ip, p.b, 0) + ([Sweep(p.cleanup + 1)] + Burst(ip, p.b, p.cleanup + 1))
  }

  /** The emptied bucket is evicted although it has not refilled. */
  lemma {:induction false} EvictedEarly(p: Params, t: Table, ip: Ip)
    requires !RefillsBeforeIdle(p) && Inv(p, t, 0)
    requires EntryOf(t, ip).Present? && EntryOf(t, ip).seen == 0 && Level(p, EntryOf(t, ip), 0) == 0
    ensures var later := p.cleanup + 1;
            var swept := Step(p, t, Sweep(later));
            && Inv(p, swept, later) && Level(p, EntryOf(swept, ip), later) == p.Cap()
            && Inv(p, t, later) && Level(p, EntryOf(t, ip), later) < p.Cap()
  {
    var sweep := Sweep(p.cleanup + 1);
    StepInv(p, t, 0, sweep);
    StepEntry(p, t, sweep, ip);
    assert OpOf(sweep, ip)[1..] == [];
    LevelLater(p, EntryOf(t, ip), 0, p.cleanup + 1);
  }

  lemma {:induction false} DistinguisherShape(p: Params, ip: Ip)
    ensures var second := Burst(ip, p.b, p.cleanup + 1);
            && Monotone(Distinguisher(p, ip), 0)
            && NoSweeps(Distinguisher(p, ip)) == Burst(ip, p.b, 0) + second
  {
    var later := p.cleanup + 1;
    var second := Burst(ip, p.b, later);
    var rest := [Sweep(later)] + second;
    BurstMonotone(ip, p.b, later, []);
    assert second + [] == second;
    assert rest[0] == Sweep(later) && rest[1..] == second;
    assert NoSweeps(rest) == second;
    BurstMonotone(ip, p.b, 0, rest);
  }

  /** A first burst of b requests empties the bucket. */
  lemma {:induction false} BurstEmpties(p: Params, ip: Ip)
    requires !RefillsBeforeIdle(p)
    ensures var t := RunTable(p, EMPTY, Burst(ip, p.b, 0));
            Inv(p, t, 0) && EntryOf(t, ip).Present? && EntryOf(t, ip).seen == 0 && Level(p, EntryOf(t, ip), 0) == 0
  {
    RefillGrows(p, 0, p.cleanup + 1);
    RefillAdds(p, 0, 0);
    BurstAdmitted(p, EMPTY, ip, p.b, 0);
  }

  /** A burst that a full bucket takes and one that is not full does not. */
  lemma {:induction false} BurstDiffers(p: Params, full: Table, other: Table, ip: Ip, at: int)
    requires Inv(p, full, at) && Inv(p, other, at)
    requires Level(p, EntryOf(full, ip), at) == p.Cap() && Level(p, EntryOf(other, ip), at) < p.Cap()
    ensures Verdicts(p, full, Burst(ip, p.b, at)) != Verdicts(p, other, Burst(ip, p.b, at))
  {
    BurstAdmitted(p, full, ip, p.b, at);
    BurstRefused(p, other, ip, p.b, at);
  }

  lemma {:induction false} SweptVerdicts(p: Params, t: Table, at: int, es: seq<Event>)
    ensures Verdicts(p, t, [Sweep(at)] + es) == Verdicts(p, Step(p, t, Sweep(at)), es)
  {
    assert ([Sweep(at)] + es)[0] == Sweep(at) && ([Sweep(at)] + es)[1..] == es;
  }

  lemma {:induction false} TailsDiffer<T>(head: seq<T>, a: seq<T>, b: seq<T>)
    requires a != b
    ensures head + a != head + b
  {
    assert (head + a)[|head|..] == a && (head + b)[|head|..] == b;
  }

  lemma {:induction false} DistinguisherDistinguishes(p: Params, ip: Ip)
    requires !RefillsBeforeIdle(p)
    ensures var es := Distinguisher(p, ip);
            Monotone(es, 0) && Verdicts(p, EMPTY, es) != Verdicts(p, EMPTY, NoSweeps(es))
  {
    var later := p.cleanup + 1;
    var first, second := Burst(ip, p.b, 0), Burst(ip, p.b, later);
    DistinguisherShape(p, ip);
    BurstEmpties(p, ip);
    VerdictsConcat(p, EMPTY, first, [Sweep(later)] + second);
    VerdictsConcat(p, EMPTY, first, second);
    SecondTellsApart(p, ip, RunTable(p, EMPTY, first), Verdicts(p, EMPTY, first));
  }

  /** The second burst, with the sweep and without it, whatever was answered before. */
  lemma {:induction false} SecondTellsApart(p: Params, ip: Ip, t: Table, head: seq<bool>)
    requires !RefillsBeforeIdle(p) && Inv(p, t, 0)
    requires EntryOf(t, ip).Present? && EntryOf(t, ip).seen == 0 && Level(p, EntryOf(t, ip), 0) == 0
    ensures var second := Burst(ip, p.b, p.cleanup + 1);
            head + Verdicts(p, t, [Sweep(p.cleanup + 1)] + second) != head + Verdicts(p, t, second)
  {
    var later := p.cleanup + 1;
    var second := Burst(ip, p.b, later);
    EvictedEarly(p, t, ip);
    BurstDiffers(p, Step(p, t, Sweep(later)), t, ip, later);
    SweptVerdicts(p, t, later, second);
    TailsDiffer(head, Verdicts(p, t, [Sweep(later)] + second), Verdicts(p, t, second));
  }

  /**
   Eviction is unobservable exactly when b tokens refill within cleanup + 1ns: then every run admits
   and denies the same requests as the table that never evicts, otherwise some run does not.
   */
  lemma {:induction false} EvictionUnobservableIff(p: Params)
    ensures EvictionUnobservable(p) <==> p.b * 1_000_000_000 <= p.r * (p.cleanup + 1)
  {
    if RefillsBeforeIdle(p) {
      forall es: seq<Event>, start: int | Monotone(es, start)
        ensures Verdicts(p, EMPTY, es) == Verdicts(p, EMPTY, NoSweeps(es))
      {
        SweepsUnseen(p, EMPTY, EMPTY, start, es);
      }
    } else {
      DistinguisherDistinguishes(p, "");
    }
  }

  // ---- Windows of a run ----

  function AdmittedFor(p: Params, t: Table, es: seq<Event>, ip: Ip): nat
    decreases |es|
  {
    if es == [] then 0
    else (if es[0].Request? && es[0].ip == ip && Verdict(p, t, es[0]) == [true] then 1 else 0)
         + AdmittedFor(p, Step(p, t, es[0]), es[1..], ip)
  }

  /** Admissions are the requests answered yes. */
  lemma {:induction false} AdmittedAreAnswered(p: Params, t: Table, es: seq<Event>, ip: Ip)
    ensures AdmittedFor(p, t, es, ip) == multiset(VerdictsFor(p, t, es, ip))[true]
    decreases |es|
  {
    if es != [] {
      AdmittedAreAnswered(p, Step(p, t, es[0]), es[1..], ip);
      var first := if es[0].Request? && es[0].ip == ip then Verdict(p, t, es[0]) else [];
      var more := VerdictsFor(p, Step(p, t, es[0]), es[1..], ip);
      assert multiset(first + more) == multiset(first) + multiset(more);
    }
  }

  function OpsOf(es: seq<Event>, ip: Ip): seq<Op>
    decreases |es|
  {
    if es == [] then [] else OpOf(es[0], ip) + OpsOf(es[1..], ip)
  }

  lemma {:induction false} RunEntry(p: Params, t: Table, es: seq<Event>, ip: Ip, start: int, now: int)
    requires KeysAgree(t) && Monotone(es, now) && start <= now
    ensures AdmittedFor(p, t, es, ip) == Admissions(p, EntryOf(t, ip), OpsOf(es, ip))
    ensures Ordered(OpsOf(es, ip), start)
    ensures now <= EndTime(es, now)
    ensures OpsEnd(OpsOf(es, ip), start) <= EndTime(es, now)
    decreases |es|
  {
    if es != [] {
      StepEntry(p, t, es[0], ip);
      if OpOf(es[0], ip) == [] {
        RunEntry(p, Step(p, t, es[0]), es[1..], ip, start, es[0].at);
        assert OpsOf(es, ip) == OpsOf(es[1..], ip);
      } else {
        RunEntry(p, Step(p, t, es[0]), es[1..], ip, es[0].at, es[0].at);
        assert OpOf(es[0], ip)[1..] == [];
        assert OpsOf(es, ip)[0] == OpOf(es[0], ip)[0] && OpsOf(es, ip)[1..] == OpsOf(es[1..], ip);
      }
    }
  }

  /** What bounds the units one address is admitted in a window of length T. */
  predicate WithinBounds(p: Params, units: int, T: int) {
    && (0 < p.cleanup ==> units <= p.b * 1_000_000_000 + p.b * 1_000_000_000 * (T / p.cleanup) + p.r * T)
    && (p.b * 1_000_000_000 <= p.r * (p.cleanup + 1) ==> units <= p.b * 1_000_000_000 + p.r * T)
  }

  lemma {:induction false} WithinBoundsGrow(p: Params, units: int, t: int, T: int)
    requires WithinBounds(p, units, t) && 0 <= t <= T
    ensures WithinBounds(p, units, T)
  {
    RefillGrows(p, t, T);
    if 0 < p.cleanup {
      WindowUnitsGrow(p, t, T);
      assert p.b * UNIT * (t / p.cleanup) == p.Cap() * (t / p.cleanup);
      assert p.b * UNIT * (T / p.cleanup) == p.Cap() * (T / p.cleanup);
    }
  }

  lemma {:induction false} WindowFrom(p: Params, t: Table, now: int, window: seq<Event>, ip: Ip)
    requires Inv(p, t, now) && Monotone(window, now)
    ensures now <= EndTime(window, now)
    ensures WithinBounds(p, AdmittedFor(p, t, window, ip) * UNIT, EndTime(window, now) - now)
  {
    RunEntry(p, t, window, ip, now, now);
    var ops := OpsOf(window, ip);
    var s, T := EntryOf(t, ip), OpsEnd(ops, now) - now;
    var n := AdmittedFor(p, t, window, ip);
    EndLater(ops, now);
    if 0 < p.cleanup {
      WindowBound(p, s, now, ops);
      assert p.b * UNIT * (T / p.cleanup) == p.Cap() * (T / p.cleanup);
    }
    if RefillsBeforeIdle(p) {
      PlainWindowBound(p, s, now, ops);
      LevelLater(p, s, now, now);
    }
    WithinBoundsGrow(p, n * UNIT, T, EndTime(window, now) - now);
  }

  /**
   In every run, whatever b and r: of a window of length T the requests of one address admitted are
   at most b * (1 + T / cleanup) + r * T, and b + r * T when a bucket refills before it counts as idle.
   */
  lemma {:induction false} WindowOfRun(p: Params, before: seq<Event>, window: seq<Event>, start: int, ip: Ip)
    requires Monotone(before, start) && Monotone(window, EndTime(before, start))
    ensures var from := EndTime(before, start);
            var T := EndTime(window, from) - from;
            var n := AdmittedFor(p, RunTable(p, EMPTY, before), window, ip);
            && T >= 0
            && (0 < p.cleanup ==>
                  n * 1_000_000_000 <= p.b * 1_000_000_000 + p.b * 1_000_000_000 * (T / p.cleanup) + p.r * T)
            && (p.b * 1_000_000_000 <= p.r * (p.cleanup + 1) ==> n * 1_000_000_000 <= p.b * 1_000_000_000 + p.r * T)
  {
    ReachableInv(p, EMPTY, start, before);
    WindowFrom(p, RunTable(p, EMPTY, before), EndTime(before, start), window, ip);
  }

  // ---- The size of the table ----

  /** Addresses that sent a request no earlier than since. */
  function Callers(es: seq<Event>, since: int): set<Ip>
    decreases |es|
  {
    if es == [] then {}
    else (if es[0].Request? && es[0].at >= since then {es[0].ip} else {}) + Callers(es[1..], since)
  }

  lemma {:induction false} CallersIff(es: seq<Event>, since: int, ip: Ip)
    ensures ip in Callers(es, since) <==>
              exists i :: 0 <= i < |es| && es[i].Request? && es[i].ip == ip && es[i].at >= since
    decreases |es|
  {
    if es != [] {
      CallersIff(es[1..], since, ip);
      assert forall i | 1 <= i < |es| :: es[i] == es[1..][i - 1];
      if ip in Callers(es[1..], since) {
        var i :| 0 <= i < |es[1..]| && es[1..][i].Request? && es[1..][i].ip == ip && es[1..][i].at >= since;
        assert es[i + 1] == es[1..][i];
      }
    }
  }

  /** The table is swept at least every cleanup interval, the first time within one of `swept`. */
  predicate SweptInTime(p: Params, es: seq<Event>, swept: int)
    decreases |es|
  {
    es != [] ==> es[0].at <= swept + p.cleanup && SweptInTime(p, es[1..], if es[0].Sweep? then es[0].at else swept)
  }

  /** Every entry was made by a caller and last used at or after `since`. */
  ghost predicate SeenSince(t: Table, es: seq<Event>, since: int) {
    forall ip | ip in t.seen :: t.seen[ip] >= since && ip in Callers(es, t.seen[ip])
  }

  lemma {:induction false} CallersGrow(es: seq<Event>, e: Event, since: int, earlier: int)
    requires earlier <= since
    ensures Callers(es, since) <= Callers(es + [e], earlier)
    ensures e.Request? && e.at >= earlier ==> e.ip in Callers(es + [e], earlier)
    decreases |es|
  {
    if es == [] {
      assert es + [e] == [e] && [e][1..] == [];
    } else {
      CallersGrow(es[1..], e, since, earlier);
      assert (es + [e])[1..] == es[1..] + [e];
    }
  }

  lemma {:induction false} RecentStep(p: Params, t: Table, now: int, past: seq<Event>, swept: int, e: Event)
    requires Inv(p, t, now) && now <= e.at && swept <= now && e.at <= swept + p.cleanup
    requires SeenSince(t, past, swept - p.cleanup)
    ensures SeenSince(Step(p, t, e), past + [e], (if e.Sweep? then e.at else swept) - p.cleanup)
  {
    var t' := Step(p, t, e);
    forall ip | ip in t'.seen
      ensures t'.seen[ip] >= (if e.Sweep? then e.at else swept) - p.cleanup && ip in Callers(past + [e], t'.seen[ip])
    {
      CallersGrow(past, e, t'.seen[ip], t'.seen[ip]);
    }
  }

  lemma {:induction false} RecentRun(p: Params, t: Table, now: int, past: seq<Event>, swept: int, es: seq<Event>)
    requires Inv(p, t, now) && Monotone(es, now) && swept <= now <= swept + p.cleanup && SweptInTime(p, es, swept)
    requires SeenSince(t, past, swept - p.cleanup)
    ensures SeenSince(RunTable(p, t, es), past + es, EndTime(es, now) - 2 * p.cleanup)
    decreases |es|
  {
    if es == [] {
      assert past + es == past;
    } else {
      StepInv(p, t, now, es[0]);
      RecentStep(p, t, now, past, swept, es[0]);
      RecentRun(p, Step(p, t, es[0]), es[0].at, past + [es[0]], if es[0].Sweep? then es[0].at else swept, es[1..]);
      assert past + [es[0]] + es[1..] == past + es;
    }
  }

  lemma {:induction false} CallersShrink(es: seq<Event>, since: int, earlier: int)
    requires earlier <= since
    ensures Callers(es, since) <= Callers(es, earlier)
    decreases |es|
  {
    if es != [] {
      CallersShrink(es[1..], since, earlier);
    }
  }

  lemma {:induction false} SubsetSize<T>(a: set<T>, b: set<T>)
    requires a <= b
    ensures |a| <= |b|
  {
    assert b == a + (b - a);
  }

  lemma {:induction false} KeysFromStart(p: Params, es: seq<Event>, start: int)
    requires Monotone(es, start)
    ensures KeysAgree(RunTable(p, EMPTY, es))
  {
    ReachableInv(p, EMPTY, start, es);
  }

  lemma {:induction false} SizeOf(t: Table, es: seq<Event>, since: int, callers: set<Ip>)
    requires KeysAgree(t) && SeenSince(t, es, since) && callers == Callers(es, since)
    ensures t.visitors.Keys <= callers && |t.visitors| <= |callers|
  {
    forall ip | ip in t.seen
      ensures ip in callers
    {
      CallersShrink(es, t.seen[ip], since);
    }
    SubsetSize(t.visitors.Keys, callers);
  }

  lemma {:induction false} RecentFromStart(p: Params, es: seq<Event>, start: int)
    requires Monotone(es, start) && SweptInTime(p, es, start)
    ensures SeenSince(RunTable(p, EMPTY, es), es, EndTime(es, start) - 2 * p.cleanup)
  {
    assert [] + es == es;
    RecentRun(p, EMPTY, start, [], start, es);
  }

  /**
   Swept every interval, the table t at the end of a run never holds more than the addresses that called within the
   last two intervals, and every entry was seen within them.
   */
  lemma {:induction false} TableBound(p: Params, es: seq<Event>, start: int, t: Table, since: int, callers: set<Ip>)
    requires Monotone(es, start) && SweptInTime(p, es, start) && t == RunTable(p, EMPTY, es)
    requires since == EndTime(es, start) - 2 * p.cleanup && callers == Callers(es, since)
    ensures t.visitors.Keys == t.seen.Keys
    ensures forall ip | ip in t.seen :: t.seen[ip] >= since
    ensures t.visitors.Keys <= callers && |t.visitors| <= |callers|
  {
    KeysFromStart(p, es, start);
    RecentFromStart(p, es, start);
    SizeOf(t, es, since, callers);
  }
}
