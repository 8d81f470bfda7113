/**
 The two limiters of pkg/server/server.go nested: every call passes the general limiter, and a call
 to an enrolment endpoint then passes the stricter auth limiter before its handler runs.
 */
module RateLimitNesting {
  import opened TokenBucket
  import opened RateLimitTable

  datatype Call = Call(ip: Ip, enrol: bool, at: int) | SweepGeneral(at: int) | SweepAuth(at: int)

  datatype Limiters = Limiters(general: Table, auth: Table)

  datatype Config = Config(general: Params, auth: Params)

  /** What the general limiter sees of a call. */
  function General(e: Call): seq<Event> {
    match e
    case Call(ip, _, at) => [Request(ip, at)]
    case SweepGeneral(at) => [Sweep(at)]
    case SweepAuth(_) => []
  }

  /** What reaches the auth limiter: calls to an enrolment endpoint that the general limiter admits. */
  function Auth(c: Config, s: Limiters, e: Call): seq<Event> {
    match e
    case Call(ip, enrol, at) =>
      if RequestTable(c.general, s.general, ip, at).1 && enrol then [Request(ip, at)] else []
    case SweepGeneral(_) => []
    case SweepAuth(at) => [Sweep(at)]
  }

  function Step(c: Config, s: Limiters, e: Call): Limiters {
    Limiters(RunTable(c.general, s.general, General(e)), RunTable(c.auth, s.auth, Auth(c, s, e)))
  }

  /** The handler of an enrolment endpoint runs. */
  predicate Reaches(c: Config, s: Limiters, e: Call) {
    e.Call? && Auth(c, s, e) != [] && RequestTable(c.auth, s.auth, e.ip, e.at).1
  }

  /** An enrolment handler runs exactly for an enrolment call that both limiters admit. */
  lemma {:induction false} ReachesIff(c: Config, s: Limiters, e: Call)
    ensures Reaches(c, s, e) <==>
              && e.Call? && e.enrol
              && RequestTable(c.general, s.general, e.ip, e.at).1
              && RequestTable(c.auth, s.auth, e.ip, e.at).1
  {
  }

  /**
   Every call is a request to the general limiter. The auth limiter is touched by an enrolment call that the general
   one admits, and by its own sweep, and by nothing else.
   */
  lemma {:induction false} StepTables(c: Config, s: Limiters, e: Call)
    ensures Step(c, s, e).general ==
              match e
              case Call(ip, _, at) => RequestTable(c.general, s.general, ip, at).0
              case SweepGeneral(at) => SweepTable(c.general, s.general, at)
              case SweepAuth(_) => s.general
    ensures Step(c, s, e).auth ==
              match e
              case Call(ip, enrol, at) =>
                if enrol && RequestTable(c.general, s.general, ip, at).1 then RequestTable(c.auth, s.auth, ip, at).0
                else s.auth
              case SweepGeneral(_) => s.auth
              case SweepAuth(at) => SweepTable(c.auth, s.auth, at)
  {
    OneEvent(c.general, s.general, General(e));
    OneEvent(c.auth, s.auth, Auth(c, s, e));
  }

  lemma {:induction false} OneEvent(p: Params, t: Table, es: seq<Event>)
    requires |es| <= 1
    ensures RunTable(p, t, es) == if es == [] then t else RateLimitTable.Step(p, t, es[0])
  {
    if es != [] {
      assert es[1..] == [];
    }
  }

  function Run(c: Config, s: Limiters, es: seq<Call>): Limiters
    decreases |es|
  {
    if es == [] then s else Run(c, Step(c, s, es[0]), es[1..])
  }

  function Reached(c: Config, s: Limiters, es: seq<Call>, ip: Ip): nat
    decreases |es|
  {
    if es == [] then 0
    else (if Reaches(c, s, es[0]) && es[0].ip == ip then 1 else 0) + Reached(c, Step(c, s, es[0]), es[1..], ip)
  }

  function Generals(es: seq<Call>): seq<Event>
    decreases |es|
  {
    if es == [] then [] else General(es[0]) + Generals(es[1..])
  }

  function Auths(c: Config, s: Limiters, es: seq<Call>): seq<Event>
    decreases |es|
  {
    if es == [] then [] else Auth(c, s, es[0]) + Auths(c, Step(c, s, es[0]), es[1..])
  }

  predicate InOrder(es: seq<Call>, now: int)
    decreases |es|
  {
    es != [] ==> now <= es[0].at && InOrder(es[1..], es[0].at)
  }

  function End(es: seq<Call>, now: int): int
    decreases |es|
  {
    if es == [] then now else End(es[1..], es[0].at)
  }

  ghost predicate Inv(c: Config, s: Limiters, now: int) {
    RateLimitTable.Inv(c.general, s.general, now) && RateLimitTable.Inv(c.auth, s.auth, now)
  }

  lemma {:induction false} InvLater(p: Params, t: Table, now: int, later: int)
    requires RateLimitTable.Inv(p, t, now) && now <= later
    ensures RateLimitTable.Inv(p, t, later)
  {
  }

  lemma {:induction false} StepInv(c: Config, s: Limiters, now: int, e: Call)
    requires Inv(c, s, now) && now <= e.at
    ensures Inv(c, Step(c, s, e), e.at)
  {
    InvLater(c.general, s.general, now, e.at);
    InvLater(c.auth, s.auth, now, e.at);
    ReachableInv(c.general, s.general, now, General(e));
    ReachableInv(c.auth, s.auth, now, Auth(c, s, e));
  }

  lemma {:induction false} RunInv(c: Config, s: Limiters, now: int, es: seq<Call>)
    requires Inv(c, s, now) && InOrder(es, now)
    ensures now <= End(es, now)
    ensures Inv(c, Run(c, s, es), End(es, now))
    decreases |es|
  {
    if es != [] {
      StepInv(c, s, now, es[0]);
      RunInv(c, Step(c, s, es[0]), es[0].at, es[1..]);
    }
  }

  lemma {:induction false} ConsMonotone(first: seq<Event>, rest: seq<Event>, start: int, at: int, end: int)
    requires |first| <= 1 && (first != [] ==> first[0].at == at) && start <= at
    requires Monotone(rest, if first == [] then start else at)
    requires EndTime(rest, if first == [] then start else at) <= end
    ensures Monotone(first + rest, start) && EndTime(first + rest, start) <= end
  {
    if first == [] {
      assert first + rest == rest;
    } else {
      assert (first + rest)[0] == first[0] && (first + rest)[1..] == rest;
    }
  }

  /** Each limiter sees a monotone run of its own, within the window. */
  lemma {:induction false} EachInOrder(c: Config, s: Limiters, es: seq<Call>, gstart: int, astart: int, now: int)
    requires InOrder(es, now) && gstart <= now && astart <= now
    ensures Monotone(Generals(es), gstart) && EndTime(Generals(es), gstart) <= End(es, now)
    ensures Monotone(Auths(c, s, es), astart) && EndTime(Auths(c, s, es), astart) <= End(es, now)
    ensures now <= End(es, now)
    decreases |es|
  {
    if es != [] {
      var e := es[0];
      var g, a := General(e), Auth(c, s, e);
      EachInOrder(c, Step(c, s, e), es[1..], if g == [] then gstart else e.at, if a == [] then astart else e.at, e.at);
      ConsMonotone(g, Generals(es[1..]), gstart, e.at, End(es, now));
      ConsMonotone(a, Auths(c, Step(c, s, e), es[1..]), astart, e.at, End(es, now));
    }
  }

  lemma {:induction false} AdmittedCons(p: Params, t: Table, first: seq<Event>, rest: seq<Event>, ip: Ip)
    requires |first| <= 1
    ensures AdmittedFor(p, t, first + rest, ip)
            == AdmittedFor(p, t, first, ip) + AdmittedFor(p, RunTable(p, t, first), rest, ip)
  {
    if first == [] {
      assert first + rest == rest;
    } else {
      assert (first + rest)[0] == first[0] && (first + rest)[1..] == rest && first[1..] == [];
    }
  }

  /** A handler runs exactly when the auth limiter admits, and only when the general limiter does. */
  lemma {:induction false} ReachedByBoth(c: Config, s: Limiters, es: seq<Call>, ip: Ip)
    ensures Reached(c, s, es, ip) == AdmittedFor(c.auth, s.auth, Auths(c, s, es), ip)
    ensures Reached(c, s, es, ip) <= AdmittedFor(c.general, s.general, Generals(es), ip)
    decreases |es|
  {
    if es != [] {
      var e := es[0];
      var g, a := General(e), Auth(c, s, e);
      ReachedByBoth(c, Step(c, s, e), es[1..], ip);
      AdmittedCons(c.general, s.general, g, Generals(es[1..]), ip);
      AdmittedCons(c.auth, s.auth, a, Auths(c, Step(c, s, e), es[1..]), ip);
      assert g != [] ==> g[1..] == [];
      assert a != [] ==> a[1..] == [];
    }
  }

  lemma {:induction false} NestedFrom(c: Config, s: Limiters, now: int, window: seq<Call>, ip: Ip)
    requires Inv(c, s, now) && InOrder(window, now)
    ensures now <= End(window, now)
    ensures WithinBounds(c.general, Reached(c, s, window, ip) * UNIT, End(window, now) - now)
    ensures WithinBounds(c.auth, Reached(c, s, window, ip) * UNIT, End(window, now) - now)
  {
    var T := End(window, now) - now;
    var g, a := Generals(window), Auths(c, s, window);
    EachInOrder(c, s, window, now, now, now);
    ReachedByBoth(c, s, window, ip);
    WindowFrom(c.general, s.general, now, g, ip);
    WithinBoundsGrow(c.general, AdmittedFor(c.general, s.general, g, ip) * UNIT, EndTime(g, now) - now, T);
    WindowFrom(c.auth, s.auth, now, a, ip);
    WithinBoundsGrow(c.auth, AdmittedFor(c.auth, s.auth, a, ip) * UNIT, EndTime(a, now) - now, T);
  }

  /**
   In every run, in a window of length T, the requests of one address that reach an enrolment handler
   stay within the bounds of the general limiter and within those of the auth limiter.
   */
  lemma {:induction false} NestedBound(c: Config, before: seq<Call>, window: seq<Call>, start: int, ip: Ip)
    requires InOrder(before, start) && InOrder(window, End(before, start))
    ensures var from := End(before, start);
            var T := End(window, from) - from;
            var units := Reached(c, Run(c, Limiters(EMPTY, EMPTY), before), window, ip) * 1_000_000_000;
            && T >= 0
            && forall p | p in [c.general, c.auth] ::
                 && (0 < p.cleanup ==> units <= p.b * 1_000_000_000 * (1 + T / p.cleanup) + p.r * T)
                 && (p.b * 1_000_000_000 <= p.r * (p.cleanup + 1) ==> units <= p.b * 1_000_000_000 + p.r * T)
  {
    RunInv(c, Limiters(EMPTY, EMPTY), start, before);
    NestedFrom(c, Run(c, Limiters(EMPTY, EMPTY), before), End(before, start), window, ip);
    var T := End(window, End(before, start)) - End(before, start);
    assert 0 < c.general.cleanup ==> OneMore(c.general.b * 1_000_000_000, T / c.general.cleanup);
    assert 0 < c.auth.cleanup ==> OneMore(c.auth.b * 1_000_000_000, T / c.auth.cleanup);
  }

  /** Distributivity, as the bound is written. */
  predicate OneMore(x: int, y: int)
    ensures OneMore(x, y)
  {
    x * (1 + y) == x + x * y
  }

  // ---- Isolation ----

  datatype Decision = StoppedByGeneral | StoppedByAuth | Through

  /** What becomes of a call: the auth limiter only guards enrolment endpoints. */
  function Decide(c: Config, s: Limiters, e: Call): Decision
    requires e.Call?
  {
    if !RequestTable(c.general, s.general, e.ip, e.at).1 then StoppedByGeneral
    else if e.enrol && !RequestTable(c.auth, s.auth, e.ip, e.at).1 then StoppedByAuth
    else Through
  }

  /** Each decision by the two verdicts. */
  lemma {:induction false} DecideIff(c: Config, s: Limiters, e: Call)
    requires e.Call?
    ensures var general := RequestTable(c.general, s.general, e.ip, e.at).1;
            var auth := RequestTable(c.auth, s.auth, e.ip, e.at).1;
            && (Decide(c, s, e) == StoppedByGeneral <==> !general)
            && (Decide(c, s, e) == StoppedByAuth <==> general && e.enrol && !auth)
            && (Decide(c, s, e) == Through <==> general && (e.enrol ==> auth))
            && (Reaches(c, s, e) <==> e.enrol && Decide(c, s, e) == Through)
  {
  }

  /** The decisions for the calls of one address, in order. */
  function Decisions(c: Config, s: Limiters, es: seq<Call>, ip: Ip): seq<Decision>
    decreases |es|
  {
    if es == [] then []
    else
      (if es[0].Call? && es[0].ip == ip then [Decide(c, s, es[0])] else [])
      + Decisions(c, Step(c, s, es[0]), es[1..], ip)
  }

  /** The run without the calls of every other address; both limiters are swept as before. */
  function OnlyCalls(es: seq<Call>, ip: Ip): seq<Call>
    decreases |es|
  {
    if es == [] then [] else (if es[0].Call? && es[0].ip != ip then [] else [es[0]]) + OnlyCalls(es[1..], ip)
  }

  /** Sweeps and the address's own calls stay, in order; nothing else does. */
  lemma {:induction false} OnlyCallsSnoc(es: seq<Call>, e: Call, ip: Ip)
    ensures OnlyCalls([], ip) == []
    ensures OnlyCalls(es + [e], ip) == OnlyCalls(es, ip) + if e.Call? && e.ip != ip then [] else [e]
    decreases |es|
  {
    if es == [] {
      assert [] + [e] == [e] && [e][1..] == [];
    } else {
      assert (es + [e])[0] == es[0];
      assert (es + [e])[1..] == es[1..] + [e];
      OnlyCallsSnoc(es[1..], e, ip);
      var first: seq<Call> := if es[0].Call? && es[0].ip != ip then [] else [es[0]];
      var last := OnlyCalls(es[1..] + [e], ip)[|OnlyCalls(es[1..], ip)|..];
      assert first + (OnlyCalls(es[1..], ip) + last) == (first + OnlyCalls(es[1..], ip)) + last;
    }
  }

  /** The two pairs of tables hold the same for one address. */
  predicate Agree(s: Limiters, u: Limiters, ip: Ip) {
    && KeysAgree(s.general) && KeysAgree(u.general) && EntryOf(s.general, ip) == EntryOf(u.general, ip)
    && KeysAgree(s.auth) && KeysAgree(u.auth) && EntryOf(s.auth, ip) == EntryOf(u.auth, ip)
  }

  /** A table's entry for ip after at most one event. */
  lemma {:induction false} EventEntry(p: Params, t: Table, es: seq<Event>, ip: Ip)
    requires KeysAgree(t) && |es| <= 1
    ensures KeysAgree(RunTable(p, t, es))
    ensures EntryOf(RunTable(p, t, es), ip) ==
              if es == [] then EntryOf(t, ip) else TokenBucket.Run(p, EntryOf(t, ip), OpOf(es[0], ip))
  {
    if es != [] {
      StepEntry(p, t, es[0], ip);
      assert es[1..] == [];
    }
  }

  lemma {:induction false} SameVerdict(p: Params, t: Table, u: Table, ip: Ip, at: int)
    requires KeysAgree(t) && KeysAgree(u) && EntryOf(t, ip) == EntryOf(u, ip)
    ensures RequestTable(p, t, ip, at).1 == RequestTable(p, u, ip, at).1
  {
  }

  /** A call of another address changes nothing for ip, whether or not it gets to the auth limiter. */
  lemma {:induction false} OtherCall(c: Config, s: Limiters, u: Limiters, e: Call, ip: Ip)
    requires Agree(s, u, ip) && e.Call? && e.ip != ip
    ensures Agree(Step(c, s, e), u, ip)
  {
    EventEntry(c.general, s.general, General(e), ip);
    EventEntry(c.auth, s.auth, Auth(c, s, e), ip);
  }

  /** A call of ip, or a sweep, does the same to both. */
  lemma {:induction false} OwnCall(c: Config, s: Limiters, u: Limiters, e: Call, ip: Ip)
    requires Agree(s, u, ip) && (e.Call? ==> e.ip == ip)
    ensures Agree(Step(c, s, e), Step(c, u, e), ip)
    ensures e.Call? ==> Decide(c, s, e) == Decide(c, u, e) && Reaches(c, s, e) == Reaches(c, u, e)
  {
    if e.Call? {
      SameVerdict(c.general, s.general, u.general, ip, e.at);
      SameVerdict(c.auth, s.auth, u.auth, ip, e.at);
    }
    assert Auth(c, s, e) == Auth(c, u, e);
    EventEntry(c.general, s.general, General(e), ip);
    EventEntry(c.general, u.general, General(e), ip);
    EventEntry(c.auth, s.auth, Auth(c, s, e), ip);
    EventEntry(c.auth, u.auth, Auth(c, u, e), ip);
  }

  /**
   Isolation of the nested limiters: every decision for one address, and the number of its calls that reach an
   enrolment handler, are those of the run from which the calls of all other addresses are removed.
   */
  lemma {:induction false} NestedIsolation(c: Config, s: Limiters, u: Limiters, es: seq<Call>, ip: Ip)
    requires Agree(s, u, ip)
    ensures Decisions(c, s, es, ip) == Decisions(c, u, OnlyCalls(es, ip), ip)
    ensures Reached(c, s, es, ip) == Reached(c, u, OnlyCalls(es, ip), ip)
    decreases |es|
  {
    if es != [] {
      var e, rest := es[0], OnlyCalls(es[1..], ip);
      if e.Call? && e.ip != ip {
        OtherCall(c, s, u, e, ip);
        NestedIsolation(c, Step(c, s, e), u, es[1..], ip);
        assert OnlyCalls(es, ip) == rest;
      } else {
        OwnCall(c, s, u, e, ip);
        NestedIsolation(c, Step(c, s, e), Step(c, u, e), es[1..], ip);
        var only := OnlyCalls(es, ip);
        assert only == [e] + rest && only[0] == e && only[1..] == rest;
      }
    }
  }
}
