/**
 pkg/server/ratelimit.go in its own form: limiter objects updated in place, two maps that requests
 and the sweep change. Each method is tied to a step of RateLimitInterleaving; a whole request to a
 step of RateLimitTable. The mutex makes each of getVisitor and the sweep one step.
 */
module RateLimiters {
  import opened TokenBucket
  import Interleaving = RateLimitInterleaving
  import Table = RateLimitTable

  /** rate.Limiter: what NewLimiter, Allow and Tokens do to the object. */
  class Limiter {
    const p: Params
    var tokens: int
    var last: int

    constructor (p: Params, now: int)
      ensures this.p == p && tokens == p.b * 1_000_000_000 && last == now
      ensures State() == NewBucket(p, now)
    {
      this.p := p;
      tokens, last := p.Cap(), now;
    }

    function State(): Bucket
      reads this
    {
      Bucket(tokens, last)
    }

    method Tokens(now: int) returns (t: int)
      ensures var found := tokens + p.r * if now < last then 0 else now - last;
              t == if found > p.b * 1_000_000_000 then p.b * 1_000_000_000 else found
      ensures t == TokensAt(p, State(), now)
    {
      var elapsed := if now < last then 0 else now - last;
      t := tokens + Refill(p, elapsed);
      if t > p.Cap() {
        t := p.Cap();
      }
    }

    method Allow(now: int) returns (ok: bool)
      modifies this
      ensures var found := old(tokens) + p.r * if now < old(last) then 0 else now - old(last);
              var there := if found > p.b * 1_000_000_000 then p.b * 1_000_000_000 else found;
              && (ok <==> there >= 1_000_000_000)
              && tokens == (if ok then there - 1_000_000_000 else old(tokens))
              && last == if ok then now else old(last)
      ensures (State(), ok) == Take(p, old(State()), now)
    {
      var t := Tokens(now);
      ok := t >= UNIT;
      if ok {
        tokens, last := t - UNIT, now;
      }
    }
  }

  class RateLimiter {
    const p: Params
    var visitors: map<string, Limiter>
    var lastSeen: map<string, int>
    // every limiter ever handed out: a request may still hold one that was evicted
    ghost var made: set<Limiter>

    ghost predicate Valid()
      reads this, made
    {
      && (forall l | l in made :: l.p == p)
      && visitors.Keys == lastSeen.Keys
      && (forall ip | ip in visitors :: visitors[ip] in made)
      && (forall ip, ip' | ip in visitors && ip' in visitors && visitors[ip] == visitors[ip'] :: ip == ip')
    }

    ghost function World(): Interleaving.World<Limiter>
      reads this, made
    {
      Interleaving.World(map l | l in made :: l.State(), visitors, lastSeen)
    }

    ghost function Contents(): Table.Table
      requires Valid()
      reads this, made
    {
      Interleaving.Contents(World())
    }

    constructor (p: Params)
      ensures Valid() && this.p == p && World() == Interleaving.World(map[], map[], map[])
      ensures Contents() == Table.EMPTY
    {
      this.p := p;
      visitors, lastSeen, made := map[], map[], {};
    }

    method GetVisitor(ip: string, now: int) returns (limiter: Limiter)
      requires Valid()
      modifies this
      ensures Valid() && limiter in made && ip in visitors && visitors[ip] == limiter && fresh(made - old(made))
      ensures ip !in old(visitors) ==> fresh(limiter)
      ensures World() == Interleaving.GetVisitor(p, old(World()), ip, limiter, now)
    {
      if ip in visitors {
        limiter := visitors[ip];
      } else {
        limiter := new Limiter(p, now);
        visitors := visitors[ip := limiter];
        made := made + {limiter};
      }
      lastSeen := lastSeen[ip := now];
      assert ip !in old(visitors) ==>
        World().heap == old(World()).heap[limiter := NewBucket(p, now)];
    }

    /** A request spends a token of the limiter it holds, in the table or not. */
    method Spend(limiter: Limiter, now: int) returns (ok: bool)
      requires Valid() && limiter in made
      modifies limiter
      ensures Valid() && (World(), ok) == Interleaving.Allow(p, old(World()), limiter, now)
    {
      ok := limiter.Allow(now);
      var (k, _) := Take(p, old(limiter.State()), now);
      assert World().heap == old(World()).heap[limiter := k];
    }

    /** An entry is deleted when it was idle for too long, when its bucket is full, or when it has no time stamp. */
    ghost predicate Stale(ip: string, now: int)
      requires ip in visitors
      reads this, visitors[ip]
    {
      ip !in lastSeen || Evictable(p, visitors[ip].State(), lastSeen[ip], now)
    }

    method IsStale(ip: string, now: int) returns (stale: bool)
      requires ip in visitors && visitors[ip].p == p
      ensures stale <==> Stale(ip, now)
    {
      stale := true;
      if ip in lastSeen {
        var last := lastSeen[ip];
        var tokens := visitors[ip].Tokens(now);
        stale := now - last > p.cleanup || tokens >= p.Cap();
      }
    }

    /** The sweep's treatment of one entry. */
    method DeleteIfStale(ip: string, now: int) returns (stale: bool)
      requires ip in visitors && visitors[ip].p == p
      modifies `visitors, `lastSeen
      ensures stale <==> old(Stale(ip, now))
      ensures stale ==> visitors == old(visitors) - {ip} && lastSeen == old(lastSeen) - {ip}
      ensures !stale ==> visitors == old(visitors) && lastSeen == old(lastSeen)
    {
      stale := IsStale(ip, now);
      if stale {
        visitors := visitors - {ip};
        lastSeen := lastSeen - {ip};
      }
    }

    /** The loop over the map: every entry is visited, the stale ones are deleted. */
    method DeleteStale(now: int)
      requires forall ip | ip in visitors :: visitors[ip].p == p
      modifies `visitors, `lastSeen
      ensures var gone := set ip | ip in old(visitors) && old(Stale(ip, now));
              visitors == old(visitors) - gone && lastSeen == old(lastSeen) - gone
    {
      ghost var stales := set ip | ip in visitors && Stale(ip, now);
      var todo := visitors.Keys;
      while todo != {}
        invariant todo <= old(visitors).Keys
        invariant visitors == old(visitors) - (stales - todo) && lastSeen == old(lastSeen) - (stales - todo)
        decreases todo
      {
        var ip :| ip in todo;
        var stale := DeleteIfStale(ip, now);
        assert stale <==> ip in stales;
        todo := todo - {ip};
      }
      assert stales - todo == stales;
    }

    lemma {:induction false} AfterSweep(w: Interleaving.World<Limiter>, now: int)
      requires (forall l | l in made :: l.p == p) && Interleaving.Linked(w)
      requires w.heap == map l | l in made :: l.State()
      requires var doomed := Interleaving.Doomed(p, w, now);
               visitors == w.visitors - doomed && lastSeen == w.seen - doomed
      ensures Valid() && World() == Interleaving.Sweep(p, w, now)
      ensures Contents() == Table.SweepTable(p, Interleaving.Contents(w), now)
    {
      Interleaving.AtomicSweep(p, w, now);
    }

    /** One tick of the cleanup loop. */
    method Sweep(now: int)
      requires Valid()
      modifies `visitors, `lastSeen
      ensures Valid()
      ensures World() == Interleaving.Sweep(p, old(World()), now)
      ensures Contents() == Table.SweepTable(p, old(Contents()), now)
    {
      ghost var w := World();
      ghost var stales := set ip | ip in visitors && Stale(ip, now);
      assert stales == Interleaving.Doomed(p, w, now);
      DeleteStale(now);
      AfterSweep(w, now);
    }

    /** The middleware's decision when no other step comes between getVisitor and Allow. */
    method Admit(ip: string, now: int) returns (ok: bool)
      requires Valid()
      modifies this, made
      ensures Valid() && fresh(made - old(made))
      ensures (Contents(), ok) == Table.RequestTable(p, old(Contents()), ip, now)
    {
      ghost var w := World();
      var limiter := GetVisitor(ip, now);
      assert ip !in w.visitors ==> limiter !in w.heap;
      Interleaving.AtomicRequest(p, w, ip, limiter, now);
      ok := Spend(limiter, now);
    }
  }
}
