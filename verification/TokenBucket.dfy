/**
 A token bucket of golang.org/x/time/rate, in exact integer arithmetic, and the life of one
 IP address in the limiter's table: requests, sweeps, eviction, re-creation.

 Times are nanoseconds. Tokens are counted in units of 1/UNIT token, so a rate of r tokens a
 second is exactly r units a nanosecond and no rounding occurs.
 */
module TokenBucket {

  const UNIT: nat := 1_000_000_000

  /** r: tokens a second; b: burst size; cleanup: sweep interval and idle limit, in nanoseconds. */
  datatype Params = Params(r: nat, b: nat, cleanup: nat) {
    function Cap(): nat { b * UNIT }
  }

  /** What a bucket held when it last admitted a request. */
  datatype Bucket = Bucket(tokens: int, last: int)

  function NewBucket(p: Params, now: int): Bucket {
    Bucket(p.Cap(), now)
  }

  /** Tokens refilled in d nanoseconds. */
  function Refill(p: Params, d: int): int {
    p.r * d
  }

  lemma {:induction false} RefillAdds(p: Params, x: int, y: int)
    ensures Refill(p, x + y) == Refill(p, x) + Refill(p, y)
  {
    assert p.r * (x + y) == p.r * x + p.r * y;
  }

  lemma {:induction false} RefillGrows(p: Params, x: int, y: int)
    requires x <= y
    ensures Refill(p, x) <= Refill(p, y)
  {
    RefillAdds(p, x, y - x);
    assert p.r * (y - x) >= 0;
  }

  /** The bucket's content at time now; reading it changes nothing. */
  function TokensAt(p: Params, k: Bucket, now: int): int {
    var t := k.tokens + Refill(p, if now < k.last then 0 else now - k.last);
    if t > p.Cap() then p.Cap() else t
  }

  /** Allow: one token is taken if there is one, otherwise the bucket is left as it was. */
  function Take(p: Params, k: Bucket, now: int): (Bucket, bool) {
    var t := TokensAt(p, k, now);
    if t >= UNIT then (Bucket(t - UNIT, now), true) else (k, false)
  }

  /** At r tokens a second and b at most, a token is there exactly when 10^9 units are. */
  lemma {:induction false} TakeIff(p: Params, k: Bucket, now: int)
    ensures var found := k.tokens + p.r * if now < k.last then 0 else now - k.last;
            Take(p, k, now).1 <==> p.b >= 1 && found >= 1_000_000_000
  {
    assert p.b >= 1 ==> p.Cap() >= UNIT;
  }

  /** An empty bucket gives its next token once r tokens a second make one: after 10^9 / r nanoseconds. */
  lemma {:induction false} EmptyBucketWaits(p: Params, emptied: int, now: int)
    requires p.b >= 1 && emptied <= now
    ensures Take(p, Bucket(0, emptied), now).1 <==> p.r * (now - emptied) >= 1_000_000_000
  {
    TakeIff(p, Bucket(0, emptied), now);
  }

  /** One IP address in the table: no entry, or a bucket and the time of the last request. */
  datatype Entry = Absent | Present(bucket: Bucket, seen: int)

  datatype Op = Hit(at: int) | Tick(at: int)

  /** The sweep's test: idle for longer than the cleanup interval, or full. */
  predicate Evictable(p: Params, k: Bucket, seen: int, now: int) {
    now - seen > p.cleanup || TokensAt(p, k, now) >= p.Cap()
  }

  function BucketOf(p: Params, s: Entry, now: int): Bucket {
    if s.Present? then s.bucket else NewBucket(p, now)
  }

  function After(p: Params, s: Entry, op: Op): Entry {
    match op
    case Hit(at) => Present(Take(p, BucketOf(p, s, at), at).0, at)
    case Tick(at) => if s.Present? && Evictable(p, s.bucket, s.seen, at) then Absent else s
  }

  predicate Admits(p: Params, s: Entry, op: Op) {
    op.Hit? && Take(p, BucketOf(p, s, op.at), op.at).1
  }

  function Run(p: Params, s: Entry, ops: seq<Op>): Entry
    decreases |ops|
  {
    if ops == [] then s else Run(p, After(p, s, ops[0]), ops[1..])
  }

  /** The answers to the requests in ops, in order. */
  function Answers(p: Params, s: Entry, ops: seq<Op>): seq<bool>
    decreases |ops|
  {
    if ops == [] then []
    else (if ops[0].Hit? then [Admits(p, s, ops[0])] else []) + Answers(p, After(p, s, ops[0]), ops[1..])
  }

  function Admissions(p: Params, s: Entry, ops: seq<Op>): nat
    decreases |ops|
  {
    if ops == [] then 0
    else (if Admits(p, s, ops[0]) then 1 else 0) + Admissions(p, After(p, s, ops[0]), ops[1..])
  }

  predicate Ordered(ops: seq<Op>, now: int) {
    ops != [] ==> now <= ops[0].at && Ordered(ops[1..], ops[0].at)
  }

  /** The time at which a run that starts at now ends. */
  function OpsEnd(ops: seq<Op>, now: int): int {
    if ops == [] then now else OpsEnd(ops[1..], ops[0].at)
  }

  /** What holds of an entry at time now when every request is handled in one step. */
  predicate EntryInv(p: Params, s: Entry, now: int) {
    s.Present? ==> 0 <= s.bucket.tokens <= p.Cap() && s.bucket.last <= s.seen <= now
  }

  /** The tokens a request would find: an absent entry stands for a full bucket. */
  function Level(p: Params, s: Entry, now: int): int {
    if s.Present? then TokensAt(p, s.bucket, now) else p.Cap()
  }

  lemma {:induction false} LevelLater(p: Params, s: Entry, now: int, later: int)
    requires EntryInv(p, s, now) && now <= later
    ensures 0 <= Level(p, s, now) <= Level(p, s, later) <= p.Cap()
    ensures Level(p, s, later) <= Level(p, s, now) + Refill(p, later - now)
    ensures var t := Level(p, s, now) + Refill(p, later - now);
            Level(p, s, later) == if t > p.Cap() then p.Cap() else t
  {
    RefillGrows(p, 0, later - now);
    if s.Present? {
      RefillGrows(p, 0, now - s.bucket.last);
      RefillAdds(p, now - s.bucket.last, later - now);
    }
  }

  lemma {:induction false} EntryInvStep(p: Params, s: Entry, now: int, op: Op)
    requires EntryInv(p, s, now) && now <= op.at
    ensures EntryInv(p, After(p, s, op), op.at)
  {
    LevelLater(p, s, now, op.at);
  }

  /** A request finds the level and pays one token iff it is admitted. */
  lemma {:induction false} LevelHit(p: Params, s: Entry, now: int, op: Op)
    requires EntryInv(p, s, now) && now <= op.at && op.Hit?
    ensures Admits(p, s, op) <==> Level(p, s, op.at) >= UNIT
    ensures Level(p, After(p, s, op), op.at) == Level(p, s, op.at) - if Admits(p, s, op) then UNIT else 0
  {
    LevelLater(p, s, now, op.at);
    var _ := Refill(p, 0);
  }

  /** n requests at one instant. */
  function Hits(n: nat, at: int): seq<Op> {
    seq(n, _ => Hit(at))
  }

  lemma {:induction false} BurstFrom(p: Params, s: Entry, at: int, m: nat, n: nat)
    requires EntryInv(p, s, at) && Level(p, s, at) == m * 1_000_000_000
    ensures Answers(p, s, Hits(n, at)) == seq(n, i => i < m)
    decreases n
  {
    if n > 0 {
      assert Hits(n, at)[0] == Hit(at) && Hits(n, at)[1..] == Hits(n - 1, at);
      LevelHit(p, s, at, Hit(at));
      EntryInvStep(p, s, at, Hit(at));
      BurstFrom(p, After(p, s, Hit(at)), at, if m == 0 then 0 else m - 1, n - 1);
      assert seq(n, i => i < m) == [0 < m] + seq(n - 1, i => i < if m == 0 then 0 else m - 1);
    }
  }

  /** A new address is admitted exactly b times at one instant. */
  lemma {:induction false} NewBucketAdmitsBurst(p: Params, at: int, n: nat)
    ensures Answers(p, Absent, Hits(n, at)) == seq(n, i => i < p.b)
  {
    BurstFrom(p, Absent, at, p.b, n);
  }

  /** Two entries at the same level answer every later run alike. */
  lemma {:induction false} SameLevelHit(p: Params, s: Entry, s': Entry, now: int, op: Op)
    requires EntryInv(p, s, now) && EntryInv(p, s', now) && now <= op.at && op.Hit?
    requires Level(p, s, now) == Level(p, s', now)
    ensures Admits(p, s, op) <==> Admits(p, s', op)
    ensures Level(p, After(p, s, op), op.at) == Level(p, After(p, s', op), op.at)
  {
    LevelLater(p, s, now, op.at);
    LevelLater(p, s', now, op.at);
    LevelHit(p, s, now, op);
    LevelHit(p, s', now, op);
  }

  /** An idle bucket has refilled by the time it is evicted when b <= r * (cleanup + 1ns). */
  predicate RefillsBeforeIdle(p: Params) {
    p.Cap() <= Refill(p, p.cleanup + 1)
  }

  lemma {:induction false} TickKeepsLevel(p: Params, s: Entry, now: int, op: Op)
    requires RefillsBeforeIdle(p)
    requires EntryInv(p, s, now) && now <= op.at && op.Tick?
    ensures Level(p, After(p, s, op), op.at) == Level(p, s, op.at)
  {
    if s.Present? && Evictable(p, s.bucket, s.seen, op.at) {
      if op.at - s.seen > p.cleanup {
        RefillGrows(p, p.cleanup + 1, op.at - s.bucket.last);
      }
    }
  }

  // ---- How many requests of one IP address a window of a run can admit ----

  /** A sweep that replaces a bucket that is not full by nothing, that is by a full bucket. */
  predicate Lossy(p: Params, s: Entry, op: Op) {
    op.Tick? && s.Present? && Evictable(p, s.bucket, s.seen, op.at) && Level(p, s, op.at) < p.Cap()
  }

  lemma {:induction false} EndLater(ops: seq<Op>, now: int)
    requires Ordered(ops, now)
    ensures now <= OpsEnd(ops, now)
    decreases |ops|
  {
    if ops != [] {
      EndLater(ops[1..], ops[0].at);
    }
  }

  /** From here on the idle evictions of this entry are more than cleanup apart, counted from `Since`. */
  function Since(s: Entry, now: int): int {
    if s.Present? then s.seen else now
  }

  lemma {:induction false} TimesGrows(x: nat, y: int, z: int)
    requires y <= z
    ensures x * y <= x * z
  {
  }

  lemma {:induction false} TimesCancels(c: nat, x: int, y: int)
    requires c * x < c * y
    ensures x < y
  {
    if y <= x {
      TimesGrows(c, y, x);
    }
  }

  lemma {:induction false} DivGrows(x: int, y: int, c: nat)
    requires 0 < c && 0 <= x <= y
    ensures 0 <= x / c <= y / c
    ensures x + c <= y ==> x / c + 1 <= y / c
  {
    var i, j := x / c, y / c;
    assert c * i + x % c == x && c * j + y % c == y;
    assert c * (j + 1) == c * j + c && c * (i + 1) == c * i + c;
    TimesCancels(c, i, j + 1);
    if x + c <= y {
      TimesCancels(c, i + 1, j + 1);
    }
  }

  /** Units the idle evictions of an entry can give away from now to end. */
  function IdleUnits(p: Params, s: Entry, now: int, end: int): int
    requires 0 < p.cleanup
  {
    p.Cap() * ((end - Since(s, now)) / p.cleanup)
  }

  function LossOf(p: Params, s: Entry, op: Op): nat {
    if Lossy(p, s, op) then p.Cap() else 0
  }

  /** A lossy sweep comes more than cleanup after the last request, so it uses up one idle interval. */
  lemma {:induction false} IdleStep(p: Params, s: Entry, now: int, op: Op, end: int)
    requires 0 < p.cleanup && EntryInv(p, s, now) && now <= op.at <= end
    ensures Since(s, now) <= Since(After(p, s, op), op.at) <= op.at
    ensures IdleUnits(p, After(p, s, op), op.at, end) + LossOf(p, s, op) <= IdleUnits(p, s, now, end)
  {
    var s' := After(p, s, op);
    var idle, idle' := (end - Since(s, now)) / p.cleanup, (end - Since(s', op.at)) / p.cleanup;
    DivGrows(end - Since(s', op.at), end - Since(s, now), p.cleanup);
    if Lossy(p, s, op) {
      assert Since(s, now) + p.cleanup <= Since(s', op.at);
      TimesGrows(p.Cap(), idle' + 1, idle);
      assert p.Cap() * (idle' + 1) == p.Cap() * idle' + p.Cap();
    } else {
      TimesGrows(p.Cap(), idle', idle);
    }
  }

  /** A request pays for its admission; only a lossy sweep raises the level. */
  lemma {:induction false} LevelStep(p: Params, s: Entry, now: int, op: Op)
    requires EntryInv(p, s, now) && now <= op.at
    ensures (if Admits(p, s, op) then UNIT else 0) + Level(p, After(p, s, op), op.at)
            <= Level(p, s, now) + Refill(p, op.at - now) + LossOf(p, s, op)
  {
    LevelLater(p, s, now, op.at);
    if op.Hit? {
      LevelHit(p, s, now, op);
    }
  }

  lemma {:induction false} AdmissionsFrom(p: Params, s: Entry, now: int, ops: seq<Op>)
    requires 0 < p.cleanup && EntryInv(p, s, now) && Ordered(ops, now)
    ensures var end := OpsEnd(ops, now);
            Since(s, now) <= end &&
            UNIT * Admissions(p, s, ops) <= Level(p, s, now) + Refill(p, end - now) + IdleUnits(p, s, now, end)
    decreases |ops|
  {
    EndLater(ops, now);
    var end := OpsEnd(ops, now);
    if ops == [] {
      NothingAdmitted(p, s, now);
    } else {
      var op := ops[0];
      EndLater(ops[1..], op.at);
      EntryInvStep(p, s, now, op);
      AdmissionsFrom(p, After(p, s, op), op.at, ops[1..]);
      LevelStep(p, s, now, op);
      IdleStep(p, s, now, op, end);
      RefillAdds(p, op.at - now, end - op.at);
    }
  }

  lemma {:induction false} NothingAdmitted(p: Params, s: Entry, now: int)
    requires 0 < p.cleanup && EntryInv(p, s, now)
    ensures 0 <= Level(p, s, now) + Refill(p, 0) + IdleUnits(p, s, now, now)
  {
    LevelLater(p, s, now, now);
    RefillAdds(p, 0, 0);
    DivGrows(0, now - Since(s, now), p.cleanup);
    TimesGrows(p.Cap(), 0, (now - Since(s, now)) / p.cleanup);
  }

  /** Units admitted in a window of length T when nothing relates b to r: b * (1 + T / cleanup) + r * T tokens. */
  function WindowUnits(p: Params, T: int): int
    requires 0 < p.cleanup
  {
    p.Cap() + p.Cap() * (T / p.cleanup) + Refill(p, T)
  }

  lemma {:induction false} WindowUnitsGrow(p: Params, t: int, T: int)
    requires 0 < p.cleanup && 0 <= t <= T
    ensures p.Cap() <= WindowUnits(p, t) <= WindowUnits(p, T)
  {
    DivGrows(0, t, p.cleanup);
    DivGrows(t, T, p.cleanup);
    TimesGrows(p.Cap(), 0, t / p.cleanup);
    TimesGrows(p.Cap(), t / p.cleanup, T / p.cleanup);
    RefillGrows(p, 0, t);
    RefillGrows(p, t, T);
  }

  /**
   With no relation between b and r: in a window of length T that starts in any state the table
   can be in, at most b * (1 + T / cleanup) + r * T requests of one address are admitted.
   */
  lemma {:induction false} WindowBound(p: Params, s: Entry, now: int, ops: seq<Op>)
    requires 0 < p.cleanup && EntryInv(p, s, now) && Ordered(ops, now)
    ensures now <= OpsEnd(ops, now)
    ensures UNIT * Admissions(p, s, ops) <= WindowUnits(p, OpsEnd(ops, now) - now)
    decreases |ops|
  {
    EndLater(ops, now);
    var T := OpsEnd(ops, now) - now;
    if ops == [] {
      WindowUnitsGrow(p, 0, T);
    } else {
      var op := ops[0];
      EntryInvStep(p, s, now, op);
      EndLater(ops[1..], op.at);
      WindowUnitsGrow(p, OpsEnd(ops, now) - op.at, T);
      if op.Tick? && After(p, s, op) == s {
        // no request of this window has come yet
        WindowBound(p, s, op.at, ops[1..]);
      } else {
        LevelLater(p, s, now, op.at);
        if op.Hit? {
          LevelHit(p, s, now, op);
        }
        AdmissionsFrom(p, After(p, s, op), op.at, ops[1..]);
      }
    }
  }

  /** When buckets refill before they can be idle-evicted, the plain token-bucket bound b + r * T. */
  lemma {:induction false} PlainWindowBound(p: Params, s: Entry, now: int, ops: seq<Op>)
    requires RefillsBeforeIdle(p) && EntryInv(p, s, now) && Ordered(ops, now)
    ensures UNIT * Admissions(p, s, ops) <= Level(p, s, now) + Refill(p, OpsEnd(ops, now) - now)
    decreases |ops|
  {
    LevelLater(p, s, now, now);
    if ops == [] {
      RefillAdds(p, 0, 0);
    } else {
      var op := ops[0];
      EntryInvStep(p, s, now, op);
      PlainWindowBound(p, After(p, s, op), op.at, ops[1..]);
      LevelLater(p, s, now, op.at);
      RefillAdds(p, op.at - now, OpsEnd(ops, now) - op.at);
      if op.Hit? {
        LevelHit(p, s, now, op);
      } else {
        TickKeepsLevel(p, s, now, op);
      }
    }
  }
}
