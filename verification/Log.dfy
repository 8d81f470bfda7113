/** A log of who did what, in order. */
module Log {
  /** What q did. */
  function Mine<A>(log: seq<(nat, A)>, q: nat): seq<A>
    decreases |log|
  {
    if log == [] then []
    else
      var last := log[|log| - 1];
      Mine(log[..|log| - 1], q) + if last.0 == q then [last.1] else []
  }

  lemma {:induction false} MineAppend<A>(log: seq<(nat, A)>, q: nat, a: A, q': nat)
    ensures Mine(log + [(q, a)], q') == if q == q' then Mine(log, q') + [a] else Mine(log, q')
  {
    assert (log + [(q, a)])[..|log|] == log;
  }

  lemma {:induction false} MineMember<A>(log: seq<(nat, A)>, q: nat, a: A)
    ensures (q, a) in log <==> a in Mine(log, q)
    decreases |log|
  {
    if log != [] {
      MineMember(log[..|log| - 1], q, a);
      assert log == log[..|log| - 1] + [log[|log| - 1]];
    }
  }
}
