/** Substring search: bytes.Index, bytes.Cut and strings.Contains. */
module Search {
  import opened Wrappers

  predicate OccursAt<T(==)>(d: seq<T>, pat: seq<T>, i: int) {
    0 <= i <= |d| - |pat| && d[i..i + |pat|] == pat
  }

  ghost predicate Contains<T>(d: seq<T>, pat: seq<T>) {
    exists i :: OccursAt(d, pat, i)
  }

  /** The first occurrence of pat. */
  function Find<T(==)>(d: seq<T>, pat: seq<T>): (r: Option<nat>)
    ensures r.Some? ==> OccursAt(d, pat, r.value) && forall i | OccursAt(d, pat, i) :: r.value <= i
    ensures r.None? ==> !Contains(d, pat)
    decreases |d|
  {
    if pat <= d then
      assert d[0..|pat|] == pat;
      Some(0)
    else if d == [] then None
    else
      var r := Find(d[1..], pat);
      assert !OccursAt(d, pat, 0);
      assert forall i | OccursAt(d, pat, i) :: OccursAt(d[1..], pat, i - 1) by {
        forall i | OccursAt(d, pat, i)
          ensures OccursAt(d[1..], pat, i - 1)
        {
          Later(d, pat, i);
        }
      }
      if r.Some? then
        Later(d, pat, r.value + 1);
        Some(r.value + 1)
      else None
  }

  /** An occurrence, element by element. */
  lemma {:induction false} OccursElementwise<T>(d: seq<T>, pat: seq<T>, i: int)
    ensures OccursAt(d, pat, i) <==> 0 <= i <= |d| - |pat| && forall k | 0 <= k < |pat| :: d[i + k] == pat[k]
  {
    if 0 <= i <= |d| - |pat| {
      var part := d[i..i + |pat|];
      assert forall k | 0 <= k < |pat| :: part[k] == d[i + k];
      if forall k | 0 <= k < |pat| :: d[i + k] == pat[k] {
        assert part == pat;
      }
    }
  }

  lemma {:induction false} OccursInSecond<T>(a: seq<T>, b: seq<T>, pat: seq<T>, i: int)
    requires |a| <= i
    ensures OccursAt(a + b, pat, i) <==> OccursAt(b, pat, i - |a|)
  {
    OccursElementwise(a + b, pat, i);
    OccursElementwise(b, pat, i - |a|);
    if i <= |a + b| - |pat| {
      assert forall k | 0 <= k < |pat| :: (a + b)[i + k] == pat[k] <==> b[i - |a| + k] == pat[k];
    }
  }

  lemma {:induction false} OccursInFirst<T>(a: seq<T>, b: seq<T>, pat: seq<T>, i: int)
    requires i + |pat| <= |a|
    ensures OccursAt(a + b, pat, i) <==> OccursAt(a, pat, i)
  {
    OccursElementwise(a + b, pat, i);
    OccursElementwise(a, pat, i);
    if 0 <= i {
      assert forall k | 0 <= k < |pat| :: (a + b)[i + k] == pat[k] <==> a[i + k] == pat[k];
    }
  }

  lemma {:induction false} Later<T>(d: seq<T>, pat: seq<T>, i: int)
    requires d != [] && 1 <= i
    ensures OccursAt(d, pat, i) <==> OccursAt(d[1..], pat, i - 1)
  {
    assert d == [d[0]] + d[1..];
    OccursInSecond([d[0]], d[1..], pat, i);
  }

  /** An occurrence lies on one side of an element that pat does not use. */
  lemma {:induction false} BarrierAt<T>(a: seq<T>, x: T, b: seq<T>, pat: seq<T>, i: int)
    requires x !in pat && OccursAt(a + [x] + b, pat, i)
    ensures OccursAt(a, pat, i) || OccursAt(b, pat, i - |a| - 1)
  {
    var d := a + [x] + b;
    OccursElementwise(d, pat, i);
    forall j | i <= j < i + |pat|
      ensures d[j] != x
    {
      assert d[i + (j - i)] == pat[j - i];
    }
    assert d[|a|] == x;
    if i + |pat| <= |a| {
      assert d == a + ([x] + b);
      OccursInFirst(a, [x] + b, pat, i);
    } else if |a| < i {
      OccursInSecond(a + [x], b, pat, i);
    }
  }

  lemma {:induction false} Barrier<T>(a: seq<T>, x: T, b: seq<T>, pat: seq<T>)
    requires x !in pat && !Contains(a, pat) && !Contains(b, pat)
    ensures !Contains(a + [x] + b, pat)
  {
    forall i
      ensures !OccursAt(a + [x] + b, pat, i)
    {
      if OccursAt(a + [x] + b, pat, i) {
        BarrierAt(a, x, b, pat, i);
      }
    }
  }

  lemma {:induction false} ShortContainsNothing<T>(d: seq<T>, pat: seq<T>)
    requires |d| < |pat|
    ensures !Contains(d, pat)
  {
  }

  /** What a suffix contains, the whole contains. */
  lemma {:induction false} SuffixContains<T>(a: seq<T>, b: seq<T>, pat: seq<T>)
    requires Contains(b, pat)
    ensures Contains(a + b, pat)
  {
    var i :| OccursAt(b, pat, i);
    OccursInSecond(a, b, pat, |a| + i);
  }
}
