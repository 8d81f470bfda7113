/**
 pkg/backend/common_impl.go, GenerateExportableKey: a temporary Transit key is created, exported and, on every
 way out, made deletable and deleted. Many runs interleave their calls on one key store.
 */
module Transit {
  import opened Wrappers
  import opened Log

  /** Keys by name, and whether deletion is allowed. */
  type Keys = map<string, bool>

  datatype Export = ExportFails | EmptyResponse | BadKeys | NoVersion1 | Exported(pem: string)

  /** What one run meets. A failed call has no effect. */
  datatype Answers = Answers(typeKnown: bool, createFails: bool, answer: Export, parses: bool,
            configFails: bool, deleteFails: bool)

  datatype Job = Job(name: string, answers: Answers)

  datatype Error = UnknownType | CreateFailed | ExportFailed | BadResponse | BadKey

  datatype Call = Create | ReadExport | Configure | Delete

  // ---- The calls ----

  function AfterCall(keys: Keys, name: string, a: Answers, call: Call): Keys {
    match call
    case Create => if a.createFails || name in keys then keys else keys[name := false]
    case ReadExport => keys
    case Configure => if a.configFails || name !in keys then keys else keys[name := true]
    // the engine refuses to delete a key that does not allow it
    case Delete => if a.deleteFails || name !in keys || !keys[name] then keys else keys - {name}
  }

  /** What a run returns. */
  function Outcome(a: Answers): Result<string, Error> {
    if !a.typeKnown then Err(UnknownType)
    else if a.createFails then Err(CreateFailed)
    else
      match a.answer
      case ExportFails => Err(ExportFailed)
      case Exported(pem) => if a.parses then Ok(pem) else Err(BadKey)
      case _ => Err(BadResponse)
  }

  /** The calls of one run. */
  function Script(a: Answers): seq<Call> {
    if !a.typeKnown then [] else if a.createFails then [Create] else [Create, ReadExport, Configure, Delete]
  }

  function Play(keys: Keys, name: string, a: Answers, calls: seq<Call>): Keys
    decreases |calls|
  {
    if calls == [] then keys else Play(AfterCall(keys, name, a, calls[0]), name, a, calls[1..])
  }

  class TransitBackend {
    var keys: Keys
    var calls: seq<(string, Call)>

    constructor ()
      ensures keys == map[] && calls == []
    {
      keys, calls := map[], [];
    }

    method Do(name: string, a: Answers, call: Call)
      modifies this
      ensures keys == AfterCall(old(keys), name, a, call) && calls == old(calls) + [(name, call)]
    {
      keys := AfterCall(keys, name, a, call);
      calls := calls + [(name, call)];
    }

    /** The deferred cleanup. */
    method Cleanup(name: string, a: Answers)
      modifies this
      ensures keys == AfterCall(AfterCall(old(keys), name, a, Configure), name, a, Delete)
      ensures calls == old(calls) + [(name, Configure), (name, Delete)]
    {
      Do(name, a, Configure);
      Do(name, a, Delete);
    }

    method GenerateExportableKey(job: Job) returns (r: Result<string, Error>)
      modifies this
      ensures r == Outcome(job.answers)
      ensures var a := job.answers;
              && (forall pem :: r == Ok(pem) <==>
                    a.typeKnown && !a.createFails && a.answer == Exported(pem) && a.parses)
              && (r == Err(UnknownType) <==> !a.typeKnown)
              && (r == Err(CreateFailed) <==> a.typeKnown && a.createFails)
              && (r == Err(ExportFailed) <==> Creates(a) && a.answer == ExportFails)
              && (r == Err(BadResponse) <==>
                    Creates(a) && (a.answer == EmptyResponse || a.answer == BadKeys || a.answer == NoVersion1))
              && (r == Err(BadKey) <==> Creates(a) && a.answer.Exported? && !a.parses)
      ensures keys == Play(old(keys), job.name, job.answers, Script(job.answers))
      ensures var script := Script(job.answers);
              calls == old(calls) + seq(|script|, i requires 0 <= i < |script| => (job.name, script[i]))
      ensures var n := job.name;
              calls == old(calls) + if !job.answers.typeKnown then []
                                    else if job.answers.createFails then [(n, Create)]
                                    else [(n, Create), (n, ReadExport), (n, Configure), (n, Delete)]
      ensures !Creates(job.answers) ==> keys == old(keys)
      ensures Creates(job.answers) && job.name !in old(keys) ==>
                && (job.answers.configFails ==> keys == old(keys)[job.name := false])
                && (!job.answers.configFails && job.answers.deleteFails ==> keys == old(keys)[job.name := true])
                && (!job.answers.configFails && !job.answers.deleteFails ==> keys == old(keys))
    {
      var a := job.answers;
      if !a.typeKnown {
        return Err(UnknownType);
      }
      Do(job.name, a, Create);
      if a.createFails {
        PlayOne(old(keys), job.name, a, Create, []);
        return Err(CreateFailed);
      }
      Do(job.name, a, ReadExport);
      match a.answer {
        case ExportFails => r := Err(ExportFailed);
        case EmptyResponse => r := Err(BadResponse);
        case BadKeys => r := Err(BadResponse);
        case NoVersion1 => r := Err(BadResponse);
        case Exported(pem) => r := if a.parses then Ok(pem) else Err(BadKey);
      }
      Cleanup(job.name, a);
      PlayAll(old(keys), job.name, a);
    }
  }

  lemma {:induction false} PlayOne(keys: Keys, name: string, a: Answers, call: Call, rest: seq<Call>)
    ensures Play(keys, name, a, [call] + rest) == Play(AfterCall(keys, name, a, call), name, a, rest)
  {
    assert ([call] + rest)[1..] == rest;
  }

  lemma {:induction false} PlayAll(keys: Keys, name: string, a: Answers)
    ensures Play(keys, name, a, [Create, ReadExport, Configure, Delete]) ==
              var exported := AfterCall(AfterCall(keys, name, a, Create), name, a, ReadExport);
              AfterCall(AfterCall(exported, name, a, Configure), name, a, Delete)
  {
    PlayOne(keys, name, a, Create, [ReadExport, Configure, Delete]);
    assert [Create, ReadExport, Configure, Delete] == [Create] + [ReadExport, Configure, Delete];
    var k1 := AfterCall(keys, name, a, Create);
    PlayOne(k1, name, a, ReadExport, [Configure, Delete]);
    assert [ReadExport, Configure, Delete] == [ReadExport] + [Configure, Delete];
    PlayOne(k1, name, a, Configure, [Delete]);
    assert [Configure, Delete] == [Configure] + [Delete];
    PlayOne(AfterCall(k1, name, a, Configure), name, a, Delete, []);
    assert [Delete] == [Delete] + [];
  }

  // ---- Interleaved runs ----

  /** done[q]: how many calls of its script run q has made. */
  datatype State = State(keys: Keys, done: map<nat, nat>, log: seq<(nat, Call)>)

  function Start(keys: Keys, jobs: map<nat, Job>): State {
    State(keys, map q | q in jobs :: 0, [])
  }

  predicate Pending(s: State, j: Job, q: nat) {
    q in s.done && s.done[q] < |Script(j.answers)|
  }

  /** The next call of run q; a run that has made all its calls stays as it is. */
  function Step(s: State, j: Job, q: nat): State {
    if !Pending(s, j, q) then s
    else
      var call := Script(j.answers)[s.done[q]];
      State(AfterCall(s.keys, j.name, j.answers, call), s.done[q := s.done[q] + 1], s.log + [(q, call)])
  }

  function Run(s: State, jobs: map<nat, Job>, schedule: seq<nat>): State
    requires forall q | q in schedule :: q in jobs
    decreases |schedule|
  {
    if schedule == [] then s
    else
      assert schedule[0] in schedule && forall q | q in schedule[1..] :: q in schedule;
      Run(Step(s, jobs[schedule[0]], schedule[0]), jobs, schedule[1..])
  }

  /** One key: absent, or present and deletable or not. */
  function KeyOf(keys: Keys, name: string): Option<bool> {
    if name in keys then Some(keys[name]) else None
  }

  /** What a run's own calls make of its key. */
  function OwnKey(a: Answers, done: nat): Option<bool> {
    if !Creates(a) || done == 0 then None
    else if done <= 2 then Some(false)
    else if done == 3 then Some(!a.configFails)
    else if a.configFails then Some(false)
    else if a.deleteFails then Some(true)
    else None
  }

  /** Runs that create a key do not share a name; others may. */
  ghost predicate Distinct(jobs: map<nat, Job>) {
    forall q, q' | Creator(jobs, q) && Creator(jobs, q') && jobs[q].name == jobs[q'].name :: q == q'
  }

  /** The run gets as far as a key of its name. */
  predicate Creates(a: Answers) {
    a.typeKnown && !a.createFails
  }

  predicate Creator(jobs: map<nat, Job>, q: nat) {
    q in jobs && Creates(jobs[q].answers)
  }

  /** The names of the keys that are created. */
  function Names(jobs: map<nat, Job>): set<string> {
    set q | q in jobs && Creates(jobs[q].answers) :: jobs[q].name
  }

  /** Of one run: the calls it made, and, if it creates a key, what those calls alone make of it. */
  ghost predicate InOrder(s: State, j: Job, q: nat) {
    && q in s.done && s.done[q] <= |Script(j.answers)|
    && Mine(s.log, q) == Script(j.answers)[..s.done[q]]
    && (Creates(j.answers) ==> KeyOf(s.keys, j.name) == OwnKey(j.answers, s.done[q]))
  }

  ghost predicate Inv(s: State, jobs: map<nat, Job>, keys: Keys) {
    && s.done.Keys == jobs.Keys
    && (forall q | q in jobs :: InOrder(s, jobs[q], q))
    // keys of no run are left alone
    && (forall n | n !in Names(jobs) :: KeyOf(s.keys, n) == KeyOf(keys, n))
  }

  lemma {:induction false} OtherKeys(keys: Keys, name: string, a: Answers, call: Call, n: string)
    requires n != name
    ensures KeyOf(AfterCall(keys, name, a, call), n) == KeyOf(keys, n)
  {
  }

  lemma {:induction false} OwnStep(keys: Keys, name: string, a: Answers, done: nat)
    requires done < |Script(a)| && KeyOf(keys, name) == OwnKey(a, done)
    ensures KeyOf(AfterCall(keys, name, a, Script(a)[done]), name) == OwnKey(a, done + 1)
  {
  }

  lemma {:induction false} OwnInOrder(s: State, j: Job, q: nat)
    requires Pending(s, j, q) && InOrder(s, j, q)
    ensures InOrder(Step(s, j, q), j, q)
  {
    var script, n := Script(j.answers), s.done[q];
    MineAppend(s.log, q, script[n], q);
    assert script[..n] + [script[n]] == script[..n + 1];
    if Creates(j.answers) {
      OwnStep(s.keys, j.name, j.answers, n);
    }
  }

  lemma {:induction false} OtherInOrder(s: State, j: Job, q: nat, j': Job, q': nat)
    requires Pending(s, j, q) && q' != q && InOrder(s, j', q')
    requires Creates(j.answers) && Creates(j'.answers) ==> j'.name != j.name
    ensures InOrder(Step(s, j, q), j', q')
  {
    var call := Script(j.answers)[s.done[q]];
    MineAppend(s.log, q, call, q');
    if Creates(j'.answers) {
      CallElsewhere(s.keys, j, s.done[q], j'.name);
    }
  }

  /** A call concerns only the key of a run that creates one. */
  lemma {:induction false} CallElsewhere(keys: Keys, j: Job, done: nat, n: string)
    requires done < |Script(j.answers)| && (Creates(j.answers) ==> j.name != n)
    ensures KeyOf(AfterCall(keys, j.name, j.answers, Script(j.answers)[done]), n) == KeyOf(keys, n)
  {
    if Creates(j.answers) {
      OtherKeys(keys, j.name, j.answers, Script(j.answers)[done], n);
    }
  }

  lemma {:induction false} StepInv(s: State, jobs: map<nat, Job>, keys: Keys, q: nat)
    requires Distinct(jobs) && Inv(s, jobs, keys) && q in jobs
    ensures Inv(Step(s, jobs[q], q), jobs, keys)
  {
    var j := jobs[q];
    if Pending(s, j, q) {
      var s' := Step(s, j, q);
      forall q' | q' in jobs
        ensures InOrder(s', jobs[q'], q')
      {
        assert InOrder(s, jobs[q'], q');
        if q' == q {
          OwnInOrder(s, j, q);
        } else {
          assert Creator(jobs, q) && Creator(jobs, q') ==> jobs[q].name != jobs[q'].name;
          OtherInOrder(s, j, q, jobs[q'], q');
        }
      }
      forall n | n !in Names(jobs)
        ensures KeyOf(s'.keys, n) == KeyOf(keys, n)
      {
        assert Creates(j.answers) ==> j.name in Names(jobs);
        CallElsewhere(s.keys, j, s.done[q], n);
      }
    }
  }

  lemma {:induction false} RunInv(s: State, jobs: map<nat, Job>, keys: Keys, schedule: seq<nat>)
    requires Distinct(jobs) && Inv(s, jobs, keys) && forall q | q in schedule :: q in jobs
    ensures Inv(Run(s, jobs, schedule), jobs, keys)
    decreases |schedule|
  {
    if schedule != [] {
      assert schedule[0] in schedule && forall q | q in schedule[1..] :: q in schedule;
      StepInv(s, jobs, keys, schedule[0]);
      RunInv(Step(s, jobs[schedule[0]], schedule[0]), jobs, keys, schedule[1..]);
    }
  }

  /** The run left a key behind: it created one, and making it deletable or deleting it failed. */
  predicate Leaves(a: Answers) {
    Creates(a) && (a.configFails || a.deleteFails)
  }

  predicate Finished(s: State, j: Job, q: nat) {
    q in s.done && s.done[q] == |Script(j.answers)|
  }

  /** When all runs are finished, one key name: left behind, or as it was. */
  lemma {:induction false} Leftover(s: State, jobs: map<nat, Job>, keys: Keys, n: string)
    requires Distinct(jobs) && Inv(s, jobs, keys) && keys.Keys !! Names(jobs)
    requires forall q | q in jobs :: Finished(s, jobs[q], q)
    ensures n in s.keys <==> n in keys || exists q :: q in jobs && Leaves(jobs[q].answers) && jobs[q].name == n
  {
    if n in Names(jobs) {
      var q :| Creator(jobs, q) && jobs[q].name == n;
      assert Finished(s, jobs[q], q) && InOrder(s, jobs[q], q);
      assert KeyOf(s.keys, n) == OwnKey(jobs[q].answers, |Script(jobs[q].answers)|);
      assert n in s.keys <==> Leaves(jobs[q].answers);
    } else {
      assert KeyOf(s.keys, n) == KeyOf(keys, n);
      assert forall q | Creator(jobs, q) :: jobs[q].name in Names(jobs);
    }
  }

  lemma {:induction false} Leftovers(s: State, jobs: map<nat, Job>, keys: Keys)
    requires Distinct(jobs) && Inv(s, jobs, keys) && keys.Keys !! Names(jobs)
    requires forall q | q in jobs :: Finished(s, jobs[q], q)
    ensures s.keys.Keys == keys.Keys + set q | q in jobs && Leaves(jobs[q].answers) :: jobs[q].name
  {
    forall n
      ensures n in s.keys <==> n in keys || exists q :: q in jobs && Leaves(jobs[q].answers) && jobs[q].name == n
    {
      Leftover(s, jobs, keys, n);
    }
  }

  lemma {:induction false} OthersKept(s: State, jobs: map<nat, Job>, keys: Keys)
    requires Inv(s, jobs, keys) && keys.Keys !! Names(jobs)
    ensures forall n | n in keys :: n in s.keys && s.keys[n] == keys[n]
  {
    forall n | n in keys
      ensures n in s.keys && s.keys[n] == keys[n]
    {
      assert KeyOf(s.keys, n) == KeyOf(keys, n);
    }
  }

  lemma {:induction false} StartInv(jobs: map<nat, Job>, keys: Keys)
    requires keys.Keys !! Names(jobs)
    ensures Inv(Start(keys, jobs), jobs, keys)
  {
    assert forall q | Creator(jobs, q) :: jobs[q].name in Names(jobs);
  }

  /**
   Conservation: in every interleaving in which the runs that create a key have names of their own, no run touches
   another's key or a key that was there before; every run that created a key goes on to allow its deletion and delete
   it, whatever its outcome; and once all runs are finished the keys beyond those there before are exactly those whose
   cleanup failed.
   */
  lemma {:induction false} KeysConserved(jobs: map<nat, Job>, keys: Keys, schedule: seq<nat>)
    requires Distinct(jobs) && keys.Keys !! Names(jobs) && forall q | q in schedule :: q in jobs
    ensures var s := Run(Start(keys, jobs), jobs, schedule);
            && (forall q | Creator(jobs, q) :: KeyOf(s.keys, jobs[q].name) == OwnKey(jobs[q].answers, |Mine(s.log, q)|))
            && (forall q | q in jobs && Finished(s, jobs[q], q) :: Mine(s.log, q) == Script(jobs[q].answers))
            && (forall n | n in keys :: n in s.keys && s.keys[n] == keys[n])
            && ((forall q | q in jobs :: Finished(s, jobs[q], q)) ==>
                  s.keys.Keys == keys.Keys + set q | q in jobs && Leaves(jobs[q].answers) :: jobs[q].name)
  {
    StartInv(jobs, keys);
    RunInv(Start(keys, jobs), jobs, keys, schedule);
    var s := Run(Start(keys, jobs), jobs, schedule);
    OthersKept(s, jobs, keys);
    if forall q | q in jobs :: Finished(s, jobs[q], q) {
      Leftovers(s, jobs, keys);
    }
  }

  // ---- When a shared name loses a key ----

  /** The key of run q was deleted after it was created and before it is exported. */
  predicate Lost(s: State, jobs: map<nat, Job>, q: nat)
    requires q in jobs
  {
    q in s.done && s.done[q] == 1 && jobs[q].name !in s.keys
  }

  ghost predicate CanLose(jobs: map<nat, Job>, keys: Keys, q: nat)
    requires q in jobs
  {
    exists schedule: seq<nat> | (forall x | x in schedule :: x in jobs) ::
      Lost(Run(Start(keys, jobs), jobs, schedule), jobs, q)
  }

  /** Run p creates a key of this name. */
  predicate Claims(jobs: map<nat, Job>, p: nat, n: string) {
    Creator(jobs, p) && jobs[p].name == n
  }

  /** Some run of the name has made its key deletable. */
  ghost predicate Allowed(s: State, jobs: map<nat, Job>, n: string) {
    exists p :: Claims(jobs, p, n) && p in s.done && s.done[p] >= 3 && !jobs[p].answers.configFails
  }

  /** Some run of the name has made a delete call that took effect. */
  ghost predicate Removed(s: State, jobs: map<nat, Job>, n: string) {
    exists p :: Claims(jobs, p, n) && p in s.done && s.done[p] >= 4 && !jobs[p].answers.deleteFails
  }

  ghost predicate Created(s: State, jobs: map<nat, Job>, n: string) {
    exists p :: Claims(jobs, p, n) && p in s.done && s.done[p] >= 1
  }

  ghost predicate NameInv(s: State, jobs: map<nat, Job>, n: string) {
    && s.done.Keys == jobs.Keys
    && (KeyOf(s.keys, n) == Some(true) ==> Allowed(s, jobs, n))
    && (n !in s.keys && Created(s, jobs, n) ==> Allowed(s, jobs, n) && Removed(s, jobs, n))
  }

  lemma {:induction false} MoreDone(s: State, s': State, jobs: map<nat, Job>, n: string)
    requires s'.done.Keys == s.done.Keys && forall p | p in s.done :: s.done[p] <= s'.done[p]
    ensures Allowed(s, jobs, n) ==> Allowed(s', jobs, n)
    ensures Removed(s, jobs, n) ==> Removed(s', jobs, n)
  {
  }

  /** A call of a run that does not claim the name neither changes the key nor claims it. */
  lemma {:induction false} UnclaimedStep(s: State, jobs: map<nat, Job>, n: string, q: nat)
    requires NameInv(s, jobs, n) && q in jobs && !Claims(jobs, q, n)
    ensures NameInv(Step(s, jobs[q], q), jobs, n)
  {
    var s' := Step(s, jobs[q], q);
    MoreDone(s, s', jobs, n);
    if Pending(s, jobs[q], q) {
      CallElsewhere(s.keys, jobs[q], s.done[q], n);
      assert forall p | Claims(jobs, p, n) :: p != q;
    }
  }

  lemma {:induction false} ClaimedStep(s: State, jobs: map<nat, Job>, n: string, q: nat)
    requires NameInv(s, jobs, n) && Claims(jobs, q, n)
    ensures NameInv(Step(s, jobs[q], q), jobs, n)
  {
    var s' := Step(s, jobs[q], q);
    MoreDone(s, s', jobs, n);
    if Pending(s, jobs[q], q) {
      var d := s.done[q];
      assert s'.done[q] == d + 1;
      assert d >= 1 ==> Created(s, jobs, n);
    }
  }

  lemma {:induction false} NameRun(s: State, jobs: map<nat, Job>, n: string, schedule: seq<nat>)
    requires NameInv(s, jobs, n) && forall q | q in schedule :: q in jobs
    ensures NameInv(Run(s, jobs, schedule), jobs, n)
    decreases |schedule|
  {
    if schedule != [] {
      var q := schedule[0];
      assert q in schedule && forall x | x in schedule[1..] :: x in schedule;
      if Claims(jobs, q, n) {
        ClaimedStep(s, jobs, n, q);
      } else {
        UnclaimedStep(s, jobs, n, q);
      }
      NameRun(Step(s, jobs[q], q), jobs, n, schedule[1..]);
    }
  }

  lemma {:induction false} RunCons(s: State, jobs: map<nat, Job>, q: nat, rest: seq<nat>)
    requires q in jobs && forall x | x in rest :: x in jobs
    ensures forall x | x in [q] + rest :: x in jobs
    ensures Run(s, jobs, [q] + rest) == Run(Step(s, jobs[q], q), jobs, rest)
  {
    assert ([q] + rest)[1..] == rest;
  }

  lemma {:induction false} RunConcat(s: State, jobs: map<nat, Job>, a: seq<nat>, b: seq<nat>)
    requires (forall x | x in a :: x in jobs) && (forall x | x in b :: x in jobs)
    ensures forall x | x in a + b :: x in jobs
    ensures Run(s, jobs, a + b) == Run(Run(s, jobs, a), jobs, b)
    decreases |a|
  {
    if a == [] {
      assert a + b == b;
    } else {
      assert a[0] in a && forall x | x in a[1..] :: x in a;
      assert (a + b)[0] == a[0] && (a + b)[1..] == a[1..] + b;
      RunConcat(Step(s, jobs[a[0]], a[0]), jobs, a[1..], b);
    }
  }

  /** n turns of one run. */
  function Turns(q: nat, n: nat): seq<nat> {
    seq(n, _ => q)
  }

  /** Once its key is there, three turns of a run whose configure call works make it deletable. */
  lemma {:induction false} ThreeTurns(s: State, jobs: map<nat, Job>, p: nat)
    requires Creator(jobs, p) && p in s.done && s.done[p] == 0 && jobs[p].name in s.keys && !jobs[p].answers.configFails
    ensures var t := Run(s, jobs, Turns(p, 3));
            KeyOf(t.keys, jobs[p].name) == Some(true) && t.done == s.done[p := 3]
  {
    var j := jobs[p];
    var s1 := Step(s, j, p);
    var s2 := Step(s1, j, p);
    assert Turns(p, 3) == [p] + Turns(p, 2) && Turns(p, 2) == [p] + Turns(p, 1) && Turns(p, 1) == [p] + [];
    RunCons(s, jobs, p, Turns(p, 2));
    RunCons(s1, jobs, p, Turns(p, 1));
    RunCons(s2, jobs, p, []);
  }

  /** A deletable key is gone after four more turns of a run whose delete call works. */
  lemma {:induction false} DeleteTurns(s: State, jobs: map<nat, Job>, p: nat, left: nat)
    requires Creator(jobs, p) && p in s.done && !jobs[p].answers.deleteFails && 0 < left <= 4
    requires 4 - left <= s.done[p] < 4 && KeyOf(s.keys, jobs[p].name) == Some(true)
    ensures var t := Run(s, jobs, Turns(p, left));
            jobs[p].name !in t.keys && t.done == s.done[p := 4]
    decreases left
  {
    var j := jobs[p];
    var s' := Step(s, j, p);
    assert Turns(p, left) == [p] + Turns(p, left - 1);
    RunCons(s, jobs, p, Turns(p, left - 1));
    if s.done[p] == 3 {
      Finishing(s', jobs, p, left - 1);
      assert s.done[p := 4] == s'.done;
    } else {
      DeleteTurns(s', jobs, p, left - 1);
      assert s'.done[p := 4] == s.done[p := 4];
    }
  }

  /** Turns of a finished run do nothing. */
  lemma {:induction false} Finishing(s: State, jobs: map<nat, Job>, p: nat, left: nat)
    requires p in jobs && !Pending(s, jobs[p], p)
    ensures Run(s, jobs, Turns(p, left)) == s
    decreases left
  {
    if left > 0 {
      assert Turns(p, left) == [p] + Turns(p, left - 1);
      RunCons(s, jobs, p, Turns(p, left - 1));
      Finishing(s, jobs, p, left - 1);
    }
  }

  /** After q has created the key, run p allows its deletion and run d, perhaps the same, deletes it. */
  lemma {:induction false} LosingRun(jobs: map<nat, Job>, keys: Keys, q: nat, p: nat, d: nat)
    requires Creator(jobs, q) && jobs[q].name !in keys && p != q && d != q
    requires Claims(jobs, p, jobs[q].name) && !jobs[p].answers.configFails
    requires Claims(jobs, d, jobs[q].name) && !jobs[d].answers.deleteFails
    ensures CanLose(jobs, keys, q)
  {
    var s0 := Start(keys, jobs);
    var s1 := Step(s0, jobs[q], q);
    var s2 := Run(s1, jobs, Turns(p, 3));
    ThreeTurns(s1, jobs, p);
    DeleteTurns(s2, jobs, d, 4);
    RunConcat(s1, jobs, Turns(p, 3), Turns(d, 4));
    RunCons(s0, jobs, q, Turns(p, 3) + Turns(d, 4));
    var schedule := [q] + (Turns(p, 3) + Turns(d, 4));
    assert Lost(Run(s0, jobs, schedule), jobs, q);
  }

  /**
   When a name is shared, for all runs and answers: some interleaving deletes the key of run q between its creation
   and its export exactly when, among the other runs that create a key of that name, one can make it deletable and
   one, perhaps the same, can delete it.
   */
  lemma {:induction false} SharedNameLosesKeyIff(jobs: map<nat, Job>, keys: Keys, q: nat)
    requires Creator(jobs, q) && jobs[q].name !in keys
    ensures CanLose(jobs, keys, q) <==>
              && (exists p :: p != q && Claims(jobs, p, jobs[q].name) && !jobs[p].answers.configFails)
              && (exists d :: d != q && Claims(jobs, d, jobs[q].name) && !jobs[d].answers.deleteFails)
  {
    var n := jobs[q].name;
    if CanLose(jobs, keys, q) {
      var schedule: seq<nat> :|
        (forall x | x in schedule :: x in jobs) && Lost(Run(Start(keys, jobs), jobs, schedule), jobs, q);
      NameRun(Start(keys, jobs), jobs, n, schedule);
      var s := Run(Start(keys, jobs), jobs, schedule);
      assert Claims(jobs, q, n) && Created(s, jobs, n);
    }
    if
      && (exists p :: p != q && Claims(jobs, p, n) && !jobs[p].answers.configFails)
      && (exists d :: d != q && Claims(jobs, d, n) && !jobs[d].answers.deleteFails)
    {
      var p :| p != q && Claims(jobs, p, n) && !jobs[p].answers.configFails;
      var d :| d != q && Claims(jobs, d, n) && !jobs[d].answers.deleteFails;
      LosingRun(jobs, keys, q, p, d);
    }
  }

  /** Two runs that got one name and meet no failure: either can lose its key. */
  lemma {:induction false} SharedNameLosesKey(name: string, a: Answers)
    requires Creates(a) && !a.configFails && !a.deleteFails
    ensures var jobs: map<nat, Job> := map[0 := Job(name, a), 1 := Job(name, a)];
            CanLose(jobs, map[], 0) && CanLose(jobs, map[], 1)
  {
    var jobs: map<nat, Job> := map[0 := Job(name, a), 1 := Job(name, a)];
    LosingRun(jobs, map[], 0, 1, 1);
    LosingRun(jobs, map[], 1, 0, 0);
  }
}
