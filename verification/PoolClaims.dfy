/** Which task the pool of scripts/emit_sweep.py gives to a worker, told from what was called and what is being called. */
module PoolClaims {
  import opened Pool

  /** Task `i` was not called yet, and no worker has it. */
  ghost predicate Waits<V, E>(c: Job<V, E>, s: State<V, E>, i: nat) {
    i < |c.isComp| && i !in s.log && !InFlight(s.workers, i)
  }

  /** A waiting task may start: a composition task only while fewer workers than the cap hold one. */
  ghost predicate MayStart<V, E>(c: Job<V, E>, s: State<V, E>, i: nat) {
    Waits(c, s, i) && (c.isComp[i] ==> Slots(c.isComp, s.workers) < c.compJobs)
  }

  ghost predicate MayComp<V, E>(c: Job<V, E>, s: State<V, E>, i: nat) { MayStart(c, s, i) && c.isComp[i] }

  /** `i` is the first task of its class that waits. */
  ghost predicate FirstWaiting<V, E>(c: Job<V, E>, s: State<V, E>, i: nat) {
    Waits(c, s, i) && forall j: nat :: j < i && Waits(c, s, j) ==> c.isComp[j] != c.isComp[i]
  }

  /** What an idle worker does next. */
  ghost predicate TakesNext<V, E>(c: Job<V, E>, s: State<V, E>, x: Worker) {
    if exists i: nat :: MayComp(c, s, i) then x.Claimed? && FirstWaiting(c, s, x.i) && c.isComp[x.i]
    else if exists i: nat :: MayStart(c, s, i) then x.Claimed? && FirstWaiting(c, s, x.i) && !c.isComp[x.i]
    else x == Retired
  }

  predicate Ascending(s: seq<nat>) { forall j, k :: 0 <= j < k < |s| ==> s[j] < s[k] }

  /** The queues hold the waiting tasks of their class, in order. */
  ghost predicate Queued<V, E>(c: Job<V, E>, s: State<V, E>) {
    && Ascending(s.comp) && Ascending(s.rest)
    && (forall i: nat :: i in s.comp <==> Waits(c, s, i) && c.isComp[i])
    && (forall i: nat :: i in s.rest <==> Waits(c, s, i) && !c.isComp[i])
  }

  lemma StepAscends<V, E>(c: Job<V, E>, s: State<V, E>, s': State<V, E>)
    requires Ascending(s.comp) && Ascending(s.rest) && Next(c, s, s')
    ensures Ascending(s'.comp) && Ascending(s'.rest) && |s'.workers| == |s.workers|
  {
  }

  lemma {:induction false} RunAscends<V, E>(c: Job<V, E>, trace: seq<State<V, E>>, i: nat)
    requires Run(c, trace) && i < |trace|
    ensures Ascending(trace[i].comp) && Ascending(trace[i].rest)
    ensures |trace[i].workers| == if c.jobs > 1 then c.jobs else 1
    decreases i
  {
    hide Next;
    if i > 0 {
      hide Ascending, Init;
      RunAscends(c, trace, i - 1);
      StepAscends(c, trace[i - 1], trace[i]);
    }
  }

  lemma RunQueued<V, E>(c: Job<V, E>, trace: seq<State<V, E>>, i: nat)
    requires JobOk(c) && Run(c, trace) && i < |trace|
    ensures Queued(c, trace[i])
  {
    RunAscends(c, trace, i);
    RunInv(c, trace, i);
    var s := trace[i];
    hide Run, Slots, RecordsOk, CapOk, StaffedOk, Ascending;
    forall j: nat | InFlight(s.workers, j)
      ensures j !in s.comp && j !in s.rest
    {
    }
  }

  /** In every state of every run an idle worker's next step is to take the first composition task that waits, where one
      may start; else the first other task that waits; and to retire where no task may start. It changes nothing else
      that is recorded, and there are as many workers as asked for, and at least one. */
  lemma IdleTakes<V, E>(c: Job<V, E>, trace: seq<State<V, E>>, i: nat, w: nat)
    requires JobOk(c) && Run(c, trace) && i < |trace| && w < |trace[i].workers| && trace[i].workers[w] == Idle
    requires Sized(c, trace[i])
    ensures var s := trace[i];
      var s' := Step(c, s, w);
      && s'.workers == s.workers[w := s'.workers[w]] && TakesNext(c, s, s'.workers[w])
      && s'.results == s.results && s'.errors == s.errors && s'.log == s.log
      && |s.workers| == if c.jobs > 1 then c.jobs else 1
  {
    RunAscends(c, trace, i);
    RunQueued(c, trace, i);
    RunInv(c, trace, i);
    var s := trace[i];
    Acquired(c, s, w);
    hide Run, PlacesOk, RecordsOk, StaffedOk, QueuesOk, Waits, Slots, Step, Init, Ascending, FirstWaiting, Sized;
    assert forall j: nat :: MayComp(c, s, j) ==> j in s.comp && s.running < c.compJobs;
    if s.comp != [] && s.running < c.compJobs {
      HeadWaits(c, s, s.comp, true);
      assert MayComp(c, s, s.comp[0]);
    } else if s.rest != [] {
      HeadWaits(c, s, s.rest, false);
      assert MayStart(c, s, s.rest[0]);
    }
  }

  lemma Acquired<V, E>(c: Job<V, E>, s: State<V, E>, w: nat)
    requires Sized(c, s) && w < |s.workers| && s.workers[w] == Idle
    ensures var s' := Step(c, s, w);
      && s'.workers == s.workers[w := s'.workers[w]] && s'.results == s.results && s'.errors == s.errors && s'.log == s.log
      && s'.workers[w] == if s.comp != [] && s.running < c.compJobs then Claimed(s.comp[0])
                          else if s.rest != [] then Claimed(s.rest[0]) else Retired
  {
  }

  lemma HeadWaits<V, E>(c: Job<V, E>, s: State<V, E>, q: seq<nat>, comp: bool)
    requires q != [] && Ascending(q) && forall i: nat :: i in q <==> Waits(c, s, i) && c.isComp[i] == comp
    ensures FirstWaiting(c, s, q[0]) && c.isComp[q[0]] == comp
  {
    hide Waits;
    assert q[0] in q;
  }
}
