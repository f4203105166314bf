/** The worker pool of scripts/emit_sweep.py (`run_pooled`) as a state machine over its atomic steps. */
module Pool {
  import opened Text

  /** What calling one task does: it returns a value or raises. */
  datatype Outcome<+V, +E> = Value(v: V) | Raised(e: E)

  /** The arguments of one call: task `i` is a composition task iff `isComp[i]`. */
  datatype Job<+V, +E> = Job(isComp: seq<bool>, outcome: seq<Outcome<V, E>>, jobs: int, compJobs: int)

  predicate JobOk<V, E>(c: Job<V, E>) { |c.isComp| == |c.outcome| }

  /** `Claimed`: a task was popped and is being called. `Ran`: its result is recorded, the composition slot not
      given back yet. */
  datatype Worker = Idle | Claimed(i: nat) | Ran(i: nat) | Retired

  /** `log` records the tasks called, in order. */
  datatype State<+V, +E> = State(comp: seq<nat>, rest: seq<nat>, running: int, workers: seq<Worker>,
                                 results: seq<Option<V>>, errors: seq<Option<E>>, log: seq<nat>)

  function TasksOf(isComp: seq<bool>, want: bool): (r: seq<nat>)
    ensures forall j :: 0 <= j < |r| ==> r[j] < |isComp| && isComp[r[j]] == want
    ensures forall i :: 0 <= i < |isComp| && isComp[i] == want ==> i in r
    ensures forall j, k :: 0 <= j < k < |r| ==> r[j] < r[k]
  {
    if isComp == [] then []
    else
      var n := |isComp| - 1;
      var init := TasksOf(isComp[..n], want);
      assert forall i: nat :: i < n ==> isComp[..n][i] == isComp[i];
      if isComp[n] == want then init + [n] else init
  }

  function Init<V, E>(c: Job<V, E>): State<V, E> {
    State(TasksOf(c.isComp, true), TasksOf(c.isComp, false), 0,
          seq(if c.jobs > 1 then c.jobs else 1, _ => Idle),
          seq(|c.isComp|, _ => None), seq(|c.isComp|, _ => None), [])
  }

  // ----- the atomic steps of worker `w` -----

  /** The locked block: pop an eligible task, or retire. */
  function Acquire<V, E>(c: Job<V, E>, s: State<V, E>, w: nat): State<V, E>
    requires w < |s.workers|
  {
    if s.comp != [] && s.running < c.compJobs then
      s.(comp := s.comp[1..], running := s.running + 1, workers := s.workers[w := Claimed(s.comp[0])])
    else if s.rest != [] then
      s.(rest := s.rest[1..], workers := s.workers[w := Claimed(s.rest[0])])
    else s.(workers := s.workers[w := Retired])
  }

  /** Call the task and record its result or its exception. */
  function Execute<V, E>(c: Job<V, E>, s: State<V, E>, w: nat): State<V, E>
    requires w < |s.workers| && s.workers[w].Claimed? && s.workers[w].i < |s.results| == |s.errors|
    requires |c.isComp| == |c.outcome| == |s.results|
  {
    var i := s.workers[w].i;
    var s' := match c.outcome[i]
      case Value(v) => s.(results := s.results[i := Some(v)])
      case Raised(e) => s.(errors := s.errors[i := Some(e)]);
    s'.(workers := s.workers[w := if c.isComp[i] then Ran(i) else Idle], log := s.log + [i])
  }

  /** Give the composition slot back. */
  function Release<V, E>(s: State<V, E>, w: nat): State<V, E>
    requires w < |s.workers|
  {
    s.(running := s.running - 1, workers := s.workers[w := Idle])
  }

  function Step<V, E>(c: Job<V, E>, s: State<V, E>, w: nat): State<V, E>
    requires Sized(c, s) && w < |s.workers|
  {
    match s.workers[w]
    case Idle => Acquire(c, s, w)
    case Claimed(_) => Execute(c, s, w)
    case Ran(_) => Release(s, w)
    case Retired => s
  }

  /** Any worker that has not retired may take the next step. */
  ghost predicate Next<V, E>(c: Job<V, E>, s: State<V, E>, s': State<V, E>) {
    Sized(c, s) && exists w: nat :: w < |s.workers| && s.workers[w] != Retired && s' == Step(c, s, w)
  }

  // ----- the invariant -----

  ghost predicate Sized<V, E>(c: Job<V, E>, s: State<V, E>) {
    JobOk(c) && |s.results| == |s.errors| == |c.isComp| &&
    forall w: nat :: w < |s.workers| && (s.workers[w].Claimed? || s.workers[w].Ran?) ==> s.workers[w].i < |c.isComp|
  }

  predicate Distinct(s: seq<nat>) { forall j, k :: 0 <= j < k < |s| ==> s[j] != s[k] }

  /** Task `i` is being called by some worker. */
  ghost predicate InFlight(ws: seq<Worker>, i: nat) { exists w: nat :: w < |ws| && ws[w] == Claimed(i) }

  function Slots(isComp: seq<bool>, ws: seq<Worker>): nat {
    if ws == [] then 0
    else Slots(isComp, ws[..|ws| - 1]) + if HoldsSlot(isComp, ws[|ws| - 1]) then 1 else 0
  }

  predicate HoldsSlot(isComp: seq<bool>, w: Worker) {
    (w.Claimed? || w.Ran?) && w.i < |isComp| && isComp[w.i]
  }

  /** The queues hold distinct tasks of their own class. */
  ghost predicate QueuesOk<V, E>(c: Job<V, E>, s: State<V, E>) {
    Distinct(s.comp) && Distinct(s.rest) &&
    (forall i :: i in s.comp ==> i < |c.isComp| && c.isComp[i]) &&
    (forall i :: i in s.rest ==> i < |c.isComp| && !c.isComp[i])
  }

  /** Each task is in exactly one place: a queue, one worker's hands, or the log. */
  ghost predicate PlacesOk<V, E>(c: Job<V, E>, s: State<V, E>)
    requires Sized(c, s)
  {
    (forall w: nat :: w < |s.workers| && s.workers[w].Claimed? ==>
      s.workers[w].i !in s.comp && s.workers[w].i !in s.rest && s.workers[w].i !in s.log) &&
    (forall w: nat, x: nat :: w < x < |s.workers| && s.workers[w].Claimed? ==> s.workers[x] != s.workers[w]) &&
    (forall w: nat :: w < |s.workers| && s.workers[w].Ran? ==> c.isComp[s.workers[w].i]) &&
    Distinct(s.log) &&
    (forall i :: i in s.log ==> i < |c.isComp| && i !in s.comp && i !in s.rest) &&
    (forall i: nat :: i < |c.isComp| ==> i in s.comp || i in s.rest || i in s.log || InFlight(s.workers, i))
  }

  /** What is recorded is what the called tasks did. */
  ghost predicate RecordsOk<V, E>(c: Job<V, E>, s: State<V, E>)
    requires Sized(c, s)
  {
    forall i: nat :: i < |c.isComp| ==>
      s.results[i] == (if i in s.log && c.outcome[i].Value? then Some(c.outcome[i].v) else None) &&
      s.errors[i] == (if i in s.log && c.outcome[i].Raised? then Some(c.outcome[i].e) else None)
  }

  /** The counter is the number of slots held, never above the cap. */
  ghost predicate CapOk<V, E>(c: Job<V, E>, s: State<V, E>) {
    s.running == Slots(c.isComp, s.workers) && (s.running > 0 ==> s.running <= c.compJobs)
  }

  /** Nobody retires past eligible work. */
  ghost predicate StaffedOk<V, E>(c: Job<V, E>, s: State<V, E>) {
    (s.rest != [] || (s.comp != [] && c.compJobs >= 1)) ==>
      exists w: nat :: w < |s.workers| && s.workers[w] != Retired
  }

  ghost predicate Inv<V, E>(c: Job<V, E>, s: State<V, E>) {
    Sized(c, s) && QueuesOk(c, s) && PlacesOk(c, s) && RecordsOk(c, s) && CapOk(c, s) && StaffedOk(c, s)
  }

  lemma {:induction false} SlotsUpdate(isComp: seq<bool>, ws: seq<Worker>, w: nat, x: Worker)
    requires w < |ws|
    ensures Slots(isComp, ws[w := x]) ==
      Slots(isComp, ws) - (if HoldsSlot(isComp, ws[w]) then 1 else 0) + (if HoldsSlot(isComp, x) then 1 else 0)
    decreases |ws|
  {
    hide HoldsSlot;
    var n := |ws| - 1;
    if w == n {
      assert ws[w := x][..n] == ws[..n];
    } else {
      assert ws[w := x][..n] == ws[..n][w := x];
      SlotsUpdate(isComp, ws[..n], w, x);
    }
  }

  lemma {:induction false} SlotHeld(isComp: seq<bool>, ws: seq<Worker>)
    requires Slots(isComp, ws) > 0
    ensures exists w: nat :: w < |ws| && HoldsSlot(isComp, ws[w])
    decreases |ws|
  {
    var n := |ws| - 1;
    if !HoldsSlot(isComp, ws[n]) {
      SlotHeld(isComp, ws[..n]);
      var w: nat :| w < n && HoldsSlot(isComp, ws[..n][w]);
      assert HoldsSlot(isComp, ws[w]);
    }
  }

  lemma {:induction false} NoSlots(isComp: seq<bool>, ws: seq<Worker>)
    requires forall w: nat :: w < |ws| ==> ws[w] == Idle
    ensures Slots(isComp, ws) == 0
    decreases |ws|
  {
    if ws != [] { NoSlots(isComp, ws[..|ws| - 1]); }
  }

  lemma InitInv<V, E>(c: Job<V, E>)
    requires JobOk(c)
    ensures Inv(c, Init(c))
  {
    var s := Init(c);
    NoSlots(c.isComp, s.workers);
    assert s.workers[0] == Idle;
  }

  // ----- every step keeps the invariant -----

  lemma AcquireInv<V, E>(c: Job<V, E>, s: State<V, E>, w: nat)
    requires Inv(c, s) && w < |s.workers| && s.workers[w] == Idle
    ensures Inv(c, Acquire(c, s, w))
  {
    hide Slots, QueuesOk, PlacesOk, RecordsOk;
    var s' := Acquire(c, s, w);
    SlotsUpdate(c.isComp, s.workers, w, s'.workers[w]);
    if s.comp != [] && s.running < c.compJobs {
      PopComp(c, s, w);
    } else if s.rest != [] {
      PopRest(c, s, w);
    } else {
      Retire(c, s, w);
    }
    assert s'.workers[w] != Retired ==> StaffedOk(c, s');
    SameRecords(c, s, s');
  }

  lemma SameRecords<V, E>(c: Job<V, E>, s: State<V, E>, s': State<V, E>)
    requires Sized(c, s) && Sized(c, s') && RecordsOk(c, s)
    requires s'.results == s.results && s'.errors == s.errors && s'.log == s.log
    ensures RecordsOk(c, s')
  {
    hide Sized;
  }

  /** Taking a composition task out of its queue into a worker's hands. */
  lemma PopComp<V, E>(c: Job<V, E>, s: State<V, E>, w: nat)
    requires Sized(c, s) && QueuesOk(c, s) && PlacesOk(c, s) && w < |s.workers| && s.workers[w] == Idle
    requires s.comp != [] && s.running < c.compJobs
    ensures var s' := Acquire(c, s, w);
      Sized(c, s') && QueuesOk(c, s') && PlacesOk(c, s') && HoldsSlot(c.isComp, s'.workers[w])
  {
    var i, s' := s.comp[0], Acquire(c, s, w);
    TailOf(s.comp);
    InFlightKept(s.workers, w, Claimed(i));
    assert s'.workers == s.workers[w := Claimed(i)] && s'.comp == s.comp[1..] && s'.rest == s.rest && s'.log == s.log;
    hide Acquire;
    assert s'.workers[w] == Claimed(i);
  }

  lemma PopRest<V, E>(c: Job<V, E>, s: State<V, E>, w: nat)
    requires Sized(c, s) && QueuesOk(c, s) && PlacesOk(c, s) && w < |s.workers| && s.workers[w] == Idle
    requires !(s.comp != [] && s.running < c.compJobs) && s.rest != []
    ensures var s' := Acquire(c, s, w);
      Sized(c, s') && QueuesOk(c, s') && PlacesOk(c, s') && !HoldsSlot(c.isComp, s'.workers[w])
  {
    var i, s' := s.rest[0], Acquire(c, s, w);
    TailOf(s.rest);
    InFlightKept(s.workers, w, Claimed(i));
    assert s'.workers == s.workers[w := Claimed(i)] && s'.rest == s.rest[1..] && s'.comp == s.comp && s'.log == s.log;
    hide Acquire;
    assert s'.workers[w] == Claimed(i);
  }

  lemma TailOf(q: seq<nat>)
    requires q != [] && Distinct(q)
    ensures forall j :: j in q <==> j == q[0] || j in q[1..]
    ensures q[0] !in q[1..] && Distinct(q[1..])
  {
  }

  /** A worker retires only while no task is eligible, and never as the last one while a task is queued: the
      composition slots are then all held by others. */
  lemma Retire<V, E>(c: Job<V, E>, s: State<V, E>, w: nat)
    requires Inv(c, s) && w < |s.workers| && s.workers[w] == Idle
    requires !(s.comp != [] && s.running < c.compJobs) && s.rest == []
    ensures var s' := Acquire(c, s, w); Sized(c, s') && QueuesOk(c, s') && PlacesOk(c, s') && StaffedOk(c, s')
  {
    hide Slots;
    InFlightKept(s.workers, w, Retired);
    if s.comp != [] && c.compJobs >= 1 {
      SlotHeld(c.isComp, s.workers);
      var x: nat :| x < |s.workers| && HoldsSlot(c.isComp, s.workers[x]);
      assert Acquire(c, s, w).workers[x] != Retired;
    }
  }

  /** An idle worker's update leaves every other claim where it was. */
  lemma InFlightKept(ws: seq<Worker>, w: nat, x: Worker)
    requires w < |ws|
    ensures forall i: nat :: InFlight(ws, i) && ws[w] != Claimed(i) ==> InFlight(ws[w := x], i)
  {
    forall i: nat | InFlight(ws, i) && ws[w] != Claimed(i)
      ensures InFlight(ws[w := x], i)
    {
      var v: nat :| v < |ws| && ws[v] == Claimed(i);
      assert ws[w := x][v] == Claimed(i);
    }
  }

  lemma ExecuteInv<V, E>(c: Job<V, E>, s: State<V, E>, w: nat)
    requires Inv(c, s) && w < |s.workers| && s.workers[w].Claimed?
    ensures Inv(c, Execute(c, s, w))
  {
    hide Slots, PlacesOk, RecordsOk;
    var s' := Execute(c, s, w);
    SlotsUpdate(c.isComp, s.workers, w, s'.workers[w]);
    ExecutePlaces(c, s, w);
    ExecuteRecords(c, s, w);
    assert s'.workers[w] != Retired;
  }

  lemma ExecutePlaces<V, E>(c: Job<V, E>, s: State<V, E>, w: nat)
    requires Sized(c, s) && QueuesOk(c, s) && PlacesOk(c, s) && w < |s.workers| && s.workers[w].Claimed?
    ensures Sized(c, Execute(c, s, w)) && PlacesOk(c, Execute(c, s, w))
  {
    var i, s' := s.workers[w].i, Execute(c, s, w);
    InFlightKept(s.workers, w, s'.workers[w]);
    assert s'.log == s.log + [i];
    assert s'.workers == s.workers[w := s'.workers[w]] && s'.comp == s.comp && s'.rest == s.rest;
    hide Execute;
    assert forall j :: j in s'.log <==> j in s.log || j == i;
  }

  lemma ExecuteRecords<V, E>(c: Job<V, E>, s: State<V, E>, w: nat)
    requires Sized(c, s) && PlacesOk(c, s) && RecordsOk(c, s) && w < |s.workers| && s.workers[w].Claimed?
    ensures Sized(c, Execute(c, s, w)) && RecordsOk(c, Execute(c, s, w))
  {
    var i, s' := s.workers[w].i, Execute(c, s, w);
    assert i !in s.log;
    hide PlacesOk;
    assert forall j :: j in s'.log <==> j in s.log || j == i;
  }

  lemma ReleaseInv<V, E>(c: Job<V, E>, s: State<V, E>, w: nat)
    requires Inv(c, s) && w < |s.workers| && s.workers[w].Ran?
    ensures Inv(c, Release(s, w))
  {
    var s' := Release(s, w);
    SlotsUpdate(c.isComp, s.workers, w, Idle);
    InFlightKept(s.workers, w, Idle);
    ReleaseKeeps(c, s, w);
    hide Slots, QueuesOk, PlacesOk, RecordsOk;
    assert s'.workers[w] != Retired;
    SameRecords(c, s, s');
  }

  lemma ReleaseKeeps<V, E>(c: Job<V, E>, s: State<V, E>, w: nat)
    requires Sized(c, s) && QueuesOk(c, s) && PlacesOk(c, s) && w < |s.workers| && s.workers[w].Ran?
    ensures Sized(c, Release(s, w)) && QueuesOk(c, Release(s, w)) && PlacesOk(c, Release(s, w))
  {
    InFlightKept(s.workers, w, Idle);
  }

  lemma NextInv<V, E>(c: Job<V, E>, s: State<V, E>, s': State<V, E>)
    requires Inv(c, s) && Next(c, s, s')
    ensures Inv(c, s')
  {
    hide Inv, Acquire, Execute, Release;
    var w: nat :| w < |s.workers| && s.workers[w] != Retired && s' == Step(c, s, w);
    match s.workers[w] {
      case Idle => AcquireInv(c, s, w);
      case Claimed(_) => ExecuteInv(c, s, w);
      case Ran(_) => ReleaseInv(c, s, w);
    }
  }

  // ----- runs -----

  /** A run: it starts fresh and takes one worker's step at a time, in any order. */
  ghost predicate Run<V, E>(c: Job<V, E>, trace: seq<State<V, E>>) {
    trace != [] && trace[0] == Init(c) && forall i :: 0 <= i < |trace| - 1 ==> Next(c, trace[i], trace[i + 1])
  }

  lemma {:induction false} RunInv<V, E>(c: Job<V, E>, trace: seq<State<V, E>>, i: nat)
    requires JobOk(c) && Run(c, trace) && i < |trace|
    ensures Inv(c, trace[i])
    decreases i
  {
    hide Inv, Next, Init;
    if i == 0 {
      InitInv(c);
    } else {
      RunInv(c, trace, i - 1);
      NextInv(c, trace[i - 1], trace[i]);
    }
  }

  /** Composition tasks being called. */
  function CompInFlight(isComp: seq<bool>, ws: seq<Worker>): nat {
    if ws == [] then 0
    else
      var last := ws[|ws| - 1];
      CompInFlight(isComp, ws[..|ws| - 1]) + if last.Claimed? && last.i < |isComp| && isComp[last.i] then 1 else 0
  }

  lemma {:induction false} CalledAtMostSlots(isComp: seq<bool>, ws: seq<Worker>)
    ensures CompInFlight(isComp, ws) <= Slots(isComp, ws)
    decreases |ws|
  {
    if ws != [] { CalledAtMostSlots(isComp, ws[..|ws| - 1]); }
  }

  /** In every state of every run: no task was called twice, and at most `compJobs` composition tasks are being
      called at once. */
  lemma RunSafe<V, E>(c: Job<V, E>, trace: seq<State<V, E>>, i: nat)
    requires JobOk(c) && Run(c, trace) && i < |trace|
    ensures Distinct(trace[i].log)
    ensures CompInFlight(c.isComp, trace[i].workers) <= if c.compJobs > 0 then c.compJobs else 0
  {
    hide Run, Slots, CompInFlight;
    RunInv(c, trace, i);
    CalledAtMostSlots(c.isComp, trace[i].workers);
  }

  // ----- termination -----

  function Weight(w: Worker): nat {
    match w case Retired => 0 case Idle => 1 case Ran(_) => 2 case Claimed(_) => 3
  }

  function Weights(ws: seq<Worker>): nat {
    if ws == [] then 0 else Weights(ws[..|ws| - 1]) + Weight(ws[|ws| - 1])
  }

  lemma {:induction false} WeightsUpdate(ws: seq<Worker>, w: nat, x: Worker)
    requires w < |ws|
    ensures Weights(ws[w := x]) == Weights(ws) - Weight(ws[w]) + Weight(x)
    decreases |ws|
  {
    hide Weight;
    var n := |ws| - 1;
    if w == n {
      assert ws[w := x][..n] == ws[..n];
    } else {
      assert ws[w := x][..n] == ws[..n][w := x];
      WeightsUpdate(ws[..n], w, x);
    }
  }

  function Measure<V, E>(s: State<V, E>): nat { 3 * (|s.comp| + |s.rest|) + Weights(s.workers) }

  lemma NextDecreases<V, E>(c: Job<V, E>, s: State<V, E>, s': State<V, E>)
    requires Next(c, s, s')
    ensures Measure(s') < Measure(s)
  {
    hide Weights;
    var w: nat :| w < |s.workers| && s.workers[w] != Retired && s' == Step(c, s, w);
    WeightsUpdate(s.workers, w, s'.workers[w]);
    assert s'.workers == s.workers[w := s'.workers[w]];
  }

  lemma {:induction false} RunMeasure<V, E>(c: Job<V, E>, trace: seq<State<V, E>>, i: nat)
    requires Run(c, trace) && i < |trace|
    ensures Measure(trace[i]) + i <= Measure(Init(c))
    decreases i
  {
    hide Measure, Init, Next;
    if i > 0 {
      RunMeasure(c, trace, i - 1);
      NextDecreases(c, trace[i - 1], trace[i]);
    }
  }

  /** No run is longer than a bound fixed by the tasks and the workers: every schedule terminates. */
  lemma RunsTerminate<V, E>(c: Job<V, E>, trace: seq<State<V, E>>)
    requires Run(c, trace)
    ensures |trace| <= Measure(Init(c)) + 1
  {
    hide Measure, Init, Next;
    RunMeasure(c, trace, |trace| - 1);
  }

  /** A run stops only when every worker has retired. */
  ghost predicate Finished<V, E>(s: State<V, E>) { forall w: nat :: w < |s.workers| ==> s.workers[w] == Retired }

  lemma StuckIffFinished<V, E>(c: Job<V, E>, trace: seq<State<V, E>>, i: nat)
    requires JobOk(c) && Run(c, trace) && i < |trace|
    ensures (forall s' :: !Next(c, trace[i], s')) <==> Finished(trace[i])
  {
    RunInv(c, trace, i);
    hide Run, Step;
    var s := trace[i];
    if !Finished(s) {
      var w: nat :| w < |s.workers| && s.workers[w] != Retired;
      assert Next(c, s, Step(c, s, w));
    }
  }

  // ----- what a finished run has done -----

  /** When every worker has retired, every task has been called exactly once, if and only if the cap lets a
      composition task run or there is none; otherwise exactly the composition tasks are left queued. */
  lemma FinishedRun<V, E>(c: Job<V, E>, trace: seq<State<V, E>>)
    requires JobOk(c) && Run(c, trace) && Finished(trace[|trace| - 1])
    ensures var s := trace[|trace| - 1];
      (forall i: nat :: i < |c.isComp| ==> (i in s.log <==> !c.isComp[i] || c.compJobs >= 1)) &&
      ((forall i: nat :: i < |c.isComp| ==> i in s.log) <==> c.compJobs >= 1 || true !in c.isComp) &&
      Sized(c, s) && RecordsOk(c, s)
  {
    var s := trace[|trace| - 1];
    RunInv(c, trace, |trace| - 1);
    hide Run, Slots;
    assert s.rest == [] && (c.compJobs >= 1 ==> s.comp == []);
    assert forall i: nat :: !InFlight(s.workers, i);
    if c.compJobs < 1 {
      NeverComp(c, trace, |trace| - 1);
      if i: nat :| i < |c.isComp| && c.isComp[i] { assert i !in s.log; }
    }
  }

  /** With no composition slot at all no composition task is ever called. */
  lemma {:induction false} NeverComp<V, E>(c: Job<V, E>, trace: seq<State<V, E>>, i: nat)
    requires JobOk(c) && Run(c, trace) && i < |trace| && c.compJobs < 1
    ensures forall j :: j in trace[i].log ==> j < |c.isComp| && !c.isComp[j]
    decreases i
  {
    hide Inv, Next;
    if i > 0 {
      NeverComp(c, trace, i - 1);
      RunInv(c, trace, i - 1);
      NoCompStep(c, trace[i - 1], trace[i]);
    }
  }

  lemma NoCompStep<V, E>(c: Job<V, E>, s: State<V, E>, s': State<V, E>)
    requires Inv(c, s) && Next(c, s, s') && c.compJobs < 1
    ensures forall j :: j in s'.log ==> j in s.log || (j < |c.isComp| && !c.isComp[j])
  {
    hide Slots, QueuesOk, PlacesOk, RecordsOk, StaffedOk, Acquire;
    var w: nat :| w < |s.workers| && s.workers[w] != Retired && s' == Step(c, s, w);
    if s.workers[w].Claimed? {
      if c.isComp[s.workers[w].i] { HeldIsSlot(c.isComp, s.workers, w); }
    } else {
      AcquireLog(c, s, w);
    }
  }

  lemma AcquireLog<V, E>(c: Job<V, E>, s: State<V, E>, w: nat)
    requires w < |s.workers|
    ensures Acquire(c, s, w).log == s.log
  {
  }

  lemma {:induction false} HeldIsSlot(isComp: seq<bool>, ws: seq<Worker>, w: nat)
    requires w < |ws| && HoldsSlot(isComp, ws[w])
    ensures Slots(isComp, ws) > 0
    decreases |ws|
  {
    if w < |ws| - 1 { HeldIsSlot(isComp, ws[..|ws| - 1], w); }
  }

  /** The end of `run_pooled`: the first recorded exception in task order is raised, else the results returned. */
  datatype Final<+V, +E> = Return(results: seq<Option<V>>) | Raise(error: E)

  function FirstError<V, E>(errors: seq<Option<E>>, results: seq<Option<V>>, i: nat): Final<V, E>
    requires i <= |errors|
    decreases |errors| - i
  {
    if i == |errors| then Return(results)
    else if errors[i].Some? then Raise(errors[i].value) else FirstError(errors, results, i + 1)
  }

  function Finish<V, E>(s: State<V, E>): Final<V, E> { FirstError(s.errors, s.results, 0) }

  /** Two finished runs of the same job, whatever their schedules, end in the same results and the same raise. */
  lemma ScheduleIndependent<V, E>(c: Job<V, E>, one: seq<State<V, E>>, two: seq<State<V, E>>)
    requires JobOk(c) && Run(c, one) && Finished(one[|one| - 1]) && Run(c, two) && Finished(two[|two| - 1])
    ensures Finish(one[|one| - 1]) == Finish(two[|two| - 1])
  {
    assert one != [] && two != [];
    hide Run, RecordsOk, Finished, FirstError;
    FinishedRun(c, one);
    FinishedRun(c, two);
    SameLogSameRecords(c, one[|one| - 1], two[|two| - 1]);
  }

  lemma SameLogSameRecords<V, E>(c: Job<V, E>, s: State<V, E>, t: State<V, E>)
    requires Sized(c, s) && Sized(c, t) && RecordsOk(c, s) && RecordsOk(c, t)
    requires forall i: nat :: i < |c.isComp| ==> (i in s.log <==> i in t.log)
    ensures s.results == t.results && s.errors == t.errors
  {
  }

  /** Where every task runs, the call returns all results in task order, or raises the first error in it. */
  lemma FinishMeans<V, E>(c: Job<V, E>, trace: seq<State<V, E>>)
    requires JobOk(c) && Run(c, trace) && Finished(trace[|trace| - 1])
    requires c.compJobs >= 1 || true !in c.isComp
    ensures match Finish(trace[|trace| - 1])
      case Return(r) => |r| == |c.isComp| && forall i :: 0 <= i < |r| ==> c.outcome[i].Value? && r[i] == Some(c.outcome[i].v)
      case Raise(e) => exists i :: (
        0 <= i < |c.isComp| && c.outcome[i] == Raised(e) && forall j :: 0 <= j < i ==> c.outcome[j].Value?)
  {
    FinishedRun(c, trace);
    RunInv(c, trace, |trace| - 1);
    hide Run, QueuesOk, PlacesOk, CapOk, StaffedOk, Finished;
    var s := trace[|trace| - 1];
    FirstErrorMeans(s.errors, s.results, 0);
    match Finish(s) {
      case Return(r) =>
      case Raise(e) =>
        var i :| 0 <= i < |s.errors| && s.errors[i] == Some(e) && forall j :: 0 <= j < i ==> s.errors[j].None?;
        assert c.outcome[i] == Raised(e);
    }
  }

  lemma {:induction false} FirstErrorMeans<V, E>(errors: seq<Option<E>>, results: seq<Option<V>>, i: nat)
    requires i <= |errors| && forall j :: 0 <= j < i ==> errors[j].None?
    ensures match FirstError(errors, results, i)
      case Return(r) => r == results && forall j :: 0 <= j < |errors| ==> errors[j].None?
      case Raise(e) => exists j :: 0 <= j < |errors| && errors[j] == Some(e) && forall k :: 0 <= k < j ==> errors[k].None?
    decreases |errors| - i
  {
    if i < |errors| && errors[i].None? { FirstErrorMeans(errors, results, i + 1); }
  }
}
