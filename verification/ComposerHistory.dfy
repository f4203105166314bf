/** What every call of the composer's handle protocol does (memfn/src/compose.c), told from the calls made before it and
    not from the art's state. */
module ComposerHistory {
  import opened Text
  import opened FormLex
  import opened LibcNames
  import opened Composer

  // ----- the history -----

  /** The calls that made a handle, in order: handle h was made by number h - 1. */
  function Made(calls: seq<Call>): (r: seq<Call>)
    ensures forall k :: 0 <= k < |r| ==> Makes(r[k])
  {
    if calls == [] then []
    else
      var n := |calls| - 1;
      Made(calls[..n]) + if Makes(calls[n]) && Succeeded(calls, n) then [calls[n]] else []
  }

  predicate Makes(c: Call) { c.Define? || c.Emit? }

  predicate IsHandle(calls: seq<Call>, h: nat) { 1 <= h <= |Made(calls)| }

  /** The storage of handle `h` was placed by an earlier call. */
  ghost predicate WasPlaced(calls: seq<Call>, h: nat) {
    exists k: nat :: k < |calls| && PlacesHandle(calls, k, h)
  }

  predicate PlacesHandle(calls: seq<Call>, k: nat, h: nat)
    requires k < |calls|
  {
    calls[k].Locals? && calls[k].h == h && Succeeded(calls, k)
  }

  /** Handle `h` was used by an earlier call. */
  ghost predicate WasUsed(calls: seq<Call>, h: nat) { exists k: nat :: k < |calls| && UsesHandle(calls, k, h) }

  ghost predicate HasReach(calls: seq<Call>) { exists k: nat :: k < |calls| && Reaches(calls, k) }

  predicate Reaches(calls: seq<Call>, k: nat)
    requires k < |calls|
  {
    calls[k].Reach? && Succeeded(calls, k)
  }

  ghost predicate HasLever(calls: seq<Call>) { exists k: nat :: k < |calls| && Pulls(calls, k) }

  predicate Pulls(calls: seq<Call>, k: nat)
    requires k < |calls|
  {
    calls[k].Lever? && Succeeded(calls, k)
  }

  /** Why a use of a handle is refused after these calls, if it is. */
  ghost function UseRefusal(calls: seq<Call>, h: nat, gate: Option<string>, arm: Option<string>): Option<Fault> {
    if !IsHandle(calls, h) then Some(NeverDefined(h))
    else if Made(calls)[h - 1].declPoint && !WasPlaced(calls, h) then Some(BeforeLocals(h))
    else if gate.Some? then Some(Refused(gate.value)) else if arm.Some? then Some(Refused(arm.value)) else None
  }

  /** Why a call is refused after calls that all succeeded, if it is. */
  ghost function Refusal(calls: seq<Call>, c: Call): Option<Fault> {
    match c
    case Define(_, _, _, early, late) =>
      if early.Some? then Some(Refused(early.value)) else if late.Some? then Some(Refused(late.value)) else None
    case Use(h, gate, arm) => UseRefusal(calls, h, gate, arm)
    case CallFunc(h, gate, arm) =>
      if IsHandle(calls, h) && !Made(calls)[h - 1].func then Some(NotFunc(h)) else UseRefusal(calls, h, gate, arm)
    case Locals(h, hooks) =>
      if !IsHandle(calls, h) then Some(NeverDefined(h))
      else if !Made(calls)[h - 1].declPoint then Some(NoPoint(h))
      else if WasPlaced(calls, h) then Some(PlacedTwice(h))
      else if hooks != Made(calls)[h - 1].hooks then Some(TextDiffers(h)) else None
    case Defined(h) => if IsHandle(calls, h) then None else Some(NeverDefined(h))
    case Emit(declPoint, _, _, early, late, gate, arm) =>
      if early.Some? then Some(Refused(early.value)) else if late.Some? then Some(Refused(late.value))
      else if declPoint then Some(BeforeLocals(|Made(calls)| + 1))
      else if gate.Some? then Some(Refused(gate.value)) else if arm.Some? then Some(Refused(arm.value)) else None
    case Reach(stem) =>
      if HasReach(calls) then Some(ReachTwice) else if Made(calls) != [] then Some(ReachLate)
      else if stem == "" then Some(NoStem) else None
    case Lever(name) => if Made(calls) != [] then Some(LeverLate) else if name == "pres-window" then None else Some(NoLever(name))
    case Note(name) => if IsId(name) then None else Some(NotIdent)
    case Stamps(sink) => if sink.Some? then Some(Refused(sink.value)) else None
    case ReachTable(sink) => if HasReach(calls) && sink.Some? then Some(Refused(sink.value)) else None
    case End =>
      var h := LeastUnused(calls, 1);
      if !IsHandle(calls, h) then None
      else
        Some(if !Made(calls)[h - 1].declPoint then Unused(h) else if WasPlaced(calls, h) then PlacedUnread(h) else NotPlaced(h))
  }

  /** The least handle from `h` on that was never used, if there is one. */
  ghost function LeastUnused(calls: seq<Call>, h: nat): (r: nat)
    requires 1 <= h
    ensures r >= h && (forall g: nat :: h <= g < r ==> WasUsed(calls, g)) && (IsHandle(calls, r) ==> !WasUsed(calls, r))
    decreases |Made(calls)| + 1 - h
  {
    if h > |Made(calls)| || !WasUsed(calls, h) then h else LeastUnused(calls, h + 1)
  }

  // ----- the state is the history -----

  /** Record `r` is what the call that made it asked for. */
  predicate RecordOf(r: Rec, c: Call)
    requires Makes(c)
  {
    r.declPoint == c.declPoint && r.func == c.func && (c.declPoint ==> r.bound == c.hooks)
  }

  ghost predicate Told(calls: seq<Call>) {
    var st := After(calls);
    && |st.sites| == |Made(calls)|
    && (forall i :: 0 <= i < |st.sites| ==> RecordOf(st.sites[i], Made(calls)[i]))
    && (st.reach <==> HasReach(calls)) && (st.lever <==> HasLever(calls))
  }

  lemma {:induction false} StateTold(calls: seq<Call>)
    requires After(calls).err.None?
    ensures Told(calls)
    decreases |calls|
  {
    hide Do, RecordOf;
    if calls == [] {
      Nothing();
    } else {
      var n := |calls| - 1;
      var init, c := calls[..n], calls[n];
      StickyError(After(init), c);
      StateTold(init);
      MakesOne(After(init), c);
      assert Succeeded(calls, n);
      ReachMore(calls);
      LeverMore(calls);
      hide HasReach, HasLever, Made;
      forall i | 0 <= i < |After(calls).sites|
        ensures RecordOf(After(calls).sites[i], Made(calls)[i])
      {
        if i < |After(init).sites| {
          RecordStays(After(init), c, i + 1);
          SameRecord(After(init).sites[i], After(calls).sites[i], Made(init)[i]);
        }
      }
    }
  }

  lemma Nothing()
    ensures Told([])
  {
  }

  predicate SameAsk(r: Rec, r': Rec) { r'.declPoint == r.declPoint && r'.func == r.func && r'.bound == r.bound }

  lemma SameRecord(r: Rec, r': Rec, c: Call)
    requires Makes(c) && RecordOf(r, c) && SameAsk(r, r')
    ensures RecordOf(r', c)
  {
  }

  /** A call that succeeds makes one record if it makes a handle, and none otherwise. */
  lemma MakesOne(st: State, c: Call)
    requires st.err.None? && Do(st, c).1
    ensures var st' := Do(st, c).0;
      && |st'.sites| == |st.sites| + (if Makes(c) then 1 else 0)
      && (Makes(c) ==> RecordOf(st'.sites[|st.sites|], c))
      && (st'.reach <==> st.reach || c.Reach?) && (st'.lever <==> st.lever || c.Lever?)
  {
    hide EndFault, Inserted, IsId;
  }

  lemma RecordStays(st: State, c: Call, h: nat)
    requires Known(st, h)
    ensures Known(Do(st, c).0, h) && SameAsk(st.sites[h - 1], Do(st, c).0.sites[h - 1])
  {
    hide Do;
    RecordStep(st, c, h);
  }

  lemma ReachMore(calls: seq<Call>)
    requires calls != []
    ensures var n := |calls| - 1; HasReach(calls) <==> HasReach(calls[..n]) || (calls[n].Reach? && Succeeded(calls, n))
  {
    hide Succeeded;
    var n := |calls| - 1;
    var init := calls[..n];
    forall k: nat | k < n
      ensures Reaches(calls, k) == Reaches(init, k)
    {
      SucceededBefore(calls, n, k);
    }
    if HasReach(calls) {
      var k: nat :| k < |calls| && Reaches(calls, k);
      if k < n { assert Reaches(init, k); }
    }
    if HasReach(init) {
      var k: nat :| k < n && Reaches(init, k);
      assert Reaches(calls, k);
    }
    if calls[n].Reach? && Succeeded(calls, n) { assert Reaches(calls, n); }
  }

  lemma LeverMore(calls: seq<Call>)
    requires calls != []
    ensures var n := |calls| - 1; HasLever(calls) <==> HasLever(calls[..n]) || (calls[n].Lever? && Succeeded(calls, n))
  {
    hide Succeeded;
    var n := |calls| - 1;
    var init := calls[..n];
    forall k: nat | k < n
      ensures Pulls(calls, k) == Pulls(init, k)
    {
      SucceededBefore(calls, n, k);
    }
    if HasLever(calls) {
      var k: nat :| k < |calls| && Pulls(calls, k);
      if k < n { assert Pulls(init, k); }
    }
    if HasLever(init) {
      var k: nat :| k < n && Pulls(init, k);
      assert Pulls(calls, k);
    }
    if calls[n].Lever? && Succeeded(calls, n) { assert Pulls(calls, n); }
  }

  lemma SucceededBefore(calls: seq<Call>, n: nat, k: nat)
    requires k < n <= |calls|
    ensures Succeeded(calls[..n], k) == Succeeded(calls, k)
  {
    hide Do, After;
    assert calls[..n][..k] == calls[..k];
  }

  lemma {:induction false} PlacedTold(calls: seq<Call>, h: nat)
    ensures WasPlaced(calls, h) <==> Placings(calls, h) > 0
    decreases |calls|
  {
    hide Succeeded;
    if calls != [] {
      var n := |calls| - 1;
      var init := calls[..n];
      PlacedTold(init, h);
      forall k: nat | k < n
        ensures PlacesHandle(calls, k, h) == PlacesHandle(init, k, h)
      {
        SucceededBefore(calls, n, k);
      }
      if WasPlaced(calls, h) {
        var k: nat :| k < |calls| && PlacesHandle(calls, k, h);
        if k < n { assert PlacesHandle(init, k, h); }
      }
      if WasPlaced(init, h) {
        var k: nat :| k < n && PlacesHandle(init, k, h);
        assert PlacesHandle(calls, k, h);
      }
      if calls[n].Locals? && calls[n].h == h && Succeeded(calls, n) { assert PlacesHandle(calls, n, h); }
    }
  }

  // ----- every call -----

  /** After calls that all succeeded, the error that the next one leaves is the refusal its history gives; and it
      succeeds exactly when there is none. */
  lemma CallsTold(calls: seq<Call>, c: Call)
    requires forall k: nat :: k < |calls| ==> Succeeded(calls, k)
    ensures Do(After(calls), c).0.err == Refusal(calls, c)
    ensures Do(After(calls), c).1 <==> Refusal(calls, c).None?
  {
    NoErrorIff(calls);
    StateTold(calls);
    StickyError(After(calls), c);
    hide *;
    match c
    case Use(h, gate, arm) => UseCall(calls, h, gate, arm);
    case CallFunc(h, gate, arm) => FuncCall(calls, h, gate, arm);
    case Locals(h, hooks) => LocalsCall(calls, h, hooks);
    case Define(_, _, _, _, _) => DefineCall(calls, c);
    case Emit(_, _, _, _, _, _, _) => EmitCall(calls, c);
    case End => EndTold(calls);
    case _ => PlainCall(calls, c);
  }

  /** The refusal of a use, from what is asked of its handle. */
  function UseWhy(h: nat, known: bool, waits: bool, gate: Option<string>, arm: Option<string>): Option<Fault> {
    if !known then Some(NeverDefined(h)) else if waits then Some(BeforeLocals(h))
    else if gate.Some? then Some(Refused(gate.value)) else if arm.Some? then Some(Refused(arm.value)) else None
  }

  lemma UseError(st: State, h: nat, gate: Option<string>, arm: Option<string>)
    requires st.err.None?
    ensures DoUse(st, h, gate, arm).0.err ==
      UseWhy(h, Known(st, h), Known(st, h) && st.sites[h - 1].declPoint && !st.sites[h - 1].placed, gate, arm)
  {
  }

  lemma UseRefused(calls: seq<Call>, h: nat, gate: Option<string>, arm: Option<string>)
    ensures UseRefusal(calls, h, gate, arm) ==
      UseWhy(h, IsHandle(calls, h), IsHandle(calls, h) && Made(calls)[h - 1].declPoint && !WasPlaced(calls, h), gate, arm)
  {
    hide Made, WasPlaced;
  }

  /** A handle's record is what the history tells of it. */
  lemma TellsOf(calls: seq<Call>, h: nat)
    requires After(calls).err.None? && Told(calls)
    ensures IsHandle(calls, h) == Known(After(calls), h)
    ensures IsHandle(calls, h) ==>
      var r, m := After(calls).sites[h - 1], Made(calls)[h - 1];
      r.declPoint == m.declPoint && r.func == m.func && (m.declPoint ==> r.bound == m.hooks) && r.placed == WasPlaced(calls, h)
  {
    UseTold(calls, h);
    hide After, Made, WasPlaced;
    if IsHandle(calls, h) { assert RecordOf(After(calls).sites[h - 1], Made(calls)[h - 1]); }
  }

  lemma UseAlike(calls: seq<Call>, h: nat, gate: Option<string>, arm: Option<string>)
    requires After(calls).err.None? && Told(calls)
    ensures DoUse(After(calls), h, gate, arm).0.err == UseRefusal(calls, h, gate, arm)
  {
    TellsOf(calls, h);
    UseError(After(calls), h, gate, arm);
    UseRefused(calls, h, gate, arm);
    hide *;
  }

  lemma UseCall(calls: seq<Call>, h: nat, gate: Option<string>, arm: Option<string>)
    requires After(calls).err.None? && Told(calls)
    ensures Do(After(calls), Use(h, gate, arm)).0.err == Refusal(calls, Use(h, gate, arm))
  {
    UseAlike(calls, h, gate, arm);
    hide After, Told, DoUse, UseRefusal;
  }

  lemma FuncCall(calls: seq<Call>, h: nat, gate: Option<string>, arm: Option<string>)
    requires After(calls).err.None? && Told(calls)
    ensures Do(After(calls), CallFunc(h, gate, arm)).0.err == Refusal(calls, CallFunc(h, gate, arm))
  {
    TellsOf(calls, h);
    UseAlike(calls, h, gate, arm);
    hide After, Told, DoUse, UseRefusal, WasPlaced, Made;
  }

  function LocalsWhy(h: nat, known: bool, point: bool, placed: bool, same: bool): Option<Fault> {
    if !known then Some(NeverDefined(h)) else if !point then Some(NoPoint(h)) else if placed then Some(PlacedTwice(h))
    else if !same then Some(TextDiffers(h)) else None
  }

  lemma LocalsError(st: State, h: nat, hooks: Hooks)
    requires st.err.None?
    ensures var known := Known(st, h);
      var point := known && st.sites[h - 1].declPoint;
      Do(st, Locals(h, hooks)).0.err ==
      LocalsWhy(h, known, point, point && st.sites[h - 1].placed, point && hooks == st.sites[h - 1].bound)
  {
  }

  lemma RefusalOfLocals(calls: seq<Call>, h: nat, hooks: Hooks)
    ensures var known := IsHandle(calls, h);
      var point := known && Made(calls)[h - 1].declPoint;
      Refusal(calls, Locals(h, hooks)) ==
      LocalsWhy(h, known, point, point && WasPlaced(calls, h), point && hooks == Made(calls)[h - 1].hooks)
  {
    hide Made, WasPlaced, HasReach;
  }

  lemma LocalsCall(calls: seq<Call>, h: nat, hooks: Hooks)
    requires After(calls).err.None? && Told(calls)
    ensures Do(After(calls), Locals(h, hooks)).0.err == Refusal(calls, Locals(h, hooks))
  {
    TellsOf(calls, h);
    LocalsError(After(calls), h, hooks);
    RefusalOfLocals(calls, h, hooks);
    hide After, Made, WasPlaced, Told, Do, Refusal, LocalsWhy;
  }

  lemma DefineCall(calls: seq<Call>, c: Call)
    requires After(calls).err.None? && c.Define?
    ensures Do(After(calls), c).0.err == Refusal(calls, c)
  {
    hide After, Made;
  }

  lemma EmitCall(calls: seq<Call>, c: Call)
    requires After(calls).err.None? && Told(calls) && c.Emit?
    ensures Do(After(calls), c).0.err == Refusal(calls, c)
  {
    EmitError(After(calls), c);
    hide After, Made, HasReach, Do;
  }

  lemma EmitError(st: State, c: Call)
    requires st.err.None? && c.Emit?
    ensures Do(st, c).0.err ==
      if c.early.Some? then Some(Refused(c.early.value)) else if c.late.Some? then Some(Refused(c.late.value))
      else if c.declPoint then Some(BeforeLocals(|st.sites| + 1))
      else if c.gate.Some? then Some(Refused(c.gate.value)) else if c.arm.Some? then Some(Refused(c.arm.value)) else None
  {
  }

  lemma PlainCall(calls: seq<Call>, c: Call)
    requires After(calls).err.None? && Told(calls)
    requires c.Defined? || c.Reach? || c.Lever? || c.Note? || c.Stamps? || c.ReachTable?
    ensures Do(After(calls), c).0.err == Refusal(calls, c)
  {
    hide After, Made, HasReach, Inserted, IsId;
  }

  lemma UseTold(calls: seq<Call>, h: nat)
    requires After(calls).err.None? && Told(calls)
    ensures IsHandle(calls, h) == Known(After(calls), h)
    ensures IsHandle(calls, h) ==> (WasPlaced(calls, h) <==> After(calls).sites[h - 1].placed)
  {
    PlacedTold(calls, h);
    PlacedOnce(calls, h);
    hide After, Made, Placings, WasPlaced;
  }

  lemma EndTold(calls: seq<Call>)
    requires After(calls).err.None? && Told(calls)
    ensures Do(After(calls), End).0.err == Refusal(calls, End)
  {
    AfterSitesOk(calls);
    hide After, Made, WasPlaced;
    var st := After(calls);
    forall h: nat | IsHandle(calls, h)
      ensures Known(st, h) && (WasUsed(calls, h) <==> st.sites[h - 1].used) && (WasPlaced(calls, h) <==> st.sites[h - 1].placed)
      ensures st.sites[h - 1].declPoint == Made(calls)[h - 1].declPoint && RecOk(st.sites[h - 1])
    {
      UseTold(calls, h);
      UsedIff(calls, h);
      assert RecordOf(st.sites[h - 1], Made(calls)[h - 1]);
    }
    EndFrom(calls, 1);
  }

  /** The end's loop stops at the least handle that was not used. */
  lemma {:induction false} EndFrom(calls: seq<Call>, h: nat)
    requires 1 <= h <= |Made(calls)| + 1 && |After(calls).sites| == |Made(calls)|
    requires forall g: nat :: IsHandle(calls, g) ==>
      var r := After(calls).sites[g - 1];
      (WasUsed(calls, g) <==> r.used) && (WasPlaced(calls, g) <==> r.placed) && r.declPoint == Made(calls)[g - 1].declPoint && RecOk(r)
    ensures var g := LeastUnused(calls, h);
      EndFault(After(calls).sites, h - 1) ==
      if !IsHandle(calls, g) then None
      else Some(if !Made(calls)[g - 1].declPoint then Unused(g) else if WasPlaced(calls, g) then PlacedUnread(g) else NotPlaced(g))
    decreases |Made(calls)| + 1 - h
  {
    hide After, Made, WasPlaced, WasUsed;
    if h <= |Made(calls)| {
      assert IsHandle(calls, h);
      EndFrom(calls, h + 1);
    }
  }
}
