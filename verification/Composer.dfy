/** The composer's handle protocol (memfn/src/compose.c): define, locals, use, end, the noted names and the stamps, with
    the first error kept. The vocabulary, the window family, the gate and the arms are not part of this model: each call
    carries what they answered. */
module Composer {
  import opened Text
  import opened FormLex
  import opened LibcNames

  /** Why a call failed; `Refused` is a refusal of the parts taken as given. */
  datatype Fault =
    | Refused(message: string) | NeverDefined(h: nat) | BeforeLocals(h: nat) | NoPoint(h: nat) | PlacedTwice(h: nat)
    | TextDiffers(h: nat) | NotFunc(h: nat) | NotPlaced(h: nat) | PlacedUnread(h: nat) | Unused(h: nat)
    | ReachTwice | ReachLate | NoStem | LeverLate | NoLever(name: string) | NotIdent

  /** The hook texts that bind a declaration point to its define. */
  datatype Hooks = Hooks(s: Option<string>, n: Option<string>, start: Option<string>)

  const NO_HOOKS := Hooks(None, None, None)

  /** One defined site; handle h is record h - 1. */
  datatype Rec = Rec(declPoint: bool, func: bool, bound: Hooks, placed: bool, used: bool)

  /** `early` refuses before the record exists, `late` after it; `gate` and `arm` refuse a use, and `sink` a call that
      writes. A name that an arm notes while it renders is a `Note` before that use. */
  datatype Call =
    | Define(declPoint: bool, func: bool, hooks: Hooks, early: Option<string>, late: Option<string>)
    | Use(h: nat, gate: Option<string>, arm: Option<string>)
    | CallFunc(h: nat, gate: Option<string>, arm: Option<string>)
    | Locals(h: nat, hooks: Hooks)
    | Defined(h: nat)
    | Emit(declPoint: bool, func: bool, hooks: Hooks, early: Option<string>, late: Option<string>,
           gate: Option<string>, arm: Option<string>)
    | Reach(stem: string)
    | Lever(name: string)
    | Note(name: string)
    | Stamps(sink: Option<string>)
    | ReachTable(sink: Option<string>)
    | End

  datatype State = State(err: Option<Fault>, sites: seq<Rec>, reach: bool, lever: bool, libc: seq<string>)

  const INIT := State(None, [], false, false, [])

  /** The one lever the kit lists. */
  const LEVER := "pres-window"

  // ----- the specification of each call -----

  function Fail(st: State, f: Fault): State { if st.err.None? then st.(err := Some(f)) else st }

  function NewRec(declPoint: bool, func: bool, hooks: Hooks): Rec {
    Rec(declPoint, func, if declPoint then hooks else NO_HOOKS, false, false)
  }

  function DoDefine(st: State, declPoint: bool, func: bool, hooks: Hooks, early: Option<string>, late: Option<string>)
    : (r: (State, bool))
  {
    if early.Some? then (Fail(st, Refused(early.value)), false)
    else
      var st' := st.(sites := st.sites + [NewRec(declPoint, func, hooks)]);
      if late.Some? then (Fail(st', Refused(late.value)), false) else (st', true)
  }

  predicate Known(st: State, h: nat) { 1 <= h <= |st.sites| }

  function DoUse(st: State, h: nat, gate: Option<string>, arm: Option<string>): (State, bool) {
    if !Known(st, h) then (Fail(st, NeverDefined(h)), false)
    else
      var r := st.sites[h - 1];
      if r.declPoint && !r.placed then (Fail(st, BeforeLocals(h)), false)
      else if gate.Some? then (Fail(st, Refused(gate.value)), false)
      else if arm.Some? then (Fail(st, Refused(arm.value)), false)
      else (st.(sites := st.sites[h - 1 := r.(used := true)]), true)
  }

  function DoLocals(st: State, h: nat, hooks: Hooks): (State, bool) {
    if !Known(st, h) then (Fail(st, NeverDefined(h)), false)
    else
      var r := st.sites[h - 1];
      if !r.declPoint then (Fail(st, NoPoint(h)), false)
      else if r.placed then (Fail(st, PlacedTwice(h)), false)
      else if hooks != r.bound then (Fail(st, TextDiffers(h)), false)
      else (st.(sites := st.sites[h - 1 := r.(placed := true)]), true)
  }

  /** The first record, from number `i` on, that may not stay as it is at the end. */
  function EndFault(sites: seq<Rec>, i: nat): Option<Fault>
    requires i <= |sites|
    decreases |sites| - i
  {
    if i == |sites| then None
    else
      var r := sites[i];
      if r.declPoint && !r.placed then Some(NotPlaced(i + 1))
      else if r.placed && !r.used then Some(PlacedUnread(i + 1))
      else if !r.used then Some(Unused(i + 1))
      else EndFault(sites, i + 1)
  }

  function Write(st: State, sink: Option<string>): (State, bool) {
    if sink.Some? then (Fail(st, Refused(sink.value)), false) else (st, true)
  }

  /** One call: the new state, and whether it succeeded. Every call first looks at the recorded error. */
  function Do(st: State, c: Call): (State, bool) {
    if st.err.Some? then (st, false)
    else match c
      case Define(declPoint, func, hooks, early, late) => DoDefine(st, declPoint, func, hooks, early, late)
      case Use(h, gate, arm) => DoUse(st, h, gate, arm)
      case CallFunc(h, gate, arm) =>
        if Known(st, h) && !st.sites[h - 1].func then (Fail(st, NotFunc(h)), false) else DoUse(st, h, gate, arm)
      case Locals(h, hooks) => DoLocals(st, h, hooks)
      case Defined(h) => if Known(st, h) then (st, true) else (Fail(st, NeverDefined(h)), false)
      case Emit(declPoint, func, hooks, early, late, gate, arm) =>
        var (st', ok) := DoDefine(st, declPoint, func, hooks, early, late);
        if ok then DoUse(st', |st'.sites|, gate, arm) else (st', false)
      case Reach(stem) =>
        if st.reach then (Fail(st, ReachTwice), false)
        else if st.sites != [] then (Fail(st, ReachLate), false)
        else if stem == "" then (Fail(st, NoStem), false)
        else (st.(reach := true), true)
      case Lever(name) =>
        if st.sites != [] then (Fail(st, LeverLate), false)
        else if name == LEVER then (st.(lever := true), true) else (Fail(st, NoLever(name)), false)
      case Note(name) =>
        if !IsId(name) then (Fail(st, NotIdent), false) else (st.(libc := Inserted(st.libc, name)), true)
      case Stamps(sink) => Write(st, sink)
      case ReachTable(sink) => if st.reach then Write(st, sink) else (st, true)
      case End =>
        var f := EndFault(st.sites, 0);
        if f.Some? then (Fail(st, f.value), false) else (st, true)
  }

  /** An emit is a define and, if that succeeds, a use of its handle. */
  lemma EmitIs(st: State, declPoint: bool, func: bool, hooks: Hooks, early: Option<string>, late: Option<string>,
               gate: Option<string>, arm: Option<string>)
    ensures var (mid, made) := Do(st, Define(declPoint, func, hooks, early, late));
      Do(st, Emit(declPoint, func, hooks, early, late, gate, arm)) ==
      if made then Do(mid, Use(|mid.sites|, gate, arm)) else (mid, false)
  {
    hide DoUse;
  }

  // ----- the program -----

  class Art {
    var sites: array<Rec>
    var nsites: nat
    var cap: nat
    var err: Option<Fault>
    var reach: bool
    var lever: bool
    const names: NameList

    ghost predicate Valid()
      reads this, names, names.libc
    {
      sites.Length == cap && nsites <= cap && names.Valid()
    }

    ghost function Abs(): State
      requires Valid()
      reads this, sites, names, names.libc
    {
      State(err, sites[..nsites], reach, lever, names.libc[..names.nlibc])
    }

    constructor ()
      ensures Valid() && fresh(sites) && fresh(names) && fresh(names.libc) && Abs() == INIT
    {
      sites := new Rec[0];
      nsites, cap, err, reach, lever := 0, 0, None, false, false;
      names := new NameList();
    }

    /** Records the first fault only. */
    method KitFail(f: Fault)
      requires Valid()
      modifies `err
      ensures Valid() && Abs() == Fail(old(Abs()), f)
    {
      if err.None? { err := Some(f); }
    }

    /** Appends a record, doubling the table when it is full. */
    method Append(r: Rec)
      requires Valid()
      modifies this, sites
      ensures Valid() && Abs() == old(Abs()).(sites := old(Abs()).sites + [r])
      ensures sites == old(sites) || fresh(sites)
    {
      if nsites == cap { Grow(r); }
      ghost var was := sites[..nsites];
      sites[nsites] := r;
      nsites := nsites + 1;
      assert sites[..nsites] == was + [r];
    }

    /** Doubles the table. */
    method Grow(filler: Rec)
      requires Valid() && nsites == cap
      modifies `sites, `cap
      ensures Valid() && fresh(sites) && nsites < cap && sites[..nsites] == old(sites[..nsites])
    {
      var newcap := if cap != 0 then cap * 2 else 8;
      var was := sites;
      var grown := new Rec[newcap](_ => filler);
      for i := 0 to nsites
        invariant forall j :: 0 <= j < i ==> grown[j] == was[j]
      {
        grown[i] := was[i];
      }
      assert grown[..nsites] == was[..nsites];
      sites, cap := grown, newcap;
    }

    method MfDefine(declPoint: bool, func: bool, hooks: Hooks, early: Option<string>, late: Option<string>)
        returns (ok: bool, h: nat)
      requires Valid()
      modifies this, sites
      ensures Valid() && (sites == old(sites) || fresh(sites))
      ensures (Abs(), ok) == Do(old(Abs()), Define(declPoint, func, hooks, early, late))
      ensures ok ==> h == |Abs().sites|
    {
      h := 0;
      if err.Some? { return false, h; }
      if early.Some? {
        KitFail(Refused(early.value));
        return false, h;
      }
      Append(NewRec(declPoint, func, hooks));
      h := nsites;
      if late.Some? {
        KitFail(Refused(late.value));
        return false, h;
      }
      return true, h;
    }

    method MfUse(h: nat, gate: Option<string>, arm: Option<string>) returns (ok: bool)
      requires Valid()
      modifies this, sites
      ensures Valid() && (sites == old(sites) || fresh(sites))
      ensures (Abs(), ok) == Do(old(Abs()), Use(h, gate, arm))
    {
      if err.Some? { return false; }
      if h == 0 || h > nsites {
        KitFail(NeverDefined(h));
        return false;
      }
      var r := sites[h - 1];
      if r.declPoint && !r.placed {
        KitFail(BeforeLocals(h));
        return false;
      }
      if gate.Some? {
        KitFail(Refused(gate.value));
        return false;
      }
      if arm.Some? {
        KitFail(Refused(arm.value));
        return false;
      }
      sites[h - 1] := r.(used := true);
      assert sites[..nsites] == old(sites[..nsites])[h - 1 := r.(used := true)];
      return true;
    }

    method MfLocals(h: nat, hooks: Hooks) returns (ok: bool)
      requires Valid()
      modifies this, sites
      ensures Valid() && (sites == old(sites) || fresh(sites))
      ensures (Abs(), ok) == Do(old(Abs()), Locals(h, hooks))
    {
      if err.Some? { return false; }
      if h == 0 || h > nsites {
        KitFail(NeverDefined(h));
        return false;
      }
      var r := sites[h - 1];
      if !r.declPoint {
        KitFail(NoPoint(h));
        return false;
      }
      if r.placed {
        KitFail(PlacedTwice(h));
        return false;
      }
      if hooks.s != r.bound.s || hooks.n != r.bound.n || hooks.start != r.bound.start {
        KitFail(TextDiffers(h));
        return false;
      }
      sites[h - 1] := r.(placed := true);
      assert sites[..nsites] == old(sites[..nsites])[h - 1 := r.(placed := true)];
      return true;
    }

    method MfEmit(declPoint: bool, func: bool, hooks: Hooks, early: Option<string>, late: Option<string>,
                  gate: Option<string>, arm: Option<string>) returns (ok: bool)
      requires Valid()
      modifies this, sites
      ensures Valid() && (sites == old(sites) || fresh(sites))
      ensures (Abs(), ok) == Do(old(Abs()), Emit(declPoint, func, hooks, early, late, gate, arm))
    {
      hide Do;
      EmitIs(Abs(), declPoint, func, hooks, early, late, gate, arm);
      var h;
      ok, h := MfDefine(declPoint, func, hooks, early, late);
      if !ok { return false; }
      ok := MfUse(h, gate, arm);
    }

    method MfCall(h: nat, gate: Option<string>, arm: Option<string>) returns (ok: bool)
      requires Valid()
      modifies this, sites
      ensures Valid() && (sites == old(sites) || fresh(sites))
      ensures (Abs(), ok) == Do(old(Abs()), CallFunc(h, gate, arm))
    {
      if err.Some? { return false; }
      if h == 0 || h > nsites {
        KitFail(NeverDefined(h));
        return false;
      }
      if !sites[h - 1].func {
        KitFail(NotFunc(h));
        return false;
      }
      ok := MfUse(h, gate, arm);
    }

    method MfDefined(h: nat) returns (ok: bool)
      requires Valid()
      modifies this
      ensures Valid() && sites == old(sites) && (Abs(), ok) == Do(old(Abs()), Defined(h))
    {
      if err.Some? { return false; }
      if h == 0 || h > nsites {
        KitFail(NeverDefined(h));
        return false;
      }
      return true;
    }

    method MfReach(stem: string) returns (ok: bool)
      requires Valid()
      modifies this
      ensures Valid() && sites == old(sites) && (Abs(), ok) == Do(old(Abs()), Reach(stem))
    {
      if err.Some? { return false; }
      if reach {
        KitFail(ReachTwice);
        return false;
      }
      if nsites != 0 {
        KitFail(ReachLate);
        return false;
      }
      if stem == "" {
        KitFail(NoStem);
        return false;
      }
      reach := true;
      return true;
    }

    method MfLever(name: string) returns (ok: bool)
      requires Valid()
      modifies this
      ensures Valid() && sites == old(sites) && (Abs(), ok) == Do(old(Abs()), Lever(name))
    {
      if err.Some? { return false; }
      if nsites != 0 {
        KitFail(LeverLate);
        return false;
      }
      if name == LEVER {
        lever := true;
        return true;
      }
      KitFail(NoLever(name));
      return false;
    }

    /** Records a library name in its sorted place, once; a text that is no identifier is the art's error. */
    method MfArtNoteLibc(name: string) returns (ok: bool)
      requires Valid()
      modifies this, names, names.libc
      ensures Valid() && sites == old(sites) && (names.libc == old(names.libc) || fresh(names.libc))
      ensures (Abs(), ok) == Do(old(Abs()), Note(name))
    {
      if err.Some? { return false; }
      if !IsId(name) {
        KitFail(NotIdent);
        return false;
      }
      names.Insert(name);
      return true;
    }

    method MfStamps(sink: Option<string>) returns (ok: bool, text: string)
      requires Valid()
      modifies this
      ensures Valid() && sites == old(sites) && (Abs(), ok) == Do(old(Abs()), Stamps(sink))
      ensures ok ==> text == Stamp(Abs().libc)
    {
      text := "";
      if err.Some? { return false, text; }
      if sink.Some? {
        KitFail(Refused(sink.value));
        return false, text;
      }
      text := names.StampText();
      return true, text;
    }

    method MfReachTable(sink: Option<string>) returns (ok: bool)
      requires Valid()
      modifies this
      ensures Valid() && sites == old(sites) && (Abs(), ok) == Do(old(Abs()), ReachTable(sink))
    {
      if err.Some? { return false; }
      if !reach { return true; }
      if sink.Some? {
        KitFail(Refused(sink.value));
        return false;
      }
      return true;
    }

    method MfArtEnd() returns (ok: bool)
      requires Valid()
      modifies this
      ensures Valid() && sites == old(sites) && (Abs(), ok) == Do(old(Abs()), End)
    {
      if err.Some? { return false; }
      for i := 0 to nsites
        invariant Valid() && Abs() == old(Abs()) && sites == old(sites) && err.None?
        invariant EndFault(sites[..nsites], 0) == EndFault(sites[..nsites], i)
      {
        var r := sites[i];
        if r.declPoint && !r.placed {
          KitFail(NotPlaced(i + 1));
          return false;
        }
        if r.placed && !r.used {
          KitFail(PlacedUnread(i + 1));
          return false;
        }
        if !r.used {
          KitFail(Unused(i + 1));
          return false;
        }
      }
      return true;
    }
  }

  // ----- every sequence of calls -----

  function After(calls: seq<Call>): State {
    if calls == [] then INIT else Do(After(calls[..|calls| - 1]), calls[|calls| - 1]).0
  }

  /** Call `k` of the run succeeded. */
  predicate Succeeded(calls: seq<Call>, k: nat)
    requires k < |calls|
  {
    Do(After(calls[..k]), calls[k]).1
  }

  /** Calls that touch a record. */
  predicate OfSites(c: Call) { c.Define? || c.Use? || c.CallFunc? || c.Locals? || c.Emit? }

  lemma OtherCalls(st: State, c: Call)
    requires !OfSites(c)
    ensures Do(st, c).0.sites == st.sites && (Do(st, c).1 <==> Do(st, c).0.err.None?)
  {
    hide EndFault, Inserted, IsId;
  }

  lemma DefineStep(st: State, declPoint: bool, func: bool, hooks: Hooks, early: Option<string>, late: Option<string>)
    requires st.err.None?
    ensures var (st', ok) := DoDefine(st, declPoint, func, hooks, early, late);
      && (ok <==> st'.err.None?) && (ok ==> st'.sites == st.sites + [NewRec(declPoint, func, hooks)])
      && (st'.sites == st.sites || st'.sites == st.sites + [NewRec(declPoint, func, hooks)])
  {
  }

  lemma UseOnce(st: State, h: nat, gate: Option<string>, arm: Option<string>)
    requires st.err.None?
    ensures var (st', ok) := DoUse(st, h, gate, arm);
      && (ok <==> st'.err.None?)
      && (!ok ==> st'.sites == st.sites)
      && (ok ==> Known(st, h) && (st.sites[h - 1].declPoint ==> st.sites[h - 1].placed) &&
                 st'.sites == st.sites[h - 1 := st.sites[h - 1].(used := true)])
  {
  }

  lemma LocalsOnce(st: State, h: nat, hooks: Hooks)
    requires st.err.None?
    ensures var (st', ok) := DoLocals(st, h, hooks);
      && (ok <==> st'.err.None?)
      && (!ok ==> st'.sites == st.sites)
      && (ok ==> Known(st, h) && st.sites[h - 1].declPoint && !st.sites[h - 1].placed &&
                 st'.sites == st.sites[h - 1 := st.sites[h - 1].(placed := true)])
  {
  }

  /** What any call does to the records. */
  lemma SitesStep(st: State, c: Call)
    requires st.err.None? && OfSites(c)
    ensures var (st', ok) := Do(st, c);
      && (ok <==> st'.err.None?)
      && match c
         case Locals(h, hooks) => (st', ok) == DoLocals(st, h, hooks)
         case Define(d, f, hooks, e, l) => (st', ok) == DoDefine(st, d, f, hooks, e, l)
         case Use(h, g, a) => (st', ok) == DoUse(st, h, g, a)
         case CallFunc(h, g, a) => (st', ok) == DoUse(st, h, g, a) || (!ok && st'.sites == st.sites)
         case Emit(d, f, hooks, e, l, g, a) =>
           var (mid, made) := DoDefine(st, d, f, hooks, e, l);
           (!made && !ok && st' == mid) || (made && (st', ok) == DoUse(mid, |mid.sites|, g, a))
         case _ => true
  {
    hide EndFault, Inserted, IsId, DoDefine, DoUse, DoLocals;
    match c
    case Locals(h, hooks) => LocalsOnce(st, h, hooks);
    case Define(d, f, hooks, e, l) => DefineStep(st, d, f, hooks, e, l);
    case Use(h, g, a) => UseOnce(st, h, g, a);
    case CallFunc(h, g, a) => UseOnce(st, h, g, a);
    case Emit(d, f, hooks, e, l, g, a) =>
      DefineStep(st, d, f, hooks, e, l);
      var (mid, made) := DoDefine(st, d, f, hooks, e, l);
      if made { UseOnce(mid, |mid.sites|, g, a); }
    case _ =>
  }

  /** What a call does to record `h`. */
  predicate Stepped(st: State, c: Call, h: nat, st': State, ok: bool) {
    var places, uses := ok && c.Locals? && c.h == h, ok && UsesOf(st, c, h);
    && |st'.sites| >= |st.sites|
    && (places ==> Known(st, h) && st.sites[h - 1].declPoint && !st.sites[h - 1].placed)
    && (uses ==> Known(st', h) && (st'.sites[h - 1].declPoint ==> st'.sites[h - 1].placed))
    && (Known(st, h) ==>
          var r := st.sites[h - 1]; st'.sites[h - 1] == r.(placed := r.placed || places, used := r.used || uses))
    && (Known(st', h) && !Known(st, h) ==> !st'.sites[h - 1].placed && (st'.sites[h - 1].used <==> uses))
  }

  lemma RecordStep(st: State, c: Call, h: nat)
    ensures Stepped(st, c, h, Do(st, c).0, Do(st, c).1)
  {
    if st.err.Some? || !OfSites(c) {
      SameSites(st, c);
      hide Do;
      SameStepped(st, c, h, Do(st, c).0, Do(st, c).1);
    } else {
      SitesStep(st, c);
      hide Do, DoDefine, DoUse, DoLocals, NewRec, Stepped;
      var (st', ok) := Do(st, c);
      match c
      case Locals(g, hooks) =>
        LocalsOnce(st, g, hooks);
        LocalsStepped(st, c, h, st', ok);
      case Define(d, f, hooks, e, l) =>
        DefineStep(st, d, f, hooks, e, l);
        DefineStepped(st, c, h, st', ok, d, f, hooks);
      case Use(g, x, y) =>
        UseOnce(st, g, x, y);
        UseStepped(st, c, h, st', ok);
      case CallFunc(g, x, y) =>
        UseOnce(st, g, x, y);
        UseStepped(st, c, h, st', ok);
      case Emit(d, f, hooks, e, l, x, y) =>
        DefineStep(st, d, f, hooks, e, l);
        var (mid, made) := DoDefine(st, d, f, hooks, e, l);
        if made {
          UseOnce(mid, |mid.sites|, x, y);
          EmitStepped(st, c, h, mid, st', ok);
        } else {
          DefineStepped(st, c, h, st', ok, d, f, hooks);
        }
    }
  }

  lemma SameSites(st: State, c: Call)
    requires st.err.Some? || !OfSites(c)
    ensures Do(st, c).0.sites == st.sites && (OfSites(c) ==> !Do(st, c).1)
  {
    if st.err.None? { OtherCalls(st, c); }
  }

  lemma SameStepped(st: State, c: Call, h: nat, st': State, ok: bool)
    requires st'.sites == st.sites && (OfSites(c) ==> !ok)
    ensures Stepped(st, c, h, st', ok)
  {
  }

  lemma LocalsStepped(st: State, c: Call, h: nat, st': State, ok: bool)
    requires c.Locals? && (!ok ==> st'.sites == st.sites)
    requires ok ==> Known(st, c.h) && st.sites[c.h - 1].declPoint && !st.sites[c.h - 1].placed &&
                    st'.sites == st.sites[c.h - 1 := st.sites[c.h - 1].(placed := true)]
    ensures Stepped(st, c, h, st', ok)
  {
  }

  lemma UseStepped(st: State, c: Call, h: nat, st': State, ok: bool)
    requires (c.Use? || c.CallFunc?) && (!ok ==> st'.sites == st.sites)
    requires ok ==> Known(st, c.h) && (st.sites[c.h - 1].declPoint ==> st.sites[c.h - 1].placed) &&
                    st'.sites == st.sites[c.h - 1 := st.sites[c.h - 1].(used := true)]
    ensures Stepped(st, c, h, st', ok)
  {
  }

  lemma DefineStepped(st: State, c: Call, h: nat, st': State, ok: bool, d: bool, f: bool, hooks: Hooks)
    requires (c.Define? || c.Emit?) && (c.Emit? ==> !ok)
    requires st'.sites == st.sites || st'.sites == st.sites + [NewRec(d, f, hooks)]
    ensures Stepped(st, c, h, st', ok)
  {
  }

  lemma EmitStepped(st: State, c: Call, h: nat, mid: State, st': State, ok: bool)
    requires c.Emit? && mid.sites == st.sites + [NewRec(c.declPoint, c.func, c.hooks)] && (!ok ==> st'.sites == mid.sites)
    requires ok ==> (c.declPoint ==> mid.sites[|st.sites|].placed) &&
                    st'.sites == mid.sites[|st.sites| := mid.sites[|st.sites|].(used := true)]
    ensures Stepped(st, c, h, st', ok)
  {
  }

  /** A call fails exactly when it leaves an error recorded; the first recorded error is never overwritten, and
      every later call fails and changes nothing. */
  lemma StickyError(st: State, c: Call)
    ensures Do(st, c).1 <==> Do(st, c).0.err.None?
    ensures st.err.Some? ==> Do(st, c) == (st, false)
  {
    if st.err.None? {
      if OfSites(c) { SitesStep(st, c); } else { OtherCalls(st, c); }
      hide Do;
    }
  }

  lemma {:induction false} FirstErrorStays(calls: seq<Call>, more: seq<Call>)
    requires After(calls).err.Some?
    ensures After(calls + more) == After(calls)
    decreases |more|
  {
    hide Do;
    if more == [] {
      assert calls + more == calls;
    } else {
      var n := |more| - 1;
      assert (calls + more)[..|calls + more| - 1] == calls + more[..n];
      FirstErrorStays(calls, more[..n]);
      StickyError(After(calls), more[n]);
    }
  }

  /** No error is recorded exactly when every call so far succeeded. */
  lemma {:induction false} NoErrorIff(calls: seq<Call>)
    ensures After(calls).err.None? <==> forall k: nat :: k < |calls| ==> Succeeded(calls, k)
    decreases |calls|
  {
    hide Do;
    if calls != [] {
      var n := |calls| - 1;
      NoErrorIff(calls[..n]);
      StickyError(After(calls[..n]), calls[n]);
      forall k: nat | k < n
        ensures Succeeded(calls, k) <==> Succeeded(calls[..n], k)
      {
        assert calls[..n][..k] == calls[..k];
      }
      if After(calls).err.None? { assert After(calls[..n]).err.None?; }
      if forall k: nat :: k < |calls| ==> Succeeded(calls, k) { assert Succeeded(calls, n); }
    }
  }

  /** Only a declaration point is ever placed, and it is placed before it is used. */
  predicate RecOk(r: Rec) { (r.placed ==> r.declPoint) && (r.declPoint && r.used ==> r.placed) }

  predicate SitesOk(st: State) { forall i :: 0 <= i < |st.sites| ==> RecOk(st.sites[i]) }

  lemma RecordKept(st: State, c: Call, h: nat)
    requires Known(Do(st, c).0, h) && (Known(st, h) ==> RecOk(st.sites[h - 1]))
    ensures RecOk(Do(st, c).0.sites[h - 1])
  {
    hide Do;
    RecordStep(st, c, h);
  }

  lemma DoKeepsSites(st: State, c: Call)
    requires SitesOk(st)
    ensures SitesOk(Do(st, c).0)
  {
    hide Do, RecOk;
    var sites' := Do(st, c).0.sites;
    forall i | 0 <= i < |sites'|
      ensures RecOk(sites'[i])
    {
      assert i < |st.sites| ==> RecOk(st.sites[i]);
      RecordKept(st, c, i + 1);
    }
  }

  lemma {:induction false} AfterSitesOk(calls: seq<Call>)
    ensures SitesOk(After(calls))
    decreases |calls|
  {
    hide Do, RecOk;
    if calls != [] {
      AfterSitesOk(calls[..|calls| - 1]);
      DoKeepsSites(After(calls[..|calls| - 1]), calls[|calls| - 1]);
    }
  }

  lemma {:induction false} EndFaultIff(sites: seq<Rec>, i: nat)
    requires i <= |sites| && forall k :: 0 <= k < |sites| ==> RecOk(sites[k])
    ensures EndFault(sites, i).None? <==> forall k :: i <= k < |sites| ==> sites[k].used
    decreases |sites| - i
  {
    if i < |sites| {
      EndFaultIff(sites, i + 1);
    }
  }

  /** The end succeeds exactly when every earlier call did and every defined handle was used. */
  lemma EndSucceedsIff(calls: seq<Call>)
    ensures Do(After(calls), End).1 <==>
      (forall k: nat :: k < |calls| ==> Succeeded(calls, k)) && forall r :: r in After(calls).sites ==> r.used
  {
    hide Succeeded, After;
    NoErrorIff(calls);
    AfterSitesOk(calls);
    EndFaultIff(After(calls).sites, 0);
  }

  // ----- placed exactly once, before its first use -----

  /** How many of the first `k` calls placed handle `h`'s storage. */
  function Placings(calls: seq<Call>, h: nat): nat
    decreases |calls|
  {
    if calls == [] then 0
    else
      var n := |calls| - 1;
      Placings(calls[..n], h) + if calls[n].Locals? && calls[n].h == h && Succeeded(calls, n) then 1 else 0
  }

  /** A handle's storage has been placed once if its record says so, else never. */
  lemma {:induction false} PlacedOnce(calls: seq<Call>, h: nat)
    ensures Placings(calls, h) == if Known(After(calls), h) && After(calls).sites[h - 1].placed then 1 else 0
    decreases |calls|
  {
    hide Do;
    if calls != [] {
      var n := |calls| - 1;
      PlacedOnce(calls[..n], h);
      PlacingStep(After(calls[..n]), calls[n], h);
    }
  }

  lemma PlacingStep(st: State, c: Call, h: nat)
    ensures var (st', ok) := Do(st, c);
      var was, now := Known(st, h) && st.sites[h - 1].placed, Known(st', h) && st'.sites[h - 1].placed;
      if c.Locals? && c.h == h && ok then !was && now else was == now
  {
    hide Do;
    RecordStep(st, c, h);
  }

  /** A use of a declaration point succeeds only after its storage was placed, exactly once. */
  lemma UseAfterPlacing(calls: seq<Call>, k: nat)
    requires k < |calls| && calls[k].Use? && Succeeded(calls, k)
    ensures Known(After(calls[..k]), calls[k].h)
    ensures After(calls[..k]).sites[calls[k].h - 1].declPoint ==> Placings(calls[..k], calls[k].h) == 1
  {
    hide EndFault, After;
    PlacedOnce(calls[..k], calls[k].h);
  }

  /** In a run that ends well, every declaration point was placed exactly once. */
  lemma EndedWellPlacedOnce(calls: seq<Call>, h: nat)
    requires Do(After(calls), End).1 && Known(After(calls), h) && After(calls).sites[h - 1].declPoint
    ensures Placings(calls, h) == 1
  {
    hide After, Placings;
    EndSucceedsIff(calls);
    AfterSitesOk(calls);
    PlacedOnce(calls, h);
    assert RecOk(After(calls).sites[h - 1]);
    assert After(calls).sites[h - 1] in After(calls).sites;
  }

  /** Whether handle `h` has been used is whether some use of it succeeded. */
  lemma {:induction false} UsedIff(calls: seq<Call>, h: nat)
    requires Known(After(calls), h)
    ensures After(calls).sites[h - 1].used <==>
      exists k: nat :: k < |calls| && UsesHandle(calls, k, h)
    decreases |calls|
  {
    hide Do;
    if calls != [] {
      var n := |calls| - 1;
      var st := After(calls[..n]);
      UseStep(st, calls[n], h);
      forall k: nat | k < n
        ensures UsesHandle(calls, k, h) <==> UsesHandle(calls[..n], k, h)
      {
        assert calls[..n][..k] == calls[..k];
      }
      if Known(st, h) {
        UsedIff(calls[..n], h);
      } else {
        NotYetUsed(calls[..n], h);
      }
      assert UsesHandle(calls, n, h) ==> After(calls).sites[h - 1].used;
    }
  }

  /** Call `k` succeeded and used handle `h`. */
  predicate UsesHandle(calls: seq<Call>, k: nat, h: nat)
    requires k < |calls|
  {
    Succeeded(calls, k) && UsesOf(After(calls[..k]), calls[k], h)
  }

  predicate UsesOf(st: State, c: Call, h: nat) {
    ((c.Use? || c.CallFunc?) && c.h == h) || (c.Emit? && h == |st.sites| + 1)
  }

  lemma UseStep(st: State, c: Call, h: nat)
    requires Known(Do(st, c).0, h)
    ensures Do(st, c).0.sites[h - 1].used <==>
      (Known(st, h) && st.sites[h - 1].used) || (Do(st, c).1 && UsesOf(st, c, h))
  {
    hide Do;
    RecordStep(st, c, h);
  }

  lemma {:induction false} NotYetUsed(calls: seq<Call>, h: nat)
    requires !Known(After(calls), h)
    ensures forall k: nat :: k < |calls| ==> !UsesHandle(calls, k, h)
    decreases |calls|
  {
    hide Do;
    if calls != [] {
      var n := |calls| - 1;
      GrowOnly(After(calls[..n]), calls[n]);
      NotYetUsed(calls[..n], h);
      if UsesHandle(calls, n, h) { UseNeedsHandle(After(calls[..n]), calls[n], h); }
      forall k: nat | k < n
        ensures !UsesHandle(calls, k, h)
      {
        assert calls[..n][..k] == calls[..k];
        assert !UsesHandle(calls[..n], k, h);
      }
    }
  }

  lemma GrowOnly(st: State, c: Call)
    ensures |Do(st, c).0.sites| >= |st.sites|
  {
    hide Do;
    RecordStep(st, c, 0);
  }

  lemma UseNeedsHandle(st: State, c: Call, h: nat)
    requires Do(st, c).1 && UsesOf(st, c, h)
    ensures Known(Do(st, c).0, h)
  {
    hide Do;
    RecordStep(st, c, h);
  }

  // ----- the noted names -----

  /** The names that were noted, in the order of the calls. */
  function NamesOf(calls: seq<Call>): seq<string>
    decreases |calls|
  {
    if calls == [] then []
    else
      var n := |calls| - 1;
      NamesOf(calls[..n]) + if calls[n].Note? && Succeeded(calls, n) then [calls[n].name] else []
  }

  lemma {:induction false} LibcIs(calls: seq<Call>)
    ensures After(calls).libc == Noted(NamesOf(calls))
    decreases |calls|
  {
    hide Do, Inserted;
    if calls != [] {
      var n := |calls| - 1;
      LibcIs(calls[..n]);
      NoteStep(After(calls[..n]), calls[n]);
      var names := NamesOf(calls[..n]);
      if calls[n].Note? { assert (names + [calls[n].name])[..|names|] == names; }
      assert names + [] == names;
    }
  }

  lemma NoteStep(st: State, c: Call)
    ensures var (st', ok) := Do(st, c);
      st'.libc == if c.Note? && ok then Inserted(st.libc, c.name) else st.libc
  {
    hide EndFault, Inserted;
  }

  /** Whatever else two runs do, they hold the same list, and so write the same stamp, exactly when they noted the same
      names; how often and in which order does not matter. */
  lemma RunsNoteAlike(calls: seq<Call>, calls': seq<Call>)
    ensures After(calls).libc == After(calls').libc <==> forall x :: x in NamesOf(calls) <==> x in NamesOf(calls')
  {
    hide After, NamesOf, Noted;
    LibcIs(calls);
    LibcIs(calls');
    NotesOrderFree(NamesOf(calls), NamesOf(calls'));
  }
}
