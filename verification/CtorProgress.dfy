/** Which steps a thread can take, and runs in which calls come to their end: do_init_fini and __libc_exit_fini of
    musl/ldso/dynlink.c as in CtorProtocol. */
module CtorProgress {
  import opened CtorProtocol

  ghost predicate Can(fin: seq<bool>, s: State, t: nat, a: Action) {
    exists s' :: Step(fin, s, t, a, s')
  }

  // ----- which steps are possible -----

  /** What a call of do_init_fini that holds the lock does next: at the end of its queue it returns, for an object
      that another thread constructs and during the shutdown it waits, an object that is settled it passes, any other
      it claims. */
  ghost function InitNext(s: State, t: nat, f: Frame): Action
    requires f.Init?
  {
    if f.i >= |f.queue| then Return
    else if VisitedByOther(s, t, f.queue[f.i]) || s.down then Wait
    else if Settled(s, t, f.queue[f.i]) then Skip
    else TakeObject
  }

  /** And a call of __libc_exit_fini at object x. */
  ghost function ExitNext(s: State, t: nat, x: nat): Action {
    if VisitedByOther(s, t, x) then Wait
    else if x < |s.constructed| && s.constructed[x] then Finalize
    else Skip
  }

  ghost predicate CallOk(s: State, a: Action) {
    (a.CallInit? && Nodes(s, a.q)) || (a.CallExit? && s.exiter == NOBODY)
  }

  ghost predicate Enabled(s: State, t: nat, a: Action) {
    Thread(s, t) &&
      if |s.stacks[t]| == 0 then CallOk(s, a)
      else
        var f := TopFrame(s, t);
        match f.pc
        case Enter => a == Lock && s.lock == NOBODY
        case Waiting => a == Lock && s.lock == NOBODY
        case Claimed => a == Begin
        case Running => CallOk(s, a) || (a == Complete && s.lock == NOBODY)
        case Locked => if f.Init? then a == InitNext(s, t, f) else f.i < |s.fini| && a == ExitNext(s, t, s.fini[f.i])
  }

  /** A constructed object has no visitor. */
  lemma SettledFree(fin: seq<bool>, s: State, t: nat, x: nat)
    requires Inv(fin, s) && Settled(s, t, x)
    ensures !VisitedByOther(s, t, x) && (s.constructed[x] ==> s.visitor[x] == NOBODY)
  {
    assert AllKept(fin, s);
    assert VisitedOk(s, x);
  }

  /** What the invariant says of the object at the top frame of t. */
  lemma TopOk(fin: seq<bool>, s: State, t: nat)
    requires Inv(fin, s) && HasTop(s, t)
    ensures |s.visitor| == |s.constructed| == |fin| && Nodes(s, s.fini)
    ensures FrameOk(s, t, |s.stacks[t]| - 1)
  {
    assert AllKept(fin, s);
  }

  lemma InitSteps(fin: seq<bool>, s: State, t: nat, a: Action)
    requires Inv(fin, s) && HasTop(s, t) && TopFrame(s, t).Init? && TopFrame(s, t).pc.Locked?
    ensures Can(fin, s, t, a) ==> a == InitNext(s, t, TopFrame(s, t))
  {
    TopOk(fin, s, t);
    var f := TopFrame(s, t);
    if f.i < |f.queue| && Settled(s, t, f.queue[f.i]) { SettledFree(fin, s, t, f.queue[f.i]); }
  }

  lemma InitCan(fin: seq<bool>, s: State, t: nat)
    requires Inv(fin, s) && HasTop(s, t) && TopFrame(s, t).Init? && TopFrame(s, t).pc.Locked?
    ensures Can(fin, s, t, InitNext(s, t, TopFrame(s, t)))
  {
    TopOk(fin, s, t);
    var f := TopFrame(s, t);
    if f.i >= |f.queue| {
      assert Step(fin, s, t, Return, PopFrame(s, t).(lock := NOBODY));
    } else if VisitedByOther(s, t, f.queue[f.i]) || s.down {
      assert Step(fin, s, t, Wait, SetTop(s, t, f.(pc := Waiting)).(lock := NOBODY));
    } else if Settled(s, t, f.queue[f.i]) {
      SettledFree(fin, s, t, f.queue[f.i]);
      assert Step(fin, s, t, Skip, SetTop(s, t, f.(i := f.i + 1)));
    } else {
      var x := f.queue[f.i];
      assert Step(fin, s, t, TakeObject, Logged(SetTop(s, t, f.(pc := Claimed)), Claim(x)).(
        visitor := s.visitor[x := t], fini := if fin[x] then [x] + s.fini else s.fini, lock := NOBODY));
    }
  }

  lemma ExitSteps(fin: seq<bool>, s: State, t: nat, a: Action)
    requires Inv(fin, s) && HasTop(s, t) && TopFrame(s, t).Exit? && TopFrame(s, t).pc.Locked?
    ensures Can(fin, s, t, a) ==> TopFrame(s, t).i < |s.fini| && a == ExitNext(s, t, s.fini[TopFrame(s, t).i])
  {
    TopOk(fin, s, t);
  }

  lemma ExitCan(fin: seq<bool>, s: State, t: nat)
    requires Inv(fin, s) && HasTop(s, t) && TopFrame(s, t).Exit? && TopFrame(s, t).pc.Locked?
    requires TopFrame(s, t).i < |s.fini|
    ensures Can(fin, s, t, ExitNext(s, t, s.fini[TopFrame(s, t).i]))
  {
    TopOk(fin, s, t);
    var f := TopFrame(s, t);
    var x := s.fini[f.i];
    if VisitedByOther(s, t, x) {
      assert Step(fin, s, t, Wait, SetTop(s, t, Exit(f.i, Waiting)).(lock := NOBODY));
    } else if s.constructed[x] {
      assert Step(fin, s, t, Finalize, Logged(SetTop(s, t, Exit(f.i + 1, Locked)), Fini(x)));
    } else {
      assert Step(fin, s, t, Skip, SetTop(s, t, Exit(f.i + 1, Locked)));
    }
  }

  lemma CallCan(fin: seq<bool>, s: State, t: nat, a: Action)
    requires MayCall(s, t) && CallOk(s, a)
    ensures Can(fin, s, t, a)
  {
    match a {
      case CallInit(q) => assert Step(fin, s, t, a, PushFrame(s, t, Init(q, 0, Enter)));
      case CallExit => assert Step(fin, s, t, a, PushFrame(s, t, Exit(0, Enter)).(exiter := t));
    }
  }

  lemma LockCan(fin: seq<bool>, s: State, t: nat)
    requires HasTop(s, t) && s.lock == NOBODY && (TopFrame(s, t).pc.Enter? || TopFrame(s, t).pc.Waiting?)
    ensures Can(fin, s, t, Lock)
  {
    var f := TopFrame(s, t);
    var s1 := SetTop(s, t, f.(pc := Locked)).(lock := t);
    assert Step(fin, s, t, Lock, if f.Exit? && f.pc.Enter? then Logged(s1, Shutdown).(down := true) else s1);
  }

  lemma CtorCan(fin: seq<bool>, s: State, t: nat)
    requires Inv(fin, s) && HasTop(s, t)
    ensures TopFrame(s, t).pc.Claimed? ==> Can(fin, s, t, Begin)
    ensures TopFrame(s, t).pc.Running? && s.lock == NOBODY ==> Can(fin, s, t, Complete)
  {
    TopOk(fin, s, t);
    var f := TopFrame(s, t);
    if f.pc.Claimed? {
      assert Step(fin, s, t, Begin, Logged(SetTop(s, t, f.(pc := Running)), Start(Entry(s, t))));
    }
    if f.pc.Running? && s.lock == NOBODY {
      var x := Entry(s, t);
      assert Step(fin, s, t, Complete, Logged(SetTop(s, t, f.(pc := Locked, i := f.i + 1)), Done(x)).(
        visitor := s.visitor[x := NOBODY], constructed := s.constructed[x := true], lock := t));
    }
  }

  /** Main result: the steps that are possible, in every reachable state and for every thread. */
  lemma CanExact(fin: seq<bool>, s: State, t: nat, a: Action)
    requires Reachable(fin, s)
    ensures Can(fin, s, t, a) <==> Enabled(s, t, a)
  {
    ReachableInv(fin, s);
    if Enabled(s, t, a) { EnabledCan(fin, s, t, a); }
    if Can(fin, s, t, a) { CanEnabled(fin, s, t, a); }
  }

  lemma EnabledCan(fin: seq<bool>, s: State, t: nat, a: Action)
    requires Inv(fin, s) && Enabled(s, t, a)
    ensures Can(fin, s, t, a)
  {
    if MayCall(s, t) && CallOk(s, a) {
      CallCan(fin, s, t, a);
    } else {
      TopOk(fin, s, t);
      match TopFrame(s, t).pc {
        case Enter => LockCan(fin, s, t);
        case Waiting => LockCan(fin, s, t);
        case Claimed => CtorCan(fin, s, t);
        case Running => CtorCan(fin, s, t);
        case Locked => if TopFrame(s, t).Init? { InitCan(fin, s, t); } else { ExitCan(fin, s, t); }
      }
    }
  }

  lemma CanEnabled(fin: seq<bool>, s: State, t: nat, a: Action)
    requires Inv(fin, s) && Can(fin, s, t, a)
    ensures Enabled(s, t, a)
  {
    var s' :| Step(fin, s, t, a, s');
    if HasTop(s, t) {
      TopOk(fin, s, t);
      if TopFrame(s, t).pc.Locked? {
        if TopFrame(s, t).Init? { InitSteps(fin, s, t, a); } else { ExitSteps(fin, s, t, a); }
      }
    }
  }

  ghost predicate OnlyWaits(fin: seq<bool>, s: State, t: nat) {
    forall a :: Can(fin, s, t, a) ==> a == Wait
  }

  /** Main result: a call of do_init_fini that holds the lock can go on, and it can only wait exactly if another
      thread constructs the object it is at or the shutdown has begun. */
  lemma InitGoesOn(fin: seq<bool>, s: State, t: nat)
    requires Reachable(fin, s) && HasTop(s, t) && TopFrame(s, t).Init? && TopFrame(s, t).pc.Locked?
    ensures exists a :: Can(fin, s, t, a)
    ensures OnlyWaits(fin, s, t) <==>
      var f := TopFrame(s, t); f.i < |f.queue| && (VisitedByOther(s, t, f.queue[f.i]) || s.down)
  {
    var a := InitNext(s, t, TopFrame(s, t));
    CanExact(fin, s, t, a);
    forall b | Can(fin, s, t, b) ensures b == a { CanExact(fin, s, t, b); }
  }

  /** Main result: a call of __libc_exit_fini that holds the lock can go on exactly if it is not at the end of its
      list, and it can only wait exactly if another thread constructs the object it is at. */
  lemma ExitGoesOn(fin: seq<bool>, s: State, t: nat)
    requires Reachable(fin, s) && HasTop(s, t) && TopFrame(s, t).Exit? && TopFrame(s, t).pc.Locked?
    ensures (exists a :: Can(fin, s, t, a)) <==> TopFrame(s, t).i < |s.fini|
    ensures TopFrame(s, t).i < |s.fini| ==>
      (OnlyWaits(fin, s, t) <==> VisitedByOther(s, t, s.fini[TopFrame(s, t).i]))
  {
    forall b | Can(fin, s, t, b) ensures Enabled(s, t, b) { CanExact(fin, s, t, b); }
    if TopFrame(s, t).i < |s.fini| {
      CanExact(fin, s, t, ExitNext(s, t, s.fini[TopFrame(s, t).i]));
    }
  }

  // ----- nobody keeps the lock -----

  /** Whoever has the lock is at a point of the code where it holds it. */
  ghost predicate Held(s: State) {
    s.lock != NOBODY ==> HasTop(s, s.lock) && TopFrame(s, s.lock).pc.Locked?
  }

  lemma StepHeld(fin: seq<bool>, s: State, t: nat, a: Action, s': State)
    requires Inv(fin, s) && Held(s) && Step(fin, s, t, a, s')
    ensures Held(s')
  {
    assert AllKept(fin, s);
    StepOthers(fin, s, t, a, s');
    if HasTop(s, t) { assert FrameOk(s, t, |s.stacks[t]| - 1); }
  }

  lemma {:induction false} RunHeld(fin: seq<bool>, run: seq<State>, moves: seq<Move>, k: nat)
    requires IsRun(fin, run, moves) && k < |run|
    ensures Held(run[k])
  {
    if k > 0 {
      RunHeld(fin, run, moves, k - 1);
      RunInv(fin, run, moves, k - 1);
      assert MoveOk(fin, run, moves, k - 1);
      StepHeld(fin, run[k - 1], moves[k - 1].t, moves[k - 1].a, run[k]);
    }
  }

  lemma ReachableHeld(fin: seq<bool>, s: State)
    requires Reachable(fin, s)
    ensures Held(s)
  {
    assert EndsRun(fin, s);
    var run: seq<State>, moves: seq<Move> :| IsRun(fin, run, moves) && run[|moves|] == s;
    RunHeld(fin, run, moves, |moves|);
  }

  /** Main result: while the lock is free every thread can take a step, and while it is taken its holder can, unless
      that is the exiting thread at the end of its list. */
  lemma SomeoneMoves(fin: seq<bool>, s: State, t: nat)
    requires Reachable(fin, s) && Thread(s, t)
    ensures s.lock == NOBODY ==> exists a :: Can(fin, s, t, a)
    ensures s.lock != NOBODY ==> HasTop(s, s.lock) && var f := TopFrame(s, s.lock);
      (exists a :: Can(fin, s, s.lock, a)) <==> !(f.Exit? && f.i >= |s.fini|)
  {
    ReachableHeld(fin, s);
    if s.lock == NOBODY {
      FreeMoves(fin, s, t);
    } else if TopFrame(s, s.lock).Init? {
      InitGoesOn(fin, s, s.lock);
    } else {
      ExitGoesOn(fin, s, s.lock);
    }
  }

  lemma FreeMoves(fin: seq<bool>, s: State, t: nat)
    requires Reachable(fin, s) && Thread(s, t) && s.lock == NOBODY
    ensures exists a :: Can(fin, s, t, a)
  {
    ReachableInv(fin, s);
    if |s.stacks[t]| == 0 {
      CallCan(fin, s, t, CallInit([]));
    } else {
      TopOk(fin, s, t);
      match TopFrame(s, t).pc {
        case Enter => LockCan(fin, s, t);
        case Waiting => LockCan(fin, s, t);
        case Claimed => CtorCan(fin, s, t);
        case Running => CtorCan(fin, s, t);
        case Locked => assert false;
      }
    }
  }

  // ----- a call of do_init_fini from beginning to end -----

  /** Step behind a bound variable, so that only proofs that name it see inside. */
  ghost predicate Takes(fin: seq<bool>, s: State, t: nat, a: Action, s': State) {
    forall b :: b == a ==> Step(fin, s, t, b, s')
  }

  /** Thread t alone takes the steps acts and comes from s to s'. */
  ghost predicate Leads(fin: seq<bool>, s: State, t: nat, acts: seq<Action>, s': State)
    decreases |acts|
  {
    if |acts| == 0 then s' == s
    else exists m :: Takes(fin, s, t, acts[0], m) && Leads(fin, m, t, acts[1..], s')
  }

  lemma {:induction false} LeadsOn(fin: seq<bool>, s: State, t: nat, acts: seq<Action>, m: State, more: seq<Action>,
                                   s': State)
    requires Leads(fin, s, t, acts, m) && Leads(fin, m, t, more, s')
    ensures Leads(fin, s, t, acts + more, s')
    decreases |acts|
  {
    if |acts| == 0 {
      assert acts + more == more;
    } else {
      var r :| Takes(fin, s, t, acts[0], r) && Leads(fin, r, t, acts[1..], m);
      LeadsOn(fin, r, t, acts[1..], m, more, s');
      assert (acts + more)[1..] == acts[1..] + more;
    }
  }

  lemma OneStep(fin: seq<bool>, s: State, t: nat, a: Action, s': State)
    requires Step(fin, s, t, a, s')
    ensures Leads(fin, s, t, [a], s')
  {
    var rest := [a][1..];
    assert Takes(fin, s, t, a, s');
    assert Leads(fin, s', t, rest, s');
  }

  lemma OneMore(fin: seq<bool>, s: State, t: nat, acts: seq<Action>, m: State, a: Action, s': State)
    requires Leads(fin, s, t, acts, m) && Takes(fin, m, t, a, s')
    ensures Leads(fin, s, t, acts + [a], s')
  {
    assert Step(fin, m, t, a, s');
    OneStep(fin, m, t, a, s');
    LeadsOn(fin, s, t, acts, m, [a], s');
  }

  /** What a call that nobody disturbs makes of object x: nothing if it is settled, otherwise it constructs it. */
  function Built(fin: seq<bool>, s: State, t: nat, x: nat): State
    requires x < |fin| && x < |s.visitor| && x < |s.constructed|
  {
    if s.constructed[x] || s.visitor[x] == t then s
    else s.(constructed := s.constructed[x := true], fini := if fin[x] then [x] + s.fini else s.fini,
            log := s.log + [Claim(x), Start(x), Done(x)])
  }

  /** and of the objects of a queue, one after the other. */
  ghost function BuiltAll(fin: seq<bool>, s: State, t: nat, q: seq<nat>): (s': State)
    requires |s.visitor| == |s.constructed| == |fin| && Nodes(s, q)
    ensures s' == s.(constructed := s'.constructed, fini := s'.fini, log := s'.log)
    ensures |s'.constructed| == |s.constructed|
    decreases |q|
  {
    if |q| == 0 then s else Built(fin, BuiltAll(fin, s, t, q[..|q| - 1]), t, q[|q| - 1])
  }

  ghost function EntryActs(s: State, t: nat, x: nat): seq<Action> {
    if Settled(s, t, x) then [Skip] else [TakeObject, Begin, Complete]
  }

  ghost function QueueActs(fin: seq<bool>, s: State, t: nat, q: seq<nat>): seq<Action>
    requires |s.visitor| == |s.constructed| == |fin| && Nodes(s, q)
    decreases |q|
  {
    if |q| == 0 then []
    else QueueActs(fin, s, t, q[..|q| - 1]) + EntryActs(BuiltAll(fin, s, t, q[..|q| - 1]), t, q[|q| - 1])
  }

  /** A frame just pushed can be changed and popped. */
  lemma PushedTop(s: State, t: nat, f: Frame, g: Frame, u: State)
    requires Thread(s, t) && u.stacks == PushFrame(s, t, f).stacks
    ensures HasTop(u, t) && TopFrame(u, t) == f
    ensures SetTop(u, t, g).stacks == PushFrame(s, t, g).stacks && PopFrame(u, t).stacks == s.stacks
  {
    var w := s.stacks[t];
    assert (w + [f])[|w| := g] == w + [g];
    assert (w + [f])[..|w|] == w;
  }

  /** The call at entry i of its queue, with the lock. */
  function Inside(s: State, t: nat, q: seq<nat>, i: nat): State
    requires t < |s.stacks|
  {
    PushFrame(s, t, Init(q, i, Locked)).(lock := t)
  }

  /** Only the thread itself visits objects of the queue, no constructed object is visited, the lock is free and there
      is no shutdown. */
  ghost predicate Undisturbed(fin: seq<bool>, s: State, t: nat, q: seq<nat>) {
    && Thread(s, t) && |s.visitor| == |s.constructed| == |fin| && Nodes(s, q) && s.lock == NOBODY && !s.down
    && forall k :: 0 <= k < |q| ==> !VisitedByOther(s, t, q[k]) && (s.constructed[q[k]] ==> s.visitor[q[k]] == NOBODY)
  }

  lemma PassSettled(fin: seq<bool>, s: State, t: nat, q: seq<nat>, i: nat)
    requires Thread(s, t) && |s.visitor| == |s.constructed| == |fin| && i < |q| && Nodes(s, q) && !s.down
    requires !VisitedByOther(s, t, q[i]) && Settled(s, t, q[i])
    ensures Step(fin, Inside(s, t, q, i), t, Skip, Inside(s, t, q, i + 1))
  {
    PushedTop(s, t, Init(q, i, Locked), Init(q, i + 1, Locked), Inside(s, t, q, i));
  }

  /** After the claim of the object at entry i, and after the start of its constructors. */
  function AtClaim(fin: seq<bool>, s: State, t: nat, q: seq<nat>, i: nat): State
    requires t < |s.stacks| && i < |q| && q[i] < |s.visitor| && q[i] < |fin|
  {
    PushFrame(s, t, Init(q, i, Claimed)).(visitor := s.visitor[q[i] := t],
      fini := if fin[q[i]] then [q[i]] + s.fini else s.fini, log := s.log + [Claim(q[i])], lock := NOBODY)
  }

  function AtStart(fin: seq<bool>, s: State, t: nat, q: seq<nat>, i: nat): State
    requires t < |s.stacks| && i < |q| && q[i] < |s.visitor| && q[i] < |fin|
  {
    AtClaim(fin, s, t, q, i).(
      stacks := PushFrame(s, t, Init(q, i, Running)).stacks, log := s.log + [Claim(q[i])] + [Start(q[i])])
  }

  ghost predicate Unclaimed(fin: seq<bool>, s: State, t: nat, q: seq<nat>, i: nat) {
    && Thread(s, t) && |s.visitor| == |s.constructed| == |fin| && i < |q| && Nodes(s, q) && !s.down
    && s.visitor[q[i]] == NOBODY && !s.constructed[q[i]]
  }

  lemma Taken(fin: seq<bool>, s: State, t: nat, q: seq<nat>, i: nat)
    requires Unclaimed(fin, s, t, q, i)
    ensures Step(fin, Inside(s, t, q, i), t, TakeObject, AtClaim(fin, s, t, q, i))
  {
    PushedTop(s, t, Init(q, i, Locked), Init(q, i, Claimed), Inside(s, t, q, i));
  }

  lemma Begun(fin: seq<bool>, s: State, t: nat, q: seq<nat>, i: nat)
    requires Unclaimed(fin, s, t, q, i)
    ensures Step(fin, AtClaim(fin, s, t, q, i), t, Begin, AtStart(fin, s, t, q, i))
  {
    PushedTop(s, t, Init(q, i, Claimed), Init(q, i, Running), AtClaim(fin, s, t, q, i));
  }

  lemma Completed(fin: seq<bool>, s: State, t: nat, q: seq<nat>, i: nat)
    requires Unclaimed(fin, s, t, q, i)
    ensures Step(fin, AtStart(fin, s, t, q, i), t, Complete, Inside(Built(fin, s, t, q[i]), t, q, i + 1))
  {
    var w, x := AtStart(fin, s, t, q, i), q[i];
    PushedTop(s, t, Init(q, i, Running), Init(q, i + 1, Locked), w);
    assert w.visitor[x := NOBODY] == s.visitor;
    assert w.log + [Done(x)] == s.log + [Claim(x), Start(x), Done(x)];
  }

  lemma ThreeSteps(fin: seq<bool>, s: State, t: nat, a: Action, u: State, b: Action, v: State, c: Action, s': State)
    requires Step(fin, s, t, a, u) && Step(fin, u, t, b, v) && Step(fin, v, t, c, s')
    ensures Leads(fin, s, t, [a, b, c], s')
  {
    OneStep(fin, s, t, a, u);
    OneStep(fin, u, t, b, v);
    OneStep(fin, v, t, c, s');
    LeadsOn(fin, s, t, [a], u, [b], v);
    LeadsOn(fin, s, t, [a] + [b], v, [c], s');
    assert [a] + [b] + [c] == [a, b, c];
  }

  lemma PassEntry(fin: seq<bool>, s: State, t: nat, q: seq<nat>, i: nat)
    requires Undisturbed(fin, s, t, q) && i < |q|
    ensures Leads(fin, Inside(s, t, q, i), t, EntryActs(s, t, q[i]), Inside(Built(fin, s, t, q[i]), t, q, i + 1))
  {
    if Settled(s, t, q[i]) {
      PassSettled(fin, s, t, q, i);
      OneStep(fin, Inside(s, t, q, i), t, Skip, Inside(s, t, q, i + 1));
    } else {
      Taken(fin, s, t, q, i);
      Begun(fin, s, t, q, i);
      Completed(fin, s, t, q, i);
      ThreeSteps(fin, Inside(s, t, q, i), t, TakeObject, AtClaim(fin, s, t, q, i), Begin, AtStart(fin, s, t, q, i),
                 Complete, Inside(Built(fin, s, t, q[i]), t, q, i + 1));
    }
  }

  /** Building keeps the thread undisturbed. */
  lemma {:induction false} StaysUndisturbed(fin: seq<bool>, s: State, t: nat, q: seq<nat>, j: nat)
    requires Undisturbed(fin, s, t, q) && j <= |q|
    ensures Nodes(s, q[..j]) && Undisturbed(fin, BuiltAll(fin, s, t, q[..j]), t, q)
  {
    if j > 0 {
      StaysUndisturbed(fin, s, t, q, j - 1);
      assert q[..j][..j - 1] == q[..j - 1];
    }
  }

  lemma {:induction false} PassEntries(fin: seq<bool>, s: State, t: nat, q: seq<nat>, j: nat)
    requires Undisturbed(fin, s, t, q) && j <= |q|
    ensures Nodes(s, q[..j])
    ensures var s' := BuiltAll(fin, s, t, q[..j]);
      Leads(fin, Inside(s, t, q, 0), t, QueueActs(fin, s, t, q[..j]), Inside(s', t, q, j))
  {
    if j > 0 {
      PassEntries(fin, s, t, q, j - 1);
      StaysUndisturbed(fin, s, t, q, j - 1);
      var m := BuiltAll(fin, s, t, q[..j - 1]);
      PassEntry(fin, m, t, q, j - 1);
      assert q[..j][..j - 1] == q[..j - 1];
      LeadsOn(fin, Inside(s, t, q, 0), t, QueueActs(fin, s, t, q[..j - 1]), Inside(m, t, q, j - 1),
              EntryActs(m, t, q[j - 1]), Inside(BuiltAll(fin, s, t, q[..j]), t, q, j));
    }
  }

  ghost function CallActs(fin: seq<bool>, s: State, t: nat, q: seq<nat>): seq<Action>
    requires |s.visitor| == |s.constructed| == |fin| && Nodes(s, q)
  {
    [CallInit(q), Lock] + QueueActs(fin, s, t, q) + [Return]
  }

  lemma Entered(fin: seq<bool>, s: State, t: nat, q: seq<nat>)
    requires MayCall(s, t) && Nodes(s, q) && s.lock == NOBODY
    ensures Leads(fin, s, t, [CallInit(q), Lock], Inside(s, t, q, 0))
  {
    var u := PushFrame(s, t, Init(q, 0, Enter));
    PushedTop(s, t, Init(q, 0, Enter), Init(q, 0, Locked), u);
    OneStep(fin, s, t, CallInit(q), u);
    OneStep(fin, u, t, Lock, Inside(s, t, q, 0));
    LeadsOn(fin, s, t, [CallInit(q)], u, [Lock], Inside(s, t, q, 0));
    assert [CallInit(q)] + [Lock] == [CallInit(q), Lock];
  }

  lemma Returned(fin: seq<bool>, s: State, t: nat, q: seq<nat>)
    requires Thread(s, t) && s.lock == NOBODY
    ensures Leads(fin, Inside(s, t, q, |q|), t, [Return], s)
  {
    var u := Inside(s, t, q, |q|);
    PushedTop(s, t, Init(q, |q|, Locked), Init(q, |q|, Locked), u);
    OneStep(fin, u, t, Return, s);
  }

  lemma CallRuns(fin: seq<bool>, s: State, t: nat, q: seq<nat>)
    requires Undisturbed(fin, s, t, q) && MayCall(s, t)
    ensures Leads(fin, s, t, CallActs(fin, s, t, q), BuiltAll(fin, s, t, q))
  {
    var s' := BuiltAll(fin, s, t, q);
    assert q[..|q|] == q;
    Entered(fin, s, t, q);
    PassEntries(fin, s, t, q, |q|);
    Returned(fin, s', t, q);
    LeadsOn(fin, s, t, [CallInit(q), Lock], Inside(s, t, q, 0), QueueActs(fin, s, t, q), Inside(s', t, q, |q|));
    LeadsOn(fin, s, t, [CallInit(q), Lock] + QueueActs(fin, s, t, q), Inside(s', t, q, |q|), [Return], s');
  }

  /** In the end the objects of the queue are constructed too, but for those the thread itself is constructing. */
  lemma {:induction false} BuiltAre(fin: seq<bool>, s: State, t: nat, q: seq<nat>, x: nat)
    requires |s.visitor| == |s.constructed| == |fin| && Nodes(s, q) && x < |fin|
    ensures BuiltAll(fin, s, t, q).constructed[x] <==> s.constructed[x] || (x in q && s.visitor[x] != t)
    decreases |q|
  {
    if |q| > 0 {
      BuiltAre(fin, s, t, q[..|q| - 1], x);
      assert q == q[..|q| - 1] + [q[|q| - 1]];
    }
  }

  /** Main result: while no other thread constructs an object of the queue, the lock is free and there is no shutdown, a
      call of do_init_fini can run to its end, and then exactly the objects of its queue are constructed in addition,
      but for those the calling thread is constructing; stacks, visitors and lock are as before. */
  lemma CallReturns(fin: seq<bool>, s: State, t: nat, q: seq<nat>)
    requires Reachable(fin, s) && MayCall(s, t) && Nodes(s, q) && s.lock == NOBODY && !s.down
    requires forall k :: 0 <= k < |q| ==> !VisitedByOther(s, t, q[k])
    ensures |s.visitor| == |s.constructed| == |fin|
    ensures exists acts :: Leads(fin, s, t, [CallInit(q)] + acts + [Return], BuiltAll(fin, s, t, q))
    ensures forall x :: 0 <= x < |fin| ==>
      (BuiltAll(fin, s, t, q).constructed[x] <==> s.constructed[x] || (x in q && s.visitor[x] != t))
  {
    ReachableInv(fin, s);
    Quiet(fin, s, t, q);
    CallRuns(fin, s, t, q);
    var acts := [Lock] + QueueActs(fin, s, t, q);
    assert [CallInit(q)] + acts + [Return] == CallActs(fin, s, t, q);
    forall x | 0 <= x < |fin|
      ensures BuiltAll(fin, s, t, q).constructed[x] <==> s.constructed[x] || (x in q && s.visitor[x] != t)
    {
      BuiltAre(fin, s, t, q, x);
    }
  }

  lemma Quiet(fin: seq<bool>, s: State, t: nat, q: seq<nat>)
    requires Inv(fin, s) && Thread(s, t) && Nodes(s, q) && s.lock == NOBODY && !s.down
    requires forall k :: 0 <= k < |q| ==> !VisitedByOther(s, t, q[k])
    ensures Undisturbed(fin, s, t, q)
  {
    assert AllKept(fin, s);
    forall k | 0 <= k < |q| ensures s.constructed[q[k]] ==> s.visitor[q[k]] == NOBODY {
      assert VisitedOk(s, q[k]);
    }
  }

  lemma {:induction false} NothingBuilt(fin: seq<bool>, s: State, t: nat, q: seq<nat>)
    requires |s.visitor| == |s.constructed| == |fin| && Nodes(s, q)
    requires forall k :: 0 <= k < |q| ==> Settled(s, t, q[k])
    ensures BuiltAll(fin, s, t, q) == s
    decreases |q|
  {
    if |q| > 0 { NothingBuilt(fin, s, t, q[..|q| - 1]); }
  }

  /** Main result: a call with a queue of settled objects, from inside a constructor too, can run to its end and leaves
      everything as it was. */
  lemma SettledReturns(fin: seq<bool>, s: State, t: nat, q: seq<nat>)
    requires Reachable(fin, s) && MayCall(s, t) && Nodes(s, q) && s.lock == NOBODY && !s.down
    requires forall k :: 0 <= k < |q| ==> Settled(s, t, q[k])
    ensures exists acts :: Leads(fin, s, t, [CallInit(q)] + acts + [Return], s)
  {
    ReachableInv(fin, s);
    assert AllKept(fin, s);
    forall k | 0 <= k < |q| ensures !VisitedByOther(s, t, q[k]) { SettledFree(fin, s, t, q[k]); }
    Quiet(fin, s, t, q);
    CallRuns(fin, s, t, q);
    NothingBuilt(fin, s, t, q);
    var acts := [Lock] + QueueActs(fin, s, t, q);
    assert [CallInit(q)] + acts + [Return] == CallActs(fin, s, t, q);
  }

  // ----- a call of __libc_exit_fini from beginning to the end of its list -----

  /** The call at entry i of the list, with the lock. */
  ghost function Exiting(s: State, t: nat, i: nat): State
    requires t < |s.stacks| && i <= |s.fini|
  {
    PushFrame(s, t, Exit(i, Locked)).(
      lock := t, exiter := t, down := true, log := s.log + [Shutdown] + FiniEvents(s.constructed, s.fini[..i]))
  }

  /** The finalizers of the constructed objects of a list, in its order. */
  ghost function FiniEvents(constructed: seq<bool>, list: seq<nat>): seq<Event> {
    if |list| == 0 then []
    else
      var x, rest := list[|list| - 1], FiniEvents(constructed, list[..|list| - 1]);
      if x < |constructed| && constructed[x] then rest + [Fini(x)] else rest
  }

  ghost function ExitActs(constructed: seq<bool>, list: seq<nat>): seq<Action> {
    if |list| == 0 then []
    else
      var x := list[|list| - 1];
      ExitActs(constructed, list[..|list| - 1]) + [if x < |constructed| && constructed[x] then Finalize else Skip]
  }

  ghost predicate MayExit(s: State, t: nat) {
    && MayCall(s, t) && s.lock == NOBODY && s.exiter == NOBODY && |s.visitor| == |s.constructed| && Nodes(s, s.fini)
    && forall k :: 0 <= k < |s.fini| ==> !VisitedByOther(s, t, s.fini[k])
  }

  lemma ExitEntered(fin: seq<bool>, s: State, t: nat)
    requires MayExit(s, t)
    ensures Leads(fin, s, t, [CallExit, Lock], Exiting(s, t, 0))
  {
    var u := PushFrame(s, t, Exit(0, Enter)).(exiter := t);
    PushedTop(s, t, Exit(0, Enter), Exit(0, Locked), u);
    OneStep(fin, s, t, CallExit, u);
    assert Step(fin, u, t, Lock, Exiting(s, t, 0));
    OneStep(fin, u, t, Lock, Exiting(s, t, 0));
    LeadsOn(fin, s, t, [CallExit], u, [Lock], Exiting(s, t, 0));
    assert [CallExit] + [Lock] == [CallExit, Lock];
  }

  lemma ExitPasses(fin: seq<bool>, s: State, t: nat, i: nat)
    requires MayExit(s, t) && i < |s.fini|
    ensures Takes(fin, Exiting(s, t, i), t, if s.constructed[s.fini[i]] then Finalize else Skip, Exiting(s, t, i + 1))
  {
    var u := Exiting(s, t, i);
    PushedTop(s, t, Exit(i, Locked), Exit(i + 1, Locked), u);
    assert s.fini[..i + 1][..i] == s.fini[..i];
    assert !VisitedByOther(u, t, s.fini[i]);
  }

  lemma {:induction false} ExitTo(fin: seq<bool>, s: State, t: nat, i: nat)
    requires MayExit(s, t) && i <= |s.fini|
    ensures Leads(fin, s, t, [CallExit, Lock] + ExitActs(s.constructed, s.fini[..i]), Exiting(s, t, i))
  {
    var acts := ExitActs(s.constructed, s.fini[..i]);
    if i == 0 {
      ExitEntered(fin, s, t);
      assert [CallExit, Lock] + acts == [CallExit, Lock];
    } else {
      ExitTo(fin, s, t, i - 1);
      ExitPasses(fin, s, t, i - 1);
      assert s.fini[..i][..i - 1] == s.fini[..i - 1];
      var before, a := ExitActs(s.constructed, s.fini[..i - 1]), acts[|acts| - 1];
      OneMore(fin, s, t, [CallExit, Lock] + before, Exiting(s, t, i - 1), a, Exiting(s, t, i));
      assert [CallExit, Lock] + before + [a] == [CallExit, Lock] + acts;
    }
  }

  /** Main result: while no other thread constructs an object of the fini list, nobody exits and the lock is free, a
      call of __libc_exit_fini can run to the end of its list; it sets the shutdown, runs the finalizers of exactly the
      constructed objects in list order, and keeps the lock. */
  lemma ExitRuns(fin: seq<bool>, s: State, t: nat)
    requires Reachable(fin, s) && MayCall(s, t) && s.lock == NOBODY && s.exiter == NOBODY
    requires forall k :: 0 <= k < |s.fini| ==> !VisitedByOther(s, t, s.fini[k])
    ensures exists acts :: Leads(fin, s, t, [CallExit] + acts, Exiting(s, t, |s.fini|))
  {
    ReachableInv(fin, s);
    assert AllKept(fin, s);
    ExitTo(fin, s, t, |s.fini|);
    var acts := [Lock] + ExitActs(s.constructed, s.fini[..|s.fini|]);
    assert [CallExit] + acts == [CallExit, Lock] + ExitActs(s.constructed, s.fini[..|s.fini|]);
  }

  // ----- calls that wait for each other -----

  /** The call of thread t is at an object that another thread of the set is constructing. */
  ghost predicate WaitsIn(s: State, group: set<nat>, t: nat) {
    && HasTop(s, t) && TopFrame(s, t).Init? && !TopFrame(s, t).pc.Claimed? && !TopFrame(s, t).pc.Running?
    && TopFrame(s, t).i < |TopFrame(s, t).queue| && Entry(s, t) < |s.visitor|
    && s.visitor[Entry(s, t)] in group - {NOBODY, t}
  }

  /** Every thread of the set waits for one of the set. */
  ghost predicate Stuck(s: State, group: set<nat>) {
    forall t :: t in group ==> WaitsIn(s, group, t)
  }

  /** A thread inside another call completes nothing. */
  lemma VisitStays(fin: seq<bool>, s: State, t: nat, a: Action, s': State, x: nat)
    requires Inv(fin, s) && Step(fin, s, t, a, s') && x < |s.visitor| && s.visitor[x] != NOBODY
    requires a == Complete ==> s.visitor[x] != t
    ensures |s'.visitor| == |s.visitor| && s'.visitor[x] == s.visitor[x]
  {
    if a == Complete {
      assert AllKept(fin, s);
      assert InCtor(s, t, |s.stacks[t]| - 1) && VisitOk(s, t, |s.stacks[t]| - 1);
    }
  }

  /** The call of t stands where it stood, at the same entry of the same queue. */
  ghost predicate SamePlace(s: State, s': State, t: nat) {
    && HasTop(s, t) && HasTop(s', t) && |s'.stacks[t]| == |s.stacks[t]|
    && TopFrame(s, t).Init? && TopFrame(s', t).Init?
    && TopFrame(s', t).queue == TopFrame(s, t).queue && TopFrame(s', t).i == TopFrame(s, t).i
  }

  lemma StuckFrame(fin: seq<bool>, s: State, group: set<nat>, t: nat, a: Action, s': State)
    requires Inv(fin, s) && WaitsIn(s, group, t) && Step(fin, s, t, a, s')
    ensures a == Lock || a == Wait
    ensures SamePlace(s, s', t) && !TopFrame(s', t).pc.Claimed? && !TopFrame(s', t).pc.Running?
  {
  }

  /** The thread that steps, */
  lemma StuckMover(fin: seq<bool>, s: State, group: set<nat>, t: nat, a: Action, s': State)
    requires Inv(fin, s) && WaitsIn(s, group, t) && Step(fin, s, t, a, s')
    ensures WaitsIn(s', group, t) && SamePlace(s, s', t)
  {
    StuckFrame(fin, s, group, t, a, s');
    VisitStays(fin, s, t, a, s', Entry(s, t));
  }

  /** and one that does not. */
  lemma StuckOther(s: State, group: set<nat>, t: nat, s': State, u: nat)
    requires WaitsIn(s, group, u) && t != u && |s'.stacks| == |s.stacks| && s'.stacks[u] == s.stacks[u]
    requires |s'.visitor| == |s.visitor| && s'.visitor[Entry(s, u)] == s.visitor[Entry(s, u)]
    ensures WaitsIn(s', group, u) && SamePlace(s, s', u)
  {
  }

  lemma StuckOne(fin: seq<bool>, s: State, group: set<nat>, t: nat, a: Action, s': State, u: nat)
    requires Inv(fin, s) && Stuck(s, group) && Step(fin, s, t, a, s') && u in group
    ensures WaitsIn(s', group, u) && SamePlace(s, s', u)
  {
    assert WaitsIn(s, group, u);
    if u == t {
      StuckMover(fin, s, group, t, a, s');
    } else {
      if t in group { StuckFrame(fin, s, group, t, a, s'); }
      OthersStay(fin, s, t, a, s', u);
      VisitStays(fin, s, t, a, s', Entry(s, u));
      StuckOther(s, group, t, s', u);
    }
  }

  lemma OthersStay(fin: seq<bool>, s: State, t: nat, a: Action, s': State, u: nat)
    requires Inv(fin, s) && Step(fin, s, t, a, s') && u != t && Thread(s, u)
    ensures |s'.stacks| == |s.stacks| && s'.stacks[u] == s.stacks[u]
  {
    assert AllKept(fin, s);
    StepOthers(fin, s, t, a, s');
  }

  lemma StuckStep(fin: seq<bool>, s: State, group: set<nat>, t: nat, a: Action, s': State)
    requires Inv(fin, s) && Stuck(s, group) && Step(fin, s, t, a, s')
    ensures Stuck(s', group) && SamePlaces(s, s', group)
  {
    forall u | u in group ensures WaitsIn(s', group, u) && SamePlace(s, s', u) {
      StuckOne(fin, s, group, t, a, s', u);
    }
  }

  ghost predicate SamePlaces(s: State, s': State, group: set<nat>) {
    forall t :: t in group ==> SamePlace(s, s', t)
  }

  /** Stuck in s' as in s, at the same places; behind a bound variable, so that only proofs that name it see inside. */
  ghost predicate StuckSince(s: State, s': State, group: set<nat>) {
    forall g: set<nat> :: g == group ==> StillStuck(s, s', g)
  }

  ghost predicate StillStuck(s: State, s': State, group: set<nat>) {
    Stuck(s', group) && SamePlaces(s, s', group)
  }

  lemma SinceNow(s: State, group: set<nat>)
    requires Stuck(s, group)
    ensures StuckSince(s, s, group)
  {
    forall t | t in group ensures SamePlace(s, s, t) { assert WaitsIn(s, group, t); }
  }

  lemma StillThere(s: State, m: State, s': State, group: set<nat>)
    requires SamePlaces(s, m, group) && SamePlaces(m, s', group)
    ensures SamePlaces(s, s', group)
  {
    forall t | t in group ensures SamePlace(s, s', t) { assert SamePlace(s, m, t) && SamePlace(m, s', t); }
  }

  lemma SinceNext(fin: seq<bool>, s: State, m: State, group: set<nat>, t: nat, a: Action, s': State)
    requires Inv(fin, m) && StuckSince(s, m, group) && Takes(fin, m, t, a, s')
    ensures StuckSince(s, s', group)
  {
    assert StillStuck(s, m, group) && Step(fin, m, t, a, s');
    StuckStep(fin, m, group, t, a, s');
    StillThere(s, m, s', group);
  }

  lemma RunTakes(fin: seq<bool>, run: seq<State>, moves: seq<Move>, m: nat)
    requires IsRun(fin, run, moves) && m + 1 < |run|
    ensures Takes(fin, run[m], moves[m].t, moves[m].a, run[m + 1])
  {
    assert MoveOk(fin, run, moves, m);
  }

  /** Main result: threads that wait for each other's constructors do so for ever: from such a state on their calls are
      at the same objects in every run. */
  lemma {:induction false} StuckForever(fin: seq<bool>, run: seq<State>, moves: seq<Move>, group: set<nat>, k: nat,
                                        m: nat)
    requires IsRun(fin, run, moves) && k <= m < |run| && Stuck(run[k], group)
    ensures StuckSince(run[k], run[m], group)
    decreases m
  {
    if k == m {
      SinceNow(run[k], group);
    } else {
      StuckForever(fin, run, moves, group, k, m - 1);
      RunInv(fin, run, moves, m - 1);
      RunTakes(fin, run, moves, m - 1);
      SinceNext(fin, run[k], run[m - 1], group, moves[m - 1].t, moves[m - 1].a, run[m]);
    }
  }

  lemma {:induction false} LeadsReachable(fin: seq<bool>, s: State, t: nat, acts: seq<Action>, s': State)
    requires Reachable(fin, s) && Leads(fin, s, t, acts, s')
    ensures Reachable(fin, s')
    decreases |acts|
  {
    if |acts| > 0 {
      var m :| Takes(fin, s, t, acts[0], m) && Leads(fin, m, t, acts[1..], s');
      assert Step(fin, s, t, acts[0], m);
      ReachableStep(fin, s, t, acts[0], m);
      LeadsReachable(fin, m, t, acts[1..], s');
    }
  }

  /** A thread calls with the queue [x] and enters the constructor of x. */
  lemma IntoCtor(fin: seq<bool>, s: State, t: nat, x: nat)
    requires Reachable(fin, s) && MayCall(s, t) && s.lock == NOBODY && Unclaimed(fin, s, t, [x], 0)
    ensures Reachable(fin, AtStart(fin, s, t, [x], 0))
  {
    Entered(fin, s, t, [x]);
    LeadsReachable(fin, s, t, [CallInit([x]), Lock], Inside(s, t, [x], 0));
    Taken(fin, s, t, [x], 0);
    ReachableStep(fin, Inside(s, t, [x], 0), t, TakeObject, AtClaim(fin, s, t, [x], 0));
    Begun(fin, s, t, [x], 0);
    ReachableStep(fin, AtClaim(fin, s, t, [x], 0), t, Begin, AtStart(fin, s, t, [x], 0));
  }

  /** A thread calls with the queue [x] and waits. */
  lemma IntoWait(fin: seq<bool>, s: State, t: nat, x: nat)
    requires Reachable(fin, s) && MayCall(s, t) && s.lock == NOBODY && VisitedByOther(s, t, x)
    ensures Reachable(fin, PushFrame(s, t, Init([x], 0, Waiting)))
  {
    var u := Inside(s, t, [x], 0);
    Entered(fin, s, t, [x]);
    LeadsReachable(fin, s, t, [CallInit([x]), Lock], u);
    ReachableInv(fin, s);
    Waited(fin, s, t, x);
    ReachableStep(fin, u, t, Wait, PushFrame(s, t, Init([x], 0, Waiting)));
  }

  lemma Waited(fin: seq<bool>, s: State, t: nat, x: nat)
    requires Inv(fin, s) && Thread(s, t) && s.lock == NOBODY && VisitedByOther(s, t, x)
    ensures Step(fin, Inside(s, t, [x], 0), t, Wait, PushFrame(s, t, Init([x], 0, Waiting)))
  {
    assert AllKept(fin, s);
    PushedTop(s, t, Init([x], 0, Locked), Init([x], 0, Waiting), Inside(s, t, [x], 0));
  }

  /** Main result: such states are reached, by two threads whose constructors each call for the object of the other. */
  lemma CanBeStuck(fin: seq<bool>, s: State)
    requires Initial(fin, s) && |fin| >= 2 && |s.stacks| >= 3
    ensures exists s' :: Reachable(fin, s') && Stuck(s', {1, 2})
  {
    InitialReachable(fin, s);
    var a := AtStart(fin, s, 1, [0], 0);
    IntoCtor(fin, s, 1, 0);
    var b := AtStart(fin, a, 2, [1], 0);
    IntoCtor(fin, a, 2, 1);
    var c := PushFrame(b, 1, Init([1], 0, Waiting));
    IntoWait(fin, b, 1, 1);
    var d := PushFrame(c, 2, Init([0], 0, Waiting));
    IntoWait(fin, c, 2, 0);
    assert Stuck(d, {1, 2});
  }
}
