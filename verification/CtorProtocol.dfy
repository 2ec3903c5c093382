/** Threads running constructors and finalizers: do_init_fini and __libc_exit_fini of musl/ldso/dynlink.c,
    as a state machine whose steps are the stretches of code between two points where other threads may run. */
module CtorProtocol {
  import opened CtorQueue
  import opened Collections
  import opened DsoGraph

  /** Where a call stands: waiting to enter, holding init_fini_lock, in pthread_cond_wait, past the unlock
      that follows a claim, or inside the claimed object's constructors. */
  datatype Pc = Enter | Locked | Waiting | Claimed | Running

  /** A call of do_init_fini at entry i of its queue, or of __libc_exit_fini at entry i of the fini list. */
  datatype Frame = Init(queue: seq<nat>, i: nat, pc: Pc) | Exit(i: nat, pc: Pc)

  datatype Event =
    | Claim(x: nat)     // ctor_visitor set to a thread
    | Start(x: nat)     // first constructor function entered
    | Done(x: nat)      // ctor_visitor cleared, constructed set
    | Shutdown          // shutting_down set
    | Fini(x: nat)      // finalizers run

  /** Thread 0 is no thread: it stands for a free lock and an object nobody visits. */
  const NOBODY: nat := 0

  datatype State = State(
    visitor: seq<nat>, constructed: seq<bool>, fini: seq<nat>, down: bool,
    lock: nat, exiter: nat, stacks: seq<seq<Frame>>, log: seq<Event>)

  datatype Action =
    | CallInit(q: seq<nat>) | CallExit
    | Lock | Wait | Skip | TakeObject | Begin | Complete | Return | Finalize

  ghost predicate Thread(s: State, t: nat) {
    NOBODY < t < |s.stacks|
  }

  ghost predicate HasTop(s: State, t: nat) {
    Thread(s, t) && |s.stacks[t]| > 0
  }

  function TopFrame(s: State, t: nat): Frame
    requires t < |s.stacks| && |s.stacks[t]| > 0
  {
    s.stacks[t][|s.stacks[t]| - 1]
  }

  function SetTop(s: State, t: nat, f: Frame): State
    requires t < |s.stacks| && |s.stacks[t]| > 0
  {
    s.(stacks := s.stacks[t := s.stacks[t][|s.stacks[t]| - 1 := f]])
  }

  function PushFrame(s: State, t: nat, f: Frame): State
    requires t < |s.stacks|
  {
    s.(stacks := s.stacks[t := s.stacks[t] + [f]])
  }

  function PopFrame(s: State, t: nat): State
    requires t < |s.stacks| && |s.stacks[t]| > 0
  {
    s.(stacks := s.stacks[t := s.stacks[t][..|s.stacks[t]| - 1]])
  }

  function Logged(s: State, e: Event): State {
    s.(log := s.log + [e])
  }

  /** A thread may call from outside or from inside a constructor. */
  ghost predicate MayCall(s: State, t: nat) {
    Thread(s, t) && (|s.stacks[t]| == 0 || (TopFrame(s, t).Init? && TopFrame(s, t).pc.Running?))
  }

  ghost predicate Nodes(s: State, q: seq<nat>) {
    forall k :: 0 <= k < |q| ==> q[k] < |s.visitor|
  }

  /** The thread holds the lock at an entry of its queue. */
  ghost predicate AtEntry(s: State, t: nat) {
    && HasTop(s, t) && TopFrame(s, t).Init? && TopFrame(s, t).pc.Locked?
    && TopFrame(s, t).i < |TopFrame(s, t).queue|
    && TopFrame(s, t).queue[TopFrame(s, t).i] < |s.visitor| == |s.constructed|
  }

  function Entry(s: State, t: nat): nat
    requires t < |s.stacks| && |s.stacks[t]| > 0 && TopFrame(s, t).Init? && TopFrame(s, t).i < |TopFrame(s, t).queue|
  {
    TopFrame(s, t).queue[TopFrame(s, t).i]
  }

  /** The thread holds the lock at an entry of the fini list. */
  ghost predicate AtFini(s: State, t: nat) {
    && HasTop(s, t) && TopFrame(s, t).Exit? && TopFrame(s, t).pc.Locked?
    && TopFrame(s, t).i < |s.fini| && s.fini[TopFrame(s, t).i] < |s.visitor| == |s.constructed|
  }

  ghost predicate VisitedByOther(s: State, t: nat, x: nat) {
    x < |s.visitor| && s.visitor[x] != NOBODY && s.visitor[x] != t
  }

  /** One step of thread t. fin says which objects have finalizers. */
  ghost predicate Step(fin: seq<bool>, s: State, t: nat, a: Action, s': State) {
    match a
    case CallInit(q) => MayCall(s, t) && Nodes(s, q) && s' == PushFrame(s, t, Init(q, 0, Enter))
    case CallExit => MayCall(s, t) && s.exiter == NOBODY && s' == PushFrame(s, t, Exit(0, Enter)).(exiter := t)
    case Lock =>
      && HasTop(s, t) && s.lock == NOBODY && (TopFrame(s, t).pc.Enter? || TopFrame(s, t).pc.Waiting?)
      && var s1 := SetTop(s, t, TopFrame(s, t).(pc := Locked)).(lock := t);
         s' == if TopFrame(s, t).Exit? && TopFrame(s, t).pc.Enter? then Logged(s1, Shutdown).(down := true) else s1
    case Wait =>
      && (|| (AtEntry(s, t) && (VisitedByOther(s, t, Entry(s, t)) || s.down))
          || (AtFini(s, t) && VisitedByOther(s, t, s.fini[TopFrame(s, t).i])))
      && s' == SetTop(s, t, TopFrame(s, t).(pc := Waiting)).(lock := NOBODY)
    case Skip =>
      && (|| (AtEntry(s, t) && !VisitedByOther(s, t, Entry(s, t)) && !s.down
              && (s.visitor[Entry(s, t)] != NOBODY || s.constructed[Entry(s, t)]))
          || (AtFini(s, t) && !VisitedByOther(s, t, s.fini[TopFrame(s, t).i])
            && !s.constructed[s.fini[TopFrame(s, t).i]]))
      && s' == SetTop(s, t, TopFrame(s, t).(i := TopFrame(s, t).i + 1))
    case TakeObject =>
      && AtEntry(s, t) && !s.down && s.visitor[Entry(s, t)] == NOBODY && !s.constructed[Entry(s, t)]
      && Entry(s, t) < |fin|
      && var x := Entry(s, t);
         s' == Logged(SetTop(s, t, TopFrame(s, t).(pc := Claimed)), Claim(x)).(
           visitor := s.visitor[x := t], fini := if fin[x] then [x] + s.fini else s.fini, lock := NOBODY)
    case Begin =>
      && HasTop(s, t) && TopFrame(s, t).Init? && TopFrame(s, t).pc.Claimed? && TopFrame(s, t).i < |TopFrame(s, t).queue|
      && s' == Logged(SetTop(s, t, TopFrame(s, t).(pc := Running)), Start(Entry(s, t)))
    case Complete =>
      && HasTop(s, t) && TopFrame(s, t).Init? && TopFrame(s, t).pc.Running? && TopFrame(s, t).i < |TopFrame(s, t).queue|
      && s.lock == NOBODY && Entry(s, t) < |s.visitor| == |s.constructed|
      && var x, f := Entry(s, t), TopFrame(s, t);
         s' == Logged(SetTop(s, t, f.(pc := Locked, i := f.i + 1)), Done(x)).(
           visitor := s.visitor[x := NOBODY], constructed := s.constructed[x := true], lock := t)
    case Return =>
      && HasTop(s, t) && TopFrame(s, t).Init? && TopFrame(s, t).pc.Locked? && TopFrame(s, t).i >= |TopFrame(s, t).queue|
      && s' == PopFrame(s, t).(lock := NOBODY)
    case Finalize =>
      && AtFini(s, t) && !VisitedByOther(s, t, s.fini[TopFrame(s, t).i]) && s.constructed[s.fini[TopFrame(s, t).i]]
      && s' == Logged(SetTop(s, t, TopFrame(s, t).(i := TopFrame(s, t).i + 1)), Fini(s.fini[TopFrame(s, t).i]))
  }

  // ----- what every step keeps -----

  ghost predicate HasFrame(s: State, t: nat, k: nat) {
    Thread(s, t) && k < |s.stacks[t]|
  }

  /** The frame is between the claim and the completion of its entry. */
  ghost predicate Constructing(f: Frame) {
    f.Init? && f.i < |f.queue| && (f.pc.Claimed? || f.pc.Running?)
  }

  /** Frame k of thread t is between the claim and the completion of its entry. */
  ghost predicate InCtor(s: State, t: nat, k: nat) {
    HasFrame(s, t, k) && Constructing(s.stacks[t][k])
  }

  /** Frames name objects; a frame below another is inside a constructor; only one thread exits. */
  ghost predicate FrameOk(s: State, t: nat, k: nat) {
    HasFrame(s, t, k) ==>
      var f := s.stacks[t][k];
      && (f.Init? ==> Nodes(s, f.queue) && (f.pc.Claimed? || f.pc.Running? ==> f.i < |f.queue|))
      && (k + 1 < |s.stacks[t]| ==> f.Init? && f.pc.Running?)
      && (f.Exit? ==> s.exiter == t && !f.pc.Claimed? && !f.pc.Running?)
      && (f.pc.Locked? ==> s.lock == t)
  }

  ghost predicate Shape(fin: seq<bool>, s: State) {
    && |s.visitor| == |s.constructed| == |fin| && Nodes(s, s.fini)
    && (forall t, k :: FrameOk(s, t, k))
  }

  /** A step of t leaves the stacks of other threads alone, and the lock and the exit to whoever has them. */
  lemma StepOthers(fin: seq<bool>, s: State, t: nat, a: Action, s': State)
    requires Step(fin, s, t, a, s') && Shape(fin, s)
    ensures |s'.stacks| == |s.stacks| && |s'.visitor| == |s.visitor| && |s'.constructed| == |s.constructed|
    ensures Thread(s, t)
    ensures forall t' :: 0 <= t' < |s.stacks| && t' != t ==> s'.stacks[t'] == s.stacks[t']
    ensures s'.lock == s.lock || s.lock == NOBODY || s.lock == t
    ensures s'.exiter == s.exiter || s.exiter == NOBODY
  {
    if HasTop(s, t) { assert FrameOk(s, t, |s.stacks[t]| - 1); }
  }

  lemma StepFrame(fin: seq<bool>, s: State, t: nat, a: Action, s': State, t': nat, k: nat)
    requires Shape(fin, s) && Step(fin, s, t, a, s')
    ensures FrameOk(s', t', k)
  {
    StepOthers(fin, s, t, a, s');
    if t' != t {
      OtherFrame(s, t, s', t', k);
    } else {
      OwnFrame(fin, s, t, a, s', k);
    }
  }

  lemma OtherFrame(s: State, t: nat, s': State, t': nat, k: nat)
    requires FrameOk(s, t', k) && t' != t && |s'.stacks| == |s.stacks| && |s'.visitor| == |s.visitor|
    requires t' < |s.stacks| ==> s'.stacks[t'] == s.stacks[t']
    requires (s'.lock == s.lock || s.lock == NOBODY || s.lock == t) && (s'.exiter == s.exiter || s.exiter == NOBODY)
    ensures FrameOk(s', t', k)
  {
  }

  lemma OwnFrame(fin: seq<bool>, s: State, t: nat, a: Action, s': State, k: nat)
    requires Shape(fin, s) && Step(fin, s, t, a, s')
    ensures FrameOk(s', t, k)
  {
    assert FrameOk(s, t, k);
    if HasTop(s, t) { assert FrameOk(s, t, |s.stacks[t]| - 1); }
  }

  lemma StepShape(fin: seq<bool>, s: State, t: nat, a: Action, s': State)
    requires Shape(fin, s) && Step(fin, s, t, a, s')
    ensures Shape(fin, s')
  {
    forall t': nat, k: nat ensures FrameOk(s', t', k) {
      StepFrame(fin, s, t, a, s', t', k);
    }
  }

  ghost function Obj(s: State, t: nat, k: nat): nat
    requires InCtor(s, t, k)
  {
    s.stacks[t][k].queue[s.stacks[t][k].i]
  }

  ghost predicate Owns(s: State, t: nat, k: nat, x: nat) {
    InCtor(s, t, k) && Obj(s, t, k) == x
  }

  /** The object a frame constructs is visited by its thread, */
  ghost predicate VisitOk(s: State, t: nat, k: nat) {
    InCtor(s, t, k) ==> Obj(s, t, k) < |s.visitor| && s.visitor[Obj(s, t, k)] == t
  }

  /** no two frames of a thread construct the same object, */
  ghost predicate OnceOk(s: State, t: nat, k: nat, l: nat) {
    k < l && InCtor(s, t, k) && InCtor(s, t, l) ==> Obj(s, t, k) != Obj(s, t, l)
  }

  /** and a visited object is being constructed by its visitor and not constructed yet. */
  ghost predicate VisitedOk(s: State, x: nat) {
    x < |s.visitor| && s.visitor[x] != NOBODY ==>
      (exists k: nat :: Owns(s, s.visitor[x], k, x)) && x < |s.constructed| && !s.constructed[x]
  }

  ghost predicate Visits(s: State) {
    && (forall t: nat, k: nat :: VisitOk(s, t, k))
    && (forall t: nat, k: nat, l: nat :: OnceOk(s, t, k, l))
    && (forall x: nat :: VisitedOk(s, x))
  }

  /** A step that claims nothing and completes nothing leaves the constructing frames alone. */
  ghost predicate SameCtors(s: State, s': State) {
    && s'.visitor == s.visitor && s'.constructed == s.constructed
    && (forall t: nat, k: nat :: InCtor(s', t, k) <==> InCtor(s, t, k))
    && (forall t: nat, k: nat :: InCtor(s', t, k) && InCtor(s, t, k) ==> Obj(s', t, k) == Obj(s, t, k))
  }

  lemma SetTopCtor(s: State, t: nat, f: Frame, s': State, t': nat, k: nat)
    requires HasTop(s, t) && s'.stacks == SetTop(s, t, f).stacks
    requires Constructing(f) <==> Constructing(TopFrame(s, t))
    requires Constructing(f) ==> f.queue[f.i] == TopFrame(s, t).queue[TopFrame(s, t).i]
    ensures InCtor(s', t', k) <==> InCtor(s, t', k)
    ensures InCtor(s', t', k) ==> Obj(s', t', k) == Obj(s, t', k)
  {
  }

  lemma PushCtor(s: State, t: nat, f: Frame, s': State, t': nat, k: nat)
    requires Thread(s, t) && s'.stacks == PushFrame(s, t, f).stacks && !Constructing(f)
    ensures InCtor(s', t', k) <==> InCtor(s, t', k)
    ensures InCtor(s', t', k) ==> Obj(s', t', k) == Obj(s, t', k)
  {
  }

  lemma PopCtor(s: State, t: nat, s': State, t': nat, k: nat)
    requires HasTop(s, t) && s'.stacks == PopFrame(s, t).stacks && !Constructing(TopFrame(s, t))
    ensures InCtor(s', t', k) <==> InCtor(s, t', k)
    ensures InCtor(s', t', k) ==> Obj(s', t', k) == Obj(s, t', k)
  {
  }

  lemma StepSameCtor(fin: seq<bool>, s: State, t: nat, a: Action, s': State, t': nat, k: nat)
    requires Shape(fin, s) && Step(fin, s, t, a, s') && !a.TakeObject? && !a.Complete?
    ensures InCtor(s', t', k) <==> InCtor(s, t', k)
    ensures InCtor(s', t', k) ==> Obj(s', t', k) == Obj(s, t', k)
  {
    match a
    case CallInit(q) => PushCtor(s, t, Init(q, 0, Enter), s', t', k);
    case CallExit => PushCtor(s, t, Exit(0, Enter), s', t', k);
    case Return => PopCtor(s, t, s', t', k);
    case Lock => SetTopCtor(s, t, TopFrame(s, t).(pc := Locked), s', t', k);
    case Wait => SetTopCtor(s, t, TopFrame(s, t).(pc := Waiting), s', t', k);
    case Begin => SetTopCtor(s, t, TopFrame(s, t).(pc := Running), s', t', k);
    case Skip => SetTopCtor(s, t, TopFrame(s, t).(i := TopFrame(s, t).i + 1), s', t', k);
    case Finalize => SetTopCtor(s, t, Exit(TopFrame(s, t).i + 1, Locked), s', t', k);
  }

  lemma StepSameCtors(fin: seq<bool>, s: State, t: nat, a: Action, s': State)
    requires Shape(fin, s) && Step(fin, s, t, a, s') && !a.TakeObject? && !a.Complete?
    ensures SameCtors(s, s')
  {
    forall t': nat, k: nat
      ensures (InCtor(s', t', k) <==> InCtor(s, t', k)) && (InCtor(s', t', k) ==> Obj(s', t', k) == Obj(s, t', k))
    {
      StepSameCtor(fin, s, t, a, s', t', k);
    }
  }

  lemma SameVisits(s: State, s': State)
    requires SameCtors(s, s') && Visits(s)
    ensures Visits(s')
  {
    forall t: nat, k: nat ensures VisitOk(s', t, k) { assert VisitOk(s, t, k); }
    forall t: nat, k: nat, l: nat ensures OnceOk(s', t, k, l) { assert OnceOk(s, t, k, l); }
    forall x: nat ensures VisitedOk(s', x) {
      assert VisitedOk(s, x);
      if x < |s.visitor| && s.visitor[x] != NOBODY {
        var k: nat :| Owns(s, s.visitor[x], k, x);
        assert Owns(s', s'.visitor[x], k, x);
      }
    }
  }

  /** A claim adds its own frame to the constructing ones and changes no other. */
  lemma ClaimCtors(fin: seq<bool>, s: State, t: nat, s': State)
    requires Shape(fin, s) && Step(fin, s, t, TakeObject, s')
    ensures forall t': nat, k: nat :: InCtor(s', t', k) <==> InCtor(s, t', k) || (t' == t && k == |s.stacks[t]| - 1)
    ensures forall t': nat, k: nat :: InCtor(s', t', k) && InCtor(s, t', k) ==> Obj(s', t', k) == Obj(s, t', k)
    ensures InCtor(s', t, |s.stacks[t]| - 1) && Obj(s', t, |s.stacks[t]| - 1) == Entry(s, t)
  {
  }

  lemma ClaimVisits(fin: seq<bool>, s: State, t: nat, s': State)
    requires Shape(fin, s) && Visits(s) && Step(fin, s, t, TakeObject, s')
    ensures Visits(s')
  {
    ClaimCtors(fin, s, t, s');
    var top, x := |s.stacks[t]| - 1, Entry(s, t);
    forall t': nat, k: nat ensures VisitOk(s', t', k) { assert VisitOk(s, t', k); }
    forall t': nat, k: nat, l: nat ensures OnceOk(s', t', k, l) {
      assert OnceOk(s, t', k, l) && VisitOk(s, t', k) && VisitOk(s, t', l);
    }
    forall y: nat ensures VisitedOk(s', y) {
      assert VisitedOk(s, y);
      if y == x {
        assert Owns(s', t, top, x);
      } else if y < |s.visitor| && s.visitor[y] != NOBODY {
        var k: nat :| Owns(s, s.visitor[y], k, y);
        assert Owns(s', s'.visitor[y], k, y);
      }
    }
  }

  /** A completion takes its frame out of the constructing ones and changes no other. */
  lemma CompleteCtors(fin: seq<bool>, s: State, t: nat, s': State)
    requires Shape(fin, s) && Step(fin, s, t, Complete, s')
    ensures forall t': nat, k: nat :: InCtor(s, t', k) <==> InCtor(s', t', k) || (t' == t && k == |s.stacks[t]| - 1)
    ensures forall t': nat, k: nat :: InCtor(s', t', k) && InCtor(s, t', k) ==> Obj(s', t', k) == Obj(s, t', k)
    ensures Owns(s, t, |s.stacks[t]| - 1, Entry(s, t)) && !InCtor(s', t, |s.stacks[t]| - 1)
  {
  }

  lemma CompleteVisits(fin: seq<bool>, s: State, t: nat, s': State)
    requires Shape(fin, s) && Visits(s) && Step(fin, s, t, Complete, s')
    ensures Visits(s')
  {
    CompleteCtors(fin, s, t, s');
    var top, x := |s.stacks[t]| - 1, Entry(s, t);
    assert VisitOk(s, t, top);
    forall t': nat, k: nat ensures VisitOk(s', t', k) {
      assert VisitOk(s, t', k);
      if k != top { assert OnceOk(s, t', k, top) && OnceOk(s, t', top, k); }
    }
    forall t': nat, k: nat, l: nat ensures OnceOk(s', t', k, l) { assert OnceOk(s, t', k, l); }
    forall y: nat ensures VisitedOk(s', y) {
      assert VisitedOk(s, y);
      if y != x && y < |s.visitor| && s.visitor[y] != NOBODY {
        var k: nat :| Owns(s, s.visitor[y], k, y);
        assert Owns(s', s'.visitor[y], k, y);
      }
    }
  }

  lemma StepVisits(fin: seq<bool>, s: State, t: nat, a: Action, s': State)
    requires Shape(fin, s) && Visits(s) && Step(fin, s, t, a, s')
    ensures Visits(s')
  {
    if a.TakeObject? {
      ClaimVisits(fin, s, t, s');
    } else if a.Complete? {
      CompleteVisits(fin, s, t, s');
    } else {
      StepSameCtors(fin, s, t, a, s');
      SameVisits(s, s');
    }
  }

  /** Thread t need not wait for x: it is constructed, or t itself is constructing it. */
  ghost predicate Settled(s: State, t: nat, x: nat) {
    x < |s.visitor| && x < |s.constructed| && (s.constructed[x] || s.visitor[x] == t)
  }

  /** Everything before entry i of a frame's queue is settled. */
  ghost predicate BehindOk(s: State, t: nat, k: nat) {
    HasFrame(s, t, k) && s.stacks[t][k].Init? ==>
      forall m :: 0 <= m < s.stacks[t][k].i && m < |s.stacks[t][k].queue| ==> Settled(s, t, s.stacks[t][k].queue[m])
  }

  ghost predicate Behind(s: State) {
    forall t: nat, k: nat :: BehindOk(s, t, k)
  }

  /** What is settled stays settled. */
  lemma StepSettled(fin: seq<bool>, s: State, t: nat, a: Action, s': State, t': nat, x: nat)
    requires Shape(fin, s) && Visits(s) && Step(fin, s, t, a, s') && Settled(s, t', x) && Thread(s, t')
    ensures Settled(s', t', x)
  {
    if a.TakeObject? {
      assert VisitedOk(s, x);
    } else if a.Complete? {
      CompleteCtors(fin, s, t, s');
      assert VisitOk(s, t, |s.stacks[t]| - 1);
    } else {
      StepSameCtors(fin, s, t, a, s');
    }
  }

  /** The entry a step moves past is settled. */
  lemma StepPast(fin: seq<bool>, s: State, t: nat, a: Action, s': State)
    requires Shape(fin, s) && Visits(s) && Step(fin, s, t, a, s') && HasTop(s, t) && TopFrame(s, t).Init?
    requires HasTop(s', t) && |s'.stacks[t]| == |s.stacks[t]|
    ensures TopFrame(s', t).Init? && TopFrame(s', t).queue == TopFrame(s, t).queue
    ensures TopFrame(s', t).i == TopFrame(s, t).i
      || (TopFrame(s', t).i == TopFrame(s, t).i + 1 && TopFrame(s, t).i < |TopFrame(s, t).queue|
        && Settled(s', t, Entry(s, t)))
  {
  }

  lemma StepBehindFrame(fin: seq<bool>, s: State, t: nat, a: Action, s': State, t': nat, k: nat)
    requires Shape(fin, s) && Visits(s) && Behind(s) && Step(fin, s, t, a, s')
    ensures BehindOk(s', t', k)
  {
    assert BehindOk(s, t', k);
    if HasFrame(s', t', k) && s'.stacks[t'][k].Init? {
      var f' := s'.stacks[t'][k];
      StepQueue(fin, s, t, a, s', t', k);
      forall m | 0 <= m < f'.i && m < |f'.queue| ensures Settled(s', t', f'.queue[m]) {
        var f := s.stacks[t'][k];
        if m < f.i { StepSettled(fin, s, t, a, s', t', f.queue[m]); }
      }
    }
  }

  /** A call's queue stays, and its index moves past settled entries only. */
  lemma StepQueue(fin: seq<bool>, s: State, t: nat, a: Action, s': State, t': nat, k: nat)
    requires Shape(fin, s) && Visits(s) && Step(fin, s, t, a, s') && HasFrame(s', t', k) && s'.stacks[t'][k].Init?
    ensures s'.stacks[t'][k].i == 0
      || (HasFrame(s, t', k) && s.stacks[t'][k].Init? && s'.stacks[t'][k].queue == s.stacks[t'][k].queue)
    ensures s'.stacks[t'][k].i > 0 ==>
      var f := s.stacks[t'][k];
      s'.stacks[t'][k].i == f.i || (s'.stacks[t'][k].i == f.i + 1 && f.i < |f.queue| && Settled(s', t', f.queue[f.i]))
  {
    StepOthers(fin, s, t, a, s');
    if t' == t && HasTop(s, t) && k == |s.stacks[t]| - 1 == |s'.stacks[t]| - 1 && TopFrame(s, t).Init? {
      StepPast(fin, s, t, a, s');
    }
  }

  lemma StepBehind(fin: seq<bool>, s: State, t: nat, a: Action, s': State)
    requires Shape(fin, s) && Visits(s) && Behind(s) && Step(fin, s, t, a, s')
    ensures Behind(s')
  {
    forall t': nat, k: nat ensures BehindOk(s', t', k) {
      StepBehindFrame(fin, s, t, a, s', t', k);
    }
  }

  // ----- the log -----

  /** x was claimed before y. */
  ghost predicate ClaimedBefore(log: seq<Event>, x: nat, y: nat) {
    exists a, b :: 0 <= a < b < |log| && log[a] == Claim(x) && log[b] == Claim(y)
  }

  /** e may come next: no event comes twice, nothing is claimed after the shutdown, an object is claimed, started,
      completed and finalized in this order, and finalizers run in reverse order of claims. */
  ghost predicate MayFollow(log: seq<Event>, e: Event) {
    e !in log &&
    match e
    case Claim(x) => Shutdown !in log
    case Start(x) => Claim(x) in log
    case Done(x) => Start(x) in log
    case Shutdown => true
    case Fini(x) => Done(x) in log && Shutdown in log && forall y: nat :: Fini(y) in log ==> ClaimedBefore(log, x, y)
  }

  ghost predicate LogAt(log: seq<Event>, b: nat) {
    b < |log| ==> MayFollow(log[..b], log[b])
  }

  ghost predicate LogOk(log: seq<Event>) {
    forall b: nat :: LogAt(log, b)
  }

  lemma LogAppend(log: seq<Event>, e: Event)
    requires LogOk(log) && MayFollow(log, e)
    ensures LogOk(log + [e])
  {
    forall b: nat ensures LogAt(log + [e], b) {
      assert LogAt(log, b);
      if b <= |log| { assert (log + [e])[..b] == log[..b]; }
      if b == |log| { assert log[..b] == log; }
    }
  }

  /** What the log says of object x is what the fields say. */
  ghost predicate ObjectLog(s: State, x: nat) {
    x < |s.visitor| && x < |s.constructed| ==>
      && (Claim(x) in s.log <==> s.visitor[x] != NOBODY || s.constructed[x])
      && (Done(x) in s.log <==> s.constructed[x])
      && (Start(x) in s.log ==> Claim(x) in s.log)
  }

  /** A claimed object has not started, a running one has. */
  ghost predicate FrameLog(s: State, t: nat, k: nat) {
    InCtor(s, t, k) ==> (Start(Obj(s, t, k)) in s.log <==> s.stacks[t][k].pc.Running?)
  }

  /** The exiting thread's frame: none before the shutdown but one waiting to enter. */
  ghost predicate ExitLog(s: State, t: nat, k: nat) {
    HasFrame(s, t, k) && s.stacks[t][k].Exit? ==> (Shutdown in s.log <==> !s.stacks[t][k].pc.Enter?)
  }

  ghost predicate Logs(s: State) {
    && LogOk(s.log) && (s.down <==> Shutdown in s.log)
    && (s.exiter == NOBODY ==> Shutdown !in s.log)
    && (forall x: nat :: ObjectLog(s, x))
    && (forall t: nat, k: nat :: FrameLog(s, t, k))
    && (forall t: nat, k: nat :: ExitLog(s, t, k))
  }

  /** A step that logs nothing. */
  lemma QuietLogs(fin: seq<bool>, s: State, t: nat, a: Action, s': State)
    requires Shape(fin, s) && Visits(s) && Logs(s) && Step(fin, s, t, a, s') && s'.log == s.log
    ensures Logs(s')
  {
    assert !a.TakeObject? && !a.Complete? && !a.Begin?;
    StepSameCtors(fin, s, t, a, s');
    forall x: nat ensures ObjectLog(s', x) { assert ObjectLog(s, x); }
    forall t': nat, k: nat ensures FrameLog(s', t', k) {
      assert FrameLog(s, t', k);
      if InCtor(s', t', k) { assert s'.stacks[t'][k] == s.stacks[t'][k]; }
    }
    forall t': nat, k: nat ensures ExitLog(s', t', k) { assert ExitLog(s, t', k); }
  }

  /** The objects with finalizers claimed in the log, latest first. */
  ghost function FiniOf(fin: seq<bool>, log: seq<Event>): seq<nat> {
    if |log| == 0 then []
    else
      var rest := FiniOf(fin, log[..|log| - 1]);
      match log[|log| - 1]
      case Claim(x) => if x < |fin| && fin[x] then [x] + rest else rest
      case _ => rest
  }

  /** The objects finalized in the log, in order. */
  ghost function Finis(log: seq<Event>): seq<nat> {
    if |log| == 0 then []
    else
      var rest := Finis(log[..|log| - 1]);
      match log[|log| - 1]
      case Fini(x) => rest + [x]
      case _ => rest
  }

  /** The constructed objects of a list, in order. */
  ghost function Kept(constructed: seq<bool>, list: seq<nat>): seq<nat> {
    if |list| == 0 then []
    else
      var rest, x := Kept(constructed, list[..|list| - 1]), list[|list| - 1];
      if x < |constructed| && constructed[x] then rest + [x] else rest
  }

  lemma FiniOfAppend(fin: seq<bool>, log: seq<Event>, e: Event)
    ensures FiniOf(fin, log + [e]) ==
      if e.Claim? && e.x < |fin| && fin[e.x] then [e.x] + FiniOf(fin, log) else FiniOf(fin, log)
    ensures Finis(log + [e]) == if e.Fini? then Finis(log) + [e.x] else Finis(log)
  {
    assert (log + [e])[..|log|] == log;
  }

  lemma {:induction false} FiniOfClaims(fin: seq<bool>, log: seq<Event>, x: nat)
    ensures x in FiniOf(fin, log) <==> Claim(x) in log && x < |fin| && fin[x]
    ensures x in Finis(log) <==> Fini(x) in log
  {
    if |log| > 0 {
      var l, e := log[..|log| - 1], log[|log| - 1];
      assert log == l + [e];
      FiniOfClaims(fin, l, x);
    }
  }

  lemma {:induction false} FiniOfDistinct(fin: seq<bool>, log: seq<Event>)
    requires LogOk(log)
    ensures Distinct(FiniOf(fin, log))
  {
    if |log| > 0 {
      var l, e := log[..|log| - 1], log[|log| - 1];
      LogPrefix(log, |log| - 1);
      FiniOfDistinct(fin, l);
      if e.Claim? {
        assert LogAt(log, |log| - 1);
        FiniOfClaims(fin, l, e.x);
      }
    }
  }

  lemma LogPrefix(log: seq<Event>, n: nat)
    requires LogOk(log) && n <= |log|
    ensures LogOk(log[..n])
  {
    forall b: nat ensures LogAt(log[..n], b) {
      assert LogAt(log, b);
      if b < n { assert log[..n][..b] == log[..b]; }
    }
  }

  lemma {:induction false} KeptSame(c: seq<bool>, c': seq<bool>, list: seq<nat>)
    requires |c| == |c'| && forall m :: 0 <= m < |list| ==> list[m] < |c| && c[list[m]] == c'[list[m]]
    ensures Kept(c, list) == Kept(c', list)
  {
    if |list| > 0 { KeptSame(c, c', list[..|list| - 1]); }
  }

  lemma {:induction false} KeptIn(c: seq<bool>, list: seq<nat>, x: nat)
    ensures x in Kept(c, list) <==> x in list && x < |c| && c[x]
  {
    if |list| > 0 {
      assert list == list[..|list| - 1] + [list[|list| - 1]];
      KeptIn(c, list[..|list| - 1], x);
    }
  }

  lemma KeptNext(c: seq<bool>, list: seq<nat>, i: nat)
    requires i < |list|
    ensures Kept(c, list[..i + 1]) ==
      if list[i] < |c| && c[list[i]] then Kept(c, list[..i]) + [list[i]] else Kept(c, list[..i])
  {
    assert list[..i + 1][..i] == list[..i];
  }

  /** The exiting call at entry i has finalized the constructed objects before i, and the others before i
      are being constructed by its own thread. */
  ghost predicate ExitAt(s: State, t: nat, k: nat) {
    HasFrame(s, t, k) && s.stacks[t][k].Exit? && !s.stacks[t][k].pc.Enter? ==>
      var i := s.stacks[t][k].i;
      && i <= |s.fini| && Finis(s.log) == Kept(s.constructed, s.fini[..i])
      && forall m :: 0 <= m < i ==> Settled(s, t, s.fini[m])
  }

  ghost predicate Enters(s: State, t: nat, k: nat) {
    HasFrame(s, t, k) && s.stacks[t][k].Exit? && s.stacks[t][k].pc.Enter? ==> s.stacks[t][k].i == 0
  }

  ghost predicate Exits(fin: seq<bool>, s: State) {
    && s.fini == FiniOf(fin, s.log) && (Shutdown !in s.log ==> Finis(s.log) == [])
    && (forall t: nat, k: nat :: ExitAt(s, t, k))
    && (forall t: nat, k: nat :: Enters(s, t, k))
  }

  ghost predicate AllKept(fin: seq<bool>, s: State) {
    Shape(fin, s) && Visits(s) && Behind(s) && Logs(s) && Exits(fin, s)
  }

  /** AllKept behind a bound variable, so that only proofs that name it see inside. */
  ghost predicate Inv(fin: seq<bool>, s: State) {
    forall f: seq<bool> :: f == fin ==> AllKept(f, s)
  }

  /** The event a step logs may come next. */
  lemma EventFollows(fin: seq<bool>, s: State, t: nat, a: Action, s': State, e: Event)
    requires Inv(fin, s) && Step(fin, s, t, a, s') && s'.log == s.log + [e]
    ensures MayFollow(s.log, e)
  {
    assert AllKept(fin, s);
    var top := |s.stacks[t]| - 1;
    assert s'.log[|s.log|] == e;
    assert FrameOk(s, t, top) && FrameLog(s, t, top) && ExitLog(s, t, top) && VisitOk(s, t, top);
    match e
    case Claim(x) =>
      assert ObjectLog(s, x);
    case Start(x) =>
      assert Owns(s, t, top, x) && ObjectLog(s, x);
    case Done(x) =>
      assert Owns(s, t, top, x) && ObjectLog(s, x) && VisitedOk(s, x);
    case Shutdown =>
    case Fini(x) =>
      assert ObjectLog(s, x) && ExitAt(s, t, top);
      FiniFollows(fin, s, TopFrame(s, t).i);
  }

  /** Later in the fini list is earlier in the log. */
  lemma {:induction false} FiniOfOrder(fin: seq<bool>, log: seq<Event>, m: nat, i: nat)
    requires m < i < |FiniOf(fin, log)|
    ensures ClaimedBefore(log, FiniOf(fin, log)[i], FiniOf(fin, log)[m])
  {
    var l, e := log[..|log| - 1], log[|log| - 1];
    var x, y := FiniOf(fin, log)[i], FiniOf(fin, log)[m];
    if e.Claim? && e.x < |fin| && fin[e.x] {
      assert FiniOf(fin, log) == [e.x] + FiniOf(fin, l);
      if m == 0 {
        FiniOfClaims(fin, l, x);
        var a :| 0 <= a < |l| && l[a] == Claim(x);
        assert log[a] == Claim(x) && log[|l|] == Claim(y);
      } else {
        FiniOfOrder(fin, l, m - 1, i - 1);
        BeforeLonger(l, e, x, y);
      }
    } else {
      FiniOfOrder(fin, l, m, i);
      BeforeLonger(l, e, x, y);
    }
  }

  lemma BeforeLonger(log: seq<Event>, e: Event, x: nat, y: nat)
    requires ClaimedBefore(log, x, y)
    ensures ClaimedBefore(log + [e], x, y)
  {
    var a, b :| 0 <= a < b < |log| && log[a] == Claim(x) && log[b] == Claim(y);
    assert (log + [e])[a] == Claim(x) && (log + [e])[b] == Claim(y);
  }

  /** The next object to finalize has not been finalized, and was claimed before those that were. */
  lemma FiniFollows(fin: seq<bool>, s: State, i: nat)
    requires LogOk(s.log) && s.fini == FiniOf(fin, s.log) && i < |s.fini|
    requires Finis(s.log) == Kept(s.constructed, s.fini[..i])
    ensures Fini(s.fini[i]) !in s.log
    ensures forall y: nat :: Fini(y) in s.log ==> ClaimedBefore(s.log, s.fini[i], y)
  {
    FiniOfDistinct(fin, s.log);
    FiniOfClaims(fin, s.log, s.fini[i]);
    KeptIn(s.constructed, s.fini[..i], s.fini[i]);
    forall y: nat | Fini(y) in s.log ensures ClaimedBefore(s.log, s.fini[i], y) {
      FiniOfClaims(fin, s.log, y);
      KeptIn(s.constructed, s.fini[..i], y);
      var m :| 0 <= m < i && s.fini[m] == y;
      FiniOfOrder(fin, s.log, m, i);
    }
  }

  /** A logged event says nothing about other objects. */
  lemma ClaimLogs(fin: seq<bool>, s: State, t: nat, s': State)
    requires Inv(fin, s) && Step(fin, s, t, TakeObject, s') && LogOk(s'.log)
    ensures Logs(s')
  {
    assert AllKept(fin, s);
    var x := Entry(s, t);
    ClaimCtors(fin, s, t, s');
    forall y: nat ensures ObjectLog(s', y) { assert ObjectLog(s, y); }
    forall t': nat, k: nat ensures FrameLog(s', t', k) {
      assert FrameLog(s, t', k) && ObjectLog(s, x);
      if InCtor(s, t', k) { assert s'.stacks[t'][k] == s.stacks[t'][k]; }
    }
    forall t': nat, k: nat ensures ExitLog(s', t', k) { assert ExitLog(s, t', k); }
  }

  lemma StartLogs(fin: seq<bool>, s: State, t: nat, s': State)
    requires Inv(fin, s) && Step(fin, s, t, Begin, s') && LogOk(s'.log)
    ensures Logs(s')
  {
    assert AllKept(fin, s);
    var x, top := Entry(s, t), |s.stacks[t]| - 1;
    StepSameCtors(fin, s, t, Begin, s');
    assert Owns(s, t, top, x) && VisitOk(s, t, top);
    forall y: nat ensures ObjectLog(s', y) { assert ObjectLog(s, y); }
    forall t': nat, k: nat ensures FrameLog(s', t', k) {
      assert FrameLog(s, t', k) && VisitOk(s, t', k);
      if k != top { assert OnceOk(s, t', k, top) && OnceOk(s, t', top, k); }
      if InCtor(s, t', k) && !(t' == t && k == top) { assert s'.stacks[t'][k] == s.stacks[t'][k]; }
    }
    forall t': nat, k: nat ensures ExitLog(s', t', k) { assert ExitLog(s, t', k); }
  }

  lemma DoneLogs(fin: seq<bool>, s: State, t: nat, s': State)
    requires Inv(fin, s) && Step(fin, s, t, Complete, s') && LogOk(s'.log)
    ensures Logs(s')
  {
    assert AllKept(fin, s);
    var x, top := Entry(s, t), |s.stacks[t]| - 1;
    CompleteCtors(fin, s, t, s');
    assert VisitOk(s, t, top);
    forall y: nat ensures ObjectLog(s', y) { assert ObjectLog(s, y); }
    forall t': nat, k: nat ensures FrameLog(s', t', k) {
      assert FrameLog(s, t', k);
      if InCtor(s', t', k) { assert s'.stacks[t'][k] == s.stacks[t'][k]; }
    }
    forall t': nat, k: nat ensures ExitLog(s', t', k) { assert ExitLog(s, t', k); }
  }

  /** The shutdown and the finalizers concern no object's constructors. */
  lemma ExitLogs(fin: seq<bool>, s: State, t: nat, a: Action, s': State)
    requires Inv(fin, s) && Step(fin, s, t, a, s') && LogOk(s'.log) && s'.log != s.log && (a.Lock? || a.Finalize?)
    ensures Logs(s')
  {
    assert AllKept(fin, s);
    StepSameCtors(fin, s, t, a, s');
    var top := |s.stacks[t]| - 1;
    assert FrameOk(s, t, top) && ExitLog(s, t, top);
    forall y: nat ensures ObjectLog(s', y) { assert ObjectLog(s, y); }
    forall t': nat, k: nat ensures FrameLog(s', t', k) {
      assert FrameLog(s, t', k);
      if InCtor(s', t', k) { assert s'.stacks[t'][k] == s.stacks[t'][k]; }
    }
    forall t': nat, k: nat ensures ExitLog(s', t', k) { assert ExitLog(s, t', k) && FrameOk(s, t', k); }
  }

  lemma StepLogs(fin: seq<bool>, s: State, t: nat, a: Action, s': State)
    requires Inv(fin, s) && Step(fin, s, t, a, s')
    ensures Logs(s')
  {
    assert AllKept(fin, s);
    if s'.log == s.log {
      QuietLogs(fin, s, t, a, s');
    } else {
      assert s'.log == s.log + [s'.log[|s.log|]];
      EventFollows(fin, s, t, a, s', s'.log[|s.log|]);
      LogAppend(s.log, s'.log[|s.log|]);
      match a
      case TakeObject => ClaimLogs(fin, s, t, s');
      case Begin => StartLogs(fin, s, t, s');
      case Complete => DoneLogs(fin, s, t, s');
      case _ => ExitLogs(fin, s, t, a, s');
    }
  }

  /** The fini list follows the log. */
  lemma StepFiniList(fin: seq<bool>, s: State, t: nat, a: Action, s': State)
    requires Inv(fin, s) && Step(fin, s, t, a, s')
    ensures s'.fini == FiniOf(fin, s'.log)
  {
    assert AllKept(fin, s);
    if s'.log != s.log {
      assert s'.log == s.log + [s'.log[|s.log|]];
      FiniOfAppend(fin, s.log, s'.log[|s.log|]);
    }
  }

  /** Only Finalize finalizes. */
  lemma StepFinis(fin: seq<bool>, s: State, t: nat, a: Action, s': State)
    requires Step(fin, s, t, a, s')
    ensures Finis(s'.log) == if a.Finalize? then Finis(s.log) + [s.fini[TopFrame(s, t).i]] else Finis(s.log)
    ensures !a.TakeObject? ==> s'.fini == s.fini
  {
    if s'.log != s.log {
      assert s'.log == s.log + [s'.log[|s.log|]];
      FiniOfAppend(fin, s.log, s'.log[|s.log|]);
    }
  }

  /** Every object of the fini list has been claimed. */
  lemma FiniClaimed(fin: seq<bool>, s: State, m: nat)
    requires Inv(fin, s) && m < |s.fini|
    ensures s.fini[m] < |s.visitor| && s.fini[m] < |s.constructed|
    ensures s.visitor[s.fini[m]] != NOBODY || s.constructed[s.fini[m]]
  {
    assert AllKept(fin, s);
    FiniOfClaims(fin, s.log, s.fini[m]);
    assert ObjectLog(s, s.fini[m]);
  }

  /** No step completes an object the exiting thread has passed. */
  lemma PassedStays(fin: seq<bool>, s: State, t: nat, a: Action, s': State, t': nat, k: nat)
    requires Inv(fin, s) && Step(fin, s, t, a, s') && !a.TakeObject?
    requires HasFrame(s, t', k) && s.stacks[t'][k].Exit? && !s.stacks[t'][k].pc.Enter?
    ensures var i := s.stacks[t'][k].i;
      i <= |s.fini| && Kept(s'.constructed, s.fini[..i]) == Kept(s.constructed, s.fini[..i])
  {
    assert AllKept(fin, s);
    var i := s.stacks[t'][k].i;
    assert ExitAt(s, t', k) && FrameOk(s, t', k);
    if a.Complete? {
      var top := |s.stacks[t]| - 1;
      CompleteCtors(fin, s, t, s');
      assert VisitOk(s, t, top) && VisitedOk(s, Entry(s, t));
      forall m | 0 <= m < i ensures s.fini[m] != Entry(s, t) {
        assert Settled(s, t', s.fini[m]);
      }
      KeptSame(s.constructed, s'.constructed, s.fini[..i]);
    }
  }

  lemma StepExitAt(fin: seq<bool>, s: State, t: nat, a: Action, s': State, t': nat, k: nat)
    requires Inv(fin, s) && Step(fin, s, t, a, s')
    requires HasFrame(s', t', k) && HasFrame(s, t', k) && s'.stacks[t'][k] == s.stacks[t'][k]
    requires !a.Finalize?
    ensures ExitAt(s', t', k)
  {
    assert AllKept(fin, s);
    assert ExitAt(s, t', k) && ExitLog(s, t', k);
    StepFinis(fin, s, t, a, s');
    var f := s.stacks[t'][k];
    if f.Exit? && !f.pc.Enter? && !a.TakeObject? {
      PassedStays(fin, s, t, a, s', t', k);
      forall m | 0 <= m < f.i ensures Settled(s', t', s'.fini[m]) {
        StepSettled(fin, s, t, a, s', t', s.fini[m]);
      }
    }
  }

  lemma ExitAtOf(fin: seq<bool>, s: State, t: nat, k: nat)
    requires Inv(fin, s)
    ensures ExitAt(s, t, k)
  {
    assert AllKept(fin, s);
  }

  /** What the exiting call moves past is constructed or its own. */
  lemma StepExitSettled(fin: seq<bool>, s: State, t: nat, a: Action, s': State, m: nat)
    requires Inv(fin, s) && Step(fin, s, t, a, s') && HasTop(s, t) && TopFrame(s, t).Exit? && (a.Skip? || a.Finalize?)
    requires m <= TopFrame(s, t).i
    ensures m < |s.fini| && Settled(s', t, s.fini[m])
  {
    ExitAtOf(fin, s, t, |s.stacks[t]| - 1);
    FiniClaimed(fin, s, TopFrame(s, t).i);
    if m < TopFrame(s, t).i { assert Settled(s, t, s.fini[m]); }
  }

  /** Finalizing or skipping entry i keeps the finalized objects those kept up to and with i. */
  lemma StepKept(fin: seq<bool>, s: State, t: nat, a: Action, s': State)
    requires Inv(fin, s) && Step(fin, s, t, a, s') && HasTop(s, t) && TopFrame(s, t).Exit? && (a.Skip? || a.Finalize?)
    ensures s'.fini == s.fini && TopFrame(s, t).i < |s.fini|
    ensures Finis(s'.log) == Kept(s'.constructed, s.fini[..TopFrame(s, t).i + 1])
  {
    ExitAtOf(fin, s, t, |s.stacks[t]| - 1);
    StepFinis(fin, s, t, a, s');
    KeptNext(s.constructed, s.fini, TopFrame(s, t).i);
  }

  /** The exiting call itself moves on. */
  lemma StepExitMoves(fin: seq<bool>, s: State, t: nat, a: Action, s': State)
    requires Inv(fin, s) && Step(fin, s, t, a, s') && HasTop(s, t) && TopFrame(s, t).Exit? && (a.Skip? || a.Finalize?)
    ensures ExitAt(s', t, |s.stacks[t]| - 1)
  {
    StepKept(fin, s, t, a, s');
    forall m: nat | m <= TopFrame(s, t).i ensures m < |s.fini| && Settled(s', t, s.fini[m]) {
      StepExitSettled(fin, s, t, a, s', m);
    }
  }

  /** The exiting call takes the lock, waits for it or waits for a constructor. */
  lemma StepExitLocks(fin: seq<bool>, s: State, t: nat, a: Action, s': State)
    requires Inv(fin, s) && Step(fin, s, t, a, s') && HasTop(s, t) && TopFrame(s, t).Exit? && (a.Lock? || a.Wait?)
    ensures ExitAt(s', t, |s.stacks[t]| - 1)
  {
    assert AllKept(fin, s);
    var top, i := |s.stacks[t]| - 1, TopFrame(s, t).i;
    assert ExitAt(s, t, top) && ExitLog(s, t, top) && Enters(s, t, top);
    StepFinis(fin, s, t, a, s');
    if TopFrame(s, t).pc.Enter? {
      assert s.fini[..0] == [];
    } else {
      forall m | 0 <= m < i ensures Settled(s', t, s'.fini[m]) { assert Settled(s, t, s.fini[m]); }
    }
  }

  lemma StepOwnExit(fin: seq<bool>, s: State, t: nat, a: Action, s': State)
    requires Inv(fin, s) && Step(fin, s, t, a, s') && HasTop(s, t) && HasFrame(s', t, |s.stacks[t]| - 1)
    requires s'.stacks[t][|s.stacks[t]| - 1].Exit?
    ensures ExitAt(s', t, |s.stacks[t]| - 1)
  {
    assert AllKept(fin, s);
    assert FrameOk(s, t, |s.stacks[t]| - 1);
    match a
    case Skip => StepExitMoves(fin, s, t, a, s');
    case Finalize => StepExitMoves(fin, s, t, a, s');
    case Lock => StepExitLocks(fin, s, t, a, s');
    case Wait => StepExitLocks(fin, s, t, a, s');
    case _ =>
  }

  lemma StepAnyExit(fin: seq<bool>, s: State, t: nat, a: Action, s': State, t': nat, k: nat)
    requires Inv(fin, s) && Step(fin, s, t, a, s')
    requires HasFrame(s', t', k) && s'.stacks[t'][k].Exit? && !s'.stacks[t'][k].pc.Enter?
    ensures ExitAt(s', t', k)
  {
    assert AllKept(fin, s);
    if HasTop(s, t) { assert FrameOk(s, t, |s.stacks[t]| - 1); }
    if t' == t && k == |s.stacks[t]| - 1 {
      StepOwnExit(fin, s, t, a, s');
    } else {
      assert FrameOk(s, t', k);
      StepExitAt(fin, s, t, a, s', t', k);
    }
  }

  lemma StepEnters(fin: seq<bool>, s: State, t: nat, a: Action, s': State, t': nat, k: nat)
    requires Inv(fin, s) && Step(fin, s, t, a, s')
    ensures Enters(s', t', k)
  {
    assert AllKept(fin, s);
    assert Enters(s, t', k);
    if HasTop(s, t) { assert FrameOk(s, t, |s.stacks[t]| - 1); }
  }

  lemma StepExits(fin: seq<bool>, s: State, t: nat, a: Action, s': State)
    requires Inv(fin, s) && Step(fin, s, t, a, s')
    ensures Exits(fin, s')
  {
    assert AllKept(fin, s);
    StepFiniList(fin, s, t, a, s');
    StepFinis(fin, s, t, a, s');
    if HasTop(s, t) { assert ExitLog(s, t, |s.stacks[t]| - 1); }
    forall t': nat, k: nat ensures ExitAt(s', t', k) {
      if HasFrame(s', t', k) && s'.stacks[t'][k].Exit? && !s'.stacks[t'][k].pc.Enter? {
        StepAnyExit(fin, s, t, a, s', t', k);
      }
    }
    forall t': nat, k: nat ensures Enters(s', t', k) { StepEnters(fin, s, t, a, s', t', k); }
  }

  lemma StepInv(fin: seq<bool>, s: State, t: nat, a: Action, s': State)
    requires Inv(fin, s) && Step(fin, s, t, a, s')
    ensures Inv(fin, s')
  {
    assert AllKept(fin, s);
    StepShape(fin, s, t, a, s');
    StepVisits(fin, s, t, a, s');
    StepBehind(fin, s, t, a, s');
    StepLogs(fin, s, t, a, s');
    StepExits(fin, s, t, a, s');
  }

  // ----- runs -----

  datatype Move = Move(t: nat, a: Action)

  /** Nothing claimed, nobody calling. */
  ghost predicate Initial(fin: seq<bool>, s: State) {
    && |s.visitor| == |s.constructed| == |fin| && s.fini == [] && s.log == []
    && !s.down && s.lock == NOBODY && s.exiter == NOBODY
    && (forall x :: 0 <= x < |fin| ==> s.visitor[x] == NOBODY && !s.constructed[x])
    && (forall t :: 0 <= t < |s.stacks| ==> s.stacks[t] == [])
  }

  ghost predicate MoveOk(fin: seq<bool>, run: seq<State>, moves: seq<Move>, k: nat) {
    k < |moves| && k + 1 < |run| ==> Step(fin, run[k], moves[k].t, moves[k].a, run[k + 1])
  }

  /** The states any threads may pass through, one move at a time. */
  ghost predicate IsRun(fin: seq<bool>, run: seq<State>, moves: seq<Move>) {
    |run| == |moves| + 1 && Initial(fin, run[0]) && forall k: nat :: MoveOk(fin, run, moves, k)
  }

  lemma InitialInv(fin: seq<bool>, s: State)
    requires Initial(fin, s)
    ensures Inv(fin, s)
  {
  }

  lemma {:induction false} RunInv(fin: seq<bool>, run: seq<State>, moves: seq<Move>, k: nat)
    requires IsRun(fin, run, moves) && k < |run|
    ensures Inv(fin, run[k])
  {
    if k == 0 {
      InitialInv(fin, run[0]);
    } else {
      RunInv(fin, run, moves, k - 1);
      assert MoveOk(fin, run, moves, k - 1);
      StepInv(fin, run[k - 1], moves[k - 1].t, moves[k - 1].a, run[k]);
    }
  }

  ghost predicate EndsRun(fin: seq<bool>, s: State) {
    exists run: seq<State>, moves: seq<Move> :: IsRun(fin, run, moves) && run[|moves|] == s
  }

  /** Some run ends in s; stated as Inv is. */
  ghost predicate Reachable(fin: seq<bool>, s: State) {
    forall f: seq<bool> :: f == fin ==> EndsRun(f, s)
  }

  lemma ReachableInv(fin: seq<bool>, s: State)
    requires Reachable(fin, s)
    ensures Inv(fin, s)
  {
    assert EndsRun(fin, s);
    var run: seq<State>, moves: seq<Move> :| IsRun(fin, run, moves) && run[|moves|] == s;
    RunInv(fin, run, moves, |moves|);
  }

  /** Main result: no object is ever claimed, started, completed or finalized twice. */
  lemma EventsOnce(fin: seq<bool>, s: State, a: nat, b: nat)
    requires Reachable(fin, s) && a < b < |s.log|
    ensures s.log[a] != s.log[b]
  {
    ReachableInv(fin, s);
    assert AllKept(fin, s);
    assert LogAt(s.log, b);
    assert s.log[a] in s.log[..b];
  }

  /** Main result: whatever is claimed is claimed before the shutdown. */
  lemma ClaimsBeforeShutdown(fin: seq<bool>, s: State, a: nat, b: nat)
    requires Reachable(fin, s) && a < |s.log| && b < |s.log| && s.log[a].Claim? && s.log[b] == Shutdown
    ensures a < b
  {
    ReachableInv(fin, s);
    assert AllKept(fin, s);
    assert LogAt(s.log, a);
  }

  /** Main result: a finalized object was claimed, started and completed first. */
  lemma FinalizedAfterCompletion(fin: seq<bool>, s: State, b: nat)
    requires Reachable(fin, s) && b < |s.log| && s.log[b].Fini?
    ensures Lived(s.log[..b], s.log[b].x)
  {
    ReachableInv(fin, s);
    assert AllKept(fin, s);
    OrderOfLife(s.log, b);
  }

  /** x was claimed, then started, then completed. */
  ghost predicate Lived(log: seq<Event>, x: nat) {
    exists c, st, d :: 0 <= c < st < d < |log| && log[c] == Claim(x) && log[st] == Start(x) && log[d] == Done(x)
  }

  lemma OrderOfLife(log: seq<Event>, b: nat)
    requires LogOk(log) && b < |log| && log[b].Fini?
    ensures Lived(log[..b], log[b].x)
  {
    var x := log[b].x;
    assert LogAt(log, b);
    var d :| 0 <= d < b && log[d] == Done(x);
    assert LogAt(log, d);
    var st :| 0 <= st < d && log[st] == Start(x);
    assert LogAt(log, st);
    var c :| 0 <= c < st && log[c] == Claim(x);
    assert log[..b][c] == Claim(x) && log[..b][st] == Start(x) && log[..b][d] == Done(x);
  }

  /** Main result: of two finalized objects the one claimed later is finalized first. */
  lemma FinalizedInReverse(fin: seq<bool>, s: State, a: nat, b: nat)
    requires Reachable(fin, s) && a < b < |s.log| && s.log[a].Fini? && s.log[b].Fini?
    ensures ClaimedBefore(s.log[..b], s.log[b].x, s.log[a].x)
  {
    ReachableInv(fin, s);
    assert AllKept(fin, s);
    assert LogAt(s.log, b);
    assert s.log[a] in s.log[..b];
  }

  /** Main result: when do_init_fini returns, every object of its queue is constructed or under construction by
      the returning thread. */
  lemma ReturnSettles(fin: seq<bool>, s: State, t: nat, s': State, m: nat)
    requires Reachable(fin, s) && Step(fin, s, t, Return, s') && m < |TopFrame(s, t).queue|
    ensures Settled(s', t, TopFrame(s, t).queue[m])
  {
    ReachableInv(fin, s);
    assert AllKept(fin, s);
    assert BehindOk(s, t, |s.stacks[t]| - 1);
    StepSettled(fin, s, t, Return, s', t, TopFrame(s, t).queue[m]);
  }

  /** Main result: an object is claimed only when each of its dependencies is constructed, is under construction by
      the claiming thread, or depends on the object in turn, provided the queue is in constructor order. */
  lemma ClaimAfterDependencies(fin: seq<bool>, s: State, t: nat, s': State, adj: Graph, y: nat)
    requires Reachable(fin, s) && Step(fin, s, t, TakeObject, s')
    requires Ordered(adj, TopFrame(s, t).queue) && Edge(adj, Entry(s, t), y)
    ensures Settled(s, t, y) || Reach(adj, y, Entry(s, t))
  {
    ReachableInv(fin, s);
    assert AllKept(fin, s);
    var f := TopFrame(s, t);
    assert BehindOk(s, t, |s.stacks[t]| - 1);
    if !Reach(adj, y, f.queue[f.i]) {
      assert y in f.queue[..f.i];
      var m :| 0 <= m < f.i && f.queue[m] == y;
    }
  }

  /** Main result: when __libc_exit_fini has gone through its list, every claimed object with finalizers has been
      finalized, unless the exiting thread itself is constructing it. */
  lemma ExitFinalizesAll(fin: seq<bool>, s: State, t: nat, x: nat)
    requires Reachable(fin, s) && HasTop(s, t) && TopFrame(s, t).Exit? && !TopFrame(s, t).pc.Enter?
    requires TopFrame(s, t).i >= |s.fini| && Claim(x) in s.log && x < |fin| && fin[x]
    ensures Fini(x) in s.log || (x < |s.visitor| && s.visitor[x] == t)
  {
    ReachableInv(fin, s);
    assert AllKept(fin, s);
    assert ExitAt(s, t, |s.stacks[t]| - 1);
    assert s.fini[..|s.fini|] == s.fini;
    FiniOfClaims(fin, s.log, x);
    KeptIn(s.constructed, s.fini, x);
    var m :| 0 <= m < |s.fini| && s.fini[m] == x;
    assert Settled(s, t, s.fini[m]);
  }

  // ----- constructors that start after the shutdown -----

  /** Some thread is between the unlock that follows its claim and the first constructor function. */
  ghost predicate ClaimPending(s: State) {
    exists t: nat, k: nat :: PendingAt(s, t, k)
  }

  ghost predicate PendingAt(s: State, t: nat, k: nat) {
    InCtor(s, t, k) && s.stacks[t][k].pc.Claimed?
  }

  /** A constructor can start now if and only if a claim is pending, shutdown or not. */
  lemma StartIffPending(fin: seq<bool>, s: State)
    requires Reachable(fin, s)
    ensures (exists t: nat, s': State :: Step(fin, s, t, Begin, s')) <==> ClaimPending(s)
  {
    ReachableInv(fin, s);
    assert AllKept(fin, s);
    if ClaimPending(s) {
      var t: nat, k: nat :| PendingAt(s, t, k);
      assert FrameOk(s, t, k);
      assert Step(fin, s, t, Begin, Logged(SetTop(s, t, TopFrame(s, t).(pc := Running)), Start(Entry(s, t))));
    }
    forall t: nat, s': State | Step(fin, s, t, Begin, s') ensures ClaimPending(s) {
      assert PendingAt(s, t, |s.stacks[t]| - 1);
    }
  }

  /** After the shutdown no claim becomes pending; without one no constructor starts. */
  lemma QuietStep(fin: seq<bool>, s: State, t: nat, a: Action, s': State)
    requires Inv(fin, s) && s.down && !ClaimPending(s) && Step(fin, s, t, a, s')
    ensures s'.down && !ClaimPending(s') && !a.Begin?
  {
    assert AllKept(fin, s);
    if a.Begin? { assert PendingAt(s, t, |s.stacks[t]| - 1); }
    if ClaimPending(s') {
      var t': nat, k: nat :| PendingAt(s', t', k);
      QuietFrame(fin, s, t, a, s', t', k);
    }
  }

  lemma QuietFrame(fin: seq<bool>, s: State, t: nat, a: Action, s': State, t': nat, k: nat)
    requires Inv(fin, s) && s.down && Step(fin, s, t, a, s') && PendingAt(s', t', k)
    ensures PendingAt(s, t', k)
  {
    assert AllKept(fin, s);
    if a.Complete? {
      CompleteCtors(fin, s, t, s');
    } else {
      StepSameCtor(fin, s, t, a, s', t', k);
    }
    assert InCtor(s, t', k);
    assert s'.stacks[t'][k] == s.stacks[t'][k];
  }

  /** If no claim is pending when shutting_down is set, no constructor starts afterwards. */
  lemma {:induction false} NoStartAfterQuietShutdown(fin: seq<bool>, run: seq<State>, moves: seq<Move>, c: nat, k: nat)
    requires IsRun(fin, run, moves) && c <= k < |moves| && run[c].down && !ClaimPending(run[c])
    ensures run[k + 1].down && !ClaimPending(run[k + 1]) && !moves[k].a.Begin?
    decreases k
  {
    RunInv(fin, run, moves, k);
    assert MoveOk(fin, run, moves, k);
    if c < k { NoStartAfterQuietShutdown(fin, run, moves, c, k - 1); }
    QuietStep(fin, run[k], moves[k].t, moves[k].a, run[k + 1]);
  }

  lemma ReachableStep(fin: seq<bool>, s: State, t: nat, a: Action, s': State)
    requires Reachable(fin, s) && Step(fin, s, t, a, s')
    ensures Reachable(fin, s')
  {
    assert EndsRun(fin, s);
    var run: seq<State>, moves: seq<Move> :| IsRun(fin, run, moves) && run[|moves|] == s;
    var run', moves' := run + [s'], moves + [Move(t, a)];
    forall k: nat ensures MoveOk(fin, run', moves', k) {
      assert MoveOk(fin, run, moves, k);
    }
    assert IsRun(fin, run', moves') && run'[|moves'|] == s';
  }

  lemma InitialReachable(fin: seq<bool>, s: State)
    requires Initial(fin, s)
    ensures Reachable(fin, s)
  {
    var none: seq<Move> := [];
    assert IsRun(fin, [s], none) && [s][|none|] == s;
  }
}
