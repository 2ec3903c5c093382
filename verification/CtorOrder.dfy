/** The order in which constructors start against the order in which finalizers run. Finalizers run in reverse order of
    claims; a thread claims an object under the lock and enters its constructor after the unlock, so another thread's
    constructor may start in between. */
module CtorOrder {
  import opened CtorProtocol

  /** Event e comes before event f. */
  ghost predicate Precedes(log: seq<Event>, e: Event, f: Event) {
    exists a, b :: 0 <= a < b < |log| && log[a] == e && log[b] == f
  }

  lemma SamePlace(fin: seq<bool>, s: State, a: nat, b: nat)
    requires Reachable(fin, s) && a < |s.log| && b < |s.log| && s.log[a] == s.log[b]
    ensures a == b
  {
    if a < b { EventsOnce(fin, s, a, b); }
    if b < a { EventsOnce(fin, s, b, a); }
  }

  /** A finalized object was claimed and then started. */
  lemma StartOf(fin: seq<bool>, s: State, a: nat) returns (c: nat, st: nat)
    requires Reachable(fin, s) && a < |s.log| && s.log[a].Fini?
    ensures c < st < |s.log| && s.log[c] == Claim(s.log[a].x) && s.log[st] == Start(s.log[a].x)
  {
    FinalizedAfterCompletion(fin, s, a);
    var y := s.log[a].x;
    var i, j, d :| 0 <= i < j < d < a && s.log[..a][i] == Claim(y) && s.log[..a][j] == Start(y)
      && s.log[..a][d] == Done(y);
    c, st := i, j;
  }

  /** Main result: if y is finalized before x and x had started when y was claimed, x started before y. */
  lemma StartedInReverse(fin: seq<bool>, s: State, x: nat, y: nat)
    requires Reachable(fin, s) && Precedes(s.log, Fini(y), Fini(x)) && Precedes(s.log, Start(x), Claim(y))
    ensures Precedes(s.log, Start(x), Start(y))
  {
    var a :| 0 <= a < |s.log| && s.log[a] == Fini(y);
    var i, j :| 0 <= i < j < |s.log| && s.log[i] == Start(x) && s.log[j] == Claim(y);
    var c, st := StartOf(fin, s, a);
    SamePlace(fin, s, c, j);
  }

  /** Another thread than t has claimed x and not entered its constructor yet. */
  ghost predicate PendingElsewhere(s: State, t: nat, x: nat) {
    exists t': nat, k: nat :: t' != t && PendingAt(s, t', k) && Obj(s, t', k) == x
  }

  /** When a thread claims an object, every object claimed before has started or is pending in another thread. */
  lemma ClaimedHaveStarted(fin: seq<bool>, s: State, t: nat, s': State, x: nat)
    requires Reachable(fin, s) && Step(fin, s, t, TakeObject, s') && Claim(x) in s.log && x < |fin|
    ensures Start(x) in s.log || PendingElsewhere(s, t, x)
  {
    ReachableInv(fin, s);
    assert AllKept(fin, s);
    assert ObjectLog(s, x);
    if s.constructed[x] {
      var d :| 0 <= d < |s.log| && s.log[d] == Done(x);
      assert LogAt(s.log, d);
    } else {
      assert VisitedOk(s, x);
      var t' := s.visitor[x];
      var k: nat :| Owns(s, t', k, x);
      assert FrameLog(s, t', k) && FrameOk(s, t', k);
    }
  }

  /** A pending object has not started. */
  lemma PendingNotStarted(fin: seq<bool>, s: State, t: nat, x: nat)
    requires Inv(fin, s) && PendingElsewhere(s, t, x)
    ensures Start(x) !in s.log && x < |s.visitor| == |s.constructed|
    ensures s.visitor[x] != t && s.visitor[x] != NOBODY && !s.constructed[x]
  {
    assert AllKept(fin, s);
    var t': nat, k: nat :| t' != t && PendingAt(s, t', k) && Obj(s, t', k) == x;
    assert FrameLog(s, t', k) && VisitOk(s, t', k) && VisitedOk(s, x);
  }

  /** Main result: once y is claimed it can start before an object x claimed earlier if and only if the claim of x is
      pending in another thread. */
  lemma OvertakesIffPending(fin: seq<bool>, s: State, t: nat, s': State, x: nat)
    requires Reachable(fin, s) && Step(fin, s, t, TakeObject, s') && Claim(x) in s.log && x < |fin|
    ensures (exists s'': State :: Step(fin, s', t, Begin, s'') && Start(x) !in s''.log) <==> PendingElsewhere(s, t, x)
  {
    ReachableInv(fin, s);
    if PendingElsewhere(s, t, x) {
      PendingNotStarted(fin, s, t, x);
      var s'' := Logged(SetTop(s', t, TopFrame(s', t).(pc := Running)), Start(Entry(s', t)));
      assert Step(fin, s', t, Begin, s'');
      assert s''.log == s.log + [Claim(Entry(s, t)), Start(Entry(s, t))];
      assert Start(x) !in s''.log;
    } else {
      ClaimedHaveStarted(fin, s, t, s', x);
      forall s'': State | Step(fin, s', t, Begin, s'') ensures Start(x) in s''.log {
        var i :| 0 <= i < |s.log| && s.log[i] == Start(x);
        assert s''.log[i] == Start(x);
      }
    }
  }

  // ----- over whole runs -----

  lemma RunReachable(fin: seq<bool>, run: seq<State>, moves: seq<Move>, k: nat)
    requires IsRun(fin, run, moves) && k < |run|
    ensures Reachable(fin, run[k])
  {
    var r, m := run[..k + 1], moves[..k];
    forall i: nat ensures MoveOk(fin, r, m, i) { assert MoveOk(fin, run, moves, i); }
    assert IsRun(fin, run[..k + 1], moves[..k]) && run[..k + 1][|moves[..k]|] == run[k];
  }

  /** A step logs at most one event. */
  lemma StepLog(fin: seq<bool>, s: State, t: nat, a: Action, s': State)
    requires Step(fin, s, t, a, s')
    ensures s'.log == s.log || (|s'.log| == |s.log| + 1 && s'.log[..|s.log|] == s.log)
    ensures s'.log != s.log && s'.log[|s.log|].Claim? ==>
      a.TakeObject? && AtEntry(s, t) && s'.log[|s.log|] == Claim(Entry(s, t))
  {
  }

  /** The move that logged event j. */
  lemma {:induction false} LoggingMove(fin: seq<bool>, run: seq<State>, moves: seq<Move>, k: nat, j: nat)
      returns (c: nat)
    requires IsRun(fin, run, moves) && k < |run| && j < |run[k].log|
    ensures c < k && |run[c].log| == j && run[c + 1].log == run[k].log[..j + 1] && run[c].log == run[k].log[..j]
  {
    if k == 0 { assert false; }
    assert MoveOk(fin, run, moves, k - 1);
    StepLog(fin, run[k - 1], moves[k - 1].t, moves[k - 1].a, run[k]);
    if j < |run[k - 1].log| {
      c := LoggingMove(fin, run, moves, k - 1, j);
      assert run[k - 1].log[..j + 1] == run[k].log[..j + 1] && run[k - 1].log[..j] == run[k].log[..j];
    } else {
      c := k - 1;
      assert run[k].log[..j + 1] == run[k].log;
    }
  }

  /** The move by which object y was claimed. */
  ghost predicate ClaimMove(run: seq<State>, moves: seq<Move>, c: nat, y: nat) {
    c < |moves| && c < |run| && moves[c].a.TakeObject? && AtEntry(run[c], moves[c].t) && Entry(run[c], moves[c].t) == y
  }

  lemma MoveOfClaim(fin: seq<bool>, run: seq<State>, moves: seq<Move>, j: nat, y: nat) returns (c: nat)
    requires IsRun(fin, run, moves) && j < |run[|moves|].log| && run[|moves|].log[j] == Claim(y)
    ensures ClaimMove(run, moves, c, y) && run[c].log == run[|moves|].log[..j]
  {
    c := LoggingMove(fin, run, moves, |moves|, j);
    assert MoveOk(fin, run, moves, c);
    StepLog(fin, run[c], moves[c].t, moves[c].a, run[c + 1]);
    assert run[c + 1].log[j] == Claim(y);
  }

  /** Main result: if two objects are finalized in the order in which they started, then when the one that started first
      was claimed, the other's claim was pending in another thread. */
  lemma OrderDiffersByPending(fin: seq<bool>, run: seq<State>, moves: seq<Move>, x: nat, y: nat) returns (c: nat)
    requires IsRun(fin, run, moves) && x < |fin|
    requires Precedes(run[|moves|].log, Fini(y), Fini(x)) && Precedes(run[|moves|].log, Start(y), Start(x))
    ensures ClaimMove(run, moves, c, y) && PendingElsewhere(run[c], moves[c].t, x)
  {
    var s := run[|moves|];
    RunReachable(fin, run, moves, |moves|);
    var i, j := ClaimsOfFinis(fin, s, x, y);
    c := MoveOfClaim(fin, run, moves, j, y);
    RunReachable(fin, run, moves, c);
    assert run[c].log[i] == Claim(x);
    assert MoveOk(fin, run, moves, c);
    ClaimedHaveStarted(fin, run[c], moves[c].t, run[c + 1], x);
    if Start(x) in run[c].log {
      StartsInOrder(fin, s, x, y, j);
      assert false;
    }
  }

  /** The object finalized later was claimed earlier. */
  lemma ClaimsOfFinis(fin: seq<bool>, s: State, x: nat, y: nat) returns (i: nat, j: nat)
    requires Reachable(fin, s) && Precedes(s.log, Fini(y), Fini(x))
    ensures i < j < |s.log| && s.log[i] == Claim(x) && s.log[j] == Claim(y)
  {
    var a, b :| 0 <= a < b < |s.log| && s.log[a] == Fini(y) && s.log[b] == Fini(x);
    FinalizedInReverse(fin, s, a, b);
    var p, q :| 0 <= p < q < |s.log[..b]| && s.log[..b][p] == Claim(x) && s.log[..b][q] == Claim(y);
    i, j := p, q;
  }

  /** What started before the claim of y did not start after y. */
  lemma StartsInOrder(fin: seq<bool>, s: State, x: nat, y: nat, j: nat)
    requires Reachable(fin, s) && j < |s.log| && s.log[j] == Claim(y) && Start(x) in s.log[..j]
    ensures !Precedes(s.log, Start(y), Start(x))
  {
    if Precedes(s.log, Start(y), Start(x)) {
      ReachableInv(fin, s);
      assert AllKept(fin, s);
      var p, q :| 0 <= p < q < |s.log| && s.log[p] == Start(y) && s.log[q] == Start(x);
      var i :| 0 <= i < j && s.log[i] == Start(x);
      SamePlace(fin, s, i, q);
      assert LogAt(s.log, p);
      var c :| 0 <= c < p && s.log[c] == Claim(y);
      SamePlace(fin, s, c, j);
    }
  }

  /** Thread t claimed x and it is settled. */
  ghost predicate Keeps(s: State, t: nat, x: nat) {
    Settled(s, t, x) && Thread(s, t)
  }

  lemma ClaimKeeps(fin: seq<bool>, s: State, t: nat, s': State)
    requires Inv(fin, s) && Step(fin, s, t, TakeObject, s')
    ensures Keeps(s', t, Entry(s, t))
  {
    assert AllKept(fin, s);
  }

  lemma StepKeeps(fin: seq<bool>, s: State, t: nat, a: Action, s': State, t': nat, x: nat)
    requires Inv(fin, s) && Step(fin, s, t, a, s') && Keeps(s, t', x)
    ensures Keeps(s', t', x)
  {
    assert AllKept(fin, s);
    StepSettled(fin, s, t, a, s', t', x);
  }

  /** What one thread claimed stays settled for it. */
  lemma {:induction false} ClaimStays(fin: seq<bool>, run: seq<State>, moves: seq<Move>, c: nat, k: nat, t: nat, x: nat)
    requires IsRun(fin, run, moves) && c < k < |run| && Keeps(run[c + 1], t, x)
    ensures Keeps(run[k], t, x)
    decreases k
  {
    if c + 1 < k {
      ClaimStays(fin, run, moves, c, k - 1, t, x);
      RunInv(fin, run, moves, k - 1);
      assert MoveOk(fin, run, moves, k - 1);
      StepKeeps(fin, run[k - 1], moves[k - 1].t, moves[k - 1].a, run[k], t, x);
    }
  }

  /** Main result: objects claimed by one thread start in the order of their claims, and so are finalized in reverse
      order of their starts. */
  lemma OneThreadInOrder(fin: seq<bool>, run: seq<State>, moves: seq<Move>, c: nat, d: nat, x: nat, y: nat)
    requires IsRun(fin, run, moves) && c < d && x < |fin|
    requires ClaimMove(run, moves, c, x) && ClaimMove(run, moves, d, y) && moves[c].t == moves[d].t
    ensures Start(x) in run[d].log
  {
    RunReachable(fin, run, moves, d);
    assert MoveOk(fin, run, moves, c) && MoveOk(fin, run, moves, d);
    RunInv(fin, run, moves, c);
    ClaimKeeps(fin, run[c], moves[c].t, run[c + 1]);
    ClaimStays(fin, run, moves, c, d, moves[c].t, x);
    RunInv(fin, run, moves, d);
    assert AllKept(fin, run[d]) && ObjectLog(run[d], x);
    ClaimedHaveStarted(fin, run[d], moves[d].t, run[d + 1], x);
    if PendingElsewhere(run[d], moves[d].t, x) {
      PendingNotStarted(fin, run[d], moves[d].t, x);
    }
  }

  lemma {:induction false} LogsGrow(fin: seq<bool>, run: seq<State>, moves: seq<Move>, k: nat, l: nat)
    requires IsRun(fin, run, moves) && k <= l < |run|
    ensures run[k].log <= run[l].log
    decreases l
  {
    if k < l {
      LogsGrow(fin, run, moves, k, l - 1);
      assert MoveOk(fin, run, moves, l - 1);
      StepLog(fin, run[l - 1], moves[l - 1].t, moves[l - 1].a, run[l]);
    }
  }

  lemma TakeLogs(fin: seq<bool>, s: State, t: nat, s': State)
    requires Step(fin, s, t, TakeObject, s')
    ensures s'.log == s.log + [Claim(Entry(s, t))]
  {
  }

  /** The claim that a move logged, in the log of the whole run. */
  lemma ClaimPlace(fin: seq<bool>, run: seq<State>, moves: seq<Move>, c: nat, y: nat, j: nat)
    requires IsRun(fin, run, moves) && ClaimMove(run, moves, c, y)
    requires j < |run[|moves|].log| && run[|moves|].log[j] == Claim(y)
    ensures |run[c].log| == j && run[c].log <= run[|moves|].log
  {
    assert MoveOk(fin, run, moves, c);
    TakeLogs(fin, run[c], moves[c].t, run[c + 1]);
    LogsGrow(fin, run, moves, c + 1, |moves|);
    LogsGrow(fin, run, moves, c, |moves|);
    RunReachable(fin, run, moves, |moves|);
    assert run[c + 1].log[|run[c].log|] == Claim(y);
    SamePlace(fin, run[|moves|], |run[c].log|, j);
  }

  /** Main result: the finalizers of objects that one thread claimed run in reverse order of their constructors'
      start. */
  lemma OneThreadReverse(fin: seq<bool>, run: seq<State>, moves: seq<Move>, c: nat, d: nat, x: nat, y: nat)
    requires IsRun(fin, run, moves) && x < |fin| && Precedes(run[|moves|].log, Fini(y), Fini(x))
    requires ClaimMove(run, moves, c, x) && ClaimMove(run, moves, d, y) && moves[c].t == moves[d].t
    ensures Precedes(run[|moves|].log, Start(x), Start(y))
  {
    var s := run[|moves|];
    RunReachable(fin, run, moves, |moves|);
    var i, j := ClaimsOfFinis(fin, s, x, y);
    ClaimPlace(fin, run, moves, c, x, i);
    ClaimPlace(fin, run, moves, d, y, j);
    if d <= c { LogsGrow(fin, run, moves, d, c); }
    OneThreadInOrder(fin, run, moves, c, d, x, y);
    var p :| 0 <= p < |run[d].log| && run[d].log[p] == Start(x);
    assert s.log[p] == Start(x);
    assert Precedes(s.log, Start(x), Claim(y));
    StartedInReverse(fin, s, x, y);
  }

  // ----- two runs -----

  lemma OneFrame(s: State, t: nat, f: Frame)
    requires t < |s.stacks|
    ensures s.stacks[t] == [] ==> PushFrame(s, t, f).stacks == s.stacks[t := [f]]
    ensures |s.stacks[t]| == 1 ==>
      SetTop(s, t, f).stacks == s.stacks[t := [f]] && PopFrame(s, t).stacks == s.stacks[t := []]
  {
    if s.stacks[t] == [] { assert s.stacks[t] + [f] == [f]; }
    if |s.stacks[t]| == 1 { assert s.stacks[t][0 := f] == [f] && s.stacks[t][..0] == []; }
  }

  /** A thread calls do_init_fini with a queue of one object and takes the lock. */
  lemma Enters1(fin: seq<bool>, s: State, t: nat, x: nat) returns (s': State)
    requires Reachable(fin, s) && Thread(s, t) && s.stacks[t] == [] && x < |s.visitor| && s.lock == NOBODY
    ensures Reachable(fin, s') && s' == s.(lock := t, stacks := s.stacks[t := [Init([x], 0, Locked)]])
  {
    OneFrame(s, t, Init([x], 0, Enter));
    var s1 := PushFrame(s, t, Init([x], 0, Enter));
    ReachableStep(fin, s, t, CallInit([x]), s1);
    OneFrame(s1, t, Init([x], 0, Locked));
    s' := SetTop(s1, t, Init([x], 0, Locked)).(lock := t);
    ReachableStep(fin, s1, t, Lock, s');
  }

  lemma Takes1(fin: seq<bool>, s: State, t: nat, x: nat) returns (s': State)
    requires Reachable(fin, s) && Thread(s, t) && s.stacks[t] == [Init([x], 0, Locked)] && !s.down
    requires x < |s.visitor| == |s.constructed| == |fin| && s.visitor[x] == NOBODY && !s.constructed[x]
    ensures Reachable(fin, s')
    ensures s' == s.(visitor := s.visitor[x := t], fini := if fin[x] then [x] + s.fini else s.fini,
      lock := NOBODY, stacks := s.stacks[t := [Init([x], 0, Claimed)]], log := s.log + [Claim(x)])
  {
    OneFrame(s, t, Init([x], 0, Claimed));
    s' := Logged(SetTop(s, t, Init([x], 0, Claimed)), Claim(x)).(
      visitor := s.visitor[x := t], fini := if fin[x] then [x] + s.fini else s.fini, lock := NOBODY);
    ReachableStep(fin, s, t, TakeObject, s');
  }

  lemma Begins1(fin: seq<bool>, s: State, t: nat, x: nat) returns (s': State)
    requires Reachable(fin, s) && Thread(s, t) && s.stacks[t] == [Init([x], 0, Claimed)]
    ensures Reachable(fin, s') && s' == s.(stacks := s.stacks[t := [Init([x], 0, Running)]], log := s.log + [Start(x)])
  {
    OneFrame(s, t, Init([x], 0, Running));
    s' := Logged(SetTop(s, t, Init([x], 0, Running)), Start(x));
    ReachableStep(fin, s, t, Begin, s');
  }

  /** The constructors of the object end and the call returns. */
  lemma Completes1(fin: seq<bool>, s: State, t: nat, x: nat) returns (s': State)
    requires Reachable(fin, s) && Thread(s, t) && s.stacks[t] == [Init([x], 0, Running)]
    requires x < |s.visitor| == |s.constructed| && s.lock == NOBODY
    ensures Reachable(fin, s') && s' == s.(visitor := s.visitor[x := NOBODY], constructed := s.constructed[x := true],
      stacks := s.stacks[t := []], log := s.log + [Done(x)])
  {
    OneFrame(s, t, Init([x], 1, Locked));
    var s1 := Logged(SetTop(s, t, Init([x], 1, Locked)), Done(x)).(
      visitor := s.visitor[x := NOBODY], constructed := s.constructed[x := true], lock := t);
    ReachableStep(fin, s, t, Complete, s1);
    OneFrame(s1, t, Init([x], 1, Locked));
    s' := PopFrame(s1, t).(lock := NOBODY);
    ReachableStep(fin, s1, t, Return, s');
  }

  /** A thread calls __libc_exit_fini and takes the lock. */
  lemma Exits1(fin: seq<bool>, s: State, t: nat) returns (s': State)
    requires Reachable(fin, s) && Thread(s, t) && s.stacks[t] == [] && s.exiter == NOBODY && s.lock == NOBODY
    ensures Reachable(fin, s') && s' == s.(exiter := t, lock := t, down := true,
      stacks := s.stacks[t := [Exit(0, Locked)]], log := s.log + [Shutdown])
  {
    OneFrame(s, t, Exit(0, Enter));
    var s1 := PushFrame(s, t, Exit(0, Enter)).(exiter := t);
    ReachableStep(fin, s, t, CallExit, s1);
    OneFrame(s1, t, Exit(0, Locked));
    s' := Logged(SetTop(s1, t, Exit(0, Locked)).(lock := t), Shutdown).(down := true);
    ReachableStep(fin, s1, t, Lock, s');
  }

  lemma Finalizes1(fin: seq<bool>, s: State, t: nat, i: nat) returns (s': State)
    requires Reachable(fin, s) && Thread(s, t) && s.stacks[t] == [Exit(i, Locked)] && i < |s.fini|
    requires s.fini[i] < |s.visitor| == |s.constructed| && s.visitor[s.fini[i]] == NOBODY && s.constructed[s.fini[i]]
    ensures Reachable(fin, s')
    ensures s' == s.(stacks := s.stacks[t := [Exit(i + 1, Locked)]], log := s.log + [Fini(s.fini[i])])
  {
    OneFrame(s, t, Exit(i + 1, Locked));
    s' := Logged(SetTop(s, t, Exit(i + 1, Locked)), Fini(s.fini[i]));
    ReachableStep(fin, s, t, Finalize, s');
  }

  /** Thread 1 has claimed object 0, and thread 2 then object 1. */
  lemma ClaimedInOrder(fin: seq<bool>) returns (s: State)
    requires |fin| == 2 && fin[0] && fin[1]
    ensures Reachable(fin, s) && |s.visitor| == |s.constructed| == 2 && s.lock == NOBODY && s.exiter == NOBODY
    ensures |s.stacks| == 4 && s.stacks[1] == [Init([0], 0, Claimed)] && s.stacks[2] == [Init([1], 0, Claimed)]
    ensures s.stacks[3] == []
    ensures s.fini == [1, 0] && s.log == [Claim(0), Claim(1)]
  {
    s := State([NOBODY, NOBODY], [false, false], [], false, NOBODY, NOBODY, [[], [], [], []], []);
    InitialReachable(fin, s);
    s := Enters1(fin, s, 1, 0);
    s := Takes1(fin, s, 1, 0);
    s := Enters1(fin, s, 2, 1);
    s := Takes1(fin, s, 2, 1);
  }

  /** Thread 2 enters its constructor first, and both complete. */
  lemma StartedOutOfOrder(fin: seq<bool>) returns (s: State)
    requires |fin| == 2 && fin[0] && fin[1]
    ensures Reachable(fin, s) && |s.visitor| == |s.constructed| == 2 && s.lock == NOBODY && s.exiter == NOBODY
    ensures |s.stacks| == 4 && s.stacks[3] == [] && s.fini == [1, 0]
    ensures s.visitor[0] == NOBODY && s.visitor[1] == NOBODY && s.constructed[0] && s.constructed[1]
    ensures s.log == [Claim(0), Claim(1), Start(1), Start(0), Done(0), Done(1)]
  {
    s := ClaimedInOrder(fin);
    s := Begins1(fin, s, 2, 1);
    s := Begins1(fin, s, 1, 0);
    s := Completes1(fin, s, 1, 0);
    s := Completes1(fin, s, 2, 1);
  }

  /** A run in which two objects are finalized in the order in which they started: the claim of the first was pending
      when the second was claimed. */
  lemma FinalizedInStartOrder()
    ensures exists fin: seq<bool>, s: State ::
      Reachable(fin, s) && s.log ==
        [Claim(0), Claim(1), Start(1), Start(0), Done(0), Done(1), Shutdown, Fini(1), Fini(0)]
  {
    var fin := [true, true];
    var s := StartedOutOfOrder(fin);
    s := Exits1(fin, s, 3);
    s := Finalizes1(fin, s, 3, 0);
    s := Finalizes1(fin, s, 3, 1);
    assert s.log == [Claim(0), Claim(1), Start(1), Start(0), Done(0), Done(1), Shutdown, Fini(1), Fini(0)];
  }

  /** A run in which a constructor starts after the shutdown: its claim was pending. */
  lemma StartAfterShutdown()
    ensures exists fin: seq<bool>, s: State :: Reachable(fin, s) && s.log == [Claim(0), Shutdown, Start(0)]
  {
    var fin := [false];
    var s := State([NOBODY], [false], [], false, NOBODY, NOBODY, [[], [], []], []);
    InitialReachable(fin, s);
    s := Enters1(fin, s, 1, 0);
    s := Takes1(fin, s, 1, 0);
    s := Exits1(fin, s, 2);
    s := Begins1(fin, s, 1, 0);
    assert s.log == [Claim(0), Shutdown, Start(0)];
  }
}
