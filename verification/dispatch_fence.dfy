/** The dispatch fence of the Home client as a protocol of threads.

    The fence flag is an atomic that is stored without the lock; the pools and the set of tracked
    connections change only under the lock.  A critical section that loads the flag is therefore
    several steps here: another thread may raise the fence after the check and before the pool is
    installed.  One action is one step of one thread; a run is any sequence of actions. */
module DispatchFence {
  import opened Wrappers

  type Thread = nat
  type Pool = nat
  type Conn = nat

  /** Where a thread stands.  States marked L hold the lock. */
  datatype Pc =
    | Outside
    | Ending                                   // Close or Abort: fence raised, lock not yet taken
    | EnsurePassed                             // L ensureClients: flag was down
    | EnsureCmdDone                            // L ensureClients: command pool present
    | ReleasePassed                            // L concurrencyReleaseClient: flag was down
    | Dialled(conn: Conn)                      // tracked dialer: connected, lock not yet taken
    | DialPassed(conn: Conn)                   // L tracked dialer: flag was down
    | Closing(conns: set<Conn>, pools: set<Pool>)  // what this thread still has to close

  datatype System = System(
    fenced: bool,
    ended: bool,              // some Close or Abort has left its critical section
    lock: Option<Thread>,
    cmd: Option<Pool>, sub: Option<Pool>, release: Option<Pool>,
    connections: set<Conn>,
    threads: map<Thread, Pc>,
    pools: nat, openPools: set<Pool>,     // pools created so far, and those not yet closed
    dialled: nat, openConns: set<Conn>)   // connections dialled so far, and those not yet closed

  const Fresh := System(false, false, None, None, None, None, {}, map[], 0, {}, 0, {})

  datatype Action =
    | RaiseFence(t: Thread)              // Close, AbortAmbiguousDispatch: the store before the lock
    | EndLifetime(t: Thread)             // ... their critical section
    | CloseBootstrap(t: Thread)          // closeBootstrapPools
    | Promote(t: Thread)                 // promoteSubscription
    | Failover(t: Thread)                // switchToNodeLocked
    | EnsureCheck(t: Thread)
    | EnsureCmd(t: Thread, ok: bool)
    | EnsureSub(t: Thread, ok: bool)
    | ReleaseCheck(t: Thread)
    | ReleaseInstall(t: Thread, ok: bool)
    | Dial(t: Thread)
    | DialCheck(t: Thread)
    | DialRegister(t: Thread)
    | ConnClose(t: Thread, conn: Conn)   // a pool drops one of its connections
    | CloseConn(t: Thread, conn: Conn)   // one of the closings a thread still owes
    | ClosePool(t: Thread, pool: Pool)
    | Done(t: Thread)

  function PcOf(s: System, t: Thread): Pc {
    if t in s.threads then s.threads[t] else Outside
  }

  function Goto(s: System, t: Thread, pc: Pc): System {
    s.(threads := s.threads[t := pc])
  }

  function Slot(p: Option<Pool>): set<Pool> {
    if p.Some? then {p.value} else {}
  }

  /** detachClientsLocked, with the pools that are to be closed. */
  function Detach(s: System, t: Thread, withRelease: bool): System {
    s.(cmd := None, sub := None, connections := {},
       release := if withRelease then None else s.release,
       threads := s.threads[t := Closing(s.connections,
                                         Slot(s.cmd) + Slot(s.sub) + if withRelease then Slot(s.release) else {})])
  }

  function NewPool(s: System): System {
    s.(pools := s.pools + 1, openPools := s.openPools + {s.pools})
  }

  predicate Free(s: System, t: Thread) {
    s.lock == None && PcOf(s, t) == Outside
  }

  /** An action whose guard does not hold does not happen. */
  function Step(s: System, a: Action): System {
    var t := a.t;
    var pc := PcOf(s, t);
    match a
    case RaiseFence(_) =>
      if pc == Outside then Goto(s.(fenced := true), t, Ending) else s
    case EndLifetime(_) =>
      if pc == Ending && s.lock == None then Detach(s.(ended := true), t, true) else s
    case CloseBootstrap(_) =>
      if Free(s, t) then Detach(s, t, false) else s
    case Promote(_) =>
      if Free(s, t) then Goto(s.(cmd := None), t, Closing({}, Slot(s.cmd))) else s
    case Failover(_) =>
      if Free(s, t) then Detach(s, t, true) else s
    case EnsureCheck(_) =>
      if Free(s, t) && !s.fenced then Goto(s.(lock := Some(t)), t, EnsurePassed) else s
    case EnsureCmd(_, ok) =>
      if pc != EnsurePassed then s
      else if s.cmd.Some? then Goto(s, t, EnsureCmdDone)
      else if ok then Goto(NewPool(s).(cmd := Some(s.pools)), t, EnsureCmdDone)
      else Goto(s.(lock := None), t, Outside)
    case EnsureSub(_, ok) =>
      if pc != EnsureCmdDone then s
      else if s.sub.None? && ok then Goto(NewPool(s).(sub := Some(s.pools), lock := None), t, Outside)
      else Goto(s.(lock := None), t, Outside)
    case ReleaseCheck(_) =>
      if Free(s, t) && !s.fenced then Goto(s.(lock := Some(t)), t, ReleasePassed) else s
    case ReleaseInstall(_, ok) =>
      if pc != ReleasePassed then s
      else if s.release.None? && ok then Goto(NewPool(s).(release := Some(s.pools), lock := None), t, Outside)
      else Goto(s.(lock := None), t, Outside)
    case Dial(_) =>
      if pc == Outside
      then Goto(s.(dialled := s.dialled + 1, openConns := s.openConns + {s.dialled}), t, Dialled(s.dialled))
      else s
    case DialCheck(_) =>
      if !pc.Dialled? || s.lock != None then s
      else if s.fenced then Goto(s, t, Closing({pc.conn}, {}))
      else Goto(s.(lock := Some(t)), t, DialPassed(pc.conn))
    case DialRegister(_) =>
      if pc.DialPassed?
      then Goto(s.(connections := s.connections + {pc.conn}, lock := None), t, Outside) else s
    case ConnClose(_, c) =>
      if Free(s, t) && c in s.connections
      then Goto(s.(connections := s.connections - {c}), t, Closing({c}, {})) else s
    case CloseConn(_, c) =>
      // Deregisters under the lock, once, and closes the socket.
      if pc.Closing? && c in pc.conns && s.lock == None
      then Goto(s.(connections := s.connections - {c}, openConns := s.openConns - {c}),
                t, Closing(pc.conns - {c}, pc.pools))
      else s
    case ClosePool(_, p) =>
      if pc.Closing? && p in pc.pools
      then Goto(s.(openPools := s.openPools - {p}), t, Closing(pc.conns, pc.pools - {p})) else s
    case Done(_) =>
      if pc == Closing({}, {}) then Goto(s, t, Outside) else s
  }

  function Exec(s: System, run: seq<Action>): System {
    if run == [] then s else Step(Exec(s, run[..|run| - 1]), run[|run| - 1])
  }

  ghost predicate Reached(s: System) {
    exists run :: Exec(Fresh, run) == s
  }

  // ---------------------------------------------------------------- safety of the fence

  /** A thread that has seen the flag down and is about to install something. */
  predicate Installs(pc: Pc) {
    pc == EnsurePassed || pc == EnsureCmdDone || pc == ReleasePassed || pc.DialPassed?
  }

  ghost predicate LockHeld(s: System) {
    && (forall t :: t in s.threads && Installs(s.threads[t]) ==> s.lock == Some(t))
    && (s.lock.Some? ==> Installs(PcOf(s, s.lock.value)))
  }

  /** After the critical section of a Close or Abort nothing is installed, and nobody who could
      still install something holds the lock. */
  ghost predicate Sealed(s: System) {
    s.ended ==>
      && s.fenced
      && s.cmd == None && s.sub == None && s.release == None && s.connections == {}
      && forall t :: t in s.threads ==> !Installs(s.threads[t])
  }

  ghost predicate EndersFenced(s: System) {
    forall t :: t in s.threads && s.threads[t] == Ending ==> s.fenced
  }

  /** Every open connection is registered or owed a decision or a close by some thread. */
  ghost predicate ConnsAccounted(s: System) {
    forall c :: c in s.openConns ==> ConnAccounted(s, c)
  }

  ghost predicate ConnAccounted(s: System, c: Conn) {
    c in s.connections || exists t :: HoldsConn(s, t, c)
  }

  ghost predicate HoldsConn(s: System, t: Thread, c: Conn) {
    && t in s.threads
    && match s.threads[t]
       case Dialled(d) => d == c
       case DialPassed(d) => d == c
       case Closing(conns, _) => c in conns
       case _ => false
  }

  ghost predicate PoolsAccounted(s: System) {
    forall p :: p in s.openPools ==> PoolAccounted(s, p)
  }

  ghost predicate PoolAccounted(s: System, p: Pool) {
    Installed(s, p) || exists t :: HoldsPool(s, t, p)
  }

  predicate Installed(s: System, p: Pool) {
    s.cmd == Some(p) || s.sub == Some(p) || s.release == Some(p)
  }

  ghost predicate HoldsPool(s: System, t: Thread, p: Pool) {
    t in s.threads && s.threads[t].Closing? && p in s.threads[t].pools
  }

  ghost predicate Inv(s: System) {
    LockHeld(s) && Sealed(s) && EndersFenced(s) && ConnsAccounted(s) && PoolsAccounted(s)
  }

  lemma {:induction false} StepKeepsLock(s: System, a: Action)
    requires LockHeld(s)
    ensures LockHeld(Step(s, a))
  {
  }

  lemma {:induction false} StepKeepsEnders(s: System, a: Action)
    requires EndersFenced(s)
    ensures EndersFenced(Step(s, a))
  {
  }

  lemma {:induction false} StepKeepsSealed(s: System, a: Action)
    requires LockHeld(s) && Sealed(s) && EndersFenced(s)
    ensures Sealed(Step(s, a))
  {
  }

  lemma {:induction false} HolderKeepsConn(s: System, a: Action, t: Thread, c: Conn)
    requires HoldsConn(s, t, c) && c in Step(s, a).openConns && c !in Step(s, a).connections
    ensures HoldsConn(Step(s, a), t, c)
  {
  }

  lemma {:induction false} ConnStaysAccounted(s: System, a: Action, c: Conn)
    requires c in Step(s, a).openConns && (c in s.openConns ==> ConnAccounted(s, c))
    ensures ConnAccounted(Step(s, a), c)
  {
    var v := Step(s, a);
    if c !in v.connections {
      if c !in s.openConns || c in s.connections {
        assert HoldsConn(v, a.t, c);
      } else {
        var t :| HoldsConn(s, t, c);
        HolderKeepsConn(s, a, t, c);
      }
    }
  }

  lemma {:induction false} StepKeepsConns(s: System, a: Action)
    requires ConnsAccounted(s)
    ensures ConnsAccounted(Step(s, a))
  {
    forall c | c in Step(s, a).openConns ensures ConnAccounted(Step(s, a), c) {
      ConnStaysAccounted(s, a, c);
    }
  }

  lemma {:induction false} HolderKeepsPool(s: System, a: Action, t: Thread, p: Pool)
    requires HoldsPool(s, t, p) && p in Step(s, a).openPools
    ensures HoldsPool(Step(s, a), t, p)
  {
  }

  lemma {:induction false} PoolStaysAccounted(s: System, a: Action, p: Pool)
    requires p in Step(s, a).openPools && (p in s.openPools ==> PoolAccounted(s, p))
    ensures PoolAccounted(Step(s, a), p)
  {
    var v := Step(s, a);
    if !Installed(v, p) {
      if Installed(s, p) {
        assert HoldsPool(v, a.t, p);
      } else {
        var t :| HoldsPool(s, t, p);
        HolderKeepsPool(s, a, t, p);
      }
    }
  }

  lemma {:induction false} StepKeepsPools(s: System, a: Action)
    requires PoolsAccounted(s)
    ensures PoolsAccounted(Step(s, a))
  {
    forall p | p in Step(s, a).openPools ensures PoolAccounted(Step(s, a), p) {
      PoolStaysAccounted(s, a, p);
    }
  }

  lemma {:induction false} ExecKeepsInv(s: System, run: seq<Action>)
    requires Inv(s)
    ensures Inv(Exec(s, run))
    decreases |run|
  {
    if run != [] {
      var before := Exec(s, run[..|run| - 1]);
      ExecKeepsInv(s, run[..|run| - 1]);
      StepKeepsLock(before, run[|run| - 1]);
      StepKeepsEnders(before, run[|run| - 1]);
      StepKeepsSealed(before, run[|run| - 1]);
      StepKeepsConns(before, run[|run| - 1]);
      StepKeepsPools(before, run[|run| - 1]);
    }
  }

  lemma ReachedInv(s: System)
    requires Reached(s)
    ensures Inv(s)
  {
    var run :| Exec(Fresh, run) == s;
    ExecKeepsInv(Fresh, run);
  }

  lemma {:induction false} EndedStaysEnded(s: System, run: seq<Action>)
    ensures s.ended ==> Exec(s, run).ended
    decreases |run|
  {
    if run != [] { EndedStaysEnded(s, run[..|run| - 1]); }
  }

  lemma {:induction false} ExecConcat(s: System, a: seq<Action>, b: seq<Action>)
    ensures Exec(s, a + b) == Exec(Exec(s, a), b)
    decreases |b|
  {
    if b == [] {
      assert a + b == a;
    } else {
      assert (a + b)[..|a + b| - 1] == a + b[..|b| - 1];
      ExecConcat(s, a, b[..|b| - 1]);
    }
  }

  lemma ReachedExec(s: System, run: seq<Action>)
    requires Reached(s)
    ensures Reached(Exec(s, run))
  {
    var first :| Exec(Fresh, first) == s;
    ExecConcat(Fresh, first, run);
    assert Exec(Fresh, first + run) == Exec(s, run);
  }

  lemma {:induction false} OtherStepIsOutside(s: System, a: Action, t: Thread)
    requires LockHeld(s) && s.lock == Some(t) && a.t != t
    ensures var v := Step(s, a);
      v.lock == s.lock && PcOf(v, t) == PcOf(s, t)
      && v.cmd == s.cmd && v.sub == s.sub && v.release == s.release && v.connections == s.connections
  {
  }

  /** While a thread is inside its critical section nothing others do changes the pools, the tracked
      connections, the lock or where that thread stands; the flag alone may be raised. */
  lemma {:induction false} CriticalSectionIsPrivate(s: System, run: seq<Action>, t: Thread)
    requires LockHeld(s) && s.lock == Some(t) && forall a :: a in run ==> a.t != t
    ensures var v := Exec(s, run);
      LockHeld(v) && v.lock == s.lock && PcOf(v, t) == PcOf(s, t)
      && v.cmd == s.cmd && v.sub == s.sub && v.release == s.release && v.connections == s.connections
    decreases |run|
  {
    if run != [] {
      var before := Exec(s, run[..|run| - 1]);
      CriticalSectionIsPrivate(s, run[..|run| - 1], t);
      assert run[|run| - 1] in run;
      OtherStepIsOutside(before, run[|run| - 1], t);
      StepKeepsLock(before, run[|run| - 1]);
    }
  }

  /** Once a Close or Abort has left its critical section, no interleaving of anything puts a
      pool back or registers a connection. */
  lemma NothingComesBack(s: System, run: seq<Action>)
    requires Reached(s) && s.ended
    ensures var v := Exec(s, run);
      v.cmd == None && v.sub == None && v.release == None && v.connections == {}
  {
    ReachedExec(s, run);
    EndedStaysEnded(s, run);
    ReachedInv(Exec(s, run));
  }

  /** ... and no thread gets past a check: ensureClients and the release getter stay outside, and
      a connection that was being dialled is to be closed. */
  lemma ChecksRefuse(s: System, t: Thread)
    requires Reached(s) && s.ended
    ensures Step(s, EnsureCheck(t)) == s && Step(s, ReleaseCheck(t)) == s
    ensures PcOf(s, t).Dialled? && s.lock == None ==>
      PcOf(Step(s, DialCheck(t)), t) == Closing({PcOf(s, t).conn}, {})
  {
    ReachedInv(s);
  }

  /** No leak: when every thread has finished what it owed, every connection ever dialled and
      every pool ever created has been closed. */
  lemma NothingLeaks(s: System, run: seq<Action>)
    requires Reached(s) && s.ended
    requires forall t :: t in Exec(s, run).threads ==> Exec(s, run).threads[t] == Outside
    ensures Exec(s, run).openConns == {} && Exec(s, run).openPools == {}
  {
    var v := Exec(s, run);
    NothingComesBack(s, run);
    ReachedExec(s, run);
    ReachedInv(v);
    forall c ensures c !in v.openConns {}
    forall p ensures p !in v.openPools {}
  }

  /** The step a thread takes when nothing stands in its way. */
  ghost function NextOf(s: System, t: Thread): Action {
    match PcOf(s, t)
    case Ending => EndLifetime(t)
    case EnsurePassed => EnsureCmd(t, true)
    case EnsureCmdDone => EnsureSub(t, true)
    case ReleasePassed => ReleaseInstall(t, true)
    case Dialled(_) => DialCheck(t)
    case DialPassed(_) => DialRegister(t)
    case Closing(conns, pools) =>
      if conns != {} then var c :| c in conns; CloseConn(t, c)
      else if pools != {} then var p :| p in pools; ClosePool(t, p)
      else Done(t)
    case Outside => Done(t)
  }

  lemma {:induction false} MoverMoves(s: System, t: Thread)
    requires PcOf(s, t) != Outside && (s.lock == None || Installs(PcOf(s, t)))
    ensures PcOf(Step(s, NextOf(s, t)), t) != PcOf(s, t)
  {
  }

  /** No deadlock: while some thread has work left, that thread or the one holding the lock can
      take its next step, so the closings above do get done. */
  lemma {:induction false} SomeoneCanMove(s: System, t: Thread)
    requires Reached(s) && PcOf(s, t) != Outside
    ensures Step(s, NextOf(s, t)) != s || (s.lock.Some? && Step(s, NextOf(s, s.lock.value)) != s)
  {
    ReachedInv(s);
    MoverMoves(s, if s.lock.Some? then s.lock.value else t);
  }

  /** How many steps a thread still has to take once a lifetime has ended. */
  ghost function Work(pc: Pc): nat {
    match pc
    case Ending => 2
    case Dialled(_) => 3
    case Closing(conns, pools) => 1 + |conns| + |pools|
    case _ => 0
  }

  lemma {:induction false} EndedIsUnlocked(s: System)
    requires Reached(s) && s.ended
    ensures s.lock == None && forall t :: t in s.threads ==> !Installs(s.threads[t])
  {
    ReachedInv(s);
  }

  lemma {:induction false} ClosingShrinks(s: System, t: Thread)
    requires s.lock == None && PcOf(s, t).Closing?
    ensures var v := Step(s, NextOf(s, t));
      v.threads == s.threads[t := PcOf(v, t)] && Work(PcOf(v, t)) < Work(PcOf(s, t))
  {
    var conns, pools := PcOf(s, t).conns, PcOf(s, t).pools;
    if conns != {} {
      assert |conns - {NextOf(s, t).conn}| == |conns| - 1;
    } else if pools != {} {
      assert |pools - {NextOf(s, t).pool}| == |pools| - 1;
    }
  }

  lemma {:induction false} WorkShrinks(s: System, t: Thread)
    requires s.fenced && s.lock == None && PcOf(s, t) != Outside && !Installs(PcOf(s, t))
    requires PcOf(s, t) == Ending ==> s.cmd == s.sub == s.release == None && s.connections == {}
    ensures var v := Step(s, NextOf(s, t));
      v.threads == s.threads[t := PcOf(v, t)] && Work(PcOf(v, t)) < Work(PcOf(s, t))
  {
    if PcOf(s, t).Closing? {
      ClosingShrinks(s, t);
    } else if PcOf(s, t) == Ending {
      assert NextOf(s, t) == EndLifetime(t);
      assert PcOf(Step(s, EndLifetime(t)), t) == Closing({}, {});
    }
  }

  lemma {:induction false} NextStep(s: System, t: Thread)
    requires Reached(s) && s.ended && PcOf(s, t) != Outside
    ensures var v := Step(s, NextOf(s, t));
      Reached(v) && v.ended && v.threads == s.threads[t := PcOf(v, t)] && Work(PcOf(v, t)) < Work(PcOf(s, t))
  {
    ReachedInv(s);
    EndedIsUnlocked(s);
    WorkShrinks(s, t);
    ReachedExec(s, [NextOf(s, t)]);
    assert Exec(s, [NextOf(s, t)][..0]) == s;
    EndedStaysEnded(s, [NextOf(s, t)]);
  }

  /** One thread, left to itself, finishes what it owes. */
  lemma {:induction false} ThreadFinishes(s: System, t: Thread) returns (run: seq<Action>)
    requires Reached(s) && s.ended && t in s.threads
    ensures Exec(s, run).threads == s.threads[t := Outside] && Reached(Exec(s, run)) && Exec(s, run).ended
    decreases Work(PcOf(s, t))
  {
    if PcOf(s, t) == Outside {
      assert s.threads[t := Outside] == s.threads;
      return [];
    }
    var a := NextOf(s, t);
    NextStep(s, t);
    var rest := ThreadFinishes(Step(s, a), t);
    run := [a] + rest;
    ExecConcat(s, [a], rest);
    assert Exec(s, [a][..0]) == s && Exec(s, [a]) == Step(s, a);
  }

  /** From every state after the end of a lifetime the threads can finish, and then nothing is
      open any more. */
  lemma {:induction false} EverythingCanBeClosed(s: System, todo: set<Thread>) returns (run: seq<Action>)
    requires Reached(s) && s.ended
    requires forall t :: t in s.threads && s.threads[t] != Outside ==> t in todo
    ensures Exec(s, run).openConns == {} && Exec(s, run).openPools == {}
    decreases |todo|
  {
    if t :| t in todo && t in s.threads {
      var first := ThreadFinishes(s, t);
      var rest := EverythingCanBeClosed(Exec(s, first), todo - {t});
      run := first + rest;
      ExecConcat(s, first, rest);
    } else {
      run := [];
      NothingLeaks(s, []);
    }
  }

  // ---------------------------------------------------------------- what the methods do while the flag is down

  /** After the first step of a critical section others run, which does not concern this thread. */
  lemma OthersMeanwhile(s: System, first: Action, others: seq<Action>)
    requires LockHeld(s) && Step(s, first).lock == Some(first.t) && forall a :: a in others ==> a.t != first.t
    ensures var v, w := Step(s, first), Exec(Step(s, first), others);
      LockHeld(w) && w.lock == Some(first.t) && PcOf(w, first.t) == PcOf(v, first.t)
      && w.cmd == v.cmd && w.sub == v.sub && w.release == v.release && w.connections == v.connections
  {
    StepKeepsLock(s, first);
    CriticalSectionIsPrivate(Step(s, first), others, first.t);
  }

  /** With the lock free and the flag down, a dialled connection is registered and stays open, whatever
      others do before it is; if they do nothing, nothing else changes. */
  lemma DialRegisters(s: System, t: Thread, conn: Conn, others: seq<Action>)
    requires LockHeld(s) && s.lock == None && !s.fenced && PcOf(s, t) == Dialled(conn)
    requires forall a :: a in others ==> a.t != t
    ensures var v := Step(Exec(Step(s, DialCheck(t)), others), DialRegister(t));
      && v.connections == s.connections + {conn}
      && v.cmd == s.cmd && v.sub == s.sub && v.release == s.release && v.lock == None && PcOf(v, t) == Outside
      && (others == [] ==> v == s.(connections := s.connections + {conn}, threads := s.threads[t := Outside]))
  {
    OthersMeanwhile(s, DialCheck(t), others);
    var checked := s.threads[t := DialPassed(conn)];
    assert checked[t := Outside] == s.threads[t := Outside];
  }

  /** With the lock free and the flag down, ensureClients leaves a command and a subscription pool, each the
      one that was there if there was one, and otherwise a new open one. */
  lemma EnsureInstalls(s: System, t: Thread, others: seq<Action>, more: seq<Action>)
    requires LockHeld(s) && s.lock == None && !s.fenced && PcOf(s, t) == Outside
    requires forall a :: a in others || a in more ==> a.t != t
    ensures var first := Step(Exec(Step(s, EnsureCheck(t)), others), EnsureCmd(t, true));
      var v := Step(Exec(first, more), EnsureSub(t, true));
      && v.cmd.Some? && v.sub.Some? && v.release == s.release && v.connections == s.connections
      && (s.cmd.Some? ==> v.cmd == s.cmd) && (s.sub.Some? ==> v.sub == s.sub)
      && v.lock == None && PcOf(v, t) == Outside
  {
    OthersMeanwhile(s, EnsureCheck(t), others);
    var begun := Exec(Step(s, EnsureCheck(t)), others);
    OthersMeanwhile(begun, EnsureCmd(t, true), more);
  }

  /** Undisturbed it changes nothing else, and the pools it adds are new and open. */
  lemma EnsureAlone(s: System, t: Thread)
    requires s.lock == None && !s.fenced && PcOf(s, t) == Outside
    ensures var v := Step(Step(Step(s, EnsureCheck(t)), EnsureCmd(t, true)), EnsureSub(t, true));
      var withCmd := s.pools + if s.cmd.None? then 1 else 0;
      v == s.(cmd := Some(if s.cmd.None? then s.pools else s.cmd.value),
              sub := Some(if s.sub.None? then withCmd else s.sub.value),
              pools := withCmd + if s.sub.None? then 1 else 0,
              openPools := s.openPools + (if s.cmd.None? then {s.pools} else {})
                           + (if s.sub.None? then {withCmd} else {}),
              threads := s.threads[t := Outside])
  {
    var checked := s.(lock := Some(t), threads := s.threads[t := EnsurePassed]);
    assert Step(s, EnsureCheck(t)) == checked;
    var half := Step(checked, EnsureCmd(t, true));
    assert half == checked.(cmd := half.cmd, pools := half.pools, openPools := half.openPools,
                            threads := checked.threads[t := EnsureCmdDone]);
    assert s.threads[t := EnsurePassed][t := EnsureCmdDone][t := Outside] == s.threads[t := Outside];
  }

  /** The same for the release getter and its pool. */
  lemma ReleaseInstalls(s: System, t: Thread, others: seq<Action>)
    requires LockHeld(s) && s.lock == None && !s.fenced && PcOf(s, t) == Outside
    requires forall a :: a in others ==> a.t != t
    ensures var v := Step(Exec(Step(s, ReleaseCheck(t)), others), ReleaseInstall(t, true));
      && v.release.Some? && (s.release.Some? ==> v.release == s.release)
      && v.cmd == s.cmd && v.sub == s.sub && v.connections == s.connections
      && v.lock == None && PcOf(v, t) == Outside
      && (others == [] ==>
            && v.release == Some(if s.release.None? then s.pools else s.release.value)
            && v.openPools == s.openPools + (if s.release.None? then {s.pools} else {})
            && v.openConns == s.openConns && v.threads == s.threads[t := Outside])
  {
    OthersMeanwhile(s, ReleaseCheck(t), others);
    if others == [] {
      assert s.threads[t := ReleasePassed][t := Outside] == s.threads[t := Outside];
    }
  }

  /** When the first pool cannot be built the caller leaves the lock, and nothing has changed. */
  lemma FailuresLeaveTheLock(s: System, t: Thread)
    requires LockHeld(s) && s.lock == None && !s.fenced && PcOf(s, t) == Outside
    ensures var v := Step(Step(s, EnsureCheck(t)), EnsureCmd(t, false));
      s.cmd.None? ==> v == s.(threads := s.threads[t := Outside])
    ensures var v := Step(Step(s, ReleaseCheck(t)), ReleaseInstall(t, false));
      v == s.(threads := s.threads[t := Outside])
  {
    assert s.threads[t := EnsurePassed][t := Outside] == s.threads[t := Outside];
    assert s.threads[t := ReleasePassed][t := Outside] == s.threads[t := Outside];
  }

  /** When the second cannot be built the first stays. */
  lemma HalfEnsured(s: System, t: Thread)
    requires PcOf(s, t) == EnsureCmdDone
    ensures Step(s, EnsureSub(t, false)) == s.(lock := None, threads := s.threads[t := Outside])
  {
  }

  /** What detaching takes, and from whom: the end of a lifetime and a switch of nodes take all pools and
      connections, closing the bootstrap pools leaves the release pool, and promotion takes the command
      pool; whoever takes them owes their closing, and nothing is closed yet. */
  lemma DetachedIsOwed(s: System, t: Thread)
    requires s.lock == None
    ensures PcOf(s, t) == Ending || PcOf(s, t) == Outside ==>
      var v := Step(s, if PcOf(s, t) == Ending then EndLifetime(t) else Failover(t));
      && v == s.(ended := s.ended || PcOf(s, t) == Ending, cmd := None, sub := None, release := None,
                 connections := {}, threads := s.threads[t := PcOf(v, t)])
      && Owes(v, t, s.connections) && forall p :: p in PcOf(v, t).pools <==> Some(p) in [s.cmd, s.sub, s.release]
    ensures PcOf(s, t) == Outside ==>
      var v := Step(s, CloseBootstrap(t));
      && v == s.(cmd := None, sub := None, connections := {}, threads := s.threads[t := PcOf(v, t)])
      && Owes(v, t, s.connections) && forall p :: p in PcOf(v, t).pools <==> Some(p) in [s.cmd, s.sub]
    ensures PcOf(s, t) == Outside ==>
      var v := Step(s, Promote(t));
      && v == s.(cmd := None, threads := s.threads[t := PcOf(v, t)])
      && Owes(v, t, {}) && forall p :: p in PcOf(v, t).pools <==> Some(p) == s.cmd
  {
  }

  predicate Owes(s: System, t: Thread, conns: set<Conn>) {
    PcOf(s, t).Closing? && PcOf(s, t).conns == conns
  }

  /** Raising the fence, dialling and closing: what they do to a thread that can take the step. */
  lemma FenceAndClosings(s: System, t: Thread, conn: Conn, pool: Pool)
    ensures PcOf(s, t) == Outside ==>
      && Step(s, RaiseFence(t)) == s.(fenced := true, threads := s.threads[t := Ending])
      && Step(s, Dial(t)) == s.(dialled := s.dialled + 1, openConns := s.openConns + {s.dialled},
                                threads := s.threads[t := Dialled(s.dialled)])
    ensures PcOf(s, t) == Dialled(conn) && s.lock == None && s.fenced ==>
      Step(s, DialCheck(t)) == s.(threads := s.threads[t := Closing({conn}, {})])
    ensures PcOf(s, t) == Outside && s.lock == None && conn in s.connections ==>
      Step(s, ConnClose(t, conn)) == s.(connections := s.connections - {conn},
                                        threads := s.threads[t := Closing({conn}, {})])
    ensures PcOf(s, t).Closing? ==>
      var conns, pools := PcOf(s, t).conns, PcOf(s, t).pools;
      && (conn in conns && s.lock == None ==>
            Step(s, CloseConn(t, conn)) == s.(connections := s.connections - {conn}, openConns := s.openConns - {conn},
                                              threads := s.threads[t := Closing(conns - {conn}, pools)]))
      && (pool in pools ==>
            Step(s, ClosePool(t, pool)) == s.(openPools := s.openPools - {pool},
                                              threads := s.threads[t := Closing(conns, pools - {pool})]))
  {
  }
}
