/** The hot-reload protocol of the chat server: requests on the event loop against reload threads.
    Each event is one atomic step of the code. Between a request's look at the flag and its increment
    there is no `await`, so no other request runs, but reload threads may. */
module RagReload {
  import opened Options

  type Request = nat
  type Thread = nat

  /** The event loop: between requests, or past the flag check of one request and before its increment. */
  datatype Loop = Idle | Admitted(request: Request)

  /** How a reload's wait ended: it saw a zero counter (was a request admitted but not yet counted at
      that moment?), or it timed out or was switched off. */
  datatype Drain = SawZero(pending: bool) | Forced

  datatype Phase =
    | Outside | Locked | Draining | Rebuilding(drain: Drain) | Installed(drain: Drain) | Lowered
  {
    predicate Raised() {
      Draining? || Rebuilding? || Installed?
    }
  }

  datatype State = State(reloading: bool, active: int, tracked: set<Request>, loop: Loop,
                         holder: Option<Thread>, phases: seq<Phase>, service: Option<nat>)
  {
    function Pending(): nat {
      if loop.Admitted? then 1 else 0
    }
  }

  datatype Event =
    | Admit(request: Request)
    | Refuse(request: Request)
    | Enter
    | Leave(request: Request)
    | Lock(thread: Thread)
    | RaiseFlag(thread: Thread)
    | SeeZero(thread: Thread)
    | GiveUp(thread: Thread)
    | Install(thread: Thread, built: Option<nat>)
    | LowerFlag(thread: Thread)
    | Unlock(thread: Thread)
  {
    predicate OfThread() {
      !Admit? && !Refuse? && !Enter? && !Leave?
    }
  }

  predicate Enabled(s: State, e: Event) {
    match e
    case Admit(r) => s.loop.Idle? && !s.reloading && r !in s.tracked
    case Refuse(r) => s.loop.Idle? && s.reloading
    case Enter => s.loop.Admitted?
    case Leave(r) => s.loop.Idle? && r in s.tracked
    case Lock(t) => s.holder.None? && t < |s.phases| && s.phases[t].Outside?
    case RaiseFlag(t) => t < |s.phases| && s.phases[t].Locked?
    case SeeZero(t) => t < |s.phases| && s.phases[t].Draining? && s.active == 0
    case GiveUp(t) => t < |s.phases| && s.phases[t].Draining?
    case Install(t, _) => t < |s.phases| && s.phases[t].Rebuilding?
    case LowerFlag(t) => t < |s.phases| && s.phases[t].Raised()
    case Unlock(t) => t < |s.phases| && s.phases[t].Lowered?
  }

  /** One step. A failed build installs no service; `LowerFlag` is also where a reload that raised an
      exception leaves, from any phase with the flag up. */
  function Step(s: State, e: Event): State
    requires Enabled(s, e)
  {
    match e
    case Admit(r) => s.(loop := Admitted(r))
    case Refuse(r) => s
    case Enter => s.(loop := Idle, active := s.active + 1, tracked := s.tracked + {s.loop.request})
    case Leave(r) => s.(active := s.active - 1, tracked := s.tracked - {r})
    case Lock(t) => s.(holder := Some(t), phases := s.phases[t := Locked])
    case RaiseFlag(t) => s.(reloading := true, phases := s.phases[t := Draining])
    case SeeZero(t) => s.(phases := s.phases[t := Rebuilding(SawZero(s.loop.Admitted?))])
    case GiveUp(t) => s.(phases := s.phases[t := Rebuilding(Forced)])
    case Install(t, built) => s.(service := built, phases := s.phases[t := Installed(s.phases[t].drain)])
    case LowerFlag(t) => s.(reloading := false, phases := s.phases[t := Lowered])
    case Unlock(t) => s.(holder := None, phases := s.phases[t := Outside])
  }

  function Start(threads: nat, service: Option<nat>): State {
    State(false, 0, {}, Idle, None, seq(threads, _ => Outside), service)
  }

  ghost predicate Runs(s: State, es: seq<Event>)
    decreases |es|, 0
  {
    es == [] || (Runs(s, es[..|es| - 1]) && Enabled(After(s, es[..|es| - 1]), es[|es| - 1]))
  }

  ghost function After(s: State, es: seq<Event>): State
    requires Runs(s, es)
    decreases |es|, 1
  {
    if es == [] then s else Step(After(s, es[..|es| - 1]), es[|es| - 1])
  }

  // ---------- The invariant ----------

  ghost predicate Invariant(s: State) {
    && s.active == |s.tracked|
    && (s.loop.Admitted? ==> s.loop.request !in s.tracked)
    && (s.holder.Some? ==> s.holder.value < |s.phases|)
    && (forall t :: 0 <= t < |s.phases| ==> PhaseOk(s, t))
    && (s.reloading ==> s.holder.Some?)
  }

  /** Only the holder of the lock is inside a reload; the flag is up exactly while the holder raised it;
      after a zero was seen, only the request then between check and increment can still be running. */
  ghost predicate PhaseOk(s: State, t: Thread)
    requires t < |s.phases|
  {
    var p := s.phases[t];
    && (!p.Outside? <==> s.holder == Some(t))
    && (s.holder == Some(t) ==> (s.reloading <==> p.Raised()))
    && ((p.Rebuilding? || p.Installed?) && p.drain.SawZero? ==>
          |s.tracked| + s.Pending() <= if p.drain.pending then 1 else 0)
  }

  lemma StepKeeps(s: State, e: Event)
    requires Invariant(s) && Enabled(s, e)
    ensures Invariant(Step(s, e))
  {
    var s' := Step(s, e);
    if e.OfThread() {
      assert PhaseOk(s, e.thread);
    }
    forall t: nat | t < |s'.phases| ensures PhaseOk(s', t) {
      PhaseKept(s, e, t);
    }
  }

  lemma PhaseKept(s: State, e: Event, t: Thread)
    requires Invariant(s) && Enabled(s, e) && t < |s.phases|
    ensures PhaseOk(Step(s, e), t)
  {
    assert PhaseOk(s, t);
    if e.OfThread() {
      assert PhaseOk(s, e.thread);
    }
    if e.SeeZero? {
      assert s.tracked == {};
    }
  }

  /** Every interleaving, from a server without requests: the counter is the number of requests between
      increment and decrement, and a raised flag implies a held reload lock. */
  lemma {:induction false} EveryRunKeeps(threads: nat, service: Option<nat>, es: seq<Event>)
    requires Runs(Start(threads, service), es)
    ensures Invariant(After(Start(threads, service), es))
  {
    if es == [] {
      var s := Start(threads, service);
      assert forall t :: 0 <= t < |s.phases| ==> PhaseOk(s, t);
    } else {
      EveryRunKeeps(threads, service, es[..|es| - 1]);
      StepKeeps(After(Start(threads, service), es[..|es| - 1]), es[|es| - 1]);
    }
  }

  lemma {:induction false} RunKeeps(s: State, es: seq<Event>)
    requires Invariant(s) && Runs(s, es)
    ensures Invariant(After(s, es))
  {
    if es != [] {
      RunKeeps(s, es[..|es| - 1]);
      StepKeeps(After(s, es[..|es| - 1]), es[|es| - 1]);
    }
  }

  /** Reloads never overlap. */
  lemma ReloadsExclude(s: State, t: Thread, u: Thread)
    requires Invariant(s) && t < |s.phases| && u < |s.phases|
    requires !s.phases[t].Outside? && !s.phases[u].Outside?
    ensures t == u && s.holder == Some(t)
  {
    assert PhaseOk(s, t) && PhaseOk(s, u);
  }

  // ---------- What happens while the flag is up ----------

  function Count(es: seq<Event>, p: Event -> bool): nat {
    if es == [] then 0 else Count(es[..|es| - 1], p) + (if p(es[|es| - 1]) then 1 else 0)
  }

  predicate IsEnter(e: Event) { e.Enter? }

  predicate IsLeave(e: Event) { e.Leave? }

  predicate IsRaise(e: Event) { e.RaiseFlag? }

  predicate IsLower(e: Event) { e.LowerFlag? }

  /** Over whole runs: increments less decrements are the active requests, raises less lowers the flag. */
  lemma {:induction false} RunAccounts(s: State, es: seq<Event>)
    requires Invariant(s) && Runs(s, es)
    ensures var s' := After(s, es);
      && s'.active == s.active + Count(es, IsEnter) - Count(es, IsLeave)
      && Flag(s') == Flag(s) + Count(es, IsRaise) - Count(es, IsLower)
  {
    if es != [] {
      var init := es[..|es| - 1];
      RunAccounts(s, init);
      RunKeeps(s, init);
      StepAccounts(After(s, init), es[|es| - 1]);
    }
  }

  lemma StepAccounts(s: State, e: Event)
    requires Invariant(s) && Enabled(s, e)
    ensures Step(s, e).active == s.active + (if IsEnter(e) then 1 else 0) - (if IsLeave(e) then 1 else 0)
    ensures Flag(Step(s, e)) == Flag(s) + (if IsRaise(e) then 1 else 0) - (if IsLower(e) then 1 else 0)
  {
    if e.OfThread() {
      assert PhaseOk(s, e.thread);
    }
  }

  /** The service is the one installed last. */
  lemma {:induction false} ServiceIsLast(s: State, es: seq<Event>, i: nat)
    requires Runs(s, es) && i < |es| && LastInstall(es, i)
    ensures After(s, es).service == es[i].built
  {
    var m := |es| - 1;
    if i < m {
      var init := es[..m];
      assert init[i] == es[i] && forall j :: i < j < m ==> init[j] == es[j];
      ServiceIsLast(s, init, i);
      ServiceStep(After(s, init), es[m]);
    }
  }

  /** Without any installation it stays. */
  lemma {:induction false} ServiceStays(s: State, es: seq<Event>)
    requires Runs(s, es) && forall i :: 0 <= i < |es| ==> !es[i].Install?
    ensures After(s, es).service == s.service
  {
    if es != [] {
      ServiceStays(s, es[..|es| - 1]);
      ServiceStep(After(s, es[..|es| - 1]), es[|es| - 1]);
    }
  }

  lemma ServiceStep(s: State, e: Event)
    requires Enabled(s, e) && !e.Install?
    ensures Step(s, e).service == s.service
  {
  }

  predicate LastInstall(es: seq<Event>, i: nat)
    requires i < |es|
  {
    es[i].Install? && forall j :: i < j < |es| ==> !es[j].Install?
  }

  function Flag(s: State): nat {
    if s.reloading then 1 else 0
  }

  ghost predicate FlagStays(es: seq<Event>) {
    forall i :: 0 <= i < |es| ==> !es[i].LowerFlag?
  }

  /** While a raised flag is not lowered no request is admitted: of the requests past the check at the
      beginning each is counted at most once more, and every departure is a net loss. */
  lemma {:induction false} WindowDrains(s: State, es: seq<Event>)
    requires Invariant(s) && s.reloading && Runs(s, es) && FlagStays(es)
    ensures var s' := After(s, es);
      && s'.reloading && s'.holder == s.holder
      && Count(es, IsEnter) + s'.Pending() == s.Pending()
      && s'.active + s'.Pending() + Count(es, IsLeave) == s.active + s.Pending()
  {
    if es != [] {
      var init := es[..|es| - 1];
      WindowDrains(s, init);
      RunKeeps(s, init);
      var m, e := After(s, init), es[|es| - 1];
      if e.OfThread() {
        assert PhaseOk(m, e.thread);
      }
    }
  }

  /** After a successful wait at most one request becomes active before the flag is lowered, and none
      unless one stood between check and increment when the zero was read. */
  lemma AfterSeeingZero(s: State, t: Thread, es: seq<Event>)
    requires Invariant(s) && Enabled(s, SeeZero(t))
    requires Runs(Step(s, SeeZero(t)), es) && FlagStays(es)
    ensures Count(es, IsEnter) <= s.Pending() <= 1
    ensures After(Step(s, SeeZero(t)), es).active <= s.Pending()
  {
    StepKeeps(s, SeeZero(t));
    assert PhaseOk(s, t);
    WindowDrains(Step(s, SeeZero(t)), es);
    RunKeeps(Step(s, SeeZero(t)), es);
  }

  /** Some continuation installs a new service under a running request, with the flag still up. */
  ghost predicate MayOverlap(s: State, t: Thread) {
    exists es :: Runs(s, es) && FlagStays(es) && Overlaps(After(s, es), t)
  }

  ghost predicate Overlaps(s: State, t: Thread) {
    Enabled(s, Install(t, None)) && s.tracked != {}
  }

  /** The wait's promise and its exact limit: once the zero is seen, the service can be replaced under a
      running request if and only if a request stood between check and increment at that moment. */
  lemma OverlapIffPending(s: State, t: Thread)
    requires Invariant(s) && Enabled(s, SeeZero(t))
    ensures MayOverlap(Step(s, SeeZero(t)), t) <==> s.loop.Admitted?
  {
    var s1 := Step(s, SeeZero(t));
    if s.loop.Admitted? {
      assert [Enter][..0] == [];
      assert Runs(s1, []) && After(s1, []) == s1;
      assert Runs(s1, [Enter]) && FlagStays([Enter]);
      assert s.loop.request in After(s1, [Enter]).tracked;
      assert Overlaps(After(s1, [Enter]), t);
    } else {
      forall es | Runs(s1, es) && FlagStays(es) ensures !Overlaps(After(s1, es), t) {
        AfterSeeingZero(s, t, es);
        StepKeeps(s, SeeZero(t));
        RunKeeps(s1, es);
      }
    }
  }

  /** Whenever a service is installed under running requests, the wait was cut short, or exactly one
      request runs and it slipped in between check and increment. */
  lemma InstallUnderRequest(s: State, t: Thread, built: Option<nat>)
    requires Invariant(s) && Enabled(s, Install(t, built)) && s.tracked != {}
    ensures s.phases[t].drain.Forced? || (s.phases[t].drain.pending && s.active == 1)
  {
    assert PhaseOk(s, t);
    if s.phases[t].drain.SawZero? {
      var r :| r in s.tracked;
      assert |s.tracked| == |s.tracked - {r}| + 1;
    }
  }

  /** The race is real: check, reload up to the zero, increment, and the service is replaced under the request. */
  lemma RaceExample()
    ensures exists es :: Runs(Start(1, Some(0)), es) && Overlaps(After(Start(1, Some(0)), es), 0)
  {
    var s := Start(1, Some(0));
    var e1 := [Admit(7)];
    var e2 := e1 + [Lock(0)];
    var e3 := e2 + [RaiseFlag(0)];
    var e4 := e3 + [SeeZero(0)];
    var e5 := e4 + [Enter];
    assert [] + [Admit(7)] == e1;
    RunsSnoc(s, [], Admit(7));
    RunsSnoc(s, e1, Lock(0));
    RunsSnoc(s, e2, RaiseFlag(0));
    RunsSnoc(s, e3, SeeZero(0));
    RunsSnoc(s, e4, Enter);
    assert 7 in After(s, e5).tracked;
    assert Overlaps(After(s, e5), 0);
  }

  lemma RunsSnoc(s: State, es: seq<Event>, e: Event)
    requires Runs(s, es) && Enabled(After(s, es), e)
    ensures Runs(s, es + [e]) && After(s, es + [e]) == Step(After(s, es), e)
  {
    assert (es + [e])[..|es + [e]| - 1] == es;
  }

  // ---------- The server's variables and the atomic blocks that change them ----------

  /** The real fields are the module's globals; the ghost ones say where the event loop and the threads stand. */
  class Server {
    var reloading: bool
    var active: int
    var service: Option<nat>
    var locked: bool
    ghost var tracked: set<Request>
    ghost var loop: Loop
    ghost var holder: Option<Thread>
    ghost var phases: seq<Phase>

    ghost function Abs(): State
      reads this
    {
      State(reloading, active, tracked, loop, holder, phases, service)
    }

    ghost predicate Valid()
      reads this
    {
      Invariant(Abs()) && (locked <==> holder.Some?)
    }

    constructor (ghost threads: nat, built: Option<nat>)
      ensures Valid() && Abs() == Start(threads, built)
    {
      reloading, active, service, locked := false, 0, built, false;
      tracked, loop, holder, phases := {}, Idle, None, seq(threads, _ => Outside);
      new;
      EveryRunKeeps(threads, built, []);
    }

    /** The middleware up to its increment. */
    method Check(ghost r: Request) returns (admitted: bool)
      requires Valid() && loop.Idle? && r !in tracked
      modifies this
      ensures admitted <==> !old(reloading)
      ensures Valid() && Abs() == Step(old(Abs()), if admitted then Admit(r) else Refuse(r))
    {
      admitted := !reloading;
      StepKeeps(Abs(), if admitted then Admit(r) else Refuse(r));
      if admitted {
        loop := Admitted(r);
      }
    }

    method Increment()
      requires Valid() && loop.Admitted?
      modifies this
      ensures Valid() && Abs() == Step(old(Abs()), Enter)
    {
      StepKeeps(Abs(), Enter);
      active := active + 1;
      tracked, loop := tracked + {loop.request}, Idle;
    }

    method Decrement(ghost r: Request)
      requires Valid() && loop.Idle? && r in tracked
      modifies this
      ensures Valid() && Abs() == Step(old(Abs()), Leave(r))
    {
      StepKeeps(Abs(), Leave(r));
      active := active - 1;
      tracked := tracked - {r};
    }

    /** Entering the `with` block, once the lock is free. */
    method Acquire(ghost t: Thread)
      requires Valid() && !locked && t < |phases| && phases[t].Outside?
      modifies this
      ensures Valid() && locked && Abs() == Step(old(Abs()), Lock(t))
    {
      StepKeeps(Abs(), Lock(t));
      locked := true;
      holder, phases := Some(t), phases[t := Locked];
    }

    method Raise(ghost t: Thread)
      requires Valid() && Enabled(Abs(), RaiseFlag(t))
      modifies this
      ensures Valid() && Abs() == Step(old(Abs()), RaiseFlag(t))
    {
      StepKeeps(Abs(), RaiseFlag(t));
      reloading := true;
      phases := phases[t := Draining];
    }

    /** One poll of the wait loop. */
    method Poll(ghost t: Thread) returns (idle: bool)
      requires Valid() && Enabled(Abs(), GiveUp(t))
      modifies this
      ensures idle <==> old(tracked) == {}
      ensures Valid() && Abs() == if idle then Step(old(Abs()), SeeZero(t)) else old(Abs())
    {
      idle := active == 0;
      assert idle <==> tracked == {};
      if idle {
        StepKeeps(Abs(), SeeZero(t));
        phases := phases[t := Rebuilding(SawZero(loop.Admitted?))];
      }
    }

    /** The wait reaches its deadline or is switched off: only the thread's place changes. */
    ghost method TimeOut(t: Thread)
      requires Valid() && Enabled(Abs(), GiveUp(t))
      modifies this
      ensures Valid() && Abs() == Step(old(Abs()), GiveUp(t))
    {
      StepKeeps(Abs(), GiveUp(t));
      phases := phases[t := Rebuilding(Forced)];
    }

    method Replace(ghost t: Thread, built: Option<nat>)
      requires Valid() && Enabled(Abs(), Install(t, built))
      modifies this
      ensures Valid() && Abs() == Step(old(Abs()), Install(t, built))
    {
      StepKeeps(Abs(), Install(t, built));
      service := built;
      phases := phases[t := Installed(phases[t].drain)];
    }

    method Lower(ghost t: Thread)
      requires Valid() && Enabled(Abs(), LowerFlag(t))
      modifies this
      ensures Valid() && Abs() == Step(old(Abs()), LowerFlag(t))
    {
      StepKeeps(Abs(), LowerFlag(t));
      reloading := false;
      phases := phases[t := Lowered];
    }

    /** Leaving the `with` block. */
    method Release(ghost t: Thread)
      requires Valid() && Enabled(Abs(), Unlock(t))
      modifies this
      ensures Valid() && !locked && Abs() == Step(old(Abs()), Unlock(t))
    {
      StepKeeps(Abs(), Unlock(t));
      locked := false;
      holder, phases := None, phases[t := Outside];
    }
  }
}
