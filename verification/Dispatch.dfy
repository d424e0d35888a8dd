/** The producers and consumers of src/semtester.c on the ring of src/ctx.c:
    the current context executes its statements, or the alarm takes the
    processor from it. */
module Dispatch {
  import S = Semaphores
  import opened Scheduler
  import B = BoundedBuffer

  datatype Turn = Statement | Alarm

  /** The call that the next statement of context i is; statement 2 is none. */
  function CallOf(w: B.World, i: nat): Call<nat>
    requires i < |w.procs|
  {
    var p := w.procs[i];
    match p.pc
    case 0 => Downing(B.First(p.role))
    case 1 => Downing(B.MUTEX)
    case 2 => Yielding
    case 3 => Upping(B.MUTEX)
    case _ => Upping(B.Second(p.role))
  }

  /** The current context may take this turn: if it goes down on a semaphore
      without units, the search of yield finds another context. */
  predicate Able(k: Kernel<nat>, w: B.World, t: Turn) {
    && k.ring != [] && B.Ready(w, B.Act(k.ring[0]))
    && (t.Statement? ==> May(k, CallOf(w, k.ring[0])))
  }

  function Take(k: Kernel<nat>, w: B.World, t: Turn): (Kernel<nat>, B.World)
    requires Able(k, w, t)
  {
    var i := k.ring[0];
    if t.Alarm? then (Yield(k), w.(pool := Yield(k).pool))
    else if w.procs[i].pc == 2 then (k, B.Step(w, B.Act(i)))
    else
      var q := Do(k, CallOf(w, i));
      (q, B.Step(w, B.Act(i)).(pool := q.pool))
  }

  predicate Playable(k: Kernel<nat>, w: B.World, ts: seq<Turn>)
    decreases |ts|
  {
    ts != [] ==> Able(k, w, ts[0]) && Playable(Take(k, w, ts[0]).0, Take(k, w, ts[0]).1, ts[1..])
  }

  function Play(k: Kernel<nat>, w: B.World, ts: seq<Turn>): (Kernel<nat>, B.World)
    requires Playable(k, w, ts)
    decreases |ts|
  {
    if ts == [] then (k, w) else Play(Take(k, w, ts[0]).0, Take(k, w, ts[0]).1, ts[1..])
  }

  /** The ring holds the contexts of w, the current one running. */
  ghost predicate Joint(k: Kernel<nat>, w: B.World, roles: seq<B.Role>) {
    && KernelInv(k) && !k.first && k.pool == w.pool
    && B.WorldInv(w) && |w.procs| == |roles| && forall i: nat :: i < |roles| ==> w.procs[i].role == roles[i]
  }

  lemma CurrentReady(k: Kernel<nat>, w: B.World, roles: seq<B.Role>)
    requires Joint(k, w, roles)
    ensures k.ring != [] && B.Ready(w, B.Act(k.ring[0])) && w.procs[k.ring[0]].pc <= 4
  {
    hide S.Inv, B.Accounts;
    assert k.ring[0] in k.pool.states;
  }

  /** When the current context is about to block, another one can run. */
  lemma OtherCanRun(k: Kernel<nat>, w: B.World, roles: seq<B.Role>)
    requires Joint(k, w, roles) && B.Producer in roles && B.Consumer in roles
    requires k.ring != [] && B.Ready(w, B.Act(k.ring[0])) && !S.Runnable(B.Step(w, B.Act(k.ring[0])).pool, k.ring[0])
    requires w.procs[k.ring[0]].pc < 2
    ensures OtherRunnable(k.pool, k.ring[1..])
  {
    hide S.Inv, B.Accounts, S.NoRepeat;
    var i := k.ring[0];
    var v := B.Step(w, B.Act(i));
    B.StepInv(w, B.Act(i));
    B.NeverStuck(roles, v);
    var c :| c in v.pool.states && v.pool.states[c] != S.Blocked;
    assert c != i && c in k.pool.states && k.pool.states[c] == v.pool.states[c];
    var j: nat :| j < |k.ring| && k.ring[j] == c;
    assert k.ring[1..][j - 1] == c;
  }

  /** In every state that a ring over producers and consumers gets to, the
      current context may make its next call. */
  lemma AlwaysAble(k: Kernel<nat>, w: B.World, roles: seq<B.Role>, t: Turn)
    requires Joint(k, w, roles) && B.Producer in roles && B.Consumer in roles
    ensures Able(k, w, t)
  {
    CurrentReady(k, w, roles);
    hide KernelInv, B.Accounts, OtherRunnable;
    assert |w.pool.sems| == 3;
    var i := k.ring[0];
    if w.procs[i].pc < 2 && !S.Runnable(B.Step(w, B.Act(i)).pool, i) { OtherCanRun(k, w, roles); }
  }

  /** The statements of a list of turns, and of a run. */
  function Statements(ts: seq<Turn>): nat {
    if ts == [] then 0 else (if ts[0].Statement? then 1 else 0) + Statements(ts[1..])
  }

  function Executed(ms: seq<B.Move>): nat {
    if ms == [] then 0 else (if ms[0].Act? then 1 else 0) + Executed(ms[1..])
  }

  lemma {:induction false} ExecutedConcat(ms: seq<B.Move>, ns: seq<B.Move>)
    ensures Executed(ms + ns) == Executed(ms) + Executed(ns)
  {
    if ms == [] {
      assert ms + ns == ns;
    } else {
      assert (ms + ns)[1..] == ms[1..] + ns;
      ExecutedConcat(ms[1..], ns);
    }
  }

  /** A new current context begins, or goes on. */
  lemma ThenBegins(w: B.World, es: seq<S.Event<nat>>) returns (ms: seq<B.Move>)
    requires |w.pool.sems| == 3 && S.Legal(w.pool, es) && forall c <- w.pool.states :: c < |w.procs|
    requires es == [] || (|es| == 1 && es[0].Started?)
    ensures B.Legal(w, ms) && B.Run(w, ms) == w.(pool := S.Run(w.pool, es)) && Executed(ms) == 0
  {
    if es == [] {
      ms := [];
    } else {
      assert es == [es[0]] && es[1..] == [];
      OneStep(w.pool, es[0]);
      ms := [B.Begin(es[0].ctx)];
      assert ms[1..] == [];
    }
  }

  lemma AlarmTurn(k: Kernel<nat>, w: B.World, roles: seq<B.Role>) returns (ms: seq<B.Move>)
    requires Joint(k, w, roles) && k.ring != []
    ensures KernelInv(Yield(k)) && !Yield(k).first
    ensures B.Legal(w, ms) && B.Run(w, ms) == w.(pool := Yield(k).pool) && Executed(ms) == 0
  {
    hide S.Inv, B.Accounts, S.NoRepeat, S.Legal, S.Run;
    YieldInv(k);
    ms := ThenBegins(w, Begins(k, k.ring[Target(k)]));
  }

  /** A call on a semaphore is that event, and then perhaps a beginning. */
  lemma CallEvents(k: Kernel<nat>, a: Call<nat>)
    requires KernelInv(k) && May(k, a) && (a.Downing? || a.Upping?)
    ensures var q, e := Do(k, a), if a.Downing? then S.TryDown(k.ring[0], a.sem) else S.DoUp(k.ring[0], a.sem);
      && KernelInv(q) && !q.first && S.Enabled(k.pool, e) && EventsOf(k, a) != []
      && var es := EventsOf(k, a)[1..];
         && (es == [] || (|es| == 1 && es[0].Started?))
         && S.Legal(S.Next(k.pool, e), es) && S.Run(S.Next(k.pool, e), es) == q.pool
  {
    hide KernelInv, Yield, Target;
    DoInv(k, a);
    if a.Downing? {
      YieldKeepsFirst(k.(pool := S.Down(k.pool, k.ring[0], a.sem)));
    } else {
      YieldKeepsFirst(k.(pool := S.Up(k.pool, a.sem)));
    }
    var es := EventsOf(k, a);
    assert es == [es[0]] + es[1..];
  }

  lemma YieldKeepsFirst(k: Kernel<nat>)
    requires !k.first
    ensures !Yield(k).first
  {}

  lemma StepEvent(w: B.World, i: nat)
    requires B.Ready(w, B.Act(i)) && w.procs[i].pc <= 4 && w.procs[i].pc != 2
    ensures var u, a := B.Step(w, B.Act(i)), CallOf(w, i);
      && (a.Downing? || a.Upping?) && a.sem < |w.pool.sems|
      && u.pool == if a.Downing? then S.Down(w.pool, i, a.sem) else S.Up(w.pool, a.sem)
  {}

  lemma CallTurn(k: Kernel<nat>, w: B.World, roles: seq<B.Role>) returns (ms: seq<B.Move>)
    requires Joint(k, w, roles) && Able(k, w, Statement) && w.procs[k.ring[0]].pc != 2
    ensures var (q, v) := Take(k, w, Statement);
      && KernelInv(q) && !q.first && v.pool == q.pool
      && B.Legal(w, ms) && B.Run(w, ms) == v && Executed(ms) == 1
  {
    hide KernelInv, B.WorldInv, B.Step, Do, May, CallOf, EventsOf, S.Legal, S.Run;
    CurrentReady(k, w, roles);
    var i := k.ring[0];
    var a, m := CallOf(w, i), B.Act(i);
    StepEvent(w, i);
    CallEvents(k, a);
    ShapeStep(w, m);
    var rest := ThenBegins(B.Step(w, m), EventsOf(k, a)[1..]);
    B.TwoMoves(w, m, rest);
    ms := [m] + rest;
    assert ms[1..] == rest;
  }

  lemma ShapeStep(w: B.World, m: B.Move)
    requires B.WorldInv(w) && B.Ready(w, m)
    ensures var u := B.Step(w, m); |u.pool.sems| == 3 && forall c <- u.pool.states :: c < |u.procs|
  {
    B.StepInv(w, m);
  }

  /** A turn is one or two steps of the interleaving. */
  lemma TurnSpec(k: Kernel<nat>, w: B.World, roles: seq<B.Role>, t: Turn) returns (ms: seq<B.Move>)
    requires Joint(k, w, roles) && Able(k, w, t)
    ensures var (q, v) := Take(k, w, t);
      Joint(q, v, roles) && B.Legal(w, ms) && B.Run(w, ms) == v && Executed(ms) == Statements([t])
  {
    hide KernelInv, B.WorldInv, Yield, Do;
    var i := k.ring[0];
    if t.Alarm? {
      ms := AlarmTurn(k, w, roles);
    } else if w.procs[i].pc == 2 {
      ms := [B.Act(i)];
      assert ms[1..] == [];
    } else {
      ms := CallTurn(k, w, roles);
    }
    B.RunInv(w, ms);
  }

  /** An alarm moves no context on, and gives the processor to the next one
      that is not blocked. */
  lemma AlarmDoes(k: Kernel<nat>, w: B.World, roles: seq<B.Role>)
    requires Joint(k, w, roles) && k.ring != [] && Able(k, w, Alarm)
    ensures var (q, v) := Take(k, w, Alarm);
      v.procs == w.procs && v.head == w.head && v.tail == w.tail && Passes(k.pool, k.ring, q.ring)
  {
    hide S.Inv, S.NoRepeat, B.Accounts, Passes;
    YieldPasses(k);
  }

  /** A statement takes the current context, and no other, one statement on, in
      its circle of five. It keeps the processor unless it has to wait or has
      released a semaphore that nobody waits for. */
  lemma StatementDoes(k: Kernel<nat>, w: B.World, roles: seq<B.Role>)
    requires Joint(k, w, roles) && k.ring != [] && Able(k, w, Statement)
    ensures var (q, v) := Take(k, w, Statement); var i, p := k.ring[0], w.procs[k.ring[0]];
      var u := B.Step(w, B.Act(i)).pool;
      && v.procs == w.procs[i := p.(pc := (p.pc + 1) % 5)]
      && v.head == w.head + (if p.pc == 2 && p.role == B.Producer then 1 else 0)
      && v.tail == w.tail + (if p.pc == 2 && p.role == B.Consumer then 1 else 0)
      && if (p.pc < 2 && !S.Runnable(u, i)) || (p.pc > 2 && u.states == w.pool.states)
         then Passes(u, k.ring, q.ring) else q.ring == k.ring
  {
    hide S.Inv, S.NoRepeat, B.Accounts, Passes, Do, KernelInv;
    CurrentReady(k, w, roles);
    var i, p := k.ring[0], w.procs[k.ring[0]];
    if p.pc != 2 {
      StepEvent(w, i);
      var a := CallOf(w, i);
      NextCurrent(k, a);
      if a.Downing? { DownRuns(k, a.sem); } else { UpWakes(k, a.sem); }
    }
  }

  /** The current context keeps running exactly when it gets a unit. */
  lemma DownRuns(k: Kernel<nat>, s: nat)
    requires KernelInv(k) && May(k, Downing(s))
    ensures S.Runnable(S.Down(k.pool, k.ring[0], s), k.ring[0]) <==> k.pool.sems[s].compteur > 0
  {
    hide S.Inv;
    assert k.ring[0] in k.pool.states;
  }

  /** An up changes the state of a context exactly when one waits. */
  lemma UpWakes(k: Kernel<nat>, s: nat)
    requires KernelInv(k) && May(k, Upping(s))
    ensures S.Up(k.pool, s).states == k.pool.states <==> k.pool.sems[s].blocked == []
  {
    var b := k.pool.sems[s].blocked;
    if b != [] { assert S.Waits(k.pool, b[0], s) && k.pool.states[b[0]] == S.Blocked; }
  }

  /** However the alarm strikes, with a producer and a consumer every search of
      yield ends, and the run is one of the interleavings, which are bounded,
      exclusive and never stuck. */
  lemma {:induction false} Scheduled(k: Kernel<nat>, w: B.World, roles: seq<B.Role>, ts: seq<Turn>)
    returns (ms: seq<B.Move>)
    requires Joint(k, w, roles) && B.Producer in roles && B.Consumer in roles
    ensures Playable(k, w, ts)
    ensures var (q, v) := Play(k, w, ts);
      Joint(q, v, roles) && B.Legal(w, ms) && B.Run(w, ms) == v && Executed(ms) == Statements(ts)
    decreases |ts|
  {
    hide Joint, Able, Take;
    if ts == [] {
      ms := [];
    } else {
      AlwaysAble(k, w, roles, ts[0]);
      var first := TurnSpec(k, w, roles, ts[0]);
      var (q, v) := Take(k, w, ts[0]);
      var rest := Scheduled(q, v, roles, ts[1..]);
      B.RunConcat(w, first, rest);
      ExecutedConcat(first, rest);
      ms := first + rest;
    }
  }

  /** From the first yield on, whatever the order of the new contexts. */
  lemma ScheduledFromStart(k: Kernel<nat>, roles: seq<B.Role>, ts: seq<Turn>) returns (ms: seq<B.Move>)
    requires KernelInv(k) && k.first && k.pool == B.Start(roles).pool
    requires B.Producer in roles && B.Consumer in roles
    ensures k.ring != [] && B.Ready(B.Start(roles), B.Begin(k.ring[0]))
    ensures var w := B.Step(B.Start(roles), B.Begin(k.ring[0]));
      && Playable(Yield(k), w, ts)
      && B.Legal(B.Start(roles), ms) && B.Run(B.Start(roles), ms) == Play(Yield(k), w, ts).1
      && Executed(ms) == Statements(ts)
  {
    hide S.Inv, B.Accounts, S.NoRepeat, Playable, Play;
    var s := B.Start(roles);
    B.StartInv(roles);
    assert 0 in k.pool.states && 0 in k.ring;
    var c := k.ring[0];
    assert c in k.pool.states;
    YieldInv(k);
    assert Rotate(k.ring, 0) == k.ring;
    B.StepInv(s, B.Begin(c));
    var w := B.Step(s, B.Begin(c));
    ms := Scheduled(Yield(k), w, roles, ts);
    B.TwoMoves(s, B.Begin(c), ms);
    ExecutedConcat([B.Begin(c)], ms);
    ms := [B.Begin(c)] + ms;
  }
}
