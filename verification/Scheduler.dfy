/** The circular list of contexts of one core and its round-robin choice
    (src/ctx.c), with the semaphores the contexts block on (src/sem.c). */
module Scheduler {
  import opened Semaphores

  /** The ring of live contexts, the current one first. */
  datatype Kernel<C> = Kernel(ring: seq<C>, pool: Pool<C>, first: bool)

  function Create<C(==)>(k: Kernel<C>, c: C): Kernel<C> {
    var ring := if k.ring == [] then [c] else [k.ring[0], c] + k.ring[1..];
    k.(ring := ring, pool := k.pool.(states := k.pool.states[c := Activable]))
  }

  function Rotate<C>(q: seq<C>, i: nat): seq<C>
    requires i <= |q|
  {
    q[i..] + q[..i]
  }

  /** Switch to the context i places further: it begins or resumes. */
  function SwitchTo<C(==)>(k: Kernel<C>, i: nat): Kernel<C>
    requires i < |k.ring|
  {
    k.(ring := Rotate(k.ring, i), pool := k.pool.(states := k.pool.states[k.ring[i] := Ready]))
  }

  /** How many blocked contexts precede the first one that is not. */
  function Skipped<C(==)>(p: Pool<C>, q: seq<C>): (r: nat)
    ensures r <= |q|
    ensures forall i: nat :: i < r ==> !Runnable(p, q[i])
    ensures r < |q| ==> Runnable(p, q[r])
  {
    if q == [] || Runnable(p, q[0]) then 0 else 1 + Skipped(p, q[1..])
  }

  /** The first non-blocked successor; the current context comes last. */
  function Yield<C(==)>(k: Kernel<C>): Kernel<C> {
    if k.ring == [] then k
    else if k.first then SwitchTo(k.(first := false), 0)
    else
      var i := 1 + Skipped(k.pool, k.ring[1..]);
      if i < |k.ring| then SwitchTo(k, i) else k
  }

  /** The current context ends; the search goes on from its successor. */
  function Exit<C(==)>(k: Kernel<C>): Kernel<C>
    requires k.ring != []
  {
    var rest := k.(ring := k.ring[1..], pool := k.pool.(states := k.pool.states - {k.ring[0]}));
    var i := Skipped(rest.pool, rest.ring);
    if i < |rest.ring| then SwitchTo(rest, i) else rest
  }

  function SemDown<C(==)>(k: Kernel<C>, s: nat): Kernel<C>
    requires k.ring != [] && s < |k.pool.sems|
  {
    var down := k.(pool := Down(k.pool, k.ring[0], s));
    if k.pool.sems[s].compteur > 0 then down else Yield(down)
  }

  function SemUp<C(==)>(k: Kernel<C>, s: nat): Kernel<C>
    requires s < |k.pool.sems|
  {
    var up := k.(pool := Up(k.pool, s));
    if k.pool.sems[s].blocked == [] then Yield(up) else up
  }

  lemma {:induction false} SkippedIs<C>(p: Pool<C>, q: seq<C>, r: nat)
    requires r < |q| && Runnable(p, q[r]) && forall j: nat :: j < r ==> !Runnable(p, q[j])
    ensures Skipped(p, q) == r
  {
    if r > 0 {
      assert !Runnable(p, q[0]);
      assert forall j: nat :: j < r - 1 ==> q[1..][j] == q[j + 1];
      SkippedIs(p, q[1..], r - 1);
    }
  }

  // ----- the invariant of the ring -----

  predicate OtherRunnable<C(==)>(p: Pool<C>, q: seq<C>) {
    exists i: nat :: i < |q| && Runnable(p, q[i])
  }

  ghost predicate KernelInv<C>(k: Kernel<C>) {
    && Inv(k.pool) && NoRepeat(k.ring)
    && k.pool.states.Keys == (set c | c in k.ring)
    && (k.ring == [] ==> k.first)
    && (k.first ==> forall c <- k.ring :: k.pool.states[c] == Activable)
    && (!k.first ==> k.pool.states[k.ring[0]] == Ready)
  }

  datatype Call<C> =
    | NewCtx(ctx: C)
    | NewSem(val: nat)
    | Yielding
    | Exiting
    | Downing(sem: nat)
    | Upping(sem: nat)

  /** What the current context, or main before the first yield, may do. A
      search needs somebody to find. */
  predicate May<C(==)>(k: Kernel<C>, a: Call<C>) {
    match a
    case NewCtx(c) => c !in k.pool.states
    case NewSem(_) => true
    case Yielding => true
    case Exiting => !k.first && k.ring != [] && OtherRunnable(k.pool, k.ring[1..])
    case Downing(s) =>
      && !k.first && k.ring != [] && s < |k.pool.sems|
      && (k.pool.sems[s].compteur <= 0 ==> OtherRunnable(k.pool, k.ring[1..]))
    case Upping(s) => !k.first && k.ring != [] && s < |k.pool.sems|
  }

  function Do<C(==)>(k: Kernel<C>, a: Call<C>): Kernel<C>
    requires May(k, a)
  {
    match a
    case NewCtx(c) => Create(k, c)
    case NewSem(val) => k.(pool := Next(k.pool, Initialised(val)))
    case Yielding => Yield(k)
    case Exiting => Exit(k)
    case Downing(s) => SemDown(k, s)
    case Upping(s) => SemUp(k, s)
  }

  // ----- every call is a run of the pool -----

  lemma {:induction false} RunConcat<C>(p: Pool<C>, es: seq<Event<C>>, fs: seq<Event<C>>)
    requires Legal(p, es) && Legal(Run(p, es), fs)
    ensures Legal(p, es + fs) && Run(p, es + fs) == Run(Run(p, es), fs)
    decreases |es|
  {
    if es == [] {
      assert es + fs == fs;
    } else {
      assert (es + fs)[1..] == es[1..] + fs;
      RunConcat(Next(p, es[0]), es[1..], fs);
    }
  }

  /** Handing the processor to a context that has not begun begins it. */
  function Begins<C(==)>(k: Kernel<C>, c: C): seq<Event<C>>
    requires c in k.pool.states
  {
    if k.pool.states[c] == Activable then [Started(c)] else []
  }

  /** The index of the next current context; 0 when it stays. */
  function Target<C(==)>(k: Kernel<C>): (i: nat)
    ensures k.ring != [] ==> i < |k.ring|
  {
    if k.ring == [] || k.first then 0
    else
      var i := 1 + Skipped(k.pool, k.ring[1..]);
      if i < |k.ring| then i else 0
  }

  lemma RotateKeeps<C>(q: seq<C>, i: nat)
    requires NoRepeat(q) && i <= |q|
    ensures NoRepeat(Rotate(q, i)) && (set c | c in Rotate(q, i)) == (set c | c in q)
    ensures |Rotate(q, i)| == |q| && (i < |q| ==> Rotate(q, i)[0] == q[i])
  {
    assert q == q[..i] + q[i..];
  }

  lemma BeginRun<C>(p: Pool<C>, c: C)
    requires Inv(p) && Runnable(p, c)
    ensures var es := if p.states[c] == Activable then [Started(c)] else [];
      Legal(p, es) && Run(p, es) == p.(states := p.states[c := Ready]) && Inv(Run(p, es))
  {
    if p.states[c] == Activable {
      NextKeepsInv(p, Started(c));
    } else {
      assert p.states[c := Ready] == p.states;
    }
  }

  /** Switching to a context that is not blocked. */
  lemma SwitchInv<C>(k: Kernel<C>, i: nat)
    requires Inv(k.pool) && NoRepeat(k.ring) && k.pool.states.Keys == (set c | c in k.ring) && !k.first
    requires i < |k.ring| && Runnable(k.pool, k.ring[i])
    ensures var es := Begins(k, k.ring[i]);
      KernelInv(SwitchTo(k, i)) && Legal(k.pool, es) && Run(k.pool, es) == SwitchTo(k, i).pool
  {
    hide Inv, Legal, Run;
    BeginRun(k.pool, k.ring[i]);
    RotateKeeps(k.ring, i);
  }

  /** The ring is in order and the current context runs, unless it has just
      blocked and another one can run. */
  ghost predicate BeforeYield<C>(k: Kernel<C>) {
    && Inv(k.pool) && NoRepeat(k.ring) && k.pool.states.Keys == (set c | c in k.ring)
    && (k.ring == [] ==> k.first)
    && (k.first ==> forall c <- k.ring :: k.pool.states[c] == Activable)
    && (!k.first ==> k.pool.states[k.ring[0]] == Ready || OtherRunnable(k.pool, k.ring[1..]))
  }

  /** Yield turns the ring, skips exactly the blocked contexts that follow the
      current one, and begins the context it finds if need be. */
  lemma YieldInv<C>(k: Kernel<C>)
    requires BeforeYield(k)
    ensures KernelInv(Yield(k))
    ensures k.ring != [] ==>
      var i, es := Target(k), Begins(k, k.ring[Target(k)]);
      && Yield(k).ring == Rotate(k.ring, i) && Legal(k.pool, es) && Run(k.pool, es) == Yield(k).pool
      && Runnable(k.pool, k.ring[i])
      && (!k.first ==> forall j: nat :: 0 < j < (if i == 0 then |k.ring| else i) ==> !Runnable(k.pool, k.ring[j]))
  {
    hide Inv, Legal, Run, NoRepeat;
    if k.ring != [] {
      var i, rest := Target(k), k.ring[1..];
      forall j: nat | !k.first && 0 < j < (if i == 0 then |k.ring| else i) ensures !Runnable(k.pool, k.ring[j]) {
        assert k.ring[j] == rest[j - 1];
      }
      if !k.first && i == 0 {
        assert Skipped(k.pool, rest) == |rest|;
        assert !OtherRunnable(k.pool, rest);
        BeginRun(k.pool, k.ring[0]);
        assert Rotate(k.ring, 0) == k.ring;
      } else {
        SwitchInv(k.(first := false), i);
      }
    }
  }

  /** The kernel without its current context. */
  ghost function Left<C>(k: Kernel<C>): Kernel<C>
    requires k.ring != []
  {
    k.(ring := k.ring[1..], pool := k.pool.(states := k.pool.states - {k.ring[0]}))
  }

  lemma LeftSpec<C>(k: Kernel<C>)
    requires KernelInv(k) && May(k, Exiting)
    ensures var rest := Left(k);
      && Inv(rest.pool) && NoRepeat(rest.ring) && rest.pool.states.Keys == (set c | c in rest.ring)
      && Skipped(rest.pool, rest.ring) == Skipped(k.pool, rest.ring) < |rest.ring|
      && Enabled(k.pool, Ended(k.ring[0])) && rest.pool == Next(k.pool, Ended(k.ring[0]))
  {
    hide Inv, Skipped;
    assert k.ring[0] in k.pool.states;
    NextKeepsInv(k.pool, Ended(k.ring[0]));
    SameSkipped(k.pool, Left(k).pool, Left(k).ring);
    SomeSkipped(k.pool, Left(k).ring);
  }

  lemma SomeSkipped<C>(p: Pool<C>, q: seq<C>)
    requires OtherRunnable(p, q)
    ensures Skipped(p, q) < |q|
  {}

  lemma ExitInv<C>(k: Kernel<C>)
    requires KernelInv(k) && May(k, Exiting)
    ensures KernelInv(Exit(k))
    ensures Target(k) > 0 && Exit(k).ring == Rotate(k.ring[1..], Target(k) - 1)
    ensures Legal(k.pool, EventsOf(k, Exiting)) && Run(k.pool, EventsOf(k, Exiting)) == Exit(k).pool
  {
    hide Inv, Legal, Run, Skipped, NoRepeat, Rotate, OtherRunnable;
    var rest, e := Left(k), Ended(k.ring[0]);
    LeftSpec(k);
    OneStep(k.pool, e);
    var i := Skipped(rest.pool, rest.ring);
    SwitchInv(rest, i);
    RunConcat(k.pool, [e], Begins(rest, rest.ring[i]));
  }

  lemma OneStep<C>(p: Pool<C>, e: Event<C>)
    requires Enabled(p, e)
    ensures Legal(p, [e]) && Run(p, [e]) == Next(p, e)
  {
    assert [e][1..] == [];
  }

  lemma {:induction false} SameSkipped<C>(p: Pool<C>, q: Pool<C>, cs: seq<C>)
    requires forall c <- cs :: Runnable(p, c) <==> Runnable(q, c)
    ensures Skipped(p, cs) == Skipped(q, cs)
  {
    if cs != [] { SameSkipped(p, q, cs[1..]); }
  }

  /** The events of the pool that a call amounts to. */
  function EventsOf<C(==)>(k: Kernel<C>, a: Call<C>): seq<Event<C>>
    requires May(k, a)
  {
    match a
    case NewCtx(c) => [Created(c)]
    case NewSem(val) => [Initialised(val)]
    case Yielding => YieldEvents(k)
    case Exiting => [Ended(k.ring[0])] + YieldEvents(k)
    case Downing(s) =>
      [TryDown(k.ring[0], s)] +
      if k.pool.sems[s].compteur > 0 then [] else YieldEvents(k.(pool := Down(k.pool, k.ring[0], s)))
    case Upping(s) =>
      [DoUp(k.ring[0], s)] +
      if k.pool.sems[s].blocked == [] then YieldEvents(k.(pool := Up(k.pool, s))) else []
  }

  function YieldEvents<C(==)>(k: Kernel<C>): seq<Event<C>> {
    if k.ring != [] && k.ring[Target(k)] in k.pool.states then Begins(k, k.ring[Target(k)]) else []
  }

  lemma YieldRun<C>(k: Kernel<C>, a: Event<C>, next: Kernel<C>)
    requires Enabled(k.pool, a) && next == k.(pool := Next(k.pool, a)) && BeforeYield(next) && k.ring != []
    ensures KernelInv(Yield(next))
    ensures Legal(k.pool, [a] + YieldEvents(next)) && Run(k.pool, [a] + YieldEvents(next)) == Yield(next).pool
  {
    hide Inv, Legal, Run;
    OneStep(k.pool, a);
    YieldInv(next);
    RunConcat(k.pool, [a], YieldEvents(next));
  }

  lemma CreateInv<C>(k: Kernel<C>, c: C)
    requires KernelInv(k) && c !in k.pool.states
    ensures KernelInv(Create(k, c))
  {
    hide Inv;
    NextKeepsInv(k.pool, Created(c));
  }

  /** A created context waits its turn right behind the current one. */
  lemma CreatedRunsNext<C>(k: Kernel<C>, c: C)
    requires KernelInv(k) && c !in k.pool.states && !k.first
    ensures k.ring != [] && Create(k, c).ring[0] == k.ring[0]
    ensures Yield(Create(k, c)).ring[0] == c && Yield(Create(k, c)).pool.states[c] == Ready
  {
    hide Inv;
    var rest := Create(k, c).ring[1..];
    assert rest[0] == c;
    assert Skipped(Create(k, c).pool, rest) == 0;
  }

  /** Every call keeps the ring and is an interleaving of the pool. */
  lemma DoInv<C>(k: Kernel<C>, a: Call<C>)
    requires KernelInv(k) && May(k, a)
    ensures KernelInv(Do(k, a))
    ensures Legal(k.pool, EventsOf(k, a)) && Run(k.pool, EventsOf(k, a)) == Do(k, a).pool
  {
    hide Inv, Legal, Run, Skipped;
    match a
    case NewCtx(c) =>
      CreateInv(k, c);
      OneStep(k.pool, Created(c));
    case NewSem(val) =>
      NextKeepsInv(k.pool, Initialised(val));
      OneStep(k.pool, Initialised(val));
    case Yielding =>
      YieldInv(k);
      assert k.ring == [] ==> Legal(k.pool, []) && Run(k.pool, []) == k.pool by { EmptyRun(k.pool); }
    case Exiting => ExitInv(k);
    case Downing(s) => DownInv(k, s);
    case Upping(s) => UpInv(k, s);
  }

  lemma DownBefore<C>(k: Kernel<C>, s: nat)
    requires KernelInv(k) && May(k, Downing(s))
    ensures BeforeYield(k.(pool := Down(k.pool, k.ring[0], s)))
    ensures k.pool.sems[s].compteur > 0 ==> KernelInv(k.(pool := Down(k.pool, k.ring[0], s)))
    ensures Enabled(k.pool, TryDown(k.ring[0], s))
  {
    hide Inv, Skipped, NoRepeat;
    assert k.ring[0] in k.pool.states;
    DownKeepsInv(k.pool, k.ring[0], s);
    if k.pool.sems[s].compteur <= 0 { StillRunnable(k, k.(pool := Down(k.pool, k.ring[0], s))); }
  }

  lemma UpBefore<C>(k: Kernel<C>, s: nat)
    requires KernelInv(k) && May(k, Upping(s))
    ensures KernelInv(k.(pool := Up(k.pool, s))) && BeforeYield(k.(pool := Up(k.pool, s)))
    ensures Enabled(k.pool, DoUp(k.ring[0], s))
  {
    hide Inv, Skipped, NoRepeat;
    assert k.ring[0] in k.pool.states;
    UpKeepsInv(k.pool, s);
  }

  lemma DownInv<C>(k: Kernel<C>, s: nat)
    requires KernelInv(k) && May(k, Downing(s))
    ensures KernelInv(SemDown(k, s))
    ensures var es := EventsOf(k, Downing(s)); Legal(k.pool, es) && Run(k.pool, es) == SemDown(k, s).pool
  {
    hide KernelInv, BeforeYield, Legal, Run, YieldEvents, Yield;
    var e := TryDown(k.ring[0], s);
    DownBefore(k, s);
    OneStep(k.pool, e);
    assert [e] + [] == [e];
    if k.pool.sems[s].compteur <= 0 { YieldRun(k, e, k.(pool := Down(k.pool, k.ring[0], s))); }
  }

  lemma UpInv<C>(k: Kernel<C>, s: nat)
    requires KernelInv(k) && May(k, Upping(s))
    ensures KernelInv(SemUp(k, s))
    ensures var es := EventsOf(k, Upping(s)); Legal(k.pool, es) && Run(k.pool, es) == SemUp(k, s).pool
  {
    hide KernelInv, BeforeYield, Legal, Run, YieldEvents, Yield;
    var e := DoUp(k.ring[0], s);
    UpBefore(k, s);
    OneStep(k.pool, e);
    assert [e] + [] == [e];
    if k.pool.sems[s].blocked == [] { YieldRun(k, e, k.(pool := Up(k.pool, s))); }
  }

  lemma EmptyRun<C>(p: Pool<C>)
    ensures Legal(p, []) && Run(p, []) == p
  {}

  lemma StillRunnable<C>(k: Kernel<C>, next: Kernel<C>)
    requires NoRepeat(k.ring) && k.ring != [] && next.ring == k.ring && OtherRunnable(k.pool, k.ring[1..])
    requires k.pool.states.Keys == (set c | c in k.ring) == next.pool.states.Keys
    requires forall c <- k.ring :: c != k.ring[0] ==> next.pool.states[c] == k.pool.states[c]
    ensures OtherRunnable(next.pool, next.ring[1..])
  {
    var rest := k.ring[1..];
    var i: nat :| i < |rest| && Runnable(k.pool, rest[i]);
    assert rest[i] == k.ring[i + 1] && Runnable(next.pool, rest[i]);
  }

  // ----- who runs next -----

  /** The processor goes from the first context of q to the first one of r: the
      next in the ring that is not blocked, or none if all the others are. */
  ghost predicate Passes<C>(p: Pool<C>, q: seq<C>, r: seq<C>) {
    exists i: nat :: i < |q| && r == Rotate(q, i) && FirstAfter(p, q, i)
  }

  ghost predicate FirstAfter<C>(p: Pool<C>, q: seq<C>, i: nat)
    requires i < |q|
  {
    && (i > 0 ==> Runnable(p, q[i]))
    && forall j: nat :: 0 < j < (if i == 0 then |q| else i) ==> !Runnable(p, q[j])
  }

  lemma YieldPasses<C>(k: Kernel<C>)
    requires BeforeYield(k) && !k.first && k.ring != []
    ensures Passes(k.pool, k.ring, Yield(k).ring) && !Yield(k).first
  {
    hide Inv, NoRepeat, Rotate, Run, Legal;
    YieldInv(k);
    assert FirstAfter(k.pool, k.ring, Target(k));
  }

  /** A context keeps the processor when it creates one, gets a unit or wakes a
      waiter; when it waits, releases for nobody or yields, the processor passes
      on, as it was left. */
  lemma NextCurrent<C>(k: Kernel<C>, a: Call<C>)
    requires KernelInv(k) && !k.first && k.ring != [] && May(k, a) && !a.Exiting?
    ensures !Do(k, a).first
    ensures match a
      case NewCtx(c) => Do(k, a).ring == [k.ring[0], c] + k.ring[1..]
      case NewSem(_) => Do(k, a).ring == k.ring
      case Yielding => Passes(k.pool, k.ring, Do(k, a).ring)
      case Downing(s) =>
        if k.pool.sems[s].compteur > 0 then Do(k, a).ring == k.ring
        else Passes(Down(k.pool, k.ring[0], s), k.ring, Do(k, a).ring)
      case Upping(s) =>
        if k.pool.sems[s].blocked != [] then Do(k, a).ring == k.ring
        else Passes(Up(k.pool, s), k.ring, Do(k, a).ring)
      case Exiting => true
  {
    hide Inv, NoRepeat, Rotate, Passes, Yield, Runnable;
    match a
    case Yielding => YieldPasses(k);
    case Downing(s) =>
      if k.pool.sems[s].compteur <= 0 {
        DownBefore(k, s);
        YieldPasses(k.(pool := Down(k.pool, k.ring[0], s)));
      }
    case Upping(s) =>
      UpBefore(k, s);
      if k.pool.sems[s].blocked == [] { YieldPasses(k.(pool := Up(k.pool, s))); }
    case _ =>
  }

  // ----- runs of calls -----

  predicate Proper<C(==)>(k: Kernel<C>, calls: seq<Call<C>>)
    decreases |calls|
  {
    calls != [] ==> May(k, calls[0]) && Proper(Do(k, calls[0]), calls[1..])
  }

  function After<C(==)>(k: Kernel<C>, calls: seq<Call<C>>): Kernel<C>
    requires Proper(k, calls)
    decreases |calls|
  {
    if calls == [] then k else After(Do(k, calls[0]), calls[1..])
  }

  function AllEvents<C(==)>(k: Kernel<C>, calls: seq<Call<C>>): seq<Event<C>>
    requires Proper(k, calls)
    decreases |calls|
  {
    if calls == [] then [] else EventsOf(k, calls[0]) + AllEvents(Do(k, calls[0]), calls[1..])
  }

  function Boot<C>(): Kernel<C> {
    Kernel([], Pool(map[], []), true)
  }

  /** Every run of calls keeps the ring one cycle through the live contexts and
      is a run of the pool, so its units balance. */
  lemma {:induction false} RunsKeepRing<C>(k: Kernel<C>, calls: seq<Call<C>>)
    requires KernelInv(k) && Proper(k, calls)
    ensures KernelInv(After(k, calls))
    ensures Legal(k.pool, AllEvents(k, calls)) && Run(k.pool, AllEvents(k, calls)) == After(k, calls).pool
    decreases |calls|
  {
    hide Inv, Legal, Run, EventsOf, Do, NoRepeat;
    if calls == [] {
      EmptyRun(k.pool);
    } else {
      DoInv(k, calls[0]);
      RunsKeepRing(Do(k, calls[0]), calls[1..]);
      RunConcat(k.pool, EventsOf(k, calls[0]), AllEvents(Do(k, calls[0]), calls[1..]));
    }
  }

  // ----- fairness -----

  /** The calls that give the processor away. */
  predicate Switches<C(==)>(k: Kernel<C>, a: Call<C>)
    requires May(k, a)
  {
    match a
    case NewCtx(_) => false
    case NewSem(_) => false
    case Yielding => true
    case Exiting => true
    case Downing(s) => k.pool.sems[s].compteur <= 0
    case Upping(s) => k.pool.sems[s].blocked == []
  }

  function Switched<C(==)>(k: Kernel<C>, calls: seq<Call<C>>): nat
    requires Proper(k, calls)
    decreases |calls|
  {
    if calls == [] then 0
    else (if Switches(k, calls[0]) then 1 else 0) + Switched(Do(k, calls[0]), calls[1..])
  }

  /** Some state of the run has c as its current context. */
  predicate Gets<C(==)>(k: Kernel<C>, calls: seq<Call<C>>, c: C)
    requires Proper(k, calls)
    decreases |calls|
  {
    || (k.ring != [] && k.ring[0] == c)
    || (calls != [] && Gets(Do(k, calls[0]), calls[1..], c))
  }

  /** How far c is from the front. */
  function Place<C(==)>(q: seq<C>, c: C): (r: nat)
    ensures r <= |q| && (c in q <==> r < |q|) && (r < |q| ==> q[r] == c)
  {
    if q == [] || q[0] == c then 0 else 1 + Place(q[1..], c)
  }

  lemma PlaceIs<C>(q: seq<C>, d: nat)
    requires NoRepeat(q) && d < |q|
    ensures Place(q, q[d]) == d
  {
    var r := Place(q, q[d]);
    assert q[d] in q && q[r] == q[d];
  }

  lemma PlaceRotated<C>(q: seq<C>, i: nat, c: C)
    requires NoRepeat(q) && c in q && i <= Place(q, c)
    ensures Place(Rotate(q, i), c) == Place(q, c) - i
  {
    RotateKeeps(q, i);
    assert Rotate(q, i)[Place(q, c) - i] == c;
    PlaceIs(Rotate(q, i), Place(q, c) - i);
  }

  lemma YieldNearer<C>(k: Kernel<C>, c: C)
    requires BeforeYield(k) && !k.first && c in k.ring && k.ring[0] != c && Runnable(k.pool, c)
    ensures c in Yield(k).ring && Runnable(Yield(k).pool, c) && !Yield(k).first
    ensures Place(Yield(k).ring, c) < Place(k.ring, c)
  {
    hide Inv, Legal, Run;
    YieldInv(k);
    assert Runnable(k.pool, k.ring[Place(k.ring, c)]);
    PlaceRotated(k.ring, Target(k), c);
  }

  lemma PlacesAfter<C>(k: Kernel<C>, c: C)
    requires NoRepeat(k.ring) && c in k.ring && Runnable(k.pool, c) && Skipped(k.pool, k.ring) < |k.ring|
    ensures var q := SwitchTo(k, Skipped(k.pool, k.ring));
      c in q.ring && Runnable(q.pool, c) && Place(q.ring, c) <= Place(k.ring, c)
  {
    assert Runnable(k.pool, k.ring[Place(k.ring, c)]);
    PlaceRotated(k.ring, Skipped(k.pool, k.ring), c);
  }

  lemma ExitNearer<C>(k: Kernel<C>, c: C)
    requires KernelInv(k) && May(k, Exiting) && c in k.ring && k.ring[0] != c && Runnable(k.pool, c)
    ensures c in Exit(k).ring && Runnable(Exit(k).pool, c) && !Exit(k).first
    ensures Place(Exit(k).ring, c) < Place(k.ring, c)
  {
    hide Inv, NoRepeat, Skipped, OtherRunnable, Rotate;
    LeftSpec(k);
    var rest := Left(k);
    PlacesAfter(rest, c);
  }

  lemma CallNearer<C>(k: Kernel<C>, a: Call<C>, c: C)
    requires KernelInv(k) && May(k, a) && !a.NewCtx?
    requires !k.first && c in k.ring && k.ring[0] != c && Runnable(k.pool, c)
    ensures var q := Do(k, a);
      && c in q.ring && Runnable(q.pool, c) && !q.first
      && Place(q.ring, c) + (if Switches(k, a) then 1 else 0) <= Place(k.ring, c)
  {
    hide Inv, Legal, Run, Skipped, Place, NoRepeat, Yield, Rotate;
    match a
    case NewSem(_) =>
    case Yielding => YieldNearer(k, c);
    case Exiting => ExitNearer(k, c);
    case Downing(s) =>
      assert k.ring[0] in k.pool.states;
      DownKeepsInv(k.pool, k.ring[0], s);
      var next := k.(pool := Down(k.pool, k.ring[0], s));
      if k.pool.sems[s].compteur <= 0 {
        StillRunnable(k, next);
        YieldNearer(next, c);
      }
    case Upping(s) =>
      UpKeepsInv(k.pool, s);
      if k.pool.sems[s].blocked == [] { YieldNearer(k.(pool := Up(k.pool, s)), c); }
  }

  lemma {:induction false} FairFrom<C>(k: Kernel<C>, calls: seq<Call<C>>, c: C)
    requires KernelInv(k) && !k.first && Proper(k, calls) && c in k.ring && Runnable(k.pool, c)
    requires forall a <- calls :: !a.NewCtx?
    requires Switched(k, calls) >= Place(k.ring, c)
    ensures Gets(k, calls, c)
    decreases |calls|
  {
    hide Inv, Legal, Run, Do, Switches, May;
    if k.ring[0] != c && calls != [] {
      DoInv(k, calls[0]);
      CallNearer(k, calls[0], c);
      FairFrom(Do(k, calls[0]), calls[1..], c);
    }
  }

  /** A context that is not blocked runs after at most n - 1 changes of context,
      n being the size of the ring, as long as none is created. */
  lemma Fair<C>(k: Kernel<C>, calls: seq<Call<C>>, c: C)
    requires KernelInv(k) && !k.first && Proper(k, calls) && c in k.ring && Runnable(k.pool, c)
    requires forall a <- calls :: !a.NewCtx?
    requires Switched(k, calls) >= |k.ring| - 1
    ensures Gets(k, calls, c)
  {
    FairFrom(k, calls, c);
  }
}
