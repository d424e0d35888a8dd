/** The linked structures of src/ctx.c and src/sem.c: the ring of one core
    through `next`, and one list of blocked contexts per semaphore through
    `nextBlocked`. Each method is proved against the step of the Scheduler. */
module Contexts {
  import opened Semaphores
  import K = Scheduler

  class Ctx {
    var state: State
    var next: Ctx
    var nextBlocked: Ctx?

    constructor ()
      ensures state == Activable && next == this && nextBlocked == null
    {
      state := Activable;
      next := this;
      nextBlocked := null;
    }
  }

  /** What follows the element i of a circular list. */
  ghost function Succ(q: seq<Ctx>, i: nat): Ctx
    requires i < |q|
  {
    if i + 1 < |q| then q[i + 1] else q[0]
  }

  /** The element i of a list that ends with null. */
  ghost function Rest(q: seq<Ctx>, i: nat): Ctx? {
    if i < |q| then q[i] else null
  }

  class Semaphore {
    var compteur: int
    var ctxBlocked: Ctx?
    ghost var waiting: seq<Ctx>

    constructor (val: nat)
      ensures compteur == val && ctxBlocked == null && waiting == []
    {
      compteur := val;
      ctxBlocked := null;
      waiting := [];
    }

    ghost predicate Chained(ring: seq<Ctx>)
      reads this, ring`nextBlocked
    {
      && (forall c <- waiting :: c in ring)
      && ctxBlocked == Rest(waiting, 0)
      && forall i: nat :: i < |waiting| ==>
           waiting[i] in ring && waiting[i].nextBlocked == Rest(waiting, i + 1)
    }
  }

  lemma ChainedMore(s: Semaphore, small: seq<Ctx>, large: seq<Ctx>)
    requires s.Chained(small) && forall c <- small :: c in large
    ensures s.Chained(large)
  {}

  lemma ChainedLess(s: Semaphore, large: seq<Ctx>, small: seq<Ctx>)
    requires s.Chained(large) && forall c <- s.waiting :: c in small
    ensures s.Chained(small)
  {}

  lemma RotateCircular(q: seq<Ctx>, i: nat)
    requires Core.Circular(q) && i < |q|
    ensures Core.Circular(K.Rotate(q, i))
  {
    var r := K.Rotate(q, i);
    forall j: nat | j < |r| ensures r[j].next == Succ(r, j) {
      var o := if i + j < |q| then i + j else i + j - |q|;
      assert r[j] == q[o] && q[o].next == Succ(q, o);
    }
  }

  lemma RotateOne(q: seq<Ctx>)
    requires Core.Circular(q) && |q| > 0
    ensures Core.Circular(K.Rotate(q, 1))
  {
    if |q| > 1 { RotateCircular(q, 1); } else { assert K.Rotate(q, 1) == q; }
  }

  class Core {
    var current: Ctx?
    var first: bool
    ghost var ring: seq<Ctx>
    ghost var sems: seq<Semaphore>

    constructor ()
      ensures Valid() && Val() == K.Boot()
    {
      current := null;
      first := true;
      ring := [];
      sems := [];
    }

    static ghost predicate Circular(ring: seq<Ctx>)
      reads ring`next
    {
      forall i: nat :: i < |ring| ==> ring[i].next == Succ(ring, i)
    }

    ghost predicate Linked()
      reads this`current, this`ring, ring`next
    {
      current == (if ring == [] then null else ring[0]) && Circular(ring) && NoRepeat(ring)
    }

    ghost predicate Shape()
      reads this`current, this`ring, this`sems, ring`next, ring`nextBlocked, sems
    {
      && Linked()
      && NoRepeat(sems)
      && forall i: nat :: i < |sems| ==> sems[i].Chained(ring)
    }

    static ghost function States(ring: seq<Ctx>): map<Ctx, State>
      reads ring`state
    {
      map c | c in ring :: c.state
    }

    static ghost function Sems(sems: seq<Semaphore>): seq<Sem<Ctx>>
      reads sems
    {
      seq(|sems|, i requires 0 <= i < |sems| reads sems => Sem(sems[i].compteur, sems[i].waiting))
    }

    ghost function Val(): K.Kernel<Ctx>
      reads this, ring, sems
    {
      K.Kernel(ring, Pool(States(ring), Sems(sems)), first)
    }

    ghost predicate Valid()
      reads this, ring, sems
    {
      Shape() && K.KernelInv(Val())
    }

    /** Link c after the current context. */
    method Insert(c: Ctx)
      requires Linked() && c !in ring
      modifies this`current, this`ring, ring`next, c`next
      ensures Linked() && ring == (if old(ring) == [] then [c] else [old(ring)[0], c] + old(ring)[1..])
    {
      ghost var was := ring;
      if current == null {
        c.next := c;
        current := c;
        ring := [c];
      } else {
        c.next := current.next;
        current.next := c;
        ring := [ring[0], c] + ring[1..];
        forall i: nat | i < |ring| ensures ring[i].next == Succ(ring, i) {
          if i > 0 { assert old(was[i - 1].next) == Succ(was, i - 1); }
        }
      }
    }

    /** Enter c in the ring. */
    method Enter(c: Ctx)
      requires Valid() && c !in ring && c.state == Activable
      modifies this`current, this`ring, ring`next, c`next
      ensures Valid() && sems == old(sems) && Val() == K.Create(old(Val()), c)
    {
      hide Inv, NoRepeat, K.KernelInv, Circular, Semaphore.Chained;
      ghost var k := Val();
      K.CreateInv(k, c);
      Insert(c);
      forall i: nat | i < |sems| ensures sems[i].Chained(ring) {
        ChainedMore(sems[i], k.ring, ring);
      }
      assert Sems(sems) == k.pool.sems;
      assert States(ring) == k.pool.states[c := Activable];
    }

    method CreateCtx() returns (c: Ctx)
      requires Valid()
      modifies this, ring
      ensures Valid() && fresh(c) && sems == old(sems)
      ensures Val() == K.Create(old(Val()), c)
    {
      hide *;
      c := new Ctx();
      Enter(c);
    }

    /** The state part of a switch: ctx becomes current, and begins if it is new. */
    method SwitchTo(ctx: Ctx, ghost i: nat)
      requires Shape() && i < |ring| && ctx == ring[i] && ctx.state != Blocked
      modifies this`current, this`ring, ctx`state
      ensures Shape() && sems == old(sems) && first == old(first)
      ensures Val() == K.SwitchTo(old(Val()), i)
    {
      hide Inv, NoRepeat, K.KernelInv, Circular, Semaphore.Chained;
      ghost var k := Val();
      current := ctx;
      if ctx.state == Activable { ctx.state := Ready; }
      RotateCircular(ring, i);
      K.RotateKeeps(ring, i);
      ring := K.Rotate(ring, i);
      forall j: nat | j < |sems| ensures sems[j].Chained(ring) {
        ChainedMore(sems[j], k.ring, ring);
      }
      assert Sems(sems) == k.pool.sems;
      assert States(ring) == k.pool.states[ctx := Ready];
    }

    /** Walk a circular list to its first context that is not blocked. */
    static method Search(start: Ctx, ghost q: seq<Ctx>) returns (found: Ctx, ghost r: nat)
      requires Circular(q) && |q| > 0 && start == q[0] && exists n: nat :: n < |q| && q[n].state != Blocked
      ensures r < |q| && found == q[r] && found.state != Blocked
      ensures forall j: nat :: j < r ==> q[j].state == Blocked
    {
      found, r := start, 0;
      ghost var n: nat :| n < |q| && q[n].state != Blocked;
      while found.state == Blocked
        invariant r <= n && found == q[r]
        invariant forall j: nat :: j < r ==> q[j].state == Blocked
        decreases |q| - r
      {
        assert found.next == Succ(q, r);
        found, r := found.next, r + 1;
      }
    }

    /** Give the processor to the first successor that is not blocked. */
    method Yield()
      requires Shape() && K.BeforeYield(Val())
      modifies this`current, this`ring, this`first, ring`state
      ensures Valid() && sems == old(sems) && Val() == K.Yield(old(Val()))
    {
      hide Inv, NoRepeat, Circular, K.Skipped, K.KernelInv, K.SwitchTo, K.BeforeYield, States, Sems;
      K.YieldInv(Val());
      if current != null {
        if first { Begin(); } else { Next(); }
      }
    }

    method Begin()
      requires Shape() && K.BeforeYield(Val()) && ring != [] && first
      modifies this`current, this`ring, this`first, ring`state
      ensures Shape() && sems == old(sems) && Val() == K.Yield(old(Val()))
    {
      hide Inv, NoRepeat, Circular, K.SwitchTo;
      FirstIsNew();
      first := false;
      SwitchTo(current, 0);
    }

    method Next()
      requires Shape() && K.BeforeYield(Val()) && ring != [] && !first
      modifies this`current, this`ring, ring`state
      ensures Shape() && sems == old(sems) && Val() == K.Yield(old(Val()))
    {
      hide Inv, NoRepeat, Semaphore.Chained, K.KernelInv, Circular, K.SwitchTo, K.BeforeYield, Runnable;
      ghost var q := Successors();
      var next, r := Search(current.next, q);
      SkippedOnes(q, r);
      if next != current { SwitchTo(next, r + 1); }
    }

    lemma FirstIsNew()
      requires first && ring != [] && K.BeforeYield(Val())
      ensures ring[0].state == Activable
    {
      assert ring[0] in ring && Val().pool.states[ring[0]] == ring[0].state;
    }

    /** The ring from the successor of the current context on. */
    ghost method Successors() returns (q: seq<Ctx>)
      requires Shape() && K.BeforeYield(Val()) && ring != [] && !first
      ensures q == K.Rotate(ring, 1) && Circular(q) && ring[0].next == q[0]
      ensures exists n: nat :: n < |q| && q[n].state != Blocked
    {
      hide Inv, NoRepeat, Semaphore.Chained;
      q := K.Rotate(ring, 1);
      RotateOne(ring);
      assert ring[0].next == Succ(ring, 0);
      if ring[0].state == Ready {
        assert q[|ring| - 1] == ring[0];
      } else {
        ghost var n: nat :| n < |ring[1..]| && Runnable(Val().pool, ring[1..][n]);
        assert q[n] == ring[1..][n];
      }
    }

    lemma SkippedOnes(q: seq<Ctx>, r: nat)
      requires Shape() && ring != [] && q == K.Rotate(ring, 1) && r < |q| && q[r].state != Blocked
      requires forall j: nat :: j < r ==> q[j].state == Blocked
      ensures K.Skipped(Val().pool, ring[1..]) == r
      ensures q[r] == current <==> r == |ring| - 1
      ensures r < |ring| - 1 ==> q[r] == ring[r + 1]
    {
      var p, rest := Val().pool, ring[1..];
      forall j: nat | j < r ensures !Runnable(p, rest[j]) { assert rest[j] == q[j]; }
      if r < |rest| {
        assert rest[r] == q[r];
        K.SkippedIs(p, rest, r);
      } else {
        assert K.Skipped(p, rest) == r;
      }
    }

    /** Unlink the current context: find its predecessor by walking the ring. */
    method Unlink() returns (gone: Ctx)
      requires Shape() && |ring| >= 2
      modifies this`ring, ring`next
      ensures gone == old(current) && current == gone && sems == old(sems)
      ensures ring == old(ring)[1..] && Circular(ring) && gone.next == ring[0]
    {
      hide Inv, Semaphore.Chained;
      gone := current;
      var previous := gone;
      ghost var i, was := 0, ring;
      while previous.next != gone
        invariant i < |was| && previous == was[i]
        decreases |was| - i
      {
        assert previous.next == Succ(was, i);
        previous, i := previous.next, i + 1;
      }
      assert previous.next == Succ(was, i) && i == |was| - 1;
      previous.next := gone.next;
      ring := was[1..];
      forall j: nat | j < |ring| ensures ring[j].next == Succ(ring, j) {
        assert ring[j] == was[j + 1] && old(was[j + 1].next) == Succ(was, j + 1);
      }
    }

    /** A waiter is blocked, hence never the current context. */
    lemma OthersWait()
      requires Valid() && !first
      ensures forall i: nat, c :: i < |sems| && c in sems[i].waiting ==> c in ring[1..]
    {
      forall i: nat, c | i < |sems| && c in sems[i].waiting ensures c in ring[1..] {
        assert Val().pool.sems[i].blocked == sems[i].waiting;
        assert Val().pool.states[c] == Blocked && c in ring;
      }
    }

    lemma SomeoneRuns()
      requires K.Skipped(Val().pool, ring) < |ring|
      ensures exists n: nat :: n < |ring| && ring[n].state != Blocked
    {
      var n := K.Skipped(Val().pool, ring);
      assert Runnable(Val().pool, ring[n]) && ring[n].state != Blocked;
    }

    lemma WalkIsSkipped(r: nat)
      requires r < |ring| && ring[r].state != Blocked && forall j: nat :: j < r ==> ring[j].state == Blocked
      ensures K.Skipped(Val().pool, ring) == r
    {
      assert Runnable(Val().pool, ring[r]) && forall j: nat :: j < r ==> !Runnable(Val().pool, ring[j]);
      K.SkippedIs(Val().pool, ring, r);
    }

    /** End the current context: the processor goes to the first runnable
        context from its successor on. */
    method Exit()
      requires Valid() && K.May(Val(), K.Exiting)
      modifies this`current, this`ring, ring`next, ring`state
      ensures Valid() && sems == old(sems) && Val() == K.Exit(old(Val()))
    {
      hide Inv, NoRepeat, K.KernelInv, Semaphore.Chained, Circular, K.Skipped, K.SwitchTo, States, Sems, K.May;
      K.ExitInv(Val());
      Leave();
      SomeoneRuns();
      var next, r := Search(current, ring);
      WalkIsSkipped(r);
      SwitchTo(next, r);
    }

    lemma WithoutCurrent()
      requires Valid() && K.May(Val(), K.Exiting)
      ensures States(ring[1..]) == K.Left(Val()).pool.states && NoRepeat(ring[1..]) && |ring| >= 2
      ensures forall i: nat :: i < |sems| ==> sems[i].Chained(ring[1..])
      ensures K.Skipped(K.Left(Val()).pool, ring[1..]) < |ring| - 1
    {
      hide Inv, K.Skipped, Circular;
      K.LeftSpec(Val());
      OthersWait();
      forall i: nat | i < |sems| ensures sems[i].Chained(ring[1..]) { ChainedLess(sems[i], ring, ring[1..]); }
    }

    method Leave()
      requires Valid() && K.May(Val(), K.Exiting)
      modifies this`current, this`ring, ring`next
      ensures Shape() && sems == old(sems) && old(ring) != [] && Val() == K.Left(old(Val()))
      ensures K.Skipped(Val().pool, ring) < |ring|
    {
      hide Inv, Semaphore.Chained, K.KernelInv, K.Skipped, Circular, Runnable, K.OtherRunnable, NoRepeat, K.May;
      WithoutCurrent();
      var gone := Unlink();
      current := gone.next;
    }

    method NewSem(val: nat) returns (sem: Semaphore)
      requires Valid()
      modifies this`sems
      ensures Valid() && fresh(sem) && sems == old(sems) + [sem] && Val() == K.Do(old(Val()), K.NewSem(val))
    {
      hide *;
      sem := new Semaphore(val);
      Register(sem, val);
    }

    method Register(sem: Semaphore, ghost val: nat)
      requires Valid() && sem !in sems && sem.compteur == val && sem.ctxBlocked == null && sem.waiting == []
      modifies this`sems
      ensures Valid() && sems == old(sems) + [sem] && Val() == K.Do(old(Val()), K.NewSem(val))
    {
      hide Inv, K.KernelInv, Circular, States, Legal, Run, K.EventsOf, K.Exit, K.SemUp, K.SemDown, K.Yield, K.Create;
      K.DoInv(Val(), K.NewSem(val));
      sems := sems + [sem];
      assert Sems(sems) == Sems(old(sems)) + [Sem(val, [])];
    }

    /** The waiters form lists that do not go through the current context. */
    lemma ChainsAvoidCurrent()
      requires Valid() && !first
      ensures Shape() && ring != [] && ring[0] !in ring[1..]
      ensures forall i: nat :: i < |sems| ==> sems[i].Chained(ring[1..])
    {
      OthersWait();
      forall i: nat | i < |sems| ensures sems[i].Chained(ring[1..]) { ChainedLess(sems[i], ring, ring[1..]); }
    }

    /** The current context joins the front of the waiters. */
    method Push(sem: Semaphore)
      requires ring != [] && current == ring[0] && current !in ring[1..] && sem.Chained(ring[1..])
      modifies sem`ctxBlocked, sem`waiting, current`nextBlocked
      ensures sem.waiting == [ring[0]] + old(sem.waiting) && sem.Chained(ring)
    {
      ghost var was := sem.waiting;
      current.nextBlocked := sem.ctxBlocked;
      sem.ctxBlocked := current;
      sem.waiting := [current] + sem.waiting;
      forall i: nat | i < |sem.waiting|
        ensures sem.waiting[i] in ring && sem.waiting[i].nextBlocked == Rest(sem.waiting, i + 1)
      {
        if i > 0 {
          assert sem.waiting[i] == was[i - 1] && was[i - 1] in ring[1..];
          assert was[i - 1].nextBlocked == Rest(was, i);
        }
      }
    }

    lemma Distinct(s: nat)
      requires Shape() && s < |sems|
      ensures forall i: nat :: i < |sems| && i != s ==> sems[i] != sems[s]
    {}

    /** Put the current context at the front of the waiters. */
    method Join(sem: Semaphore, ghost s: nat)
      requires Valid() && !first && s < |sems| && sem == sems[s]
      modifies sem`ctxBlocked, sem`waiting, ring`nextBlocked
      ensures Shape() && ring != [] && current == ring[0]
      ensures var m := old(Sems(sems))[s]; Sems(sems) == old(Sems(sems))[s := m.(blocked := [ring[0]] + m.blocked)]
    {
      hide Inv, K.KernelInv, NoRepeat, Circular, Semaphore.Chained, States, Valid;
      ChainsAvoidCurrent();
      Distinct(s);
      Push(sem);
      forall i: nat | i < |sems| ensures sems[i].Chained(ring) {
        if i != s { ChainedMore(sems[i], ring[1..], ring); }
      }
    }

    lemma BeforeDown(s: nat)
      requires Valid() && K.May(Val(), K.Downing(s))
      ensures Shape() && K.BeforeYield(Val().(pool := Down(Val().pool, ring[0], s))) && !first && ring != []
      ensures sems[s].compteur > 0 ==> K.KernelInv(Val().(pool := Down(Val().pool, ring[0], s)))
      ensures s < |sems| && Val().ring == ring && Val().pool.sems[s].compteur == sems[s].compteur
    {
      hide Inv, K.KernelInv;
      K.DownBefore(Val(), s);
    }

    method Take(sem: Semaphore, ghost s: nat)
      requires Shape() && ring != [] && s < |sems| && sem == sems[s] && sem.compteur > 0
      modifies sem`compteur
      ensures Shape() && Val() == old(Val()).(pool := Down(old(Val()).pool, ring[0], s))
    {
      sem.compteur := sem.compteur - 1;
    }

    method Mark(c: Ctx, state: State)
      requires c in ring
      modifies c`state
      ensures States(ring) == old(States(ring))[c := state]
    {
      c.state := state;
    }

    method Block(sem: Semaphore, ghost s: nat)
      requires Valid() && !first && s < |sems| && sem == sems[s] && Val().pool.sems[s].compteur <= 0
      modifies sem`ctxBlocked, sem`waiting, ring`state, ring`nextBlocked
      ensures Shape() && Val() == old(Val()).(pool := Down(old(Val()).pool, ring[0], s))
    {
      hide Inv, Valid, Sems, States, Shape;
      Join(sem, s);
      Mark(current, Blocked);
    }

    /** sem_down: take a unit, or join the waiters and give the processor away. */
    method SemDown(sem: Semaphore, ghost s: nat)
      requires Valid() && K.May(Val(), K.Downing(s)) && sem == sems[s]
      modifies this`current, this`ring, this`first, ring`state, ring`nextBlocked, sem
      ensures Valid() && sems == old(sems) && Val() == K.SemDown(old(Val()), s)
    {
      hide Inv, K.KernelInv, K.BeforeYield, K.Yield, K.May, Down, Val, Shape;
      BeforeDown(s);
      if sem.compteur > 0 {
        Take(sem, s);
      } else {
        Block(sem, s);
        Yield();
      }
    }

    lemma BeforeUp(s: nat)
      requires Valid() && K.May(Val(), K.Upping(s))
      ensures s < |sems| && ring != [] && Shape() && Val().ring == ring
      ensures K.KernelInv(Val().(pool := Up(Val().pool, s))) && K.BeforeYield(Val().(pool := Up(Val().pool, s)))
      ensures Val().pool.sems[s].blocked == [] <==> sems[s].ctxBlocked == null
    {
      hide Inv, K.KernelInv;
      K.UpBefore(Val(), s);
      assert sems[s].Chained(ring);
    }

    method Release(sem: Semaphore, ghost s: nat)
      requires Shape() && s < |sems| && sem == sems[s] && sem.ctxBlocked == null
      modifies sem`compteur
      ensures Shape() && Val() == old(Val()).(pool := Up(old(Val()).pool, s))
    {
      sem.compteur := sem.compteur + 1;
    }

    /** The first waiter leaves the list. */
    method Pop(sem: Semaphore, ghost s: nat) returns (ctx: Ctx)
      requires Shape() && s < |sems| && sem == sems[s] && sem.ctxBlocked != null
      modifies sem`ctxBlocked, sem`waiting
      ensures Shape() && old(sem.waiting) != [] && ctx == old(sem.waiting)[0] && ctx in ring
      ensures Sems(sems) == old(Sems(sems))[s := Sem(sem.compteur, old(sem.waiting)[1..])]
    {
      hide NoRepeat, Circular, States, Semaphore.Chained;
      Distinct(s);
      ctx := PopFrom(sem);
    }

    method PopFrom(sem: Semaphore) returns (ctx: Ctx)
      requires sem.Chained(ring) && sem.ctxBlocked != null
      modifies sem`ctxBlocked, sem`waiting
      ensures old(sem.waiting) != [] && ctx == old(sem.waiting)[0] && ctx in ring
      ensures sem.waiting == old(sem.waiting)[1..] && sem.Chained(ring)
    {
      ctx := sem.ctxBlocked;
      assert ctx.nextBlocked == Rest(sem.waiting, 1);
      sem.ctxBlocked := ctx.nextBlocked;
      ghost var was := sem.waiting;
      sem.waiting := was[1..];
      forall i: nat | i < |sem.waiting|
        ensures sem.waiting[i] in ring && sem.waiting[i].nextBlocked == Rest(sem.waiting, i + 1)
      {
        assert sem.waiting[i] == was[i + 1] && was[i + 1].nextBlocked == Rest(was, i + 2);
      }
    }

    method Wake(sem: Semaphore, ghost s: nat)
      requires Shape() && s < |sems| && sem == sems[s] && sem.ctxBlocked != null
      modifies sem`ctxBlocked, sem`waiting, ring`state
      ensures Shape() && Val() == old(Val()).(pool := Up(old(Val()).pool, s))
    {
      assert Val().pool.sems[s] == Sem(sem.compteur, sem.waiting);
      hide Sems, States, Shape;
      var ctx := Pop(sem, s);
      Mark(ctx, Ready);
    }

    /** sem_up: hand the unit to the first waiter, or give it back and yield. */
    method SemUp(sem: Semaphore, ghost s: nat)
      requires Valid() && K.May(Val(), K.Upping(s)) && sem == sems[s]
      modifies this`current, this`ring, this`first, ring`state, sem
      ensures Valid() && sems == old(sems) && Val() == K.SemUp(old(Val()), s)
    {
      hide Inv, K.KernelInv, K.BeforeYield, K.Yield, K.May, Up, Val, Shape;
      BeforeUp(s);
      if sem.ctxBlocked != null {
        Wake(sem, s);
      } else {
        Release(sem, s);
        Yield();
      }
    }
  }
}
