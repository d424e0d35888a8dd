/** Counting semaphores shared by contexts (src/sem.c, src/ctx.c), with each
    call taken as one step and a released unit handed to the first waiter. */
module Semaphores {
  datatype State = Activable | Blocked | Ready

  /** A counter and the list of blocked contexts, most recent first. */
  datatype Sem<C> = Sem(compteur: int, blocked: seq<C>)

  datatype Pool<C> = Pool(states: map<C, State>, sems: seq<Sem<C>>)

  predicate Runnable<C(==)>(p: Pool<C>, c: C) {
    c in p.states && p.states[c] != Blocked
  }

  function Down<C(==)>(p: Pool<C>, c: C, s: nat): Pool<C>
    requires s < |p.sems|
  {
    var m := p.sems[s];
    if m.compteur > 0 then p.(sems := p.sems[s := m.(compteur := m.compteur - 1)])
    else Pool(p.states[c := Blocked], p.sems[s := m.(blocked := [c] + m.blocked)])
  }

  function Up<C(==)>(p: Pool<C>, s: nat): Pool<C>
    requires s < |p.sems|
  {
    var m := p.sems[s];
    if m.blocked == [] then p.(sems := p.sems[s := m.(compteur := m.compteur + 1)])
    else Pool(p.states[m.blocked[0] := Ready], p.sems[s := m.(blocked := m.blocked[1..])])
  }

  /** The states of n contexts that have not begun. */
  function AllNew(n: nat): (r: map<nat, State>)
    ensures forall i: nat :: (i in r <==> i < n) && (i in r ==> r[i] == Activable)
  {
    if n == 0 then map[] else AllNew(n - 1)[n - 1 := Activable]
  }

  // ----- the invariant -----

  predicate NoRepeat<C(==)>(q: seq<C>) {
    forall i: nat, j: nat :: i < j < |q| ==> q[i] != q[j]
  }

  predicate Waits<C(==)>(p: Pool<C>, c: C, s: nat) {
    s < |p.sems| && c in p.sems[s].blocked
  }

  /** A counter is never negative, and a unit is never left while someone waits. */
  predicate SemOk<C(==)>(m: Sem<C>) {
    m.compteur >= 0 && (m.compteur > 0 ==> m.blocked == []) && NoRepeat(m.blocked)
  }

  /** A context is blocked exactly when it waits, on one semaphore, once. */
  ghost predicate Inv<C>(p: Pool<C>) {
    && (forall s: nat :: s < |p.sems| ==> SemOk(p.sems[s]))
    && (forall s: nat :: s < |p.sems| ==> forall c <- p.sems[s].blocked :: c in p.states && p.states[c] == Blocked)
    && (forall c <- p.states :: p.states[c] == Blocked ==> exists s: nat :: Waits(p, c, s))
    && (forall c <- p.states, s: nat, t: nat :: Waits(p, c, s) && Waits(p, c, t) ==> s == t)
  }

  lemma DownKeepsInv<C>(p: Pool<C>, c: C, s: nat)
    requires Inv(p) && s < |p.sems| && Runnable(p, c)
    ensures Inv(Down(p, c, s)) && Down(p, c, s).states.Keys == p.states.Keys
    ensures forall d <- p.states :: d != c ==> Down(p, c, s).states[d] == p.states[d]
    ensures Runnable(Down(p, c, s), c) <==> p.sems[s].compteur > 0
  {
    var q := Down(p, c, s);
    if p.sems[s].compteur <= 0 {
      assert Waits(q, c, s);
      forall d, t: nat ensures Waits(q, d, t) <==> Waits(p, d, t) || (d == c && t == s) {
      }
      forall d <- p.states | d != c && p.states[d] == Blocked ensures exists t: nat :: Waits(q, d, t) {
        var t: nat :| Waits(p, d, t);
        assert Waits(q, d, t);
      }
    } else {
      forall d, t: nat ensures Waits(q, d, t) <==> Waits(p, d, t) { }
    }
  }

  lemma UpKeepsInv<C>(p: Pool<C>, s: nat)
    requires Inv(p) && s < |p.sems|
    ensures Inv(Up(p, s)) && Up(p, s).states.Keys == p.states.Keys
    ensures var b := p.sems[s].blocked;
      forall d <- p.states :: Up(p, s).states[d] == if b != [] && d == b[0] then Ready else p.states[d]
  {
    var q, b := Up(p, s), p.sems[s].blocked;
    if b != [] {
      assert Waits(p, b[0], s) && b[0] !in b[1..];
      forall d, t: nat ensures Waits(q, d, t) <==> Waits(p, d, t) && !(d == b[0] && t == s) { }
      forall t: nat, d | t < |q.sems| && d in q.sems[t].blocked ensures d in q.states && q.states[d] == Blocked {
        assert Waits(q, d, t) && Waits(p, d, t);
      }
      forall d <- p.states | d != b[0] && p.states[d] == Blocked ensures exists t: nat :: Waits(q, d, t) {
        var t: nat :| Waits(p, d, t);
        assert Waits(q, d, t);
      }
    } else {
      forall d, t: nat ensures Waits(q, d, t) <==> Waits(p, d, t) { }
    }
  }

  /** An up right after a down undoes it: the last to wait is the first served. */
  lemma DownUp<C>(p: Pool<C>, c: C, s: nat)
    requires Inv(p) && s < |p.sems| && c in p.states && p.states[c] == Ready
    ensures Up(Down(p, c, s), s) == p
  {
    var q := Up(Down(p, c, s), s);
    assert q.sems[s] == p.sems[s];
    assert q.sems == p.sems && q.states == p.states;
  }

  // ----- runs: any interleaving of the contexts that are not blocked -----

  datatype Event<C> =
    | Created(ctx: C)
    | Started(ctx: C)
    | Ended(ctx: C)
    | Initialised(val: nat)
    | TryDown(ctx: C, sem: nat)
    | DoUp(ctx: C, sem: nat)

  predicate Enabled<C(==)>(p: Pool<C>, e: Event<C>) {
    match e
    case Created(c) => c !in p.states
    case Started(c) => c in p.states && p.states[c] == Activable
    case Ended(c) => c in p.states && p.states[c] == Ready
    case Initialised(_) => true
    case TryDown(c, s) => c in p.states && p.states[c] == Ready && s < |p.sems|
    case DoUp(c, s) => c in p.states && p.states[c] == Ready && s < |p.sems|
  }

  function Next<C(==)>(p: Pool<C>, e: Event<C>): Pool<C>
    requires Enabled(p, e)
  {
    match e
    case Created(c) => p.(states := p.states[c := Activable])
    case Started(c) => p.(states := p.states[c := Ready])
    case Ended(c) => p.(states := p.states - {c})
    case Initialised(val) => p.(sems := p.sems + [Sem(val, [])])
    case TryDown(c, s) => Down(p, c, s)
    case DoUp(_, s) => Up(p, s)
  }

  lemma NextKeepsInv<C>(p: Pool<C>, e: Event<C>)
    requires Inv(p) && Enabled(p, e)
    ensures Inv(Next(p, e)) && |p.sems| <= |Next(p, e).sems|
  {
    var q := Next(p, e);
    match e
    case TryDown(c, s) => DownKeepsInv(p, c, s);
    case DoUp(_, s) => UpKeepsInv(p, s);
    case _ =>
      forall d, t: nat ensures Waits(q, d, t) <==> Waits(p, d, t) { }
      forall d <- q.states | q.states[d] == Blocked ensures exists t: nat :: Waits(q, d, t) {
        var t: nat :| Waits(p, d, t);
        assert Waits(q, d, t);
      }
  }

  predicate Legal<C(==)>(p: Pool<C>, es: seq<Event<C>>)
    decreases |es|
  {
    es != [] ==> Enabled(p, es[0]) && Legal(Next(p, es[0]), es[1..])
  }

  function Run<C(==)>(p: Pool<C>, es: seq<Event<C>>): Pool<C>
    requires Legal(p, es)
    decreases |es|
  {
    if es == [] then p else Run(Next(p, es[0]), es[1..])
  }

  function Downs<C(==)>(es: seq<Event<C>>, s: nat): nat {
    if es == [] then 0
    else (if es[0].TryDown? && es[0].sem == s then 1 else 0) + Downs(es[1..], s)
  }

  function Ups<C(==)>(es: seq<Event<C>>, s: nat): nat {
    if es == [] then 0
    else (if es[0].DoUp? && es[0].sem == s then 1 else 0) + Ups(es[1..], s)
  }

  /** A down completes on the spot, or when an up hands it the unit. */
  predicate Completes<C(==)>(p: Pool<C>, e: Event<C>, s: nat)
    requires Enabled(p, e) && s < |p.sems|
  {
    || (e.TryDown? && e.sem == s && p.sems[s].compteur > 0)
    || (e.DoUp? && e.sem == s && p.sems[s].blocked != [])
  }

  function Completed<C(==)>(p: Pool<C>, es: seq<Event<C>>, s: nat): nat
    requires Legal(p, es) && s < |p.sems|
    decreases |es|
  {
    if es == [] then 0
    else (if Completes(p, es[0], s) then 1 else 0) + Completed(Next(p, es[0]), es[1..], s)
  }

  /** Units are conserved over every run. */
  lemma {:induction false} Balance<C>(p: Pool<C>, es: seq<Event<C>>, s: nat)
    requires Inv(p) && Legal(p, es) && s < |p.sems|
    ensures var q := Run(p, es);
      && Inv(q) && |p.sems| <= |q.sems|
      && q.sems[s].compteur >= 0
      && q.sems[s].compteur + Completed(p, es, s) == p.sems[s].compteur + Ups(es, s)
      && Completed(p, es, s) + |q.sems[s].blocked| == Downs(es, s) + |p.sems[s].blocked|
    decreases |es|
  {
    if es != [] {
      NextKeepsInv(p, es[0]);
      Balance(Next(p, es[0]), es[1..], s);
    }
  }
}
