/** The producers and consumers of src/semtester.c: any number of each, any
    interleaving, three semaphores. */
module BoundedBuffer {
  import opened Semaphores

  const MAX_BUFFER: nat := 5

  // the three semaphores
  const MUTEX: nat := 0
  const FILL: nat := 1
  const EMPTY: nat := 2

  datatype Role = Producer | Consumer

  /** pc 0 and 1: about to go down on the first semaphore, then on the mutex;
      2: about to move head or tail; 3 and 4: about to go up on the mutex, then
      on the second semaphore. */
  datatype Proc = Proc(role: Role, pc: nat)

  datatype World = World(pool: Pool<nat>, procs: seq<Proc>, head: int, tail: int)

  function First(r: Role): nat {
    if r.Producer? then EMPTY else FILL
  }

  function Second(r: Role): nat {
    if r.Producer? then FILL else EMPTY
  }

  datatype Move = Begin(i: nat) | Act(i: nat)

  predicate Ready(w: World, m: Move) {
    && m.i < |w.procs| && m.i in w.pool.states && |w.pool.sems| == 3
    && w.pool.states[m.i] == if m.Begin? then Activable else State.Ready
  }

  /** One statement of a context that is not blocked. */
  function Step(w: World, m: Move): World
    requires Ready(w, m)
  {
    var i := m.i;
    if m.Begin? then w.(pool := w.pool.(states := w.pool.states[i := State.Ready]))
    else
      var p := w.procs[i];
      match p.pc
      case 0 => w.(procs := w.procs[i := p.(pc := 1)], pool := Down(w.pool, i, First(p.role)))
      case 1 => w.(procs := w.procs[i := p.(pc := 2)], pool := Down(w.pool, i, MUTEX))
      case 2 =>
        var moved := w.(procs := w.procs[i := p.(pc := 3)]);
        if p.role.Producer? then moved.(head := w.head + 1) else moved.(tail := w.tail + 1)
      case 3 => w.(procs := w.procs[i := p.(pc := 4)], pool := Up(w.pool, MUTEX))
      case _ => w.(procs := w.procs[i := p.(pc := 0)], pool := Up(w.pool, Second(p.role)))
  }

  function Start(roles: seq<Role>): World {
    World(
      Pool(AllNew(|roles|), [Sem(1, []), Sem(0, []), Sem(MAX_BUFFER, [])]),
      seq(|roles|, i requires 0 <= i < |roles| => Proc(roles[i], 0)), 0, 0)
  }

  // ----- where the units are -----

  /** A context as the accounts see it. */
  datatype Cell = Cell(role: Role, pc: nat, blocked: bool)

  function CellOf(w: World, i: nat): Cell
    requires i < |w.procs|
  {
    Cell(w.procs[i].role, w.procs[i].pc, i in w.pool.states && w.pool.states[i] == Blocked)
  }

  function Cells(w: World): (r: seq<Cell>)
    ensures |r| == |w.procs| && forall i: nat :: i < |r| ==> r[i] == CellOf(w, i)
  {
    seq(|w.procs|, i requires 0 <= i < |w.procs| => CellOf(w, i))
  }

  /** Between its down and its up on the mutex. */
  predicate Critical(c: Cell) {
    (c.pc == 2 || c.pc == 3) && !c.blocked
  }

  /** Holds the unit of its first semaphore. */
  predicate InFlight(c: Cell) {
    c.pc > 1 || (c.pc == 1 && !c.blocked)
  }

  /** Has produced an item not yet signalled, or taken the signal of an item it
      has not yet removed. */
  predicate Pending(c: Cell) {
    if c.role.Producer? then c.pc > 2 else InFlight(c) && c.pc <= 2
  }

  function Count(cs: seq<Cell>, f: Cell -> bool): nat {
    if cs == [] then 0 else (if f(cs[0]) then 1 else 0) + Count(cs[1..], f)
  }

  lemma {:induction false} CountSet(cs: seq<Cell>, i: nat, c: Cell, f: Cell -> bool)
    requires i < |cs|
    ensures Count(cs[i := c], f) == Count(cs, f) - (if f(cs[i]) then 1 else 0) + if f(c) then 1 else 0
  {
    if i == 0 {
      assert cs[i := c][1..] == cs[1..];
    } else {
      assert cs[i := c][1..] == cs[1..][i - 1 := c];
      CountSet(cs[1..], i - 1, c, f);
    }
  }

  lemma {:induction false} CountsOne(cs: seq<Cell>, i: nat, f: Cell -> bool)
    requires i < |cs| && f(cs[i])
    ensures Count(cs, f) >= 1
  {
    if i > 0 { CountsOne(cs[1..], i - 1, f); }
  }

  lemma {:induction false} CountsTwo(cs: seq<Cell>, i: nat, j: nat, f: Cell -> bool)
    requires i < j < |cs| && f(cs[i]) && f(cs[j])
    ensures Count(cs, f) >= 2
  {
    if i > 0 { CountsTwo(cs[1..], i - 1, j - 1, f); } else { CountsOne(cs[1..], j - 1, f); }
  }

  lemma {:induction false} CountsNone(cs: seq<Cell>, f: Cell -> bool)
    ensures (forall i: nat :: i < |cs| ==> !f(cs[i])) <==> Count(cs, f) == 0
  {
    if cs != [] {
      CountsNone(cs[1..], f);
      if forall i: nat :: i < |cs[1..]| ==> !f(cs[1..][i]) {
        assert forall i: nat :: 0 < i < |cs| ==> cs[i] == cs[1..][i - 1];
      }
    }
  }

  lemma {:induction false} CountsMore(cs: seq<Cell>, f: Cell -> bool, g: Cell -> bool)
    requires forall i: nat :: i < |cs| && f(cs[i]) ==> g(cs[i])
    ensures Count(cs, f) <= Count(cs, g)
  {
    if cs != [] {
      forall i: nat | i < |cs[1..]| && f(cs[1..][i]) ensures g(cs[1..][i]) { assert cs[1..][i] == cs[i + 1]; }
      CountsMore(cs[1..], f, g);
    }
  }

  // ----- the invariant -----

  /** A waiting context waits for the semaphore of the statement it is at. */
  predicate WaitsRight(w: World, i: nat, s: nat) {
    && i < |w.procs|
    && ((w.procs[i].pc == 1 && s == First(w.procs[i].role)) || (w.procs[i].pc == 2 && s == MUTEX))
  }

  ghost predicate Accounts(w: World)
    requires |w.pool.sems| == 3
  {
    var cs, sems := Cells(w), w.pool.sems;
    && sems[MUTEX].compteur + Count(cs, Critical) == 1
    && sems[EMPTY].compteur + sems[FILL].compteur + Count(cs, InFlight) == MAX_BUFFER
    && w.head - w.tail == sems[FILL].compteur + Count(cs, Pending)
  }

  lemma StartInv(roles: seq<Role>)
    ensures WorldInv(Start(roles))
  {
    var w := Start(roles);
    forall c, s: nat ensures !Waits(w.pool, c, s) { }
    CountsNone(Cells(w), Critical);
    CountsNone(Cells(w), InFlight);
    CountsNone(Cells(w), Pending);
  }

  /** The accounts after the cell of one context changes. */
  lemma OneCell(w: World, v: World, i: nat, was: Cell, c: Cell)
    requires i < |Cells(w)| && Cells(w)[i] == was && Cells(v) == Cells(w)[i := c]
    ensures
      && Count(Cells(v), Critical) == Count(Cells(w), Critical) - Bit(Critical(was)) + Bit(Critical(c))
      && Count(Cells(v), InFlight) == Count(Cells(w), InFlight) - Bit(InFlight(was)) + Bit(InFlight(c))
      && Count(Cells(v), Pending) == Count(Cells(w), Pending) - Bit(Pending(was)) + Bit(Pending(c))
  {
    CountSet(Cells(w), i, c, Critical);
    CountSet(Cells(w), i, c, InFlight);
    CountSet(Cells(w), i, c, Pending);
  }

  function Bit(b: bool): nat {
    if b then 1 else 0
  }

  lemma RunnerWaitsNowhere(w: World, i: nat)
    requires Shape(w) && i < |w.procs| && w.pool.states[i] != Blocked
    ensures forall t: nat :: t < 3 ==> i !in w.pool.sems[t].blocked
  {
    forall t: nat | t < 3 ensures i !in w.pool.sems[t].blocked {
      assert !Waits(w.pool, i, t);
    }
  }

  predicate At(w: World, i: nat, pc: nat) {
    Ready(w, Act(i)) && w.procs[i].pc == pc
  }

  /** About to go down on s. */
  predicate AtDown(w: World, i: nat, s: nat) {
    (At(w, i, 0) && s == First(w.procs[i].role)) || (At(w, i, 1) && s == MUTEX)
  }

  /** About to go up on s. */
  predicate AtUp(w: World, i: nat, s: nat) {
    (At(w, i, 3) && s == MUTEX) || (At(w, i, 4) && s == Second(w.procs[i].role))
  }

  /** The order of the statements: everything in the invariant but the accounts. */
  ghost predicate Shape(w: World) {
    && Inv(w.pool) && |w.pool.sems| == 3
    && (forall i: nat :: i in w.pool.states <==> i < |w.procs|)
    && (forall i: nat :: i < |w.procs| ==> w.procs[i].pc <= 4)
    && (forall s: nat :: s < 3 ==> forall i <- w.pool.sems[s].blocked :: WaitsRight(w, i, s))
  }

  ghost predicate WorldInv(w: World) {
    Shape(w) && Accounts(w)
  }

  lemma DownWaits(w: World, i: nat, s: nat)
    requires Shape(w) && AtDown(w, i, s)
    ensures var v := Step(w, Act(i));
      forall t: nat :: t < 3 ==> forall j <- v.pool.sems[t].blocked :: WaitsRight(v, j, t)
  {
    RunnerWaitsNowhere(w, i);
    hide Inv, Shape;
    var v := Step(w, Act(i));
    forall t: nat, j | t < 3 && j in v.pool.sems[t].blocked ensures WaitsRight(v, j, t) {
      if j != i {
        assert j in w.pool.sems[t].blocked;
        ShapeWaits(w, j, t);
      }
    }
  }

  lemma ShapeWaits(w: World, j: nat, t: nat)
    requires Shape(w) && t < 3 && j in w.pool.sems[t].blocked
    ensures WaitsRight(w, j, t)
  {}

  lemma DownShape(w: World, i: nat, s: nat)
    requires Shape(w) && AtDown(w, i, s)
    ensures Shape(Step(w, Act(i))) && w.pool.sems[s].compteur >= 0
  {
    assert w.pool.sems[s].compteur >= 0;
    hide Inv, WaitsRight;
    DownWaits(w, i, s);
    DownKeepsInv(w.pool, i, s);
  }

  lemma DownCells(w: World, i: nat, s: nat)
    requires Shape(w) && AtDown(w, i, s)
    ensures var p := w.procs[i];
      && Cells(w)[i] == Cell(p.role, p.pc, false)
      && Cells(Step(w, Act(i))) == Cells(w)[i := Cell(p.role, p.pc + 1, w.pool.sems[s].compteur <= 0)]
  {
    hide Inv, WaitsRight;
  }

  lemma DownStep(w: World, i: nat, s: nat)
    requires WorldInv(w) && AtDown(w, i, s)
    ensures WorldInv(Step(w, Act(i)))
  {
    hide Count, Inv, Shape, Cells;
    DownShape(w, i, s);
    DownCells(w, i, s);
    var p := w.procs[i];
    OneCell(w, Step(w, Act(i)), i, Cell(p.role, p.pc, false), Cell(p.role, p.pc + 1, w.pool.sems[s].compteur <= 0));
  }

  lemma MoveShape(w: World, i: nat)
    requires Shape(w) && At(w, i, 2)
    ensures Shape(Step(w, Act(i)))
    ensures var p := w.procs[i];
      && Cells(w)[i] == Cell(p.role, 2, false) && Cells(Step(w, Act(i))) == Cells(w)[i := Cell(p.role, 3, false)]
  {
    RunnerWaitsNowhere(w, i);
    hide Inv;
  }

  lemma MoveStep(w: World, i: nat)
    requires WorldInv(w) && At(w, i, 2)
    ensures WorldInv(Step(w, Act(i)))
  {
    hide Count, Inv, Shape, Cells;
    MoveShape(w, i);
    OneCell(w, Step(w, Act(i)), i, Cell(w.procs[i].role, 2, false), Cell(w.procs[i].role, 3, false));
  }

  /** The context past its up, before the unit goes to anyone. */
  function Upped(w: World, i: nat): World
    requires i < |w.procs|
  {
    var p := w.procs[i];
    w.(procs := w.procs[i := p.(pc := if p.pc == 3 then 4 else 0)])
  }

  lemma FirstWaiter(w: World, i: nat, s: nat)
    requires Shape(w) && AtUp(w, i, s) && w.pool.sems[s].blocked != []
    ensures var j := w.pool.sems[s].blocked[0];
      && j != i && WaitsRight(w, j, s) && w.pool.sems[s].compteur == 0
      && j in w.pool.states && w.pool.states[j] == Blocked
  {
    assert Waits(w.pool, w.pool.sems[s].blocked[0], s);
  }

  lemma UpShape(w: World, i: nat, s: nat)
    requires Shape(w) && AtUp(w, i, s)
    ensures Shape(Step(w, Act(i)))
  {
    RunnerWaitsNowhere(w, i);
    hide Inv;
    UpKeepsInv(w.pool, s);
    var v := Step(w, Act(i));
    forall t: nat, j | t < 3 && j in v.pool.sems[t].blocked ensures WaitsRight(v, j, t) {
      assert j in w.pool.sems[t].blocked && WaitsRight(w, j, t);
    }
  }

  lemma UpCells(w: World, i: nat, s: nat)
    requires Shape(w) && AtUp(w, i, s)
    ensures var p, b := w.procs[i], w.pool.sems[s].blocked;
      && Cells(w)[i] == Cell(p.role, p.pc, false)
      && Cells(Upped(w, i)) == Cells(w)[i := Cell(p.role, if p.pc == 3 then 4 else 0, false)]
      && (b == [] ==> Cells(Step(w, Act(i))) == Cells(Upped(w, i)))
      && (b != [] ==>
            var j := b[0];
            && WaitsRight(w, j, s) && w.pool.sems[s].compteur == 0 && j != i
            && Cells(Upped(w, i))[j] == Cell(w.procs[j].role, w.procs[j].pc, true)
            && Cells(Step(w, Act(i))) == Cells(Upped(w, i))[j := Cell(w.procs[j].role, w.procs[j].pc, false)])
  {
    if w.pool.sems[s].blocked != [] { FirstWaiter(w, i, s); }
    hide Inv, WaitsRight;
  }

  /** The unit goes to the first waiter, or back to the counter. */
  lemma UpStep(w: World, i: nat, s: nat)
    requires WorldInv(w) && AtUp(w, i, s)
    ensures WorldInv(Step(w, Act(i)))
  {
    hide Count, Inv, Shape, Cells;
    UpShape(w, i, s);
    UpCells(w, i, s);
    var p, b := w.procs[i], w.pool.sems[s].blocked;
    OneCell(w, Upped(w, i), i, Cell(p.role, p.pc, false), Cell(p.role, if p.pc == 3 then 4 else 0, false));
    if b != [] {
      var q := w.procs[b[0]];
      OneCell(Upped(w, i), Step(w, Act(i)), b[0], Cell(q.role, q.pc, true), Cell(q.role, q.pc, false));
    }
  }

  lemma BeginInv(w: World, i: nat)
    requires WorldInv(w) && Ready(w, Begin(i))
    ensures WorldInv(Step(w, Begin(i)))
  {
    hide Count;
    var v := Step(w, Begin(i));
    NextKeepsInv(w.pool, Started(i));
    hide Inv;
    assert Cells(v) == Cells(w);
  }

  lemma StepInv(w: World, m: Move)
    requires WorldInv(w) && Ready(w, m)
    ensures WorldInv(Step(w, m)) && |Step(w, m).procs| == |w.procs|
    ensures forall i: nat :: i < |w.procs| ==> Step(w, m).procs[i].role == w.procs[i].role
  {
    var i := m.i;
    if m.Begin? {
      BeginInv(w, i);
    } else {
      hide WorldInv, Accounts, Cells;
      match w.procs[i].pc
      case 0 => DownStep(w, i, First(w.procs[i].role));
      case 1 => DownStep(w, i, MUTEX);
      case 2 => MoveStep(w, i);
      case 3 => UpStep(w, i, MUTEX);
      case _ => UpStep(w, i, Second(w.procs[i].role));
    }
  }

  predicate Legal(w: World, ms: seq<Move>)
    decreases |ms|
  {
    ms != [] ==> Ready(w, ms[0]) && Legal(Step(w, ms[0]), ms[1..])
  }

  function Run(w: World, ms: seq<Move>): World
    requires Legal(w, ms)
    decreases |ms|
  {
    if ms == [] then w else Run(Step(w, ms[0]), ms[1..])
  }

  lemma {:induction false} RunInv(w: World, ms: seq<Move>)
    requires WorldInv(w) && Legal(w, ms)
    ensures WorldInv(Run(w, ms)) && |Run(w, ms).procs| == |w.procs|
    ensures forall i: nat :: i < |w.procs| ==> Run(w, ms).procs[i].role == w.procs[i].role
    decreases |ms|
  {
    hide WorldInv;
    if ms != [] {
      StepInv(w, ms[0]);
      RunInv(Step(w, ms[0]), ms[1..]);
    }
  }

  // ----- the theorems -----

  /** The statements that context i executes. */
  function Acts(ms: seq<Move>, i: nat): nat {
    if ms == [] then 0 else (if ms[0] == Act(i) then 1 else 0) + Acts(ms[1..], i)
  }

  /** How often a context of that role executes statement 2. */
  function Moved(w: World, ms: seq<Move>, r: Role): nat
    requires Legal(w, ms)
    decreases |ms|
  {
    if ms == [] then 0
    else
      (if ms[0].Act? && w.procs[ms[0].i].pc == 2 && w.procs[ms[0].i].role == r then 1 else 0)
      + Moved(Step(w, ms[0]), ms[1..], r)
  }

  lemma StepPc(w: World, m: Move, i: nat)
    requires Ready(w, m) && i < |w.procs| && w.procs[i].pc <= 4
    ensures var v := Step(w, m);
      && |v.procs| == |w.procs| && v.procs[i].role == w.procs[i].role
      && v.procs[i].pc == if m == Act(i) then (w.procs[i].pc + 1) % 5 else w.procs[i].pc
  {}

  /** A context executes its five statements in a circle, and nobody executes
      them for it. */
  lemma {:induction false} InCircles(w: World, ms: seq<Move>, i: nat)
    requires Legal(w, ms) && i < |w.procs| && w.procs[i].pc <= 4
    ensures |Run(w, ms).procs| == |w.procs| && Run(w, ms).procs[i].role == w.procs[i].role
    ensures Run(w, ms).procs[i].pc == (w.procs[i].pc + Acts(ms, i)) % 5
    decreases |ms|
  {
    hide Step, Ready;
    if ms != [] {
      StepPc(w, ms[0], i);
      InCircles(Step(w, ms[0]), ms[1..], i);
    }
  }

  /** head moves by one in each second statement of a producer, tail in each of
      a consumer, and neither in any other step. */
  lemma {:induction false} HeadAndTail(w: World, ms: seq<Move>)
    requires Legal(w, ms)
    ensures Run(w, ms).head == w.head + Moved(w, ms, Producer)
    ensures Run(w, ms).tail == w.tail + Moved(w, ms, Consumer)
    decreases |ms|
  {
    if ms != [] {
      StepMoves(w, ms[0]);
      hide Step, Ready;
      HeadAndTail(Step(w, ms[0]), ms[1..]);
    }
  }

  lemma StepMoves(w: World, m: Move)
    requires Ready(w, m)
    ensures var v, p := Step(w, m), w.procs[m.i];
      && v.head == w.head + (if m.Act? && p.pc == 2 && p.role == Producer then 1 else 0)
      && v.tail == w.tail + (if m.Act? && p.pc == 2 && p.role == Consumer then 1 else 0)
  {}

  /** What each context has done to head or tail. */
  function Items(roles: seq<Role>, ms: seq<Move>, r: Role, n: nat): nat
    requires n <= |roles|
  {
    if n == 0 then 0
    else Items(roles, ms, r, n - 1) + if roles[n - 1] == r then (Acts(ms, n - 1) + 2) / 5 else 0
  }

  /** From the start, head counts the items that producers have put and tail
      those that consumers have taken: one for each time that a context came to
      its third statement and executed it. */
  lemma Counted(roles: seq<Role>, ms: seq<Move>)
    requires Legal(Start(roles), ms)
    ensures var w := Run(Start(roles), ms);
      w.head == Items(roles, ms, Producer, |roles|) && w.tail == Items(roles, ms, Consumer, |roles|)
  {
    HeadAndTail(Start(roles), ms);
    MovedIsItems(Start(roles), roles, ms, Producer);
    MovedIsItems(Start(roles), roles, ms, Consumer);
    FreshPast(Start(roles), roles, Producer, |roles|);
    FreshPast(Start(roles), roles, Consumer, |roles|);
  }

  /** How often a context at statement pc comes past statement 2, counted from
      its last statement 0, in a more statements. */
  function Share(pc: nat, a: nat): nat {
    (pc + a + 2) / 5
  }

  /** The items that statements done before the run account for, and in all. */
  function Past(w: World, r: Role, n: nat): nat
    requires n <= |w.procs|
  {
    if n == 0 then 0 else Past(w, r, n - 1) + ShareOf(w, r, n - 1, 0)
  }

  function ShareOf(w: World, r: Role, i: nat, a: nat): nat
    requires i < |w.procs|
  {
    if w.procs[i].role == r then Share(w.procs[i].pc, a) else 0
  }

  function All(w: World, ms: seq<Move>, r: Role, n: nat): nat
    requires n <= |w.procs|
  {
    if n == 0 then 0 else All(w, ms, r, n - 1) + ShareOf(w, r, n - 1, Acts(ms, n - 1))
  }

  lemma {:induction false} FreshPast(w: World, roles: seq<Role>, r: Role, n: nat)
    requires w == Start(roles) && n <= |roles|
    ensures Past(w, r, n) == 0
  {
    if n > 0 { FreshPast(w, roles, r, n - 1); }
  }

  lemma {:induction false} StartAll(roles: seq<Role>, ms: seq<Move>, r: Role, n: nat)
    requires n <= |roles|
    ensures All(Start(roles), ms, r, n) == Items(roles, ms, r, n)
  {
    if n > 0 { StartAll(roles, ms, r, n - 1); }
  }

  lemma MovedIsItems(w: World, roles: seq<Role>, ms: seq<Move>, r: Role)
    requires w == Start(roles) && Legal(w, ms)
    ensures Moved(w, ms, r) + Past(w, r, |roles|) == Items(roles, ms, r, |roles|)
  {
    MovedIsAll(w, ms, r);
    StartAll(roles, ms, r, |roles|);
  }

  lemma {:induction false} MovedIsAll(w: World, ms: seq<Move>, r: Role)
    requires Legal(w, ms) && forall i: nat :: i < |w.procs| ==> w.procs[i].pc <= 4
    ensures Moved(w, ms, r) + Past(w, r, |w.procs|) == All(w, ms, r, |w.procs|)
    decreases |ms|
  {
    if ms == [] {
      NoMoves(w, r, |w.procs|);
    } else {
      var v := Step(w, ms[0]);
      forall i: nat | i < |w.procs| ensures v.procs[i].pc <= 4 && |v.procs| == |w.procs| { StepPc(w, ms[0], i); }
      MovedIsAll(v, ms[1..], r);
      OneMove(w, ms, r, |w.procs|);
    }
  }

  lemma {:induction false} NoMoves(w: World, r: Role, n: nat)
    requires n <= |w.procs|
    ensures All(w, [], r, n) == Past(w, r, n)
  {
    if n > 0 { NoMoves(w, r, n - 1); }
  }

  /** The first move, in the sums over the first n contexts. */
  lemma {:induction false} OneMove(w: World, ms: seq<Move>, r: Role, n: nat)
    requires ms != [] && Ready(w, ms[0]) && forall i: nat :: i < |w.procs| ==> w.procs[i].pc <= 4
    requires n <= |w.procs| == |Step(w, ms[0]).procs|
    ensures var v, m := Step(w, ms[0]), ms[0];
      All(w, ms, r, n) - Past(w, r, n) == All(v, ms[1..], r, n) - Past(v, r, n)
        + if m.Act? && m.i < n && w.procs[m.i].pc == 2 && w.procs[m.i].role == r then 1 else 0
  {
    hide Step, Ready, Acts, Share, ShareOf;
    if n > 0 {
      OneMove(w, ms, r, n - 1);
      OneTerm(w, ms, r, n - 1);
    }
  }

  lemma OneTerm(w: World, ms: seq<Move>, r: Role, i: nat)
    requires ms != [] && Ready(w, ms[0]) && i < |w.procs| == |Step(w, ms[0]).procs| && w.procs[i].pc <= 4
    ensures var v, m := Step(w, ms[0]), ms[0];
      ShareOf(w, r, i, Acts(ms, i)) - ShareOf(w, r, i, 0)
        == ShareOf(v, r, i, Acts(ms[1..], i)) - ShareOf(v, r, i, 0)
           + if m == Act(i) && w.procs[i].pc == 2 && w.procs[i].role == r then 1 else 0
  {
    StepPc(w, ms[0], i);
    hide Step, Ready, Acts, Share;
    ActsFirst(ms, i);
    Lap(w.procs[i].pc, Acts(ms[1..], i));
  }

  lemma ActsFirst(ms: seq<Move>, i: nat)
    requires ms != []
    ensures Acts(ms, i) == (if ms[0] == Act(i) then 1 else 0) + Acts(ms[1..], i)
  {}

  lemma Lap(pc: nat, a: nat)
    requires pc <= 4
    ensures var next := (pc + 1) % 5;
      Share(pc, 1 + a) - Share(pc, 0) == Share(next, a) - Share(next, 0) + if pc == 2 then 1 else 0
  {}

  /** The buffer never overflows nor underflows, in any run of any number of
      producers and consumers. */
  lemma Bounded(roles: seq<Role>, ms: seq<Move>)
    requires Legal(Start(roles), ms)
    ensures var w := Run(Start(roles), ms); 0 <= w.head - w.tail <= 5
  {
    StartInv(roles);
    RunInv(Start(roles), ms);
    var w := Run(Start(roles), ms);
    CountsMore(Cells(w), Pending, InFlight);
  }

  /** At most one context is between its down and its up on the mutex. */
  lemma Exclusive(roles: seq<Role>, ms: seq<Move>, i: nat, j: nat)
    requires Legal(Start(roles), ms) && i < |roles| && j < |roles|
    ensures var w := Run(Start(roles), ms);
      |w.procs| == |roles| && (Critical(CellOf(w, i)) && Critical(CellOf(w, j)) ==> i == j)
  {
    StartInv(roles);
    RunInv(Start(roles), ms);
    var cs := Cells(Run(Start(roles), ms));
    if Critical(cs[i]) && Critical(cs[j]) && i != j {
      CountsTwo(cs, if i < j then i else j, if i < j then j else i, Critical);
      assert false;
    }
  }

  /** If everybody were blocked, each at its first semaphore, one of the two
      would have a unit left, so nobody could be waiting on it. */
  lemma AllBlocked(w: World)
    requires WorldInv(w) && forall i: nat :: i < |w.procs| ==> w.pool.states[i] == Blocked
    ensures forall i: nat, j: nat :: i < |w.procs| && j < |w.procs| ==> w.procs[i].role == w.procs[j].role
  {
    CountsNone(Cells(w), Critical);
    assert w.pool.sems[MUTEX].blocked == [];
    forall i: nat | i < |w.procs|
      ensures w.procs[i].pc == 1 && i in w.pool.sems[First(w.procs[i].role)].blocked
    {
      assert i in w.pool.states;
      var s: nat :| Waits(w.pool, i, s);
      assert WaitsRight(w, i, s);
    }
    CountsNone(Cells(w), InFlight);
    assert w.pool.sems[EMPTY].compteur > 0 || w.pool.sems[FILL].compteur > 0;
  }

  /** Everybody waits. */
  predicate Stuck(w: World) {
    forall i <- w.pool.states :: w.pool.states[i] == Blocked
  }

  /** With a producer and a consumer somebody can always run. */
  lemma NoDeadlock(roles: seq<Role>, ms: seq<Move>)
    requires Legal(Start(roles), ms) && Producer in roles && Consumer in roles
    ensures !Stuck(Run(Start(roles), ms))
  {
    StartInv(roles);
    RunInv(Start(roles), ms);
    NeverStuck(roles, Run(Start(roles), ms));
  }

  lemma NeverStuck(roles: seq<Role>, w: World)
    requires WorldInv(w) && Producer in roles && Consumer in roles && |w.procs| == |roles|
    requires forall i: nat :: i < |roles| ==> w.procs[i].role == roles[i]
    ensures !Stuck(w)
  {
    var p: nat :| p < |roles| && roles[p] == Producer;
    var c: nat :| c < |roles| && roles[c] == Consumer;
    assert w.procs[p].role != w.procs[c].role;
    assert forall i: nat :: i < |w.procs| ==> i in w.pool.states;
    if Stuck(w) { AllBlocked(w); }
  }

  // ----- and only then -----

  /** The first m contexts wait, the others have not begun, and the semaphore s
      that they all need first has no unit. */
  ghost predicate Starving(w: World, m: nat, s: nat) {
    && m <= |w.procs| && |w.pool.sems| == 3 && s < 3 && w.pool.sems[s].compteur == 0
    && (forall i: nat :: i in w.pool.states <==> i < |w.procs|)
    && (forall i: nat :: i < m ==> w.pool.states[i] == Blocked)
    && (forall i: nat :: m <= i < |w.procs| ==>
          w.pool.states[i] == Activable && w.procs[i].pc == 0 && First(w.procs[i].role) == s)
  }

  lemma TwoMoves(w: World, m: Move, ms: seq<Move>)
    requires Ready(w, m) && Legal(Step(w, m), ms)
    ensures Legal(w, [m] + ms) && Run(w, [m] + ms) == Run(Step(w, m), ms)
  {
    assert ([m] + ms)[1..] == ms;
  }

  /** One after the other, the rest begin and block. */
  lemma {:induction false} AllStarve(w: World, m: nat, s: nat) returns (ms: seq<Move>)
    requires Starving(w, m, s)
    ensures Legal(w, ms) && Stuck(Run(w, ms))
    decreases |w.procs| - m
  {
    if m == |w.procs| {
      ms := [];
    } else {
      var u := Step(w, Begin(m));
      var v := Step(u, Act(m));
      assert Starving(v, m + 1, s);
      var rest := AllStarve(v, m + 1, s);
      TwoMoves(u, Act(m), rest);
      TwoMoves(w, Begin(m), [Act(m)] + rest);
      ms := [Begin(m)] + ([Act(m)] + rest);
    }
  }

  /** Context 0, a producer, has put k items in the buffer; nobody else has
      begun. */
  function Lone(roles: seq<Role>, k: nat, pc: nat): World
    requires roles != []
  {
    var w := Start(roles);
    w.(pool := Pool(w.pool.states[0 := State.Ready],
                    [Sem(if 2 <= pc <= 3 then 0 else 1, []), Sem(k - if pc >= 3 then 1 else 0, []),
                     Sem(MAX_BUFFER - k - if 0 < pc < 3 then 1 else 0, [])]),
       procs := w.procs[0 := Proc(Producer, pc)], head := k)
  }

  /** It fills the buffer. */
  lemma {:induction false} FillsUp(roles: seq<Role>, k: nat) returns (ms: seq<Move>)
    requires roles != [] && roles[0] == Producer && k <= MAX_BUFFER
    ensures Legal(Lone(roles, k, 0), ms) && Run(Lone(roles, k, 0), ms) == Lone(roles, MAX_BUFFER, 0)
    decreases MAX_BUFFER - k
  {
    if k == MAX_BUFFER {
      ms := [];
    } else {
      ms := FillsUp(roles, k + 1);
      OneItem(roles, k);
      TwoMoves(Lone(roles, k + 1, 4), Act(0), ms);
      TwoMoves(Lone(roles, k + 1, 3), Act(0), [Act(0)] + ms);
      TwoMoves(Lone(roles, k, 2), Act(0), [Act(0)] + ([Act(0)] + ms));
      TwoMoves(Lone(roles, k, 1), Act(0), [Act(0)] + ([Act(0)] + ([Act(0)] + ms)));
      TwoMoves(Lone(roles, k, 0), Act(0), [Act(0)] + ([Act(0)] + ([Act(0)] + ([Act(0)] + ms))));
      ms := [Act(0)] + ([Act(0)] + ([Act(0)] + ([Act(0)] + ([Act(0)] + ms))));
    }
  }

  lemma OneItem(roles: seq<Role>, k: nat)
    requires roles != [] && roles[0] == Producer && k < MAX_BUFFER
    ensures Ready(Lone(roles, k, 0), Act(0)) && Step(Lone(roles, k, 0), Act(0)) == Lone(roles, k, 1)
    ensures Ready(Lone(roles, k, 1), Act(0)) && Step(Lone(roles, k, 1), Act(0)) == Lone(roles, k, 2)
    ensures Ready(Lone(roles, k, 2), Act(0)) && Step(Lone(roles, k, 2), Act(0)) == Lone(roles, k + 1, 3)
    ensures Ready(Lone(roles, k + 1, 3), Act(0)) && Step(Lone(roles, k + 1, 3), Act(0)) == Lone(roles, k + 1, 4)
    ensures Ready(Lone(roles, k + 1, 4), Act(0)) && Step(Lone(roles, k + 1, 4), Act(0)) == Lone(roles, k + 1, 0)
  {
  }

  lemma {:induction false} RunConcat(w: World, ms: seq<Move>, ns: seq<Move>)
    requires Legal(w, ms) && Legal(Run(w, ms), ns)
    ensures Legal(w, ms + ns) && Run(w, ms + ns) == Run(Run(w, ms), ns)
    decreases |ms|
  {
    if ms == [] {
      assert ms + ns == ns;
    } else {
      assert (ms + ns)[1..] == ms[1..] + ns;
      RunConcat(Step(w, ms[0]), ms[1..], ns);
    }
  }

  lemma OfOneKind(roles: seq<Role>, i: nat)
    requires i < |roles|
    ensures Producer !in roles ==> roles[i] == Consumer
    ensures Consumer !in roles ==> roles[i] == Producer
  {
    assert roles[i] in roles;
    match roles[i] case Producer => case Consumer =>
  }

  /** Consumers only: each waits for an item. */
  lemma NoProducer(roles: seq<Role>) returns (ms: seq<Move>)
    requires Producer !in roles
    ensures Legal(Start(roles), ms) && Stuck(Run(Start(roles), ms))
  {
    forall i: nat | i < |roles| ensures Start(roles).procs[i] == Proc(Consumer, 0) { OfOneKind(roles, i); }
    ms := AllStarve(Start(roles), 0, FILL);
  }

  /** Producers only: the first fills the buffer, then each waits for room. */
  lemma NoConsumer(roles: seq<Role>) returns (ms: seq<Move>)
    requires Consumer !in roles && roles != []
    ensures Legal(Start(roles), ms) && Stuck(Run(Start(roles), ms))
  {
    forall i: nat | i < |roles| ensures Start(roles).procs[i] == Proc(Producer, 0) { OfOneKind(roles, i); }
    var w := Start(roles);
    assert Step(w, Begin(0)) == Lone(roles, 0, 0);
    var fill := FillsUp(roles, 0);
    var full := Lone(roles, MAX_BUFFER, 0);
    var rest := AllStarve(Step(full, Act(0)), 1, EMPTY);
    TwoMoves(full, Act(0), rest);
    RunConcat(Lone(roles, 0, 0), fill, [Act(0)] + rest);
    TwoMoves(w, Begin(0), fill + ([Act(0)] + rest));
    ms := [Begin(0)] + (fill + ([Act(0)] + rest));
  }

  ghost predicate Sticks(roles: seq<Role>, ms: seq<Move>) {
    Legal(Start(roles), ms) && Stuck(Run(Start(roles), ms))
  }

  /** The contexts can all get stuck exactly when there is no producer or no
      consumer among them. */
  lemma DeadlockIff(roles: seq<Role>)
    ensures (exists ms: seq<Move> :: Sticks(roles, ms)) <==> Producer !in roles || Consumer !in roles
  {
    if Producer !in roles {
      var ms := NoProducer(roles);
      assert Sticks(roles, ms);
    } else if Consumer !in roles {
      var ms := NoConsumer(roles);
      assert Sticks(roles, ms);
    } else if ms: seq<Move> :| Sticks(roles, ms) {
      NoDeadlock(roles, ms);
    }
  }
}
