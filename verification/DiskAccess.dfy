/** Concurrent accesses to the one disk drive (src/mbr.c, src/drive.c): each
    read or write of a block is a sequence of register, buffer and command
    steps on a shared drive, inside the section guarded by mbr_mutex. */
module DiskAccess {
  import opened Semaphores
  import opened Disk

  const MAX_SECTOR: nat := 32
  const MUTEX: nat := 0

  type Bytes = seq<byte>

  datatype Place = Place(cyl: nat, sec: nat)

  /** The drive: its sectors, the position of the head, the data registers and
      MASTERBUFFER. */
  datatype Drive = Drive(sectors: map<Place, Bytes>, head: Place, cyl: nat, sec: nat, buffer: Bytes)

  function SectorAt(sectors: map<Place, Bytes>, p: Place): (r: Bytes)
    ensures |r| == BLOC_SIZE
  {
    if p in sectors && |sectors[p]| == BLOC_SIZE then sectors[p] else seq(BLOC_SIZE, _ => 0)
  }

  /** What a call asks for: read_nbloc and write_nbloc, whole blocks included. */
  datatype Job = Reading(at: Place, size: nat) | Writing(at: Place, data: Bytes)

  predicate JobOk(j: Job) {
    if j.Reading? then 0 < j.size <= BLOC_SIZE else 0 < |j.data| <= BLOC_SIZE
  }

  datatype Phase =
    | Idle
    | Wanting
    | Filling(done: nat)
    | SetCyl
    | SetSec
    | Seeking
    | Commanding
    | Draining
    | Leaving

  /** A context: its job, where it is, and the bytes it has got; `called` and
      `entry` are the length of the log at the call and at the command. */
  datatype Task = Task(job: Job, phase: Phase, got: Bytes, called: nat, entry: nat)

  /** One command that the drive executed. `tail` is what a partial write leaves
      after its bytes. */
  datatype Entry = Entry(ctx: nat, job: Job, tail: Bytes)

  datatype Return = Return(ctx: nat, job: Job, got: Bytes, called: nat, entry: nat)

  datatype World = World(
    pool: Pool<nat>,
    tasks: seq<Task>,
    drive: Drive,
    log: seq<Entry>,
    results: seq<Return>)

  datatype Move = Begin(ctx: nat) | Call(ctx: nat, job: Job) | Act(ctx: nat)

  predicate Ready(w: World, m: Move) {
    && m.ctx < |w.tasks| && m.ctx in w.pool.states && |w.pool.sems| == 1
    && (m.Begin? ==> w.pool.states[m.ctx] == Activable)
    && (!m.Begin? ==> w.pool.states[m.ctx] == State.Ready)
    && (m.Call? ==> JobOk(m.job) && w.tasks[m.ctx].phase.Idle?)
    && (m.Act? ==> !w.tasks[m.ctx].phase.Idle?)
  }

  /** A full buffer of bytes, whatever the length of b. */
  function Fit(b: Bytes): (r: Bytes)
    ensures |r| == BLOC_SIZE && (|b| == BLOC_SIZE ==> r == b)
  {
    if |b| >= BLOC_SIZE then b[..BLOC_SIZE] else b + seq(BLOC_SIZE - |b|, _ => 0)
  }

  /** One step of a context inside its call. */
  function Step(w: World, m: Move): World
    requires Ready(w, m)
  {
    var i := m.ctx;
    match m
    case Begin(_) => w.(pool := w.pool.(states := w.pool.states[i := State.Ready]))
    case Call(_, job) => w.(tasks := w.tasks[i := Task(job, Wanting, [], |w.log|, |w.log|)])
    case Act(_) =>
      var t, d := w.tasks[i], w.drive;
      match t.phase
      case Wanting =>
        // sem_down; a write fills MASTERBUFFER first
        Goto(w, i, if t.job.Writing? then Filling(0) else SetCyl).(pool := Down(w.pool, i, MUTEX))
      case Filling(k) =>
        if t.job.Writing? && k < |t.job.data| && k < |d.buffer|
        then Goto(w, i, Filling(k + 1)).(drive := d.(buffer := d.buffer[k := t.job.data[k]]))
        else Goto(w, i, SetCyl)
      case SetCyl => Goto(w, i, SetSec).(drive := d.(cyl := t.job.at.cyl))
      case SetSec => Goto(w, i, Seeking).(drive := d.(sec := t.job.at.sec))
      case Seeking => Goto(w, i, Commanding).(drive := d.(head := Place(d.cyl, d.sec)))
      case Commanding =>
        var n := |w.log|;
        if t.job.Reading?
        then w.(
          tasks := w.tasks[i := t.(phase := Draining, entry := n)],
          drive := d.(buffer := SectorAt(d.sectors, d.head)),
          log := w.log + [Entry(i, t.job, [])])
        else w.(
          tasks := w.tasks[i := t.(phase := Leaving, entry := n)],
          drive := d.(sectors := d.sectors[d.head := d.buffer]),
          log := w.log + [Entry(i, t.job, Rest(d.buffer, |t.job.data|))])
      case Draining =>
        if t.job.Reading? && |t.got| < t.job.size && |t.got| < |d.buffer|
        then w.(tasks := w.tasks[i := t.(got := t.got + [d.buffer[|t.got|]])])
        else Goto(w, i, Leaving)
      case Idle => w
      case Leaving =>
        // sem_up, and the call returns
        Goto(w, i, Idle).(
          pool := Up(w.pool, MUTEX),
          results := w.results + [Return(i, t.job, t.got, t.called, t.entry)])
  }

  function Rest(b: Bytes, n: nat): Bytes {
    if n <= |b| then b[n..] else []
  }

  function Goto(w: World, i: nat, ph: Phase): World
    requires i < |w.tasks|
  {
    w.(tasks := w.tasks[i := w.tasks[i].(phase := ph)])
  }

  // ----- the serial order -----

  /** The disk after the commands of the log, one whole access at a time. */
  function Replay(sectors: map<Place, Bytes>, log: seq<Entry>): map<Place, Bytes> {
    if log == [] then sectors
    else
      var before, last := Replay(sectors, log[..|log| - 1]), log[|log| - 1];
      if last.job.Writing? then before[last.job.at := last.job.data + last.tail] else before
  }

  /** What the access k of the log reads in the serial order. */
  function SerialRead(sectors: map<Place, Bytes>, log: seq<Entry>, k: nat): Bytes
    requires k < |log| && log[k].job.Reading?
  {
    var bs := SectorAt(Replay(sectors, log[..k]), log[k].job.at);
    if log[k].job.size <= |bs| then bs[..log[k].job.size] else bs
  }

  /** The call took place in the log between its start and its end, and it
      returned what the serial order gives. */
  predicate Answered(sectors: map<Place, Bytes>, log: seq<Entry>, r: Return) {
    && r.called <= r.entry < |log| && log[r.entry].ctx == r.ctx && log[r.entry].job == r.job
    && (r.job.Reading? ==> r.got == SerialRead(sectors, log, r.entry))
  }

  predicate EntryOk(e: Entry) {
    JobOk(e.job) && (e.job.Writing? ==> |e.job.data| + |e.tail| == BLOC_SIZE)
  }

  // ----- the invariant -----

  predicate IsBlocked(w: World, i: nat) {
    i in w.pool.states && w.pool.states[i] == Blocked
  }

  /** Between its down and its up on mbr_mutex. */
  predicate Critical(w: World, i: nat) {
    i < |w.tasks| && !w.tasks[i].phase.Idle? && !w.tasks[i].phase.Wanting? && !IsBlocked(w, i)
  }

  function Entering(j: Job): Phase {
    if j.Writing? then Filling(0) else SetCyl
  }

  predicate TaskOk(n: nat, t: Task) {
    && !t.phase.Idle? ==>
         && JobOk(t.job) && t.called <= n
         && (!t.phase.Draining? && !t.phase.Leaving? ==> t.got == [])
  }

  /** MASTERBUFFER holds the data of a write. */
  predicate Filled(d: Drive, j: Job) {
    j.Writing? ==> |j.data| <= |d.buffer| && d.buffer[..|j.data|] == j.data
  }

  /** What the drive is, for the context inside the section. */
  predicate Local(sectors: map<Place, Bytes>, d: Drive, log: seq<Entry>, t: Task, i: nat) {
    match t.phase
    case Idle => true
    case Wanting => true
    case Filling(k) => t.job.Writing? && k <= |t.job.data| <= |d.buffer| && d.buffer[..k] == t.job.data[..k]
    case SetCyl => Filled(d, t.job)
    case SetSec => Filled(d, t.job) && d.cyl == t.job.at.cyl
    case Seeking => Filled(d, t.job) && d.cyl == t.job.at.cyl && d.sec == t.job.at.sec
    case Commanding => Filled(d, t.job) && d.head == t.job.at
    case Draining =>
      && t.job.Reading? && t.called <= t.entry < |log| && log[t.entry].ctx == i && log[t.entry].job == t.job
      && d.buffer == SectorAt(Replay(sectors, log[..t.entry]), t.job.at)
      && |t.got| <= t.job.size <= |d.buffer| && t.got == d.buffer[..|t.got|]
    case Leaving => Answered(sectors, log, Return(i, t.job, t.got, t.called, t.entry))
  }

  ghost predicate Shape(w: World) {
    && Inv(w.pool) && |w.pool.sems| == 1
    && (forall i: nat :: i in w.pool.states <==> i < |w.tasks|)
    && (forall i <- w.pool.sems[MUTEX].blocked :: i < |w.tasks| && w.tasks[i].phase == Entering(w.tasks[i].job))
    && (forall i: nat :: i < |w.tasks| ==> TaskOk(|w.log|, w.tasks[i]))
  }

  /** The unit of the mutex: in the counter, or with one context. */
  ghost predicate Mutual(w: World)
    requires |w.pool.sems| == 1
  {
    && w.pool.sems[MUTEX].compteur <= 1
    && (w.pool.sems[MUTEX].compteur == 1 ==> forall i: nat :: !Critical(w, i))
    && (w.pool.sems[MUTEX].compteur != 1 ==> exists i: nat :: Critical(w, i))
    && (forall i: nat, j: nat :: Critical(w, i) && Critical(w, j) ==> i == j)
  }

  ghost predicate Global(sectors: map<Place, Bytes>, w: World) {
    && |w.drive.buffer| == BLOC_SIZE
    && w.drive.sectors == Replay(sectors, w.log)
    && (forall e <- w.log :: EntryOk(e))
    && (forall r <- w.results :: Answered(sectors, w.log, r))
  }

  ghost predicate WorldInv(sectors: map<Place, Bytes>, w: World) {
    && Shape(w) && Mutual(w) && Global(sectors, w)
    && forall i: nat :: Critical(w, i) ==> Local(sectors, w.drive, w.log, w.tasks[i], i)
  }

  // ----- the section -----

  lemma RunnerWaitsNowhere(w: World, i: nat)
    requires Shape(w) && i < |w.tasks| && w.pool.states[i] != Blocked
    ensures i !in w.pool.sems[MUTEX].blocked
  {
    assert !Waits(w.pool, i, MUTEX);
  }

  lemma DownShape(w: World, i: nat)
    requires Shape(w) && Ready(w, Act(i)) && w.tasks[i].phase.Wanting?
    ensures Shape(Step(w, Act(i))) && w.pool.sems[MUTEX].compteur >= 0
  {
    RunnerWaitsNowhere(w, i);
    assert w.pool.sems[MUTEX].compteur >= 0;
    hide Inv;
    DownKeepsInv(w.pool, i, MUTEX);
  }

  lemma DownMutual(w: World, i: nat)
    requires Shape(w) && Mutual(w) && Ready(w, Act(i)) && w.tasks[i].phase.Wanting?
    requires w.pool.sems[MUTEX].compteur >= 0
    ensures var v := Step(w, Act(i));
      && Mutual(v)
      && forall j: nat :: Critical(v, j) <==> Critical(w, j) || (j == i && w.pool.sems[MUTEX].compteur == 1)
  {
    hide Inv;
    var v := Step(w, Act(i));
    forall j: nat ensures Critical(v, j) <==> Critical(w, j) || (j == i && w.pool.sems[MUTEX].compteur == 1) {
    }
    if w.pool.sems[MUTEX].compteur == 1 {
      assert Critical(v, i);
    } else {
      var j: nat :| Critical(w, j);
      assert Critical(v, j);
    }
  }

  lemma DownStep(sectors: map<Place, Bytes>, w: World, i: nat)
    requires WorldInv(sectors, w) && Ready(w, Act(i)) && w.tasks[i].phase.Wanting?
    ensures WorldInv(sectors, Step(w, Act(i)))
  {
    hide Inv;
    DownShape(w, i);
    DownMutual(w, i);
  }

  lemma UpShape(w: World, i: nat)
    requires Shape(w) && Ready(w, Act(i)) && w.tasks[i].phase.Leaving?
    ensures Shape(Step(w, Act(i)))
  {
    RunnerWaitsNowhere(w, i);
    hide Inv;
    UpKeepsInv(w.pool, MUTEX);
  }

  /** The section passes to the first waiter, if there is one. */
  lemma UpMutual(w: World, i: nat)
    requires Shape(w) && Mutual(w) && Ready(w, Act(i)) && w.tasks[i].phase.Leaving?
    ensures var v, b := Step(w, Act(i)), w.pool.sems[MUTEX].blocked;
      && Mutual(v)
      && forall j: nat :: Critical(v, j) <==>
           b != [] && j == b[0] && j != i && j < |w.tasks| && w.tasks[j].phase == Entering(w.tasks[j].job)
  {
    var v, b := Step(w, Act(i)), w.pool.sems[MUTEX].blocked;
    RunnerWaitsNowhere(w, i);
    assert b != [] ==> Waits(w.pool, b[0], MUTEX);
    assert w.pool.sems[MUTEX].compteur >= 0;
    hide Inv;
    assert Critical(w, i);
    forall j: nat ensures Critical(v, j) <==> b != [] && j == b[0] {
      if j != i && Critical(w, j) { assert false; }
    }
    assert b != [] ==> Critical(v, b[0]);
  }

  lemma UpStep(sectors: map<Place, Bytes>, w: World, i: nat)
    requires WorldInv(sectors, w) && Ready(w, Act(i)) && w.tasks[i].phase.Leaving?
    ensures WorldInv(sectors, Step(w, Act(i)))
  {
    assert Critical(w, i);
    UpShape(w, i);
    UpMutual(w, i);
    hide Inv, Shape, Mutual, Answered, Replay;
  }

  /** In the section, between the down and the up. */
  predicate Inside(w: World, i: nat) {
    Ready(w, Act(i)) && !w.tasks[i].phase.Wanting? && !w.tasks[i].phase.Leaving?
  }

  lemma InsideShape(w: World, i: nat)
    requires Shape(w) && Mutual(w) && Inside(w, i)
    ensures Shape(Step(w, Act(i))) && Mutual(Step(w, Act(i)))
    ensures forall j: nat :: Critical(Step(w, Act(i)), j) <==> j == i
  {
    RunnerWaitsNowhere(w, i);
    hide Inv;
    assert Critical(w, i);
    var v := Step(w, Act(i));
    assert v.pool == w.pool;
    forall j: nat ensures Critical(v, j) <==> Critical(w, j) { }
  }

  lemma PrefixReplay(log: seq<Entry>, e: Entry, k: nat)
    requires k <= |log|
    ensures (log + [e])[..k] == log[..k]
  {}

  lemma AnsweredGrows(sectors: map<Place, Bytes>, log: seq<Entry>, e: Entry, r: Return)
    requires Answered(sectors, log, r)
    ensures Answered(sectors, log + [e], r)
  {
    PrefixReplay(log, e, r.entry);
  }

  /** The command of a context in the section does to the disk what the whole
      access does in the serial order. */
  lemma CommandStep(sectors: map<Place, Bytes>, w: World, i: nat)
    requires Global(sectors, w) && Inside(w, i) && w.tasks[i].phase.Commanding? && TaskOk(|w.log|, w.tasks[i])
    requires Local(sectors, w.drive, w.log, w.tasks[i], i)
    ensures var v := Step(w, Act(i));
      Global(sectors, v) && Local(sectors, v.drive, v.log, v.tasks[i], i)
  {
    var v, t := Step(w, Act(i)), w.tasks[i];
    var e := v.log[|w.log|];
    assert v.log == w.log + [e] && v.log[..|w.log|] == w.log;
    forall r <- v.results ensures Answered(sectors, v.log, r) { AnsweredGrows(sectors, w.log, e, r); }
    if t.job.Writing? {
      assert t.job.data + e.tail == w.drive.buffer;
    }
  }

  lemma DrainStep(sectors: map<Place, Bytes>, w: World, i: nat)
    requires Global(sectors, w) && Inside(w, i) && w.tasks[i].phase.Draining? && TaskOk(|w.log|, w.tasks[i])
    requires Local(sectors, w.drive, w.log, w.tasks[i], i)
    ensures var v := Step(w, Act(i));
      Global(sectors, v) && Local(sectors, v.drive, v.log, v.tasks[i], i)
  {
    var t, b := w.tasks[i], w.drive.buffer;
    if |t.got| < t.job.size {
      assert t.got + [b[|t.got|]] == b[..|t.got| + 1];
    }
  }

  lemma OtherStep(sectors: map<Place, Bytes>, w: World, i: nat)
    requires Global(sectors, w) && Inside(w, i) && TaskOk(|w.log|, w.tasks[i])
    requires !w.tasks[i].phase.Draining? && !w.tasks[i].phase.Commanding?
    requires Local(sectors, w.drive, w.log, w.tasks[i], i)
    ensures var v := Step(w, Act(i));
      Global(sectors, v) && Local(sectors, v.drive, v.log, v.tasks[i], i)
  {
    hide Replay, Answered;
    var t, v := w.tasks[i], Step(w, Act(i));
    if t.phase.Filling? && t.phase.done < |t.job.data| {
      var k := t.phase.done;
      assert v.drive.buffer[..k + 1] == w.drive.buffer[..k] + [t.job.data[k]];
      assert t.job.data[..k + 1] == t.job.data[..k] + [t.job.data[k]];
    }
  }

  lemma InsideStep(sectors: map<Place, Bytes>, w: World, i: nat)
    requires WorldInv(sectors, w) && Inside(w, i)
    ensures WorldInv(sectors, Step(w, Act(i)))
  {
    assert Critical(w, i) && TaskOk(|w.log|, w.tasks[i]);
    hide Shape, Mutual, Global, Local, TaskOk, Critical;
    InsideShape(w, i);
    match w.tasks[i].phase
    case Commanding => CommandStep(sectors, w, i);
    case Draining => DrainStep(sectors, w, i);
    case _ => OtherStep(sectors, w, i);
  }

  /** Steps outside the section. */
  lemma OutsideStep(sectors: map<Place, Bytes>, w: World, m: Move)
    requires WorldInv(sectors, w) && Ready(w, m) && !m.Act?
    ensures WorldInv(sectors, Step(w, m))
  {
    RunnerWaitsNowhere(w, m.ctx);
    if m.Begin? { NextKeepsInv(w.pool, Started(m.ctx)); }
    hide Inv, Replay, Answered;
    var v := Step(w, m);
    forall j: nat ensures Critical(v, j) <==> Critical(w, j) { }
  }

  lemma StepInv(sectors: map<Place, Bytes>, w: World, m: Move)
    requires WorldInv(sectors, w) && Ready(w, m)
    ensures WorldInv(sectors, Step(w, m))
  {
    hide WorldInv, Step;
    if !m.Act? {
      OutsideStep(sectors, w, m);
    } else if w.tasks[m.ctx].phase.Wanting? {
      DownStep(sectors, w, m.ctx);
    } else if w.tasks[m.ctx].phase.Leaving? {
      UpStep(sectors, w, m.ctx);
    } else {
      InsideStep(sectors, w, m.ctx);
    }
  }

  // ----- runs -----

  function Start(n: nat, drive: Drive): World {
    World(
      Pool(AllNew(n), [Sem(1, [])]),
      seq(n, _ => Task(Reading(Place(0, 0), 1), Idle, [], 0, 0)),
      drive.(buffer := Fit(drive.buffer)), [], [])
  }

  predicate Legal(w: World, ms: seq<Move>)
    decreases |ms|
  {
    ms != [] ==> Ready(w, ms[0]) && Legal(Step(w, ms[0]), ms[1..])
  }

  function Run(w: World, ms: seq<Move>): World
    requires Legal(w, ms)
    decreases |ms|
  {
    if ms == [] then w else Run(Step(w, ms[0]), ms[1..])
  }

  lemma StartInv(n: nat, drive: Drive)
    ensures WorldInv(drive.sectors, Start(n, drive))
  {
    var w := Start(n, drive);
    forall c, s: nat ensures !Waits(w.pool, c, s) { }
    assert forall i: nat :: !Critical(w, i);
  }

  lemma {:induction false} RunInv(sectors: map<Place, Bytes>, w: World, ms: seq<Move>)
    requires WorldInv(sectors, w) && Legal(w, ms)
    ensures WorldInv(sectors, Run(w, ms))
    decreases |ms|
  {
    hide WorldInv;
    if ms != [] {
      StepInv(sectors, w, ms[0]);
      RunInv(sectors, Step(w, ms[0]), ms[1..]);
    }
  }

  // ----- the theorems -----

  /** Every interleaving is equivalent to the serial order of its log: each call
      that has returned has its place in the log, between the length of the log
      when it was called and its present length, and got what a serial run of
      the log gives it; the disk is that of the serial run. */
  lemma Serializable(n: nat, drive: Drive, ms: seq<Move>)
    requires Legal(Start(n, drive), ms)
    ensures var w := Run(Start(n, drive), ms);
      && w.drive.sectors == Replay(drive.sectors, w.log)
      && forall r <- w.results :: Answered(drive.sectors, w.log, r)
  {
    StartInv(n, drive);
    RunInv(drive.sectors, Start(n, drive), ms);
  }

  /** The serial order respects real time: an access that has returned comes
      before every access called from then on. */
  lemma RealTime(n: nat, drive: Drive, ms: seq<Move>, m: Move, r: Return)
    requires Legal(Start(n, drive), ms)
    requires var w := Run(Start(n, drive), ms); m.Call? && Ready(w, m) && r in w.results
    ensures r.entry < Step(Run(Start(n, drive), ms), m).tasks[m.ctx].called
  {
    Serializable(n, drive, ms);
  }

  /** At most one context uses the drive; if one waits for it, one that can run
      is using it. */
  lemma OneUser(n: nat, drive: Drive, ms: seq<Move>)
    requires Legal(Start(n, drive), ms)
    ensures var w := Run(Start(n, drive), ms);
      && (forall i: nat, j: nat :: Critical(w, i) && Critical(w, j) ==> i == j)
      && ((exists i: nat :: IsBlocked(w, i)) ==> exists j: nat :: Critical(w, j))
  {
    StartInv(n, drive);
    RunInv(drive.sectors, Start(n, drive), ms);
    var w := Run(Start(n, drive), ms);
    if i: nat :| IsBlocked(w, i) {
      var s: nat :| Waits(w.pool, i, s);
      assert w.pool.sems[MUTEX].compteur != 1;
    }
  }

  /** The last write to a place among the first k accesses of the log; k if there
      is none. */
  function LastWrite(log: seq<Entry>, p: Place, k: nat): (r: nat)
    requires k <= |log|
    ensures r <= k
    ensures r < k ==> log[r].job.Writing? && log[r].job.at == p
    ensures forall j: nat :: j < k && log[j].job.Writing? && log[j].job.at == p ==> r < k && j <= r
    decreases k
  {
    if k == 0 then 0
    else if log[k - 1].job.Writing? && log[k - 1].job.at == p then k - 1
    else
      var r := LastWrite(log, p, k - 1);
      if r == k - 1 then k else r
  }

  lemma {:induction false} SectorIsLastWrite(sectors: map<Place, Bytes>, log: seq<Entry>, p: Place, k: nat)
    requires k <= |log| && forall e <- log :: EntryOk(e)
    ensures var r := LastWrite(log, p, k);
      SectorAt(Replay(sectors, log[..k]), p) ==
        if r < k then log[r].job.data + log[r].tail else SectorAt(sectors, p)
    decreases k
  {
    if k > 0 {
      assert log[..k][..k - 1] == log[..k - 1];
      assert EntryOk(log[k - 1]);
      SectorIsLastWrite(sectors, log, p, k - 1);
    }
  }

  // ----- from the calls -----

  /** What context i asks for, in order. */
  function Calls(ms: seq<Move>, i: nat): seq<Job> {
    if ms == [] then []
    else (if ms[0].Call? && ms[0].ctx == i then [ms[0].job] else []) + Calls(ms[1..], i)
  }

  /** The jobs that have returned to context i, in order. */
  function Returned(rs: seq<Return>, i: nat): seq<Job> {
    if rs == [] then []
    else Returned(rs[..|rs| - 1], i) + if rs[|rs| - 1].ctx == i then [rs[|rs| - 1].job] else []
  }

  /** The jobs that the drive has executed for context i, in order. */
  function Executed(log: seq<Entry>, i: nat): seq<Job> {
    if log == [] then []
    else Executed(log[..|log| - 1], i) + if log[|log| - 1].ctx == i then [log[|log| - 1].job] else []
  }

  /** The call in progress, and whether its command is still to come. */
  function Pending(t: Task): seq<Job> {
    if t.phase.Idle? then [] else [t.job]
  }

  function Ahead(t: Task): seq<Job> {
    if t.phase.Idle? || t.phase.Draining? || t.phase.Leaving? then [] else [t.job]
  }

  function Asked(m: Move, i: nat): seq<Job> {
    if m.Call? && m.ctx == i then [m.job] else []
  }

  /** One step on the job of a context, the log and the results. */
  lemma StepJobs(w: World, m: Move, i: nat)
    requires Ready(w, m) && i < |w.tasks|
    ensures var v, t, u := Step(w, m), w.tasks[i], Step(w, m).tasks[i];
      && |v.tasks| == |w.tasks|
      && (m.ctx != i ==> u == t)
      && (m == Call(i, u.job) ==> t.phase.Idle? && u.phase.Wanting?)
      && (m == Begin(i) ==> u == t)
      && (m == Act(i) ==> u.job == t.job && !t.phase.Idle? && !u.phase.Wanting?)
      && (m.Call? && m.ctx == i ==> u.job == m.job)
  {}

  lemma StepReturns(w: World, m: Move)
    requires Ready(w, m)
    ensures var v, t, u := Step(w, m), w.tasks[m.ctx], Step(w, m).tasks[m.ctx];
      if m.Act? && u.phase.Idle? then
        v.results != [] && v.results[..|v.results| - 1] == w.results
        && v.results[|w.results|].ctx == m.ctx && v.results[|w.results|].job == t.job
      else v.results == w.results
  {}

  lemma StepExecutes(w: World, m: Move)
    requires Ready(w, m)
    ensures var v, t, u := Step(w, m), w.tasks[m.ctx], Step(w, m).tasks[m.ctx];
      if m.Act? && Ahead(t) != Ahead(u) then
        v.log != [] && v.log[..|v.log| - 1] == w.log && Ahead(u) == []
        && v.log[|w.log|].ctx == m.ctx && v.log[|w.log|].job == t.job
      else v.log == w.log
  {}

  lemma StepAsksBack(w: World, m: Move, i: nat)
    requires Ready(w, m) && i < |w.tasks|
    ensures var v := Step(w, m);
      && |v.tasks| == |w.tasks|
      && Returned(v.results, i) + Pending(v.tasks[i]) == Returned(w.results, i) + Pending(w.tasks[i]) + Asked(m, i)
  {
    StepJobs(w, m, i);
    StepReturns(w, m);
    hide Step, Ready;
    var v, back := Step(w, m), Returned(w.results, i);
    if m.ctx != i {
      assert Returned(v.results, i) == back + [] && back + [] == back;
    } else if m.Act? && v.tasks[i].phase.Idle? {
      assert Returned(v.results, i) == back + [w.tasks[i].job];
      assert back + [w.tasks[i].job] + [] + [] == back + [w.tasks[i].job];
    } else {
      assert v.results == w.results;
    }
  }

  lemma StepAsksDrive(w: World, m: Move, i: nat)
    requires Ready(w, m) && i < |w.tasks|
    ensures var v := Step(w, m);
      && |v.tasks| == |w.tasks|
      && Executed(v.log, i) + Ahead(v.tasks[i]) == Executed(w.log, i) + Ahead(w.tasks[i]) + Asked(m, i)
  {
    StepJobs(w, m, i);
    StepExecutes(w, m);
    hide Step, Ready;
    var v, done := Step(w, m), Executed(w.log, i);
    if m.ctx != i {
      assert Executed(v.log, i) == done + [] && done + [] == done;
    } else if m.Act? && Ahead(w.tasks[i]) != Ahead(v.tasks[i]) {
      assert Executed(v.log, i) == done + [w.tasks[i].job];
      assert done + [w.tasks[i].job] + [] + [] == done + [w.tasks[i].job];
    } else {
      assert v.log == w.log;
    }
  }

  lemma {:induction false} RunAsks(w: World, ms: seq<Move>, i: nat)
    requires Legal(w, ms) && i < |w.tasks|
    ensures var v := Run(w, ms);
      && |v.tasks| == |w.tasks|
      && Returned(v.results, i) + Pending(v.tasks[i]) == Returned(w.results, i) + Pending(w.tasks[i]) + Calls(ms, i)
      && Executed(v.log, i) + Ahead(v.tasks[i]) == Executed(w.log, i) + Ahead(w.tasks[i]) + Calls(ms, i)
    decreases |ms|
  {
    hide Step, Ready;
    if ms != [] {
      StepAsksBack(w, ms[0], i);
      StepAsksDrive(w, ms[0], i);
      RunAsks(Step(w, ms[0]), ms[1..], i);
    }
  }

  /** What has returned to a context is what it called for, in order, up to the
      call in progress; and so is what the drive has executed for it. */
  lemma CallsReturn(n: nat, drive: Drive, ms: seq<Move>, i: nat)
    requires Legal(Start(n, drive), ms) && i < n
    ensures var w := Run(Start(n, drive), ms);
      && |w.tasks| == n
      && Calls(ms, i) == Returned(w.results, i) + Pending(w.tasks[i])
      && Calls(ms, i) == Executed(w.log, i) + Ahead(w.tasks[i])
  {
    RunAsks(Start(n, drive), ms, i);
  }

  /** How many steps of its own a context is from the end of its call. */
  function StepsLeft(t: Task): nat {
    var size := if t.job.Reading? then t.job.size else |t.job.data|;
    match t.phase
    case Idle => 0
    case Leaving => 1
    case Draining => 2 + Minus(size, |t.got|)
    case Commanding => 3 + size
    case Seeking => 4 + size
    case SetSec => 5 + size
    case SetCyl => 6 + size
    case Filling(k) => 7 + size + Minus(size, k)
    case Wanting => 8 + 2 * size
  }

  function Minus(a: nat, b: nat): nat {
    if b < a then a - b else 0
  }

  const MAX_STEPS: nat := 8 + 2 * BLOC_SIZE

  function Acts(ms: seq<Move>, i: nat): nat {
    if ms == [] then 0 else (if ms[0] == Act(i) then 1 else 0) + Acts(ms[1..], i)
  }

  lemma StepAdvances(w: World, m: Move, i: nat)
    requires Ready(w, m) && i < |w.tasks|
    ensures var v := Step(w, m);
      StepsLeft(v.tasks[i]) + (if m == Act(i) then 1 else 0) <=
        StepsLeft(w.tasks[i]) + if m.Call? && m.ctx == i then MAX_STEPS else 0
  {}

  lemma {:induction false} RunAdvances(w: World, ms: seq<Move>, i: nat)
    requires Legal(w, ms) && i < |w.tasks|
    ensures i < |Run(w, ms).tasks|
    ensures StepsLeft(Run(w, ms).tasks[i]) + Acts(ms, i) <= StepsLeft(w.tasks[i]) + MAX_STEPS * |Calls(ms, i)|
    decreases |ms|
  {
    hide Step, Ready;
    if ms != [] {
      StepAdvances(w, ms[0], i);
      StepJobs(w, ms[0], i);
      RunAdvances(Step(w, ms[0]), ms[1..], i);
    }
  }

  /** A call of a context returns within 1032 steps of that context, whatever
      the others do. */
  lemma EveryCallReturns(n: nat, drive: Drive, ms: seq<Move>, i: nat)
    requires Legal(Start(n, drive), ms) && i < n
    ensures Acts(ms, i) <= 1032 * |Calls(ms, i)|
    ensures Acts(ms, i) == 1032 * |Calls(ms, i)| ==> Returned(Run(Start(n, drive), ms).results, i) == Calls(ms, i)
  {
    RunAdvances(Start(n, drive), ms, i);
    CallsReturn(n, drive, ms, i);
  }

  // ----- nobody is stuck -----

  /** Contexts in a call have begun, and the log and the results are theirs. */
  ghost predicate Begun(w: World) {
    && |w.pool.sems| == 1
    && (forall i: nat :: i < |w.tasks| && !w.tasks[i].phase.Idle? ==> i in w.pool.states && w.pool.states[i] != Activable)
    && (forall e <- w.log :: e.ctx < |w.tasks|)
    && (forall r <- w.results :: r.ctx < |w.tasks|)
  }

  lemma StepBegun(w: World, m: Move)
    requires Begun(w) && Ready(w, m)
    ensures Begun(Step(w, m)) && |Step(w, m).tasks| == |w.tasks|
  {
    StepReturns(w, m);
    StepExecutes(w, m);
    var v := Step(w, m);
    forall e <- v.log ensures e.ctx < |v.tasks| { assert e in w.log || e == v.log[|w.log|]; }
    forall r <- v.results ensures r.ctx < |v.tasks| { assert r in w.results || r == v.results[|w.results|]; }
  }

  lemma {:induction false} RunBegun(w: World, ms: seq<Move>)
    requires Begun(w) && Legal(w, ms)
    ensures Begun(Run(w, ms)) && |Run(w, ms).tasks| == |w.tasks|
    decreases |ms|
  {
    hide Step, Ready, Begun;
    if ms != [] {
      StepBegun(w, ms[0]);
      RunBegun(Step(w, ms[0]), ms[1..]);
    }
  }

  /** While a call is in progress, some context in a call can take a step. */
  lemma NeverStuck(n: nat, drive: Drive, ms: seq<Move>, i: nat)
    requires Legal(Start(n, drive), ms)
    requires var w := Run(Start(n, drive), ms); i < |w.tasks| && !w.tasks[i].phase.Idle?
    ensures exists j: nat :: Ready(Run(Start(n, drive), ms), Act(j))
  {
    hide Run, Start, Legal;
    StartBegun(n, drive);
    RunBegun(Start(n, drive), ms);
    OneUser(n, drive, ms);
    var w := Run(Start(n, drive), ms);
    if IsBlocked(w, i) {
      var j: nat :| Critical(w, j);
      assert Ready(w, Act(j));
    } else {
      assert Ready(w, Act(i));
    }
  }

  lemma StartBegun(n: nat, drive: Drive)
    ensures Begun(Start(n, drive))
  {}

  lemma {:induction false} EntryIsThere(log: seq<Entry>, e: Entry)
    requires e in log
    ensures e.job in Executed(log, e.ctx)
  {
    var last := |log| - 1;
    if log[last] != e {
      assert e in log[..last];
      EntryIsThere(log[..last], e);
    }
  }

  /** The drive executes nothing that was not called for. */
  lemma EntryIsCalled(n: nat, drive: Drive, ms: seq<Move>, e: Entry)
    requires Legal(Start(n, drive), ms) && e in Run(Start(n, drive), ms).log
    ensures e.ctx < n && e.job in Calls(ms, e.ctx)
  {
    StartBegun(n, drive);
    RunBegun(Start(n, drive), ms);
    CallsReturn(n, drive, ms, e.ctx);
    EntryIsThere(Run(Start(n, drive), ms).log, e);
  }

  /** A read that a context called for, and that has returned, gives the first
      bytes of the last write to its place, called for too, in the serial order, as many as it asked for: those that were written, then what
      that write left of the sector; without a write, those of the start. */
  lemma ReadsLastWrite(n: nat, drive: Drive, ms: seq<Move>, r: Return)
    requires Legal(Start(n, drive), ms)
    requires r in Run(Start(n, drive), ms).results && r.job.Reading?
    ensures var log := Run(Start(n, drive), ms).log; var size := r.job.size;
      && r.entry < |log| && 0 < size <= BLOC_SIZE && |r.got| == size && r.job in Calls(ms, r.ctx)
      && var j := LastWrite(log, r.job.at, r.entry);
         if j < r.entry then
           var data := log[j].job.data;
           log[j].job in Calls(ms, log[j].ctx) &&
           if size <= |data| then r.got == data[..size]
           else data <= r.got <= data + log[j].tail
         else r.got == SectorAt(drive.sectors, r.job.at)[..size]
  {
    StartInv(n, drive);
    RunInv(drive.sectors, Start(n, drive), ms);
    var w := Run(Start(n, drive), ms);
    assert Answered(drive.sectors, w.log, r) && forall e <- w.log :: EntryOk(e);
    assert EntryOk(w.log[r.entry]);
    hide Shape, Mutual, Replay, Run, Start, Legal;
    EntryIsCalled(n, drive, ms, w.log[r.entry]);
    SectorIsLastWrite(drive.sectors, w.log, r.job.at, r.entry);
    var j := LastWrite(w.log, r.job.at, r.entry);
    if j < r.entry {
      assert EntryOk(w.log[j]);
      EntryIsCalled(n, drive, ms, w.log[j]);
      Prefix(w.log[j].job.data, w.log[j].tail, r.job.size);
    }
  }

  lemma Prefix(a: Bytes, b: Bytes, n: nat)
    requires n <= |a| + |b|
    ensures (a + b)[..n] == if n <= |a| then a[..n] else a + b[..n - |a|]
  {}

  // ----- volumes -----

  datatype Vol = Vol(cylinder: nat, sector: nat, nsectors: nat)

  /** ncyl_of_nbloc and nsec_of_nbloc. */
  function PlaceOf(v: Vol, bloc: nat): Place {
    Place(v.cylinder + (v.sector + bloc) / MAX_SECTOR, (v.sector + bloc) % MAX_SECTOR)
  }

  function Linear(p: Place): nat {
    p.cyl * MAX_SECTOR + p.sec
  }

  function Base(v: Vol): nat {
    v.cylinder * MAX_SECTOR + v.sector
  }

  predicate Disjoint(u: Vol, v: Vol) {
    Base(u) + u.nsectors <= Base(v) || Base(v) + v.nsectors <= Base(u)
  }

  lemma Address(v: Vol, bloc: nat)
    ensures Linear(PlaceOf(v, bloc)) == Base(v) + bloc && PlaceOf(v, bloc).sec < MAX_SECTOR
  {
    var s := v.sector + bloc;
    assert s == s / MAX_SECTOR * MAX_SECTOR + s % MAX_SECTOR;
  }

  /** Blocks of a volume never share a sector, nor do blocks of disjoint volumes. */
  lemma AddressInjective(u: Vol, m: nat, v: Vol, n: nat)
    ensures PlaceOf(u, m) == PlaceOf(v, n) <==> Base(u) + m == Base(v) + n
    ensures u == v && PlaceOf(u, m) == PlaceOf(v, n) ==> m == n
    ensures Disjoint(u, v) && m < u.nsectors && n < v.nsectors ==> PlaceOf(u, m) != PlaceOf(v, n)
  {
    Address(u, m);
    Address(v, n);
  }

  /** A log whose writes are in range of volumes disjoint from v leaves v alone. */
  lemma {:induction false} Isolated(sectors: map<Place, Bytes>, log: seq<Entry>, v: Vol, bloc: nat)
    requires bloc < v.nsectors
    requires forall e <- log :: e.job.Writing? ==>
      exists u: Vol, m: nat :: Disjoint(u, v) && m < u.nsectors && e.job.at == PlaceOf(u, m)
    ensures SectorAt(Replay(sectors, log), PlaceOf(v, bloc)) == SectorAt(sectors, PlaceOf(v, bloc))
  {
    if log != [] {
      var last := log[|log| - 1];
      if last.job.Writing? {
        var u: Vol, m: nat :| Disjoint(u, v) && m < u.nsectors && last.job.at == PlaceOf(u, m);
        AddressInjective(u, m, v, bloc);
      }
      Isolated(sectors, log[..|log| - 1], v, bloc);
    }
  }

  /** So in every run of the disk whose writes stay in such volumes. */
  lemma VolumesIsolated(n: nat, drive: Drive, ms: seq<Move>, v: Vol, bloc: nat)
    requires Legal(Start(n, drive), ms) && bloc < v.nsectors
    requires forall e <- Run(Start(n, drive), ms).log :: e.job.Writing? ==>
      exists u: Vol, m: nat :: Disjoint(u, v) && m < u.nsectors && e.job.at == PlaceOf(u, m)
    ensures SectorAt(Run(Start(n, drive), ms).drive.sectors, PlaceOf(v, bloc))
      == SectorAt(drive.sectors, PlaceOf(v, bloc))
  {
    Serializable(n, drive, ms);
    Isolated(drive.sectors, Run(Start(n, drive), ms).log, v, bloc);
  }
}
