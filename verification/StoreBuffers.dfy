/** The store-buffering program as an x86-TSO system: each thread has a FIFO of pending stores, a fence and
    every semaphore operation wait until the thread's own FIFO is empty. */
module StoreBuffers {

  datatype Loc = X | Y | Read0 | Read1

  datatype Store = Store(loc: Loc, val: int)

  datatype Memory = Memory(x: int, y: int, read0: int, read1: int) {
    function Get(l: Loc): int {
      match l case X => x case Y => y case Read0 => read0 case Read1 => read1
    }
    function Put(l: Loc, v: int): Memory {
      match l
      case X => this.(x := v)
      case Y => this.(y := v)
      case Read0 => this.(read0 := v)
      case Read1 => this.(read1 := v)
    }
  }

  /** What a thread's own load sees: its newest pending store to l, or memory. */
  function Load(m: Memory, buf: seq<Store>, l: Loc): int
    decreases |buf|
  {
    if buf == [] then m.Get(l)
    else if buf[|buf| - 1].loc == l then buf[|buf| - 1].val
    else Load(m, buf[..|buf| - 1], l)
  }

  /** Storing changes what the thread's own loads of that location see, at once, and nothing else. */
  lemma {:induction false} StoreIsSeen(m: Memory, buf: seq<Store>, l: Loc, l': Loc, v: int)
    ensures Load(m, buf + [Store(l, v)], l') == if l == l' then v else Load(m, buf, l')
  {
    assert (buf + [Store(l, v)])[..|buf|] == buf;
  }

  /** Draining the oldest store is invisible to the thread that made it. */
  lemma {:induction false} DrainIsUnseen(m: Memory, buf: seq<Store>, l: Loc)
    requires buf != []
    ensures Load(m.Put(buf[0].loc, buf[0].val), buf[1..], l) == Load(m, buf, l)
    decreases |buf|
  {
    var last := |buf| - 1;
    if last > 0 && buf[last].loc != l {
      assert buf[1..][..last - 1] == buf[..last][1..];
      DrainIsUnseen(m, buf[..last], l);
    }
  }

  /** Where thread0_impl and thread1_impl stand in their loops. */
  datatype WorkerPc = AtWait | AtStore | AtFence | AtLoad | AtSave(reg: int) | AtPost

  /** A worker with its FIFO and the semaphore it waits on. */
  datatype Worker = Worker(pc: WorkerPc, buf: seq<Store>, begin: nat)

  datatype MainPc = ClearX | ClearY | Post0 | Post1 | Wait1 | Wait2 | Check0 | Check1 | Reported

  datatype System = System(mem: Memory, w0: Worker, w1: Worker, mainBuf: seq<Store>, end: nat, pc: MainPc)

  /** Which of the two fences the program has. */
  datatype Fences = Fences(f0: bool, f1: bool)

  datatype Action = Run0 | Run1 | RunMain | Drain0 | Drain1 | DrainMain

  // ----- Steps -----

  predicate WorkerReady(w: Worker, fenced: bool) {
    match w.pc
    case AtWait => w.begin > 0 && w.buf == []
    case AtFence => fenced ==> w.buf == []
    case AtPost => w.buf == []
    case _ => true
  }

  /** One instruction of a worker that stores to mine, then loads other, then saves what it read in save. */
  function WorkerStep(w: Worker, m: Memory, mine: Loc, other: Loc, save: Loc): Worker {
    match w.pc
    case AtWait => w.(pc := AtStore, begin := if w.begin > 0 then w.begin - 1 else 0)
    case AtStore => w.(pc := AtFence, buf := w.buf + [Store(mine, 1)])
    case AtFence => w.(pc := AtLoad)
    case AtLoad => w.(pc := AtSave(Load(m, w.buf, other)))
    case AtSave(v) => w.(pc := AtPost, buf := w.buf + [Store(save, v)])
    case AtPost => w.(pc := AtWait)
  }

  predicate MainReady(s: System) {
    match s.pc
    case Post0 => s.mainBuf == []
    case Post1 => s.mainBuf == []
    case Wait1 => s.mainBuf == [] && s.end > 0
    case Wait2 => s.mainBuf == [] && s.end > 0
    case Reported => false
    case _ => true
  }

  function MainStep(s: System): System {
    match s.pc
    case ClearX => s.(pc := ClearY, mainBuf := s.mainBuf + [Store(X, 0)])
    case ClearY => s.(pc := Post0, mainBuf := s.mainBuf + [Store(Y, 0)])
    case Post0 => s.(pc := Post1, w0 := s.w0.(begin := s.w0.begin + 1))
    case Post1 => s.(pc := Wait1, w1 := s.w1.(begin := s.w1.begin + 1))
    case Wait1 => s.(pc := Wait2, end := if s.end > 0 then s.end - 1 else 0)
    case Wait2 => s.(pc := Check0, end := if s.end > 0 then s.end - 1 else 0)
    case Check0 => s.(pc := if Load(s.mem, s.mainBuf, Read0) == 0 then Check1 else ClearX)
    case Check1 => s.(pc := if Load(s.mem, s.mainBuf, Read1) == 0 then Reported else ClearX)
    case Reported => s
  }

  predicate Enabled(s: System, a: Action, f: Fences) {
    match a
    case Run0 => WorkerReady(s.w0, f.f0)
    case Run1 => WorkerReady(s.w1, f.f1)
    case RunMain => MainReady(s)
    case Drain0 => s.w0.buf != []
    case Drain1 => s.w1.buf != []
    case DrainMain => s.mainBuf != []
  }

  function Next(s: System, a: Action): System {
    match a
    case Run0 =>
      s.(w0 := WorkerStep(s.w0, s.mem, X, Y, Read0), end := if s.w0.pc == AtPost then s.end + 1 else s.end)
    case Run1 =>
      s.(w1 := WorkerStep(s.w1, s.mem, Y, X, Read1), end := if s.w1.pc == AtPost then s.end + 1 else s.end)
    case RunMain => MainStep(s)
    case Drain0 =>
      if s.w0.buf == [] then s
      else s.(mem := s.mem.Put(s.w0.buf[0].loc, s.w0.buf[0].val), w0 := s.w0.(buf := s.w0.buf[1..]))
    case Drain1 =>
      if s.w1.buf == [] then s
      else s.(mem := s.mem.Put(s.w1.buf[0].loc, s.w1.buf[0].val), w1 := s.w1.(buf := s.w1.buf[1..]))
    case DrainMain =>
      if s.mainBuf == [] then s
      else s.(mem := s.mem.Put(s.mainBuf[0].loc, s.mainBuf[0].val), mainBuf := s.mainBuf[1..])
  }

  const Start := System(Memory(0, 0, 0, 0), Worker(AtWait, [], 0), Worker(AtWait, [], 0), [], 0, ClearX)

  /** s reaches t by the actions of the run, each enabled in turn. */
  predicate Reaches(s: System, run: seq<Action>, t: System, f: Fences)
    decreases |run|
  {
    if run == [] then s == t else Enabled(s, run[0], f) && Reaches(Next(s, run[0]), run[1..], t, f)
  }

  // ----- The invariant -----

  /** Between the second wait and the next posts. */
  predicate MainAlone(pc: MainPc) {
    pc == ClearX || pc == ClearY || pc == Post0 || pc == Check0 || pc == Check1
  }

  predicate Idle(w: Worker) { w.pc == AtWait && w.buf == [] && w.begin == 0 }

  predicate Posted0(pc: MainPc) { pc == Post1 || pc == Wait1 || pc == Wait2 }

  predicate Posted1(pc: MainPc) { pc == Wait1 || pc == Wait2 }

  /** Main is past the post of this worker, and the worker has posted sem_end for it. */
  predicate Done(w: Worker, posted: bool) { posted && Idle(w) }

  /** A worker's place in an iteration, and what memory and its FIFO hold then.  mine is the current value of
      its flag in memory. */
  predicate WorkerInv(w: Worker, posted: bool, fenced: bool, mine: int, own: Loc, save: Loc) {
    && w.begin <= 1
    && (!posted ==> Idle(w))
    && (w.begin == 1 ==> w.pc == AtWait && w.buf == [] && mine == 0)
    && match w.pc
       case AtWait => w.buf == [] && (posted && w.begin == 0 ==> mine == 1)
       case AtStore => w.buf == [] && mine == 0
       case AtFence => (w.buf == [Store(own, 1)] && mine == 0) || (w.buf == [] && mine == 1)
       case AtLoad => w.buf == [] && mine == 1
       case AtSave(_) => w.buf == [] && mine == 1
       case AtPost => (w.buf == [] || (|w.buf| == 1 && w.buf[0].loc == save)) && mine == 1
  }

  /** This worker has loaded the other's flag in this iteration. */
  predicate HasRead(w: Worker, posted: bool) { w.pc.AtSave? || w.pc == AtPost || Done(w, posted) }

  /** The value it loaded, wherever it is on its way to memory. */
  function ReadValue(w: Worker, saved: int): int {
    if w.pc.AtSave? then w.pc.reg else if w.pc == AtPost && w.buf != [] then w.buf[0].val else saved
  }

  predicate MainBufInv(s: System) {
    match s.pc
    case ClearX => s.mainBuf == []
    case ClearY => s.mainBuf == [Store(X, 0)] || (s.mainBuf == [] && s.mem.x == 0)
    case Post0 =>
      || s.mainBuf == [Store(X, 0), Store(Y, 0)]
      || (s.mainBuf == [Store(Y, 0)] && s.mem.x == 0)
      || (s.mainBuf == [] && s.mem.x == 0 && s.mem.y == 0)
    case Post1 => s.mainBuf == [] && s.mem.y == 0
    case _ => s.mainBuf == []
  }

  function Count(b: bool): nat { if b then 1 else 0 }

  /** What holds in every reachable state of the fenced program. */
  predicate Inv(s: System) {
    var p0, p1 := Posted0(s.pc), Posted1(s.pc);
    && s.pc != Reported
    && MainBufInv(s)
    && WorkerInv(s.w0, p0, true, s.mem.x, X, Read0)
    && WorkerInv(s.w1, p1, true, s.mem.y, Y, Read1)
    && s.end + (if s.pc == Wait2 then 1 else 0) == Count(Done(s.w0, p0)) + Count(Done(s.w1, p1))
    && (HasRead(s.w0, p0) && HasRead(s.w1, p1) ==>
          !(ReadValue(s.w0, s.mem.read0) == 0 && ReadValue(s.w1, s.mem.read1) == 0))
    && (s.pc == Check0 ==> !(s.mem.read0 == 0 && s.mem.read1 == 0))
    && (s.pc == Check1 ==> s.mem.read1 != 0)
  }

  lemma {:induction false} StartInv()
    ensures Inv(Start)
  {
  }

  lemma {:induction false} Run0Kept(s: System)
    requires Inv(s) && Enabled(s, Run0, Fences(true, true))
    ensures Inv(Next(s, Run0))
  {
  }

  lemma {:induction false} Run1Kept(s: System)
    requires Inv(s) && Enabled(s, Run1, Fences(true, true))
    ensures Inv(Next(s, Run1))
  {
  }

  lemma {:induction false} RunMainKept(s: System)
    requires Inv(s) && Enabled(s, RunMain, Fences(true, true))
    ensures Inv(Next(s, RunMain))
  {
  }

  lemma {:induction false} DrainKept(s: System, a: Action)
    requires Inv(s) && Enabled(s, a, Fences(true, true)) && (a == Drain0 || a == Drain1 || a == DrainMain)
    ensures Inv(Next(s, a))
  {
  }

  lemma {:induction false} InvKept(s: System, a: Action)
    requires Inv(s) && Enabled(s, a, Fences(true, true))
    ensures Inv(Next(s, a))
  {
    hide Inv, Enabled, Next;
    match a
    case Run0 => Run0Kept(s);
    case Run1 => Run1Kept(s);
    case RunMain => RunMainKept(s);
    case _ => DrainKept(s, a);
  }

  lemma {:induction false} ReachableInv(s: System, run: seq<Action>, t: System)
    requires Inv(s) && Reaches(s, run, t, Fences(true, true))
    ensures Inv(t)
    decreases |run|
  {
    if run != [] {
      InvKept(s, run[0]);
      ReachableInv(Next(s, run[0]), run[1..], t);
    }
  }

  // ----- Safety -----

  /** With both fences: every state of every run, over any number of iterations, is free of the reordering, and
      main reads both values as memory has them when it checks. */
  lemma {:induction false} NoReordering(run: seq<Action>, t: System)
    requires Reaches(Start, run, t, Fences(true, true))
    ensures t.pc != Reported
    ensures t.pc == Check0 || t.pc == Check1 ==> t.mainBuf == [] && !(t.mem.read0 == 0 && t.mem.read1 == 0)
  {
    StartInv();
    ReachableInv(Start, run, t);
  }

  /** Between main's second wait and its next posts, no worker can execute or drain anything. */
  lemma {:induction false} WorkersQuiet(run: seq<Action>, t: System)
    requires Reaches(Start, run, t, Fences(true, true)) && MainAlone(t.pc)
    ensures forall a :: Enabled(t, a, Fences(true, true)) ==> a == RunMain || a == DrainMain
  {
    StartInv();
    ReachableInv(Start, run, t);
  }

  // ----- Without both fences -----

  lemma {:induction false} Extend(s: System, run: seq<Action>, t: System, a: Action, f: Fences)
    requires Reaches(s, run, t, f) && Enabled(t, a, f)
    ensures Reaches(s, run + [a], Next(t, a), f)
    decreases |run|
  {
    if run == [] {
      assert ([] + [a])[1..] == [];
      assert Reaches(Next(t, a), [], Next(t, a), f);
    } else {
      assert (run + [a])[0] == run[0] && (run + [a])[1..] == run[1..] + [a];
      Extend(Next(s, run[0]), run[1..], t, a, f);
    }
  }

  lemma {:induction false} Then(run: seq<Action>, t: System, a: Action, f: Fences)
    returns (run': seq<Action>, t': System)
    requires Reaches(Start, run, t, f) && Enabled(t, a, f)
    ensures Reaches(Start, run', t', f) && t' == Next(t, a)
  {
    Extend(Start, run, t, a, f);
    run', t' := run + [a], Next(t, a);
  }

  /** Main clears both flags, waits for the stores to drain, and lets both workers go. */
  lemma {:induction false} OpenIteration(f: Fences) returns (run: seq<Action>, t: System)
    ensures Reaches(Start, run, t, f)
    ensures t == System(Memory(0, 0, 0, 0), Worker(AtWait, [], 1), Worker(AtWait, [], 1), [], 0, Wait1)
  {
    run, t := [], Start;
    run, t := Then(run, t, RunMain, f);
    run, t := Then(run, t, RunMain, f);
    run, t := Then(run, t, DrainMain, f);
    run, t := Then(run, t, DrainMain, f);
    run, t := Then(run, t, RunMain, f);
    run, t := Then(run, t, RunMain, f);
  }

  /** Main waits for both workers, finds two zeros and reports. */
  lemma {:induction false} Report(run: seq<Action>, t: System, f: Fences) returns (run': seq<Action>, t': System)
    requires Reaches(Start, run, t, f) && t.pc == Wait1 && t.end == 2 && t.mainBuf == []
    requires t.mem.read0 == 0 && t.mem.read1 == 0
    ensures Reaches(Start, run', t', f) && t'.pc == Reported
  {
    run', t' := Then(run, t, RunMain, f);
    run', t' := Then(run', t', RunMain, f);
    run', t' := Then(run', t', RunMain, f);
    run', t' := Then(run', t', RunMain, f);
  }

  /** Worker 0 without its fence loads y while its own store to x is still pending. */
  lemma {:induction false} EarlyLoad0(f: Fences) returns (run: seq<Action>, t: System)
    requires !f.f0
    ensures Reaches(Start, run, t, f)
    ensures t == System(Memory(0, 0, 0, 0), Worker(AtSave(0), [Store(X, 1)], 0), Worker(AtWait, [], 1), [], 0, Wait1)
  {
    run, t := OpenIteration(f);
    run, t := Then(run, t, Run0, f);
    run, t := Then(run, t, Run0, f);
    run, t := Then(run, t, Run0, f);
    assert t.w0.buf == [Store(X, 1)];
    run, t := Then(run, t, Run0, f);
  }

  lemma {:induction false} EarlyLoad1(f: Fences) returns (run: seq<Action>, t: System)
    requires !f.f1
    ensures Reaches(Start, run, t, f)
    ensures t == System(Memory(0, 0, 0, 0), Worker(AtWait, [], 1), Worker(AtSave(0), [Store(Y, 1)], 0), [], 0, Wait1)
  {
    run, t := OpenIteration(f);
    run, t := Then(run, t, Run1, f);
    run, t := Then(run, t, Run1, f);
    run, t := Then(run, t, Run1, f);
    assert t.w1.buf == [Store(Y, 1)];
    run, t := Then(run, t, Run1, f);
  }

  /** The other worker then stores, drains, passes its fence and still loads the old flag. */
  lemma {:induction false} StaleLoad1(run0: seq<Action>, t0: System, f: Fences) returns (run: seq<Action>, t: System)
    requires Reaches(Start, run0, t0, f) && t0.w1 == Worker(AtWait, [], 1) && t0.mem == Memory(0, 0, 0, 0)
    ensures Reaches(Start, run, t, f)
    ensures t == t0.(mem := Memory(0, 1, 0, 0), w1 := Worker(AtSave(0), [], 0))
  {
    run, t := Then(run0, t0, Run1, f);
    run, t := Then(run, t, Run1, f);
    run, t := Then(run, t, Drain1, f);
    run, t := Then(run, t, Run1, f);
    run, t := Then(run, t, Run1, f);
  }

  lemma {:induction false} StaleLoad0(run0: seq<Action>, t0: System, f: Fences) returns (run: seq<Action>, t: System)
    requires Reaches(Start, run0, t0, f) && t0.w0 == Worker(AtWait, [], 1) && t0.mem == Memory(0, 0, 0, 0)
    ensures Reaches(Start, run, t, f)
    ensures t == t0.(mem := Memory(1, 0, 0, 0), w0 := Worker(AtSave(0), [], 0))
  {
    run, t := Then(run0, t0, Run0, f);
    run, t := Then(run, t, Run0, f);
    run, t := Then(run, t, Drain0, f);
    run, t := Then(run, t, Run0, f);
    run, t := Then(run, t, Run0, f);
  }

  /** A worker that has loaded 0 and has nothing pending finishes its iteration. */
  lemma {:induction false} Finish0(run0: seq<Action>, t0: System, f: Fences) returns (run: seq<Action>, t: System)
    requires Reaches(Start, run0, t0, f) && t0.w0 == Worker(AtSave(0), [], 0)
    ensures Reaches(Start, run, t, f)
    ensures t == t0.(mem := t0.mem.(read0 := 0), w0 := Worker(AtWait, [], 0), end := t0.end + 1)
  {
    run, t := Then(run0, t0, Run0, f);
    run, t := Then(run, t, Drain0, f);
    run, t := Then(run, t, Run0, f);
  }

  lemma {:induction false} Finish1(run0: seq<Action>, t0: System, f: Fences) returns (run: seq<Action>, t: System)
    requires Reaches(Start, run0, t0, f) && t0.w1 == Worker(AtSave(0), [], 0)
    ensures Reaches(Start, run, t, f)
    ensures t == t0.(mem := t0.mem.(read1 := 0), w1 := Worker(AtWait, [], 0), end := t0.end + 1)
  {
    run, t := Then(run0, t0, Run1, f);
    run, t := Then(run, t, Drain1, f);
    run, t := Then(run, t, Run1, f);
  }

  /** Without the first fence the program can report the reordering, whether or not it has the second. */
  lemma {:induction false} ReorderingWithout0(f: Fences) returns (run: seq<Action>, t: System)
    requires !f.f0
    ensures Reaches(Start, run, t, f) && t.pc == Reported
  {
    run, t := EarlyLoad0(f);
    run, t := StaleLoad1(run, t, f);
    run, t := Then(run, t, Drain0, f);
    assert t.w0.buf == [];
    run, t := Finish0(run, t, f);
    run, t := Finish1(run, t, f);
    run, t := Report(run, t, f);
  }

  lemma {:induction false} ReorderingWithout1(f: Fences) returns (run: seq<Action>, t: System)
    requires !f.f1
    ensures Reaches(Start, run, t, f) && t.pc == Reported
  {
    run, t := EarlyLoad1(f);
    run, t := StaleLoad0(run, t, f);
    run, t := Then(run, t, Drain1, f);
    assert t.w1.buf == [];
    run, t := Finish0(run, t, f);
    run, t := Finish1(run, t, f);
    run, t := Report(run, t, f);
  }

  ghost predicate Safe(f: Fences) {
    forall run, t :: Reaches(Start, run, t, f) ==> t.pc != Reported
  }

  /** No run reports the reordering exactly when both fences are there; one fence is not enough. */
  lemma {:induction false} SafeIffBothFences(f: Fences)
    ensures Safe(f) <==> f.f0 && f.f1
  {
    hide Reaches;
    if !f.f0 {
      var run, t := ReorderingWithout0(f);
      assert Reaches(Start, run, t, f) && t.pc == Reported;
    } else if !f.f1 {
      var run, t := ReorderingWithout1(f);
      assert Reaches(Start, run, t, f) && t.pc == Reported;
    } else {
      assert f == Fences(true, true);
      forall run, t | Reaches(Start, run, t, f) ensures t.pc != Reported { NoReordering(run, t); }
    }
  }

  // ----- Every run gets to the check -----

  function PcRank(pc: WorkerPc, begin: nat): nat {
    match pc
    case AtWait => if begin > 0 then 14 else 0
    case AtStore => 12
    case AtFence => 9
    case AtLoad => 8
    case AtSave(_) => 7
    case AtPost => 4
  }

  function MainRank(pc: MainPc): nat {
    match pc
    case ClearX => 100
    case ClearY => 90
    case Post0 => 80
    case Post1 => 50
    case Wait1 => 20
    case Wait2 => 15
    case Check0 => 10
    case Check1 => 5
    case Reported => 0
  }

  /** A bound on the actions left before main's check is over. */
  function Rank(s: System): nat {
    MainRank(s.pc) + |s.mainBuf| + PcRank(s.w0.pc, s.w0.begin) + |s.w0.buf| + PcRank(s.w1.pc, s.w1.begin) + |s.w1.buf|
  }

  predicate Completes(s: System, a: Action) { a == RunMain && MainReady(s) && Next(s, a).pc == ClearX }

  /** Whatever happens brings the check closer. */
  lemma {:induction false} Progress(s: System)
    requires Inv(s)
    ensures forall a :: Enabled(s, a, Fences(true, true)) && !Completes(s, a) ==> Rank(Next(s, a)) < Rank(s)
  {
    hide Inv, Enabled, Next, Rank, Completes;
    forall a | Enabled(s, a, Fences(true, true)) && !Completes(s, a) ensures Rank(Next(s, a)) < Rank(s) {
      if a == RunMain { MainProgress(s); } else { OtherProgress(s, a); }
    }
  }

  lemma {:induction false} MainProgress(s: System)
    requires Inv(s) && Enabled(s, RunMain, Fences(true, true)) && !Completes(s, RunMain)
    ensures Rank(Next(s, RunMain)) < Rank(s)
  {
  }

  lemma {:induction false} OtherProgress(s: System, a: Action)
    requires Inv(s) && Enabled(s, a, Fences(true, true)) && a != RunMain
    ensures Rank(Next(s, a)) < Rank(s)
  {
  }

  /** Something can always happen: no interleaving deadlocks. */
  lemma {:induction false} NeverStuck(s: System)
    requires Inv(s)
    ensures exists a :: Enabled(s, a, Fences(true, true))
  {
    var f := Fences(true, true);
    if s.mainBuf != [] {
      assert Enabled(s, DrainMain, f);
    } else if s.w0.buf != [] {
      assert Enabled(s, Drain0, f);
    } else if s.w1.buf != [] {
      assert Enabled(s, Drain1, f);
    } else if MainReady(s) {
      assert Enabled(s, RunMain, f);
    } else if WorkerReady(s.w0, true) {
      assert Enabled(s, Run0, f);
    } else {
      assert Enabled(s, Run1, f);
    }
  }

  ghost predicate NoCheckCompleted(s: System, run: seq<Action>)
    decreases |run|
  {
    run == [] || (!Completes(s, run[0]) && NoCheckCompleted(Next(s, run[0]), run[1..]))
  }

  /** However the threads are scheduled, fewer than Rank(s) actions can pass before main completes a check. */
  lemma {:induction false} CheckIsReached(s: System, run: seq<Action>, t: System)
    requires Inv(s) && Reaches(s, run, t, Fences(true, true)) && NoCheckCompleted(s, run)
    ensures |run| + Rank(t) <= Rank(s)
    decreases |run|
  {
    hide Inv, Rank, Completes;
    if run != [] {
      Progress(s);
      InvKept(s, run[0]);
      CheckIsReached(Next(s, run[0]), run[1..], t);
    }
  }
}
