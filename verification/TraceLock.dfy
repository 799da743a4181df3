/** The locking protocol of `putCmd` and `endCmd`.  Any number of threads make intercepted calls, a call
    may make others while it runs, and every statement that touches shared state is a step of its own.
    The log is what each thread alone would have logged, record by record, whatever the interleaving. */
module TraceLock {
  import opened Wire

  type Tid = nat  // pthread_self(); 0 is the initial curThread

  /** What reaches the log: the OPC_THREAD prefix, an opcode, or any other put. */
  datatype Item = Thread(tid: Tid) | Op(op: int32) | Datum(d: Field)

  /** Where a thread stands: running its program or the body of a call; in `putCmd` with the lock taken,
      with the counter raised, with the prefix written; or in `endCmd` with the counter lowered. */
  datatype Pc = Running | Locked(op: int32) | Counted(op: int32) | Marked(op: int32) | Leaving

  /** A thread's program counter and the calls it has open. */
  datatype Local = Local(pc: Pc, open: nat)

  datatype State = State(
    owner: Tid, depth: nat,     // the recursive mutex: its owner when depth > 0, and how often it is held
    reentrance: int, curThread: Tid, log: seq<Item>,
    locals: map<Tid, Local>)
  {
    function At(t: Tid): Local { if t in locals then locals[t] else Local(Running, 0) }
  }

  const INIT := State(0, 0, 0, 0, [], map[])

  datatype Step =
    | Lock(t: Tid, op: int32)     // pthread_mutex_lock in putCmd(op)
    | Count(t: Tid)             // ++reentrance
    | Mark(t: Tid)              // the test of curThread and the prefix
    | Open(t: Tid)              // putInt(cmd)
    | Put(t: Tid, d: Field)       // any put in the body of the innermost open call
    | Uncount(t: Tid)           // --reentrance in endCmd
    | Unlock(t: Tid)            // pthread_mutex_unlock

  predicate Enabled(s: State, a: Step) {
    var l := s.At(a.t);
    match a
    case Lock(t, _) => l.pc.Running? && (s.depth == 0 || s.owner == t)
    case Count(_) => l.pc.Locked?
    case Mark(_) => l.pc.Counted?
    case Open(_) => l.pc.Marked?
    case Put(_, _) => l.pc.Running? && l.open > 0
    case Uncount(_) => l.pc.Running? && l.open > 0
    case Unlock(_) => l.pc.Leaving?
  }

  function Next(s: State, a: Step): State
    requires Enabled(s, a)
  {
    var t, l := a.t, s.At(a.t);
    match a
    case Lock(_, op) => s.(owner := t, depth := s.depth + 1, locals := s.locals[t := l.(pc := Locked(op))])
    case Count(_) =>
      s.(reentrance := s.reentrance + 1,
         locals := s.locals[t := if s.reentrance + 1 > 1 then Local(Running, l.open + 1) else l.(pc := Counted(l.pc.op))])
    case Mark(_) =>
      s.(curThread := t, log := s.log + if t != s.curThread then [Thread(t)] else [],
         locals := s.locals[t := l.(pc := Marked(l.pc.op))])
    case Open(_) => s.(log := s.log + [Op(l.pc.op)], locals := s.locals[t := Local(Running, l.open + 1)])
    case Put(_, d) => s.(log := s.log + if s.reentrance > 1 then [] else [Datum(d)])
    case Uncount(_) => s.(reentrance := s.reentrance - 1, locals := s.locals[t := Local(Leaving, l.open - 1)])
    case Unlock(_) =>
      s.(depth := if s.depth > 0 then s.depth - 1 else 0, locals := s.locals[t := l.(pc := Running)])
  }

  /** The steps of a run, in order; `Valid` says each was enabled when taken. */
  predicate Valid(run: seq<Step>)
    decreases |run|, 0
  {
    run == [] || (Valid(run[..|run| - 1]) && Enabled(After(run[..|run| - 1]), run[|run| - 1]))
  }

  function After(run: seq<Step>): State
    requires Valid(run)
    decreases |run|, 1
  {
    if run == [] then INIT else Next(After(run[..|run| - 1]), run[|run| - 1])
  }

  // ---------------------------------------------------------------- reading the log

  datatype Record = Record(op: int32, data: seq<Field>)

  /** How the decoder reads a log: a prefix names the thread of the records from there on and stands in
      front of an opcode; after the opcode come the data.  Anything else stops it. */
  datatype Scanned = Scanned(cur: Tid, prefix: bool, ok: bool, records: seq<(Tid, Record)>)

  function AddDatum(rs: seq<(Tid, Record)>, d: Field): seq<(Tid, Record)>
    requires rs != []
  {
    var last := rs[|rs| - 1];
    rs[..|rs| - 1] + [(last.0, Record(last.1.op, last.1.data + [d]))]
  }

  function ScanItem(s: Scanned, i: Item): Scanned {
    if !s.ok then s else
      match i
      case Thread(t) => if s.prefix then s.(ok := false) else s.(cur := t, prefix := true)
      case Op(op) => s.(prefix := false, records := s.records + [(s.cur, Record(op, []))])
      case Datum(d) =>
        if s.prefix || s.records == [] then s.(ok := false) else s.(records := AddDatum(s.records, d))
  }

  function Scan(log: seq<Item>): Scanned {
    if log == [] then Scanned(0, false, true, []) else ScanItem(Scan(log[..|log| - 1]), log[|log| - 1])
  }

  // ---------------------------------------------------------------- writing records one after another

  function Data(fs: seq<Field>): (items: seq<Item>)
    ensures |items| == |fs| && forall i :: 0 <= i < |fs| ==> items[i] == Datum(fs[i])
  {
    seq(|fs|, i requires 0 <= i < |fs| => Datum(fs[i]))
  }

  /** A whole record, after one of thread cur: the prefix exactly where the thread changes. */
  function Whole(cur: Tid, r: (Tid, Record)): seq<Item> {
    (if r.0 != cur then [Thread(r.0)] else []) + ([Op(r.1.op)] + Data(r.1.data))
  }

  /** Records written one after another. */
  function Serial(cur: Tid, rs: seq<(Tid, Record)>): seq<Item>
    decreases |rs|
  {
    if rs == [] then [] else Whole(cur, rs[0]) + Serial(rs[0].0, rs[1..])
  }

  function LastTid(cur: Tid, rs: seq<(Tid, Record)>): Tid {
    if rs == [] then cur else rs[|rs| - 1].0
  }

  lemma {:induction false} SerialSnoc(cur: Tid, rs: seq<(Tid, Record)>, r: (Tid, Record))
    ensures Serial(cur, rs + [r]) == Serial(cur, rs) + Whole(LastTid(cur, rs), r)
    decreases |rs|
  {
    hide Whole;
    if rs == [] {
      assert rs + [r] == [r] && [r][1..] == [];
      assert Whole(cur, r) + [] == Whole(cur, r) && [] + Whole(cur, r) == Whole(cur, r);
    } else {
      var tail := rs[1..];
      assert (rs + [r])[1..] == tail + [r];
      SerialSnoc(rs[0].0, tail, r);
      Assoc(Whole(cur, rs[0]), Serial(rs[0].0, tail), Whole(LastTid(rs[0].0, tail), r));
    }
  }

  lemma SerialDatum(cur: Tid, rs: seq<(Tid, Record)>, d: Field)
    requires rs != []
    ensures Serial(cur, AddDatum(rs, d)) == Serial(cur, rs) + [Datum(d)]
  {
    hide Serial;
    var init, last := rs[..|rs| - 1], rs[|rs| - 1];
    assert rs == init + [last];
    SerialSnoc(cur, init, last);
    SerialSnoc(cur, init, (last.0, Record(last.1.op, last.1.data + [d])));
    WholeDatum(LastTid(cur, init), last, d);
    Assoc(Serial(cur, init), Whole(LastTid(cur, init), last), [Datum(d)]);
  }

  lemma WholeDatum(cur: Tid, r: (Tid, Record), d: Field)
    ensures Whole(cur, (r.0, Record(r.1.op, r.1.data + [d]))) == Whole(cur, r) + [Datum(d)]
  {
    assert Data(r.1.data + [d]) == Data(r.1.data) + [Datum(d)];
  }

  /** The records attributed to one thread. */
  function RecordsOf(rs: seq<(Tid, Record)>, t: Tid): seq<Record> {
    if rs == [] then [] else
      RecordsOf(rs[..|rs| - 1], t) + if rs[|rs| - 1].0 == t then [rs[|rs| - 1].1] else []
  }

  // ---------------------------------------------------------------- what a thread alone would log

  /** A thread on its own: its nesting depth, the opcode it is about to log, and its outermost records. */
  datatype Solo = Solo(depth: int, op: int32, records: seq<Record>)

  /** Only the opcode and the puts of outermost calls count; nested calls leave nothing. */
  function SoloStep(o: Solo, a: Step): Solo {
    match a
    case Lock(_, op) => o.(op := op)
    case Count(_) => o.(depth := o.depth + 1)
    case Open(_) => o.(records := o.records + [Record(o.op, [])])
    case Put(_, d) =>
      if o.depth == 1 && o.records != [] then
        var last := o.records[|o.records| - 1];
        o.(records := o.records[..|o.records| - 1] + [Record(last.op, last.data + [d])])
      else o
    case Uncount(_) => o.(depth := o.depth - 1)
    case _ => o
  }

  /** The thread's own steps of a run, without those of the others. */
  function Alone(run: seq<Step>, t: Tid): Solo {
    if run == [] then Solo(0, 0, []) else
      var o := Alone(run[..|run| - 1], t);
      if run[|run| - 1].t == t then SoloStep(o, run[|run| - 1]) else o
  }

  // ---------------------------------------------------------------- the invariant

  /** Mutual exclusion, and the counter against the lock. */
  ghost predicate Exclusive(s: State) {
    && (forall t: Tid :: (s.depth == 0 || t != s.owner) ==> s.At(t) == Local(Running, 0))
    && (s.depth > 0 ==>
          var l := s.At(s.owner);
          && s.depth == l.open + (if l.pc.Running? then 0 else 1)
          && s.reentrance == l.open + (if l.pc.Counted? || l.pc.Marked? then 1 else 0)
          && (l.pc.Counted? || l.pc.Marked? ==> l.open == 0)
          && (l.pc.Marked? ==> s.curThread == s.owner))
    && (s.depth == 0 ==> s.reentrance == 0)
  }

  /** The log as a whole: records one after another, and at most a prefix that waits for its opcode. */
  ghost predicate Shape(s: State) {
    var sc := Scan(s.log);
    && sc.ok && sc.cur == s.curThread
    && s.log == Serial(0, sc.records) + (if sc.prefix then [Thread(sc.cur)] else [])
    && (sc.prefix <==> sc.cur != LastTid(0, sc.records))
    && (sc.prefix ==> s.depth > 0 && s.At(s.owner).pc.Marked?)
    && (s.depth > 0 && s.At(s.owner).open > 0 ==> sc.records != [] && LastTid(0, sc.records) == s.owner)
  }

  /** The log against thread t alone. */
  predicate LogAgrees(s: State, t: Tid, o: Solo) {
    var sc := Scan(s.log);
    var l := s.At(t);
    && RecordsOf(sc.records, t) == o.records
    && o.depth == l.open + (if l.pc.Counted? || l.pc.Marked? then 1 else 0)
    && (l.pc.Locked? || l.pc.Counted? || l.pc.Marked? ==> o.op == l.pc.op)
  }

  lemma ScanSnoc(log: seq<Item>, i: Item)
    ensures Scan(log + [i]) == ScanItem(Scan(log), i)
  {
    assert (log + [i])[..|log|] == log;
  }

  lemma RecordsOfSnoc(rs: seq<(Tid, Record)>, r: (Tid, Record), t: Tid)
    ensures RecordsOf(rs + [r], t) == RecordsOf(rs, t) + if r.0 == t then [r.1] else []
  {
    assert (rs + [r])[..|rs|] == rs;
  }

  lemma RecordsOfAddDatum(rs: seq<(Tid, Record)>, d: Field, t: Tid)
    requires rs != []
    ensures var mine, last := RecordsOf(rs, t), rs[|rs| - 1];
      RecordsOf(AddDatum(rs, d), t) ==
        if last.0 == t then mine[..|mine| - 1] + [Record(last.1.op, last.1.data + [d])] else mine
    ensures rs[|rs| - 1].0 == t ==> RecordsOf(rs, t) != [] && RecordsOf(rs, t)[|RecordsOf(rs, t)| - 1] == rs[|rs| - 1].1
  {
    var last := rs[|rs| - 1];
    RecordsOfSnoc(rs[..|rs| - 1], (last.0, Record(last.1.op, last.1.data + [d])), t);
  }

  lemma ExclusiveKept(s: State, a: Step)
    requires Exclusive(s) && Enabled(s, a)
    ensures Exclusive(Next(s, a))
  {
    var s' := Next(s, a);
    forall t: Tid | s'.depth == 0 || t != s'.owner
      ensures s'.At(t) == Local(Running, 0)
    {
      assert (s.depth == 0 || t != s.owner) ==> s.At(t) == Local(Running, 0);
      assert a.t != s.owner ==> s.At(a.t) == Local(Running, 0);
      if t == a.t {
        assert a.Unlock?;
      } else {
        assert s'.At(t) == s.At(t);
      }
    }
  }

  lemma ShapeKept(s: State, a: Step)
    requires Exclusive(s) && Enabled(s, a) && Shape(s)
    ensures Shape(Next(s, a))
  {
    hide Scan, Serial, AddDatum;
    var l, sc := s.At(a.t), Scan(s.log);
    match a {
      case Mark(t) =>
        if t != s.curThread { ScanSnoc(s.log, Thread(t)); } else { assert s.log + [] == s.log; }
        Units(Serial(0, sc.records));
      case Open(_) => OpenKept(s, l.pc.op);
      case Put(_, d) =>
        if s.reentrance > 1 { assert s.log + [] == s.log; } else {
          ScanSnoc(s.log, Datum(d));
          SerialDatum(0, sc.records, d);
          Units(Serial(0, sc.records));
          Units(Serial(0, AddDatum(sc.records, d)));
          LastAfterDatum(sc.records, d);
        }
      case _ =>
    }
  }

  lemma OpenKept(s: State, op: int32)
    requires Shape(s)
    ensures var sc := Scan(s.log + [Op(op)]);
      && sc == Scanned(s.curThread, false, true, Scan(s.log).records + [(s.curThread, Record(op, []))])
      && s.log + [Op(op)] == Serial(0, sc.records) + []
  {
    hide Scan, Serial;
    var sc := Scan(s.log);
    ScanSnoc(s.log, Op(op));
    SerialSnoc(0, sc.records, (sc.cur, Record(op, [])));
    assert Whole(LastTid(0, sc.records), (sc.cur, Record(op, [])))
        == (if sc.prefix then [Thread(sc.cur)] else []) + [Op(op)];
  }

  lemma LastAfterDatum(rs: seq<(Tid, Record)>, d: Field)
    requires rs != []
    ensures AddDatum(rs, d) != [] && LastTid(0, AddDatum(rs, d)) == LastTid(0, rs)
  {
  }

  lemma OwnStep(s: State, a: Step, o: Solo)
    requires Exclusive(s) && Enabled(s, a) && Shape(s) && LogAgrees(s, a.t, o)
    ensures LogAgrees(Next(s, a), a.t, SoloStep(o, a))
  {
    hide Scan, RecordsOf, Serial;
    var t, l, sc := a.t, s.At(a.t), Scan(s.log);
    match a {
      case Mark(_) =>
        if t != s.curThread { ScanSnoc(s.log, Thread(t)); } else { assert s.log + [] == s.log; }
      case Open(_) =>
        ScanSnoc(s.log, Op(l.pc.op));
        RecordsOfSnoc(sc.records, (sc.cur, Record(l.pc.op, [])), t);
      case Put(_, d) =>
        if s.reentrance > 1 { assert s.log + [] == s.log; } else {
          ScanSnoc(s.log, Datum(d));
          RecordsOfAddDatum(sc.records, d, t);
        }
      case _ =>
    }
  }

  lemma OtherStep(s: State, a: Step, t: Tid, o: Solo)
    requires Exclusive(s) && Enabled(s, a) && Shape(s) && a.t != t && LogAgrees(s, t, o)
    ensures LogAgrees(Next(s, a), t, o)
  {
    hide Scan, RecordsOf, Serial;
    var l, sc := s.At(a.t), Scan(s.log);
    match a {
      case Mark(_) =>
        if a.t != s.curThread { ScanSnoc(s.log, Thread(a.t)); } else { assert s.log + [] == s.log; }
      case Open(_) =>
        ScanSnoc(s.log, Op(l.pc.op));
        RecordsOfSnoc(sc.records, (sc.cur, Record(l.pc.op, [])), t);
      case Put(_, d) =>
        if s.reentrance > 1 { assert s.log + [] == s.log; } else {
          ScanSnoc(s.log, Datum(d));
          RecordsOfAddDatum(sc.records, d, t);
        }
      case _ =>
    }
  }

  /** In every reachable state at most one thread is inside a call or inside `putCmd`/`endCmd`, and the
      counter follows the lock. */
  lemma {:induction false} AlwaysExclusive(run: seq<Step>)
    requires Valid(run)
    ensures Exclusive(After(run))
  {
    if run != [] {
      AlwaysExclusive(run[..|run| - 1]);
      ExclusiveKept(After(run[..|run| - 1]), run[|run| - 1]);
    }
  }

  /** `reentrance` is the depth of the recursive lock whenever no thread is inside `putCmd` or `endCmd`. */
  lemma ReentranceIsLockDepth(run: seq<Step>)
    requires Valid(run) && forall t: Tid :: After(run).At(t).pc.Running?
    ensures After(run).reentrance == After(run).depth
  {
    AlwaysExclusive(run);
  }

  lemma {:induction false} AlwaysShaped(run: seq<Step>)
    requires Valid(run)
    ensures Shape(After(run))
  {
    if run != [] {
      AlwaysExclusive(run[..|run| - 1]);
      AlwaysShaped(run[..|run| - 1]);
      ShapeKept(After(run[..|run| - 1]), run[|run| - 1]);
    }
  }

  /** Whatever the interleaving and the nesting, outside `putCmd` the log is the outermost records written
      one after another, with a prefix exactly where the thread changes; the decoder reads them off. */
  lemma LogIsSerial(run: seq<Step>)
    requires Valid(run) && forall t: Tid :: !After(run).At(t).pc.Marked?
    ensures var s := After(run); Scan(s.log).ok && !Scan(s.log).prefix && s.log == Serial(0, Scan(s.log).records)
  {
    AlwaysShaped(run);
    Units(Serial(0, Scan(After(run).log).records));
  }

  lemma {:induction false} AlwaysAgrees(run: seq<Step>, t: Tid)
    requires Valid(run)
    ensures LogAgrees(After(run), t, Alone(run, t))
  {
    if run != [] {
      var init, a := run[..|run| - 1], run[|run| - 1];
      AlwaysExclusive(init);
      AlwaysShaped(init);
      AlwaysAgrees(init, t);
      if a.t == t {
        OwnStep(After(init), a, Alone(init, t));
      } else {
        OtherStep(After(init), a, t, Alone(init, t));
      }
    }
  }

  /** In every interleaving and nesting, the decoder reads the log to its end and attributes to each thread
      exactly the outermost records it would have logged alone: complete and in order. */
  lemma EachThreadAsIfAlone(run: seq<Step>, t: Tid)
    requires Valid(run)
    ensures Scan(After(run).log).ok && RecordsOf(Scan(After(run).log).records, t) == Alone(run, t).records
  {
    AlwaysShaped(run);
    AlwaysAgrees(run, t);
  }

  // ---------------------------------------------------------------- no deadlock

  /** The steps of the lock's owner until it lets go of the lock, making no further call. */
  predicate OwnSteps(more: seq<Step>, t: Tid) { forall a :: a in more ==> a.t == t && !a.Lock? }

  /** How much the owner has left to do. */
  function ToDo(l: Local): nat {
    2 * l.open + match l.pc
      case Running => 0 case Leaving => 1 case Marked(_) => 3 case Counted(_) => 4 case Locked(_) => 5
  }

  /** The next of them. */
  function OwnNext(l: Local, t: Tid): Step {
    match l.pc
    case Running => Uncount(t)
    case Locked(_) => Count(t)
    case Counted(_) => Mark(t)
    case Marked(_) => Open(t)
    case Leaving => Unlock(t)
  }

  lemma OwnerGoesOn(s: State)
    requires Exclusive(s) && s.depth > 0
    ensures var a := OwnNext(s.At(s.owner), s.owner);
      Enabled(s, a) && (Next(s, a).owner == s.owner) && ToDo(Next(s, a).At(s.owner)) < ToDo(s.At(s.owner))
  {
  }

  /** The owner's own steps free the lock, and then any thread can make a call. */
  ghost predicate Frees(run: seq<Step>, more: seq<Step>)
    requires Valid(run)
  {
    && Valid(run + more) && After(run + more).depth == 0 && OwnSteps(more, After(run).owner)
    && forall t: Tid, op: int32 :: Enabled(After(run + more), Lock(t, op))
  }

  lemma {:induction false} WayOut(run: seq<Step>) returns (more: seq<Step>)
    requires Valid(run)
    ensures Frees(run, more)
    decreases ToDo(After(run).At(After(run).owner))
  {
    var s := After(run);
    AlwaysExclusive(run);
    if s.depth == 0 {
      more := [];
      assert run + more == run;
    } else {
      var a := OwnNext(s.At(s.owner), s.owner);
      OwnerGoesOn(s);
      assert (run + [a])[..|run|] == run;
      var rest := WayOut(run + [a]);
      more := [a] + rest;
      assert run + more == (run + [a]) + rest;
    }
  }

  /** Whatever has happened, the thread that holds the lock can go on by itself until it is free, and then every
      thread can make a call; while it runs it can make nested ones.  No thread waits for itself. */
  lemma NeverStuck(run: seq<Step>)
    requires Valid(run)
    ensures exists more :: Frees(run, more)
    ensures var s := After(run);
      s.depth > 0 && s.At(s.owner).pc.Running? ==> forall op: int32 :: Enabled(s, Lock(s.owner, op))
  {
    hide Frees;
    var more := WayOut(run);
    AlwaysExclusive(run);
  }
}
