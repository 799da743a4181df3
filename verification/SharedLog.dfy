/** Many threads, one log: the locking protocol keeps the log in the form the decoder expects, so replay works
    whatever the interleaving was. */
module SharedLog {
  import opened Wire
  import opened Wrappers
  import opened IoLib
  import opened Gles
  import L = LockStep
  import R = Retrace
  import T = TraceLock

  /** What the steps of the protocol put into the file. */
  function ItemFields(i: T.Item): seq<Field> {
    match i
    case Thread(t) => [Int(OPC_THREAD), Ptr(t)]
    case Op(op) => [Int(op)]
    case Datum(f) => [f]
  }

  function LogFields(items: seq<T.Item>): seq<Field> {
    if items == [] then [] else ItemFields(items[0]) + LogFields(items[1..])
  }

  lemma {:induction false} LogFieldsConcat(a: seq<T.Item>, b: seq<T.Item>)
    ensures LogFields(a + b) == LogFields(a) + LogFields(b)
  {
    if a == [] {
      assert a + b == b;
    } else {
      assert (a + b)[1..] == a[1..] + b;
      LogFieldsConcat(a[1..], b);
      Assoc(ItemFields(a[0]), LogFields(a[1..]), LogFields(b));
    }
  }

  lemma {:induction false} LogFieldsOfData(fs: seq<Field>)
    ensures LogFields(T.Data(fs)) == fs
    decreases |fs|
  {
    if fs != [] {
      assert T.Data(fs)[1..] == T.Data(fs[1..]);
      LogFieldsOfData(fs[1..]);
    }
  }

  /** The record a call leaves, as the protocol sees it. */
  function RecordOf(wsize: nat, st: GlState, t: Traced): (T.Tid, T.Record)
    requires Traceable(wsize, st, t.call)
  {
    (t.thr, T.Record(Opcode(t.call), Payload(wsize, st, t.call, t.mem) + [Long(t.bgn), Long(t.end)]))
  }

  /** The records of calls, each in the state that the calls before it leave. */
  function RecordsOf(wsize: nat, st: GlState, ts: seq<Traced>): seq<(T.Tid, T.Record)>
    requires st.Valid() && L.AllTraceable(wsize, st, ts)
    decreases |ts|
  {
    if ts == [] then [] else [RecordOf(wsize, st, ts[0])] + RecordsOf(wsize, NextState(st, ts[0].call), ts[1..])
  }

  lemma WholeIsRecord(wsize: nat, cur: nat, st: GlState, t: Traced)
    requires Traceable(wsize, st, t.call)
    ensures LogFields(T.Whole(cur, RecordOf(wsize, st, t))) == Record(wsize, cur, st, t)
  {
    hide Payload, Opcode, Traceable, LogFields;
    var r := RecordOf(wsize, st, t);
    var prefix: seq<T.Item> := if r.0 != cur then [T.Thread(r.0)] else [];
    var op, data := [T.Op(r.1.op)], T.Data(r.1.data);
    LogFieldsConcat(prefix, op + data);
    LogFieldsConcat(op, data);
    LogFieldsOfData(r.1.data);
    OneItem(T.Op(r.1.op));
    if r.0 != cur { OneItem(T.Thread(r.0)); } else { NoItem(); }
    var payload, times := Payload(wsize, st, t.call, t.mem), [Long(t.bgn), Long(t.end)];
    assert LogFields(prefix) + ([Int(r.1.op)] + (payload + times)) == (LogFields(prefix) + [Int(r.1.op)]) + payload + times;
  }

  lemma OneItem(i: T.Item)
    ensures LogFields([i]) == ItemFields(i)
  {
    assert [i][1..] == [];
  }

  lemma NoItem()
    ensures LogFields([]) == []
  {
  }

  /** Records written one after another, with a prefix where the thread changes, are the log of the calls. */
  lemma {:induction false} SerialIsLog(wsize: nat, cur: nat, st: GlState, ts: seq<Traced>)
    requires st.Valid() && L.AllTraceable(wsize, st, ts)
    ensures LogFields(T.Serial(cur, RecordsOf(wsize, st, ts))) == L.LogOf(wsize, cur, st, ts)
    decreases |ts|
  {
    hide T.Whole, Record, RecordOf, NextState, LogFields;
    if ts == [] {
      NoItem();
    } else {
      var st' := NextState(st, ts[0].call);
      var r, rest := RecordOf(wsize, st, ts[0]), RecordsOf(wsize, st', ts[1..]);
      assert ([r] + rest)[1..] == rest;
      SerialIsLog(wsize, ts[0].thr, st', ts[1..]);
      assert r.0 == ts[0].thr by { ThreadOfRecord(wsize, st, ts[0]); }
      LogFieldsConcat(T.Whole(cur, r), T.Serial(r.0, rest));
      WholeIsRecord(wsize, cur, st, ts[0]);
    }
  }

  lemma ThreadOfRecord(wsize: nat, st: GlState, t: Traced)
    requires Traceable(wsize, st, t.call)
    ensures RecordOf(wsize, st, t).0 == t.thr
  {
  }

  /** In every interleaving of any number of threads, with any nesting: if the outermost records are those of
      the calls ts, replay of the file gives what every one of them asked of the driver, with its thread. */
  lemma EveryInterleavingReplays(wsize: nat, run: seq<T.Step>, ts: seq<Traced>, s: bytes, exec: bool)
    requires ValidWordSize(wsize) && L.AllTraceable(wsize, INITIAL, ts)
    requires T.Valid(run) && forall t: T.Tid :: !T.After(run).At(t).pc.Marked?
    requires T.Scan(T.After(run).log).records == RecordsOf(wsize, INITIAL, ts)
    requires s == EncFields(wsize, Header(wsize) + LogFields(T.After(run).log))
    ensures var r := R.OpenLog(s);
      r.Some? && r.value.0 == wsize &&
      var (es, rs, p) := R.Process(wsize, R.Start(exec), s, r.value.1, -1);
      es == L.AskedEvents(wsize, INITIAL, ts) && p == |s|
  {
    hide T.Scan, T.Serial, LogFields, EncFields, R.Process, R.OpenLog, L.AskedEvents, L.LogOf, RecordsOf;
    T.LogIsSerial(run);
    SerialIsLog(wsize, 0, INITIAL, ts);
    L.LogReplays(wsize, s, ts, exec);
  }
}
