/** The private database around the pool: workers that read a row, compute an outcome and write it back only
    if the row's version has not moved. Any number of them may interleave. */
module PoolStore {
  import opened Results
  import Pool = EcdsaPool
  import opened PoolLifecycle
  import opened PoolSafety

  datatype Row = Row(record: Record, version: nat)

  /** A worker's command and the row it last read. */
  datatype Attempt = Attempt(command: Command, seen: Option<Row>)

  /** `log` and `answers` record, in order, what was answered. */
  datatype Database = Database(row: Option<Row>, workers: map<nat, Attempt>, log: seq<Event>, answers: seq<Outcome>)

  predicate Initial(d: Database) {
    d.row.None? && d.workers == map[] && d.log == [] && d.answers == []
  }

  /** A worker reads the row, for a new command or again after a conflict. */
  ghost predicate Read(d: Database, d': Database, worker: nat, command: Command) {
    d' == d.(workers := d.workers[worker := Attempt(command, d.row)])
  }

  /** The two admissions assume an empty row without reading. */
  ghost predicate AdmitUnread(d: Database, d': Database, worker: nat, command: Command) {
    (command.PutAvailable? || command.PutReserved?) && d' == d.(workers := d.workers[worker := Attempt(command, None)])
  }

  function RecordOf(row: Option<Row>): Option<Record> { if row.Some? then Some(row.value.record) else None }

  predicate Unmoved(row: Option<Row>, seen: Option<Row>) {
    if seen.None? then row.None? else row.Some? && row.value.version == seen.value.version
  }

  predicate SpentRow(row: Option<Row>) { row.Some? && row.value.record.lifecycle.Terminal() }

  function Written(row: Option<Row>, record: Record): Option<Row> {
    Some(Row(record, if row.None? then 1 else row.value.version + 1))
  }

  /** The worker applies its command to what it saw. A terminal row is answered without writing; otherwise the
      write goes through only on the version it saw, and a conflict changes nothing. */
  ghost predicate Commit(env: Env, d: Database, d': Database, worker: nat, inner: Pool.Transitions) {
    && worker in d.workers
    && var a := d.workers[worker];
       match Apply(env, inner, RecordOf(a.seen), a.command)
       case Err(_) => d' == d
       case Ok(o) =>
         var log, answers := d.log + [Event(inner, a.command)], d.answers + [o];
         if SpentRow(a.seen) then (if ValidOutcome(env, o) then d' == d.(log := log, answers := answers) else d' == d)
         else if Unmoved(d.row, a.seen) then d' == d.(row := Written(d.row, o.record), log := log, answers := answers)
         else d' == d
  }

  ghost predicate Next(env: Env, d: Database, d': Database) {
    || (exists worker, command :: Read(d, d', worker, command))
    || (exists worker, command :: AdmitUnread(d, d', worker, command))
    || (exists worker, inner :: Commit(env, d, d', worker, inner))
  }

  /** What a worker saw is not ahead of the row, and is the row itself while the version stands or once
      the record is terminal. */
  ghost predicate Fresh(d: Database, a: Attempt) {
    a.seen.Some? ==>
      && d.row.Some?
      && a.seen.value.version <= d.row.value.version
      && (a.seen.value.version == d.row.value.version || SpentRow(a.seen) ==> a.seen == d.row)
  }

  /** The answers so far are those of the log run one command at a time, and the row is its result. */
  ghost predicate Serial(env: Env, d: Database) {
    && |d.answers| == |d.log|
    && RecordOf(d.row) == StoreAt(env, d.log, |d.log|)
    && forall i :: 0 <= i < |d.log| ==> OutcomeAt(env, d.log, i) == Ok(d.answers[i])
  }

  ghost predicate Invariant(env: Env, d: Database) {
    && Serial(env, d)
    && forall worker :: worker in d.workers ==> Fresh(d, d.workers[worker])
  }

  /** Appending an event leaves the earlier ones as they were. */
  lemma {:induction false} PrefixRuns(env: Env, log: seq<Event>, e: Event, n: nat)
    requires n <= |log|
    ensures StoreAt(env, log + [e], n) == StoreAt(env, log, n)
    ensures n < |log| ==> OutcomeAt(env, log + [e], n) == OutcomeAt(env, log, n)
  {
    hide Apply;
    if n > 0 { PrefixRuns(env, log, e, n - 1); }
  }

  /** An answer computed on the current record extends the serial run. */
  lemma AnswerIsSerial(env: Env, d: Database, d': Database, e: Event, o: Outcome)
    requires Serial(env, d) && Apply(env, e.inner, RecordOf(d.row), e.command) == Ok(o)
    requires d'.log == d.log + [e] && d'.answers == d.answers + [o] && RecordOf(d'.row) == Some(o.record)
    ensures Serial(env, d')
  {
    hide Apply;
    forall i | 0 <= i <= |d.log| ensures StoreAt(env, d'.log, i) == StoreAt(env, d.log, i)
                                 ensures i < |d.log| ==> OutcomeAt(env, d'.log, i) == OutcomeAt(env, d.log, i)
    {
      PrefixRuns(env, d.log, e, i);
    }
    assert OutcomeAt(env, d'.log, |d.log|) == Ok(o);
  }

  lemma RowIsValid(env: Env, d: Database)
    requires Serial(env, d) && d.row.Some?
    ensures Valid(env, d.row.value.record)
  {
    hide Valid, Apply, OutcomeAt;
    StoredRecordsAreValid(env, d.log, |d.log|);
  }

  lemma TerminalAnswersChangeNothing(env: Env, inner: Pool.Transitions, r: Record, c: Command)
    requires Valid(env, r) && r.lifecycle.Terminal() && Apply(env, inner, Some(r), c).Ok?
    ensures Apply(env, inner, Some(r), c).value.record == r
  {
    ApplyIsLegal(env, inner, Some(r), c);
    hide Apply, PoolKey, ValidBound, ValidUnbound, Bound;
  }

  lemma CommitKeepsInvariant(env: Env, d: Database, d': Database, worker: nat, inner: Pool.Transitions)
    requires Invariant(env, d) && Commit(env, d, d', worker, inner)
    ensures Invariant(env, d')
  {
    hide Apply, Valid, ValidOutcome, Serial;
    var a := d.workers[worker];
    assert Fresh(d, a);
    if d' != d {
      var o := Apply(env, inner, RecordOf(a.seen), a.command).value;
      assert RecordOf(a.seen) == RecordOf(d.row);
      if SpentRow(a.seen) {
        RowIsValid(env, d);
        TerminalAnswersChangeNothing(env, inner, d.row.value.record, a.command);
      }
      AnswerIsSerial(env, d, d', Event(inner, a.command), o);
    }
  }

  lemma NextKeepsInvariant(env: Env, d: Database, d': Database)
    requires Invariant(env, d) && Next(env, d, d')
    ensures Invariant(env, d')
  {
    hide Commit, Serial;
    if worker, inner :| Commit(env, d, d', worker, inner) {
      CommitKeepsInvariant(env, d, d', worker, inner);
    } else {
      SerialDependsOnLog(env, d, d');
    }
  }

  lemma SerialDependsOnLog(env: Env, d: Database, d': Database)
    requires Serial(env, d) && d'.log == d.log && d'.answers == d.answers && d'.row == d.row
    ensures Serial(env, d')
  {
    hide OutcomeAt, StoreAt;
  }

  // ---- every interleaving ----

  ghost predicate IsRun(env: Env, run: seq<Database>) {
    && run != [] && Initial(run[0])
    && forall i :: 0 <= i < |run| - 1 ==> Next(env, run[i], run[i + 1])
  }

  /** Whatever the interleaving, the answers are those of some serial run of the commands answered. */
  lemma {:induction false} EveryInterleavingIsSerial(env: Env, run: seq<Database>, n: nat)
    requires IsRun(env, run) && n < |run|
    ensures Invariant(env, run[n])
  {
    hide Next;
    if n > 0 {
      EveryInterleavingIsSerial(env, run, n - 1);
      assert Next(env, run[n - 1], run[(n - 1) + 1]);
      NextKeepsInvariant(env, run[n - 1], run[n]);
    }
  }

  /** One use, for every interleaving of any number of workers: all Reserved answers carry one record, at most
      one answer is Consumed, and it carries that record's material. */
  lemma OneUse(env: Env, run: seq<Database>, n: nat, i: nat, j: nat)
    requires IsRun(env, run) && n < |run| && i < |run[n].answers| && j < |run[n].answers|
    ensures var a, b := run[n].answers[i], run[n].answers[j];
            && (a.IsReserved? && b.IsReserved? ==> a.record == b.record)
            && (a.IsConsumed? && b.IsConsumed? ==> i == j)
            && (a.IsReserved? && b.IsConsumed? ==> i < j && a.record.materialState == ReservedMaterial(b.material))
  {
    hide Apply, IsRun;
    EveryInterleavingIsSerial(env, run, n);
    var d := run[n];
    var a, b := d.answers[i], d.answers[j];
    assert OutcomeAt(env, d.log, i) == Ok(a) && OutcomeAt(env, d.log, j) == Ok(b);
    hide StoreAt, OutcomeAt;
    if a.IsReserved? && b.IsReserved? { AllReservationsAgree(env, d.log, i, j, a.record, b.record); }
    if a.IsConsumed? && b.IsConsumed? { AtMostOneConsumption(env, d.log, i, j, a.material, b.material); }
    if a.IsReserved? && b.IsConsumed? {
      var k, r := ConsumptionReturnsTheReservation(env, d.log, j, b.material);
      assert ReservedAt(env, d.log, i, a.record);
    }
  }
}
