/** The transaction coordinator: begin, run the body with the transaction in
    its context, then commit or roll back. The root package's manager and the
    `manager/transaction` copy are the same code over different context keys. */
module Transaction {
  import opened Base
  import opened DatabaseManager

  /** What the pooled `*sql.DB` answers: the outcome of `BeginTx`, and of
      `Rollback` and `Commit` on a begun transaction. */
  datatype Db = Db(begin: Result<TxId>, rollback: TxId -> Option<Error>, commit: TxId -> Option<Error>)

  /** The calls `Execute` makes, in order. */
  datatype Event = BeginTx | InvokeBody(ctx: Context) | RollbackTx(tx: TxId) | CommitTx(tx: TxId)

  /** Where an invocation ends: still IDLE when begin failed; STARTED when the
      body panicked, since nothing recovers the panic and neither rollback nor
      commit is reached; otherwise COMMITTED or ABORTED. A failed commit is
      logged as aborted, so it ends in `Aborted`. */
  datatype State = Idle | Started(tx: TxId) | Committed(tx: TxId) | Aborted(tx: TxId)

  /** How the body's call ends: it returns its error, or it panics. */
  datatype BodyOutcome = Returned(err: Option<Error>) | Panicked

  /** An invocation's end: the error it returns, or, when `panicked`, the
      body's panic leaving Execute (its `err` is then `None` and means nothing). */
  datatype Run = Run(err: Option<Error>, panicked: bool, state: State, trace: seq<Event>)

  /** A manager is characterised by the context key it stores the transaction under. */
  datatype TransactionManager = TransactionManager(key: TxKey)

  /** `trxman.go` stores under the root `TxKey{}`. */
  const RootTransactionManager: TransactionManager := TransactionManager(RootTxKey)
  /** `manager/transaction` stores under `manager_values.TxKey{}`. */
  const ManagerTransactionManager: TransactionManager := TransactionManager(ManagerTxKey)

  /** The context the body runs in. */
  function BodyContext(m: TransactionManager, ctx: Context, tx: TxId): Context
  {
    WithValue(ctx, m.key, Transaction(tx))
  }

  /** The traces the state machine allows: a failed begin alone; begin and a
      body that panicked, the transaction still open; or begin, body and
      exactly one of rollback or commit of the begun transaction. */
  ghost predicate Lifecycle(trace: seq<Event>, final: State)
  {
    || (trace == [BeginTx] && final == Idle)
    || (|trace| == 2 && trace[0] == BeginTx && trace[1].InvokeBody? && final.Started?)
    || (&& |trace| == 3 && trace[0] == BeginTx && trace[1].InvokeBody?
        && (|| (trace[2].RollbackTx? && final == Aborted(trace[2].tx))
            || (trace[2].CommitTx? && (final == Committed(trace[2].tx) || final == Aborted(trace[2].tx)))))
  }

  /** `Execute`. A failed begin is returned and the body never runs. Otherwise
      the body runs once with the new transaction in its context; a failing
      body is rolled back and the rollback's error, when there is one, is
      returned in place of the body's; a succeeding body is committed and the
      commit's error returned. A body that panics leaves Execute at once, with
      the transaction begun and neither rolled back nor committed. Execute
      returns no error exactly when begin, body and commit all succeed. */
  function Execute(m: TransactionManager, db: Db, ctx: Context, body: Context -> BodyOutcome): (r: Run)
    ensures Lifecycle(r.trace, r.state)
    ensures db.begin.Err? ==> r == Run(Some(db.begin.error), false, Idle, [BeginTx])
    ensures r.panicked <==> db.begin.Ok? && body(BodyContext(m, ctx, db.begin.value)).Panicked?
    ensures db.begin.Ok? ==>
      var tx := db.begin.value;
      var inner := BodyContext(m, ctx, tx);
      && |r.trace| >= 2 && r.trace[1] == InvokeBody(inner)
      && (body(inner).Panicked? ==> r.trace == [BeginTx, InvokeBody(inner)] && r.state == Started(tx))
      && (body(inner).Returned? ==> |r.trace| == 3)
      && (body(inner) == Returned(None) ==> r.trace[2] == CommitTx(tx) && r.err == db.commit(tx))
      && (body(inner).Returned? && body(inner).err.Some? ==>
            && r.trace[2] == RollbackTx(tx) && r.state == Aborted(tx)
            && r.err == (if db.rollback(tx).Some? then db.rollback(tx) else body(inner).err))
    ensures !r.panicked && r.err.None? <==>
      db.begin.Ok? && body(BodyContext(m, ctx, db.begin.value)) == Returned(None) && db.commit(db.begin.value).None?
    ensures r.state.Committed? <==> !r.panicked && r.err.None?
  {
    match db.begin
    case Err(e) => Run(Some(e), false, Idle, [BeginTx])
    case Ok(tx) =>
      var inner := BodyContext(m, ctx, tx);
      var started := [BeginTx, InvokeBody(inner)];
      match body(inner)
      case Panicked => Run(None, true, Started(tx), started)
      case Returned(Some(bodyErr)) =>
        var trace := started + [RollbackTx(tx)];
        (match db.rollback(tx)
         case Some(rollbackErr) => Run(Some(rollbackErr), false, Aborted(tx), trace)
         case None => Run(Some(bodyErr), false, Aborted(tx), trace))
      case Returned(None) =>
        var trace := started + [CommitTx(tx)];
        match db.commit(tx)
        case Some(commitErr) => Run(Some(commitErr), false, Aborted(tx), trace)
        case None => Run(None, false, Committed(tx), trace)
  }

  /** Queries issued by the body through a database manager reading the same
      key run on the new transaction, even when the caller's context already
      held one; a manager reading a different key type routes exactly as it
      did outside, so it never sees this transaction. */
  lemma BodyRoutesToNewTransaction(m: TransactionManager, ctx: Context, tx: TxId, other: TxKey)
    requires other != m.key
    ensures Querier(BodyContext(m, ctx, tx), m.key) == InTx(tx)
    ensures Querier(BodyContext(m, ctx, tx), other) == Querier(ctx, other)
  {
  }

  /** Neither copy looks for an outer transaction: whatever the caller's context
      holds, Execute begins afresh, and two callers whose bodies answer alike
      get the same error, the same panic and the same final state. */
  lemma NoNestingDetection(m: TransactionManager, db: Db, ctx1: Context, ctx2: Context, body: Context -> BodyOutcome)
    requires db.begin.Ok? ==>
      body(BodyContext(m, ctx1, db.begin.value)) == body(BodyContext(m, ctx2, db.begin.value))
    ensures Execute(m, db, ctx1, body).trace[0] == BeginTx
    ensures Execute(m, db, ctx1, body).err == Execute(m, db, ctx2, body).err
    ensures Execute(m, db, ctx1, body).panicked == Execute(m, db, ctx2, body).panicked
    ensures Execute(m, db, ctx1, body).state == Execute(m, db, ctx2, body).state
  {
  }
}
