/** The generic relational repository, shared by the three copies in the
    repository: `common/repository/postgres`, `repository/postgres` and the root
    package's SQLite repository. SQL text, placeholders and drivers are
    abstracted away: a statement is a value, and the database's answer to it is
    a sequence of per-row scan outcomes. The copies differ in the context key
    their database manager reads and in whether construction checks the schema. */
module Relational {
  import opened Base
  import opened Uint32
  import opened Specification
  import opened DatabaseManager
  import Strings

  /** The statements a repository issues. */
  datatype Stmt<F, R> =
    | Query(select: SelectBuilder<F>)
    | DeleteWhere(table: string, filters: seq<F>)
    | Upsert(table: string, columns: seq<string>, row: R, suffix: string)
    | CatalogColumns(table: string)

  /** The answer to a query: building or sending it failed, or it produced rows,
      one scan outcome per row, followed by what `rows.Err()` reports. */
  datatype QueryResult<T> = Failed(error: Error) | Rows(scans: seq<Result<T>>, final: Option<Error>)

  /** A database answering queries whose rows scan to `T`. */
  type Database<!F, !R, T> = (Handle, Stmt<F, R>) -> QueryResult<T>

  /** A database answering exec statements with the number of affected rows. */
  type Executor<!F, !R> = (Handle, Stmt<F, R>) -> Ret<nat>

  /** One row of `information_schema.columns`. */
  datatype CatalogRow = CatalogRow(columnName: string, dataType: string)

  /** Construction options; `zero` is the entity type's zero value, which the
      source returns as `noEntity`. */
  datatype Options<!E, !R> = Options(
    tableName: string, columns: seq<string>, schema: map<string, string>, primaryKey: string,
    txKey: TxKey, entity: R -> E, row: E -> R, zero: E)

  datatype Repository<!E, !R> = Repository(
    tableName: string, columns: seq<string>, schema: map<string, string>, primaryKey: string,
    txKey: TxKey, entity: R -> E, row: E -> R, zero: E, upsertSuffix: string)

  function FromOptions<E, R>(opt: Options<E, R>, upsertSuffix: string): Repository<E, R>
  {
    Repository(opt.tableName, opt.columns, opt.schema, opt.primaryKey, opt.txKey,
               opt.entity, opt.row, opt.zero, upsertSuffix)
  }

  // ---------------------------------------------------------------- upsert

  function Assignment(column: string): string
  {
    column + " = excluded." + column
  }

  function Assignments(columns: seq<string>): (parts: seq<string>)
    ensures |parts| == |columns|
    ensures forall i :: 0 <= i < |columns| ==> parts[i] == Assignment(columns[i])
  {
    seq(|columns|, i requires 0 <= i < |columns| => Assignment(columns[i]))
  }

  /** The upsert clause: on a primary-key conflict, every declared column, in
      declared order, takes the inserted value. */
  function UpsertSuffix(primaryKey: string, columns: seq<string>): string
  {
    "ON CONFLICT (" + primaryKey + ") DO UPDATE SET " + Strings.Join(Assignments(columns), ", ")
  }

  /** `makeUpsertSuffix`: collects one `c = excluded.c` part per column, then joins. */
  method MakeUpsertSuffix(primaryKey: string, columns: seq<string>) returns (suffix: string)
    ensures suffix == UpsertSuffix(primaryKey, columns)
  {
    var parts: seq<string> := [];
    var i := 0;
    while i < |columns|
      invariant 0 <= i <= |columns|
      invariant parts == Assignments(columns[..i])
    {
      parts := parts + [columns[i] + " = excluded." + columns[i]];
      i := i + 1;
    }
    assert columns[..i] == columns;
    suffix := "ON CONFLICT (" + primaryKey + ") DO UPDATE SET " + Strings.Join(parts, ", ");
  }

  /** The assignment list of two column lists is the two lists' assignments
      separated by one `", "`: each column contributes exactly its own part. */
  lemma {:induction false} AssignmentsAppend(a: seq<string>, b: seq<string>)
    requires |a| > 0 && |b| > 0
    ensures Strings.Join(Assignments(a + b), ", ") ==
            Strings.Join(Assignments(a), ", ") + ", " + Strings.Join(Assignments(b), ", ")
    decreases |a|
  {
    if |a| == 1 {
      assert Assignments(a + b) == [Assignment(a[0])] + Assignments(b);
      Strings.JoinCons(Assignment(a[0]), Assignments(b), ", ");
    } else {
      var a' := a[1..];
      assert Assignments(a + b) == [Assignment(a[0])] + Assignments(a' + b);
      assert Assignments(a) == [Assignment(a[0])] + Assignments(a');
      Strings.JoinCons(Assignment(a[0]), Assignments(a' + b), ", ");
      Strings.JoinCons(Assignment(a[0]), Assignments(a'), ", ");
      AssignmentsAppend(a', b);
    }
  }

  // ---------------------------------------------------------------- statements

  /** The SELECT of List and Each: the repository's columns, the filters, then
      the Limit and Offset of the arguments. The Sort argument is not passed on. */
  function ListSelect<E, R, F>(r: Repository<E, R>, args: ListArgs<F>): (b: SelectBuilder<F>)
    ensures b.columns == r.columns && b.table == r.tableName && b.filters == args.filters
    ensures b.limit == (if args.offset.LimitSpec? then Some(args.offset.limit as nat)
                        else if args.limit.LimitSpec? then Some(args.limit.limit as nat) else None)
    ensures b.offset == (if args.offset.OffsetSpec? then Some(args.offset.offset as nat)
                         else if args.limit.OffsetSpec? then Some(args.limit.offset as nat) else None)
  {
    PaginateLimit(SelectBuilder(r.columns, r.tableName, args.filters, None, None), [args.limit, args.offset]);
    PaginateOffset(SelectBuilder(r.columns, r.tableName, args.filters, None, None), [args.limit, args.offset]);
    Paginate(SelectBuilder(r.columns, r.tableName, args.filters, None, None), [args.limit, args.offset])
  }

  /** The arguments Get lists with: its specifications and `WithLimit(1)`. */
  function GetArgs<F>(specs: seq<F>): ListArgs<F>
  {
    ListArgs(specs, NilSpec, WithLimit(1), NilSpec)
  }

  // ---------------------------------------------------------------- scan loops

  /** The loop of Get: only the first row is scanned. */
  function FirstRow<E, R>(r: Repository<E, R>, scans: seq<Result<R>>): (res: Ret<E>)
    ensures |scans| == 0 ==> res == Ret(r.zero, None)
    ensures |scans| > 0 && scans[0].Ok? ==> res == Ret(r.entity(scans[0].value), None)
    ensures |scans| > 0 && scans[0].Err? ==> res == Ret(r.zero, Some(scans[0].error))
  {
    if |scans| == 0 then Ret(r.zero, None)
    else match scans[0]
      case Err(e) => Ret(r.zero, Some(e))
      case Ok(row) => Ret(r.entity(row), None)
  }

  /** The loop of Exist over `rows.Scan(&exist)` outcomes, `exist` starting at 0:
      the last scanned value decides, unless a scan fails first; a failure that
      is `ErrNoRows` means "does not exist" rather than an error. */
  function ExistLoop(scans: seq<Result<int>>, exist: int): (res: Ret<bool>)
    ensures (forall i :: 0 <= i < |scans| ==> scans[i].Ok?) ==>
      res == Ret((if |scans| == 0 then exist else scans[|scans| - 1].value) == 1, None)
    ensures forall i :: 0 <= i < |scans| && scans[i].Err? && (forall j :: 0 <= j < i ==> scans[j].Ok?) ==>
      res == Ret(false, if scans[i].error == NoRows then None else Some(scans[i].error))
    decreases |scans|
  {
    if |scans| == 0 then Ret(exist == 1, None)
    else
      var rest := scans[1..];
      assert forall k :: 0 <= k < |rest| ==> rest[k] == scans[k + 1];
      match scans[0]
      case Err(e) => if e == NoRows then Ret(false, None) else Ret(false, Some(e))
      case Ok(v) => ExistLoop(rest, v)
  }

  /** The loop of Size: the last scanned count, or `(0, err)` at the first failed scan. */
  function SizeLoop(scans: seq<Result<uint32>>, count: uint32): (res: Ret<uint32>)
    ensures (forall i :: 0 <= i < |scans| ==> scans[i].Ok?) ==>
      res == Ret(if |scans| == 0 then count else scans[|scans| - 1].value, None)
    ensures forall i :: 0 <= i < |scans| && scans[i].Err? && (forall j :: 0 <= j < i ==> scans[j].Ok?) ==>
      res == Ret(0, Some(scans[i].error))
    decreases |scans|
  {
    if |scans| == 0 then Ret(count, None)
    else
      var rest := scans[1..];
      assert forall k :: 0 <= k < |rest| ==> rest[k] == scans[k + 1];
      match scans[0]
      case Err(e) => Ret(0, Some(e))
      case Ok(v) => SizeLoop(rest, v)
  }

  /** The loop of List: every row mapped through `entity` and appended to `acc`
      in order, or nil and the error of the first failed scan, dropping what
      was collected. */
  function ListLoop<E, R>(entity: R -> E, scans: seq<Result<R>>, acc: seq<E>): (res: Ret<Option<seq<E>>>)
    ensures (forall i :: 0 <= i < |scans| ==> scans[i].Ok?) ==>
      && res.err.None? && res.value.Some?
      && |res.value.value| == |acc| + |scans|
      && res.value.value[..|acc|] == acc
      && (forall i :: 0 <= i < |scans| ==> res.value.value[|acc| + i] == entity(scans[i].value))
    ensures forall i :: 0 <= i < |scans| && scans[i].Err? && (forall j :: 0 <= j < i ==> scans[j].Ok?) ==>
      res == Ret(None, Some(scans[i].error))
    decreases |scans|
  {
    if |scans| == 0 then Ret(Some(acc), None)
    else
      var rest := scans[1..];
      assert forall k :: 0 <= k < |rest| ==> rest[k] == scans[k + 1];
      match scans[0]
      case Err(e) => Ret(None, Some(e))
      case Ok(row) => ListLoop(entity, rest, acc + [entity(row)])
  }

  // ---------------------------------------------------------------- operations

  /** Get: lists with the specifications as filters and a limit of one row and no
      offset; the first row's entity, the zero entity when no row comes back,
      or the zero entity and the error of the query or of the first row's scan. */
  function Get<E, R, F>(r: Repository<E, R>, db: Database<F, R, R>, ctx: Context, specs: seq<F>): (res: Ret<E>)
    ensures
      var q := Dispatch(ctx, r.txKey, db, Query(SelectBuilder(r.columns, r.tableName, specs, Some(1), None)));
      && (q.Failed? ==> res == Ret(r.zero, Some(q.error)))
      && (q.Rows? && |q.scans| == 0 ==> res == Ret(r.zero, None))
      && (q.Rows? && |q.scans| > 0 && q.scans[0].Ok? ==> res == Ret(r.entity(q.scans[0].value), None))
      && (q.Rows? && |q.scans| > 0 && q.scans[0].Err? ==> res == Ret(r.zero, Some(q.scans[0].error)))
  {
    var sel := ListSelect(r, GetArgs(specs));
    PaginateLimit(SelectBuilder(r.columns, r.tableName, specs, None, None), [WithLimit(1), NilSpec]);
    PaginateOffset(SelectBuilder(r.columns, r.tableName, specs, None, None), [WithLimit(1), NilSpec]);
    match Dispatch(ctx, r.txKey, db, Query(sel))
    case Failed(e) => Ret(r.zero, Some(e))
    case Rows(scans, _) => FirstRow(r, scans)
  }

  /** The SELECT of Exist: the constant 1 under the filters, at most one row. */
  function ExistSelect<E, R, F>(r: Repository<E, R>, specs: seq<F>): SelectBuilder<F>
  {
    SelectBuilder(["1"], r.tableName, specs, Some(1), None)
  }

  /** Exist: whether the last scanned value is 1. No row means false; a scan
      failing with `ErrNoRows` means false with no error; any other failure of
      the query or a scan is returned with false. */
  function Exist<E, R, F>(r: Repository<E, R>, db: Database<F, R, int>, ctx: Context, specs: seq<F>): (res: Ret<bool>)
    ensures
      var q := Dispatch(ctx, r.txKey, db, Query(SelectBuilder(["1"], r.tableName, specs, Some(1), None)));
      && (q.Failed? ==> res == Ret(false, Some(q.error)))
      && (q.Rows? && (forall i :: 0 <= i < |q.scans| ==> q.scans[i].Ok?) ==>
            res == Ret(|q.scans| > 0 && q.scans[|q.scans| - 1].value == 1, None))
      && (q.Rows? ==> forall i :: 0 <= i < |q.scans| && q.scans[i].Err? && (forall j :: 0 <= j < i ==> q.scans[j].Ok?) ==>
            res == Ret(false, if q.scans[i].error == NoRows then None else Some(q.scans[i].error)))
  {
    match Dispatch(ctx, r.txKey, db, Query(ExistSelect(r, specs)))
    case Failed(e) => Ret(false, Some(e))
    case Rows(scans, _) => ExistLoop(scans, 0)
  }

  /** List: every row's entity in row order, an empty non-nil list when there
      are none; nil and the error when the query or any scan fails. */
  function List<E, R, F>(r: Repository<E, R>, db: Database<F, R, R>, ctx: Context, args: ListArgs<F>): (res: Ret<Option<seq<E>>>)
    ensures
      var q := Dispatch(ctx, r.txKey, db, Query(ListSelect(r, args)));
      && (q.Failed? ==> res == Ret(None, Some(q.error)))
      && (q.Rows? && (forall i :: 0 <= i < |q.scans| ==> q.scans[i].Ok?) ==>
            && res.err.None? && res.value.Some? && |res.value.value| == |q.scans|
            && (forall i :: 0 <= i < |q.scans| ==> res.value.value[i] == r.entity(q.scans[i].value)))
      && (q.Rows? ==> forall i :: 0 <= i < |q.scans| && q.scans[i].Err? && (forall j :: 0 <= j < i ==> q.scans[j].Ok?) ==>
            res == Ret(None, Some(q.scans[i].error)))
  {
    match Dispatch(ctx, r.txKey, db, Query(ListSelect(r, args)))
    case Failed(e) => Ret(None, Some(e))
    case Rows(scans, _) => ListLoop(r.entity, scans, [])
  }

  /** Size: `COUNT(id)` under the filters, with no limit or offset, whatever the
      primary key is; the last scanned count, 0 when no row comes back, and
      `(0, err)` when the query or a scan fails. */
  function Size<E, R, F>(r: Repository<E, R>, db: Database<F, R, uint32>, ctx: Context, specs: seq<F>): (res: Ret<uint32>)
    ensures
      var q := Dispatch(ctx, r.txKey, db, Query(SelectBuilder(["COUNT(id)"], r.tableName, specs, None, None)));
      && (q.Failed? ==> res == Ret(0, Some(q.error)))
      && (q.Rows? && (forall i :: 0 <= i < |q.scans| ==> q.scans[i].Ok?) ==>
            res == Ret(if |q.scans| == 0 then 0 else q.scans[|q.scans| - 1].value, None))
      && (q.Rows? ==> forall i :: 0 <= i < |q.scans| && q.scans[i].Err? && (forall j :: 0 <= j < i ==> q.scans[j].Ok?) ==>
            res == Ret(0, Some(q.scans[i].error)))
  {
    match Dispatch(ctx, r.txKey, db, Query(SelectBuilder(["COUNT(id)"], r.tableName, specs, None, None)))
    case Failed(e) => Ret(0, Some(e))
    case Rows(scans, _) => SizeLoop(scans, 0)
  }

  /** Delete: a DELETE under the filters, on the transaction the context holds
      under the repository's key and on the pool otherwise; only the exec
      error is returned, so deleting no row at all is a success. */
  function Delete<E, R, F>(r: Repository<E, R>, exec: Executor<F, R>, ctx: Context, specs: seq<F>): (res: Option<Error>)
    ensures res == Dispatch(ctx, r.txKey, exec, DeleteWhere(r.tableName, specs)).err
    ensures r.txKey in ctx.values && ctx.values[r.txKey].Transaction? ==>
      res == exec(InTx(ctx.values[r.txKey].tx), DeleteWhere(r.tableName, specs)).err
    ensures (r.txKey !in ctx.values || ctx.values[r.txKey].Foreign?) ==>
      res == exec(Pool, DeleteWhere(r.tableName, specs)).err
  {
    Dispatch(ctx, r.txKey, exec, DeleteWhere(r.tableName, specs)).err
  }

  /** Save: an INSERT of the entity's row over the declared columns carrying the
      repository's upsert clause; the exec error is returned. */
  function Save<E, R, F>(r: Repository<E, R>, exec: Executor<F, R>, ctx: Context, e: E): (res: Option<Error>)
    ensures res == Dispatch(ctx, r.txKey, exec, Upsert(r.tableName, r.columns, r.row(e), r.upsertSuffix)).err
  {
    var row := r.row(e);
    Dispatch(ctx, r.txKey, exec, Upsert(r.tableName, r.columns, row, r.upsertSuffix)).err
  }

  // ---------------------------------------------------------------- iterator

  /** The row cursor of Each over the scan outcomes of its rows: how many times
      `Next` has moved onto a row, and whether it has reported the end, after
      which database/sql closes the rows. `final` is the error, if any, that
      ended the iteration; database/sql keeps it and Scan reports it. */
  datatype Iterator<E, !R> = Iterator(scans: seq<Result<R>>, advanced: nat, closed: bool, final: Option<Error>, entity: R -> E, zero: E)

  /** What Scan reports on a closed cursor: the error that ended the
      iteration, or "rows are closed" when it ended normally. */
  function ClosedError<E, R>(it: Iterator<E, R>): Error
  {
    if it.final.Some? then it.final.value else RowsClosed
  }

  /** A cursor that `Next` can produce from a fresh one. */
  predicate Reachable<E, R>(it: Iterator<E, R>)
  {
    it.advanced <= |it.scans| && (it.closed ==> it.advanced == |it.scans|)
  }

  datatype Step<E, !R> = Step(cursor: Iterator<E, R>, more: bool)

  /** `Next`: moves onto the following row if there is one, and otherwise
      closes the cursor and reports the end, now and on every later call. */
  function Next<E, R>(it: Iterator<E, R>): (s: Step<E, R>)
    requires Reachable(it)
    ensures Reachable(s.cursor)
    ensures s.cursor.scans == it.scans && s.cursor.final == it.final
    ensures s.cursor.entity == it.entity && s.cursor.zero == it.zero
    ensures s.more <==> !it.closed && it.advanced < |it.scans|
    ensures s.more ==> s.cursor.advanced == it.advanced + 1 && !s.cursor.closed
    ensures !s.more ==> s.cursor.closed && s.cursor.advanced == |it.scans|
  {
    if !it.closed && it.advanced < |it.scans| then Step(it.(advanced := it.advanced + 1), true)
    else Step(it.(closed := true), false)
  }

  /** `Current`: scans the row `Next` last moved onto, giving its entity, or
      the zero entity and the scan error. Scanning before the first `Next`
      fails; scanning after the end fails with the error that ended the
      iteration, or with "rows are closed" when there was none. */
  function Current<E, R>(it: Iterator<E, R>): (res: Ret<E>)
    requires Reachable(it)
    ensures !it.closed && it.advanced > 0 && it.scans[it.advanced - 1].Ok? ==>
      res == Ret(it.entity(it.scans[it.advanced - 1].value), None)
    ensures !it.closed && it.advanced > 0 && it.scans[it.advanced - 1].Err? ==>
      res == Ret(it.zero, Some(it.scans[it.advanced - 1].error))
    ensures !it.closed && it.advanced == 0 ==> res == Ret(it.zero, Some(ScanWithoutRow))
    ensures it.closed && it.final.Some? ==> res == Ret(it.zero, it.final)
    ensures it.closed && it.final.None? ==> res == Ret(it.zero, Some(RowsClosed))
  {
    if it.closed then Ret(it.zero, Some(ClosedError(it)))
    else if it.advanced == 0 then Ret(it.zero, Some(ScanWithoutRow))
    else match it.scans[it.advanced - 1]
      case Err(e) => Ret(it.zero, Some(e))
      case Ok(row) => Ret(it.entity(row), None)
  }

  /** Every cursor runs out: `n` calls of `Next` after the end of `n` rows have
      been moved past, it reports no more rows and nothing can be read. */
  lemma {:induction false} NextExhausts<E, R>(it: Iterator<E, R>)
    requires Reachable(it)
    ensures var last := Advance(it, |it.scans| - it.advanced + 1);
      !last.more && Current(last.cursor) == Ret(it.zero, Some(ClosedError(it))) &&
      !Next(last.cursor).more && Next(last.cursor).cursor == last.cursor
    decreases |it.scans| - it.advanced
  {
    if !it.closed && it.advanced < |it.scans| {
      NextExhausts(Next(it).cursor);
    }
  }

  /** `n` calls of `Next` in a row; the step of the last call. */
  function Advance<E, R>(it: Iterator<E, R>, n: nat): (s: Step<E, R>)
    requires Reachable(it) && n > 0
    ensures Reachable(s.cursor)
    decreases n
  {
    if n == 1 then Next(it) else Advance(Next(it).cursor, n - 1)
  }

  /** Each: the cursor over the same query as List, or nil and the query error. */
  function Each<E, R, F>(r: Repository<E, R>, db: Database<F, R, R>, ctx: Context, args: ListArgs<F>): (res: Ret<Option<Iterator<E, R>>>)
    ensures
      var q := Dispatch(ctx, r.txKey, db, Query(ListSelect(r, args)));
      && (q.Failed? ==> res == Ret(None, Some(q.error)))
      && (q.Rows? ==> res == Ret(Some(Iterator(q.scans, 0, false, q.final, r.entity, r.zero)), None))
  {
    match Dispatch(ctx, r.txKey, db, Query(ListSelect(r, args)))
    case Failed(e) => Ret(None, Some(e))
    case Rows(scans, final) => Ret(Some(Iterator(scans, 0, false, final, r.entity, r.zero)), None)
  }

  /** A caller's loop over a cursor: advance, read, stop at the end or at the
      first error. */
  function Collect<E, R>(it: Iterator<E, R>, acc: seq<E>): Ret<Option<seq<E>>>
    requires Reachable(it) && !it.closed
    decreases |it.scans| - it.advanced
  {
    var step := Next(it);
    if !step.more then Ret(Some(acc), None)
    else
      var cur := Current(step.cursor);
      if cur.err.Some? then Ret(None, cur.err)
      else Collect(step.cursor, acc + [cur.value])
  }

  lemma {:induction false} CollectIsListLoop<E, R>(it: Iterator<E, R>, acc: seq<E>)
    requires Reachable(it) && !it.closed
    ensures Collect(it, acc) == ListLoop(it.entity, it.scans[it.advanced..], acc)
    decreases |it.scans| - it.advanced
  {
    var rest := it.scans[it.advanced..];
    if it.advanced < |it.scans| {
      var next := it.(advanced := it.advanced + 1);
      assert rest[0] == it.scans[it.advanced];
      assert rest[1..] == it.scans[it.advanced + 1..];
      match it.scans[it.advanced]
      case Err(e) =>
      case Ok(row) =>
        CollectIsListLoop(next, acc + [it.entity(row)]);
    }
  }

  /** A fresh cursor over an answer's rows, read to the end, gives what the
      List loop gives for the whole answer. */
  lemma FreshCursorIsListLoop<E, R>(scans: seq<Result<R>>, final: Option<Error>, entity: R -> E, zero: E)
    ensures Collect(Iterator(scans, 0, false, final, entity, zero), []) == ListLoop(entity, scans, [])
  {
    CollectIsListLoop(Iterator(scans, 0, false, final, entity, zero), []);
    assert scans[0..] == scans;
  }

  /** Reading Each's cursor to the end yields exactly what List returns for the
      same arguments: the same entities in the same order, or the same error. */
  lemma EachAgreesWithList<E, R, F>(r: Repository<E, R>, db: Database<F, R, R>, ctx: Context, args: ListArgs<F>)
    ensures Each(r, db, ctx, args).err.None? ==>
      Collect(Each(r, db, ctx, args).value.value, []) == List(r, db, ctx, args)
    ensures Each(r, db, ctx, args).err.Some? ==>
      Each(r, db, ctx, args).err == List(r, db, ctx, args).err
  {
    var q := Dispatch(ctx, r.txKey, db, Query(ListSelect(r, args)));
    if q.Rows? {
      FreshCursorIsListLoop(q.scans, q.final, r.entity, r.zero);
    }
  }

  /** Get is List with a limit of one: on an answer of at most one row it returns
      List's error, and List's only entity or the zero entity. */
  lemma GetIsListOfOne<E, R, F>(r: Repository<E, R>, db: Database<F, R, R>, ctx: Context, specs: seq<F>)
    requires var q := Dispatch(ctx, r.txKey, db, Query(ListSelect(r, GetArgs(specs))));
             q.Rows? ==> |q.scans| <= 1
    ensures Get(r, db, ctx, specs).err == List(r, db, ctx, GetArgs(specs)).err
    ensures List(r, db, ctx, GetArgs(specs)).err.None? ==>
      var items := List(r, db, ctx, GetArgs(specs)).value.value;
      Get(r, db, ctx, specs).value == if |items| == 0 then r.zero else items[0]
  {
    PaginateLimit(SelectBuilder(r.columns, r.tableName, specs, None, None), [WithLimit(1), NilSpec]);
    PaginateOffset(SelectBuilder(r.columns, r.tableName, specs, None, None), [WithLimit(1), NilSpec]);
  }

  /** An Each whose iteration a driver error ends reports that error when the
      caller reads after the end, since the iterator has no `Err` of its own. */
  lemma EachReportsIterationError<E, R, F>(r: Repository<E, R>, db: Database<F, R, R>, ctx: Context, args: ListArgs<F>, e: Error)
    requires Dispatch(ctx, r.txKey, db, Query(ListSelect(r, args))).Rows?
    requires Dispatch(ctx, r.txKey, db, Query(ListSelect(r, args))).final == Some(e)
    ensures var it := Each(r, db, ctx, args).value.value;
      var last := Advance(it, |it.scans| + 1);
      !last.more && Current(last.cursor) == Ret(r.zero, Some(e))
  {
    NextExhausts(Each(r, db, ctx, args).value.value);
  }

  /** List and Each never look at the Sort argument. */
  lemma ListIgnoresSort<E, R, F>(r: Repository<E, R>, db: Database<F, R, R>, ctx: Context, args: ListArgs<F>, sort: Specification)
    ensures List(r, db, ctx, args.(sort := sort)) == List(r, db, ctx, args)
    ensures Each(r, db, ctx, args.(sort := sort)) == Each(r, db, ctx, args)
  {
  }

  // ---------------------------------------------------------------- schema check

  /** The type the schema declares for a column; Go's zero value when undeclared. */
  function Declared(schema: map<string, string>, column: string): string
  {
    if column in schema then schema[column] else ""
  }

  predicate Conforms(schema: map<string, string>, row: CatalogRow)
  {
    row.columnName in schema && schema[row.columnName] == row.dataType
  }

  /** A catalog row outcome that stops the check. */
  predicate Stops(schema: map<string, string>, scan: Result<CatalogRow>)
  {
    scan.Err? || !Conforms(schema, scan.value)
  }

  /** What the check reports at the row that stops it: the scan error, or the
      schema error naming the column, the catalog's type and the declared type. */
  function Verdict(schema: map<string, string>, scan: Result<CatalogRow>): Error
  {
    match scan
    case Err(e) => e
    case Ok(row) => ErrInvalidSchema.Format([row.columnName, row.dataType, Declared(schema, row.columnName)])
  }

  /** The loop of `checkSchema` over the catalog rows. */
  function CheckRows(schema: map<string, string>, scans: seq<Result<CatalogRow>>, final: Option<Error>): (res: Option<Error>)
    ensures (forall i :: 0 <= i < |scans| ==> !Stops(schema, scans[i])) ==> res == final
    ensures forall i :: 0 <= i < |scans| && Stops(schema, scans[i]) && (forall j :: 0 <= j < i ==> !Stops(schema, scans[j])) ==>
      res == Some(Verdict(schema, scans[i]))
    decreases |scans|
  {
    if |scans| == 0 then final
    else
      var rest := scans[1..];
      assert forall k :: 0 <= k < |rest| ==> rest[k] == scans[k + 1];
      match scans[0]
      case Err(e) => Some(e)
      case Ok(row) =>
        if row.columnName !in schema || schema[row.columnName] != row.dataType then
          Some(ErrInvalidSchema.Format([row.columnName, row.dataType, Declared(schema, row.columnName)]))
        else CheckRows(schema, rest, final)
  }

  /** `checkSchema`: reads the table's catalog rows on the pool (the check runs
      under a background context) and fails at the first row that cannot be
      scanned, whose column is undeclared, or whose declared type differs; then
      reports `rows.Err()`. A query failure is returned as-is. */
  function CheckSchema<E, R, F>(r: Repository<E, R>, db: Database<F, R, CatalogRow>): (res: Option<Error>)
    ensures
      var q := db(Pool, CatalogColumns(r.tableName));
      && (q.Failed? ==> res == Some(q.error))
      && (q.Rows? && (forall i :: 0 <= i < |q.scans| ==> !Stops(r.schema, q.scans[i])) ==> res == q.final)
      && (q.Rows? ==> forall i :: 0 <= i < |q.scans| && Stops(r.schema, q.scans[i]) && (forall j :: 0 <= j < i ==> !Stops(r.schema, q.scans[j])) ==>
            res == Some(Verdict(r.schema, q.scans[i])))
  {
    match Dispatch(Background, r.txKey, db, CatalogColumns(r.tableName))
    case Failed(e) => Some(e)
    case Rows(scans, final) => CheckRows(r.schema, scans, final)
  }

  /** Only catalog columns are looked up: two schemas that agree on every column
      the catalog lists give the same verdict, so a declared column missing from
      the table is never reported. */
  lemma {:induction false} CheckIgnoresUnlistedColumns(s1: map<string, string>, s2: map<string, string>,
                                                       scans: seq<Result<CatalogRow>>, final: Option<Error>)
    requires forall i :: 0 <= i < |scans| && scans[i].Ok? ==>
      (scans[i].value.columnName in s1 <==> scans[i].value.columnName in s2) &&
      Declared(s1, scans[i].value.columnName) == Declared(s2, scans[i].value.columnName)
    ensures CheckRows(s1, scans, final) == CheckRows(s2, scans, final)
    decreases |scans|
  {
    if |scans| > 0 {
      var rest := scans[1..];
      assert forall k :: 0 <= k < |rest| ==> rest[k] == scans[k + 1];
      CheckIgnoresUnlistedColumns(s1, s2, rest, final);
    }
  }

  /** A table lacking a declared `email` column passes the check. */
  lemma MissingDeclaredColumnPasses()
    ensures CheckRows(map["id" := "uuid", "email" := "text"], [Ok(CatalogRow("id", "uuid"))], None) == None
  {
  }

  /** An empty catalog, a table the catalog does not know included, passes. */
  lemma EmptyCatalogPasses(schema: map<string, string>)
    ensures CheckRows(schema, [], None) == None
  {
  }

  /** The columns the catalog rows that scanned name. */
  function Listed(scans: seq<Result<CatalogRow>>): set<string>
  {
    set i | 0 <= i < |scans| && scans[i].Ok? :: scans[i].value.columnName
  }

  /** The first column of `order` that the schema declares but `listed` lacks. */
  function FirstUnlisted(order: seq<string>, schema: map<string, string>, listed: set<string>): (r: Option<string>)
    ensures r.None? <==> forall c :: c in order && c in schema ==> c in listed
    ensures r.Some? ==> r.value in order && r.value in schema && r.value !in listed
    decreases |order|
  {
    if |order| == 0 then None
    else if order[0] in schema && order[0] !in listed then Some(order[0])
    else
      var rest := FirstUnlisted(order[1..], schema, listed);
      assert forall c :: c in order ==> c == order[0] || c in order[1..];
      rest
  }

  /** The check as its error message describes it: after the catalog rows pass,
      every declared column of `order` must also have been listed; the first
      one missing is reported with an empty catalog type. */
  function CheckRowsComplete(schema: map<string, string>, order: seq<string>,
                             scans: seq<Result<CatalogRow>>, final: Option<Error>): (res: Option<Error>)
    ensures CheckRows(schema, scans, final).Some? ==> res == CheckRows(schema, scans, final)
    ensures res.None? <==>
      CheckRows(schema, scans, final).None? && forall c :: c in order && c in schema ==> c in Listed(scans)
    ensures CheckRows(schema, scans, final).None? && FirstUnlisted(order, schema, Listed(scans)).Some? ==>
      var c := FirstUnlisted(order, schema, Listed(scans)).value;
      res == Some(ErrInvalidSchema.Format([c, "", schema[c]]))
  {
    var rows := CheckRows(schema, scans, final);
    if rows.Some? then rows
    else match FirstUnlisted(order, schema, Listed(scans))
      case None => None
      case Some(c) => Some(ErrInvalidSchema.Format([c, "", schema[c]]))
  }

  /** With the completeness step the table lacking `email` is rejected, and the
      error names `email` and its declared type. */
  lemma MissingDeclaredColumnFailsWhenComplete()
    ensures CheckRowsComplete(map["id" := "uuid", "email" := "text"], ["id", "email"],
                              [Ok(CatalogRow("id", "uuid"))], None)
            == Some(ErrInvalidSchema.Format(["email", "", "text"]))
  {
    var scans := [Ok(CatalogRow("id", "uuid"))];
    assert Listed(scans) == {"id"} by {
      assert scans[0].value.columnName == "id";
    }
    assert "email" != "id";
  }

  // ---------------------------------------------------------------- constructors

  /** `New` of `common/repository/postgres`: computes the upsert clause, then
      checks the schema; a failed check gives nil and the check's error. */
  method NewChecked<E, R, F>(opt: Options<E, R>, db: Database<F, R, CatalogRow>) returns (res: Ret<Option<Repository<E, R>>>)
    ensures CheckSchema(FromOptions(opt, UpsertSuffix(opt.primaryKey, opt.columns)), db).Some? ==>
      res == Ret(None, CheckSchema(FromOptions(opt, UpsertSuffix(opt.primaryKey, opt.columns)), db))
    ensures CheckSchema(FromOptions(opt, UpsertSuffix(opt.primaryKey, opt.columns)), db).None? ==>
      res == Ret(Some(FromOptions(opt, UpsertSuffix(opt.primaryKey, opt.columns))), None)
  {
    var suffix := MakeUpsertSuffix(opt.primaryKey, opt.columns);
    var r := FromOptions(opt, suffix);
    var err := CheckSchema(r, db);
    if err.Some? {
      return Ret(None, err);
    }
    return Ret(Some(r), None);
  }

  /** `New` of `repository/postgres` and `NewSQLiteRepository`: the schema is
      stored but never checked, and construction never fails. */
  method NewUnchecked<E, R>(opt: Options<E, R>) returns (res: Ret<Option<Repository<E, R>>>)
    ensures res == Ret(Some(FromOptions(opt, UpsertSuffix(opt.primaryKey, opt.columns))), None)
    ensures res.value.value.schema == opt.schema
  {
    var suffix := MakeUpsertSuffix(opt.primaryKey, opt.columns);
    return Ret(Some(FromOptions(opt, suffix)), None);
  }
}
