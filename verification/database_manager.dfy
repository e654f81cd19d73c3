/** The SQL database manager: which handle a query runs on, given the ambient
    context, and how pagination specifications shape a SELECT. The three copies
    of the manager in the repository behave identically and differ only in the
    context-key type they read, which is the `key` parameter here. */
module DatabaseManager {
  import opened Base
  import opened Specification

  /** The distinct `TxKey{}` types: the root package's, `manager/values`' and
      `common/manager/values`'. A value stored under one is invisible under another. */
  datatype TxKey = RootTxKey | ManagerTxKey | CommonTxKey

  /** A `*sql.Tx`. */
  datatype TxId = TxId(id: nat)

  /** What a context holds under a key: a transaction, or a value of another type. */
  datatype Ambient = Transaction(tx: TxId) | Foreign(tag: nat)

  /** The request context, reduced to its values under the transaction keys. */
  datatype Context = Context(values: map<TxKey, Ambient>)

  const Background: Context := Context(map[])

  /** `context.WithValue`: a derived context that binds `key` to `v`. */
  function WithValue(ctx: Context, key: TxKey, v: Ambient): Context
  {
    Context(ctx.values[key := v])
  }

  /** The physical handle a call runs on: the connection pool or a transaction. */
  datatype Handle = Pool | InTx(tx: TxId)

  /** `Querier(ctx)`: the transaction found under `key` when there is one, and
      the pool otherwise, including when the value under `key` has another type. */
  function Querier(ctx: Context, key: TxKey): (h: Handle)
    ensures h.InTx? <==> key in ctx.values && ctx.values[key].Transaction?
    ensures h.InTx? ==> h.tx == ctx.values[key].tx
  {
    if key !in ctx.values then Pool
    else match ctx.values[key]
      case Transaction(tx) => InTx(tx)
      case Foreign(_) => Pool
  }

  /** `querier.QueryContext` and `querier.ExecContext`: the statement goes to the
      routed handle and its answer, result and error, comes back unchanged; the
      timing and logging around the call have no effect on it. */
  function Dispatch<S, T>(ctx: Context, key: TxKey, run: (Handle, S) -> T, stmt: S): (r: T)
    ensures key !in ctx.values ==> r == run(Pool, stmt)
    ensures key in ctx.values && ctx.values[key].Foreign? ==> r == run(Pool, stmt)
    ensures key in ctx.values && ctx.values[key].Transaction? ==> r == run(InTx(ctx.values[key].tx), stmt)
  {
    run(Querier(ctx, key), stmt)
  }

  /** A squirrel SELECT as far as the model needs it: SQL text is left out. */
  datatype SelectBuilder<F> = SelectBuilder(
    columns: seq<string>, table: string, filters: seq<F>, limit: Option<nat>, offset: Option<nat>)

  function Apply<F>(b: SelectBuilder<F>, spec: Specification): SelectBuilder<F>
  {
    match spec
    case LimitSpec(n) => b.(limit := Some(n))
    case OffsetSpec(n) => b.(offset := Some(n))
    case _ => b
  }

  /** `Paginate`: applies the specifications left to right. Only Limit and
      Offset variants act; nil, Sort and any other value are skipped. */
  function Paginate<F>(b: SelectBuilder<F>, specs: seq<Specification>): (r: SelectBuilder<F>)
    ensures r.columns == b.columns && r.table == b.table && r.filters == b.filters
    decreases |specs|
  {
    if |specs| == 0 then b else Paginate(Apply(b, specs[0]), specs[1..])
  }

  /** Without a Limit specification the builder keeps its own limit. */
  lemma {:induction false} PaginateKeepsLimit<F>(b: SelectBuilder<F>, specs: seq<Specification>)
    requires forall j :: 0 <= j < |specs| ==> !specs[j].LimitSpec?
    ensures Paginate(b, specs).limit == b.limit
    decreases |specs|
  {
    if |specs| > 0 {
      PaginateKeepsLimit(Apply(b, specs[0]), specs[1..]);
    }
  }

  /** The last Limit specification decides the limit. */
  lemma {:induction false} PaginateLastLimit<F>(b: SelectBuilder<F>, specs: seq<Specification>, i: nat)
    requires i < |specs| && specs[i].LimitSpec?
    requires forall j :: i < j < |specs| ==> !specs[j].LimitSpec?
    ensures Paginate(b, specs).limit == Some(specs[i].limit)
    decreases |specs|
  {
    if i == 0 {
      PaginateKeepsLimit(Apply(b, specs[0]), specs[1..]);
    } else {
      PaginateLastLimit(Apply(b, specs[0]), specs[1..], i - 1);
    }
  }

  /** The limit of the paginated builder is the value of the last Limit
      specification, or the builder's own limit when there is none. */
  lemma PaginateLimit<F>(b: SelectBuilder<F>, specs: seq<Specification>)
    ensures (forall j :: 0 <= j < |specs| ==> !specs[j].LimitSpec?) ==> Paginate(b, specs).limit == b.limit
    ensures forall i :: 0 <= i < |specs| && specs[i].LimitSpec? && (forall j :: i < j < |specs| ==> !specs[j].LimitSpec?)
              ==> Paginate(b, specs).limit == Some(specs[i].limit)
  {
    if forall j :: 0 <= j < |specs| ==> !specs[j].LimitSpec? {
      PaginateKeepsLimit(b, specs);
    }
    forall i | 0 <= i < |specs| && specs[i].LimitSpec? && (forall j :: i < j < |specs| ==> !specs[j].LimitSpec?)
      ensures Paginate(b, specs).limit == Some(specs[i].limit)
    {
      PaginateLastLimit(b, specs, i);
    }
  }

  /** Without an Offset specification the builder keeps its own offset. */
  lemma {:induction false} PaginateKeepsOffset<F>(b: SelectBuilder<F>, specs: seq<Specification>)
    requires forall j :: 0 <= j < |specs| ==> !specs[j].OffsetSpec?
    ensures Paginate(b, specs).offset == b.offset
    decreases |specs|
  {
    if |specs| > 0 {
      PaginateKeepsOffset(Apply(b, specs[0]), specs[1..]);
    }
  }

  /** The last Offset specification decides the offset. */
  lemma {:induction false} PaginateLastOffset<F>(b: SelectBuilder<F>, specs: seq<Specification>, i: nat)
    requires i < |specs| && specs[i].OffsetSpec?
    requires forall j :: i < j < |specs| ==> !specs[j].OffsetSpec?
    ensures Paginate(b, specs).offset == Some(specs[i].offset)
    decreases |specs|
  {
    if i == 0 {
      PaginateKeepsOffset(Apply(b, specs[0]), specs[1..]);
    } else {
      PaginateLastOffset(Apply(b, specs[0]), specs[1..], i - 1);
    }
  }

  /** The offset of the paginated builder is the value of the last Offset
      specification, or the builder's own offset when there is none. */
  lemma PaginateOffset<F>(b: SelectBuilder<F>, specs: seq<Specification>)
    ensures (forall j :: 0 <= j < |specs| ==> !specs[j].OffsetSpec?) ==> Paginate(b, specs).offset == b.offset
    ensures forall i :: 0 <= i < |specs| && specs[i].OffsetSpec? && (forall j :: i < j < |specs| ==> !specs[j].OffsetSpec?)
              ==> Paginate(b, specs).offset == Some(specs[i].offset)
  {
    if forall j :: 0 <= j < |specs| ==> !specs[j].OffsetSpec? {
      PaginateKeepsOffset(b, specs);
    }
    forall i | 0 <= i < |specs| && specs[i].OffsetSpec? && (forall j :: i < j < |specs| ==> !specs[j].OffsetSpec?)
      ensures Paginate(b, specs).offset == Some(specs[i].offset)
    {
      PaginateLastOffset(b, specs, i);
    }
  }

  /** Without any Limit or Offset specification the builder comes back unchanged. */
  lemma PaginateWithoutPagingIsIdentity<F>(b: SelectBuilder<F>, specs: seq<Specification>)
    requires forall j :: 0 <= j < |specs| ==> !specs[j].LimitSpec? && !specs[j].OffsetSpec?
    ensures Paginate(b, specs) == b
  {
    PaginateLimit(b, specs);
    PaginateOffset(b, specs);
  }
}
