/** The shared specification values and the arguments of List and Each.
    Filter specifications are a repository's own type `F`; the values below are
    the ones the database manager understands. */
module Specification {
  import opened Uint32

  datatype SortArg = SortArg(column: string, direction: string)

  /** A value of the `Specification` interface: nil, one of the three library
      variants, or a value of some other type that implements it. */
  datatype Specification =
    | NilSpec
    | LimitSpec(limit: uint32)
    | OffsetSpec(offset: uint32)
    | SortSpec(args: seq<SortArg>)
    | OtherSpec(tag: nat)

  function WithLimit(limit: uint32): Specification
  {
    LimitSpec(limit)
  }

  function WithOffset(offset: uint32): Specification
  {
    OffsetSpec(offset)
  }

  /** The bundle passed to List and Each: filters plus positional directives. */
  datatype ListArgs<F> = ListArgs(filters: seq<F>, sort: Specification, limit: Specification, offset: Specification)
}
