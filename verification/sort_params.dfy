/** Parsing of the `sort` query parameter against a whitelist of columns. */
module SortParams {
  import opened Base
  import Strings

  datatype SortDirection = SortAscending | SortDescending

  datatype SortArgument = SortArgument(column: string, direction: SortDirection)

  /** The whitelist of sortable columns and the arguments parsed so far. */
  datatype SortParams = SortParams(columns: seq<string>, arguments: seq<SortArgument>)

  function NewSortParams(columns: seq<string>): SortParams
  {
    SortParams(columns, [])
  }

  /** Linear search of the whitelist for an exact match. */
  method ColumnAllowed(s: SortParams, column: string) returns (allowed: bool)
    ensures allowed <==> column in s.columns
  {
    var i := 0;
    while i < |s.columns|
      invariant 0 <= i <= |s.columns|
      invariant column !in s.columns[..i]
    {
      if column == s.columns[i] {
        return true;
      }
      i := i + 1;
    }
    assert s.columns[..i] == s.columns;
    return false;
  }

  /** A candidate sorts descending exactly when it starts with `-`; a leading
      `+` or no sign both mean ascending. */
  function Direction(candidate: string): (d: SortDirection)
    ensures d == SortDescending <==> Strings.HasPrefix(candidate, '-')
  {
    if Strings.HasPrefix(candidate, '-') then SortDescending else SortAscending
  }

  /** The column a candidate names: the candidate with every `-` and every `+`
      removed, wherever they stand in it. */
  function Column(candidate: string): string
  {
    Strings.RemoveAll(Strings.RemoveAll(candidate, '-'), '+')
  }

  /** The column keeps every other character of the candidate and no sign. */
  lemma ColumnStripsSigns(candidate: string)
    ensures '-' !in Column(candidate) && '+' !in Column(candidate)
    ensures forall x :: x != '-' && x != '+' ==> (x in Column(candidate) <==> x in candidate)
  {
  }

  /** A candidate without signs names itself. */
  lemma UnsignedCandidateNamesItself(candidate: string)
    requires '-' !in candidate && '+' !in candidate
    ensures Column(candidate) == candidate
    ensures Direction(candidate) == SortAscending
  {
  }

  function Argument(candidate: string): SortArgument
  {
    SortArgument(Column(candidate), Direction(candidate))
  }

  predicate Allowed(s: SortParams, candidate: string)
  {
    Column(candidate) in s.columns
  }

  predicate Rejected(s: SortParams, candidate: string)
  {
    Column(candidate) !in s.columns
  }

  /** The arguments a run of candidates appends, one per candidate, in order. */
  function Arguments(candidates: seq<string>): (args: seq<SortArgument>)
    ensures |args| == |candidates|
    ensures forall k :: 0 <= k < |candidates| ==> args[k] == Argument(candidates[k])
  {
    seq(|candidates|, k requires 0 <= k < |candidates| => Argument(candidates[k]))
  }

  /** What parsing `candidates` from `s` yields: `s'` extends the arguments
      of `s` by those of a run of allowed leading candidates; the run covers
      every candidate exactly when there is no error, and otherwise stops at a
      rejected candidate with `ErrInvalidSortParams`. */
  predicate Parsed(s: SortParams, candidates: seq<string>, s': SortParams, err: Option<Error>)
  {
    && s'.columns == s.columns
    && |s.arguments| <= |s'.arguments| <= |s.arguments| + |candidates|
    && s'.arguments == s.arguments + Arguments(candidates[..|s'.arguments| - |s.arguments|])
    && (forall k :: 0 <= k < |s'.arguments| - |s.arguments| ==> Allowed(s, candidates[k]))
    && (err.None? <==> |s'.arguments| == |s.arguments| + |candidates|)
    && (err.Some? ==> err.value == ErrInvalidSortParams)
    && (err.Some? ==> Rejected(s, candidates[|s'.arguments| - |s.arguments|]))
  }

  /** `Parsed` pins the outcome down: two results that both satisfy it agree. */
  lemma ParsedIsDeterministic(s: SortParams, candidates: seq<string>, s1: SortParams, e1: Option<Error>, s2: SortParams, e2: Option<Error>)
    requires Parsed(s, candidates, s1, e1) && Parsed(s, candidates, s2, e2)
    ensures s1 == s2 && e1 == e2
  {
  }

  /** One candidate of the loop: its argument and whether its column is allowed. */
  method ParseCandidate(s: SortParams, candidate: string) returns (arg: SortArgument, allowed: bool)
    ensures arg == Argument(candidate)
    ensures allowed <==> Allowed(s, candidate)
    ensures !allowed <==> Rejected(s, candidate)
  {
    var direction := SortAscending;
    if Strings.HasPrefix(candidate, '-') {
      direction := SortDescending;
    }
    var columnStr := Strings.RemoveAll(candidate, '-');
    columnStr := Strings.RemoveAll(columnStr, '+');
    allowed := ColumnAllowed(s, columnStr);
    arg := SortArgument(columnStr, direction);
  }

  /** The loop over the candidates: appends while the columns are allowed and
      stops at the first one that is not. */
  method ParseCandidates(s: SortParams, candidates: seq<string>) returns (s': SortParams, err: Option<Error>)
    ensures Parsed(s, candidates, s', err)
  {
    s' := s;
    var i := 0;
    while i < |candidates|
      invariant 0 <= i <= |candidates|
      invariant s'.columns == s.columns
      invariant s'.arguments == s.arguments + Arguments(candidates[..i])
      invariant forall k :: 0 <= k < i ==> Allowed(s, candidates[k])
    {
      var arg, allowed := ParseCandidate(s', candidates[i]);
      if !allowed {
        return s', Some(ErrInvalidSortParams);
      }
      assert Arguments(candidates[..i + 1]) == Arguments(candidates[..i]) + [arg];
      s' := s'.(arguments := s'.arguments + [arg]);
      i := i + 1;
    }
    assert candidates[..i] == candidates;
    return s', None;
  }

  /** Parses the raw `sort` value. Each comma-separated candidate appends one
      argument, in order, to the arguments already present; the first candidate
      naming a column outside the whitelist stops the parse with
      `ErrInvalidSortParams`, keeping what earlier candidates appended. An empty
      value changes nothing; `exists.String` is read as "not the empty
      string", so a blank but non-empty value is parsed. */
  method ParseFromContext(s: SortParams, sort: string) returns (s': SortParams, err: Option<Error>)
    ensures s'.columns == s.columns
    ensures sort == "" ==> s' == s && err.None?
    ensures |s.arguments| <= |s'.arguments|
    ensures sort != "" ==> Parsed(s, Strings.Split(sort, ','), s', err)
  {
    if sort == "" {
      return s, None;
    }
    var candidates := Strings.Split(sort, ',');
    s', err := ParseCandidates(s, candidates);
  }
}
