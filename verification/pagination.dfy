/**
 * `PaginationParams` from `src/client/pagination.rs`: the query parameters
 * of a paged list request, built with a small builder.
 */
module Pagination {
  import opened Wrappers

  /** The API refuses pages larger than this. */
  const MaxLimit: nat := 250

  /** Rust `u32`. */
  type U32 = n: int | 0 <= n < 0x1_0000_0000

  datatype PaginationParams = PaginationParams(limit: Option<U32>, cursor: Option<string>)

  /** `PaginationParams::new`: neither a limit nor a cursor. */
  function New(): (p: PaginationParams)
    ensures p.limit.None? && p.cursor.None?
  {
    PaginationParams(None, None)
  }

  /** `with_limit`: store the requested limit, capped at the API maximum. */
  function WithLimit(p: PaginationParams, limit: U32): (r: PaginationParams)
    ensures r.limit.Some? && r.limit.value <= MaxLimit
    ensures r.limit.value == limit <==> limit <= MaxLimit
    ensures limit > MaxLimit ==> r.limit.value == MaxLimit
    ensures r.cursor == p.cursor
  {
    p.(limit := Some(if limit < MaxLimit then limit else MaxLimit))
  }

  /** `with_cursor`: replace the cursor, `None` included; the limit stays. */
  function WithCursor(p: PaginationParams, cursor: Option<string>): (r: PaginationParams)
    ensures r.cursor == cursor && r.limit == p.limit
  {
    p.(cursor := cursor)
  }

  /** One builder call. */
  datatype Step = SetLimit(n: U32) | SetCursor(c: Option<string>)

  function Apply(p: PaginationParams, step: Step): PaginationParams {
    match step
    case SetLimit(n) => WithLimit(p, n)
    case SetCursor(c) => WithCursor(p, c)
  }

  /** `PaginationParams::new()` followed by the builder calls in order. */
  function Build(steps: seq<Step>): PaginationParams
    decreases |steps|
  {
    if steps == [] then New() else Apply(Build(steps[..|steps| - 1]), steps[|steps| - 1])
  }

  /** Whether a stored limit respects the API maximum. */
  predicate LimitOk(p: PaginationParams) {
    p.limit.Some? ==> p.limit.value <= MaxLimit
  }

  /** Every builder call keeps the stored limit within the API maximum. */
  lemma ApplyKeepsLimitOk(p: PaginationParams, step: Step)
    requires LimitOk(p)
    ensures LimitOk(Apply(p, step))
  {
  }

  /** However the parameters were built, the stored limit never exceeds 250. */
  lemma {:induction false} BuildLimitOk(steps: seq<Step>)
    ensures LimitOk(Build(steps))
    decreases |steps|
  {
    if steps != [] {
      BuildLimitOk(steps[..|steps| - 1]);
      ApplyKeepsLimitOk(Build(steps[..|steps| - 1]), steps[|steps| - 1]);
    }
  }

  /** The index of the last limit step (`limitStep`) or cursor step (`!limitStep`), or -1. */
  function LastIndex(steps: seq<Step>, limitStep: bool): (i: int)
    ensures -1 <= i < |steps|
    ensures i >= 0 ==> steps[i].SetLimit? == limitStep
    ensures forall j :: i < j < |steps| ==> steps[j].SetLimit? != limitStep
    decreases |steps|
  {
    if steps == [] then -1
    else if steps[|steps| - 1].SetLimit? == limitStep then |steps| - 1
    else LastIndex(steps[..|steps| - 1], limitStep)
  }

  /**
   * The last `with_limit` call decides the limit, capped at 250, and the
   * last `with_cursor` call decides the cursor; with no such call the field
   * keeps its `new()` value.
   */
  lemma {:induction false} BuildLastWins(steps: seq<Step>)
    ensures var i := LastIndex(steps, true);
      Build(steps).limit ==
        if i < 0 then None
        else Some(if steps[i].n < MaxLimit then steps[i].n else MaxLimit)
    ensures var j := LastIndex(steps, false);
      Build(steps).cursor == if j < 0 then None else steps[j].c
    decreases |steps|
  {
    if steps != [] {
      BuildLastWins(steps[..|steps| - 1]);
    }
  }

  /** Setting the limit twice is the same as setting it once to the second value. */
  lemma WithLimitLastWins(p: PaginationParams, a: U32, b: U32)
    ensures WithLimit(WithLimit(p, a), b) == WithLimit(p, b)
  {
  }

  /** The two builder calls touch different fields, so their order does not matter. */
  lemma BuilderCallsCommute(p: PaginationParams, n: U32, c: Option<string>)
    ensures WithCursor(WithLimit(p, n), c) == WithLimit(WithCursor(p, c), n)
  {
  }
}
