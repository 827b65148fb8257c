/** What the document store does with `.skip(n).limit(m)` on a query result, as far as the
    routes depend on it: the result keeps the store's order, a negative skip is refused by the
    server, a limit of 0 means "no limit", and a negative limit `-m` returns at most `m`
    documents (one batch). */
module MongoQuery {
  import opened Wrappers

  datatype QueryError = NegativeSkip(skip: int)

  function Abs(n: int): nat
  {
    if n < 0 then -n else n
  }

  function Min(a: int, b: int): int
  {
    if a <= b then a else b
  }

  /** `find(...).skip(skip).limit(limit)` over the documents `xs` in store order. */
  function SkipLimit<T>(xs: seq<T>, skip: int, limit: int): (r: Result<seq<T>, QueryError>)
    ensures r.Failure? <==> skip < 0
    ensures r.Success? ==>
      && var start := Min(skip, |xs|);
      && start + |r.value| <= |xs|
      && r.value == xs[start..start + |r.value|]
      && (limit != 0 ==> |r.value| == Min(Abs(limit), |xs| - start))
      && (limit == 0 ==> |r.value| == |xs| - start)
  {
    if skip < 0 then Failure(NegativeSkip(skip))
    else
      var rest := if skip <= |xs| then xs[skip..] else [];
      if limit == 0 || Abs(limit) >= |rest| then Success(rest) else Success(rest[..Abs(limit)])
  }

  /** Two consecutive pages of size `n` are together the page of size `2 * n` that starts
      where the first one does: paging neither skips nor repeats a document. */
  lemma ConsecutivePagesTile<T>(xs: seq<T>, skip: nat, n: nat)
    requires n > 0
    ensures SkipLimit(xs, skip, n).Success? && SkipLimit(xs, skip + n, n).Success?
    ensures SkipLimit(xs, skip, n).value + SkipLimit(xs, skip + n, n).value
         == SkipLimit(xs, skip, 2 * n).value
  {
    var a := SkipLimit(xs, skip, n).value;
    var b := SkipLimit(xs, skip + n, n).value;
    var c := SkipLimit(xs, skip, 2 * n).value;
    var start := Min(skip, |xs|);
    if skip + n <= |xs| {
      assert |a| == n;
      assert a + b == xs[start..start + |a| + |b|];
    } else {
      assert b == [];
    }
  }
}
