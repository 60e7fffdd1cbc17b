/** The bounded worker pool of the commits endpoint
    (src/app/api/commits/route.ts, `mapWithConcurrency`): `min(concurrency,
    n)` workers share one claim cursor; each claims the next index, maps that
    item into the same position of the result, and stops once the cursor has
    passed the last item. The workers here run one after another, each call
    finishing before the next claim, so the claims come in index order; a
    failing call ends the whole map with its error. */
module WorkerPool {
  import opened Wrappers

  /** The order-preserving map the pool computes: every item mapped in
      place, or the error of the first item (in index order) that fails. */
  function MapAll<T, R, E>(items: seq<T>, fn: T -> Result<R, E>): Result<seq<R>, E>
    decreases |items|
  {
    if |items| == 0 then Success([])
    else
      match MapAll(items[..|items| - 1], fn)
      case Failure(e) => Failure(e)
      case Success(done) =>
        match fn(items[|items| - 1])
        case Failure(e) => Failure(e)
        case Success(v) => Success(done + [v])
  }

  /** The map succeeds exactly when every call does, and then holds each
      item's value at the item's own position. */
  lemma {:induction false} MapAllSuccess<T, R, E>(items: seq<T>, fn: T -> Result<R, E>)
    ensures MapAll(items, fn).Success? <==> forall i :: 0 <= i < |items| ==> fn(items[i]).Success?
    ensures MapAll(items, fn).Success? ==>
      && |MapAll(items, fn).value| == |items|
      && forall i :: 0 <= i < |items| ==> MapAll(items, fn).value[i] == fn(items[i]).value
    decreases |items|
  {
    if |items| > 0 {
      var init := items[..|items| - 1];
      MapAllSuccess(init, fn);
      assert forall i :: 0 <= i < |init| ==> init[i] == items[i];
    }
  }

  /** A failing map reports the error of the first failing item. */
  lemma {:induction false} MapAllFailure<T, R, E>(items: seq<T>, fn: T -> Result<R, E>)
    ensures MapAll(items, fn).Failure? ==>
      exists k :: 0 <= k < |items| && fn(items[k]).Failure? && MapAll(items, fn).error == fn(items[k]).error
        && forall i :: 0 <= i < k ==> fn(items[i]).Success?
    decreases |items|
  {
    if |items| > 0 {
      var init := items[..|items| - 1];
      MapAllFailure(init, fn);
      assert forall i :: 0 <= i < |init| ==> init[i] == items[i];
      if MapAll(items, fn).Failure? && MapAll(init, fn).Success? {
        MapAllSuccess(init, fn);
        var k := |items| - 1;
        assert fn(items[k]).Failure? && MapAll(items, fn).error == fn(items[k]).error;
      }
    }
  }

  /** Once a prefix fails, every longer prefix fails the same way. */
  lemma {:induction false} FailureExtends<T, R, E>(items: seq<T>, j: nat, fn: T -> Result<R, E>)
    requires j <= |items| && MapAll(items[..j], fn).Failure?
    ensures MapAll(items, fn) == MapAll(items[..j], fn)
    decreases |items|
  {
    if j < |items| {
      var init := items[..|items| - 1];
      assert init[..j] == items[..j];
      FailureExtends(init, j, fn);
    } else {
      assert items[..j] == items;
    }
  }

  /** `mapWithConcurrency`, for the concurrency levels the endpoint uses (at
      least one worker). The outcome is the order-preserving map; `claims`
      lists the indices claimed below the item count, in order: every index
      once when the map succeeds, and up to the first failing one when it
      does not. */
  method MapWithConcurrency<T, R, E>(items: seq<T>, concurrency: int, fn: T -> Result<R, E>)
    returns (r: Result<seq<R>, E>, ghost claims: seq<int>)
    requires concurrency >= 1
    ensures r == MapAll(items, fn)
    ensures r.Success? ==> claims == seq(|items|, i => i)
    ensures r.Failure? ==>
      && 1 <= |claims| <= |items| && claims == seq(|claims|, i => i)
      && fn(items[|claims| - 1]).Failure?
  {
    if |items| == 0 {
      return Success([]), [];
    }
    var n := |items|;
    var results: seq<Option<R>> := seq(n, _ => None);
    var nextIndex := 0;
    claims := [];
    ghost var done: seq<R> := [];
    var workers := if concurrency < n then concurrency else n;
    var w := 0;
    while w < workers
      invariant 0 <= w <= workers
      invariant 0 <= nextIndex && |results| == n
      invariant w > 0 ==> nextIndex > n
      invariant |done| == |claims| == (if nextIndex < n then nextIndex else n)
      invariant claims == seq(|claims|, i => i)
      invariant MapAll(items[..|claims|], fn) == Success(done)
      invariant forall i :: 0 <= i < |claims| ==> results[i] == Some(done[i])
    {
      while true
        invariant 0 <= nextIndex && |results| == n
        invariant |done| == |claims| == (if nextIndex < n then nextIndex else n)
        invariant claims == seq(|claims|, i => i)
        invariant MapAll(items[..|claims|], fn) == Success(done)
        invariant forall i :: 0 <= i < |claims| ==> results[i] == Some(done[i])
        decreases n - nextIndex
      {
        var index := nextIndex;
        nextIndex := nextIndex + 1;
        if index >= n {
          break;
        }
        claims := claims + [index];
        assert items[..index + 1][..index] == items[..index];
        var out := fn(items[index]);
        if out.Failure? {
          FailureExtends(items, index + 1, fn);
          return Failure(out.error), claims;
        }
        results := results[index := Some(out.value)];
        done := done + [out.value];
      }
      w := w + 1;
    }
    assert items[..n] == items;
    var values := seq(n, i requires 0 <= i < n => results[i].value);
    assert values == done;
    r := Success(values);
  }
}
