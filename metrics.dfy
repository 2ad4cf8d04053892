/**
 * The file-server hit counter: a sync/atomic Int32 shared by the metrics
 * middleware (internal/api/middlewares/metrics.go) and the admin handler.
 * Requests are handled one at a time here, so atomicity is not modelled.
 */
module Metrics {
  import opened Http

  const MinInt32: int := -0x8000_0000
  const MaxInt32: int := 0x7fff_ffff

  newtype int32 = x: int | -0x8000_0000 <= x < 0x8000_0000

  /** Two's-complement wrap-around of an integer into 32 bits, as Go's int32 arithmetic does. */
  function Wrap(x: int): (r: int32)
    ensures MinInt32 <= x <= MaxInt32 ==> r as int == x
    ensures (r as int - x) % 0x1_0000_0000 == 0
  {
    ((x + 0x8000_0000) % 0x1_0000_0000 - 0x8000_0000) as int32
  }

  /** Adding one raises every value below the maximum by exactly one, and the maximum wraps to the minimum. */
  lemma WrapIncrement(v: int32)
    ensures v as int < MaxInt32 ==> Wrap(v as int + 1) as int == v as int + 1
    ensures v as int == MaxInt32 ==> Wrap(v as int + 1) as int == MinInt32
  {
  }

  /** sync/atomic.Int32. */
  class HitCounter {
    var value: int32

    constructor ()
      ensures value == 0
    {
      value := 0;
    }

    function Load(): (v: int32)
      reads this
      ensures v == value
    {
      value
    }

    method Add(delta: int32) returns (r: int32)
      modifies this
      ensures value == Wrap(old(value) as int + delta as int) && r == value
    {
      value := Wrap(value as int + delta as int);
      r := value;
    }

    method Store(v: int32)
      modifies this
      ensures value == v
    {
      value := v;
    }
  }

  /** The request a wrapped handler receives: here only its path. */
  type Request = string

  class MetricsMiddleware {
    const hits: HitCounter

    constructor (hits: HitCounter)
      ensures this.hits == hits
    {
      this.hits := hits;
    }

    /**
     * The handler MetricsInc returns, applied to one request: the counter
     * goes up by one, then `next` serves the request and its response is
     * passed through unchanged.
     */
    method MetricsInc(next: Request -> Response, r: Request) returns (resp: Response)
      modifies hits
      ensures hits.value == Wrap(old(hits.value) as int + 1)
      ensures resp == next(r)
    {
      var _ := hits.Add(1);
      resp := next(r);
    }
  }
}
