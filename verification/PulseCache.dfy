/** The pulse cache (internal/celt/rate.go): converting between a bit budget and a
    pulse index by six halvings of a byte table. */
module PulseCache {
  import opened RangeCoder

  const SEARCH_STEPS: nat := 6   // logMaxPseudo

  /** One band's cache: entry 0 is the last index, entry q the cost of q, less one bit.
      Six halvings close any bracket of at most 64 entries. */
  ghost predicate ValidCache(cache: seq<int>) {
    && 1 <= |cache| && 1 <= cache[0] < |cache| && cache[0] <= 64
    && forall p, q | 1 <= p < q <= cache[0] :: cache[p] <= cache[q]
  }

  /** pulses2bits: the cost of q pulses. */
  function Cost(cache: seq<int>, q: int): int
    requires 0 <= q < |cache|
  {
    if q == 0 then 0 else cache[q] + 1
  }

  function Distance(a: int, b: int): int {
    if a < b then b - a else a - b
  }

  /** bits2pulses: no index costs closer to the budget, and of two equally close the
      cheaper is taken. */
  method Bits2Pulses(cache: seq<int>, budget: int) returns (q: int)
    requires ValidCache(cache) && 0 <= cache[1]
    ensures 0 <= q <= cache[0]
    ensures forall p | 0 <= p <= cache[0] ::
      Distance(budget, Cost(cache, q)) <= Distance(budget, Cost(cache, p))
    ensures forall p | 0 <= p <= cache[0] && Cost(cache, p) < Cost(cache, q) ::
      Distance(budget, Cost(cache, q)) < Distance(budget, Cost(cache, p))
  {
    var lo, hi := 0, cache[0];
    var bits := budget - 1;
    assert Power2(SEARCH_STEPS) == 64;
    for i := 0 to SEARCH_STEPS
      invariant 0 <= lo <= hi <= cache[0] && hi - lo <= Power2(SEARCH_STEPS - i)
      invariant lo > 0 ==> cache[lo] < bits
      invariant hi < cache[0] ==> hi > 0 && cache[hi] >= bits
      invariant lo == hi ==> hi == cache[0] && 0 < lo
    {
      var mid := (lo + hi + 1) / 2;
      if cache[mid] >= bits { hi := mid; } else { lo := mid; }
    }
    assert hi - lo <= 1;
    var loBits := if lo != 0 then cache[lo] else -1;
    q := if bits - loBits <= cache[hi] - bits then lo else hi;
  }
}
