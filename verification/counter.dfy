/**
 The `defaultdict(int)` that counts status codes: a missing key reads as
 zero and `+= 1` creates it. `Total` is the sum of all counts.
 */
module Counter {

  /** The count stored under `k`, zero when `k` was never bumped. */
  function Get(h: map<string, nat>, k: string): nat {
    if k in h then h[k] else 0
  }

  /** `h[k] += 1` on a `defaultdict(int)`. */
  function Bump(h: map<string, nat>, k: string): (h': map<string, nat>)
    ensures h'.Keys == h.Keys + {k}
    ensures Get(h', k) == Get(h, k) + 1
    ensures forall k' :: k' != k ==> Get(h', k') == Get(h, k')
  {
    h[k := Get(h, k) + 1]
  }

  /** The sum of the counts. */
  ghost function Total(h: map<string, nat>): nat
    decreases |h|
  {
    if |h| == 0 then 0
    else
      var k :| k in h;
      h[k] + Total(h - {k})
  }

  /** The key `Total` takes out first, with the equation that defines it. */
  lemma {:induction false} FirstKey(h: map<string, nat>) returns (k: string)
    requires |h| > 0
    ensures k in h && Total(h) == h[k] + Total(h - {k})
  {
    k :| k in h && Total(h) == h[k] + Total(h - {k});
  }

  /** `Total` does not depend on which key is taken out first. */
  lemma {:induction false} TotalRemove(h: map<string, nat>, k: string)
    requires k in h
    ensures Total(h) == h[k] + Total(h - {k})
    decreases |h|
  {
    var k' := FirstKey(h);
    if k' != k {
      var h1, h2 := h - {k'}, h - {k};
      assert |h1| < |h| && |h2| < |h| && k in h1 && k' in h2;
      TotalRemove(h1, k);
      TotalRemove(h2, k');
      assert h1 - {k} == h2 - {k'};
    }
  }

  /** Each bump adds exactly one to the total. */
  lemma {:induction false} TotalBump(h: map<string, nat>, k: string)
    ensures Total(Bump(h, k)) == Total(h) + 1
  {
    var h' := Bump(h, k);
    TotalRemove(h', k);
    if k in h {
      assert h' - {k} == h - {k};
      TotalRemove(h, k);
    } else {
      assert h' - {k} == h;
    }
  }
}
