/**
  The mock recommendation catalog and its travel-time filter, shared by both
  variants: `catalog.filter(p => p.travelTime <= maxTravelTime)`.
 */
module Places {

  /**
    One catalog entry. `rating` is kept in tenths of a star (4.5 becomes 45),
    since the model has no floating point.
   */
  datatype Place = Place(name: string, category: string, travelTime: int, rating: int)

  /** The inclusive travel-time test the filter applies. */
  predicate WithinLimit(p: Place, maxMinutes: int)
  {
    p.travelTime <= maxMinutes
  }

  /** The catalog entries within `maxMinutes`, in catalog order. */
  function WithinTime(catalog: seq<Place>, maxMinutes: int): (r: seq<Place>)
    ensures |r| <= |catalog|
    ensures forall p :: p in r ==> p in catalog && WithinLimit(p, maxMinutes)
    ensures forall i :: 0 <= i < |catalog| && WithinLimit(catalog[i], maxMinutes) ==> catalog[i] in r
  {
    if |catalog| == 0 then []
    else if WithinLimit(catalog[0], maxMinutes) then [catalog[0]] + WithinTime(catalog[1..], maxMinutes)
    else WithinTime(catalog[1..], maxMinutes)
  }

  /** `a` is `b` with some entries removed and the rest kept in order. */
  ghost predicate SubsequenceOf<T>(a: seq<T>, b: seq<T>)
    decreases |b|
  {
    if |a| == 0 then true
    else if |b| == 0 then false
    else (a[0] == b[0] && SubsequenceOf(a[1..], b[1..])) || SubsequenceOf(a, b[1..])
  }

  /** The number of catalog entries within `maxMinutes`. */
  function CountWithin(catalog: seq<Place>, maxMinutes: int): nat
  {
    if |catalog| == 0 then 0
    else (if WithinLimit(catalog[0], maxMinutes) then 1 else 0) + CountWithin(catalog[1..], maxMinutes)
  }

  /** The filter keeps the catalog order and exactly as many entries as pass the test. */
  lemma {:induction false} WithinTimeKeepsOrder(catalog: seq<Place>, maxMinutes: int)
    ensures SubsequenceOf(WithinTime(catalog, maxMinutes), catalog)
    ensures |WithinTime(catalog, maxMinutes)| == CountWithin(catalog, maxMinutes)
  {
    if |catalog| > 0 {
      var rest := WithinTime(catalog[1..], maxMinutes);
      WithinTimeKeepsOrder(catalog[1..], maxMinutes);
      if WithinLimit(catalog[0], maxMinutes) {
        var r := [catalog[0]] + rest;
        assert r[1..] == rest;
      } else {
        SkipHead(rest, catalog);
      }
    }
  }

  /** Dropping the head of `b` from consideration keeps a subsequence a subsequence of `b`. */
  lemma SkipHead<T>(a: seq<T>, b: seq<T>)
    requires 0 < |b| && SubsequenceOf(a, b[1..])
    ensures SubsequenceOf(a, b)
  {
  }

  /** Filtering an already filtered list with the same limit changes nothing. */
  lemma {:induction false} WithinTimeIdempotent(catalog: seq<Place>, maxMinutes: int)
    ensures WithinTime(WithinTime(catalog, maxMinutes), maxMinutes) == WithinTime(catalog, maxMinutes)
  {
    if |catalog| > 0 {
      WithinTimeIdempotent(catalog[1..], maxMinutes);
      if WithinLimit(catalog[0], maxMinutes) {
        var r := WithinTime(catalog, maxMinutes);
        assert r[0] == catalog[0] && r[1..] == WithinTime(catalog[1..], maxMinutes);
      }
    }
  }

  /** When every entry passes, the filter returns the whole catalog. */
  lemma {:induction false} WithinTimeAllPass(catalog: seq<Place>, maxMinutes: int)
    requires forall i :: 0 <= i < |catalog| ==> WithinLimit(catalog[i], maxMinutes)
    ensures WithinTime(catalog, maxMinutes) == catalog
  {
    if |catalog| > 0 {
      WithinTimeAllPass(catalog[1..], maxMinutes);
      assert [catalog[0]] + catalog[1..] == catalog;
    }
  }

  /** When no entry passes, the filter returns nothing. */
  lemma {:induction false} WithinTimeNonePass(catalog: seq<Place>, maxMinutes: int)
    requires forall i :: 0 <= i < |catalog| ==> !WithinLimit(catalog[i], maxMinutes)
    ensures WithinTime(catalog, maxMinutes) == []
  {
    if |catalog| > 0 {
      WithinTimeNonePass(catalog[1..], maxMinutes);
    }
  }

  /** Raising the limit never drops an entry: the smaller result is a subsequence of the larger. */
  lemma {:induction false} WithinTimeMonotone(catalog: seq<Place>, lo: int, hi: int)
    requires lo <= hi
    ensures SubsequenceOf(WithinTime(catalog, lo), WithinTime(catalog, hi))
  {
    if |catalog| > 0 {
      WithinTimeMonotone(catalog[1..], lo, hi);
      var a := WithinTime(catalog[1..], lo);
      var b := WithinTime(catalog[1..], hi);
      if WithinLimit(catalog[0], lo) {
        var r := [catalog[0]] + a;
        var q := [catalog[0]] + b;
        assert r[0] == q[0] && r[1..] == a && q[1..] == b;
      } else if WithinLimit(catalog[0], hi) {
        var q := [catalog[0]] + b;
        assert q[1..] == b;
        SkipHead(a, q);
      }
    }
  }

  /** Filtering a concatenation filters each part. */
  lemma {:induction false} WithinTimeAppend(a: seq<Place>, b: seq<Place>, maxMinutes: int)
    ensures WithinTime(a + b, maxMinutes) == WithinTime(a, maxMinutes) + WithinTime(b, maxMinutes)
  {
    if |a| == 0 {
      assert a + b == b;
    } else {
      var ab := a + b;
      assert ab[0] == a[0] && ab[1..] == a[1..] + b;
      WithinTimeAppend(a[1..], b, maxMinutes);
      var tail := WithinTime(a[1..], maxMinutes) + WithinTime(b, maxMinutes);
      if WithinLimit(a[0], maxMinutes) {
        assert WithinTime(ab, maxMinutes) == [a[0]] + tail;
        assert [a[0]] + tail == ([a[0]] + WithinTime(a[1..], maxMinutes)) + WithinTime(b, maxMinutes);
      } else {
        assert WithinTime(ab, maxMinutes) == tail;
      }
    }
  }

  /** Extending the scanned prefix by one entry appends that entry exactly when it is within the limit. */
  lemma WithinTimeExtend(catalog: seq<Place>, i: nat, maxMinutes: int)
    requires i < |catalog|
    ensures WithinTime(catalog[..i + 1], maxMinutes)
      == WithinTime(catalog[..i], maxMinutes) + (if WithinLimit(catalog[i], maxMinutes) then [catalog[i]] else [])
  {
    assert catalog[..i + 1] == catalog[..i] + [catalog[i]];
    WithinTimeAppend(catalog[..i], [catalog[i]], maxMinutes);
    assert [catalog[i]][1..] == [];
  }

  /**
    `Array.prototype.filter` as the loop it is: scan the catalog front to
    back and append each entry within the limit.
   */
  method FilterWithinTime(catalog: seq<Place>, maxMinutes: int) returns (r: seq<Place>)
    ensures r == WithinTime(catalog, maxMinutes)
  {
    r := [];
    var i := 0;
    while i < |catalog|
      invariant 0 <= i <= |catalog|
      invariant r == WithinTime(catalog[..i], maxMinutes)
    {
      WithinTimeExtend(catalog, i, maxMinutes);
      if WithinLimit(catalog[i], maxMinutes) {
        r := r + [catalog[i]];
      }
      i := i + 1;
    }
    assert catalog[..|catalog|] == catalog;
  }
}
