/** src/operators/fractional.rs: weighted buckets over 32-bit hashes. */
module Fractional {
  import opened Common
  import opened Json

  const MAX_TOTAL: nat := 0x7FFF_FFFF

  datatype Bucket = Bucket(name: string, weight: U64)

  datatype BucketError =
    | NoBuckets
    | NameNotString(index: nat)
    | MissingWeight(name: string)
    | WeightNotPositiveInteger(name: string)
    | WeightNotNumber(name: string)
    | TotalOverflow
    | ZeroTotal
    | TotalTooLarge(total: nat)

  // ---------------------------------------------------------------------------
  // Specification: weights and hashes.
  // ---------------------------------------------------------------------------

  /** Sum of the first `i` weights. */
  function Cumulative(ws: seq<nat>, i: nat): nat
    requires i <= |ws|
  {
    if i == 0 then 0 else Cumulative(ws, i - 1) + ws[i - 1]
  }

  function Total(ws: seq<nat>): nat { Cumulative(ws, |ws|) }

  /** The multiply-and-shift: `(hash as u64 * total_weight) >> 32`. */
  function BucketValue(hash: U32, total: nat): nat { hash * total / TWO_32 }

  /** First bucket from `i` on whose cumulative weight exceeds `value`; the last one as a fallback. */
  function FirstAbove(ws: seq<nat>, value: nat, i: nat): (k: nat)
    requires i < |ws|
    ensures i <= k < |ws|
    decreases |ws| - i
  {
    if value < Cumulative(ws, i + 1) || i == |ws| - 1 then i else FirstAbove(ws, value, i + 1)
  }

  function Assign(ws: seq<nat>, hash: U32): (k: nat)
    requires ws != []
    ensures k < |ws|
  {
    FirstAbove(ws, BucketValue(hash, Total(ws)), 0)
  }

  function Weights(defs: seq<Bucket>): (ws: seq<nat>)
    ensures |ws| == |defs|
  {
    seq(|defs|, i requires 0 <= i < |defs| => defs[i].weight)
  }

  /** Reads `[name, weight, name, weight, ...]` from position `i`, with the weights so far. */
  function ReadBuckets(items: seq<Json>, i: nat, total: nat): Result<seq<Bucket>, BucketError>
    requires i <= |items|
    decreases |items| - i
  {
    if i == |items| then Ok([])
    else if !items[i].Str? then Err(NameNotString(i))
    else if i + 1 == |items| then Err(MissingWeight(items[i].s))
    else if !items[i + 1].Num? then Err(WeightNotNumber(items[i].s))
    else
      match items[i + 1].n.AsU64()
      case None => Err(WeightNotPositiveInteger(items[i].s))
      case Some(w) =>
        if total + w >= TWO_64 then Err(TotalOverflow) else
        Prepend([Bucket(items[i].s, w)], ReadBuckets(items, i + 2, total + w))
  }

  function Choose(defs: seq<Bucket>, hash: U32): Result<string, BucketError> {
    var total := Total(Weights(defs));
    if total == 0 then Err(ZeroTotal)
    else if total > MAX_TOTAL then Err(TotalTooLarge(total))
    else Ok(defs[Assign(Weights(defs), hash)].name)
  }

  function FractionalValue(key: string, items: seq<Json>, hash: string -> U32): Result<string, BucketError> {
    if items == [] then Err(NoBuckets) else
    match ReadBuckets(items, 0, 0)
    case Err(e) => Err(e)
    case Ok(defs) => Choose(defs, hash(key))
  }

  // ---------------------------------------------------------------------------
  // The code: one loop reads the definitions, one accumulates weights.
  // ---------------------------------------------------------------------------

  method Fractional(key: string, buckets: seq<Json>, murmur: string -> U32) returns (r: Result<string, BucketError>)
    ensures r == FractionalValue(key, buckets, murmur)
  {
    if buckets == [] {
      return Err(NoBuckets);
    }
    var read, total := ReadDefinitions(buckets);
    if read.Err? {
      return Err(read.error);
    }
    var defs := read.value;
    if total == 0 {
      return Err(ZeroTotal);
    }
    if total > MAX_TOTAL {
      return Err(TotalTooLarge(total));
    }
    var bucketValue := BucketValue(murmur(key), total);
    var cumulative := 0;
    var j := 0;
    ghost var ws := Weights(defs);
    while j < |defs|
      invariant j <= |defs|
      invariant cumulative == Cumulative(ws, j)
      invariant j < |defs| ==> Assign(ws, murmur(key)) == FirstAbove(ws, bucketValue, j)
      invariant j == |defs| ==> Assign(ws, murmur(key)) == |defs| - 1
    {
      cumulative := cumulative + defs[j].weight;
      if bucketValue < cumulative {
        return Ok(defs[j].name);
      }
      j := j + 1;
    }
    return Ok(defs[|defs| - 1].name);
  }

  /** The first loop of `fractional`: definitions and their total weight. */
  method ReadDefinitions(buckets: seq<Json>) returns (r: Result<seq<Bucket>, BucketError>, total: nat)
    ensures r == ReadBuckets(buckets, 0, 0)
    ensures r.Ok? ==> total == Total(Weights(r.value)) && (buckets != [] ==> r.value != [])
  {
    var defs: seq<Bucket> := [];
    total := 0;
    var i := 0;
    PrependNothing(ReadBuckets(buckets, 0, 0));
    while i < |buckets|
      invariant i <= |buckets|
      invariant total == Total(Weights(defs))
      invariant i > 0 ==> defs != []
      invariant ReadBuckets(buckets, 0, 0) == Prepend(defs, ReadBuckets(buckets, i, total))
    {
      if !buckets[i].Str? {
        return Err(NameNotString(i)), total;
      }
      var name := buckets[i].s;
      i := i + 1;
      if i >= |buckets| {
        return Err(MissingWeight(name)), total;
      }
      if !buckets[i].Num? {
        return Err(WeightNotNumber(name)), total;
      }
      var weight := buckets[i].n.AsU64();
      if weight.None? {
        return Err(WeightNotPositiveInteger(name)), total;
      }
      if total + weight.value >= TWO_64 {
        return Err(TotalOverflow), total;
      }
      TotalOfOneMore(defs, Bucket(name, weight.value));
      total := total + weight.value;
      PrependMoves(defs, [Bucket(name, weight.value)], ReadBuckets(buckets, i + 1, total));
      defs := defs + [Bucket(name, weight.value)];
      i := i + 1;
    }
    assert defs + [] == defs;
    return Ok(defs), total;
  }

  lemma {:induction false} CumulativePrefix(a: seq<nat>, b: seq<nat>, i: nat)
    requires i <= |a|
    ensures Cumulative(a + b, i) == Cumulative(a, i)
  {
    if i > 0 {
      CumulativePrefix(a, b, i - 1);
    }
  }

  lemma TotalOfOneMore(defs: seq<Bucket>, d: Bucket)
    ensures Total(Weights(defs + [d])) == Total(Weights(defs)) + d.weight
  {
    assert Weights(defs + [d]) == Weights(defs) + [d.weight];
    CumulativePrefix(Weights(defs), [d.weight], |defs|);
  }

  // ---------------------------------------------------------------------------
  // Exact shares.
  // ---------------------------------------------------------------------------

  /** hash * total < c * 2^32: the hash maps below cumulative weight `c`. */
  predicate Below(ws: seq<nat>, hash: nat, c: nat) { hash * Total(ws) < c * TWO_32 }

  lemma BelowIsBucketValue(ws: seq<nat>, hash: U32, c: nat)
    ensures BucketValue(hash, Total(ws)) < c <==> Below(ws, hash, c)
  {
  }

  lemma {:induction false} CumulativeMonotone(ws: seq<nat>, i: nat, j: nat)
    requires i <= j <= |ws|
    ensures Cumulative(ws, i) <= Cumulative(ws, j)
  {
    if i < j {
      CumulativeMonotone(ws, i, j - 1);
    }
  }

  /** The map is onto [0, total), so the fallback after the loop is never taken, and the
      64-bit product never overflows. */
  lemma BucketValueInRange(hash: U32, total: nat)
    requires 0 < total <= MAX_TOTAL
    ensures BucketValue(hash, total) < total
    ensures hash * total < TWO_64
  {
    MulLess(hash, TWO_32, total);
  }

  lemma {:induction false} FirstAboveMeaning(ws: seq<nat>, value: nat, from: nat, k: nat)
    requires from <= k < |ws| && value < Total(ws) && Cumulative(ws, from) <= value
    ensures FirstAbove(ws, value, from) == k <==> Cumulative(ws, k) <= value < Cumulative(ws, k + 1)
    decreases |ws| - from
  {
    if value < Cumulative(ws, from + 1) {
      if from < k {
        CumulativeMonotone(ws, from + 1, k);
      }
    } else if from == k {
    } else {
      FirstAboveMeaning(ws, value, from + 1, k);
    }
  }

  /** Bucket k holds exactly the hashes between its two cumulative weights. */
  lemma AssignMeaning(ws: seq<nat>, hash: U32, k: nat)
    requires 0 < Total(ws) <= MAX_TOTAL && k < |ws|
    ensures Assign(ws, hash) == k <==> !Below(ws, hash, Cumulative(ws, k)) && Below(ws, hash, Cumulative(ws, k + 1))
  {
    BucketValueInRange(hash, Total(ws));
    FirstAboveMeaning(ws, BucketValue(hash, Total(ws)), 0, k);
    BelowIsBucketValue(ws, hash, Cumulative(ws, k));
    BelowIsBucketValue(ws, hash, Cumulative(ws, k + 1));
  }

  function CeilDiv(n: nat, d: nat): nat
    requires d > 0
  {
    (n + d - 1) / d
  }

  /** ceil(C_k * 2^32 / W): the first hash past the first k buckets. */
  function Threshold(ws: seq<nat>, k: nat): nat
    requires k <= |ws| && Total(ws) > 0
  {
    CeilDiv(Cumulative(ws, k) * TWO_32, Total(ws))
  }

  lemma MulLess(a: nat, b: nat, m: nat)
    requires m > 0
    ensures a < b <==> a * m < b * m
    ensures a <= b <==> a * m <= b * m
  {
  }

  lemma CeilDivMeaning(n: nat, d: nat)
    requires d > 0
    ensures n <= CeilDiv(n, d) * d < n + d
  {
  }

  lemma BelowCeilDiv(h: nat, d: nat, n: nat)
    requires d > 0
    ensures h < CeilDiv(n, d) <==> h * d < n
  {
    var t := CeilDiv(n, d);
    CeilDivMeaning(n, d);
    MulLess(h, t, d);
    MulLess(t, h, d);
    if h < t {
      MulLess(h, t - 1, d);
      assert (t - 1) * d == t * d - d;
    }
  }

  lemma BelowIsThreshold(ws: seq<nat>, hash: nat, k: nat)
    requires k <= |ws| && Total(ws) > 0
    ensures Below(ws, hash, Cumulative(ws, k)) <==> hash < Threshold(ws, k)
  {
    BelowCeilDiv(hash, Total(ws), Cumulative(ws, k) * TWO_32);
  }

  /** The hashes of bucket k. */
  function HashesOf(ws: seq<nat>, k: nat): set<nat>
    requires k < |ws|
  {
    set h | 0 <= h < 0x1_0000_0000 && Assign(ws, h) == k
  }

  /** All hashes from `lo` to `hi`, exclusive. */
  function Range(lo: nat, hi: nat): (r: set<nat>)
    ensures forall h :: h in r <==> lo <= h < hi
    ensures lo <= hi ==> |r| == hi - lo
    decreases hi
  {
    if lo < hi then Range(lo, hi - 1) + {hi - 1} else {}
  }

  lemma ThresholdEnds(ws: seq<nat>)
    requires Total(ws) > 0
    ensures Threshold(ws, 0) == 0 && Threshold(ws, |ws|) == TWO_32
  {
    var w := Total(ws);
    CeilDivMeaning(w * TWO_32, w);
    BelowIsThreshold(ws, TWO_32 - 1, |ws|);
    BelowIsThreshold(ws, TWO_32, |ws|);
    assert (TWO_32 - 1) * w == TWO_32 * w - w;
  }

  lemma ThresholdMonotone(ws: seq<nat>, i: nat, j: nat)
    requires i <= j <= |ws| && Total(ws) > 0
    ensures Threshold(ws, i) <= Threshold(ws, j)
  {
    CumulativeMonotone(ws, i, j);
    if Threshold(ws, j) < Threshold(ws, i) {
      BelowIsThreshold(ws, Threshold(ws, j), i);
      BelowIsThreshold(ws, Threshold(ws, j), j);
    }
  }

  /** Bucket k holds exactly the hashes between its two thresholds. */
  lemma AssignIsInterval(ws: seq<nat>, k: nat, h: U32)
    requires 0 < Total(ws) <= MAX_TOTAL && k < |ws|
    ensures Assign(ws, h) == k <==> Threshold(ws, k) <= h < Threshold(ws, k + 1)
  {
    AssignMeaning(ws, h, k);
    BelowIsThreshold(ws, h, k);
    BelowIsThreshold(ws, h, k + 1);
  }

  lemma ThresholdsInRange(ws: seq<nat>, k: nat)
    requires Total(ws) > 0 && k < |ws|
    ensures Threshold(ws, k) <= Threshold(ws, k + 1) <= TWO_32
  {
    ThresholdEnds(ws);
    ThresholdMonotone(ws, k, k + 1);
    ThresholdMonotone(ws, k + 1, |ws|);
  }

  lemma HashesAreRange(ws: seq<nat>, k: nat, lo: nat, hi: nat)
    requires 0 < Total(ws) <= MAX_TOTAL && k < |ws|
    requires lo == Threshold(ws, k) && hi == Threshold(ws, k + 1)
    ensures HashesOf(ws, k) == Range(lo, hi)
  {
    ThresholdsInRange(ws, k);
    forall h: U32
      ensures Assign(ws, h) == k <==> lo <= h < hi
    {
      AssignIsInterval(ws, k, h);
    }
  }

  /** Of all 2^32 hashes, bucket k receives exactly the difference of two ceilings. */
  lemma ShareIsExact(ws: seq<nat>, k: nat)
    requires 0 < Total(ws) <= MAX_TOTAL && k < |ws|
    ensures |HashesOf(ws, k)| == Threshold(ws, k + 1) - Threshold(ws, k)
  {
    ThresholdsInRange(ws, k);
    HashesAreRange(ws, k, Threshold(ws, k), Threshold(ws, k + 1));
  }

  /** The share is within one hash of weight * 2^32 / total. */
  lemma ShareIsProportional(ws: seq<nat>, k: nat)
    requires 0 < Total(ws) <= MAX_TOTAL && k < |ws|
    ensures ws[k] * TWO_32 - Total(ws) < |HashesOf(ws, k)| * Total(ws) < ws[k] * TWO_32 + Total(ws)
  {
    ShareIsExact(ws, k);
    CeilDivMeaning(Cumulative(ws, k) * TWO_32, Total(ws));
    CeilDivMeaning(Cumulative(ws, k + 1) * TWO_32, Total(ws));
    MulDifference(Threshold(ws, k), Threshold(ws, k + 1), Total(ws), |HashesOf(ws, k)|);
  }

  lemma MulDifference(a: nat, b: nat, w: nat, d: nat)
    requires d == b - a
    ensures d * w == b * w - a * w
  {
  }

  /** A bucket is empty exactly when its weight is zero, so every positive bucket is reachable. */
  lemma EmptyIffZeroWeight(ws: seq<nat>, k: nat)
    requires 0 < Total(ws) <= MAX_TOTAL && k < |ws|
    ensures HashesOf(ws, k) == {} <==> ws[k] == 0
  {
    ShareIsProportional(ws, k);
    MulLess(|HashesOf(ws, k)|, 1, Total(ws));
    MulLess(0, |HashesOf(ws, k)|, Total(ws));
  }

  // ---------------------------------------------------------------------------
  // Rollout stability.
  // ---------------------------------------------------------------------------

  function Scale(ws: seq<nat>, factor: nat): (r: seq<nat>)
    ensures |r| == |ws|
  {
    seq(|ws|, i requires 0 <= i < |ws| => factor * ws[i])
  }

  lemma {:induction false} CumulativeScale(ws: seq<nat>, factor: nat, i: nat)
    requires i <= |ws|
    ensures Cumulative(Scale(ws, factor), i) == factor * Cumulative(ws, i)
  {
    if i > 0 {
      CumulativeScale(ws, factor, i - 1);
    }
  }

  lemma BelowScale(ws: seq<nat>, factor: nat, hash: nat, c: nat)
    requires factor > 0
    ensures Below(Scale(ws, factor), hash, factor * c) <==> Below(ws, hash, c)
  {
    CumulativeScale(ws, factor, |ws|);
    ScaleLess(factor, hash, Total(ws), c);
  }

  lemma ScaleLess(factor: nat, h: nat, w: nat, c: nat)
    requires factor > 0
    ensures h * (factor * w) < factor * c * TWO_32 <==> h * w < c * TWO_32
  {
    MulLess(h * w, c * TWO_32, factor);
    assert h * (factor * w) == h * w * factor;
    assert factor * c * TWO_32 == c * TWO_32 * factor;
  }

  /** Only the ratios matter: multiplying every weight by the same factor moves nobody. */
  lemma ScalingMovesNobody(ws: seq<nat>, factor: nat, hash: U32)
    requires factor > 0 && 0 < Total(ws) && Total(Scale(ws, factor)) <= MAX_TOTAL
    ensures Assign(Scale(ws, factor), hash) == Assign(ws, hash)
  {
    var k := Assign(ws, hash);
    CumulativeScale(ws, factor, |ws|);
    MulLess(1, factor, Total(ws));
    CumulativeScale(ws, factor, k);
    CumulativeScale(ws, factor, k + 1);
    BelowScale(ws, factor, hash, Cumulative(ws, k));
    BelowScale(ws, factor, hash, Cumulative(ws, k + 1));
    AssignMeaning(ws, hash, k);
    AssignMeaning(Scale(ws, factor), hash, k);
  }

  lemma {:induction false} CumulativeSplit(a: seq<nat>, x: nat, y: nat, b: seq<nat>, i: nat)
    requires i <= |b|
    ensures Cumulative(a + [x, y] + b, |a| + 2 + i) == Cumulative(a + [x + y] + b, |a| + 1 + i)
    ensures Cumulative(a + [x, y] + b, |a| + 1) == Cumulative(a, |a|) + x
    ensures Cumulative(a + [x + y] + b, |a|) == Cumulative(a + [x, y] + b, |a|) == Cumulative(a, |a|)
  {
    assert a + [x, y] + b == a + ([x, y] + b) && a + [x + y] + b == a + ([x + y] + b);
    CumulativePrefix(a, [x, y] + b, |a|);
    CumulativePrefix(a, [x + y] + b, |a|);
    if i > 0 {
      CumulativeSplit(a, x, y, b, i - 1);
    }
  }

  /** Splitting a bucket into two adjacent parts moves nobody across its outer borders. */
  lemma SplittingKeepsBorders(a: seq<nat>, x: nat, y: nat, b: seq<nat>, hash: U32)
    requires 0 < Total(a + [x + y] + b) <= MAX_TOTAL
    ensures var before, after := Assign(a + [x + y] + b, hash), Assign(a + [x, y] + b, hash);
            && (before < |a| ==> after == before)
            && (before == |a| ==> after == |a| || after == |a| + 1)
            && (before > |a| ==> after == before + 1)
  {
    var ws, vs := a + [x + y] + b, a + [x, y] + b;
    CumulativeSplit(a, x, y, b, |b|);
    assert Total(ws) == Total(vs);
    var k := Assign(ws, hash);
    AssignMeaning(ws, hash, k);
    if k < |a| {
      assert ws == a + ([x + y] + b) && vs == a + ([x, y] + b);
      CumulativePrefix(a, [x + y] + b, k);
      CumulativePrefix(a, [x, y] + b, k);
      CumulativePrefix(a, [x + y] + b, k + 1);
      CumulativePrefix(a, [x, y] + b, k + 1);
      AssignMeaning(vs, hash, k);
    } else if k == |a| {
      CumulativeSplit(a, x, y, b, 0);
      AssignMeaning(vs, hash, k);
      AssignMeaning(vs, hash, k + 1);
    } else {
      CumulativeSplit(a, x, y, b, k - |a| - 1);
      CumulativeSplit(a, x, y, b, k - |a|);
      AssignMeaning(vs, hash, k + 1);
    }
  }

  /** Growing the first bucket at a fixed total never takes a key out of it. */
  lemma GrowingFirstKeepsKeys(ws: seq<nat>, vs: seq<nat>, hash: U32)
    requires ws != [] && vs != [] && 0 < Total(ws) == Total(vs) <= MAX_TOTAL && ws[0] <= vs[0]
    requires Assign(ws, hash) == 0
    ensures Assign(vs, hash) == 0
  {
    AssignMeaning(ws, hash, 0);
    AssignMeaning(vs, hash, 0);
    assert Cumulative(ws, 1) == ws[0] && Cumulative(vs, 1) == vs[0];
    assert ws[0] * TWO_32 <= vs[0] * TWO_32;
  }

  // ---------------------------------------------------------------------------
  // The name that the operator returns.
  // ---------------------------------------------------------------------------

  /** `[name, weight, name, weight, ...]`. */
  function Items(names: seq<string>, ws: seq<nat>): (items: seq<Json>)
    requires |names| == |ws|
    ensures |items| == 2 * |names|
    ensures forall i :: 0 <= i < |names| ==> items[2 * i] == Str(names[i]) && items[2 * i + 1] == Num(Int(ws[i]))
  {
    if names == [] then [] else [Str(names[0]), Num(Int(ws[0]))] + Items(names[1..], ws[1..])
  }

  /** The hash lies between the thresholds of bucket `k`. */
  predicate InBucket(ws: seq<nat>, k: nat, h: nat)
    requires Total(ws) > 0 && k < |ws|
  {
    Threshold(ws, k) <= h < Threshold(ws, k + 1)
  }

  predicate Distributes(names: seq<string>, ws: seq<nat>) { |names| == |ws| && 0 < Total(ws) <= MAX_TOTAL }

  function Buckets(names: seq<string>, ws: seq<nat>): seq<Bucket>
    requires |names| == |ws| && forall i :: 0 <= i < |ws| ==> ws[i] < TWO_64
  {
    seq(|ws|, i requires 0 <= i < |ws| => Bucket(names[i], ws[i]))
  }

  lemma {:induction false} ReadsItems(items: seq<Json>, names: seq<string>, ws: seq<nat>, i: nat)
    requires i <= |names| == |ws| && items == Items(names, ws)
    requires Total(ws) < TWO_64 && forall i :: 0 <= i < |ws| ==> ws[i] < TWO_64
    ensures ReadBuckets(items, 2 * i, Cumulative(ws, i)) == Ok(Buckets(names, ws)[i..])
    decreases |names| - i
  {
    hide Items;
    if i < |names| {
      CumulativeMonotone(ws, i + 1, |ws|);
      assert items[2 * i] == Str(names[i]) && items[2 * i + 1] == Num(Int(ws[i]));
      ReadsItems(items, names, ws, i + 1);
      assert 2 * i + 2 == 2 * (i + 1);
      var all := Buckets(names, ws);
      assert [all[i]] + all[i + 1..] == all[i..];
    }
  }

  /** Reading such a list gives the names and weights back. */
  lemma ReadsAll(names: seq<string>, ws: seq<nat>)
    requires Distributes(names, ws)
    ensures forall i :: 0 <= i < |ws| ==> ws[i] < TWO_64
    ensures ReadBuckets(Items(names, ws), 0, 0) == Ok(Buckets(names, ws)) && Weights(Buckets(names, ws)) == ws
  {
    forall i | 0 <= i < |ws|
      ensures ws[i] < TWO_64
    {
      CumulativeMonotone(ws, i + 1, |ws|);
    }
    ReadsItems(Items(names, ws), names, ws, 0);
    assert Buckets(names, ws)[0..] == Buckets(names, ws);
  }

  /** The answer is the name of the bucket in which the key's hash lies. */
  lemma AnswerIsBucket(key: string, names: seq<string>, ws: seq<nat>, hash: string -> U32, k: nat)
    requires Distributes(names, ws) && k < |ws| && InBucket(ws, k, hash(key))
    ensures FractionalValue(key, Items(names, ws), hash) == Ok(names[k])
  {
    ReadsAll(names, ws);
    AssignIsInterval(ws, k, hash(key));
  }

  /** Some bucket holds the hash. */
  lemma SomeBucket(ws: seq<nat>, h: U32) returns (k: nat)
    requires 0 < Total(ws) <= MAX_TOTAL
    ensures k < |ws| && InBucket(ws, k, h)
  {
    k := Assign(ws, h);
    AssignIsInterval(ws, k, h);
  }

  /** For all names and weights, `fractional` answers a name exactly when the key's hash lies in a
      bucket of that name. */
  lemma AnswerIff(key: string, names: seq<string>, ws: seq<nat>, hash: string -> U32, name: string)
    requires Distributes(names, ws)
    ensures FractionalValue(key, Items(names, ws), hash) == Ok(name)
       <==> exists k :: 0 <= k < |ws| && names[k] == name && InBucket(ws, k, hash(key))
  {
    hide InBucket, FractionalValue;
    var k := SomeBucket(ws, hash(key));
    AnswerIsBucket(key, names, ws, hash, k);
    if j :| 0 <= j < |ws| && names[j] == name && InBucket(ws, j, hash(key)) {
      AnswerIsBucket(key, names, ws, hash, j);
    }
  }

  /** The operator answers `name` for a key of that hash. */
  predicate AnswersOn(names: seq<string>, ws: seq<nat>, name: string, h: U32)
    requires |names| == |ws|
  {
    FractionalValue("", Items(names, ws), _ => h) == Ok(name)
  }

  function HashesNamed(names: seq<string>, ws: seq<nat>, name: string): set<nat>
    requires |names| == |ws|
  {
    set h | 0 <= h < 0x1_0000_0000 && AnswersOn(names, ws, name, h)
  }

  /** The sum of the shares of the first `n` buckets that are called `name`. */
  function ShareOf(names: seq<string>, ws: seq<nat>, name: string, n: nat): int
    requires n <= |names| == |ws| && Total(ws) > 0
  {
    if n == 0 then 0
    else if names[n - 1] == name then ShareOf(names, ws, name, n - 1) + Threshold(ws, n) - Threshold(ws, n - 1)
    else ShareOf(names, ws, name, n - 1)
  }

  predicate InOneOf(names: seq<string>, ws: seq<nat>, name: string, n: nat, h: nat)
    requires n <= |names| == |ws| && Total(ws) > 0
  {
    exists k :: 0 <= k < n && names[k] == name && InBucket(ws, k, h)
  }

  function HashesBelow(names: seq<string>, ws: seq<nat>, name: string, n: nat): set<nat>
    requires n <= |names| == |ws| && Total(ws) > 0
  {
    set h | 0 <= h < 0x1_0000_0000 && InOneOf(names, ws, name, n, h)
  }

  lemma BucketHashes(ws: seq<nat>, k: nat) returns (r: set<nat>)
    requires Total(ws) > 0 && k < |ws|
    ensures forall h: nat :: h in r <==> h < TWO_32 && InBucket(ws, k, h)
    ensures |r| == Threshold(ws, k + 1) - Threshold(ws, k)
    ensures forall h: nat, j :: h in r && 0 <= j < k ==> !InBucket(ws, j, h)
  {
    ThresholdsInRange(ws, k);
    r := Range(Threshold(ws, k), Threshold(ws, k + 1));
    forall h: nat, j | h in r && 0 <= j < k
      ensures !InBucket(ws, j, h)
    {
      ThresholdMonotone(ws, j + 1, k);
    }
  }

  lemma {:induction false} CountBelow(names: seq<string>, ws: seq<nat>, name: string, n: nat)
    requires n <= |names| == |ws| && Total(ws) > 0
    ensures |HashesBelow(names, ws, name, n)| == ShareOf(names, ws, name, n)
  {
    hide InBucket, Threshold;
    if n > 0 {
      CountBelow(names, ws, name, n - 1);
      var last := BucketHashes(ws, n - 1);
      var before := HashesBelow(names, ws, name, n - 1);
      if names[n - 1] == name {
        assert before !! last;
        assert HashesBelow(names, ws, name, n) == before + last;
      } else {
        assert HashesBelow(names, ws, name, n) == before;
      }
    } else {
      assert HashesBelow(names, ws, name, 0) == {};
    }
  }

  /** Of all 2^32 hashes, the operator answers `name` on exactly as many as its buckets' shares sum to. */
  lemma NameGetsItsShare(names: seq<string>, ws: seq<nat>, name: string)
    requires Distributes(names, ws)
    ensures |HashesNamed(names, ws, name)| == ShareOf(names, ws, name, |ws|)
  {
    hide InBucket, FractionalValue;
    forall h: nat
      ensures h in HashesNamed(names, ws, name) <==> h in HashesBelow(names, ws, name, |ws|)
    {
      if h < 0x1_0000_0000 {
        AnswerIff("", names, ws, _ => h, name);
      }
    }
    assert HashesNamed(names, ws, name) == HashesBelow(names, ws, name, |ws|);
    CountBelow(names, ws, name, |ws|);
  }

  /** Reading succeeds on such lists only. */
  lemma {:induction false} ReadMeansItems(items: seq<Json>, i: nat, total: nat)
      returns (names: seq<string>, ws: seq<nat>)
    requires i <= |items| && ReadBuckets(items, i, total).Ok?
    ensures |names| == |ws| && items[i..] == Items(names, ws)
    ensures Weights(ReadBuckets(items, i, total).value) == ws
    decreases |items| - i
  {
    if i == |items| {
      names, ws := [], [];
    } else {
      var w := items[i + 1].n.value;
      names, ws := ReadMeansItems(items, i + 2, total + w);
      names, ws := [items[i].s] + names, [w] + ws;
      assert items[i..] == [items[i], items[i + 1]] + items[i + 2..];
    }
  }

  /** The operator answers exactly on non-empty lists of names and weights whose total is positive and
      at most 2^31 - 1; everything else is an error. */
  lemma AnswersIff(key: string, items: seq<Json>, hash: string -> U32)
    ensures FractionalValue(key, items, hash).Ok?
       <==> exists names, ws :: Distributes(names, ws) && items == Items(names, ws)
  {
    if FractionalValue(key, items, hash).Ok? {
      var names, ws := ReadMeansItems(items, 0, 0);
      assert items[0..] == items;
      assert Distributes(names, ws);
    }
    if names, ws :| Distributes(names, ws) && items == Items(names, ws) {
      ReadsAll(names, ws);
    }
  }
}
