/** Shared vocabulary: optional and failing results, powers of two, integer
    ranges, sequence reversal, and insertion-ordered dictionaries (the model of
    a Python `dict`, whose iteration order is the order keys were first added). */
module Common {

  datatype Option<+T> = None | Some(value: T)

  /** The Python exceptions that the modelled code can raise. */
  datatype Error =
    | IndexError       // a list or string index out of range
    | ValueError       // a failed unpacking or a failed `int(s, 2)`

  datatype Result<+T> = Ok(value: T) | Err(error: Error)

  function Pow2(n: nat): (r: nat)
    ensures r >= 1
  {
    if n == 0 then 1 else 2 * Pow2(n - 1)
  }

  /** Python's `min` and `max` of two integers. */
  function Min(a: int, b: int): int { if a <= b then a else b }
  function Max(a: int, b: int): int { if a >= b then a else b }

  /** Python's `list(range(lo, hi))`. */
  function Range(lo: nat, hi: nat): (r: seq<nat>)
    decreases hi - lo
    ensures |r| == if lo <= hi then hi - lo else 0
    ensures forall k :: 0 <= k < |r| ==> r[k] == lo + k
  {
    if lo >= hi then [] else [lo] + Range(lo + 1, hi)
  }

  /** Python's `[x] * n` (and `x * n` on a one-character string). */
  function Repeat<T>(x: T, n: nat): (r: seq<T>)
    ensures |r| == n && forall k :: 0 <= k < n ==> r[k] == x
  {
    if n == 0 then [] else Repeat(x, n - 1) + [x]
  }

  /** One more copy at the end of a repetition. */
  lemma RepeatSnoc<T>(pre: seq<T>, x: T, k: nat, s: seq<T>)
    requires s == pre + Repeat(x, k)
    ensures s + [x] == pre + Repeat(x, k + 1)
  {
  }

  /** Python's `s[::-1]`. */
  function Reverse<T>(s: seq<T>): (r: seq<T>)
    ensures |r| == |s|
  {
    if s == [] then [] else Reverse(s[1..]) + [s[0]]
  }

  lemma {:induction false} ReverseAt<T>(s: seq<T>, k: nat)
    requires k < |s|
    ensures Reverse(s)[k] == s[|s| - 1 - k]
  {
    if k < |s| - 1 {
      ReverseAt(s[1..], k);
    }
  }

  lemma ReverseReverse<T>(s: seq<T>)
    ensures Reverse(Reverse(s)) == s
  {
    forall k | 0 <= k < |s|
      ensures Reverse(Reverse(s))[k] == s[k]
    {
      ReverseAt(Reverse(s), k);
      ReverseAt(s, |s| - 1 - k);
    }
  }

  lemma ReverseAppend<T>(a: seq<T>, b: seq<T>)
    ensures Reverse(a + b) == Reverse(b) + Reverse(a)
  {
    forall k | 0 <= k < |a| + |b|
      ensures Reverse(a + b)[k] == (Reverse(b) + Reverse(a))[k]
    {
      ReverseAt(a + b, k);
      if k < |b| {
        ReverseAt(b, k);
      } else {
        ReverseAt(a, k - |b|);
      }
    }
  }

  /** A Python `dict` as an association list in insertion order. */
  type Dict<K, V> = seq<(K, V)>

  function Keys<K, V>(d: Dict<K, V>): (r: seq<K>)
    ensures |r| == |d|
    ensures forall k :: 0 <= k < |d| ==> r[k] == d[k].0
  {
    if d == [] then [] else [d[0].0] + Keys(d[1..])
  }

  ghost predicate DistinctKeys<K, V>(d: Dict<K, V>)
  {
    forall a, b :: 0 <= a < b < |d| ==> d[a].0 != d[b].0
  }

  /** Sum of the values: the number of shots a counts dictionary holds. */
  function Total<K>(d: Dict<K, int>): int
  {
    if d == [] then 0 else d[0].1 + Total(d[1..])
  }

  lemma {:induction false} TotalAppend<K>(a: Dict<K, int>, b: Dict<K, int>)
    ensures Total(a + b) == Total(a) + Total(b)
  {
    if a == [] {
      assert a + b == b;
    } else {
      assert (a + b)[1..] == a[1..] + b;
      TotalAppend(a[1..], b);
    }
  }

  /** `d[k] += v` when `k in d`, otherwise `d[k] = v`. */
  function AddTo<K(==)>(d: Dict<K, int>, k: K, v: int): (r: Dict<K, int>)
  {
    if d == [] then [(k, v)]
    else if d[0].0 == k then [(k, d[0].1 + v)] + d[1..]
    else [d[0]] + AddTo(d[1..], k, v)
  }

  /** Accumulating into a dictionary adds exactly `v` to its total. */
  lemma {:induction false} AddToTotal<K>(d: Dict<K, int>, k: K, v: int)
    ensures Total(AddTo(d, k, v)) == Total(d) + v
  {
    if d != [] && d[0].0 != k {
      AddToTotal(d[1..], k, v);
    }
  }

  /** Accumulating keeps the keys distinct and adds `k` to the key set. */
  lemma {:induction false} AddToKeys<K>(d: Dict<K, int>, k: K, v: int)
    requires DistinctKeys(d)
    ensures DistinctKeys(AddTo(d, k, v))
    ensures forall x :: x in Keys(AddTo(d, k, v)) <==> x in Keys(d) || x == k
  {
    if d != [] && d[0].0 != k {
      AddToKeys(d[1..], k, v);
      var r := AddTo(d[1..], k, v);
      assert AddTo(d, k, v) == [d[0]] + r;
      assert Keys(d) == [d[0].0] + Keys(d[1..]);
      assert Keys(AddTo(d, k, v)) == [d[0].0] + Keys(r);
      forall j | 0 <= j < |r| ensures r[j].0 != d[0].0 {
        assert r[j].0 in Keys(r);
        if r[j].0 != k {
          var i :| 0 <= i < |d[1..]| && Keys(d[1..])[i] == r[j].0;
          assert d[i + 1].0 == r[j].0;
        }
      }
    } else if d != [] {
      assert Keys(AddTo(d, k, v)) == Keys(d) by {
        assert Keys(AddTo(d, k, v)) == [k] + Keys(d[1..]);
        assert Keys(d) == [d[0].0] + Keys(d[1..]);
      }
    }
  }

  /** `d[k] = v`: overwrite the value of an existing key, or append a new one. */
  function Put<K(==), V>(d: Dict<K, V>, k: K, v: V): (r: Dict<K, V>)
  {
    if d == [] then [(k, v)]
    else if d[0].0 == k then [(k, v)] + d[1..]
    else [d[0]] + Put(d[1..], k, v)
  }

  lemma {:induction false} PutFresh<K, V>(d: Dict<K, V>, k: K, v: V)
    requires k !in Keys(d)
    ensures Put(d, k, v) == d + [(k, v)]
  {
    if d != [] {
      assert Keys(d) == [d[0].0] + Keys(d[1..]);
      PutFresh(d[1..], k, v);
    }
  }

  /** The value stored under `k`, or 0 when `k` is absent. */
  function Lookup<K(==)>(d: Dict<K, int>, k: K): int
  {
    if d == [] then 0 else if d[0].0 == k then d[0].1 else Lookup(d[1..], k)
  }

  lemma {:induction false} LookupAddTo<K>(d: Dict<K, int>, k: K, v: int, x: K)
    requires DistinctKeys(d)
    ensures Lookup(AddTo(d, k, v), x) == Lookup(d, x) + (if x == k then v else 0)
  {
    if d != [] && d[0].0 != k {
      LookupAddTo(d[1..], k, v, x);
    } else if d != [] && x != k {
      assert AddTo(d, k, v)[1..] == d[1..];
    } else if d != [] {
      LookupAbsent(d[1..], k);
      assert AddTo(d, k, v)[1..] == d[1..];
    }
  }

  lemma {:induction false} LookupAbsent<K>(d: Dict<K, int>, k: K)
    requires forall i :: 0 <= i < |d| ==> d[i].0 != k
    ensures Lookup(d, k) == 0
  {
    if d != [] {
      LookupAbsent(d[1..], k);
    }
  }

  lemma {:induction false} AddToFresh<K>(d: Dict<K, int>, k: K, v: int)
    requires k !in Keys(d)
    ensures AddTo(d, k, v) == d + [(k, v)]
  {
    if d != [] {
      assert Keys(d) == [d[0].0] + Keys(d[1..]);
      AddToFresh(d[1..], k, v);
    }
  }

  /** Accumulating appends `k` to the key order when it is new and leaves
      the order alone otherwise. */
  lemma {:induction false} AddToOrder<K>(d: Dict<K, int>, k: K, v: int)
    ensures Keys(AddTo(d, k, v)) == if k in Keys(d) then Keys(d) else Keys(d) + [k]
  {
    if d != [] {
      assert Keys(d) == [d[0].0] + Keys(d[1..]);
      if d[0].0 != k {
        AddToOrder(d[1..], k, v);
        assert Keys(AddTo(d, k, v)) == [d[0].0] + Keys(AddTo(d[1..], k, v));
      } else {
        assert Keys(AddTo(d, k, v)) == [k] + Keys(d[1..]);
      }
    }
  }

  lemma {:induction false} ReverseMultiset<T>(s: seq<T>)
    ensures multiset(Reverse(s)) == multiset(s)
  {
    if s != [] {
      ReverseMultiset(s[1..]);
      assert s == [s[0]] + s[1..];
    }
  }
}
