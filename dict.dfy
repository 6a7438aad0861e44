/** Python dictionaries, which remember the order in which keys were first
    inserted. A dictionary is the list of its entries in that order:
    `Put` overwrites an existing key where it stands and appends a new one. */
module Dict {
  import opened Wrappers

  type Dict<K, V> = seq<(K, V)>

  /** `list(d.keys())`. */
  function Keys<K, V>(d: Dict<K, V>): (ks: seq<K>)
    ensures |ks| == |d|
    ensures forall i :: 0 <= i < |d| ==> ks[i] == d[i].0
  {
    if d == [] then [] else [d[0].0] + Keys(d[1..])
  }

  /** `list(d.values())`. */
  function Values<K, V>(d: Dict<K, V>): (vs: seq<V>)
    ensures |vs| == |d|
    ensures forall i :: 0 <= i < |d| ==> vs[i] == d[i].1
  {
    if d == [] then [] else [d[0].1] + Values(d[1..])
  }

  /** No element is listed twice. */
  ghost predicate Distinct<T>(xs: seq<T>) {
    forall i, j :: 0 <= i < j < |xs| ==> xs[i] != xs[j]
  }

  /** No key is listed twice, as in every Python dict. */
  ghost predicate DistinctKeys<K, V>(d: Dict<K, V>) {
    Distinct(Keys(d))
  }

  lemma {:induction false} DistinctAppend<T>(xs: seq<T>, x: T)
    requires Distinct(xs) && x !in xs
    ensures Distinct(xs + [x])
  {
  }

  /** The key of a listed entry is among the keys. */
  lemma {:induction false} KeyOfEntry<K, V>(d: Dict<K, V>, e: (K, V))
    requires e in d
    ensures e.0 in Keys(d)
  {
    var i :| 0 <= i < |d| && d[i] == e;
    assert Keys(d)[i] == e.0;
  }

  /** `d.get(k)`: the value stored under `k`, if any. */
  function Get<K(==), V>(d: Dict<K, V>, k: K): (r: Option<V>)
    ensures r.None? <==> k !in Keys(d)
  {
    if d == [] then None
    else if d[0].0 == k then Some(d[0].1)
    else Get(d[1..], k)
  }

  /** What `Get` finds is a listed entry. */
  lemma {:induction false} GetSome<K, V>(d: Dict<K, V>, k: K)
    requires Get(d, k).Some?
    ensures (k, Get(d, k).value) in d
  {
    if d[0].0 != k {
      GetSome(d[1..], k);
    }
  }

  /** In a dict without repeated keys, every listed entry is what `Get` finds. */
  lemma {:induction false} GetEntry<K, V>(d: Dict<K, V>, i: int)
    requires DistinctKeys(d) && 0 <= i < |d|
    ensures Get(d, d[i].0) == Some(d[i].1)
  {
    if i > 0 {
      assert d[0].0 != d[i].0;
      GetEntry(d[1..], i - 1);
    }
  }

  /** `d[k] = v`. */
  function Put<K(==), V>(d: Dict<K, V>, k: K, v: V): (r: Dict<K, V>)
    ensures Keys(r) == if k in Keys(d) then Keys(d) else Keys(d) + [k]
  {
    if d == [] then [(k, v)]
    else if d[0].0 == k then [(k, v)] + d[1..]
    else [d[0]] + Put(d[1..], k, v)
  }

  /** After `d[k] = v`, `k` holds `v` and every other key what it held. */
  lemma {:induction false} PutGet<K, V>(d: Dict<K, V>, k: K, v: V, k': K)
    ensures Get(Put(d, k, v), k') == if k' == k then Some(v) else Get(d, k')
  {
    if d != [] && d[0].0 != k {
      PutGet(d[1..], k, v, k');
    }
  }

  lemma {:induction false} PutDistinct<K, V>(d: Dict<K, V>, k: K, v: V)
    requires DistinctKeys(d)
    ensures DistinctKeys(Put(d, k, v))
  {
    if k !in Keys(d) {
      DistinctAppend(Keys(d), k);
    }
  }

  /** Storing a key that is not there appends its entry. */
  lemma {:induction false} PutNew<K, V>(d: Dict<K, V>, k: K, v: V)
    requires k !in Keys(d)
    ensures Put(d, k, v) == d + [(k, v)]
  {
    if d != [] {
      assert Keys(d) == [d[0].0] + Keys(d[1..]);
      PutNew(d[1..], k, v);
      assert d == [d[0]] + d[1..];
    }
  }

  /** `d[k]`: KeyError for a missing key. */
  function Lookup<K(==), V>(d: Dict<K, V>, k: K): (r: Result<V>)
    ensures r.Ok? <==> k in Keys(d)
    ensures r.Ok? ==> Get(d, k) == Some(r.value)
  {
    match Get(d, k)
    case Some(v) => Ok(v)
    case None => Err(KeyError)
  }

  /** `d.get(k, 0)` on a counter. */
  function Get0<K(==)>(d: Dict<K, real>, k: K): real {
    if d == [] then 0.0
    else if d[0].0 == k then d[0].1
    else Get0(d[1..], k)
  }

  /** `d.get(k, 0)` is the stored value when there is one and 0 otherwise. */
  lemma {:induction false} Get0Get<K>(d: Dict<K, real>, k: K)
    ensures Get0(d, k) == match Get(d, k) case Some(v) => v case None => 0.0
  {
    if d != [] && d[0].0 != k {
      Get0Get(d[1..], k);
    }
  }

  /** After `d[k] = v`, `d.get(k, 0)` is `v` and every other count is unchanged. */
  lemma {:induction false} PutGet0<K>(d: Dict<K, real>, k: K, v: real, k': K)
    ensures Get0(Put(d, k, v), k') == if k' == k then v else Get0(d, k')
  {
    if d != [] && d[0].0 != k {
      PutGet0(d[1..], k, v, k');
    }
  }

  /** `if k not in d: d[k] = 0` followed by `d[k] += w`. */
  function Add<K(==)>(d: Dict<K, real>, k: K, w: real): (r: Dict<K, real>)
    ensures Keys(r) == if k in Keys(d) then Keys(d) else Keys(d) + [k]
  {
    Put(d, k, Get0(d, k) + w)
  }

  /** `d[k] += w` adds `w` to the count of `k` and to no other count. */
  lemma {:induction false} AddGet0<K>(d: Dict<K, real>, k: K, w: real, k': K)
    ensures Get0(Add(d, k, w), k') == Get0(d, k') + (if k' == k then w else 0.0)
  {
    PutGet0(d, k, Get0(d, k) + w, k');
  }

  /** `sum(d.values())`. */
  function Sum<K>(d: Dict<K, real>): real {
    if d == [] then 0.0 else d[0].1 + Sum(d[1..])
  }

  /** Overwriting one entry changes the total by the difference. */
  lemma {:induction false} SumPut<K>(d: Dict<K, real>, k: K, v: real)
    ensures Sum(Put(d, k, v)) == Sum(d) - Get0(d, k) + v
  {
    if d != [] && d[0].0 != k {
      SumPut(d[1..], k, v);
      assert Put(d, k, v) == [d[0]] + Put(d[1..], k, v);
    }
  }

  /** Adding `w` under one key adds `w` to the total. */
  lemma {:induction false} SumAdd<K>(d: Dict<K, real>, k: K, w: real)
    ensures Sum(Add(d, k, w)) == Sum(d) + w
  {
    SumPut(d, k, Get0(d, k) + w);
  }

  /** Every stored count is positive. */
  ghost predicate Positive<K>(d: Dict<K, real>) {
    forall i :: 0 <= i < |d| ==> d[i].1 > 0.0
  }

  lemma {:induction false} PositiveGet<K>(d: Dict<K, real>, k: K)
    requires Positive(d)
    ensures Get0(d, k) >= 0.0
    ensures k in Keys(d) <==> Get0(d, k) > 0.0
  {
    if d != [] && d[0].0 != k {
      PositiveGet(d[1..], k);
      assert Keys(d) == [d[0].0] + Keys(d[1..]);
    }
  }

  /** A sum of positive counts is positive exactly when there is an entry. */
  lemma {:induction false} PositiveSum<K>(d: Dict<K, real>)
    requires Positive(d)
    ensures Sum(d) >= 0.0
    ensures Sum(d) > 0.0 <==> d != []
  {
    if d != [] {
      PositiveSum(d[1..]);
    }
  }

  lemma {:induction false} PositivePut<K>(d: Dict<K, real>, k: K, v: real)
    requires Positive(d) && v > 0.0
    ensures Positive(Put(d, k, v))
  {
    if d != [] && d[0].0 != k {
      PositivePut(d[1..], k, v);
    }
  }

  lemma {:induction false} PositiveAdd<K>(d: Dict<K, real>, k: K, w: real)
    requires Positive(d) && w > 0.0
    ensures Positive(Add(d, k, w))
  {
    PositiveGet(d, k);
    PositivePut(d, k, Get0(d, k) + w);
  }

  /** `{k: v for k, v in d.items() if k in keep}`: the entries whose key is
      in `keep`, in their order. */
  function Restrict<K(==), V>(d: Dict<K, V>, keep: seq<K>): (r: Dict<K, V>)
    ensures forall i :: 0 <= i < |r| ==> r[i] in d && r[i].0 in keep
    ensures forall i :: 0 <= i < |d| && d[i].0 in keep ==> d[i] in r
  {
    if d == [] then []
    else (if d[0].0 in keep then [d[0]] else []) + Restrict(d[1..], keep)
  }

  // ---------------------------------------------------------------- nested dicts

  /** `d[k]` of a dict of counters, or an empty counter. */
  function Inner<K(==), J>(d: Dict<K, Dict<J, real>>, k: K): Dict<J, real> {
    match Get(d, k)
    case Some(inner) => inner
    case None => []
  }

  /** `d.get(k, {}).get(j, 0)`. */
  function Get2<K(==), J(==)>(d: Dict<K, Dict<J, real>>, k: K, j: J): real {
    Get0(Inner(d, k), j)
  }

  /** `if k not in d: d[k] = {}`. */
  function Touch<K(==), J>(d: Dict<K, Dict<J, real>>, k: K): (r: Dict<K, Dict<J, real>>)
    ensures Keys(r) == if k in Keys(d) then Keys(d) else Keys(d) + [k]
  {
    if k in Keys(d) then d else Put(d, k, [])
  }

  /** `d[k][j] = v` on a dict of dicts whose key `k` exists or is created. */
  function Put2<K(==), J(==)>(d: Dict<K, Dict<J, real>>, k: K, j: J, v: real): (r: Dict<K, Dict<J, real>>)
    ensures Keys(r) == if k in Keys(d) then Keys(d) else Keys(d) + [k]
  {
    Put(d, k, Put(Inner(d, k), j, v))
  }

  /** Creating an empty inner counter changes no count. */
  lemma {:induction false} TouchInner<K, J>(d: Dict<K, Dict<J, real>>, k: K, k': K)
    ensures Inner(Touch(d, k), k') == Inner(d, k')
  {
    if k !in Keys(d) {
      PutGet(d, k, [], k');
    }
  }

  /** The two-level increment of the analyzer:
      `if k not in d: d[k] = {}`, `if j not in d[k]: d[k][j] = 0`, `d[k][j] += w`. */
  function Add2<K(==), J(==)>(d: Dict<K, Dict<J, real>>, k: K, j: J, w: real): (r: Dict<K, Dict<J, real>>)
    ensures Keys(r) == if k in Keys(d) then Keys(d) else Keys(d) + [k]
  {
    Put(d, k, Add(Inner(d, k), j, w))
  }

  /** The two-level increment changes the inner counter of `k` only. */
  lemma {:induction false} Add2Inner<K, J>(d: Dict<K, Dict<J, real>>, k: K, j: J, w: real, k': K)
    ensures Inner(Add2(d, k, j, w), k') == if k' == k then Add(Inner(d, k), j, w) else Inner(d, k')
  {
    PutGet(d, k, Add(Inner(d, k), j, w), k');
  }

  /** The two-level increment adds `w` to the count of `(k, j)` and to no
      other count. */
  lemma {:induction false} Add2Get2<K, J>(d: Dict<K, Dict<J, real>>, k: K, j: J, w: real, k': K, j': J)
    ensures Get2(Add2(d, k, j, w), k', j') == Get2(d, k', j') + (if k' == k && j' == j then w else 0.0)
  {
    Add2Inner(d, k, j, w, k');
    if k' == k {
      AddGet0(Inner(d, k), j, w, j');
    }
  }

  /** Every inner counter of a nested dict holds only positive counts. */
  ghost predicate Positive2<K, J>(d: Dict<K, Dict<J, real>>) {
    forall i :: 0 <= i < |d| ==> Positive(d[i].1)
  }

  lemma {:induction false} PositiveInner<K, J>(d: Dict<K, Dict<J, real>>, k: K)
    requires Positive2(d)
    ensures Positive(Inner(d, k))
  {
    if k in Keys(d) {
      GetSome(d, k);
      var i :| 0 <= i < |d| && d[i] == (k, Get(d, k).value);
    }
  }

  lemma {:induction false} Positive2Put<K, J>(d: Dict<K, Dict<J, real>>, k: K, v: Dict<J, real>)
    requires Positive2(d) && Positive(v)
    ensures Positive2(Put(d, k, v))
  {
    if d != [] && d[0].0 != k {
      Positive2Put(d[1..], k, v);
    }
  }

  lemma {:induction false} Positive2Add2<K, J>(d: Dict<K, Dict<J, real>>, k: K, j: J, w: real)
    requires Positive2(d) && w > 0.0
    ensures Positive2(Add2(d, k, j, w))
  {
    PositiveInner(d, k);
    PositiveAdd(Inner(d, k), j, w);
    Positive2Put(d, k, Add(Inner(d, k), j, w));
  }

  lemma {:induction false} Positive2Touch<K, J>(d: Dict<K, Dict<J, real>>, k: K)
    requires Positive2(d)
    ensures Positive2(Touch(d, k))
  {
    if k !in Keys(d) {
      Positive2Put(d, k, []);
    }
  }
}
