/**
 * Python's insertion-ordered `dict` (option maps,
 * form payloads), as an association list. Iteration
 * order is the order of the list; assigning to a present key overwrites its
 * value in place, assigning to a new key appends it.
 */
module Dicts {
  import opened Wrappers

  /** An association list; `Dict` is the string-to-string case. */
  type Assoc<K, V> = seq<(K, V)>
  type Dict = Assoc<string, string>

  function Keys<K(==,!new), V(!new)>(d: Assoc<K, V>): (ks: seq<K>)
    ensures |ks| == |d|
    ensures forall i :: 0 <= i < |d| ==> ks[i] == d[i].0
  {
    if |d| == 0 then [] else [d[0].0] + Keys(d[1..])
  }

  /** No key occurs twice: true of every dict Python builds. */
  predicate UniqueKeys<K(==,!new), V(!new)>(d: Assoc<K, V>) {
    forall i, j :: 0 <= i < j < |d| ==> d[i].0 != d[j].0
  }

  /** `d.get(k)`: the value stored under `k`, if any. */
  function Get<K(==,!new), V(!new)>(d: Assoc<K, V>, k: K): (r: Option<V>)
    ensures r.Some? <==> k in Keys(d)
    ensures r.Some? ==> (k, r.value) in d
  {
    if |d| == 0 then None
    else if d[0].0 == k then Some(d[0].1)
    else Get(d[1..], k)
  }

  /** In a dict without repeated keys, every entry is what `Get` finds. */
  lemma {:induction false} GetEntry<K(!new), V(!new)>(d: Assoc<K, V>, i: nat)
    requires UniqueKeys(d) && i < |d|
    ensures Get(d, d[i].0) == Some(d[i].1)
  {
    if i > 0 {
      GetEntry(d[1..], i - 1);
    }
  }

  lemma KeysCons<K(!new), V(!new)>(e: (K, V), d: Assoc<K, V>)
    ensures Keys([e] + d) == [e.0] + Keys(d)
  {
    assert ([e] + d)[1..] == d;
  }

  lemma KeysAppend<K(!new), V(!new)>(a: Assoc<K, V>, b: Assoc<K, V>)
    ensures Keys(a + b) == Keys(a) + Keys(b)
  {
    var ab := a + b;
    var l, ka, kb := Keys(ab), Keys(a), Keys(b);
    forall i | 0 <= i < |ab| ensures l[i] == (ka + kb)[i] {
      if i < |a| {
        assert ab[i] == a[i];
      } else {
        assert ab[i] == b[i - |a|];
      }
    }
  }

  lemma GetCons<K(!new), V(!new)>(e: (K, V), d: Assoc<K, V>, k: K)
    ensures Get([e] + d, k) == if e.0 == k then Some(e.1) else Get(d, k)
  {
    assert ([e] + d)[1..] == d;
  }

  lemma UniqueCons<K(!new), V(!new)>(e: (K, V), d: Assoc<K, V>)
    requires UniqueKeys(d) && e.0 !in Keys(d)
    ensures UniqueKeys([e] + d)
  {
    var r := [e] + d;
    forall i, j | 0 <= i < j < |r| ensures r[i].0 != r[j].0 {
      if i == 0 {
        assert r[j].0 == Keys(d)[j - 1];
      }
    }
  }

  /** What `d[k] = v` promises of the dict `r` it leaves. */
  ghost predicate PutSpec<K(!new), V(!new)>(d: Assoc<K, V>, k: K, v: V, r: Assoc<K, V>) {
    && Keys(r) == (if k in Keys(d) then Keys(d) else Keys(d) + [k])
    && Get(r, k) == Some(v)
    && (forall k' :: k' != k ==> Get(r, k') == Get(d, k'))
    && (UniqueKeys(d) ==> UniqueKeys(r))
  }

  lemma PutAtHead<K(!new), V(!new)>(d: Assoc<K, V>, k: K, v: V)
    requires |d| > 0 && d[0].0 == k
    ensures PutSpec(d, k, v, [(k, v)] + d[1..])
  {
    var r := [(k, v)] + d[1..];
    KeysCons(d[0], d[1..]);
    KeysCons((k, v), d[1..]);
    assert d == [d[0]] + d[1..];
    forall k' | k' != k ensures Get(r, k') == Get(d, k') {
      GetCons((k, v), d[1..], k');
      GetCons(d[0], d[1..], k');
    }
    GetCons((k, v), d[1..], k);
    if UniqueKeys(d) {
      assert forall i :: 0 <= i < |r| ==> r[i].0 == d[i].0;
    }
  }

  lemma PutBehindKeys<K(!new), V(!new)>(d: Assoc<K, V>, k: K, rest: Assoc<K, V>)
    requires |d| > 0 && d[0].0 != k
    requires Keys(rest) == (if k in Keys(d[1..]) then Keys(d[1..]) else Keys(d[1..]) + [k])
    ensures Keys([d[0]] + rest) == (if k in Keys(d) then Keys(d) else Keys(d) + [k])
  {
    assert d == [d[0]] + d[1..];
    KeysCons(d[0], d[1..]);
    KeysCons(d[0], rest);
    assert k in Keys(d) <==> k in Keys(d[1..]);
    if k !in Keys(d) {
      assert [d[0].0] + (Keys(d[1..]) + [k]) == ([d[0].0] + Keys(d[1..])) + [k];
    }
  }

  lemma PutBehindGet<K(!new), V(!new)>(d: Assoc<K, V>, k: K, v: V, rest: Assoc<K, V>)
    requires |d| > 0 && d[0].0 != k
    requires Get(rest, k) == Some(v)
    requires forall k' :: k' != k ==> Get(rest, k') == Get(d[1..], k')
    ensures Get([d[0]] + rest, k) == Some(v)
    ensures forall k' :: k' != k ==> Get([d[0]] + rest, k') == Get(d, k')
  {
    assert d == [d[0]] + d[1..];
    GetCons(d[0], rest, k);
    forall k' | k' != k ensures Get([d[0]] + rest, k') == Get(d, k') {
      GetCons(d[0], rest, k');
      GetCons(d[0], d[1..], k');
    }
  }

  lemma PutBehindUnique<K(!new), V(!new)>(d: Assoc<K, V>, k: K, rest: Assoc<K, V>)
    requires |d| > 0 && d[0].0 != k && UniqueKeys(d)
    requires Keys(rest) == (if k in Keys(d[1..]) then Keys(d[1..]) else Keys(d[1..]) + [k])
    requires UniqueKeys(d[1..]) ==> UniqueKeys(rest)
    ensures UniqueKeys([d[0]] + rest)
  {
    assert d == [d[0]] + d[1..];
    KeysCons(d[0], d[1..]);
    assert UniqueKeys(d[1..]);
    assert d[0].0 !in Keys(d[1..]);
    assert d[0].0 !in Keys(rest);
    UniqueCons(d[0], rest);
  }

  lemma PutBehindHead<K(!new), V(!new)>(d: Assoc<K, V>, k: K, v: V, rest: Assoc<K, V>)
    requires |d| > 0 && d[0].0 != k
    requires PutSpec(d[1..], k, v, rest)
    ensures PutSpec(d, k, v, [d[0]] + rest)
  {
    PutBehindKeys(d, k, rest);
    PutBehindGet(d, k, v, rest);
    if UniqueKeys(d) {
      PutBehindUnique(d, k, rest);
    }
  }

  /** In a dict without repeated keys, an entry is what `Get` finds. */
  lemma GetMember<K(!new), V(!new)>(d: Assoc<K, V>, k: K, v: V)
    requires UniqueKeys(d) && (k, v) in d
    ensures Get(d, k) == Some(v)
  {
    var i :| 0 <= i < |d| && d[i] == (k, v);
    GetEntry(d, i);
  }

  /** `d[k] = v`: overwrite in place when `k` is present, append otherwise. */
  function Put<K(==,!new), V(!new)>(d: Assoc<K, V>, k: K, v: V): (r: Assoc<K, V>)
    ensures Keys(r) == if k in Keys(d) then Keys(d) else Keys(d) + [k]
    ensures Get(r, k) == Some(v)
    ensures forall k' :: k' != k ==> Get(r, k') == Get(d, k')
    ensures UniqueKeys(d) ==> UniqueKeys(r)
  {
    if |d| == 0 then [(k, v)]
    else if d[0].0 == k then
      PutAtHead(d, k, v);
      [(k, v)] + d[1..]
    else
      var rest := Put(d[1..], k, v);
      PutBehindHead(d, k, v, rest);
      [d[0]] + rest
  }

  /**
   * `{k: v for k, v in d.items() if k in sel}`: the entries whose key is
   * listed in `sel`, in their original order.
   */
  function FilterKeys<K(==,!new), V(!new)>(d: Assoc<K, V>, sel: seq<K>): (r: Assoc<K, V>)
    ensures |r| <= |d|
    ensures forall e :: e in r <==> e in d && e.0 in sel
  {
    if |d| == 0 then []
    else
      assert d == [d[0]] + d[1..];
      (if d[0].0 in sel then [d[0]] else []) + FilterKeys(d[1..], sel)
  }

  /** Filtering keeps the order: it filters each part of a concatenation on its own. */
  lemma {:induction false} FilterKeysAppend<K(!new), V(!new)>(a: Assoc<K, V>, b: Assoc<K, V>, sel: seq<K>)
    ensures FilterKeys(a + b, sel) == FilterKeys(a, sel) + FilterKeys(b, sel)
  {
    if |a| == 0 {
      assert a + b == b;
    } else {
      var head: Assoc<K, V> := if a[0].0 in sel then [a[0]] else [];
      assert (a + b)[0] == a[0] && (a + b)[1..] == a[1..] + b;
      FilterKeysAppend(a[1..], b, sel);
      assert head + (FilterKeys(a[1..], sel) + FilterKeys(b, sel))
          == (head + FilterKeys(a[1..], sel)) + FilterKeys(b, sel);
    }
  }

  /** Looking up a selected key finds what the dict had; any other key is absent. */
  lemma {:induction false} FilterKeysGet<K(!new), V(!new)>(d: Assoc<K, V>, sel: seq<K>, k: K)
    ensures Get(FilterKeys(d, sel), k) == if k in sel then Get(d, k) else None
  {
    if |d| > 0 {
      var rest := FilterKeys(d[1..], sel);
      FilterKeysGet(d[1..], sel, k);
      assert d == [d[0]] + d[1..];
      GetCons(d[0], d[1..], k);
      if d[0].0 in sel {
        GetCons(d[0], rest, k);
      } else {
        assert FilterKeys(d, sel) == rest;
      }
    }
  }

  /** Filtering a dict without repeated keys gives one without repeated keys. */
  lemma {:induction false} FilterKeysUnique<K(!new), V(!new)>(d: Assoc<K, V>, sel: seq<K>)
    requires UniqueKeys(d)
    ensures UniqueKeys(FilterKeys(d, sel))
  {
    if |d| > 0 {
      var rest := FilterKeys(d[1..], sel);
      assert UniqueKeys(d[1..]);
      FilterKeysUnique(d[1..], sel);
      if d[0].0 in sel {
        assert d[0].0 !in Keys(d[1..]);
        FilterKeysGet(d[1..], sel, d[0].0);
        UniqueCons(d[0], rest);
      } else {
        assert FilterKeys(d, sel) == rest;
      }
    }
  }
}
