/** Python's insertion-ordered `dict` with string keys, as a sequence of key/value pairs.
    `Get` is `d.get(k)`, `Put` is `d[k] = v`: an existing key keeps its place and takes the
    new value, a new key goes to the end. */
module Dicts {
  import opened Values

  type Dict<V> = seq<(string, V)>

  function Keys<V>(d: Dict<V>): (ks: seq<string>)
    ensures |ks| == |d|
    ensures forall i :: 0 <= i < |d| ==> ks[i] == d[i].0
  {
    seq(|d|, i requires 0 <= i < |d| => d[i].0)
  }

  predicate Distinct(s: seq<string>) {
    forall i, j :: 0 <= i < j < |s| ==> s[i] != s[j]
  }

  function Get<V>(d: Dict<V>, k: string): (r: Option<V>)
    ensures r.Some? <==> k in Keys(d)
  {
    if d == [] then None
    else
      assert Keys(d) == [d[0].0] + Keys(d[1..]);
      if d[0].0 == k then Some(d[0].1) else Get(d[1..], k)
  }

  function Put<V>(d: Dict<V>, k: string, v: V): Dict<V> {
    if d == [] then [(k, v)]
    else if d[0].0 == k then [(k, v)] + d[1..]
    else [d[0]] + Put(d[1..], k, v)
  }

  lemma KeysAppend<V>(d: Dict<V>, k: string, v: V)
    ensures Keys(d + [(k, v)]) == Keys(d) + [k]
  {
  }

  /** Assigning a key the dict does not hold appends the pair. */
  lemma {:induction false} PutAbsent<V>(d: Dict<V>, k: string, v: V)
    requires k !in Keys(d)
    ensures Put(d, k, v) == d + [(k, v)]
  {
    if d != [] {
      assert Keys(d) == [d[0].0] + Keys(d[1..]);
      PutAbsent(d[1..], k, v);
      assert d == [d[0]] + d[1..];
    }
  }

  /** Assigning a key the dict holds replaces its value in place. */
  lemma {:induction false} PutAt<V>(d: Dict<V>, j: int, v: V)
    requires Distinct(Keys(d)) && 0 <= j < |d|
    ensures Put(d, d[j].0, v) == d[j := (d[j].0, v)]
  {
    if j > 0 {
      var rest := d[1..];
      assert Keys(d)[0] != Keys(d)[j];
      DistinctTail(d);
      PutAt(rest, j - 1, v);
      assert rest[j - 1] == d[j];
      assert d[j := (d[j].0, v)] == [d[0]] + rest[j - 1 := (d[j].0, v)];
    }
  }

  lemma DistinctTail<V>(d: Dict<V>)
    requires Distinct(Keys(d)) && d != []
    ensures Distinct(Keys(d[1..]))
  {
    assert Keys(d[1..]) == Keys(d)[1..];
  }

  /** In a dict with distinct keys, `Get` finds the value stored at the key's position. */
  lemma {:induction false} GetAt<V>(d: Dict<V>, j: int)
    requires Distinct(Keys(d)) && 0 <= j < |d|
    ensures Get(d, d[j].0) == Some(d[j].1)
  {
    if j > 0 {
      assert Keys(d)[0] != Keys(d)[j];
      assert Keys(d[1..]) == Keys(d)[1..];
      GetAt(d[1..], j - 1);
    }
  }

  lemma KeysConcat<V>(a: Dict<V>, b: Dict<V>)
    ensures Keys(a + b) == Keys(a) + Keys(b)
  {
  }

  /** A key of the front part is found there, whatever follows. */
  lemma {:induction false} GetFront<V>(a: Dict<V>, b: Dict<V>, k: string)
    requires k in Keys(a)
    ensures Get(a + b, k) == Get(a, k)
  {
    assert Keys(a) == [a[0].0] + Keys(a[1..]);
    if a[0].0 != k {
      GetFront(a[1..], b, k);
      assert (a + b)[1..] == a[1..] + b;
    }
  }

  /** The error test applied to a mapper's answer before it is used,
      `isinstance(x, dict) and "error" in x`: besides an error record it also accepts a real
      mapping that has a key "error". */
  predicate LooksLikeErrorAsWritten<V>(s: Source<Dict<V>>) {
    s.Failed? || (s.Configured? && "error" in Keys(s.data))
  }
}
