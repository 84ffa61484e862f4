/** The "assign by key" pattern: a loop that runs `d[k] = v` for every item that carries a
    key. Python keeps a key at the position of its first assignment and gives it the value
    of its last one. `Assigned` is the reference definition of the resulting dict. */
module Assignment {
  import opened Values
  import opened Dicts
  import opened Grouping

  /** The value of the last item that carries key `k`, if there is one. */
  function Latest<T, V>(xs: seq<T>, key: T -> Option<string>, val: T -> V, k: string): (r: Option<V>)
    ensures r.Some? <==> k in FirstSeen(xs, key)
  {
    if xs == [] then None
    else if key(xs[|xs| - 1]) == Some(k) then Some(val(xs[|xs| - 1]))
    else Latest(xs[..|xs| - 1], key, val, k)
  }

  /** One entry per distinct key, in order of first appearance, holding the value of the
      last item with that key. */
  function Assigned<T, V>(xs: seq<T>, key: T -> Option<string>, val: T -> V): (d: Dict<V>)
    ensures Keys(d) == FirstSeen(xs, key)
  {
    var ks := FirstSeen(xs, key);
    seq(|ks|, i requires 0 <= i < |ks| => (ks[i], Latest(xs, key, val, ks[i]).value))
  }

  /** `Latest` really is the last: the value comes from an item with key `k` and no later
      item carries `k`. */
  lemma {:induction false} LatestIsLast<T, V>(xs: seq<T>, key: T -> Option<string>, val: T -> V, k: string)
    requires Latest(xs, key, val, k).Some?
    ensures exists i :: 0 <= i < |xs| && key(xs[i]) == Some(k) && val(xs[i]) == Latest(xs, key, val, k).value
                        && forall j :: i < j < |xs| ==> key(xs[j]) != Some(k)
  {
    var n := |xs| - 1;
    if key(xs[n]) != Some(k) {
      var init := xs[..n];
      LatestIsLast(init, key, val, k);
      var i :| 0 <= i < |init| && key(init[i]) == Some(k) && val(init[i]) == Latest(init, key, val, k).value
               && forall j :: i < j < |init| ==> key(init[j]) != Some(k);
      assert xs[i] == init[i];
      forall j | i < j < |xs| ensures key(xs[j]) != Some(k) {
        if j < n {
          assert xs[j] == init[j];
        }
      }
    }
  }

  /** Looking a key up in the assigned dict gives the last value assigned to it. */
  lemma GetAssigned<T, V>(xs: seq<T>, key: T -> Option<string>, val: T -> V, k: string)
    ensures Get(Assigned(xs, key, val), k) == Latest(xs, key, val, k)
  {
    var d := Assigned(xs, key, val);
    FirstSeenDistinct(xs, key);
    if k in FirstSeen(xs, key) {
      var j :| 0 <= j < |d| && d[j].0 == k;
      GetAt(d, j);
    }
  }

  lemma LatestSnoc<T, V>(xs: seq<T>, x: T, key: T -> Option<string>, val: T -> V, k': string)
    ensures Latest(xs + [x], key, val, k') == if key(x) == Some(k') then Some(val(x)) else Latest(xs, key, val, k')
  {
    assert (xs + [x])[..|xs|] == xs;
  }

  /** Assigning a key seen before replaces its value in place. */
  lemma {:induction false} AssignedStepOld<T, V>(xs: seq<T>, x: T, key: T -> Option<string>, val: T -> V, k: string)
    requires key(x) == Some(k) && k in FirstSeen(xs, key)
    ensures Assigned(xs + [x], key, val) == Put(Assigned(xs, key, val), k, val(x))
  {
    var d := Assigned(xs, key, val);
    var ks := FirstSeen(xs, key);
    var xs' := xs + [x];
    FirstSeenDistinct(xs, key);
    FirstSeenSnoc(xs, x, key);
    var j :| 0 <= j < |d| && d[j].0 == k;
    PutAt(d, j, val(x));
    var lhs := Assigned(xs', key, val);
    var rhs := d[j := (k, val(x))];
    assert FirstSeen(xs', key) == ks;
    assert |lhs| == |rhs|;
    forall i | 0 <= i < |lhs| ensures lhs[i] == rhs[i] {
      assert lhs[i] == (ks[i], Latest(xs', key, val, ks[i]).value);
      LatestSnoc(xs, x, key, val, ks[i]);
      if i != j {
        assert ks[i] != k;
        assert rhs[i] == d[i] == (ks[i], Latest(xs, key, val, ks[i]).value);
      }
    }
  }

  /** Assigning a new key appends it with its value. */
  lemma {:induction false} AssignedStepNew<T, V>(xs: seq<T>, x: T, key: T -> Option<string>, val: T -> V, k: string)
    requires key(x) == Some(k) && k !in FirstSeen(xs, key)
    ensures Assigned(xs + [x], key, val) == Put(Assigned(xs, key, val), k, val(x))
  {
    var d := Assigned(xs, key, val);
    var ks := FirstSeen(xs, key);
    var xs' := xs + [x];
    FirstSeenSnoc(xs, x, key);
    PutAbsent(d, k, val(x));
    var lhs := Assigned(xs', key, val);
    var rhs := d + [(k, val(x))];
    assert FirstSeen(xs', key) == ks + [k];
    assert |lhs| == |rhs|;
    forall i | 0 <= i < |lhs| ensures lhs[i] == rhs[i] {
      LatestSnoc(xs, x, key, val, lhs[i].0);
      if i < |d| {
        assert ks[i] != k;
        assert lhs[i] == (ks[i], Latest(xs, key, val, ks[i]).value) == d[i];
      }
    }
  }

  /** An item without a key assigns nothing. */
  lemma AssignedSkip<T, V>(xs: seq<T>, x: T, key: T -> Option<string>, val: T -> V)
    requires key(x) == None
    ensures Assigned(xs + [x], key, val) == Assigned(xs, key, val)
  {
    FirstSeenSnoc(xs, x, key);
    forall k' ensures Latest(xs + [x], key, val, k') == Latest(xs, key, val, k') {
      LatestSnoc(xs, x, key, val, k');
    }
  }
}
