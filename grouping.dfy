/** The "group by key, keep input order" pattern the source writes three times with
    `if k not in d: d[k] = []` (or `setdefault`) followed by `d[k].append(v)`.
    `Grouped` is its reference definition: one entry per distinct key in order of first
    appearance, holding, in input order, the values of the items with that key. */
module Grouping {
  import opened Values
  import opened Dicts

  /** The distinct keys of `xs`, in order of first appearance; items whose key is `None`
      contribute nothing. */
  function FirstSeen<T>(xs: seq<T>, key: T -> Option<string>): (ks: seq<string>)
  {
    if xs == [] then []
    else
      var p := FirstSeen(xs[..|xs| - 1], key);
      match key(xs[|xs| - 1])
      case None => p
      case Some(k) => if k in p then p else p + [k]
  }

  /** The values of the items whose key is `k`, in input order. */
  function GroupOf<T, V>(xs: seq<T>, key: T -> Option<string>, val: T -> V, k: string): (g: seq<V>)
    ensures |g| <= |xs|
  {
    if xs == [] then []
    else
      GroupOf(xs[..|xs| - 1], key, val, k)
      + (if key(xs[|xs| - 1]) == Some(k) then [val(xs[|xs| - 1])] else [])
  }

  function Grouped<T, V>(xs: seq<T>, key: T -> Option<string>, val: T -> V): (d: Dict<seq<V>>)
  {
    var ks := FirstSeen(xs, key);
    seq(|ks|, i requires 0 <= i < |ks| => (ks[i], GroupOf(xs, key, val, ks[i])))
  }

  lemma {:induction false} FirstSeenDistinct<T>(xs: seq<T>, key: T -> Option<string>)
    ensures Distinct(FirstSeen(xs, key))
  {
    if xs != [] {
      FirstSeenDistinct(xs[..|xs| - 1], key);
    }
  }

  /** The keys of `FirstSeen` are exactly the keys the items carry. */
  lemma {:induction false} FirstSeenMembers<T>(xs: seq<T>, key: T -> Option<string>)
    ensures forall k :: k in FirstSeen(xs, key) <==> exists i :: 0 <= i < |xs| && key(xs[i]) == Some(k)
  {
    if xs != [] {
      var init := xs[..|xs| - 1];
      FirstSeenMembers(init, key);
      forall k ensures (exists i :: 0 <= i < |xs| && key(xs[i]) == Some(k))
                       <==> (exists i :: 0 <= i < |init| && key(init[i]) == Some(k)) || key(xs[|xs| - 1]) == Some(k)
      {
        if exists i :: 0 <= i < |xs| && key(xs[i]) == Some(k) {
          var i :| 0 <= i < |xs| && key(xs[i]) == Some(k);
          if i < |init| { assert init[i] == xs[i]; }
        }
        if exists i :: 0 <= i < |init| && key(init[i]) == Some(k) {
          var i :| 0 <= i < |init| && key(init[i]) == Some(k);
          assert xs[i] == init[i];
        }
      }
    }
  }

  /** A key that never appears has an empty group. */
  lemma {:induction false} GroupOfAbsent<T, V>(xs: seq<T>, key: T -> Option<string>, val: T -> V, k: string)
    requires k !in FirstSeen(xs, key)
    ensures GroupOf(xs, key, val, k) == []
  {
    if xs != [] {
      var init := xs[..|xs| - 1];
      assert FirstSeen(init, key) <= FirstSeen(xs, key) by {
        match key(xs[|xs| - 1]) {
          case None =>
          case Some(k') =>
        }
      }
      GroupOfAbsent(init, key, val, k);
    }
  }

  lemma GroupedKeys<T, V>(xs: seq<T>, key: T -> Option<string>, val: T -> V)
    ensures Keys(Grouped(xs, key, val)) == FirstSeen(xs, key)
  {
  }

  /** `Grouped` read as a dict: a key that occurs maps to its group, any other key is absent. */
  lemma GetGrouped<T, V>(xs: seq<T>, key: T -> Option<string>, val: T -> V, k: string)
    ensures Get(Grouped(xs, key, val), k)
            == if k in FirstSeen(xs, key) then Some(GroupOf(xs, key, val, k)) else None
  {
    var d := Grouped(xs, key, val);
    GroupedKeys(xs, key, val);
    FirstSeenDistinct(xs, key);
    if k in FirstSeen(xs, key) {
      var j :| 0 <= j < |d| && d[j].0 == k;
      GetAt(d, j);
    }
  }

  lemma GroupOfSnoc<T, V>(xs: seq<T>, x: T, key: T -> Option<string>, val: T -> V, k': string)
    ensures GroupOf(xs + [x], key, val, k')
            == GroupOf(xs, key, val, k') + (if key(x) == Some(k') then [val(x)] else [])
  {
    assert (xs + [x])[..|xs|] == xs;
  }

  lemma FirstSeenSnoc<T>(xs: seq<T>, x: T, key: T -> Option<string>)
    ensures FirstSeen(xs + [x], key)
            == match key(x)
               case None => FirstSeen(xs, key)
               case Some(k) => if k in FirstSeen(xs, key) then FirstSeen(xs, key) else FirstSeen(xs, key) + [k]
  {
    assert (xs + [x])[..|xs|] == xs;
  }

  /** One more item whose key is already grouped: its value is appended to that group. */
  lemma {:induction false} GroupedStepOld<T, V>(xs: seq<T>, x: T, key: T -> Option<string>, val: T -> V, k: string)
    requires key(x) == Some(k) && k in Keys(Grouped(xs, key, val))
    ensures var d := Grouped(xs, key, val);
            Grouped(xs + [x], key, val) == Put(d, k, Get(d, k).value + [val(x)])
  {
    var d := Grouped(xs, key, val);
    var ks := FirstSeen(xs, key);
    var xs' := xs + [x];
    GroupedKeys(xs, key, val);
    FirstSeenDistinct(xs, key);
    FirstSeenSnoc(xs, x, key);
    var j :| 0 <= j < |d| && d[j].0 == k;
    GetAt(d, j);
    PutAt(d, j, Get(d, k).value + [val(x)]);
    var lhs := Grouped(xs', key, val);
    var rhs := d[j := (k, Get(d, k).value + [val(x)])];
    assert |lhs| == |rhs|;
    assert FirstSeen(xs', key) == ks;
    forall i | 0 <= i < |lhs| ensures lhs[i] == rhs[i] {
      assert lhs[i] == (ks[i], GroupOf(xs', key, val, ks[i]));
      GroupOfSnoc(xs, x, key, val, ks[i]);
      if i != j {
        assert ks[i] != k;
        assert GroupOf(xs', key, val, ks[i]) == GroupOf(xs, key, val, ks[i]);
        assert rhs[i] == d[i] == (ks[i], GroupOf(xs, key, val, ks[i]));
      } else {
        assert ks[i] == k;
        assert d[j].1 == GroupOf(xs, key, val, k);
        assert GroupOf(xs', key, val, k) == GroupOf(xs, key, val, k) + [val(x)];
        assert rhs[i] == (k, d[j].1 + [val(x)]);
      }
    }
  }

  /** One more item with a new key: the key is added with an empty list, then the value is
      appended to it. */
  lemma {:induction false} GroupedStepNew<T, V>(xs: seq<T>, x: T, key: T -> Option<string>, val: T -> V, k: string)
    requires key(x) == Some(k) && k !in Keys(Grouped(xs, key, val))
    ensures var d' := Grouped(xs, key, val) + [(k, [])];
            k in Keys(d') &&
            Grouped(xs + [x], key, val) == Put(d', k, Get(d', k).value + [val(x)])
  {
    var d := Grouped(xs, key, val);
    var ks := FirstSeen(xs, key);
    var xs' := xs + [x];
    GroupedKeys(xs, key, val);
    FirstSeenDistinct(xs, key);
    FirstSeenSnoc(xs, x, key);
    GroupOfAbsent(xs, key, val, k);
    var d' := d + [(k, [])];
    KeysAppend(d, k, []);
    assert Keys(d') == ks + [k];
    GetAt(d', |d|);
    PutAt(d', |d|, Get(d', k).value + [val(x)]);
    var lhs := Grouped(xs', key, val);
    var rhs := d'[|d| := (k, [val(x)])];
    assert |lhs| == |rhs|;
    assert FirstSeen(xs', key) == ks + [k];
    forall i | 0 <= i < |lhs| ensures lhs[i] == rhs[i] {
      if i < |d| {
        assert lhs[i] == (ks[i], GroupOf(xs', key, val, ks[i]));
        GroupOfSnoc(xs, x, key, val, ks[i]);
        assert ks[i] != k;
        assert GroupOf(xs', key, val, ks[i]) == GroupOf(xs, key, val, ks[i]);
        assert rhs[i] == d[i] == (ks[i], GroupOf(xs, key, val, ks[i]));
      } else {
        assert lhs[i] == (k, GroupOf(xs', key, val, k));
        GroupOfSnoc(xs, x, key, val, k);
        assert GroupOf(xs', key, val, k) == [val(x)];
      }
    }
  }

  /** An item without a key changes nothing. */
  lemma GroupedSkip<T, V>(xs: seq<T>, x: T, key: T -> Option<string>, val: T -> V)
    requires key(x) == None
    ensures Grouped(xs + [x], key, val) == Grouped(xs, key, val)
  {
    var xs' := xs + [x];
    assert xs'[..|xs'| - 1] == xs;
    forall k' ensures GroupOf(xs', key, val, k') == GroupOf(xs, key, val, k') {
    }
  }

  /** The number of values held across all groups. */
  function Total<V>(d: Dict<seq<V>>): nat {
    if d == [] then 0 else |d[0].1| + Total(d[1..])
  }

  /** The number of items that carry a key. */
  function CountKeyed<T>(xs: seq<T>, key: T -> Option<string>): (n: nat)
    ensures n <= |xs|
  {
    if xs == [] then 0
    else CountKeyed(xs[..|xs| - 1], key) + (if key(xs[|xs| - 1]).Some? then 1 else 0)
  }

  function SumGroups<T, V>(ks: seq<string>, xs: seq<T>, key: T -> Option<string>, val: T -> V): nat {
    if ks == [] then 0 else |GroupOf(xs, key, val, ks[0])| + SumGroups(ks[1..], xs, key, val)
  }

  lemma {:induction false} SumGroupsStep<T, V>(ks: seq<string>, xs: seq<T>, x: T, key: T -> Option<string>, val: T -> V)
    requires Distinct(ks)
    ensures SumGroups(ks, xs + [x], key, val)
            == SumGroups(ks, xs, key, val) + (if key(x).Some? && key(x).value in ks then 1 else 0)
  {
    var xs' := xs + [x];
    assert xs'[..|xs'| - 1] == xs;
    if ks != [] {
      assert Distinct(ks[1..]);
      assert key(x).Some? && key(x).value in ks ==> (key(x).value == ks[0] || key(x).value in ks[1..]);
      assert key(x).Some? && key(x).value == ks[0] ==> key(x).value !in ks[1..];
      SumGroupsStep(ks[1..], xs, x, key, val);
    }
  }

  /** Summing the group sizes over any distinct list of keys that covers every key the
      items carry counts every keyed item exactly once. */
  lemma {:induction false} SumGroupsCover<T, V>(ks: seq<string>, xs: seq<T>, key: T -> Option<string>, val: T -> V)
    requires Distinct(ks)
    requires forall i :: 0 <= i < |xs| && key(xs[i]).Some? ==> key(xs[i]).value in ks
    ensures SumGroups(ks, xs, key, val) == CountKeyed(xs, key)
  {
    if xs == [] {
      SumGroupsEmpty(ks, key, val);
    } else {
      var init := xs[..|xs| - 1];
      var x := xs[|xs| - 1];
      assert xs == init + [x];
      forall i | 0 <= i < |init| && key(init[i]).Some? ensures key(init[i]).value in ks {
        assert init[i] == xs[i];
      }
      SumGroupsCover(ks, init, key, val);
      SumGroupsStep(ks, init, x, key, val);
    }
  }

  lemma {:induction false} SumGroupsEmpty<T, V>(ks: seq<string>, key: T -> Option<string>, val: T -> V)
    ensures SumGroups(ks, [], key, val) == 0
  {
    if ks != [] {
      SumGroupsEmpty(ks[1..], key, val);
    }
  }

  /** Every keyed item lands in exactly one group: the group sizes add up to the number of
      keyed items. */
  lemma SumGroupsFirstSeen<T, V>(xs: seq<T>, key: T -> Option<string>, val: T -> V)
    ensures SumGroups(FirstSeen(xs, key), xs, key, val) == CountKeyed(xs, key)
  {
    FirstSeenDistinct(xs, key);
    FirstSeenMembers(xs, key);
    SumGroupsCover(FirstSeen(xs, key), xs, key, val);
  }

  lemma {:induction false} TotalIsSumGroups<T, V>(d: Dict<seq<V>>, ks: seq<string>, xs: seq<T>, key: T -> Option<string>, val: T -> V)
    requires |d| == |ks|
    requires forall i :: 0 <= i < |d| ==> d[i] == (ks[i], GroupOf(xs, key, val, ks[i]))
    ensures Total(d) == SumGroups(ks, xs, key, val)
  {
    if d != [] {
      TotalIsSumGroups(d[1..], ks[1..], xs, key, val);
    }
  }

  /** The groups of `Grouped` together hold exactly one value per keyed item. */
  lemma GroupedTotal<T, V>(xs: seq<T>, key: T -> Option<string>, val: T -> V)
    ensures Total(Grouped(xs, key, val)) == CountKeyed(xs, key)
  {
    TotalIsSumGroups(Grouped(xs, key, val), FirstSeen(xs, key), xs, key, val);
    SumGroupsFirstSeen(xs, key, val);
  }

  /** Every keyed item's value is in the group of its own key. */
  lemma {:induction false} InOwnGroup<T, V>(xs: seq<T>, key: T -> Option<string>, val: T -> V, i: int)
    requires 0 <= i < |xs| && key(xs[i]).Some?
    ensures val(xs[i]) in GroupOf(xs, key, val, key(xs[i]).value)
  {
    var init := xs[..|xs| - 1];
    if i < |xs| - 1 {
      assert init[i] == xs[i];
      InOwnGroup(init, key, val, i);
    }
  }

  /** Every value in a group comes from an item carrying that group's key. */
  lemma {:induction false} GroupOfMembers<T, V>(xs: seq<T>, key: T -> Option<string>, val: T -> V, k: string, v: V)
    requires v in GroupOf(xs, key, val, k)
    ensures exists i :: 0 <= i < |xs| && key(xs[i]) == Some(k) && val(xs[i]) == v
  {
    var init := xs[..|xs| - 1];
    if v in GroupOf(init, key, val, k) {
      GroupOfMembers(init, key, val, k, v);
      var i :| 0 <= i < |init| && key(init[i]) == Some(k) && val(init[i]) == v;
      assert xs[i] == init[i];
    } else {
      assert key(xs[|xs| - 1]) == Some(k) && val(xs[|xs| - 1]) == v;
    }
  }

  /** When every item carries a key, every item is counted. */
  lemma {:induction false} CountKeyedAll<T>(xs: seq<T>, key: T -> Option<string>)
    requires forall i :: 0 <= i < |xs| ==> key(xs[i]).Some?
    ensures CountKeyed(xs, key) == |xs|
  {
    if xs != [] {
      var init := xs[..|xs| - 1];
      assert forall i :: 0 <= i < |init| ==> init[i] == xs[i];
      CountKeyedAll(init, key);
    }
  }
}
