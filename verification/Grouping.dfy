// The counting sort the reductions use twice: by column in src/reduce/region_runs.cc (AlongY) and by
// occupied cell in src/reduce/occupancy.cc (Occupancy::Of). Both count, add the counts up, and place
// every value at its group's cursor.

module Grouping {

  // The values whose key is `key`, in the order they were given.
  ghost function Group<T>(keys: seq<nat>, values: seq<T>, key: nat): seq<T>
    requires |keys| == |values|
  {
    if keys == [] then []
    else
      var k := |keys| - 1;
      Group(keys[..k], values[..k], key) + if keys[k] == key then [values[k]] else []
  }

  // The groups of the first n keys, one after the other.
  ghost function Grouped<T>(keys: seq<nat>, values: seq<T>, n: nat): seq<T>
    requires |keys| == |values|
  {
    if n == 0 then [] else Grouped(keys, values, n - 1) + Group(keys, values, n - 1)
  }

  lemma GroupedStep<T>(keys: seq<nat>, values: seq<T>, n: nat)
    requires |keys| == |values|
    ensures Grouped(keys, values, n + 1) == Grouped(keys, values, n) + Group(keys, values, n)
  {}

  lemma GroupAppend<T>(keys: seq<nat>, values: seq<T>, key: nat, value: T, c: nat)
    requires |keys| == |values|
    ensures Group(keys + [key], values + [value], c)
         == Group(keys, values, c) + if key == c then [value] else []
  {
    assert (keys + [key])[..|keys|] == keys;
    assert (values + [value])[..|values|] == values;
  }

  lemma {:induction false} GroupPrefix<T>(keys: seq<nat>, values: seq<T>, k: nat, c: nat)
    requires |keys| == |values| && k <= |keys|
    ensures Group(keys[..k], values[..k], c) <= Group(keys, values, c)
    decreases |keys|
  {
    if k == |keys| {
      assert keys[..k] == keys && values[..k] == values;
    } else {
      var l := |keys| - 1;
      GroupPrefix(keys[..l], values[..l], k, c);
      assert keys[..l][..k] == keys[..k] && values[..l][..k] == values[..k];
    }
  }

  // Nothing is lost or repeated: the groups hold as many values as there are, when every key has one.
  lemma {:induction false} GroupedHoldsAll<T>(keys: seq<nat>, values: seq<T>, n: nat)
    requires |keys| == |values| && forall k :: 0 <= k < |keys| ==> keys[k] < n
    ensures |Grouped(keys, values, n)| == |values|
    decreases |keys|
  {
    if keys == [] {
      GroupedOfNothing(keys, values, n);
    } else {
      hide Grouped;
      var l := |keys| - 1;
      GroupedHoldsAll(keys[..l], values[..l], n);
      OneMoreGrouped(keys[..l], values[..l], keys[l], values[l], n);
      assert keys[..l] + [keys[l]] == keys && values[..l] + [values[l]] == values;
    }
  }

  lemma {:induction false} GroupedOfNothing<T>(keys: seq<nat>, values: seq<T>, n: nat)
    requires keys == [] && values == []
    ensures Grouped(keys, values, n) == []
  {
    if n > 0 { GroupedOfNothing(keys, values, n - 1); }
  }

  lemma {:induction false} OneMoreGrouped<T>(keys: seq<nat>, values: seq<T>, key: nat, value: T, n: nat)
    requires |keys| == |values|
    ensures |Grouped(keys + [key], values + [value], n)| == |Grouped(keys, values, n)| + if key < n then 1 else 0
  {
    if n > 0 {
      OneMoreGrouped(keys, values, key, value, n - 1);
      GroupAppend(keys, values, key, value, n - 1);
      hide Group;
    }
  }

  // What is in a group, and in what order.
  lemma {:induction false} InGroup<T>(keys: seq<nat>, values: seq<T>, key: nat, value: T)
    requires |keys| == |values|
    ensures value in Group(keys, values, key) <==> exists k :: 0 <= k < |keys| && keys[k] == key && values[k] == value
    decreases |keys|
  {
    if keys == [] {
    } else {
      var l := |keys| - 1;
      InGroup(keys[..l], values[..l], key, value);
      if k :| 0 <= k < |keys| && keys[k] == key && values[k] == value {
        if k < l { assert keys[..l][k] == key && values[..l][k] == value; }
      }
    }
  }

  lemma {:induction false} GroupedAscends<T>(keys: seq<nat>, values: seq<T>, a: nat, b: nat)
    requires |keys| == |values| && a <= b
    ensures Grouped(keys, values, a) <= Grouped(keys, values, b)
  {
    if a < b { GroupedAscends(keys, values, a, b - 1); }
  }

  // Group k is the stretch of the whole from its offset to the next.
  lemma GroupIsAStretch<T>(keys: seq<nat>, values: seq<T>, k: nat, n: nat)
    requires |keys| == |values| && k < n
    ensures |Grouped(keys, values, k)| <= |Grouped(keys, values, k + 1)| <= |Grouped(keys, values, n)|
    ensures Grouped(keys, values, n)[|Grouped(keys, values, k)|..|Grouped(keys, values, k + 1)|]
         == Group(keys, values, k)
  {
    GroupedAscends(keys, values, k + 1, n);
  }

  // Where key c's values begin in the whole, and how many of the first k values have that key.
  ghost function Start<T>(keys: seq<nat>, values: seq<T>, c: nat): nat
    requires |keys| == |values|
  {
    |Grouped(keys, values, c)|
  }

  ghost function Size<T>(keys: seq<nat>, values: seq<T>, k: nat, c: nat): nat
    requires k <= |keys| == |values|
  {
    |Group(keys[..k], values[..k], c)|
  }

  lemma SizeStep<T>(keys: seq<nat>, values: seq<T>, k: nat, c: nat)
    requires k < |keys| == |values|
    ensures Size(keys, values, 0, c) == 0
    ensures Size(keys, values, k + 1, c) == Size(keys, values, k, c) + if keys[k] == c then 1 else 0
    ensures Group(keys[..k + 1], values[..k + 1], c)
         == Group(keys[..k], values[..k], c) + if keys[k] == c then [values[k]] else []
  {
    assert keys[..k + 1] == keys[..k] + [keys[k]] && values[..k + 1] == values[..k] + [values[k]];
    GroupAppend(keys[..k], values[..k], keys[k], values[k], c);
  }

  lemma StartStep<T>(keys: seq<nat>, values: seq<T>, c: nat)
    requires |keys| == |values|
    ensures Start(keys, values, c + 1) == Start(keys, values, c) + Size(keys, values, |keys|, c)
  {
    assert keys[..|keys|] == keys && values[..|keys|] == values;
  }

  // How many values each key has, added up.
  method Offsets<T>(keys: seq<nat>, values: seq<T>, n: nat) returns (offsets: seq<nat>)
    requires |keys| == |values| && forall k :: 0 <= k < |keys| ==> keys[k] < n
    ensures |offsets| == n + 1 && forall c :: 0 <= c <= n ==> offsets[c] == Start(keys, values, c)
  {
    offsets := seq(n + 1, _ => 0);
    assert forall c :: 0 <= c < n ==> Size(keys, values, 0, c) == 0;
    assert Start(keys, values, 0) == 0;
    hide Size, Start;
    for k := 0 to |keys|
      invariant |offsets| == n + 1 && offsets[0] == 0
      invariant forall i :: 1 <= i <= n ==> offsets[i] == Size(keys, values, k, i - 1)
    {
      forall c | 0 <= c < n
        ensures Size(keys, values, k + 1, c) == Size(keys, values, k, c) + if keys[k] == c then 1 else 0
      {
        SizeStep(keys, values, k, c);
      }
      offsets := offsets[keys[k] + 1 := offsets[keys[k] + 1] + 1];
    }
    for c := 0 to n
      invariant |offsets| == n + 1
      invariant forall i :: 0 <= i <= c ==> offsets[i] == Start(keys, values, i)
      invariant forall i :: c < i <= n ==> offsets[i] == Size(keys, values, |keys|, i - 1)
    {
      StartStep(keys, values, c);
      offsets := offsets[c + 1 := offsets[c + 1] + offsets[c]];
    }
  }

  // Key c's values among the first `done` are in place, and the next of them goes to `at`.
  ghost predicate Placed<T>(keys: seq<nat>, values: seq<T>, done: nat, c: nat, at: nat, sorted: seq<T>)
    requires done <= |keys| == |values|
  {
    && at == Start(keys, values, c) + Size(keys, values, done, c)
    && at <= |sorted|
    && sorted[Start(keys, values, c)..at] == Group(keys[..done], values[..done], c)
  }

  // There is room in every group for what is still to come.
  lemma Room<T>(keys: seq<nat>, values: seq<T>, done: nat, c: nat, n: nat)
    requires done <= |keys| == |values| && c < n && forall k :: 0 <= k < |keys| ==> keys[k] < n
    ensures Start(keys, values, c) + Size(keys, values, done, c) <= Start(keys, values, c + 1) <= |values|
  {
    GroupPrefix(keys, values, done, c);
    GroupIsAStretch(keys, values, c, n);
    GroupedHoldsAll(keys, values, n);
  }

  lemma PlaceOwn<T>(keys: seq<nat>, values: seq<T>, k: nat, at: nat, sorted: seq<T>, n: nat)
    requires k < |keys| == |values| == |sorted| && forall i :: 0 <= i < |keys| ==> keys[i] < n
    requires Placed(keys, values, k, keys[k], at, sorted)
    ensures at < |sorted| && Placed(keys, values, k + 1, keys[k], at + 1, sorted[at := values[k]])
  {
    var c := keys[k];
    SizeStep(keys, values, k, c);
    Room(keys, values, k + 1, c, n);
    assert at < |sorted|;
    var first := Start(keys, values, c);
    assert sorted[at := values[k]][first..at + 1] == sorted[first..at] + [values[k]];
  }

  lemma PlaceOther<T>(keys: seq<nat>, values: seq<T>, k: nat, c: nat, mine: nat, at: nat, sorted: seq<T>, n: nat)
    requires k < |keys| == |values| == |sorted| && forall i :: 0 <= i < |keys| ==> keys[i] < n
    requires c < n && c != keys[k] && at < |sorted|
    requires Placed(keys, values, k, c, mine, sorted)
    requires Placed(keys, values, k + 1, keys[k], at + 1, sorted[at := values[k]])
    ensures Placed(keys, values, k + 1, c, mine, sorted[at := values[k]])
  {
    hide Start, Size, Group, Grouped;
    SizeStep(keys, values, k, c);
    SizeStep(keys, values, k, keys[k]);
    Room(keys, values, k, c, n);
    Room(keys, values, k + 1, keys[k], n);
    if c < keys[k] { StartsAscend(keys, values, c + 1, keys[k]); } else { StartsAscend(keys, values, keys[k] + 1, c); }
    OtherStretch(sorted, at, values[k], Start(keys, values, c), mine);
  }

  lemma OtherStretch<T>(s: seq<T>, at: nat, x: T, first: nat, last: nat)
    requires at < |s| && first <= last <= |s| && (at < first || last <= at)
    ensures s[at := x][first..last] == s[first..last]
  {}

  lemma StartsAscend<T>(keys: seq<nat>, values: seq<T>, a: nat, b: nat)
    requires |keys| == |values| && a <= b
    ensures Start(keys, values, a) <= Start(keys, values, b)
  {
    GroupedAscends(keys, values, a, b);
  }

  // The values sorted by key, stably, and where each key's begin.
  method GroupByKey<T>(keys: seq<nat>, values: seq<T>, n: nat) returns (offsets: seq<nat>, sorted: seq<T>)
    requires |keys| == |values| && forall k :: 0 <= k < |keys| ==> keys[k] < n
    ensures sorted == Grouped(keys, values, n)
    ensures |offsets| == n + 1 && forall c :: 0 <= c <= n ==> offsets[c] == Start(keys, values, c)
  {
    offsets := Offsets(keys, values, n);
    var cursor := offsets[..n];
    sorted := values;
    NonePlaced(keys, values, cursor, sorted, n);
    hide Placed, Start, Size, Group, Grouped;
    for k := 0 to |keys|
      invariant |cursor| == n && |sorted| == |values|
      invariant forall c :: 0 <= c < n ==> Placed(keys, values, k, c, cursor[c], sorted)
    {
      var key := keys[k];
      var at := cursor[key];
      PlaceOwn(keys, values, k, at, sorted, n);
      forall c | 0 <= c < n && c != key
        ensures Placed(keys, values, k + 1, c, cursor[c], sorted[at := values[k]])
      {
        PlaceOther(keys, values, k, c, cursor[c], at, sorted, n);
      }
      sorted := sorted[at := values[k]];
      cursor := cursor[key := at + 1];
    }
    AllPlaced(keys, values, n, n, cursor, sorted);
    Whole(keys, values, n, sorted);
  }

  lemma NonePlaced<T>(keys: seq<nat>, values: seq<T>, cursor: seq<nat>, sorted: seq<T>, n: nat)
    requires |keys| == |values| == |sorted| && |cursor| == n && forall k :: 0 <= k < |keys| ==> keys[k] < n
    requires forall c :: 0 <= c < n ==> cursor[c] == Start(keys, values, c)
    ensures forall c :: 0 <= c < n ==> Placed(keys, values, 0, c, cursor[c], sorted)
  {
    forall c | 0 <= c < n ensures Placed(keys, values, 0, c, cursor[c], sorted) {
      Room(keys, values, 0, c, n);
    }
  }

  lemma Whole<T>(keys: seq<nat>, values: seq<T>, n: nat, sorted: seq<T>)
    requires |keys| == |values| == |sorted| && forall k :: 0 <= k < |keys| ==> keys[k] < n
    requires Start(keys, values, n) <= |sorted| && sorted[..Start(keys, values, n)] == Grouped(keys, values, n)
    ensures sorted == Grouped(keys, values, n)
  {
    GroupedHoldsAll(keys, values, n);
    assert sorted[..|sorted|] == sorted;
  }

  lemma {:induction false} AllPlaced<T>(keys: seq<nat>, values: seq<T>, n: nat, c: nat, cursor: seq<nat>,
                                        sorted: seq<T>)
    requires |keys| == |values| == |sorted| && c <= n == |cursor| && forall k :: 0 <= k < |keys| ==> keys[k] < n
    requires forall i :: 0 <= i < n ==> Placed(keys, values, |keys|, i, cursor[i], sorted)
    ensures Start(keys, values, c) <= |sorted| && sorted[..Start(keys, values, c)] == Grouped(keys, values, c)
  {
    if c > 0 {
      AllPlaced(keys, values, n, c - 1, cursor, sorted);
      assert Placed(keys, values, |keys|, c - 1, cursor[c - 1], sorted);
      StartStep(keys, values, c - 1);
      assert keys[..|keys|] == keys && values[..|keys|] == values;
      var a, b := Start(keys, values, c - 1), Start(keys, values, c);
      assert sorted[..b] == sorted[..a] + sorted[a..b];
    }
  }
}
