/** Merging the measurements of several containers, wca/metrics.py: hierarchical counters are added up leaf by
    leaf. The merge operation is the default one, the sum; numbers are exact. */
module Metrics {
  import opened Dicts

  /** A metric value with its levels, such as cpu or memory node. */
  datatype Tree<V> = Leaf(value: V) | Level(d: Dict<string, Tree<V>>)

  /** Exactly `n` levels everywhere. */
  ghost predicate HasDepth<V>(t: Tree<V>, n: nat) {
    if n == 0 then t.Leaf? else t.Level? && LevelHasDepth(t.d, n)
  }

  ghost predicate LevelHasDepth<V>(d: Dict<string, Tree<V>>, n: nat)
    requires n > 0
  {
    d.Valid() && forall k :: k in d.at ==> HasDepth(d.at[k], n - 1)
  }

  type Path = seq<string>

  function At<V>(t: Tree<V>, path: Path): Option<V> {
    if t.Leaf? then if path == [] then Some(t.value) else None
    else if path == [] || path[0] !in t.d.at then None
    else At(t.d.at[path[0]], path[1..])
  }

  /** Every dictionary of the tree is one. */
  ghost predicate Sane<V>(t: Tree<V>) {
    t.Level? ==> t.d.Valid() && forall k :: k in t.d.at ==> Sane(t.d.at[k])
  }

  // ----- Collecting the values of every leaf -----

  type Lists = Dict<string, Tree<seq<real>>>
  type Counters = Dict<string, Tree<real>>

  function ListAt(lists: Lists, key: string): seq<real> {
    if key in lists.at && lists.at[key].Leaf? then lists.at[key].value else []
  }

  function LevelAt(lists: Lists, key: string): Lists {
    if key in lists.at && lists.at[key].Level? then lists.at[key].d else EmptyDict()
  }

  /** `_list_leveled_metrics`: every value of `added` is appended to the list at its leaf. */
  ghost function Listed(before: Lists, added: Counters, n: nat, k: nat): Lists
    requires n > 0 && LevelHasDepth(added, n) && k <= |added.keys|
    decreases n, k
  {
    if k == 0 then before
    else
      var prior := Listed(before, added, n, k - 1);
      var key := added.keys[k - 1];
      if key !in added.at then prior else prior.Put(key, ListedKey(prior, key, added.at[key], n))
  }

  ghost function ListedKey(before: Lists, key: string, added: Tree<real>, n: nat): Tree<seq<real>>
    requires n > 0 && HasDepth(added, n - 1)
    decreases n, 0
  {
    if n == 1 then Leaf(ListAt(before, key) + [added.value])
    else Level(Listed(LevelAt(before, key), added.d, n - 1, |added.d.keys|))
  }

  method ListKey(before: Lists, key: string, added: Tree<real>, n: nat) returns (r: Tree<seq<real>>)
    requires n > 0 && HasDepth(added, n - 1)
    ensures r == ListedKey(before, key, added, n)
    decreases n, 0
  {
    if n == 1 {
      r := Leaf(ListAt(before, key) + [added.value]);
    } else {
      var level := ListLeveledMetrics(LevelAt(before, key), added.d, n - 1);
      r := Level(level);
    }
  }

  method ListLeveledMetrics(before: Lists, added: Counters, n: nat) returns (r: Lists)
    requires n > 0 && LevelHasDepth(added, n)
    ensures r == Listed(before, added, n, |added.keys|)
    decreases n, 1
  {
    hide ListedKey;
    r := before;
    for k := 0 to |added.keys|
      invariant r == Listed(before, added, n, k)
    {
      var key := added.keys[k];
      assert key in added.at;
      var value := ListKey(r, key, added.at[key], n);
      r := r.Put(key, value);
    }
  }

  // ----- Adding them up -----

  function Sum(s: seq<real>): real {
    if s == [] then 0.0 else Sum(s[..|s| - 1]) + s[|s| - 1]
  }

  /** `_operation_on_leveled_metric` with the sum. */
  ghost function Summed(lists: Lists, k: nat): Counters
    requires k <= |lists.keys|
    decreases lists, k
  {
    if k == 0 then EmptyDict()
    else
      var key := lists.keys[k - 1];
      if key !in lists.at then Summed(lists, k - 1) else Summed(lists, k - 1).Put(key, SummedKey(lists.at[key]))
  }

  ghost function SummedKey(t: Tree<seq<real>>): Tree<real>
    decreases t, 0
  {
    match t
    case Leaf(values) => Leaf(Sum(values))
    case Level(d) => Level(Summed(d, |d.keys|))
  }

  method SumKey(t: Tree<seq<real>>) returns (r: Tree<real>)
    requires Sane(t)
    ensures r == SummedKey(t)
    decreases t, 0
  {
    match t
    case Leaf(values) =>
      r := Leaf(Sum(values));
    case Level(d) =>
      var level := OperationOnLeveledMetric(d);
      r := Level(level);
  }

  method OperationOnLeveledMetric(lists: Lists) returns (r: Counters)
    requires Sane(Level(lists))
    ensures r == Summed(lists, |lists.keys|)
    decreases lists, 0
  {
    hide SummedKey;
    r := EmptyDict();
    for k := 0 to |lists.keys|
      invariant r == Summed(lists, k)
    {
      var key := lists.keys[k];
      assert key in lists.at;
      var value := SumKey(lists.at[key]);
      r := r.Put(key, value);
    }
  }

  // ----- Every leaf on its own -----

  /** Listing treats every key on its own. */
  lemma {:induction false} ListedAtKey(before: Lists, added: Counters, n: nat, k: nat, key: string)
    requires n > 0 && LevelHasDepth(added, n) && k <= |added.keys|
    ensures var r := Listed(before, added, n, k);
      if key in added.keys[..k] then
        key in added.at && key in r.at && r.at[key] == ListedKey(before, key, added.at[key], n)
      else (key in r.at <==> key in before.at) && (key in r.at ==> r.at[key] == before.at[key])
  {
    hide ListedKey;
    if k > 0 {
      ListedAtKey(before, added, n, k - 1, key);
      var last := added.keys[k - 1];
      assert added.keys[..k] == added.keys[..k - 1] + [last];
      assert last in added.keys && last !in added.keys[..k - 1];
      if key == last {
        SameKey(Listed(before, added, n, k - 1), before, key, added.at[key], n);
      }
    }
  }

  ghost predicate SameAt(a: Lists, b: Lists, key: string) {
    (key in a.at <==> key in b.at) && (key in a.at ==> a.at[key] == b.at[key])
  }

  lemma NextIsUntouched(before: Lists, added: Counters, n: nat, k: nat)
    requires n > 0 && LevelHasDepth(added, n) && k < |added.keys|
    ensures SameAt(Listed(before, added, n, k), before, added.keys[k])
  {
    hide Listed;
    hide ListedKey;
    ListedAtKey(before, added, n, k, added.keys[k]);
    assert added.keys[k] !in added.keys[..k];
  }

  lemma SameKey(a: Lists, b: Lists, key: string, added: Tree<real>, n: nat)
    requires n > 0 && HasDepth(added, n - 1)
    requires (key in a.at <==> key in b.at) && (key in a.at ==> a.at[key] == b.at[key])
    ensures ListedKey(a, key, added, n) == ListedKey(b, key, added, n)
  {
    hide Listed;
  }

  /** A listed dictionary holds lists at the same depth. */
  lemma {:induction false} ListedIsValid(before: Lists, added: Counters, n: nat, k: nat)
    requires n > 0 && before.Valid() && LevelHasDepth(added, n) && k <= |added.keys|
    ensures Listed(before, added, n, k).Valid()
  {
    hide ListedKey;
    if k > 0 {
      ListedIsValid(before, added, n, k - 1);
    }
  }

  lemma {:induction false} ListedHasDepth(before: Lists, added: Counters, n: nat)
    requires n > 0 && LevelHasDepth(before, n) && LevelHasDepth(added, n)
    ensures LevelHasDepth(Listed(before, added, n, |added.keys|), n)
    decreases n
  {
    hide Listed;
    var r := Listed(before, added, n, |added.keys|);
    ListedIsValid(before, added, n, |added.keys|);
    assert added.keys[..|added.keys|] == added.keys;
    forall key | key in r.at ensures HasDepth(r.at[key], n - 1) {
      ListedAtKey(before, added, n, |added.keys|, key);
      if key in added.keys && n > 1 {
        NothingHasDepth(n - 1);
        ListedHasDepth(LevelAt(before, key), added.at[key].d, n - 1);
      }
    }
  }

  lemma NothingHasDepth(n: nat)
    requires n > 0
    ensures LevelHasDepth<seq<real>>(EmptyDict(), n)
  {
  }

  /** One more value at the end of the list of a leaf. */
  function Appended(list: Option<seq<real>>, v: Option<real>): Option<seq<real>> {
    if v.None? then list else Some((if list.Some? then list.value else []) + [v.value])
  }

  lemma {:induction false} ListedAtPath(before: Lists, added: Counters, n: nat, path: Path)
    requires n > 0 && LevelHasDepth(before, n) && LevelHasDepth(added, n) && |path| == n
    ensures At(Level(Listed(before, added, n, |added.keys|)), path)
      == Appended(At(Level(before), path), At(Level(added), path))
    decreases n
  {
    hide Listed;
    var key := path[0];
    ListedAtKey(before, added, n, |added.keys|, key);
    assert added.keys[..|added.keys|] == added.keys;
    if key in added.at {
      assert key in added.keys && HasDepth(added.at[key], n - 1);
      if n > 1 {
        NothingHasDepth(n - 1);
        NothingAt(path[1..]);
        ListedAtPath(LevelAt(before, key), added.at[key].d, n - 1, path[1..]);
      } else {
        assert path[1..] == [];
      }
    }
  }

  lemma NothingAt(path: Path)
    ensures At(Level(EmptyDict<string, Tree<seq<real>>>()), path) == None
  {
  }

  lemma {:induction false} SummedAtKey(lists: Lists, k: nat, key: string)
    requires lists.Valid() && k <= |lists.keys|
    ensures var r := Summed(lists, k);
      r.Valid() && (key in r.at <==> key in lists.keys[..k])
      && (key in r.at ==> r.at[key] == SummedKey(lists.at[key]))
  {
    hide SummedKey;
    if k > 0 {
      SummedAtKey(lists, k - 1, key);
      assert lists.keys[..k] == lists.keys[..k - 1] + [lists.keys[k - 1]];
      assert lists.keys[k - 1] in lists.keys;
    }
  }

  /** Summing replaces the list of every leaf by its sum. */
  lemma {:induction false} SummedAtPath(t: Tree<seq<real>>, path: Path)
    requires Sane(t)
    ensures var list := At(t, path); At(SummedKey(t), path) == if list.None? then None else Some(Sum(list.value))
    decreases path
  {
    hide Summed;
    if t.Level? && path != [] {
      SummedAtKey(t.d, |t.d.keys|, path[0]);
      assert t.d.keys[..|t.d.keys|] == t.d.keys;
      if path[0] in t.d.at {
        SummedAtPath(t.d.at[path[0]], path[1..]);
      }
    }
  }

  lemma {:induction false} DepthIsSane<V>(t: Tree<V>, n: nat)
    requires HasDepth(t, n)
    ensures Sane(t)
    decreases n
  {
    if n > 0 {
      forall k | k in t.d.at ensures Sane(t.d.at[k]) {
        DepthIsSane(t.d.at[k], n - 1);
      }
    }
  }

  // ----- Merging the containers -----

  type Measurements = map<string, Tree<real>>

  /** Every container's value of the metric has the metric's number of levels. */
  ghost predicate HaveDepth(all: seq<Measurements>, name: string, n: nat) {
    forall i :: 0 <= i < |all| ==> name in all[i] ==> HasDepth(all[i][name], n)
  }

  /** The lists of a metric with levels, after the first `k` containers. */
  ghost function Gathered(all: seq<Measurements>, name: string, n: nat, k: nat): Lists
    requires n > 0 && HaveDepth(all, name, n) && k <= |all|
  {
    if k == 0 then EmptyDict()
    else
      var before := Gathered(all, name, n, k - 1);
      if name in all[k - 1] then Listed(before, all[k - 1][name].d, n, |all[k - 1][name].d.keys|) else before
  }

  /** What container `i` has at a leaf. */
  function ValueAt(m: Measurements, name: string, path: Path): Option<real> {
    if name in m then At(m[name], path) else None
  }

  /** The values of a leaf, container by container. */
  function Values(all: seq<Measurements>, name: string, path: Path, k: nat): seq<real>
    requires k <= |all|
  {
    if k == 0 then []
    else
      var v := ValueAt(all[k - 1], name, path);
      if v.None? then Values(all, name, path, k - 1) else Values(all, name, path, k - 1) + [v.value]
  }

  function Present(values: seq<real>): Option<seq<real>> { if values == [] then None else Some(values) }

  lemma {:induction false} GatheredAtPath(all: seq<Measurements>, name: string, n: nat, k: nat, path: Path)
    requires n > 0 && HaveDepth(all, name, n) && k <= |all| && |path| == n
    ensures LevelHasDepth(Gathered(all, name, n, k), n)
    ensures At(Level(Gathered(all, name, n, k)), path) == Present(Values(all, name, path, k))
  {
    hide Listed;
    hide At;
    if k > 0 {
      GatheredAtPath(all, name, n, k - 1, path);
      if name in all[k - 1] {
        var before := Gathered(all, name, n, k - 1);
        assert HasDepth(all[k - 1][name], n);
        ListedHasDepth(before, all[k - 1][name].d, n);
        ListedAtPath(before, all[k - 1][name].d, n, path);
        assert Level(all[k - 1][name].d) == all[k - 1][name];
      }
    } else {
      NothingHasDepth(n);
      NothingAt(path);
    }
  }

  /** The merged value of a metric that some container has. */
  ghost function MergedMetric(all: seq<Measurements>, name: string, n: nat): Tree<real>
    requires HaveDepth(all, name, n)
  {
    if n == 0 then Leaf(Sum(Values(all, name, [], |all|))) else Level(Summed(Gathered(all, name, n, |all|), |Gathered(all, name, n, |all|).keys|))
  }

  method MergeMetric(all: seq<Measurements>, name: string, n: nat) returns (r: Tree<real>)
    requires HaveDepth(all, name, n)
    ensures r == MergedMetric(all, name, n)
  {
    hide Listed;
    hide Summed;
    hide HasDepth;
    if n == 0 {
      var values := [];
      for k := 0 to |all|
        invariant values == Values(all, name, [], k)
      {
        if name in all[k] {
          LeafValue(all[k][name]);
          values := values + [all[k][name].value];
        }
      }
      r := Leaf(Sum(values));
    } else {
      var lists := GatherMetric(all, name, n);
      var level := OperationOnLeveledMetric(lists);
      r := Level(level);
    }
  }

  lemma LeafValue(t: Tree<real>)
    requires HasDepth(t, 0)
    ensures t.Leaf? && At(t, []) == Some(t.value)
  {
  }

  method GatherMetric(all: seq<Measurements>, name: string, n: nat) returns (lists: Lists)
    requires n > 0 && HaveDepth(all, name, n)
    ensures lists == Gathered(all, name, n, |all|) && Sane(Level(lists))
  {
    hide Listed;
    lists := EmptyDict();
    for k := 0 to |all|
      invariant lists == Gathered(all, name, n, k)
    {
      if name in all[k] {
        assert HasDepth(all[k][name], n);
        lists := ListLeveledMetrics(lists, all[k][name].d, n);
      }
    }
    GatheredHasDepth(all, name, n, |all|);
    DepthIsSane(Level(lists), n);
  }

  lemma {:induction false} GatheredHasDepth(all: seq<Measurements>, name: string, n: nat, k: nat)
    requires n > 0 && HaveDepth(all, name, n) && k <= |all|
    ensures LevelHasDepth(Gathered(all, name, n, k), n)
  {
    hide Listed;
    if k > 0 {
      GatheredHasDepth(all, name, n, k - 1);
      if name in all[k - 1] {
        assert HasDepth(all[k - 1][name], n);
        ListedHasDepth(Gathered(all, name, n, k - 1), all[k - 1][name].d, n);
      }
    } else {
      NothingHasDepth(n);
    }
  }

  ghost predicate SomeHas(all: seq<Measurements>, name: string) {
    exists i :: 0 <= i < |all| && name in all[i]
  }

  /** `merge_measurements`; `levels` gives the number of levels of every metric. */
  method MergeMeasurements(all: seq<Measurements>, levels: string -> nat) returns (r: Measurements)
    requires forall name :: HaveDepth(all, name, levels(name))
    ensures forall name :: name in r <==> SomeHas(all, name)
    ensures forall name :: name in r ==> r[name] == MergedMetric(all, name, levels(name))
  {
    hide HaveDepth;
    hide MergedMetric;
    var names: set<string> := {};
    for k := 0 to |all|
      invariant forall name :: name in names <==> exists i :: 0 <= i < k && name in all[i]
    {
      names := names + all[k].Keys;
    }
    r := map[];
    ghost var allNames := names;
    while names != {}
      invariant names <= allNames
      invariant forall name :: name in r <==> name in allNames && name !in names
      invariant forall name :: name in r ==> r[name] == MergedMetric(all, name, levels(name))
      decreases |names|
    {
      var name :| name in names;
      var merged := MergeMetric(all, name, levels(name));
      r := r[name := merged];
      names := names - {name};
    }
  }

  /** Every leaf of a merged metric is the sum over the containers that have it, and exists when one has it. */
  lemma MergedAtPath(all: seq<Measurements>, name: string, n: nat, path: Path)
    requires HaveDepth(all, name, n) && SomeHas(all, name) && |path| == n
    ensures var values := Values(all, name, path, |all|);
      At(MergedMetric(all, name, n), path) == if values == [] then None else Some(Sum(values))
  {
    hide Summed;
    hide Gathered;
    if n == 0 {
      assert path == [];
      var i :| 0 <= i < |all| && name in all[i];
      LeafValue(all[i][name]);
      SomeValue(all, name, path, |all|, i);
    } else {
      GatheredAtPath(all, name, n, |all|, path);
      var lists := Gathered(all, name, n, |all|);
      DepthIsSane(Level(lists), n);
      SummedAtPath(Level(lists), path);
    }
  }

  lemma {:induction false} SomeValue(all: seq<Measurements>, name: string, path: Path, k: nat, i: nat)
    requires i < k <= |all| && ValueAt(all[i], name, path).Some?
    ensures Values(all, name, path, k) != []
  {
    hide ValueAt;
    if i < k - 1 {
      SomeValue(all, name, path, k - 1, i);
    }
  }

  // ----- The order of the containers -----

  /** What container `m` adds to a leaf. */
  function Share(m: Measurements, name: string, path: Path): real {
    var v := ValueAt(m, name, path);
    if v.None? then 0.0 else v.value
  }

  function Shares(all: seq<Measurements>, name: string, path: Path): real {
    if all == [] then 0.0 else Shares(all[..|all| - 1], name, path) + Share(all[|all| - 1], name, path)
  }

  lemma {:induction false} SumOfValues(all: seq<Measurements>, name: string, path: Path, k: nat)
    requires k <= |all|
    ensures Sum(Values(all, name, path, k)) == Shares(all[..k], name, path)
  {
    hide ValueAt;
    if k > 0 {
      SumOfValues(all, name, path, k - 1);
      assert all[..k][..k - 1] == all[..k - 1];
      var v := ValueAt(all[k - 1], name, path);
      if v.Some? {
        var before := Values(all, name, path, k - 1);
        assert (before + [v.value])[..|before|] == before;
      }
    }
  }

  lemma {:induction false} WithoutOne(all: seq<Measurements>, j: nat, name: string, path: Path)
    requires j < |all|
    ensures Shares(all, name, path) == Shares(all[..j] + all[j + 1..], name, path) + Share(all[j], name, path)
  {
    hide Share;
    var rest := all[..j] + all[j + 1..];
    if j < |all| - 1 {
      var init := all[..|all| - 1];
      WithoutOne(init, j, name, path);
      assert init[..j] + init[j + 1..] == rest[..|rest| - 1];
      assert rest[|rest| - 1] == all[|all| - 1];
    } else {
      assert rest == all[..|all| - 1];
    }
  }

  lemma SameRest(x: multiset<Measurements>, y: multiset<Measurements>, m: Measurements)
    requires x + multiset{m} == y + multiset{m}
    ensures x == y
  {
    assert x == x + multiset{m} - multiset{m};
    assert y == y + multiset{m} - multiset{m};
  }

  lemma WithoutElement(all: seq<Measurements>, j: nat)
    requires j < |all|
    ensures multiset(all) == multiset(all[..j] + all[j + 1..]) + multiset{all[j]}
  {
    assert all == all[..j] + [all[j]] + all[j + 1..];
  }

  lemma {:induction false} SharesIgnoreOrder(a: seq<Measurements>, b: seq<Measurements>, name: string, path: Path)
    requires multiset(a) == multiset(b)
    ensures Shares(a, name, path) == Shares(b, name, path)
  {
    hide Share;
    if a == [] {
      assert |multiset(b)| == |b| && |multiset(a)| == 0;
    } else {
      var last := a[|a| - 1];
      assert last in multiset(b);
      var j :| 0 <= j < |b| && b[j] == last;
      WithoutOne(b, j, name, path);
      WithoutElement(a, |a| - 1);
      WithoutElement(b, j);
      assert a[..|a| - 1] + a[|a|..] == a[..|a| - 1];
      SameRest(multiset(a[..|a| - 1]), multiset(b[..j] + b[j + 1..]), last);
      SharesIgnoreOrder(a[..|a| - 1], b[..j] + b[j + 1..], name, path);
    }
  }

  ghost predicate SomeHasLeaf(all: seq<Measurements>, name: string, path: Path, k: nat)
    requires k <= |all|
  {
    exists i :: 0 <= i < k && ValueAt(all[i], name, path).Some?
  }

  lemma {:induction false} ValuesExist(all: seq<Measurements>, name: string, path: Path, k: nat)
    requires k <= |all|
    ensures Values(all, name, path, k) != [] <==> SomeHasLeaf(all, name, path, k)
  {
    hide ValueAt;
    if k > 0 {
      ValuesExist(all, name, path, k - 1);
      if ValueAt(all[k - 1], name, path).Some? {
        assert k - 1 < k;
      }
    }
  }

  /** The leaves of a merged metric are the leaves of the containers, each with the sum of what they have. */
  lemma MergedIsSum(all: seq<Measurements>, name: string, n: nat, path: Path)
    requires HaveDepth(all, name, n) && SomeHas(all, name) && |path| == n
    ensures At(MergedMetric(all, name, n), path) ==
      if SomeHasLeaf(all, name, path, |all|) then Some(Shares(all, name, path)) else None
  {
    hide Values;
    hide ValueAt;
    hide MergedMetric;
    MergedAtPath(all, name, n, path);
    ValuesExist(all, name, path, |all|);
    SumOfValues(all, name, path, |all|);
    assert all[..|all|] == all;
  }

  lemma SameMembers(a: seq<Measurements>, b: seq<Measurements>, m: Measurements)
    requires multiset(a) == multiset(b)
    ensures m in a <==> m in b
  {
    assert m in a <==> m in multiset(a);
    assert m in b <==> m in multiset(b);
  }

  lemma LeafIgnoresOrder(a: seq<Measurements>, b: seq<Measurements>, name: string, path: Path)
    requires multiset(a) == multiset(b) && SomeHasLeaf(a, name, path, |a|)
    ensures SomeHasLeaf(b, name, path, |b|)
  {
    hide ValueAt;
    var i :| 0 <= i < |a| && ValueAt(a[i], name, path).Some?;
    SameMembers(a, b, a[i]);
    var j :| 0 <= j < |b| && b[j] == a[i];
  }

  /** Merging the containers in another order gives the same leaves with the same values. */
  lemma MergedIgnoresOrder(a: seq<Measurements>, b: seq<Measurements>, name: string, n: nat, path: Path)
    requires multiset(a) == multiset(b) && HaveDepth(a, name, n) && HaveDepth(b, name, n)
    requires SomeHas(a, name) && SomeHas(b, name) && |path| == n
    ensures At(MergedMetric(a, name, n), path) == At(MergedMetric(b, name, n), path)
  {
    hide MergedMetric;
    hide SomeHasLeaf;
    MergedIsSum(a, name, n, path);
    MergedIsSum(b, name, n, path);
    SharesIgnoreOrder(a, b, name, path);
    if SomeHasLeaf(a, name, path, |a|) { LeafIgnoresOrder(a, b, name, path); }
    if SomeHasLeaf(b, name, path, |b|) { LeafIgnoresOrder(b, a, name, path); }
  }

  // ----- Conservation -----

  /** The sum over all leaves. */
  ghost function Total(t: Tree<real>): real
    decreases t, 0
  {
    match t
    case Leaf(v) => v
    case Level(d) => TotalOf(d, |d.keys|)
  }

  ghost function TotalOf(d: Counters, k: nat): real
    requires k <= |d.keys|
    decreases d, k
  {
    if k == 0 then 0.0 else TotalOf(d, k - 1) + if d.keys[k - 1] in d.at then Total(d.at[d.keys[k - 1]]) else 0.0
  }

  /** The sum over all lists. */
  ghost function ListTotal(t: Tree<seq<real>>): real
    decreases t, 0
  {
    match t
    case Leaf(values) => Sum(values)
    case Level(d) => ListTotalOf(d, |d.keys|)
  }

  ghost function ListTotalOf(d: Lists, k: nat): real
    requires k <= |d.keys|
    decreases d, k
  {
    if k == 0 then 0.0 else ListTotalOf(d, k - 1) + KeyTotal(d, d.keys[k - 1])
  }

  ghost function KeyTotal(d: Lists, key: string): real
    decreases d, 0
  {
    if key in d.at then ListTotal(d.at[key]) else 0.0
  }

  lemma {:induction false} PutTotalOf(d: Lists, key: string, v: Tree<seq<real>>, k: nat)
    requires d.Valid() && k <= |d.keys|
    ensures k <= |d.Put(key, v).keys|
    ensures ListTotalOf(d.Put(key, v), k)
      == ListTotalOf(d, k) + if key in d.keys[..k] then ListTotal(v) - KeyTotal(d, key) else 0.0
  {
    hide ListTotal;
    if k > 0 {
      PutTotalOf(d, key, v, k - 1);
      assert d.keys[..k] == d.keys[..k - 1] + [d.keys[k - 1]];
      assert d.Put(key, v).keys[k - 1] == d.keys[k - 1];
      if key == d.keys[k - 1] {
        assert key in d.at && key !in d.keys[..k - 1];
      }
    }
  }

  /** Replacing one entry changes the total by the difference. */
  lemma PutTotal(d: Lists, key: string, v: Tree<seq<real>>)
    requires d.Valid()
    ensures var r := d.Put(key, v);
      ListTotalOf(r, |r.keys|) == ListTotalOf(d, |d.keys|) + ListTotal(v) - KeyTotal(d, key)
  {
    hide ListTotal;
    PutTotalOf(d, key, v, |d.keys|);
    assert d.keys[..|d.keys|] == d.keys;
  }

  lemma ListedStep(before: Lists, prior: Lists, key: string, added: Tree<real>, n: nat)
    requires n > 0 && LevelHasDepth(before, n) && prior.Valid() && HasDepth(added, n - 1)
    requires SameAt(prior, before, key)
    ensures var r := prior.Put(key, ListedKey(prior, key, added, n));
      ListTotalOf(r, |r.keys|) == ListTotalOf(prior, |prior.keys|) + Total(added)
    decreases n, 1
  {
    hide ListedKey;
    hide KeyTotal;
    hide ListTotalOf;
    PutTotal(prior, key, ListedKey(prior, key, added, n));
    SameKey(prior, before, key, added, n);
    SameKeyTotal(prior, before, key);
    ListedKeyTotal(before, key, added, n);
  }

  lemma {:induction false} ListedTotalOf(before: Lists, added: Counters, n: nat, k: nat)
    requires n > 0 && LevelHasDepth(before, n) && LevelHasDepth(added, n) && k <= |added.keys|
    ensures var r := Listed(before, added, n, k); ListTotalOf(r, |r.keys|) == ListTotalOf(before, |before.keys|) + TotalOf(added, k)
    decreases n, 2, k
  {
    hide ListedKey;
    hide ListTotalOf;
    hide Total;
    hide HasDepth;
    hide SameAt;
    if k > 0 {
      ListedTotalOf(before, added, n, k - 1);
      var prior, key := Listed(before, added, n, k - 1), added.keys[k - 1];
      assert key in added.at;
      ListedIsValid(before, added, n, k - 1);
      NextIsUntouched(before, added, n, k - 1);
      ListedStep(before, prior, key, added.at[key], n);
    }
  }

  lemma SameKeyTotal(a: Lists, b: Lists, key: string)
    requires (key in a.at <==> key in b.at) && (key in a.at ==> a.at[key] == b.at[key])
    ensures KeyTotal(a, key) == KeyTotal(b, key)
  {
  }

  lemma SumLast(s: seq<real>, v: real)
    ensures Sum(s + [v]) == Sum(s) + v
  {
    assert (s + [v])[..|s|] == s;
  }

  lemma {:induction false} ListedKeyTotal(before: Lists, key: string, added: Tree<real>, n: nat)
    requires n > 0 && LevelHasDepth(before, n) && HasDepth(added, n - 1)
    ensures ListTotal(ListedKey(before, key, added, n)) == KeyTotal(before, key) + Total(added)
    decreases n, 0
  {
    hide Listed;
    hide ListTotalOf;
    hide TotalOf;
    if n == 1 {
      SumLast(ListAt(before, key), added.value);
      assert Sum([]) == 0.0;
    } else {
      NothingHasDepth(n - 1);
      NothingTotal();
      ListedTotalOf(LevelAt(before, key), added.d, n - 1, |added.d.keys|);
    }
  }

  lemma NothingTotal()
    ensures ListTotalOf(EmptyDict(), 0) == 0.0
  {
  }

  /** The sum of a metric over all containers. */
  ghost function TotalOfAll(all: seq<Measurements>, name: string, k: nat): real
    requires k <= |all|
  {
    if k == 0 then 0.0 else TotalOfAll(all, name, k - 1) + if name in all[k - 1] then Total(all[k - 1][name]) else 0.0
  }

  lemma {:induction false} GatheredTotal(all: seq<Measurements>, name: string, n: nat, k: nat)
    requires n > 0 && HaveDepth(all, name, n) && k <= |all|
    ensures var g := Gathered(all, name, n, k); ListTotalOf(g, |g.keys|) == TotalOfAll(all, name, k)
  {
    hide Listed;
    hide ListTotalOf;
    hide TotalOf;
    if k > 0 {
      GatheredTotal(all, name, n, k - 1);
      if name in all[k - 1] {
        assert HasDepth(all[k - 1][name], n);
        GatheredHasDepth(all, name, n, k - 1);
        ListedTotalOf(Gathered(all, name, n, k - 1), all[k - 1][name].d, n, |all[k - 1][name].d.keys|);
      }
    } else {
      NothingTotal();
    }
  }

  lemma SummedStep(d: Counters, key: string, v: Tree<real>)
    requires d.Valid() && key !in d.at
    ensures var r := d.Put(key, v);
      r.keys == d.keys + [key] && TotalOf(r, |r.keys|) == TotalOf(d, |d.keys|) + Total(v)
  {
    hide Total;
    NewKeyTotal(d, key, v, |d.keys|);
  }

  lemma {:induction false} SummedTotalOf(lists: Lists, k: nat)
    requires lists.Valid() && (forall key :: key in lists.at ==> Sane(lists.at[key])) && k <= |lists.keys|
    ensures var r := Summed(lists, k); TotalOf(r, |r.keys|) == ListTotalOf(lists, k)
    decreases lists, k
  {
    hide SummedKey;
    hide ListTotal;
    hide TotalOf;
    hide Total;
    hide Sane;
    if k > 0 {
      SummedTotalOf(lists, k - 1);
      var key := lists.keys[k - 1];
      assert key in lists.at && key !in lists.keys[..k - 1];
      SummedAtKey(lists, k - 1, key);
      assert key !in Summed(lists, k - 1).at;
      SummedStep(Summed(lists, k - 1), key, SummedKey(lists.at[key]));
      SummedTotal(lists.at[key]);
    } else {
      NothingSummed();
    }
  }

  lemma NothingSummed()
    ensures TotalOf(EmptyDict(), 0) == 0.0
  {
  }

  lemma {:induction false} NewKeyTotal(d: Counters, key: string, v: Tree<real>, k: nat)
    requires d.Valid() && key !in d.at && k <= |d.keys|
    ensures TotalOf(d.Put(key, v), k) == TotalOf(d, k)
  {
    hide Total;
    if k > 0 {
      NewKeyTotal(d, key, v, k - 1);
      assert d.keys[k - 1] in d.at;
    }
  }

  /** Adding up the lists keeps the sum over all leaves. */
  lemma {:induction false} SummedTotal(t: Tree<seq<real>>)
    requires Sane(t)
    ensures Total(SummedKey(t)) == ListTotal(t)
    decreases t, 0
  {
    hide Summed;
    hide ListTotalOf;
    hide TotalOf;
    match t
    case Leaf(values) =>
    case Level(d) =>
      SummedTotalOf(d, |d.keys|);
  }

  lemma {:induction false} ValuesTotal(all: seq<Measurements>, name: string, k: nat)
    requires HaveDepth(all, name, 0) && k <= |all|
    ensures Sum(Values(all, name, [], k)) == TotalOfAll(all, name, k)
  {
    if k > 0 {
      ValuesTotal(all, name, k - 1);
      if name in all[k - 1] {
        LeafValue(all[k - 1][name]);
        SumLast(Values(all, name, [], k - 1), all[k - 1][name].value);
      }
    }
  }

  /** Nothing is lost and nothing counted twice: the sum over the leaves of a merged metric is the sum over the
      leaves of all containers. */
  lemma MergingConserves(all: seq<Measurements>, name: string, n: nat)
    requires HaveDepth(all, name, n)
    ensures Total(MergedMetric(all, name, n)) == TotalOfAll(all, name, |all|)
  {
    hide Summed;
    hide Gathered;
    hide TotalOfAll;
    if n == 0 {
      ValuesTotal(all, name, |all|);
    } else {
      GatheredTotal(all, name, n, |all|);
      GatheredHasDepth(all, name, n, |all|);
      var lists := Gathered(all, name, n, |all|);
      DepthIsSane(Level(lists), n);
      SummedTotal(Level(lists));
    }
  }
}
