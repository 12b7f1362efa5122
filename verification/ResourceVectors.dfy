/** Resource arithmetic of the scheduler (wca/scheduler/algorithms/base.py), over exact reals. */
module ResourceVectors {
  import opened Dicts

  datatype ResourceType = MEM | CPU | MEMBW_WRITE | MEMBW_READ | WSS | MEMBW_FLAT

  type Vector = map<ResourceType, real>
  type AppName = string

  /** Memory bandwidth is either absent or present in both of its views. */
  predicate Coupled(v: Vector) {
    MEMBW_READ in v <==> MEMBW_WRITE in v
  }

  predicate NonNegative(v: Vector) {
    forall d :: d in v ==> v[d] >= 0.0
  }

  /** A node capacity for which the read/write ratio exists and can be divided by. */
  predicate Capacity(v: Vector) {
    && Coupled(v)
    && (MEMBW_READ in v ==> v[MEMBW_READ] > 0.0 && v[MEMBW_WRITE] > 0.0)
  }

  function SumResources(a: Vector, b: Vector): Vector
    requires a.Keys == b.Keys
  {
    map d | d in a :: a[d] + b[d]
  }

  function ReadWriteRatio(capacity: Vector): (r: Option<real>)
    requires Capacity(capacity)
    ensures r.Some? ==> r.value > 0.0
  {
    if MEMBW_READ in capacity then Some(capacity[MEMBW_READ] / capacity[MEMBW_WRITE]) else None
  }

  /** One dimension of `a - b`; with a ratio, reads and writes consume each other. */
  function Remaining(a: Vector, b: Vector, ratio: Option<real>, d: ResourceType): real
    requires a.Keys == b.Keys && d in a
    requires ratio.Some? ==> ratio.value > 0.0 && (MEMBW_READ in a ==> MEMBW_WRITE in a)
  {
    if ratio.None? || (d != MEMBW_READ && d != MEMBW_WRITE) then a[d] - b[d]
    else if MEMBW_READ !in a then a[d]
    else if d == MEMBW_READ then a[d] - (b[MEMBW_READ] + b[MEMBW_WRITE] * ratio.value)
    else a[d] - (b[MEMBW_WRITE] + b[MEMBW_READ] / ratio.value)
  }

  function Subtracted(a: Vector, b: Vector, ratio: Option<real>): Vector
    requires a.Keys == b.Keys
    requires ratio.Some? ==> ratio.value > 0.0 && (MEMBW_READ in a ==> MEMBW_WRITE in a)
  {
    map d | d in a :: Remaining(a, b, ratio, d)
  }

  method SubtractResources(a: Vector, b: Vector, ratio: Option<real>) returns (c: Vector)
    requires a.Keys == b.Keys
    requires ratio.Some? ==> ratio.value > 0.0 && (MEMBW_READ in a ==> MEMBW_WRITE in a)
    ensures c == Subtracted(a, b, ratio)
  {
    c := a;
    var todo := a.Keys;
    while todo != {}
      invariant todo <= a.Keys && c.Keys == a.Keys
      invariant forall d :: d in a ==>
        c[d] == if d !in todo && ((d != MEMBW_READ && d != MEMBW_WRITE) || ratio.None?)
                then a[d] - b[d] else a[d]
    {
      var d :| d in todo;
      todo := todo - {d};
      if (d != MEMBW_READ && d != MEMBW_WRITE) || ratio.None? {
        c := c[d := a[d] - b[d]];
      }
    }
    if MEMBW_READ in a && ratio.Some? {
      c := c[MEMBW_READ := a[MEMBW_READ] - (b[MEMBW_READ] + b[MEMBW_WRITE] * ratio.value)];
      c := c[MEMBW_WRITE := a[MEMBW_WRITE] - (b[MEMBW_WRITE] + b[MEMBW_READ] / ratio.value)];
    }
    assert forall d :: d in a ==> c[d] == Remaining(a, b, ratio, d);
  }

  /** The memory bandwidth pair seen as one number, in units of reads. */
  function Flat(a: Vector, ratio: real): real
    requires MEMBW_READ in a && MEMBW_WRITE in a
  {
    a[MEMBW_READ] + ratio * a[MEMBW_WRITE]
  }

  function FlatMembw(a: Vector, ratio: Option<real>): Vector
    requires MEMBW_READ in a ==> MEMBW_WRITE in a && ratio.Some?
  {
    if MEMBW_READ in a then (a - {MEMBW_READ, MEMBW_WRITE})[MEMBW_FLAT := Flat(a, ratio.value)] else a
  }

  /** What both operands of a division are flattened to. */
  function ForDivision(a: Vector, ratio: Option<real>): Vector
    requires MEMBW_READ in a ==> MEMBW_WRITE in a
  {
    if MEMBW_READ in a && ratio.Some? then FlatMembw(a, ratio) else a
  }

  function Divided(a: Vector, b: Vector, ratio: Option<real>): Vector
    requires a.Keys == b.Keys
    requires MEMBW_READ in a ==> MEMBW_WRITE in a
    requires forall d :: d in ForDivision(b, ratio) ==> ForDivision(b, ratio)[d] != 0.0
  {
    map d | d in ForDivision(a, ratio) :: ForDivision(a, ratio)[d] / ForDivision(b, ratio)[d]
  }

  method DivideResources(a: Vector, b: Vector, ratio: Option<real>) returns (c: Vector)
    requires a.Keys == b.Keys
    requires MEMBW_READ in a ==> MEMBW_WRITE in a
    requires forall d :: d in ForDivision(b, ratio) ==> ForDivision(b, ratio)[d] != 0.0
    ensures c == Divided(a, b, ratio)
  {
    var x, y := a, b;
    if MEMBW_READ in a && ratio.Some? {
      x := FlatMembw(a, ratio);
      y := FlatMembw(b, ratio);
    }
    assert x == ForDivision(a, ratio) && y == ForDivision(b, ratio) && x.Keys == y.Keys;
    c := map[];
    var todo := x.Keys;
    while todo != {}
      invariant todo <= y.Keys && c.Keys == x.Keys - todo
      invariant forall d :: d in c ==> c[d] == x[d] / y[d]
    {
      var d :| d in todo;
      todo := todo - {d};
      c := c[d := x[d] / y[d]];
    }
  }

  /** Subtracting `b` from `a` leaves no dimension negative. */
  predicate NoneBroken(a: Vector, b: Vector, ratio: Option<real>)
    requires a.Keys == b.Keys
    requires ratio.Some? ==> ratio.value > 0.0 && (MEMBW_READ in a ==> MEMBW_WRITE in a)
  {
    forall d :: d in a ==> Remaining(a, b, ratio, d) >= 0.0
  }

  predicate Fits(capacity: Vector, used: Vector)
    requires capacity.Keys == used.Keys && Capacity(capacity)
  {
    NoneBroken(capacity, used, ReadWriteRatio(capacity))
  }

  method EnoughResourcesOnNode(capacity: Vector, used: Vector, ratio: Option<real>)
    returns (enough: bool, broken: Vector, free: Vector)
    requires capacity.Keys == used.Keys && Capacity(capacity) && ratio == ReadWriteRatio(capacity)
    ensures free == Subtracted(capacity, used, ratio)
    ensures enough <==> Fits(capacity, used)
    ensures enough <==> broken == map[]
    ensures forall d :: d in broken <==> d in free && free[d] < 0.0
    ensures forall d :: d in broken ==> broken[d] > 0.0 && free[d] + broken[d] == 0.0
  {
    free := SubtractResources(capacity, used, ratio);
    broken := map d | d in free && free[d] < 0.0 :: -free[d];
    enough := broken.Keys == {};
    assert forall d :: d in capacity ==> free[d] == Remaining(capacity, used, ratio, d);
    if broken.Keys == {} {
      assert forall d :: d in free ==> d !in broken;
    } else {
      var d :| d in broken.Keys;
      assert Remaining(capacity, used, ratio, d) < 0.0;
    }
  }

  /** Free reads are always `ratio` times free writes: the two views never drift apart. */
  lemma FreeBandwidthIsOneResource(capacity: Vector, used: Vector)
    requires capacity.Keys == used.Keys && Capacity(capacity) && MEMBW_READ in capacity
    ensures var ratio := ReadWriteRatio(capacity);
            var free := Subtracted(capacity, used, ratio);
            free[MEMBW_READ] == ratio.value * free[MEMBW_WRITE]
  {
    var ratio := ReadWriteRatio(capacity).value;
    var r, w := used[MEMBW_READ], used[MEMBW_WRITE];
    assert ratio * capacity[MEMBW_WRITE] == capacity[MEMBW_READ];
    assert ratio * (r / ratio) == r;
    assert ratio * (capacity[MEMBW_WRITE] - (w + r / ratio)) == ratio * capacity[MEMBW_WRITE] - ratio * w - ratio * (r / ratio);
  }

  /** Both bandwidth views are free exactly when the usage fraction that `divide_resources`
      reports for the flattened dimension is at most one half. */
  lemma BandwidthFitsIffFlatFractionAtMostHalf(capacity: Vector, used: Vector)
    requires capacity.Keys == used.Keys && Capacity(capacity) && MEMBW_READ in capacity
    requires forall d :: d in capacity ==> capacity[d] > 0.0
    ensures var ratio := ReadWriteRatio(capacity);
            var free := Subtracted(capacity, used, ratio);
            && (free[MEMBW_READ] >= 0.0 <==> free[MEMBW_WRITE] >= 0.0)
            && (free[MEMBW_READ] >= 0.0 && free[MEMBW_WRITE] >= 0.0 <==>
                Divided(used, capacity, ratio)[MEMBW_FLAT] <= 0.5)
  {
    FreeBandwidthIsOneResource(capacity, used);
    var ratio := ReadWriteRatio(capacity).value;
    var free := Subtracted(capacity, used, Some(ratio));
    SameSign(free[MEMBW_READ], ratio, free[MEMBW_WRITE]);
    RatioMeans(capacity);
    HalfOf(Flat(used, ratio), Flat(capacity, ratio));
  }

  lemma SameSign(x: real, ratio: real, y: real)
    requires ratio > 0.0 && x == ratio * y
    ensures x >= 0.0 <==> y >= 0.0
  {
    if y >= 0.0 { assert ratio * y >= 0.0; } else { assert ratio * y < 0.0; }
  }

  lemma RatioMeans(capacity: Vector)
    requires Capacity(capacity) && MEMBW_READ in capacity
    ensures ReadWriteRatio(capacity).value * capacity[MEMBW_WRITE] == capacity[MEMBW_READ]
  {
  }

  lemma HalfOf(x: real, y: real)
    requires y > 0.0
    ensures x / y <= 0.5 <==> 2.0 * x <= y
  {
    var q := x / y;
    assert q * y == x;
    if q <= 0.5 { assert q * y <= 0.5 * y; } else { assert q * y > 0.5 * y; }
  }

  lemma RemainingIsMonotone(capacity: Vector, less: Vector, more: Vector, ratio: Option<real>, d: ResourceType)
    requires capacity.Keys == less.Keys == more.Keys && d in capacity && Coupled(capacity)
    requires ratio.Some? ==> ratio.value > 0.0
    requires forall d :: d in less ==> less[d] <= more[d]
    ensures Remaining(capacity, less, ratio, d) >= Remaining(capacity, more, ratio, d)
  {
    if ratio.Some? && MEMBW_READ in capacity {
      var gap := more[MEMBW_WRITE] - less[MEMBW_WRITE];
      assert gap * ratio.value >= 0.0;
      var gap' := more[MEMBW_READ] - less[MEMBW_READ];
      assert gap' / ratio.value >= 0.0;
    }
  }

  /** A node that fits some usage fits every smaller usage. */
  lemma FitsIsMonotone(capacity: Vector, less: Vector, more: Vector)
    requires capacity.Keys == less.Keys == more.Keys && Capacity(capacity)
    requires forall d :: d in less ==> less[d] <= more[d]
    requires Fits(capacity, more)
    ensures Fits(capacity, less)
  {
    var ratio := ReadWriteRatio(capacity);
    forall d | d in capacity
      ensures Remaining(capacity, less, ratio, d) >= 0.0
    {
      assert Remaining(capacity, more, ratio, d) >= 0.0;
      RemainingIsMonotone(capacity, less, more, ratio, d);
    }
  }

  /** A node that fits some usage still fits it with more of every capacity but the bandwidth. */
  lemma RoomierRemainsFree(less: Vector, more: Vector, used: Vector, ratio: Option<real>)
    requires less.Keys == more.Keys == used.Keys && Coupled(less) && (ratio.Some? ==> ratio.value > 0.0)
    requires forall d :: d in less ==> less[d] <= more[d]
    requires NoneBroken(less, used, ratio)
    ensures NoneBroken(more, used, ratio)
  {
    forall d | d in more ensures Remaining(more, used, ratio, d) >= 0.0 {
      assert Remaining(less, used, ratio, d) >= 0.0;
    }
  }

  // ----- Counting applications -----

  /** What one copy of `app` needs of `d`, where the specification tells. */
  function Need(spec: map<AppName, Vector>, app: AppName, d: ResourceType): real {
    if app in spec && d in spec[app] then spec[app][d] else 0.0
  }

  /** Resources of `counts[app]` copies of every listed application, in one dimension. */
  function UsedIn(apps: seq<AppName>, counts: map<AppName, nat>, spec: map<AppName, Vector>, d: ResourceType): real {
    if apps == [] then 0.0
    else
      var app := apps[|apps| - 1];
      UsedIn(apps[..|apps| - 1], counts, spec, d)
      + Times(Need(spec, app, d), if app in counts then counts[app] else 0)
  }

  /** `n` copies of `x`. */
  function Times(x: real, n: nat): real {
    if n == 0 then 0.0 else Times(x, n - 1) + x
  }

  lemma {:induction false} TimesIsProduct(x: real, n: nat)
    ensures Times(x, n) == x * (n as real)
  {
    if n > 0 {
      TimesIsProduct(x, n - 1);
      assert x * (n as real) == x * ((n - 1) as real) + x;
    }
  }

  /** Every application the counts mention is specified in every dimension. */
  ghost predicate Specified(dims: set<ResourceType>, counts: Dict<AppName, nat>, spec: map<AppName, Vector>) {
    counts.Valid() && forall i :: 0 <= i < |counts.keys| ==> counts.keys[i] in spec && dims <= spec[counts.keys[i]].Keys
  }

  function Used(dims: set<ResourceType>, counts: Dict<AppName, nat>, spec: map<AppName, Vector>): Vector {
    map d | d in dims :: UsedIn(counts.keys, counts.at, spec, d)
  }

  /** The inner loop of `used_resources_on_node`: one application, every dimension. */
  method AddApp(dims: set<ResourceType>, before: Vector, spec: Vector, count: nat) returns (used: Vector)
    requires before.Keys == dims && dims <= spec.Keys
    ensures used.Keys == dims
    ensures forall d :: d in dims ==> used[d] == before[d] + Times(spec[d], count)
  {
    used := before;
    var todo := dims;
    while todo != {}
      invariant todo <= dims && used.Keys == dims
      invariant forall d :: d in dims ==> used[d] == if d in todo then before[d] else before[d] + Times(spec[d], count)
    {
      var d :| d in todo;
      todo := todo - {d};
      TimesIsProduct(spec[d], count);
      used := used[d := used[d] + spec[d] * (count as real)];
    }
  }

  method UsedResourcesOnNode(dims: set<ResourceType>, counts: Dict<AppName, nat>, spec: map<AppName, Vector>)
    returns (used: Vector)
    requires Specified(dims, counts, spec)
    ensures used == Used(dims, counts, spec)
  {
    used := map d | d in dims :: 0.0;
    for i := 0 to |counts.keys|
      invariant used.Keys == dims
      invariant forall d :: d in dims ==> used[d] == UsedIn(counts.keys[..i], counts.at, spec, d)
    {
      var app := counts.keys[i];
      assert app in counts.keys && counts.keys[..i + 1][..i] == counts.keys[..i];
      used := AddApp(dims, used, spec[app], counts.at[app]);
    }
    assert counts.keys[..|counts.keys|] == counts.keys;
  }

  /** The counts a data provider reports for a node running `apps`, in that order. */
  function CountApps(apps: seq<AppName>): (counts: Dict<AppName, nat>)
    ensures counts.Valid()
  {
    if apps == [] then EmptyDict() else OneMore(CountApps(apps[..|apps| - 1]), apps[|apps| - 1])
  }

  function OneMore(counts: Dict<AppName, nat>, app: AppName): (r: Dict<AppName, nat>)
    ensures counts.Valid() ==> r.Valid()
  {
    counts.Put(app, if app in counts.at then counts.at[app] + 1 else 1)
  }

  /** Sum over the running applications, one at a time. */
  function SumIn(apps: seq<AppName>, spec: map<AppName, Vector>, d: ResourceType): real {
    if apps == [] then 0.0 else SumIn(apps[..|apps| - 1], spec, d) + Need(spec, apps[|apps| - 1], d)
  }

  lemma {:induction false} UsedInOtherCounts(apps: seq<AppName>, c0: map<AppName, nat>, c1: map<AppName, nat>,
                                             spec: map<AppName, Vector>, d: ResourceType)
    requires forall i :: 0 <= i < |apps| ==> apps[i] in c0 && apps[i] in c1 && c0[apps[i]] == c1[apps[i]]
    ensures UsedIn(apps, c0, spec, d) == UsedIn(apps, c1, spec, d)
  {
    if apps != [] {
      UsedInOtherCounts(apps[..|apps| - 1], c0, c1, spec, d);
    }
  }

  /** Raising one application's count by one adds its specification once. */
  lemma {:induction false} UsedInIncrement(apps: seq<AppName>, c: map<AppName, nat>, spec: map<AppName, Vector>,
                                           d: ResourceType, k: nat)
    requires NoDup(apps) && k < |apps| && forall i :: 0 <= i < |apps| ==> apps[i] in c
    ensures UsedIn(apps, c[apps[k] := c[apps[k]] + 1], spec, d) == UsedIn(apps, c, spec, d) + Need(spec, apps[k], d)
  {
    var init := apps[..|apps| - 1];
    if k == |apps| - 1 {
      UsedInOtherCounts(init, c[apps[k] := c[apps[k]] + 1], c, spec, d);
    } else {
      UsedInIncrement(init, c, spec, d, k);
    }
  }

  lemma UsedInFirst(counts: Dict<AppName, nat>, spec: map<AppName, Vector>, d: ResourceType, app: AppName)
    requires counts.Valid() && app !in counts.at
    ensures UsedIn(counts.keys + [app], counts.at[app := 1], spec, d)
         == UsedIn(counts.keys, counts.at, spec, d) + Need(spec, app, d)
  {
    UsedInOtherCounts(counts.keys, counts.at[app := 1], counts.at, spec, d);
    assert (counts.keys + [app])[..|counts.keys|] == counts.keys;
    assert Times(Need(spec, app, d), 1) == Times(Need(spec, app, d), 0) + Need(spec, app, d);
  }

  lemma UsedInCountedOnce(counts: Dict<AppName, nat>, spec: map<AppName, Vector>, d: ResourceType, app: AppName)
    requires counts.Valid()
    ensures UsedIn(OneMore(counts, app).keys, OneMore(counts, app).at, spec, d)
         == UsedIn(counts.keys, counts.at, spec, d) + Need(spec, app, d)
  {
    hide UsedIn;
    hide Need;
    if app in counts.at {
      var k :| 0 <= k < |counts.keys| && counts.keys[k] == app;
      UsedInIncrement(counts.keys, counts.at, spec, d, k);
    } else {
      UsedInFirst(counts, spec, d, app);
    }
  }

  /** Counting and multiplying gives what adding one by one gives. */
  lemma {:induction false} CountedIsSummed(apps: seq<AppName>, spec: map<AppName, Vector>, d: ResourceType)
    ensures UsedIn(CountApps(apps).keys, CountApps(apps).at, spec, d) == SumIn(apps, spec, d)
  {
    if apps != [] {
      var rest := CountApps(apps[..|apps| - 1]);
      CountedIsSummed(apps[..|apps| - 1], spec, d);
      UsedInCountedOnce(rest, spec, d, apps[|apps| - 1]);
    }
  }

  /** Every listed application is specified in exactly the given dimensions. */
  ghost predicate SpecifiedApps(dims: set<ResourceType>, apps: seq<AppName>, spec: map<AppName, Vector>) {
    forall i :: 0 <= i < |apps| ==> apps[i] in spec && spec[apps[i]].Keys == dims
  }

  lemma {:induction false} CountedAreSpecified(dims: set<ResourceType>, apps: seq<AppName>, spec: map<AppName, Vector>)
    requires SpecifiedApps(dims, apps, spec)
    ensures Specified(dims, CountApps(apps), spec)
  {
    if apps != [] {
      CountedAreSpecified(dims, apps[..|apps| - 1], spec);
    }
  }
}
