/** Which class of nodes the bar-based algorithm accepts, wca/scheduler/algorithms/hierbar.py: the one whose requested shares
    have the least variance, in sums over the dimensions. */
module BestClass {
  import opened Dicts
  import opened ResourceVectors
  import opened Numbers
  import opened HierBar

  // ----- Variance in sums -----

  function Total(s: seq<real>): real {
    if s == [] then 0.0 else Total(s[..|s| - 1]) + s[|s| - 1]
  }

  function Squares(s: seq<real>): real {
    if s == [] then 0.0 else Squares(s[..|s| - 1]) + s[|s| - 1] * s[|s| - 1]
  }

  /** As many times the sum of squares as there are numbers, less the square of the sum. */
  function Spread(s: seq<real>): real { |s| as real * Squares(s) - Total(s) * Total(s) }

  lemma Binomial(x: real, m: real)
    ensures Product(x - m, x - m) == x * x - 2.0 * Product(m, x) + Product(m, m)
  {
    assert (x - m) * (x - m) == x * x - 2.0 * (m * x) + m * m;
  }

  lemma ProductOfSum(m: real, x: real, y: real)
    ensures Product(m, x + y) == Product(m, x) + Product(m, y)
  {
  }

  lemma OneMoreTime(n: nat, x: real)
    ensures (n + 1) as real * x == n as real * x + x
  {
  }

  lemma {:induction false} SquaresAroundIs(s: seq<real>, m: real, k: nat)
    requires k <= |s|
    ensures SquaresAround(s, m, k) == Squares(s[..k]) - 2.0 * Product(m, Total(s[..k])) + k as real * Product(m, m)
  {
    if k > 0 {
      SquaresAroundIs(s, m, k - 1);
      assert s[..k][..k - 1] == s[..k - 1];
      var x, before := s[k - 1], Total(s[..k - 1]);
      assert Squares(s[..k]) == Squares(s[..k - 1]) + x * x && Total(s[..k]) == before + x;
      assert SquaresAround(s, m, k) == SquaresAround(s, m, k - 1) + Product(x - m, x - m);
      hide Product;
      Binomial(x, m);
      ProductOfSum(m, before, x);
      OneMoreTime(k - 1, Product(m, m));
    } else {
      assert Product(m, 0.0) == 0.0;
    }
  }

  lemma {:induction false} SumIsTotal(s: seq<real>, k: nat)
    requires k <= |s|
    ensures Sum(s, k) == Total(s[..k])
  {
    if k > 0 {
      SumIsTotal(s, k - 1);
      assert s[..k][..k - 1] == s[..k - 1];
    }
  }

  lemma AroundTheMean(n: real, m: real, t: real, squares: real)
    requires n * m == t
    ensures n * (squares - 2.0 * Product(m, t) + n * Product(m, m)) == n * squares - t * t
  {
    assert n * Product(m, t) == t * t by {
      assert n * (m * t) == (n * m) * t;
    }
    assert n * (n * Product(m, m)) == t * t by {
      assert n * (n * (m * m)) == (n * m) * (n * m);
    }
    assert n * (squares - 2.0 * Product(m, t) + n * Product(m, m))
      == n * squares - 2.0 * (n * Product(m, t)) + n * (n * Product(m, m));
  }

  lemma QuotientTimes(x: real, y: real)
    requires y != 0.0
    ensures y * (x / y) == x
  {
  }

  /** The sample variance of n numbers is their spread divided by n (n - 1). */
  lemma VarianceBySums(s: seq<real>)
    requires |s| >= 2
    ensures |s| as real * ((|s| - 1) as real * SampleVariance(s)) == Spread(s)
  {
    var n := |s| as real;
    var m := Sum(s, |s|) / n;
    SumIsTotal(s, |s|);
    assert s[..|s|] == s;
    SquaresAroundIs(s, m, |s|);
    QuotientTimes(Total(s), n);
    QuotientTimes(SquaresAround(s, m, |s|), (|s| - 1) as real);
    AroundTheMean(n, m, Total(s), Squares(s));
  }

  // ----- The order of the numbers -----

  lemma {:induction false} WithoutOne(s: seq<real>, i: nat)
    requires i < |s|
    ensures var rest := s[..i] + s[i + 1..];
      Total(s) == Total(rest) + s[i] && Squares(s) == Squares(rest) + s[i] * s[i]
  {
    var init := s[..|s| - 1];
    if i < |s| - 1 {
      WithoutOne(init, i);
      assert (s[..i] + s[i + 1..])[..|s| - 2] == init[..i] + init[i + 1..];
    } else {
      assert s[..i] + s[i + 1..] == init;
    }
  }

  lemma MultisetWithout(t: seq<real>, i: nat)
    requires i < |t|
    ensures multiset(t[..i] + t[i + 1..]) == multiset(t) - multiset{t[i]}
  {
    var before, after := t[..i], t[i + 1..];
    assert t == before + [t[i]] + after;
    assert multiset(t) == multiset(before) + multiset{t[i]} + multiset(after);
  }

  lemma SameRest(s: seq<real>, t: seq<real>, i: nat)
    requires s != [] && multiset(s) == multiset(t) && i < |t| && t[i] == s[|s| - 1]
    ensures multiset(s[..|s| - 1]) == multiset(t[..i] + t[i + 1..])
  {
    MultisetWithout(s, |s| - 1);
    MultisetWithout(t, i);
    assert s[..|s| - 1] + s[|s|..] == s[..|s| - 1];
  }

  lemma FoundIn(s: seq<real>, t: seq<real>) returns (i: nat)
    requires s != [] && multiset(s) == multiset(t)
    ensures i < |t| && t[i] == s[|s| - 1]
  {
    assert s[|s| - 1] in multiset(s);
    assert s[|s| - 1] in t;
    i :| 0 <= i < |t| && t[i] == s[|s| - 1];
  }

  lemma {:induction false} OrderDoesNotMatter(s: seq<real>, t: seq<real>)
    requires multiset(s) == multiset(t)
    ensures Total(s) == Total(t) && Squares(s) == Squares(t) && |s| == |t|
  {
    assert |s| == |multiset(s)| && |t| == |multiset(t)|;
    if s != [] {
      var i := FoundIn(s, t);
      SameRest(s, t, i);
      OrderDoesNotMatter(s[..|s| - 1], t[..i] + t[i + 1..]);
      WithoutOne(t, i);
    }
  }

  lemma VarianceIgnoresOrder(s: seq<real>, t: seq<real>)
    requires |s| >= 2 && multiset(s) == multiset(t)
    ensures |t| == |s| && SampleVariance(t) == SampleVariance(s)
  {
    hide SampleVariance;
    OrderDoesNotMatter(s, t);
    VarianceBySums(s);
    VarianceBySums(t);
    SameFactor(|s| as real, (|s| - 1) as real * SampleVariance(s), (|s| - 1) as real * SampleVariance(t));
    SameFactor((|s| - 1) as real, SampleVariance(s), SampleVariance(t));
  }

  lemma SameFactor(a: real, x: real, y: real)
    requires a > 0.0
    ensures a * x == a * y ==> x == y
    ensures a * x <= a * y <==> x <= y
  {
    if x < y {
      assert a * (y - x) > 0.0;
    } else if y < x {
      assert a * (x - y) > 0.0;
    }
  }

  // ----- The shares of a class -----

  function Column(nodes: seq<string>, capacities: map<string, Vector>, d: ResourceType): (r: seq<real>)
    requires forall i :: 0 <= i < |nodes| ==> nodes[i] in capacities && d in capacities[nodes[i]]
    ensures |r| == |nodes| && forall i :: 0 <= i < |r| ==> r[i] == capacities[nodes[i]][d]
  {
    seq(|nodes|, i requires 0 <= i < |nodes| => capacities[nodes[i]][d])
  }

  /** What the average node of a class has of a dimension. */
  function Mean(nodes: seq<string>, capacities: map<string, Vector>, d: ResourceType): real
    requires nodes != [] && forall i :: 0 <= i < |nodes| ==> nodes[i] in capacities && d in capacities[nodes[i]]
  {
    Total(Column(nodes, capacities, d)) / |nodes| as real
  }

  lemma {:induction false} TotalCapacityIs(nodes: seq<string>, capacities: map<string, Vector>, dims: set<ResourceType>, k: nat,
                                           d: ResourceType)
    requires 0 < k <= |nodes| && AllKnown(nodes, capacities) && SameDimensions(capacities, dims) && d in dims
    ensures TotalCapacity(nodes, capacities, dims, k)[d] == Total(Column(nodes, capacities, d)[..k])
  {
    var column := Column(nodes, capacities, d);
    assert column[..k][..k - 1] == column[..k - 1] && column[..k][k - 1] == capacities[nodes[k - 1]][d];
    if k == 1 {
      assert Total(column[..0]) == 0.0;
    } else {
      TotalCapacityIs(nodes, capacities, dims, k - 1, d);
    }
  }

  /** The average node has the mean of every dimension. */
  lemma AverageIsMean(nodes: seq<string>, capacities: map<string, Vector>, dims: set<ResourceType>, d: ResourceType)
    requires AllKnown(nodes, capacities) && SameDimensions(capacities, dims) && nodes != [] && d in dims
    requires MEMBW_READ in dims ==> MEMBW_WRITE in dims
    ensures Average(nodes, capacities, dims)[d] == Mean(nodes, capacities, d)
  {
    TotalCapacityIs(nodes, capacities, dims, |nodes|, d);
    assert Column(nodes, capacities, d)[..|nodes|] == Column(nodes, capacities, d);
  }

  /** The dimensions that shares are compared in: reads and writes count as one. */
  function Compared(dims: set<ResourceType>): set<ResourceType> {
    if MEMBW_READ in dims then dims - {MEMBW_READ, MEMBW_WRITE} + {MEMBW_FLAT} else dims
  }

  /** What is asked of a dimension, as a share of what there is; the bandwidth in units of reads. */
  function Share(asked: Vector, there: Vector, d: ResourceType): real
    requires asked.Keys == there.Keys && d in Compared(there.Keys) && Capacity(there)
    requires forall e :: e in there ==> there[e] != 0.0
  {
    if MEMBW_READ in there && d == MEMBW_FLAT then
      BothViews(there);
      (asked[MEMBW_READ] + there[MEMBW_READ] / there[MEMBW_WRITE] * asked[MEMBW_WRITE]) / (2.0 * there[MEMBW_READ])
    else asked[d] / there[d]
  }

  lemma BothViews(there: Vector)
    requires Capacity(there) && MEMBW_READ in there
    ensures there[MEMBW_READ] + there[MEMBW_READ] / there[MEMBW_WRITE] * there[MEMBW_WRITE] == 2.0 * there[MEMBW_READ]
  {
  }

  lemma FlatShare(asked: Vector, there: Vector)
    requires asked.Keys == there.Keys && Capacity(there) && MEMBW_READ in there
    ensures Flat(there, ReadWriteRatio(there).value) == 2.0 * there[MEMBW_READ]
    ensures Flat(asked, ReadWriteRatio(there).value)
      == asked[MEMBW_READ] + there[MEMBW_READ] / there[MEMBW_WRITE] * asked[MEMBW_WRITE]
  {
    BothViews(there);
  }

  lemma FractionIsShare(requested: Vector, average: Vector, d: ResourceType)
    requires requested.Keys == average.Keys && Capacity(average) && forall e :: e in average ==> average[e] != 0.0
    requires d in Compared(average.Keys)
    ensures Fractions(requested, average).Keys == Compared(average.Keys)
    ensures Fractions(requested, average)[d] == Share(requested, average, d)
  {
    FlatIsNotZero(average);
    if MEMBW_READ in average {
      FlatShare(requested, average);
      hide Flat;
      hide ReadWriteRatio;
      if d == MEMBW_FLAT {
        assert Fractions(requested, average)[d]
          == Flat(requested, ReadWriteRatio(average).value) / Flat(average, ReadWriteRatio(average).value);
      } else {
        assert Fractions(requested, average)[d] == requested[d] / average[d];
      }
    }
  }

  // ----- All dimensions, in any order -----

  ghost predicate Enumerates(order: seq<ResourceType>, dims: set<ResourceType>) {
    NoDup(order) && forall d :: d in order <==> d in dims
  }

  function Values(order: seq<ResourceType>, v: Vector): (r: seq<real>)
    requires forall i :: 0 <= i < |order| ==> order[i] in v
    ensures |r| == |order| && forall i :: 0 <= i < |r| ==> r[i] == v[order[i]]
  {
    seq(|order|, i requires 0 <= i < |order| => v[order[i]])
  }

  /** The dimensions of a vector in the order in which the model lists them. */
  ghost function ListedOrder(v: Vector, k: nat): (r: seq<ResourceType>)
    requires k <= |ALL_DIMENSIONS|
    ensures forall i :: 0 <= i < |r| ==> r[i] in v
  {
    if k == 0 then [] else ListedOrder(v, k - 1) + if ALL_DIMENSIONS[k - 1] in v then [ALL_DIMENSIONS[k - 1]] else []
  }

  lemma {:induction false} ListedAreValues(v: Vector, k: nat)
    requires k <= |ALL_DIMENSIONS|
    ensures Listed(v, k) == Values(ListedOrder(v, k), v)
  {
    if k > 0 {
      ListedAreValues(v, k - 1);
    }
  }

  lemma {:induction false} ListedOrderHas(v: Vector, k: nat, d: ResourceType)
    requires k <= |ALL_DIMENSIONS|
    ensures d in ListedOrder(v, k) <==> d in v && d in ALL_DIMENSIONS[..k]
  {
    if k > 0 {
      ListedOrderHas(v, k - 1, d);
      assert ALL_DIMENSIONS[..k] == ALL_DIMENSIONS[..k - 1] + [ALL_DIMENSIONS[k - 1]];
    }
  }

  lemma {:induction false} ListedOrderIsNoDup(v: Vector, k: nat)
    requires k <= |ALL_DIMENSIONS|
    ensures NoDup(ListedOrder(v, k))
  {
    if k > 0 {
      ListedOrderIsNoDup(v, k - 1);
      ListedOrderHas(v, k - 1, ALL_DIMENSIONS[k - 1]);
      assert ALL_DIMENSIONS[k - 1] !in ALL_DIMENSIONS[..k - 1];
    }
  }

  lemma IsADimension(d: ResourceType)
    ensures d in ALL_DIMENSIONS[..|ALL_DIMENSIONS|]
  {
    var i := match d
      case MEM => 0
      case CPU => 1
      case MEMBW_WRITE => 2
      case MEMBW_READ => 3
      case WSS => 4
      case MEMBW_FLAT => 5;
    assert ALL_DIMENSIONS[i] == d;
  }

  lemma AllListed(v: Vector)
    ensures Enumerates(ListedOrder(v, |ALL_DIMENSIONS|), v.Keys)
  {
    ListedOrderIsNoDup(v, |ALL_DIMENSIONS|);
    forall d: ResourceType ensures d in ListedOrder(v, |ALL_DIMENSIONS|) <==> d in v {
      ListedOrderHas(v, |ALL_DIMENSIONS|, d);
      IsADimension(d);
    }
  }

  lemma FirstIsIn(b: seq<ResourceType>)
    ensures b != [] ==> b[0] in b
  {
  }

  lemma ValuesWithout(b: seq<ResourceType>, i: nat, v: Vector)
    requires i < |b| && forall j :: 0 <= j < |b| ==> b[j] in v
    ensures multiset(Values(b, v)) == multiset(Values(b[..i] + b[i + 1..], v)) + multiset{v[b[i]]}
  {
    var before, after := Values(b[..i], v), Values(b[i + 1..], v);
    assert Values(b, v) == before + [v[b[i]]] + after;
    assert Values(b[..i] + b[i + 1..], v) == before + after;
    assert multiset(before + [v[b[i]]] + after) == multiset(before) + multiset{v[b[i]]} + multiset(after);
    assert multiset(before + after) == multiset(before) + multiset(after);
  }

  lemma PositionOf(b: seq<ResourceType>, d: ResourceType) returns (i: nat)
    requires d in b
    ensures i < |b| && b[i] == d
  {
    i :| 0 <= i < |b| && b[i] == d;
  }

  /** Two orders of the same dimensions list the same values. */
  lemma {:induction false} SameValues(a: seq<ResourceType>, b: seq<ResourceType>, v: Vector)
    requires NoDup(a) && NoDup(b) && (forall d :: d in a <==> d in b) && forall d :: d in a ==> d in v
    requires forall i :: 0 <= i < |a| ==> a[i] in v
    requires forall i :: 0 <= i < |b| ==> b[i] in v
    ensures multiset(Values(a, v)) == multiset(Values(b, v))
    decreases |a|
  {
    hide NoDup;
    if a == [] {
      FirstIsIn(b);
    } else {
      var last := a[|a| - 1];
      assert last in a;
      var i := PositionOf(b, last);
      RestHas(a, |a| - 1);
      RestHas(b, i);
      var init := a[..|a| - 1] + a[|a|..];
      SameValues(init, b[..i] + b[i + 1..], v);
      ValuesWithout(a, |a| - 1, v);
      ValuesWithout(b, i, v);
    }
  }

  lemma RestHas(a: seq<ResourceType>, i: nat)
    requires NoDup(a) && i < |a|
    ensures var rest := a[..i] + a[i + 1..]; NoDup(rest) && forall d :: d in rest <==> d in a && d != a[i]
  {
    var rest := a[..i] + a[i + 1..];
    forall d ensures d in rest <==> d in a && d != a[i] {
      if d in a && d != a[i] {
        var j :| 0 <= j < |a| && a[j] == d;
        assert rest[if j < i then j else j - 1] == d;
      }
    }
  }

  /** The shares that a class is scored by. */
  function Shares(asked: Vector, there: Vector, order: seq<ResourceType>): (r: seq<real>)
    requires asked.Keys == there.Keys && Capacity(there) && forall e :: e in there ==> there[e] != 0.0
    requires forall i :: 0 <= i < |order| ==> order[i] in Compared(there.Keys)
    ensures |r| == |order| && forall i :: 0 <= i < |r| ==> r[i] == Share(asked, there, order[i])
  {
    seq(|order|, i requires 0 <= i < |order| => Share(asked, there, order[i]))
  }

  lemma FractionsBySums(requested: Vector, average: Vector, order: seq<ResourceType>)
    requires requested.Keys == average.Keys && Capacity(average) && forall e :: e in average ==> average[e] != 0.0
    requires Enumerates(order, Compared(average.Keys)) && average.Keys != {}
    ensures var listed, shares := Listed(Fractions(requested, average), |ALL_DIMENSIONS|), Shares(requested, average, order);
      |listed| == |order| && Spread(listed) == Spread(shares)
  {
    hide Fractions;
    hide Share;
    hide Compared;
    hide Listed;
    var fractions := Fractions(requested, average);
    FractionsAreShares(requested, average);
    ListedInOrder(fractions, order);
    assert Values(order, fractions) == Shares(requested, average, order);
    OrderDoesNotMatter(Listed(fractions, |ALL_DIMENSIONS|), Values(order, fractions));
  }

  lemma FractionsAreShares(requested: Vector, average: Vector)
    requires requested.Keys == average.Keys && Capacity(average) && forall e :: e in average ==> average[e] != 0.0
    requires average.Keys != {}
    ensures Fractions(requested, average).Keys == Compared(average.Keys)
    ensures forall d :: d in Compared(average.Keys) ==> Fractions(requested, average)[d] == Share(requested, average, d)
  {
    hide Fractions;
    hide Share;
    hide Compared;
    var fractions := Fractions(requested, average);
    assert fractions.Keys == Compared(average.Keys) by {
      NotEmpty(average.Keys);
      var d :| d in Compared(average.Keys);
      FractionIsShare(requested, average, d);
    }
    forall d | d in Compared(average.Keys) ensures fractions[d] == Share(requested, average, d) {
      FractionIsShare(requested, average, d);
    }
  }

  /** The numbers of a vector are listed once each. */
  lemma ListedInOrder(v: Vector, order: seq<ResourceType>)
    requires Enumerates(order, v.Keys)
    ensures forall i :: 0 <= i < |order| ==> order[i] in v
    ensures multiset(Listed(v, |ALL_DIMENSIONS|)) == multiset(Values(order, v))
  {
    hide Listed;
    hide ListedOrder;
    forall i | 0 <= i < |order| ensures order[i] in v {
      assert order[i] in order;
    }
    ListedAreValues(v, |ALL_DIMENSIONS|);
    AllListed(v);
    SameValues(ListedOrder(v, |ALL_DIMENSIONS|), order, v);
  }

  /** The score of a class, by the sums of its shares and of their squares, in whatever order. */
  lemma ClassVarianceBySums(nodes: seq<string>, capacities: map<string, Vector>, dims: set<ResourceType>, requested: Vector,
                            order: seq<ResourceType>)
    requires Scorable(nodes, capacities, dims, requested) && Enumerates(order, Compared(dims))
    ensures |order| >= 2
    ensures |order| as real * ((|order| - 1) as real * ClassVariance(nodes, capacities, dims, requested))
      == Spread(Shares(requested, Average(nodes, capacities, dims), order))
  {
    hide SampleVariance;
    hide Average;
    hide Fractions;
    hide Listed;
    hide Spread;
    hide Enumerates;
    hide Compared;
    FractionsBySums(requested, Average(nodes, capacities, dims), order);
    VarianceBySums(Listed(Fractions(requested, Average(nodes, capacities, dims)), |ALL_DIMENSIONS|));
  }

  lemma NotEmpty(dims: set<ResourceType>)
    requires dims != {}
    ensures exists d :: d in Compared(dims)
  {
    if MEMBW_READ in dims {
      assert MEMBW_FLAT in Compared(dims);
    } else {
      var d :| d in dims;
      assert d in Compared(dims);
    }
  }

  // ----- The class that is accepted -----

  /** The spread of the shares of a class. */
  ghost function ClassSpread(nodes: seq<string>, capacities: map<string, Vector>, dims: set<ResourceType>, requested: Vector,
                             order: seq<ResourceType>): real
    requires Scorable(nodes, capacities, dims, requested) && Enumerates(order, Compared(dims))
  {
    Spread(Shares(requested, Average(nodes, capacities, dims), order))
  }

  /** Classes are ordered by their spreads. */
  lemma OrderedBySpread(a: seq<string>, b: seq<string>, capacities: map<string, Vector>, dims: set<ResourceType>,
                        requested: Vector, order: seq<ResourceType>)
    requires Scorable(a, capacities, dims, requested) && Scorable(b, capacities, dims, requested)
    requires Enumerates(order, Compared(dims))
    ensures ClassVariance(a, capacities, dims, requested) <= ClassVariance(b, capacities, dims, requested) <==>
      ClassSpread(a, capacities, dims, requested, order) <= ClassSpread(b, capacities, dims, requested, order)
  {
    hide Scorable;
    hide ClassVariance;
    hide Shares;
    hide Average;
    hide Spread;
    hide Enumerates;
    ClassVarianceBySums(a, capacities, dims, requested, order);
    ClassVarianceBySums(b, capacities, dims, requested, order);
    TwoFactors(|order| as real, (|order| - 1) as real, ClassVariance(a, capacities, dims, requested),
               ClassVariance(b, capacities, dims, requested));
  }

  lemma TwoFactors(n: real, m: real, x: real, y: real)
    requires n > 0.0 && m > 0.0
    ensures x <= y <==> n * (m * x) <= n * (m * y)
  {
    SameFactor(m, x, y);
    SameFactor(n, m * x, m * y);
  }

  ghost predicate HasOffered(c: Classes, s: Shape, offered: set<string>) { exists n :: Lists(c, s, n) && n in offered }

  /** Exactly the offered nodes of the class are accepted. */
  ghost predicate Accepts(r: Fitting, c: Classes, best: Shape, offered: set<string>) {
    forall n :: n in r.accepted <==> Lists(c, best, n) && n in offered
  }

  ghost predicate SpreadsLeast(best: Shape, c: Classes, capacities: map<string, Vector>, dims: set<ResourceType>,
                               requested: Vector, order: seq<ResourceType>, offered: set<string>)
    requires best in c.at && AllScorable(c, capacities, dims, requested) && Enumerates(order, Compared(dims))
  {
    forall s :: s in c.at && HasOffered(c, s, offered) ==>
      ClassSpread(c.at[best], capacities, dims, requested, order) <= ClassSpread(c.at[s], capacities, dims, requested, order)
  }

  /** The nodes accepted are the offered ones of a class whose shares have the least spread among the classes with an offered
      node. */
  lemma AcceptedSpreadsLeast(r: Fitting, c: Classes, capacities: map<string, Vector>, dims: set<ResourceType>,
                             requested: Vector, order: seq<ResourceType>, offered: set<string>)
    requires AllScorable(c, capacities, dims, requested) && Enumerates(order, Compared(dims))
    requires IsBestClass(r, c, VariancesOf(c, capacities, dims, requested), offered)
    ensures exists best :: best in c.at && SpreadsLeast(best, c, capacities, dims, requested, order, offered)
                           && Accepts(r, c, best, offered)
  {
    hide Scorable;
    hide ClassVariance;
    hide ClassSpread;
    hide Enumerates;
    hide Compared;
    var variances := VariancesOf(c, capacities, dims, requested);
    var best :| best in c.at && r.accepted == Offered(c, best, offered) && IsLeast(best, c, variances, offered);
    forall s | s in c.at && HasOffered(c, s, offered)
      ensures ClassSpread(c.at[best], capacities, dims, requested, order) <= ClassSpread(c.at[s], capacities, dims, requested, order)
    {
      var n :| Lists(c, s, n) && n in offered;
      OfferedHas(c, s, offered, n);
      OrderedBySpread(c.at[best], c.at[s], capacities, dims, requested, order);
    }
    assert SpreadsLeast(best, c, capacities, dims, requested, order, offered);
    forall n ensures n in r.accepted <==> Lists(c, best, n) && n in offered {
      OfferedHas(c, best, offered, n);
    }
  }

  // ----- Two nodes -----

  function NodeOf(mem: real, cpu: real, bandwidth: real): Vector {
    map[MEM := mem, CPU := cpu, MEMBW_READ := bandwidth, MEMBW_WRITE := bandwidth]
  }

  function TwoNodes(): Dict<string, Vector> {
    Dict(["a", "b"], map["a" := NodeOf(120.0, 10.0, 25.0), "b" := NodeOf(40.0, 40.0, 20.0)])
  }

  const ASKED: Vector := map[MEM := 12.0, CPU := 4.0, MEMBW_READ := 20.0, MEMBW_WRITE := 0.0]
  const THREE: seq<ResourceType> := [MEM, CPU, MEMBW_FLAT]

  lemma ThreeAreCompared()
    ensures Enumerates(THREE, Compared(FOUR_DIMENSIONS))
  {
    assert Compared(FOUR_DIMENSIONS) == {MEM, CPU, MEMBW_FLAT};
    assert THREE[0] == MEM && THREE[1] == CPU && THREE[2] == MEMBW_FLAT;
  }

  lemma AverageOfOne(node: string, capacities: map<string, Vector>)
    requires node in capacities && SameDimensions(capacities, FOUR_DIMENSIONS)
    ensures Average([node], capacities, FOUR_DIMENSIONS) == capacities[node]
  {
    forall d | d in FOUR_DIMENSIONS ensures Average([node], capacities, FOUR_DIMENSIONS)[d] == capacities[node][d] {
      AverageIsMean([node], capacities, FOUR_DIMENSIONS, d);
      var column := Column([node], capacities, d);
      assert column[..0] == [] && Total(column[..0]) == 0.0 && Total(column) == capacities[node][d];
    }
  }

  lemma SpreadOfThree(x: real, y: real, z: real)
    ensures Spread([x, y, z]) == 3.0 * (x * x + y * y + z * z) - (x + y + z) * (x + y + z)
  {
    assert [x, y, z][..2] == [x, y] && [x, y][..1] == [x] && [x][..0] == [];
    assert Total([]) == 0.0 && Total([x]) == x && Total([x, y]) == x + y && Total([x, y, z]) == x + y + z;
    assert Squares([]) == 0.0 && Squares([x]) == x * x && Squares([x, y]) == x * x + y * y;
    assert Squares([x, y, z]) == x * x + y * y + z * z;
  }

  lemma SharesOf(mem: real, cpu: real, bandwidth: real)
    requires mem > 0.0 && cpu > 0.0 && bandwidth > 0.0
    ensures ASKED.Keys == NodeOf(mem, cpu, bandwidth).Keys && Capacity(NodeOf(mem, cpu, bandwidth))
    ensures forall i :: 0 <= i < |THREE| ==> THREE[i] in Compared(NodeOf(mem, cpu, bandwidth).Keys)
    ensures Shares(ASKED, NodeOf(mem, cpu, bandwidth), THREE) == [12.0 / mem, 4.0 / cpu, 20.0 / (2.0 * bandwidth)]
  {
    assert ASKED.Keys == {MEM, CPU, MEMBW_READ, MEMBW_WRITE};
    assert NodeOf(mem, cpu, bandwidth).Keys == {MEM, CPU, MEMBW_READ, MEMBW_WRITE};
    assert THREE[0] == MEM && THREE[1] == CPU && THREE[2] == MEMBW_FLAT;
  }

  lemma TwoNodesAreUsable()
    ensures Usable(TwoNodes(), FOUR_DIMENSIONS)
  {
    assert Trunc(25.0) == 25 && Trunc(20.0) == 20;
    assert TwoNodes().keys[0] == "a" && TwoNodes().keys[1] == "b";
    assert TwoNodes().Valid();
    assert TwoNodes().at["a"].Keys == FOUR_DIMENSIONS && TwoNodes().at["b"].Keys == FOUR_DIMENSIONS;
  }

  lemma OneIsScorable(node: string, capacities: map<string, Vector>)
    requires node in capacities && SameDimensions(capacities, FOUR_DIMENSIONS)
    requires forall d :: d in capacities[node] ==> capacities[node][d] > 0.0
    ensures Scorable([node], capacities, FOUR_DIMENSIONS, ASKED)
  {
    AverageOfOne(node, capacities);
    var there := capacities[node];
    assert ASKED.Keys == FOUR_DIMENSIONS;
    assert Capacity(there);
    ThreeAreCompared();
    FractionsBySums(ASKED, there, THREE);
  }

  lemma ShapesOfTwo()
    ensures ShapeOf(TwoNodes().at["a"]) != ShapeOf(TwoNodes().at["b"])
  {
    assert Trunc(120.0) == 120 && Trunc(40.0) == 40;
    assert ShapeOf(TwoNodes().at["a"])[MEM] == 120 && ShapeOf(TwoNodes().at["b"])[MEM] == 40;
  }

  function ShapeA(): Shape { ShapeOf(NodeOf(120.0, 10.0, 25.0)) }

  function ShapeB(): Shape { ShapeOf(NodeOf(40.0, 40.0, 20.0)) }

  lemma ClassesOfTwoNodes()
    ensures TwoNodes().Valid()
    ensures RealClasses(TwoNodes()) == Dict([ShapeA(), ShapeB()], map[ShapeA() := ["a"], ShapeB() := ["b"]])
  {
    hide ShapeOf;
    hide Reversed;
    TwoNodesAreUsable();
    ShapesOfTwo();
    NothingReversed(TwoNodes());
    NewClass(TwoNodes(), 0, EmptyDict(), ShapeA());
    var one := Dict([ShapeA()], map[ShapeA() := ["a"]]);
    assert [] + [ShapeA()] == [ShapeA()] && Reversed(TwoNodes(), 1) == one;
    NewClass(TwoNodes(), 1, one, ShapeB());
    assert one.keys + [ShapeB()] == [ShapeA(), ShapeB()];
  }

  lemma SpreadsOfTwo()
    ensures Scorable(["a"], TwoNodes().at, FOUR_DIMENSIONS, ASKED) && Scorable(["b"], TwoNodes().at, FOUR_DIMENSIONS, ASKED)
    ensures Enumerates(THREE, Compared(FOUR_DIMENSIONS))
    ensures ClassSpread(["a"], TwoNodes().at, FOUR_DIMENSIONS, ASKED, THREE) == 0.18
    ensures ClassSpread(["b"], TwoNodes().at, FOUR_DIMENSIONS, ASKED, THREE) == 0.24
  {
    hide Average;
    hide Scorable;
    hide Shares;
    hide Spread;
    hide Enumerates;
    TwoNodesAreUsable();
    ThreeAreCompared();
    OneIsScorable("a", TwoNodes().at);
    OneIsScorable("b", TwoNodes().at);
    AverageOfOne("a", TwoNodes().at);
    AverageOfOne("b", TwoNodes().at);
    SharesOf(120.0, 10.0, 25.0);
    SharesOf(40.0, 40.0, 20.0);
    SpreadOfThree(0.1, 0.4, 0.4);
    SpreadOfThree(0.3, 0.1, 0.5);
  }

  /** Classes of one node each, the first of less spread. */
  ghost predicate FirstSpreadsLess(c: Classes, capacities: map<string, Vector>, first: Shape, second: Shape) {
    && first != second && c.at == map[first := ["a"], second := ["b"]]
    && Enumerates(THREE, Compared(FOUR_DIMENSIONS))
    && Scorable(["a"], capacities, FOUR_DIMENSIONS, ASKED) && Scorable(["b"], capacities, FOUR_DIMENSIONS, ASKED)
    && ClassSpread(["a"], capacities, FOUR_DIMENSIONS, ASKED, THREE) < ClassSpread(["b"], capacities, FOUR_DIMENSIONS, ASKED, THREE)
  }

  lemma BestOfTwo(c: Classes, capacities: map<string, Vector>, first: Shape, second: Shape, best: Shape)
    requires FirstSpreadsLess(c, capacities, first, second) && best in c.at
    requires AllScorable(c, capacities, FOUR_DIMENSIONS, ASKED)
    requires SpreadsLeast(best, c, capacities, FOUR_DIMENSIONS, ASKED, THREE, {"a", "b"})
    ensures forall n :: Lists(c, best, n) <==> n == "a"
  {
    hide Scorable;
    hide ClassSpread;
    hide Enumerates;
    assert Lists(c, first, "a");
    assert HasOffered(c, first, {"a", "b"});
    assert best == first || best == second;
  }

  lemma FirstOfTwo(r: Fitting, c: Classes, capacities: map<string, Vector>, first: Shape, second: Shape)
    requires FirstSpreadsLess(c, capacities, first, second) && AllScorable(c, capacities, FOUR_DIMENSIONS, ASKED)
    requires IsBestClass(r, c, VariancesOf(c, capacities, FOUR_DIMENSIONS, ASKED), {"a", "b"})
    ensures forall n :: n in r.accepted <==> n == "a"
  {
    hide AllScorable;
    hide IsBestClass;
    hide SpreadsLeast;
    hide VariancesOf;
    hide FirstSpreadsLess;
    hide Lists;
    ThreeAreCompared();
    hide Enumerates;
    AcceptedSpreadsLeast(r, c, capacities, FOUR_DIMENSIONS, ASKED, THREE, {"a", "b"});
    var best :| best in c.at && SpreadsLeast(best, c, capacities, FOUR_DIMENSIONS, ASKED, THREE, {"a", "b"})
      && Accepts(r, c, best, {"a", "b"});
    BestOfTwo(c, capacities, first, second, best);
  }

  lemma RestFails(r: Fitting, c: Classes, variances: map<Shape, real>)
    requires variances.Keys == c.at.Keys && IsBestClass(r, c, variances, {"a", "b"})
    requires forall n :: n in r.accepted <==> n == "a"
    ensures r.accepted == {"a"} && r.failed == {"b"}
  {
    forall n ensures n in r.failed <==> n == "b" {
      assert n in r.accepted + r.failed <==> n in {"a", "b"};
    }
  }

  lemma TwoAreScorable()
    ensures Usable(TwoNodes(), FOUR_DIMENSIONS)
    ensures AllScorable(ClassesOf(TwoNodes(), None, FOUR_DIMENSIONS), TwoNodes().at, FOUR_DIMENSIONS, ASKED)
  {
    hide Scorable;
    hide ShapeOf;
    hide RealClasses;
    TwoNodesAreUsable();
    ClassesOfTwoNodes();
    SpreadsOfTwo();
  }

  /** Shares of a tenth, four tenths and four tenths on one node, three, one and five tenths on the other: the first is
      accepted, with a variance of 0.03 against 0.04. */
  lemma FirstIsAccepted(r: Fitting)
    ensures Usable(TwoNodes(), FOUR_DIMENSIONS)
    ensures var c := ClassesOf(TwoNodes(), None, FOUR_DIMENSIONS);
      && AllScorable(c, TwoNodes().at, FOUR_DIMENSIONS, ASKED)
      && (IsBestClass(r, c, VariancesOf(c, TwoNodes().at, FOUR_DIMENSIONS, ASKED), {"a", "b"}) ==>
            r.accepted == {"a"} && r.failed == {"b"})
  {
    hide AllScorable;
    hide IsBestClass;
    hide ClassSpread;
    hide ShapeOf;
    hide RealClasses;
    hide VariancesOf;
    hide Enumerates;
    hide TwoNodes;
    TwoAreScorable();
    var c := ClassesOf(TwoNodes(), None, FOUR_DIMENSIONS);
    if IsBestClass(r, c, VariancesOf(c, TwoNodes().at, FOUR_DIMENSIONS, ASKED), {"a", "b"}) {
      ClassesOfTwoNodes();
      ShapesAreTwo();
      SpreadsOfTwo();
      FirstOfTwo(r, c, TwoNodes().at, ShapeA(), ShapeB());
      RestFails(r, c, VariancesOf(c, TwoNodes().at, FOUR_DIMENSIONS, ASKED));
    }
  }

  lemma ShapesAreTwo()
    ensures ShapeA() != ShapeB()
  {
    ShapesOfTwo();
  }
}
