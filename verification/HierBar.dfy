/** Filtering nodes by class, wca/scheduler/algorithms/hierbar.py: nodes of the same shape form a class, classes may
    be merged into two, and the offered nodes of the class that suits the application best are accepted. */
module HierBar {
  import opened Dicts
  import opened Numbers
  import opened Ordering
  import opened ResourceVectors

  /** A node's capacities in whole numbers. */
  type Shape = map<ResourceType, int>

  /** The nodes of every shape, shapes in the order in which they were met. */
  type Classes = Dict<Shape, seq<string>>

  function ShapeOf(v: Vector): Shape { map d | d in v :: Trunc(v[d]) }

  /** The node is listed in the class of the shape. */
  ghost predicate Lists(c: Classes, shape: Shape, node: string) { shape in c.at && node in c.at[shape] }

  /** Every node is listed in exactly one class. */
  ghost predicate Partitions(c: Classes, nodes: set<string>) {
    && c.Valid()
    && (forall n :: n in nodes ==> exists s :: Lists(c, s, n))
    && (forall s, n :: Lists(c, s, n) ==> n in nodes)
    && (forall s, t, n :: Lists(c, s, n) && Lists(c, t, n) ==> s == t)
  }

  // ----- reverse_node_shapes -----

  /** One more node in the class of its shape. */
  function WithNode(c: Classes, shape: Shape, node: string): Classes {
    c.Put(shape, (if shape in c.at then c.at[shape] else []) + [node])
  }

  function Reversed(capacities: Dict<string, Vector>, k: nat): Classes
    requires capacities.Valid() && k <= |capacities.keys|
  {
    if k == 0 then EmptyDict()
    else
      assert capacities.keys[k - 1] in capacities.keys;
      WithNode(Reversed(capacities, k - 1), ShapeOf(capacities.at[capacities.keys[k - 1]]), capacities.keys[k - 1])
  }

  method ReverseNodeShapes(capacities: Dict<string, Vector>) returns (c: Classes)
    requires capacities.Valid()
    ensures c == Reversed(capacities, |capacities.keys|)
  {
    c := EmptyDict();
    for k := 0 to |capacities.keys|
      invariant c == Reversed(capacities, k)
    {
      assert capacities.keys[k] in capacities.keys;
      c := WithNode(c, ShapeOf(capacities.at[capacities.keys[k]]), capacities.keys[k]);
    }
  }

  lemma WithNodeLists(c: Classes, shape: Shape, node: string, s: Shape, n: string)
    requires c.Valid()
    ensures WithNode(c, shape, node).Valid()
    ensures Lists(WithNode(c, shape, node), s, n) <==> Lists(c, s, n) || (s == shape && n == node)
  {
  }

  lemma {:induction false} ReversedLists(capacities: Dict<string, Vector>, k: nat, shape: Shape, node: string)
    requires capacities.Valid() && k <= |capacities.keys|
    ensures Reversed(capacities, k).Valid()
    ensures Lists(Reversed(capacities, k), shape, node) <==>
      node in capacities.keys[..k] && node in capacities.at && shape == ShapeOf(capacities.at[node])
  {
    hide ShapeOf;
    hide WithNode;
    if k > 0 {
      ReversedLists(capacities, k - 1, shape, node);
      var last := capacities.keys[k - 1];
      assert capacities.keys[..k] == capacities.keys[..k - 1] + [last];
      assert last in capacities.keys;
      WithNodeLists(Reversed(capacities, k - 1), ShapeOf(capacities.at[last]), last, shape, node);
    }
  }

  /** Grouping by shape puts every node into exactly one class, that of its own shape. */
  lemma ShapesPartitionNodes(capacities: Dict<string, Vector>)
    requires capacities.Valid()
    ensures Partitions(Reversed(capacities, |capacities.keys|), capacities.at.Keys)
    ensures forall s, n :: Lists(Reversed(capacities, |capacities.keys|), s, n) <==>
      n in capacities.at && s == ShapeOf(capacities.at[n])
  {
    hide ShapeOf;
    hide Reversed;
    hide Lists;
    var c := Reversed(capacities, |capacities.keys|);
    assert capacities.keys[..|capacities.keys|] == capacities.keys;
    ReversedLists(capacities, |capacities.keys|, map[], "");
    forall s, n ensures Lists(c, s, n) <==> n in capacities.at && s == ShapeOf(capacities.at[n]) {
      ReversedLists(capacities, |capacities.keys|, s, n);
    }
    forall n | n in capacities.at ensures exists s :: Lists(c, s, n) {
      assert Lists(c, ShapeOf(capacities.at[n]), n);
    }
  }

  // ----- _merge_shapes -----

  /** All nodes have the same dimensions, at least one. */
  ghost predicate SameDimensions(capacities: map<string, Vector>, dims: set<ResourceType>) {
    dims != {} && forall n :: n in capacities ==> capacities[n].Keys == dims
  }

  ghost predicate AllKnown(nodes: seq<string>, capacities: map<string, Vector>) {
    forall i :: 0 <= i < |nodes| ==> nodes[i] in capacities
  }

  function TotalCapacity(nodes: seq<string>, capacities: map<string, Vector>, dims: set<ResourceType>, k: nat): (r: Vector)
    requires 0 < k <= |nodes| && AllKnown(nodes, capacities) && SameDimensions(capacities, dims)
    ensures r.Keys == dims
  {
    if k == 1 then capacities[nodes[0]]
    else SumResources(TotalCapacity(nodes, capacities, dims, k - 1), capacities[nodes[k - 1]])
  }

  function Everywhere(dims: set<ResourceType>, x: real): (r: Vector)
    ensures r.Keys == dims && forall d :: d in dims ==> r[d] == x
  {
    map d | d in dims :: x
  }

  /** `_calc_average_resources`. */
  function Average(nodes: seq<string>, capacities: map<string, Vector>, dims: set<ResourceType>): (r: Vector)
    requires AllKnown(nodes, capacities) && SameDimensions(capacities, dims)
    requires MEMBW_READ in dims ==> MEMBW_WRITE in dims
    ensures r.Keys == if nodes == [] then {} else dims
  {
    if nodes == [] then map[]
    else Divided(TotalCapacity(nodes, capacities, dims, |nodes|), Everywhere(dims, |nodes| as real), None)
  }

  method CalcAverageResources(nodes: seq<string>, capacities: map<string, Vector>, dims: set<ResourceType>)
    returns (r: Vector)
    requires AllKnown(nodes, capacities) && SameDimensions(capacities, dims)
    requires MEMBW_READ in dims ==> MEMBW_WRITE in dims
    ensures r == Average(nodes, capacities, dims)
  {
    hide Divided;
    hide SumResources;
    if nodes == [] {
      return map[];
    }
    var total := capacities[nodes[0]];
    for k := 1 to |nodes|
      invariant total == TotalCapacity(nodes, capacities, dims, k)
    {
      total := SumResources(total, capacities[nodes[k]]);
    }
    r := DivideResources(total, Everywhere(dims, |nodes| as real), None);
  }

  function NewShape(nodes: seq<string>, capacities: map<string, Vector>, dims: set<ResourceType>): (r: Shape)
    requires AllKnown(nodes, capacities) && SameDimensions(capacities, dims)
    requires MEMBW_READ in dims ==> MEMBW_WRITE in dims
    ensures r == map[] <==> nodes == []
  {
    var a := Average(nodes, capacities, dims);
    var s := ShapeOf(a);
    assert s.Keys == a.Keys;
    s
  }

  /** The nodes of several shapes, one shape after the other. */
  function NodesOf(c: Classes, shapes: seq<Shape>, k: nat): seq<string>
    requires k <= |shapes|
  {
    if k == 0 then []
    else NodesOf(c, shapes, k - 1) + if shapes[k - 1] in c.at then c.at[shapes[k - 1]] else []
  }

  predicate HasWriteBandwidth(s: Shape) { MEMBW_READ in s ==> MEMBW_WRITE in s && s[MEMBW_WRITE] != 0 }

  function ShapeRatio(s: Shape): Option<real>
    requires HasWriteBandwidth(s)
  {
    if MEMBW_READ in s then Some(s[MEMBW_READ] as real / s[MEMBW_WRITE] as real) else None
  }

  datatype Sides = Sides(above: seq<Shape>, below: seq<Shape>)

  /** The shapes above and below the threshold; a shape without bandwidth is left out of both. */
  function Split(shapes: seq<Shape>, threshold: real, k: nat): Sides
    requires k <= |shapes| && forall i :: 0 <= i < |shapes| ==> HasWriteBandwidth(shapes[i])
  {
    if k == 0 then Sides([], [])
    else
      var before := Split(shapes, threshold, k - 1);
      var ratio := ShapeRatio(shapes[k - 1]);
      if ratio.None? then before
      else if ratio.value > threshold then before.(above := before.above + [shapes[k - 1]])
      else before.(below := before.below + [shapes[k - 1]])
  }

  ghost predicate Mergeable(c: Classes, capacities: map<string, Vector>, dims: set<ResourceType>) {
    && c.Valid() && SameDimensions(capacities, dims) && (MEMBW_READ in dims ==> MEMBW_WRITE in dims)
    && (forall i :: 0 <= i < |c.keys| ==> HasWriteBandwidth(c.keys[i]))
    && (forall s :: s in c.at ==> c.at[s] != [] && AllKnown(c.at[s], capacities))
  }

  lemma {:induction false} NodesAreKnown(c: Classes, shapes: seq<Shape>, k: nat, capacities: map<string, Vector>)
    requires k <= |shapes| && forall s :: s in c.at ==> AllKnown(c.at[s], capacities)
    ensures AllKnown(NodesOf(c, shapes, k), capacities)
  {
    if k > 0 {
      NodesAreKnown(c, shapes, k - 1, capacities);
    }
  }

  /** A class for the nodes, if there are any; a class of the same shape is replaced. */
  function WithClass(c: Classes, shape: Shape, nodes: seq<string>): Classes {
    if shape == map[] then c else c.Put(shape, nodes)
  }

  ghost function MergedInto(c: Classes, sides: Sides, capacities: map<string, Vector>, dims: set<ResourceType>): Classes
    requires Mergeable(c, capacities, dims)
  {
    var above, below := NodesOf(c, sides.above, |sides.above|), NodesOf(c, sides.below, |sides.below|);
    NodesAreKnown(c, sides.above, |sides.above|, capacities);
    NodesAreKnown(c, sides.below, |sides.below|, capacities);
    WithClass(WithClass(EmptyDict(), NewShape(above, capacities, dims), above), NewShape(below, capacities, dims), below)
  }

  ghost function Merged(c: Classes, threshold: real, capacities: map<string, Vector>, dims: set<ResourceType>): Classes
    requires Mergeable(c, capacities, dims)
  {
    if |c.keys| < 2 then c else MergedInto(c, Split(c.keys, threshold, |c.keys|), capacities, dims)
  }

  /** `create_new_shape`. */
  method CreateNewShape(c: Classes, shapes: seq<Shape>, capacities: map<string, Vector>, dims: set<ResourceType>)
    returns (shape: Shape, nodes: seq<string>)
    requires Mergeable(c, capacities, dims) && forall i :: 0 <= i < |shapes| ==> shapes[i] in c.at
    ensures nodes == NodesOf(c, shapes, |shapes|) && AllKnown(nodes, capacities)
    ensures shape == NewShape(nodes, capacities, dims)
  {
    hide Average;
    nodes := [];
    for k := 0 to |shapes|
      invariant nodes == NodesOf(c, shapes, k)
    {
      nodes := nodes + c.at[shapes[k]];
    }
    NodesAreKnown(c, shapes, |shapes|, capacities);
    var average := CalcAverageResources(nodes, capacities, dims);
    shape := ShapeOf(average);
  }

  method SplitShapes(shapes: seq<Shape>, threshold: real) returns (sides: Sides)
    requires forall i :: 0 <= i < |shapes| ==> HasWriteBandwidth(shapes[i])
    ensures sides == Split(shapes, threshold, |shapes|)
    ensures forall i :: 0 <= i < |sides.above| ==> sides.above[i] in shapes
    ensures forall i :: 0 <= i < |sides.below| ==> sides.below[i] in shapes
  {
    var above: seq<Shape>, below: seq<Shape> := [], [];
    for k := 0 to |shapes|
      invariant Sides(above, below) == Split(shapes, threshold, k)
      invariant forall i :: 0 <= i < |above| ==> above[i] in shapes
      invariant forall i :: 0 <= i < |below| ==> below[i] in shapes
    {
      var ratio := ShapeRatio(shapes[k]);
      if ratio.Some? {
        if ratio.value > threshold {
          above := above + [shapes[k]];
        } else {
          below := below + [shapes[k]];
        }
      }
    }
    sides := Sides(above, below);
  }

  method MergeShapes(c: Classes, threshold: real, capacities: map<string, Vector>, dims: set<ResourceType>)
    returns (r: Classes)
    requires Mergeable(c, capacities, dims)
    ensures r == Merged(c, threshold, capacities, dims)
  {
    hide NewShape;
    hide Split;
    if |c.keys| < 2 {
      return c;
    }
    var sides := SplitShapes(c.keys, threshold);
    var above, aboveNodes := CreateNewShape(c, sides.above, capacities, dims);
    var below, belowNodes := CreateNewShape(c, sides.below, capacities, dims);
    r := EmptyDict();
    if above != map[] {
      r := r.Put(above, aboveNodes);
    }
    if below != map[] {
      r := r.Put(below, belowNodes);
    }
  }

  // ----- When merging keeps every node in one class -----

  lemma {:induction false} NodesOfHas(c: Classes, shapes: seq<Shape>, k: nat, n: string)
    requires k <= |shapes|
    ensures n in NodesOf(c, shapes, k) <==> exists i :: 0 <= i < k && Lists(c, shapes[i], n)
  {
    if k > 0 {
      NodesOfHas(c, shapes, k - 1, n);
      if Lists(c, shapes[k - 1], n) {
        assert k - 1 < k;
      }
    }
  }

  predicate IsAbove(s: Shape, threshold: real) {
    HasWriteBandwidth(s) && ShapeRatio(s).Some? && ShapeRatio(s).value > threshold
  }

  predicate IsBelow(s: Shape, threshold: real) {
    HasWriteBandwidth(s) && ShapeRatio(s).Some? && ShapeRatio(s).value <= threshold
  }

  lemma {:induction false} SplitHas(shapes: seq<Shape>, threshold: real, k: nat, s: Shape)
    requires k <= |shapes| && forall i :: 0 <= i < |shapes| ==> HasWriteBandwidth(shapes[i])
    ensures s in Split(shapes, threshold, k).above <==> s in shapes[..k] && IsAbove(s, threshold)
    ensures s in Split(shapes, threshold, k).below <==> s in shapes[..k] && IsBelow(s, threshold)
  {
    hide HasWriteBandwidth;
    hide ShapeRatio;
    if k > 0 {
      SplitHas(shapes, threshold, k - 1, s);
      assert shapes[..k] == shapes[..k - 1] + [shapes[k - 1]];
    }
  }

  /** The nodes of the shapes above or below the threshold. */
  ghost function Above(c: Classes, threshold: real): seq<string>
    requires forall i :: 0 <= i < |c.keys| ==> HasWriteBandwidth(c.keys[i])
  {
    var shapes := Split(c.keys, threshold, |c.keys|).above; NodesOf(c, shapes, |shapes|)
  }

  ghost function Below(c: Classes, threshold: real): seq<string>
    requires forall i :: 0 <= i < |c.keys| ==> HasWriteBandwidth(c.keys[i])
  {
    var shapes := Split(c.keys, threshold, |c.keys|).below; NodesOf(c, shapes, |shapes|)
  }

  lemma AboveHas(c: Classes, threshold: real, n: string)
    requires c.Valid() && forall i :: 0 <= i < |c.keys| ==> HasWriteBandwidth(c.keys[i])
    ensures n in Above(c, threshold) <==> exists s :: Lists(c, s, n) && IsAbove(s, threshold)
    ensures n in Below(c, threshold) <==> exists s :: Lists(c, s, n) && IsBelow(s, threshold)
  {
    hide HasWriteBandwidth;
    hide IsAbove;
    hide IsBelow;
    var sides := Split(c.keys, threshold, |c.keys|);
    assert c.keys[..|c.keys|] == c.keys;
    NodesOfHas(c, sides.above, |sides.above|, n);
    NodesOfHas(c, sides.below, |sides.below|, n);
    forall s ensures s in sides.above <==> s in c.keys && IsAbove(s, threshold) { SplitHas(c.keys, threshold, |c.keys|, s); }
    forall s ensures s in sides.below <==> s in c.keys && IsBelow(s, threshold) { SplitHas(c.keys, threshold, |c.keys|, s); }
    if s :| Lists(c, s, n) && IsAbove(s, threshold) {
      assert s in c.keys && s in sides.above;
      var i :| 0 <= i < |sides.above| && sides.above[i] == s;
    }
    if s :| Lists(c, s, n) && IsBelow(s, threshold) {
      assert s in c.keys && s in sides.below;
      var i :| 0 <= i < |sides.below| && sides.below[i] == s;
    }
    if n in Above(c, threshold) {
      var i :| 0 <= i < |sides.above| && Lists(c, sides.above[i], n);
      assert sides.above[i] in sides.above;
    }
    if n in Below(c, threshold) {
      var i :| 0 <= i < |sides.below| && Lists(c, sides.below[i], n);
      assert sides.below[i] in sides.below;
    }
  }

  lemma SidesAreKnown(c: Classes, threshold: real, capacities: map<string, Vector>, dims: set<ResourceType>)
    requires Mergeable(c, capacities, dims)
    ensures AllKnown(Above(c, threshold), capacities) && AllKnown(Below(c, threshold), capacities)
  {
    hide Split;
    var sides := Split(c.keys, threshold, |c.keys|);
    NodesAreKnown(c, sides.above, |sides.above|, capacities);
    NodesAreKnown(c, sides.below, |sides.below|, capacities);
  }

  /** Both sides of the threshold have nodes and the same averaged shape, so that one replaces the other. */
  ghost predicate Collide(c: Classes, threshold: real, capacities: map<string, Vector>, dims: set<ResourceType>)
    requires Mergeable(c, capacities, dims)
  {
    SidesAreKnown(c, threshold, capacities, dims);
    var above, below := Above(c, threshold), Below(c, threshold);
    above != [] && below != [] && NewShape(above, capacities, dims) == NewShape(below, capacities, dims)
  }

  lemma MergedLists(c: Classes, threshold: real, capacities: map<string, Vector>, dims: set<ResourceType>, s: Shape, n: string)
    requires Mergeable(c, capacities, dims) && |c.keys| >= 2
    ensures AllKnown(Above(c, threshold), capacities) && AllKnown(Below(c, threshold), capacities)
    ensures Merged(c, threshold, capacities, dims).Valid()
    ensures Lists(Merged(c, threshold, capacities, dims), s, n) <==>
      (n in Below(c, threshold) && s == NewShape(Below(c, threshold), capacities, dims)) ||
      (n in Above(c, threshold) && s == NewShape(Above(c, threshold), capacities, dims) && !Collide(c, threshold, capacities, dims))
  {
    hide Split;
    hide NodesOf;
    hide Average;
    hide WithClass;
    hide Lists;
    SidesAreKnown(c, threshold, capacities, dims);
    var above, below := Above(c, threshold), Below(c, threshold);
    TwoClasses(NewShape(above, capacities, dims), above, NewShape(below, capacities, dims), below, s, n);
  }

  lemma TwoClasses(above: Shape, aboveNodes: seq<string>, below: Shape, belowNodes: seq<string>, s: Shape, n: string)
    requires (above == map[] <==> aboveNodes == []) && (below == map[] <==> belowNodes == [])
    ensures var m := WithClass(WithClass(EmptyDict(), above, aboveNodes), below, belowNodes);
      m.Valid() &&
      (Lists(m, s, n) <==>
        (n in belowNodes && s == below) ||
        (n in aboveNodes && s == above && !(aboveNodes != [] && belowNodes != [] && above == below)))
  {
  }

  /** Every class has a bandwidth ratio, and the two sides do not collide. */
  ghost predicate MergesSafely(c: Classes, threshold: real, capacities: map<string, Vector>, dims: set<ResourceType>)
    requires Mergeable(c, capacities, dims)
  {
    && (forall i :: 0 <= i < |c.keys| ==> ShapeRatio(c.keys[i]).Some?)
    && !Collide(c, threshold, capacities, dims)
  }

  lemma SomeSide(c: Classes, threshold: real, s: Shape, n: string)
    requires c.Valid() && forall i :: 0 <= i < |c.keys| ==> HasWriteBandwidth(c.keys[i])
    requires Lists(c, s, n)
    ensures HasWriteBandwidth(s)
    ensures ShapeRatio(s).Some? ==> n in Above(c, threshold) || n in Below(c, threshold)
  {
    assert s in c.keys;
    AboveHas(c, threshold, n);
    if ShapeRatio(s).Some? {
      assert IsAbove(s, threshold) || IsBelow(s, threshold);
    }
  }

  lemma OneSide(c: Classes, threshold: real, nodes: set<string>, n: string)
    requires Partitions(c, nodes) && forall i :: 0 <= i < |c.keys| ==> HasWriteBandwidth(c.keys[i])
    ensures !(n in Above(c, threshold) && n in Below(c, threshold))
    ensures n in Above(c, threshold) || n in Below(c, threshold) ==> n in nodes
  {
    hide Above;
    hide Below;
    AboveHas(c, threshold, n);
  }

  lemma SafeMergePartitions(c: Classes, threshold: real, capacities: map<string, Vector>, dims: set<ResourceType>,
                            nodes: set<string>)
    requires Mergeable(c, capacities, dims) && |c.keys| >= 2 && Partitions(c, nodes)
    requires MergesSafely(c, threshold, capacities, dims)
    ensures Partitions(Merged(c, threshold, capacities, dims), nodes)
  {
    hide Merged;
    hide Above;
    hide Below;
    hide Collide;
    hide NewShape;
    var m := Merged(c, threshold, capacities, dims);
    MergedLists(c, threshold, capacities, dims, map[], "");
    forall n | n in nodes ensures exists s :: Lists(m, s, n) {
      var s :| Lists(c, s, n);
      SomeSide(c, threshold, s, n);
      assert s in c.keys;
      if n in Below(c, threshold) {
        MergedLists(c, threshold, capacities, dims, NewShape(Below(c, threshold), capacities, dims), n);
      } else {
        MergedLists(c, threshold, capacities, dims, NewShape(Above(c, threshold), capacities, dims), n);
      }
    }
    forall s, n | Lists(m, s, n) ensures n in nodes {
      MergedLists(c, threshold, capacities, dims, s, n);
      OneSide(c, threshold, nodes, n);
    }
    forall s, t, n | Lists(m, s, n) && Lists(m, t, n) ensures s == t {
      MergedLists(c, threshold, capacities, dims, s, n);
      MergedLists(c, threshold, capacities, dims, t, n);
      OneSide(c, threshold, nodes, n);
    }
  }

  /** A node that is listed nowhere. */
  ghost predicate SomeIsLost(c: Classes, nodes: set<string>) {
    exists n :: n in nodes && forall s :: !Lists(c, s, n)
  }

  /** A class without ratio loses its nodes. */
  lemma UnratedIsLost(c: Classes, threshold: real, capacities: map<string, Vector>, dims: set<ResourceType>,
                      nodes: set<string>, i: nat)
    requires Mergeable(c, capacities, dims) && |c.keys| >= 2 && Partitions(c, nodes)
    requires i < |c.keys| && ShapeRatio(c.keys[i]).None?
    ensures SomeIsLost(Merged(c, threshold, capacities, dims), nodes)
  {
    hide Merged;
    hide Above;
    hide Below;
    var s := c.keys[i];
    assert s in c.keys && c.at[s] != [];
    var n := c.at[s][0];
    assert Lists(c, s, n);
    AboveHas(c, threshold, n);
    forall t ensures !Lists(Merged(c, threshold, capacities, dims), t, n) {
      MergedLists(c, threshold, capacities, dims, t, n);
    }
  }

  /** When the sides collide, the nodes above the threshold are lost. */
  lemma CollisionLoses(c: Classes, threshold: real, capacities: map<string, Vector>, dims: set<ResourceType>, nodes: set<string>)
    requires Mergeable(c, capacities, dims) && |c.keys| >= 2 && Partitions(c, nodes)
    requires Collide(c, threshold, capacities, dims)
    ensures SomeIsLost(Merged(c, threshold, capacities, dims), nodes)
  {
    hide Merged;
    hide Above;
    hide Below;
    hide NewShape;
    var n := Above(c, threshold)[0];
    OneSide(c, threshold, nodes, n);
    forall t ensures !Lists(Merged(c, threshold, capacities, dims), t, n) {
      MergedLists(c, threshold, capacities, dims, t, n);
    }
  }

  /** Merging keeps every node in exactly one class exactly when every class has a bandwidth ratio and the two
      averaged shapes differ. */
  lemma MergeKeepsPartitionIff(c: Classes, threshold: real, capacities: map<string, Vector>, dims: set<ResourceType>,
                               nodes: set<string>)
    requires Mergeable(c, capacities, dims) && |c.keys| >= 2 && Partitions(c, nodes)
    ensures Partitions(Merged(c, threshold, capacities, dims), nodes) <==> MergesSafely(c, threshold, capacities, dims)
  {
    hide Merged;
    hide Lists;
    hide Collide;
    if MergesSafely(c, threshold, capacities, dims) {
      SafeMergePartitions(c, threshold, capacities, dims, nodes);
    } else if Collide(c, threshold, capacities, dims) {
      CollisionLoses(c, threshold, capacities, dims, nodes);
    } else {
      var i :| 0 <= i < |c.keys| && !ShapeRatio(c.keys[i]).Some?;
      UnratedIsLost(c, threshold, capacities, dims, nodes, i);
    }
  }

  // ----- app_fit_nodes -----

  /** The variance of what the application asks for, as fractions of a class's average node. */
  function Fractions(requested: Vector, average: Vector): Vector
    requires requested.Keys == average.Keys && Capacity(average) && forall d :: d in average ==> average[d] != 0.0
  {
    FlatIsNotZero(average);
    Divided(requested, average, ReadWriteRatio(average))
  }

  lemma FlatIsNotZero(average: Vector)
    requires Capacity(average) && forall d :: d in average ==> average[d] != 0.0
    ensures forall d :: d in ForDivision(average, ReadWriteRatio(average)) ==> ForDivision(average, ReadWriteRatio(average))[d] != 0.0
  {
    if MEMBW_READ in average {
      var ratio := ReadWriteRatio(average).value;
      assert ratio * average[MEMBW_WRITE] > 0.0;
    }
  }

  const ALL_DIMENSIONS: seq<ResourceType> := [MEM, CPU, MEMBW_WRITE, MEMBW_READ, WSS, MEMBW_FLAT]

  function Listed(v: Vector, k: nat): seq<real>
    requires k <= |ALL_DIMENSIONS|
  {
    if k == 0 then [] else Listed(v, k - 1) + if ALL_DIMENSIONS[k - 1] in v then [v[ALL_DIMENSIONS[k - 1]]] else []
  }

  function Sum(s: seq<real>, k: nat): real
    requires k <= |s|
  {
    if k == 0 then 0.0 else Sum(s, k - 1) + s[k - 1]
  }

  function Product(x: real, y: real): real { x * y }

  function SquaresAround(s: seq<real>, mean: real, k: nat): real
    requires k <= |s|
  {
    if k == 0 then 0.0 else SquaresAround(s, mean, k - 1) + Product(s[k - 1] - mean, s[k - 1] - mean)
  }

  /** The square of `statistics.stdev`, by which classes are compared just as well. */
  function SampleVariance(s: seq<real>): real
    requires |s| >= 2
  {
    SquaresAround(s, Sum(s, |s|) / |s| as real, |s|) / (|s| - 1) as real
  }

  /** What scoring a class takes: an average node with capacities to divide by, and fractions to compare. */
  ghost predicate Scorable(nodes: seq<string>, capacities: map<string, Vector>, dims: set<ResourceType>, requested: Vector) {
    && AllKnown(nodes, capacities) && SameDimensions(capacities, dims) && requested.Keys == dims && nodes != []
    && (MEMBW_READ in dims ==> MEMBW_WRITE in dims)
    && var average := Average(nodes, capacities, dims);
       Capacity(average) && (forall d :: d in average ==> average[d] != 0.0)
       && |Listed(Fractions(requested, average), |ALL_DIMENSIONS|)| >= 2
  }

  ghost function ClassVariance(nodes: seq<string>, capacities: map<string, Vector>, dims: set<ResourceType>, requested: Vector): real
    requires Scorable(nodes, capacities, dims, requested)
  {
    SampleVariance(Listed(Fractions(requested, Average(nodes, capacities, dims)), |ALL_DIMENSIONS|))
  }

  /** The body of the loop over the classes. */
  method ScoreClass(nodes: seq<string>, capacities: map<string, Vector>, dims: set<ResourceType>, requested: Vector)
    returns (variance: real)
    requires Scorable(nodes, capacities, dims, requested)
    ensures variance == ClassVariance(nodes, capacities, dims, requested)
  {
    hide Average;
    hide SampleVariance;
    hide Divided;
    var average := CalcAverageResources(nodes, capacities, dims);
    FlatIsNotZero(average);
    FractionsMean(requested, average);
    var fractions := DivideResources(requested, average, ReadWriteRatio(average));
    variance := SampleVariance(Listed(fractions, |ALL_DIMENSIONS|));
  }

  /** `calculate_class_variances`. */
  method CalculateClassVariances(c: Classes, capacities: map<string, Vector>, dims: set<ResourceType>, requested: Vector)
    returns (variances: map<Shape, real>)
    requires c.Valid() && forall s :: s in c.at ==> Scorable(c.at[s], capacities, dims, requested)
    ensures variances.Keys == c.at.Keys
    ensures forall s :: s in c.at ==> variances[s] == ClassVariance(c.at[s], capacities, dims, requested)
  {
    hide Scorable;
    hide ClassVariance;
    variances := map[];
    for k := 0 to |c.keys|
      invariant forall s :: s in variances <==> s in c.keys[..k]
      invariant forall s :: s in variances ==> s in c.at && variances[s] == ClassVariance(c.at[s], capacities, dims, requested)
    {
      var shape := c.keys[k];
      assert shape in c.keys && c.keys[..k + 1] == c.keys[..k] + [shape];
      var variance := ScoreClass(c.at[shape], capacities, dims, requested);
      variances := variances[shape := variance];
    }
    assert c.keys[..|c.keys|] == c.keys;
    assert variances.Keys == c.at.Keys;
  }

  lemma FractionsMean(requested: Vector, average: Vector)
    requires requested.Keys == average.Keys && Capacity(average) && forall d :: d in average ==> average[d] != 0.0
    requires forall d :: d in ForDivision(average, ReadWriteRatio(average)) ==> ForDivision(average, ReadWriteRatio(average))[d] != 0.0
    ensures Fractions(requested, average) == Divided(requested, average, ReadWriteRatio(average))
  {
  }

  lemma PositiveProduct(x: real, y: real)
    requires x > 0.0 && y > 0.0
    ensures Product(x, y) > 0.0
  {
  }

  lemma NegativeProduct(x: real, y: real)
    requires x < 0.0 && y < 0.0
    ensures Product(x, y) > 0.0
  {
  }

  lemma ZeroProduct(x: real, y: real)
    requires x == 0.0
    ensures Product(x, y) == 0.0
  {
  }

  lemma SquareIsPositive(x: real)
    ensures Product(x, x) >= 0.0 && (Product(x, x) == 0.0 <==> x == 0.0)
  {
    hide Product;
    if x > 0.0 {
      PositiveProduct(x, x);
    } else if x < 0.0 {
      NegativeProduct(x, x);
    } else {
      ZeroProduct(x, x);
    }
  }

  lemma {:induction false} NoSquares(s: seq<real>, mean: real, k: nat)
    requires k <= |s|
    ensures SquaresAround(s, mean, k) >= 0.0
    ensures SquaresAround(s, mean, k) == 0.0 <==> forall i :: 0 <= i < k ==> s[i] == mean
  {
    hide Product;
    if k > 0 {
      NoSquares(s, mean, k - 1);
      SquareIsPositive(s[k - 1] - mean);
    }
  }

  lemma {:induction false} SumOfEqual(s: seq<real>, x: real, k: nat)
    requires k <= |s| && forall i :: 0 <= i < k ==> s[i] == x
    ensures Sum(s, k) == k as real * x
  {
    if k > 0 {
      SumOfEqual(s, x, k - 1);
      assert k as real * x == (k - 1) as real * x + x;
    }
  }

  lemma MeanOfEqual(s: seq<real>)
    requires |s| > 0 && forall i :: 0 <= i < |s| ==> s[i] == s[0]
    ensures Sum(s, |s|) / |s| as real == s[0]
  {
    SumOfEqual(s, s[0], |s|);
  }

  lemma ZeroQuotient(x: real, n: real)
    requires n > 0.0 && x >= 0.0
    ensures x / n >= 0.0 && (x / n == 0.0 <==> x == 0.0)
  {
  }

  /** The score is never negative, and zero exactly when the application asks for the same fraction of every
      resource of the average node. */
  lemma PerfectShape(fractions: seq<real>)
    requires |fractions| >= 2
    ensures SampleVariance(fractions) >= 0.0
    ensures SampleVariance(fractions) == 0.0 <==> forall i :: 0 <= i < |fractions| ==> fractions[i] == fractions[0]
  {
    var mean := Sum(fractions, |fractions|) / |fractions| as real;
    NoSquares(fractions, mean, |fractions|);
    ZeroQuotient(SquaresAround(fractions, mean, |fractions|), (|fractions| - 1) as real);
    if forall i :: 0 <= i < |fractions| ==> fractions[i] == fractions[0] {
      MeanOfEqual(fractions);
    }
  }

  /** A class with its score. */
  datatype Scored = Scored(shape: Shape, variance: real)

  predicate NoWorse(a: Scored, b: Scored) { a.variance <= b.variance }

  function Offered(c: Classes, shape: Shape, offered: set<string>): set<string> {
    if shape in c.at then set n | n in c.at[shape] && n in offered else {}
  }

  datatype Fitting = Fitting(accepted: set<string>, failed: set<string>)

  ghost predicate Covered(c: Classes, offered: set<string>) { forall n :: n in offered ==> exists s :: Lists(c, s, n) }

  /** The accepted nodes are all offered nodes of a best class among those with an offered node, and the others
      have failed. */
  ghost predicate IsBestClass(r: Fitting, c: Classes, variances: map<Shape, real>, offered: set<string>)
    requires variances.Keys == c.at.Keys
  {
    && r.accepted != {} && r.accepted + r.failed == offered && r.accepted !! r.failed
    && exists best :: best in c.at && r.accepted == Offered(c, best, offered) && IsLeast(best, c, variances, offered)
  }

  /** No class with an offered node has a smaller variance. */
  ghost predicate IsLeast(best: Shape, c: Classes, variances: map<Shape, real>, offered: set<string>)
    requires variances.Keys == c.at.Keys && best in c.at
  {
    forall s :: s in c.at && Offered(c, s, offered) != {} ==> variances[best] <= variances[s]
  }

  ghost predicate AreScored(scored: seq<Scored>, c: Classes, variances: map<Shape, real>)
    requires variances.Keys == c.at.Keys
  {
    && (forall i :: 0 <= i < |scored| ==> scored[i].shape in c.at && scored[i].variance == variances[scored[i].shape])
    && (forall s :: s in c.at ==> exists i :: 0 <= i < |scored| && scored[i].shape == s)
  }

  lemma KeysAreScored(c: Classes, variances: map<Shape, real>, scored: seq<Scored>)
    requires c.Valid() && variances.Keys == c.at.Keys && |scored| == |c.keys|
    requires forall i :: 0 <= i < |scored| ==> c.keys[i] in variances && scored[i] == Scored(c.keys[i], variances[c.keys[i]])
    ensures AreScored(scored, c, variances)
  {
    forall s | s in c.at ensures exists i :: 0 <= i < |scored| && scored[i].shape == s {
      assert s in c.keys;
      var j :| 0 <= j < |c.keys| && c.keys[j] == s;
      assert scored[j].shape == s;
    }
  }

  lemma SameScored(c: Classes, variances: map<Shape, real>, scored: seq<Scored>, sorted: seq<Scored>)
    requires variances.Keys == c.at.Keys && AreScored(scored, c, variances)
    requires forall x :: x in sorted <==> x in scored
    ensures AreScored(sorted, c, variances)
  {
    forall i | 0 <= i < |sorted| ensures sorted[i].shape in c.at && sorted[i].variance == variances[sorted[i].shape] {
      assert sorted[i] in scored;
    }
    forall s | s in c.at ensures exists i :: 0 <= i < |sorted| && sorted[i].shape == s {
      var j :| 0 <= j < |scored| && scored[j].shape == s;
      assert scored[j] in sorted;
    }
  }

  method ScoreClasses(c: Classes, variances: map<Shape, real>) returns (sorted: seq<Scored>)
    requires c.Valid() && variances.Keys == c.at.Keys
    ensures AreScored(sorted, c, variances) && InOrder(sorted, NoWorse)
  {
    hide AreScored;
    hide InOrder;
    hide Sorted;
    var scored: seq<Scored> := [];
    for k := 0 to |c.keys|
      invariant |scored| == k
      invariant forall i :: 0 <= i < k ==> c.keys[i] in variances && scored[i] == Scored(c.keys[i], variances[c.keys[i]])
    {
      assert c.keys[k] in c.keys;
      scored := scored + [Scored(c.keys[k], variances[c.keys[k]])];
    }
    sorted := Sorted(scored, NoWorse);
    SortedIsInOrder(scored, NoWorse);
    SortedSame(scored, NoWorse);
    KeysAreScored(c, variances, scored);
    SameScored(c, variances, scored, sorted);
  }

  /** The loop over the classes, best first: the first one with an offered node, None when the loop runs out. */
  method FirstClass(c: Classes, sorted: seq<Scored>, offered: set<string>) returns (r: Option<nat>)
    ensures r.Some? ==> r.value < |sorted| && Offered(c, sorted[r.value].shape, offered) != {}
    ensures r.Some? ==> forall i :: 0 <= i < r.value ==> Offered(c, sorted[i].shape, offered) == {}
    ensures r.None? ==> forall i :: 0 <= i < |sorted| ==> Offered(c, sorted[i].shape, offered) == {}
  {
    hide Offered;
    r := None;
    var k := 0;
    while k < |sorted| && r.None?
      invariant k <= |sorted|
      invariant forall i :: 0 <= i < k && r != Some(i) ==> Offered(c, sorted[i].shape, offered) == {}
      invariant r.Some? ==> r.value == k - 1 && Offered(c, sorted[r.value].shape, offered) != {}
    {
      if Offered(c, sorted[k].shape, offered) != {} {
        r := Some(k);
      }
      k := k + 1;
    }
  }

  lemma BestOfSorted(c: Classes, variances: map<Shape, real>, sorted: seq<Scored>, offered: set<string>, k: nat)
    requires variances.Keys == c.at.Keys && AreScored(sorted, c, variances) && InOrder(sorted, NoWorse) && k < |sorted|
    requires forall i :: 0 <= i < k ==> Offered(c, sorted[i].shape, offered) == {}
    ensures forall s :: s in c.at && Offered(c, s, offered) != {} ==> variances[sorted[k].shape] <= variances[s]
  {
    hide Offered;
    forall s | s in c.at && Offered(c, s, offered) != {} ensures variances[sorted[k].shape] <= variances[s] {
      var i :| 0 <= i < |sorted| && sorted[i].shape == s;
      assert k <= i;
      assert k < i ==> NoWorse(sorted[k], sorted[i]);
    }
  }

  lemma OfferedHas(c: Classes, s: Shape, offered: set<string>, n: string)
    ensures n in Offered(c, s, offered) <==> Lists(c, s, n) && n in offered
  {
  }

  lemma NothingOffered(c: Classes, variances: map<Shape, real>, sorted: seq<Scored>, offered: set<string>, n: string)
    requires variances.Keys == c.at.Keys && AreScored(sorted, c, variances) && n in offered
    requires forall i :: 0 <= i < |sorted| ==> Offered(c, sorted[i].shape, offered) == {}
    ensures forall s :: !Lists(c, s, n)
  {
    hide Offered;
    forall s ensures !Lists(c, s, n) {
      OfferedHas(c, s, offered, n);
      assert s in c.at ==> Offered(c, s, offered) == {};
    }
  }

  /** The choice among the classes: the last class having to match, and every failed node having a class, are the two
      ways in which it can fail; None stands for both. */
  method ChooseNodes(c: Classes, variances: map<Shape, real>, offered: set<string>) returns (r: Option<Fitting>)
    requires c.Valid() && variances.Keys == c.at.Keys && offered != {}
    ensures r.Some? <==> Covered(c, offered)
    ensures r.Some? ==> IsBestClass(r.value, c, variances, offered)
  {
    hide AreScored;
    hide InOrder;
    hide Offered;
    hide Lists;
    var sorted := ScoreClasses(c, variances);
    var k := FirstClass(c, sorted, offered);
    if k.None? {
      var n :| n in offered;
      NothingOffered(c, variances, sorted, offered, n);
      return None;
    }
    assert sorted[k.value].shape in c.at by { ScoredAreClasses(c, variances, sorted, k.value); }
    var accepted := Offered(c, sorted[k.value].shape, offered);
    var failed := offered - accepted;
    BestOfSorted(c, variances, sorted, offered, k.value);
    var known := AllListed(c, failed);
    forall n ensures n in accepted <==> Lists(c, sorted[k.value].shape, n) && n in offered {
      OfferedHas(c, sorted[k.value].shape, offered, n);
    }
    CoveredByBoth(c, offered, accepted, failed, sorted[k.value].shape);
    r := if known then Some(Fitting(accepted, failed)) else None;
  }

  lemma ScoredAreClasses(c: Classes, variances: map<Shape, real>, sorted: seq<Scored>, k: nat)
    requires variances.Keys == c.at.Keys && AreScored(sorted, c, variances) && k < |sorted|
    ensures sorted[k].shape in c.at
  {
  }

  lemma CoveredByBoth(c: Classes, offered: set<string>, accepted: set<string>, failed: set<string>, best: Shape)
    requires failed == offered - accepted
    requires forall n :: n in accepted <==> Lists(c, best, n) && n in offered
    ensures Covered(c, offered) <==> Covered(c, failed)
  {
    hide Lists;
    if Covered(c, failed) {
      forall n | n in offered ensures exists s :: Lists(c, s, n) {
        assert if n in accepted then Lists(c, best, n) else n in failed;
      }
    }
  }

  method AllListed(c: Classes, nodes: set<string>) returns (r: bool)
    requires c.Valid()
    ensures r == Covered(c, nodes)
  {
    r := true;
    var todo := nodes;
    while todo != {} && r
      invariant todo <= nodes
      invariant r ==> forall n :: n in nodes && n !in todo ==> exists s :: Lists(c, s, n)
      invariant !r ==> !Covered(c, nodes)
      decreases |todo|
    {
      var n :| n in todo;
      r := IsListed(c, n);
      todo := todo - {n};
    }
  }

  method IsListed(c: Classes, n: string) returns (r: bool)
    requires c.Valid()
    ensures r == exists s :: Lists(c, s, n)
  {
    r := false;
    for k := 0 to |c.keys|
      invariant r ==> exists s :: Lists(c, s, n)
      invariant !r ==> forall i :: 0 <= i < k ==> !Lists(c, c.keys[i], n)
    {
      assert c.keys[k] in c.keys;
      if n in c.at[c.keys[k]] {
        r := true;
        assert Lists(c, c.keys[k], n);
      }
    }
    if !r {
      forall s ensures !Lists(c, s, n) {
        if s in c.at {
          assert s in c.keys;
        }
      }
    }
  }

  // ----- The classes of a cluster -----

  /** Node capacities as the algorithm gets them: the same dimensions everywhere, bandwidth in both views, and writes that
      can be divided by. */
  ghost predicate Usable(capacities: Dict<string, Vector>, dims: set<ResourceType>) {
    && capacities.Valid() && SameDimensions(capacities.at, dims)
    && (MEMBW_READ in dims ==> MEMBW_WRITE in dims && forall n :: n in capacities.at ==> WritesInWhole(capacities.at[n]))
  }

  predicate WritesInWhole(v: Vector) { MEMBW_WRITE in v && Trunc(v[MEMBW_WRITE]) != 0 }

  ghost predicate ClassesAreKnown(c: Classes, capacities: map<string, Vector>) {
    forall s :: s in c.at ==> c.at[s] != [] && AllKnown(c.at[s], capacities)
  }

  lemma WithNodeIsKnown(c: Classes, shape: Shape, node: string, capacities: map<string, Vector>)
    requires c.Valid() && ClassesAreKnown(c, capacities) && node in capacities
    ensures ClassesAreKnown(WithNode(c, shape, node), capacities)
  {
  }

  lemma {:induction false} ReversedAreKnown(capacities: Dict<string, Vector>, k: nat)
    requires capacities.Valid() && k <= |capacities.keys|
    ensures ClassesAreKnown(Reversed(capacities, k), capacities.at)
  {
    hide WithNode;
    hide ShapeOf;
    hide ClassesAreKnown;
    if k > 0 {
      ReversedAreKnown(capacities, k - 1);
      ReversedLists(capacities, k - 1, map[], "");
      assert capacities.keys[k - 1] in capacities.keys;
      WithNodeIsKnown(Reversed(capacities, k - 1), ShapeOf(capacities.at[capacities.keys[k - 1]]), capacities.keys[k - 1],
                      capacities.at);
    } else {
      assert ClassesAreKnown(EmptyDict(), capacities.at) by { NothingIsUnknown(capacities.at); }
    }
  }

  lemma NothingIsUnknown(capacities: map<string, Vector>)
    ensures ClassesAreKnown(EmptyDict(), capacities)
  {
  }

  ghost function RealClasses(capacities: Dict<string, Vector>): Classes
    requires capacities.Valid()
  {
    Reversed(capacities, |capacities.keys|)
  }

  /** The shape of a class is that of a node. */
  lemma RealShape(capacities: Dict<string, Vector>, s: Shape)
    requires capacities.Valid() && s in RealClasses(capacities).at
    ensures exists n :: n in capacities.at && s == ShapeOf(capacities.at[n])
  {
    hide Reversed;
    hide ShapeOf;
    var c := RealClasses(capacities);
    ReversedAreKnown(capacities, |capacities.keys|);
    ShapesPartitionNodes(capacities);
    assert Lists(c, s, c.at[s][0]);
  }

  lemma RealClassesAreMergeable(capacities: Dict<string, Vector>, dims: set<ResourceType>)
    requires Usable(capacities, dims)
    ensures Mergeable(RealClasses(capacities), capacities.at, dims)
    ensures forall i :: 0 <= i < |RealClasses(capacities).keys| ==>
      (ShapeRatio(RealClasses(capacities).keys[i]).Some? <==> MEMBW_READ in dims)
  {
    hide Reversed;
    var c := RealClasses(capacities);
    ReversedAreKnown(capacities, |capacities.keys|);
    ShapesPartitionNodes(capacities);
    forall i | 0 <= i < |c.keys| ensures HasWriteBandwidth(c.keys[i]) && (MEMBW_READ in c.keys[i] <==> MEMBW_READ in dims) {
      assert c.keys[i] in c.at;
      RealShape(capacities, c.keys[i]);
    }
  }

  /** For the classes of real capacities: merging keeps every node in exactly one class if and only if the bandwidth is
      among the dimensions and the two averaged shapes differ. */
  lemma RealMergeKeepsPartitionIff(capacities: Dict<string, Vector>, threshold: real, dims: set<ResourceType>)
    requires Usable(capacities, dims) && |RealClasses(capacities).keys| >= 2
    ensures Mergeable(RealClasses(capacities), capacities.at, dims)
    ensures Partitions(Merged(RealClasses(capacities), threshold, capacities.at, dims), capacities.at.Keys) <==>
      MEMBW_READ in dims && !Collide(RealClasses(capacities), threshold, capacities.at, dims)
  {
    hide Reversed;
    hide Merged;
    hide Mergeable;
    hide Partitions;
    hide Collide;
    hide ShapeRatio;
    hide HasWriteBandwidth;
    var c := RealClasses(capacities);
    RealClassesAreMergeable(capacities, dims);
    ShapesPartitionNodes(capacities);
    MergeKeepsPartitionIff(c, threshold, capacities.at, dims, capacities.at.Keys);
    assert c.keys[0] in c.keys;
  }

  /** The classes that offered nodes are chosen from, merged if there is a threshold. */
  ghost function ClassesOf(capacities: Dict<string, Vector>, threshold: Option<real>, dims: set<ResourceType>): Classes
    requires Usable(capacities, dims)
  {
    RealClassesAreMergeable(capacities, dims);
    if threshold.None? then RealClasses(capacities)
    else Merged(RealClasses(capacities), threshold.value, capacities.at, dims)
  }

  ghost predicate AllScorable(c: Classes, capacities: map<string, Vector>, dims: set<ResourceType>, requested: Vector) {
    forall s :: s in c.at ==> Scorable(c.at[s], capacities, dims, requested)
  }

  ghost function VariancesOf(c: Classes, capacities: map<string, Vector>, dims: set<ResourceType>, requested: Vector): (r: map<Shape, real>)
    requires AllScorable(c, capacities, dims, requested)
    ensures r.Keys == c.at.Keys
  {
    map s | s in c.at :: ClassVariance(c.at[s], capacities, dims, requested)
  }

  lemma ClassesAreValid(capacities: Dict<string, Vector>, threshold: Option<real>, dims: set<ResourceType>)
    requires Usable(capacities, dims)
    ensures ClassesOf(capacities, threshold, dims).Valid()
  {
    hide Reversed;
    hide Merged;
    var c := RealClasses(capacities);
    ShapesPartitionNodes(capacities);
    RealClassesAreMergeable(capacities, dims);
    if threshold.Some? {
      if |c.keys| >= 2 {
        MergedLists(c, threshold.value, capacities.at, dims, map[], "");
      } else {
        FewAreNotMerged(c, threshold.value, capacities.at, dims);
      }
    }
  }

  /** `app_fit_nodes`: from the capacities, the threshold and the request, the offered nodes of a class of least variance
      among the classes with an offered node. It succeeds exactly when every offered node is in a class. */
  method AppFitNodes(capacities: Dict<string, Vector>, threshold: Option<real>, dims: set<ResourceType>, requested: Vector,
                     offered: set<string>)
    returns (r: Option<Fitting>)
    requires Usable(capacities, dims) && offered != {}
    requires AllScorable(ClassesOf(capacities, threshold, dims), capacities.at, dims, requested)
    ensures r.Some? <==> Covered(ClassesOf(capacities, threshold, dims), offered)
    ensures r.Some? ==>
      var c := ClassesOf(capacities, threshold, dims);
      IsBestClass(r.value, c, VariancesOf(c, capacities.at, dims, requested), offered)
  {
    hide Reversed;
    hide Merged;
    hide Mergeable;
    hide Scorable;
    hide ClassVariance;
    hide IsBestClass;
    hide Covered;
    RealClassesAreMergeable(capacities, dims);
    ClassesAreValid(capacities, threshold, dims);
    var c := ReverseNodeShapes(capacities);
    if threshold.Some? {
      c := MergeShapes(c, threshold.value, capacities.at, dims);
    }
    assert c == ClassesOf(capacities, threshold, dims);
    var variances := CalculateClassVariances(c, capacities.at, dims, requested);
    assert variances == VariancesOf(c, capacities.at, dims, requested);
    r := ChooseNodes(c, variances, offered);
  }

  // ----- filter -----

  /** The given names that are among `passing`. */
  function Passing(names: seq<string>, passing: set<string>): set<string> { set n | n in names && n in passing }

  /** `BaseAlgorithm.filter` with the nodes that the first pass lets through: the second pass splits them. */
  method Filter(capacities: Dict<string, Vector>, threshold: Option<real>, dims: set<ResourceType>, requested: Vector,
                names: seq<string>, passing: set<string>)
    returns (r: Option<Fitting>)
    requires Usable(capacities, dims)
    requires AllScorable(ClassesOf(capacities, threshold, dims), capacities.at, dims, requested)
    ensures r.Some? <==> Covered(ClassesOf(capacities, threshold, dims), Passing(names, passing))
    ensures r.Some? ==>
      r.value.accepted + r.value.failed == (set n | n in names) && r.value.accepted !! r.value.failed
    ensures r.Some? ==>
      var c, offered := ClassesOf(capacities, threshold, dims), Passing(names, passing);
      if offered == {} then r.value.accepted == {}
      else IsBestClass(Fitting(r.value.accepted, offered - r.value.accepted), c,
                       VariancesOf(c, capacities.at, dims, requested), offered)
  {
    hide ClassesOf;
    hide VariancesOf;
    hide AllScorable;
    hide Usable;
    var accepted, failed := SplitNames(names, passing);
    ghost var offered := accepted;
    if accepted != {} {
      var second := AppFitNodes(capacities, threshold, dims, requested, accepted);
      if second.None? {
        return None;
      }
      accepted, failed := second.value.accepted, failed + second.value.failed;
      assert offered - accepted == second.value.failed;
    }
    r := Some(Fitting(accepted, failed));
  }

  /** The first pass. */
  method SplitNames(names: seq<string>, passing: set<string>) returns (accepted: set<string>, failed: set<string>)
    ensures accepted == Passing(names, passing) && failed == (set n | n in names && n !in passing)
  {
    accepted, failed := {}, {};
    for k := 0 to |names|
      invariant accepted == Passing(names[..k], passing)
      invariant failed == set n | n in names[..k] && n !in passing
    {
      assert names[..k + 1] == names[..k] + [names[k]];
      if names[k] in passing {
        accepted := accepted + {names[k]};
      } else {
        failed := failed + {names[k]};
      }
    }
    assert names[..|names|] == names;
  }

  /** Without merging, every offered node with known capacities is classified: the filter never fails. */
  lemma KnownNodesAreCovered(capacities: Dict<string, Vector>, offered: set<string>)
    requires capacities.Valid() && offered <= capacities.at.Keys
    ensures Covered(Reversed(capacities, |capacities.keys|), offered)
  {
    hide Reversed;
    hide Lists;
    ShapesPartitionNodes(capacities);
  }

  /** The same with safely merged classes. */
  lemma SafelyMergedAreCovered(c: Classes, threshold: real, capacities: map<string, Vector>, dims: set<ResourceType>,
                               nodes: set<string>, offered: set<string>)
    requires Mergeable(c, capacities, dims) && Partitions(c, nodes) && offered <= nodes
    requires |c.keys| >= 2 ==> MergesSafely(c, threshold, capacities, dims)
    ensures Covered(Merged(c, threshold, capacities, dims), offered)
  {
    hide Merged;
    hide MergesSafely;
    if |c.keys| >= 2 {
      SafeMergePartitions(c, threshold, capacities, dims, nodes);
    } else {
      FewAreNotMerged(c, threshold, capacities, dims);
    }
  }

  lemma FewAreNotMerged(c: Classes, threshold: real, capacities: map<string, Vector>, dims: set<ResourceType>)
    requires Mergeable(c, capacities, dims) && |c.keys| < 2
    ensures Merged(c, threshold, capacities, dims) == c
  {
  }

  lemma LostIsNotCovered(c: Classes, nodes: set<string>)
    requires SomeIsLost(c, nodes)
    ensures exists offered :: offered <= nodes && !Covered(c, offered)
  {
    hide Lists;
    var n :| n in nodes && forall s :: !Lists(c, s, n);
    assert n in {n} && !Covered(c, {n});
    assert {n} <= nodes;
  }

  lemma AllCoveredUnmerged(capacities: Dict<string, Vector>, c: Classes)
    requires capacities.Valid() && c == RealClasses(capacities)
    ensures forall offered :: offered <= capacities.at.Keys ==> Covered(c, offered)
  {
    hide RealClasses;
    hide Covered;
    forall offered | offered <= capacities.at.Keys ensures Covered(c, offered) {
      assert c == Reversed(capacities, |capacities.keys|) by { RealClassesAre(capacities); }
      KnownNodesAreCovered(capacities, offered);
    }
  }

  lemma RealClassesAre(capacities: Dict<string, Vector>)
    requires capacities.Valid()
    ensures RealClasses(capacities) == Reversed(capacities, |capacities.keys|)
  {
  }

  /** Whatever known nodes are offered, they are classified, so that the choice succeeds, if and only if there is no
      threshold, at most one class, or a bandwidth among the dimensions and no collision. */
  lemma NeverFailsIff(capacities: Dict<string, Vector>, threshold: Option<real>, dims: set<ResourceType>)
    requires Usable(capacities, dims)
    ensures Mergeable(RealClasses(capacities), capacities.at, dims)
    ensures (forall offered :: offered <= capacities.at.Keys ==> Covered(ClassesOf(capacities, threshold, dims), offered)) <==>
      threshold.None? || |RealClasses(capacities).keys| < 2 ||
      (MEMBW_READ in dims && !Collide(RealClasses(capacities), threshold.value, capacities.at, dims))
  {
    hide Reversed;
    hide Merged;
    hide Mergeable;
    hide Covered;
    hide Collide;
    hide Usable;
    hide ShapeRatio;
    hide SomeIsLost;
    UsableIsValid(capacities, dims);
    var c := RealClasses(capacities);
    RealClassesAreMergeable(capacities, dims);
    ShapesPartitionNodes(capacities);
    if threshold.None? {
      AllCoveredUnmerged(capacities, c);
    } else if |c.keys| < 2 {
      FewAreNotMerged(c, threshold.value, capacities.at, dims);
      AllCoveredUnmerged(capacities, c);
    } else if MEMBW_READ in dims && !Collide(c, threshold.value, capacities.at, dims) {
      forall offered | offered <= capacities.at.Keys ensures Covered(Merged(c, threshold.value, capacities.at, dims), offered) {
        SafelyMergedAreCovered(c, threshold.value, capacities.at, dims, capacities.at.Keys, offered);
      }
    } else {
      if Collide(c, threshold.value, capacities.at, dims) {
        CollisionLoses(c, threshold.value, capacities.at, dims, capacities.at.Keys);
      } else {
        UnratedIsLost(c, threshold.value, capacities.at, dims, capacities.at.Keys, 0);
      }
      LostIsNotCovered(Merged(c, threshold.value, capacities.at, dims), capacities.at.Keys);
    }
  }

  lemma UsableIsValid(capacities: Dict<string, Vector>, dims: set<ResourceType>)
    requires Usable(capacities, dims)
    ensures capacities.Valid()
  {
  }

  // ----- Three nodes whose classes collide -----

  function NodeWith(read: real, write: real): Vector {
    map[CPU := 4.0, MEM := 8.0, MEMBW_READ := read, MEMBW_WRITE := write]
  }

  function ShapeWith(read: int, write: int): Shape {
    map[CPU := 4, MEM := 8, MEMBW_READ := read, MEMBW_WRITE := write]
  }

  const FOUR_DIMENSIONS: set<ResourceType> := {CPU, MEM, MEMBW_READ, MEMBW_WRITE}

  /** Bandwidth ratios 2, 3/2 and 1; the last two average to reads 2 and writes 3/2, in whole numbers the first node. */
  function Colliding(): Dict<string, Vector> {
    Dict(["a", "b", "c"], map["a" := NodeWith(2.0, 1.0), "b" := NodeWith(3.0, 2.0), "c" := NodeWith(1.0, 1.0)])
  }

  lemma ShapeOfNode(read: real, write: real)
    ensures ShapeOf(NodeWith(read, write)) == ShapeWith(Trunc(read), Trunc(write))
  {
    hide Trunc;
    assert Trunc(4.0) == 4 && Trunc(8.0) == 8 by { TruncWhole(4, 4.0); TruncWhole(8, 8.0); }
  }

  lemma CollidingIsUsable()
    ensures Usable(Colliding(), FOUR_DIMENSIONS)
  {
    var d := Colliding();
    assert d.keys[0] == "a" && d.keys[1] == "b" && d.keys[2] == "c";
    assert d.Valid();
  }

  lemma CollidingShapes()
    ensures ShapeOf(NodeWith(2.0, 1.0)) == ShapeWith(2, 1)
    ensures ShapeOf(NodeWith(3.0, 2.0)) == ShapeWith(3, 2)
    ensures ShapeOf(NodeWith(1.0, 1.0)) == ShapeWith(1, 1)
    ensures ShapeOf(NodeWith(2.0, 1.5)) == ShapeWith(2, 1)
  {
    hide ShapeOf;
    hide ShapeWith;
    ShapeOfNode(2.0, 1.0);
    ShapeOfNode(3.0, 2.0);
    ShapeOfNode(1.0, 1.0);
    ShapeOfNode(2.0, 1.5);
  }

  function CollidingClasses(): Classes {
    Dict([ShapeWith(2, 1), ShapeWith(3, 2), ShapeWith(1, 1)],
         map[ShapeWith(2, 1) := ["a"], ShapeWith(3, 2) := ["b"], ShapeWith(1, 1) := ["c"]])
  }

  lemma ShapesDiffer()
    ensures ShapeWith(2, 1) != ShapeWith(3, 2) && ShapeWith(2, 1) != ShapeWith(1, 1) && ShapeWith(3, 2) != ShapeWith(1, 1)
  {
    assert ShapeWith(2, 1)[MEMBW_READ] == 2 && ShapeWith(3, 2)[MEMBW_READ] == 3 && ShapeWith(1, 1)[MEMBW_READ] == 1;
  }

  function ClassesOfOne(): Classes { Dict([ShapeWith(2, 1)], map[ShapeWith(2, 1) := ["a"]]) }

  function ClassesOfTwo(): Classes {
    Dict([ShapeWith(2, 1), ShapeWith(3, 2)], map[ShapeWith(2, 1) := ["a"], ShapeWith(3, 2) := ["b"]])
  }

  /** A node whose shape is new starts a class. */
  lemma NewClass(capacities: Dict<string, Vector>, k: nat, c: Classes, shape: Shape)
    requires capacities.Valid() && k < |capacities.keys| && Reversed(capacities, k) == c && shape !in c.at
    requires capacities.keys[k] in capacities.at && ShapeOf(capacities.at[capacities.keys[k]]) == shape
    ensures Reversed(capacities, k + 1) == Dict(c.keys + [shape], c.at[shape := [capacities.keys[k]]])
  {
    hide ShapeOf;
    assert [] + [capacities.keys[k]] == [capacities.keys[k]];
  }

  lemma SecondClass()
    ensures Colliding().Valid() && Reversed(Colliding(), 2) == ClassesOfTwo()
  {
    hide ShapeOf;
    hide ShapeWith;
    hide NodeWith;
    hide Reversed;
    CollidingIsUsable();
    CollidingShapes();
    ShapesDiffer();
    NothingReversed(Colliding());
    NewClass(Colliding(), 0, EmptyDict(), ShapeWith(2, 1));
    assert [] + [ShapeWith(2, 1)] == [ShapeWith(2, 1)];
    assert Reversed(Colliding(), 1) == ClassesOfOne();
    NewClass(Colliding(), 1, ClassesOfOne(), ShapeWith(3, 2));
    assert ClassesOfOne().keys + [ShapeWith(3, 2)] == ClassesOfTwo().keys;
  }

  lemma NothingReversed(capacities: Dict<string, Vector>)
    requires capacities.Valid()
    ensures Reversed(capacities, 0) == EmptyDict()
  {
  }

  lemma ClassesOfColliding()
    ensures Colliding().Valid() && RealClasses(Colliding()) == CollidingClasses()
  {
    hide ShapeOf;
    hide ShapeWith;
    hide NodeWith;
    hide Reversed;
    CollidingIsUsable();
    CollidingShapes();
    ShapesDiffer();
    SecondClass();
    NewClass(Colliding(), 2, ClassesOfTwo(), ShapeWith(1, 1));
    assert ClassesOfTwo().keys + [ShapeWith(1, 1)] == CollidingClasses().keys;
  }

  lemma SidesOfColliding()
    ensures forall i :: 0 <= i < |CollidingClasses().keys| ==> HasWriteBandwidth(CollidingClasses().keys[i])
    ensures Above(CollidingClasses(), 1.5) == ["a"] && Below(CollidingClasses(), 1.5) == ["b", "c"]
  {
    ShapesDiffer();
    var c := CollidingClasses();
    assert ShapeRatio(ShapeWith(2, 1)) == Some(2.0) && ShapeRatio(ShapeWith(3, 2)) == Some(1.5) && ShapeRatio(ShapeWith(1, 1)) == Some(1.0);
    hide ShapeWith;
    assert Split(c.keys, 1.5, 0) == Sides([], []);
    assert Split(c.keys, 1.5, 1) == Sides([ShapeWith(2, 1)], []);
    assert Split(c.keys, 1.5, 2) == Sides([ShapeWith(2, 1)], [ShapeWith(3, 2)]);
    assert Split(c.keys, 1.5, 3) == Sides([ShapeWith(2, 1)], [ShapeWith(3, 2), ShapeWith(1, 1)]);
    assert NodesOf(c, [ShapeWith(2, 1)], 1) == ["a"];
    assert NodesOf(c, [ShapeWith(3, 2), ShapeWith(1, 1)], 1) == ["b"];
    assert NodesOf(c, [ShapeWith(3, 2), ShapeWith(1, 1)], 2) == ["b", "c"];
  }

  lemma AverageAt(nodes: seq<string>, capacities: map<string, Vector>, dims: set<ResourceType>, d: ResourceType)
    requires nodes != [] && AllKnown(nodes, capacities) && SameDimensions(capacities, dims) && d in dims
    requires MEMBW_READ in dims ==> MEMBW_WRITE in dims
    ensures Average(nodes, capacities, dims)[d] == TotalCapacity(nodes, capacities, dims, |nodes|)[d] / |nodes| as real
  {
    hide TotalCapacity;
  }

  lemma CollidingDimensions()
    ensures SameDimensions(Colliding().at, FOUR_DIMENSIONS)
  {
  }

  lemma TotalsOfColliding()
    ensures SameDimensions(Colliding().at, FOUR_DIMENSIONS)
    ensures TotalCapacity(["a"], Colliding().at, FOUR_DIMENSIONS, 1) == NodeWith(2.0, 1.0)
    ensures TotalCapacity(["b", "c"], Colliding().at, FOUR_DIMENSIONS, 2)
      == map[CPU := 8.0, MEM := 16.0, MEMBW_READ := 4.0, MEMBW_WRITE := 3.0]
  {
    CollidingDimensions();
    assert TotalCapacity(["b", "c"], Colliding().at, FOUR_DIMENSIONS, 1) == NodeWith(3.0, 2.0);
    assert SumResources(NodeWith(3.0, 2.0), NodeWith(1.0, 1.0)) == map[CPU := 8.0, MEM := 16.0, MEMBW_READ := 4.0, MEMBW_WRITE := 3.0];
  }

  lemma AveragesOfColliding()
    ensures SameDimensions(Colliding().at, FOUR_DIMENSIONS)
    ensures Average(["a"], Colliding().at, FOUR_DIMENSIONS) == NodeWith(2.0, 1.0)
    ensures Average(["b", "c"], Colliding().at, FOUR_DIMENSIONS) == NodeWith(2.0, 1.5)
  {
    hide Average;
    hide TotalCapacity;
    TotalsOfColliding();
    var at := Colliding().at;
    forall d | d in FOUR_DIMENSIONS
      ensures Average(["a"], at, FOUR_DIMENSIONS)[d] == NodeWith(2.0, 1.0)[d]
      ensures Average(["b", "c"], at, FOUR_DIMENSIONS)[d] == NodeWith(2.0, 1.5)[d]
    {
      AverageAt(["a"], at, FOUR_DIMENSIONS, d);
      AverageAt(["b", "c"], at, FOUR_DIMENSIONS, d);
    }
  }

  /** The two averaged shapes are the same, so that the first node is in no class: offered alone, nothing matches. */
  lemma CollisionExample()
    ensures Usable(Colliding(), FOUR_DIMENSIONS) && |RealClasses(Colliding()).keys| >= 2
    ensures Mergeable(RealClasses(Colliding()), Colliding().at, FOUR_DIMENSIONS)
    ensures Collide(RealClasses(Colliding()), 1.5, Colliding().at, FOUR_DIMENSIONS)
    ensures !Covered(ClassesOf(Colliding(), Some(1.5), FOUR_DIMENSIONS), {"a"})
  {
    hide Average;
    hide ShapeOf;
    hide Merged;
    hide RealClasses;
    hide Above;
    hide Below;
    hide Colliding;
    CollidingIsUsable();
    ClassesOfColliding();
    SidesOfColliding();
    AveragesOfColliding();
    CollidingShapes();
    RealClassesAreMergeable(Colliding(), FOUR_DIMENSIONS);
    SidesAreKnown(CollidingClasses(), 1.5, Colliding().at, FOUR_DIMENSIONS);
    assert Collide(CollidingClasses(), 1.5, Colliding().at, FOUR_DIMENSIONS);
    forall s ensures !Lists(Merged(CollidingClasses(), 1.5, Colliding().at, FOUR_DIMENSIONS), s, "a") {
      MergedLists(CollidingClasses(), 1.5, Colliding().at, FOUR_DIMENSIONS, s, "a");
    }
    assert "a" in {"a"};
  }
}
