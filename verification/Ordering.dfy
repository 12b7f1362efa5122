/** Python's stable `sorted` and first-maximum `max`, and the order on strings. */
module Ordering {

  /** Puts `x` before the first element that must come after it. */
  function Insert<T>(x: T, s: seq<T>, leq: (T, T) -> bool): (r: seq<T>)
    ensures multiset(r) == multiset(s) + multiset{x}
    ensures |r| == |s| + 1
  {
    if s == [] then [x]
    else
      assert s == [s[0]] + s[1..];
      if leq(x, s[0]) then [x] + s else [s[0]] + Insert(x, s[1..], leq)
  }

  /** `sorted(s)`: stable, so the earlier of two equal elements stays first. */
  function Sorted<T>(s: seq<T>, leq: (T, T) -> bool): (r: seq<T>)
    ensures multiset(r) == multiset(s)
    ensures |r| == |s|
  {
    if s == [] then []
    else
      assert s == [s[0]] + s[1..];
      Insert(s[0], Sorted(s[1..], leq), leq)
  }

  /** A total preorder: any two elements compare, and comparing is transitive. */
  ghost predicate TotalPreorder<T(!new)>(leq: (T, T) -> bool) {
    && (forall x, y :: leq(x, y) || leq(y, x))
    && (forall x, y, z :: leq(x, y) && leq(y, z) ==> leq(x, z))
  }

  ghost predicate InOrder<T>(s: seq<T>, leq: (T, T) -> bool) {
    forall i, j :: 0 <= i < j < |s| ==> leq(s[i], s[j])
  }

  lemma {:induction false} InsertKeepsOrder<T(!new)>(x: T, s: seq<T>, leq: (T, T) -> bool)
    requires TotalPreorder(leq) && InOrder(s, leq)
    ensures InOrder(Insert(x, s, leq), leq)
  {
    if s != [] && !leq(x, s[0]) {
      InsertKeepsOrder(x, s[1..], leq);
      var rest := Insert(x, s[1..], leq);
      forall i | 0 <= i < |rest| ensures leq(s[0], rest[i]) {
        assert rest[i] in multiset(rest);
        assert rest[i] == x || rest[i] in s[1..];
      }
    } else if s != [] {
      forall i | 0 <= i < |s| ensures leq(x, s[i]) {
        assert i > 0 ==> leq(s[0], s[i]);
      }
    }
  }

  /** Sorting sorts. */
  lemma {:induction false} SortedIsInOrder<T(!new)>(s: seq<T>, leq: (T, T) -> bool)
    requires TotalPreorder(leq)
    ensures InOrder(Sorted(s, leq), leq)
  {
    if s != [] {
      SortedIsInOrder(s[1..], leq);
      InsertKeepsOrder(s[0], Sorted(s[1..], leq), leq);
    }
  }

  /** Sorting what is in order changes nothing. */
  lemma {:induction false} SortedStays<T>(s: seq<T>, leq: (T, T) -> bool)
    requires InOrder(s, leq)
    ensures Sorted(s, leq) == s
  {
    if s != [] {
      SortedStays(s[1..], leq);
      assert |s| > 1 ==> leq(s[0], s[1]) && s[1..][0] == s[1];
      assert s == [s[0]] + s[1..];
    }
  }

  lemma SortedSame<T>(s: seq<T>, leq: (T, T) -> bool)
    ensures forall x :: x in Sorted(s, leq) <==> x in s
  {
    forall x ensures x in Sorted(s, leq) <==> x in s {
      assert x in Sorted(s, leq) <==> x in multiset(Sorted(s, leq));
      assert x in s <==> x in multiset(s);
    }
  }

  /** The first of the sorted elements is the first listed among the least. */
  ghost predicate FirstLeast<T>(s: seq<T>, leq: (T, T) -> bool, i: nat) {
    i < |s| && (forall j :: 0 <= j < |s| ==> leq(s[i], s[j])) && forall j :: 0 <= j < i ==> !leq(s[j], s[i])
  }

  lemma {:induction false} SortedStartsWith<T(!new)>(s: seq<T>, leq: (T, T) -> bool) returns (i: nat)
    requires TotalPreorder(leq) && s != []
    ensures FirstLeast(s, leq, i) && Sorted(s, leq)[0] == s[i]
  {
    var rest := s[1..];
    assert s == [s[0]] + rest;
    i := 0;
    if rest != [] {
      var k := SortedStartsWith(rest, leq);
      assert forall j :: 0 < j < |s| ==> s[j] == rest[j - 1];
      if !leq(s[0], rest[k]) {
        i := k + 1;
      }
    }
  }

  /** `x` is listed before `y`. */
  ghost predicate ListedBefore<T>(s: seq<T>, x: T, y: T) { exists i, j :: 0 <= i < j < |s| && s[i] == x && s[j] == y }

  ghost predicate StableOrder<T>(r: seq<T>, s: seq<T>, leq: (T, T) -> bool) {
    forall i, j :: 0 <= i < j < |r| ==> leq(r[i], r[j]) && (leq(r[j], r[i]) ==> ListedBefore(s, r[i], r[j]))
  }

  lemma ListedLater<T>(s: seq<T>, x: T, y: T)
    requires s != [] && ListedBefore(s[1..], x, y)
    ensures ListedBefore(s, x, y)
  {
    var i, j :| 0 <= i < j < |s[1..]| && s[1..][i] == x && s[1..][j] == y;
    assert s[i + 1] == x && s[j + 1] == y;
  }

  lemma ListedAfterFirst<T>(s: seq<T>, y: T)
    requires s != [] && y in s[1..]
    ensures ListedBefore(s, s[0], y)
  {
    var j :| 0 <= j < |s[1..]| && s[1..][j] == y;
    assert s[j + 1] == y;
  }

  lemma PrependIsStable<T>(x: T, tail: seq<T>, s: seq<T>, leq: (T, T) -> bool)
    requires StableOrder(tail, s, leq)
    requires forall i :: 0 <= i < |tail| ==> leq(x, tail[i]) && (leq(tail[i], x) ==> ListedBefore(s, x, tail[i]))
    ensures StableOrder([x] + tail, s, leq)
  {
    hide ListedBefore;
    var out := [x] + tail;
    assert forall i :: 0 < i < |out| ==> out[i] == tail[i - 1];
  }

  lemma {:induction false} InsertIsStable<T(!new)>(x: T, r: seq<T>, s: seq<T>, leq: (T, T) -> bool)
    requires TotalPreorder(leq) && StableOrder(r, s, leq) && forall i :: 0 <= i < |r| ==> ListedBefore(s, x, r[i])
    ensures StableOrder(Insert(x, r, leq), s, leq)
  {
    hide ListedBefore;
    if r != [] {
      var rest := r[1..];
      if leq(x, r[0]) {
        forall i | 0 <= i < |r| ensures leq(x, r[i]) {
          assert i > 0 ==> leq(r[0], r[i]);
        }
        PrependIsStable(x, r, s, leq);
      } else {
        assert forall i :: 0 <= i < |rest| ==> rest[i] == r[i + 1];
        InsertIsStable(x, rest, s, leq);
        InsertHas(x, rest, leq);
        PrependIsStable(r[0], Insert(x, rest, leq), s, leq);
      }
    } else {
      assert Insert(x, r, leq) == [x];
    }
  }

  lemma InsertHas<T>(x: T, s: seq<T>, leq: (T, T) -> bool)
    ensures forall i :: 0 <= i < |Insert(x, s, leq)| ==>
      Insert(x, s, leq)[i] == x || exists k :: 0 <= k < |s| && s[k] == Insert(x, s, leq)[i]
  {
    var r := Insert(x, s, leq);
    forall i | 0 <= i < |r| ensures r[i] == x || exists k :: 0 <= k < |s| && s[k] == r[i] {
      assert r[i] in multiset(r);
      assert r[i] == x || r[i] in s;
    }
  }

  /** Sorting keeps the listed order of equal elements. */
  lemma {:induction false} SortedIsStable<T(!new)>(s: seq<T>, leq: (T, T) -> bool)
    requires TotalPreorder(leq)
    ensures StableOrder(Sorted(s, leq), s, leq)
  {
    if s != [] {
      var rest := s[1..];
      var r := Sorted(rest, leq);
      SortedIsStable(rest, leq);
      SortedSame(rest, leq);
      forall i | 0 <= i < |r| ensures ListedBefore(s, s[0], r[i]) {
        assert r[i] in r;
        ListedAfterFirst(s, r[i]);
      }
      forall i, j | 0 <= i < j < |r| ensures leq(r[i], r[j]) && (leq(r[j], r[i]) ==> ListedBefore(s, r[i], r[j])) {
        if leq(r[j], r[i]) {
          ListedLater(s, r[i], r[j]);
        }
      }
      InsertIsStable(s[0], r, s, leq);
    }
  }

  /** Lexicographic order on strings. */
  predicate StringLeq(a: string, b: string) {
    a == "" || (b != "" && (a[0] < b[0] || (a[0] == b[0] && StringLeq(a[1..], b[1..]))))
  }

  lemma {:induction false} StringsCompare(a: string, b: string)
    ensures StringLeq(a, b) || StringLeq(b, a)
  {
    if a != "" && b != "" {
      StringsCompare(a[1..], b[1..]);
    }
  }

  lemma {:induction false} StringsChain(a: string, b: string, c: string)
    requires StringLeq(a, b) && StringLeq(b, c)
    ensures StringLeq(a, c)
  {
    if a != "" && b != "" && c != "" && a[0] == b[0] == c[0] {
      StringsChain(a[1..], b[1..], c[1..]);
    }
  }

  lemma StringsAreOrdered()
    ensures TotalPreorder(StringLeq)
  {
    forall a, b ensures StringLeq(a, b) || StringLeq(b, a) {
      StringsCompare(a, b);
    }
    forall a, b, c | StringLeq(a, b) && StringLeq(b, c) ensures StringLeq(a, c) {
      StringsChain(a, b, c);
    }
  }

  /** The index of the first largest key. */
  function FirstMax<T>(s: seq<T>, key: T -> int): (i: nat)
    requires s != []
    ensures i < |s|
    ensures forall j :: 0 <= j < |s| ==> key(s[j]) <= key(s[i])
    ensures forall j :: 0 <= j < i ==> key(s[j]) < key(s[i])
  {
    if |s| == 1 then 0
    else
      var rest := FirstMax(s[..|s| - 1], key);
      if key(s[rest]) < key(s[|s| - 1]) then |s| - 1 else rest
  }
}
