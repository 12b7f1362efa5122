/** Quota and shares in the control files of a cgroup, wca/cgroups.py, and what the next allocation round makes
    of the values read back. Numbers are exact. */
module Cgroups {
  import opened Dicts
  import opened AllocationValues
  import opened Numbers

  const MIN_SHARES := 2
  const QUOTA_NOT_SET := -1
  const QUOTA_MINIMUM_VALUE := 1000
  const QUOTA_NORMALIZED_MAX := 1.0
  const SENSITIVITY := 0.05

  // ----- Specification -----

  function WrittenQuota(q: real, period: int, cpus: int): int {
    if q >= QUOTA_NORMALIZED_MAX then QUOTA_NOT_SET
    else
      var quota := Trunc(q * period as real * cpus as real);
      if quota < QUOTA_MINIMUM_VALUE then QUOTA_MINIMUM_VALUE else quota
  }

  function ReadQuota(quota: int, period: int, cpus: int): real
    requires period > 0 && cpus > 0
  {
    if quota == QUOTA_NOT_SET then QUOTA_NORMALIZED_MAX else quota as real / period as real / cpus as real
  }

  function WrittenShares(s: real, unit: int): int {
    var shares := Trunc(s * unit as real);
    if shares < MIN_SHARES then MIN_SHARES else shares
  }

  function ReadShares(shares: int, unit: int): real
    requires unit > 0
  {
    shares as real / unit as real
  }

  // ----- The control files -----

  class Cgroup {
    /** The configuration: the period quotas are written with, the unit of shares, the platform's cpus. */
    const cpuQuotaPeriod: int
    const cpuSharesUnit: int
    const cpus: int
    /** The files cpu.cfs_period_us, cpu.cfs_quota_us and cpu.shares. */
    var period: int
    var quota: int
    var shares: int

    ghost predicate Valid()
      reads this
    {
      1000 <= cpuQuotaPeriod && 1000 <= cpuSharesUnit && cpus > 0 && period > 0
    }

    constructor (cpuQuotaPeriod: int, cpuSharesUnit: int, cpus: int, period: int, quota: int, shares: int)
      requires 1000 <= cpuQuotaPeriod && 1000 <= cpuSharesUnit && cpus > 0 && period > 0
      ensures Valid() && this.cpuQuotaPeriod == cpuQuotaPeriod && this.cpuSharesUnit == cpuSharesUnit
      ensures this.cpus == cpus && this.period == period && this.quota == quota && this.shares == shares
    {
      this.cpuQuotaPeriod, this.cpuSharesUnit, this.cpus := cpuQuotaPeriod, cpuSharesUnit, cpus;
      this.period, this.quota, this.shares := period, quota, shares;
    }

    method SetQuota(normalizedQuota: real)
      requires Valid()
      modifies this`period, this`quota
      ensures Valid() && period == cpuQuotaPeriod
      ensures quota == WrittenQuota(normalizedQuota, cpuQuotaPeriod, cpus)
    {
      if period != cpuQuotaPeriod {
        period := cpuQuotaPeriod;
      }
      var value: int;
      if normalizedQuota >= QUOTA_NORMALIZED_MAX {
        value := QUOTA_NOT_SET;
      } else {
        value := Trunc(normalizedQuota * cpuQuotaPeriod as real * cpus as real);
        if value < QUOTA_MINIMUM_VALUE {
          value := QUOTA_MINIMUM_VALUE;
        }
      }
      quota := value;
    }

    method GetNormalizedQuota() returns (r: real)
      requires Valid()
      ensures r == ReadQuota(quota, period, cpus)
    {
      if quota == QUOTA_NOT_SET {
        return QUOTA_NORMALIZED_MAX;
      }
      r := quota as real / period as real / cpus as real;
    }

    method SetShares(normalizedShares: real)
      requires Valid()
      modifies this`shares
      ensures Valid() && shares == WrittenShares(normalizedShares, cpuSharesUnit)
    {
      var value := Trunc(normalizedShares * cpuSharesUnit as real);
      if value < MIN_SHARES {
        value := MIN_SHARES;
      }
      shares := value;
    }

    method GetNormalizedShares() returns (r: real)
      requires Valid()
      ensures r == ReadShares(shares, cpuSharesUnit)
    {
      r := shares as real / cpuSharesUnit as real;
    }
  }

  /** `QuotaAllocationValue.perform_allocations`: the task's own cgroup gets the quota, its children none. */
  method PerformQuota(q: real, cgroup: Cgroup, subcgroups: seq<Cgroup>)
    requires cgroup.Valid() && forall i :: 0 <= i < |subcgroups| ==> subcgroups[i].Valid()
    requires forall i :: 0 <= i < |subcgroups| ==> subcgroups[i] != cgroup
    modifies cgroup, subcgroups
    ensures cgroup.Valid() && ReadQuota(cgroup.quota, cgroup.period, cgroup.cpus)
      == ReadQuota(WrittenQuota(q, cgroup.cpuQuotaPeriod, cgroup.cpus), cgroup.cpuQuotaPeriod, cgroup.cpus)
    ensures forall i :: 0 <= i < |subcgroups| ==> subcgroups[i].Valid() && subcgroups[i].quota == QUOTA_NOT_SET
  {
    cgroup.SetQuota(q);
    var k := 0;
    while k < |subcgroups|
      invariant k <= |subcgroups|
      invariant cgroup.Valid() && cgroup.period == cgroup.cpuQuotaPeriod
      invariant cgroup.quota == WrittenQuota(q, cgroup.cpuQuotaPeriod, cgroup.cpus)
      invariant forall i :: 0 <= i < |subcgroups| ==> subcgroups[i].Valid()
      invariant forall i :: 0 <= i < k ==> subcgroups[i].quota == QUOTA_NOT_SET
    {
      subcgroups[k].SetQuota(QUOTA_NORMALIZED_MAX);
      k := k + 1;
    }
  }

  // ----- Arithmetic -----

  lemma DivideOnce(n: real, a: real, b: real)
    requires a > 0.0 && b > 0.0
    ensures a * b > 0.0 && n / a / b == n / (a * b)
  {
    var x := n / a / b;
    assert x * b == n / a;
    assert x * (a * b) == n;
  }

  lemma MultiplyOnce(q: real, a: real, b: real)
    ensures q * a * b == q * (a * b)
  {
  }

  lemma TimesOrder(a: real, b: real, u: real)
    requires u > 0.0
    ensures a < b <==> a * u < b * u
    ensures a <= b <==> a * u <= b * u
  {
    assert (b - a) * u == b * u - a * u;
    PositiveTimes(b - a, u);
    PositiveTimes(a - b, u);
    assert (a - b) * u == a * u - b * u;
  }

  lemma PositiveTimes(d: real, u: real)
    requires u > 0.0
    ensures d > 0.0 ==> d * u > 0.0
  {
  }

  lemma QuotientOrder(n: real, u: real, limit: real)
    requires u > 0.0
    ensures n / u < limit <==> n < limit * u
    ensures n / u <= limit <==> n <= limit * u
    ensures limit <= n / u <==> limit * u <= n
  {
    assert n / u * u == n;
    TimesOrder(n / u, limit, u);
    TimesOrder(limit, n / u, u);
  }

  /** Over the product of period and cpus: a whole number read back, and how far below the request it is. */
  lemma FloorOverUnit(q: real, u: real)
    requires u > 0.0
    ensures var r := (q * u).Floor as real / u; 0.0 <= q - r < 1.0 / u && r * u == (q * u).Floor as real
  {
    var n := (q * u).Floor as real;
    var r := n / u;
    assert r * u == n;
    QuotientOrder(n, u, q);
    assert (q - r) * u == q * u - n;
    assert 1.0 / u * u == 1.0;
    TimesOrder(q - r, 1.0 / u, u);
  }

  // ----- Quota -----

  /** The number of quota units in the whole platform. */
  function Units(period: int, cpus: int): real { period as real * cpus as real }

  lemma UnitsAreMany(period: int, cpus: int)
    requires 1000 <= period && 1 <= cpus
    ensures Units(period, cpus) >= 1000.0
  {
    TimesOrder(1.0, cpus as real, period as real);
    assert cpus as real * period as real == period as real * cpus as real;
  }

  /** The unit of measure left out: writing and reading with `u` units. */
  function QuotaBack(q: real, u: real): real
    requires u > 0.0
  {
    if q >= 1.0 then 1.0
    else
      var n := Trunc(q * u);
      (if n < QUOTA_MINIMUM_VALUE then QUOTA_MINIMUM_VALUE else n) as real / u
  }

  lemma ReadIsQuotaBack(q: real, period: int, cpus: int)
    requires 1000 <= period && 1 <= cpus
    ensures Units(period, cpus) > 0.0
    ensures ReadQuota(WrittenQuota(q, period, cpus), period, cpus) == QuotaBack(q, Units(period, cpus))
  {
    UnitsAreMany(period, cpus);
    MultiplyOnce(q, period as real, cpus as real);
    DivideOnce(WrittenQuota(q, period, cpus) as real, period as real, cpus as real);
  }

  /** Not clamped to the minimum. */
  predicate IsExpressible(q: real, u: real) { q == 1.0 || q * u >= 1000.0 }

  lemma UnitIsSmall(u: real)
    requires u >= 1000.0
    ensures 0.0 < 1.0 / u <= 0.001
  {
    QuotientOrder(1.0, u, 0.001);
    QuotientOrder(1.0, u, 0.0);
  }

  /** A quota that is not clamped is read back at most one unit lower. */
  lemma QuotaRoundTrip(q: real, u: real)
    requires u >= 1000.0 && 0.0 <= q <= 1.0 && IsExpressible(q, u)
    ensures 0.0 <= q - QuotaBack(q, u) < 1.0 / u
  {
    UnitIsSmall(u);
    if q < 1.0 {
      FloorOverUnit(q, u);
      assert (q * u).Floor >= 1000;
    }
  }

  /** The whole number of units a quota below one is written as. */
  function Whole(q: real, u: real): nat {
    var n := Trunc(q * u);
    if n < QUOTA_MINIMUM_VALUE then QUOTA_MINIMUM_VALUE else n
  }

  lemma WholeIsAtMostAll(q: real, u: real)
    requires u >= 1000.0 && 0.0 <= q < 1.0
    ensures Whole(q, u) as real <= u
    ensures Whole(q, u) as real == u ==> Whole(q, u) == 1000
  {
    TimesOrder(q, 1.0, u);
    TimesOrder(0.0, q, u);
  }

  lemma BackOfWhole(m: nat, r: real, u: real)
    requires u > 0.0 && m >= QUOTA_MINIMUM_VALUE && Trunc(r * u) == m && m as real / u == r && r <= 1.0
    ensures QuotaBack(r, u) == r
  {
  }

  /** Writing back what was read changes nothing. */
  lemma QuotaSettles(q: real, u: real)
    requires u >= 1000.0 && 0.0 <= q
    ensures QuotaBack(QuotaBack(q, u), u) == QuotaBack(q, u)
  {
    if q < 1.0 {
      var m := Whole(q, u);
      var r := m as real / u;
      assert r * u == m as real;
      WholeIsAtMostAll(q, u);
      QuotientOrder(m as real, u, 1.0);
      TruncWhole(m, r * u);
      BackOfWhole(m, r, u);
    }
  }

  function QuotaLeaf(q: real): AllocationValue { Number(q, Some(0.0), Some(1.0), SENSITIVITY, false) }

  ghost predicate NoChangeset(wanted: AllocationValue, current: AllocationValue) {
    LeafChange(wanted, current).Ok? && LeafChange(wanted, current).value.changeset.None?
  }

  lemma NoChangesetIffClose(q: real, r: real)
    requires 0.0 <= q <= 1.0 && 0.0 <= r <= 1.0
    ensures NoChangeset(QuotaLeaf(q), QuotaLeaf(r)) <==> -SENSITIVITY <= q - r <= SENSITIVITY
  {
  }

  lemma ClampedBack(q: real, u: real)
    requires u >= 1000.0 && 0.0 <= q <= 1.0 && !IsExpressible(q, u)
    ensures QuotaBack(q, u) == 1000.0 / u
    ensures 0.0 <= q < 1000.0 / u <= 1.0
    ensures 1000.0 / u <= q + SENSITIVITY <==> 1000.0 <= (q + SENSITIVITY) * u
  {
    TimesOrder(0.0, q, u);
    QuotientOrder(1000.0, u, 1.0);
    QuotientOrder(1000.0, u, q);
    QuotientOrder(1000.0, u, q + SENSITIVITY);
  }

  lemma BackIsInRange(q: real, u: real)
    requires u >= 1000.0 && 0.0 <= q <= 1.0
    ensures 0.0 <= QuotaBack(q, u) <= 1.0
  {
    hide Trunc;
    if q < 1.0 {
      WholeIsAtMostAll(q, u);
      QuotientOrder(Whole(q, u) as real, u, 1.0);
      QuotientOrder(Whole(q, u) as real, u, 0.0);
    }
  }

  lemma QuotaSettlesIff(q: real, u: real)
    requires u >= 1000.0 && 0.0 <= q <= 1.0
    ensures NoChangeset(QuotaLeaf(q), QuotaLeaf(QuotaBack(q, u))) <==>
      IsExpressible(q, u) || 1000.0 <= (q + SENSITIVITY) * u
  {
    hide NoChangeset;
    hide QuotaBack;
    BackIsInRange(q, u);
    NoChangesetIffClose(q, QuotaBack(q, u));
    if IsExpressible(q, u) {
      QuotaRoundTrip(q, u);
      UnitIsSmall(u);
    } else {
      ClampedBack(q, u);
    }
  }

  /** The same request in the next round needs no change exactly when the quota was not clamped, or was raised
      by no more than the tolerance. */
  lemma QuotaCloses(q: real, period: int, cpus: int)
    requires 1000 <= period && 1 <= cpus && 0.0 <= q <= 1.0
    ensures var r := ReadQuota(WrittenQuota(q, period, cpus), period, cpus);
      && (NoChangeset(QuotaLeaf(q), QuotaLeaf(r)) <==>
          IsExpressible(q, Units(period, cpus)) || 1000.0 <= (q + SENSITIVITY) * Units(period, cpus))
      && (IsExpressible(q, Units(period, cpus)) ==> 0.0 <= q - r < 1.0 / Units(period, cpus))
      && ReadQuota(WrittenQuota(r, period, cpus), period, cpus) == r
  {
    hide QuotaBack;
    hide NoChangeset;
    hide WrittenQuota;
    hide ReadQuota;
    var u := Units(period, cpus);
    UnitsAreMany(period, cpus);
    ReadIsQuotaBack(q, period, cpus);
    ReadIsQuotaBack(QuotaBack(q, u), period, cpus);
    QuotaSettlesIff(q, u);
    QuotaSettles(q, u);
    if IsExpressible(q, u) {
      QuotaRoundTrip(q, u);
    }
  }

  /** A clamped quota that is written again in every round: on one cpu with the shortest period, a tenth of it. */
  lemma ClampedForever()
    ensures !NoChangeset(QuotaLeaf(0.1), QuotaLeaf(ReadQuota(WrittenQuota(0.1, 1000, 1), 1000, 1)))
  {
    hide NoChangeset;
    hide ReadQuota;
    hide WrittenQuota;
    QuotaCloses(0.1, 1000, 1);
  }

  // ----- Shares -----

  function SharesLeaf(s: real): AllocationValue { Number(s, Some(0.0), None, SENSITIVITY, false) }

  lemma SharesAreClose(s: real, r: real)
    requires -SENSITIVITY <= s - r <= SENSITIVITY
    ensures NoChangeset(SharesLeaf(s), SharesLeaf(r))
  {
  }

  /** Over the unit: the number written, read back. */
  lemma SharesBack(s: real, u: real, n: int)
    requires u >= 1000.0 && s >= 0.0
    requires n == if Trunc(s * u) < MIN_SHARES then MIN_SHARES else Trunc(s * u)
    ensures -0.002 <= s - n as real / u <= 0.001
    ensures s * u >= 2.0 ==> 0.0 <= s - n as real / u < 1.0 / u
    ensures n >= MIN_SHARES && Trunc(n as real / u * u) == n
  {
    TimesOrder(0.0, s, u);
    UnitIsSmall(u);
    FloorOverUnit(s, u);
    QuotientOrder(2.0, u, 0.002);
    QuotientOrder(2.0, u, s);
    assert n as real / u * u == n as real;
    TruncWhole(n, n as real / u * u);
  }

  /** Shares always settle, even when raised to the minimum: what is read back is close to the request, written
      again it gives the same file, and the same request needs no change. */
  lemma SharesClose(s: real, unit: int)
    requires 1000 <= unit && s >= 0.0
    ensures var r := ReadShares(WrittenShares(s, unit), unit);
      && NoChangeset(SharesLeaf(s), SharesLeaf(r))
      && WrittenShares(r, unit) == WrittenShares(s, unit)
      && (s * unit as real >= 2.0 ==> 0.0 <= s - r < 1.0 / unit as real)
  {
    hide NoChangeset;
    var r := ReadShares(WrittenShares(s, unit), unit);
    SharesBack(s, unit as real, WrittenShares(s, unit));
    SharesAreClose(s, r);
  }

  // ----- What the files say -----

  /** A quota of one or more lifts the limit; below one the file holds the share of the time of all cpus in a period, cut to a
      whole number, and never less than a thousand. */
  lemma QuotaIsAShare(q: real, period: int, cpus: int)
    requires 1000 <= period && 1 <= cpus && 0.0 <= q
    ensures var quota := WrittenQuota(q, period, cpus);
      && (q >= 1.0 ==> quota == -1)
      && (q < 1.0 ==> quota >= 1000 && quota as real > q * (period as real * cpus as real) - 1.0)
      && (q < 1.0 && quota > 1000 ==> quota as real <= q * (period as real * cpus as real))
  {
    MultiplyOnce(q, period as real, cpus as real);
    TimesOrder(0.0, period as real, cpus as real);
    NotNegative(q, period as real * cpus as real);
  }

  lemma NotNegative(x: real, y: real)
    requires x >= 0.0 && y >= 0.0
    ensures x * y >= 0.0
  {
  }

  /** A quota file that holds -1 reads as one, any other as the share of the time of all cpus in a period. */
  lemma ReadIsAShare(quota: int, period: int, cpus: int)
    requires 1000 <= period && 1 <= cpus
    ensures quota == -1 ==> ReadQuota(quota, period, cpus) == 1.0
    ensures quota != -1 ==> ReadQuota(quota, period, cpus) * (period as real * cpus as real) == quota as real
  {
    DivideOnce(quota as real, period as real, cpus as real);
  }

  /** The shares file holds the shares in the configured unit, cut to a whole number, and never less than two. */
  lemma SharesAreInUnits(s: real, unit: int)
    requires 1000 <= unit && 0.0 <= s
    ensures var shares := WrittenShares(s, unit);
      && shares >= 2 && shares as real > s * unit as real - 1.0
      && (shares > 2 ==> shares as real <= s * unit as real)
    ensures ReadShares(WrittenShares(s, unit), unit) * unit as real == WrittenShares(s, unit) as real
  {
    NotNegative(s, unit as real);
  }
}
