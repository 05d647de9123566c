/** The matching of devices and drivers on a bus. The PCI bus and the MMIO bus work the same way. */
module Buses {
  import opened Options

  /** Drivers and devices are known by number. */
  type Drv = nat
  type Dev = nat

  /** A device that was claimed, and the driver that claimed it, by its place in the order of registration. */
  datatype Claim = Claim(dev: Dev, driver: nat)

  /** The earliest registered driver that accepts the device. */
  function Earliest(accepts: (Drv, Dev) -> bool, drivers: seq<Drv>, dev: Dev): (r: Option<nat>)
    ensures r.Some? ==> r.value < |drivers|
  {
    if drivers == [] then None
    else
      var n := |drivers| - 1;
      var r := Earliest(accepts, drivers[..n], dev);
      if r.Some? then r else if accepts(drivers[n], dev) then Some(n) else None
  }

  lemma {:induction false} EarliestIs(accepts: (Drv, Dev) -> bool, drivers: seq<Drv>, dev: Dev)
    ensures var r := Earliest(accepts, drivers, dev);
            && (r.Some? ==> accepts(drivers[r.value], dev))
            && forall i | 0 <= i < (if r.Some? then r.value else |drivers|) :: !accepts(drivers[i], dev)
  {
    if drivers != [] { EarliestIs(accepts, drivers[..|drivers| - 1], dev); }
  }

  lemma {:induction false} EarliestOfMore(accepts: (Drv, Dev) -> bool, drivers: seq<Drv>, drv: Drv, dev: Dev)
    ensures Earliest(accepts, drivers + [drv], dev) ==
            var r := Earliest(accepts, drivers, dev);
            if r.Some? then r else if accepts(drv, dev) then Some(|drivers|) else None
  {
    assert (drivers + [drv])[..|drivers|] == drivers;
  }

  function Rejected(accepts: (Drv, Dev) -> bool, drv: Drv, devs: seq<Dev>): seq<Dev> {
    if devs == [] then []
    else
      var n := |devs| - 1;
      Rejected(accepts, drv, devs[..n]) + if accepts(drv, devs[n]) then [] else [devs[n]]
  }

  function Accepted(accepts: (Drv, Dev) -> bool, drv: Drv, devs: seq<Dev>, driver: nat): seq<Claim> {
    if devs == [] then []
    else
      var n := |devs| - 1;
      Accepted(accepts, drv, devs[..n], driver) + if accepts(drv, devs[n]) then [Claim(devs[n], driver)] else []
  }

  function Devices(claims: seq<Claim>): seq<Dev> {
    if claims == [] then [] else Devices(claims[..|claims| - 1]) + [claims[|claims| - 1].dev]
  }

  /** Devices are where they belong: unclaimed ones were rejected by every driver, claimed ones belong to the earliest
      driver that accepts them, and together they are all that have arrived. */
  ghost predicate Matched(accepts: (Drv, Dev) -> bool, drivers: seq<Drv>, common: seq<Dev>, claims: seq<Claim>,
                          arrived: multiset<Dev>)
  {
    && AllRejected(accepts, drivers, common) && AllOwned(accepts, drivers, claims)
    && multiset(common) + multiset(Devices(claims)) == arrived
  }

  ghost predicate AllRejected(accepts: (Drv, Dev) -> bool, drivers: seq<Drv>, common: seq<Dev>) {
    forall i | 0 <= i < |common| :: Earliest(accepts, drivers, common[i]) == None
  }

  ghost predicate AllOwned(accepts: (Drv, Dev) -> bool, drivers: seq<Drv>, claims: seq<Claim>) {
    forall i | 0 <= i < |claims| :: Earliest(accepts, drivers, claims[i].dev) == Some(claims[i].driver)
  }

  /** How often a driver has probed a device, given how often the device has arrived. */
  ghost function Probes(accepts: (Drv, Dev) -> bool, drivers: seq<Drv>, arrived: multiset<Dev>, driver: nat,
                        dev: Dev): nat
  {
    if driver < |drivers| && Earliest(accepts, drivers[..driver], dev) == None then arrived[dev] else 0
  }

  ghost predicate ProbesOk(accepts: (Drv, Dev) -> bool, drivers: seq<Drv>, arrived: multiset<Dev>,
                           probes: multiset<(nat, Dev)>)
  {
    forall driver: nat, dev: Dev {:trigger probes[(driver, dev)]} ::
      probes[(driver, dev)] == Probes(accepts, drivers, arrived, driver, dev)
  }

  class Bus {
    /** What `probe` answers. */
    const accepts: (Drv, Dev) -> bool
    var common: seq<Dev>
    var claims: seq<Claim>
    var drivers: seq<Drv>
    /** Every device that was registered, and every probe that was made. */
    ghost var arrived: multiset<Dev>
    ghost var probes: multiset<(nat, Dev)>

    ghost predicate Valid()
      reads this
    {
      Matched(accepts, drivers, common, claims, arrived) && ProbesOk(accepts, drivers, arrived, probes)
    }

    constructor (accepts: (Drv, Dev) -> bool)
      ensures Valid() && drivers == [] && arrived == multiset{} && this.accepts == accepts
    {
      this.accepts := accepts;
      common, claims, drivers := [], [], [];
      arrived, probes := multiset{}, multiset{};
    }

    /** `register_driver`: the new driver probes every unclaimed device once. */
    method RegisterDriver(driver: Drv)
      requires Valid()
      modifies this
      ensures Valid() && drivers == old(drivers) + [driver] && arrived == old(arrived)
      ensures common == Rejected(accepts, driver, old(common))
      ensures claims == old(claims) + Accepted(accepts, driver, old(common), |old(drivers)|)
    {
      ghost var all, before := common, claims;
      ProbeAll(driver, |drivers|);
      DriverMatched(accepts, drivers, driver, all, before, arrived);
      DriverProbes(accepts, drivers, driver, all, before, arrived, old(probes), probes);
      drivers := drivers + [driver];
    }

    /** The loop of `register_driver`: each unclaimed device goes from the front of the queue to its back, or is
        claimed. */
    method ProbeAll(driver: Drv, n: nat)
      modifies this`common, this`claims, this`probes
      ensures common == Rejected(accepts, driver, old(common))
      ensures claims == old(claims) + Accepted(accepts, driver, old(common), n)
      ensures ProbedBy(old(probes), probes, n, old(common))
    {
      ghost var all := common;
      for i := 0 to |common|
        invariant common == all[i..] + Rejected(accepts, driver, all[..i])
        invariant claims == old(claims) + Accepted(accepts, driver, all[..i], n)
        invariant ProbedBy(old(probes), probes, n, all[..i])
      {
        var dev := common[0];
        common := common[1..];
        assert dev == all[i] && all[..i + 1][..i] == all[..i];
        ProbedMore(old(probes), probes, n, all, i);
        probes := probes + multiset{(n, dev)};
        if accepts(driver, dev) { claims := claims + [Claim(dev, n)]; } else { common := common + [dev]; }
      }
      assert all[..|all|] == all;
    }

    /** `register_common_device` and `register_mmio_device`: drivers probe in order until one accepts. */
    method RegisterDevice(dev: Dev)
      requires Valid()
      modifies this
      ensures Valid() && drivers == old(drivers) && arrived == old(arrived) + multiset{dev}
      ensures common == CommonWith(old(common), Earliest(accepts, drivers, dev), dev)
      ensures claims == ClaimsWith(old(claims), Earliest(accepts, drivers, dev), dev)
    {
      ghost var before := arrived;
      arrived := arrived + multiset{dev};
      var r := Offer(dev);
      DeviceProbes(accepts, drivers, before, old(probes), dev, if r.Some? then r.value + 1 else |drivers|, arrived,
                   probes);
      if r.Some? { claims := claims + [Claim(dev, r.value)]; } else { common := common + [dev]; }
      DeviceMatched(accepts, drivers, old(common), old(claims), before, dev, r, common, claims, arrived);
    }

    /** The loop of `register_common_device`. */
    method Offer(dev: Dev) returns (r: Option<nat>)
      modifies this`probes
      ensures r == Earliest(accepts, drivers, dev)
      ensures probes == old(probes) + OneProbeEach(dev, if r.Some? then r.value + 1 else |drivers|)
    {
      for i := 0 to |drivers|
        invariant Earliest(accepts, drivers[..i], dev) == None && probes == old(probes) + OneProbeEach(dev, i)
      {
        probes := probes + multiset{(i, dev)};
        if accepts(drivers[i], dev) {
          EarliestFound(accepts, drivers, dev, i);
          return Some(i);
        }
        assert drivers[..i + 1] == drivers[..i] + [drivers[i]];
        EarliestOfMore(accepts, drivers[..i], drivers[i], dev);
      }
      assert drivers[..|drivers|] == drivers;
      return None;
    }
  }

  // ---- Registering a driver ----

  ghost predicate ProbedBy(before: multiset<(nat, Dev)>, after: multiset<(nat, Dev)>, driver: nat, devs: seq<Dev>) {
    forall d: nat, dev: Dev {:trigger after[(d, dev)]} ::
      after[(d, dev)] == before[(d, dev)] + if d == driver then multiset(devs)[dev] else 0
  }

  lemma ProbedMore(before: multiset<(nat, Dev)>, after: multiset<(nat, Dev)>, driver: nat, devs: seq<Dev>, i: nat)
    requires i < |devs| && ProbedBy(before, after, driver, devs[..i])
    ensures ProbedBy(before, after + multiset{(driver, devs[i])}, driver, devs[..i + 1])
  {
    assert devs[..i + 1] == devs[..i] + [devs[i]];
  }

  lemma {:induction false} DevicesAppend(a: seq<Claim>, b: seq<Claim>)
    ensures Devices(a + b) == Devices(a) + Devices(b)
  {
    if b == [] {
      assert a + b == a;
    } else {
      var n := |b| - 1;
      assert (a + b)[..|a + b| - 1] == a + b[..n];
      DevicesAppend(a, b[..n]);
    }
  }

  lemma {:induction false} OneMoreClaim(claims: seq<Claim>, c: Claim)
    ensures Devices(claims + [c]) == Devices(claims) + [c.dev]
  {
    assert (claims + [c])[..|claims|] == claims;
  }

  /** Nothing is lost or doubled when the unclaimed devices are probed. */
  lemma {:induction false} SplitKeepsAll(accepts: (Drv, Dev) -> bool, drv: Drv, devs: seq<Dev>, driver: nat)
    ensures multiset(Rejected(accepts, drv, devs)) + multiset(Devices(Accepted(accepts, drv, devs, driver)))
         == multiset(devs)
  {
    var rejected := multiset(Rejected(accepts, drv, devs));
    var accepted := multiset(Devices(Accepted(accepts, drv, devs, driver)));
    forall dev ensures (rejected + accepted)[dev] == multiset(devs)[dev] {
      SplitCounts(accepts, drv, devs, driver, dev);
    }
  }

  lemma {:induction false} SplitCounts(accepts: (Drv, Dev) -> bool, drv: Drv, devs: seq<Dev>, driver: nat, dev: Dev)
    ensures multiset(Rejected(accepts, drv, devs))[dev] + multiset(Devices(Accepted(accepts, drv, devs, driver)))[dev]
            == multiset(devs)[dev]
  {
    if devs != [] {
      var n := |devs| - 1;
      SplitCounts(accepts, drv, devs[..n], driver, dev);
      assert devs == devs[..n] + [devs[n]];
      var accepted := Accepted(accepts, drv, devs[..n], driver);
      if accepts(drv, devs[n]) {
        OneMoreClaim(accepted, Claim(devs[n], driver));
      } else {
        assert accepted + [] == accepted;
      }
    }
  }

  lemma {:induction false} SplitBelongs(accepts: (Drv, Dev) -> bool, drivers: seq<Drv>, drv: Drv, devs: seq<Dev>)
    requires AllRejected(accepts, drivers, devs)
    ensures AllRejected(accepts, drivers + [drv], Rejected(accepts, drv, devs))
    ensures AllOwned(accepts, drivers + [drv], Accepted(accepts, drv, devs, |drivers|))
  {
    if devs != [] {
      var n := |devs| - 1;
      SplitBelongs(accepts, drivers, drv, devs[..n]);
      EarliestOfMore(accepts, drivers, drv, devs[n]);
    }
  }

  lemma {:induction false} DriverMatched(accepts: (Drv, Dev) -> bool, drivers: seq<Drv>, drv: Drv, common: seq<Dev>,
                                         claims: seq<Claim>, arrived: multiset<Dev>)
    requires Matched(accepts, drivers, common, claims, arrived)
    ensures Matched(accepts, drivers + [drv], Rejected(accepts, drv, common),
                    claims + Accepted(accepts, drv, common, |drivers|), arrived)
  {
    var more := Accepted(accepts, drv, common, |drivers|);
    SplitBelongs(accepts, drivers, drv, common);
    SplitKeepsAll(accepts, drv, common, |drivers|);
    DevicesAppend(claims, more);
    forall i | 0 <= i < |claims + more|
      ensures Earliest(accepts, drivers + [drv], (claims + more)[i].dev) == Some((claims + more)[i].driver)
    {
      if i < |claims| { EarliestOfMore(accepts, drivers, drv, claims[i].dev); }
    }
  }

  /** A device that no driver accepts is unclaimed, however often it has arrived; another is claimed. */
  lemma {:induction false} UnclaimedCount(accepts: (Drv, Dev) -> bool, drivers: seq<Drv>, common: seq<Dev>,
                                          claims: seq<Claim>, arrived: multiset<Dev>, dev: Dev)
    requires Matched(accepts, drivers, common, claims, arrived)
    ensures multiset(common)[dev] == if Earliest(accepts, drivers, dev) == None then arrived[dev] else 0
  {
    if Earliest(accepts, drivers, dev) == None {
      ClaimedElsewhere(accepts, drivers, claims, dev);
      assert multiset(Devices(claims))[dev] == 0;
    } else {
      assert dev !in common;
    }
  }

  lemma {:induction false} ClaimedElsewhere(accepts: (Drv, Dev) -> bool, drivers: seq<Drv>, claims: seq<Claim>,
                                            dev: Dev)
    requires AllOwned(accepts, drivers, claims)
    requires Earliest(accepts, drivers, dev) == None
    ensures dev !in Devices(claims)
  {
    if claims != [] { ClaimedElsewhere(accepts, drivers, claims[..|claims| - 1], dev); }
  }

  lemma {:induction false} DriverProbes(accepts: (Drv, Dev) -> bool, drivers: seq<Drv>, drv: Drv, common: seq<Dev>,
                                        claims: seq<Claim>, arrived: multiset<Dev>, before: multiset<(nat, Dev)>,
                                        after: multiset<(nat, Dev)>)
    requires Matched(accepts, drivers, common, claims, arrived) && ProbesOk(accepts, drivers, arrived, before)
    requires ProbedBy(before, after, |drivers|, common)
    ensures ProbesOk(accepts, drivers + [drv], arrived, after)
  {
    var more := drivers + [drv];
    forall d: nat, dev: Dev ensures after[(d, dev)] == Probes(accepts, more, arrived, d, dev) {
      assert before[(d, dev)] == Probes(accepts, drivers, arrived, d, dev);
      if d <= |drivers| { assert more[..d] == drivers[..d]; }
      if d == |drivers| {
        assert drivers[..d] == drivers;
        UnclaimedCount(accepts, drivers, common, claims, arrived, dev);
      }
    }
  }

  // ---- Registering a device ----

  ghost function OneProbeEach(dev: Dev, n: nat): multiset<(nat, Dev)> {
    if n == 0 then multiset{} else OneProbeEach(dev, n - 1) + multiset{(n - 1, dev)}
  }

  lemma {:induction false} OneProbeCount(dev: Dev, n: nat, d: nat, x: Dev)
    ensures OneProbeEach(dev, n)[(d, x)] == if d < n && x == dev then 1 else 0
  {
    if n > 0 { OneProbeCount(dev, n - 1, d, x); }
  }

  lemma {:induction false} EarliestFound(accepts: (Drv, Dev) -> bool, drivers: seq<Drv>, dev: Dev, i: nat)
    requires i < |drivers| && Earliest(accepts, drivers[..i], dev) == None && accepts(drivers[i], dev)
    ensures Earliest(accepts, drivers, dev) == Some(i)
  {
    EarliestIs(accepts, drivers, dev);
    EarliestIs(accepts, drivers[..i], dev);
    var r := Earliest(accepts, drivers, dev);
    forall j | 0 <= j < i ensures !accepts(drivers[j], dev) { assert drivers[..i][j] == drivers[j]; }
  }

  /** The unclaimed devices and the claims once a new device was offered, with the driver that took it if any did. */
  function CommonWith(common: seq<Dev>, r: Option<nat>, dev: Dev): seq<Dev> {
    if r.Some? then common else common + [dev]
  }

  function ClaimsWith(claims: seq<Claim>, r: Option<nat>, dev: Dev): seq<Claim> {
    if r.Some? then claims + [Claim(dev, r.value)] else claims
  }

  lemma {:induction false} DeviceMatched(accepts: (Drv, Dev) -> bool, drivers: seq<Drv>, common: seq<Dev>,
                                         claims: seq<Claim>, arrived: multiset<Dev>, dev: Dev, r: Option<nat>,
                                         common': seq<Dev>, claims': seq<Claim>, arrived': multiset<Dev>)
    requires Matched(accepts, drivers, common, claims, arrived) && r == Earliest(accepts, drivers, dev)
    requires common' == CommonWith(common, r, dev) && claims' == ClaimsWith(claims, r, dev)
    requires arrived' == arrived + multiset{dev}
    ensures Matched(accepts, drivers, common', claims', arrived')
  {
    if r.Some? { OneMoreClaim(claims, Claim(dev, r.value)); }
  }

  lemma {:induction false} DeviceProbes(accepts: (Drv, Dev) -> bool, drivers: seq<Drv>, arrived: multiset<Dev>,
                                        probes: multiset<(nat, Dev)>, dev: Dev, n: nat, arrived': multiset<Dev>,
                                        probes': multiset<(nat, Dev)>)
    requires ProbesOk(accepts, drivers, arrived, probes) && n <= |drivers|
    requires var r := Earliest(accepts, drivers, dev); n == if r.Some? then r.value + 1 else |drivers|
    requires arrived' == arrived + multiset{dev} && probes' == probes + OneProbeEach(dev, n)
    ensures ProbesOk(accepts, drivers, arrived', probes')
  {
    forall d: nat, x: Dev ensures probes'[(d, x)] == Probes(accepts, drivers, arrived', d, x) {
      assert probes[(d, x)] == Probes(accepts, drivers, arrived, d, x);
      OneProbeCount(dev, n, d, x);
      if d < |drivers| { EarliestBefore(accepts, drivers, dev, d); }
    }
  }

  lemma {:induction false} EarliestBefore(accepts: (Drv, Dev) -> bool, drivers: seq<Drv>, dev: Dev, d: nat)
    requires d <= |drivers|
    ensures var r := Earliest(accepts, drivers, dev);
            Earliest(accepts, drivers[..d], dev) == None <==> r.None? || d <= r.value
  {
    var r, s := Earliest(accepts, drivers, dev), Earliest(accepts, drivers[..d], dev);
    EarliestIs(accepts, drivers, dev);
    EarliestIs(accepts, drivers[..d], dev);
    if s.Some? { assert accepts(drivers[s.value], dev); }
    if r.Some? && r.value < d { assert drivers[..d][r.value] == drivers[r.value]; }
  }

  // ---- The order of arrival does not matter ----

  /** Two buses with the same drivers, in the same order, and the same devices, in whatever order, have the same
      devices unclaimed, and the same devices claimed by the same drivers. */
  lemma {:induction false} OrderDoesNotMatter(accepts: (Drv, Dev) -> bool, drivers: seq<Drv>, arrived: multiset<Dev>,
                                              common: seq<Dev>, claims: seq<Claim>, common': seq<Dev>,
                                              claims': seq<Claim>)
    requires Matched(accepts, drivers, common, claims, arrived) && Matched(accepts, drivers, common', claims', arrived)
    ensures multiset(common) == multiset(common') && multiset(claims) == multiset(claims')
  {
    forall dev ensures multiset(common)[dev] == multiset(common')[dev] {
      UnclaimedCount(accepts, drivers, common, claims, arrived, dev);
      UnclaimedCount(accepts, drivers, common', claims', arrived, dev);
    }
    forall dev ensures multiset(Devices(claims))[dev] == multiset(Devices(claims'))[dev] {
      assert (multiset(common) + multiset(Devices(claims)))[dev]
          == (multiset(common') + multiset(Devices(claims')))[dev];
    }
    forall c ensures multiset(claims)[c] == multiset(claims')[c] {
      ClaimCount(accepts, drivers, claims, c);
      ClaimCount(accepts, drivers, claims', c);
    }
  }

  lemma {:induction false} ClaimCount(accepts: (Drv, Dev) -> bool, drivers: seq<Drv>, claims: seq<Claim>, c: Claim)
    requires AllOwned(accepts, drivers, claims)
    ensures multiset(claims)[c] ==
            if Earliest(accepts, drivers, c.dev) == Some(c.driver) then multiset(Devices(claims))[c.dev] else 0
  {
    if claims != [] {
      var n := |claims| - 1;
      ClaimCount(accepts, drivers, claims[..n], c);
      assert claims == claims[..n] + [claims[n]];
    }
  }
}
