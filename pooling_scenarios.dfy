/** Small pools of the shapes backend/tests/pooling.service.test.ts exercises,
    derived from the contracts of the services alone: first the outcome every
    valid allocation of such a pool must have, then the stores and the
    service put together for the concrete records of the tests. */
module PoolingScenarios {
  import opened Wrappers
  import opened Compliance
  import opened Pooling

  lemma {:induction false} TotalOfTwo(a: ComplianceBalance, b: ComplianceBalance)
    ensures TotalCb([a, b]) == a.cb + b.cb
  {
    assert [a, b][1..] == [b];
    assert [b][1..] == [];
    assert TotalCb([b]) == b.cb + TotalCb([]);
  }

  lemma {:induction false} TotalOfThree(a: ComplianceBalance, b: ComplianceBalance, c: ComplianceBalance)
    ensures TotalCb([a, b, c]) == a.cb + b.cb + c.cb
  {
    assert [a, b, c][1..] == [b, c];
    TotalOfTwo(b, c);
  }

  lemma {:induction false} AfterOfTwo(ms: seq<PoolMember>)
    requires |ms| == 2
    ensures TotalAfter(ms) == ms[0].cbAfter + ms[1].cbAfter
  {
    assert ms[1..][1..] == [];
    assert TotalAfter(ms[1..]) == ms[1].cbAfter + TotalAfter(ms[1..][1..]);
  }

  lemma {:induction false} AfterOfThree(ms: seq<PoolMember>)
    requires |ms| == 3
    ensures TotalAfter(ms) == ms[0].cbAfter + ms[1].cbAfter + ms[2].cbAfter
  {
    AfterOfTwo(ms[1..]);
  }

  /** Two records already in descending order stay where they are. */
  lemma {:induction false} SortTwo(a: ComplianceBalance, b: ComplianceBalance)
    requires a.cb >= b.cb
    ensures SortByCbDesc([a, b]) == [a, b]
  {
    assert [a, b][1..] == [b];
    assert [b][1..] == [];
    assert SortByCbDesc([b]) == [b];
  }

  /** A deficit listed before a surplus is moved behind it. */
  lemma {:induction false} SortTwoSwapped(a: ComplianceBalance, b: ComplianceBalance)
    requires a.cb < b.cb
    ensures SortByCbDesc([a, b]) == [b, a]
  {
    assert [a, b][1..] == [b];
    assert [b][1..] == [];
    assert SortByCbDesc([b]) == [b];
    assert Insert(a, [b])[1..] == Insert(a, []);
  }

  lemma {:induction false} SortThree(a: ComplianceBalance, b: ComplianceBalance, c: ComplianceBalance)
    requires a.cb >= b.cb >= c.cb
    ensures SortByCbDesc([a, b, c]) == [a, b, c]
  {
    assert [a, b, c][1..] == [b, c];
    SortTwo(b, c);
  }

  /** One surplus ship ahead of two deficits it can cover: both deficits end
      at zero and the surplus keeps what is left of the pool total. */
  lemma {:induction false} SurplusCoversTwoDeficitsAllocation(a: ComplianceBalance, b: ComplianceBalance, c: ComplianceBalance, ms: seq<PoolMember>)
    requires a.cb >= 0.0 > b.cb >= c.cb && a.cb + b.cb + c.cb >= 0.0
    requires SameShips(InitialStates(SortByCbDesc([a, b, c])), ms) && TotalAfter(ms) == TotalCb([a, b, c])
    requires AllNoWorseOff(ms) && forall k :: 0 <= k < |ms| ==> ms[k].cbAfter >= 0.0
    ensures ms == [PoolMember(a.shipId, a.cb, a.cb + b.cb + c.cb), PoolMember(b.shipId, b.cb, 0.0), PoolMember(c.shipId, c.cb, 0.0)]
  {
    StartOfThree(a, b, c);
    AfterOfThree(ms);
    assert NoWorseOff(ms[1]) && ms[1].cbAfter >= 0.0;
    assert NoWorseOff(ms[2]) && ms[2].cbAfter >= 0.0;
    SettleThree(a, b, c, ms);
  }

  lemma {:induction false} SettleThree(a: ComplianceBalance, b: ComplianceBalance, c: ComplianceBalance, ms: seq<PoolMember>)
    requires 0.0 > b.cb && 0.0 > c.cb
    requires SameShips([PoolMember(a.shipId, a.cb, a.cb), PoolMember(b.shipId, b.cb, b.cb), PoolMember(c.shipId, c.cb, c.cb)], ms)
    requires ms[0].cbAfter + ms[1].cbAfter + ms[2].cbAfter == a.cb + b.cb + c.cb
    requires NoWorseOff(ms[1]) && NoWorseOff(ms[2]) && ms[1].cbAfter >= 0.0 && ms[2].cbAfter >= 0.0
    ensures ms == [PoolMember(a.shipId, a.cb, a.cb + b.cb + c.cb), PoolMember(b.shipId, b.cb, 0.0), PoolMember(c.shipId, c.cb, 0.0)]
  {
    assert ms[1].cbAfter == 0.0 by { assert ms[1].cbBefore == b.cb; }
    assert ms[2].cbAfter == 0.0 by { assert ms[2].cbBefore == c.cb; }
    assert ms[0] == PoolMember(a.shipId, a.cb, a.cb + b.cb + c.cb);
    assert ms[1] == PoolMember(b.shipId, b.cb, 0.0);
    assert ms[2] == PoolMember(c.shipId, c.cb, 0.0);
  }

  /** The starting states of three records already in descending order. */
  lemma {:induction false} StartOfThree(a: ComplianceBalance, b: ComplianceBalance, c: ComplianceBalance)
    requires a.cb >= b.cb >= c.cb
    ensures InitialStates(SortByCbDesc([a, b, c])) == [PoolMember(a.shipId, a.cb, a.cb), PoolMember(b.shipId, b.cb, b.cb), PoolMember(c.shipId, c.cb, c.cb)]
    ensures TotalCb([a, b, c]) == a.cb + b.cb + c.cb
  {
    SortThree(a, b, c);
    TotalOfThree(a, b, c);
    InitialOfThree(a, b, c);
  }

  lemma {:induction false} InitialOfThree(a: ComplianceBalance, b: ComplianceBalance, c: ComplianceBalance)
    ensures InitialStates([a, b, c]) == [PoolMember(a.shipId, a.cb, a.cb), PoolMember(b.shipId, b.cb, b.cb), PoolMember(c.shipId, c.cb, c.cb)]
  {
    var init := InitialStates([a, b, c]);
    assert init[0] == PoolMember(a.shipId, a.cb, a.cb);
    assert init[1] == PoolMember(b.shipId, b.cb, b.cb);
    assert init[2] == PoolMember(c.shipId, c.cb, c.cb);
  }

  lemma {:induction false} InitialOfTwo(a: ComplianceBalance, b: ComplianceBalance)
    ensures InitialStates([a, b]) == [PoolMember(a.shipId, a.cb, a.cb), PoolMember(b.shipId, b.cb, b.cb)]
  {
    var init := InitialStates([a, b]);
    assert init[0] == PoolMember(a.shipId, a.cb, a.cb);
    assert init[1] == PoolMember(b.shipId, b.cb, b.cb);
  }

  /** The member states two ships start the transfer pass with. */
  lemma {:induction false} StartOfTwo(a: ComplianceBalance, b: ComplianceBalance)
    ensures a.cb >= b.cb ==> InitialStates(SortByCbDesc([a, b])) == [PoolMember(a.shipId, a.cb, a.cb), PoolMember(b.shipId, b.cb, b.cb)]
    ensures a.cb < b.cb ==> InitialStates(SortByCbDesc([a, b])) == [PoolMember(b.shipId, b.cb, b.cb), PoolMember(a.shipId, a.cb, a.cb)]
    ensures TotalCb([a, b]) == a.cb + b.cb
  {
    TotalOfTwo(a, b);
    if a.cb >= b.cb {
      SortTwo(a, b);
      InitialOfTwo(a, b);
    } else {
      SortTwoSwapped(a, b);
      InitialOfTwo(b, a);
    }
  }

  /** A deficit listed before the surplus that covers it: the surplus goes
      first, the deficit ends at zero, the surplus keeps the pool total. */
  lemma {:induction false} DonorCoversDeficitAllocation(v: ComplianceBalance, d: ComplianceBalance, ms: seq<PoolMember>)
    requires v.cb < 0.0 <= d.cb && d.cb + v.cb >= 0.0
    requires SameShips(InitialStates(SortByCbDesc([v, d])), ms) && TotalAfter(ms) == TotalCb([v, d])
    requires AllNoWorseOff(ms) && forall k :: 0 <= k < |ms| ==> ms[k].cbAfter >= 0.0
    ensures ms == [PoolMember(d.shipId, d.cb, d.cb + v.cb), PoolMember(v.shipId, v.cb, 0.0)]
  {
    StartOfTwo(v, d);
    AfterOfTwo(ms);
    assert NoWorseOff(ms[1]) && ms[1].cbAfter >= 0.0;
    SettleTwo(PoolMember(d.shipId, d.cb, d.cb), PoolMember(v.shipId, v.cb, v.cb), ms);
  }

  /** Two surplus ships: nothing moves. */
  lemma {:induction false} NoDeficitAllocation(a: ComplianceBalance, b: ComplianceBalance, ms: seq<PoolMember>)
    requires a.cb >= b.cb >= 0.0
    requires SameShips(InitialStates(SortByCbDesc([a, b])), ms) && TotalAfter(ms) == TotalCb([a, b])
    requires AllNoWorseOff(ms) && forall k :: 0 <= k < |ms| ==> ms[k].cbAfter >= 0.0
    ensures ms == [PoolMember(a.shipId, a.cb, a.cb), PoolMember(b.shipId, b.cb, b.cb)]
  {
    StartOfTwo(a, b);
    AfterOfTwo(ms);
    assert NoWorseOff(ms[0]) && NoWorseOff(ms[1]);
    SettleTwo(PoolMember(a.shipId, a.cb, a.cb), PoolMember(b.shipId, b.cb, b.cb), ms);
  }

  /** Two members that keep their total and are no worse off: a deficit ends
      at zero when it is covered, and two surpluses stay as they are. */
  lemma {:induction false} SettleTwo(x: PoolMember, y: PoolMember, ms: seq<PoolMember>)
    requires SameShips([x, y], ms) && ms[0].cbAfter + ms[1].cbAfter == x.cbBefore + y.cbBefore
    requires NoWorseOff(ms[0]) && NoWorseOff(ms[1]) && ms[1].cbAfter >= 0.0
    requires x.cbBefore >= 0.0
    ensures y.cbBefore < 0.0 ==> ms == [PoolMember(x.shipId, x.cbBefore, x.cbBefore + y.cbBefore), PoolMember(y.shipId, y.cbBefore, 0.0)]
    ensures y.cbBefore >= 0.0 ==> ms == [PoolMember(x.shipId, x.cbBefore, x.cbBefore), PoolMember(y.shipId, y.cbBefore, y.cbBefore)]
  {
    if y.cbBefore < 0.0 {
      assert ms[1] == PoolMember(y.shipId, y.cbBefore, 0.0);
      assert ms[0] == PoolMember(x.shipId, x.cbBefore, x.cbBefore + y.cbBefore);
    } else {
      assert ms[1] == PoolMember(y.shipId, y.cbBefore, y.cbBefore);
      assert ms[0] == PoolMember(x.shipId, x.cbBefore, x.cbBefore);
    }
  }

  /** A single ship on or above target forms a pool by itself and keeps its
      balance; in particular a single ship at exactly zero stays at zero. */
  lemma {:induction false} SingleShipAllocation(a: ComplianceBalance, ms: seq<PoolMember>)
    requires ValidAllocation([a], ms)
    ensures ms == [PoolMember(a.shipId, a.cb, a.cb)]
  {
    assert [a][1..] == [];
    assert SortByCbDesc([a]) == [a];
    assert TotalCb([a]) == a.cb;
    assert ms[1..] == [];
    assert TotalAfter(ms) == ms[0].cbAfter;
    assert ms[0] == PoolMember(a.shipId, a.cb, a.cb);
  }

  /** An empty request forms an empty pool. */
  lemma {:induction false} EmptyRequestAllocation(ms: seq<PoolMember>)
    requires ValidAllocation([], ms)
    ensures ms == []
  {
    assert SortByCbDesc([]) == [];
  }

  /** S1 = 100, S2 = -40, S3 = -50, requested in that order: whatever the
      service returns leaves S1 with 10 and both deficits at zero. */
  lemma {:induction false} SurplusCoversTwoDeficits(ms: seq<PoolMember>)
    requires ValidAllocation([RecordOf("S1", 2025, 100.0), RecordOf("S2", 2025, -40.0), RecordOf("S3", 2025, -50.0)], ms)
    ensures ms == [PoolMember("S1", 100.0, 10.0), PoolMember("S2", -40.0, 0.0), PoolMember("S3", -50.0, 0.0)]
  {
    var s1, s2, s3 := RecordOf("S1", 2025, 100.0), RecordOf("S2", 2025, -40.0), RecordOf("S3", 2025, -50.0);
    SurplusCoversTwoDeficitsAllocation(s1, s2, s3, ms);
  }

  /** S1 = 10, S2 = -20: the total is negative, the pool is refused and nothing is saved. */
  method NegativeTotalRefused() returns (r: Result<Pool, PoolError>, saved: seq<Pool>)
    ensures r == Failure(NegativeTotal) && Pooling.Message(r.error) == "Pool total compliance balance is negative"
    ensures saved == []
  {
    var s1, s2 := RecordOf("S1", 2025, 10.0), RecordOf("S2", 2025, -20.0);
    var store := new ComplianceStore();
    store.SaveCompliance(s1);
    store.SaveCompliance(s2);
    var pools := new PoolStore();
    var service := new PoolingService(pools, store);
    var f := FetchAll(store.balances, ["S1", "S2"], 2025);
    assert f.Some?;
    assert f.value[0] == s1 && f.value[1] == s2;
    assert f.value == [s1, s2];
    TotalOfTwo(s1, s2);
    r := service.CreatePool(["S1", "S2"], 2025, "pool-1", 0);
    saved := pools.pools;
  }

  /** A ship without a record for the year makes the whole request fail. */
  method MissingRecordRefused() returns (r: Result<Pool, PoolError>, saved: seq<Pool>)
    ensures r == Failure(ComplianceMissing) && saved == []
  {
    var store := new ComplianceStore();
    store.SaveCompliance(RecordOf("S1", 2025, 10.0));
    store.SaveCompliance(RecordOf("S2", 2024, 5.0));
    var pools := new PoolStore();
    var service := new PoolingService(pools, store);
    assert ("S2", 2025) !in store.balances;
    r := service.CreatePool(["S1", "S2"], 2025, "pool-1", 0);
    saved := pools.pools;
  }

  /** Donor 50 and receiver -50, the receiver asked for first: exactly 50
      moves and both end at zero. */
  method ExactZeroCrossing() returns (pool: Pool)
    ensures pool.members == [PoolMember("D", 50.0, 0.0), PoolMember("R", -50.0, 0.0)]
  {
    var d, v := RecordOf("D", 2025, 50.0), RecordOf("R", 2025, -50.0);
    var store := new ComplianceStore();
    store.SaveCompliance(d);
    store.SaveCompliance(v);
    var pools := new PoolStore();
    var service := new PoolingService(pools, store);
    var f := FetchAll(store.balances, ["R", "D"], 2025);
    assert f.Some?;
    assert f.value[0] == v && f.value[1] == d;
    assert f.value == [v, d];
    TotalOfTwo(v, d);
    var r := service.CreatePool(["R", "D"], 2025, "pool-2", 0);
    pool := r.value;
    ghost var ms := pool.members;
    assert ValidAllocation(f.value, ms);
    DonorCoversDeficitAllocation(v, d, pool.members);
  }

  /** Two surplus ships and no deficit: nothing moves. */
  method NoDeficitNoTransfer() returns (pool: Pool)
    ensures pool.members == [PoolMember("S1", 30.0, 30.0), PoolMember("S2", 20.0, 20.0)]
  {
    var s1, s2 := RecordOf("S1", 2025, 30.0), RecordOf("S2", 2025, 20.0);
    var store := new ComplianceStore();
    store.SaveCompliance(s1);
    store.SaveCompliance(s2);
    var pools := new PoolStore();
    var service := new PoolingService(pools, store);
    var f := FetchAll(store.balances, ["S1", "S2"], 2025);
    assert f.Some?;
    assert f.value[0] == s1 && f.value[1] == s2;
    assert f.value == [s1, s2];
    TotalOfTwo(s1, s2);
    var r := service.CreatePool(["S1", "S2"], 2025, "pool-3", 0);
    pool := r.value;
    ghost var ms := pool.members;
    assert ValidAllocation(f.value, ms);
    NoDeficitAllocation(s1, s2, pool.members);
  }
}
