/** Compliance balances, the banking ledger and the service that computes and
    banks them (backend/src/core/application/compliance.service.ts). */
module Compliance {
  import opened Wrappers
  import Routes

  /** Energy per tonne of fuel, in MJ/t. */
  const EnergyDensity: real := 41000.0

  datatype Status = Surplus | Deficit

  /** One ship's standing for one year: positive cb is a surplus, negative a deficit. */
  datatype ComplianceBalance = ComplianceBalance(shipId: string, year: int, cb: real, status: Status)

  /** An amount set aside by a ship; `id` and `createdAt` come from the caller's
      identifier generator and clock. */
  datatype BankEntry = BankEntry(id: string, shipId: string, year: int, amount: real, createdAt: int)

  datatype ComplianceError =
    | NoRoute(shipId: string, year: int)   // no route matches the ship and year
    | NotCalculated                        // no compliance record for the ship and year
    | NothingToBank                        // the balance is a deficit or exactly zero

  function Message(e: ComplianceError): string
  {
    match e
    case NoRoute(shipId, year) => "No route found for ship " + shipId + " in year " + Decimal(year)
    case NotCalculated => "Compliance not calculated"
    case NothingToBank => "Cannot bank deficit or zero balance"
  }

  function StatusOf(cb: real): Status
  {
    if cb >= 0.0 then Surplus else Deficit
  }

  /** Compliance balance of a route: the intensity gap to the target, times the
      energy in scope (fuel times energy density). */
  function BalanceOf(route: Routes.Route): real
  {
    (Routes.TargetIntensity2025 - route.ghgIntensity) * (route.fuelConsumption * EnergyDensity)
  }

  /** With fuel burnt, the balance is a surplus exactly when the route is at or
      below the target, and strictly positive exactly when below it. */
  lemma BalanceSign(route: Routes.Route)
    requires route.fuelConsumption > 0.0
    ensures BalanceOf(route) >= 0.0 <==> route.ghgIntensity <= Routes.TargetIntensity2025
    ensures BalanceOf(route) > 0.0 <==> route.ghgIntensity < Routes.TargetIntensity2025
  {
    var gap := Routes.TargetIntensity2025 - route.ghgIntensity;
    var energy := route.fuelConsumption * EnergyDensity;
    assert energy > 0.0;
    assert BalanceOf(route) == gap * energy;
    if gap > 0.0 {
      assert gap * energy > 0.0;
    } else if gap < 0.0 {
      assert gap * energy < 0.0;
    } else {
      assert gap * energy == 0.0;
    }
  }

  /** The status the calculator derives agrees with the compliance flag of the
      comparison report, whichever route is the baseline. */
  lemma StatusAgreesWithComparison(route: Routes.Route, baseline: Routes.Route)
    requires route.fuelConsumption > 0.0
    ensures StatusOf(BalanceOf(route)) == Surplus <==>
            Routes.GetComparison(Wrappers.Some(baseline), [route]).value[0].isCompliant
  {
    BalanceSign(route);
  }

  predicate MatchesShipYear(route: Routes.Route, shipId: string, year: int)
  {
    route.routeId == shipId && route.year == year
  }

  /** The first route whose routeId is the ship and whose year is the year. */
  function FindRoute(routes: seq<Routes.Route>, shipId: string, year: int): (r: Option<Routes.Route>)
    ensures r.None? <==> forall k :: 0 <= k < |routes| ==> !MatchesShipYear(routes[k], shipId, year)
    ensures r.Some? ==> exists k :: 0 <= k < |routes| && routes[k] == r.value && MatchesShipYear(routes[k], shipId, year)
                          && forall k' :: 0 <= k' < k ==> !MatchesShipYear(routes[k'], shipId, year)
  {
    if routes == [] then None
    else if MatchesShipYear(routes[0], shipId, year) then Some(routes[0])
    else
      var r := FindRoute(routes[1..], shipId, year);
      assert r.Some? ==> exists k :: 1 <= k < |routes| && routes[k] == r.value && MatchesShipYear(routes[k], shipId, year)
                          && forall k' :: 0 <= k' < k ==> !MatchesShipYear(routes[k'], shipId, year) by {
        if r.Some? {
          var k :| 0 <= k < |routes[1..]| && routes[1..][k] == r.value && MatchesShipYear(routes[1..][k], shipId, year)
                   && forall k' :: 0 <= k' < k ==> !MatchesShipYear(routes[1..][k'], shipId, year);
          assert routes[k + 1] == routes[1..][k];
          forall k' | 0 <= k' < k + 1 ensures !MatchesShipYear(routes[k'], shipId, year) {
            if k' > 0 { assert routes[k'] == routes[1..][k' - 1]; }
          }
        }
      }
      assert r.None? ==> forall k :: 0 <= k < |routes| ==> !MatchesShipYear(routes[k], shipId, year) by {
        if r.None? {
          forall k | 0 <= k < |routes| ensures !MatchesShipYear(routes[k], shipId, year) {
            if k > 0 { assert routes[k] == routes[1..][k - 1]; }
          }
        }
      }
      r
  }

  /** The record the store hands back for a stored balance: status is derived from cb. */
  function RecordOf(shipId: string, year: int, cb: real): (c: ComplianceBalance)
    ensures c.shipId == shipId && c.year == year && c.cb == cb
    ensures c.status == Surplus <==> cb >= 0.0
  {
    ComplianceBalance(shipId, year, cb, StatusOf(cb))
  }

  /** What the store returns for (shipId, year): the latest saved balance, if any. */
  function Lookup(balances: map<(string, int), real>, shipId: string, year: int): (r: Option<ComplianceBalance>)
    ensures r.None? <==> (shipId, year) !in balances
    ensures r.Some? ==> r.value == RecordOf(shipId, year, balances[(shipId, year)])
  {
    if (shipId, year) in balances then Some(RecordOf(shipId, year, balances[(shipId, year)])) else None
  }

  /** A saved record reads back as itself, and saving leaves every other
      (ship, year) as it was. */
  lemma SavedRecordReadsBack(balances: map<(string, int), real>, c: ComplianceBalance)
    requires c.status == StatusOf(c.cb)
    ensures Lookup(balances[(c.shipId, c.year) := c.cb], c.shipId, c.year) == Some(c)
    ensures forall shipId, year :: (shipId, year) != (c.shipId, c.year) ==>
      Lookup(balances[(c.shipId, c.year) := c.cb], shipId, year) == Lookup(balances, shipId, year)
  {
  }

  /** The compliance store: the latest balance per (ship, year) and the
      append-only ledger of banked amounts. Saving a balance for a (ship, year)
      that already has one supersedes it. */
  class ComplianceStore {
    var balances: map<(string, int), real>
    var bank: seq<BankEntry>

    constructor ()
      ensures balances == map[] && bank == []
    {
      balances := map[];
      bank := [];
    }

    function GetCompliance(shipId: string, year: int): Option<ComplianceBalance>
      reads this
    {
      Lookup(balances, shipId, year)
    }

    method SaveCompliance(c: ComplianceBalance)
      modifies this
      ensures balances == old(balances)[(c.shipId, c.year) := c.cb]
      ensures bank == old(bank)
    {
      balances := balances[(c.shipId, c.year) := c.cb];
    }

    method SaveBankEntry(e: BankEntry)
      modifies this
      ensures bank == old(bank) + [e]
      ensures balances == old(balances)
    {
      bank := bank + [e];
    }

    /** Every banked amount is a strict surplus. */
    ghost predicate OnlySurplusBanked()
      reads this
    {
      forall k :: 0 <= k < |bank| ==> bank[k].amount > 0.0
    }
  }

  class ComplianceService {
    const complianceRepository: ComplianceStore

    constructor (complianceRepository: ComplianceStore)
      ensures this.complianceRepository == complianceRepository
    {
      this.complianceRepository := complianceRepository;
    }

    /** Computes the balance of `shipId` for `year` from the first matching route
        of `routes` (the route store's contents) and saves it. */
    method CalculateCompliance(routes: seq<Routes.Route>, shipId: string, year: int)
      returns (r: Result<ComplianceBalance, ComplianceError>)
      modifies complianceRepository
      ensures FindRoute(routes, shipId, year).None? ==>
        r == Failure(NoRoute(shipId, year)) && unchanged(complianceRepository)
      ensures FindRoute(routes, shipId, year).Some? ==>
        && r.Success?
        && r.value.shipId == shipId && r.value.year == year
        && r.value.cb == BalanceOf(FindRoute(routes, shipId, year).value)
        && (r.value.status == Surplus <==> r.value.cb >= 0.0)
        && complianceRepository.balances == old(complianceRepository.balances)[(shipId, year) := r.value.cb]
        && complianceRepository.bank == old(complianceRepository.bank)
      ensures r.Success? ==> complianceRepository.GetCompliance(shipId, year) == Some(r.value)
    {
      var route := FindRoute(routes, shipId, year);
      if route.None? {
        return Failure(NoRoute(shipId, year));
      }
      var cb := BalanceOf(route.value);
      var compliance := ComplianceBalance(shipId, year, cb, StatusOf(cb));
      complianceRepository.SaveCompliance(compliance);
      r := Success(compliance);
    }

    /** Banks the whole stored balance of `shipId` for `year`; `id` and
        `createdAt` are the fresh identifier and the current time. */
    method BankSurplus(shipId: string, year: int, id: string, createdAt: int)
      returns (r: Result<BankEntry, ComplianceError>)
      modifies complianceRepository
      ensures complianceRepository.balances == old(complianceRepository.balances)
      ensures old(complianceRepository.GetCompliance(shipId, year)).None? ==>
        r == Failure(NotCalculated) && complianceRepository.bank == old(complianceRepository.bank)
      ensures old(complianceRepository.GetCompliance(shipId, year)).Some? &&
              old(complianceRepository.GetCompliance(shipId, year)).value.cb <= 0.0 ==>
        r == Failure(NothingToBank) && complianceRepository.bank == old(complianceRepository.bank)
      ensures old(complianceRepository.GetCompliance(shipId, year)).Some? &&
              old(complianceRepository.GetCompliance(shipId, year)).value.cb > 0.0 ==>
        r.Success?
      ensures r.Success? ==>
        && r.value == BankEntry(id, shipId, year, old(complianceRepository.balances)[(shipId, year)], createdAt)
        && r.value.amount > 0.0
        && complianceRepository.bank == old(complianceRepository.bank) + [r.value]
      ensures old(complianceRepository.OnlySurplusBanked()) ==> complianceRepository.OnlySurplusBanked()
    {
      var compliance := complianceRepository.GetCompliance(shipId, year);
      if compliance.None? {
        return Failure(NotCalculated);
      }
      if compliance.value.cb <= 0.0 {
        return Failure(NothingToBank);
      }
      var entry := BankEntry(id, shipId, year, compliance.value.cb, createdAt);
      complianceRepository.SaveBankEntry(entry);
      r := Success(entry);
    }

    /** The stored record, returned as it is whether it is a surplus or a deficit. */
    method GetAdjustedCompliance(shipId: string, year: int) returns (r: Result<ComplianceBalance, ComplianceError>)
      ensures (shipId, year) !in complianceRepository.balances <==> r == Failure(NotCalculated)
      ensures (shipId, year) in complianceRepository.balances ==>
        r == Success(RecordOf(shipId, year, complianceRepository.balances[(shipId, year)]))
    {
      var compliance := complianceRepository.GetCompliance(shipId, year);
      if compliance.None? {
        return Failure(NotCalculated);
      }
      r := Success(compliance.value);
    }
  }
}
