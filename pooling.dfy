/** The pooling allocation engine (backend/src/core/application/pooling.service.ts):
    fetch every requested ship's balance, refuse a negative total, order the
    ships by balance (largest first) and move surplus from the front to the
    deficits at the back. */
module Pooling {
  import opened Wrappers
  import opened Compliance

  datatype PoolMember = PoolMember(shipId: string, cbBefore: real, cbAfter: real)

  /** `id` and `createdAt` come from the caller's identifier generator and clock. */
  datatype Pool = Pool(id: string, year: int, createdAt: int, members: seq<PoolMember>)

  datatype PoolError =
    | ComplianceMissing              // some requested ship has no record for the year
    | NegativeTotal                  // the balances add up to less than zero
    | WorseDeficit(shipId: string)   // exit check: a deficit ship ends worse than it started
    | NegativeExit(shipId: string)   // exit check: a surplus ship ends in deficit

  function Message(e: PoolError): string
  {
    match e
    case ComplianceMissing => "Compliance not calculated for some ships"
    case NegativeTotal => "Pool total compliance balance is negative"
    case WorseDeficit(shipId) => "Ship " + shipId + " would exit with worse deficit"
    case NegativeExit(shipId) => "Ship " + shipId + " would exit with negative balance"
  }

  // ---------------------------------------------------------------------------
  // Fetching the balances

  /** The record of every requested ship, in request order (duplicates
      included), or None when any of them has no record for the year. */
  function FetchAll(balances: map<(string, int), real>, shipIds: seq<string>, year: int): (r: Option<seq<ComplianceBalance>>)
    ensures r.None? <==> exists k :: 0 <= k < |shipIds| && (shipIds[k], year) !in balances
    ensures r.Some? ==> |r.value| == |shipIds|
    ensures r.Some? ==> forall k :: 0 <= k < |shipIds| ==> r.value[k] == RecordOf(shipIds[k], year, balances[(shipIds[k], year)])
  {
    if shipIds == [] then Some([])
    else
      var head := Lookup(balances, shipIds[0], year);
      var tail := FetchAll(balances, shipIds[1..], year);
      assert forall k :: 1 <= k < |shipIds| ==> shipIds[k] == shipIds[1..][k - 1];
      if head.None? || tail.None? then None else Some([head.value] + tail.value)
  }

  // ---------------------------------------------------------------------------
  // Totals

  function TotalCb(cs: seq<ComplianceBalance>): real
  {
    if cs == [] then 0.0 else cs[0].cb + TotalCb(cs[1..])
  }

  function TotalAfter(ms: seq<PoolMember>): real
  {
    if ms == [] then 0.0 else ms[0].cbAfter + TotalAfter(ms[1..])
  }

  /** Replacing one member changes the total by the change in its cbAfter. */
  lemma {:induction false} TotalAfterUpdate(ms: seq<PoolMember>, k: nat, m: PoolMember)
    requires k < |ms|
    ensures TotalAfter(ms[k := m]) == TotalAfter(ms) - ms[k].cbAfter + m.cbAfter
  {
    if k == 0 {
      assert ms[k := m][1..] == ms[1..];
    } else {
      assert ms[k := m][1..] == ms[1..][k - 1 := m];
      TotalAfterUpdate(ms[1..], k - 1, m);
    }
  }

  /** When no member is in surplus and one is in deficit, the total is negative. */
  lemma {:induction false} NegativeTotalOfDeficits(ms: seq<PoolMember>, k: nat)
    requires k < |ms| && ms[k].cbAfter < 0.0
    requires forall d :: 0 <= d < |ms| ==> ms[d].cbAfter <= 0.0
    ensures TotalAfter(ms) < 0.0
  {
    if k == 0 {
      NonPositiveTotal(ms[1..]);
    } else {
      NegativeTotalOfDeficits(ms[1..], k - 1);
    }
  }

  lemma {:induction false} NonPositiveTotal(ms: seq<PoolMember>)
    requires forall d :: 0 <= d < |ms| ==> ms[d].cbAfter <= 0.0
    ensures TotalAfter(ms) <= 0.0
  {
    if ms != [] {
      NonPositiveTotal(ms[1..]);
    }
  }

  // ---------------------------------------------------------------------------
  // Ordering: largest balance first

  predicate DescendingByCb(cs: seq<ComplianceBalance>)
  {
    forall i, j :: 0 <= i < j < |cs| ==> cs[i].cb >= cs[j].cb
  }

  function ShipIds(cs: seq<ComplianceBalance>): (ids: seq<string>)
    ensures |ids| == |cs| && forall k :: 0 <= k < |cs| ==> ids[k] == cs[k].shipId
  {
    if cs == [] then [] else [cs[0].shipId] + ShipIds(cs[1..])
  }

  predicate AllAtMost(cs: seq<ComplianceBalance>, bound: real)
  {
    forall k :: 0 <= k < |cs| ==> cs[k].cb <= bound
  }

  /** Places `c` before the first element whose balance does not exceed its own,
      so that `c` stays ahead of the equal balances that follow it. */
  function Insert(c: ComplianceBalance, s: seq<ComplianceBalance>): (r: seq<ComplianceBalance>)
    ensures |r| == |s| + 1
  {
    if s == [] || s[0].cb <= c.cb then [c] + s else [s[0]] + Insert(c, s[1..])
  }

  lemma {:induction false} InsertAtMost(c: ComplianceBalance, s: seq<ComplianceBalance>, bound: real)
    requires AllAtMost(s, bound) && c.cb <= bound
    ensures AllAtMost(Insert(c, s), bound)
  {
    if !(s == [] || s[0].cb <= c.cb) {
      InsertAtMost(c, s[1..], bound);
      var r := Insert(c, s[1..]);
      assert forall k :: 1 <= k < |r| + 1 ==> ([s[0]] + r)[k] == r[k - 1];
    }
  }

  lemma {:induction false} InsertSorted(c: ComplianceBalance, s: seq<ComplianceBalance>)
    requires DescendingByCb(s)
    ensures DescendingByCb(Insert(c, s))
    ensures multiset(Insert(c, s)) == multiset(s) + multiset{c}
  {
    InsertDescending(c, s);
    InsertPermutes(c, s);
  }

  lemma {:induction false} InsertDescending(c: ComplianceBalance, s: seq<ComplianceBalance>)
    requires DescendingByCb(s)
    ensures DescendingByCb(Insert(c, s))
  {
    if s == [] || s[0].cb <= c.cb {
      assert AllAtMost(s, c.cb);
    } else {
      InsertDescending(c, s[1..]);
      assert AllAtMost(s[1..], s[0].cb);
      InsertAtMost(c, s[1..], s[0].cb);
    }
  }

  lemma {:induction false} InsertPermutes(c: ComplianceBalance, s: seq<ComplianceBalance>)
    ensures multiset(Insert(c, s)) == multiset(s) + multiset{c}
  {
    if !(s == [] || s[0].cb <= c.cb) {
      assert s == [s[0]] + s[1..];
      InsertPermutes(c, s[1..]);
    }
  }

  /** Stable sort by balance, largest first: what the service's sort with the
      comparator `b.cb - a.cb` produces. */
  function SortByCbDesc(cs: seq<ComplianceBalance>): (r: seq<ComplianceBalance>)
    ensures |r| == |cs|
    ensures multiset(r) == multiset(cs)
    ensures DescendingByCb(r)
  {
    if cs == [] then []
    else
      assert cs == [cs[0]] + cs[1..];
      var rest := SortByCbDesc(cs[1..]);
      InsertSorted(cs[0], rest);
      Insert(cs[0], rest)
  }

  lemma {:induction false} InsertTotals(c: ComplianceBalance, s: seq<ComplianceBalance>)
    ensures TotalCb(Insert(c, s)) == c.cb + TotalCb(s)
    ensures multiset(ShipIds(Insert(c, s))) == multiset(ShipIds(s)) + multiset{c.shipId}
  {
    if s == [] || s[0].cb <= c.cb {
      assert ([c] + s)[1..] == s;
    } else {
      InsertTotals(c, s[1..]);
      assert ([s[0]] + Insert(c, s[1..]))[1..] == Insert(c, s[1..]);
    }
  }

  /** Sorting keeps the total and the multiset of ship ids. */
  lemma {:induction false} SortTotals(cs: seq<ComplianceBalance>)
    ensures TotalCb(SortByCbDesc(cs)) == TotalCb(cs)
    ensures multiset(ShipIds(SortByCbDesc(cs))) == multiset(ShipIds(cs))
  {
    if cs != [] {
      SortTotals(cs[1..]);
      InsertTotals(cs[0], SortByCbDesc(cs[1..]));
    }
  }

  // ---------------------------------------------------------------------------
  // Member states and the transfers between them

  function Min(a: real, b: real): (m: real)
    ensures m <= a && m <= b
    ensures m == a || m == b
  {
    if a <= b then a else b
  }

  /** Each member starts with cbAfter equal to its fetched balance. */
  function InitialStates(cs: seq<ComplianceBalance>): (ms: seq<PoolMember>)
    ensures |ms| == |cs|
    ensures forall k :: 0 <= k < |cs| ==> ms[k] == PoolMember(cs[k].shipId, cs[k].cb, cs[k].cb)
  {
    if cs == [] then [] else [PoolMember(cs[0].shipId, cs[0].cb, cs[0].cb)] + InitialStates(cs[1..])
  }

  lemma {:induction false} InitialTotal(cs: seq<ComplianceBalance>)
    ensures TotalAfter(InitialStates(cs)) == TotalCb(cs)
  {
    if cs != [] {
      InitialTotal(cs[1..]);
      assert InitialStates(cs)[1..] == InitialStates(cs[1..]);
    }
  }

  /** One move of `amount` from the member at `donor` to the member at `receiver`. */
  datatype Transfer = Transfer(donor: nat, receiver: nat, amount: real)

  /** The transfers the greedy pass makes: from a member in surplus to a later
      member in deficit, of as much as the donor has or the receiver lacks. */
  predicate Applicable(ms: seq<PoolMember>, t: Transfer)
  {
    && t.donor < t.receiver < |ms|
    && ms[t.donor].cbAfter > 0.0
    && ms[t.receiver].cbAfter < 0.0
    && t.amount == Min(ms[t.donor].cbAfter, -ms[t.receiver].cbAfter)
  }

  function Apply(ms: seq<PoolMember>, t: Transfer): (r: seq<PoolMember>)
    requires t.donor < |ms| && t.receiver < |ms| && t.donor != t.receiver
    ensures |r| == |ms|
  {
    var d := ms[t.donor];
    var v := ms[t.receiver];
    ms[t.donor := d.(cbAfter := d.cbAfter - t.amount)][t.receiver := v.(cbAfter := v.cbAfter + t.amount)]
  }

  /** `log` can be carried out transfer by transfer starting from `ms`. */
  predicate ValidLog(ms: seq<PoolMember>, log: seq<Transfer>)
    decreases |log|
  {
    log == [] || (Applicable(ms, log[0]) && ValidLog(Apply(ms, log[0]), log[1..]))
  }

  function Replay(ms: seq<PoolMember>, log: seq<Transfer>): (r: seq<PoolMember>)
    requires ValidLog(ms, log)
    decreases |log|
  {
    if log == [] then ms else Replay(Apply(ms, log[0]), log[1..])
  }

  lemma {:induction false} ReplaySnoc(ms: seq<PoolMember>, log: seq<Transfer>, t: Transfer)
    requires ValidLog(ms, log)
    requires Applicable(Replay(ms, log), t)
    ensures ValidLog(ms, log + [t])
    ensures Replay(ms, log + [t]) == Apply(Replay(ms, log), t)
    decreases |log|
  {
    if log == [] {
      assert [t][1..] == [];
    } else {
      assert (log + [t])[1..] == log[1..] + [t];
      ReplaySnoc(Apply(ms, log[0]), log[1..], t);
    }
  }

  /** A transfer subtracts from one member exactly what it adds to another. */
  lemma {:induction false} ApplyConserves(ms: seq<PoolMember>, t: Transfer)
    requires t.donor < |ms| && t.receiver < |ms| && t.donor != t.receiver
    ensures TotalAfter(Apply(ms, t)) == TotalAfter(ms)
  {
    var d := ms[t.donor];
    var v := ms[t.receiver];
    var d' := d.(cbAfter := d.cbAfter - t.amount);
    var v' := v.(cbAfter := v.cbAfter + t.amount);
    var mid := ms[t.donor := d'];
    TotalAfterUpdate(ms, t.donor, d');
    assert mid[t.receiver] == v;
    TotalAfterUpdate(mid, t.receiver, v');
    assert Apply(ms, t) == mid[t.receiver := v'];
  }

  /** Conservation: any sequence of transfers keeps the total of cbAfter. */
  lemma {:induction false} ReplayConserves(ms: seq<PoolMember>, log: seq<Transfer>)
    requires ValidLog(ms, log)
    ensures |Replay(ms, log)| == |ms|
    ensures TotalAfter(Replay(ms, log)) == TotalAfter(ms)
    decreases |log|
  {
    if log != [] {
      ApplyConserves(ms, log[0]);
      ReplayConserves(Apply(ms, log[0]), log[1..]);
    }
  }

  /** No member is worse off: one that entered with a surplus (or at zero)
      ends between zero and its balance, one that entered in deficit ends
      between its balance and zero. */
  predicate NoWorseOff(m: PoolMember)
  {
    if m.cbBefore >= 0.0 then 0.0 <= m.cbAfter <= m.cbBefore else m.cbBefore <= m.cbAfter <= 0.0
  }

  predicate AllNoWorseOff(ms: seq<PoolMember>)
  {
    forall k :: 0 <= k < |ms| ==> NoWorseOff(ms[k])
  }

  /** A transfer changes only cbAfter, and only of its two members. */
  predicate SameShips(ms: seq<PoolMember>, ns: seq<PoolMember>)
  {
    |ms| == |ns| && forall k :: 0 <= k < |ms| ==> ms[k].shipId == ns[k].shipId && ms[k].cbBefore == ns[k].cbBefore
  }

  lemma {:induction false} ApplyKeepsNoWorseOff(ms: seq<PoolMember>, t: Transfer)
    requires Applicable(ms, t) && AllNoWorseOff(ms)
    ensures AllNoWorseOff(Apply(ms, t)) && SameShips(ms, Apply(ms, t))
    ensures forall k :: 0 <= k < |ms| && k != t.donor && k != t.receiver ==> Apply(ms, t)[k] == ms[k]
  {
  }

  /** The exit checks can never fire after any sequence of greedy transfers. */
  lemma {:induction false} ReplayKeepsNoWorseOff(ms: seq<PoolMember>, log: seq<Transfer>)
    requires ValidLog(ms, log) && AllNoWorseOff(ms)
    ensures AllNoWorseOff(Replay(ms, log)) && SameShips(ms, Replay(ms, log))
    decreases |log|
  {
    if log != [] {
      ApplyKeepsNoWorseOff(ms, log[0]);
      ReplayKeepsNoWorseOff(Apply(ms, log[0]), log[1..]);
    }
  }

  // ---------------------------------------------------------------------------
  // What the greedy pass leaves behind

  /** Every donor among the first `upto` members that still holds surplus has
      covered every member behind it. */
  predicate Settled(ms: seq<PoolMember>, upto: int)
  {
    forall d, k :: 0 <= d < upto && d < k < |ms| && ms[d].cbAfter > 0.0 ==> ms[k].cbAfter >= 0.0
  }

  /** Donors give front first: a member that gave anything comes after members
      left with no surplus. */
  predicate DonorsInOrder(ms: seq<PoolMember>)
  {
    forall d, e :: 0 <= d < e < |ms| && ms[e].cbAfter < ms[e].cbBefore ==> ms[d].cbAfter <= 0.0
  }

  /** Receivers are filled back first: a member that received anything comes
      before members left without deficit. */
  predicate ReceiversFromBack(ms: seq<PoolMember>)
  {
    forall j, k :: 0 <= j < k < |ms| && ms[j].cbAfter > ms[j].cbBefore ==> ms[k].cbAfter >= 0.0
  }

  /** None of the members from `from` on has given anything yet. */
  predicate NotGivenFrom(ms: seq<PoolMember>, from: int)
  {
    forall e :: 0 <= from <= e < |ms| ==> ms[e].cbAfter >= ms[e].cbBefore
  }

  predicate DescendingBefore(ms: seq<PoolMember>)
  {
    forall d, k :: 0 <= d < k < |ms| ==> ms[d].cbBefore >= ms[k].cbBefore
  }

  lemma {:induction false} DeficitLeftMeansNegativeTotal(ms: seq<PoolMember>, k: nat)
    requires k < |ms|
    requires DescendingBefore(ms) && AllNoWorseOff(ms) && Settled(ms, |ms|)
    ensures ms[k].cbAfter >= 0.0 || TotalAfter(ms) < 0.0
  {
    if ms[k].cbAfter < 0.0 {
      forall d | 0 <= d < |ms| ensures ms[d].cbAfter <= 0.0 {
        assert NoWorseOff(ms[d]) && NoWorseOff(ms[k]);
        assert ms[d].cbAfter > 0.0 ==> d < k;
      }
      NegativeTotalOfDeficits(ms, k);
    }
  }

  /** With the members in descending order and a non-negative total, the
      greedy pass leaves no member in deficit. */
  lemma {:induction false} NoDeficitRemains(ms: seq<PoolMember>)
    requires DescendingBefore(ms) && AllNoWorseOff(ms) && Settled(ms, |ms|)
    requires TotalAfter(ms) >= 0.0
    ensures forall k :: 0 <= k < |ms| ==> ms[k].cbAfter >= 0.0
  {
    forall k | 0 <= k < |ms| ensures ms[k].cbAfter >= 0.0 {
      DeficitLeftMeansNegativeTotal(ms, k);
    }
  }

  /** The state the inner pass is in when donor `i` is about to give to receiver `j`. */
  predicate StepReady(ms: seq<PoolMember>, i: nat, j: nat)
  {
    && i < j < |ms|
    && ms[i].cbAfter > 0.0 && ms[j].cbAfter < 0.0
    && AllNoWorseOff(ms) && Settled(ms, i) && DonorsInOrder(ms) && ReceiversFromBack(ms)
    && NotGivenFrom(ms, i + 1)
    && forall k :: j < k < |ms| ==> ms[k].cbAfter >= 0.0
  }

  function StepOf(ms: seq<PoolMember>, i: nat, j: nat): Transfer
    requires i < |ms| && j < |ms|
  {
    Transfer(i, j, Min(ms[i].cbAfter, -ms[j].cbAfter))
  }

  lemma {:induction false} StepKeepsSettled(ms: seq<PoolMember>, i: nat, j: nat)
    requires StepReady(ms, i, j)
    ensures Settled(Apply(ms, StepOf(ms, i, j)), i)
    ensures NotGivenFrom(Apply(ms, StepOf(ms, i, j)), i + 1)
  {
    ApplyKeepsNoWorseOff(ms, StepOf(ms, i, j));
  }

  lemma {:induction false} StepKeepsDonorsInOrder(ms: seq<PoolMember>, i: nat, j: nat)
    requires StepReady(ms, i, j)
    ensures DonorsInOrder(Apply(ms, StepOf(ms, i, j)))
  {
    ApplyKeepsNoWorseOff(ms, StepOf(ms, i, j));
    // donor i gives only once every earlier member is left without surplus
    assert forall d :: 0 <= d < i ==> ms[d].cbAfter <= 0.0;
  }

  lemma {:induction false} StepKeepsReceiversFromBack(ms: seq<PoolMember>, i: nat, j: nat)
    requires StepReady(ms, i, j)
    ensures ReceiversFromBack(Apply(ms, StepOf(ms, i, j)))
  {
    ApplyKeepsNoWorseOff(ms, StepOf(ms, i, j));
  }

  lemma {:induction false} StepCovers(ms: seq<PoolMember>, i: nat, j: nat)
    requires StepReady(ms, i, j)
    ensures StepOf(ms, i, j).amount > 0.0
    ensures var ns := Apply(ms, StepOf(ms, i, j));
      ns[i].cbAfter >= 0.0 && (ns[i].cbAfter > 0.0 ==> CoveredFrom(ns, j))
  {
    ApplyKeepsNoWorseOff(ms, StepOf(ms, i, j));
  }

  /** No member from `from` on is left with a deficit. */
  predicate CoveredFrom(ms: seq<PoolMember>, from: int)
  {
    forall k :: 0 <= from <= k < |ms| ==> ms[k].cbAfter >= 0.0
  }

  lemma {:induction false} CoveredExtend(ms: seq<PoolMember>, j: nat)
    requires j < |ms| && ms[j].cbAfter >= 0.0 && CoveredFrom(ms, j + 1)
    ensures CoveredFrom(ms, j)
  {
  }

  /** Once donor `i` is exhausted or has covered everything behind it, the
      first `i + 1` members are settled. */
  lemma {:induction false} SettledExtend(ms: seq<PoolMember>, i: nat)
    requires i < |ms| && Settled(ms, i)
    requires ms[i].cbAfter <= 0.0 || CoveredFrom(ms, i + 1)
    ensures Settled(ms, i + 1)
  {
  }

  /** What holds of the member states once the first `i` donors are done. */
  ghost predicate PassInvariant(init: seq<PoolMember>, log: seq<Transfer>, ms: seq<PoolMember>, i: nat)
  {
    && ValidLog(init, log) && ms == Replay(init, log)
    && (forall t :: t in log ==> t.donor < t.receiver < |init| && t.amount > 0.0)
    && SameShips(init, ms) && AllNoWorseOff(ms)
    && i <= |ms| && Settled(ms, i) && DonorsInOrder(ms) && ReceiversFromBack(ms)
  }

  /** One transfer of the inner pass keeps the pass invariant, and leaves the
      receivers visited so far covered unless the donor is exhausted. */
  lemma {:induction false} StepKeepsPassInvariant(init: seq<PoolMember>, log: seq<Transfer>, ms: seq<PoolMember>, i: nat, j: nat)
    requires PassInvariant(init, log, ms, i) && StepReady(ms, i, j)
    ensures PassInvariant(init, log + [StepOf(ms, i, j)], Apply(ms, StepOf(ms, i, j)), i)
    ensures NotGivenFrom(Apply(ms, StepOf(ms, i, j)), i + 1)
    ensures var ns := Apply(ms, StepOf(ms, i, j));
      ns[i].cbAfter >= 0.0 && (ns[i].cbAfter > 0.0 ==> CoveredFrom(ns, j))
  {
    var t := StepOf(ms, i, j);
    ReplaySnoc(init, log, t);
    ApplyKeepsNoWorseOff(ms, t);
    StepKeepsSettled(ms, i, j);
    StepKeepsDonorsInOrder(ms, i, j);
    StepKeepsReceiversFromBack(ms, i, j);
    StepCovers(ms, i, j);
    assert forall u :: u in log + [t] ==> u in log || u == t;
  }

  /** Moves `t.amount` from the donor's cbAfter to the receiver's, in place. */
  method MoveBalance(states: array<PoolMember>, t: Transfer)
    requires t.donor < states.Length && t.receiver < states.Length && t.donor != t.receiver
    modifies states
    ensures states[..] == Apply(old(states[..]), t)
  {
    states[t.donor] := states[t.donor].(cbAfter := states[t.donor].cbAfter - t.amount);
    states[t.receiver] := states[t.receiver].(cbAfter := states[t.receiver].cbAfter + t.amount);
  }

  /** The inner pass for donor `i`: walks the receivers from the back towards
      the donor and stops as soon as the donor has nothing left. */
  method Donate(states: array<PoolMember>, i: nat, ghost init: seq<PoolMember>, ghost log: seq<Transfer>)
    returns (ghost log': seq<Transfer>)
    requires i < states.Length && states[i].cbAfter > 0.0
    requires PassInvariant(init, log, states[..], i) && NotGivenFrom(states[..], i)
    modifies states
    ensures PassInvariant(init, log', states[..], i + 1) && NotGivenFrom(states[..], i + 1)
  {
    var n := states.Length;
    log' := log;
    for j := n downto i + 1
      invariant PassInvariant(init, log', states[..], i)
      invariant NotGivenFrom(states[..], i + 1)
      invariant states[i].cbAfter > 0.0
      invariant CoveredFrom(states[..], j)
    {
      if states[j].cbAfter >= 0.0 {
        CoveredExtend(states[..], j);
        continue;
      }
      ghost var before := states[..];
      var amount := Min(states[i].cbAfter, -states[j].cbAfter);
      var t := Transfer(i, j, amount);
      assert t == StepOf(before, i, j) && StepReady(before, i, j);
      StepKeepsPassInvariant(init, log', before, i, j);
      log' := log' + [t];
      MoveBalance(states, t);
      ghost var after := states[..];
      assert PassInvariant(init, log', after, i) && NotGivenFrom(after, i + 1);
      if states[i].cbAfter == 0.0 {
        SettledExtend(after, i);
        return;
      }
    }
    SettledExtend(states[..], i);
  }

  /** Member `i` as a donor: passed over when it has no surplus left, otherwise
      it gives to the deficits behind it. */
  method Pass(states: array<PoolMember>, i: nat, ghost init: seq<PoolMember>, ghost log: seq<Transfer>)
    returns (ghost log': seq<Transfer>)
    requires i < states.Length
    requires PassInvariant(init, log, states[..], i) && NotGivenFrom(states[..], i)
    modifies states
    ensures PassInvariant(init, log', states[..], i + 1) && NotGivenFrom(states[..], i + 1)
  {
    if states[i].cbAfter <= 0.0 {
      PassSkip(init, log, states[..], i);
      return log;
    }
    log' := Donate(states, i, init, log);
  }

  /** The greedy transfer pass over the sorted records: builds the member
      states and moves surplus from donors at the front to deficits at the back. */
  method Distribute(sorted: seq<ComplianceBalance>) returns (members: seq<PoolMember>, ghost transfers: seq<Transfer>)
    ensures SameShips(InitialStates(sorted), members)
    ensures ValidLog(InitialStates(sorted), transfers) && members == Replay(InitialStates(sorted), transfers)
    ensures forall t :: t in transfers ==> t.donor < t.receiver < |sorted| && t.amount > 0.0
    ensures TotalAfter(members) == TotalCb(sorted)
    ensures AllNoWorseOff(members)
    ensures Settled(members, |members|) && DonorsInOrder(members) && ReceiversFromBack(members)
    ensures DescendingByCb(sorted) && TotalCb(sorted) >= 0.0 ==>
      forall k :: 0 <= k < |members| ==> members[k].cbAfter >= 0.0
  {
    ghost var init := InitialStates(sorted);
    var n := |sorted|;
    var states := new PoolMember[n](k requires 0 <= k < n => PoolMember(sorted[k].shipId, sorted[k].cb, sorted[k].cb));
    assert states[..] == init;
    PassStart(sorted);
    transfers := Passes(states, init);
    members := states[..];
    PassFinish(sorted, transfers, members);
  }

  /** The outer loop: every member in turn, from the front, as a donor. */
  method Passes(states: array<PoolMember>, ghost init: seq<PoolMember>) returns (ghost log: seq<Transfer>)
    requires PassInvariant(init, [], states[..], 0) && NotGivenFrom(states[..], 0)
    modifies states
    ensures PassInvariant(init, log, states[..], states.Length)
  {
    log := [];
    for i := 0 to states.Length
      invariant PassInvariant(init, log, states[..], i) && NotGivenFrom(states[..], i)
    {
      log := Pass(states, i, init, log);
      ghost var ms := states[..];
      assert PassInvariant(init, log, ms, i + 1) && NotGivenFrom(ms, i + 1);
    }
  }

  /** Before any donor has given, the pass invariant holds of the initial states. */
  lemma {:induction false} PassStart(sorted: seq<ComplianceBalance>)
    ensures var init := InitialStates(sorted);
      PassInvariant(init, [], init, 0) && NotGivenFrom(init, 0)
  {
    var init := InitialStates(sorted);
    forall k | 0 <= k < |init| ensures NoWorseOff(init[k]) {
      assert init[k].cbAfter == init[k].cbBefore;
    }
  }

  /** A member with no surplus left is passed over as a donor. */
  lemma {:induction false} PassSkip(init: seq<PoolMember>, log: seq<Transfer>, ms: seq<PoolMember>, i: nat)
    requires PassInvariant(init, log, ms, i) && NotGivenFrom(ms, i)
    requires i < |ms| && ms[i].cbAfter <= 0.0
    ensures PassInvariant(init, log, ms, i + 1) && NotGivenFrom(ms, i + 1)
  {
    SettledExtend(ms, i);
  }

  /** Once every donor is done, the states meet the promises of the pass. */
  lemma {:induction false} PassFinish(sorted: seq<ComplianceBalance>, log: seq<Transfer>, ms: seq<PoolMember>)
    requires PassInvariant(InitialStates(sorted), log, ms, |ms|)
    ensures SameShips(InitialStates(sorted), ms)
    ensures ValidLog(InitialStates(sorted), log) && ms == Replay(InitialStates(sorted), log)
    ensures forall t :: t in log ==> t.donor < t.receiver < |sorted| && t.amount > 0.0
    ensures TotalAfter(ms) == TotalCb(sorted)
    ensures AllNoWorseOff(ms)
    ensures Settled(ms, |ms|) && DonorsInOrder(ms) && ReceiversFromBack(ms)
    ensures DescendingByCb(sorted) && TotalCb(sorted) >= 0.0 ==>
      forall k :: 0 <= k < |ms| ==> ms[k].cbAfter >= 0.0
  {
    var init := InitialStates(sorted);
    ReplayConserves(init, log);
    InitialTotal(sorted);
    if DescendingByCb(sorted) && TotalCb(sorted) >= 0.0 {
      assert DescendingBefore(ms) by {
        assert forall k :: 0 <= k < |ms| ==> ms[k].cbBefore == sorted[k].cb;
      }
      NoDeficitRemains(ms);
    }
  }

  // ---------------------------------------------------------------------------
  // The exit checks

  /** The first exit check that a member fails, if any. */
  function ExitViolation(m: PoolMember): Option<PoolError>
  {
    if m.cbBefore < 0.0 && m.cbAfter < m.cbBefore then Some(WorseDeficit(m.shipId))
    else if m.cbBefore > 0.0 && m.cbAfter < 0.0 then Some(NegativeExit(m.shipId))
    else None
  }

  /** Runs the exit checks over the members in order and reports the first failure. */
  method CheckExit(members: seq<PoolMember>) returns (err: Option<PoolError>)
    ensures err.None? <==> forall k :: 0 <= k < |members| ==> ExitViolation(members[k]).None?
    ensures err.Some? ==> exists k :: 0 <= k < |members| && err == ExitViolation(members[k])
                            && forall k' :: 0 <= k' < k ==> ExitViolation(members[k']).None?
  {
    for k := 0 to |members|
      invariant forall k' :: 0 <= k' < k ==> ExitViolation(members[k']).None?
    {
      var v := ExitViolation(members[k]);
      if v.Some? {
        return v;
      }
    }
    return None;
  }

  /** A member that is no worse off passes both exit checks. */
  lemma {:induction false} NoWorseOffPassesExit(ms: seq<PoolMember>)
    requires AllNoWorseOff(ms)
    ensures forall k :: 0 <= k < |ms| ==> ExitViolation(ms[k]).None?
  {
    forall k | 0 <= k < |ms| ensures ExitViolation(ms[k]).None? {
      assert NoWorseOff(ms[k]);
    }
  }

  // ---------------------------------------------------------------------------
  // The outcome of a pool

  function MemberIds(ms: seq<PoolMember>): (ids: seq<string>)
    ensures |ids| == |ms| && forall k :: 0 <= k < |ms| ==> ids[k] == ms[k].shipId
  {
    if ms == [] then [] else [ms[0].shipId] + MemberIds(ms[1..])
  }

  /** What a pool built from `fetched` looks like: the members are `fetched`
      sorted by balance, largest first, with cbBefore the fetched balance;
      cbAfter keeps the total, leaves nobody worse off or in deficit, and
      comes from donors taken front first and receivers taken back first. */
  ghost predicate ValidAllocation(fetched: seq<ComplianceBalance>, members: seq<PoolMember>)
  {
    && SameShips(InitialStates(SortByCbDesc(fetched)), members)
    && TotalAfter(members) == TotalCb(fetched)
    && AllNoWorseOff(members)
    && DonorsInOrder(members) && ReceiversFromBack(members)
    && forall k :: 0 <= k < |members| ==> members[k].cbAfter >= 0.0
  }

  lemma {:induction false} FetchedIds(balances: map<(string, int), real>, shipIds: seq<string>, year: int)
    requires FetchAll(balances, shipIds, year).Some?
    ensures ShipIds(FetchAll(balances, shipIds, year).value) == shipIds
  {
    var ids := ShipIds(FetchAll(balances, shipIds, year).value);
    assert forall k :: 0 <= k < |shipIds| ==> ids[k] == shipIds[k];
  }

  lemma {:induction false} MemberIdsOfStates(cs: seq<ComplianceBalance>, members: seq<PoolMember>)
    requires SameShips(InitialStates(cs), members)
    ensures MemberIds(members) == ShipIds(cs)
  {
    assert forall k :: 0 <= k < |cs| ==> MemberIds(members)[k] == ShipIds(cs)[k];
  }

  /** The members of a pool are the requested ships, one per requested id,
      duplicates included. */
  lemma {:induction false} MembersCoverRequest(balances: map<(string, int), real>, shipIds: seq<string>, year: int, members: seq<PoolMember>)
    requires FetchAll(balances, shipIds, year).Some?
    requires SameShips(InitialStates(SortByCbDesc(FetchAll(balances, shipIds, year).value)), members)
    ensures multiset(MemberIds(members)) == multiset(shipIds)
  {
    var fetched := FetchAll(balances, shipIds, year).value;
    SortTotals(fetched);
    MemberIdsOfStates(SortByCbDesc(fetched), members);
    FetchedIds(balances, shipIds, year);
  }

  lemma {:induction false} TotalAfterMonotone(ms: seq<PoolMember>, ns: seq<PoolMember>)
    requires |ms| == |ns|
    requires forall k :: 0 <= k < |ms| ==> ms[k].cbAfter <= ns[k].cbAfter
    ensures TotalAfter(ms) <= TotalAfter(ns)
  {
    if ms != [] {
      TotalAfterMonotone(ms[1..], ns[1..]);
    }
  }

  /** The shape every greedy result has once the pool total is not negative. */
  ghost predicate GreedyOutcome(ms: seq<PoolMember>)
  {
    && AllNoWorseOff(ms) && DonorsInOrder(ms)
    && forall k :: 0 <= k < |ms| ==> ms[k].cbAfter >= 0.0
  }

  lemma {:induction false} GreedyOutcomeTail(ms: seq<PoolMember>)
    requires ms != [] && GreedyOutcome(ms)
    ensures GreedyOutcome(ms[1..])
  {
    assert forall k :: 0 <= k < |ms| - 1 ==> ms[1..][k] == ms[k + 1];
  }

  /** If the first member ends lower in one outcome than in the other, the
      first outcome has the smaller total. */
  lemma {:induction false} FirstLowerMeansTotalLower(ms: seq<PoolMember>, ns: seq<PoolMember>)
    requires ms != [] && SameShips(ms, ns) && GreedyOutcome(ms) && GreedyOutcome(ns)
    ensures ms[0].cbAfter < ns[0].cbAfter ==> TotalAfter(ms) < TotalAfter(ns)
  {
    if ms[0].cbAfter < ns[0].cbAfter {
      // ns[0] kept surplus, so no later member of ns gave anything
      forall k | 0 <= k < |ms| - 1 ensures ms[1..][k].cbAfter <= ns[1..][k].cbAfter {
        assert NoWorseOff(ms[k + 1]) && NoWorseOff(ns[k + 1]);
        assert ns[k + 1].cbAfter >= ns[k + 1].cbBefore;
      }
      TotalAfterMonotone(ms[1..], ns[1..]);
    }
  }

  /** Two greedy outcomes over the same ships with the same total are equal. */
  lemma {:induction false} GreedyOutcomeUnique(ms: seq<PoolMember>, ns: seq<PoolMember>)
    requires SameShips(ms, ns) && GreedyOutcome(ms) && GreedyOutcome(ns)
    requires TotalAfter(ms) == TotalAfter(ns)
    ensures ms == ns
    decreases |ms|
  {
    if ms != [] {
      FirstLowerMeansTotalLower(ms, ns);
      FirstLowerMeansTotalLower(ns, ms);
      assert ms[0] == ns[0];
      GreedyOutcomeTail(ms);
      GreedyOutcomeTail(ns);
      GreedyOutcomeUnique(ms[1..], ns[1..]);
      assert ms == [ms[0]] + ms[1..];
      assert ns == [ns[0]] + ns[1..];
    }
  }

  /** Determinism: the fetched balances decide the members of the pool. */
  lemma {:induction false} AllocationDeterministic(fetched: seq<ComplianceBalance>, ms: seq<PoolMember>, ns: seq<PoolMember>)
    requires ValidAllocation(fetched, ms) && ValidAllocation(fetched, ns)
    ensures ms == ns
  {
    GreedyOutcomeUnique(ms, ns);
  }

  // ---------------------------------------------------------------------------
  // The pool store and the service

  /** The pool store: every pool saved so far, in order. */
  class PoolStore {
    var pools: seq<Pool>

    constructor ()
      ensures pools == []
    {
      pools := [];
    }

    method SavePool(pool: Pool)
      modifies this
      ensures pools == old(pools) + [pool]
    {
      pools := pools + [pool];
    }
  }

  class PoolingService {
    const poolingRepository: PoolStore
    const complianceRepository: ComplianceStore

    constructor (poolingRepository: PoolStore, complianceRepository: ComplianceStore)
      ensures this.poolingRepository == poolingRepository
      ensures this.complianceRepository == complianceRepository
    {
      this.poolingRepository := poolingRepository;
      this.complianceRepository := complianceRepository;
    }

    /** Forms a pool of the requested ships for `year`; `id` and `createdAt`
        are the fresh identifier and the current time. Saves the pool exactly
        once on success and nothing on failure. */
    method CreatePool(shipIds: seq<string>, year: int, id: string, createdAt: int) returns (r: Result<Pool, PoolError>)
      modifies poolingRepository
      ensures var fetched := FetchAll(complianceRepository.balances, shipIds, year);
        && (fetched.None? ==> r == Failure(ComplianceMissing))
        && (fetched.Some? && TotalCb(fetched.value) < 0.0 ==> r == Failure(NegativeTotal))
        && (fetched.Some? && TotalCb(fetched.value) >= 0.0 ==>
              && r.Success?
              && r.value.id == id && r.value.year == year && r.value.createdAt == createdAt
              && ValidAllocation(fetched.value, r.value.members))
      ensures r.Success? ==> multiset(MemberIds(r.value.members)) == multiset(shipIds)
      ensures r.Failure? ==> poolingRepository.pools == old(poolingRepository.pools)
      ensures r.Success? ==> poolingRepository.pools == old(poolingRepository.pools) + [r.value]
    {
      var fetched := FetchAll(complianceRepository.balances, shipIds, year);
      if fetched.None? {
        return Failure(ComplianceMissing);
      }
      var compliances := fetched.value;
      var totalCb := TotalCb(compliances);
      if totalCb < 0.0 {
        return Failure(NegativeTotal);
      }
      var sorted := SortByCbDesc(compliances);
      SortTotals(compliances);
      var members, transfers := Distribute(sorted);
      NoWorseOffPassesExit(members);
      var violation := CheckExit(members);
      match violation {
        case Some(e) =>
          assert false;
          return Failure(e);
        case None =>
      }
      MembersCoverRequest(complianceRepository.balances, shipIds, year, members);
      var pool := Pool(id, year, createdAt, members);
      poolingRepository.SavePool(pool);
      r := Success(pool);
    }
  }
}
