/**
 Bills and projections in exact arithmetic.

 Amounts are in cents; where the source has a float the model has a fraction, and `round(x, 2)`
 is rounding to the nearest cent, ties to even. A price table is a parameter of most results, so
 that they also say what would happen to a table that is not in use today.
 */
module Billing {
  import opened Prelude
  import opened Decimal

  datatype Pricing = Pricing(baseFee: nat, includedApi: nat, centsPer1kApi: nat, includedAgent: nat, centsPerAgent: nat)

  function PricingFor(plan: string): Pricing {
    match plan
    case "pro" => Pricing(4900, 50_000, 150, 5_000, 2)
    case "enterprise" => Pricing(49_900, 1_000_000, 80, 50_000, 1)
    case _ => Pricing(0, 1_000, 0, 100, 0)
  }

  datatype Bill = Bill(baseFee: int, apiOverage: int, agentOverage: int, totalDue: int)

  /** The API overage in thousandths of a cent. */
  function ApiMillis(p: Pricing, apiCalls: int): int {
    Max(0, apiCalls - p.includedApi) * p.centsPer1kApi
  }

  function AgentCents(p: Pricing, agentRuns: int): int {
    Max(0, agentRuns - p.includedAgent) * p.centsPerAgent
  }

  function CurrentBill(p: Pricing, apiCalls: int, agentRuns: int): Bill {
    Bill(p.baseFee,
         Round(ApiMillis(p, apiCalls), 1000),
         AgentCents(p, agentRuns),
         Round((p.baseFee + AgentCents(p, agentRuns)) * 1000 + ApiMillis(p, apiCalls), 1000))
  }

  /** Only the overage is scaled, by daysInMonth / day. */
  function Projected(bill: Bill, day: int, daysInMonth: int): int
    requires day > 0
  {
    Round(bill.baseFee * day + (bill.apiOverage + bill.agentOverage) * daysInMonth, day)
  }

  // ----- Rounding -----

  predicate Tie(num: int, den: int)
    requires den > 0
  {
    2 * (num % den) == den
  }

  /** Adding whole cents commutes with rounding unless it moves a tie from odd to even or back. */
  lemma RoundShift(num: int, k: int)
    ensures Round(k * 1000 + num, 1000) == Round(num, 1000) + k <==> !(Tie(num, 1000) && k % 2 == 1)
  {
    assert (k * 1000 + num) / 1000 == num / 1000 + k && (k * 1000 + num) % 1000 == num % 1000;
  }

  lemma RoundMonotone(m: int, n: int)
    requires m <= n
    ensures Round(m, 1000) <= Round(n, 1000)
  {
    assert m / 1000 <= n / 1000;
  }

  // ----- Main results -----

  /** For any price table: the total is the sum of the breakdown unless a tie meets an odd whole part. */
  lemma TotalIsSumIff(p: Pricing, apiCalls: int, agentRuns: int)
    ensures var b := CurrentBill(p, apiCalls, agentRuns);
            b.totalDue == b.baseFee + b.apiOverage + b.agentOverage <==>
            !(Tie(ApiMillis(p, apiCalls), 1000) && (p.baseFee + AgentCents(p, agentRuns)) % 2 == 1)
  {
    RoundShift(ApiMillis(p, apiCalls), p.baseFee + AgentCents(p, agentRuns));
  }

  /** The price tables in use never hit that case: ties need the pro plan, whose whole part is even. */
  lemma NoOddTie(plan: string, apiCalls: int, agentRuns: int)
    ensures var p := PricingFor(plan);
            !(Tie(ApiMillis(p, apiCalls), 1000) && (p.baseFee + AgentCents(p, agentRuns)) % 2 == 1)
  {
    var p := PricingFor(plan);
    var extra := Max(0, apiCalls - p.includedApi);
    var runs := Max(0, agentRuns - p.includedAgent);
    if plan == "pro" {
      EvenWhole(runs);
    } else if plan == "enterprise" {
      NoHalfCent(extra);
    } else {
      assert ApiMillis(p, apiCalls) == 0;
    }
  }

  lemma EvenWhole(runs: nat)
    ensures (4900 + runs * 2) % 2 == 0
  {
  }

  /** 0.08 cents a call never add up to half a cent. */
  lemma NoHalfCent(extra: nat)
    ensures !Tie(extra * 80, 1000)
  {
    assert (extra * 80) % 1000 == ((extra * 2) % 25) * 40;
  }

  lemma TotalIsSum(plan: string, apiCalls: int, agentRuns: int)
    ensures var b := CurrentBill(PricingFor(plan), apiCalls, agentRuns);
            b.totalDue == b.baseFee + b.apiOverage + b.agentOverage
  {
    TotalIsSumIff(PricingFor(plan), apiCalls, agentRuns);
    NoOddTie(plan, apiCalls, agentRuns);
  }

  lemma TimesMonotone(a: int, b: int, k: nat)
    requires a <= b
    ensures a * k <= b * k
  {
  }

  /** More usage never makes the bill smaller, in total or in any line of the breakdown. */
  lemma BillMonotone(p: Pricing, apiCalls: int, agentRuns: int, apiCalls': int, agentRuns': int)
    requires apiCalls <= apiCalls' && agentRuns <= agentRuns'
    ensures var (b, b') := (CurrentBill(p, apiCalls, agentRuns), CurrentBill(p, apiCalls', agentRuns'));
            b.totalDue <= b'.totalDue && b.apiOverage <= b'.apiOverage && b.agentOverage <= b'.agentOverage
  {
    TimesMonotone(Max(0, apiCalls - p.includedApi), Max(0, apiCalls' - p.includedApi), p.centsPer1kApi);
    TimesMonotone(Max(0, agentRuns - p.includedAgent), Max(0, agentRuns' - p.includedAgent), p.centsPerAgent);
    RoundMonotone(ApiMillis(p, apiCalls), ApiMillis(p, apiCalls'));
    RoundMonotone((p.baseFee + AgentCents(p, agentRuns)) * 1000 + ApiMillis(p, apiCalls),
                  (p.baseFee + AgentCents(p, agentRuns')) * 1000 + ApiMillis(p, apiCalls'));
  }

  lemma OveragesNonNegative(p: Pricing, apiCalls: int, agentRuns: int)
    ensures CurrentBill(p, apiCalls, agentRuns).apiOverage >= 0 && CurrentBill(p, apiCalls, agentRuns).agentOverage >= 0
  {
    TimesMonotone(0, Max(0, apiCalls - p.includedApi), p.centsPer1kApi);
    TimesMonotone(0, Max(0, agentRuns - p.includedAgent), p.centsPerAgent);
    RoundMonotone(0, ApiMillis(p, apiCalls));
  }

  lemma ProjectionCovers(bill: Bill, day: int, daysInMonth: int)
    requires 1 <= day <= daysInMonth && bill.apiOverage >= 0 && bill.agentOverage >= 0
    ensures var sum := bill.baseFee + bill.apiOverage + bill.agentOverage;
            && Projected(bill, day, daysInMonth) >= sum
            && (day == daysInMonth ==> Projected(bill, day, daysInMonth) == sum)
  {
    var over := bill.apiOverage + bill.agentOverage;
    var sum := bill.baseFee + over;
    TimesMonotone(day, daysInMonth, over);
    assert sum * day == bill.baseFee * day + over * day;
    RoundAtLeast(sum, bill.baseFee * day + over * daysInMonth, day);
    RoundWhole(sum, day);
  }

  /** On every day of the month the projection is at least the current bill, and equals it on the last day. */
  lemma ProjectionCoversBill(plan: string, apiCalls: int, agentRuns: int, day: int, daysInMonth: int)
    requires 1 <= day <= daysInMonth
    ensures var b := CurrentBill(PricingFor(plan), apiCalls, agentRuns);
            && Projected(b, day, daysInMonth) >= b.totalDue
            && (day == daysInMonth ==> Projected(b, day, daysInMonth) == b.totalDue)
  {
    TotalIsSum(plan, apiCalls, agentRuns);
    OveragesNonNegative(PricingFor(plan), apiCalls, agentRuns);
    ProjectionCovers(CurrentBill(PricingFor(plan), apiCalls, agentRuns), day, daysInMonth);
  }

  // ----- What is billed, in the usage and the price table -----

  /** Usage above the allowances only: cents per thousand calls, to the nearest cent, and cents per run. */
  lemma BillOf(p: Pricing, apiCalls: int, agentRuns: int)
    ensures var b := CurrentBill(p, apiCalls, agentRuns);
            var calls := if apiCalls <= p.includedApi then 0 else apiCalls - p.includedApi;
            var runs := if agentRuns <= p.includedAgent then 0 else agentRuns - p.includedAgent;
            && b.baseFee == p.baseFee && b.agentOverage == runs * p.centsPerAgent
            && Nearest(b.apiOverage, calls * p.centsPer1kApi, 1000)
            && Nearest(b.totalDue, (p.baseFee + runs * p.centsPerAgent) * 1000 + calls * p.centsPer1kApi, 1000)
  {
    RoundIsNearest(ApiMillis(p, apiCalls), 1000);
    RoundIsNearest((p.baseFee + AgentCents(p, agentRuns)) * 1000 + ApiMillis(p, apiCalls), 1000);
  }

  /** The plans in use, in cents: only pro and enterprise are ever billed. */
  lemma BillsInUse(plan: string, apiCalls: int, agentRuns: int)
    ensures var due := CurrentBill(PricingFor(plan), apiCalls, agentRuns).totalDue;
            if plan == "pro" then
              Nearest(due, (4900 + 2 * Max(0, agentRuns - 5_000)) * 1000 + 150 * Max(0, apiCalls - 50_000), 1000)
            else if plan == "enterprise" then
              Nearest(due, (49_900 + Max(0, agentRuns - 50_000)) * 1000 + 80 * Max(0, apiCalls - 1_000_000), 1000)
            else due == 0
  {
    BillOf(PricingFor(plan), apiCalls, agentRuns);
  }

  // ----- What is projected -----

  /** The projection is the base fee plus the overages times daysInMonth / day, to the nearest cent. */
  lemma ProjectionIsNearest(bill: Bill, day: int, daysInMonth: int)
    requires day > 0
    ensures var gap := (Projected(bill, day, daysInMonth) - bill.baseFee) * day
                       - (bill.apiOverage + bill.agentOverage) * daysInMonth;
            && -day <= 2 * gap <= day
            && (2 * gap == day || 2 * gap == -day ==> Projected(bill, day, daysInMonth) % 2 == 0)
  {
    var projected := Projected(bill, day, daysInMonth);
    RoundIsNearest(bill.baseFee * day + (bill.apiOverage + bill.agentOverage) * daysInMonth, day);
    assert (projected - bill.baseFee) * day == projected * day - bill.baseFee * day;
  }

  /** Without overage there is nothing to scale. */
  lemma NoOverageNoGrowth(bill: Bill, day: int, daysInMonth: int)
    requires day > 0 && bill.apiOverage + bill.agentOverage == 0
    ensures Projected(bill, day, daysInMonth) == bill.baseFee
  {
    assert 0 * daysInMonth == 0;
    RoundWhole(bill.baseFee, day);
  }

  /** Both overages are scaled alike: only their sum and the fee matter, and a higher fee is added as it is. */
  lemma OnlyTheSumIsScaled(bill: Bill, bill': Bill, day: int, daysInMonth: int)
    requires day > 0 && bill.apiOverage + bill.agentOverage == bill'.apiOverage + bill'.agentOverage
    requires (bill'.baseFee - bill.baseFee) % 2 == 0
    ensures Projected(bill', day, daysInMonth) - Projected(bill, day, daysInMonth) == bill'.baseFee - bill.baseFee
  {
    var rest := (bill.apiOverage + bill.agentOverage) * daysInMonth;
    var more := bill'.baseFee - bill.baseFee;
    assert bill'.baseFee * day + rest == more * day + (bill.baseFee * day + rest);
    RoundPlusEven(more, bill.baseFee * day + rest, day);
  }

  lemma RoundPlusEven(k: int, num: int, den: int)
    requires den > 0 && k % 2 == 0
    ensures Round(k * den + num, den) == k + Round(num, den)
  {
    var n := Round(num, den);
    RoundIsNearest(num, den);
    assert (k + n) * den - (k * den + num) == n * den - num;
    NearestIsRound(k + n, k * den + num, den);
  }

  /**
   With an odd whole part a tie does break the sum: a table like the pro plan's at one cent per agent
   run, ten extra API calls and one extra run.
   */
  lemma OddTieBreaksSum()
    ensures var p := PricingFor("pro").(centsPerAgent := 1);
            var b := CurrentBill(p, 50_010, 5_001);
            b.totalDue != b.baseFee + b.apiOverage + b.agentOverage
  {
    var p := PricingFor("pro").(centsPerAgent := 1);
    assert ApiMillis(p, 50_010) == 1500 && AgentCents(p, 5_001) == 1;
    TotalIsSumIff(p, 50_010, 5_001);
  }
}
