/** Resale pricing and the charge ledger (app/modules/billing/service.py), with exact reals in
    place of Python floats. */
module Billing {
  import opened Text
  import opened Common

  // ------------------------------------------------------------ rounding

  /** `round(x)`: to the nearest integer, ties to the even one. */
  function RoundHalfEven(x: real): int {
    var f := x.Floor;
    var d := x - f as real;
    if d < 0.5 || (d == 0.5 && f % 2 == 0) then f else f + 1
  }

  /** Rounding is never off by more than a half, and on a tie the result is even; no other
      integer has both properties. */
  lemma RoundIsNearest(x: real, n: int)
    ensures n == RoundHalfEven(x) <==>
            && n as real - 0.5 <= x <= n as real + 0.5
            && (x == n as real - 0.5 || x == n as real + 0.5 ==> n % 2 == 0)
  {
    var f := x.Floor;
    assert f as real <= x < (f + 1) as real;
    if n < f || n > f + 1 {
      assert n <= f - 1 || n >= f + 2;
    }
  }

  lemma RoundIsMonotone(x: real, y: real)
    requires x <= y
    ensures RoundHalfEven(x) <= RoundHalfEven(y)
  {
    RoundIsNearest(x, RoundHalfEven(x));
    RoundIsNearest(y, RoundHalfEven(y));
  }

  // ------------------------------------------------------------ prices

  datatype Rule = FixedPrice | FixedMargin | MarkupPercent

  function Factor(percent: real): real { 1.0 + percent / 100.0 }

  function ComputeResaleCents(wholesale: int, rule: Rule, value: real): int {
    match rule
    case FixedPrice => Max(0, RoundHalfEven(value))
    case FixedMargin => Max(0, wholesale + RoundHalfEven(value))
    case MarkupPercent => Max(0, RoundHalfEven(wholesale as real * Factor(value)))
  }

  lemma ScaleMonotone(x: real, y: real, factor: real)
    requires x <= y && factor >= 0.0
    ensures x * factor <= y * factor
  {
    assert (y - x) * factor >= 0.0;
  }

  lemma NegativeScale(x: real, factor: real)
    requires x >= 0.0 && factor <= 0.0
    ensures x * factor <= 0.0
  {
  }

  lemma RoundOfNonPositive(x: real)
    requires x <= 0.0
    ensures RoundHalfEven(x) <= 0
  {
    RoundIsMonotone(x, 0.0);
  }

  /** A dearer cost is never sold cheaper, under any rule with any value. */
  lemma PriceIsMonotone(cost: int, dearer: int, rule: Rule, value: real)
    requires 0 <= cost <= dearer
    ensures ComputeResaleCents(cost, rule, value) <= ComputeResaleCents(dearer, rule, value)
  {
    if rule == MarkupPercent {
      if Factor(value) >= 0.0 {
        ScaleMonotone(cost as real, dearer as real, Factor(value));
        RoundIsMonotone(cost as real * Factor(value), dearer as real * Factor(value));
      } else {
        NegativeScale(cost as real, Factor(value));
        RoundOfNonPositive(cost as real * Factor(value));
      }
    }
  }

  /** A markup or margin that is not negative never sells below cost. */
  lemma PriceCoversCost(cost: int, rule: Rule, value: real)
    requires value >= 0.0 && rule != FixedPrice
    ensures ComputeResaleCents(cost, rule, value) >= cost
  {
    if rule == FixedMargin {
      RoundIsMonotone(0.0, value);
    } else if cost > 0 {
      ScaleMonotone(1.0, Factor(value), cost as real);
      RoundIsMonotone(cost as real, cost as real * Factor(value));
      RoundIsNearest(cost as real, cost);
    }
  }

  /** What a rule asks for: an absolute price, so much on top, or so many percent on top. */
  ghost function Asked(cost: int, rule: Rule, value: real): real {
    match rule
    case FixedPrice => value
    case FixedMargin => cost as real + value
    case MarkupPercent => cost as real * (100.0 + value) / 100.0
  }

  /** The price is a whole number of cents, never negative, and at most half a cent away from what
      the rule asks for, or zero where the rule asks for less. */
  lemma PriceIsAsAsked(cost: int, rule: Rule, value: real)
    ensures var price, asked := ComputeResaleCents(cost, rule, value), Asked(cost, rule, value);
            if asked < 0.0 then price == 0
            else price >= 0 && price as real - 0.5 <= asked <= price as real + 0.5
  {
    match rule
    case FixedPrice => NearestCents(value);
    case FixedMargin => RoundIsNearest(value, RoundHalfEven(value));
    case MarkupPercent =>
      SameMarkup(cost as real, value);
      NearestCents(cost as real * Factor(value));
  }

  /** A price for this many cents. */
  lemma NearestCents(asked: real)
    ensures var price := Max(0, RoundHalfEven(asked));
            if asked < 0.0 then price == 0
            else price >= 0 && price as real - 0.5 <= asked <= price as real + 0.5
  {
    RoundIsNearest(asked, RoundHalfEven(asked));
    hide RoundHalfEven;
  }

  lemma SameMarkup(cost: real, percent: real)
    ensures cost * Factor(percent) == cost * (100.0 + percent) / 100.0
  {
    assert Factor(percent) == (100.0 + percent) / 100.0;
  }

  // ------------------------------------------------------------ many small charges

  function Sum(costs: seq<int>): int {
    if costs == [] then 0 else Sum(costs[..|costs| - 1]) + costs[|costs| - 1]
  }

  /** Each cost priced on its own. */
  function PricedSeparately(costs: seq<int>, percent: real): int {
    if costs == [] then 0
    else PricedSeparately(costs[..|costs| - 1], percent)
         + ComputeResaleCents(costs[|costs| - 1], MarkupPercent, percent)
  }

  lemma RoundOfNonNegative(x: real)
    requires x >= 0.0
    ensures RoundHalfEven(x) >= 0
  {
    RoundIsMonotone(0.0, x);
  }

  lemma OnePrice(cost: int, percent: real)
    requires cost >= 0 && Factor(percent) >= 0.0
    ensures var price := ComputeResaleCents(cost, MarkupPercent, percent) as real;
            cost as real * Factor(percent) - 0.5 <= price <= cost as real * Factor(percent) + 0.5
  {
    var x := cost as real * Factor(percent);
    ScaleMonotone(0.0, cost as real, Factor(percent));
    RoundOfNonNegative(x);
    RoundIsNearest(x, RoundHalfEven(x));
  }

  lemma {:induction false} SumIsNonNegative(costs: seq<int>)
    requires forall i :: 0 <= i < |costs| ==> costs[i] >= 0
    ensures Sum(costs) >= 0
  {
    if costs != [] {
      SumIsNonNegative(costs[..|costs| - 1]);
    }
  }

  /** The unrounded price. */
  ghost function Exact(cost: int, percent: real): real {
    cost as real * Factor(percent)
  }

  lemma ExactAdds(a: int, b: int, percent: real)
    ensures Exact(a + b, percent) == Exact(a, percent) + Exact(b, percent)
  {
    assert (a + b) as real == a as real + b as real;
  }

  /** |price - exact| is at most n halves. */
  ghost predicate Near(price: int, exact: real, n: nat) {
    -(n as real) <= 2.0 * (price as real - exact) <= n as real
  }

  lemma NearAdds(p: int, x: real, n: nat, q: int, y: real)
    requires Near(p, x, n) && Near(q, y, 1)
    ensures Near(p + q, x + y, n + 1)
  {
  }

  lemma OnePriceIsNear(cost: int, percent: real)
    requires cost >= 0 && Factor(percent) >= 0.0
    ensures Near(ComputeResaleCents(cost, MarkupPercent, percent), Exact(cost, percent), 1)
  {
    OnePrice(cost, percent);
  }

  lemma {:induction false} SeparateDrift(costs: seq<int>, percent: real)
    requires forall i :: 0 <= i < |costs| ==> costs[i] >= 0
    requires Factor(percent) >= 0.0
    ensures Near(PricedSeparately(costs, percent), Exact(Sum(costs), percent), |costs|)
  {
    if costs != [] {
      var front, last := costs[..|costs| - 1], costs[|costs| - 1];
      SeparateDrift(front, percent);
      OnePriceIsNear(last, percent);
      ExactAdds(Sum(front), last, percent);
      NearAdds(PricedSeparately(front, percent), Exact(Sum(front), percent), |front|,
               ComputeResaleCents(last, MarkupPercent, percent), Exact(last, percent));
    }
  }

  lemma BothNear(p: int, q: int, x: real, n: nat)
    requires Near(p, x, n) && Near(q, x, 1)
    ensures -(n + 1) <= 2 * (p - q) <= n + 1
  {
    assert 2.0 * (p as real - q as real) == (2 * (p - q)) as real;
  }

  lemma {:induction false} NothingBelowMinusHundred(costs: seq<int>, percent: real)
    requires forall i :: 0 <= i < |costs| ==> costs[i] >= 0
    requires Factor(percent) < 0.0
    ensures PricedSeparately(costs, percent) == 0
  {
    if costs != [] {
      var last := costs[|costs| - 1];
      NothingBelowMinusHundred(costs[..|costs| - 1], percent);
      NegativeScale(last as real, Factor(percent));
      RoundOfNonPositive(last as real * Factor(percent));
    }
  }

  /** Pricing n charges one by one, or their sum at once, differs by at most (n + 1) / 2 cents. */
  lemma SplitChargesDriftLittle(costs: seq<int>, percent: real)
    requires forall i :: 0 <= i < |costs| ==> costs[i] >= 0
    ensures var apart, together :=
              PricedSeparately(costs, percent), ComputeResaleCents(Sum(costs), MarkupPercent, percent);
            -(|costs| + 1) <= 2 * (apart - together) <= |costs| + 1
  {
    SumIsNonNegative(costs);
    if Factor(percent) >= 0.0 {
      SeparateDrift(costs, percent);
      OnePriceIsNear(Sum(costs), percent);
      BothNear(PricedSeparately(costs, percent), ComputeResaleCents(Sum(costs), MarkupPercent, percent),
               Exact(Sum(costs), percent), |costs|);
    } else {
      NothingBelowMinusHundred(costs, percent);
      NegativeScale(Sum(costs) as real, Factor(percent));
      RoundOfNonPositive(Sum(costs) as real * Factor(percent));
    }
  }

  // ------------------------------------------------------------ quotes and the ledger

  datatype PricingRule = PricingRule(rule: Rule, value: real, wholesale: int)

  datatype Charge = Charge(tenant: string, offering: string, wholesale: int, resale: int, margin: int)

  datatype Quote = Quote(wholesale: int, resale: int, margin: int, rule: Rule, value: real) | NoPricing

  class BillingService {
    var rules: map<string, PricingRule>
    var charges: seq<Charge>
    const defaultMarkup: real

    constructor (defaultMarkup: real)
      ensures rules == map[] && charges == [] && this.defaultMarkup == defaultMarkup
    {
      rules, charges := map[], [];
      this.defaultMarkup := defaultMarkup;
    }

    /** A passed cost wins over the rule's own; without a rule the default markup applies, and
        then a cost must be passed. */
    method GetQuote(offering: string, wholesale: Option<int>) returns (q: Quote)
      ensures q.NoPricing? <==> offering !in rules && wholesale.None?
      ensures q.Quote? ==>
                && q.wholesale == (if wholesale.Some? then wholesale.value else rules[offering].wholesale)
                && q.resale == ComputeResaleCents(q.wholesale, q.rule, q.value)
                && q.margin == q.resale - q.wholesale
                && (if offering in rules then q.rule == rules[offering].rule && q.value == rules[offering].value
                    else q.rule == MarkupPercent && q.value == defaultMarkup)
    {
      var cost, rule, value := 0, MarkupPercent, defaultMarkup;
      if offering in rules {
        var r := rules[offering];
        cost := if wholesale.Some? then wholesale.value else r.wholesale;
        rule, value := r.rule, r.value;
      } else {
        if wholesale.None? {
          return NoPricing;
        }
        cost := wholesale.value;
      }
      var resale := ComputeResaleCents(cost, rule, value);
      q := Quote(cost, resale, resale - cost, rule, value);
    }

    method SetRule(offering: string, rule: Rule, value: real, wholesale: int)
      modifies this`rules
      ensures rules == old(rules)[offering := PricingRule(rule, value, wholesale)]
    {
      rules := rules[offering := PricingRule(rule, value, wholesale)];
    }

    method RecordCharge(tenant: string, offering: string, wholesale: int, resale: int)
      modifies this`charges
      ensures charges == old(charges) + [Charge(tenant, offering, wholesale, resale, resale - wholesale)]
      ensures old(Balanced(charges)) ==> Balanced(charges)
    {
      charges := charges + [Charge(tenant, offering, wholesale, resale, resale - wholesale)];
    }
  }

  ghost predicate Balanced(charges: seq<Charge>) {
    forall i :: 0 <= i < |charges| ==> charges[i].margin == charges[i].resale - charges[i].wholesale
  }
}
