/**
  * How the two implementations of the engine relate: where they agree and the
  * exact size of each difference at their boundaries.
  */
module ServiceComparison {
  import opened Wrappers
  import opened Calendar
  import opened Products
  import opened Sums
  import Decimals
  import DS = DiscountService
  import M = DiscountServiceMonadized

  /**
    * With a percentage present the two `calculateDiscount`s agree. Without
    * one, `DiscountService` gives 0 while the monadized version multiplies by
    * one and gives the whole base, at least 1 from a commission of 50 on.
    */
  lemma CalculateDiscountsAgree(amount: Option<real>, discountPercentage: Option<real>)
    ensures discountPercentage.Some? ==>
              M.CalculateDiscount(amount, discountPercentage) == DS.DiscountAmount(amount, discountPercentage)
    ensures discountPercentage.None? ==> DS.DiscountAmount(amount, discountPercentage) == 0.0
    ensures discountPercentage.None? && amount.Some? && amount.value >= 50.0 ==>
              M.CalculateDiscount(amount, discountPercentage) == DS.DiscountBase(amount.value) >= 1.0
  {
    match amount
    case None =>
    case Some(a) =>
      if a < 50.0 {
        assert M.CalculateDiscount(amount, discountPercentage) == 0.0;
      } else {
        var b := DS.DiscountBase(a);
        assert M.CalculateDiscount(amount, discountPercentage) == Decimals.MultiplyBy(discountPercentage, b);
        match discountPercentage
        case None =>
        case Some(p) =>
          assert amount.value == a && discountPercentage.value == p;
          assert DS.DiscountAmount(amount, discountPercentage) == b * p;
          assert M.CalculateDiscount(amount, discountPercentage) == b * p;
      }
  }

  /** Skipping null commissions and adding them as zero give the same total. */
  lemma CommissionsAgree(products: seq<Product>)
    ensures M.DetermineCommission(Some(products)) == DS.TotalCommission(products)
  {
    M.AddAmountsCountsNullAsZero(products, YearlyCommission);
    forall i | 0 <= i < |products|
      ensures M.AbsentAsZero(YearlyCommission)(products[i]) == DS.CommissionOrZero(products[i])
    {
    }
    SumByCongruence(products, M.AbsentAsZero(YearlyCommission), DS.CommissionOrZero);
  }

  /** A product on which the two rule sets give the same percentage. */
  predicate AwayFromBoundaries(p: Product) {
    || p.Mortgage?
    || p.NonLifeInsurance?
    || (p.Pension? && p.monthlyDeposit != Some(300.0))
    || (p.LifeInsurance? && (p.insuredAmount.None? || p.insuredAmount.value <= 100000.0))
  }

  /**
    * The mortgage and non-life rules coincide; the pension rules coincide except
    * at a deposit of exactly 300, where only the monadized rule grants its point;
    * the life-insurance rules coincide up to 100 000 insured.
    */
  lemma PercentagesAgreeAwayFromBoundaries(p: Product, today: Date)
    requires DS.Ready(p) && AwayFromBoundaries(p)
    ensures M.DetermineDiscountPercentage(p, today) == DS.Percentage(p, today)
  {
    M.PensionDiscountCases(p);
    M.LifeInsuranceDiscountCases(p, today);
    M.MortgageDiscountCases(p);
  }

  /** At a deposit of exactly 300 the monadized pension percentage is one point higher. */
  lemma PensionRulesDifferAtDeposit300(p: PensionProduct, today: Date)
    requires DS.PensionReady(p)
    ensures M.DetermineDiscountPercentage(p, today)
         == DS.Percentage(p, today) + (if p.monthlyDeposit == Some(300.0) then 1.0 else 0.0)
  {
    M.PensionDiscountCases(p);
  }

  /**
    * Life insurance: nothing from either service up to 100 000 insured; only
    * `DiscountService` grants anything below 300 000; from 300 000 on the
    * monadized rule grants one point more to a customer older than 20 (4
    * against 3) and the same 1 otherwise.
    */
  lemma LifeInsuranceRulesDiffer(p: LifeInsuranceProduct, today: Date)
    requires DS.LifeInsuranceReady(p)
    ensures p.insuredAmount.None? || p.insuredAmount.value <= 100000.0 ==>
              M.DetermineDiscountPercentage(p, today) == 0.0 && DS.Percentage(p, today) == 0.0
    ensures p.insuredAmount.Some? && 100000.0 < p.insuredAmount.value < 300000.0 ==>
              M.DetermineDiscountPercentage(p, today) == 0.0 && DS.Percentage(p, today) != 0.0
    ensures p.insuredAmount.Some? && p.insuredAmount.value >= 300000.0 ==>
              var older := WholeYearsBetween(p.birthdateInsuredCustomer.value, today) > 20;
              && DS.Percentage(p, today) == (if older then 3.0 else 1.0)
              && M.DetermineDiscountPercentage(p, today) == (if older then 4.0 else 1.0)
  {
    M.LifeInsuranceDiscountCases(p, today);
  }

  /** On a list whose every product is away from the boundaries, the two services give the same discount. */
  lemma ServicesAgreeAwayFromBoundaries(products: seq<Product>, today: Date)
    requires DS.AllReady(products)
    requires forall i :: 0 <= i < |products| ==> AwayFromBoundaries(products[i])
    ensures M.DetermineDiscount(Some(products), today) == DS.Discount(products, today)
  {
    CommissionsAgree(products);
    M.AddAmountsCountsNullAsZero(products, M.PercentageOf(today));
    forall i | 0 <= i < |products|
      ensures M.AbsentAsZero(M.PercentageOf(today))(products[i]) == DS.PercentageAt(today)(products[i])
    {
      PercentagesAgreeAwayFromBoundaries(products[i], today);
    }
    SumByCongruence(products, M.AbsentAsZero(M.PercentageOf(today)), DS.PercentageAt(today));
    CalculateDiscountsAgree(Some(DS.TotalCommission(products)), Some(DS.TotalPercentage(products, today)));
  }
}
