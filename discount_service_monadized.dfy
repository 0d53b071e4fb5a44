/**
  * `DiscountServiceMonadized`: the same engine written as `Optional` chains and
  * a stream reduction. Nothing is mutated and every null is handled, so every
  * operation is a total function. Its private helpers `hasDate`,
  * `isEndDateMoreThanGivenYearsAfterStartDate`, `isAmountAtLeast`,
  * `isAtLeast`, `maximizeAt`, `roundUp`, `divideBy` and `multiplyBy` are
  * copies of those in `ProductUtils` and `BigDecimalUtils`, which are used here.
  *
  * Its rules differ from `DiscountService` at three boundaries: a deposit of
  * exactly 300 earns the pension point, life insurance needs 300 000 insured
  * (inclusive), and an older customer's life insurance earns 1 + 3.
  */
module DiscountServiceMonadized {
  import opened Wrappers
  import opened Calendar
  import opened Decimals
  import opened Products
  import opened ProductUtils
  import opened Sums

  // ---------------------------------------------------------------------------
  // addAmounts

  /**
    * `filter(Objects::nonNull)`: keeps exactly the present amounts, never more
    * than there were; `NonNullCounts` shows each is kept as often as it occurs
    * and `NonNullKeepsOrder` that the order is kept.
    */
  function NonNull(xs: seq<Option<real>>): (r: seq<real>)
    ensures |r| <= |xs|
    ensures forall v :: v in r <==> Some(v) in xs
  {
    if xs == [] then []
    else
      NonNull(xs[..|xs| - 1]) + (match xs[|xs| - 1] case Some(v) => [v] case None => [])
  }

  /** Each present amount is kept exactly as many times as it occurs. */
  lemma {:induction false} NonNullCounts(xs: seq<Option<real>>, v: real)
    ensures multiset(NonNull(xs))[v] == multiset(xs)[Some(v)]
  {
    if xs != [] {
      NonNullCounts(xs[..|xs| - 1], v);
      KeptCountStep(xs, v);
      InputCountStep(xs, v);
    }
  }

  /** Filtering one more element adds one copy of `v` exactly when that element is `Some(v)`. */
  lemma KeptCountStep(xs: seq<Option<real>>, v: real)
    requires xs != []
    ensures multiset(NonNull(xs))[v]
         == multiset(NonNull(xs[..|xs| - 1]))[v] + (if xs[|xs| - 1] == Some(v) then 1 else 0)
  {
    var init := NonNull(xs[..|xs| - 1]);
    match xs[|xs| - 1] {
      case Some(w) =>
        assert NonNull(xs) == init + [w];
        assert multiset(NonNull(xs)) == multiset(init) + multiset{w};
      case None =>
        assert NonNull(xs) == init;
    }
  }

  /** The last element of a non-empty sequence adds one to its own count. */
  lemma InputCountStep(xs: seq<Option<real>>, v: real)
    requires xs != []
    ensures multiset(xs)[Some(v)]
         == multiset(xs[..|xs| - 1])[Some(v)] + (if xs[|xs| - 1] == Some(v) then 1 else 0)
  {
    assert xs == xs[..|xs| - 1] + [xs[|xs| - 1]];
    assert multiset(xs) == multiset(xs[..|xs| - 1]) + multiset{xs[|xs| - 1]};
  }

  /** Filtering a concatenation filters each part and keeps them in order. */
  lemma {:induction false} NonNullKeepsOrder(xs: seq<Option<real>>, ys: seq<Option<real>>)
    ensures NonNull(xs + ys) == NonNull(xs) + NonNull(ys)
    decreases |ys|
  {
    if ys == [] {
      assert xs + ys == xs;
    } else {
      var init, last := ys[..|ys| - 1], ys[|ys| - 1];
      var kept := match last case Some(v) => [v] case None => [];
      assert (xs + ys)[..|xs + ys| - 1] == xs + init;
      assert (xs + ys)[|xs + ys| - 1] == last;
      assert NonNull(xs + ys) == NonNull(xs + init) + kept;
      assert NonNull(ys) == NonNull(init) + kept;
      NonNullKeepsOrder(xs, init);
      assert NonNull(xs) + NonNull(init) + kept == NonNull(xs) + (NonNull(init) + kept);
    }
  }

  /** `reduce(BigDecimal.ZERO, BigDecimal::add)` over a sequential stream: no terms sum to zero, non-negative terms to a non-negative total. */
  function Reduce(xs: seq<real>): (r: real)
    ensures xs == [] ==> r == 0.0
    ensures (forall i :: 0 <= i < |xs| ==> xs[i] >= 0.0) ==> r >= 0.0
  {
    if xs == [] then 0.0
    else
      Reduce(xs[..|xs| - 1]) + xs[|xs| - 1]
  }

  /**
    * `addAmounts(products, amountFunction)`: a null list is empty; null amounts
    * are dropped, so the total is zero for a null or empty list and
    * non-negative when no present amount is negative.
    */
  function AddAmounts(products: Option<seq<Product>>, amount: Product -> Option<real>): (r: real)
    ensures products.None? || products == Some([]) ==> r == 0.0
    ensures (forall p :: amount(p).Some? ==> amount(p).value >= 0.0) ==> r >= 0.0
  {
    var ps := products.GetOr([]);
    var kept := NonNull(seq(|ps|, i requires 0 <= i < |ps| => amount(ps[i])));
    assert forall i :: 0 <= i < |kept| ==> kept[i] in kept;
    Reduce(kept)
  }

  /** An amount function read with nulls as zero. */
  function AbsentAsZero(amount: Product -> Option<real>): Product -> real {
    p => OrZero(amount(p))
  }

  /**
    * Dropping null amounts before summing is the same as counting them as
    * zero; a null list sums to zero.
    */
  lemma {:induction false} AddAmountsCountsNullAsZero(products: seq<Product>, amount: Product -> Option<real>)
    ensures AddAmounts(Some(products), amount) == SumBy(products, AbsentAsZero(amount))
    ensures AddAmounts(None, amount) == 0.0
  {
    assert AddAmounts(None, amount) == Reduce(NonNull([]));
    if products != [] {
      var n := |products|;
      var prefix := products[..n - 1];
      var mapped := seq(n, i requires 0 <= i < n => amount(products[i]));
      assert mapped[..n - 1] == seq(n - 1, i requires 0 <= i < n - 1 => amount(prefix[i]));
      AddAmountsCountsNullAsZero(prefix, amount);
      var kept := NonNull(mapped[..n - 1]);
      match amount(products[n - 1])
      case Some(v) =>
        assert (kept + [v])[..|kept|] == kept;
      case None =>
        assert kept + [] == kept;
    }
  }

  /** `determineCommission(products)`: the commissions summed from the left, a null one counting as zero. */
  function DetermineCommission(products: Option<seq<Product>>): (r: real)
    ensures r == SumBy(products.GetOr([]), AbsentAsZero(YearlyCommission))
  {
    AddAmountsCountsNullAsZero(products.GetOr([]), YearlyCommission);
    AddAmounts(products, YearlyCommission)
  }

  // ---------------------------------------------------------------------------
  // Pension

  /** `isEndDateMoreThan20YearsAfterStartDate()`: both dates present and more than 20 whole years apart. */
  predicate IsEndDateMoreThan20YearsAfterStartDate(pension: Option<PensionProduct>)
    ensures IsEndDateMoreThan20YearsAfterStartDate(pension) <==>
              pension.Some? && pension.value.startDate.Some? && pension.value.endDate.Some?
              && WholeYearsBetween(pension.value.startDate.value, pension.value.endDate.value) > 20
  {
    pension.Some?
    && HasDate(PensionStartDate, pension)
    && HasDate(PensionEndDate, pension)
    && IsEndDateMoreThanGivenYearsAfterStartDate(PensionStartDate, PensionEndDate, 20, pension)
  }

  /** `determineEndDateRelatedDiscount`: 2 without an end date or with more than 20 years to it. */
  function DetermineEndDateRelatedDiscount(product: PensionProduct): (r: real)
    ensures r == 0.0 || r == 2.0
    ensures r == 2.0 <==>
              product.endDate.None?
              || (product.startDate.Some? && WholeYearsBetween(product.startDate.value, product.endDate.value) > 20)
  {
    if !HasDate(PensionEndDate, Some(product)) || IsEndDateMoreThan20YearsAfterStartDate(Some(product))
    then 2.0 else 0.0
  }

  /** `determineMonthlyDepositRelatedDiscount`: 1 for a deposit of at least 300. */
  function DetermineMonthlyDepositRelatedDiscount(product: PensionProduct): (r: real)
    ensures r == 0.0 || r == 1.0
    ensures r == 1.0 <==> product.monthlyDeposit.Some? && product.monthlyDeposit.value >= 300.0
  {
    if IsAmountAtLeast(MonthlyDeposit, 300, Some(product)) then 1.0 else 0.0
  }

  /** `determinePensionDiscountPercentage`: the two pension points added up; nothing for any other product. */
  function DeterminePensionDiscountPercentage(product: Product): (r: real)
    ensures 0.0 <= r <= 3.0
    ensures !product.Pension? ==> r == 0.0
  {
    match WithProductAsType(Some(product), PENSION)
    case Some(pension) =>
      DetermineEndDateRelatedDiscount(pension) + DetermineMonthlyDepositRelatedDiscount(pension)
    case None => 0.0
  }

  /**
    * A pension earns 2 when it has no end date, or has both dates more than 20
    * whole years apart (an end date without a start date earns nothing), and
    * 1 more for a deposit present and at least 300. Anything else earns 0.
    */
  lemma PensionDiscountCases(product: Product)
    ensures var r := DeterminePensionDiscountPercentage(product);
            r == 0.0 || r == 1.0 || r == 2.0 || r == 3.0
    ensures DeterminePensionDiscountPercentage(product) >= 2.0 <==>
              product.Pension?
              && (product.endDate.None?
                  || (product.startDate.Some? && WholeYearsBetween(product.startDate.value, product.endDate.value) > 20))
    ensures DeterminePensionDiscountPercentage(product) in {1.0, 3.0} <==>
              product.Pension? && product.monthlyDeposit.Some? && product.monthlyDeposit.value >= 300.0
  {
  }

  // ---------------------------------------------------------------------------
  // Life insurance

  /** `withLifeInsuranceEligibleForDiscounts`: the product itself when it is a life insurance with at least 300 000 insured, else empty. */
  function WithLifeInsuranceEligibleForDiscounts(product: Product): (r: Option<LifeInsuranceProduct>)
    ensures r.Some? <==>
              product.LifeInsurance? && product.insuredAmount.Some? && product.insuredAmount.value >= 300000.0
    ensures r.Some? ==> r.value == product
  {
    match WithProductAsType(Some(product), LIFE_INSURANCE)
    case Some(product) =>
      var lifeInsurance: LifeInsuranceProduct := product;
      if lifeInsurance.insuredAmount != None && IsAmountAtLeast(InsuredAmount, 300000, Some(lifeInsurance))
      then Some(lifeInsurance) else None
    case None => None
  }

  /** `isCustomerAtLeast20Years()`: despite the name, strictly more than 20 whole years up to `today`. */
  predicate IsCustomerAtLeast20Years(today: Date, product: Option<LifeInsuranceProduct>)
    ensures IsCustomerAtLeast20Years(today, product) <==>
              product.Some? && product.value.birthdateInsuredCustomer.Some?
              && WholeYearsBetween(product.value.birthdateInsuredCustomer.value, today) > 20
  {
    IsEndDateMoreThanGivenYearsAfterStartDate(BirthdateInsuredCustomer, (_: LifeInsuranceProduct) => Some(today), 20, product)
  }

  /** `determineLifeInsuranceBaseDiscount`: 1 for an eligible life insurance, else 0. */
  function DetermineLifeInsuranceBaseDiscount(product: Product): (r: real)
    ensures r == 0.0 || r == 1.0
    ensures r == 1.0 <==>
              product.LifeInsurance? && product.insuredAmount.Some? && product.insuredAmount.value >= 300000.0
  {
    if WithLifeInsuranceEligibleForDiscounts(product).Some? then 1.0 else 0.0
  }

  /** `determineAgeBaseLifeInsuranceDiscount`: 3 for an eligible life insurance whose customer is older than 20 whole years, else 0. */
  function DetermineAgeBaseLifeInsuranceDiscount(product: Product, today: Date): (r: real)
    ensures r == 0.0 || r == 3.0
    ensures r == 3.0 <==>
              product.LifeInsurance? && product.insuredAmount.Some? && product.insuredAmount.value >= 300000.0
              && product.birthdateInsuredCustomer.Some?
              && WholeYearsBetween(product.birthdateInsuredCustomer.value, today) > 20
  {
    match WithLifeInsuranceEligibleForDiscounts(product)
    case Some(lifeInsurance) => if IsCustomerAtLeast20Years(today, Some(lifeInsurance)) then 3.0 else 0.0
    case None => 0.0
  }

  /** `determineLifeInsuranceDiscountPercentage`: the base and the age points added up; nothing for any other product. */
  function DetermineLifeInsuranceDiscountPercentage(product: Product, today: Date): (r: real)
    ensures r == 0.0 || r == 1.0 || r == 4.0
    ensures !product.LifeInsurance? ==> r == 0.0
  {
    DetermineLifeInsuranceBaseDiscount(product) + DetermineAgeBaseLifeInsuranceDiscount(product, today)
  }

  /**
    * Only a life insurance with at least 300 000 insured earns anything: 1, and
    * 3 more when the customer is older than 20 whole years, so 0, 1 or 4.
    */
  lemma LifeInsuranceDiscountCases(product: Product, today: Date)
    ensures var r := DetermineLifeInsuranceDiscountPercentage(product, today);
            r == 0.0 || r == 1.0 || r == 4.0
    ensures DetermineLifeInsuranceDiscountPercentage(product, today) != 0.0 <==>
              product.LifeInsurance? && product.insuredAmount.Some? && product.insuredAmount.value >= 300000.0
    ensures DetermineLifeInsuranceDiscountPercentage(product, today) == 4.0 <==>
              product.LifeInsurance? && product.insuredAmount.Some? && product.insuredAmount.value >= 300000.0
              && product.birthdateInsuredCustomer.Some?
              && WholeYearsBetween(product.birthdateInsuredCustomer.value, today) > 20
  {
  }

  // ---------------------------------------------------------------------------
  // Mortgage

  /** `isAnnuity()`: a name present and equal to "ANNUITY". */
  predicate IsAnnuity(mortgage: Option<MortgageProduct>)
    ensures IsAnnuity(mortgage) <==> mortgage.Some? && mortgage.value.productName == Some("ANNUITY")
  {
    match mortgage
    case Some(m) => (match m.productName case Some(name) => "ANNUITY" == name case None => false)
    case None => false
  }

  /** `hasDurationOf360Months()`: a duration present and equal to 360. */
  predicate HasDurationOf360Months(mortgage: Option<MortgageProduct>)
    ensures HasDurationOf360Months(mortgage) <==> mortgage.Some? && mortgage.value.durationInMonths == Some(360)
  {
    match mortgage
    case Some(m) => (match m.durationInMonths case Some(d) => 360 == d case None => false)
    case None => false
  }

  /** `determineMortgageDiscountPercentage`: a hundredth of the duration for a 360-month annuity, so 3.6 or nothing. */
  function DetermineMortgageDiscountPercentage(product: Product): (r: real)
    ensures r == 0.0 || r == 3.6
    ensures !product.Mortgage? ==> r == 0.0
  {
    match WithProductAsType(Some(product), MORTGAGE)
    case Some(mortgage) =>
      if IsAnnuity(Some(mortgage)) && HasDurationOf360Months(Some(mortgage))
      then 0.01 * mortgage.durationInMonths.value as real
      else 0.0
    case None => 0.0
  }

  /** 3.6 exactly for a mortgage named "ANNUITY" running 360 months, 0 for everything else. */
  lemma MortgageDiscountCases(product: Product)
    ensures DetermineMortgageDiscountPercentage(product) == 3.6 <==>
              product.Mortgage? && product.productName == Some("ANNUITY") && product.durationInMonths == Some(360)
    ensures DetermineMortgageDiscountPercentage(product) != 3.6 ==> DetermineMortgageDiscountPercentage(product) == 0.0
  {
  }

  // ---------------------------------------------------------------------------
  // Dispatch and totals

  /**
    * `determineDiscountPercentage(product)`: an exhaustive switch on the
    * product type. Every product earns between 0 and 4 points; a non-life
    * product earns none.
    */
  function DetermineDiscountPercentage(product: Product, today: Date): (r: real)
    ensures 0.0 <= r <= 4.0
    ensures product.NonLifeInsurance? ==> r == 0.0
  {
    match product.Type()
    case PENSION => DeterminePensionDiscountPercentage(product)
    case MORTGAGE => DetermineMortgageDiscountPercentage(product)
    case LIFE_INSURANCE => DetermineLifeInsuranceDiscountPercentage(product, today)
    case NON_LIFE_INSURANCE => 0.0
  }

  /** `DiscountServiceMonadized::determineDiscountPercentage` as a stream mapper. */
  function PercentageOf(today: Date): Product -> Option<real> {
    p => Some(DetermineDiscountPercentage(p, today))
  }

  /** `determineDiscountPercentage(products)`: the products' percentages summed from the left. */
  function DetermineTotalDiscountPercentage(products: Option<seq<Product>>, today: Date): (r: real)
    ensures r == SumBy(products.GetOr([]), AbsentAsZero(PercentageOf(today)))
  {
    AddAmountsCountsNullAsZero(products.GetOr([]), PercentageOf(today));
    AddAmounts(products, PercentageOf(today))
  }

  // ---------------------------------------------------------------------------
  // Final amount

  /**
    * `calculateDiscount(amount, discountPercentage)`: `isAtLeast(50)`, then
    * `maximizeAt(1000)`, `roundUp()`, `divideBy(100)`, `multiplyBy(discountPercentage)`.
    * A null amount or one below 50 gives 0; from 1000 on the base is capped at 10.
    */
  function CalculateDiscount(amount: Option<real>, discountPercentage: Option<real>): (r: real)
    ensures amount.None? || amount.value < 50.0 ==> r == 0.0
    ensures amount.Some? && amount.value >= 1000.0 ==> r == MultiplyBy(discountPercentage, 10.0)
  {
    match amount
    case Some(a) =>
      CappedHundredthsRange(a);
      if IsAtLeast(50, a)
      then MultiplyBy(discountPercentage, DivideBy(100, RoundUp(MaximizeAt(1000, a))))
      else 0.0
    case None => 0.0
  }

  /**
    * A null commission or one below 50 gives 0; otherwise the result is the
    * rounded hundredth of the capped commission (a whole number from 1 to 10),
    * times the percentage, or unscaled when the percentage is null.
    */
  lemma CalculateDiscountCases(amount: Option<real>, discountPercentage: Option<real>)
    ensures amount.None? || amount.value < 50.0 ==> CalculateDiscount(amount, discountPercentage) == 0.0
    ensures amount.Some? && amount.value >= 50.0 ==>
              var b := DivideBy(100, RoundUp(MaximizeAt(1000, amount.value)));
              && b == b.Floor as real && 1.0 <= b <= 10.0
              && (discountPercentage.None? ==> CalculateDiscount(amount, discountPercentage) == b)
              && (discountPercentage.Some? ==> CalculateDiscount(amount, discountPercentage) == b * discountPercentage.value)
  {
    if amount.Some? && amount.value >= 50.0 {
      CappedHundredthsRange(amount.value);
    }
  }

  /** `determineDiscount(products)`: nothing when the commissions, a null one counting as zero, total less than 50. */
  function DetermineDiscount(products: Option<seq<Product>>, today: Date): (r: real)
    ensures SumBy(products.GetOr([]), AbsentAsZero(YearlyCommission)) < 50.0 ==> r == 0.0
  {
    CalculateDiscount(Some(DetermineCommission(products)), Some(DetermineTotalDiscountPercentage(products, today)))
  }

  /** A null list is treated as an empty one, and an empty list gives no discount. */
  lemma NullListIsEmpty(today: Date)
    ensures DetermineDiscount(None, today) == DetermineDiscount(Some([]), today) == 0.0
  {
  }

  /** Reordering the products changes neither total, so not the discount either. */
  lemma DetermineDiscountIsOrderIndependent(products: seq<Product>, reordered: seq<Product>, today: Date)
    requires multiset(products) == multiset(reordered)
    ensures DetermineCommission(Some(reordered)) == DetermineCommission(Some(products))
    ensures DetermineTotalDiscountPercentage(Some(reordered), today)
         == DetermineTotalDiscountPercentage(Some(products), today)
    ensures DetermineDiscount(Some(reordered), today) == DetermineDiscount(Some(products), today)
  {
    AddAmountsCountsNullAsZero(products, YearlyCommission);
    AddAmountsCountsNullAsZero(reordered, YearlyCommission);
    SumByPermutation(products, reordered, AbsentAsZero(YearlyCommission));
    AddAmountsCountsNullAsZero(products, PercentageOf(today));
    AddAmountsCountsNullAsZero(reordered, PercentageOf(today));
    SumByPermutation(products, reordered, AbsentAsZero(PercentageOf(today)));
  }

  /** The total percentage is between 0 and 4 points per product. */
  lemma TotalDiscountPercentageBounds(products: seq<Product>, today: Date)
    ensures 0.0 <= DetermineTotalDiscountPercentage(Some(products), today) <= 4.0 * |products| as real
  {
    forall i | 0 <= i < |products|
      ensures 0.0 <= AbsentAsZero(PercentageOf(today))(products[i]) <= 4.0
    {
    }
    SumByBounds(products, AbsentAsZero(PercentageOf(today)), 0.0, 4.0);
    assert Some(products).GetOr([]) == products;
  }

  /** For a non-negative percentage the amount lies between 0 and 10 times the percentage. */
  lemma CalculateDiscountBounds(c: real, p: real)
    requires p >= 0.0
    ensures 0.0 <= CalculateDiscount(Some(c), Some(p)) <= 10.0 * p
  {
    if c >= 50.0 {
      var b := DivideBy(100, RoundUp(MaximizeAt(1000, c)));
      CappedHundredthsRange(c);
      assert CalculateDiscount(Some(c), Some(p)) == MultiplyBy(Some(p), b) == b * p;
      ScaleWithinTen(CalculateDiscount(Some(c), Some(p)), b, p);
    }
  }

  /** The discount is non-negative and at most 40 per product (4 points on a base of at most 10). */
  lemma DetermineDiscountBounds(products: seq<Product>, today: Date)
    ensures 0.0 <= DetermineDiscount(Some(products), today) <= 40.0 * |products| as real
  {
    var c := DetermineCommission(Some(products));
    var p := DetermineTotalDiscountPercentage(Some(products), today);
    TotalDiscountPercentageBounds(products, today);
    CalculateDiscountBounds(c, p);
    assert DetermineDiscount(Some(products), today) == CalculateDiscount(Some(c), Some(p));
  }
}
