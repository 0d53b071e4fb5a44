/**
  * `DiscountService`: the imperative discount engine. The pension and mortgage
  * rules, `calculateDiscount` and `determineDiscount` work by reassigning
  * locals, so they are methods, each proved against a specification function
  * below; the life-insurance rule is a plain conditional and stays a function.
  *
  * The service dereferences some nullable fields without a check; the
  * `...Ready` predicates state what it needs to run without a
  * null dereference, and its callers must provide it.
  */
module DiscountService {
  import opened Wrappers
  import opened Calendar
  import opened Decimals
  import opened Products
  import opened Sums

  // ---------------------------------------------------------------------------
  // What the service dereferences without a null check

  /** Line 62 reads the deposit; line 58 reads the start date once an end date is present. */
  predicate PensionReady(p: PensionProduct) {
    p.monthlyDeposit.Some? && (p.endDate.Some? ==> p.startDate.Some?)
  }

  /** Line 74 calls `equals` on the name, then unboxes the duration when the name is "ANNUITY". */
  predicate MortgageReady(p: MortgageProduct) {
    p.productName.Some? && (p.productName.value == "ANNUITY" ==> p.durationInMonths.Some?)
  }

  /** An eligible policy has its birthdate read at line 86. */
  predicate LifeInsuranceReady(p: LifeInsuranceProduct) {
    LifeInsuranceEligible(p) ==> p.birthdateInsuredCustomer.Some?
  }

  /**
    * What a product must hold for the service to process it: a non-life
    * product always qualifies, any other one does when the fields read for
    * its type are present, and a pension or mortgage never does without its
    * deposit or its name.
    */
  predicate Ready(p: Product)
    ensures p.NonLifeInsurance? ==> Ready(p)
    ensures p.Pension? && p.monthlyDeposit.Some? && p.startDate.Some? ==> Ready(p)
    ensures p.Mortgage? && p.productName.Some? && p.durationInMonths.Some? ==> Ready(p)
    ensures p.LifeInsurance? && p.birthdateInsuredCustomer.Some? ==> Ready(p)
    ensures Ready(p) && p.Pension? ==> p.monthlyDeposit.Some?
    ensures Ready(p) && p.Mortgage? ==> p.productName.Some?
  {
    match p.Type()
    case PENSION => PensionReady(p)
    case MORTGAGE => MortgageReady(p)
    case LIFE_INSURANCE => LifeInsuranceReady(p)
    case NON_LIFE_INSURANCE => true
  }

  // ---------------------------------------------------------------------------
  // Pension

  /** No end date, or strictly more than 20 whole years from start to end. */
  predicate PensionEndDateQualifies(p: PensionProduct)
    requires PensionReady(p)
  {
    p.endDate.None? || WholeYearsBetween(p.startDate.value, p.endDate.value) > 20
  }

  /** `compareTo(300) >= 1`: strictly more than 300. */
  predicate PensionDepositQualifies(p: PensionProduct)
    requires PensionReady(p)
  {
    p.monthlyDeposit.value > 300.0
  }

  /**
    * Two points for the end date and one for the deposit, independently: 3
    * exactly when both qualify, 0 exactly when neither does.
    */
  function PensionPercentage(p: PensionProduct): (r: real)
    requires PensionReady(p)
    ensures 0.0 <= r <= 3.0
    ensures r == 3.0 <==> PensionEndDateQualifies(p) && PensionDepositQualifies(p)
    ensures r == 0.0 <==> !PensionEndDateQualifies(p) && !PensionDepositQualifies(p)
  {
    (if PensionEndDateQualifies(p) then 2.0 else 0.0)
    + (if PensionDepositQualifies(p) then 1.0 else 0.0)
  }

  method DeterminePensionDiscountPercentage(product: PensionProduct) returns (discountPercentage: real)
    requires PensionReady(product)
    ensures discountPercentage == PensionPercentage(product)
  {
    discountPercentage := 0.0;
    if product.endDate == None
       || WholeYearsBetween(product.startDate.value, product.endDate.value) > 20 {
      discountPercentage := discountPercentage + 2.0;
    }
    if product.monthlyDeposit.value > 300.0 {
      discountPercentage := discountPercentage + 1.0;
    }
  }

  /**
    * The pension percentage is one of 0, 1, 2, 3; exactly 20 years and a
    * deposit of exactly 300 both earn nothing.
    */
  lemma PensionPercentageCases(p: PensionProduct)
    requires PensionReady(p)
    ensures var r := PensionPercentage(p); r == 0.0 || r == 1.0 || r == 2.0 || r == 3.0
    ensures PensionPercentage(p) >= 2.0 <==> p.endDate.None? || WholeYearsBetween(p.startDate.value, p.endDate.value) > 20
    ensures PensionPercentage(p) in {1.0, 3.0} <==> p.monthlyDeposit.value > 300.0
    ensures p.endDate.Some? && p.endDate.value == SameDayYearsLater(p.startDate.value, 20) ==> PensionPercentage(p) < 2.0
    ensures p.monthlyDeposit == Some(300.0) ==> PensionPercentage(p) in {0.0, 2.0}
  {
    if p.endDate.Some? {
      WholeYearsToSameDay(p.startDate.value, 20);
    }
  }

  // ---------------------------------------------------------------------------
  // Mortgage

  /** 3.6 points for an annuity mortgage of exactly 360 months, nothing otherwise. */
  function MortgagePercentage(p: MortgageProduct): (r: real)
    requires MortgageReady(p)
    ensures r == 0.0 || r == 3.6
    ensures r == 3.6 <==> p.productName == Some("ANNUITY") && p.durationInMonths == Some(360)
  {
    if p.productName.value == "ANNUITY" && p.durationInMonths.value == 360 then 3.6 else 0.0
  }

  method DetermineMortgageDiscountPercentage(product: MortgageProduct) returns (discountPercentage: real)
    requires MortgageReady(product)
    ensures discountPercentage == MortgagePercentage(product)
  {
    discountPercentage := 0.0;
    if product.productName.value == "ANNUITY" && product.durationInMonths.value == 360 {
      discountPercentage := discountPercentage + 0.01 * product.durationInMonths.value as real;
    }
  }

  // ---------------------------------------------------------------------------
  // Life insurance

  /** `compareTo(100_000) >= 1`: an insured amount strictly above 100 000. */
  predicate LifeInsuranceEligible(p: LifeInsuranceProduct) {
    p.insuredAmount.Some? && p.insuredAmount.value > 100000.0
  }

  /** 0 unless eligible; then 3 for a customer older than 20 whole years on `today`, else 1. */
  function DetermineLifeInsuranceDiscountPercentage(product: LifeInsuranceProduct, today: Date): (r: real)
    requires LifeInsuranceReady(product)
    ensures r == 0.0 || r == 1.0 || r == 3.0
    ensures r != 0.0 <==> LifeInsuranceEligible(product)
    ensures r == 3.0 <==> (LifeInsuranceEligible(product)
                           && WholeYearsBetween(product.birthdateInsuredCustomer.value, today) > 20)
  {
    if product.insuredAmount != None && product.insuredAmount.value > 100000.0 then
      if WholeYearsBetween(product.birthdateInsuredCustomer.value, today) > 20 then 3.0 else 1.0
    else
      0.0
  }

  // ---------------------------------------------------------------------------
  // Dispatch on the product type

  /** Every rule yields between 0 and 3.6 points, and a non-life product yields none. */
  function Percentage(p: Product, today: Date): (r: real)
    requires Ready(p)
    ensures 0.0 <= r <= 3.6
    ensures p.NonLifeInsurance? ==> r == 0.0
  {
    match p.Type()
    case PENSION => PensionPercentage(p)
    case MORTGAGE => MortgagePercentage(p)
    case LIFE_INSURANCE => DetermineLifeInsuranceDiscountPercentage(p, today)
    case NON_LIFE_INSURANCE => 0.0
  }

  method DetermineDiscountPercentage(product: Product, today: Date) returns (r: real)
    requires Ready(product)
    ensures r == Percentage(product, today)
  {
    match product.Type()
    case PENSION =>
      r := DeterminePensionDiscountPercentage(product);
    case MORTGAGE =>
      r := DetermineMortgageDiscountPercentage(product);
    case LIFE_INSURANCE =>
      r := DetermineLifeInsuranceDiscountPercentage(product, today);
    case NON_LIFE_INSURANCE =>
      r := 0.0;
  }

  // ---------------------------------------------------------------------------
  // Final amount

  /**
    * `maximizeAt(1000)`, `roundUp()`, `divideBy(100)`: one unit per hundred of
    * capped commission. From the commission floor of 50 on, the base is a
    * whole number from 1 to 10; it is 10 from 1000 on.
    */
  function DiscountBase(commission: real): (r: real)
    ensures commission >= 50.0 ==> r == r.Floor as real && 1.0 <= r <= 10.0
    ensures commission >= 1000.0 ==> r == 10.0
  {
    CappedHundredthsRange(commission);
    DivideBy(100, RoundUp(MaximizeAt(1000, commission)))
  }

  /** A larger commission never gives a smaller base. */
  lemma DiscountBaseMonotone(c1: real, c2: real)
    requires c1 <= c2
    ensures DiscountBase(c1) <= DiscountBase(c2)
  {
    var capped1, capped2 := MaximizeAt(1000, c1), MaximizeAt(1000, c2);
    RoundHalfUpMonotone(capped1, capped2);
    var rounded1, rounded2 := RoundUp(capped1), RoundUp(capped2);
    assert rounded1 / 100.0 <= rounded2 / 100.0;
    RoundHalfUpMonotone(rounded1 / 100.0, rounded2 / 100.0);
  }

  /** `calculateDiscount(amount, discountPercentage)`: nothing without a commission of at least 50 or without a percentage. */
  function DiscountAmount(amount: Option<real>, discountPercentage: Option<real>): (r: real)
    ensures r != 0.0 ==> amount.Some? && amount.value >= 50.0 && discountPercentage.Some?
  {
    if amount.Some? && amount.value >= 50.0 && discountPercentage.Some? then
      DiscountBase(amount.value) * discountPercentage.value
    else
      0.0
  }

  method CalculateDiscount(amount: Option<real>, discountPercentage: Option<real>) returns (r: real)
    ensures r == DiscountAmount(amount, discountPercentage)
  {
    if amount.Some? && amount.value >= 50.0 {
      var baseAmount := amount.value;
      if baseAmount > 1000.0 {
        baseAmount := 1000.0;
      }
      if discountPercentage.Some? {
        return DivideBy(100, RoundUp(baseAmount)) * discountPercentage.value;
      }
    }
    return 0.0;
  }

  /**
    * For a non-negative percentage the amount is between 0 and 10 times the
    * percentage, and exactly 10 times it once the commission reaches 1000.
    */
  lemma DiscountAmountBounds(c: real, p: real)
    requires p >= 0.0
    ensures 0.0 <= DiscountAmount(Some(c), Some(p)) <= 10.0 * p
    ensures c >= 1000.0 ==> DiscountAmount(Some(c), Some(p)) == 10.0 * p
  {
    if c >= 50.0 {
      var b := DiscountBase(c);
      ScaleWithinTen(DiscountAmount(Some(c), Some(p)), b, p);
    }
  }

  // ---------------------------------------------------------------------------
  // The accumulator loop

  /** `yearlyCommission == null ? ZERO : yearlyCommission` */
  function CommissionOrZero(p: Product): real {
    OrZero(p.yearlyCommission)
  }

  function TotalCommission(products: seq<Product>): real {
    SumBy(products, CommissionOrZero)
  }

  /** The per-product percentage, defined where the service runs without a null dereference. */
  function PercentageAt(today: Date): Product --> real {
    p requires Ready(p) => Percentage(p, today)
  }

  predicate AllReady(products: seq<Product>) {
    forall i :: 0 <= i < |products| ==> Ready(products[i])
  }

  lemma AllReadyDefinesPercentage(products: seq<Product>, today: Date)
    requires AllReady(products)
    ensures DefinedOn(PercentageAt(today), products)
  {
  }

  /** The percentages summed over the list: between 0 and 3.6 points per product. */
  function TotalPercentage(products: seq<Product>, today: Date): (r: real)
    requires AllReady(products)
    ensures 0.0 <= r <= 3.6 * |products| as real
  {
    AllReadyDefinesPercentage(products, today);
    SumByBounds(products, PercentageAt(today), 0.0, 3.6);
    SumBy(products, PercentageAt(today))
  }

  /**
    * What `determineDiscount` returns for a list it can process: nothing for
    * an empty list or a total commission under 50.
    */
  function Discount(products: seq<Product>, today: Date): (r: real)
    requires AllReady(products)
    ensures products == [] ==> r == 0.0
    ensures TotalCommission(products) < 50.0 ==> r == 0.0
  {
    DiscountAmount(Some(TotalCommission(products)), Some(TotalPercentage(products, today)))
  }

  method DetermineDiscount(products: seq<Product>, today: Date) returns (discount: real)
    requires AllReady(products)
    ensures discount == Discount(products, today)
  {
    var discountPercentage := 0.0;
    var commission := 0.0;
    for i := 0 to |products|
      invariant discountPercentage == TotalPercentage(products[..i], today)
      invariant commission == TotalCommission(products[..i])
    {
      var percentage := DetermineDiscountPercentage(products[i], today);
      discountPercentage := discountPercentage + percentage;
      commission := commission + (if products[i].yearlyCommission == None then 0.0
                                  else products[i].yearlyCommission.value);
      assert products[..i + 1][..i] == products[..i];
    }
    assert products[..|products|] == products;
    discount := CalculateDiscount(Some(commission), Some(discountPercentage));
  }

  // ---------------------------------------------------------------------------
  // Properties of the whole computation

  /** The discount is non-negative and at most 36 per product (3.6 points on a base of at most 10). */
  lemma DiscountBounds(products: seq<Product>, today: Date)
    requires AllReady(products)
    ensures 0.0 <= Discount(products, today) <= 36.0 * |products| as real
  {
    DiscountAmountBounds(TotalCommission(products), TotalPercentage(products, today));
  }

  /** Reordering the products does not change the discount. */
  lemma DiscountIsOrderIndependent(products: seq<Product>, reordered: seq<Product>, today: Date)
    requires AllReady(products)
    requires multiset(products) == multiset(reordered)
    ensures AllReady(reordered)
    ensures TotalCommission(reordered) == TotalCommission(products)
    ensures TotalPercentage(reordered, today) == TotalPercentage(products, today)
    ensures Discount(reordered, today) == Discount(products, today)
  {
    forall i | 0 <= i < |reordered|
      ensures Ready(reordered[i])
    {
      assert reordered[i] in multiset(products);
    }
    SumByPermutation(products, reordered, CommissionOrZero);
    SumByPermutation(products, reordered, PercentageAt(today));
  }
}
