/**
  * The products the repository's tests build, and what each service gives for
  * them. `today` stands for `LocalDate.now()`; a fixture built with
  * `plusYears(n)` or `minusYears(n)` is the same day `n` years away.
  */
module Scenarios {
  import opened Wrappers
  import opened Calendar
  import opened Products
  import DS = DiscountService
  import M = DiscountServiceMonadized
  import Decimals
  import Sums

  /** `createPensionProduct(durationInYears, monthlyDeposit)` */
  function PensionFixture(today: Date, durationInYears: Option<int>, monthlyDeposit: real): PensionProduct {
    Pension(Some("pension"), Some(today), Some(1000.0), Some(monthlyDeposit),
            match durationInYears case Some(n) => Some(SameDayYearsLater(today, n)) case None => None,
            Some(500000.0))
  }

  /** `createMortgageProduct(productName, durationInMonths)` */
  function MortgageFixture(today: Date, productName: string, durationInMonths: int): MortgageProduct {
    Mortgage(Some(productName), Some(today), Some(500.0), Some(100.0), Some(150.0), Some(durationInMonths), Some(1.0))
  }

  /** `createLifeInsurance(ageCustomerAtStartDate, yearlyCommission, insuredAmount)` */
  function LifeInsuranceFixture(today: Date, age: int, yearlyCommission: real, insuredAmount: Option<real>): LifeInsuranceProduct {
    LifeInsurance(Some("lifeInsurance"), Some(today), Some(yearlyCommission), insuredAmount,
                  Some(SameDayYearsLater(today, -age)))
  }

  /** `createNonLifeInsurance()` */
  function NonLifeFixture(today: Date): Product {
    NonLifeInsurance(Some("NL"), Some(today), Some(500.0), Some(130.0))
  }

  lemma AgeOfFixture(today: Date, age: int)
    ensures WholeYearsBetween(SameDayYearsLater(today, -age), today) == age
  {
    WholeYearsToSameDay(SameDayYearsLater(today, -age), age);
    assert SameDayYearsLater(SameDayYearsLater(today, -age), age) == today;
  }

  /** A one-product list of `DiscountService`: the product's own commission and percentage. */
  lemma DiscountOfOne(p: Product, today: Date)
    requires DS.Ready(p)
    ensures DS.AllReady([p])
    ensures DS.Discount([p], today)
         == DS.DiscountAmount(Some(DS.CommissionOrZero(p)), Some(DS.Percentage(p, today)))
  {
    assert [p][..0] == [];
    assert Sums.SumBy([p], DS.CommissionOrZero) == Sums.SumBy([], DS.CommissionOrZero) + DS.CommissionOrZero(p);
    assert DS.TotalCommission([p]) == DS.CommissionOrZero(p);
    assert Sums.SumBy([p], DS.PercentageAt(today)) == Sums.SumBy([], DS.PercentageAt(today)) + DS.PercentageAt(today)(p);
    assert DS.TotalPercentage([p], today) == DS.PercentageAt(today)(p) == DS.Percentage(p, today);
  }

  /** A one-product list with a commission from 50 on: the base of that commission times the product's percentage. */
  lemma DiscountOfOneFromFloor(p: Product, today: Date, commission: real, percentage: real)
    requires DS.Ready(p) && p.yearlyCommission == Some(commission) && commission >= 50.0
    requires DS.Percentage(p, today) == percentage
    ensures DS.AllReady([p])
    ensures DS.Discount([p], today) == DS.DiscountBase(commission) * percentage
  {
    DiscountOfOne(p, today);
    assert DS.CommissionOrZero(p) == commission;
    AmountFromFloor(commission, percentage);
  }

  /** From a commission of 50 on, with a percentage present, the amount is the base times the percentage. */
  lemma AmountFromFloor(commission: real, percentage: real)
    requires commission >= 50.0
    ensures DS.DiscountAmount(Some(commission), Some(percentage)) == DS.DiscountBase(commission) * percentage
  {
    assert Some(commission).value == commission && Some(percentage).value == percentage;
  }

  /** A one-product list of the monadized service, likewise. */
  lemma DetermineDiscountOfOne(p: Product, today: Date)
    ensures M.DetermineDiscount(Some([p]), today)
         == M.CalculateDiscount(Some(Sums.OrZero(p.yearlyCommission)), Some(M.DetermineDiscountPercentage(p, today)))
  {
    M.AddAmountsCountsNullAsZero([p], YearlyCommission);
    M.AddAmountsCountsNullAsZero([p], M.PercentageOf(today));
    assert [p][..0] == [];
  }

  /** A sum over four products, written out. */
  lemma SumOfFour(a: Product, b: Product, c: Product, d: Product, f: Product --> real)
    requires f.requires(a) && f.requires(b) && f.requires(c) && f.requires(d)
    ensures Sums.DefinedOn(f, [a, b, c, d])
    ensures Sums.SumBy([a, b, c, d], f) == f(a) + f(b) + f(c) + f(d)
  {
    assert [a, b, c, d][..3] == [a, b, c];
    assert [a, b, c][..2] == [a, b];
    assert [a, b][..1] == [a];
    assert [a][..0] == [];
    assert Sums.SumBy([a], f) == f(a);
    assert Sums.SumBy([a, b], f) == Sums.SumBy([a], f) + f(b);
    assert Sums.SumBy([a, b, c], f) == Sums.SumBy([a, b], f) + f(c);
    assert Sums.SumBy([a, b, c, d], f) == Sums.SumBy([a, b, c], f) + f(d);
  }

  /** A pension fixture alone: its commission of 1000 gives a base of 10. */
  lemma PensionFixtureDiscount(today: Date, durationInYears: Option<int>, monthlyDeposit: real)
    ensures DS.AllReady([PensionFixture(today, durationInYears, monthlyDeposit)])
    ensures DS.Discount([PensionFixture(today, durationInYears, monthlyDeposit)], today)
         == 10.0 * DS.PensionPercentage(PensionFixture(today, durationInYears, monthlyDeposit))
  {
    var p := PensionFixture(today, durationInYears, monthlyDeposit);
    DiscountOfOne(p, today);
    var percentage := DS.Percentage(p, today);
    assert percentage == DS.PensionPercentage(p);
    DS.PensionPercentageCases(p);
    DS.DiscountAmountBounds(1000.0, percentage);
  }

  /** The percentage `DiscountService` grants a life-insurance fixture whose customer is `age` today. */
  lemma LifeInsuranceFixturePercentage(today: Date, age: int, yearlyCommission: real, insuredAmount: Option<real>)
    ensures DS.DetermineLifeInsuranceDiscountPercentage(LifeInsuranceFixture(today, age, yearlyCommission, insuredAmount), today)
         == if insuredAmount.Some? && insuredAmount.value > 100000.0 then (if age > 20 then 3.0 else 1.0) else 0.0
  {
    AgeOfFixture(today, age);
  }

  /** A life-insurance fixture alone: the base of its commission times the percentage its age and insured amount earn. */
  lemma LifeInsuranceFixtureDiscount(today: Date, age: int, yearlyCommission: real, insuredAmount: Option<real>,
                                     base: real, percentage: real, discount: real)
    requires yearlyCommission >= 50.0 && DS.DiscountBase(yearlyCommission) == base
    requires percentage == if insuredAmount.Some? && insuredAmount.value > 100000.0 then (if age > 20 then 3.0 else 1.0) else 0.0
    requires discount == base * percentage
    ensures DS.AllReady([LifeInsuranceFixture(today, age, yearlyCommission, insuredAmount)])
    ensures DS.Discount([LifeInsuranceFixture(today, age, yearlyCommission, insuredAmount)], today) == discount
  {
    var p := LifeInsuranceFixture(today, age, yearlyCommission, insuredAmount);
    LifeInsuranceFixturePercentage(today, age, yearlyCommission, insuredAmount);
    assert DS.Percentage(p, today) == percentage;
    DiscountOfOneFromFloor(p, today, yearlyCommission, percentage);
  }

  /** With a commission of 100 the monadized base is 1, so a one-product list gives the product's percentage. */
  lemma DetermineDiscountAtCommission100(p: Product, today: Date)
    requires p.yearlyCommission == Some(100.0)
    ensures M.DetermineDiscount(Some([p]), today) == M.DetermineDiscountPercentage(p, today)
  {
    DetermineDiscountOfOne(p, today);
    var percentage := M.DetermineDiscountPercentage(p, today);
    M.CalculateDiscountCases(Some(100.0), Some(percentage));
    Decimals.RoundHalfUpUnique(100.0, 100);
    Decimals.RoundHalfUpUnique(1.0, 1);
    assert Decimals.DivideBy(100, Decimals.RoundUp(Decimals.MaximizeAt(1000, 100.0))) == 1.0;
  }

  /** The bases the fixtures' commissions give: 100 gives 1, 500 gives 5, from 1000 on 10. */
  lemma BasesOfFixtures()
    ensures DS.DiscountBase(100.0) == 1.0
    ensures DS.DiscountBase(500.0) == 5.0
    ensures DS.DiscountBase(1000.0) == 10.0
    ensures DS.DiscountBase(1500.0) == 10.0
    ensures DS.DiscountBase(2500.0) == 10.0
  {
    Decimals.RoundHalfUpUnique(100.0, 100);
    Decimals.RoundHalfUpUnique(1.0, 1);
    Decimals.RoundHalfUpUnique(500.0, 500);
    Decimals.RoundHalfUpUnique(5.0, 5);
  }

  /**
    * The pension tests of `DiscountService`, commission 1000 so a base of 10:
    * 21 years or no end date with a deposit of 300 give 20, where the tests
    * assert 30; 19 years with 300 gives 0, where the tests assert 10; a
    * deposit of 299 gives the asserted 20 and 0.
    */
  lemma PensionTests(today: Date)
    ensures DS.AllReady([PensionFixture(today, Some(21), 300.0)])
         && DS.Discount([PensionFixture(today, Some(21), 300.0)], today) == 20.0
    ensures DS.AllReady([PensionFixture(today, None, 300.0)])
         && DS.Discount([PensionFixture(today, None, 300.0)], today) == 20.0
    ensures DS.AllReady([PensionFixture(today, None, 299.0)])
         && DS.Discount([PensionFixture(today, None, 299.0)], today) == 20.0
    ensures DS.AllReady([PensionFixture(today, Some(19), 300.0)])
         && DS.Discount([PensionFixture(today, Some(19), 300.0)], today) == 0.0
    ensures DS.AllReady([PensionFixture(today, Some(19), 299.0)])
         && DS.Discount([PensionFixture(today, Some(19), 299.0)], today) == 0.0
  {
    WholeYearsToSameDay(today, 21);
    WholeYearsToSameDay(today, 19);
    PensionFixtureDiscount(today, Some(21), 300.0);
    PensionFixtureDiscount(today, None, 300.0);
    PensionFixtureDiscount(today, None, 299.0);
    PensionFixtureDiscount(today, Some(19), 300.0);
    PensionFixtureDiscount(today, Some(19), 299.0);
  }

  /** The mortgage tests of `DiscountService`: ANNUITY over 360 months gives 18 on a commission of 500; SAVINGS or 359 months give 0. */
  lemma MortgageTests(today: Date)
    ensures DS.AllReady([MortgageFixture(today, "ANNUITY", 360)])
         && DS.Discount([MortgageFixture(today, "ANNUITY", 360)], today) == 18.0
    ensures DS.AllReady([MortgageFixture(today, "SAVINGS", 360)])
         && DS.Discount([MortgageFixture(today, "SAVINGS", 360)], today) == 0.0
    ensures DS.AllReady([MortgageFixture(today, "ANNUITY", 359)])
         && DS.Discount([MortgageFixture(today, "ANNUITY", 359)], today) == 0.0
  {
    assert DS.MortgagePercentage(MortgageFixture(today, "ANNUITY", 360)) == 3.6;
    MortgageFixtureDiscount(today, "ANNUITY", 360, 3.6);
    assert DS.MortgagePercentage(MortgageFixture(today, "SAVINGS", 360)) == 0.0;
    MortgageFixtureDiscount(today, "SAVINGS", 360, 0.0);
    assert DS.MortgagePercentage(MortgageFixture(today, "ANNUITY", 359)) == 0.0;
    MortgageFixtureDiscount(today, "ANNUITY", 359, 0.0);
  }

  /** A mortgage fixture alone: its commission of 500 gives a base of 5. */
  lemma MortgageFixtureDiscount(today: Date, productName: string, durationInMonths: int, percentage: real)
    requires DS.MortgagePercentage(MortgageFixture(today, productName, durationInMonths)) == percentage
    ensures DS.AllReady([MortgageFixture(today, productName, durationInMonths)])
    ensures DS.Discount([MortgageFixture(today, productName, durationInMonths)], today) == 5.0 * percentage
  {
    var p := MortgageFixture(today, productName, durationInMonths);
    assert DS.Percentage(p, today) == percentage;
    DiscountOfOneFromFloor(p, today, 500.0, percentage);
    BasesOfFixtures();
  }

  /**
    * The life-insurance tests of `DiscountService`: 150 000 insured gives 15 at
    * age 21 and 5 at age 20 on a commission of 500, and 10 at age 20 on a
    * commission of 1500; 99 000 or no insured amount give 0.
    */
  lemma LifeInsuranceTests(today: Date)
    ensures DS.AllReady([LifeInsuranceFixture(today, 21, 500.0, Some(150000.0))])
         && DS.Discount([LifeInsuranceFixture(today, 21, 500.0, Some(150000.0))], today) == 15.0
    ensures DS.AllReady([LifeInsuranceFixture(today, 20, 500.0, Some(150000.0))])
         && DS.Discount([LifeInsuranceFixture(today, 20, 500.0, Some(150000.0))], today) == 5.0
    ensures DS.AllReady([LifeInsuranceFixture(today, 20, 1500.0, Some(150000.0))])
         && DS.Discount([LifeInsuranceFixture(today, 20, 1500.0, Some(150000.0))], today) == 10.0
    ensures DS.AllReady([LifeInsuranceFixture(today, 21, 500.0, Some(99000.0))])
         && DS.Discount([LifeInsuranceFixture(today, 21, 500.0, Some(99000.0))], today) == 0.0
    ensures DS.AllReady([LifeInsuranceFixture(today, 21, 500.0, None)])
         && DS.Discount([LifeInsuranceFixture(today, 21, 500.0, None)], today) == 0.0
  {
    LifeInsuranceOlderCustomerTest(today);
    LifeInsuranceYoungerCustomerTests(today);
    LifeInsuranceBelowThresholdTests(today);
  }

  lemma LifeInsuranceOlderCustomerTest(today: Date)
    ensures DS.AllReady([LifeInsuranceFixture(today, 21, 500.0, Some(150000.0))])
         && DS.Discount([LifeInsuranceFixture(today, 21, 500.0, Some(150000.0))], today) == 15.0
  {
    BasesOfFixtures();
    LifeInsuranceFixtureDiscount(today, 21, 500.0, Some(150000.0), 5.0, 3.0, 15.0);
  }

  lemma LifeInsuranceYoungerCustomerTests(today: Date)
    ensures DS.AllReady([LifeInsuranceFixture(today, 20, 500.0, Some(150000.0))])
         && DS.Discount([LifeInsuranceFixture(today, 20, 500.0, Some(150000.0))], today) == 5.0
    ensures DS.AllReady([LifeInsuranceFixture(today, 20, 1500.0, Some(150000.0))])
         && DS.Discount([LifeInsuranceFixture(today, 20, 1500.0, Some(150000.0))], today) == 10.0
  {
    BasesOfFixtures();
    LifeInsuranceFixtureDiscount(today, 20, 500.0, Some(150000.0), 5.0, 1.0, 5.0);
    LifeInsuranceFixtureDiscount(today, 20, 1500.0, Some(150000.0), 10.0, 1.0, 10.0);
  }

  lemma LifeInsuranceBelowThresholdTests(today: Date)
    ensures DS.AllReady([LifeInsuranceFixture(today, 21, 500.0, Some(99000.0))])
         && DS.Discount([LifeInsuranceFixture(today, 21, 500.0, Some(99000.0))], today) == 0.0
    ensures DS.AllReady([LifeInsuranceFixture(today, 21, 500.0, None)])
         && DS.Discount([LifeInsuranceFixture(today, 21, 500.0, None)], today) == 0.0
  {
    BasesOfFixtures();
    LifeInsuranceFixtureDiscount(today, 21, 500.0, Some(99000.0), 5.0, 0.0, 0.0);
    LifeInsuranceFixtureDiscount(today, 21, 500.0, None, 5.0, 0.0, 0.0);
  }

  /** A non-life product gives 0. */
  lemma NonLifeTest(today: Date)
    ensures DS.AllReady([NonLifeFixture(today)]) && DS.Discount([NonLifeFixture(today)], today) == 0.0
  {
    DiscountOfOne(NonLifeFixture(today), today);
  }

  /**
    * One product of each kind, commission 2500 so a base of 10: `DiscountService`
    * gives (2 + 3.6 + 3 + 0) * 10 = 86 where the test asserts 96, and the
    * monadized service gives (3 + 3.6 + 0 + 0) * 10 = 66.
    */
  lemma AllProductsTest(today: Date)
    ensures var products := [PensionFixture(today, Some(21), 300.0), MortgageFixture(today, "ANNUITY", 360),
                             LifeInsuranceFixture(today, 21, 500.0, Some(150000.0)), NonLifeFixture(today)];
            && DS.AllReady(products)
            && DS.Discount(products, today) == 86.0
            && M.DetermineDiscount(Some(products), today) == 66.0
  {
    AllProductsDiscountService(today);
    AllProductsMonadized(today);
  }

  lemma AllProductsDiscountService(today: Date)
    ensures var products := [PensionFixture(today, Some(21), 300.0), MortgageFixture(today, "ANNUITY", 360),
                             LifeInsuranceFixture(today, 21, 500.0, Some(150000.0)), NonLifeFixture(today)];
            DS.AllReady(products) && DS.Discount(products, today) == 86.0
  {
    var pension, mortgage := PensionFixture(today, Some(21), 300.0), MortgageFixture(today, "ANNUITY", 360);
    var life, nonLife := LifeInsuranceFixture(today, 21, 500.0, Some(150000.0)), NonLifeFixture(today);
    var products := [pension, mortgage, life, nonLife];
    WholeYearsToSameDay(today, 21);
    AgeOfFixture(today, 21);
    BasesOfFixtures();

    assert DS.AllReady(products);
    SumOfFour(pension, mortgage, life, nonLife, DS.CommissionOrZero);
    SumOfFour(pension, mortgage, life, nonLife, DS.PercentageAt(today));
    assert DS.Percentage(pension, today) == 2.0;
    assert DS.Percentage(mortgage, today) == 3.6;
    assert DS.Percentage(life, today) == 3.0;
    assert DS.TotalCommission(products) == 2500.0;
    assert DS.TotalPercentage(products, today) == 8.6;
  }

  lemma AllProductsMonadized(today: Date)
    ensures var products := [PensionFixture(today, Some(21), 300.0), MortgageFixture(today, "ANNUITY", 360),
                             LifeInsuranceFixture(today, 21, 500.0, Some(150000.0)), NonLifeFixture(today)];
            M.DetermineDiscount(Some(products), today) == 66.0
  {
    var pension, mortgage := PensionFixture(today, Some(21), 300.0), MortgageFixture(today, "ANNUITY", 360);
    var life, nonLife := LifeInsuranceFixture(today, 21, 500.0, Some(150000.0)), NonLifeFixture(today);
    var products := [pension, mortgage, life, nonLife];
    WholeYearsToSameDay(today, 21);

    SumOfFour(pension, mortgage, life, nonLife, M.AbsentAsZero(YearlyCommission));
    SumOfFour(pension, mortgage, life, nonLife, M.AbsentAsZero(M.PercentageOf(today)));
    assert M.DetermineDiscountPercentage(pension, today) == 3.0;
    assert M.DetermineDiscountPercentage(mortgage, today) == 3.6;
    assert M.DetermineDiscountPercentage(life, today) == 0.0;
    assert M.DetermineDiscountPercentage(nonLife, today) == 0.0;
    assert M.DetermineCommission(Some(products)) == 2500.0;
    assert M.DetermineTotalDiscountPercentage(Some(products), today) == 6.6;
    M.CalculateDiscountCases(Some(2500.0), Some(6.6));
  }

  /**
    * The monadized service's own tests, commission 100 so a base of 1: the
    * pension from 2000-01-01 to 2022-01-01 with deposit 400 gives 3, the
    * annuity mortgage 3.6, the empty non-life product 0; the life insurance
    * of 200 000 insured gives 0 where the test asserts 3.
    */
  lemma MonadizedTests(today: Date)
    ensures M.DetermineDiscount(Some([Pension(None, Some(Date(2000, 1, 1)), Some(100.0), Some(400.0),
                                              Some(Date(2022, 1, 1)), None)]), today) == 3.0
    ensures M.DetermineDiscount(Some([Mortgage(Some("ANNUITY"), None, Some(100.0), None, None, Some(360), None)]),
                                today) == 3.6
    ensures M.DetermineDiscount(Some([LifeInsurance(None, None, Some(100.0), Some(200000.0), Some(Date(1970, 1, 1)))]),
                                today) == 0.0
    ensures M.DetermineDiscount(Some([NonLifeInsurance(None, None, None, None)]), today) == 0.0
  {
    var pension := Pension(None, Some(Date(2000, 1, 1)), Some(100.0), Some(400.0), Some(Date(2022, 1, 1)), None);
    var mortgage := Mortgage(Some("ANNUITY"), None, Some(100.0), None, None, Some(360), None);
    var life := LifeInsurance(None, None, Some(100.0), Some(200000.0), Some(Date(1970, 1, 1)));
    var nonLife := NonLifeInsurance(None, None, None, None);
    assert WholeYearsBetween(Date(2000, 1, 1), Date(2022, 1, 1)) == 22;
    assert M.DetermineDiscountPercentage(pension, today) == 3.0;
    DetermineDiscountAtCommission100(pension, today);
    assert M.DetermineDiscountPercentage(mortgage, today) == 3.6;
    DetermineDiscountAtCommission100(mortgage, today);
    assert M.DetermineDiscountPercentage(life, today) == 0.0;
    DetermineDiscountAtCommission100(life, today);
    DetermineDiscountOfOne(nonLife, today);
    M.CalculateDiscountCases(Some(0.0), Some(0.0));
  }
}
