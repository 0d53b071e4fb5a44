/**
  * The product records. Every field of a Java record may be `null`, so every
  * field is an `Option`. The four records become the four constructors of one
  * datatype; the record types themselves are the subset types below, which is
  * what a cast such as `(PensionProduct) product` narrows to.
  */
module Products {
  import opened Wrappers
  import opened Calendar

  datatype ProductType = PENSION | MORTGAGE | LIFE_INSURANCE | NON_LIFE_INSURANCE

  datatype Product =
    | Pension(productName: Option<string>, startDate: Option<Date>, yearlyCommission: Option<real>,
              monthlyDeposit: Option<real>, endDate: Option<Date>, targetCapital: Option<real>)
    | Mortgage(productName: Option<string>, startDate: Option<Date>, yearlyCommission: Option<real>,
               monthlyPayment: Option<real>, monthlySavingsAmount: Option<real>,
               durationInMonths: Option<int>, interest: Option<real>)
    | LifeInsurance(productName: Option<string>, startDate: Option<Date>, yearlyCommission: Option<real>,
                    insuredAmount: Option<real>, birthdateInsuredCustomer: Option<Date>)
    | NonLifeInsurance(productName: Option<string>, startDate: Option<Date>, yearlyCommission: Option<real>,
                       monthlyPremium: Option<real>)
  {
    /** `productType()`: each record reports one fixed tag, and no two records share one. */
    function Type(): (t: ProductType)
      ensures t == PENSION <==> Pension?
      ensures t == MORTGAGE <==> Mortgage?
      ensures t == LIFE_INSURANCE <==> LifeInsurance?
      ensures t == NON_LIFE_INSURANCE <==> NonLifeInsurance?
    {
      if Pension? then PENSION
      else if Mortgage? then MORTGAGE
      else if LifeInsurance? then LIFE_INSURANCE
      else NON_LIFE_INSURANCE
    }
  }

  type PensionProduct = p: Product | p.Pension?
    witness Pension(None, None, None, None, None, None)
  type MortgageProduct = p: Product | p.Mortgage?
    witness Mortgage(None, None, None, None, None, None, None)
  type LifeInsuranceProduct = p: Product | p.LifeInsurance?
    witness LifeInsurance(None, None, None, None, None)

  // Accessors passed around as method references (`PensionProduct::getEndDate`, ...).

  function YearlyCommission(p: Product): Option<real> { p.yearlyCommission }
  function PensionStartDate(p: PensionProduct): Option<Date> { p.startDate }
  function PensionEndDate(p: PensionProduct): Option<Date> { p.endDate }
  function MonthlyDeposit(p: PensionProduct): Option<real> { p.monthlyDeposit }
  function InsuredAmount(p: LifeInsuranceProduct): Option<real> { p.insuredAmount }
  function BirthdateInsuredCustomer(p: LifeInsuranceProduct): Option<Date> { p.birthdateInsuredCustomer }
}
