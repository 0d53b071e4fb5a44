# Insurance discount engine

A model of the discount engine of the `monads` repository. Given a customer's list of insurance products (pension, mortgage, life insurance, non-life insurance), the engine works out a discount. First it sums a discount percentage earned product by product and sums the yearly commissions. It then scales the commission, capped at 1000, to a whole base of 1 to 10 and multiplies it by the percentage.

The repository implements the engine twice:

- `DiscountService` is imperative. It uses local variables that are reassigned and a `for` loop that accumulates two totals. In the model, the pension and mortgage rules, the dispatch on product type, `calculateDiscount` and the loop are Dafny methods. Each method is proved equal to a specification function, and the properties are proved about those functions. The life-insurance rule only returns constants and reassigns nothing, so it is a function.
- `DiscountServiceMonadized` rewrites the engine as `Optional` chains and a stream reduction over `BigDecimalUtils` and `ProductUtils`. It is modelled as total functions.

The two services do not agree at every boundary. The model keeps each one as written and proves exactly where they differ.

Modules:

- `Calendar`: dates, and the whole-years count of `Period.between(...).getYears()`.
- `Decimals`: `BigDecimalUtils`. Amounts are exact `real`s, and `HALF_UP` rounds ties away from zero.
- `Products`: the four product records. Every nullable field is an `Option`.
- `ProductUtils`: the null-safe predicates on products.
- `Sums`: left folds over product lists, and their independence from order.
- `DiscountService` and `DiscountServiceMonadized`: the two services.
- `ServiceComparison`: where the two services agree and where they differ.
- `Scenarios`: the repository's test fixtures and what each service gives for them.

`LocalDate.now()` is the parameter `today` throughout.

## Model

| member | source | states |
|---|---|---|
| Calendar.TruncDiv12 | src/main/java/nl/kooi/monads/util/ProductUtils.java:28 | the month difference divided by 12 truncates toward zero: the remainder has the sign of the dividend and is below 12 in size |
| Calendar.TruncDivUnique | src/main/java/nl/kooi/monads/util/ProductUtils.java:28 | exactly one quotient meets the truncating-division remainder bounds, 0..11 for a non-negative dividend and -11..0 for a negative one |
| Calendar.WholeYearsBetween | src/main/java/nl/kooi/monads/util/ProductUtils.java:28 | `Period.between(start, end).getYears()` is never negative when the start comes first and never positive when it comes after the end |
| Calendar.WholeYearsBetweenInOrder | src/main/java/nl/kooi/monads/util/ProductUtils.java:28 | for dates in order, the whole years are the difference of the years, less one when the end's month and day fall earlier in the year than the start's; never negative |
| Calendar.WholeYearsBetweenAntisymmetric | src/main/java/nl/kooi/monads/util/ProductUtils.java:28 | swapping the two dates negates the count of whole years |
| Calendar.WholeYearsToSameDay | src/main/java/nl/kooi/monads/util/ProductUtils.java:28 | from a date to the same day n years later (n of either sign) is exactly n whole years |
| Decimals.IsAtLeast | src/main/java/nl/kooi/monads/util/BigDecimalUtils.java:14-16 | no contract of its own: `compareTo(n) >= 0` as `x >= n`; `IsAtLeastIsInclusive` states its properties |
| Decimals.IsAtLeastIsInclusive | src/main/java/nl/kooi/monads/util/BigDecimalUtils.java:14-16 | `isAtLeast(n)` accepts n itself, rejects everything below n and is upward closed |
| Decimals.MaximizeAt | src/main/java/nl/kooi/monads/util/BigDecimalUtils.java:18-20 | the result is the smaller of the amount and the cap: not above either, equal to one of them, and the amount itself when it is within the cap |
| Decimals.RoundHalfUp | src/main/java/nl/kooi/monads/util/BigDecimalUtils.java:22-24 | the result is an integer within one half of the input, and a tie goes away from zero |
| Decimals.RoundHalfUpUnique | src/main/java/nl/kooi/monads/util/BigDecimalUtils.java:22-24 | the half-up contract has only one solution, so it fixes the result |
| Decimals.RoundHalfUpSymmetric | src/main/java/nl/kooi/monads/util/BigDecimalUtils.java:22-24 | rounding a negated value gives the negated rounding |
| Decimals.RoundHalfUpMonotone | src/main/java/nl/kooi/monads/util/BigDecimalUtils.java:22-24 | rounding preserves order |
| Decimals.RoundUp | src/main/java/nl/kooi/monads/util/BigDecimalUtils.java:22-24 | `setScale(0, HALF_UP)` gives a whole number within one half of the input, and a tie goes away from zero |
| Decimals.RoundUpKeepsIntegers | src/main/java/nl/kooi/monads/util/BigDecimalUtils.java:22-24 | whole numbers are left unchanged, so rounding is idempotent |
| Decimals.DivideBy | src/main/java/nl/kooi/monads/util/BigDecimalUtils.java:26-28 | dividing at scale 0 gives a whole number within one half of the exact quotient, and a tie goes away from zero |
| Decimals.DivideByHundredExamples | src/main/java/nl/kooi/monads/util/BigDecimalUtils.java:26-28 | divided by 100: 50 gives 1, 149 gives 1, 150 gives 2 and 1000 gives 10 |
| Decimals.MultiplyBy | src/main/java/nl/kooi/monads/util/BigDecimalUtils.java:30-32 | a null factor acts as one; otherwise the result is the product |
| Sums.OrZero | src/main/java/nl/kooi/monads/domain/DiscountService.java:29 | a null amount counts as zero and any other amount as itself |
| Sums.SumByPermutation | src/main/java/nl/kooi/monads/domain/DiscountService.java:27-30 | the accumulated sum does not depend on the order of the list |
| Sums.SumByBounds | src/main/java/nl/kooi/monads/domain/DiscountService.java:27-30 | if every term lies in [lo, hi], the sum of n terms lies in [n·lo, n·hi] |
| Products.Product.Type | src/main/java/nl/kooi/monads/domain/product/Product.java:15 | each record reports its own product type, and only that record reports it (both directions) |
| ProductUtils.IsAmountAtLeast | src/main/java/nl/kooi/monads/util/ProductUtils.java:16-22 | false for a null product or a null amount; otherwise true exactly when the amount is at least the bound |
| ProductUtils.HasDate | src/main/java/nl/kooi/monads/util/ProductUtils.java:32-34 | true exactly when the product and the selected date are both present |
| ProductUtils.IsEndDateMoreThanGivenYearsAfterStartDate | src/main/java/nl/kooi/monads/util/ProductUtils.java:24-30 | false when either date is missing; otherwise true exactly when the whole years between the dates exceed the bound |
| ProductUtils.IsEndDateMoreThanGivenYearsIsStrict | src/main/java/nl/kooi/monads/util/ProductUtils.java:24-30 | the bound is strict: exactly n years later fails and n + 1 years later passes |
| ProductUtils.WithProductAsType | src/main/java/nl/kooi/monads/util/ProductUtils.java:36-40 | present exactly when the product is present and of the requested type, and then it is that product |
| DiscountService.PensionReady | src/main/java/nl/kooi/monads/domain/DiscountService.java:57-62 | no contract of its own: the deposit is present, and so is the start date when an end date is, the fields lines 58 and 62 read without a null check |
| DiscountService.MortgageReady | src/main/java/nl/kooi/monads/domain/DiscountService.java:74 | no contract of its own: the name is present, and so is the duration when the name is ANNUITY, the fields line 74 reads without a null check |
| DiscountService.LifeInsuranceReady | src/main/java/nl/kooi/monads/domain/DiscountService.java:84-86 | no contract of its own: an eligible policy has a birthdate, the field line 86 reads without a null check |
| DiscountService.Ready | src/main/java/nl/kooi/monads/domain/DiscountService.java:35-94 | a non-life product can always be processed, and so can a pension with deposit and start date, a mortgage with name and duration, and a life insurance with a birthdate; a pension that can be processed has a deposit, and a mortgage a name |
| DiscountService.PensionPercentage | src/main/java/nl/kooi/monads/domain/DiscountService.java:54-68 | the pension percentage lies between 0 and 3; it is 3 exactly when both the end date and the deposit qualify, and 0 exactly when neither does |
| DiscountService.DeterminePensionDiscountPercentage | src/main/java/nl/kooi/monads/domain/DiscountService.java:54-68 | the step-by-step additions compute the pension percentage |
| DiscountService.PensionPercentageCases | src/main/java/nl/kooi/monads/domain/DiscountService.java:54-68 | the percentage is 0, 1, 2 or 3; it is at least 2 exactly when there is no end date or the end date is more than 20 years after the start; it is odd exactly when the deposit exceeds 300; exactly 20 years does not qualify, and a deposit of exactly 300 earns nothing |
| DiscountService.MortgagePercentage | src/main/java/nl/kooi/monads/domain/DiscountService.java:70-81 | the mortgage percentage is 0 or 3.6, and 3.6 exactly when the name is ANNUITY and the duration is 360 months |
| DiscountService.DetermineMortgageDiscountPercentage | src/main/java/nl/kooi/monads/domain/DiscountService.java:70-81 | the result is 3.6 for an ANNUITY of 360 months and 0 otherwise |
| DiscountService.DetermineLifeInsuranceDiscountPercentage | src/main/java/nl/kooi/monads/domain/DiscountService.java:83-94 | the result is 0, 1 or 3; it is non-zero exactly when more than 100 000 is insured, and 3 exactly when, in addition, the customer is more than 20 whole years old |
| DiscountService.DetermineDiscountPercentage | src/main/java/nl/kooi/monads/domain/DiscountService.java:35-52 | the dispatch on product type returns that type's rule, and 0 for non-life |
| DiscountService.Percentage | src/main/java/nl/kooi/monads/domain/DiscountService.java:35-52 | a product's percentage lies between 0 and 3.6, and is 0 for non-life insurance |
| DiscountService.DiscountBase | src/main/java/nl/kooi/monads/domain/DiscountService.java:97-107 | from a commission of 50 on, the base is a whole number from 1 to 10, and it is 10 from 1000 on |
| DiscountService.DiscountBaseMonotone | src/main/java/nl/kooi/monads/domain/DiscountService.java:96-113 | a larger commission never gives a smaller base |
| DiscountService.CalculateDiscount | src/main/java/nl/kooi/monads/domain/DiscountService.java:96-113 | capping, rounding, dividing and multiplying compute the discount amount; it is 0 when the commission is null or below 50, or when the percentage is null |
| DiscountService.DiscountAmount | src/main/java/nl/kooi/monads/domain/DiscountService.java:96-113 | the amount is non-zero only for a commission of at least 50 with a percentage present |
| DiscountService.DiscountAmountBounds | src/main/java/nl/kooi/monads/domain/DiscountService.java:96-113 | for a percentage p the amount lies between 0 and 10·p, and equals 10·p from a commission of 1000 on |
| DiscountService.DetermineDiscount | src/main/java/nl/kooi/monads/domain/DiscountService.java:23-33 | the loop's two running totals are the sum of the percentages and the sum of the commissions (null as zero), and the result is the discount amount of these totals |
| DiscountService.TotalCommission | src/main/java/nl/kooi/monads/domain/DiscountService.java:25-30 | no contract of its own: the commissions summed left to right, a null one as zero; `SumByPermutation` and `ServiceComparison.CommissionsAgree` state its properties |
| DiscountService.TotalPercentage | src/main/java/nl/kooi/monads/domain/DiscountService.java:24-30 | the summed percentages of n products lie between 0 and 3.6·n |
| DiscountService.Discount | src/main/java/nl/kooi/monads/domain/DiscountService.java:23-33 | an empty list, or total commission below 50, gives no discount |
| DiscountService.DiscountBounds | src/main/java/nl/kooi/monads/domain/DiscountService.java:23-33 | the discount of n products lies between 0 and 36·n |
| DiscountService.DiscountIsOrderIndependent | src/main/java/nl/kooi/monads/domain/DiscountService.java:23-33 | reordering the products changes neither total nor the discount |
| DiscountServiceMonadized.NonNull | src/main/java/nl/kooi/monads/domain/DiscountServiceMonadized.java:51 | the kept amounts are the same set of values as the present ones, and there are no more of them than inputs |
| DiscountServiceMonadized.NonNullCounts | src/main/java/nl/kooi/monads/domain/DiscountServiceMonadized.java:51 | each present amount is kept exactly as many times as it occurs among the inputs |
| DiscountServiceMonadized.NonNullKeepsOrder | src/main/java/nl/kooi/monads/domain/DiscountServiceMonadized.java:51 | filtering a concatenation gives the filtered parts in their order, so the kept amounts keep the input order |
| DiscountServiceMonadized.Reduce | src/main/java/nl/kooi/monads/domain/DiscountServiceMonadized.java:52 | no terms reduce to 0, and non-negative terms to a non-negative total |
| DiscountServiceMonadized.AddAmounts | src/main/java/nl/kooi/monads/domain/DiscountServiceMonadized.java:46-53 | a null or empty list sums to 0; when no present amount is negative, neither is the sum |
| DiscountServiceMonadized.AddAmountsCountsNullAsZero | src/main/java/nl/kooi/monads/domain/DiscountServiceMonadized.java:46-53 | dropping null amounts and then reducing equals the left-fold sum with null as zero; a null list sums to 0 |
| DiscountServiceMonadized.DetermineCommission | src/main/java/nl/kooi/monads/domain/DiscountServiceMonadized.java:42-44 | the result is the left-fold sum of the commissions with null as zero |
| DiscountServiceMonadized.IsEndDateMoreThan20YearsAfterStartDate | src/main/java/nl/kooi/monads/domain/DiscountServiceMonadized.java:91-97 | true exactly when the pension, its start date and its end date are present and the dates are more than 20 whole years apart |
| DiscountServiceMonadized.DetermineEndDateRelatedDiscount | src/main/java/nl/kooi/monads/domain/DiscountServiceMonadized.java:73-78 | 0 or 2, and 2 exactly when there is no end date, or a start date with an end date more than 20 whole years later |
| DiscountServiceMonadized.DetermineMonthlyDepositRelatedDiscount | src/main/java/nl/kooi/monads/domain/DiscountServiceMonadized.java:80-85 | 0 or 1, and 1 exactly when the deposit is present and at least 300 |
| DiscountServiceMonadized.DeterminePensionDiscountPercentage | src/main/java/nl/kooi/monads/domain/DiscountServiceMonadized.java:64-71 | between 0 and 3, and 0 for any product that is not a pension |
| DiscountServiceMonadized.PensionDiscountCases | src/main/java/nl/kooi/monads/domain/DiscountServiceMonadized.java:64-97 | the percentage is 0, 1, 2 or 3; it is at least 2 exactly when the product is a pension with no end date, or with a start date and an end date more than 20 years later; it is odd exactly when it is a pension with a deposit of at least 300 |
| DiscountServiceMonadized.WithLifeInsuranceEligibleForDiscounts | src/main/java/nl/kooi/monads/domain/DiscountServiceMonadized.java:139-145 | present exactly for a life insurance with at least 300 000 insured, and then it is that product |
| DiscountServiceMonadized.IsCustomerAtLeast20Years | src/main/java/nl/kooi/monads/domain/DiscountServiceMonadized.java:133-137 | true exactly when the policy and its birthdate are present and the birthdate is more than 20 whole years before `today` |
| DiscountServiceMonadized.DetermineLifeInsuranceBaseDiscount | src/main/java/nl/kooi/monads/domain/DiscountServiceMonadized.java:120-124 | 0 or 1, and 1 exactly for a life insurance with at least 300 000 insured |
| DiscountServiceMonadized.DetermineAgeBaseLifeInsuranceDiscount | src/main/java/nl/kooi/monads/domain/DiscountServiceMonadized.java:126-131 | 0 or 3, and 3 exactly for a life insurance with at least 300 000 insured whose birthdate is present and more than 20 whole years back |
| DiscountServiceMonadized.DetermineLifeInsuranceDiscountPercentage | src/main/java/nl/kooi/monads/domain/DiscountServiceMonadized.java:115-118 | 0, 1 or 4, and 0 for any product that is not a life insurance |
| DiscountServiceMonadized.LifeInsuranceDiscountCases | src/main/java/nl/kooi/monads/domain/DiscountServiceMonadized.java:115-145 | the percentage is 0, 1 or 4; it is non-zero exactly when the product is a life insurance with at least 300 000 insured, and 4 exactly when, in addition, the birthdate is present and more than 20 whole years back |
| DiscountServiceMonadized.IsAnnuity | src/main/java/nl/kooi/monads/domain/DiscountServiceMonadized.java:158-163 | true exactly when the mortgage is present and its name is ANNUITY |
| DiscountServiceMonadized.HasDurationOf360Months | src/main/java/nl/kooi/monads/domain/DiscountServiceMonadized.java:165-170 | true exactly when the mortgage is present and its duration is 360 |
| DiscountServiceMonadized.DetermineMortgageDiscountPercentage | src/main/java/nl/kooi/monads/domain/DiscountServiceMonadized.java:147-156 | 0 or 3.6, and 0 for any product that is not a mortgage |
| DiscountServiceMonadized.MortgageDiscountCases | src/main/java/nl/kooi/monads/domain/DiscountServiceMonadized.java:147-170 | the percentage is 3.6 exactly when the product is an ANNUITY mortgage of 360 months, and 0 otherwise |
| DiscountServiceMonadized.DetermineDiscountPercentage | src/main/java/nl/kooi/monads/domain/DiscountServiceMonadized.java:55-62 | a product's percentage lies between 0 and 4, and is 0 for non-life insurance |
| DiscountServiceMonadized.DetermineTotalDiscountPercentage | src/main/java/nl/kooi/monads/domain/DiscountServiceMonadized.java:38-40 | the result is the left-fold sum of the per-product percentages |
| DiscountServiceMonadized.CalculateDiscount | src/main/java/nl/kooi/monads/domain/DiscountServiceMonadized.java:172-180 | 0 for a null commission or one below 50; from 1000 on, the percentage times 10 (10 itself for a null percentage) |
| DiscountServiceMonadized.CalculateDiscountCases | src/main/java/nl/kooi/monads/domain/DiscountServiceMonadized.java:172-180 | 0 for a null commission or one below 50; otherwise a whole base from 1 to 10, returned unscaled when the percentage is null and multiplied by the percentage when it is not |
| DiscountServiceMonadized.CalculateDiscountBounds | src/main/java/nl/kooi/monads/domain/DiscountServiceMonadized.java:172-180 | for a percentage p the amount lies between 0 and 10·p |
| DiscountServiceMonadized.NullListIsEmpty | src/main/java/nl/kooi/monads/domain/DiscountServiceMonadized.java:31-53 | a null list gives the same discount as an empty list, namely 0 |
| DiscountServiceMonadized.DetermineDiscountIsOrderIndependent | src/main/java/nl/kooi/monads/domain/DiscountServiceMonadized.java:31-53 | reordering the products changes neither the commission, nor the percentage, nor the discount |
| DiscountServiceMonadized.TotalDiscountPercentageBounds | src/main/java/nl/kooi/monads/domain/DiscountServiceMonadized.java:38-40 | the total percentage of n products lies between 0 and 4·n |
| DiscountServiceMonadized.DetermineDiscount | src/main/java/nl/kooi/monads/domain/DiscountServiceMonadized.java:31-36 | no discount when the commissions, a null one as zero, total less than 50 |
| DiscountServiceMonadized.DetermineDiscountBounds | src/main/java/nl/kooi/monads/domain/DiscountServiceMonadized.java:31-36 | the discount of n products lies between 0 and 40·n |
| ServiceComparison.CalculateDiscountsAgree | src/main/java/nl/kooi/monads/domain/DiscountServiceMonadized.java:172-180 | with a percentage present, both final calculations agree; with a null percentage, `DiscountService` gives 0 but the monadized service gives the unscaled base (at least 1 from a commission of 50 on) |
| ServiceComparison.CommissionsAgree | src/main/java/nl/kooi/monads/domain/DiscountServiceMonadized.java:42-44 | both services compute the same total commission |
| ServiceComparison.PercentagesAgreeAwayFromBoundaries | src/main/java/nl/kooi/monads/domain/DiscountServiceMonadized.java:55-62 | away from the deposit-300 and life-insurance boundaries, both services give a product the same percentage |
| ServiceComparison.PensionRulesDifferAtDeposit300 | src/main/java/nl/kooi/monads/domain/DiscountServiceMonadized.java:80-85 | the pension percentages differ by exactly one point, and only when the deposit is exactly 300 |
| ServiceComparison.LifeInsuranceRulesDiffer | src/main/java/nl/kooi/monads/domain/DiscountServiceMonadized.java:115-145 | both give 0 up to 100 000 insured; between 100 000 and 300 000 only `DiscountService` gives a discount; from 300 000 on the monadized percentage is one more when the customer is over 20, and equal otherwise |
| ServiceComparison.ServicesAgreeAwayFromBoundaries | src/main/java/nl/kooi/monads/domain/DiscountServiceMonadized.java:31-36 | for lists whose products avoid those boundaries, both services give the same discount |
| Scenarios.AgeOfFixture | src/test/java/nl/kooi/monads/domain/DiscountServiceTests.java:187-189 | a birthdate n years back on the same day is n whole years old |
| Scenarios.PensionTests | src/test/java/nl/kooi/monads/domain/DiscountServiceTests.java:39-77 | the pension fixtures give 20, 20, 20, 0 and 0 |
| Scenarios.MortgageTests | src/test/java/nl/kooi/monads/domain/DiscountServiceTests.java:85-113 | the mortgage fixtures give 18, 0 and 0 |
| Scenarios.LifeInsuranceTests | src/test/java/nl/kooi/monads/domain/DiscountServiceTests.java:120-163 | the life-insurance fixtures give 15, 5, 10, 0 and 0 |
| Scenarios.NonLifeTest | src/test/java/nl/kooi/monads/domain/DiscountServiceTests.java:171-176 | a non-life product gives 0 |
| Scenarios.AllProductsTest | src/test/java/nl/kooi/monads/domain/DiscountServiceTests.java:25-33 | one product of each kind gives 86 from `DiscountService` and 66 from the monadized service |
| Scenarios.MonadizedTests | src/test/java/nl/kooi/monads/domain/DiscountServiceTest.java:27-83 | the monadized service gives 3 for the pension, 3.6 for the mortgage, 0 for the life insurance and 0 for the empty non-life product |

## Left out

- `DiscountApi`, `CalculationService` and the Spring, Lombok and logging wiring are not modelled. They hold no discount logic.
- `java.time` is not part of this model. `Period.between(...).getYears()` is written out after the JDK's `LocalDate.until`. A `Date` only constrains its month to 1..12 and its day to 1..31, so month lengths are not checked. The `plusYears`/`minusYears` clamp from 29 February to 28 February is not modelled. The fixtures in `Scenarios` build "n years later" as the same day and month, so their lemmas do not describe the Java tests when `LocalDate.now()` is 29 February. On that day `createPensionProduct(21, 300)` ends on 28 February, only 20 whole years on, and `DiscountService` gives 0 where `Scenarios.PensionTests` states 20.
- `LocalDate.now()` is the parameter `today`.
- `BigDecimal` scale is not modelled. Amounts are exact reals, so 18 and 18.00 are the same value. Comparisons in the source are by `compareTo`, which ignores scale.
- The `Integer` width of `durationInMonths` is not modelled. The only value the rules compare against is 360.
- DiscountService.DeterminePensionDiscountPercentage, DiscountService.DetermineMortgageDiscountPercentage, DiscountService.DetermineLifeInsuranceDiscountPercentage, DiscountService.DetermineDiscountPercentage and DiscountService.DetermineDiscount require the fields the service dereferences without a null check. These are the monthly deposit, and the start date when an end date is present; the product name, and the duration of an ANNUITY; and the birthdate of an eligible life insurance. The null dereference that fails otherwise is not modelled.
- A null product inside a list is not modelled. Both services dereference every element before any null check.
- A null list passed to `DiscountService.determineDiscount` is not modelled. The Java code dereferences it at once; DiscountService.DetermineDiscount takes a `seq`, which cannot be null.
- Decimals.DivideBy requires a non-zero divisor. Java's `divideBy(0)` throws `ArithmeticException`; the only divisor the services pass is 100.
- DiscountService.DetermineDiscountPercentage has no branch for the `return null` after its `switch`. The model's product type has exactly four cases, so that line is unreachable.
- The `product != null` checks inside the `DiscountService` rules are not modelled as branches. Every caller passes an element it has already dereferenced.
- The curried predicates of `ProductUtils` take the product as their last argument.
- The private copies of these helpers in `DiscountServiceMonadized` are not modelled separately: `hasDate`, `isEndDateMoreThanGivenYearsAfterStartDate`, `isAmountAtLeast`, `isAtLeast`, `maximizeAt`, `roundUp`, `divideBy` and `multiplyBy`. They are identical to the `ProductUtils` and `BigDecimalUtils` ones the model uses.

## Findings

| source | as written | input that shows it | evidently intended | confidence | as-written member | corrected member |
|---|---|---|---|---|---|---|
| src/main/java/nl/kooi/monads/domain/DiscountService.java:62 | the pension deposit point needs `compareTo(300) >= 1`, strictly more than 300 | a pension with deposit 300 and an end date 21 years on, commission 1000: 20 | at least 300, as the tests named `...AtLeast300...` and the monadized rule state; the tests assert 30 here, and 96 (= (3 + 3.6 + 3) · 10) for one product of each kind | high (not executed) | DiscountService.PensionPercentageCases | DiscountServiceMonadized.PensionDiscountCases |

The tests disagree with the code in other places too. The model follows the code in each case:

- For one product of each kind, `DiscountService` gives 86 where `DiscountServiceTests.java:32` asserts 96 (`Scenarios.AllProductsTest`). This follows from the finding above.
- `DiscountServiceTest.java:59-71` asserts 3 for a life insurance of 200 000. The monadized service requires at least 300 000 insured and gives 0 (`Scenarios.MonadizedTests`). Which threshold is meant is not clear: `DiscountService` uses more than 100 000, and its tests agree with that.
