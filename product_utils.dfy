/**
  * `ProductUtils`: null-safe predicates over a product and one of its fields,
  * and narrowing of a product to one record type. The Java versions return a
  * `Predicate<T>`; here the product is the last argument instead. The same
  * three predicates are repeated privately in `DiscountServiceMonadized`.
  */
module ProductUtils {
  import opened Wrappers
  import opened Calendar
  import opened Products
  import Decimals

  /** `isAmountAtLeast(amountFunction, atLeast)`: a null product or a null amount fails. */
  function IsAmountAtLeast<T>(amount: T -> Option<real>, atLeast: int, product: Option<T>): (r: bool)
    ensures product.None? ==> !r
    ensures product.Some? && amount(product.value).None? ==> !r
    ensures product.Some? && amount(product.value).Some? ==>
              (r <==> amount(product.value).value >= atLeast as real)
  {
    match product
    case None => false
    case Some(p) =>
      match amount(p)
      case None => false
      case Some(a) => Decimals.IsAtLeast(atLeast, a)
  }

  /** `hasDate(dateFunction)` */
  function HasDate<T>(date: T -> Option<Date>, product: Option<T>): (r: bool)
    ensures r <==> product.Some? && date(product.value).Some?
  {
    match product
    case None => false
    case Some(p) => date(p) != None
  }

  /**
    * `isEndDateMoreThanGivenYearsAfterStartDate(firstDate, secondDate, moreThan)`:
    * both dates present and strictly more than `moreThan` whole years apart.
    */
  function IsEndDateMoreThanGivenYearsAfterStartDate<T>(
    firstDate: T -> Option<Date>, secondDate: T -> Option<Date>, moreThan: int, product: Option<T>): (r: bool)
    ensures !HasDate(firstDate, product) || !HasDate(secondDate, product) ==> !r
    ensures HasDate(firstDate, product) && HasDate(secondDate, product) ==>
              (r <==> WholeYearsBetween(firstDate(product.value).value, secondDate(product.value).value) > moreThan)
  {
    HasDate(firstDate, product) && HasDate(secondDate, product)
    && WholeYearsBetween(firstDate(product.value).value, secondDate(product.value).value) > moreThan
  }

  /**
    * The comparison is strict: a second date exactly `moreThan` years after the
    * first does not pass, one a year later does.
    */
  lemma IsEndDateMoreThanGivenYearsIsStrict<T>(
    firstDate: T -> Option<Date>, secondDate: T -> Option<Date>, moreThan: int, product: T)
    requires firstDate(product).Some? && secondDate(product).Some?
    ensures secondDate(product).value == SameDayYearsLater(firstDate(product).value, moreThan) ==>
              !IsEndDateMoreThanGivenYearsAfterStartDate(firstDate, secondDate, moreThan, Some(product))
    ensures secondDate(product).value == SameDayYearsLater(firstDate(product).value, moreThan + 1) ==>
              IsEndDateMoreThanGivenYearsAfterStartDate(firstDate, secondDate, moreThan, Some(product))
  {
    WholeYearsToSameDay(firstDate(product).value, moreThan);
    WholeYearsToSameDay(firstDate(product).value, moreThan + 1);
  }

  /** `withProductAsType(product, type)`: the product itself when it is of that record type, else empty. */
  function WithProductAsType(product: Option<Product>, t: ProductType): (r: Option<Product>)
    ensures r.Some? <==> product.Some? && product.value.Type() == t
    ensures r.Some? ==> r == product
  {
    match product
    case Some(p) => if p.Type() == t then product else None
    case None => None
  }
}
