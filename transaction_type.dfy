/**
 * The closed set of spending categories (`TransactionType`). The report stores a
 * category as its integer value and later rebuilds the category from it.
 */
module TransactionTypes {
  import opened Wrappers

  datatype TransactionType =
    | Cab
    | Restaurants
    | Shopping
    | Entertainment
    | Rent
    | Utilities
    | Fuel
    | Penalties
    | ATM
    | Other

  /** `type.value`: the integer the enumeration assigns to each category. */
  function Ordinal(t: TransactionType): (n: int)
    ensures 1 <= n <= 10
  {
    match t
    case Cab => 1
    case Restaurants => 2
    case Shopping => 3
    case Entertainment => 4
    case Rent => 5
    case Utilities => 6
    case Fuel => 7
    case Penalties => 8
    case ATM => 9
    case Other => 10
  }

  /**
   * `TransactionType(n)`: the category whose value is `n`; Python raises
   * `ValueError` for any other integer, modelled as `None`.
   */
  function FromOrdinal(n: int): (r: Option<TransactionType>)
    ensures r.Some? <==> 1 <= n <= 10
    ensures r.Some? ==> Ordinal(r.value) == n
  {
    if n == 1 then Some(Cab)
    else if n == 2 then Some(Restaurants)
    else if n == 3 then Some(Shopping)
    else if n == 4 then Some(Entertainment)
    else if n == 5 then Some(Rent)
    else if n == 6 then Some(Utilities)
    else if n == 7 then Some(Fuel)
    else if n == 8 then Some(Penalties)
    else if n == 9 then Some(ATM)
    else if n == 10 then Some(Other)
    else None
  }

  /** Storing a category as its value and reading it back gives the same category. */
  lemma OrdinalRoundTrip(t: TransactionType)
    ensures FromOrdinal(Ordinal(t)) == Some(t)
  {
  }

  /** Distinct categories have distinct values. */
  lemma OrdinalInjective(t: TransactionType, u: TransactionType)
    ensures Ordinal(t) == Ordinal(u) ==> t == u
  {
    OrdinalRoundTrip(t);
    OrdinalRoundTrip(u);
  }
}
