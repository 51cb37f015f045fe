/**
 * `TransactionType.getPriority`: the rank that orders the report, lower ranks
 * first.
 */
module Priority {
  import opened Wrappers
  import opened TransactionTypes

  /**
   * `getPriority` as written. Its first test, `type is [TransactionType.Penalties]`,
   * asks whether the category is the very list object built for the test, which
   * never holds; no later test names `Penalties`, so the function falls off its
   * end and returns `None` for it.
   */
  function GetPriority(t: TransactionType): (p: Option<int>)
    ensures p.None? <==> t == Penalties
    ensures p.Some? ==> 2 <= p.value <= 5
  {
    if t == Restaurants || t == Entertainment || t == Cab then Some(2)
    else if t == Shopping then Some(3)
    else if t == ATM || t == Other then Some(4)
    else if t == Rent || t == Utilities || t == Fuel then Some(5)
    else assert t.Penalties?; None
  }

  /** The rank of each category, in both directions. */
  lemma PriorityTable(t: TransactionType)
    ensures GetPriority(t) == Some(2) <==> t == Restaurants || t == Entertainment || t == Cab
    ensures GetPriority(t) == Some(3) <==> t == Shopping
    ensures GetPriority(t) == Some(4) <==> t == ATM || t == Other
    ensures GetPriority(t) == Some(5) <==> t == Rent || t == Utilities || t == Fuel
    ensures GetPriority(t) == None <==> t == Penalties
  {
  }

  /** The ranking the first test evidently means: penalties first, with rank 1. */
  function IntendedPriority(t: TransactionType): (p: int)
    ensures 1 <= p <= 5
    ensures p == 1 <==> t == Penalties
    ensures t != Penalties ==> GetPriority(t) == Some(p)
  {
    if t == Penalties then 1 else GetPriority(t).value
  }

  /** As written, penalties get no rank at all, where rank 1 was meant; every other rank is as meant. */
  lemma PenaltiesRankLost()
    ensures GetPriority(Penalties) == None && IntendedPriority(Penalties) == 1
    ensures forall t :: t != Penalties ==> GetPriority(t) == Some(IntendedPriority(t))
  {
  }
}
