/**
 * The two loops of `main` that involve the classifier: the loop that classifies
 * each CSV row before it is stored, and the loop over the per-category summary
 * rows that gathers the budgeting tips.
 */
module Report {
  import opened Wrappers
  import opened Text
  import opened TransactionTypes
  import opened Classifier
  import opened Priority

  // ---------------------------------------------------------------------------
  // Storing classified rows
  // ---------------------------------------------------------------------------

  /** One input row: date, description and amount (in cents, already parsed). */
  datatype CsvRow = CsvRow(date: string, description: string, amount: int)

  /**
   * One record of the expenses table: the stripped fields, the category stored
   * as its integer value, and the stored priority (`None` is SQL `NULL`).
   */
  datatype Expense = Expense(date: string, description: string, amount: int, typeValue: int, priority: Option<int>)

  /**
   * The record inserted for one row: the description is stripped and
   * classified, the category is stored as its value, the priority alongside.
   */
  function StoreRow(row: CsvRow): (e: Expense)
    ensures e.date == Strip(row.date) && e.description == Strip(row.description) && e.amount == row.amount
    ensures FromOrdinal(e.typeValue) == Some(GetType(e.description))
    ensures e.priority == GetPriority(GetType(e.description))
    ensures e.priority.None? <==> Contains(Lower(e.description), "late")
  {
    var description := Strip(row.description);
    var t := GetType(description);
    OrdinalRoundTrip(t);
    PenaltiesIffLate(description);
    Expense(Strip(row.date), description, row.amount, Ordinal(t), GetPriority(t))
  }

  /** Classifies every row, in order, giving the records inserted into the table. */
  method ClassifyRows(rows: seq<CsvRow>) returns (table: seq<Expense>)
    ensures |table| == |rows|
    ensures forall i :: 0 <= i < |rows| ==> table[i] == StoreRow(rows[i])
  {
    table := [];
    for i := 0 to |rows|
      invariant |table| == i
      invariant forall k :: 0 <= k < i ==> table[k] == StoreRow(rows[k])
    {
      var row := rows[i];
      var description := Strip(row.description);
      var t := GetType(description);
      table := table + [Expense(Strip(row.date), description, row.amount, Ordinal(t), GetPriority(t))];
    }
  }

  // ---------------------------------------------------------------------------
  // Report order
  // ---------------------------------------------------------------------------

  /** One row of the grouped report: category, number of transactions, total and monthly spend in cents. */
  datatype CategoryRow = CategoryRow(category: TransactionType, count: nat, expenditure: int, monthly: int)

  /** Row `a` may precede row `b`: lower rank first, then the larger total first. */
  predicate ReportsBefore(a: CategoryRow, b: CategoryRow) {
    var pa, pb := IntendedPriority(a.category), IntendedPriority(b.category);
    pa < pb || (pa == pb && a.expenditure >= b.expenditure)
  }

  /** The order `ORDER BY priority ASC, Expenditure DESC` asks for, with the intended ranks. */
  predicate ReportOrdered(rows: seq<CategoryRow>) {
    forall i, j :: 0 <= i < j < |rows| ==> ReportsBefore(rows[i], rows[j])
  }

  /** The position of a stored priority in ascending SQL order: `NULL` sorts before every number. */
  function SqlRank(p: Option<int>): int {
    if p.None? then 0 else p.value
  }

  /**
   * Sorting the stored priorities in ascending SQL order ranks the categories
   * exactly as the intended priorities do: the `NULL` stored for penalties
   * still sorts first.
   */
  lemma StoredOrderIsIntended(a: TransactionType, b: TransactionType)
    ensures SqlRank(GetPriority(a)) < SqlRank(GetPriority(b)) <==> IntendedPriority(a) < IntendedPriority(b)
    ensures SqlRank(GetPriority(a)) == SqlRank(GetPriority(b)) <==> IntendedPriority(a) == IntendedPriority(b)
  {
    if a != Penalties {
      assert GetPriority(a) == Some(IntendedPriority(a));
    }
    if b != Penalties {
      assert GetPriority(b) == Some(IntendedPriority(b));
    }
  }

  /** In report order, no other category comes before a penalties row. */
  lemma PenaltiesReportedFirst(rows: seq<CategoryRow>, j: nat)
    requires ReportOrdered(rows) && j < |rows| && rows[j].category == Penalties
    ensures forall i :: 0 <= i < j ==> rows[i].category == Penalties
  {
    forall i | 0 <= i < j ensures rows[i].category == Penalties {
      assert ReportsBefore(rows[i], rows[j]);
    }
  }

  // ---------------------------------------------------------------------------
  // Tips
  // ---------------------------------------------------------------------------

  /**
   * The tips the report appends, without their wording. `spent` is the
   * category's total, `perMonth` its monthly figure, `times` its number of
   * transactions, as far as each tip quotes them.
   */
  datatype Tip =
    | PenaltyTip(spent: int)
    | LuxuryIntro
    | RestaurantTip(spent: int, perMonth: int, times: nat)
    | CabTip(spent: int, perMonth: int, times: nat)
    | EntertainmentTip(spent: int)
    | ShoppingIntro
    | ShoppingTip(spent: int, perMonth: int)

  /** The categories the report calls luxuries. */
  predicate IsLuxury(t: TransactionType) {
    t == Restaurants || t == Cab || t == Entertainment
  }

  predicate IsLuxuryTip(tip: Tip) {
    tip.RestaurantTip? || tip.CabTip? || tip.EntertainmentTip?
  }

  /** A tip that quotes an amount spent. */
  predicate QuotesSpending(tip: Tip) {
    !tip.LuxuryIntro? && !tip.ShoppingIntro?
  }

  /** A row that gets a luxury tip, and so is the first to need the luxury intro. */
  predicate OpensLuxury(row: CategoryRow) {
    IsLuxury(row.category) && row.expenditure > 0
  }

  function LuxuryTip(row: CategoryRow): Tip
    requires IsLuxury(row.category)
  {
    if row.category == Restaurants then RestaurantTip(row.expenditure, row.monthly, row.count)
    else if row.category == Cab then CabTip(row.expenditure, row.monthly, row.count)
    else EntertainmentTip(row.expenditure)
  }

  /** The tips one row adds, given whether the luxury intro was already added. */
  function RowTips(row: CategoryRow, introAdded: bool): seq<Tip> {
    if row.category == Penalties && row.expenditure > 0 then [PenaltyTip(row.expenditure)]
    else if IsLuxury(row.category) && row.expenditure > 0 then
      (if introAdded then [] else [LuxuryIntro]) + [LuxuryTip(row)]
    else if row.category == Shopping && row.expenditure > 0 then
      [ShoppingIntro, ShoppingTip(row.expenditure, row.monthly)]
    else []
  }

  /** The tips the rows add, in order, starting with the intro flag `introAdded`. */
  function TipsFrom(rows: seq<CategoryRow>, introAdded: bool): seq<Tip> {
    if rows == [] then []
    else RowTips(rows[0], introAdded) + TipsFrom(rows[1..], introAdded || OpensLuxury(rows[0]))
  }

  /** The tips of a whole report. */
  function Tips(rows: seq<CategoryRow>): seq<Tip> {
    TipsFrom(rows, false)
  }

  /** Some row gets a luxury tip. */
  ghost predicate SpendsOnLuxury(rows: seq<CategoryRow>) {
    exists j :: 0 <= j < |rows| && OpensLuxury(rows[j])
  }

  /** The rows up to and including `i` spend on luxuries exactly when those before `i` do or row `i` does. */
  lemma SpendsOnLuxurySnoc(rows: seq<CategoryRow>, i: nat)
    requires i < |rows|
    ensures SpendsOnLuxury(rows[..i + 1]) <==> SpendsOnLuxury(rows[..i]) || OpensLuxury(rows[i])
  {
    if SpendsOnLuxury(rows[..i + 1]) && !OpensLuxury(rows[i]) {
      var j :| 0 <= j < i + 1 && OpensLuxury(rows[..i + 1][j]);
      assert rows[..i][j] == rows[j];
    }
    if SpendsOnLuxury(rows[..i]) {
      var j :| 0 <= j < i && OpensLuxury(rows[..i][j]);
      assert rows[..i + 1][j] == rows[j];
    }
    if OpensLuxury(rows[i]) {
      assert rows[..i + 1][i] == rows[i];
    }
  }

  /** Unfolding the tips of the rows from `i` on by one row. */
  lemma TipsFromStep(rows: seq<CategoryRow>, i: nat, added: bool)
    requires i < |rows|
    ensures TipsFrom(rows[i..], added) == RowTips(rows[i], added) + TipsFrom(rows[i + 1..], added || OpensLuxury(rows[i]))
  {
    assert rows[i..][0] == rows[i] && rows[i..][1..] == rows[i + 1..];
  }

  /**
   * The body of the report loop for one row: appends the row's tips to `tips`,
   * adding the luxury intro first when `luxuriesStatementAdded` is still false.
   */
  method AddRowTips(tips: seq<Tip>, luxuriesStatementAdded: bool, row: CategoryRow)
    returns (tips': seq<Tip>, luxuriesStatementAdded': bool)
    ensures tips' == tips + RowTips(row, luxuriesStatementAdded)
    ensures luxuriesStatementAdded' == (luxuriesStatementAdded || OpensLuxury(row))
  {
    tips', luxuriesStatementAdded' := tips, luxuriesStatementAdded;
    if row.category == Penalties && row.expenditure > 0 {
      tips' := tips' + [PenaltyTip(row.expenditure)];
    } else if IsLuxury(row.category) && row.expenditure > 0 {
      if !luxuriesStatementAdded' {
        tips' := tips' + [LuxuryIntro];
        luxuriesStatementAdded' := true;
      }
      if row.category == Restaurants {
        tips' := tips' + [RestaurantTip(row.expenditure, row.monthly, row.count)];
      } else if row.category == Cab {
        tips' := tips' + [CabTip(row.expenditure, row.monthly, row.count)];
      } else if row.category == Entertainment {
        tips' := tips' + [EntertainmentTip(row.expenditure)];
      }
    } else if row.category == Shopping && row.expenditure > 0 {
      tips' := tips' + [ShoppingIntro];
      tips' := tips' + [ShoppingTip(row.expenditure, row.monthly)];
    }
  }

  /**
   * The state of the report loop after the first `i` rows: `tips` followed by
   * the tips of the remaining rows gives the whole report, and the flag says
   * whether one of the first `i` rows got a luxury tip.
   */
  ghost predicate LoopState(rows: seq<CategoryRow>, i: nat, tips: seq<Tip>, luxuriesStatementAdded: bool) {
    i <= |rows| &&
    tips + TipsFrom(rows[i..], luxuriesStatementAdded) == Tips(rows) &&
    luxuriesStatementAdded == SpendsOnLuxury(rows[..i])
  }

  lemma LoopStart(rows: seq<CategoryRow>)
    ensures LoopState(rows, 0, [], false)
  {
    assert rows[0..] == rows;
  }

  lemma LoopStep(rows: seq<CategoryRow>, i: nat, tips: seq<Tip>, added: bool, tips': seq<Tip>, added': bool)
    requires i < |rows| && LoopState(rows, i, tips, added)
    requires tips' == tips + RowTips(rows[i], added) && added' == (added || OpensLuxury(rows[i]))
    ensures LoopState(rows, i + 1, tips', added')
  {
    TipsFromStep(rows, i, added);
    SpendsOnLuxurySnoc(rows, i);
  }

  lemma LoopEnd(rows: seq<CategoryRow>, tips: seq<Tip>, added: bool)
    requires LoopState(rows, |rows|, tips, added)
    ensures tips == Tips(rows)
  {
    assert rows[|rows|..] == [];
  }

  /**
   * The report loop: walks the rows in report order and appends their tips;
   * `luxuriesStatementAdded` records whether an earlier row got a luxury tip.
   */
  method CollectTips(rows: seq<CategoryRow>) returns (tips: seq<Tip>)
    ensures tips == Tips(rows)
  {
    tips := [];
    var luxuriesStatementAdded := false;
    LoopStart(rows);
    for i := 0 to |rows|
      invariant LoopState(rows, i, tips, luxuriesStatementAdded)
    {
      ghost var tips0, added0 := tips, luxuriesStatementAdded;
      tips, luxuriesStatementAdded := AddRowTips(tips, luxuriesStatementAdded, rows[i]);
      LoopStep(rows, i, tips0, added0, tips, luxuriesStatementAdded);
    }
    LoopEnd(rows, tips, luxuriesStatementAdded);
  }

  // ---------------------------------------------------------------------------
  // Properties of the tips
  // ---------------------------------------------------------------------------

  /** A row that gets any tip at all. */
  predicate GetsTip(row: CategoryRow) {
    (row.category == Penalties || IsLuxury(row.category) || row.category == Shopping) && row.expenditure > 0
  }

  lemma SpendsOnLuxuryCons(rows: seq<CategoryRow>)
    requires rows != []
    ensures SpendsOnLuxury(rows) <==> OpensLuxury(rows[0]) || SpendsOnLuxury(rows[1..])
  {
    if SpendsOnLuxury(rows[1..]) {
      var j :| 0 <= j < |rows[1..]| && OpensLuxury(rows[1..][j]);
      assert OpensLuxury(rows[j + 1]);
    }
    if SpendsOnLuxury(rows) && !OpensLuxury(rows[0]) {
      var j :| 0 <= j < |rows| && OpensLuxury(rows[j]);
      assert rows[1..][j - 1] == rows[j];
    }
  }

  /** One row adds the luxury intro exactly when it opens the luxuries and the intro is not yet out. */
  lemma RowIntroCount(row: CategoryRow, added: bool)
    ensures multiset(RowTips(row, added))[LuxuryIntro] == if !added && OpensLuxury(row) then 1 else 0
  {
  }

  lemma {:induction false} IntroCountFrom(rows: seq<CategoryRow>, added: bool)
    ensures multiset(TipsFrom(rows, added))[LuxuryIntro] ==
      if !added && SpendsOnLuxury(rows) then 1 else 0
  {
    if rows != [] {
      var added' := added || OpensLuxury(rows[0]);
      var r, rest := RowTips(rows[0], added), TipsFrom(rows[1..], added');
      assert TipsFrom(rows, added) == r + rest;
      assert multiset(r + rest) == multiset(r) + multiset(rest);
      SpendsOnLuxuryCons(rows);
      RowIntroCount(rows[0], added);
      IntroCountFrom(rows[1..], added');
    }
  }

  /**
   * The luxury intro appears exactly once when some luxury category has a
   * positive total, and not at all otherwise.
   */
  lemma LuxuryIntroOnce(rows: seq<CategoryRow>)
    ensures multiset(Tips(rows))[LuxuryIntro] == if SpendsOnLuxury(rows) then 1 else 0
  {
    IntroCountFrom(rows, false);
  }

  /** What one row adds to the luxury tips, by case. */
  lemma RowTipsLuxury(row: CategoryRow, added: bool)
    ensures var r := RowTips(row, added);
      if OpensLuxury(row) then
        r == (if added then [] else [LuxuryIntro]) + [LuxuryTip(row)] && IsLuxuryTip(LuxuryTip(row))
      else forall m :: 0 <= m < |r| ==> r[m] != LuxuryIntro && !IsLuxuryTip(r[m])
  {
  }

  /**
   * Every luxury intro in `t` is immediately followed by a luxury tip and no
   * luxury tip comes before it; when `added` holds there is no intro at all.
   */
  ghost predicate IntroLeadsLuxury(t: seq<Tip>, added: bool) {
    forall k :: 0 <= k < |t| && t[k] == LuxuryIntro ==>
      !added && k + 1 < |t| && IsLuxuryTip(t[k + 1]) && forall m :: 0 <= m < k ==> !IsLuxuryTip(t[m])
  }

  /** Every luxury tip in `t` comes after an intro, unless one was `added` before `t`. */
  ghost predicate LuxuryIntroduced(t: seq<Tip>, added: bool) {
    forall m :: 0 <= m < |t| && IsLuxuryTip(t[m]) ==> added || exists k :: 0 <= k < m && t[k] == LuxuryIntro
  }

  /** Tips with neither an intro nor a luxury tip. */
  ghost predicate Quiet(r: seq<Tip>) {
    forall m :: 0 <= m < |r| ==> r[m] != LuxuryIntro && !IsLuxuryTip(r[m])
  }

  lemma LeadsAfterOpening(lead: seq<Tip>, tip: Tip, rest: seq<Tip>, added: bool)
    requires lead == if added then [] else [LuxuryIntro]
    requires IsLuxuryTip(tip) && IntroLeadsLuxury(rest, true)
    ensures IntroLeadsLuxury(lead + [tip] + rest, added)
  {
    var t := lead + [tip] + rest;
    assert forall i :: 0 <= i < |rest| ==> t[|lead| + 1 + i] == rest[i];
  }

  lemma LeadsAfterQuiet(r: seq<Tip>, rest: seq<Tip>, added: bool)
    requires Quiet(r) && IntroLeadsLuxury(rest, added)
    ensures IntroLeadsLuxury(r + rest, added)
  {
    var t := r + rest;
    forall k | 0 <= k < |t| && t[k] == LuxuryIntro
      ensures !added && k + 1 < |t| && IsLuxuryTip(t[k + 1]) && forall m :: 0 <= m < k ==> !IsLuxuryTip(t[m])
    {
      assert k >= |r|;
      assert rest[k - |r|] == t[k];
      assert rest[k - |r| + 1] == t[k + 1];
      forall m | 0 <= m < k ensures !IsLuxuryTip(t[m]) {
        if m >= |r| {
          assert rest[m - |r|] == t[m];
        }
      }
    }
  }

  lemma IntroducedAfterOpening(lead: seq<Tip>, tip: Tip, rest: seq<Tip>, added: bool)
    requires lead == if added then [] else [LuxuryIntro]
    ensures LuxuryIntroduced(lead + [tip] + rest, added)
  {
    var t := lead + [tip] + rest;
    if !added {
      assert t[0] == LuxuryIntro;
      forall m | 0 <= m < |t| && IsLuxuryTip(t[m]) ensures exists k :: 0 <= k < m && t[k] == LuxuryIntro {
        assert m != 0;
      }
    }
  }

  lemma IntroducedAfterQuiet(r: seq<Tip>, rest: seq<Tip>, added: bool)
    requires Quiet(r) && LuxuryIntroduced(rest, added)
    ensures LuxuryIntroduced(r + rest, added)
  {
    var t := r + rest;
    forall m | 0 <= m < |t| && IsLuxuryTip(t[m])
      ensures added || exists k :: 0 <= k < m && t[k] == LuxuryIntro
    {
      assert m >= |r|;
      assert rest[m - |r|] == t[m];
      if !added {
        var k' :| 0 <= k' < m - |r| && rest[k'] == LuxuryIntro;
        assert t[k' + |r|] == LuxuryIntro;
      }
    }
  }

  lemma {:induction false} IntroPlacementFrom(rows: seq<CategoryRow>, added: bool)
    ensures IntroLeadsLuxury(TipsFrom(rows, added), added)
    ensures LuxuryIntroduced(TipsFrom(rows, added), added)
  {
    if rows != [] {
      var row, added' := rows[0], added || OpensLuxury(rows[0]);
      var rest := TipsFrom(rows[1..], added');
      IntroPlacementFrom(rows[1..], added');
      RowTipsLuxury(row, added);
      if OpensLuxury(row) {
        var lead: seq<Tip> := if added then [] else [LuxuryIntro];
        assert TipsFrom(rows, added) == lead + [LuxuryTip(row)] + rest;
        LeadsAfterOpening(lead, LuxuryTip(row), rest, added);
        IntroducedAfterOpening(lead, LuxuryTip(row), rest, added);
      } else {
        LeadsAfterQuiet(RowTips(row, added), rest, added);
        IntroducedAfterQuiet(RowTips(row, added), rest, added);
      }
    }
  }

  /**
   * The luxury intro comes immediately before a luxury tip, and no luxury tip
   * comes before it: it introduces the first luxury tip of the report.
   */
  lemma IntroBeforeFirstLuxuryTip(rows: seq<CategoryRow>)
    ensures IntroLeadsLuxury(Tips(rows), false)
    ensures LuxuryIntroduced(Tips(rows), false)
  {
    IntroPlacementFrom(rows, false);
  }

  lemma {:induction false} TipsQuotePositiveFrom(rows: seq<CategoryRow>, added: bool)
    ensures forall tip :: tip in TipsFrom(rows, added) && QuotesSpending(tip) ==> tip.spent > 0
  {
    if rows != [] {
      TipsQuotePositiveFrom(rows[1..], added || OpensLuxury(rows[0]));
    }
  }

  /** Every tip that quotes an amount quotes a positive total: no tip is given for a category without spending. */
  lemma TipsQuotePositive(rows: seq<CategoryRow>)
    ensures forall tip :: tip in Tips(rows) && QuotesSpending(tip) ==> tip.spent > 0
  {
    TipsQuotePositiveFrom(rows, false);
  }

  lemma {:induction false} PenaltyTipsFrom(rows: seq<CategoryRow>, added: bool, e: int)
    ensures PenaltyTip(e) in TipsFrom(rows, added) <==>
      exists j :: 0 <= j < |rows| && rows[j].category == Penalties && rows[j].expenditure == e && e > 0
  {
    if rows != [] {
      PenaltyTipsFrom(rows[1..], added || OpensLuxury(rows[0]), e);
      if j :| 0 <= j < |rows[1..]| && rows[1..][j].category == Penalties && rows[1..][j].expenditure == e && e > 0 {
        assert rows[j + 1] == rows[1..][j];
      }
      if j :| 0 <= j < |rows| && rows[j].category == Penalties && rows[j].expenditure == e && e > 0 {
        if j > 0 {
          assert rows[1..][j - 1] == rows[j];
        }
      }
    }
  }

  lemma {:induction false} LuxuryTipsFrom(rows: seq<CategoryRow>, added: bool, tip: Tip)
    requires IsLuxuryTip(tip)
    ensures tip in TipsFrom(rows, added) <==>
      exists j :: 0 <= j < |rows| && OpensLuxury(rows[j]) && LuxuryTip(rows[j]) == tip
  {
    if rows != [] {
      LuxuryTipsFrom(rows[1..], added || OpensLuxury(rows[0]), tip);
      if j :| 0 <= j < |rows[1..]| && OpensLuxury(rows[1..][j]) && LuxuryTip(rows[1..][j]) == tip {
        assert rows[j + 1] == rows[1..][j];
      }
      if j :| 0 <= j < |rows| && OpensLuxury(rows[j]) && LuxuryTip(rows[j]) == tip {
        if j > 0 {
          assert rows[1..][j - 1] == rows[j];
        }
      }
    }
  }

  /**
   * A luxury tip is given exactly for a luxury row with a positive total, and
   * it quotes that row's own total, monthly figure and count.
   */
  lemma LuxuryTipIffSpending(rows: seq<CategoryRow>, tip: Tip)
    requires IsLuxuryTip(tip)
    ensures tip in Tips(rows) <==>
      exists j :: 0 <= j < |rows| && OpensLuxury(rows[j]) && LuxuryTip(rows[j]) == tip
  {
    LuxuryTipsFrom(rows, false, tip);
  }

  lemma {:induction false} ShoppingTipsOf(rows: seq<CategoryRow>, added: bool, e: int, m: int)
    ensures ShoppingTip(e, m) in TipsFrom(rows, added) <==>
      exists j :: 0 <= j < |rows| && rows[j].category == Shopping && rows[j].expenditure == e && e > 0 &&
        rows[j].monthly == m
  {
    if rows != [] {
      ShoppingTipsOf(rows[1..], added || OpensLuxury(rows[0]), e, m);
      if j :| 0 <= j < |rows[1..]| && rows[1..][j].category == Shopping && rows[1..][j].expenditure == e && e > 0 &&
             rows[1..][j].monthly == m {
        assert rows[j + 1] == rows[1..][j];
      }
      if j :| 0 <= j < |rows| && rows[j].category == Shopping && rows[j].expenditure == e && e > 0 &&
             rows[j].monthly == m {
        if j > 0 {
          assert rows[1..][j - 1] == rows[j];
        }
      }
    }
  }

  /** A shopping tip quoting `e` and `m` is given exactly for a shopping row with positive total `e` and monthly figure `m`. */
  lemma ShoppingTipIffSpending(rows: seq<CategoryRow>, e: int, m: int)
    ensures ShoppingTip(e, m) in Tips(rows) <==>
      exists j :: 0 <= j < |rows| && rows[j].category == Shopping && rows[j].expenditure == e && e > 0 &&
        rows[j].monthly == m
  {
    ShoppingTipsOf(rows, false, e, m);
  }

  /** A penalty tip quoting `e` is given exactly when the penalties total is `e` and positive. */
  lemma PenaltyTipIffSpending(rows: seq<CategoryRow>, e: int)
    ensures PenaltyTip(e) in Tips(rows) <==>
      exists j :: 0 <= j < |rows| && rows[j].category == Penalties && rows[j].expenditure == e && e > 0
  {
    PenaltyTipsFrom(rows, false, e);
  }

  lemma {:induction false} ShoppingTipsFrom(rows: seq<CategoryRow>, added: bool)
    ensures var t := TipsFrom(rows, added);
      forall k :: 0 <= k < |t| && t[k] == ShoppingIntro ==> k + 1 < |t| && t[k + 1].ShoppingTip?
    ensures ShoppingIntro in TipsFrom(rows, added) <==>
      exists j :: 0 <= j < |rows| && rows[j].category == Shopping && rows[j].expenditure > 0
  {
    if rows != [] {
      var r, rest := RowTips(rows[0], added), TipsFrom(rows[1..], added || OpensLuxury(rows[0]));
      var t := r + rest;
      ShoppingTipsFrom(rows[1..], added || OpensLuxury(rows[0]));
      forall k | 0 <= k < |t| && t[k] == ShoppingIntro ensures k + 1 < |t| && t[k + 1].ShoppingTip? {
        if k >= |r| {
          assert rest[k - |r|] == t[k];
          assert rest[k - |r| + 1] == t[k + 1];
        }
      }
      if j :| 0 <= j < |rows[1..]| && rows[1..][j].category == Shopping && rows[1..][j].expenditure > 0 {
        assert rows[j + 1] == rows[1..][j];
      }
      if j :| 0 <= j < |rows| && rows[j].category == Shopping && rows[j].expenditure > 0 {
        if j > 0 {
          assert rows[1..][j - 1] == rows[j];
        }
      }
    }
  }

  /**
   * The shopping intro is always followed at once by the shopping tip, and it
   * appears exactly when shopping has a positive total.
   */
  lemma ShoppingIntroThenTip(rows: seq<CategoryRow>)
    ensures var t := Tips(rows);
      forall k :: 0 <= k < |t| && t[k] == ShoppingIntro ==> k + 1 < |t| && t[k + 1].ShoppingTip?
    ensures ShoppingIntro in Tips(rows) <==>
      exists j :: 0 <= j < |rows| && rows[j].category == Shopping && rows[j].expenditure > 0
  {
    ShoppingTipsFrom(rows, false);
  }

  lemma {:induction false} NoTipsFrom(rows: seq<CategoryRow>, added: bool)
    ensures TipsFrom(rows, added) == [] <==> forall j :: 0 <= j < |rows| ==> !GetsTip(rows[j])
  {
    if rows != [] {
      NoTipsFrom(rows[1..], added || OpensLuxury(rows[0]));
      if forall j :: 0 <= j < |rows[1..]| ==> !GetsTip(rows[1..][j]) {
        forall j | 1 <= j < |rows| ensures !GetsTip(rows[j]) {
          assert rows[j] == rows[1..][j - 1];
        }
      }
    }
  }

  /** The tips are empty exactly when no penalties, luxury or shopping category has a positive total. */
  lemma NoTipsIffNoSpending(rows: seq<CategoryRow>)
    ensures Tips(rows) == [] <==> forall j :: 0 <= j < |rows| ==> !GetsTip(rows[j])
  {
    NoTipsFrom(rows, false);
  }

  /**
   * A report with a penalties, a taxicab and an entertainment total, all
   * positive and in report order: the penalty tip, then the luxury intro once,
   * then one tip per luxury.
   */
  lemma PenaltyCabEntertainmentTips(rows: seq<CategoryRow>, m1: int, m2: int, m3: int)
    requires rows == [CategoryRow(Penalties, 1, 3500, m1), CategoryRow(Cab, 1, 2000, m2),
                      CategoryRow(Entertainment, 1, 1500, m3)]
    ensures ReportOrdered(rows)
    ensures Tips(rows) == [PenaltyTip(3500), LuxuryIntro, CabTip(2000, m2, 1), EntertainmentTip(1500)]
  {
    assert rows[1..] == [rows[1], rows[2]] && rows[1..][1..] == [rows[2]];
    assert TipsFrom([rows[2]], true) == [EntertainmentTip(1500)];
    assert TipsFrom(rows[1..], false) == [LuxuryIntro, CabTip(2000, m2, 1), EntertainmentTip(1500)];
  }

  /** The same categories with negative totals (spending entered as negative amounts) get no tip at all. */
  lemma NegativeTotalsGetNoTips(rows: seq<CategoryRow>, m1: int, m2: int, m3: int)
    requires rows == [CategoryRow(Penalties, 1, -3500, m1), CategoryRow(Cab, 1, -2000, m2),
                      CategoryRow(Entertainment, 1, -1500, m3)]
    ensures Tips(rows) == []
  {
    NoTipsIffNoSpending(rows);
  }
}
