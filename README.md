# RitChallenge expense classifier, in Dafny

RitChallenge reads a CSV file of bank transactions (date, description, amount).
It classifies each transaction into a `TransactionType` from its description,
stores the rows in an in-memory SQLite table with a priority, and prints a
per-category summary followed by budgeting tips.

This project models the core of that program:

- **`TransactionType`** (`transaction_type.dfy`): the ten categories and their
  integer values, which is how a category is stored and read back.
- **`getType`** (`classifier.dfy`):
  - the description is lower-cased;
  - it is split into words on space, `:` and `*` (`text.dfy`);
  - it is tested against an ordered table of nine rules, and the first rule
    that fires decides the category.
  - A *substring* rule looks for a keyword anywhere in the lower-cased text. A
    *word* rule looks for a word equal to the keyword. A description no rule
    matches is `Other`.
  - `classifier_examples.dfy` works through concrete descriptions.
- **`getPriority`** (`priority.dfy`): the rank used to order the report, as
  written, and the ranking its first test evidently intends (see Findings).
- **The two loops of `main` that use these** (`report.dfy`):
  - the loop that strips and classifies each CSV row into the record it stores;
  - the order of the grouped summary rows;
  - the loop over the summary rows that gathers the tips, with its one-shot
    "luxuries" intro flag. This loop is an imperative method proved against a
    recursive specification function. The function's properties are proved as
    lemmas: the intro appears at most once and only right before the first
    luxury tip, tips quote only positive totals, a penalty tip appears exactly
    for a positive penalties total, and so on.

Amounts are integers in cents. A summary row holds the category, the number of
transactions, the total and the monthly total, as the grouped SQL query yields
them.

Two consequences of the code are easy to miss:

- **Dot in a description.** One might expect `NETFLIX.COM` to be
  Entertainment. The code splits only on space, `:` and `*`, so `netflix.com`
  is a single word, the word rule for "netflix" does not fire, and the
  description is not Entertainment
  (`ClassifierExamples.NetflixDotComIsNotEntertainment`).
- **Negative amounts.** One might expect tips for debits written as negative
  amounts. The code gives a tip only when a category's total is greater than
  zero, so negative totals get none (`Report.NegativeTotalsGetNoTips`).

## Model

| member | source | states |
|---|---|---|
| TransactionTypes.Ordinal | RitChallenge/RitChallenge/RitChallenge.py:9-19 | every category has a value between 1 and 10 |
| TransactionTypes.FromOrdinal | RitChallenge/RitChallenge/RitChallenge.py:116 | `TransactionType(n)` finds a category exactly when 1 <= n <= 10, and that category's value is n |
| TransactionTypes.OrdinalRoundTrip | RitChallenge/RitChallenge/RitChallenge.py:87 | a category stored as its value reads back as the same category |
| TransactionTypes.OrdinalInjective | RitChallenge/RitChallenge/RitChallenge.py:9-19 | distinct categories have distinct values |
| Text.Lower | RitChallenge/RitChallenge/RitChallenge.py:22 | lower-casing keeps the length and maps each letter to lower case, leaving the others alone |
| Text.LowerIdempotent | RitChallenge/RitChallenge/RitChallenge.py:22 | lower-casing twice is lower-casing once |
| Text.Strip | RitChallenge/RitChallenge/RitChallenge.py:82-85 | the result is a slice of the input with only whitespace removed at either end, and it neither starts nor ends with whitespace |
| Text.Split | RitChallenge/RitChallenge/RitChallenge.py:23 | splitting gives at least one piece, and no piece holds a separator |
| Text.SplitJoin | RitChallenge/RitChallenge/RitChallenge.py:23 | rejoining the pieces with the separators removed gives back the text |
| Text.SplitWords | RitChallenge/RitChallenge/RitChallenge.py:23 | a string is one of the pieces exactly when it occurs in the text bounded by separators or the ends |
| Text.SplitAtSeparator | RitChallenge/RitChallenge/RitChallenge.py:23 | a word followed by a separator splits off as the first piece |
| Text.Contains | RitChallenge/RitChallenge/RitChallenge.py:24 | defines Python's `item in description`: the keyword occurs at some position of the text |
| Text.ContainsIffPrefixOfSuffix | RitChallenge/RitChallenge/RitChallenge.py:24 | the text contains the keyword exactly when the keyword is a prefix of some suffix of the text |
| Classifier.Rules | RitChallenge/RitChallenge/RitChallenge.py:24-47 | defines the nine rules in the order of the `if`/`elif` chain: each rule's test kind (substring of the text or whole word), its keywords and its category |
| Classifier.Matches | RitChallenge/RitChallenge/RitChallenge.py:24-46 | defines `any(...)` over one rule's keywords: some keyword hits, as a substring or as a word |
| Classifier.FirstMatch | RitChallenge/RitChallenge/RitChallenge.py:24-49 | the result is the position of a rule that matches, and no earlier rule matches; no result means no rule matches |
| Classifier.GetType | RitChallenge/RitChallenge/RitChallenge.py:21-49 | a description is `Other` exactly when no rule fires; otherwise some rule that fires has the category returned |
| Classifier.CategoriesDistinct | RitChallenge/RitChallenge/RitChallenge.py:24-47 | the nine rules have nine distinct categories, none of them `Other` |
| Classifier.WordKeywordsAreWords | RitChallenge/RitChallenge/RitChallenge.py:26-37 | every keyword tested against the words is non-empty and holds no separator |
| Classifier.ClassifiedBy | RitChallenge/RitChallenge/RitChallenge.py:24-49 | rule i decides the category exactly when it fires and no earlier rule does |
| Classifier.PenaltiesIffLate | RitChallenge/RitChallenge/RitChallenge.py:24-25 | a description is `Penalties` exactly when its lower-cased form contains "late" |
| Classifier.CaseInsensitive | RitChallenge/RitChallenge/RitChallenge.py:22 | a description and its lower-cased form get the same category |
| Classifier.WordRuleMatchesWholeWord | RitChallenge/RitChallenge/RitChallenge.py:26-37 | a word keyword matches exactly when it occurs between separators or the ends of the text |
| ClassifierExamples.UberTripIsCab | RitChallenge/RitChallenge/RitChallenge.py:32-33 | "UBER*TRIP" is `Cab`: `*` separates words |
| ClassifierExamples.AtmWithdrawalIsAtm | RitChallenge/RitChallenge/RitChallenge.py:28-29 | "atm: withdrawal" is `ATM`: the split leaves an empty piece between `:` and space |
| ClassifierExamples.AtmosphereIsNotAtm | RitChallenge/RitChallenge/RitChallenge.py:28-29 | "atmosphere" is not `ATM`: word rules need the whole word |
| ClassifierExamples.NetflixDotComIsNotEntertainment | RitChallenge/RitChallenge/RitChallenge.py:34-35 | "netflix.com" is not `Entertainment`: `.` is not a separator |
| ClassifierExamples.ChocolateIsPenalty | RitChallenge/RitChallenge/RitChallenge.py:24-25 | "chocolate" is `Penalties`: "late" is tested as a plain substring |
| ClassifierExamples.AmazonUberIsShopping | RitChallenge/RitChallenge/RitChallenge.py:30-33 | "amazon uber" is `Shopping`: the shopping rule comes before the cab rule |
| ClassifierExamples.ResidentAtmIsRent | RitChallenge/RitChallenge/RitChallenge.py:26-29 | "resident atm" is `Rent`: the rent rule comes before the withdrawal rule |
| ClassifierExamples.ShellMobileGasIsFuel | RitChallenge/RitChallenge/RitChallenge.py:36-39 | "shell mobile gas" is `Fuel`, not `Utilities`: first match wins |
| ClassifierExamples.SahmsPlaceIsRestaurant | RitChallenge/RitChallenge/RitChallenge.py:40-47 | "SAHM'S PLACE" is `Restaurants` once lower-cased |
| ClassifierExamples.CoffeeIsOther | RitChallenge/RitChallenge/RitChallenge.py:48-49 | "Coffee" matches no rule and is `Other` |
| ClassifierExamples.EmptyIsOther | RitChallenge/RitChallenge/RitChallenge.py:48-49 | the empty description is `Other` |
| Priority.GetPriority | RitChallenge/RitChallenge/RitChallenge.py:51-61 | as written: no priority exactly for `Penalties`, and a priority from 2 to 5 for every other category |
| Priority.PriorityTable | RitChallenge/RitChallenge/RitChallenge.py:54-61 | each rank 2, 3, 4 and 5 goes to exactly the categories listed with it |
| Priority.IntendedPriority | RitChallenge/RitChallenge/RitChallenge.py:51-61 | the intended ranking: rank 1 exactly for `Penalties`, otherwise the rank as written |
| Priority.PenaltiesRankLost | RitChallenge/RitChallenge/RitChallenge.py:52-53 | `Penalties` gets no rank where rank 1 is meant, and every other rank is as meant |
| Report.StoreRow | RitChallenge/RitChallenge/RitChallenge.py:82-88 | the stored record has the stripped date and description and the amount; its type value reads back as the description's category; its priority is `getPriority` of that category, which is missing exactly when the description contains "late" |
| Report.ClassifyRows | RitChallenge/RitChallenge/RitChallenge.py:80-88 | one stored record per CSV row, in order |
| Report.ReportOrdered | RitChallenge/RitChallenge/RitChallenge.py:114-115 | defines the report order: lower intended rank first, and within a rank the larger total first |
| Report.StoredOrderIsIntended | RitChallenge/RitChallenge/RitChallenge.py:114-115 | sorting stored priorities in ascending SQL order (NULL first) ranks categories exactly as the intended priorities do |
| Report.PenaltiesReportedFirst | RitChallenge/RitChallenge/RitChallenge.py:114-115 | in report order no other category comes before a penalties row |
| Report.RowTips | RitChallenge/RitChallenge/RitChallenge.py:125-144 | defines the tips one row adds, under the `> 0` guards, with the luxury intro only while the flag is unset |
| Report.TipsFrom | RitChallenge/RitChallenge/RitChallenge.py:114-145 | defines the tips of the rows in order, the flag being set from the first row that gets a luxury tip |
| Report.AddRowTips | RitChallenge/RitChallenge/RitChallenge.py:125-144 | one row's step appends exactly that row's tips and sets the intro flag once a luxury tip is given |
| Report.CollectTips | RitChallenge/RitChallenge/RitChallenge.py:111-145 | the loop gathers exactly the tips the specification function gives for the rows |
| Report.LuxuryIntroOnce | RitChallenge/RitChallenge/RitChallenge.py:129-131 | the luxury intro appears once if some luxury total is positive, and not at all otherwise |
| Report.IntroBeforeFirstLuxuryTip | RitChallenge/RitChallenge/RitChallenge.py:128-140 | the intro is followed at once by a luxury tip, no luxury tip comes before it, and every luxury tip comes after it |
| Report.TipsQuotePositive | RitChallenge/RitChallenge/RitChallenge.py:125-141 | every tip that quotes an amount quotes a positive total |
| Report.PenaltyTipIffSpending | RitChallenge/RitChallenge/RitChallenge.py:125-127 | a penalty tip quoting e is given exactly when the penalties total is e and positive |
| Report.LuxuryTipIffSpending | RitChallenge/RitChallenge/RitChallenge.py:128-140 | a luxury tip is given exactly for a restaurants, cab or entertainment row with a positive total, and it quotes that row's own total, monthly figure and count |
| Report.ShoppingTipIffSpending | RitChallenge/RitChallenge/RitChallenge.py:141-144 | a shopping tip quoting a total and a monthly figure is given exactly for a shopping row with that positive total and that monthly figure |
| Report.ShoppingIntroThenTip | RitChallenge/RitChallenge/RitChallenge.py:141-144 | the shopping intro is followed at once by the shopping tip, and it appears exactly when shopping's total is positive |
| Report.NoTipsIffNoSpending | RitChallenge/RitChallenge/RitChallenge.py:125-144 | there are no tips exactly when no penalties, luxury or shopping total is positive |
| Report.PenaltyCabEntertainmentTips | RitChallenge/RitChallenge/RitChallenge.py:111-145 | positive penalties, cab and entertainment totals give the penalty tip, the intro, then one tip per luxury, in order |
| Report.NegativeTotalsGetNoTips | RitChallenge/RitChallenge/RitChallenge.py:125-141 | the same categories with negative totals give no tips |

## Left out

- The file-path prompt and its retry loop are interactive I/O. The model starts from the rows already read.
- Reading the CSV file is not modelled. `Report.CsvRow` holds the three fields a row yields.
- Parsing the amount with `float(...)`, and `round(..., 2)`, are floating point. Amounts are integers in cents, so rounding is exact.
- The SQLite table is not modelled:
  - `GROUP BY`, `COUNT` and `SUM` are not computed. `Report.CategoryRow` is one grouped row as given.
  - `julianday` and the month estimate are not computed. The monthly total is a field of the row.
  - When every row has the same date, the month span is zero. `SUM(amount)/?` then gives `NULL`, and `round(row[3], 2)` fails before any tip is added. The model's monthly total always has a value, so the model gives tips where the program stops.
  - An input file with no rows also stops the program: the `julianday` query yields no row, so `rows[0][0]` fails before any tip is added. On no rows the model simply gives no tips.
  - `ORDER BY` is stated as the predicate `Report.ReportOrdered`, not computed. Its `NULL`-first rule is modelled by `Report.SqlRank`.
- The printed table and the wording of each tip are output formatting. A tip is a `Report.Tip` value that carries the amounts it quotes.
- Text.Lower: lower-cases ASCII letters only; Python's `str.lower` also maps non-ASCII letters.

## Findings

| source | as written | input that shows it | evidently intended | confidence | as-written member | corrected member |
|---|---|---|---|---|---|---|
| RitChallenge/RitChallenge/RitChallenge.py:52 | `type is [TransactionType.Penalties]` compares the category with a freshly built list by identity, which is never true; no later test names `Penalties`, so `getPriority` returns `None` and a `NULL` priority is stored | `TransactionType.Penalties` | priority 1 for `Penalties` (`type in [...]`, as in the later tests) | high, not executed | Priority.PenaltiesRankLost | Priority.IntendedPriority |

The lost rank does not change the report order: SQLite sorts `NULL` before
every number in ascending order, so penalties still come first
(`Report.StoredOrderIsIntended`). The report order is therefore stated with
the intended ranks.
