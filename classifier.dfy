/**
 * `TransactionType.getType`: a description is lower-cased, split into words on
 * space, colon and asterisk, and tested against an ordered table of rules; the
 * first rule that matches decides the category, and a description that no rule
 * matches is `Other`.
 */
module Classifier {
  import opened Wrappers
  import opened Text
  import opened TransactionTypes

  /**
   * How a rule's keywords are tested: `Substring` looks for the keyword anywhere
   * in the lower-cased description (`item in description`), `Word` looks for a
   * word equal to the keyword (`item in descriptionWords`).
   */
  datatype MatchKind = Substring | Word

  datatype Rule = Rule(kind: MatchKind, keywords: seq<string>, category: TransactionType)

  const ShoppingKeywords: seq<string> :=
    ["target", "walmart", "amazon", "nordstrom", "paypal", "3 sisters"]

  const RestaurantKeywords: seq<string> :=
    ["mesh on mass", "brugge brasserie", "mama carolla's old italian", "recess", "yats",
     "twenty tap", "goose the market", "siam square", "shapiro's delicatessen", "bluebeard",
     "iaria's italian restaurant", "bazbeaux", "union 50", "taste cafe & marketplace",
     "st. elmo steak house", "cafe patachou", "the tamale place", "mug n' bun",
     "the loft at trader's point creamery", "shoefly public house", "scotty's brewhouse",
     "sahm's place", "delicia", "pizzology"]

  /** The rules of `getType`, in the order in which they are tried. */
  const Rules: seq<Rule> := [
    Rule(Substring, ["late"], Penalties),
    Rule(Word, ["firstservice", "resident"], Rent),
    Rule(Word, ["atm"], ATM),
    Rule(Substring, ShoppingKeywords, Shopping),
    Rule(Word, ["uber"], Cab),
    Rule(Word, ["netflix"], Entertainment),
    Rule(Word, ["chevron", "exxon", "shell"], Fuel),
    Rule(Substring, ["mobile gas"], Utilities),
    Rule(Substring, RestaurantKeywords, Restaurants)
  ]

  predicate Hits(kind: MatchKind, keyword: string, text: string, words: seq<string>) {
    match kind
    case Substring => Contains(text, keyword)
    case Word => keyword in words
  }

  /** `any(...)` over a rule's keywords. */
  predicate Matches(rule: Rule, text: string, words: seq<string>) {
    exists k | k in rule.keywords :: Hits(rule.kind, k, text, words)
  }

  /** The position of the first rule that matches, if any. */
  function FirstMatch(rules: seq<Rule>, text: string, words: seq<string>): (r: Option<nat>)
    ensures r.Some? ==> r.value < |rules| && Matches(rules[r.value], text, words)
    ensures forall j :: 0 <= j < |rules| && (r.None? || j < r.value) ==> !Matches(rules[j], text, words)
  {
    if rules == [] then None
    else if Matches(rules[0], text, words) then Some(0)
    else
      match FirstMatch(rules[1..], text, words)
      case None => None
      case Some(i) => Some(i + 1)
  }

  /** Rule `rule` fires on `description`, once the description is lower-cased and split. */
  predicate Applies(rule: Rule, description: string) {
    var text := Lower(description);
    Matches(rule, text, Split(text))
  }

  /** `getType`: the category of the first rule that fires, `Other` when none does. */
  function GetType(description: string): (t: TransactionType)
    ensures t == Other <==> forall i :: 0 <= i < |Rules| ==> !Applies(Rules[i], description)
    ensures t != Other ==> exists i :: 0 <= i < |Rules| && Rules[i].category == t && Applies(Rules[i], description)
  {
    var text := Lower(description);
    match FirstMatch(Rules, text, Split(text))
    case Some(i) => Rules[i].category
    case None => Other
  }

  // ---------------------------------------------------------------------------
  // Properties of the rule table
  // ---------------------------------------------------------------------------

  /** No two rules share a category, and no rule yields `Other`. */
  lemma CategoriesDistinct()
    ensures forall i, j :: 0 <= i < j < |Rules| ==> Rules[i].category != Rules[j].category
    ensures forall i :: 0 <= i < |Rules| ==> Rules[i].category != Other
  {
  }

  /** Word keywords are non-empty and hold no separator, so an empty piece never matches one. */
  lemma WordKeywordsAreWords()
    ensures forall i, k :: 0 <= i < |Rules| && Rules[i].kind == Word && k in Rules[i].keywords ==>
      k != [] && NoSeparator(k)
  {
  }

  /**
   * First match wins: `description` is classified by rule `i` exactly when rule
   * `i` fires and no earlier rule does.
   */
  lemma ClassifiedBy(description: string, i: nat)
    requires i < |Rules|
    ensures GetType(description) == Rules[i].category <==>
      Applies(Rules[i], description) && forall j :: 0 <= j < i ==> !Applies(Rules[j], description)
  {
    CategoriesDistinct();
    var text := Lower(description);
    var r := FirstMatch(Rules, text, Split(text));
    if r.Some? && r.value != i {
      assert Rules[r.value].category != Rules[i].category;
    }
  }

  /** `ClassifiedBy` read forwards, for a description whose lower-cased text and words are known. */
  lemma ClassifiedAt(description: string, text: string, words: seq<string>, i: nat)
    requires Lower(description) == text && Split(text) == words
    requires i < |Rules| && Matches(Rules[i], text, words)
    requires forall j :: 0 <= j < i ==> !Matches(Rules[j], text, words)
    ensures GetType(description) == Rules[i].category
  {
    ClassifiedBy(description, i);
  }

  /**
   * A description whose lower-cased form contains "late" is a penalty, whatever
   * else it contains, and only such descriptions are.
   */
  lemma PenaltiesIffLate(description: string)
    ensures GetType(description) == Penalties <==> Contains(Lower(description), "late")
  {
    ClassifiedBy(description, 0);
    var text := Lower(description);
    assert Rules[0].keywords == ["late"];
    assert Applies(Rules[0], description) <==> Hits(Substring, "late", text, Split(text));
  }

  /** Classification ignores case: the description is lower-cased before any rule is tried. */
  lemma CaseInsensitive(description: string)
    ensures GetType(Lower(description)) == GetType(description)
  {
    LowerIdempotent(description);
  }

  /**
   * A word rule keyword matches only as a whole word: it must occur in the
   * lower-cased description between separators or the ends of the text.
   */
  lemma WordRuleMatchesWholeWord(description: string, i: nat, k: string)
    requires i < |Rules| && Rules[i].kind == Word && k in Rules[i].keywords
    ensures var text := Lower(description);
      Hits(Word, k, text, Split(text)) <==> exists p :: WordAt(text, k, p)
  {
    SplitWords(Lower(description), k);
  }
}
