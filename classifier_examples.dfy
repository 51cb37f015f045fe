/**
 * Worked descriptions showing the tokenisation and the order of the rules at
 * work. Each is derived from the general lemmas of `Text` and `Classifier`.
 * The descriptions are passed as parameters fixed by `requires`, which keeps
 * the verifier from unfolding the classifier on a literal all at once.
 */
module ClassifierExamples {
  import opened Text
  import opened TransactionTypes
  import opened Classifier

  lemma TwoWords(text: string, a: string, sep: char, b: string)
    requires NoSeparator(a) && NoSeparator(b) && IsSeparator(sep)
    requires text == a + [sep] + b
    ensures Split(text) == [a, b]
  {
    SplitAtSeparator(a, sep, b);
    SplitWord(b);
  }

  lemma ThreeWords(text: string, a: string, s1: char, b: string, s2: char, c: string)
    requires NoSeparator(a) && NoSeparator(b) && NoSeparator(c)
    requires IsSeparator(s1) && IsSeparator(s2)
    requires text == a + [s1] + (b + [s2] + c)
    ensures Split(text) == [a, b, c]
  {
    SplitAtSeparator(a, s1, b + [s2] + c);
    TwoWords(b + [s2] + c, b, s2, c);
  }

  /** None of the shopping keywords occurs in `text`. */
  predicate NoShoppingKeyword(text: string) {
    forall k :: k in ShoppingKeywords ==> !Contains(text, k)
  }

  // ---------------------------------------------------------------------------
  // "UBER*TRIP"
  // ---------------------------------------------------------------------------

  lemma UberTripLower(d: string)
    requires d == "UBER*TRIP"
    ensures Lower(d) == "uber*trip"
  {
  }

  lemma UberTripWords(text: string)
    requires text == "uber*trip"
    ensures Split(text) == ["uber", "trip"]
  {
    assert text == "uber" + ['*'] + "trip";
    TwoWords(text, "uber", '*', "trip");
  }

  lemma UberTripRules(text: string, words: seq<string>)
    requires text == "uber*trip" && words == ["uber", "trip"]
    ensures Matches(Rules[4], text, words)
    ensures forall j :: 0 <= j < 4 ==> !Matches(Rules[j], text, words)
  {
    AbsentChar(text, "late", 0);
    AbsentChar(text, "target", 1);
    AbsentChar(text, "walmart", 0);
    AbsentChar(text, "amazon", 0);
    AbsentChar(text, "nordstrom", 0);
    AbsentChar(text, "paypal", 1);
    AbsentChar(text, "3 sisters", 0);
    assert Rules[4].keywords[0] == "uber" && Hits(Word, "uber", text, words);
    forall j | 0 <= j < 4 ensures !Matches(Rules[j], text, words) {
      assert j == 0 || j == 1 || j == 2 || j == 3;
    }
  }

  /** "UBER*TRIP": `*` separates words, so the word "uber" makes it a cab ride. */
  lemma UberTripIsCab(d: string)
    requires d == "UBER*TRIP"
    ensures GetType(d) == Cab
  {
    var text, words := "uber*trip", ["uber", "trip"];
    UberTripLower(d);
    UberTripWords(text);
    UberTripRules(text, words);
    ClassifiedAt(d, text, words, 4);
  }

  // ---------------------------------------------------------------------------
  // "atm: withdrawal"
  // ---------------------------------------------------------------------------

  lemma AtmWithdrawalLower(d: string)
    requires d == "atm: withdrawal"
    ensures Lower(d) == d
  {
  }

  lemma AtmWithdrawalWords(d: string)
    requires d == "atm: withdrawal"
    ensures Split(d) == ["atm", "", "withdrawal"]
  {
    var empty: string := [];
    assert d == "atm" + [':'] + (empty + [' '] + "withdrawal");
    ThreeWords(d, "atm", ':', empty, ' ', "withdrawal");
  }

  lemma AtmWithdrawalRules(text: string, words: seq<string>)
    requires text == "atm: withdrawal" && words == ["atm", "", "withdrawal"]
    ensures Matches(Rules[2], text, words)
    ensures forall j :: 0 <= j < 2 ==> !Matches(Rules[j], text, words)
  {
    AbsentChar(text, "late", 3);
    assert Rules[2].keywords[0] == "atm" && Hits(Word, "atm", text, words);
    forall j | 0 <= j < 2 ensures !Matches(Rules[j], text, words) {
      assert j == 0 || j == 1;
    }
  }

  /**
   * "atm: withdrawal": the colon and the space after it are both separators,
   * leaving an empty word between them; the word "atm" makes it a withdrawal.
   */
  lemma AtmWithdrawalIsAtm(d: string)
    requires d == "atm: withdrawal"
    ensures GetType(d) == ATM
  {
    AtmWithdrawalLower(d);
    AtmWithdrawalWords(d);
    AtmWithdrawalRules(d, ["atm", "", "withdrawal"]);
    ClassifiedAt(d, d, ["atm", "", "withdrawal"], 2);
  }

  // ---------------------------------------------------------------------------
  // Words that merely start like a keyword
  // ---------------------------------------------------------------------------

  /** A lower-case description of a single word misses a word rule that does not list that word. */
  lemma OneWordMissesWordRule(d: string, i: nat)
    requires i < |Rules| && Rules[i].kind == Word
    requires Lower(d) == d && NoSeparator(d) && d !in Rules[i].keywords
    ensures GetType(d) != Rules[i].category
  {
    SplitWord(d);
    ClassifiedBy(d, i);
  }

  /** "atmosphere" is one word, not the word "atm", so it is never a withdrawal. */
  lemma AtmosphereIsNotAtm(d: string)
    requires d == "atmosphere"
    ensures GetType(d) != ATM
  {
    LowerOfLowerCase(d);
    OneWordMissesWordRule(d, 2);
  }

  /** '.' is not a separator: "netflix.com" is one word, not the word "netflix". */
  lemma NetflixDotComIsNotEntertainment(d: string)
    requires d == "netflix.com"
    ensures GetType(d) != Entertainment
  {
    LowerOfLowerCase(d);
    OneWordMissesWordRule(d, 5);
  }

  /** "chocolate" contains "late", so the plain substring test makes it a penalty. */
  lemma ChocolateIsPenalty(d: string)
    requires d == "chocolate"
    ensures GetType(d) == Penalties
  {
    LowerOfLowerCase(d);
    assert OccursAt(d, "late", 5);
    PenaltiesIffLate(d);
  }

  // ---------------------------------------------------------------------------
  // Order of the rules
  // ---------------------------------------------------------------------------

  lemma AmazonUberLower(d: string)
    requires d == "amazon uber"
    ensures Lower(d) == d
  {
  }

  lemma AmazonUberRules(text: string, words: seq<string>)
    requires text == "amazon uber" && words == ["amazon", "uber"]
    ensures Matches(Rules[3], text, words)
    ensures forall j :: 0 <= j < 3 ==> !Matches(Rules[j], text, words)
  {
    AbsentChar(text, "late", 0);
    assert OccursAt(text, "amazon", 0);
    assert Rules[3].keywords[2] == "amazon" && Hits(Substring, "amazon", text, words);
    forall j | 0 <= j < 3 ensures !Matches(Rules[j], text, words) {
      assert j == 0 || j == 1 || j == 2;
    }
  }

  /** "amazon uber": the shopping rule comes before the cab rule. */
  lemma AmazonUberIsShopping(d: string)
    requires d == "amazon uber"
    ensures GetType(d) == Shopping
  {
    AmazonUberLower(d);
    assert d == "amazon" + [' '] + "uber";
    TwoWords(d, "amazon", ' ', "uber");
    AmazonUberRules(d, ["amazon", "uber"]);
    ClassifiedAt(d, d, ["amazon", "uber"], 3);
  }

  lemma ResidentAtmLower(d: string)
    requires d == "resident atm"
    ensures Lower(d) == d
  {
  }

  lemma ResidentAtmRules(text: string, words: seq<string>)
    requires text == "resident atm" && words == ["resident", "atm"]
    ensures Matches(Rules[1], text, words)
    ensures forall j :: 0 <= j < 1 ==> !Matches(Rules[j], text, words)
  {
    AbsentChar(text, "late", 0);
    assert Rules[1].keywords[1] == "resident" && Hits(Word, "resident", text, words);
  }

  /** "resident atm": the rent rule comes before the withdrawal rule. */
  lemma ResidentAtmIsRent(d: string)
    requires d == "resident atm"
    ensures GetType(d) == Rent
  {
    ResidentAtmLower(d);
    assert d == "resident" + [' '] + "atm";
    TwoWords(d, "resident", ' ', "atm");
    ResidentAtmRules(d, ["resident", "atm"]);
    ClassifiedAt(d, d, ["resident", "atm"], 1);
  }

  lemma ShellMobileGasLower(d: string)
    requires d == "shell mobile gas"
    ensures Lower(d) == d
  {
  }

  lemma ShellMobileGasWords(d: string)
    requires d == "shell mobile gas"
    ensures Split(d) == ["shell", "mobile", "gas"]
  {
    assert d == "shell" + [' '] + ("mobile" + [' '] + "gas");
    ThreeWords(d, "shell", ' ', "mobile", ' ', "gas");
  }

  lemma ShellMobileGasAbsentA(text: string)
    requires text == "shell mobile gas"
    ensures !Contains(text, "late") && !Contains(text, "target") && !Contains(text, "walmart")
  {
    AbsentChar(text, "late", 2);
    AbsentChar(text, "target", 0);
    AbsentChar(text, "walmart", 0);
  }

  lemma ShellMobileGasAbsentB(text: string)
    requires text == "shell mobile gas"
    ensures !Contains(text, "amazon") && !Contains(text, "nordstrom") && !Contains(text, "paypal") &&
      !Contains(text, "3 sisters")
  {
    AbsentChar(text, "amazon", 3);
    AbsentChar(text, "nordstrom", 0);
    AbsentChar(text, "paypal", 0);
    AbsentChar(text, "3 sisters", 0);
  }

  lemma ShellMobileGasNoShopping(text: string)
    requires text == "shell mobile gas"
    ensures !Contains(text, "late") && NoShoppingKeyword(text)
  {
    ShellMobileGasAbsentA(text);
    ShellMobileGasAbsentB(text);
  }

  lemma ShellMobileGasRules(text: string, words: seq<string>)
    requires text == "shell mobile gas" && words == ["shell", "mobile", "gas"]
    ensures Matches(Rules[6], text, words)
    ensures forall j :: 0 <= j < 6 ==> !Matches(Rules[j], text, words)
  {
    ShellMobileGasNoShopping(text);
    assert Rules[6].keywords[2] == "shell" && Hits(Word, "shell", text, words);
    forall j | 0 <= j < 6 ensures !Matches(Rules[j], text, words) {
      assert j == 0 || j == 1 || j == 2 || j == 3 || j == 4 || j == 5;
    }
  }

  /** "shell mobile gas": the fuel rule comes before the "mobile gas" utilities rule. */
  lemma ShellMobileGasIsFuel(d: string)
    requires d == "shell mobile gas"
    ensures GetType(d) == Fuel
  {
    ShellMobileGasLower(d);
    ShellMobileGasWords(d);
    ShellMobileGasRules(d, ["shell", "mobile", "gas"]);
    ClassifiedAt(d, d, ["shell", "mobile", "gas"], 6);
  }

  // ---------------------------------------------------------------------------
  // Nothing matches
  // ---------------------------------------------------------------------------

  /** The empty description matches no rule and is `Other`. */
  lemma EmptyIsOther(d: string)
    requires d == ""
    ensures GetType(d) == Other
  {
    assert Lower(d) == "" && Split("") == [""];
    forall i | 0 <= i < |Rules| ensures !Applies(Rules[i], d) {
      assert i == 0 || i == 1 || i == 2 || i == 3 || i == 4 || i == 5 || i == 6 || i == 7 || i == 8;
    }
  }

  // ---------------------------------------------------------------------------
  // A restaurant name with an apostrophe
  // ---------------------------------------------------------------------------

  lemma SahmsPlaceLower(d: string)
    requires d == "SAHM'S PLACE"
    ensures Lower(d) == "sahm's place"
  {
  }

  lemma SahmsPlaceNoShopping(text: string)
    requires text == "sahm's place"
    ensures !Contains(text, "late") && NoShoppingKeyword(text) && !Contains(text, "mobile gas")
  {
    AbsentChar(text, "late", 2);
    AbsentChar(text, "target", 0);
    AbsentChar(text, "walmart", 0);
    AbsentChar(text, "amazon", 3);
    AbsentChar(text, "nordstrom", 0);
    AbsentChar(text, "paypal", 2);
    AbsentChar(text, "3 sisters", 0);
    AbsentChar(text, "mobile gas", 1);
  }

  lemma SahmsPlaceRules(text: string, words: seq<string>)
    requires text == "sahm's place" && words == ["sahm's", "place"]
    ensures Matches(Rules[8], text, words)
    ensures forall j :: 0 <= j < 8 ==> !Matches(Rules[j], text, words)
  {
    SahmsPlaceNoShopping(text);
    assert OccursAt(text, RestaurantKeywords[21], 0);
    assert Hits(Substring, RestaurantKeywords[21], text, words);
    forall j | 0 <= j < 8 ensures !Matches(Rules[j], text, words) {
      assert j == 0 || j == 1 || j == 2 || j == 3 || j == 4 || j == 5 || j == 6 || j == 7;
    }
  }

  /** "SAHM'S PLACE": the restaurant keyword, apostrophe and space included, matches after lower-casing. */
  lemma SahmsPlaceIsRestaurant(d: string)
    requires d == "SAHM'S PLACE"
    ensures GetType(d) == Restaurants
  {
    var text, words := "sahm's place", ["sahm's", "place"];
    SahmsPlaceLower(d);
    assert text == "sahm's" + [' '] + "place";
    TwoWords(text, "sahm's", ' ', "place");
    SahmsPlaceRules(text, words);
    ClassifiedAt(d, text, words, 8);
  }

  // ---------------------------------------------------------------------------
  // A description no rule knows
  // ---------------------------------------------------------------------------

  lemma CoffeeNoSubstring(text: string)
    requires text == "coffee"
    ensures !Contains(text, "late") && NoShoppingKeyword(text) && !Contains(text, "mobile gas")
  {
    AbsentChar(text, "late", 0);
    AbsentChar(text, "target", 0);
    AbsentChar(text, "walmart", 0);
    AbsentChar(text, "amazon", 0);
    AbsentChar(text, "nordstrom", 0);
    AbsentChar(text, "paypal", 0);
    AbsentChar(text, "3 sisters", 0);
    AbsentChar(text, "mobile gas", 0);
  }

  lemma CoffeeNoRestaurantA(text: string)
    requires text == "coffee"
    ensures forall n :: 0 <= n < 8 ==> !Contains(text, RestaurantKeywords[n])
  {
    AbsentChar(text, "mesh on mass", 0);
    AbsentChar(text, "brugge brasserie", 0);
    AbsentChar(text, "mama carolla's old italian", 0);
    AbsentChar(text, "recess", 0);
    AbsentChar(text, "yats", 0);
    AbsentChar(text, "twenty tap", 0);
    AbsentChar(text, "goose the market", 0);
    AbsentChar(text, "siam square", 0);
    forall n | 0 <= n < 8 ensures !Contains(text, RestaurantKeywords[n]) {
      assert n == 0 || n == 1 || n == 2 || n == 3 || n == 4 || n == 5 || n == 6 || n == 7;
    }
  }

  lemma CoffeeNoRestaurantB(text: string)
    requires text == "coffee"
    ensures forall n :: 8 <= n < 16 ==> !Contains(text, RestaurantKeywords[n])
  {
    AbsentChar(text, "shapiro's delicatessen", 0);
    AbsentChar(text, "bluebeard", 0);
    AbsentChar(text, "iaria's italian restaurant", 0);
    AbsentChar(text, "bazbeaux", 0);
    AbsentChar(text, "union 50", 0);
    AbsentChar(text, "taste cafe & marketplace", 0);
    AbsentChar(text, "st. elmo steak house", 0);
    AbsentChar(text, "cafe patachou", 1);
    forall n | 8 <= n < 16 ensures !Contains(text, RestaurantKeywords[n]) {
      assert n == 8 || n == 9 || n == 10 || n == 11 || n == 12 || n == 13 || n == 14 || n == 15;
    }
  }

  lemma CoffeeNoRestaurantC(text: string)
    requires text == "coffee"
    ensures forall n :: 16 <= n < 24 ==> !Contains(text, RestaurantKeywords[n])
  {
    AbsentChar(text, "the tamale place", 0);
    AbsentChar(text, "mug n' bun", 0);
    AbsentChar(text, "the loft at trader's point creamery", 0);
    AbsentChar(text, "shoefly public house", 0);
    AbsentChar(text, "scotty's brewhouse", 0);
    AbsentChar(text, "sahm's place", 0);
    AbsentChar(text, "delicia", 0);
    AbsentChar(text, "pizzology", 0);
    forall n | 16 <= n < 24 ensures !Contains(text, RestaurantKeywords[n]) {
      assert n == 16 || n == 17 || n == 18 || n == 19 || n == 20 || n == 21 || n == 22 || n == 23;
    }
  }

  lemma CoffeeRules(text: string, words: seq<string>)
    requires text == "coffee" && words == ["coffee"]
    ensures forall j :: 0 <= j < |Rules| ==> !Matches(Rules[j], text, words)
  {
    CoffeeNoSubstring(text);
    CoffeeNoRestaurantA(text);
    CoffeeNoRestaurantB(text);
    CoffeeNoRestaurantC(text);
    assert |RestaurantKeywords| == 24;
    assert !Matches(Rules[8], text, words);
    forall j | 0 <= j < |Rules| ensures !Matches(Rules[j], text, words) {
      assert j == 0 || j == 1 || j == 2 || j == 3 || j == 4 || j == 5 || j == 6 || j == 7 || j == 8;
    }
  }

  /** "Coffee" matches none of the nine rules and is `Other`. */
  lemma CoffeeIsOther(d: string)
    requires d == "Coffee"
    ensures GetType(d) == Other
  {
    var text, words := "coffee", ["coffee"];
    assert Lower(d) == text;
    SplitWord(text);
    CoffeeRules(text, words);
    assert forall i :: 0 <= i < |Rules| ==> !Applies(Rules[i], d);
  }
}
