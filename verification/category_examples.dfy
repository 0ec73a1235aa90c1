/** Inputs of the kinds `ProductCategory.parse` is written for, and what
    each parses to: padded and upper-case aliases, a Korean alias, the
    display name with and without padding, and blank input. Every example
    is split into small steps, one fact per lemma. */
module CategoryExamples {
  import opened Common
  import opened Categories

  /** An input whose normalized form is no name or alias, and which is no
      display name, is accepted by no category. */
  lemma NothingAccepted(input: string, norm: string)
    requires Normalize(input) == norm
    requires forall c: Category :: DisplayName(c) != input && LowerName(c) != norm
    requires forall c: Category :: norm !in Aliases(c)
    ensures forall c: Category :: !Matches(c, input)
  {
  }

  // " drink "

  lemma DrinkFolded()
    ensures Fold("drink") == "drink"
  {
    FoldNoUpper("drink");
  }

  lemma DrinkTrimmed()
    ensures Trim(" drink ") == "drink"
  {
    var w := "drink";
    assert !IsWhitespace(w[0]) && !IsWhitespace(w[4]);
    TrimDropsSpaces(w);
    assert " " + w + " " == " drink ";
  }

  lemma PaddedDrinkIsBeverage()
    ensures Matches(BEVERAGE, " drink ")
  {
    DrinkTrimmed();
    DrinkFolded();
    AliasAccepted(" drink ", BEVERAGE);
  }

  /** Surrounding whitespace does not matter for aliases: " drink " is a
      beverage. */
  lemma ParseTrimsInput()
    ensures Parse(Some(" drink ")) == Some(BEVERAGE)
  {
    PaddedDrinkIsBeverage();
    ParseSelectsFirstMatch(" drink ", BEVERAGE);
  }

  // "DRINK" and "Ice_Cream"

  lemma UpperDrinkFolded()
    ensures Fold("DRINK") == "drink"
  {
  }

  lemma UpperDrinkTrimmed()
    ensures Trim("DRINK") == "DRINK"
  {
    var w := "DRINK";
    assert !IsWhitespace(w[0]) && !IsWhitespace(w[4]);
    TrimKeeps(w);
  }

  lemma UpperDrinkIsBeverage()
    ensures Matches(BEVERAGE, "DRINK")
  {
    UpperDrinkTrimmed();
    UpperDrinkFolded();
    AliasAccepted("DRINK", BEVERAGE);
  }

  lemma MixedIceCreamFolded()
    ensures Fold("Ice_Cream") == "ice_cream"
  {
  }

  lemma MixedIceCreamTrimmed()
    ensures Trim("Ice_Cream") == "Ice_Cream"
  {
    var w := "Ice_Cream";
    assert !IsWhitespace(w[0]) && !IsWhitespace(w[8]);
    TrimKeeps(w);
  }

  lemma MixedIceCreamNormalized()
    ensures Normalize("Ice_Cream") == "ice_cream"
  {
    MixedIceCreamTrimmed();
    MixedIceCreamFolded();
  }

  lemma MixedIceCreamIsIceCream()
    ensures Matches(ICE_CREAM, "Ice_Cream")
  {
    MixedIceCreamNormalized();
    AliasAccepted("Ice_Cream", ICE_CREAM);
  }

  lemma MixedIceCreamNotEarlier()
    ensures !Matches(BEVERAGE, "Ice_Cream")
    ensures !Matches(SNACK, "Ice_Cream")
    ensures !Matches(CONVENIENCE_MEAL, "Ice_Cream")
  {
    MixedIceCreamNormalized();
    NotAccepted(BEVERAGE, "Ice_Cream", "ice_cream");
    NotAccepted(SNACK, "Ice_Cream", "ice_cream");
    NotAccepted(CONVENIENCE_MEAL, "Ice_Cream", "ice_cream");
  }

  /** Letter case does not matter for aliases: "DRINK" is a beverage. */
  lemma ParseUpperCaseAlias()
    ensures Parse(Some("DRINK")) == Some(BEVERAGE)
  {
    UpperDrinkIsBeverage();
    ParseSelectsFirstMatch("DRINK", BEVERAGE);
  }

  /** ... nor does mixed case: "Ice_Cream" is an ice cream. */
  lemma ParseMixedCaseAlias()
    ensures Parse(Some("Ice_Cream")) == Some(ICE_CREAM)
  {
    MixedIceCreamIsIceCream();
    MixedIceCreamNotEarlier();
    ParseSelectsFirstMatch("Ice_Cream", ICE_CREAM);
  }

  // "도시락"

  lemma LunchBoxFolded()
    ensures Fold("도시락") == "도시락"
  {
    FoldNoUpper("도시락");
  }

  lemma LunchBoxTrimmed()
    ensures Trim("도시락") == "도시락"
  {
    var w := "도시락";
    assert !IsWhitespace(w[0]) && !IsWhitespace(w[2]);
    TrimKeeps(w);
  }

  lemma LunchBoxNormalized()
    ensures Normalize("도시락") == "도시락"
  {
    LunchBoxTrimmed();
    LunchBoxFolded();
  }

  lemma LunchBoxIsMeal()
    ensures Matches(CONVENIENCE_MEAL, "도시락")
    ensures !Matches(BEVERAGE, "도시락") && !Matches(SNACK, "도시락")
  {
    LunchBoxNormalized();
    AliasAccepted("도시락", CONVENIENCE_MEAL);
    NotAccepted(BEVERAGE, "도시락", "도시락");
    NotAccepted(SNACK, "도시락", "도시락");
  }

  /** A Korean alias selects its category: "도시락" is a convenience meal. */
  lemma ParseKoreanAlias()
    ensures Parse(Some("도시락")) == Some(CONVENIENCE_MEAL)
  {
    LunchBoxIsMeal();
    ParseSelectsFirstMatch("도시락", CONVENIENCE_MEAL);
  }

  // "과자/스낵" and " 과자/스낵"

  lemma SnackNameFolded()
    ensures Fold("과자/스낵") == "과자/스낵"
  {
    FoldNoUpper("과자/스낵");
  }

  lemma SnackNameTrimmed()
    ensures Trim("과자/스낵") == "과자/스낵"
  {
    var w := "과자/스낵";
    assert !IsWhitespace(w[0]) && !IsWhitespace(w[4]);
    TrimKeeps(w);
  }

  lemma SnackNameNormalized()
    ensures Normalize("과자/스낵") == "과자/스낵"
  {
    SnackNameTrimmed();
    SnackNameFolded();
  }

  lemma SnackDisplayNameMatches()
    ensures Matches(SNACK, "과자/스낵")
    ensures !Matches(BEVERAGE, "과자/스낵")
  {
    SnackNameNormalized();
    NotAccepted(BEVERAGE, "과자/스낵", "과자/스낵");
  }

  /** The display name is compared with the raw input: "과자/스낵", which is
      no alias, is a snack. */
  lemma ParseDisplayName()
    ensures Parse(Some("과자/스낵")) == Some(SNACK)
  {
    SnackDisplayNameMatches();
    ParseSelectsFirstMatch("과자/스낵", SNACK);
  }

  lemma PaddedSnackNameTrimmed()
    ensures Trim(" 과자/스낵") == "과자/스낵"
  {
    var w := "과자/스낵";
    assert !IsWhitespace(w[0]) && !IsWhitespace(w[4]);
    TrimDropsLeadingSpace(w);
    assert " " + w == " 과자/스낵";
  }

  lemma PaddedSnackNameNormalized()
    ensures Normalize(" 과자/스낵") == "과자/스낵"
  {
    PaddedSnackNameTrimmed();
    SnackNameFolded();
  }

  lemma SnackNameIsNoName()
    ensures forall c: Category :: DisplayName(c) != " 과자/스낵" && LowerName(c) != "과자/스낵"
  {
    forall c: Category
      ensures DisplayName(c) != " 과자/스낵" && LowerName(c) != "과자/스낵"
    {
      match c
      case BEVERAGE =>
      case SNACK => assert LowerName(SNACK)[0] == 's';
      case CONVENIENCE_MEAL =>
      case ICE_CREAM =>
      case DAIRY => assert LowerName(DAIRY)[0] == 'd';
      case FROZEN =>
      case HOUSEHOLD =>
      case ETC =>
    }
  }

  lemma SnackNameIsNoAlias()
    ensures forall c: Category :: "과자/스낵" !in Aliases(c)
  {
    forall c: Category ensures "과자/스낵" !in Aliases(c) {
      match c
      case BEVERAGE =>
      case SNACK =>
      case CONVENIENCE_MEAL =>
      case ICE_CREAM =>
      case DAIRY =>
      case FROZEN =>
      case HOUSEHOLD =>
      case ETC =>
    }
  }

  lemma PaddedDisplayNameMatchesNothing()
    ensures forall c: Category :: !Matches(c, " 과자/스낵")
  {
    PaddedSnackNameNormalized();
    SnackNameIsNoName();
    SnackNameIsNoAlias();
    NothingAccepted(" 과자/스낵", "과자/스낵");
  }

  /** ... but not with the trimmed input: " 과자/스낵" matches nothing. */
  lemma ParseDisplayNameUntrimmed()
    ensures Parse(Some(" 과자/스낵")) == None
  {
    PaddedDisplayNameMatchesNothing();
    ParseRejectsUnmatched(" 과자/스낵");
  }

  // Blank input

  lemma BlankInputs()
    ensures IsBlank("") && IsBlank(" \t\n")
  {
    var w := " \t\n";
    assert IsWhitespace(w[0]) && IsWhitespace(w[1]) && IsWhitespace(w[2]);
  }

  /** Null and blank inputs parse to none. */
  lemma ParseBlank()
    ensures Parse(Some("")) == None
    ensures Parse(Some(" \t\n")) == None
    ensures Parse(None) == None
  {
    BlankInputs();
  }
}
