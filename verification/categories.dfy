/** Product categories with their display names and parse aliases, and the
    derived stock status (Enums.kt). */
module Categories {
  import opened Common

  datatype Category =
    | BEVERAGE | SNACK | CONVENIENCE_MEAL | ICE_CREAM
    | DAIRY | FROZEN | HOUSEHOLD | ETC

  datatype StockStatus = SUFFICIENT | LOW | OUT_OF_STOCK

  /** The constants in declaration order (`entries`). */
  const AllCategories: seq<Category> :=
    [BEVERAGE, SNACK, CONVENIENCE_MEAL, ICE_CREAM, DAIRY, FROZEN, HOUSEHOLD, ETC]

  /** The constant's own identifier (`name`). */
  function Name(c: Category): string {
    match c
    case BEVERAGE => "BEVERAGE"
    case SNACK => "SNACK"
    case CONVENIENCE_MEAL => "CONVENIENCE_MEAL"
    case ICE_CREAM => "ICE_CREAM"
    case DAIRY => "DAIRY"
    case FROZEN => "FROZEN"
    case HOUSEHOLD => "HOUSEHOLD"
    case ETC => "ETC"
  }

  function DisplayName(c: Category): string {
    match c
    case BEVERAGE => "음료"
    case SNACK => "과자/스낵"
    case CONVENIENCE_MEAL => "간편식"
    case ICE_CREAM => "아이스크림"
    case DAIRY => "유제품"
    case FROZEN => "냉장/냉동 가공식품"
    case HOUSEHOLD => "생활용품"
    case ETC => "기타"
  }

  function Aliases(c: Category): seq<string> {
    match c
    case BEVERAGE => ["음료", "drink", "beverage"]
    case SNACK => ["과자", "스낵", "snack"]
    case CONVENIENCE_MEAL => ["간편식", "도시락", "샌드위치", "김밥", "meal"]
    case ICE_CREAM => ["아이스크림", "icecream", "ice_cream"]
    case DAIRY => ["유제품", "치즈", "dairy", "milk", "cheese"]
    case FROZEN => ["냉장", "냉동", "가공식품", "frozen", "chilled"]
    case HOUSEHOLD => ["생활용품", "위생", "주방", "욕실", "household"]
    case ETC => ["기타", "etc", "other"]
  }

  /** Kotlin's `Char.isWhitespace()`: the Java whitespace controls plus every
      Unicode space, line and paragraph separator. */
  predicate IsWhitespace(ch: char) {
    || ('\t' <= ch <= '\r')
    || ('\U{1C}' <= ch <= '\U{1F}')
    || ch == ' ' || ch == '\U{A0}' || ch == '\U{1680}'
    || ('\U{2000}' <= ch <= '\U{200A}')
    || ch == '\U{2028}' || ch == '\U{2029}' || ch == '\U{202F}'
    || ch == '\U{205F}' || ch == '\U{3000}'
  }

  predicate IsBlank(s: string) {
    forall i | 0 <= i < |s| :: IsWhitespace(s[i])
  }

  /** Drops leading whitespace. */
  function TrimStart(s: string): (r: string)
    ensures |r| <= |s|
  {
    if |s| > 0 && IsWhitespace(s[0]) then TrimStart(s[1..]) else s
  }

  /** Drops trailing whitespace. */
  function TrimEnd(s: string): (r: string)
    ensures |r| <= |s|
  {
    if |s| > 0 && IsWhitespace(s[|s| - 1]) then TrimEnd(s[..|s| - 1]) else s
  }

  /** `trim()`: drops leading and trailing whitespace. */
  function Trim(s: string): (r: string)
    ensures |r| <= |s|
  {
    TrimEnd(TrimStart(s))
  }

  /** `TrimStart` drops a whitespace prefix and stops at the first other
      character. */
  lemma {:induction false} TrimStartDrops(s: string)
    ensures TrimStart(s) == s[|s| - |TrimStart(s)|..]
    ensures |TrimStart(s)| > 0 ==> !IsWhitespace(TrimStart(s)[0])
    ensures forall i | 0 <= i < |s| - |TrimStart(s)| :: IsWhitespace(s[i])
    decreases |s|
  {
    if |s| > 0 && IsWhitespace(s[0]) {
      var u := s[1..];
      TrimStartDrops(u);
      var r := TrimStart(u);
      assert TrimStart(s) == r;
      forall i | 0 <= i < |s| - |r| ensures IsWhitespace(s[i]) {
        if i > 0 {
          assert s[i] == u[i - 1];
        }
      }
      assert u[|u| - |r|..] == s[|s| - |r|..];
    }
  }

  /** `TrimEnd` drops a whitespace suffix and stops at the last other
      character. */
  lemma {:induction false} TrimEndDrops(s: string)
    ensures TrimEnd(s) == s[..|TrimEnd(s)|]
    ensures |TrimEnd(s)| > 0 ==> !IsWhitespace(TrimEnd(s)[|TrimEnd(s)| - 1])
    ensures forall i | |TrimEnd(s)| <= i < |s| :: IsWhitespace(s[i])
    decreases |s|
  {
    if |s| > 0 && IsWhitespace(s[|s| - 1]) {
      var u := s[..|s| - 1];
      TrimEndDrops(u);
      var r := TrimEnd(u);
      assert TrimEnd(s) == r;
      forall i | |r| <= i < |s| ensures IsWhitespace(s[i]) {
        if i < |s| - 1 {
          assert s[i] == u[i];
        }
      }
      assert u[..|r|] == s[..|r|];
    }
  }

  /** A trimmed string has no whitespace at either end, and it is empty
      exactly when the input is blank. */
  lemma TrimEnds(s: string)
    ensures |Trim(s)| > 0 ==> !IsWhitespace(Trim(s)[0]) && !IsWhitespace(Trim(s)[|Trim(s)| - 1])
    ensures |Trim(s)| == 0 <==> IsBlank(s)
  {
    var t := TrimStart(s);
    var r := TrimEnd(t);
    TrimStartDrops(s);
    TrimEndDrops(t);
    assert |r| > 0 ==> r[0] == t[0];
    if |t| > 0 {
      assert !IsWhitespace(t[0]);
      assert |r| > 0;
      assert t[0] == s[|s| - |t|];
    } else {
      forall i | 0 <= i < |s| ensures IsWhitespace(s[i]) {
      }
    }
  }

  /** Case folding of a single character; only ASCII letters are folded. */
  function FoldChar(ch: char): char {
    if 'A' <= ch <= 'Z' then (ch as int - 'A' as int + 'a' as int) as char else ch
  }

  function Fold(s: string): (r: string)
    ensures |r| == |s|
  {
    seq(|s|, i requires 0 <= i < |s| => FoldChar(s[i]))
  }

  /** `a.equals(b, ignoreCase = true)`. */
  predicate EqualsIgnoreCase(a: string, b: string) {
    Fold(a) == Fold(b)
  }

  /** The input as `parse` compares it with names and aliases: trimmed and
      lower-cased. */
  function Normalize(input: string): (r: string)
    ensures |r| <= |input|
    ensures Fold(r) == r
    ensures EqualsIgnoreCase(r, Trim(input))
  {
    FoldIdempotent(Trim(input));
    Fold(Trim(input))
  }

  lemma FoldIdempotent(s: string)
    ensures Fold(Fold(s)) == Fold(s)
  {
  }

  /** The constant's name in lower case. */
  function LowerName(c: Category): string {
    Fold(Name(c))
  }

  /** Whether category `c` accepts `input`: its name or one of its aliases
      equals the normalized input, or its display name equals the raw input
      exactly. Names and aliases are compared in lower case, which the
      contract shows to be the case-insensitive comparison `parse` makes. */
  predicate Matches(c: Category, input: string)
    ensures Matches(c, input) <==>
      var s := Fold(Trim(input));
      || EqualsIgnoreCase(Name(c), s)
      || DisplayName(c) == input
      || exists a | a in Aliases(c) :: EqualsIgnoreCase(a, s)
  {
    var s := Normalize(input);
    AliasesAreFolded(c);
    FoldedMember(Aliases(c), s);
    || LowerName(c) == s
    || DisplayName(c) == input
    || s in Aliases(c)
  }

  lemma AliasesAreFolded(c: Category)
    ensures forall a | a in Aliases(c) :: Fold(a) == a
  {
    forall i | 0 <= i < |Aliases(c)| ensures Fold(Aliases(c)[i]) == Aliases(c)[i] {
      AliasFolded(c, i);
    }
  }

  lemma AliasFolded(c: Category, i: nat)
    requires i < |Aliases(c)|
    ensures Fold(Aliases(c)[i]) == Aliases(c)[i]
  {
    FoldNoUpper(Aliases(c)[i]);
  }

  /** Membership of a folded string in a list of folded strings is
      membership ignoring case. */
  lemma FoldedMember(xs: seq<string>, s: string)
    requires forall a | a in xs :: Fold(a) == a
    requires Fold(s) == s
    ensures s in xs <==> exists a | a in xs :: EqualsIgnoreCase(a, s)
  {
    if exists a | a in xs :: EqualsIgnoreCase(a, s) {
      var a :| a in xs && EqualsIgnoreCase(a, s);
      assert a == s;
    }
  }

  /** Index of the first category of `cs` that accepts `input`, or `|cs|`. */
  function FirstMatch(cs: seq<Category>, input: string): (k: nat)
    ensures k <= |cs|
    ensures k < |cs| ==> Matches(cs[k], input)
    ensures forall i | 0 <= i < k :: !Matches(cs[i], input)
  {
    FirstIndex(cs, c => Matches(c, input))
  }

  /** Position of a constant in `AllCategories`. */
  function Ordinal(c: Category): (n: nat)
    ensures n < |AllCategories| && AllCategories[n] == c
  {
    match c
    case BEVERAGE => 0
    case SNACK => 1
    case CONVENIENCE_MEAL => 2
    case ICE_CREAM => 3
    case DAIRY => 4
    case FROZEN => 5
    case HOUSEHOLD => 6
    case ETC => 7
  }

  /** `ProductCategory.parse`: none for a null or blank input; otherwise the
      first category, in declaration order, that accepts the input. */
  function Parse(input: Option<string>): (r: Option<Category>)
    ensures input.None? || IsBlank(input.value) ==> r.None?
    ensures r.Some? ==> input.Some? && Matches(r.value, input.value)
    ensures r.Some? ==> forall c: Category | Ordinal(c) < Ordinal(r.value) ::
              !Matches(c, input.value)
    ensures input.Some? && !IsBlank(input.value) && r.None? ==>
              forall c: Category :: !Matches(c, input.value)
  {
    match input
    case None => None
    case Some(s) =>
      if IsBlank(s) then None
      else
        var k := FirstMatch(AllCategories, s);
        if k < |AllCategories| then
          var c := AllCategories[k];
          OrdinalAt(k);
          FirstMatchCoversEarlier(s, c);
          Some(c)
        else
          NoMatchCoversAll(s);
          None
  }

  /** `Ordinal` inverts indexing into `AllCategories`. */
  lemma OrdinalAt(k: nat)
    requires k < |AllCategories|
    ensures Ordinal(AllCategories[k]) == k
  {
    if k == 0 {
    } else if k == 1 {
    } else if k == 2 {
    } else if k == 3 {
    } else if k == 4 {
    } else if k == 5 {
    } else if k == 6 {
    } else {
    }
  }

  lemma FirstMatchCoversEarlier(s: string, c: Category)
    requires Ordinal(c) == FirstMatch(AllCategories, s)
    ensures forall d: Category | Ordinal(d) < Ordinal(c) :: !Matches(d, s)
  {
    forall d: Category | Ordinal(d) < Ordinal(c) ensures !Matches(d, s) {
      assert AllCategories[Ordinal(d)] == d;
    }
  }

  lemma NoMatchCoversAll(s: string)
    requires FirstMatch(AllCategories, s) == |AllCategories|
    ensures forall d: Category :: !Matches(d, s)
  {
    forall d: Category ensures !Matches(d, s) {
      assert AllCategories[Ordinal(d)] == d;
    }
  }

  /** Folding leaves a string without upper-case ASCII letters unchanged. */
  lemma FoldNoUpper(s: string)
    requires forall i | 0 <= i < |s| :: !('A' <= s[i] <= 'Z')
    ensures Fold(s) == s
  {
  }

  /** Every display name starts with a character that is not whitespace. */
  lemma DisplayNameNotBlank(c: Category)
    ensures |DisplayName(c)| > 0 && !IsWhitespace(DisplayName(c)[0])
  {
  }

  /** No category accepts a blank input: the display names are not blank,
      and the names and aliases are not empty. */
  lemma BlankMatchesNothing(c: Category, s: string)
    ensures IsBlank(s) ==> !Matches(c, s)
  {
    if IsBlank(s) {
      TrimEnds(s);
      assert Normalize(s) == [];
      assert |LowerName(c)| == |Name(c)| > 0;
      assert forall a | a in Aliases(c) :: |a| > 0;
      DisplayNameNotBlank(c);
    }
  }

  /** The converse of `Parse`'s contract: an input that category `c`
      accepts, and no earlier category does, parses to `c`. */
  lemma ParseSelectsFirstMatch(s: string, c: Category)
    requires Matches(c, s)
    requires forall d: Category | Ordinal(d) < Ordinal(c) :: !Matches(d, s)
    ensures Parse(Some(s)) == Some(c)
  {
    BlankMatchesNothing(c, s);
    var r := Parse(Some(s));
    assert r.Some?;
    var c' := r.value;
    assert AllCategories[Ordinal(c)] == c && AllCategories[Ordinal(c')] == c';
    assert !(Ordinal(c') < Ordinal(c));
    assert !(Ordinal(c) < Ordinal(c'));
  }

  /** An input that no category accepts parses to none. */
  lemma ParseRejectsUnmatched(s: string)
    requires forall c: Category :: !Matches(c, s)
    ensures Parse(Some(s)) == None
  {
  }

  /** Trimming keeps a string that starts and ends with non-whitespace. */
  lemma TrimKeeps(w: string)
    requires |w| > 0 && !IsWhitespace(w[0]) && !IsWhitespace(w[|w| - 1])
    ensures Trim(w) == w
  {
    assert TrimStart(w) == w;
  }

  /** Trimming drops one space in front of such a string. */
  lemma TrimDropsLeadingSpace(w: string)
    requires |w| > 0 && !IsWhitespace(w[0]) && !IsWhitespace(w[|w| - 1])
    ensures Trim(" " + w) == w
  {
    assert (" " + w)[1..] == w;
    assert TrimStart(" " + w) == TrimStart(w) == w;
  }

  /** Trimming drops one space on either side of such a string. */
  lemma TrimDropsSpaces(w: string)
    requires |w| > 0 && !IsWhitespace(w[0]) && !IsWhitespace(w[|w| - 1])
    ensures Trim(" " + w + " ") == w
  {
    var t := w + " ";
    assert " " + w + " " == " " + t;
    assert (" " + t)[1..] == t;
    assert TrimStart(" " + t) == TrimStart(t) == t;
    assert t[..|t| - 1] == w;
    assert TrimEnd(t) == TrimEnd(w) == w;
  }

  /** An input whose normalized form is an alias of `c` is accepted by `c`. */
  lemma AliasAccepted(input: string, c: Category)
    requires Normalize(input) in Aliases(c)
    ensures Matches(c, input)
  {
  }

  /** A category whose display name is not the input and whose name and
      aliases are not its normalized form does not accept it. */
  lemma NotAccepted(c: Category, input: string, norm: string)
    requires Normalize(input) == norm
    requires DisplayName(c) != input && LowerName(c) != norm && norm !in Aliases(c)
    ensures !Matches(c, input)
  {
  }
}
