/** The closed set of purchase categories and its text form. */
module Category {
  /** `ProductType`, in declaration order. */
  datatype ProductType = Food | Culture | Technology | Education | Travel | Presents | Style | Other

  /** Every category, in declaration order. */
  const AllTypes: seq<ProductType> := [Food, Culture, Technology, Education, Travel, Presents, Style, Other]

  /** The seven names that select a category other than `Other`. */
  const KnownNames: set<string> := {"food", "culture", "technology", "education", "travel", "presents", "style"}

  /**
    * `ProductType::from_string`: exact, case-sensitive match on the seven
    * lower-case names; every other text, "other" included, gives `Other`.
    */
  function FromString(s: string): (t: ProductType)
    ensures t == Other <==> s !in KnownNames
  {
    if s == "food" then Food
    else if s == "culture" then Culture
    else if s == "technology" then Technology
    else if s == "education" then Education
    else if s == "travel" then Travel
    else if s == "presents" then Presents
    else if s == "style" then Style
    else Other
  }

  /** `ProductType::to_string`: the canonical lower-case name. */
  function ToString(t: ProductType): (s: string)
    ensures s == "other" || s in KnownNames
    ensures t == Other <==> s == "other"
  {
    match t
    case Food => "food"
    case Culture => "culture"
    case Technology => "technology"
    case Education => "education"
    case Travel => "travel"
    case Presents => "presents"
    case Style => "style"
    case Other => "other"
  }

  /** Parsing a canonical name gives back its category. */
  lemma RoundTrip(t: ProductType)
    ensures FromString(ToString(t)) == t
  {
  }

  /** Different categories have different names. */
  lemma ToStringInjective(t: ProductType, u: ProductType)
    requires ToString(t) == ToString(u)
    ensures t == u
  {
    RoundTrip(t);
    RoundTrip(u);
  }

  /** Formatting the parse of `s` gives `s` back exactly when `s` is one of the eight canonical names. */
  lemma ParseThenFormat(s: string)
    ensures ToString(FromString(s)) == s <==> (s in KnownNames || s == "other")
  {
  }

  /** The match is exact: other capitalisations, the empty text and "other" all fall to `Other`. */
  lemma UnknownTextIsOther()
    ensures FromString("Food") == Other && FromString("") == Other && FromString("other") == Other
    ensures FromString(" food") == Other
  {
  }

  /** `AllTypes` lists every category exactly once. */
  lemma AllTypesComplete(t: ProductType)
    ensures t in AllTypes
    ensures forall i, j :: 0 <= i < j < |AllTypes| ==> AllTypes[i] != AllTypes[j]
  {
  }
}
