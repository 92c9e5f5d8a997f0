/**
 * The keyword classifier that decides whether a message is about
 * L'Oréal Paris before any request leaves the page.
 */
module TopicGate {
  import opened Text

  /** The sixteen in-domain keywords, all in lower case. */
  const Keywords: seq<string> := [
    "l'or\U{00E9}al", "loreal", "paris", "beauty", "makeup", "skincare",
    "routine", "product", "hair", "lipstick", "mascara", "foundation",
    "tips", "recommend", "cream", "serum"
  ]

  /** `keywords.some(k => text.includes(k))`, scanning the list in order. */
  function AnyKeyword(text: string, keywords: seq<string>): (r: bool)
    ensures r <==> exists j :: 0 <= j < |keywords| && Occurs(keywords[j], text)
  {
    if keywords == [] then false
    else if Contains(text, keywords[0]) then true
    else
      var rest := AnyKeyword(text, keywords[1..]);
      assert forall j :: 1 <= j < |keywords| ==> keywords[j] == keywords[1..][j - 1];
      rest
  }

  /** The message is in domain when its lower case holds some keyword. */
  function IsInDomain(message: string): (r: bool)
    ensures r <==> exists j :: 0 <= j < |Keywords| && Occurs(Keywords[j], ToLower(message))
  {
    AnyKeyword(ToLower(message), Keywords)
  }

  /** Every keyword has at least four characters. */
  lemma KeywordsAtLeastFourLong()
    ensures forall j :: 0 <= j < |Keywords| ==> |Keywords[j]| >= 4
  {
  }

  /** The keywords are written in lower case, so matching them against the
      lower-cased message is enough: an upper-case letter in the message can
      still match, as lower-casing brings it to the keyword's letter. */
  lemma KeywordsAreLowerCase()
    ensures forall j :: 0 <= j < |Keywords| ==> ToLower(Keywords[j]) == Keywords[j]
  {
    LowerFixed("l'or\U{00E9}al");
    LowerFixed("loreal");
    LowerFixed("paris");
    LowerFixed("beauty");
    LowerFixed("makeup");
    LowerFixed("skincare");
    LowerFixed("routine");
    LowerFixed("product");
    LowerFixed("hair");
    LowerFixed("lipstick");
    LowerFixed("mascara");
    LowerFixed("foundation");
    LowerFixed("tips");
    LowerFixed("recommend");
    LowerFixed("cream");
    LowerFixed("serum");
  }

  /** Nothing occurs in a text shorter than itself. */
  lemma NoOccurrenceInShorter(k: string, text: string)
    requires |text| < |k|
    ensures !Occurs(k, text)
  {
  }

  /** An empty message, or one shorter than every keyword, is refused. */
  lemma ShortMessageRefused(message: string)
    requires |message| < 4
    ensures !IsInDomain(message)
  {
    KeywordsAtLeastFourLong();
    forall j | 0 <= j < |Keywords|
      ensures !Occurs(Keywords[j], ToLower(message))
    {
      NoOccurrenceInShorter(Keywords[j], ToLower(message));
    }
  }

  /** The gate looks only at the lower-cased text, so messages that differ
      only in letter case are classified alike. */
  lemma CaseInsensitive(a: string, b: string)
    requires SameUpToCase(a, b)
    ensures IsInDomain(a) == IsInDomain(b)
  {
    SameUpToCaseLower(a, b);
  }

  /** Shouting a message does not change its classification. */
  lemma UpperCaseClassifiedAlike(message: string)
    ensures IsInDomain(ToUpper(message)) == IsInDomain(message)
  {
    ToUpperSameUpToCase(message);
    CaseInsensitive(ToUpper(message), message);
  }

  /** A message in domain stays in domain whatever is written around it. */
  lemma InDomainExtends(message: string, before: string, after: string)
    requires IsInDomain(message)
    ensures IsInDomain(before + message + after)
  {
    var j :| 0 <= j < |Keywords| && Occurs(Keywords[j], ToLower(message));
    var i :| OccursAt(Keywords[j], ToLower(message), i);
    ToLowerConcat(before, message);
    ToLowerConcat(before + message, after);
    OccursAtShift(Keywords[j], ToLower(before), ToLower(message), ToLower(after), i);
    assert Occurs(Keywords[j], ToLower(before + message + after));
  }

  /** A question naming a product category passes the gate. */
  lemma LipstickQuestionInDomain()
    ensures IsInDomain("What lipstick do you recommend?")
  {
    var before, keyword, after := "What ", Keywords[9], " do you recommend?";
    var m := before + keyword + after;
    assert m == "What lipstick do you recommend?";
    assert m[5..13] == keyword;
    ToLowerSlice(m, 5, 13);
    KeywordsAreLowerCase();
    assert OccursAt(keyword, ToLower(m), 5);
  }

  /** The brand name in capitals passes the gate through its accented keyword. */
  lemma ShoutedBrandInDomain()
    ensures IsInDomain("L'OR\U{00C9}AL")
  {
    var text := ToLower("L'OR\U{00C9}AL");
    assert text == Keywords[0];
    assert OccursAt(Keywords[0], text, 0);
  }
}
