/** The regular-expression matcher of grep.c, proved against the language a pattern denotes. */
module Regexp {

  /** One character, or any number of them; '.' stands for every character. */
  datatype Item = One(c: char) | Star(c: char)

  datatype Regex = Regex(items: seq<Item>, atEnd: bool)

  // The matcher takes text without NULs.
  predicate IsText(s: string) {
    forall i :: 0 <= i < |s| ==> s[i] != '\0'
  }

  /** A star follows the character it repeats, and '$' is an anchor only at the very end. */
  function Parse(re: string): Regex {
    if re == "" then Regex([], false)
    else if |re| >= 2 && re[1] == '*' then Prepend(Star(re[0]), Parse(re[2..]))
    else if re == "$" then Regex([], true)
    else Prepend(One(re[0]), Parse(re[1..]))
  }

  function Prepend(x: Item, r: Regex): Regex {
    Regex([x] + r.items, r.atEnd)
  }

  predicate Fits(c: char, x: char) {
    c == '.' || c == x
  }

  predicate AllFit(c: char, w: string) {
    forall i :: 0 <= i < |w| ==> Fits(c, w[i])
  }

  /** The words a list of items denotes: concatenations of one word for each item. */
  ghost predicate InLanguage(items: seq<Item>, w: string) {
    if items == [] then w == ""
    else exists k :: 0 <= k <= |w| && InItem(items[0], w[..k]) && InLanguage(items[1..], w[k..])
  }

  predicate InItem(x: Item, w: string) {
    match x
    case One(c) => |w| == 1 && Fits(c, w[0])
    case Star(c) => AllFit(c, w)
  }

  // Some prefix of the text, all of it under '$', is in the language.
  ghost predicate MatchesHere(r: Regex, text: string) {
    exists k :: PrefixMatches(r, text, k)
  }

  ghost predicate PrefixMatches(r: Regex, text: string, k: int) {
    0 <= k <= |text| && (r.atEnd ==> k == |text|) && InLanguage(r.items, text[..k])
  }

  ghost predicate Matches(re: string, text: string) {
    if re != "" && re[0] == '^' then MatchesHere(Parse(re[1..]), text)
    else exists j :: 0 <= j <= |text| && MatchesHere(Parse(re), text[j..])
  }

  /* How a match at one place splits at the first item. */

  lemma HereEmpty(text: string)
    ensures MatchesHere(Regex([], false), text)
    ensures MatchesHere(Regex([], true), text) <==> text == ""
  {
    assert PrefixMatches(Regex([], false), text, 0);
    if text == "" {
      assert PrefixMatches(Regex([], true), text, 0);
    }
  }

  lemma Slices(text: string, k: nat, n: nat)
    requires k <= n <= |text|
    ensures text[..n][..k] == text[..k] && text[..n][k..] == text[k..][..n-k]
  {
  }

  lemma LanguageSplit(x: Item, items: seq<Item>, w: string)
    ensures InLanguage([x] + items, w) <==> exists k :: 0 <= k <= |w| && InItem(x, w[..k]) && InLanguage(items, w[k..])
  {
    assert ([x] + items)[1..] == items;
  }

  // The first item takes k characters, and the rest matches behind them.
  ghost predicate SplitsAt(x: Item, r: Regex, text: string, k: int) {
    0 <= k <= |text| && InItem(x, text[..k]) && MatchesHere(r, text[k..])
  }

  lemma SplitHere(x: Item, r: Regex, text: string) returns (k: int)
    requires MatchesHere(Prepend(x, r), text)
    ensures SplitsAt(x, r, text, k)
  {
    hide InLanguage, InItem;
    var n :| PrefixMatches(Prepend(x, r), text, n);
    LanguageSplit(x, r.items, text[..n]);
    k :| 0 <= k <= n && InItem(x, text[..n][..k]) && InLanguage(r.items, text[..n][k..]);
    Slices(text, k, n);
    assert PrefixMatches(r, text[k..], n - k);
  }

  lemma JoinHere(x: Item, r: Regex, text: string, k: int)
    requires SplitsAt(x, r, text, k)
    ensures MatchesHere(Prepend(x, r), text)
  {
    hide InLanguage, InItem;
    var m :| PrefixMatches(r, text[k..], m);
    LanguageSplit(x, r.items, text[..k+m]);
    Slices(text, k, k + m);
    assert PrefixMatches(Prepend(x, r), text, k + m);
  }

  lemma HereSplit(x: Item, r: Regex, text: string)
    ensures MatchesHere(Prepend(x, r), text) <==> exists k :: SplitsAt(x, r, text, k)
  {
    hide MatchesHere, SplitsAt, Prepend;
    if MatchesHere(Prepend(x, r), text) {
      var k := SplitHere(x, r, text);
    }
    if k :| SplitsAt(x, r, text, k) {
      JoinHere(x, r, text, k);
    }
  }

  lemma HereOne(c: char, r: Regex, text: string)
    ensures MatchesHere(Prepend(One(c), r), text) <==> text != "" && Fits(c, text[0]) && MatchesHere(r, text[1..])
  {
    HereSplit(One(c), r, text);
    hide MatchesHere;
    if text != "" && Fits(c, text[0]) && MatchesHere(r, text[1..]) {
      assert SplitsAt(One(c), r, text, 1);
    }
  }

  // A star takes i characters that fit and something matches behind them, from i = from on.
  ghost predicate StarFrom(c: char, r: Regex, text: string, from: nat) {
    exists k :: from <= k <= |text| && AllFit(c, text[..k]) && MatchesHere(r, text[k..])
  }

  lemma HereStar(c: char, r: Regex, text: string)
    ensures MatchesHere(Prepend(Star(c), r), text) <==> StarFrom(c, r, text, 0)
  {
    HereSplit(Star(c), r, text);
    hide MatchesHere, AllFit;
    if k :| SplitsAt(Star(c), r, text, k) {
      assert AllFit(c, text[..k]);
    }
    if k :| 0 <= k <= |text| && AllFit(c, text[..k]) && MatchesHere(r, text[k..]) {
      assert SplitsAt(Star(c), r, text, k);
    }
  }

  /* The matcher. */

  method Match(re: string, text: string) returns (found: bool)
    requires IsText(re) && IsText(text)
    ensures found <==> Matches(re, text)
  {
    if re != "" && re[0] == '^' {
      found := MatchHere(re[1..], text);
      return;
    }
    var j := 0;
    while true
      invariant 0 <= j <= |text|
      invariant forall i :: 0 <= i < j ==> !MatchesHere(Parse(re), text[i..])
      decreases |text| - j
    {
      found := MatchHere(re, text[j..]);
      if found || j == |text| {
        return;
      }
      j := j + 1;
    }
  }

  method MatchHere(re: string, text: string) returns (found: bool)
    requires IsText(re) && IsText(text)
    ensures found <==> MatchesHere(Parse(re), text)
    decreases |re|, 0
  {
    HereEmpty(text);
    if re == "" {
      return true;
    }
    if |re| >= 2 && re[1] == '*' {
      HereStar(re[0], Parse(re[2..]), text);
      found := MatchStar(re[0], re[2..], text);
      return;
    }
    if re[0] == '$' && |re| == 1 {
      return text == "";
    }
    HereOne(re[0], Parse(re[1..]), text);
    if text != "" && (re[0] == '.' || re[0] == text[0]) {
      found := MatchHere(re[1..], text[1..]);
      return;
    }
    found := false;
  }

  method MatchStar(c: char, re: string, text: string) returns (found: bool)
    requires IsText(re) && IsText(text)
    ensures found <==> StarFrom(c, Parse(re), text, 0)
    decreases |re|, 1
  {
    var k := 0;
    while true
      invariant 0 <= k <= |text| && AllFit(c, text[..k])
      invariant forall i :: 0 <= i < k ==> !MatchesHere(Parse(re), text[i..])
      decreases |text| - k
    {
      found := MatchHere(re, text[k..]);
      if found {
        return;
      }
      if k == |text| || !(text[k] == c || c == '.') {
        assert k < |text| ==> !Fits(c, text[k]);
        assert forall i :: k < i <= |text| ==> !AllFit(c, text[..i]) by { NoFurther(c, text, k); }
        return;
      }
      assert text[..k+1] == text[..k] + [text[k]];
      k := k + 1;
    }
  }

  lemma NoFurther(c: char, text: string, k: nat)
    requires k == |text| || (k < |text| && !Fits(c, text[k]))
    ensures forall i :: k < i <= |text| ==> !AllFit(c, text[..i])
  {
    forall i | k < i <= |text|
      ensures !AllFit(c, text[..i])
    {
      assert text[..i][k] == text[k];
    }
  }
}
