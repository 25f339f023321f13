/** The matcher of user/grep.c, against what its patterns mean. */
module Regex {
  // --- what a pattern means ---

  // x is a character of the text; '.' stands for any.
  predicate CharOk(c: char, x: char) { c == '.' || c == x }

  datatype Item = One(c: char) | Star(c: char)

  // The part of the text that an item can stand for.
  predicate WordOk(item: Item, w: string) {
    match item
    case One(c) => |w| == 1 && CharOk(c, w[0])
    case Star(c) => forall i :: 0 <= i < |w| ==> CharOk(c, w[i])
  }

  ghost predicate Fits(items: seq<Item>, words: seq<string>) {
    |words| == |items| && forall i :: 0 <= i < |items| ==> WordOk(items[i], words[i])
  }

  function Concat(words: seq<string>): string {
    if words == [] then "" else words[0] + Concat(words[1..])
  }

  // A pattern after a leading ^ was taken off: c* is an item, a last $ stands for the end of
  // the text, and every other character is an item.
  function Items(re: string): seq<Item> {
    if re == "" || re == "$" then []
    else if |re| >= 2 && re[1] == '*' then [Star(re[0])] + Items(re[2..])
    else [One(re[0])] + Items(re[1..])
  }

  function AtEnd(re: string): bool {
    if re == "" then false
    else if re == "$" then true
    else if |re| >= 2 && re[1] == '*' then AtEnd(re[2..])
    else AtEnd(re[1..])
  }

  // The text can be cut into words for the items, and a rest that is empty if `end` is set.
  ghost predicate Here(items: seq<Item>, end: bool, text: string) {
    exists words :: Fits(items, words) && Concat(words) <= text && (end ==> Concat(words) == text)
  }

  ghost predicate Matches(re: string, text: string) {
    if re != "" && re[0] == '^' then Here(Items(re[1..]), AtEnd(re[1..]), text)
    else exists i :: 0 <= i <= |text| && Here(Items(re), AtEnd(re), text[i..])
  }

  // --- one item at a time ---

  lemma HereNone(end: bool, text: string)
    ensures Here([], end, text) <==> !end || text == ""
  {
    assert Fits([], []) && Concat([]) == "";
  }

  // The words for items that begin with a given one.
  lemma FitsFirst(item: Item, items: seq<Item>, w: string, words: seq<string>)
    requires WordOk(item, w) && Fits(items, words)
    ensures Fits([item] + items, [w] + words) && Concat([w] + words) == w + Concat(words)
  {
    assert ([w] + words)[1..] == words;
  }

  lemma HereFirst(item: Item, items: seq<Item>, end: bool, text: string, k: nat)
    requires k <= |text| && WordOk(item, text[..k]) && Here(items, end, text[k..])
    ensures Here([item] + items, end, text)
  {
    var words :| Fits(items, words) && Concat(words) <= text[k..] && (end ==> Concat(words) == text[k..]);
    FitsFirst(item, items, text[..k], words);
    assert text == text[..k] + text[k..];
    assert Concat([text[..k]] + words) <= text;
  }

  lemma HereSplit(item: Item, items: seq<Item>, end: bool, text: string) returns (k: nat)
    requires Here([item] + items, end, text)
    ensures k <= |text| && WordOk(item, text[..k]) && Here(items, end, text[k..])
  {
    var all := [item] + items;
    var words :| Fits(all, words) && Concat(words) <= text && (end ==> Concat(words) == text);
    k := |words[0]|;
    var rest := Concat(words[1..]);
    assert Concat(words) == words[0] + rest;
    assert text[..k] == words[0];
    assert WordOk(all[0], words[0]);
    assert Fits(items, words[1..]) by {
      forall i | 0 <= i < |items| ensures WordOk(items[i], words[1..][i]) {
        assert WordOk(all[i + 1], words[i + 1]);
      }
    }
    assert rest <= text[k..];
    if end { assert rest == text[k..]; }
  }

  lemma HereOne(c: char, items: seq<Item>, end: bool, text: string)
    ensures Here([One(c)] + items, end, text)
            <==> |text| > 0 && CharOk(c, text[0]) && Here(items, end, text[1..])
  {
    if Here([One(c)] + items, end, text) {
      var k := HereSplit(One(c), items, end, text);
      assert k == 1;
    }
    if |text| > 0 && CharOk(c, text[0]) && Here(items, end, text[1..]) {
      HereFirst(One(c), items, end, text, 1);
    }
  }

  lemma StarChar(c: char, text: string, n: nat, k: nat)
    requires k < n <= |text| && WordOk(Star(c), text[..n])
    ensures CharOk(c, text[k])
  {
    assert text[..n][k] == text[k];
  }

  // The instances of c* end before a character that is not c.
  lemma StarStops(c: char, text: string, n: nat, k: nat)
    requires n <= |text| && k <= |text| && WordOk(Star(c), text[..n]) && (k < |text| ==> !CharOk(c, text[k]))
    ensures n <= k
  {
    if k < n { StarChar(c, text, n, k); }
  }

  // --- the code ---

  method Match(re: string, text: string) returns (r: bool)
    ensures r <==> Matches(re, text)
  {
    if re != "" && re[0] == '^' {
      r := MatchHere(re[1..], text);
      return;
    }
    var k := 0;
    while true
      invariant k <= |text| && forall i :: 0 <= i < k ==> !Here(Items(re), AtEnd(re), text[i..])
      decreases |text| - k
    {
      var here := MatchHere(re, text[k..]);
      if here {
        return true;
      }
      if k == |text| {
        return false;
      }
      k := k + 1;
    }
  }

  // Searches for re at the beginning of text.
  method MatchHere(re: string, text: string) returns (r: bool)
    ensures r <==> Here(Items(re), AtEnd(re), text)
    decreases |re|, 0, 0
  {
    if re == "" {
      HereNone(false, text);
      return true;
    }
    if |re| >= 2 && re[1] == '*' {
      r := MatchStar(re[0], re[2..], text);
      return;
    }
    if re == "$" {
      HereNone(true, text);
      return text == "";
    }
    HereOne(re[0], Items(re[1..]), AtEnd(re[1..]), text);
    if text != "" && (re[0] == '.' || re[0] == text[0]) {
      r := MatchHere(re[1..], text[1..]);
      return;
    }
    r := false;
  }

  // Searches for c*re at the beginning of text.
  method MatchStar(c: char, re: string, text: string) returns (r: bool)
    ensures r <==> Here([Star(c)] + Items(re), AtEnd(re), text)
    decreases |re|, 1
  {
    var k := 0;
    while true
      invariant k <= |text| && WordOk(Star(c), text[..k])
      invariant forall i :: 0 <= i < k ==> !Here(Items(re), AtEnd(re), text[i..])
      decreases |text| - k
    {
      var here := MatchHere(re, text[k..]);
      if here {
        HereFirst(Star(c), Items(re), AtEnd(re), text, k);
        return true;
      }
      if k == |text| || !(text[k] == c || c == '.') {
        break;
      }
      k := k + 1;
    }
    if Here([Star(c)] + Items(re), AtEnd(re), text) {
      ghost var n := HereSplit(Star(c), Items(re), AtEnd(re), text);
      StarStops(c, text, n, k);
    }
    r := false;
  }
}
