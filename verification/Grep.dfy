/**
 The pattern matcher of grep.c, proved to decide the language of its patterns: literals, `.`, a star
 after any character, a leading `^` and a final `$`.
 */
module Grep {
  /** A pattern is a sequence of items: a character (`.` for any), once or repeated. */
  datatype Item = One(c: char) | Star(c: char)

  /** The items of a pattern without its leading `^`. A star binds before `$` does. */
  function Items(re: string): seq<Item> {
    if re == "" then []
    else if |re| > 1 && re[1] == '*' then [Star(re[0])] + Items(re[2..])
    else if re == "$" then []
    else [One(re[0])] + Items(re[1..])
  }

  /** The pattern ends in a `$` that is an anchor. */
  predicate Anchored(re: string) {
    if re == "" then false
    else if |re| > 1 && re[1] == '*' then Anchored(re[2..])
    else if re == "$" then true
    else Anchored(re[1..])
  }

  // ----- The language of a pattern -----

  predicate Accepts(c: char, x: char) {
    c == '.' || c == x
  }

  predicate Word(item: Item, w: string) {
    && (item.One? ==> |w| == 1)
    && forall i :: 0 <= i < |w| ==> Accepts(item.c, w[i])
  }

  /** `w` is a concatenation of words of the items. */
  ghost predicate InLanguage(items: seq<Item>, w: string) {
    if items == [] then w == ""
    else exists k :: 0 <= k <= |w| && Word(items[0], w[..k]) && InLanguage(items[1..], w[k..])
  }

  /** The pattern, without a leading `^`, matches some prefix of `text`, all of it if anchored. */
  ghost predicate Here(re: string, text: string) {
    exists k :: 0 <= k <= |text| && (Anchored(re) ==> k == |text|) && InLanguage(Items(re), text[..k])
  }

  /** The pattern matches somewhere: a substring, a prefix under `^`, a suffix under `$`. */
  ghost predicate Matches(re: string, text: string) {
    var caret := re != "" && re[0] == '^';
    var body := if caret then re[1..] else re;
    exists i, k :: 0 <= i <= k <= |text| && (caret ==> i == 0) && (Anchored(body) ==> k == |text|)
      && InLanguage(Items(body), text[i..k])
  }

  // ----- How a match splits off its first item -----

  lemma {:induction false} HereWitness(re: string, text: string, k: nat)
    requires k <= |text| && (Anchored(re) ==> k == |text|) && InLanguage(Items(re), text[..k])
    ensures Here(re, text)
  {
  }

  /** A first item that matches and a rest that matches after it make a match. */
  lemma {:induction false} HereJoin(re: string, text: string, item: Item, rest: string, j: nat)
    requires Items(re) == [item] + Items(rest) && (Anchored(re) <==> Anchored(rest))
    requires j <= |text| && Word(item, text[..j]) && Here(rest, text[j..])
    ensures Here(re, text)
  {
    var k :| 0 <= k <= |text[j..]| && (Anchored(rest) ==> k == |text[j..]|) && InLanguage(Items(rest), text[j..][..k]);
    var w := text[..j + k];
    assert w[..j] == text[..j] && w[j..] == text[j..][..k] && Items(re)[1..] == Items(rest);
    assert InLanguage(Items(re), w);
    HereWitness(re, text, j + k);
  }

  lemma {:induction false} HereSplit(re: string, text: string, item: Item, rest: string) returns (j: nat)
    requires Items(re) == [item] + Items(rest) && (Anchored(re) <==> Anchored(rest))
    requires Here(re, text)
    ensures j <= |text| && Word(item, text[..j]) && Here(rest, text[j..])
  {
    var k :| 0 <= k <= |text| && (Anchored(re) ==> k == |text|) && InLanguage(Items(re), text[..k]);
    var w := text[..k];
    var i :| 0 <= i <= |w| && Word(Items(re)[0], w[..i]) && InLanguage(Items(re)[1..], w[i..]);
    assert w[..i] == text[..i] && w[i..] == text[i..][..k - i] && Items(re)[1..] == Items(rest);
    HereWitness(rest, text[i..], k - i);
    j := i;
  }

  // ----- The matcher -----

  /** matchhere. */
  method MatchHere(re: string, text: string) returns (r: bool)
    ensures r <==> Here(re, text)
    decreases |re|, 0
  {
    hide InLanguage, Here;
    if re == "" {
      EmptyHere(text);
      return true;
    }
    if |re| > 1 && re[1] == '*' {
      r := MatchStar(re[0], re[2..], text);
      StarHere(re, text);
      return;
    }
    if re[0] == '$' && |re| == 1 {
      assert re == "$";
      EndHere(text);
      return text == "";
    }
    OneHere(re, text);
    if text != "" && (re[0] == '.' || re[0] == text[0]) {
      r := MatchHere(re[1..], text[1..]);
      return;
    }
    return false;
  }

  /** Some number of leading characters are taken by the star and the rest matches. */
  ghost predicate StarThen(c: char, re: string, text: string) {
    exists j: nat :: j <= |text| && Word(Star(c), text[..j]) && Here(re, text[j..])
  }

  /** matchstar: search for `c*re` at the beginning of the text. */
  method MatchStar(c: char, re: string, text: string) returns (r: bool)
    ensures r <==> StarThen(c, re, text)
    decreases |re|, 1
  {
    hide Here;
    var i := 0;
    while true
      invariant 0 <= i <= |text| && Word(Star(c), text[..i])
      invariant forall j: nat :: j < i ==> !Here(re, text[j..])
      decreases |text| - i
    {
      r := MatchHere(re, text[i..]);
      if r {
        return;
      }
      if i == |text| || !(text[i] == c || c == '.') {
        NoLonger(c, text, i);
        return false;
      }
      i := i + 1;
    }
  }

  /** match. */
  method Match(re: string, text: string) returns (r: bool)
    ensures r <==> Matches(re, text)
  {
    hide Here, InLanguage, Matches;
    if re != "" && re[0] == '^' {
      r := MatchHere(re[1..], text);
      MatchesPrefix(re, text);
      return;
    }
    var i := 0;
    while true
      invariant 0 <= i <= |text|
      invariant forall j: nat :: j < i ==> !Here(re, text[j..])
      decreases |text| - i
    {
      r := MatchHere(re, text[i..]);
      if r {
        MatchesAt(re, text, i);
        return;
      }
      if i == |text| {
        MatchesSomewhere(re, text);
        return false;
      }
      i := i + 1;
    }
  }

  lemma {:induction false} EmptyHere(text: string)
    ensures Here("", text)
  {
    HereWitness("", text, 0);
  }

  lemma {:induction false} EndHere(text: string)
    ensures Here("$", text) <==> text == ""
  {
    if text == "" {
      HereWitness("$", text, 0);
    }
  }

  lemma {:induction false} StarHere(re: string, text: string)
    requires |re| > 1 && re[1] == '*'
    ensures Here(re, text) <==> StarThen(re[0], re[2..], text)
  {
    if Here(re, text) {
      var j := HereSplit(re, text, Star(re[0]), re[2..]);
    }
    if StarThen(re[0], re[2..], text) {
      var j: nat :| j <= |text| && Word(Star(re[0]), text[..j]) && Here(re[2..], text[j..]);
      HereJoin(re, text, Star(re[0]), re[2..], j);
    }
  }

  lemma {:induction false} OneHere(re: string, text: string)
    requires re != "" && !(|re| > 1 && re[1] == '*') && re != "$"
    ensures Here(re, text) <==> text != "" && Accepts(re[0], text[0]) && Here(re[1..], text[1..])
  {
    if Here(re, text) {
      var j := HereSplit(re, text, One(re[0]), re[1..]);
      assert text[..j][0] == text[0];
    }
    if text != "" && Accepts(re[0], text[0]) && Here(re[1..], text[1..]) {
      HereJoin(re, text, One(re[0]), re[1..], 1);
    }
  }

  /** Once a character is refused no longer run is a word of the star. */
  lemma {:induction false} NoLonger(c: char, text: string, i: nat)
    requires i <= |text| && (i == |text| || !Accepts(c, text[i]))
    ensures forall j: nat :: i < j <= |text| ==> !Word(Star(c), text[..j])
  {
    forall j: nat | i < j <= |text| ensures !Word(Star(c), text[..j]) {
      assert text[..j][i] == text[i];
    }
  }

  lemma {:induction false} MatchesPrefix(re: string, text: string)
    requires re != "" && re[0] == '^'
    ensures Matches(re, text) <==> Here(re[1..], text)
  {
    assert forall k :: 0 <= k <= |text| ==> text[0..k] == text[..k];
    if Here(re[1..], text) {
      var k :| 0 <= k <= |text| && (Anchored(re[1..]) ==> k == |text|) && InLanguage(Items(re[1..]), text[..k]);
      assert InLanguage(Items(re[1..]), text[0..k]);
    }
  }

  lemma {:induction false} MatchesAt(re: string, text: string, i: nat)
    requires !(re != "" && re[0] == '^') && i <= |text| && Here(re, text[i..])
    ensures Matches(re, text)
  {
    var k :| 0 <= k <= |text[i..]| && (Anchored(re) ==> k == |text[i..]|) && InLanguage(Items(re), text[i..][..k]);
    assert text[i..][..k] == text[i..i + k];
  }

  lemma {:induction false} MatchesSomewhere(re: string, text: string)
    requires !(re != "" && re[0] == '^')
    ensures Matches(re, text) ==> exists i: nat :: i <= |text| && Here(re, text[i..])
  {
    if Matches(re, text) {
      var i, k :| 0 <= i <= k <= |text| && (Anchored(re) ==> k == |text|) && InLanguage(Items(re), text[i..k]);
      assert text[i..k] == text[i..][..k - i];
      HereWitness(re, text[i..], k - i);
    }
  }
}
