/** The regular-expression matcher of grep.c.

A C string is modelled as the sequence of its characters before the NUL, so
`re[0] == '\0'` is `re == []` and `re[1] == '*'` needs two characters. */
module Grep {

  /** What a pattern says once read: one character, any number of one
      character, or the end of the text. */
  datatype Item = One(c: char) | Star(c: char) | End

  function Parse(re: string): seq<Item> {
    if re == [] then []
    else if |re| >= 2 && re[1] == '*' then [Star(re[0])] + Parse(re[2..])
    else if re == "$" then [End]
    else [One(re[0])] + Parse(re[1..])
  }

  /** The pattern character c stands for the text character t. */
  predicate Stands(c: char, t: char) {
    c == '.' || c == t
  }

  /** The word w is in the language of the items (End consumes nothing). */
  ghost predicate Lang(items: seq<Item>, w: string) {
    if items == [] then w == []
    else match items[0]
      case One(c) => w != [] && Stands(c, w[0]) && Lang(items[1..], w[1..])
      case Star(c) => exists j :: 0 <= j <= |w| && Repeats(c, w, j) && Lang(items[1..], w[j..])
      case End => w == [] && Lang(items[1..], w)
  }

  predicate Repeats(c: char, w: string, j: nat)
    requires j <= |w|
  {
    forall i :: 0 <= i < j ==> Stands(c, w[i])
  }

  predicate Anchored(items: seq<Item>) {
    items != [] && items[|items| - 1] == End
  }

  /** Some prefix of the text is in the language; all of it when the pattern
      ends in an end anchor. */
  ghost predicate MatchesAt(items: seq<Item>, text: string) {
    exists k :: 0 <= k <= |text| && Lang(items, text[..k]) && (Anchored(items) ==> k == |text|)
  }

  /** The meaning of a whole pattern: a leading '^' fixes the position. */
  ghost predicate Matches(re: string, text: string) {
    if re != [] && re[0] == '^' then MatchesAt(Parse(re[1..]), text)
    else exists p :: 0 <= p <= |text| && MatchesAt(Parse(re), text[p..])
  }

  lemma MatchesOne(c: char, rest: seq<Item>, text: string)
    ensures MatchesAt([One(c)] + rest, text) <==>
            text != [] && Stands(c, text[0]) && MatchesAt(rest, text[1..])
  {
    var items := [One(c)] + rest;
    assert items[1..] == rest;
    if MatchesAt(items, text) {
      var k :| 0 <= k <= |text| && Lang(items, text[..k]) && (Anchored(items) ==> k == |text|);
      assert text[..k][1..] == text[1..][..k - 1];
    }
    if text != [] && Stands(c, text[0]) && MatchesAt(rest, text[1..]) {
      var k :| 0 <= k <= |text[1..]| && Lang(rest, text[1..][..k]) && (Anchored(rest) ==> k == |text[1..]|);
      assert text[..k + 1][1..] == text[1..][..k];
      assert Lang(items, text[..k + 1]);
    }
  }

  lemma MatchesStar(c: char, rest: seq<Item>, text: string)
    ensures MatchesAt([Star(c)] + rest, text) <==>
            exists j :: 0 <= j <= |text| && Repeats(c, text, j) && MatchesAt(rest, text[j..])
  {
    var items := [Star(c)] + rest;
    assert items[1..] == rest;
    if MatchesAt(items, text) {
      var k :| 0 <= k <= |text| && Lang(items, text[..k]) && (Anchored(items) ==> k == |text|);
      var w := text[..k];
      var j :| 0 <= j <= |w| && Repeats(c, w, j) && Lang(rest, w[j..]);
      assert w[j..] == text[j..][..k - j];
      assert forall i :: 0 <= i < j ==> text[i] == w[i];
      assert Repeats(c, text, j) && MatchesAt(rest, text[j..]);
    }
    if j :| 0 <= j <= |text| && Repeats(c, text, j) && MatchesAt(rest, text[j..]) {
      var k :| 0 <= k <= |text[j..]| && Lang(rest, text[j..][..k]) && (Anchored(rest) ==> k == |text[j..]|);
      var w := text[..j + k];
      assert w[j..] == text[j..][..k];
      assert Repeats(c, w, j);
      assert Lang(items, w);
    }
  }

  /** matchhere: the backtracking recursion decides the declarative meaning. */
  method MatchHere(re: string, text: string) returns (r: bool)
    ensures r <==> MatchesAt(Parse(re), text)
    decreases |re|, |text|, 0
  {
    if re == [] {
      assert Lang([], text[..0]);
      return true;
    }
    if |re| >= 2 && re[1] == '*' {
      MatchesStar(re[0], Parse(re[2..]), text);
      r := MatchStar(re[0], re[2..], text);
      return;
    }
    if re == "$" {
      assert [End][1..] == [];
      assert Lang([End], []) && text[..0] == [];
      return text == [];
    }
    MatchesOne(re[0], Parse(re[1..]), text);
    if text != [] && (re[0] == '.' || re[0] == text[0]) {
      r := MatchHere(re[1..], text[1..]);
    } else {
      r := false;
    }
  }

  /** matchstar: its do-while loop finds the shortest run that lets the rest match. */
  method MatchStar(c: char, re: string, text: string) returns (r: bool)
    ensures r <==> exists j :: 0 <= j <= |text| && Repeats(c, text, j) && MatchesAt(Parse(re), text[j..])
    decreases |re|, |text|, 1
  {
    var i := 0;
    while true
      invariant 0 <= i <= |text| && Repeats(c, text, i)
      invariant forall j :: 0 <= j < i ==> !MatchesAt(Parse(re), text[j..])
      decreases |text| - i
    {
      var here := MatchHere(re, text[i..]);
      if here { return true; }
      if i < |text| && (text[i] == c || c == '.') {
        i := i + 1;
      } else {
        break;
      }
    }
    forall j | i < j <= |text| ensures !Repeats(c, text, j) {
      assert !Stands(c, text[i]);
    }
    r := false;
  }

  /** match: true exactly when the pattern's meaning holds of the text. */
  method Match(re: string, text: string) returns (r: bool)
    ensures r <==> Matches(re, text)
  {
    if re != [] && re[0] == '^' {
      r := MatchHere(re[1..], text);
      return;
    }
    var p := 0;
    while true
      invariant 0 <= p <= |text|
      invariant forall q :: 0 <= q < p ==> !MatchesAt(Parse(re), text[q..])
      decreases |text| - p
    {
      var here := MatchHere(re, text[p..]);
      if here { return true; }
      if p == |text| { break; }
      p := p + 1;
    }
    r := false;
  }
}
