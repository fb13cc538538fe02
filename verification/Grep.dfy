/** The matcher of grep.c against the language of its patterns.

    A string here is the characters before the terminating NUL. */
module Grep {

  // ----- what a pattern means -----

  /** One character, any number of one character, or the end of the text.
      The character '.' stands for any. */
  datatype Item = One(c: char) | Many(c: char) | End

  /** The items of a pattern without its leading '^'. */
  function Parse(re: string): (items: seq<Item>)
  {
    if re == "" then []
    else if |re| >= 2 && re[1] == '*' then [Many(re[0])] + Parse(re[2..])
    else if re == "$" then [End]
    else [One(re[0])] + Parse(re[1..])
  }

  // ----- the syntax -----

  function ShowItem(item: Item): string {
    match item
    case One(c) => [c]
    case Many(c) => [c, '*']
    case End => "$"
  }

  /** The items written out. */
  function Show(items: seq<Item>): string { if items == [] then "" else ShowItem(items[0]) + Show(items[1..]) }

  /** Items that can be written: '$' ends the text only at the end of the pattern and is a character elsewhere,
      and a character in front of '*' is repeated. */
  predicate Writable(items: seq<Item>) {
    items != [] ==>
      && Writable(items[1..])
      && match items[0]
         case One(c) => if |items| == 1 then c != '$' else items[1].End? || items[1].c != '*'
         case Many(_) => true
         case End => |items| == 1
  }

  lemma ShowStarts(items: seq<Item>)
    requires Writable(items) && items != []
    ensures Show(items) != "" && Show(items)[0] == if items[0].End? then '$' else items[0].c
    ensures Show(items)[|ShowItem(items[0])|..] == Show(items[1..])
  {
  }

  /** Every list of items that can be written is what the pattern it is written as means. */
  lemma {:induction false} ParseShow(items: seq<Item>)
    requires Writable(items)
    ensures Parse(Show(items)) == items
  {
    if items != [] {
      ParseShow(items[1..]);
      ShowStarts(items);
      if |items| > 1 {
        ShowStarts(items[1..]);
      }
    }
  }

  /** And every pattern is the writing of exactly its items. */
  lemma {:induction false} ShowParse(re: string)
    ensures Writable(Parse(re)) && Show(Parse(re)) == re
    ensures re != "" ==> Parse(re) != [] && (if Parse(re)[0].End? then '$' else Parse(re)[0].c) == re[0]
  {
    if re == "" {
    } else if |re| >= 2 && re[1] == '*' {
      ShowParse(re[2..]);
      assert Parse(re)[1..] == Parse(re[2..]);
      assert re == [re[0], '*'] + re[2..];
    } else if re != "$" {
      ShowParse(re[1..]);
      assert Parse(re)[1..] == Parse(re[1..]);
      assert re == [re[0]] + re[1..];
    }
  }

  predicate Fits(c: char, x: char) { c == '.' || c == x }

  predicate AllFit(c: char, s: string) {
    forall i :: 0 <= i < |s| ==> Fits(c, s[i])
  }

  /** The strings of one item. */
  predicate Denotes(item: Item, s: string) {
    match item
    case One(c) => |s| == 1 && Fits(c, s[0])
    case Many(c) => AllFit(c, s)
    case End => s == ""
  }

  function Concat(pieces: seq<string>): string {
    if pieces == [] then "" else pieces[0] + Concat(pieces[1..])
  }

  /** s is in the language of the items: it is cut into one piece for each. */
  ghost predicate InLanguage(items: seq<Item>, s: string) {
    exists pieces :: Cut(items, pieces, s)
  }

  ghost predicate Cut(items: seq<Item>, pieces: seq<string>, s: string) {
    |pieces| == |items| && Concat(pieces) == s && forall i :: 0 <= i < |items| ==> Denotes(items[i], pieces[i])
  }

  predicate Anchored(items: seq<Item>) {
    items != [] && items[|items| - 1].End?
  }

  /** text starts with a string of the language, which is all of text if the pattern ends in '$'. */
  ghost predicate StartsWith(items: seq<Item>, text: string) {
    exists j :: 0 <= j <= |text| && (Anchored(items) ==> j == |text|) && InLanguage(items, text[..j])
  }

  /** Some substring of text is in the language; a prefix if the pattern starts with '^'. */
  ghost predicate Finds(re: string, text: string) {
    if re != "" && re[0] == '^' then StartsWith(Parse(re[1..]), text)
    else exists i :: 0 <= i <= |text| && StartsWith(Parse(re), text[i..])
  }

  // ----- one item at a time -----

  lemma StartsEmpty(text: string)
    ensures StartsWith([], text)
  {
    assert Cut([], [], text[..0]);
  }

  lemma StartsEnd(text: string)
    ensures StartsWith([End], text) <==> text == ""
  {
    if text == "" {
      assert Concat([""]) == text[..0] by { assert [""][1..] == []; }
      assert Cut([End], [""], text[..0]);
      assert InLanguage([End], text[..0]);
    }
    if StartsWith([End], text) {
      var j :| 0 <= j <= |text| && j == |text| && InLanguage([End], text[..j]);
      var pieces :| Cut([End], pieces, text[..j]);
      assert Denotes([End][0], pieces[0]);
      assert Concat(pieces) == pieces[0] + Concat(pieces[1..]);
      assert text[..j] == text;
    }
  }

  lemma TakeSplit(text: string, k: nat, j: nat)
    requires k + j <= |text|
    ensures text[..k + j] == text[..k] + text[k..][..j]
  {
  }

  /** Put a piece before a cut. */
  lemma StartsCons(item: Item, rest: seq<Item>, text: string, k: nat)
    requires k <= |text| && Denotes(item, text[..k]) && StartsWith(rest, text[k..])
    requires !item.End?
    ensures StartsWith([item] + rest, text)
  {
    var j :| 0 <= j <= |text| - k && (Anchored(rest) ==> j == |text| - k) && InLanguage(rest, text[k..][..j]);
    var pieces :| Cut(rest, pieces, text[k..][..j]);
    var ps, items := [text[..k]] + pieces, [item] + rest;
    assert ps[1..] == pieces;
    TakeSplit(text, k, j);
    forall i | 0 <= i < |items|
      ensures Denotes(items[i], ps[i])
    {
      assert i > 0 ==> Denotes(rest[i - 1], pieces[i - 1]);
    }
    assert Cut(items, ps, text[..k + j]);
  }

  /** Take the first piece off a cut. */
  lemma StartsUncons(item: Item, rest: seq<Item>, text: string) returns (k: nat)
    requires StartsWith([item] + rest, text)
    ensures k <= |text| && Denotes(item, text[..k]) && StartsWith(rest, text[k..])
  {
    var items := [item] + rest;
    var j :| 0 <= j <= |text| && (Anchored(items) ==> j == |text|) && InLanguage(items, text[..j]);
    var pieces :| Cut(items, pieces, text[..j]);
    assert Denotes(items[0], pieces[0]);
    k := |pieces[0]|;
    assert text[..j] == pieces[0] + Concat(pieces[1..]);
    assert text[..k] == text[..j][..k] == pieces[0];
    assert text[k..][..j - k] == text[..j][k..] == Concat(pieces[1..]);
    forall i | 0 <= i < |rest|
      ensures Denotes(rest[i], pieces[1..][i])
    {
      assert Denotes(items[i + 1], pieces[i + 1]);
    }
    assert Cut(rest, pieces[1..], text[k..][..j - k]);
  }

  lemma StartsOne(c: char, rest: seq<Item>, text: string)
    ensures StartsWith([One(c)] + rest, text) <==> text != "" && Fits(c, text[0]) && StartsWith(rest, text[1..])
  {
    if StartsWith([One(c)] + rest, text) {
      var k := StartsUncons(One(c), rest, text);
    }
    if text != "" && Fits(c, text[0]) && StartsWith(rest, text[1..]) {
      StartsCons(One(c), rest, text, 1);
    }
  }

  /** k characters for the starred one, then the rest. */
  ghost predicate StarTakes(c: char, rest: seq<Item>, text: string, k: nat) {
    k <= |text| && AllFit(c, text[..k]) && StartsWith(rest, text[k..])
  }

  ghost predicate StarMatches(c: char, rest: seq<Item>, text: string) {
    exists k: nat :: StarTakes(c, rest, text, k)
  }

  /** The starred character takes nothing beyond the first that does not fit. */
  lemma StarStops(c: char, rest: seq<Item>, text: string, i: nat, k: nat)
    requires k < i && (k >= |text| || !Fits(c, text[k]))
    ensures !StarTakes(c, rest, text, i)
  {
    assert i <= |text| ==> text[..i][k] == text[k];
  }

  lemma StartsMany(c: char, rest: seq<Item>, text: string)
    ensures StartsWith([Many(c)] + rest, text) <==> StarMatches(c, rest, text)
  {
    if StartsWith([Many(c)] + rest, text) {
      var k := StartsUncons(Many(c), rest, text);
      assert StarTakes(c, rest, text, k);
    }
    if k :| StarTakes(c, rest, text, k) {
      StartsCons(Many(c), rest, text, k);
    }
  }

  // ----- the matcher -----

  /** matchhere */
  method MatchHere(re: string, text: string) returns (r: bool)
    ensures r <==> StartsWith(Parse(re), text)
    decreases |re|, 0
  {
    if re == "" {
      StartsEmpty(text);
      return true;
    }
    if |re| >= 2 && re[1] == '*' {
      assert Parse(re) == [Many(re[0])] + Parse(re[2..]);
      StartsMany(re[0], Parse(re[2..]), text);
      r := MatchStar(re[0], re[2..], text);
      return;
    }
    if re == "$" {
      StartsEnd(text);
      return text == "";
    }
    StartsOne(re[0], Parse(re[1..]), text);
    if text != "" && (re[0] == '.' || re[0] == text[0]) {
      r := MatchHere(re[1..], text[1..]);
    } else {
      r := false;
    }
  }

  /** matchstar: shortest first */
  method MatchStar(c: char, re: string, text: string) returns (r: bool)
    ensures r <==> StarMatches(c, Parse(re), text)
    decreases |re|, 1
  {
    var k := 0;
    while true
      invariant k <= |text| && AllFit(c, text[..k])
      invariant forall i :: 0 <= i < k ==> !StarTakes(c, Parse(re), text, i)
      decreases |text| - k
    {
      r := MatchHere(re, text[k..]);
      if r {
        assert StarTakes(c, Parse(re), text, k);
        return true;
      }
      if !(k < |text| && (text[k] == c || c == '.')) {
        forall i: nat
          ensures !StarTakes(c, Parse(re), text, i)
        {
          if i > k {
            StarStops(c, Parse(re), text, i, k);
          }
        }
        return false;
      }
      k := k + 1;
    }
  }

  /** match */
  method Match(re: string, text: string) returns (r: bool)
    ensures r <==> Finds(re, text)
  {
    if re != "" && re[0] == '^' {
      r := MatchHere(re[1..], text);
      return;
    }
    var i := 0;
    while true
      invariant i <= |text|
      invariant forall k :: 0 <= k < i ==> !StartsWith(Parse(re), text[k..])
      decreases |text| - i
    {
      r := MatchHere(re, text[i..]);
      if r {
        return true;
      }
      if i == |text| {
        return false;
      }
      i := i + 1;
    }
  }

  // ----- the meaning in terms of the text -----

  /** The pattern starts with '^'. */
  predicate Hat(re: string) { re != "" && re[0] == '^' }

  /** The rest of the pattern. */
  function Items(re: string): seq<Item> { Parse(if Hat(re) then re[1..] else re) }

  /** text[i..j] is in the language, and lies where the anchors say. */
  ghost predicate Occurs(re: string, text: string, i: nat, j: nat) {
    && i <= j <= |text| && (Hat(re) ==> i == 0) && (Anchored(Items(re)) ==> j == |text|)
    && InLanguage(Items(re), text[i..j])
  }

  /** A match is a substring in the language: at the start of the text after '^', at its end before '$'. */
  lemma FindsIff(re: string, text: string)
    ensures Finds(re, text) <==> exists i: nat, j: nat :: Occurs(re, text, i, j)
  {
    if Finds(re, text) {
      var i :| 0 <= i <= |text| && (Hat(re) ==> i == 0) && StartsWith(Items(re), text[i..]);
      StartOccurs(re, text, i);
    }
    if i: nat, j: nat :| Occurs(re, text, i, j) {
      assert text[i..][..j - i] == text[i..j];
      assert StartsWith(Items(re), text[i..]);
      assert text[0..] == text;
    }
  }

  lemma StartOccurs(re: string, text: string, i: nat)
    requires i <= |text| && (Hat(re) ==> i == 0) && StartsWith(Items(re), text[i..])
    ensures exists j: nat :: Occurs(re, text, i, j)
  {
    var j :| 0 <= j <= |text| - i && (Anchored(Items(re)) ==> j == |text| - i) && InLanguage(Items(re), text[i..][..j]);
    assert text[i..][..j] == text[i..i + j];
    assert Occurs(re, text, i, i + j);
  }

  /** Without '^' and '$', any substring. */
  lemma FindsSubstring(re: string, text: string)
    requires !Hat(re) && !Anchored(Parse(re))
    ensures Finds(re, text) <==> exists i, j :: 0 <= i <= j <= |text| && InLanguage(Parse(re), text[i..j])
  {
    FindsIff(re, text);
    if i, j :| 0 <= i <= j <= |text| && InLanguage(Parse(re), text[i..j]) {
      assert Occurs(re, text, i, j);
    }
  }

  /** With both, the whole text. */
  lemma FindsWhole(re: string, text: string)
    requires Hat(re) && Anchored(Parse(re[1..]))
    ensures Finds(re, text) <==> InLanguage(Parse(re[1..]), text)
  {
    FindsIff(re, text);
    assert text[0..|text|] == text;
    assert InLanguage(Items(re), text) ==> Occurs(re, text, 0, |text|);
  }
}
