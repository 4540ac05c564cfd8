/** The matcher of grep.c, after chapter 9 of Kernighan and Pike, The Practice of
    Programming, and what its patterns mean. */
module Grep {

  // ------------------------------------------------------------ the matcher

  predicate Same(c: char, d: char) {
    c == '.' || c == d
  }

  /** matchhere: re matches at the beginning of text. */
  predicate MatchHere(re: string, text: string)
    decreases |re|, |text|, 0
  {
    if re == "" then true
    else if |re| > 1 && re[1] == '*' then MatchStar(re[0], re[2..], text)
    else if re == "$" then text == ""
    else text != "" && Same(re[0], text[0]) && MatchHere(re[1..], text[1..])
  }

  /** c* and then re match at the beginning of text. */
  predicate MatchStar(c: char, re: string, text: string)
    decreases |re|, |text|, 1
  {
    MatchHere(re, text) || (text != "" && Same(c, text[0]) && MatchStar(c, re, text[1..]))
  }

  /** The text begins as the pattern says, where . stands for any character. */
  ghost predicate Agree(re: string, text: string) {
    |re| <= |text| && forall i :: 0 <= i < |re| ==> re[i] == '.' || re[i] == text[i]
  }

  lemma AgreeTail(re: string, text: string)
    requires re != "" && text != ""
    ensures Agree(re, text) <==> (re[0] == '.' || re[0] == text[0]) && Agree(re[1..], text[1..])
  {
    if Agree(re[1..], text[1..]) {
      forall i | 1 <= i < |re| ensures re[i] == '.' || re[i] == text[i] {
        assert re[i] == re[1..][i - 1] && text[i] == text[1..][i - 1];
      }
    }
  }

  /** Without * and $, a pattern matches character by character. */
  lemma {:induction false} CharByChar(re: string, text: string)
    requires forall i :: 0 <= i < |re| ==> re[i] != '*' && re[i] != '$'
    ensures MatchHere(re, text) <==> Agree(re, text)
  {
    if re != "" {
      assert re[0] != '*' && re[0] != '$' && (|re| > 1 ==> re[1] != '*');
      if text != "" {
        AgreeTail(re, text);
        CharByChar(re[1..], text[1..]);
      }
    }
  }

  method SearchHere(re: string, text: string) returns (found: bool)
    ensures found == MatchHere(re, text)
    decreases |re|, |text|, 0
  {
    if re == "" { return true; }
    if |re| > 1 && re[1] == '*' {
      found := SearchStar(re[0], re[2..], text);
      return;
    }
    if re == "$" { return text == ""; }
    if text != "" && (re[0] == '.' || re[0] == text[0]) {
      found := SearchHere(re[1..], text[1..]);
      return;
    }
    return false;
  }

  /** matchstar, which tries before it tests for the end. */
  method SearchStar(c: char, re: string, text: string) returns (found: bool)
    ensures found == MatchStar(c, re, text)
    decreases |re|, |text|, 1
  {
    var i := 0;
    while true
      invariant 0 <= i <= |text| && MatchStar(c, re, text) == MatchStar(c, re, text[i..])
      decreases |text| - i
    {
      found := SearchHere(re, text[i..]);
      if found || i == |text| || !(text[i] == c || c == '.') { return; }
      assert text[i..][1..] == text[i + 1..];
      i := i + 1;
    }
  }

  /** match: 1 if the pattern occurs in the text. */
  method Search(re: string, text: string) returns (found: bool)
    ensures found <==> Occurs(re, text)
  {
    if re != "" && re[0] == '^' {
      found := SearchHere(re[1..], text);
      PatternMeans(re[1..], text);
      return;
    }
    var i := 0;
    while true
      invariant 0 <= i <= |text| && forall k :: 0 <= k < i ==> !Means(re, text[k..])
      decreases |text| - i
    {
      found := SearchHere(re, text[i..]);
      PatternMeans(re, text[i..]);
      if found || i == |text| { return; }
      i := i + 1;
    }
  }

  // -------------------------------------------------------------- meanings

  /** c stands for itself, or if it is a dot for any character; c* for a run of such; a
      final $ for the end of the text. */
  datatype Item = One(c: char) | Star(c: char) | End

  function Items(re: string): seq<Item> {
    if re == "" then []
    else if |re| > 1 && re[1] == '*' then [Star(re[0])] + Items(re[2..])
    else if re == "$" then [End]
    else [One(re[0])] + Items(re[1..])
  }

  /** The text that an item stands for. */
  ghost predicate Stands(item: Item, piece: string) {
    match item
    case One(c) => |piece| == 1 && Same(c, piece[0])
    case Star(c) => forall k :: 0 <= k < |piece| ==> Same(c, piece[k])
    case End => piece == ""
  }

  function Concat(pieces: seq<string>): string {
    if pieces == [] then "" else pieces[0] + Concat(pieces[1..])
  }

  /** The text is cut into one piece for each item and a rest, which is empty behind $. */
  ghost predicate Cut(items: seq<Item>, text: string, pieces: seq<string>, rest: string) {
    && |pieces| == |items| && text == Concat(pieces) + rest
    && (forall k :: 0 <= k < |items| ==> Stands(items[k], pieces[k]))
    && (items != [] && items[|items| - 1] == End ==> rest == "")
  }

  ghost predicate Means(re: string, text: string) {
    exists pieces: seq<string>, rest: string :: Cut(Items(re), text, pieces, rest)
  }

  /** The pattern occurs at the beginning if it starts with ^, and anywhere otherwise. */
  ghost predicate Occurs(re: string, text: string) {
    if re != "" && re[0] == '^' then Means(re[1..], text)
    else exists k :: 0 <= k <= |text| && Means(re, text[k..])
  }

  lemma CutCons(item: Item, items: seq<Item>, piece: string, text: string, pieces: seq<string>, rest: string)
    requires Cut(items, text, pieces, rest) && Stands(item, piece) && (items == [] && item == End ==> rest == "")
    ensures Cut([item] + items, piece + text, [piece] + pieces, rest)
  {
    var all := [piece] + pieces;
    assert all[1..] == pieces;
    assert Concat(all) + rest == piece + (Concat(pieces) + rest);
  }

  lemma CutTail(item: Item, items: seq<Item>, text: string, pieces: seq<string>, rest: string)
    requires Cut([item] + items, text, pieces, rest)
    ensures pieces != [] && Stands(item, pieces[0]) && Cut(items, Concat(pieces[1..]) + rest, pieces[1..], rest)
    ensures text == pieces[0] + (Concat(pieces[1..]) + rest)
  {
    var all := [item] + items;
    assert Stands(all[0], pieces[0]);
    forall k | 0 <= k < |items| ensures Stands(items[k], pieces[1..][k]) { assert Stands(all[k + 1], pieces[k + 1]); }
    assert text == pieces[0] + Concat(pieces[1..]) + rest;
    assert items != [] ==> all[|all| - 1] == items[|items| - 1];
  }

  /** The matcher finds what the pattern means, and only that. */
  lemma {:induction false} PatternMeans(re: string, text: string)
    ensures MatchHere(re, text) <==> Means(re, text)
    decreases |re|, |text|, 2
  {
    if re == "" {
      assert Cut(Items(re), text, [], text);
    } else if |re| > 1 && re[1] == '*' {
      StarMeans(re[0], re[2..], text);
      assert Items(re) == [Star(re[0])] + Items(re[2..]);
      assert Means(re, text) <==> StarCut(re[0], re[2..], text);
    } else if re == "$" {
      EndMeans(text);
    } else {
      OneMeans(re, text);
    }
  }

  lemma EndMeans(text: string)
    ensures text == "" <==> Means("$", text)
  {
    assert Items("$") == [End];
    if text == "" { assert Cut([End], text, [""], "") by { assert Concat([""]) == ""; } }
    if Means("$", text) {
      var pieces, rest :| Cut([End], text, pieces, rest);
      CutTail(End, [], text, pieces, rest);
    }
  }

  lemma {:induction false} OneMeans(re: string, text: string)
    requires re != "" && !(|re| > 1 && re[1] == '*') && re != "$"
    ensures (text != "" && Same(re[0], text[0]) && MatchHere(re[1..], text[1..])) <==> Means(re, text)
    decreases |re|, |text|, 1
  {
    var item, items := One(re[0]), Items(re[1..]);
    assert Items(re) == [item] + items;
    if text != "" { PatternMeans(re[1..], text[1..]); }
    if text != "" && Same(re[0], text[0]) && Means(re[1..], text[1..]) {
      var pieces, rest :| Cut(items, text[1..], pieces, rest);
      CutCons(item, items, text[..1], text[1..], pieces, rest);
      assert text == text[..1] + text[1..];
    }
    if Means(re, text) {
      var pieces, rest :| Cut([item] + items, text, pieces, rest);
      CutTail(item, items, text, pieces, rest);
      assert text[1..] == Concat(pieces[1..]) + rest;
    }
  }

  /** c* followed by re, as a pattern. */
  ghost predicate StarCut(c: char, re: string, text: string) {
    exists pieces: seq<string>, rest: string :: Cut([Star(c)] + Items(re), text, pieces, rest)
  }

  lemma {:induction false} StarMeans(c: char, re: string, text: string)
    ensures MatchStar(c, re, text) <==> StarCut(c, re, text)
    decreases |re|, |text|, 3
  {
    PatternMeans(re, text);
    if text != "" { StarMeans(c, re, text[1..]); }
    if MatchHere(re, text) {
      var pieces, rest :| Cut(Items(re), text, pieces, rest);
      CutCons(Star(c), Items(re), "", text, pieces, rest);
      assert "" + text == text;
    } else if MatchStar(c, re, text) {
      StarLonger(c, re, text);
    }
    if StarCut(c, re, text) { StarShorter(c, re, text); }
  }

  lemma StarLonger(c: char, re: string, text: string)
    requires text != "" && Same(c, text[0]) && StarCut(c, re, text[1..])
    ensures StarCut(c, re, text)
  {
    var pieces, rest :| Cut([Star(c)] + Items(re), text[1..], pieces, rest);
    CutTail(Star(c), Items(re), text[1..], pieces, rest);
    var tail := Concat(pieces[1..]) + rest;
    CutCons(Star(c), Items(re), [text[0]] + pieces[0], tail, pieces[1..], rest);
    assert [text[0]] + pieces[0] + tail == text;
  }

  lemma StarShorter(c: char, re: string, text: string)
    requires StarCut(c, re, text)
    ensures Means(re, text) || (text != "" && Same(c, text[0]) && StarCut(c, re, text[1..]))
  {
    var pieces, rest :| Cut([Star(c)] + Items(re), text, pieces, rest);
    CutTail(Star(c), Items(re), text, pieces, rest);
    var tail := Concat(pieces[1..]) + rest;
    if pieces[0] == "" {
      assert text == tail;
    } else {
      CutCons(Star(c), Items(re), pieces[0][1..], tail, pieces[1..], rest);
      assert text[1..] == pieces[0][1..] + tail;
    }
  }
}
