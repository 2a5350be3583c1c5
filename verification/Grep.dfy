/**
 The regular-expression matcher of grep.c against a declarative meaning of patterns: a
 pattern matches where the text can be cut into pieces, one for each of its items.
 Strings are C strings without their NULs.
 */
module Grep {
  /** An item of a pattern: one character, any number of one, or the end of the text; '.' stands for every character. */
  datatype Item = One(c: char) | Many(c: char) | End

  /**
   * The items of a pattern. A star belongs to the character before it; a dollar sign means the end only in last place.
   */
  function Items(re: string): seq<Item>
    decreases |re|
  {
    if re == "" then []
    else if |re| >= 2 && re[1] == '*' then [Many(re[0])] + Items(re[2..])
    else if re == "$" then [End]
    else [One(re[0])] + Items(re[1..])
  }

  predicate Fits(c: char, x: char) {
    c == '.' || c == x
  }

  /** The texts an item stands for. */
  ghost predicate Stands(item: Item, piece: string) {
    match item
    case One(c) => |piece| == 1 && Fits(c, piece[0])
    case Many(c) => forall k | 0 <= k < |piece| :: Fits(c, piece[k])
    case End => piece == ""
  }

  ghost function Flat(pieces: seq<string>): string {
    if pieces == [] then "" else pieces[0] + Flat(pieces[1..])
  }

  ghost predicate Cuts(items: seq<Item>, pieces: seq<string>, text: string) {
    && |pieces| == |items|
    && (forall i | 0 <= i < |items| :: Stands(items[i], pieces[i]))
    && Flat(pieces) <= text && (End in items ==> Flat(pieces) == text)
  }

  /** The pattern matches at the beginning of the text. */
  ghost predicate MatchesAt(items: seq<Item>, text: string) {
    exists pieces :: Cuts(items, pieces, text)
  }

  /** The pattern matches somewhere in the text; after a caret, at its beginning. */
  ghost predicate Matches(re: string, text: string) {
    if re != "" && re[0] == '^' then MatchesAt(Items(re[1..]), text)
    else exists k :: 0 <= k <= |text| && MatchesAt(Items(re), text[k..])
  }

  // ---------------------------------------------------------------- one item at a time

  lemma NoItems(text: string)
    ensures MatchesAt([], text)
  {
    assert Cuts([], [], text);
  }

  lemma CutsFirst(items: seq<Item>, pieces: seq<string>, text: string)
    requires items != [] && Cuts(items, pieces, text) && !items[0].End?
    ensures Flat(pieces) == pieces[0] + Flat(pieces[1..]) && pieces[0] <= text
    ensures Cuts(items[1..], pieces[1..], text[|pieces[0]|..])
  {
  }

  lemma CutsMore(item: Item, items: seq<Item>, piece: string, pieces: seq<string>, text: string)
    requires Cuts(items, pieces, text) && Stands(item, piece) && (item.End? ==> Flat(pieces) == text && piece == "")
    ensures Cuts([item] + items, [piece] + pieces, piece + text)
  {
  }

  lemma OneMeans(c: char, items: seq<Item>, text: string)
    ensures MatchesAt([One(c)] + items, text) <==> text != "" && Fits(c, text[0]) && MatchesAt(items, text[1..])
  {
    var all := [One(c)] + items;
    assert all[1..] == items;
    forall pieces | Cuts(all, pieces, text)
      ensures text != "" && Fits(c, text[0]) && MatchesAt(items, text[1..])
    {
      CutsFirst(all, pieces, text);
      assert Stands(all[0], pieces[0]);
      assert pieces[0][0] == text[0];
    }
    if text != "" && Fits(c, text[0]) && MatchesAt(items, text[1..]) {
      var pieces :| Cuts(items, pieces, text[1..]);
      CutsMore(One(c), items, [text[0]], pieces, text[1..]);
      assert [text[0]] + text[1..] == text;
    }
  }

  /** A starred character takes nothing, or one character and then is tried again. */
  lemma ManyMeans(c: char, items: seq<Item>, text: string)
    ensures MatchesAt([Many(c)] + items, text) <==>
              MatchesAt(items, text) || (text != "" && Fits(c, text[0]) && MatchesAt([Many(c)] + items, text[1..]))
  {
    var all := [Many(c)] + items;
    assert all[1..] == items;
    forall pieces | Cuts(all, pieces, text)
      ensures MatchesAt(items, text) || (text != "" && Fits(c, text[0]) && MatchesAt(all, text[1..]))
    {
      ManyFirst(c, items, pieces, text);
    }
    if MatchesAt(items, text) {
      var pieces :| Cuts(items, pieces, text);
      CutsMore(Many(c), items, "", pieces, text);
      assert "" + text == text;
    }
    if text != "" && Fits(c, text[0]) && MatchesAt(all, text[1..]) {
      var pieces :| Cuts(all, pieces, text[1..]);
      ManyAgain(c, items, pieces, text);
    }
  }

  lemma ManyFirst(c: char, items: seq<Item>, pieces: seq<string>, text: string)
    requires Cuts([Many(c)] + items, pieces, text)
    ensures MatchesAt(items, text) || (text != "" && Fits(c, text[0]) && MatchesAt([Many(c)] + items, text[1..]))
  {
    var all := [Many(c)] + items;
    assert all[1..] == items;
    CutsFirst(all, pieces, text);
    var p := pieces[0];
    assert Stands(all[0], p);
    if p == "" {
      assert text[0..] == text;
    } else {
      assert p[0] == text[0] && text[1..][|p| - 1..] == text[|p|..];
      CutsMore(Many(c), items, p[1..], pieces[1..], text[|p|..]);
      assert p[1..] + text[|p|..] == text[1..];
    }
  }

  lemma ManyAgain(c: char, items: seq<Item>, pieces: seq<string>, text: string)
    requires text != "" && Fits(c, text[0]) && Cuts([Many(c)] + items, pieces, text[1..])
    ensures MatchesAt([Many(c)] + items, text)
  {
    var all := [Many(c)] + items;
    assert all[1..] == items;
    CutsFirst(all, pieces, text[1..]);
    var p := pieces[0];
    assert Stands(all[0], p);
    CutsMore(Many(c), items, [text[0]] + p, pieces[1..], text[1..][|p|..]);
    assert [text[0]] + p + text[1..][|p|..] == text;
  }

  lemma EndMeans(text: string)
    ensures MatchesAt([End], text) <==> text == ""
  {
    forall pieces | Cuts([End], pieces, text)
      ensures text == ""
    {
      assert pieces[1..] == [] && Stands([End][0], pieces[0]);
    }
    if text == "" {
      assert Flat([""]) == "" by { assert [""][1..] == []; }
      assert Cuts([End], [""], text);
    }
  }

  // ---------------------------------------------------------------- the matcher

  /** Does the pattern match at the beginning of the text? */
  method Matchhere(re: string, text: string) returns (r: bool)
    ensures r <==> MatchesAt(Items(re), text)
    decreases |re|, |text|, 0
  {
    hide MatchesAt;
    if re == "" {
      NoItems(text);
      return true;
    }
    if |re| >= 2 && re[1] == '*' {
      r := Matchstar(re[0], re[2..], text);
      return;
    }
    if re[0] == '$' && |re| == 1 {
      EndMeans(text);
      return text == "";
    }
    OneMeans(re[0], Items(re[1..]), text);
    if text != "" && (re[0] == '.' || re[0] == text[0]) {
      r := Matchhere(re[1..], text[1..]);
      return;
    }
    r := false;
  }

  /** Does c* followed by the pattern match at the beginning of the text? */
  method Matchstar(c: char, re: string, text: string) returns (r: bool)
    ensures r <==> MatchesAt([Many(c)] + Items(re), text)
    decreases |re|, |text|, 1
  {
    hide MatchesAt;
    var i := 0;
    assert text[0..] == text;
    while true
      invariant 0 <= i <= |text|
      invariant MatchesAt([Many(c)] + Items(re), text) <==> MatchesAt([Many(c)] + Items(re), text[i..])
      decreases |text| - i
    {
      ManyMeans(c, Items(re), text[i..]);
      var here := Matchhere(re, text[i..]);
      if here {
        return true;
      }
      if i == |text| || !(text[i] == c || c == '.') {
        return false;
      }
      assert text[i..][1..] == text[i + 1..];
      i := i + 1;
    }
  }

  /** Does the pattern match anywhere? */
  method Match(re: string, text: string) returns (r: bool)
    ensures r <==> Matches(re, text)
  {
    hide MatchesAt, Items;
    if re != "" && re[0] == '^' {
      r := Matchhere(re[1..], text);
      return;
    }
    var i := 0;
    while true
      invariant 0 <= i <= |text| && forall k | 0 <= k < i :: !MatchesAt(Items(re), text[k..])
      decreases |text| - i
    {
      var here := Matchhere(re, text[i..]);
      if here {
        return true;
      }
      if i == |text| {
        return false;
      }
      i := i + 1;
    }
  }
}
