/** The pattern matcher of P5_XV6_CoW_Fork/user/grep.c against the meaning of its patterns.
    Strings are sequences without their terminator. */
module Grep {
  /** c, with '.' any; a run of such characters; the end of the text. */
  datatype Item = One(c: char) | Star(c: char) | End

  /** How the matcher reads a pattern: a star binds the character before it, and a dollar is the end
      only when it is last. */
  function Parse(re: string): seq<Item>
  {
    if re == [] then []
    else if |re| >= 2 && re[1] == '*' then [Star(re[0])] + Parse(re[2..])
    else if re == "$" then [End]
    else [One(re[0])] + Parse(re[1..])
  }

  // An item as a pattern has it.
  function ShowItem(item: Item): string {
    match item
    case One(c) => [c]
    case Star(c) => [c, '*']
    case End => "$"
  }

  /** The pattern that writes the items one after the other. */
  function Show(items: seq<Item>): string { if items == [] then [] else ShowItem(items[0]) + Show(items[1..]) }

  /** The items a pattern can stand for: the end is last, a plain dollar is not, and nothing that
      begins with an asterisk follows a plain character. */
  predicate Readable(items: seq<Item>) {
    forall i | 0 <= i < |items| ::
      && (items[i].End? ==> i == |items| - 1)
      && (items[i] == One('$') ==> i < |items| - 1)
      && (items[i].One? && i < |items| - 1 ==> ShowItem(items[i + 1])[0] != '*')
  }

  lemma {:induction false} ParseBack(items: seq<Item>)
    requires Readable(items)
    ensures Parse(Show(items)) == items
    decreases |items|
  {
    if items != [] {
      var rest := Show(items[1..]);
      ParseBack(items[1..]);
      if |items| > 1 { ShowStarts(items[1..]); }
      var re := Show(items);
      match items[0]
      case Star(c) => assert re[2..] == rest;
      case One(c) => assert re[1..] == rest;
      case End => assert re == "$" + "" == "$";
    }
  }

  lemma ShowStarts(items: seq<Item>)
    requires items != []
    ensures Show(items) != [] && Show(items)[0] == ShowItem(items[0])[0]
  {
  }

  /** Reading and writing patterns are inverse to each other: every pattern stands for exactly one
      readable list of items, and every such list has exactly one pattern. */
  lemma {:induction false} ParseShow(re: string)
    ensures Readable(Parse(re)) && Show(Parse(re)) == re
    decreases |re|
  {
    if re != [] {
      if |re| >= 2 && re[1] == '*' {
        ParseShow(re[2..]);
        assert Parse(re)[1..] == Parse(re[2..]) && re == [re[0], '*'] + re[2..];
        ReadableMore(Star(re[0]), Parse(re[2..]));
      } else if re != "$" {
        ParseShow(re[1..]);
        assert Parse(re)[1..] == Parse(re[1..]) && re == [re[0]] + re[1..];
        if Parse(re[1..]) != [] { ShowStarts(Parse(re[1..])); }
        ReadableMore(One(re[0]), Parse(re[1..]));
      }
    }
  }

  lemma ReadableMore(item: Item, items: seq<Item>)
    requires Readable(items) && !item.End? && (item == One('$') ==> items != [])
    requires item.One? && items != [] ==> ShowItem(items[0])[0] != '*'
    ensures Readable([item] + items)
  {
    var all := [item] + items;
    assert forall i | 1 <= i < |all| :: all[i] == items[i - 1];
  }

  predicate Fits(c: char, x: char) { c == '.' || c == x }

  predicate AllFit(c: char, s: string) { forall i | 0 <= i < |s| :: Fits(c, s[i]) }

  predicate PieceOk(item: Item, piece: string) {
    match item
    case One(c) => |piece| == 1 && Fits(c, piece[0])
    case Star(c) => AllFit(c, piece)
    case End => piece == []
  }

  function Flat(pieces: seq<string>): string { if pieces == [] then [] else pieces[0] + Flat(pieces[1..]) }

  /** The text splits into one piece for each item and a rest, which is empty if the last item is
      the end. */
  ghost predicate Splits(items: seq<Item>, text: string, pieces: seq<string>, rest: string) {
    && |pieces| == |items| && text == Flat(pieces) + rest
    && (forall i | 0 <= i < |items| :: PieceOk(items[i], pieces[i]))
    && (items != [] && items[|items| - 1].End? ==> rest == [])
  }

  ghost predicate Means(items: seq<Item>, text: string) { exists pieces, rest :: Splits(items, text, pieces, rest) }

  // ---------------------------------------------------------------- item by item

  lemma MeansNothing(text: string)
    ensures Means([], text)
  {
    assert Splits([], text, [], text);
  }

  lemma MeansEnd(text: string)
    ensures Means([End], text) <==> text == []
  {
    if text == [] { assert Splits([End], text, [[]], []); }
    if Means([End], text) {
      var pieces, rest :| Splits([End], text, pieces, rest);
      assert pieces[0] == [] && pieces[1..] == [];
      assert Flat(pieces) == [];
    }
  }

  // A split of the rest and a piece in front of it.
  lemma SplitMore(item: Item, items: seq<Item>, text: string, k: nat)
    requires k <= |text| && PieceOk(item, text[..k]) && Means(items, text[k..]) && (items == [] ==> !item.End?)
    ensures Means([item] + items, text)
  {
    var pieces, rest :| Splits(items, text[k..], pieces, rest);
    var all, more := [item] + items, [text[..k]] + pieces;
    assert more[1..] == pieces && text == text[..k] + text[k..];
    assert text[..k] + (Flat(pieces) + rest) == text[..k] + Flat(pieces) + rest;
    assert forall i | 1 <= i < |all| :: all[i] == items[i - 1] && more[i] == pieces[i - 1];
    assert Splits(all, text, more, rest);
  }

  lemma SplitLess(item: Item, items: seq<Item>, text: string) returns (k: nat)
    requires Means([item] + items, text)
    ensures k <= |text| && PieceOk(item, text[..k]) && Means(items, text[k..])
  {
    var all := [item] + items;
    var pieces, rest :| Splits(all, text, pieces, rest);
    k := |pieces[0]|;
    assert all[0] == item && all[1..] == items;
    assert text == pieces[0] + (Flat(pieces[1..]) + rest);
    assert text[..k] == pieces[0] && text[k..] == Flat(pieces[1..]) + rest;
    assert forall i | 0 <= i < |items| :: items[i] == all[i + 1] && pieces[1..][i] == pieces[i + 1];
    assert Splits(items, text[k..], pieces[1..], rest);
  }

  lemma MeansOne(c: char, items: seq<Item>, text: string)
    ensures Means([One(c)] + items, text) <==> text != [] && (c == '.' || c == text[0]) && Means(items, text[1..])
  {
    if text != [] && Fits(c, text[0]) && Means(items, text[1..]) { SplitMore(One(c), items, text, 1); }
    if Means([One(c)] + items, text) { var k := SplitLess(One(c), items, text); }
  }

  // Some run of fitting characters can go before a match of the rest.
  ghost predicate StarAt(c: char, items: seq<Item>, text: string, k: nat) {
    k <= |text| && (forall i | 0 <= i < k :: c == '.' || c == text[i]) && Means(items, text[k..])
  }

  ghost predicate StarMeans(c: char, items: seq<Item>, text: string) { exists k :: StarAt(c, items, text, k) }

  lemma MeansStar(c: char, items: seq<Item>, text: string)
    ensures Means([Star(c)] + items, text) <==> StarMeans(c, items, text)
  {
    if StarMeans(c, items, text) {
      var k :| StarAt(c, items, text, k);
      SplitMore(Star(c), items, text, k);
    }
    if Means([Star(c)] + items, text) {
      var k := SplitLess(Star(c), items, text);
      assert StarAt(c, items, text, k);
    }
  }

  /** A pattern without special characters stands for itself. */
  lemma {:induction false} PlainPattern(re: string, text: string)
    requires forall i | 0 <= i < |re| :: re[i] != '.' && re[i] != '*' && re[i] != '$'
    ensures Means(Parse(re), text) <==> re <= text
    decreases |re|
  {
    hide Means;
    if re == [] {
      MeansNothing(text);
    } else {
      assert Parse(re) == [One(re[0])] + Parse(re[1..]);
      MeansOne(re[0], Parse(re[1..]), text);
      if text != [] {
        PlainPattern(re[1..], text[1..]);
        assert re == [re[0]] + re[1..] && text == [text[0]] + text[1..];
        assert re <= text <==> re[0] == text[0] && re[1..] <= text[1..];
      }
    }
  }

  // ---------------------------------------------------------------- the matcher

  /** matchhere: 1 exactly when some split of the text satisfies the pattern. */
  method MatchHere(re: string, text: string) returns (found: bool)
    ensures found <==> Means(Parse(re), text)
    decreases |re|, 0, |text|
  {
    hide Means;
    if re == [] {
      MeansNothing(text);
      return true;
    }
    if |re| >= 2 && re[1] == '*' {
      assert Parse(re) == [Star(re[0])] + Parse(re[2..]);
      found := MatchStar(re[0], re[2..], text);
      MeansStar(re[0], Parse(re[2..]), text);
      return;
    }
    if re[0] == '$' && |re| == 1 {
      assert re == "$" && Parse(re) == [End];
      MeansEnd(text);
      return text == [];
    }
    assert Parse(re) == [One(re[0])] + Parse(re[1..]);
    MeansOne(re[0], Parse(re[1..]), text);
    if text != [] && (re[0] == '.' || re[0] == text[0]) {
      found := MatchHere(re[1..], text[1..]);
      return;
    }
    return false;
  }

  /** matchstar: tries the shortest run first. */
  method MatchStar(c: char, re: string, text: string) returns (found: bool)
    ensures found <==> StarMeans(c, Parse(re), text)
    decreases |re|, 1, |text|
  {
    hide Means;
    var i := 0;
    while true
      invariant 0 <= i <= |text| && AllFit(c, text[..i])
      invariant forall k | 0 <= k < i :: !StarAt(c, Parse(re), text, k)
      decreases |text| - i
    {
      var here := MatchHere(re, text[i..]);
      if here {
        assert StarAt(c, Parse(re), text, i);
        return true;
      }
      if i == |text| || !(text[i] == c || c == '.') {
        forall k: nat ensures !StarAt(c, Parse(re), text, k) {
          if k > i && k <= |text| { assert text[..k][i] == text[i]; }
        }
        return false;
      }
      assert text[..i + 1] == text[..i] + [text[i]];
      i := i + 1;
    }
  }

  /** match: a caret ties the match to the start of the text; otherwise it may start anywhere, the
      end included. */
  method Match(re: string, text: string) returns (found: bool)
    ensures found <==>
      if re != [] && re[0] == '^' then Means(Parse(re[1..]), text)
      else exists k :: 0 <= k <= |text| && Means(Parse(re), text[k..])
  {
    hide Means;
    if re != [] && re[0] == '^' {
      found := MatchHere(re[1..], text);
      return;
    }
    var i := 0;
    while true
      invariant 0 <= i <= |text| && forall k | 0 <= k < i :: !Means(Parse(re), text[k..])
      decreases |text| - i
    {
      found := MatchHere(re, text[i..]);
      if found || i == |text| { return; }
      i := i + 1;
    }
  }
}
