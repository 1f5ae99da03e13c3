/**
 The pattern matcher of grep.c against the language that a pattern denotes. A C string
 is the characters before its terminator.
*/
module Grep {
  /** A character, or any run of one; '.' is any character. */
  datatype Item = One(c: char) | Many(c: char)

  /** anchored is a leading ^, toEnd a final $. */
  datatype Body = Body(items: seq<Item>, toEnd: bool)
  datatype Pattern = Pattern(anchored: bool, body: Body)

  // ---------- what a pattern says ----------

  function ParseBody(re: string): Body {
    if re == "" then Body([], false)
    else if |re| > 1 && re[1] == '*' then
      var rest := ParseBody(re[2..]);
      Body([Many(re[0])] + rest.items, rest.toEnd)
    else if re == "$" then Body([], true)
    else
      var rest := ParseBody(re[1..]);
      Body([One(re[0])] + rest.items, rest.toEnd)
  }

  function Parse(re: string): Pattern {
    if re != "" && re[0] == '^' then Pattern(true, ParseBody(re[1..])) else Pattern(false, ParseBody(re))
  }

  // ---------- the language ----------

  predicate Fits(c: char, x: char) {
    c == '.' || c == x
  }

  predicate InItem(item: Item, w: string) {
    match item
    case One(c) => |w| == 1 && Fits(c, w[0])
    case Many(c) => forall i :: 0 <= i < |w| ==> Fits(c, w[i])
  }

  /** w is a word of each item in turn, one after the other. */
  ghost predicate InLang(items: seq<Item>, w: string)
    decreases |items|, 1
  {
    if items == [] then w == ""
    else exists k: nat :: k <= |w| && Split(items, w, k)
  }

  ghost predicate Split(items: seq<Item>, w: string, k: nat)
    requires items != [] && k <= |w|
    decreases |items|, 0
  {
    InItem(items[0], w[..k]) && InLang(items[1..], w[k..])
  }

  /** Some word of the language starts text; with toEnd it is all of text. */
  ghost predicate Starts(b: Body, text: string) {
    exists j: nat :: j <= |text| && StartsAt(b, text, j)
  }

  ghost predicate StartsAt(b: Body, text: string, j: nat)
    requires j <= |text|
  {
    (b.toEnd ==> j == |text|) && InLang(b.items, text[..j])
  }

  /** Some stretch of text is a word of the language, where the anchors allow. */
  ghost predicate Denotes(p: Pattern, text: string) {
    exists i: nat :: i <= |text| && (p.anchored ==> i == 0) && Starts(p.body, text[i..])
  }

  // ---------- how a match begins ----------

  lemma NothingLeft(b: Body, text: string)
    requires b.items == []
    ensures Starts(b, text) <==> (b.toEnd ==> text == "")
  {
    assert text[..0] == "";
    assert !b.toEnd || text == "" ==> StartsAt(b, text, 0);
    assert forall j: nat :: j <= |text| && StartsAt(b, text, j) ==> j == 0;
  }

  function Rest(b: Body): Body
    requires b.items != []
  {
    Body(b.items[1..], b.toEnd)
  }

  /** A word of items is a word of the first and a word of the rest. */
  lemma StartsSplit(b: Body, text: string)
    requires b.items != []
    ensures Starts(b, text) <==>
            exists k: nat :: k <= |text| && InItem(b.items[0], text[..k]) && Starts(Rest(b), text[k..])
  {
    if Starts(b, text) {
      var j: nat :| j <= |text| && StartsAt(b, text, j);
      assert InLang(b.items, text[..j]);
      var k: nat :| k <= |text[..j]| && Split(b.items, text[..j], k);
      assert text[..j][..k] == text[..k] && text[..j][k..] == text[k..][..j - k];
      assert StartsAt(Rest(b), text[k..], j - k);
    }
    forall k: nat | k <= |text| && InItem(b.items[0], text[..k]) && Starts(Rest(b), text[k..]) ensures Starts(b, text) {
      var i: nat :| i <= |text[k..]| && StartsAt(Rest(b), text[k..], i);
      assert text[..k + i][..k] == text[..k] && text[..k + i][k..] == text[k..][..i];
      assert Split(b.items, text[..k + i], k);
      assert StartsAt(b, text, k + i);
    }
  }

  lemma StartsOne(b: Body, text: string)
    requires b.items != [] && b.items[0].One?
    ensures Starts(b, text) <==> text != "" && Fits(b.items[0].c, text[0]) && Starts(Rest(b), text[1..])
  {
    StartsSplit(b, text);
    if text != "" { assert text[..1] == [text[0]]; }
  }

  // ---------- what some patterns mean ----------

  /** Characters that stand for themselves. */
  predicate Plain(re: string) {
    forall c :: c in re ==> c != '.' && c != '*' && c != '^' && c != '$'
  }

  predicate PartAt(re: string, text: string, i: nat) {
    i + |re| <= |text| && text[i..i + |re|] == re
  }

  lemma {:induction false} PlainItems(re: string, end: string)
    requires Plain(re) && (end == "" || end == "$")
    ensures ParseBody(re + end).toEnd <==> end == "$"
    ensures forall w :: InLang(ParseBody(re + end).items, w) <==> w == re
    decreases |re|
  {
    if re == "" {
      assert re + end == end;
    } else {
      var rest := ParseBody(re[1..] + end);
      assert (re + end)[1..] == re[1..] + end && re[0] in re;
      assert |re| > 1 ==> re[1] in re;
      assert forall c :: c in re[1..] ==> c in re;
      PlainItems(re[1..], end);
      var b := ParseBody(re + end);
      assert b.items == [One(re[0])] + rest.items;
      forall w ensures InLang(b.items, w) <==> w == re {
        OneThen(re[0], rest.items, re[1..], w);
      }
    }
  }

  lemma LangSplits(items: seq<Item>, w: string)
    requires items != [] && InLang(items, w)
    ensures exists k: nat :: k <= |w| && Split(items, w, k)
  {
    assert InLang(items, w);
  }

  lemma SplitInLang(items: seq<Item>, w: string, k: nat)
    requires items != [] && k <= |w| && Split(items, w, k)
    ensures InLang(items, w)
  {
    assert Split(items, w, k);
  }

  lemma OneThen(c: char, items: seq<Item>, re: string, w: string)
    requires c != '.' && forall v :: InLang(items, v) <==> v == re
    ensures InLang([One(c)] + items, w) <==> w == [c] + re
  {
    var all := [One(c)] + items;
    assert all != [] && all[0] == One(c) && all[1..] == items;
    if InLang(all, w) {
      LangSplits(all, w);
      var k: nat :| k <= |w| && Split(all, w, k);
      assert w == w[..k] + w[k..];
    }
    if w == [c] + re {
      assert w[..1] == [c] && w[1..] == re;
      SplitInLang(all, w, 1);
    }
  }

  /** A pattern of plain characters matches the text that it is a part of, with ^ a start of,
      with $ an end of, and with both the text that it is. */
  lemma PlainPatterns(re: string, text: string)
    requires Plain(re)
    ensures Denotes(Parse(re), text) <==> exists i: nat :: PartAt(re, text, i)
    ensures Denotes(Parse("^" + re), text) <==> |re| <= |text| && text[..|re|] == re
    ensures Denotes(Parse(re + "$"), text) <==> |re| <= |text| && text[|text| - |re|..] == re
    ensures Denotes(Parse("^" + re + "$"), text) <==> text == re
  {
    PlainItems(re, "");
    PlainItems(re, "$");
    assert re + "" == re && ("^" + re)[1..] == re && ("^" + re + "$")[1..] == re + "$";
    assert re != "" ==> re[0] in re && (re + "$")[0] == re[0];
    assert text[0..] == text && Parse("^" + re).anchored && Parse("^" + re + "$").anchored;
    assert !Parse(re).anchored && !Parse(re + "$").anchored;
    var body, ends := ParseBody(re), ParseBody(re + "$");
    assert Parse(re) == Pattern(false, body) && Parse(re + "$") == Pattern(false, ends);
    assert Parse("^" + re) == Pattern(true, body) && Parse("^" + re + "$") == Pattern(true, ends);
    hide Parse, ParseBody, InLang, Starts, Plain;
    forall i: nat | i <= |text|
      ensures Starts(body, text[i..]) <==> PartAt(re, text, i)
      ensures Starts(ends, text[i..]) <==> text[i..] == re
    {
      WordStarts(body, re, text[i..]);
      WordStarts(ends, re, text[i..]);
      if i + |re| <= |text| { assert text[i..][..|re|] == text[i..i + |re|]; }
    }
    PlainDenotes(body, ends, re, text);
  }

  lemma PlainDenotes(body: Body, ends: Body, re: string, text: string)
    requires forall i: nat :: i <= |text| ==>
               (Starts(body, text[i..]) <==> PartAt(re, text, i))
    requires forall i: nat :: i <= |text| ==> (Starts(ends, text[i..]) <==> text[i..] == re)
    ensures Denotes(Pattern(false, body), text) <==> exists i: nat :: PartAt(re, text, i)
    ensures Denotes(Pattern(true, body), text) <==> |re| <= |text| && text[..|re|] == re
    ensures Denotes(Pattern(false, ends), text) <==> |re| <= |text| && text[|text| - |re|..] == re
    ensures Denotes(Pattern(true, ends), text) <==> text == re
  {
    hide Starts;
    if |re| <= |text| { assert text[0..|re|] == text[..|re|]; }
    assert text[0..] == text;
    if |re| <= |text| && text[|text| - |re|..] == re { assert Starts(ends, text[|text| - |re|..]); }
    if text == re { assert Starts(ends, text[0..]); }
    if |re| <= |text| && text[..|re|] == re { assert Starts(body, text[0..]); }
    if i: nat :| PartAt(re, text, i) { assert Starts(body, text[i..]); }
  }

  /** A body whose only word is re. */
  lemma WordStarts(b: Body, re: string, text: string)
    requires forall w :: InLang(b.items, w) <==> w == re
    ensures Starts(b, text) <==> if b.toEnd then text == re else |re| <= |text| && text[..|re|] == re
  {
    hide InLang;
    assert text[..|text|] == text;
    if |re| <= |text| && text[..|re|] == re && (b.toEnd ==> text == re) { assert StartsAt(b, text, |re|); }
  }

  /** A dot is any one character, and a star any run. */
  lemma DotAndStar(c: char, text: string)
    requires c != '.'
    ensures Denotes(Parse("^.$"), text) <==> |text| == 1
    ensures Denotes(Parse("^.*$"), text)
    ensures Denotes(Parse("^" + [c] + "*$"), text) <==> forall i :: 0 <= i < |text| ==> text[i] == c
  {
    assert ParseBody("$") == Body([], true);
    assert ".$"[1..] == "$" && ".*$"[2..] == "$" && ([c] + "*$")[2..] == "$";
    assert "^.$"[1..] == ".$" && "^.*$"[1..] == ".*$" && ("^" + [c] + "*$")[1..] == [c] + "*$";
    assert Parse("^.$") == Pattern(true, Body([One('.')], true));
    assert Parse("^.*$") == Pattern(true, Body([Many('.')], true));
    assert Parse("^" + [c] + "*$") == Pattern(true, Body([Many(c)], true));
    OneItem(One('.'), text);
    OneItem(Many('.'), text);
    OneItem(Many(c), text);
  }

  lemma OneItem(item: Item, text: string)
    ensures Denotes(Pattern(true, Body([item], true)), text) <==> InItem(item, text)
  {
    var b := Body([item], true);
    assert text[0..] == text && text[..|text|] == text && text[|text|..] == "" && [item][1..] == [];
    if InItem(item, text) {
      assert Split([item], text, |text|);
      assert StartsAt(b, text, |text|);
      assert Starts(b, text[0..]);
    }
    if Starts(b, text) {
      var j: nat :| j <= |text| && StartsAt(b, text, j);
      LangSplits([item], text);
      var k: nat :| k <= |text| && Split([item], text, k);
      assert [item][1..] == [] && InLang([], text[k..]);
      assert text[k..] == "" && text[..k] == text;
    }
  }

  // ---------- the matcher ----------

  /** matchhere. */
  method MatchHere(re: string, text: string) returns (r: bool)
    ensures r <==> Starts(ParseBody(re), text)
    decreases |re|, 0
  {
    var b := ParseBody(re);
    if re == "" {
      NothingLeft(b, text);
      return true;
    }
    if |re| > 1 && re[1] == '*' {
      r := MatchStar(re[0], re[2..], text);
      StartsSplit(b, text);
      assert Rest(b) == ParseBody(re[2..]);
      return;
    }
    if re[0] == '$' && |re| == 1 {
      NothingLeft(b, text);
      return text == "";
    }
    StartsOne(b, text);
    assert Rest(b) == ParseBody(re[1..]);
    if text != "" && (re[0] == '.' || re[0] == text[0]) {
      r := MatchHere(re[1..], text[1..]);
      return;
    }
    return false;
  }

  /** matchstar: re after any number of c, the fewest first. */
  method MatchStar(c: char, re: string, text: string) returns (r: bool)
    ensures r <==> exists k: nat :: k <= |text| && InItem(Many(c), text[..k]) && Starts(ParseBody(re), text[k..])
    decreases |re|, 1
  {
    var i := 0;
    while true
      invariant i <= |text| && InItem(Many(c), text[..i])
      invariant forall k: nat :: k < i ==> !Starts(ParseBody(re), text[k..])
      decreases |text| - i
    {
      var here := MatchHere(re, text[i..]);
      if here { return true; }
      if i == |text| || !(text[i] == c || c == '.') {
        assert forall k: nat :: i < k <= |text| ==> !InItem(Many(c), text[..k]) by {
          forall k: nat | i < k <= |text| ensures !InItem(Many(c), text[..k]) {
            assert text[..k][i] == text[i];
          }
        }
        return false;
      }
      i := i + 1;
    }
  }

  /** match: the pattern matches exactly when some stretch of the text is a word of its
      language. */
  method Match(re: string, text: string) returns (r: bool)
    ensures r <==> Denotes(Parse(re), text)
  {
    assert text[0..] == text;
    if re != "" && re[0] == '^' {
      r := MatchHere(re[1..], text);
      return;
    }
    var i := 0;
    while true
      invariant i <= |text|
      invariant forall k: nat :: k < i ==> !Starts(ParseBody(re), text[k..])
      decreases |text| - i
    {
      var here := MatchHere(re, text[i..]);
      if here { return true; }
      if i == |text| { return false; }
      i := i + 1;
    }
  }
}
