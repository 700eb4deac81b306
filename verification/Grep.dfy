/** grep's regular expression matcher, against the language of the pattern. */
module Grep {

  // ----- the language -----

  /** One element of a pattern: a character, any character (.), or any number
      of instances of a character or of any character. */
  datatype Item = One(c: char) | Star(c: char)

  /** What a character of a pattern stands for: a dot for every character, any
      other for itself. */
  ghost predicate StandsFor(c: char, x: char) { c != '.' ==> x == c }

  ghost predicate InItem(item: Item, w: string) {
    match item
    case One(c) => |w| == 1 && StandsFor(c, w[0])
    case Star(c) => forall k :: 0 <= k < |w| ==> StandsFor(c, w[k])
  }

  /** u is a concatenation of one word for each item. */
  ghost predicate In(items: seq<Item>, u: string)
    decreases |items|
  {
    if items == [] then u == ""
    else exists k :: 0 <= k <= |u| && InItem(items[0], u[..k]) && In(items[1..], u[k..])
  }

  lemma InFirst(item: Item, items: seq<Item>, u: string) returns (k: nat)
    requires In([item] + items, u)
    ensures k <= |u| && InItem(item, u[..k]) && In(items, u[k..])
  {
    assert ([item] + items)[1..] == items;
    k :| 0 <= k <= |u| && InItem(item, u[..k]) && In(items, u[k..]);
  }

  lemma InJoin(item: Item, items: seq<Item>, v: string, w: string)
    requires InItem(item, v) && In(items, w)
    ensures In([item] + items, v + w)
  {
    assert ([item] + items)[1..] == items;
    assert (v + w)[..|v|] == v && (v + w)[|v|..] == w;
  }

  /** Items of a pattern and whether it ends in $.  A $ is special only as the
      whole rest of the pattern, and any character before a * is starred, even
      * itself, $ or ^. */
  datatype Pattern = Pattern(items: seq<Item>, end: bool)

  function Compile(re: string): Pattern {
    if re == "" then Pattern([], false)
    else if |re| > 1 && re[1] == '*' then
      var p := Compile(re[2..]);
      Pattern([Star(re[0])] + p.items, p.end)
    else if re == "$" then Pattern([], true)
    else
      var p := Compile(re[1..]);
      Pattern([One(re[0])] + p.items, p.end)
  }

  /** The first j characters of text are in the language of p. */
  ghost predicate Hits(p: Pattern, text: string, j: nat) {
    j <= |text| && (p.end ==> j == |text|) && In(p.items, text[..j])
  }

  ghost predicate HitsHere(p: Pattern, text: string) {
    exists j :: 0 <= j <= |text| && Hits(p, text, j)
  }

  // ----- the matcher -----

  predicate Fits(c: char, x: char) { c == '.' || c == x }

  predicate MatchHere(re: string, text: string)
    decreases |re|, |text|, 0
  {
    if re == "" then true
    else if |re| > 1 && re[1] == '*' then MatchStar(re[0], re[2..], text)
    else if re == "$" then text == ""
    else text != "" && Fits(re[0], text[0]) && MatchHere(re[1..], text[1..])
  }

  predicate MatchStar(c: char, re: string, text: string)
    decreases |re|, |text|, 1
  {
    MatchHere(re, text) || (text != "" && Fits(c, text[0]) && MatchStar(c, re, text[1..]))
  }

  /** matchstar finds some number of instances after which the rest matches. */
  ghost predicate StarAt(c: char, re: string, text: string, k: nat) {
    k <= |text| && (forall i :: 0 <= i < k ==> Fits(c, text[i])) && MatchHere(re, text[k..])
  }

  lemma {:induction false} StarIs(c: char, re: string, text: string)
    ensures MatchStar(c, re, text) <==> exists k :: 0 <= k <= |text| && StarAt(c, re, text, k)
    decreases |text|
  {
    assert text[0..] == text;
    if MatchHere(re, text) {
      assert StarAt(c, re, text, 0);
    } else if text != "" && Fits(c, text[0]) {
      StarIs(c, re, text[1..]);
      if k :| 0 <= k <= |text[1..]| && StarAt(c, re, text[1..], k) {
        assert text[1..][k..] == text[k + 1..];
        assert StarAt(c, re, text, k + 1);
      }
      if k :| 0 <= k <= |text| && StarAt(c, re, text, k) {
        assert k > 0;
        assert text[1..][k - 1..] == text[k..];
        assert StarAt(c, re, text[1..], k - 1);
      }
    }
  }

  /** matchhere succeeds exactly when a prefix of the text is in the language. */
  lemma {:induction false} HereIsLanguage(re: string, text: string)
    ensures MatchHere(re, text) <==> HitsHere(Compile(re), text)
    decreases |re|, |text|
  {
    var p := Compile(re);
    if re == "" {
      assert Hits(p, text, 0);
    } else if |re| > 1 && re[1] == '*' {
      StarCase(re, text);
    } else if re == "$" {
      if text == "" {
        assert Hits(p, text, 0);
      }
    } else {
      if text != "" {
        HereIsLanguage(re[1..], text[1..]);
      }
      OneCase(re, text);
    }
  }

  lemma OneHits(c: char, q: Pattern, text: string, j: nat)
    requires text != "" && Fits(c, text[0]) && Hits(q, text[1..], j)
    ensures Hits(Pattern([One(c)] + q.items, q.end), text, j + 1)
  {
    InJoin(One(c), q.items, text[..1], text[1..][..j]);
    assert text[..1] + text[1..][..j] == text[..j + 1];
  }

  lemma OneHitsOnly(c: char, q: Pattern, text: string, j: nat)
    requires Hits(Pattern([One(c)] + q.items, q.end), text, j)
    ensures 0 < j && text != "" && Fits(c, text[0]) && Hits(q, text[1..], j - 1)
  {
    var k := InFirst(One(c), q.items, text[..j]);
    assert text[..j][..k][0] == text[0];
    assert text[..j][k..] == text[1..][..j - 1];
  }

  lemma OneCase(re: string, text: string)
    requires re != "" && !(|re| > 1 && re[1] == '*') && re != "$"
    requires text != "" ==> (MatchHere(re[1..], text[1..]) <==> HitsHere(Compile(re[1..]), text[1..]))
    ensures MatchHere(re, text) <==> HitsHere(Compile(re), text)
  {
    var p, q := Compile(re), Compile(re[1..]);
    if MatchHere(re, text) {
      var j :| 0 <= j <= |text[1..]| && Hits(q, text[1..], j);
      OneHits(re[0], q, text, j);
      assert Hits(p, text, j + 1);
    }
    if j :| 0 <= j <= |text| && Hits(p, text, j) {
      OneHitsOnly(re[0], q, text, j);
    }
  }

  lemma {:induction false} StarCase(re: string, text: string)
    requires |re| > 1 && re[1] == '*'
    ensures MatchHere(re, text) <==> HitsHere(Compile(re), text)
    decreases |re|, |text|, 0
  {
    var c := re[0];
    var p, q := Compile(re), Compile(re[2..]);
    StarIs(c, re[2..], text);
    if k :| 0 <= k <= |text| && StarAt(c, re[2..], text, k) {
      HereIsLanguage(re[2..], text[k..]);
      var j :| 0 <= j <= |text[k..]| && Hits(q, text[k..], j);
      InJoin(Star(c), q.items, text[..k], text[k..][..j]);
      assert text[..k] + text[k..][..j] == text[..k + j];
      assert Hits(p, text, k + j);
    }
    if j :| 0 <= j <= |text| && Hits(p, text, j) {
      var k := InFirst(Star(c), q.items, text[..j]);
      assert text[..j][k..] == text[k..][..j - k];
      forall i | 0 <= i < k ensures Fits(c, text[i]) {
        assert text[..j][..k][i] == text[i];
      }
      assert Hits(q, text[k..], j - k);
      HereIsLanguage(re[2..], text[k..]);
      assert StarAt(c, re[2..], text, k);
    }
  }

  predicate Match(re: string, text: string) {
    if re != "" && re[0] == '^' then MatchHere(re[1..], text) else MatchAnywhere(re, text)
  }

  predicate MatchAnywhere(re: string, text: string) {
    MatchHere(re, text) || (text != "" && MatchAnywhere(re, text[1..]))
  }

  /** Some part text[i..j] of the text is in the language of the pattern. */
  ghost predicate Found(p: Pattern, text: string, i: nat, j: nat) {
    i <= j <= |text| && (p.end ==> j == |text|) && In(p.items, text[i..j])
  }

  lemma {:induction false} AnywhereIs(re: string, text: string)
    ensures MatchAnywhere(re, text) <==> exists i :: 0 <= i <= |text| && MatchHere(re, text[i..])
  {
    assert text[0..] == text;
    if text != "" {
      AnywhereIs(re, text[1..]);
      if i :| 0 <= i <= |text[1..]| && MatchHere(re, text[1..][i..]) {
        assert text[1..][i..] == text[i + 1..];
      }
      if i :| 0 < i <= |text| && MatchHere(re, text[i..]) {
        assert text[1..][i - 1..] == text[i..];
      }
    }
  }

  lemma HitsIsFound(p: Pattern, text: string, i: nat, j: nat)
    requires i <= |text|
    ensures Hits(p, text[i..], j) <==> Found(p, text, i, i + j)
  {
    assert j <= |text[i..]| ==> text[i..][..j] == text[i..i + j];
  }

  lemma HereIsFound(re: string, text: string, i: nat)
    requires i <= |text|
    ensures MatchHere(re, text[i..]) <==> exists j :: i <= j <= |text| && Found(Compile(re), text, i, j)
  {
    HereIsLanguage(re, text[i..]);
    var p := Compile(re);
    if j :| 0 <= j <= |text[i..]| && Hits(p, text[i..], j) {
      HitsIsFound(p, text, i, j);
    }
    if j :| i <= j <= |text| && Found(p, text, i, j) {
      HitsIsFound(p, text, i, j - i);
    }
  }

  /** match returns 1 exactly when some part of the text is in the language of
      the pattern: at the start if the pattern begins with ^, and reaching the
      end if it ends with $. */
  lemma MatchIsLanguage(re: string, text: string)
    ensures re != "" && re[0] == '^' ==>
              (Match(re, text) <==> exists j :: 0 <= j <= |text| && Found(Compile(re[1..]), text, 0, j))
    ensures (re == "" || re[0] != '^') ==>
              (Match(re, text) <==> exists i, j :: 0 <= i <= j <= |text| && Found(Compile(re), text, i, j))
  {
    if re != "" && re[0] == '^' {
      assert text[0..] == text;
      HereIsFound(re[1..], text, 0);
    } else {
      AnywhereIs(re, text);
      if i :| 0 <= i <= |text| && MatchHere(re, text[i..]) {
        HereIsFound(re, text, i);
      }
      if i, j :| 0 <= i <= j <= |text| && Found(Compile(re), text, i, j) {
        HereIsFound(re, text, i);
      }
    }
  }

  // ----- the code's loops -----

  method FindMatch(re: string, text: string) returns (found: bool)
    ensures found == Match(re, text)
  {
    if re != "" && re[0] == '^' {
      found := TryHere(re[1..], text);
      return;
    }
    var i := 0;
    assert text[0..] == text;
    while true
      invariant i <= |text| && MatchAnywhere(re, text) == MatchAnywhere(re, text[i..])
      decreases |text| - i
    {
      found := TryHere(re, text[i..]);
      if found || i == |text| {
        return;
      }
      assert text[i..][1..] == text[i + 1..];
      i := i + 1;
    }
  }

  method TryHere(re: string, text: string) returns (found: bool)
    ensures found == MatchHere(re, text)
    decreases |re|, |text|, 0
  {
    if re == "" {
      return true;
    }
    if |re| > 1 && re[1] == '*' {
      found := TryStar(re[0], re[2..], text);
      return;
    }
    if re == "$" {
      return text == "";
    }
    if text != "" && (re[0] == '.' || re[0] == text[0]) {
      found := TryHere(re[1..], text[1..]);
      return;
    }
    return false;
  }

  method TryStar(c: char, re: string, text: string) returns (found: bool)
    ensures found == MatchStar(c, re, text)
    decreases |re|, |text|, 1
  {
    var i := 0;
    assert text[0..] == text;
    while true
      invariant i <= |text| && MatchStar(c, re, text) == MatchStar(c, re, text[i..])
      decreases |text| - i
    {
      found := TryHere(re, text[i..]);
      if found || i == |text| || !(text[i] == c || c == '.') {
        return;
      }
      assert text[i..][1..] == text[i + 1..];
      i := i + 1;
    }
  }
}
