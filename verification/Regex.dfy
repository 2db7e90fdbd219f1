/** The matcher of grep.c: literals, '.', 'c*', a leading '^' and a final '$'. */
module Regex {

  /** A piece of a pattern: one character, or any number of them. */
  datatype Item = One(c: char) | Star(c: char)

  predicate Accepts(c: char, x: char) {
    c == '.' || c == x
  }

  /** The strings a piece stands for. */
  ghost predicate Piece(item: Item, s: string) {
    match item
    case One(c) => |s| == 1 && Accepts(c, s[0])
    case Star(c) => forall i :: 0 <= i < |s| ==> Accepts(c, s[i])
  }

  /** The pieces of a pattern after a leading '^', without a final '$'. */
  function Items(re: string): seq<Item> {
    if re == "" || re == "$" then []
    else if |re| > 1 && re[1] == '*' then [Star(re[0])] + Items(re[2..])
    else [One(re[0])] + Items(re[1..])
  }

  predicate Anchored(re: string) {
    re != "" && re[|re| - 1] == '$'
  }

  function Concat(parts: seq<string>): string {
    if parts == [] then "" else parts[0] + Concat(parts[1..])
  }

  /** w is made of consecutive parts, one for each item. */
  ghost predicate MadeOf(items: seq<Item>, w: string, parts: seq<string>) {
    && |parts| == |items| && Concat(parts) == w
    && forall i :: 0 <= i < |items| ==> Piece(items[i], parts[i])
  }

  ghost predicate InLanguage(items: seq<Item>, w: string) {
    exists parts :: MadeOf(items, w, parts)
  }

  /** The first k characters of the text are in the pattern's language, and the text ends there if it must. */
  ghost predicate MatchesTo(re: string, text: string, k: nat) {
    k <= |text| && InLanguage(Items(re), text[..k]) && (Anchored(re) ==> k == |text|)
  }

  ghost predicate Here(re: string, text: string) {
    exists k: nat :: MatchesTo(re, text, k)
  }

  // ---------- The language one piece at a time ----------

  lemma LanguageNil(w: string)
    ensures InLanguage([], w) <==> w == ""
  {
    assert w == "" ==> MadeOf([], w, []);
  }

  lemma LanguageCons(item: Item, rest: seq<Item>, w: string)
    ensures InLanguage([item] + rest, w) <==> exists j: nat :: Splits(item, rest, w, j)
  {
    var items := [item] + rest;
    if InLanguage(items, w) {
      var parts :| MadeOf(items, w, parts);
      assert items[0] == item && forall i :: 0 <= i < |rest| ==> items[i + 1] == rest[i];
      var j := |parts[0]|;
      assert w[..j] == parts[0] && w[j..] == Concat(parts[1..]);
      assert MadeOf(rest, w[j..], parts[1..]);
      assert Splits(item, rest, w, j);
    }
    if j: nat :| Splits(item, rest, w, j) {
      var parts :| MadeOf(rest, w[j..], parts);
      var all := [w[..j]] + parts;
      assert all[1..] == parts && w == w[..j] + w[j..];
      assert MadeOf(items, w, all);
    }
  }

  ghost predicate Splits(item: Item, rest: seq<Item>, w: string, j: nat) {
    j <= |w| && Piece(item, w[..j]) && InLanguage(rest, w[j..])
  }

  lemma Slices(text: string, j: nat, k: nat)
    requires j + k <= |text|
    ensures text[..j + k][..j] == text[..j] && text[..j + k][j..] == text[j..][..k]
  {
  }

  /** A pattern that starts with a piece: the piece takes some of the text, the rest of the pattern goes on from
      there. */
  lemma HereCons(re: string, item: Item, rest: string, text: string)
    requires Items(re) == [item] + Items(rest) && (Anchored(re) <==> Anchored(rest))
    ensures Here(re, text) <==> exists j: nat :: j <= |text| && Piece(item, text[..j]) && Here(rest, text[j..])
  {
    if k: nat :| MatchesTo(re, text, k) {
      LanguageCons(item, Items(rest), text[..k]);
      var j: nat :| Splits(item, Items(rest), text[..k], j);
      Slices(text, j, k - j);
      assert j + (k - j) == k;
      assert MatchesTo(rest, text[j..], k - j);
    }
    if j: nat :| j <= |text| && Piece(item, text[..j]) && Here(rest, text[j..]) {
      var k: nat :| MatchesTo(rest, text[j..], k);
      Slices(text, j, k);
      assert Splits(item, Items(rest), text[..j + k], j);
      LanguageCons(item, Items(rest), text[..j + k]);
      assert MatchesTo(re, text, j + k);
    }
  }

  lemma HereNil(re: string, text: string)
    requires re == "" || re == "$"
    ensures Here(re, text) <==> re == "" || text == ""
  {
    LanguageNil(text[..0]);
    if re == "" {
      assert MatchesTo(re, text, 0);
    } else {
      LanguageNil(text);
      assert text[..|text|] == text;
      assert text == "" ==> MatchesTo(re, text, 0);
    }
  }

  /** A pattern that starts with one character. */
  lemma HereOne(re: string, text: string)
    requires re != "" && re != "$" && (|re| > 1 ==> re[1] != '*')
    ensures Here(re, text) <==> text != "" && Accepts(re[0], text[0]) && Here(re[1..], text[1..])
  {
    HereCons(re, One(re[0]), re[1..], text);
    assert text != "" && Accepts(re[0], text[0]) ==> Piece(One(re[0]), text[..1]);
  }

  /** Each character of the pattern is the text's at its place, or a dot. */
  predicate Agree(re: string, text: string) {
    |re| <= |text| && forall i :: 0 <= i < |re| ==> re[i] == '.' || re[i] == text[i]
  }

  lemma AgreeTail(re: string, text: string)
    requires re != "" && text != ""
    ensures Agree(re, text) <==> (re[0] == '.' || re[0] == text[0]) && Agree(re[1..], text[1..])
  {
    if Agree(re[1..], text[1..]) && (re[0] == '.' || re[0] == text[0]) {
      forall i | 0 <= i < |re|
        ensures re[i] == '.' || re[i] == text[i]
      {
        assert i > 0 ==> re[i] == re[1..][i - 1] && text[i] == text[1..][i - 1];
      }
    }
  }

  /** What a pattern without '*' and final '$' says. */
  lemma {:induction false} PlainHere(re: string, text: string)
    requires '*' !in re && (re != "" ==> re[|re| - 1] != '$')
    ensures Here(re, text) <==> |re| <= |text| && forall i :: 0 <= i < |re| ==> re[i] == '.' || re[i] == text[i]
    decreases |re|
  {
    if re == "" {
      HereNil(re, text);
    } else {
      HereOne(re, text);
      if text != "" {
        AgreeTail(re, text);
        PlainHere(re[1..], text[1..]);
      }
    }
  }

  /** What a leading 'c*' says: some number of c's, or of any characters when c is a dot, and then the rest. */
  lemma StarHere(c: char, rest: string, text: string)
    ensures Here([c, '*'] + rest, text) <==>
            exists j: nat ::
              j <= |text| && (c == '.' || forall i :: 0 <= i < j ==> text[i] == c) && Here(rest, text[j..])
  {
    var re := [c, '*'] + rest;
    assert re[2..] == rest;
    HereCons(re, Star(c), rest, text);
    forall j: nat | j <= |text|
      ensures Piece(Star(c), text[..j]) <==> c == '.' || forall i :: 0 <= i < j ==> text[i] == c
    {
    }
  }

  // ---------- The matcher ----------

  /** A C string: the character past the end is NUL, and no other is. */
  predicate IsString(s: string) {
    forall i :: 0 <= i < |s| ==> s[i] != '\0'
  }

  function CharAt(s: string, i: nat): char {
    if i < |s| then s[i] else '\0'
  }

  method MatchHere(re: string, text: string) returns (b: bool)
    requires IsString(re) && IsString(text)
    ensures b <==> Here(re, text)
    decreases |re|, 0
  {
    if CharAt(re, 0) == '\0' {
      HereNil(re, text);
      return true;
    }
    if CharAt(re, 1) == '*' {
      HereCons(re, Star(re[0]), re[2..], text);
      b := MatchStar(re[0], re[2..], text);
      return;
    }
    if re[0] == '$' && CharAt(re, 1) == '\0' {
      HereNil(re, text);
      return CharAt(text, 0) == '\0';
    }
    HereOne(re, text);
    if CharAt(text, 0) != '\0' && (re[0] == '.' || re[0] == text[0]) {
      b := MatchHere(re[1..], text[1..]);
      return;
    }
    return false;
  }

  method MatchStar(c: char, re: string, text: string) returns (b: bool)
    requires IsString(re) && IsString(text)
    ensures b <==> exists j: nat :: j <= |text| && Piece(Star(c), text[..j]) && Here(re, text[j..])
    decreases |re|, 1
  {
    var i := 0;
    while true
      invariant 0 <= i <= |text| && Piece(Star(c), text[..i])
      invariant forall j: nat :: j < i ==> !Here(re, text[j..])
      decreases |text| - i
    {
      b := MatchHere(re, text[i..]);
      if b { return true; }
      if CharAt(text, i) == '\0' { return false; }
      if !(text[i] == c || c == '.') {
        Stuck(c, text, i);
        return false;
      }
      i := i + 1;
    }
  }

  lemma Stuck(c: char, text: string, i: nat)
    requires i < |text| && !Accepts(c, text[i])
    ensures forall j: nat :: i < j <= |text| ==> !Piece(Star(c), text[..j])
  {
    forall j: nat | i < j <= |text|
      ensures !Piece(Star(c), text[..j])
    {
      assert text[..j][i] == text[i];
    }
  }

  /** The pattern matches the text: from its start after '^', from anywhere otherwise. */
  ghost predicate Matches(re: string, text: string) {
    if re != "" && re[0] == '^' then Here(re[1..], text)
    else exists i: nat :: i <= |text| && Here(re, text[i..])
  }

  method Match(re: string, text: string) returns (b: bool)
    requires IsString(re) && IsString(text)
    ensures b <==> Matches(re, text)
  {
    if CharAt(re, 0) == '^' {
      b := MatchHere(re[1..], text);
      return;
    }
    var i := 0;
    while true
      invariant 0 <= i <= |text|
      invariant forall j: nat :: j < i ==> !Here(re, text[j..])
      decreases |text| - i
    {
      b := MatchHere(re, text[i..]);
      if b { return true; }
      if CharAt(text, i) == '\0' { return false; }
      i := i + 1;
    }
  }
}
