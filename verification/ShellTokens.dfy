/** The tokens of a command line (gettoken and peek of sh.c). */
module ShellTokens {

  predicate IsSpace(c: char) {
    c == ' ' || c == '\t' || c == '\r' || c == '\n' || c == '\U{000B}'
  }

  predicate IsSymbol(c: char) {
    c == '<' || c == '|' || c == '>' || c == '&' || c == ';' || c == '(' || c == ')'
  }

  predicate IsWordChar(c: char) {
    !IsSpace(c) && !IsSymbol(c)
  }

  /** The first place from i on that is not white space. */
  function Skip(line: string, i: nat): (r: nat)
    requires i <= |line|
    ensures i <= r <= |line|
    ensures forall k :: i <= k < r ==> IsSpace(line[k])
    ensures r < |line| ==> !IsSpace(line[r])
    decreases |line| - i
  {
    if i < |line| && IsSpace(line[i]) then Skip(line, i + 1) else i
  }

  /** The first place from i on that cannot belong to a word. */
  function WordEnd(line: string, i: nat): (r: nat)
    requires i <= |line|
    ensures i <= r <= |line|
    ensures forall k :: i <= k < r ==> IsWordChar(line[k])
    ensures r < |line| ==> !IsWordChar(line[r])
    decreases |line| - i
  {
    if i < |line| && IsWordChar(line[i]) then WordEnd(line, i + 1) else i
  }

  /** A token: what gettoken returns for it ('a' for a word, '+' for >>), and where it begins and ends. */
  datatype Token = Token(kind: char, q: nat, eq: nat)

  function TokenAt(line: string, s: nat): (t: Token)
    requires s < |line| && !IsSpace(line[s])
    ensures t.q == s < t.eq <= |line|
  {
    var c := line[s];
    if c == '>' && s + 1 < |line| && line[s + 1] == '>' then Token('+', s, s + 2)
    else if IsSymbol(c) then Token(c, s, s + 1)
    else Token('a', s, WordEnd(line, s))
  }

  /** The tokens from place i on. */
  function Tokens(line: string, i: nat): seq<Token>
    requires i <= |line|
    decreases |line| - i
  {
    var s := Skip(line, i);
    if s == |line| then [] else [TokenAt(line, s)] + Tokens(line, TokenAt(line, s).eq)
  }

  /** The character a token begins with, for peek. */
  function Head(t: Token): char {
    if t.kind == '+' then '>' else t.kind
  }

  /** Every character that is not white space belongs to a token. */
  lemma {:induction false} TokensCover(line: string, i: nat, k: nat)
    requires i <= k < |line| && !IsSpace(line[k])
    ensures exists j :: 0 <= j < |Tokens(line, i)| && Tokens(line, i)[j].q <= k < Tokens(line, i)[j].eq
    decreases |line| - i
  {
    var s := Skip(line, i);
    var t := TokenAt(line, s);
    var ts := Tokens(line, i);
    if k < t.eq {
      assert ts[0] == t;
    } else {
      TokensCover(line, t.eq, k);
      var j :| 0 <= j < |Tokens(line, t.eq)| && Tokens(line, t.eq)[j].q <= k < Tokens(line, t.eq)[j].eq;
      assert ts[j + 1] == Tokens(line, t.eq)[j];
    }
  }

  // ---------- The scanner ----------

  /** The character at place i of a line that ends in NUL. */
  function CharAt(line: string, i: nat): char {
    if i < |line| then line[i] else '\0'
  }

  predicate IsLineText(line: string) {
    forall i :: 0 <= i < |line| ==> line[i] != '\0'
  }

  method SkipSpace(line: string, i: nat) returns (s: nat)
    requires i <= |line|
    ensures s == Skip(line, i)
  {
    s := i;
    while s < |line| && IsSpace(line[s])
      invariant i <= s <= |line| && Skip(line, s) == Skip(line, i)
    {
      s := s + 1;
    }
  }

  /** The switch of gettoken, at the first character of a token. */
  method ScanToken(line: string, q: nat) returns (ret: char, s: nat)
    requires q < |line| && !IsSpace(line[q])
    ensures Token(ret, q, s) == TokenAt(line, q)
  {
    ret, s := line[q], q;
    if ret == '>' {
      s := s + 1;
      if CharAt(line, s) == '>' {
        ret := '+';
        s := s + 1;
      }
    } else if IsSymbol(ret) {
      s := s + 1;
    } else {
      ret := 'a';
      while s < |line| && !IsSpace(line[s]) && !IsSymbol(line[s])
        invariant q <= s <= |line| && WordEnd(line, s) == WordEnd(line, q)
      {
        s := s + 1;
      }
    }
  }

  /** gettoken: the token at the next place that is not white space, or 0 at the end of the line, and the place behind
      it and the white space after it. */
  method Gettoken(line: string, ps: nat) returns (ret: char, q: nat, eq: nat, s: nat)
    requires IsLineText(line) && ps <= |line|
    ensures q == Skip(line, ps)
    ensures q == |line| ==> ret == '\0' && eq == s == q
    ensures q < |line| ==> Token(ret, q, eq) == TokenAt(line, q) && s == Skip(line, eq)
    ensures ps <= q <= eq <= s <= |line|
    ensures forall k :: ps <= k < q || eq <= k < s ==> line[k] in " \t\r\n\U{000B}"
    ensures s < |line| ==> line[s] !in " \t\r\n\U{000B}"
    ensures q < |line| ==>
              if line[q] in "<|>&;()" then
                var doubled := line[q] == '>' && q + 1 < |line| && line[q + 1] == '>';
                ret == (if doubled then '+' else line[q]) && eq == (if doubled then q + 2 else q + 1)
              else
                && ret == 'a' && q < eq
                && (forall k :: q <= k < eq ==> line[k] !in " \t\r\n\U{000B}<|>&;()")
                && (eq < |line| ==> line[eq] in " \t\r\n\U{000B}<|>&;()")
  {
    q := SkipSpace(line, ps);
    if CharAt(line, q) == '\0' {
      return '\0', q, q, q;
    }
    ret, eq := ScanToken(line, q);
    s := SkipSpace(line, eq);
  }

  /** peek: whether the next character that is not white space is one of toks. */
  method Peek(line: string, ps: nat, toks: string) returns (b: bool, s: nat)
    requires IsLineText(line) && ps <= |line|
    ensures s == Skip(line, ps)
    ensures b <==> s < |line| && line[s] in toks
  {
    s := SkipSpace(line, ps);
    b := CharAt(line, s) != '\0' && CharAt(line, s) in toks;
  }

  // ---------- A line and its tokens ----------

  /** Where token i begins, or the end of the line. */
  function Start(line: string, ts: seq<Token>, i: nat): nat {
    if i < |ts| then ts[i].q else |line|
  }

  ghost predicate LexedAt(line: string, ts: seq<Token>, i: nat)
    requires i < |ts|
  {
    var t := ts[i];
    && t.q < t.eq <= |line| && !IsSpace(line[t.q]) && TokenAt(line, t.q) == t
    && Skip(line, t.eq) == Start(line, ts, i + 1)
  }

  /** ts are the tokens of the line from place k on. */
  ghost predicate Lexed(line: string, k: nat, ts: seq<Token>) {
    && k <= |line| && Skip(line, k) == Start(line, ts, 0)
    && forall i :: 0 <= i < |ts| ==> LexedAt(line, ts, i)
  }

  lemma {:induction false} TokensLexed(line: string, k: nat)
    requires k <= |line|
    ensures Lexed(line, k, Tokens(line, k))
    decreases |line| - k
  {
    var s, ts := Skip(line, k), Tokens(line, k);
    if s < |line| {
      var e := TokenAt(line, s).eq;
      TokensLexed(line, e);
      forall i | 0 <= i < |ts|
        ensures LexedAt(line, ts, i)
      {
        if i > 0 {
          assert LexedAt(line, Tokens(line, e), i - 1);
          assert Start(line, ts, i + 1) == Start(line, Tokens(line, e), i);
        }
      }
    }
  }
}
