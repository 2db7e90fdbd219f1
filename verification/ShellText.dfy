/** What a parsed tree says of the line it came from, in the characters of the line. */
module ShellText {
  import opened ShellTokens
  import opened ShellGrammar

  /** Where the redirection operators of the line stand, from place i on; >> is one operator. */
  function Operators(line: string, i: nat): seq<nat>
    requires i <= |line|
    decreases |line| - i
  {
    if i == |line| then []
    else if line[i] == '<' then [i] + Operators(line, i + 1)
    else if line[i] == '>' then [i] + Operators(line, OperatorEnd(line, i))
    else Operators(line, i + 1)
  }

  /** The place behind the operator at p. */
  function OperatorEnd(line: string, p: nat): (e: nat)
    requires p < |line|
    ensures p < e <= |line|
  {
    if line[p] == '>' && p + 1 < |line| && line[p + 1] == '>' then p + 2 else p + 1
  }

  /** Redirection r is the one written at p: file descriptor 0 opened for reading for <, and 1 opened for writing and
      created for > and >>; its file is the word that comes next. */
  ghost predicate WrittenAt(line: string, p: nat, r: Redirect) {
    && p < |line| && (line[p] == '<' || line[p] == '>')
    && (line[p] == '<' ==> r.mode == 0 && r.fd == 0)
    && (line[p] == '>' ==> r.mode == 0x201 && r.fd == 1)
    && OperatorEnd(line, p) <= r.file.q < r.file.eq <= |line|
    && (forall k :: OperatorEnd(line, p) <= k < r.file.q ==> line[k] in " \t\r\n\U{000B}")
    && (forall k :: r.file.q <= k < r.file.eq ==> line[k] !in " \t\r\n\U{000B}<|>&;()")
    && (r.file.eq < |line| ==> line[r.file.eq] in " \t\r\n\U{000B}<|>&;()")
  }

  /** Every operator among tokens i to j has a file. */
  ghost predicate AllFiled(ts: seq<Token>, i: nat, j: nat)
    requires i <= j <= |ts|
  {
    forall k {:trigger ts[k]} :: i <= k < j && IsRedirOp(ts[k]) ==> RedirAt(ts, k, j)
  }

  lemma FiledJoin(ts: seq<Token>, i: nat, k: nat, j: nat)
    requires i <= k < j <= |ts| && AllFiled(ts, i, k) && !IsRedirOp(ts[k]) && AllFiled(ts, k + 1, j)
    ensures AllFiled(ts, i, j)
  {
    forall m | i <= m < j && IsRedirOp(ts[m])
      ensures RedirAt(ts, m, j)
    {
      assert m < k ==> RedirAt(ts, m, k);
      assert m > k ==> RedirAt(ts, m, j);
    }
  }

  lemma {:induction false} ReadsFiled(ts: seq<Token>, i: nat, j: nat)
    requires i <= j <= |ts| && Reads(ts, i, j).Reading?
    ensures AllFiled(ts, i, j)
    decreases j - i
  {
    if i < j && ts[i].kind == 'a' {
      ReadsFiled(ts, i + 1, j);
      FiledJoin(ts, i, i, j);
    } else if i < j {
      ReadsFiled(ts, i + 2, j);
      FiledJoin(ts, i + 1, i + 1, j);
      assert RedirAt(ts, i, j);
    }
  }

  lemma {:induction false} ExecFiled(c: Cmd, ts: seq<Token>, i: nat, j: nat)
    requires i <= j <= |ts| && IsExec(c, ts, i, j)
    ensures AllFiled(ts, i, j)
    decreases j - i, 0
  {
    if IsSimple(c, ts, i, j) {
      ReadsFiled(ts, i, j);
    } else {
      var inner, k: nat :| IsBlock(c, inner, ts, i, k, j);
      LineFiled(inner, ts, i + 1, k);
      ReadsFiled(ts, k + 1, j);
      FiledJoin(ts, i + 1, k, j);
      FiledJoin(ts, i, i, j);
    }
  }

  lemma {:induction false} PipeFiled(c: Cmd, ts: seq<Token>, i: nat, j: nat)
    requires i <= j <= |ts| && IsPipe(c, ts, i, j)
    ensures AllFiled(ts, i, j)
    decreases j - i, 1
  {
    if IsExec(c, ts, i, j) {
      ExecFiled(c, ts, i, j);
    } else {
      var k: nat :| IsPiped(c, ts, i, k, j);
      ExecFiled(c.left, ts, i, k);
      PipeFiled(c.right, ts, k + 1, j);
      FiledJoin(ts, i, k, j);
    }
  }

  lemma {:induction false} BackFiled(c: Cmd, ts: seq<Token>, i: nat, j: nat)
    requires i <= j <= |ts| && IsBack(c, ts, i, j)
    ensures AllFiled(ts, i, j)
    decreases j - i, 2
  {
    if IsPipe(c, ts, i, j) {
      PipeFiled(c, ts, i, j);
    } else {
      BackFiled(c.cmd, ts, i, j - 1);
      FiledJoin(ts, i, j - 1, j);
    }
  }

  lemma {:induction false} LineFiled(c: Cmd, ts: seq<Token>, i: nat, j: nat)
    requires i <= j <= |ts| && IsLine(c, ts, i, j)
    ensures AllFiled(ts, i, j)
    decreases j - i, 3
  {
    if IsBack(c, ts, i, j) {
      BackFiled(c, ts, i, j);
    } else {
      var k: nat :| IsListed(c, ts, i, k, j);
      BackFiled(c.left, ts, i, k);
      LineFiled(c.right, ts, k + 1, j);
      FiledJoin(ts, i, k, j);
    }
  }

  /** No operator stands in a stretch without < and >. */
  lemma {:induction false} NoOperators(line: string, i: nat, j: nat)
    requires i <= j <= |line| && forall k :: i <= k < j ==> line[k] != '<' && line[k] != '>'
    ensures Operators(line, i) == Operators(line, j)
    decreases j - i
  {
    if i < j { NoOperators(line, i + 1, j); }
  }

  /** The operators up to the end of token i. */
  lemma OperatorsOver(line: string, ts: seq<Token>, i: nat, p: nat)
    requires Lexed(line, 0, ts) && i < |ts| && p <= |line| && Skip(line, p) == ts[i].q
    ensures ts[i].eq <= |line|
    ensures Operators(line, p) == (if IsRedirOp(ts[i]) then [ts[i].q] else []) + Operators(line, ts[i].eq)
  {
    assert LexedAt(line, ts, i);
    var t := ts[i];
    NoOperators(line, p, t.q);
    if !IsRedirOp(t) {
      NoOperators(line, t.q, t.eq);
      assert [] + Operators(line, t.eq) == Operators(line, t.eq);
    }
  }

  lemma OperatorWritten(line: string, ts: seq<Token>, i: nat)
    requires Lexed(line, 0, ts) && i + 1 < |ts| && IsRedirOp(ts[i]) && ts[i + 1].kind == 'a'
    ensures WrittenAt(line, ts[i].q, RedirectOf(ts[i], ts[i + 1]))
  {
    assert LexedAt(line, ts, i) && LexedAt(line, ts, i + 1);
    assert ts[i].eq == OperatorEnd(line, ts[i].q);
  }

  /** The redirections of a sequence of operators. */
  ghost predicate AllWritten(line: string, ps: seq<nat>, rs: seq<Redirect>) {
    |rs| == |ps| && forall k :: 0 <= k < |ps| ==> WrittenAt(line, ps[k], rs[k])
  }

  lemma {:induction false} TokensWritten(line: string, ts: seq<Token>, i: nat, p: nat)
    requires Lexed(line, 0, ts) && i <= |ts| && AllFiled(ts, i, |ts|)
    requires p <= |line| && Skip(line, p) == Start(line, ts, i)
    ensures AllWritten(line, Operators(line, p), RedirTokens(ts, i, |ts|))
    decreases |ts| - i
  {
    if i == |ts| {
      NoOperators(line, p, |line|);
    } else {
      assert LexedAt(line, ts, i);
      OperatorsOver(line, ts, i, p);
      TokensWritten(line, ts, i + 1, ts[i].eq);
      if IsRedirOp(ts[i]) {
        assert RedirAt(ts, i, |ts|);
        assert RedirTokens(ts, i + 1, |ts|) == RedirTokens(ts, i + 2, |ts|);
        OperatorWritten(line, ts, i);
      }
    }
  }

  /** The redirections of a line's tree, from left to right and from the inside out, are those of the operators that
      stand in the line, in their order. */
  lemma TreeRedirections(line: string, c: Cmd)
    requires IsLine(c, Tokens(line, 0), 0, |Tokens(line, 0)|)
    ensures |Redirections(c)| == |Operators(line, 0)|
    ensures forall k :: 0 <= k < |Redirections(c)| ==> WrittenAt(line, Operators(line, 0)[k], Redirections(c)[k])
  {
    var ts := Tokens(line, 0);
    TokensLexed(line, 0);
    LineOrder(c, ts, 0, |ts|);
    LineFiled(c, ts, 0, |ts|);
    TokensWritten(line, ts, 0, 0);
    assert AllWritten(line, Operators(line, 0), Redirections(c));
  }

  // ---------- Pipes, lists and background commands ----------

  /** How many nodes of the tree a symbol stands for. */
  function Nodes(c: Cmd, symbol: char): nat {
    match c
    case Exec(_) => 0
    case Redir(c', _) => Nodes(c', symbol)
    case Pipe(l, r) => Nodes(l, symbol) + Nodes(r, symbol) + if symbol == '|' then 1 else 0
    case List(l, r) => Nodes(l, symbol) + Nodes(r, symbol) + if symbol == ';' then 1 else 0
    case Back(c') => Nodes(c', symbol) + if symbol == '&' then 1 else 0
  }

  predicate Joins(symbol: char) {
    symbol == '|' || symbol == ';' || symbol == '&'
  }

  /** How often the symbol stands in the line from place i on. */
  function Occurs(line: string, symbol: char, i: nat): nat
    requires i <= |line|
    decreases |line| - i
  {
    if i == |line| then 0 else Occurs(line, symbol, i + 1) + if line[i] == symbol then 1 else 0
  }

  function Count(ts: seq<Token>, symbol: char, i: nat, j: nat): nat
    requires i <= j <= |ts|
    decreases j - i
  {
    if i == j then 0 else Count(ts, symbol, i + 1, j) + if ts[i].kind == symbol then 1 else 0
  }

  lemma {:induction false} CountJoin(ts: seq<Token>, symbol: char, i: nat, k: nat, j: nat)
    requires i <= k <= j <= |ts|
    ensures Count(ts, symbol, i, j) == Count(ts, symbol, i, k) + Count(ts, symbol, k, j)
    decreases k - i
  {
    if i < k { CountJoin(ts, symbol, i + 1, k, j); }
  }

  lemma {:induction false} WrapNodes(c: Cmd, rs: seq<Redirect>, symbol: char)
    ensures Nodes(Wrap(c, rs), symbol) == Nodes(c, symbol)
    decreases rs
  {
    if rs != [] { WrapNodes(Redir(c, rs[0]), rs[1..], symbol); }
  }

  lemma {:induction false} ReadsCount(ts: seq<Token>, symbol: char, i: nat, j: nat)
    requires i <= j <= |ts| && Reads(ts, i, j).Reading? && Joins(symbol)
    ensures Count(ts, symbol, i, j) == 0
    decreases j - i
  {
    if i < j && ts[i].kind == 'a' {
      ReadsCount(ts, symbol, i + 1, j);
    } else if i < j {
      ReadsCount(ts, symbol, i + 2, j);
    }
  }

  lemma {:induction false} ExecCount(c: Cmd, ts: seq<Token>, symbol: char, i: nat, j: nat)
    requires i <= j <= |ts| && IsExec(c, ts, i, j) && Joins(symbol)
    ensures Nodes(c, symbol) == Count(ts, symbol, i, j)
    decreases j - i, 0
  {
    if IsSimple(c, ts, i, j) {
      ReadsCount(ts, symbol, i, j);
      WrapNodes(Exec(Reads(ts, i, j).args), Reads(ts, i, j).rs, symbol);
    } else {
      var inner, k: nat :| IsBlock(c, inner, ts, i, k, j);
      LineCount(inner, ts, symbol, i + 1, k);
      ReadsCount(ts, symbol, k + 1, j);
      WrapNodes(inner, Reads(ts, k + 1, j).rs, symbol);
      CountJoin(ts, symbol, i + 1, k, j);
    }
  }

  lemma {:induction false} PipeCount(c: Cmd, ts: seq<Token>, symbol: char, i: nat, j: nat)
    requires i <= j <= |ts| && IsPipe(c, ts, i, j) && Joins(symbol)
    ensures Nodes(c, symbol) == Count(ts, symbol, i, j)
    decreases j - i, 1
  {
    if IsExec(c, ts, i, j) {
      ExecCount(c, ts, symbol, i, j);
    } else {
      var k: nat :| IsPiped(c, ts, i, k, j);
      ExecCount(c.left, ts, symbol, i, k);
      PipeCount(c.right, ts, symbol, k + 1, j);
      CountJoin(ts, symbol, i, k, j);
    }
  }

  lemma {:induction false} BackCount(c: Cmd, ts: seq<Token>, symbol: char, i: nat, j: nat)
    requires i <= j <= |ts| && IsBack(c, ts, i, j) && Joins(symbol)
    ensures Nodes(c, symbol) == Count(ts, symbol, i, j)
    decreases j - i, 2
  {
    if IsPipe(c, ts, i, j) {
      PipeCount(c, ts, symbol, i, j);
    } else {
      BackCount(c.cmd, ts, symbol, i, j - 1);
      CountJoin(ts, symbol, i, j - 1, j);
    }
  }

  lemma {:induction false} LineCount(c: Cmd, ts: seq<Token>, symbol: char, i: nat, j: nat)
    requires i <= j <= |ts| && IsLine(c, ts, i, j) && Joins(symbol)
    ensures Nodes(c, symbol) == Count(ts, symbol, i, j)
    decreases j - i, 3
  {
    if IsBack(c, ts, i, j) {
      BackCount(c, ts, symbol, i, j);
    } else {
      var k: nat :| IsListed(c, ts, i, k, j);
      BackCount(c.left, ts, symbol, i, k);
      LineCount(c.right, ts, symbol, k + 1, j);
      CountJoin(ts, symbol, i, k, j);
    }
  }

  lemma {:induction false} OccursNot(line: string, symbol: char, i: nat, j: nat)
    requires i <= j <= |line| && forall k :: i <= k < j ==> line[k] != symbol
    ensures Occurs(line, symbol, i) == Occurs(line, symbol, j)
    decreases j - i
  {
    if i < j { OccursNot(line, symbol, i + 1, j); }
  }

  lemma {:induction false} TokensOccur(line: string, ts: seq<Token>, symbol: char, i: nat, p: nat)
    requires Lexed(line, 0, ts) && i <= |ts| && Joins(symbol)
    requires p <= |line| && Skip(line, p) == Start(line, ts, i)
    ensures Count(ts, symbol, i, |ts|) == Occurs(line, symbol, p)
    decreases |ts| - i
  {
    OccursNot(line, symbol, p, Skip(line, p));
    if i < |ts| {
      assert LexedAt(line, ts, i);
      var t := ts[i];
      TokensOccur(line, ts, symbol, i + 1, t.eq);
      if t.kind != symbol {
        OccursNot(line, symbol, t.q, t.eq);
      }
    }
  }

  /** A line's tree has a pipe for every '|' of the line, a list for every ';' and a background command for every
      '&'. */
  lemma TreeSymbols(line: string, c: Cmd)
    requires IsLine(c, Tokens(line, 0), 0, |Tokens(line, 0)|)
    ensures Nodes(c, '|') == Occurs(line, '|', 0)
    ensures Nodes(c, ';') == Occurs(line, ';', 0)
    ensures Nodes(c, '&') == Occurs(line, '&', 0)
  {
    var ts := Tokens(line, 0);
    TokensLexed(line, 0);
    forall symbol | Joins(symbol)
      ensures Nodes(c, symbol) == Occurs(line, symbol, 0)
    {
      LineCount(c, ts, symbol, 0, |ts|);
      TokensOccur(line, ts, symbol, 0, 0);
    }
    assert Joins('|') && Joins(';') && Joins('&');
  }
}
