/** The parser of sh.c over the line's characters, and the NULs it writes behind the words. */
module Shell {
  import opened ShellTokens
  import opened ShellGrammar
  import opened ShellText

  /** A tree, or the panic that ended the parse. */
  datatype Out = Done(cmd: Cmd) | Died(why: Error)

  /** The cursor ps stands before token i. */
  ghost predicate Before(line: string, ts: seq<Token>, i: nat, ps: nat) {
    IsLineText(line) && Lexed(line, 0, ts) && ps <= |line| && i <= |ts| && Skip(line, ps) == Start(line, ts, i)
  }

  /** gettoken, told in tokens. */
  method Next(line: string, ghost ts: seq<Token>, ghost i: nat, ps: nat) returns (ret: char, q: nat, eq: nat, s: nat)
    requires Before(line, ts, i, ps)
    ensures i == |ts| ==> ret == '\0' && Before(line, ts, i, s)
    ensures i < |ts| ==> Token(ret, q, eq) == ts[i] && ret != '\0' && Before(line, ts, i + 1, s)
  {
    ret, q, eq, s := Gettoken(line, ps);
    if i < |ts| {
      assert LexedAt(line, ts, i);
      SkipTwice(line, eq);
    } else {
      SkipTwice(line, ps);
    }
  }

  lemma SkipTwice(line: string, i: nat)
    requires i <= |line|
    ensures Skip(line, Skip(line, i)) == Skip(line, i)
  {
  }

  /** peek, told in tokens. */
  method Sees(line: string, ghost ts: seq<Token>, ghost i: nat, ps: nat, toks: string) returns (b: bool, s: nat)
    requires Before(line, ts, i, ps) && forall k :: 0 <= k < |toks| ==> IsSymbol(toks[k])
    ensures Before(line, ts, i, s) && (s == |line| <==> i == |ts|)
    ensures b <==> i < |ts| && Head(ts[i]) in toks
  {
    b, s := Peek(line, ps, toks);
    SkipTwice(line, ps);
    if i < |ts| {
      assert LexedAt(line, ts, i);
    }
  }

  method SeesChar(line: string, ghost ts: seq<Token>, ghost i: nat, ps: nat, c: char) returns (b: bool, s: nat)
    requires Before(line, ts, i, ps) && IsSymbol(c) && c != '>'
    ensures Before(line, ts, i, s)
    ensures b <==> Starts(ts, i, c)
  {
    b, s := Sees(line, ts, i, ps, [c]);
  }

  method SeesRedir(line: string, ghost ts: seq<Token>, ghost i: nat, ps: nat) returns (b: bool, s: nat)
    requires Before(line, ts, i, ps)
    ensures Before(line, ts, i, s)
    ensures b <==> i < |ts| && IsRedirOp(ts[i])
  {
    b, s := Sees(line, ts, i, ps, "<>");
  }

  method SeesEnd(line: string, ghost ts: seq<Token>, ghost i: nat, ps: nat) returns (b: bool, s: nat)
    requires Before(line, ts, i, ps)
    ensures Before(line, ts, i, s)
    ensures b <==> i < |ts| && EndsExec(ts, i)
  {
    b, s := Sees(line, ts, i, ps, "|)&;");
  }

  /** Tokens i to j are operators, each with its file, and rs are their redirections. */
  ghost predicate RedirsRead(line: string, ts: seq<Token>, i: nat, rs: seq<Redirect>, j: nat) {
    j == i + 2 * |rs| <= |ts| && forall k :: 0 <= k < |rs| ==> WrittenAt(line, ts[i + 2 * k].q, rs[k])
  }

  lemma RedirsReadNext(line: string, ts: seq<Token>, i: nat, rs: seq<Redirect>, j: nat)
    requires RedirsRead(line, ts, i, rs, j) && Lexed(line, 0, ts)
    requires j + 1 < |ts| && IsRedirOp(ts[j]) && ts[j + 1].kind == 'a'
    ensures RedirsRead(line, ts, i, rs + [RedirectOf(ts[j], ts[j + 1])], j + 2)
  {
    OperatorWritten(line, ts, j);
  }

  /** parseredirs; the redirections are put around the command by the caller. */
  method Parseredirs(line: string, ghost ts: seq<Token>, ghost i: nat, ps: nat)
      returns (ok: bool, rs: seq<Redirect>, s: nat, ghost j: nat)
    requires Before(line, ts, i, ps)
    ensures ok ==> ParseRedirs(ts, i) == Redirs(rs, j) && Before(line, ts, j, s)
    ensures ok ==> RedirsRead(line, ts, i, rs, j)
    ensures !ok ==> ParseRedirs(ts, i) == NoFile
  {
    rs, s, j := [], ps, i;
    while true
      invariant i <= j <= |ts| && Before(line, ts, j, s)
      invariant ParseRedirs(ts, i) == After(rs, ParseRedirs(ts, j))
      invariant RedirsRead(line, ts, i, rs, j)
      decreases |ts| - j
    {
      var b;
      b, s := SeesRedir(line, ts, j, s);
      if !b {
        assert rs + [] == rs;
        return true, rs, s, j;
      }
      var tok, file, q, eq;
      tok, q, eq, s := Next(line, ts, j, s);
      file, q, eq, s := Next(line, ts, j + 1, s);
      if file != 'a' {
        return false, rs, s, j;
      }
      var r := if tok == '<' then Redirect(Span(q, eq), O_RDONLY, 0) else Redirect(Span(q, eq), O_WRONLY_CREATE, 1);
      RedirsReadNext(line, ts, i, rs, j);
      AfterNext(rs, ts, j);
      rs, j := rs + [r], j + 2;
    }
  }

  lemma AfterNext(rs: seq<Redirect>, ts: seq<Token>, j: nat)
    requires j + 1 < |ts| && IsRedirOp(ts[j]) && ts[j + 1].kind == 'a'
    ensures After(rs, ParseRedirs(ts, j)) == After(rs + [RedirectOf(ts[j], ts[j + 1])], ParseRedirs(ts, j + 2))
  {
    var r := ParseRedirs(ts, j + 2);
    if r.Redirs? {
      Assoc(rs, [RedirectOf(ts[j], ts[j + 1])], r.rs);
    }
  }

  ghost function After(rs: seq<Redirect>, r: Redirs): Redirs {
    match r
    case Redirs(rs', j) => Redirs(rs + rs', j)
    case NoFile => NoFile
  }

  /** parseexec for a simple command. */
  method Parsesimple(line: string, ghost ts: seq<Token>, ghost i: nat, ps: nat) returns (r: Out, s: nat, ghost j: nat)
    requires Before(line, ts, i, ps)
    ensures r.Done? ==> ParseSimple(ts, i) == Ok(r.cmd, j) && Before(line, ts, j, s)
    ensures r.Died? ==> ParseSimple(ts, i) == Panic(r.why)
  {
    var argc, args := 0, [];
    var ok, rs;
    ok, rs, s, j := Parseredirs(line, ts, i, ps);
    if !ok { return Died(MissingFile), s, j; }
    CompletedStart(ts, i, rs, j);
    while true
      invariant i <= j <= |ts| && Before(line, ts, j, s)
      invariant argc == |args| < MAXARGS
      invariant ParseSimple(ts, i) == Completed(args, rs, ParseArgs(ts, j, argc))
      decreases |ts| - j
    {
      var b;
      b, s := SeesEnd(line, ts, j, s);
      if b { break; }
      ghost var k := j;
      var tok, q, eq;
      tok, q, eq, s := Next(line, ts, j, s);
      if tok == '\0' { break; }
      if tok != 'a' { return Died(Syntax), s, j; }
      argc := argc + 1;
      if argc >= MAXARGS { return Died(TooManyArgs), s, j; }
      var more;
      ok, more, s, j := Parseredirs(line, ts, j + 1, s);
      if !ok { return Died(MissingFile), s, j; }
      CompletedNext(args, rs, ts, k, argc - 1, more, j);
      args, rs := args + [Span(q, eq)], rs + more;
    }
    CompletedEnd(args, rs, ts, j);
    r := Done(Wrap(Exec(args), rs));
  }

  /** The command when the words and redirections so far are followed by those of s. */
  ghost function Completed(args: seq<Span>, rs: seq<Redirect>, s: Simple): Parsed {
    match s
    case Simple(args', rs', j) => Ok(Wrap(Exec(args + args'), rs + rs'), j)
    case Bad(why) => Panic(why)
  }

  lemma CompletedEnd(args: seq<Span>, rs: seq<Redirect>, ts: seq<Token>, j: nat)
    requires j <= |ts| && EndsExec(ts, j)
    ensures Completed(args, rs, ParseArgs(ts, j, |args|)) == Ok(Wrap(Exec(args), rs), j)
  {
    assert args + [] == args && rs + [] == rs;
  }

  lemma CompletedStart(ts: seq<Token>, i: nat, rs: seq<Redirect>, j: nat)
    requires i <= |ts| && ParseRedirs(ts, i) == Redirs(rs, j)
    ensures ParseSimple(ts, i) == Completed([], rs, ParseArgs(ts, j, 0))
  {
    var s := ParseArgs(ts, j, 0);
    assert s.Simple? ==> [] + s.args == s.args;
  }

  lemma CompletedNext(args: seq<Span>, rs: seq<Redirect>, ts: seq<Token>, k: nat, argc: nat, more: seq<Redirect>,
                      j: nat)
    requires k < |ts| && ts[k].kind == 'a' && argc + 1 < MAXARGS && ParseRedirs(ts, k + 1) == Redirs(more, j)
    ensures Completed(args, rs, ParseArgs(ts, k, argc)) ==
            Completed(args + [Word(ts[k])], rs + more, ParseArgs(ts, j, argc + 1))
  {
    var s := ParseArgs(ts, j, argc + 1);
    if s.Simple? {
      Assoc(args, [Word(ts[k])], s.args);
      Assoc(rs, more, s.rs);
    }
  }

  method Parseexec(line: string, ghost ts: seq<Token>, ghost i: nat, ps: nat) returns (r: Out, s: nat, ghost j: nat)
    requires Before(line, ts, i, ps)
    ensures r.Done? ==> ParseExec(ts, i) == Ok(r.cmd, j) && Before(line, ts, j, s)
    ensures r.Died? ==> ParseExec(ts, i) == Panic(r.why)
    decreases |ts| - i, 1
  {
    var b;
    b, s := SeesChar(line, ts, i, ps, '(');
    if b {
      r, s, j := Parseblock(line, ts, i, s);
    } else {
      r, s, j := Parsesimple(line, ts, i, s);
    }
  }

  method Parseblock(line: string, ghost ts: seq<Token>, ghost i: nat, ps: nat) returns (r: Out, s: nat, ghost j: nat)
    requires Before(line, ts, i, ps) && Starts(ts, i, '(')
    ensures r.Done? ==> ParseExec(ts, i) == Ok(r.cmd, j) && Before(line, ts, j, s)
    ensures r.Died? ==> ParseExec(ts, i) == Panic(r.why)
    decreases |ts| - i, 0
  {
    var tok, q, eq;
    tok, q, eq, s := Next(line, ts, i, ps);
    r, s, j := Parseline(line, ts, i + 1, s);
    if r.Died? { return; }
    BlockStep(ts, i, r.cmd, j);
    r, s, j := Parseblockend(line, ts, j, s, r.cmd);
  }

  /** The closing parenthesis of a block and the redirections after it. */
  method Parseblockend(line: string, ghost ts: seq<Token>, ghost k: nat, ps: nat, c: Cmd)
      returns (r: Out, s: nat, ghost j: nat)
    requires Before(line, ts, k, ps)
    ensures r.Done? ==> BlockEnd(ts, c, k) == Ok(r.cmd, j) && Before(line, ts, j, s)
    ensures r.Died? ==> BlockEnd(ts, c, k) == Panic(r.why)
  {
    var b, tok, q, eq;
    b, s := SeesChar(line, ts, k, ps, ')');
    if !b { return Died(MissingParen), s, k; }
    tok, q, eq, s := Next(line, ts, k, s);
    var ok, rs;
    ok, rs, s, j := Parseredirs(line, ts, k + 1, s);
    r := if ok then Done(Wrap(c, rs)) else Died(MissingFile);
  }

  method Parsepipe(line: string, ghost ts: seq<Token>, ghost i: nat, ps: nat) returns (r: Out, s: nat, ghost j: nat)
    requires Before(line, ts, i, ps)
    ensures r.Done? ==> ParsePipe(ts, i) == Ok(r.cmd, j) && Before(line, ts, j, s)
    ensures r.Died? ==> ParsePipe(ts, i) == Panic(r.why)
    decreases |ts| - i, 2
  {
    r, s, j := Parseexec(line, ts, i, ps);
    if r.Died? { return; }
    var b;
    b, s := SeesChar(line, ts, j, s, '|');
    if b {
      var tok, q, eq, right;
      tok, q, eq, s := Next(line, ts, j, s);
      right, s, j := Parsepipe(line, ts, j + 1, s);
      if right.Died? { return right, s, j; }
      r := Done(Pipe(r.cmd, right.cmd));
    }
  }

  method Parseline(line: string, ghost ts: seq<Token>, ghost i: nat, ps: nat) returns (r: Out, s: nat, ghost j: nat)
    requires Before(line, ts, i, ps)
    ensures r.Done? ==> ParseLine(ts, i) == Ok(r.cmd, j) && Before(line, ts, j, s)
    ensures r.Died? ==> ParseLine(ts, i) == Panic(r.why)
    decreases |ts| - i, 3
  {
    r, s, j := Parsepipe(line, ts, i, ps);
    if r.Died? { return; }
    LineStep(ts, i, r.cmd, j);
    var cmd;
    cmd, s, j := Parsebacks(line, ts, j, s, r.cmd);
    var b;
    b, s := SeesChar(line, ts, j, s, ';');
    if b {
      var tok, q, eq, right;
      tok, q, eq, s := Next(line, ts, j, s);
      right, s, j := Parseline(line, ts, j + 1, s);
      if right.Died? { return right, s, j; }
      cmd := List(cmd, right.cmd);
    }
    r := Done(cmd);
  }

  /** The loop of parseline over '&'. */
  method Parsebacks(line: string, ghost ts: seq<Token>, ghost k: nat, ps: nat, c: Cmd)
      returns (cmd: Cmd, s: nat, ghost j: nat)
    requires Before(line, ts, k, ps)
    ensures j == Ands(ts, k) && cmd == Backs(c, j - k) && Before(line, ts, j, s)
  {
    cmd, s, j := c, ps, k;
    while true
      invariant k <= j <= |ts| && Before(line, ts, j, s)
      invariant cmd == Backs(c, j - k) && Ands(ts, j) == Ands(ts, k)
      decreases |ts| - j
    {
      var b, tok, q, eq;
      b, s := SeesChar(line, ts, j, s, '&');
      if !b { return; }
      tok, q, eq, s := Next(line, ts, j, s);
      cmd, j := Back(cmd), j + 1;
    }
  }

  // ---------- Ending the words ----------

  ghost predicate IsEnd(words: seq<Span>, i: int) {
    exists k :: 0 <= k < |words| && words[k].eq == i
  }

  /** The buffer with NUL at the end of every word and nothing else changed. */
  ghost predicate Ended(before: seq<char>, after: seq<char>, words: seq<Span>) {
    && |after| == |before|
    && forall i :: 0 <= i < |before| ==> after[i] == if IsEnd(words, i) then '\0' else before[i]
  }

  ghost predicate Within(words: seq<Span>, n: nat) {
    forall k :: 0 <= k < |words| ==> words[k].eq < n
  }

  lemma EndedJoin(b0: seq<char>, b1: seq<char>, b2: seq<char>, x: seq<Span>, y: seq<Span>)
    requires Ended(b0, b1, x) && Ended(b1, b2, y)
    ensures Ended(b0, b2, x + y)
  {
    forall i | 0 <= i < |b0|
      ensures IsEnd(x + y, i) <==> IsEnd(x, i) || IsEnd(y, i)
    {
      if IsEnd(x, i) {
        var k :| 0 <= k < |x| && x[k].eq == i;
        assert (x + y)[k].eq == i;
      }
      if IsEnd(y, i) {
        var k :| 0 <= k < |y| && y[k].eq == i;
        assert (x + y)[|x| + k].eq == i;
      }
    }
  }

  lemma WithinSplit(x: seq<Span>, y: seq<Span>, n: nat)
    requires Within(x + y, n)
    ensures Within(x, n) && Within(y, n)
  {
    forall k | 0 <= k < |x|
      ensures x[k].eq < n
    {
      assert (x + y)[k] == x[k];
    }
    forall k | 0 <= k < |y|
      ensures y[k].eq < n
    {
      assert (x + y)[|x| + k] == y[k];
    }
  }

  method EndWord(w: Span, buf: array<char>)
    requires w.eq < buf.Length
    modifies buf
    ensures Ended(old(buf[..]), buf[..], [w])
  {
    buf[w.eq] := '\0';
    assert [w][0].eq == w.eq;
  }

  method EndArgs(args: seq<Span>, buf: array<char>)
    requires Within(args, buf.Length)
    modifies buf
    ensures Ended(old(buf[..]), buf[..], args)
  {
    var i := 0;
    while i < |args|
      invariant 0 <= i <= |args| && Ended(old(buf[..]), buf[..], args[..i])
    {
      ghost var b := buf[..];
      EndWord(args[i], buf);
      EndedJoin(old(buf[..]), b, buf[..], args[..i], [args[i]]);
      assert args[..i] + [args[i]] == args[..i + 1];
      i := i + 1;
    }
    assert args[..i] == args;
  }

  /** nulterminate: a NUL behind every word of the tree. */
  method Nulterminate(c: Cmd, buf: array<char>)
    requires Within(Words(c), buf.Length)
    modifies buf
    ensures Ended(old(buf[..]), buf[..], Words(c))
    decreases c
  {
    match c
    case Exec(args) =>
      EndArgs(args, buf);
    case Redir(c', r) =>
      WithinSplit(Words(c'), [r.file], buf.Length);
      assert [r.file][0].eq < buf.Length;
      Nulterminate(c', buf);
      ghost var b := buf[..];
      EndWord(r.file, buf);
      EndedJoin(old(buf[..]), b, buf[..], Words(c'), [r.file]);
    case Back(c') =>
      Nulterminate(c', buf);
    case _ =>
      WithinSplit(Words(c.left), Words(c.right), buf.Length);
      Nulterminate(c.left, buf);
      ghost var b := buf[..];
      Nulterminate(c.right, buf);
      EndedJoin(old(buf[..]), b, buf[..], Words(c.left), Words(c.right));
  }

  /** The buffer holds the word as a C string: its characters, none of them NUL, and a NUL behind them. */
  ghost predicate ReadsBack(line: string, buf: seq<char>, w: Span) {
    && w.q <= w.eq <= |line| && w.eq < |buf|
    && buf[w.q..w.eq] == line[w.q..w.eq] && buf[w.eq] == '\0'
    && forall i :: w.q <= i < w.eq ==> buf[i] != '\0'
  }

  /** A word of the line: word characters, with none behind. */
  ghost predicate WordAt(line: string, w: Span) {
    && w.q < w.eq <= |line|
    && (forall k :: w.q <= k < w.eq ==> IsWordChar(line[k]))
    && (w.eq < |line| ==> !IsWordChar(line[w.eq]))
  }

  lemma {:induction false} WordTokensAre(line: string, ts: seq<Token>, i: nat, j: nat, w: Span)
    requires i <= j <= |ts| && Lexed(line, 0, ts) && w in WordTokens(ts, i, j)
    ensures WordAt(line, w)
    decreases j - i
  {
    assert LexedAt(line, ts, i);
    if !(ts[i].kind == 'a' && w == Word(ts[i])) {
      WordTokensAre(line, ts, i + 1, j, w);
    }
  }

  /** After nulterminate every word of the tree reads back as exactly its own characters. */
  lemma WordsReadBack(line: string, before: seq<char>, after: seq<char>, words: seq<Span>, w: Span)
    requires IsLineText(line) && |line| < |before| && before[..|line|] == line && Ended(before, after, words)
    requires w in words
    requires forall k :: 0 <= k < |words| ==> WordAt(line, words[k])
    ensures ReadsBack(line, after, w)
  {
    var k :| 0 <= k < |words| && words[k] == w;
    assert WordAt(line, words[k]);
    assert IsEnd(words, w.eq);
    forall i | w.q <= i < w.eq
      ensures after[i] == line[i] && line[i] != '\0'
    {
      assert before[..|line|][i] == before[i];
      assert !IsEnd(words, i);
    }
  }

  /** Membership follows from counting. */
  lemma InBoth(a: seq<Span>, b: seq<Span>, k: nat)
    requires multiset(a) == multiset(b) && k < |a|
    ensures a[k] in b
  {
    assert a[k] in multiset(a);
  }

  /** The words of a parsed line are words of the text. */
  lemma TreeWordsInText(line: string, ts: seq<Token>, c: Cmd)
    requires Lexed(line, 0, ts) && IsLine(c, ts, 0, |ts|)
    ensures forall k :: 0 <= k < |Words(c)| ==> WordAt(line, Words(c)[k])
  {
    LineWords(c, ts, 0, |ts|);
    forall k | 0 <= k < |Words(c)|
      ensures WordAt(line, Words(c)[k])
    {
      InBoth(Words(c), WordTokens(ts, 0, |ts|), k);
      WordTokensAre(line, ts, 0, |ts|, Words(c)[k]);
    }
  }

  /** c is the grammar's tree for the tokens of a line. */
  ghost predicate IsTree(c: Cmd, line: string) {
    IsLine(c, Tokens(line, 0), 0, |Tokens(line, 0)|)
  }

  /** parsecmd on a buffer that holds a line of n characters and a NUL: it succeeds exactly when the line's tokens are
      in the grammar, with the grammar's tree; then every word of the tree reads back from the buffer, and the tree's
      redirections are those the operators of the line ask for, in their order. */
  method Parsecmd(buf: array<char>, n: nat) returns (r: Out)
    requires n < buf.Length && buf[n] == '\0' && forall i :: 0 <= i < n ==> buf[i] != '\0'
    modifies buf
    ensures r.Done? <==> exists c :: IsTree(c, old(buf[..n]))
    ensures r.Done? ==> IsTree(r.cmd, old(buf[..n]))
    ensures r.Done? ==> forall k :: 0 <= k < |Words(r.cmd)| ==> ReadsBack(old(buf[..n]), buf[..], Words(r.cmd)[k])
    ensures r.Done? ==> Ended(old(buf[..]), buf[..], Words(r.cmd))
    ensures r.Done? ==>
              var line, rs := old(buf[..n]), Redirections(r.cmd);
              && |rs| == |Operators(line, 0)|
              && forall k :: 0 <= k < |rs| ==> WrittenAt(line, Operators(line, 0)[k], rs[k])
    ensures r.Died? ==> buf[..] == old(buf[..])
  {
    var line := buf[..n];
    ghost var before := buf[..];
    ghost var ts := Tokens(line, 0);
    TokensLexed(line, 0);
    var s; ghost var j;
    r, s, j := Parseline(line, ts, 0, 0);
    Decided(ts, r, j);
    if r.Died? { return; }
    var b;
    b, s := Sees(line, ts, j, s, "");
    if s != |line| {
      return Died(Leftovers);
    }
    assert IsTree(r.cmd, line);
    TreeWordsInText(line, ts, r.cmd);
    TreeRedirections(line, r.cmd);
    Nulterminate(r.cmd, buf);
    forall k | 0 <= k < |Words(r.cmd)|
      ensures ReadsBack(line, buf[..], Words(r.cmd)[k])
    {
      WordsReadBack(line, before, buf[..], Words(r.cmd), Words(r.cmd)[k]);
    }
  }

  /** The outcome of parseline on the whole line, against the grammar. */
  lemma Decided(ts: seq<Token>, r: Out, j: nat)
    requires r.Done? ==> ParseLine(ts, 0) == Ok(r.cmd, j)
    requires r.Died? ==> ParseLine(ts, 0) == Panic(r.why)
    ensures r.Done? && j == |ts| ==> IsLine(r.cmd, ts, 0, |ts|)
    ensures !(r.Done? && j == |ts|) ==> forall c :: !IsLine(c, ts, 0, |ts|)
  {
    if r.Done? && j == |ts| {
      ParserDecidesGrammar(r.cmd, ts);
    } else {
      forall c
        ensures !IsLine(c, ts, 0, |ts|)
      {
        ParserDecidesGrammar(c, ts);
      }
    }
  }
}
