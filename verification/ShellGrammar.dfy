/** Command lines as trees: what the recursive-descent parser of sh.c computes on tokens, and the grammar it decides. */
module ShellGrammar {
  import opened ShellTokens

  const MAXARGS: nat := 10

  /** A word, by the places where it begins and ends. */
  datatype Span = Span(q: nat, eq: nat)

  datatype Redirect = Redirect(file: Span, mode: nat, fd: nat)

  datatype Cmd =
    | Exec(args: seq<Span>)
    | Redir(cmd: Cmd, r: Redirect)
    | Pipe(left: Cmd, right: Cmd)
    | List(left: Cmd, right: Cmd)
    | Back(cmd: Cmd)

  datatype Error = MissingFile | MissingParen | Syntax | TooManyArgs | Leftovers

  // ---------- The grammar ----------

  function Word(t: Token): Span {
    Span(t.q, t.eq)
  }

  predicate IsRedirOp(t: Token) {
    t.kind == '<' || t.kind == '>' || t.kind == '+'
  }

  const O_RDONLY: nat := 0
  const O_WRONLY_CREATE: nat := 0x201

  function RedirectOf(op: Token, file: Token): Redirect {
    if op.kind == '<' then Redirect(Word(file), O_RDONLY, 0) else Redirect(Word(file), O_WRONLY_CREATE, 1)
  }

  /** Redirections around a command, the first innermost. */
  function Wrap(c: Cmd, rs: seq<Redirect>): Cmd
    decreases rs
  {
    if rs == [] then c else Wrap(Redir(c, rs[0]), rs[1..])
  }

  datatype Reading = Reading(args: seq<Span>, rs: seq<Redirect>) | NotSimple

  /** Tokens i to j read as words and redirections in any order. */
  function Reads(ts: seq<Token>, i: nat, j: nat): Reading
    requires i <= j <= |ts|
    decreases j - i
  {
    if i == j then Reading([], [])
    else if ts[i].kind == 'a' then
      match Reads(ts, i + 1, j)
      case Reading(args, rs) => Reading([Word(ts[i])] + args, rs)
      case NotSimple => NotSimple
    else if IsRedirOp(ts[i]) && i + 1 < j && ts[i + 1].kind == 'a' then
      match Reads(ts, i + 2, j)
      case Reading(args, rs) => Reading(args, [RedirectOf(ts[i], ts[i + 1])] + rs)
      case NotSimple => NotSimple
    else NotSimple
  }

  /** A simple command: words and redirections, fewer than MAXARGS words. */
  ghost predicate IsSimple(c: Cmd, ts: seq<Token>, i: nat, j: nat)
    requires i <= j <= |ts|
  {
    match Reads(ts, i, j)
    case Reading(args, rs) => |args| < MAXARGS && c == Wrap(Exec(args), rs)
    case NotSimple => false
  }

  /** A line in parentheses, the closing one at k, and redirections. */
  ghost predicate IsBlock(c: Cmd, inner: Cmd, ts: seq<Token>, i: nat, k: nat, j: nat)
    requires i <= j <= |ts|
    decreases j - i, 0
  {
    && i < k < j && ts[i].kind == '(' && ts[k].kind == ')'
    && IsLine(inner, ts, i + 1, k)
    && match Reads(ts, k + 1, j)
       case Reading(args, rs) => args == [] && c == Wrap(inner, rs)
       case NotSimple => false
  }

  ghost predicate IsExec(c: Cmd, ts: seq<Token>, i: nat, j: nat)
    requires i <= j <= |ts|
    decreases j - i, 1
  {
    IsSimple(c, ts, i, j) || exists inner, k: nat :: IsBlock(c, inner, ts, i, k, j)
  }

  /** left '|' right, with the bar at k. */
  ghost predicate IsPiped(c: Cmd, ts: seq<Token>, i: nat, k: nat, j: nat)
    requires i <= j <= |ts|
    decreases j - i, 2
  {
    c.Pipe? && i <= k < j && ts[k].kind == '|' && IsExec(c.left, ts, i, k) && IsPipe(c.right, ts, k + 1, j)
  }

  /** '|' groups to the right and binds tightest. */
  ghost predicate IsPipe(c: Cmd, ts: seq<Token>, i: nat, j: nat)
    requires i <= j <= |ts|
    decreases j - i, 3
  {
    IsExec(c, ts, i, j) || exists k: nat :: IsPiped(c, ts, i, k, j)
  }

  /** Any number of '&' after a pipeline. */
  ghost predicate IsBack(c: Cmd, ts: seq<Token>, i: nat, j: nat)
    requires i <= j <= |ts|
    decreases j - i, 4
  {
    IsPipe(c, ts, i, j) || (c.Back? && i < j && ts[j - 1].kind == '&' && IsBack(c.cmd, ts, i, j - 1))
  }

  /** left ';' right, with the semicolon at k. */
  ghost predicate IsListed(c: Cmd, ts: seq<Token>, i: nat, k: nat, j: nat)
    requires i <= j <= |ts|
    decreases j - i, 5
  {
    c.List? && i <= k < j && ts[k].kind == ';' && IsBack(c.left, ts, i, k) && IsLine(c.right, ts, k + 1, j)
  }

  /** ';' groups to the right and binds loosest. */
  ghost predicate IsLine(c: Cmd, ts: seq<Token>, i: nat, j: nat)
    requires i <= j <= |ts|
    decreases j - i, 6
  {
    IsBack(c, ts, i, j) || exists k: nat :: IsListed(c, ts, i, k, j)
  }

  // ---------- The parser on tokens ----------

  /** A command and the token after it, or a panic. */
  datatype Parsed = Ok(cmd: Cmd, j: nat) | Panic(why: Error)

  datatype Redirs = Redirs(rs: seq<Redirect>, j: nat) | NoFile

  /** parseredirs. */
  function ParseRedirs(ts: seq<Token>, i: nat): (r: Redirs)
    requires i <= |ts|
    ensures r.Redirs? ==> i <= r.j <= |ts|
    decreases |ts| - i
  {
    if i == |ts| || !IsRedirOp(ts[i]) then Redirs([], i)
    else if i + 1 == |ts| || ts[i + 1].kind != 'a' then NoFile
    else
      match ParseRedirs(ts, i + 2)
      case Redirs(rs, j) => Redirs([RedirectOf(ts[i], ts[i + 1])] + rs, j)
      case NoFile => NoFile
  }

  predicate Starts(ts: seq<Token>, i: nat, kind: char) {
    i < |ts| && ts[i].kind == kind
  }

  predicate EndsExec(ts: seq<Token>, i: nat) {
    i == |ts| || Starts(ts, i, '|') || Starts(ts, i, ')') || Starts(ts, i, '&') || Starts(ts, i, ';')
  }

  datatype Simple = Simple(args: seq<Span>, rs: seq<Redirect>, j: nat) | Bad(why: Error)

  /** The loop of parseexec, with argc words behind it. */
  function ParseArgs(ts: seq<Token>, i: nat, argc: nat): (r: Simple)
    requires i <= |ts|
    ensures r.Simple? ==> i <= r.j <= |ts|
    decreases |ts| - i
  {
    if EndsExec(ts, i) then Simple([], [], i)
    else if ts[i].kind != 'a' then Bad(Syntax)
    else if argc + 1 >= MAXARGS then Bad(TooManyArgs)
    else
      match ParseRedirs(ts, i + 1)
      case NoFile => Bad(MissingFile)
      case Redirs(rs, k) =>
        match ParseArgs(ts, k, argc + 1)
        case Simple(args, rs', j) => Simple([Word(ts[i])] + args, rs + rs', j)
        case Bad(why) => Bad(why)
  }

  function ParseSimple(ts: seq<Token>, i: nat): (r: Parsed)
    requires i <= |ts|
    ensures r.Ok? ==> i <= r.j <= |ts|
  {
    match ParseRedirs(ts, i)
    case NoFile => Panic(MissingFile)
    case Redirs(rs, k) =>
      match ParseArgs(ts, k, 0)
      case Simple(args, rs', j) => Ok(Wrap(Exec(args), rs + rs'), j)
      case Bad(why) => Panic(why)
  }

  /** What follows the line in a block: the closing parenthesis and redirections. */
  function BlockEnd(ts: seq<Token>, c: Cmd, k: nat): (r: Parsed)
    ensures r.Ok? ==> k < r.j <= |ts|
  {
    if !Starts(ts, k, ')') then Panic(MissingParen)
    else
      match ParseRedirs(ts, k + 1)
      case NoFile => Panic(MissingFile)
      case Redirs(rs, j) => Ok(Wrap(c, rs), j)
  }

  function ParseExec(ts: seq<Token>, i: nat): (r: Parsed)
    requires i <= |ts|
    ensures r.Ok? ==> i <= r.j <= |ts|
    decreases |ts| - i, 0
  {
    if !Starts(ts, i, '(') then ParseSimple(ts, i)
    else
      match ParseLine(ts, i + 1)
      case Panic(why) => Panic(why)
      case Ok(c, k) => BlockEnd(ts, c, k)
  }

  function ParsePipe(ts: seq<Token>, i: nat): (r: Parsed)
    requires i <= |ts|
    ensures r.Ok? ==> i <= r.j <= |ts|
    decreases |ts| - i, 1
  {
    match ParseExec(ts, i)
    case Panic(why) => Panic(why)
    case Ok(c, k) =>
      if !Starts(ts, k, '|') then Ok(c, k)
      else
        match ParsePipe(ts, k + 1)
        case Panic(why) => Panic(why)
        case Ok(right, j) => Ok(Pipe(c, right), j)
  }

  /** Where the '&' that come next end. */
  function Ands(ts: seq<Token>, i: nat): (j: nat)
    requires i <= |ts|
    ensures i <= j <= |ts| && !Starts(ts, j, '&')
    decreases |ts| - i
  {
    if Starts(ts, i, '&') then Ands(ts, i + 1) else i
  }

  function Backs(c: Cmd, n: nat): Cmd {
    if n == 0 then c else Back(Backs(c, n - 1))
  }

  function ParseLine(ts: seq<Token>, i: nat): (r: Parsed)
    requires i <= |ts|
    ensures r.Ok? ==> i <= r.j <= |ts|
    decreases |ts| - i, 2
  {
    match ParsePipe(ts, i)
    case Panic(why) => Panic(why)
    case Ok(c, k) =>
      var m := Ands(ts, k);
      var left := Backs(c, m - k);
      if !Starts(ts, m, ';') then Ok(left, m)
      else
        match ParseLine(ts, m + 1)
        case Panic(why) => Panic(why)
        case Ok(right, j) => Ok(List(left, right), j)
  }

  // ---------- What the parser accepts is in the grammar ----------

  /** A line by its first pipeline. */
  lemma LineStep(ts: seq<Token>, i: nat, c: Cmd, k: nat)
    requires i <= |ts| && ParsePipe(ts, i) == Ok(c, k)
    ensures k <= |ts|
    ensures var j := Ands(ts, k);
            ParseLine(ts, i) ==
              if !Starts(ts, j, ';') then Ok(Backs(c, j - k), j)
              else match ParseLine(ts, j + 1)
                   case Panic(why) => Panic(why)
                   case Ok(right, end) => Ok(List(Backs(c, j - k), right), end)
  {
  }

  /** A block by the line in it. */
  lemma BlockStep(ts: seq<Token>, i: nat, c: Cmd, k: nat)
    requires Starts(ts, i, '(') && ParseLine(ts, i + 1) == Ok(c, k)
    ensures ParseExec(ts, i) == BlockEnd(ts, c, k)
  {
  }

  lemma Assoc<T>(a: seq<T>, b: seq<T>, c: seq<T>)
    ensures (a + b) + c == a + (b + c)
  {
  }

  function Join(a: Reading, b: Reading): Reading {
    if a.Reading? && b.Reading? then Reading(a.args + b.args, a.rs + b.rs) else NotSimple
  }

  lemma {:induction false} ReadsJoin(ts: seq<Token>, i: nat, k: nat, j: nat)
    requires i <= k <= j <= |ts| && Reads(ts, i, k).Reading?
    ensures Reads(ts, i, j) == Join(Reads(ts, i, k), Reads(ts, k, j))
    decreases k - i
  {
    var b := Reads(ts, k, j);
    if i == k {
      assert b.Reading? ==> [] + b.args == b.args && [] + b.rs == b.rs;
    } else if ts[i].kind == 'a' {
      ReadsJoin(ts, i + 1, k, j);
      if b.Reading? { Assoc([Word(ts[i])], Reads(ts, i + 1, k).args, b.args); }
    } else {
      ReadsJoin(ts, i + 2, k, j);
      if b.Reading? { Assoc([RedirectOf(ts[i], ts[i + 1])], Reads(ts, i + 2, k).rs, b.rs); }
    }
  }

  lemma {:induction false} RedirsSound(ts: seq<Token>, i: nat)
    requires i <= |ts| && ParseRedirs(ts, i).Redirs?
    ensures Reads(ts, i, ParseRedirs(ts, i).j) == Reading([], ParseRedirs(ts, i).rs)
    decreases |ts| - i
  {
    if i < |ts| && IsRedirOp(ts[i]) {
      RedirsSound(ts, i + 2);
    }
  }

  lemma {:induction false} ArgsSound(ts: seq<Token>, i: nat, argc: nat)
    requires i <= |ts| && ParseArgs(ts, i, argc).Simple? && argc < MAXARGS
    ensures var r := ParseArgs(ts, i, argc);
            Reads(ts, i, r.j) == Reading(r.args, r.rs) && argc + |r.args| < MAXARGS
    decreases |ts| - i
  {
    if !EndsExec(ts, i) {
      var k, r := ParseRedirs(ts, i + 1).j, ParseArgs(ts, i, argc);
      RedirsSound(ts, i + 1);
      ArgsSound(ts, k, argc + 1);
      ReadsJoin(ts, i + 1, k, r.j);
      assert [] + ParseArgs(ts, k, argc + 1).args == ParseArgs(ts, k, argc + 1).args;
    }
  }

  lemma SimpleSound(ts: seq<Token>, i: nat)
    requires i <= |ts| && ParseSimple(ts, i).Ok?
    ensures IsSimple(ParseSimple(ts, i).cmd, ts, i, ParseSimple(ts, i).j)
  {
    var k := ParseRedirs(ts, i).j;
    var r := ParseArgs(ts, k, 0);
    RedirsSound(ts, i);
    ArgsSound(ts, k, 0);
    ReadsJoin(ts, i, k, r.j);
    assert [] + r.args == r.args;
  }

  lemma {:induction false} ExecSound(ts: seq<Token>, i: nat)
    requires i <= |ts| && ParseExec(ts, i).Ok?
    ensures IsExec(ParseExec(ts, i).cmd, ts, i, ParseExec(ts, i).j)
    decreases |ts| - i, 0
  {
    if !Starts(ts, i, '(') {
      SimpleSound(ts, i);
    } else {
      LineSound(ts, i + 1);
      var inner, r := ParseLine(ts, i + 1), ParseExec(ts, i);
      RedirsSound(ts, inner.j + 1);
      assert IsBlock(r.cmd, inner.cmd, ts, i, inner.j, r.j);
    }
  }

  lemma {:induction false} PipeSound(ts: seq<Token>, i: nat)
    requires i <= |ts| && ParsePipe(ts, i).Ok?
    ensures IsPipe(ParsePipe(ts, i).cmd, ts, i, ParsePipe(ts, i).j)
    decreases |ts| - i, 1
  {
    ExecSound(ts, i);
    var k := ParseExec(ts, i).j;
    if Starts(ts, k, '|') {
      PipeSound(ts, k + 1);
      assert IsPiped(ParsePipe(ts, i).cmd, ts, i, k, ParsePipe(ts, i).j);
    }
  }

  lemma {:induction false} BackSound(c: Cmd, ts: seq<Token>, i: nat, k: nat, n: nat)
    requires i <= k <= |ts| && IsBack(Backs(c, n), ts, i, k)
    ensures IsBack(Backs(c, n + Ands(ts, k) - k), ts, i, Ands(ts, k))
    decreases |ts| - k
  {
    if Starts(ts, k, '&') {
      assert IsBack(Backs(c, n + 1), ts, i, k + 1);
      BackSound(c, ts, i, k + 1, n + 1);
    }
  }

  lemma {:induction false} LineSound(ts: seq<Token>, i: nat)
    requires i <= |ts| && ParseLine(ts, i).Ok?
    ensures IsLine(ParseLine(ts, i).cmd, ts, i, ParseLine(ts, i).j)
    decreases |ts| - i, 2
  {
    PipeSound(ts, i);
    var c, k := ParsePipe(ts, i).cmd, ParsePipe(ts, i).j;
    BackSound(c, ts, i, k, 0);
    var m := Ands(ts, k);
    if Starts(ts, m, ';') {
      LineSound(ts, m + 1);
      assert IsListed(ParseLine(ts, i).cmd, ts, i, m, ParseLine(ts, i).j);
    }
  }

  // ---------- What is in the grammar the parser accepts ----------

  lemma {:induction false} RedirsComplete(ts: seq<Token>, i: nat, j: nat)
    requires i <= j <= |ts| && Reads(ts, i, j).Reading? && (j == |ts| || !IsRedirOp(ts[j]))
    ensures var r := ParseRedirs(ts, i);
            && r.Redirs? && r.j <= j && (r.j == j || ts[r.j].kind == 'a')
            && Reads(ts, r.j, j).Reading? && Reads(ts, r.j, j).args == Reads(ts, i, j).args
            && Reads(ts, i, j).rs == r.rs + Reads(ts, r.j, j).rs
    decreases j - i
  {
    if i < j && ts[i].kind != 'a' {
      RedirsComplete(ts, i + 2, j);
      var r := ParseRedirs(ts, i + 2);
      Assoc([RedirectOf(ts[i], ts[i + 1])], r.rs, Reads(ts, r.j, j).rs);
    }
  }

  lemma {:induction false} ArgsComplete(ts: seq<Token>, i: nat, j: nat, argc: nat)
    requires i <= j <= |ts| && Reads(ts, i, j).Reading? && EndsExec(ts, j) && (i == j || ts[i].kind == 'a')
    requires argc + |Reads(ts, i, j).args| < MAXARGS
    ensures ParseArgs(ts, i, argc) == Simple(Reads(ts, i, j).args, Reads(ts, i, j).rs, j)
    decreases j - i
  {
    if i < j {
      RedirsComplete(ts, i + 1, j);
      ArgsComplete(ts, ParseRedirs(ts, i + 1).j, j, argc + 1);
    }
  }

  lemma SimpleComplete(c: Cmd, ts: seq<Token>, i: nat, j: nat)
    requires i <= j <= |ts| && IsSimple(c, ts, i, j) && EndsExec(ts, j)
    ensures ParseExec(ts, i) == Ok(c, j)
  {
    RedirsComplete(ts, i, j);
    ArgsComplete(ts, ParseRedirs(ts, i).j, j, 0);
    assert !Starts(ts, i, '(');
  }

  predicate EndsLine(ts: seq<Token>, j: nat) {
    j == |ts| || Starts(ts, j, ')')
  }

  predicate EndsPipe(ts: seq<Token>, j: nat) {
    EndsLine(ts, j) || Starts(ts, j, ';') || Starts(ts, j, '&')
  }

  lemma {:induction false} ExecComplete(c: Cmd, ts: seq<Token>, i: nat, j: nat)
    requires i <= j <= |ts| && IsExec(c, ts, i, j) && EndsExec(ts, j)
    ensures ParseExec(ts, i) == Ok(c, j)
    decreases j - i, 0
  {
    if IsSimple(c, ts, i, j) {
      SimpleComplete(c, ts, i, j);
    } else {
      var inner, k: nat :| IsBlock(c, inner, ts, i, k, j);
      LineComplete(inner, ts, i + 1, k);
      RedirsComplete(ts, k + 1, j);
      var r := ParseRedirs(ts, k + 1);
      assert r.j == j;
      assert r.rs + [] == r.rs;
    }
  }

  lemma {:induction false} PipeComplete(c: Cmd, ts: seq<Token>, i: nat, j: nat)
    requires i <= j <= |ts| && IsPipe(c, ts, i, j) && EndsPipe(ts, j)
    ensures ParsePipe(ts, i) == Ok(c, j)
    decreases j - i, 1
  {
    if IsExec(c, ts, i, j) {
      ExecComplete(c, ts, i, j);
    } else {
      var k: nat :| IsPiped(c, ts, i, k, j);
      ExecComplete(c.left, ts, i, k);
      PipeComplete(c.right, ts, k + 1, j);
    }
  }

  /** The pipeline under the '&'s of a command, and where it ends. */
  lemma {:induction false} BackComplete(c: Cmd, ts: seq<Token>, i: nat, j: nat) returns (c0: Cmd, k: nat)
    requires i <= j <= |ts| && IsBack(c, ts, i, j) && EndsPipe(ts, j)
    ensures i <= k <= j && ParsePipe(ts, i) == Ok(c0, k) && c == Backs(c0, j - k)
    ensures forall x :: k <= x < j ==> ts[x].kind == '&'
    decreases j - i, 2
  {
    if IsPipe(c, ts, i, j) {
      PipeComplete(c, ts, i, j);
      c0, k := c, j;
    } else {
      c0, k := BackComplete(c.cmd, ts, i, j - 1);
    }
  }

  lemma {:induction false} AndsEnd(ts: seq<Token>, k: nat, j: nat)
    requires k <= j <= |ts| && (forall x :: k <= x < j ==> ts[x].kind == '&') && !Starts(ts, j, '&')
    ensures Ands(ts, k) == j
    decreases j - k
  {
    if k < j { AndsEnd(ts, k + 1, j); }
  }

  lemma LineEnds(ts: seq<Token>, i: nat, c: Cmd, k: nat, j: nat)
    requires i <= k <= j <= |ts| && ParsePipe(ts, i) == Ok(c, k) && EndsLine(ts, j)
    requires forall x :: k <= x < j ==> ts[x].kind == '&'
    ensures ParseLine(ts, i) == Ok(Backs(c, j - k), j)
  {
    AndsEnd(ts, k, j);
    LineStep(ts, i, c, k);
  }

  lemma LineGoesOn(ts: seq<Token>, i: nat, c: Cmd, k: nat, m: nat, right: Cmd, j: nat)
    requires i <= k <= m < |ts| && ParsePipe(ts, i) == Ok(c, k) && ts[m].kind == ';'
    requires forall x :: k <= x < m ==> ts[x].kind == '&'
    requires ParseLine(ts, m + 1) == Ok(right, j)
    ensures ParseLine(ts, i) == Ok(List(Backs(c, m - k), right), j)
  {
    AndsEnd(ts, k, m);
    LineStep(ts, i, c, k);
  }

  lemma {:induction false} LineComplete(c: Cmd, ts: seq<Token>, i: nat, j: nat)
    requires i <= j <= |ts| && IsLine(c, ts, i, j) && EndsLine(ts, j)
    ensures ParseLine(ts, i) == Ok(c, j)
    decreases j - i, 3
  {
    if IsBack(c, ts, i, j) {
      var c0, k := BackComplete(c, ts, i, j);
      LineEnds(ts, i, c0, k, j);
    } else {
      var m: nat :| IsListed(c, ts, i, m, j);
      var c0, k := BackComplete(c.left, ts, i, m);
      LineComplete(c.right, ts, m + 1, j);
      LineGoesOn(ts, i, c0, k, m, c.right, j);
    }
  }

  /** The parser takes all the tokens exactly when they are a line of the grammar, and then the tree is the one the
      grammar gives: no line has two. */
  lemma ParserDecidesGrammar(c: Cmd, ts: seq<Token>)
    ensures ParseLine(ts, 0) == Ok(c, |ts|) <==> IsLine(c, ts, 0, |ts|)
  {
    if ParseLine(ts, 0) == Ok(c, |ts|) {
      LineSound(ts, 0);
    }
    if IsLine(c, ts, 0, |ts|) {
      LineComplete(c, ts, 0, |ts|);
    }
  }

  // ---------- The words of a tree ----------

  /** The words of a command, the files of its redirections after what they surround. */
  function Words(c: Cmd): seq<Span> {
    match c
    case Exec(args) => args
    case Redir(c', r) => Words(c') + [r.file]
    case Pipe(l, r) => Words(l) + Words(r)
    case List(l, r) => Words(l) + Words(r)
    case Back(c') => Words(c')
  }

  /** The words among tokens i to j. */
  function WordTokens(ts: seq<Token>, i: nat, j: nat): seq<Span>
    requires i <= j <= |ts|
    decreases j - i
  {
    if i == j then []
    else (if ts[i].kind == 'a' then [Word(ts[i])] else []) + WordTokens(ts, i + 1, j)
  }

  /** The arguments of a tree's commands, from left to right. */
  function Arguments(c: Cmd): seq<Span> {
    match c
    case Exec(args) => args
    case Redir(c', _) => Arguments(c')
    case Pipe(l, r) => Arguments(l) + Arguments(r)
    case List(l, r) => Arguments(l) + Arguments(r)
    case Back(c') => Arguments(c')
  }

  /** The redirections of a tree, from left to right and from the inside out. */
  function Redirections(c: Cmd): seq<Redirect> {
    match c
    case Exec(_) => []
    case Redir(c', r) => Redirections(c') + [r]
    case Pipe(l, r) => Redirections(l) + Redirections(r)
    case List(l, r) => Redirections(l) + Redirections(r)
    case Back(c') => Redirections(c')
  }

  /** A redirection stands at token i. */
  predicate RedirAt(ts: seq<Token>, i: nat, j: nat)
    requires i < j <= |ts|
  {
    IsRedirOp(ts[i]) && i + 1 < j && ts[i + 1].kind == 'a'
  }

  /** The words among tokens i to j that follow no redirection operator. */
  function ArgTokens(ts: seq<Token>, i: nat, j: nat): seq<Span>
    requires i <= j <= |ts|
    decreases j - i
  {
    if i == j then []
    else if RedirAt(ts, i, j) then ArgTokens(ts, i + 2, j)
    else (if ts[i].kind == 'a' then [Word(ts[i])] else []) + ArgTokens(ts, i + 1, j)
  }

  /** The redirections among tokens i to j. */
  function RedirTokens(ts: seq<Token>, i: nat, j: nat): seq<Redirect>
    requires i <= j <= |ts|
    decreases j - i
  {
    if i == j then []
    else if RedirAt(ts, i, j) then [RedirectOf(ts[i], ts[i + 1])] + RedirTokens(ts, i + 2, j)
    else RedirTokens(ts, i + 1, j)
  }

  /** The tree has the arguments and the redirections of tokens i to j, in their order. */
  predicate InOrder(c: Cmd, ts: seq<Token>, i: nat, j: nat)
    requires i <= j <= |ts|
  {
    Arguments(c) == ArgTokens(ts, i, j) && Redirections(c) == RedirTokens(ts, i, j)
  }

  lemma {:induction false} WrapOrder(c: Cmd, rs: seq<Redirect>)
    ensures Arguments(Wrap(c, rs)) == Arguments(c) && Redirections(Wrap(c, rs)) == Redirections(c) + rs
    decreases rs
  {
    if rs != [] {
      WrapOrder(Redir(c, rs[0]), rs[1..]);
      assert Redirections(c) + [rs[0]] + rs[1..] == Redirections(c) + rs;
    } else {
      assert Redirections(c) + rs == Redirections(c);
    }
  }

  lemma {:induction false} ReadsOrder(ts: seq<Token>, i: nat, j: nat)
    requires i <= j <= |ts| && Reads(ts, i, j).Reading?
    ensures Reads(ts, i, j).args == ArgTokens(ts, i, j) && Reads(ts, i, j).rs == RedirTokens(ts, i, j)
    decreases j - i
  {
    if i < j && ts[i].kind == 'a' {
      ReadsOrder(ts, i + 1, j);
    } else if i < j {
      ReadsOrder(ts, i + 2, j);
    }
  }

  lemma {:induction false} SeparatedArgs(ts: seq<Token>, i: nat, k: nat, j: nat)
    requires i <= k < j <= |ts| && ts[k].kind != 'a' && !IsRedirOp(ts[k])
    ensures ArgTokens(ts, i, j) == ArgTokens(ts, i, k) + ArgTokens(ts, k + 1, j)
    decreases k - i
  {
    if i == k {
      assert [] + ArgTokens(ts, k + 1, j) == ArgTokens(ts, k + 1, j);
    } else if RedirAt(ts, i, k) {
      SeparatedArgs(ts, i + 2, k, j);
    } else {
      assert !RedirAt(ts, i, j);
      SeparatedArgs(ts, i + 1, k, j);
      Assoc(if ts[i].kind == 'a' then [Word(ts[i])] else [], ArgTokens(ts, i + 1, k), ArgTokens(ts, k + 1, j));
    }
  }

  lemma {:induction false} SeparatedRedirs(ts: seq<Token>, i: nat, k: nat, j: nat)
    requires i <= k < j <= |ts| && ts[k].kind != 'a' && !IsRedirOp(ts[k])
    ensures RedirTokens(ts, i, j) == RedirTokens(ts, i, k) + RedirTokens(ts, k + 1, j)
    decreases k - i
  {
    if i == k {
      assert [] + RedirTokens(ts, k + 1, j) == RedirTokens(ts, k + 1, j);
    } else if RedirAt(ts, i, k) {
      SeparatedRedirs(ts, i + 2, k, j);
      Assoc([RedirectOf(ts[i], ts[i + 1])], RedirTokens(ts, i + 2, k), RedirTokens(ts, k + 1, j));
    } else {
      assert !RedirAt(ts, i, j);
      SeparatedRedirs(ts, i + 1, k, j);
    }
  }

  /** A separator between two parts belongs to neither. */
  lemma SeparatedOrder(ts: seq<Token>, i: nat, k: nat, j: nat)
    requires i <= k < j <= |ts| && ts[k].kind != 'a' && !IsRedirOp(ts[k])
    ensures ArgTokens(ts, i, j) == ArgTokens(ts, i, k) + ArgTokens(ts, k + 1, j)
    ensures RedirTokens(ts, i, j) == RedirTokens(ts, i, k) + RedirTokens(ts, k + 1, j)
  {
    SeparatedArgs(ts, i, k, j);
    SeparatedRedirs(ts, i, k, j);
  }

  lemma {:induction false} ExecOrder(c: Cmd, ts: seq<Token>, i: nat, j: nat)
    requires i <= j <= |ts| && IsExec(c, ts, i, j)
    ensures InOrder(c, ts, i, j)
    decreases j - i, 0
  {
    if IsSimple(c, ts, i, j) {
      ReadsOrder(ts, i, j);
      WrapOrder(Exec(Reads(ts, i, j).args), Reads(ts, i, j).rs);
    } else {
      var inner, k: nat :| IsBlock(c, inner, ts, i, k, j);
      LineOrder(inner, ts, i + 1, k);
      BlockOrder(inner, ts, i, k, j);
    }
  }

  lemma BlockOrder(inner: Cmd, ts: seq<Token>, i: nat, k: nat, j: nat)
    requires i < k < j <= |ts| && ts[i].kind == '(' && ts[k].kind == ')' && InOrder(inner, ts, i + 1, k)
    requires Reads(ts, k + 1, j).Reading? && Reads(ts, k + 1, j).args == []
    ensures InOrder(Wrap(inner, Reads(ts, k + 1, j).rs), ts, i, j)
  {
    ReadsOrder(ts, k + 1, j);
    WrapOrder(inner, Reads(ts, k + 1, j).rs);
    SeparatedOrder(ts, i + 1, k, j);
    SeparatedOrder(ts, i, i, j);
  }

  lemma {:induction false} PipeOrder(c: Cmd, ts: seq<Token>, i: nat, j: nat)
    requires i <= j <= |ts| && IsPipe(c, ts, i, j)
    ensures InOrder(c, ts, i, j)
    decreases j - i, 1
  {
    if IsExec(c, ts, i, j) {
      ExecOrder(c, ts, i, j);
    } else {
      var k: nat :| IsPiped(c, ts, i, k, j);
      ExecOrder(c.left, ts, i, k);
      PipeOrder(c.right, ts, k + 1, j);
      SeparatedOrder(ts, i, k, j);
    }
  }

  lemma {:induction false} BackOrder(c: Cmd, ts: seq<Token>, i: nat, j: nat)
    requires i <= j <= |ts| && IsBack(c, ts, i, j)
    ensures InOrder(c, ts, i, j)
    decreases j - i, 2
  {
    if IsPipe(c, ts, i, j) {
      PipeOrder(c, ts, i, j);
    } else {
      BackOrder(c.cmd, ts, i, j - 1);
      SeparatedOrder(ts, i, j - 1, j);
    }
  }

  /** The arguments of a line's tree are the line's words outside redirections, and its redirections are the line's,
      both in the order of the line. */
  lemma {:induction false} LineOrder(c: Cmd, ts: seq<Token>, i: nat, j: nat)
    requires i <= j <= |ts| && IsLine(c, ts, i, j)
    ensures InOrder(c, ts, i, j)
    decreases j - i, 3
  {
    if IsBack(c, ts, i, j) {
      BackOrder(c, ts, i, j);
    } else {
      var k: nat :| IsListed(c, ts, i, k, j);
      BackOrder(c.left, ts, i, k);
      LineOrder(c.right, ts, k + 1, j);
      SeparatedOrder(ts, i, k, j);
    }
  }

  function Files(rs: seq<Redirect>): seq<Span> {
    if rs == [] then [] else [rs[0].file] + Files(rs[1..])
  }

  lemma {:induction false} FilesJoin(a: seq<Redirect>, b: seq<Redirect>)
    ensures Files(a + b) == Files(a) + Files(b)
  {
    if a != [] {
      FilesJoin(a[1..], b);
      assert (a + b)[1..] == a[1..] + b;
    } else {
      assert a + b == b;
    }
  }

  lemma JoinWords(w: seq<Span>, a: seq<Span>, f: seq<Span>, w': seq<Span>, a': seq<Span>, f': seq<Span>)
    requires multiset(w) == multiset(a) + multiset(f) && multiset(w') == multiset(a') + multiset(f')
    ensures multiset(w + w') == multiset(a + a') + multiset(f + f')
  {
  }

  lemma PairWords(l: Cmd, r: Cmd)
    requires multiset(Words(l)) == multiset(Arguments(l)) + multiset(Files(Redirections(l)))
    requires multiset(Words(r)) == multiset(Arguments(r)) + multiset(Files(Redirections(r)))
    ensures multiset(Words(l) + Words(r)) ==
            multiset(Arguments(l) + Arguments(r)) + multiset(Files(Redirections(l) + Redirections(r)))
  {
    FilesJoin(Redirections(l), Redirections(r));
    JoinWords(Words(l), Arguments(l), Files(Redirections(l)), Words(r), Arguments(r), Files(Redirections(r)));
  }

  lemma {:induction false} TreeWords(c: Cmd)
    ensures multiset(Words(c)) == multiset(Arguments(c)) + multiset(Files(Redirections(c)))
  {
    match c
    case Exec(_) =>
    case Redir(c', r) =>
      TreeWords(c');
      FilesJoin(Redirections(c'), [r]);
      assert Files([r]) == [r.file];
      JoinWords(Words(c'), Arguments(c'), Files(Redirections(c')), [r.file], [], [r.file]);
      assert Arguments(c') + [] == Arguments(c');
    case Pipe(l, r) =>
      TreeWords(l);
      TreeWords(r);
      PairWords(l, r);
    case List(l, r) =>
      TreeWords(l);
      TreeWords(r);
      PairWords(l, r);
    case Back(c') => TreeWords(c');
  }

  /** Tokens i to j hold the words of their arguments and of their redirections. */
  ghost predicate Divided(ts: seq<Token>, i: nat, j: nat)
    requires i <= j <= |ts|
  {
    multiset(WordTokens(ts, i, j)) == multiset(ArgTokens(ts, i, j)) + multiset(Files(RedirTokens(ts, i, j)))
  }

  lemma FilesCons(r: Redirect, rs: seq<Redirect>)
    ensures Files([r] + rs) == [r.file] + Files(rs)
  {
    assert ([r] + rs)[1..] == rs;
  }

  lemma WordsAfterOp(ts: seq<Token>, i: nat, j: nat)
    requires i < j <= |ts| && RedirAt(ts, i, j)
    ensures WordTokens(ts, i, j) == [Word(ts[i + 1])] + WordTokens(ts, i + 2, j)
  {
    assert [] + WordTokens(ts, i + 1, j) == WordTokens(ts, i + 1, j);
  }

  lemma Prepend<T>(x: seq<T>, w: seq<T>, a: seq<T>, f: seq<T>)
    requires multiset(w) == multiset(a) + multiset(f)
    ensures multiset(x + w) == multiset(a) + multiset(x + f)
  {
  }

  lemma RedirDivided(ts: seq<Token>, i: nat, j: nat)
    requires i < j <= |ts| && RedirAt(ts, i, j) && Divided(ts, i + 2, j)
    ensures Divided(ts, i, j)
  {
    FilesCons(RedirectOf(ts[i], ts[i + 1]), RedirTokens(ts, i + 2, j));
    WordsAfterOp(ts, i, j);
    Prepend([Word(ts[i + 1])], WordTokens(ts, i + 2, j), ArgTokens(ts, i + 2, j), Files(RedirTokens(ts, i + 2, j)));
  }

  lemma PlainDivided(ts: seq<Token>, i: nat, j: nat)
    requires i < j <= |ts| && !RedirAt(ts, i, j) && Divided(ts, i + 1, j)
    ensures Divided(ts, i, j)
  {
    var w := if ts[i].kind == 'a' then [Word(ts[i])] else [];
    assert multiset(w + ArgTokens(ts, i + 1, j)) == multiset(w) + multiset(ArgTokens(ts, i + 1, j));
    assert multiset(w + WordTokens(ts, i + 1, j)) == multiset(w) + multiset(WordTokens(ts, i + 1, j));
  }

  lemma {:induction false} TokenWords(ts: seq<Token>, i: nat, j: nat)
    requires i <= j <= |ts|
    ensures Divided(ts, i, j)
    decreases j - i
  {
    if i < j && RedirAt(ts, i, j) {
      TokenWords(ts, i + 2, j);
      RedirDivided(ts, i, j);
    } else if i < j {
      TokenWords(ts, i + 1, j);
      PlainDivided(ts, i, j);
    }
  }

  /** The words of a line's tree are exactly the words of the line, each as often as it stands there. */
  lemma LineWords(c: Cmd, ts: seq<Token>, i: nat, j: nat)
    requires i <= j <= |ts| && IsLine(c, ts, i, j)
    ensures multiset(Words(c)) == multiset(WordTokens(ts, i, j))
  {
    LineOrder(c, ts, i, j);
    TreeWords(c);
    TokenWords(ts, i, j);
  }
}
