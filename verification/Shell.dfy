/** The command-line parser of sh.c: tokens, grammar, the recursive-descent parser over the line,
    and the NULs it writes into the line behind each word. */
module Shell {

  const MAXARGS := 10
  const NUL := '\0'

  /* Tokens. */

  predicate IsSpace(c: char) {
    c == ' ' || c == '\t' || c == '\r' || c == '\n' || c == '\U{0b}'
  }

  predicate IsSymbol(c: char) {
    c == '<' || c == '|' || c == '>' || c == '&' || c == ';' || c == '(' || c == ')'
  }

  predicate IsWordChar(c: char) {
    !IsSpace(c) && !IsSymbol(c) && c != NUL
  }

  // A line holds no NUL; one stands behind it.
  predicate IsLine(line: string) {
    forall i :: 0 <= i < |line| ==> line[i] != NUL
  }

  function At(line: string, p: nat): char {
    if p < |line| then line[p] else NUL
  }

  datatype Span = Span(start: nat, end: nat)

  // '+' stands for ">>".
  datatype Token = Word(span: Span) | Sym(c: char)

  function SkipSpace(line: string, p: nat): (q: nat)
    requires p <= |line|
    ensures p <= q <= |line| && !IsSpace(At(line, q))
    ensures forall i :: p <= i < q ==> IsSpace(line[i])
    decreases |line| - p
  {
    if p < |line| && IsSpace(line[p]) then SkipSpace(line, p + 1) else p
  }

  function WordEnd(line: string, p: nat): (e: nat)
    requires p <= |line|
    ensures p <= e <= |line| && (e < |line| ==> IsSpace(line[e]) || IsSymbol(line[e]))
    ensures forall i :: p <= i < e ==> !IsSpace(line[i]) && !IsSymbol(line[i])
    decreases |line| - p
  {
    if p < |line| && !IsSpace(line[p]) && !IsSymbol(line[p]) then WordEnd(line, p + 1) else p
  }

  // Where the token that starts at q, not a space, ends.
  function TokenEnd(line: string, q: nat): (e: nat)
    requires q < |line| && !IsSpace(line[q])
    ensures q < e <= |line|
  {
    if !IsSymbol(line[q]) then WordEnd(line, q + 1)
    else if line[q] == '>' && At(line, q + 1) == '>' then q + 2
    else q + 1
  }

  function TokenAt(line: string, q: nat): Token
    requires q < |line| && !IsSpace(line[q])
  {
    if !IsSymbol(line[q]) then Word(Span(q, TokenEnd(line, q)))
    else if line[q] == '>' && At(line, q + 1) == '>' then Sym('+')
    else Sym(line[q])
  }

  function Tokens(line: string, p: nat): seq<Token>
    requires p <= |line|
    decreases |line| - p
  {
    var q := SkipSpace(line, p);
    if q == |line| then [] else [TokenAt(line, q)] + Tokens(line, TokenEnd(line, q))
  }

  lemma SkipTwice(line: string, p: nat)
    requires p <= |line|
    ensures SkipSpace(line, SkipSpace(line, p)) == SkipSpace(line, p) && Tokens(line, SkipSpace(line, p)) == Tokens(line, p)
  {
  }

  /* The tree. */

  datatype Cmd =
    | Exec(argv: seq<Span>)
    | Redir(cmd: Cmd, file: Span, create: bool, fd: nat)
    | Pipe(left: Cmd, right: Cmd)
    | List(left: Cmd, right: Cmd)
    | Back(cmd: Cmd)

  function Words(c: Cmd): seq<Span> {
    match c
    case Exec(argv) => argv
    case Redir(d, file, _, _) => Words(d) + [file]
    case Pipe(l, r) => Words(l) + Words(r)
    case List(l, r) => Words(l) + Words(r)
    case Back(d) => Words(d)
  }

  /* The grammar. */

  datatype Redirection = Redirection(file: Span, create: bool, fd: nat)

  predicate IsRedir(t: Token) {
    t == Sym('<') || t == Sym('>') || t == Sym('+')
  }

  function RedirOf(t: Token, file: Span): Redirection
    requires IsRedir(t)
  {
    if t == Sym('<') then Redirection(file, false, 0) else Redirection(file, true, 1)
  }

  function Wrap(c: Cmd, rs: seq<Redirection>): Cmd {
    if rs == [] then c
    else var r := rs[|rs|-1]; Redir(Wrap(c, rs[..|rs|-1]), r.file, r.create, r.fd)
  }

  // Words, and redirections with their files.
  predicate IsSimple(ts: seq<Token>) {
    ts == [] || (ts[0].Word? && IsSimple(ts[1..])) || (|ts| >= 2 && IsRedir(ts[0]) && ts[1].Word? && IsSimple(ts[2..]))
  }

  function Args(ts: seq<Token>): seq<Span> {
    if ts == [] then [] else if ts[0].Word? then [ts[0].span] + Args(ts[1..]) else if |ts| >= 2 then Args(ts[2..]) else []
  }

  function Reds(ts: seq<Token>): seq<Redirection> {
    if ts == [] then [] else if ts[0].Word? then Reds(ts[1..])
    else if |ts| >= 2 && IsRedir(ts[0]) && ts[1].Word? then [RedirOf(ts[0], ts[1].span)] + Reds(ts[2..]) else []
  }

  // simple ::= (word | redirection)*, with fewer than MAXARGS words
  predicate IsSimpleCmd(c: Cmd, ts: seq<Token>) {
    IsSimple(ts) && |Args(ts)| < MAXARGS && c == Wrap(Exec(Args(ts)), Reds(ts))
  }

  // block ::= '(' line ')' redirection*
  ghost predicate IsBlock(c: Cmd, ts: seq<Token>)
    decreases |ts|, 0
  {
    exists i: nat, d :: 1 <= i < |ts| && BlockAt(c, ts, i, d)
  }

  ghost predicate BlockAt(c: Cmd, ts: seq<Token>, i: nat, d: Cmd)
    requires 1 <= i < |ts|
    decreases |ts| - 1, 4
  {
    && ts[0] == Sym('(') && ts[i] == Sym(')') && IsCmdLine(d, ts[1..i])
    && IsSimple(ts[i+1..]) && Args(ts[i+1..]) == [] && c == Wrap(d, Reds(ts[i+1..]))
  }

  ghost predicate IsExec(c: Cmd, ts: seq<Token>)
    decreases |ts|, 1
  {
    IsSimpleCmd(c, ts) || IsBlock(c, ts)
  }

  // pipe ::= exec | exec '|' pipe
  ghost predicate IsPipe(c: Cmd, ts: seq<Token>)
    decreases |ts|, 2
  {
    IsExec(c, ts) || (c.Pipe? && exists i :: 0 <= i < |ts| && PipeAt(c, ts, i))
  }

  ghost predicate PipeAt(c: Cmd, ts: seq<Token>, i: nat)
    requires c.Pipe? && i < |ts|
    decreases |ts| - 1, 4
  {
    ts[i] == Sym('|') && IsExec(c.left, ts[..i]) && IsPipe(c.right, ts[i+1..])
  }

  // job ::= pipe | job '&'
  ghost predicate IsJob(c: Cmd, ts: seq<Token>)
    decreases |ts|, 3
  {
    IsPipe(c, ts) || (c.Back? && |ts| > 0 && ts[|ts|-1] == Sym('&') && IsJob(c.cmd, ts[..|ts|-1]))
  }

  // line ::= job | job ';' line
  ghost predicate IsCmdLine(c: Cmd, ts: seq<Token>)
    decreases |ts|, 4
  {
    IsJob(c, ts) || (c.List? && exists i :: 0 <= i < |ts| && ListAt(c, ts, i))
  }

  ghost predicate ListAt(c: Cmd, ts: seq<Token>, i: nat)
    requires c.List? && i < |ts|
    decreases |ts| - 1, 5
  {
    ts[i] == Sym(';') && IsJob(c.left, ts[..i]) && IsCmdLine(c.right, ts[i+1..])
  }

  /* The parser on tokens. */

  datatype Parse = Ok(cmd: Cmd, rest: seq<Token>) | Err

  predicate Ends(t: Token) {
    t == Sym('|') || t == Sym(')') || t == Sym('&') || t == Sym(';')
  }

  predicate Starts(ts: seq<Token>, c: char) {
    ts != [] && ts[0] == Sym(c)
  }

  function ParseSimple(args: seq<Span>, reds: seq<Redirection>, ts: seq<Token>): (r: Parse)
    ensures r.Ok? ==> |r.rest| <= |ts|
    decreases |ts|
  {
    if ts == [] || Ends(ts[0]) then Ok(Wrap(Exec(args), reds), ts)
    else if ts[0].Word? then
      if |args| + 1 >= MAXARGS then Err else ParseSimple(args + [ts[0].span], reds, ts[1..])
    else if IsRedir(ts[0]) && |ts| >= 2 && ts[1].Word? then ParseSimple(args, reds + [RedirOf(ts[0], ts[1].span)], ts[2..])
    else Err
  }

  function ParseReds(c: Cmd, ts: seq<Token>): (r: Parse)
    ensures r.Ok? ==> |r.rest| <= |ts|
    decreases |ts|
  {
    if ts == [] || !IsRedir(ts[0]) then Ok(c, ts)
    else if |ts| >= 2 && ts[1].Word? then ParseReds(Wrap(c, [RedirOf(ts[0], ts[1].span)]), ts[2..])
    else Err
  }

  function ParseExecTokens(ts: seq<Token>): (r: Parse)
    ensures r.Ok? ==> |r.rest| <= |ts|
    decreases |ts|, 0
  {
    if !Starts(ts, '(') then ParseSimple([], [], ts)
    else
      var b := ParseLineTokens(ts[1..]);
      if b.Ok? && Starts(b.rest, ')') then ParseReds(b.cmd, b.rest[1..]) else Err
  }

  function ParsePipeTokens(ts: seq<Token>): (r: Parse)
    ensures r.Ok? ==> |r.rest| <= |ts|
    decreases |ts|, 1
  {
    var e := ParseExecTokens(ts);
    if e.Err? || !Starts(e.rest, '|') then e
    else
      var p := ParsePipeTokens(e.rest[1..]);
      if p.Err? then p else Ok(Pipe(e.cmd, p.cmd), p.rest)
  }

  function ParseBacks(c: Cmd, ts: seq<Token>): (r: Parse)
    ensures r.Ok? && |r.rest| <= |ts| && !Starts(r.rest, '&')
    decreases |ts|
  {
    if Starts(ts, '&') then ParseBacks(Back(c), ts[1..]) else Ok(c, ts)
  }

  function ParseLineTokens(ts: seq<Token>): (r: Parse)
    ensures r.Ok? ==> |r.rest| <= |ts|
    decreases |ts|, 2
  {
    var p := ParsePipeTokens(ts);
    if p.Err? then p
    else
      var b := ParseBacks(p.cmd, p.rest);
      if !Starts(b.rest, ';') then b
      else
        var l := ParseLineTokens(b.rest[1..]);
        if l.Err? then l else Ok(List(b.cmd, l.cmd), l.rest)
  }

  /* The parser follows the grammar. */

  lemma {:induction false} WrapOnce(c: Cmd, r: Redirection, rs: seq<Redirection>)
    ensures Wrap(Wrap(c, [r]), rs) == Wrap(c, [r] + rs)
  {
    if rs != [] {
      WrapOnce(c, r, rs[..|rs|-1]);
      assert ([r] + rs)[..|rs|] == [r] + rs[..|rs|-1];
    } else {
      assert [r] + rs == [r];
    }
  }

  lemma WordFirst(t: Token, p: seq<Token>)
    requires t.Word?
    ensures IsSimple([t] + p) == IsSimple(p) && Args([t] + p) == [t.span] + Args(p) && Reds([t] + p) == Reds(p)
  {
    assert ([t] + p)[1..] == p;
  }

  lemma RedFirst(t: Token, f: Token, p: seq<Token>)
    requires IsRedir(t) && f.Word?
    ensures IsSimple([t, f] + p) == IsSimple(p) && Args([t, f] + p) == Args(p) && Reds([t, f] + p) == [RedirOf(t, f.span)] + Reds(p)
  {
    assert ([t, f] + p)[2..] == p;
  }

  lemma SimpleStep(args: seq<Span>, reds: seq<Redirection>, ts: seq<Token>)
    requires ts != [] && !Ends(ts[0])
    ensures var r := ParseSimple(args, reds, ts);
            if ts[0].Word? then r == (if |args| + 1 >= MAXARGS then Err else ParseSimple(args + [ts[0].span], reds, ts[1..]))
            else if IsRedir(ts[0]) && |ts| >= 2 && ts[1].Word? then r == ParseSimple(args, reds + [RedirOf(ts[0], ts[1].span)], ts[2..])
            else r == Err
  {
  }

  lemma SimpleNone(args: seq<Span>, reds: seq<Redirection>, rest: seq<Token>)
    requires rest == [] || Ends(rest[0])
    ensures IsSimple([]) && args + Args([]) == args && reds + Reds([]) == reds && [] + rest == rest
    ensures ParseSimple(args, reds, rest) == Ok(Wrap(Exec(args), reds), rest)
  {
  }

  // Simple tokens up to the first one that ends a command.
  lemma {:induction false} SimpleSound(args: seq<Span>, reds: seq<Redirection>, ts: seq<Token>) returns (p: seq<Token>)
    requires ParseSimple(args, reds, ts).Ok? && |args| < MAXARGS
    ensures var r := ParseSimple(args, reds, ts); ts == p + r.rest && IsSimple(p) && |args + Args(p)| < MAXARGS
    ensures var r := ParseSimple(args, reds, ts); r.cmd == Wrap(Exec(args + Args(p)), reds + Reds(p)) && (r.rest == [] || Ends(r.rest[0]))
    decreases |ts|
  {
    hide *;
    if ts == [] || Ends(ts[0]) {
      p := [];
      SimpleNone(args, reds, ts);
    } else {
      SimpleStep(args, reds, ts);
      if ts[0].Word? {
        var p1 := SimpleSound(args + [ts[0].span], reds, ts[1..]);
        p := [ts[0]] + p1;
        WordFirst(ts[0], p1);
        Assoc(args, [ts[0].span], Args(p1));
        SplitFirst(ts, 1, p1, ParseSimple(args, reds, ts).rest);
      } else {
        var red := RedirOf(ts[0], ts[1].span);
        var p1 := SimpleSound(args, reds + [red], ts[2..]);
        p := [ts[0], ts[1]] + p1;
        RedFirst(ts[0], ts[1], p1);
        Assoc(reds, [red], Reds(p1));
        assert ts[..2] == [ts[0], ts[1]];
        SplitFirst(ts, 2, p1, ParseSimple(args, reds, ts).rest);
      }
    }
  }

  lemma Assoc<T>(a: seq<T>, b: seq<T>, c: seq<T>)
    ensures a + b + c == a + (b + c)
  {
  }

  lemma SplitFirst(ts: seq<Token>, n: nat, p: seq<Token>, rest: seq<Token>)
    requires n <= |ts| && ts[n..] == p + rest
    ensures ts == ts[..n] + p + rest
  {
    assert ts == ts[..n] + ts[n..];
  }

  lemma SimpleFirst(p: seq<Token>)
    requires IsSimple(p) && p != []
    ensures !Ends(p[0]) && if p[0].Word? then p == [p[0]] + p[1..] else |p| >= 2 && IsRedir(p[0]) && p[1].Word? && p == [p[0], p[1]] + p[2..]
  {
  }

  lemma {:induction false} SimpleComplete(args: seq<Span>, reds: seq<Redirection>, p: seq<Token>, rest: seq<Token>)
    requires IsSimple(p) && |args + Args(p)| < MAXARGS && (rest == [] || Ends(rest[0]))
    ensures ParseSimple(args, reds, p + rest) == Ok(Wrap(Exec(args + Args(p)), reds + Reds(p)), rest)
    decreases |p|
  {
    hide *;
    var ts := p + rest;
    if p == [] {
      SimpleNone(args, reds, rest);
    } else {
      SimpleFirst(p);
      SimpleStep(args, reds, ts);
      if p[0].Word? {
        WordFirst(p[0], p[1..]);
        Assoc(args, [p[0].span], Args(p[1..]));
        assert ts[1..] == p[1..] + rest;
        SimpleComplete(args + [p[0].span], reds, p[1..], rest);
      } else {
        RedFirst(p[0], p[1], p[2..]);
        var red := RedirOf(p[0], p[1].span);
        Assoc(reds, [red], Reds(p[2..]));
        assert ts[2..] == p[2..] + rest;
        SimpleComplete(args, reds + [red], p[2..], rest);
      }
    }
  }

  lemma {:induction false} RedsSound(c: Cmd, ts: seq<Token>) returns (p: seq<Token>)
    requires ParseReds(c, ts).Ok?
    ensures var r := ParseReds(c, ts); ts == p + r.rest && IsSimple(p) && Args(p) == [] && r.cmd == Wrap(c, Reds(p)) && (r.rest == [] || !IsRedir(r.rest[0]))
    decreases |ts|
  {
    if ts == [] || !IsRedir(ts[0]) {
      p := [];
    } else {
      var red := RedirOf(ts[0], ts[1].span);
      hide Wrap, IsSimple, Args, Reds;
      var p1 := RedsSound(Wrap(c, [red]), ts[2..]);
      p := [ts[0], ts[1]] + p1;
      RedFirst(ts[0], ts[1], p1);
      WrapOnce(c, red, Reds(p1));
      assert ts[..2] == [ts[0], ts[1]];
      SplitFirst(ts, 2, p1, ParseReds(c, ts).rest);
    }
  }

  lemma {:induction false} RedsComplete(c: Cmd, p: seq<Token>, rest: seq<Token>)
    requires IsSimple(p) && Args(p) == [] && (rest == [] || !IsRedir(rest[0]))
    ensures ParseReds(c, p + rest) == Ok(Wrap(c, Reds(p)), rest)
    decreases |p|
  {
    if p == [] {
      assert p + rest == rest;
    } else {
      var red := RedirOf(p[0], p[1].span);
      RedsComplete(Wrap(c, [red]), p[2..], rest);
      assert (p + rest)[2..] == p[2..] + rest;
      WrapOnce(c, red, Reds(p[2..]));
    }
  }

  lemma SimpleIsExec(ts: seq<Token>) returns (p: seq<Token>)
    requires ParseExecTokens(ts).Ok? && !Starts(ts, '(')
    ensures var r := ParseExecTokens(ts); ts == p + r.rest && IsExec(r.cmd, p)
  {
    p := SimpleSound([], [], ts);
    hide Args, Reds, Wrap, IsSimple, ParseSimple;
    assert [] + Args(p) == Args(p) && [] + Reds(p) == Reds(p);
    assert IsSimpleCmd(ParseExecTokens(ts).cmd, p);
  }

  lemma {:induction false} ExecSound(ts: seq<Token>) returns (p: seq<Token>)
    requires ParseExecTokens(ts).Ok?
    ensures var r := ParseExecTokens(ts); ts == p + r.rest && IsExec(r.cmd, p)
    decreases |ts|, 0
  {
    if !Starts(ts, '(') {
      p := SimpleIsExec(ts);
    } else {
      var b := BlockParts(ts);
      hide *;
      var p1 := LineSound(ts[1..]);
      var p2 := RedsSound(b.cmd, b.rest[1..]);
      p := [Sym('(')] + p1 + [Sym(')')] + p2;
      BlockIsExec(ParseExecTokens(ts).cmd, b.cmd, p1, p2);
      Regroup([Sym('(')], p1, [Sym(')')], p2, ParseExecTokens(ts).rest);
    }
  }

  lemma BlockParts(ts: seq<Token>) returns (b: Parse)
    requires ParseExecTokens(ts).Ok? && Starts(ts, '(')
    ensures b == ParseLineTokens(ts[1..]) && b.Ok? && Starts(b.rest, ')') && ParseExecTokens(ts) == ParseReds(b.cmd, b.rest[1..])
    ensures ts == [Sym('(')] + ts[1..] && b.rest == [Sym(')')] + b.rest[1..]
  {
    b := ParseLineTokens(ts[1..]);
  }

  lemma Regroup(a: seq<Token>, b: seq<Token>, c: seq<Token>, d: seq<Token>, e: seq<Token>)
    ensures a + (b + (c + (d + e))) == a + b + c + d + e
  {
  }

  lemma BlockIsExec(c: Cmd, d: Cmd, p1: seq<Token>, p2: seq<Token>)
    requires IsCmdLine(d, p1) && IsSimple(p2) && Args(p2) == [] && c == Wrap(d, Reds(p2))
    ensures IsExec(c, [Sym('(')] + p1 + [Sym(')')] + p2)
  {
    hide IsCmdLine, IsSimple, Args, Reds, Wrap;
    var p, i := [Sym('(')] + p1 + [Sym(')')] + p2, |p1| + 1;
    assert p[1..i] == p1 && p[i+1..] == p2;
    assert BlockAt(c, p, i, d);
    assert IsBlock(c, p);
  }

  lemma {:induction false} PipeSound(ts: seq<Token>) returns (p: seq<Token>)
    requires ParsePipeTokens(ts).Ok?
    ensures var r := ParsePipeTokens(ts); ts == p + r.rest && IsPipe(r.cmd, p)
    decreases |ts|, 1
  {
    var e := ParseExecTokens(ts);
    p := ExecSound(ts);
    if Starts(e.rest, '|') {
      var q := ParsePipeTokens(e.rest[1..]);
      var p2 := PipeSound(e.rest[1..]);
      PipeIsPipe(Pipe(e.cmd, q.cmd), p, p2);
      hide *;
      assert e.rest == [Sym('|')] + e.rest[1..];
      assert ts == (p + [Sym('|')] + p2) + q.rest;
      p := p + [Sym('|')] + p2;
    }
  }

  lemma PipeIsPipe(c: Cmd, p1: seq<Token>, p2: seq<Token>)
    requires c.Pipe? && IsExec(c.left, p1) && IsPipe(c.right, p2)
    ensures IsPipe(c, p1 + [Sym('|')] + p2)
  {
    hide IsExec;
    var p, i := p1 + [Sym('|')] + p2, |p1|;
    assert p[..i] == p1 && p[i+1..] == p2;
    assert PipeAt(c, p, i);
  }

  lemma {:induction false} BacksSound(c: Cmd, p0: seq<Token>, ts: seq<Token>) returns (p: seq<Token>)
    requires IsJob(c, p0)
    ensures var r := ParseBacks(c, ts); p0 + ts == p + r.rest && IsJob(r.cmd, p)
    decreases |ts|
  {
    if Starts(ts, '&') {
      var p1 := p0 + [ts[0]];
      assert p1[..|p0|] == p0;
      hide IsPipe;
      assert IsJob(Back(c), p1);
      p := BacksSound(Back(c), p1, ts[1..]);
      assert p1 + ts[1..] == p0 + ts;
    } else {
      p := p0;
    }
  }

  lemma {:induction false} LineSound(ts: seq<Token>) returns (p: seq<Token>)
    requires ParseLineTokens(ts).Ok?
    ensures var r := ParseLineTokens(ts); ts == p + r.rest && IsCmdLine(r.cmd, p)
    decreases |ts|, 3
  {
    hide *;
    UnfoldLine(ts);
    var e := ParsePipeTokens(ts);
    var p0 := PipeSound(ts);
    PipeIsJob(e.cmd, p0);
    p := TailSound(e.cmd, p0, e.rest);
  }

  lemma {:induction false} TailSound(c: Cmd, p0: seq<Token>, ts: seq<Token>) returns (p: seq<Token>)
    requires IsJob(c, p0) && ParseTail(c, ts).Ok?
    ensures var r := ParseTail(c, ts); p0 + ts == p + r.rest && IsCmdLine(r.cmd, p)
    decreases |ts|, 2
  {
    var b := ParseBacks(c, ts);
    hide ParseBacks, ParseLineTokens, IsJob, IsCmdLine;
    p := BacksSound(c, p0, ts);
    JobIsLine(b.cmd, p);
    if Starts(b.rest, ';') {
      var l := ParseLineTokens(b.rest[1..]);
      var p2 := LineSound(b.rest[1..]);
      ListIsLine(List(b.cmd, l.cmd), p, p2);
      hide *;
      assert b.rest == [Sym(';')] + b.rest[1..];
      assert p0 + ts == (p + [Sym(';')] + p2) + l.rest;
      p := p + [Sym(';')] + p2;
    }
  }

  lemma JobIsLine(c: Cmd, p: seq<Token>)
    requires IsJob(c, p)
    ensures IsCmdLine(c, p)
  {
  }

  lemma PipeIsJob(c: Cmd, p: seq<Token>)
    requires IsPipe(c, p)
    ensures IsJob(c, p)
  {
  }

  lemma ListIsLine(c: Cmd, p1: seq<Token>, p2: seq<Token>)
    requires c.List? && IsJob(c.left, p1) && IsCmdLine(c.right, p2)
    ensures IsCmdLine(c, p1 + [Sym(';')] + p2)
  {
    hide IsJob;
    var p, i := p1 + [Sym(';')] + p2, |p1|;
    assert p[..i] == p1 && p[i+1..] == p2;
    assert ListAt(c, p, i);
  }

  /* The parser takes all that the grammar gives. */

  lemma NotABlock(p: seq<Token>, rest: seq<Token>)
    requires IsSimple(p) && (rest == [] || Ends(rest[0]))
    ensures !Starts(p + rest, '(')
  {
    if p == [] {
      assert p + rest == rest;
    }
  }

  lemma SimpleExecComplete(c: Cmd, p: seq<Token>, rest: seq<Token>)
    requires IsSimpleCmd(c, p) && (rest == [] || Ends(rest[0]))
    ensures ParseExecTokens(p + rest) == Ok(c, rest)
  {
    NotABlock(p, rest);
    SimpleComplete([], [], p, rest);
    hide ParseSimple, Args, Reds, Wrap, IsSimple;
    assert [] + Args(p) == Args(p) && [] + Reds(p) == Reds(p);
  }

  // A block whose inside and redirections parse does parse.
  lemma BlockParses(c: Cmd, d: Cmd, inner: seq<Token>, after: seq<Token>, rest: seq<Token>)
    requires ParseLineTokens(inner + ([Sym(')')] + after)) == Ok(d, [Sym(')')] + after) && ParseReds(d, after) == Ok(c, rest)
    ensures ParseExecTokens([Sym('(')] + (inner + ([Sym(')')] + after))) == Ok(c, rest)
  {
    hide ParseLineTokens, ParseReds;
    assert ([Sym('(')] + (inner + ([Sym(')')] + after)))[1..] == inner + ([Sym(')')] + after);
    assert ([Sym(')')] + after)[1..] == after;
  }

  lemma {:induction false} ExecComplete(c: Cmd, p: seq<Token>, rest: seq<Token>)
    requires IsExec(c, p) && (rest == [] || Ends(rest[0]))
    ensures ParseExecTokens(p + rest) == Ok(c, rest)
    decreases |p|, 0
  {
    hide ParseExecTokens, ParseLineTokens, ParseReds, IsCmdLine, Wrap, Reds, Args, IsSimple, IsSimpleCmd;
    if IsSimpleCmd(c, p) {
      SimpleExecComplete(c, p, rest);
    } else {
      assert IsBlock(c, p) && (rest == [] || !IsRedir(rest[0]));
      var i: nat, d :| 1 <= i < |p| && BlockAt(c, p, i, d);
      var p1, p2 := p[1..i], p[i+1..];
      LineComplete(d, p1, [Sym(')')] + (p2 + rest));
      RedsComplete(d, p2, rest);
      BlockParses(c, d, p1, p2 + rest, rest);
      assert p == [Sym('(')] + p1 + [Sym(')')] + p2;
      Regroup([Sym('(')], p1, [Sym(')')], p2, rest);
    }
  }

  lemma {:induction false} PipeComplete(c: Cmd, p: seq<Token>, rest: seq<Token>)
    requires IsPipe(c, p) && (rest == [] || Ends(rest[0])) && !Starts(rest, '|')
    ensures ParsePipeTokens(p + rest) == Ok(c, rest)
    decreases |p|, 1
  {
    hide IsExec, ParseExecTokens;
    if IsExec(c, p) {
      ExecComplete(c, p, rest);
    } else {
      var i :| 0 <= i < |p| && PipeAt(c, p, i);
      var p1, p2 := p[..i], p[i+1..];
      assert p + rest == p1 + ([Sym('|')] + (p2 + rest));
      assert ([Sym('|')] + (p2 + rest))[1..] == p2 + rest;
      ExecComplete(c.left, p1, [Sym('|')] + (p2 + rest));
      PipeComplete(c.right, p2, rest);
    }
  }

  function ParseJob(ts: seq<Token>): Parse {
    var p := ParsePipeTokens(ts);
    if p.Err? then p else ParseBacks(p.cmd, p.rest)
  }

  lemma {:induction false} JobComplete(c: Cmd, p: seq<Token>, rest: seq<Token>)
    requires IsJob(c, p) && (rest == [] || Ends(rest[0])) && !Starts(rest, '|')
    ensures ParseJob(p + rest) == ParseBacks(c, rest)
    decreases |p|, 2
  {
    hide IsPipe, ParsePipeTokens;
    if IsPipe(c, p) {
      PipeComplete(c, p, rest);
    } else {
      var p1, rest1 := p[..|p|-1], [Sym('&')] + rest;
      JobComplete(c.cmd, p1, rest1);
      assert p + rest == p1 + rest1 && rest1[1..] == rest;
    }
  }

  lemma {:induction false} LineComplete(c: Cmd, p: seq<Token>, rest: seq<Token>)
    requires IsCmdLine(c, p) && (rest == [] || Starts(rest, ')'))
    ensures ParseLineTokens(p + rest) == Ok(c, rest)
    decreases |p|, 3
  {
    hide IsJob, ParsePipeTokens;
    if IsJob(c, p) {
      JobComplete(c, p, rest);
    } else {
      var i :| 0 <= i < |p| && ListAt(c, p, i);
      var p1, p2 := p[..i], p[i+1..];
      assert p + rest == p1 + ([Sym(';')] + (p2 + rest));
      assert ([Sym(';')] + (p2 + rest))[1..] == p2 + rest;
      JobComplete(c.left, p1, [Sym(';')] + (p2 + rest));
      LineComplete(c.right, p2, rest);
    }
  }

  function Accepts(ts: seq<Token>, c: Cmd): bool {
    ParseLineTokens(ts) == Ok(c, [])
  }

  /** The parser accepts a line with tree c exactly when the grammar derives c from its tokens. */
  lemma ParsesTheGrammar(ts: seq<Token>, c: Cmd)
    ensures Accepts(ts, c) <==> IsCmdLine(c, ts)
  {
    hide IsCmdLine, ParseLineTokens;
    if IsCmdLine(c, ts) {
      LineComplete(c, ts, []);
      assert ts + [] == ts;
    }
    if Accepts(ts, c) {
      var p := LineSound(ts);
      assert ts == p;
    }
  }

  /* Words of the tree and of the line. */

  function WordsIn(ts: seq<Token>): seq<Span> {
    if ts == [] then [] else WordOf(ts[0]) + WordsIn(ts[1..])
  }

  function WordOf(t: Token): seq<Span> {
    if t.Word? then [t.span] else []
  }

  lemma WordsInFirst(ts: seq<Token>)
    requires ts != []
    ensures WordsIn(ts) == WordOf(ts[0]) + WordsIn(ts[1..])
  {
  }

  lemma {:induction false} WordsInAppend(a: seq<Token>, b: seq<Token>)
    ensures WordsIn(a + b) == WordsIn(a) + WordsIn(b)
  {
    if a == [] {
      assert a + b == b;
    } else {
      WordsInFirst(a);
      WordsInFirst(a + b);
      hide *;
      WordsInAppend(a[1..], b);
      assert (a + b)[1..] == a[1..] + b;
      Assoc(WordOf(a[0]), WordsIn(a[1..]), WordsIn(b));
    }
  }

  lemma WordsAround(ts: seq<Token>, i: nat)
    requires i < |ts| && ts[i].Sym?
    ensures WordsIn(ts) == WordsIn(ts[..i]) + WordsIn(ts[i+1..])
  {
    assert ts == ts[..i] + ts[i..] && ts[i..][1..] == ts[i+1..];
    WordsInAppend(ts[..i], ts[i..]);
  }

  function Files(rs: seq<Redirection>): seq<Span> {
    if rs == [] then [] else Files(rs[..|rs|-1]) + [rs[|rs|-1].file]
  }

  lemma {:induction false} FilesPrepend(r: Redirection, rs: seq<Redirection>)
    ensures Files([r] + rs) == [r.file] + Files(rs)
  {
    if rs != [] {
      FilesPrepend(r, rs[..|rs|-1]);
      assert ([r] + rs)[..|rs|] == [r] + rs[..|rs|-1];
    }
  }

  lemma {:induction false} WrapWords(c: Cmd, rs: seq<Redirection>)
    ensures Words(Wrap(c, rs)) == Words(c) + Files(rs)
  {
    if rs != [] {
      WrapWords(c, rs[..|rs|-1]);
    }
  }

  lemma {:induction false} SimpleWords(ts: seq<Token>)
    requires IsSimple(ts)
    ensures multiset(Args(ts)) + multiset(Files(Reds(ts))) == multiset(WordsIn(ts))
    decreases |ts|
  {
    if ts != [] {
      if ts[0].Word? {
        SimpleWords(ts[1..]);
      } else {
        SimpleWords(ts[2..]);
        FilesPrepend(RedirOf(ts[0], ts[1].span), Reds(ts[2..]));
        assert ts[1..][1..] == ts[2..];
        assert WordsIn(ts) == [ts[1].span] + WordsIn(ts[2..]);
      }
    }
  }

  lemma {:induction false} ExecWords(c: Cmd, ts: seq<Token>)
    requires IsExec(c, ts)
    ensures multiset(Words(c)) == multiset(WordsIn(ts))
    decreases |ts|, 0
  {
    hide IsCmdLine, Wrap, Reds, Args, IsSimple, WordsIn;
    if IsSimpleCmd(c, ts) {
      WrapWords(Exec(Args(ts)), Reds(ts));
      SimpleWords(ts);
    } else {
      assert IsBlock(c, ts);
      var i: nat, d :| 1 <= i < |ts| && BlockAt(c, ts, i, d);
      WordsAround(ts, i);
      WordsAround(ts[..i], 0);
      assert ts[..i][..0] == [] && ts[..i][1..] == ts[1..i];
      NoWords();
      assert WordsIn(ts) == WordsIn(ts[1..i]) + WordsIn(ts[i+1..]);
      LineWords(d, ts[1..i]);
      SimpleWords(ts[i+1..]);
      WrapWords(d, Reds(ts[i+1..]));
    }
  }

  lemma NoWords()
    ensures WordsIn([]) == []
  {
  }

  lemma {:induction false} PipeWords(c: Cmd, ts: seq<Token>)
    requires IsPipe(c, ts)
    ensures multiset(Words(c)) == multiset(WordsIn(ts))
    decreases |ts|, 1
  {
    hide IsExec, WordsIn;
    if IsExec(c, ts) {
      ExecWords(c, ts);
    } else {
      var i: nat :| 0 <= i < |ts| && PipeAt(c, ts, i);
      WordsAround(ts, i);
      ExecWords(c.left, ts[..i]);
      PipeWords(c.right, ts[i+1..]);
    }
  }

  lemma {:induction false} JobWords(c: Cmd, ts: seq<Token>)
    requires IsJob(c, ts)
    ensures multiset(Words(c)) == multiset(WordsIn(ts))
    decreases |ts|, 2
  {
    hide IsPipe, WordsIn;
    if IsPipe(c, ts) {
      PipeWords(c, ts);
    } else {
      JobWords(c.cmd, ts[..|ts|-1]);
      WordsAround(ts, |ts| - 1);
      assert ts[|ts|-1+1..] == [];
      NoWords();
    }
  }

  lemma {:induction false} LineWords(c: Cmd, ts: seq<Token>)
    requires IsCmdLine(c, ts)
    ensures multiset(Words(c)) == multiset(WordsIn(ts))
    decreases |ts|, 3
  {
    hide IsJob, WordsIn;
    if IsJob(c, ts) {
      JobWords(c, ts);
    } else {
      var i: nat :| 0 <= i < |ts| && ListAt(c, ts, i);
      WordsAround(ts, i);
      JobWords(c.left, ts[..i]);
      LineWords(c.right, ts[i+1..]);
    }
  }

  // A maximal run of word characters.
  predicate IsRun(line: string, s: Span) {
    && s.start < s.end <= |line| && (forall i :: s.start <= i < s.end ==> IsWordChar(line[i]))
    && (s.start == 0 || !IsWordChar(line[s.start-1])) && !IsWordChar(At(line, s.end))
  }

  // p is not inside a word.
  predicate Boundary(line: string, p: nat)
    requires p <= |line|
  {
    p == 0 || !IsWordChar(line[p-1]) || !IsWordChar(At(line, p))
  }

  lemma TokenEndIsBoundary(line: string, q: nat)
    requires IsLine(line) && q < |line| && !IsSpace(line[q])
    ensures Boundary(line, TokenEnd(line, q))
  {
  }

  lemma WordTokenIsRun(line: string, p: nat)
    requires IsLine(line) && p <= |line| && Boundary(line, p) && SkipSpace(line, p) < |line|
    ensures var t := TokenAt(line, SkipSpace(line, p)); t.Word? ==> IsRun(line, t.span)
  {
    var q := SkipSpace(line, p);
    assert q > p ==> IsSpace(line[q-1]);
  }

  lemma RunsDisjoint(line: string, s: Span, t: Span)
    requires IsRun(line, s) && IsRun(line, t) && t.start <= s.start < t.end
    ensures s == t
  {
  }

  // The runs from p on: the first token's, if it is a word, and those behind it.
  lemma FirstRun(line: string, p: nat, s: Span)
    requires IsLine(line) && p <= |line| && Boundary(line, p)
    ensures var q := SkipSpace(line, p); q == |line| ==> !(IsRun(line, s) && s.start >= p)
    ensures var q := SkipSpace(line, p); q < |line| ==>
              (IsRun(line, s) && s.start >= p <==> TokenAt(line, q) == Word(s) || (IsRun(line, s) && s.start >= TokenEnd(line, q)))
    ensures var q := SkipSpace(line, p); q < |line| && TokenAt(line, q) == Word(s) ==> s.start < TokenEnd(line, q)
  {
    var q := SkipSpace(line, p);
    assert IsRun(line, s) ==> IsWordChar(line[s.start]);
    if q < |line| {
      WordTokenIsRun(line, p);
      var t := TokenAt(line, q);
      if t.Word? && IsRun(line, s) && q <= s.start < TokenEnd(line, q) {
        RunsDisjoint(line, s, t.span);
      }
    }
  }

  lemma {:induction false} RunsFrom(line: string, p: nat, s: Span)
    requires IsLine(line) && p <= |line| && Boundary(line, p)
    ensures multiset(WordsIn(Tokens(line, p)))[s] == if IsRun(line, s) && s.start >= p then 1 else 0
    decreases |line| - p
  {
    FirstRun(line, p, s);
    var q := SkipSpace(line, p);
    if q < |line| {
      var t, e := TokenAt(line, q), TokenEnd(line, q);
      TokenEndIsBoundary(line, q);
      RunsFrom(line, e, s);
      hide IsRun, TokenAt, TokenEnd;
      assert Tokens(line, p)[1..] == Tokens(line, e);
      assert multiset(WordsIn(Tokens(line, p))) == (if t.Word? then multiset{t.span} else multiset{}) + multiset(WordsIn(Tokens(line, e)));
    }
  }

  /** Each word of an accepted line stands in the tree exactly once, and nothing else does. */
  lemma EachWordOnce(line: string, c: Cmd, s: Span)
    requires IsLine(line) && Accepts(Tokens(line, 0), c)
    ensures multiset(Words(c))[s] == if IsRun(line, s) then 1 else 0
  {
    hide *;
    ParsesTheGrammar(Tokens(line, 0), c);
    LineWords(c, Tokens(line, 0));
    StartIsBoundary(line);
    RunsFrom(line, 0, s);
  }

  lemma StartIsBoundary(line: string)
    ensures Boundary(line, 0)
  {
  }

  /* The parser on the line. */

  method Skip(line: string, p: nat) returns (q: nat)
    requires p <= |line|
    ensures q == SkipSpace(line, p)
  {
    q := p;
    while q < |line| && IsSpace(line[q])
      invariant p <= q <= |line| && SkipSpace(line, q) == SkipSpace(line, p)
    {
      q := q + 1;
    }
  }

  // The kind of the next token: NUL, 'a' for a word, '+' for ">>", or the symbol itself.
  function KindOf(t: Token): char {
    if t.Word? then 'a' else t.c
  }

  method GetToken(line: string, p: nat) returns (kind: char, s: Span, p': nat)
    requires IsLine(line) && p <= |line|
    ensures p <= p' <= |line|
    ensures kind == NUL ==> Tokens(line, p) == [] && p' == |line|
    ensures kind != NUL ==> p < p' && Tokens(line, p) != [] && kind == KindOf(Tokens(line, p)[0]) && Tokens(line, p') == Tokens(line, p)[1..]
    ensures kind == 'a' <==> Tokens(line, p) != [] && Tokens(line, p)[0].Word?
    ensures kind == 'a' ==> Tokens(line, p)[0] == Word(s)
  {
    var q := Skip(line, p);
    if q == |line| {
      return NUL, Span(q, q), q;
    }
    var e := q + 1;
    kind := line[q];
    if !IsSymbol(kind) {
      kind := 'a';
      while e < |line| && !IsSpace(line[e]) && !IsSymbol(line[e])
        invariant q < e <= |line| && WordEnd(line, e) == WordEnd(line, q + 1)
      {
        e := e + 1;
      }
    } else if kind == '>' && At(line, e) == '>' {
      kind := '+';
      e := e + 1;
    }
    assert e == TokenEnd(line, q) && kind == KindOf(TokenAt(line, q));
    s := Span(q, e);
    p' := Skip(line, e);
    SkipTwice(line, e);
    assert Tokens(line, p)[1..] == Tokens(line, e);
  }

  // Is the next token one that starts with a character of the set?
  method Peek(line: string, p: nat, chars: set<char>) returns (yes: bool, p': nat)
    requires p <= |line|
    ensures p <= p' <= |line| && Tokens(line, p') == Tokens(line, p) && p' == SkipSpace(line, p)
    ensures yes <==> Tokens(line, p) != [] && p' < |line| && line[p'] in chars
  {
    p' := Skip(line, p);
    SkipTwice(line, p);
    yes := p' < |line| && line[p'] in chars;
  }

  // For symbols, the first character tells the token; '>' begins '>' and '+'.
  lemma PeekSymbol(line: string, q: nat, c: char)
    requires q <= |line| && q == SkipSpace(line, q) && IsSymbol(c)
    ensures q < |line| && line[q] == c <==> Tokens(line, q) != [] && (Tokens(line, q)[0] == Sym(c) || (c == '>' && Tokens(line, q)[0] == Sym('+')))
  {
  }

  method PeekFor(line: string, p: nat, c: char) returns (yes: bool, p': nat)
    requires p <= |line| && IsSymbol(c) && c != '>'
    ensures p <= p' <= |line| && Tokens(line, p') == Tokens(line, p) && p' == SkipSpace(line, p)
    ensures yes <==> Starts(Tokens(line, p), c)
  {
    yes, p' := Peek(line, p, {c});
    SkipTwice(line, p);
    PeekSymbol(line, p', c);
  }

  datatype Result = Parsed(cmd: Cmd) | Panic

  // What a parsing method made of the tokens from p: the tree and the place behind it.
  ghost predicate Follows(line: string, p: nat, spec: Parse, r: Result, p': nat) {
    && p <= p' <= |line|
    && match r
       case Parsed(cmd) => spec == Ok(cmd, Tokens(line, p'))
       case Panic => spec == Err
  }

  method PeekRedir(line: string, p: nat) returns (yes: bool, p': nat)
    requires p <= |line|
    ensures p <= p' <= |line| && Tokens(line, p') == Tokens(line, p)
    ensures yes <==> Tokens(line, p) != [] && IsRedir(Tokens(line, p)[0])
  {
    yes, p' := Peek(line, p, {'<', '>'});
    SkipTwice(line, p);
    NextIsRedir(line, p');
  }

  method ParseRedirs(cmd: Cmd, line: string, p: nat) returns (r: Result, p': nat)
    requires IsLine(line) && p <= |line|
    ensures Follows(line, p, ParseReds(cmd, Tokens(line, p)), r, p')
  {
    hide Tokens, ParseReds, SkipSpace;
    var c := cmd;
    var more;
    more, p' := PeekRedir(line, p);
    while more
      invariant p <= p' <= |line| && ParseReds(c, Tokens(line, p')) == ParseReds(cmd, Tokens(line, p))
      invariant more <==> Tokens(line, p') != [] && IsRedir(Tokens(line, p')[0])
      decreases |line| - p'
    {
      ghost var ts := Tokens(line, p');
      var kind, s, p1 := GetToken(line, p');
      var k, file, p2 := GetToken(line, p1);
      RedsCases(c, ts);
      if k != 'a' {
        return Panic, p2;
      }
      assert ts[2..] == Tokens(line, p2);
      c := if kind == '<' then Redir(c, file, false, 0) else Redir(c, file, true, 1);
      RedirectionStep(c, ts);
      more, p' := PeekRedir(line, p2);
    }
    RedsCases(c, Tokens(line, p'));
    r := Parsed(c);
  }

  lemma RedsCases(c: Cmd, ts: seq<Token>)
    ensures ts == [] || !IsRedir(ts[0]) ==> ParseReds(c, ts) == Ok(c, ts)
    ensures ts != [] && IsRedir(ts[0]) && (|ts| == 1 || !ts[1].Word?) ==> ParseReds(c, ts) == Err
  {
  }

  lemma NextIsRedir(line: string, q: nat)
    requires q <= |line| && q == SkipSpace(line, q)
    ensures q < |line| && line[q] in {'<', '>'} <==> Tokens(line, q) != [] && IsRedir(Tokens(line, q)[0])
  {
    PeekSymbol(line, q, '<');
    PeekSymbol(line, q, '>');
  }

  lemma RedirectionStep(c: Cmd, ts: seq<Token>)
    requires |ts| >= 2 && IsRedir(ts[0]) && ts[1].Word? && c.Redir? && c.file == ts[1].span
    requires ts[0] == Sym('<') ==> !c.create && c.fd == 0
    requires ts[0] != Sym('<') ==> c.create && c.fd == 1
    ensures ParseReds(c.cmd, ts) == ParseReds(c, ts[2..])
  {
    assert Wrap(c.cmd, [RedirOf(ts[0], ts[1].span)]) == c;
  }

  // The argument goes to the exec command inside the redirections.
  function AddArg(c: Cmd, s: Span): Cmd {
    match c
    case Exec(argv) => Exec(argv + [s])
    case Redir(d, file, create, fd) => Redir(AddArg(d, s), file, create, fd)
    case _ => c
  }

  lemma {:induction false} AddArgInside(argv: seq<Span>, rs: seq<Redirection>, s: Span)
    ensures AddArg(Wrap(Exec(argv), rs), s) == Wrap(Exec(argv + [s]), rs)
  {
    if rs != [] {
      AddArgInside(argv, rs[..|rs|-1], s);
    }
  }

  // Redirections first, then the rest of the simple command.
  lemma {:induction false} RedsThenSimple(args: seq<Span>, reds: seq<Redirection>, ts: seq<Token>) returns (reds': seq<Redirection>)
    ensures var r := ParseReds(Wrap(Exec(args), reds), ts);
            if r.Err? then ParseSimple(args, reds, ts) == Err
            else r.cmd == Wrap(Exec(args), reds') && ParseSimple(args, reds, ts) == ParseSimple(args, reds', r.rest) && (r.rest == [] || !IsRedir(r.rest[0]))
    decreases |ts|
  {
    if ts == [] || !IsRedir(ts[0]) {
      reds' := reds;
    } else {
      RedsCases(Wrap(Exec(args), reds), ts);
      SimpleStep(args, reds, ts);
      if |ts| >= 2 && ts[1].Word? {
        var red := RedirOf(ts[0], ts[1].span);
        WrapLast(Exec(args), reds, red);
        reds' := RedsThenSimple(args, reds + [red], ts[2..]);
      } else {
        reds' := reds;
      }
    }
  }

  lemma WrapLast(c: Cmd, rs: seq<Redirection>, r: Redirection)
    ensures Wrap(Wrap(c, rs), [r]) == Wrap(c, rs + [r])
  {
    assert (rs + [r])[..|rs|] == rs;
  }

  method PeekEnd(line: string, p: nat) returns (yes: bool, p': nat)
    requires p <= |line|
    ensures p <= p' <= |line| && Tokens(line, p') == Tokens(line, p)
    ensures yes <==> Tokens(line, p) != [] && Ends(Tokens(line, p)[0])
  {
    yes, p' := Peek(line, p, {'|', ')', '&', ';'});
    SkipTwice(line, p);
    PeekSymbol(line, p', '|');
    PeekSymbol(line, p', ')');
    PeekSymbol(line, p', '&');
    PeekSymbol(line, p', ';');
  }

  method ParseSimpleExec(line: string, p: nat) returns (r: Result, p': nat)
    requires IsLine(line) && p <= |line|
    ensures Follows(line, p, ParseSimple([], [], Tokens(line, p)), r, p')
  {
    hide Tokens, ParseReds, SkipSpace, ParseSimple, Wrap, AddArg;
    ghost var args: seq<Span>, reds: seq<Redirection> := [], [];
    EmptyWrap();
    reds := RedsThenSimple([], [], Tokens(line, p));
    r, p' := ParseRedirs(Exec([]), line, p);
    if r.Panic? {
      return;
    }
    var argc := 0;
    while true
      invariant p <= p' <= |line| && argc == |args| < MAXARGS && r == Parsed(Wrap(Exec(args), reds))
      invariant ParseSimple(args, reds, Tokens(line, p')) == ParseSimple([], [], Tokens(line, p))
      invariant Tokens(line, p') == [] || !IsRedir(Tokens(line, p')[0])
      decreases |line| - p'
    {
      ghost var ts := Tokens(line, p');
      var done, p1 := PeekEnd(line, p');
      if done {
        SimpleStop(args, reds, ts);
        p' := p1;
        return;
      }
      var kind, s, p2 := GetToken(line, p1);
      if kind == NUL {
        SimpleStop(args, reds, ts);
        p' := p2;
        LineEndIsEmpty(line);
        return;
      }
      SimpleStep(args, reds, ts);
      if kind != 'a' {
        return Panic, p2;
      }
      argc := argc + 1;
      if argc >= MAXARGS {
        return Panic, p2;
      }
      AddArgInside(args, reds, s);
      args := args + [s];
      var c := AddArg(r.cmd, s);
      ghost var reds' := RedsThenSimple(args, reds, Tokens(line, p2));
      r, p' := ParseRedirs(c, line, p2);
      if r.Panic? {
        return;
      }
      reds := reds';
    }
  }

  lemma EmptyWrap()
    ensures Wrap(Exec([]), []) == Exec([])
  {
  }

  lemma LineEndIsEmpty(line: string)
    ensures Tokens(line, |line|) == []
  {
  }

  lemma SimpleStop(args: seq<Span>, reds: seq<Redirection>, ts: seq<Token>)
    requires ts == [] || Ends(ts[0])
    ensures ParseSimple(args, reds, ts) == Ok(Wrap(Exec(args), reds), ts)
  {
  }

  lemma UnfoldExec(ts: seq<Token>)
    ensures !Starts(ts, '(') ==> ParseExecTokens(ts) == ParseSimple([], [], ts)
    ensures Starts(ts, '(') ==>
              var b := ParseLineTokens(ts[1..]);
              ParseExecTokens(ts) == if b.Ok? && Starts(b.rest, ')') then ParseReds(b.cmd, b.rest[1..]) else Err
  {
  }

  method ParseExec(line: string, p: nat) returns (r: Result, p': nat)
    requires IsLine(line) && p <= |line|
    ensures Follows(line, p, ParseExecTokens(Tokens(line, p)), r, p')
    decreases |line| - p, 1
  {
    hide Tokens, ParseReds, SkipSpace, ParseSimple, ParseExecTokens, ParseLineTokens;
    var block, p1 := PeekFor(line, p, '(');
    if block {
      r, p' := ParseBlock(line, p1);
    } else {
      UnfoldExec(Tokens(line, p));
      r, p' := ParseSimpleExec(line, p1);
    }
  }

  method ParseBlock(line: string, p: nat) returns (r: Result, p': nat)
    requires IsLine(line) && p <= |line|
    ensures Starts(Tokens(line, p), '(') ==> Follows(line, p, ParseExecTokens(Tokens(line, p)), r, p')
    ensures !Starts(Tokens(line, p), '(') ==> r == Panic
    decreases |line| - p, 0
  {
    hide Tokens, ParseReds, SkipSpace, ParseExecTokens, ParseLineTokens;
    var ok, p1 := PeekFor(line, p, '(');
    if !ok {
      return Panic, p1;
    }
    UnfoldExec(Tokens(line, p));
    var kind, s, p2 := GetToken(line, p1);
    r, p' := ParseLine(line, p2);
    if r.Panic? {
      return;
    }
    ok, p' := PeekFor(line, p', ')');
    if !ok {
      r := Panic;
      return;
    }
    kind, s, p' := GetToken(line, p');
    r, p' := ParseRedirs(r.cmd, line, p');
  }

  lemma UnfoldPipe(ts: seq<Token>)
    ensures var e := ParseExecTokens(ts);
            ParsePipeTokens(ts) == if e.Err? || !Starts(e.rest, '|') then e
                                   else var p := ParsePipeTokens(e.rest[1..]); if p.Err? then p else Ok(Pipe(e.cmd, p.cmd), p.rest)
  {
  }

  method ParsePipe(line: string, p: nat) returns (r: Result, p': nat)
    requires IsLine(line) && p <= |line|
    ensures Follows(line, p, ParsePipeTokens(Tokens(line, p)), r, p')
    decreases |line| - p, 2
  {
    hide Tokens, SkipSpace, ParseExecTokens, ParsePipeTokens;
    UnfoldPipe(Tokens(line, p));
    r, p' := ParseExec(line, p);
    if r.Panic? {
      return;
    }
    var more;
    more, p' := PeekFor(line, p', '|');
    if more {
      var kind, s, p1 := GetToken(line, p');
      var left := r.cmd;
      r, p' := ParsePipe(line, p1);
      if r.Parsed? {
        r := Parsed(Pipe(left, r.cmd));
      }
    }
  }

  lemma UnfoldLine(ts: seq<Token>)
    ensures var p := ParsePipeTokens(ts);
            ParseLineTokens(ts) == if p.Err? then p else ParseTail(p.cmd, p.rest)
  {
  }

  function ParseTail(c: Cmd, ts: seq<Token>): Parse {
    var b := ParseBacks(c, ts);
    if !Starts(b.rest, ';') then b
    else
      var l := ParseLineTokens(b.rest[1..]);
      if l.Err? then l else Ok(List(b.cmd, l.cmd), l.rest)
  }

  lemma UnfoldTail(c: Cmd, ts: seq<Token>)
    ensures Starts(ts, '&') ==> ParseTail(c, ts) == ParseTail(Back(c), ts[1..])
    ensures !Starts(ts, '&') && !Starts(ts, ';') ==> ParseTail(c, ts) == Ok(c, ts)
    ensures Starts(ts, ';') ==> var l := ParseLineTokens(ts[1..]); ParseTail(c, ts) == if l.Err? then l else Ok(List(c, l.cmd), l.rest)
  {
    hide ParseLineTokens;
  }

  method ParseLine(line: string, p: nat) returns (r: Result, p': nat)
    requires IsLine(line) && p <= |line|
    ensures Follows(line, p, ParseLineTokens(Tokens(line, p)), r, p')
    decreases |line| - p, 3
  {
    hide Tokens, SkipSpace, ParsePipeTokens, ParseLineTokens, ParseTail;
    UnfoldLine(Tokens(line, p));
    r, p' := ParsePipe(line, p);
    if r.Panic? {
      return;
    }
    var c := r.cmd;
    var more;
    more, p' := PeekFor(line, p', '&');
    while more
      invariant p <= p' <= |line| && (more <==> Starts(Tokens(line, p'), '&'))
      invariant ParseTail(c, Tokens(line, p')) == ParseLineTokens(Tokens(line, p))
      decreases |line| - p'
    {
      UnfoldTail(c, Tokens(line, p'));
      var kind, s, p1 := GetToken(line, p');
      c := Back(c);
      more, p' := PeekFor(line, p1, '&');
    }
    UnfoldTail(c, Tokens(line, p'));
    more, p' := PeekFor(line, p', ';');
    if more {
      var kind, s, p1 := GetToken(line, p');
      r, p' := ParseLine(line, p1);
      if r.Parsed? {
        r := Parsed(List(c, r.cmd));
      }
    } else {
      r := Parsed(c);
    }
  }

  /* Terminating the words in place. */

  function CString(buf: seq<char>, p: nat): string
    decreases |buf| - p
  {
    if p < |buf| && buf[p] != NUL then [buf[p]] + CString(buf, p + 1) else []
  }

  lemma {:induction false} CStringIs(buf: seq<char>, p: nat, e: nat)
    requires p <= e < |buf| && buf[e] == NUL && forall i :: p <= i < e ==> buf[i] != NUL
    ensures CString(buf, p) == buf[p..e]
    decreases e - p
  {
    if p < e {
      CStringIs(buf, p + 1, e);
      assert buf[p..e] == [buf[p]] + buf[p+1..e];
    }
  }

  ghost predicate EndsAt(ws: seq<Span>, i: nat) {
    exists k :: 0 <= k < |ws| && ws[k].end == i
  }

  lemma EndsAtAppend(a: seq<Span>, b: seq<Span>, i: nat)
    ensures EndsAt(a + b, i) <==> EndsAt(a, i) || EndsAt(b, i)
  {
    if EndsAt(a, i) {
      var k :| 0 <= k < |a| && a[k].end == i;
      assert (a + b)[k].end == i;
    }
    if EndsAt(b, i) {
      var k :| 0 <= k < |b| && b[k].end == i;
      assert (a + b)[|a| + k].end == i;
    }
  }

  ghost predicate Fits(ws: seq<Span>, n: nat) {
    forall k :: 0 <= k < |ws| ==> ws[k].end < n
  }

  lemma FitsParts(a: seq<Span>, b: seq<Span>, n: nat)
    requires Fits(a + b, n)
    ensures Fits(a, n) && Fits(b, n)
  {
    assert forall k :: 0 <= k < |a| ==> (a + b)[k] == a[k];
    assert forall k :: 0 <= k < |b| ==> (a + b)[|a| + k] == b[k];
  }

  method NulTerminate(cmd: Cmd, buf: array<char>)
    requires Fits(Words(cmd), buf.Length)
    modifies buf
    ensures forall i :: 0 <= i < buf.Length ==> buf[i] == if EndsAt(Words(cmd), i) then NUL else old(buf[i])
    decreases cmd
  {
    match cmd
    case Exec(argv) =>
      var k := 0;
      while k < |argv|
        invariant k <= |argv| && forall i :: 0 <= i < buf.Length ==> buf[i] == if EndsAt(argv[..k], i) then NUL else old(buf[i])
      {
        buf[argv[k].end] := NUL;
        forall i | 0 <= i < buf.Length
          ensures EndsAt(argv[..k+1], i) <==> EndsAt(argv[..k], i) || argv[k].end == i
        {
          assert argv[..k+1] == argv[..k] + [argv[k]];
          EndsAtAppend(argv[..k], [argv[k]], i);
          assert [argv[k]][0] == argv[k];
        }
        k := k + 1;
      }
      assert argv[..k] == argv;
    case Redir(d, file, _, _) =>
      FitsParts(Words(d), [file], buf.Length);
      assert [file][0].end < buf.Length;
      NulTerminate(d, buf);
      buf[file.end] := NUL;
      forall i | 0 <= i < buf.Length
        ensures EndsAt(Words(cmd), i) <==> EndsAt(Words(d), i) || file.end == i
      {
        EndsAtAppend(Words(d), [file], i);
        assert [file][0] == file;
      }
    case Pipe(l, r) =>
      NulTerminateBoth(cmd, l, r, buf);
    case List(l, r) =>
      NulTerminateBoth(cmd, l, r, buf);
    case Back(d) =>
      NulTerminate(d, buf);
  }

  method NulTerminateBoth(ghost cmd: Cmd, l: Cmd, r: Cmd, buf: array<char>)
    requires Words(cmd) == Words(l) + Words(r) && l < cmd && r < cmd && Fits(Words(cmd), buf.Length)
    modifies buf
    ensures forall i :: 0 <= i < buf.Length ==> buf[i] == if EndsAt(Words(cmd), i) then NUL else old(buf[i])
    decreases cmd, 0
  {
    FitsParts(Words(l), Words(r), buf.Length);
    NulTerminate(l, buf);
    NulTerminate(r, buf);
    forall i | 0 <= i < buf.Length
      ensures EndsAt(Words(cmd), i) <==> EndsAt(Words(l), i) || EndsAt(Words(r), i)
    {
      EndsAtAppend(Words(l), Words(r), i);
    }
  }

  lemma WordIsRun(line: string, c: Cmd, k: nat)
    requires IsLine(line) && Accepts(Tokens(line, 0), c) && k < |Words(c)|
    ensures IsRun(line, Words(c)[k])
  {
    hide IsRun, Tokens, Accepts;
    EachWordOnce(line, c, Words(c)[k]);
    assert Words(c)[k] in multiset(Words(c));
  }

  // The words end where no word has a character, so cutting there leaves every word whole.
  lemma CutAtEnds(line: string, c: Cmd, buf: seq<char>, buf': seq<char>, k: nat)
    requires IsLine(line) && Accepts(Tokens(line, 0), c) && k < |Words(c)| && |line| < |buf| == |buf'| && buf[..|line|] == line
    requires forall i :: 0 <= i < |buf| ==> buf'[i] == if EndsAt(Words(c), i) then NUL else buf[i]
    ensures var s := Words(c)[k]; s.start < s.end <= |line| && CString(buf', s.start) == line[s.start..s.end]
  {
    hide Tokens, Accepts;
    var s := Words(c)[k];
    WordIsRun(line, c, k);
    assert EndsAt(Words(c), s.end);
    forall i | s.start <= i < s.end
      ensures buf'[i] == line[i] && line[i] != NUL
    {
      assert IsWordChar(line[i]) && line[i] == buf[..|line|][i];
      if EndsAt(Words(c), i) {
        var l :| 0 <= l < |Words(c)| && Words(c)[l].end == i;
        WordIsRun(line, c, l);
        assert false;
      }
    }
    CStringIs(buf', s.start, s.end);
    assert buf'[s.start..s.end] == line[s.start..s.end];
  }

  method StrLen(buf: array<char>) returns (n: nat)
    requires exists i :: 0 <= i < buf.Length && buf[i] == NUL
    ensures n < buf.Length && buf[n] == NUL && IsLine(buf[..n]) && CString(buf[..], 0) == buf[..n]
  {
    n := 0;
    while buf[n] != NUL
      invariant n < buf.Length && forall i :: 0 <= i < n ==> buf[i] != NUL
      decreases buf.Length - n
    {
      n := n + 1;
    }
    CStringIs(buf[..], 0, n);
    assert buf[..][0..n] == buf[..n];
  }

  /** parsecmd on a line in a buffer: it returns the tree the grammar derives from the line's tokens,
      and stops when there is none. Afterwards each argument and file of the tree, read as a C string
      in the buffer, is the word of the line it stands for. */
  method ParseCmd(buf: array<char>) returns (r: Result)
    requires exists i :: 0 <= i < buf.Length && buf[i] == NUL
    modifies buf
    ensures var line := CString(old(buf[..]), 0); r.Parsed? ==> IsCmdLine(r.cmd, Tokens(line, 0))
    ensures var line := CString(old(buf[..]), 0); r.Panic? ==> (forall c :: !IsCmdLine(c, Tokens(line, 0))) && buf[..] == old(buf[..])
    ensures var line := CString(old(buf[..]), 0); r.Parsed? ==> forall s :: multiset(Words(r.cmd))[s] == if IsRun(line, s) then 1 else 0
    ensures r.Parsed? ==> forall k :: 0 <= k < |Words(r.cmd)| ==> IsTerminated(CString(old(buf[..]), 0), buf[..], Words(r.cmd)[k])
  {
    hide Tokens, IsCmdLine, ParseLineTokens, IsRun, Words, EndsAt, Fits, SkipSpace, CString;
    var n := StrLen(buf);
    var line := buf[..n];
    ghost var before := buf[..];
    var p;
    r, p := ParseLine(line, 0);
    if r.Parsed? {
      var q := Skip(line, p);
      AllRead(line, p);
      if q != |line| {
        r := Panic;
      }
    }
    forall c
      ensures IsCmdLine(c, Tokens(line, 0)) <==> r == Parsed(c)
    {
      ParsesTheGrammar(Tokens(line, 0), c);
    }
    if r.Parsed? {
      assert Accepts(Tokens(line, 0), r.cmd);
      WordsFit(line, r.cmd, buf.Length);
      NulTerminate(r.cmd, buf);
      forall k | 0 <= k < |Words(r.cmd)|
        ensures IsTerminated(line, buf[..], Words(r.cmd)[k])
      {
        CutAtEnds(line, r.cmd, before, buf[..], k);
      }
      forall s
        ensures multiset(Words(r.cmd))[s] == if IsRun(line, s) then 1 else 0
      {
        EachWordOnce(line, r.cmd, s);
      }
    }
  }

  ghost predicate IsTerminated(line: string, buf: seq<char>, s: Span) {
    s.start < s.end <= |line| && CString(buf, s.start) == line[s.start..s.end]
  }

  lemma AllRead(line: string, p: nat)
    requires p <= |line|
    ensures Tokens(line, p) == [] <==> SkipSpace(line, p) == |line|
  {
  }

  lemma WordsFit(line: string, c: Cmd, n: nat)
    requires IsLine(line) && Accepts(Tokens(line, 0), c) && |line| < n
    ensures Fits(Words(c), n)
  {
    forall k | 0 <= k < |Words(c)|
      ensures Words(c)[k].end < n
    {
      WordIsRun(line, c, k);
    }
  }
}
