/** The grammar of the shell's command language over tokens:

      line     ::= pipeline { "&" } [ ";" line ]
      pipeline ::= command [ "|" pipeline ]
      command  ::= "(" line ")" redirs  |  redirs { word redirs }
      redirs   ::= { ( "<" | ">" | ">>" ) word }

    The parser of sh.c is brought to tokens and proved to accept exactly what the grammar generates and
    to build exactly the commands that the grammar gives it. */
module ShellGrammar {
  import opened ShellSyntax

  // ----- tokens -----

  /** ">>" is the symbol '+'. */
  datatype Tok = Word(w: Span) | Sym(code: char)

  function Tokens(s: string, i: nat): seq<Tok>
    requires i <= |s|
    decreases |s| - i
  {
    var t := GetToken(s, i);
    if t.code == '\0' then []
    else [if t.code == 'a' then Word(Span(t.q, t.eq)) else Sym(t.code)] + Tokens(s, t.next)
  }

  /** What gettoken would return for the first of the tokens. */
  function Code(ts: seq<Tok>): char {
    if ts == [] then '\0' else if ts[0].Word? then 'a' else ts[0].code
  }

  /** The parser looks at characters and then at tokens; both are the first token of what is left. */
  lemma {:induction false} Head(s: string, i: nat)
    requires '\0' !in s && i <= |s|
    ensures var j, ts := Skip(s, i), Tokens(s, i);
            && Skip(s, j) == j && Tokens(s, j) == ts
            && GetToken(s, j).code == Code(ts) && (Code(ts) == '\0' <==> ts == []) && (ts == [] <==> j == |s|)
            && (ts != [] ==> Tokens(s, GetToken(s, j).next) == ts[1..])
            && (Code(ts) == 'a' ==> ts[0] == Word(Span(GetToken(s, j).q, GetToken(s, j).eq)))
            && (Code(ts) != 'a' && ts != [] ==> ts[0] == Sym(Code(ts)))
  {
  }

  lemma {:induction false} HeadChar(s: string, i: nat)
    requires '\0' !in s && i <= |s|
    ensures var c, code := At(s, Skip(s, i)), Code(Tokens(s, i));
            && (c == '(' <==> code == '(') && (c == ')' <==> code == ')') && (c == '|' <==> code == '|')
            && (c == '&' <==> code == '&') && (c == ';' <==> code == ';')
            && (c == '<' <==> code == '<') && (c == '>' <==> code == '>' || code == '+')
  {
  }

  // ----- the grammar -----

  datatype Redirection = Redirection(op: char, file: Span)

  datatype Arg = Arg(word: Span, redirs: seq<Redirection>)

  datatype Command =
    | Group(line: Line, redirs: seq<Redirection>)
    | Simple(first: seq<Redirection>, args: seq<Arg>)

  datatype Pipeline = Single(command: Command) | Bar(command: Command, rest: Pipeline)

  datatype Line = Last(pipeline: Pipeline, amps: nat) | Semi(pipeline: Pipeline, amps: nat, rest: Line)

  predicate IsRedir(code: char) {
    code == '<' || code == '>' || code == '+'
  }

  predicate RedirsOk(rs: seq<Redirection>) {
    forall k | 0 <= k < |rs| :: IsRedir(rs[k].op)
  }

  predicate ArgsOk(args: seq<Arg>) {
    forall k | 0 <= k < |args| :: RedirsOk(args[k].redirs)
  }

  /** The grammar's trees: redirections are redirections, and a simple command has at most 9 words. */
  predicate CommandOk(c: Command) {
    match c
    case Group(line, rs) => LineOk(line) && RedirsOk(rs)
    case Simple(first, args) => RedirsOk(first) && |args| < MAXARGS && ArgsOk(args)
  }

  predicate PipelineOk(p: Pipeline) {
    CommandOk(p.command) && (p.Bar? ==> PipelineOk(p.rest))
  }

  predicate LineOk(l: Line) {
    PipelineOk(l.pipeline) && (l.Semi? ==> LineOk(l.rest))
  }

  // ----- the tokens a tree stands for -----

  function RedirToks(rs: seq<Redirection>): seq<Tok> {
    if rs == [] then [] else [Sym(rs[0].op), Word(rs[0].file)] + RedirToks(rs[1..])
  }

  function ArgToks(args: seq<Arg>): seq<Tok> {
    if args == [] then [] else [Word(args[0].word)] + RedirToks(args[0].redirs) + ArgToks(args[1..])
  }

  function CommandToks(c: Command): seq<Tok> {
    match c
    case Group(line, rs) => [Sym('(')] + LineToks(line) + [Sym(')')] + RedirToks(rs)
    case Simple(first, args) => RedirToks(first) + ArgToks(args)
  }

  function PipelineToks(p: Pipeline): seq<Tok> {
    CommandToks(p.command) + if p.Bar? then [Sym('|')] + PipelineToks(p.rest) else []
  }

  function AmpToks(n: nat): seq<Tok> {
    if n == 0 then [] else [Sym('&')] + AmpToks(n - 1)
  }

  function LineToks(l: Line): seq<Tok> {
    PipelineToks(l.pipeline) + AmpToks(l.amps) + if l.Semi? then [Sym(';')] + LineToks(l.rest) else []
  }

  // ----- the command a tree stands for -----

  /** Redirections from left to right, each around the ones before it. */
  function Redirected(c: Tree, rs: seq<Redirection>): Tree
    decreases |rs|
  {
    if rs == [] then c else Redirected(Redir(c, rs[0].file, rs[0].op != '<'), rs[1..])
  }

  function ArgWords(args: seq<Arg>): seq<Span> {
    if args == [] then [] else [args[0].word] + ArgWords(args[1..])
  }

  function ArgRedirs(args: seq<Arg>): seq<Redirection> {
    if args == [] then [] else args[0].redirs + ArgRedirs(args[1..])
  }

  /** All the redirections of a simple command, wherever they stand, around its words. */
  function CommandMeans(c: Command): Tree {
    match c
    case Group(line, rs) => Redirected(LineMeans(line), rs)
    case Simple(first, args) => Redirected(Exec(ArgWords(args)), first + ArgRedirs(args))
  }

  /** Pipes group to the right. */
  function PipelineMeans(p: Pipeline): Tree {
    if p.Bar? then Pipe(CommandMeans(p.command), PipelineMeans(p.rest)) else CommandMeans(p.command)
  }

  function Backed(c: Tree, n: nat): Tree
    decreases n
  {
    if n == 0 then c else Backed(Back(c), n - 1)
  }

  /** '&' takes the whole pipeline before it, and lists group to the right. */
  function LineMeans(l: Line): Tree {
    var first := Backed(PipelineMeans(l.pipeline), l.amps);
    if l.Semi? then List(first, LineMeans(l.rest)) else first
  }

  // ----- the parser on tokens -----

  datatype Parsed = Fails | Parsed(cmd: Tree, rest: seq<Tok>)

  function TRedirs(ts: seq<Tok>, cmd: Tree): (r: Parsed)
    ensures r.Parsed? ==> |r.rest| <= |ts|
    decreases |ts|
  {
    if !IsRedir(Code(ts)) then Parsed(cmd, ts)
    else if Code(ts[1..]) != 'a' || !ts[1].Word? then Fails
    else TRedirs(ts[2..], Redir(cmd, ts[1].w, ts[0] != Sym('<')))
  }

  function TArgs(ts: seq<Tok>, ret: Tree, argv: seq<Span>): (r: Parsed)
    ensures r.Parsed? ==> |r.rest| <= |ts|
    decreases |ts|
  {
    if ts == [] || EndsArgs(Code(ts)) then Parsed(SetArgs(ret, argv), ts)
    else if !ts[0].Word? || |argv| + 1 >= MAXARGS then Fails
    else
      var r := TRedirs(ts[1..], ret);
      if r.Fails? then Fails else TArgs(r.rest, r.cmd, argv + [ts[0].w])
  }

  function TCommand(ts: seq<Tok>): (r: Parsed)
    ensures r.Parsed? ==> |r.rest| <= |ts|
    decreases |ts|, 0
  {
    if Code(ts) == '(' then
      var r := TLine(ts[1..]);
      if r.Fails? || Code(r.rest) != ')' then Fails else TRedirs(r.rest[1..], r.cmd)
    else
      var r := TRedirs(ts, Exec([]));
      if r.Fails? then Fails else TArgs(r.rest, r.cmd, [])
  }

  function TPipeline(ts: seq<Tok>): (r: Parsed)
    ensures r.Parsed? ==> |r.rest| <= |ts|
    decreases |ts|, 1
  {
    var l := TCommand(ts);
    if l.Fails? || Code(l.rest) != '|' then l
    else
      var r := TPipeline(l.rest[1..]);
      if r.Fails? then Fails else Parsed(Pipe(l.cmd, r.cmd), r.rest)
  }

  function TBacks(ts: seq<Tok>, cmd: Tree): (r: Parsed)
    ensures r.Parsed? && |r.rest| <= |ts|
    decreases |ts|
  {
    if Code(ts) == '&' then TBacks(ts[1..], Back(cmd)) else Parsed(cmd, ts)
  }

  function TLine(ts: seq<Tok>): (r: Parsed)
    ensures r.Parsed? ==> |r.rest| <= |ts|
    decreases |ts|, 2
  {
    var first := TPipeline(ts);
    if first.Fails? then Fails
    else
      var l := TBacks(first.rest, first.cmd);
      if Code(l.rest) != ';' then l
      else
        var r := TLine(l.rest[1..]);
        if r.Fails? then Fails else Parsed(List(l.cmd, r.cmd), r.rest)
  }

  /** The result of the text's parser, with the tokens still to come in place of the position. */
  predicate Agree(s: string, r: Result, t: Parsed) {
    if r.Panic? then t == Fails else r.next <= |s| && t == Parsed(r.cmd, Tokens(s, r.next))
  }

  lemma {:induction false} RedirsAgree(s: string, i: nat, cmd: Tree)
    requires '\0' !in s && i <= |s|
    ensures Agree(s, Redirs(s, i, cmd), TRedirs(Tokens(s, i), cmd))
    decreases |s| - i
  {
    var j, ts := Skip(s, i), Tokens(s, i);
    Head(s, i);
    HeadChar(s, i);
    if IsRedir(Code(ts)) {
      var tok := GetToken(s, j);
      var file := GetToken(s, tok.next);
      FileToken(s, tok.next);
      if file.code == 'a' {
        assert ts[2..] == ts[1..][1..];
        RedirsAgree(s, file.next, Redir(cmd, Span(file.q, file.eq), tok.code != '<'));
      }
    }
  }

  /** gettoken without a peek before it. */
  lemma {:induction false} FileToken(s: string, i: nat)
    requires '\0' !in s && i <= |s|
    ensures var t, ts := GetToken(s, i), Tokens(s, i);
            && t.code == Code(ts)
            && (t.code == 'a' ==> i < t.next && ts[0] == Word(Span(t.q, t.eq)) && Tokens(s, t.next) == ts[1..])
  {
  }

  lemma {:induction false} ArgsAgree(s: string, i: nat, ret: Tree, argv: seq<Span>)
    requires '\0' !in s && i <= |s|
    ensures Agree(s, Args(s, i, ret, argv), TArgs(Tokens(s, i), ret, argv))
    decreases |s| - i
  {
    var j, ts := Skip(s, i), Tokens(s, i);
    Head(s, i);
    HeadChar(s, i);
    var tok := GetToken(s, j);
    if ts == [] {
      Head(s, tok.next);
    } else if !EndsArgs(Code(ts)) && Code(ts) == 'a' && |argv| + 1 < MAXARGS {
      RedirsAgree(s, tok.next, ret);
      var r := Redirs(s, tok.next, ret);
      if r.Ok? { ArgsAgree(s, r.next, r.cmd, argv + [Span(tok.q, tok.eq)]); }
    }
  }

  lemma {:induction false} CommandAgree(s: string, i: nat)
    requires '\0' !in s && i <= |s|
    ensures Agree(s, ParseExec(s, i), TCommand(Tokens(s, i)))
    decreases |s| - i, 1
  {
    var j := Skip(s, i);
    Head(s, i);
    HeadChar(s, i);
    if At(s, j) == '(' {
      GroupAgree(s, j);
    } else {
      SimpleAgree(s, j);
    }
  }

  lemma {:induction false} SimpleAgree(s: string, i: nat)
    requires '\0' !in s && i <= |s| && Skip(s, i) == i && At(s, i) != '(' && Code(Tokens(s, i)) != '('
    ensures Agree(s, ParseExec(s, i), TCommand(Tokens(s, i)))
  {
    RedirsAgree(s, i, Exec([]));
    var r := Redirs(s, i, Exec([]));
    if r.Ok? { ArgsAgree(s, r.next, r.cmd, []); }
  }

  lemma {:induction false} GroupAgree(s: string, i: nat)
    requires '\0' !in s && i <= |s| && Skip(s, i) == i && At(s, i) == '('
    ensures Agree(s, ParseBlock(s, i), TCommand(Tokens(s, i)))
    decreases |s| - i, 0
  {
    Head(s, i);
    HeadChar(s, i);
    var inner := GetToken(s, i).next;
    LineAgree(s, inner);
    var r := ParseLine(s, inner);
    if r.Ok? { CloseAgree(s, r.next, r.cmd); }
  }

  /** From the closing parenthesis on. */
  lemma {:induction false} CloseAgree(s: string, k: nat, cmd: Tree)
    requires '\0' !in s && k <= |s|
    ensures var close, ts := Skip(s, k), Tokens(s, k);
            && (At(s, close) == ')' <==> Code(ts) == ')')
            && (Code(ts) == ')' ==> Agree(s, Redirs(s, GetToken(s, close).next, cmd), TRedirs(ts[1..], cmd)))
  {
    Head(s, k);
    HeadChar(s, k);
    if Code(Tokens(s, k)) == ')' { RedirsAgree(s, GetToken(s, Skip(s, k)).next, cmd); }
  }

  lemma {:induction false} PipelineAgree(s: string, i: nat)
    requires '\0' !in s && i <= |s|
    ensures Agree(s, ParsePipe(s, i), TPipeline(Tokens(s, i)))
    decreases |s| - i, 2
  {
    CommandAgree(s, i);
    var l := ParseExec(s, i);
    if l.Ok? {
      Head(s, l.next);
      HeadChar(s, l.next);
      if At(s, Skip(s, l.next)) == '|' { PipelineAgree(s, GetToken(s, Skip(s, l.next)).next); }
    }
  }

  lemma {:induction false} BacksAgree(s: string, i: nat, cmd: Tree)
    requires '\0' !in s && i <= |s|
    ensures Agree(s, Backs(s, i, cmd), TBacks(Tokens(s, i), cmd))
    decreases |s| - i
  {
    Head(s, i);
    HeadChar(s, i);
    if At(s, Skip(s, i)) == '&' { BacksAgree(s, GetToken(s, Skip(s, i)).next, Back(cmd)); }
  }

  lemma {:induction false} LineAgree(s: string, i: nat)
    requires '\0' !in s && i <= |s|
    ensures Agree(s, ParseLine(s, i), TLine(Tokens(s, i)))
    decreases |s| - i, 3
  {
    PipelineAgree(s, i);
    var first := ParsePipe(s, i);
    if first.Ok? {
      BacksAgree(s, first.next, first.cmd);
      var l := Backs(s, first.next, first.cmd);
      Head(s, l.next);
      HeadChar(s, l.next);
      if At(s, Skip(s, l.next)) == ';' { LineAgree(s, GetToken(s, Skip(s, l.next)).next); }
    }
  }

  // ----- what the parser builds is in the grammar -----

  lemma {:induction false} RedirectedTwice(c: Tree, a: seq<Redirection>, b: seq<Redirection>)
    ensures Redirected(Redirected(c, a), b) == Redirected(c, a + b)
    decreases |a|
  {
    if a == [] {
      assert a + b == b;
    } else {
      RedirectedTwice(Redir(c, a[0].file, a[0].op != '<'), a[1..], b);
      assert (a + b)[1..] == a[1..] + b;
    }
  }

  lemma {:induction false} SetArgsRedirected(c: Tree, rs: seq<Redirection>, argv: seq<Span>)
    ensures SetArgs(Redirected(c, rs), argv) == Redirected(SetArgs(c, argv), rs)
    decreases |rs|
  {
    if rs != [] { SetArgsRedirected(Redir(c, rs[0].file, rs[0].op != '<'), rs[1..], argv); }
  }

  lemma {:induction false} RedirsBuilt(ts: seq<Tok>, cmd: Tree) returns (rs: seq<Redirection>)
    requires TRedirs(ts, cmd).Parsed?
    ensures var r := TRedirs(ts, cmd);
            RedirsOk(rs) && ts == RedirToks(rs) + r.rest && r.cmd == Redirected(cmd, rs)
    decreases |ts|
  {
    rs := [];
    if IsRedir(Code(ts)) {
      var one := Redirection(ts[0].code, ts[1].w);
      var more := RedirsBuilt(ts[2..], Redir(cmd, one.file, one.op != '<'));
      rs := [one] + more;
      assert rs[1..] == more;
      assert ts == [Sym(one.op), Word(one.file)] + ts[2..];
    }
  }

  /** Tokens put together again from their parts. */
  lemma {:induction false} Glued<T>(ts: seq<T>, a: seq<T>, mid: seq<T>, x: T, b: seq<T>, rest: seq<T>)
    requires ts == a + mid && mid != [] && mid[0] == x && mid[1..] == b + rest
    ensures ts == a + ([x] + b) + rest
  {
  }

  lemma {:induction false} GluedArg<T>(ts: seq<T>, x: T, a: seq<T>, mid: seq<T>, b: seq<T>, rest: seq<T>)
    requires ts != [] && ts[0] == x && ts[1..] == a + mid && mid == b + rest
    ensures ts == [x] + a + b + rest
  {
  }

  lemma {:induction false} ArgsMore(a: Arg, more: seq<Arg>, ret: Tree, argv: seq<Span>)
    ensures var args := [a] + more;
            && ArgToks(args) == [Word(a.word)] + RedirToks(a.redirs) + ArgToks(more)
            && (RedirsOk(a.redirs) && ArgsOk(more) ==> ArgsOk(args))
            && SetArgs(Redirected(Redirected(ret, a.redirs), ArgRedirs(more)), argv + [a.word] + ArgWords(more))
            == SetArgs(Redirected(ret, ArgRedirs(args)), argv + ArgWords(args))
  {
    var args := [a] + more;
    assert args[0] == a && args[1..] == more;
    RedirectedTwice(ret, a.redirs, ArgRedirs(more));
    assert argv + [a.word] + ArgWords(more) == argv + ArgWords(args);
  }

  lemma {:induction false} ArgsBuilt(ts: seq<Tok>, ret: Tree, argv: seq<Span>) returns (args: seq<Arg>)
    requires TArgs(ts, ret, argv).Parsed? && |argv| < MAXARGS
    ensures var r := TArgs(ts, ret, argv);
            && ArgsOk(args) && |argv| + |args| < MAXARGS && ts == ArgToks(args) + r.rest
            && r.cmd == SetArgs(Redirected(ret, ArgRedirs(args)), argv + ArgWords(args))
    decreases |ts|
  {
    args := [];
    assert argv + [] == argv;
    if ts != [] && !EndsArgs(Code(ts)) {
      var r := TRedirs(ts[1..], ret);
      var rs := RedirsBuilt(ts[1..], ret);
      var more := ArgsBuilt(r.rest, r.cmd, argv + [ts[0].w]);
      var a := Arg(ts[0].w, rs);
      args := [a] + more;
      ArgsMore(a, more, ret, argv);
      GluedArg(ts, Word(a.word), RedirToks(rs), r.rest, ArgToks(more), TArgs(ts, ret, argv).rest);
    }
  }

  /** The exec node is filled in under the redirections. */
  lemma {:induction false} SimpleMeans(first: seq<Redirection>, args: seq<Arg>)
    ensures SetArgs(Redirected(Redirected(Exec([]), first), ArgRedirs(args)), [] + ArgWords(args))
         == CommandMeans(Simple(first, args))
  {
    assert [] + ArgWords(args) == ArgWords(args);
    RedirectedTwice(Exec([]), first, ArgRedirs(args));
    SetArgsRedirected(Exec([]), first + ArgRedirs(args), ArgWords(args));
  }

  lemma {:induction false} SimpleBuilt(ts: seq<Tok>) returns (c: Command)
    requires Code(ts) != '(' && TCommand(ts).Parsed?
    ensures CommandOk(c) && ts == CommandToks(c) + TCommand(ts).rest && TCommand(ts).cmd == CommandMeans(c)
  {
    var first := RedirsBuilt(ts, Exec([]));
    var r := TRedirs(ts, Exec([]));
    var args := ArgsBuilt(r.rest, r.cmd, []);
    c := Simple(first, args);
    SimpleMeans(first, args);
    assert ts == RedirToks(first) + ArgToks(args) + TCommand(ts).rest;
  }

  lemma {:induction false} CommandBuilt(ts: seq<Tok>) returns (c: Command)
    requires TCommand(ts).Parsed?
    ensures CommandOk(c) && ts == CommandToks(c) + TCommand(ts).rest && TCommand(ts).cmd == CommandMeans(c)
    decreases |ts|, 1
  {
    if Code(ts) == '(' {
      c := GroupBuilt(ts);
    } else {
      c := SimpleBuilt(ts);
    }
  }

  lemma {:induction false} GroupBuilt(ts: seq<Tok>) returns (c: Command)
    requires Code(ts) == '(' && TCommand(ts).Parsed?
    ensures CommandOk(c) && ts == CommandToks(c) + TCommand(ts).rest && TCommand(ts).cmd == CommandMeans(c)
    decreases |ts|, 0
  {
    var r := TLine(ts[1..]);
    var line := LineBuilt(ts[1..]);
    var rs := RedirsBuilt(r.rest[1..], r.cmd);
    c := Group(line, rs);
    Glued(ts[1..], LineToks(line), r.rest, Sym(')'), RedirToks(rs), TCommand(ts).rest);
    GluedGroup(ts, LineToks(line), RedirToks(rs), TCommand(ts).rest);
  }

  lemma {:induction false} GluedGroup(ts: seq<Tok>, a: seq<Tok>, b: seq<Tok>, rest: seq<Tok>)
    requires ts != [] && ts[0] == Sym('(') && ts[1..] == a + ([Sym(')')] + b) + rest
    ensures ts == [Sym('(')] + a + [Sym(')')] + b + rest
  {
    assert ts == [Sym('(')] + ts[1..];
  }

  lemma {:induction false} PipelineBuilt(ts: seq<Tok>) returns (p: Pipeline)
    requires TPipeline(ts).Parsed?
    ensures PipelineOk(p) && ts == PipelineToks(p) + TPipeline(ts).rest && TPipeline(ts).cmd == PipelineMeans(p)
    decreases |ts|, 2
  {
    var l := TCommand(ts);
    var c := CommandBuilt(ts);
    if Code(l.rest) == '|' {
      var rest := PipelineBuilt(l.rest[1..]);
      p := Bar(c, rest);
      Glued(ts, CommandToks(c), l.rest, Sym('|'), PipelineToks(rest), TPipeline(ts).rest);
    } else {
      p := Single(c);
    }
  }

  lemma {:induction false} BacksBuilt(ts: seq<Tok>, cmd: Tree) returns (n: nat)
    ensures ts == AmpToks(n) + TBacks(ts, cmd).rest && TBacks(ts, cmd).cmd == Backed(cmd, n)
    decreases |ts|
  {
    n := 0;
    if Code(ts) == '&' {
      var m := BacksBuilt(ts[1..], Back(cmd));
      n := m + 1;
      assert ts == [Sym('&')] + ts[1..];
    }
  }

  lemma {:induction false} LineBuilt(ts: seq<Tok>) returns (l: Line)
    requires TLine(ts).Parsed?
    ensures LineOk(l) && ts == LineToks(l) + TLine(ts).rest && TLine(ts).cmd == LineMeans(l)
    decreases |ts|, 4
  {
    var p, n := BackedBuilt(ts);
    var first := TPipeline(ts);
    var b := TBacks(first.rest, first.cmd);
    if Code(b.rest) == ';' {
      var rest := LineBuilt(b.rest[1..]);
      l := Semi(p, n, rest);
      Glued(ts, PipelineToks(p) + AmpToks(n), b.rest, Sym(';'), LineToks(rest), TLine(ts).rest);
    } else {
      l := Last(p, n);
    }
  }

  /** A pipeline and its '&'s. */
  lemma {:induction false} BackedBuilt(ts: seq<Tok>) returns (p: Pipeline, n: nat)
    requires TPipeline(ts).Parsed?
    ensures var b := TBacks(TPipeline(ts).rest, TPipeline(ts).cmd);
            && PipelineOk(p) && ts == PipelineToks(p) + AmpToks(n) + b.rest && b.cmd == Backed(PipelineMeans(p), n)
    decreases |ts|, 3
  {
    p := PipelineBuilt(ts);
    n := BacksBuilt(TPipeline(ts).rest, TPipeline(ts).cmd);
  }

  // ----- what is in the grammar is what the parser builds -----

  /** What may follow a command, a pipeline and a line. */
  predicate AfterCommand(ts: seq<Tok>) {
    ts == [] || EndsArgs(Code(ts))
  }

  predicate AfterPipeline(ts: seq<Tok>) {
    AfterCommand(ts) && Code(ts) != '|'
  }

  predicate AfterLine(ts: seq<Tok>) {
    ts == [] || Code(ts) == ')'
  }

  lemma {:induction false} RedirsTaken(rs: seq<Redirection>, rest: seq<Tok>, cmd: Tree)
    requires RedirsOk(rs) && !IsRedir(Code(rest))
    ensures TRedirs(RedirToks(rs) + rest, cmd) == Parsed(Redirected(cmd, rs), rest)
    decreases |rs|
  {
    var ts := RedirToks(rs) + rest;
    if rs == [] {
      assert ts == rest;
    } else {
      assert ts[..2] == [Sym(rs[0].op), Word(rs[0].file)] && ts[2..] == RedirToks(rs[1..]) + rest;
      assert ts[1..][0] == Word(rs[0].file);
      RedirsTaken(rs[1..], rest, Redir(cmd, rs[0].file, rs[0].op != '<'));
    }
  }

  lemma {:induction false} ArgsTaken(args: seq<Arg>, rest: seq<Tok>, ret: Tree, argv: seq<Span>)
    requires ArgsOk(args) && |argv| + |args| < MAXARGS && AfterCommand(rest)
    ensures TArgs(ArgToks(args) + rest, ret, argv)
         == Parsed(SetArgs(Redirected(ret, ArgRedirs(args)), argv + ArgWords(args)), rest)
    decreases |args|
  {
    var ts := ArgToks(args) + rest;
    if args == [] {
      assert ts == rest && argv + [] == argv;
    } else {
      var a, others := args[0], args[1..];
      var more := ArgToks(others) + rest;
      assert args == [a] + others;
      ArgsMore(a, others, ret, argv);
      ArgSplit(a, others, rest);
      RedirsTaken(a.redirs, more, ret);
      ArgStep(ts, ret, argv);
      ArgsTaken(others, rest, Redirected(ret, a.redirs), argv + [a.word]);
    }
  }

  lemma {:induction false} ArgStep(ts: seq<Tok>, ret: Tree, argv: seq<Span>)
    requires ts != [] && ts[0].Word? && |argv| + 1 < MAXARGS && TRedirs(ts[1..], ret).Parsed?
    ensures var r := TRedirs(ts[1..], ret);
            TArgs(ts, ret, argv) == TArgs(r.rest, r.cmd, argv + [ts[0].w])
  {
    assert Code(ts) == 'a';
  }

  lemma {:induction false} ArgSplit(a: Arg, others: seq<Arg>, rest: seq<Tok>)
    requires AfterCommand(rest)
    ensures var ts, more := ArgToks([a] + others) + rest, ArgToks(others) + rest;
            ts != [] && ts[0] == Word(a.word) && ts[1..] == RedirToks(a.redirs) + more && !IsRedir(Code(more))
  {
    assert ([a] + others)[1..] == others;
    if others == [] { assert ArgToks(others) + rest == rest; }
  }

  lemma {:induction false} SimpleTaken(c: Command, rest: seq<Tok>)
    requires c.Simple? && CommandOk(c) && AfterCommand(rest)
    ensures TCommand(CommandToks(c) + rest) == Parsed(CommandMeans(c), rest)
  {
    var ts, more := CommandToks(c) + rest, ArgToks(c.args) + rest;
    assert ts == RedirToks(c.first) + more;
    RedirsTaken(c.first, more, Exec([]));
    ArgsTaken(c.args, rest, Redirected(Exec([]), c.first), []);
    SimpleMeans(c.first, c.args);
  }

  lemma {:induction false} CommandTaken(c: Command, rest: seq<Tok>)
    requires CommandOk(c) && AfterCommand(rest)
    ensures TCommand(CommandToks(c) + rest) == Parsed(CommandMeans(c), rest)
    decreases c
  {
    if c.Simple? {
      SimpleTaken(c, rest);
    } else {
      var more := [Sym(')')] + (RedirToks(c.redirs) + rest);
      GroupSplit(c, rest);
      LineTaken(c.line, more);
      assert more[1..] == RedirToks(c.redirs) + rest;
      RedirsTaken(c.redirs, rest, LineMeans(c.line));
    }
  }

  lemma {:induction false} GroupSplit(c: Command, rest: seq<Tok>)
    requires c.Group?
    ensures var ts := CommandToks(c) + rest;
            ts != [] && ts[0] == Sym('(') && ts[1..] == LineToks(c.line) + ([Sym(')')] + (RedirToks(c.redirs) + rest))
  {
  }

  lemma {:induction false} PipelineTaken(p: Pipeline, rest: seq<Tok>)
    requires PipelineOk(p) && AfterPipeline(rest)
    ensures TPipeline(PipelineToks(p) + rest) == Parsed(PipelineMeans(p), rest)
    decreases p
  {
    var ts := PipelineToks(p) + rest;
    if p.Single? {
      assert ts == CommandToks(p.command) + rest;
      CommandTaken(p.command, rest);
    } else {
      var more := [Sym('|')] + PipelineToks(p.rest) + rest;
      assert ts == CommandToks(p.command) + more;
      CommandTaken(p.command, more);
      assert more[1..] == PipelineToks(p.rest) + rest;
      PipelineTaken(p.rest, rest);
    }
  }

  lemma {:induction false} BacksTaken(n: nat, rest: seq<Tok>, cmd: Tree)
    requires Code(rest) != '&'
    ensures TBacks(AmpToks(n) + rest, cmd) == Parsed(Backed(cmd, n), rest)
  {
    var ts := AmpToks(n) + rest;
    if n == 0 {
      assert ts == rest;
    } else {
      assert ts[0] == Sym('&') && ts[1..] == AmpToks(n - 1) + rest;
      BacksTaken(n - 1, rest, Back(cmd));
    }
  }

  lemma {:induction false} LineTaken(l: Line, rest: seq<Tok>)
    requires LineOk(l) && AfterLine(rest)
    ensures TLine(LineToks(l) + rest) == Parsed(LineMeans(l), rest)
    decreases l
  {
    var more := LineSplit(l, rest);
    AmpsFollow(l.amps, more);
    PipelineTaken(l.pipeline, AmpToks(l.amps) + more);
    BacksTaken(l.amps, more, PipelineMeans(l.pipeline));
    if l.Semi? { LineTaken(l.rest, rest); }
  }

  /** What comes after the '&'s. */
  lemma {:induction false} LineSplit(l: Line, rest: seq<Tok>) returns (more: seq<Tok>)
    requires AfterLine(rest)
    ensures LineToks(l) + rest == PipelineToks(l.pipeline) + (AmpToks(l.amps) + more)
    ensures AfterPipeline(more) && Code(more) != '&'
    ensures l.Semi? ==> Code(more) == ';' && more[1..] == LineToks(l.rest) + rest
    ensures l.Last? ==> more == rest
  {
    more := if l.Semi? then [Sym(';')] + (LineToks(l.rest) + rest) else rest;
  }

  lemma {:induction false} AmpsFollow(n: nat, rest: seq<Tok>)
    requires AfterPipeline(rest)
    ensures AfterPipeline(AmpToks(n) + rest)
  {
    assert n == 0 ==> AmpToks(n) + rest == rest;
    assert n > 0 ==> (AmpToks(n) + rest)[0] == Sym('&');
  }

  // ----- the theorems -----

  /** The line l reads the whole text and means the command c. */
  ghost predicate Derives(s: string, l: Line, c: Tree) {
    LineOk(l) && LineToks(l) == Tokens(s, 0) && LineMeans(l) == c
  }

  /** parsecmd accepts exactly the texts the grammar generates, and the command it builds is the one the
      grammar gives the text. */
  lemma {:induction false} ParserIsGrammar(s: string, c: Tree)
    requires '\0' !in s
    ensures ParseCmd(s) == Ok(c, |s|) <==> exists l :: Derives(s, l, c)
  {
    AllTokens(s, c);
    var ts := Tokens(s, 0);
    if TLine(ts) == Parsed(c, []) {
      var l := LineBuilt(ts);
      assert LineToks(l) + [] == LineToks(l);
      assert Derives(s, l, c);
    }
    if l :| Derives(s, l, c) {
      LineTaken(l, []);
      assert LineToks(l) + [] == LineToks(l);
    }
  }

  /** Taking the whole text is leaving no token. */
  lemma {:induction false} AllTokens(s: string, c: Tree)
    requires '\0' !in s
    ensures ParseCmd(s) == Ok(c, |s|) <==> TLine(Tokens(s, 0)) == Parsed(c, [])
  {
    LineAgree(s, 0);
    var r := ParseLine(s, 0);
    if r.Ok? { Head(s, r.next); }
  }

  /** The grammar gives no text two meanings. */
  lemma {:induction false} Unambiguous(l: Line, m: Line)
    requires LineOk(l) && LineOk(m) && LineToks(l) == LineToks(m)
    ensures LineMeans(l) == LineMeans(m)
  {
    LineTaken(l, []);
    LineTaken(m, []);
  }
}
