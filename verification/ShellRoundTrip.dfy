/** Printing a command fully parenthesised and parsing it gives the command back. */
module ShellRoundTrip {
  import opened Sealing
  import opened ShellSyntax

  predicate Plain(w: string) {
    w != "" && forall k | 0 <= k < |w| :: InWord(w[k]) && w[k] != '\0'
  }

  predicate AllPlain(ws: seq<string>) {
    forall k | 0 <= k < |ws| :: Plain(ws[k])
  }

  lemma {:induction false} PlainTail(ws: seq<string>)
    requires AllPlain(ws) && ws != []
    ensures Plain(ws[0]) && AllPlain(ws[1..])
  {
  }

  /** Commands the parser can build: at most MAXARGS - 1 words per exec node, all words plain. */
  predicate Printable(t: Cmd<string>) {
    match t
    case Exec(argv) => |argv| < MAXARGS && AllPlain(argv)
    case Redir(d, file, _) => Printable(d) && Plain(file)
    case Pipe(l, r) => Printable(l) && Printable(r)
    case List(l, r) => Printable(l) && Printable(r)
    case Back(d) => Printable(d)
  }

  function Join(ws: seq<string>): string {
    if ws == [] then "" else if |ws| == 1 then ws[0] else ws[0] + " " + Join(ws[1..])
  }

  function Block(t: Cmd<string>): string
    decreases t, 1
  {
    "(" + Print(t) + ")"
  }

  function Print(t: Cmd<string>): string
    decreases t, 0
  {
    match t
    case Exec(argv) => Join(argv)
    case Redir(d, file, write) => Block(d) + (if write then ">" else "<") + file
    case Pipe(l, r) => Block(l) + "|" + Block(r)
    case List(l, r) => Block(l) + ";" + Block(r)
    case Back(d) => Block(d) + "&"
  }

  // ----- texts inside texts -----

  /** t stands at position i of s. The equality is sealed. */
  ghost predicate Stands(s: string, i: nat, t: string) {
    i + |t| <= |s| && forall u: int | Key(u, (s, i, t)) :: s[i..i + |t|] == t
  }

  lemma {:induction false} StandsBoth(s: string, i: nat, t: string, u: string)
    requires Stands(s, i, t + u)
    ensures Stands(s, i, t) && Stands(s, i + |t|, u)
  {
    assert Key(0, (s, i, t + u));
    assert s[i..i + |t + u|][..|t|] == t;
    assert s[i..i + |t + u|][|t|..] == u;
  }

  lemma {:induction false} StandsFirst(s: string, i: nat, t: string)
    requires Stands(s, i, t) && t != ""
    ensures i < |s| && s[i] == t[0]
  {
    assert Key(0, (s, i, t));
    assert s[i..i + |t|][0] == t[0];
  }

  /** The end of the text or a closing parenthesis. */
  predicate Stops(s: string, i: nat) {
    i == |s| || (i < |s| && s[i] == ')')
  }

  lemma {:induction false} TokenWord(s: string, i: nat, w: string)
    requires Stands(s, i, w) && Plain(w) && !(i + |w| < |s| && InWord(s[i + |w|]))
    ensures GetToken(s, i) == Token('a', i, i + |w|, Skip(s, i + |w|)) && Text(s, Span(i, i + |w|)) == w
    ensures Skip(s, i) == i && InWord(At(s, i)) && At(s, i) != '\0'
  {
    StandsFirst(s, i, w);
    assert Key(0, (s, i, w));
    forall k | i <= k < i + |w| ensures InWord(s[k]) {
      assert s[k] == s[i..i + |w|][k - i];
    }
    WordEndIs(s, i, i + |w|);
  }

  // ----- words -----

  lemma {:induction false} NoRedirs(s: string, i: nat, cmd: Tree)
    requires i <= |s| && !White(At(s, i)) && At(s, i) != '<' && At(s, i) != '>'
    ensures Redirs(s, i, cmd) == Ok(cmd, i)
  {
  }

  lemma {:induction false} JoinFirst(ws: seq<string>)
    requires ws != [] && Plain(ws[0])
    ensures Join(ws) != "" && Join(ws)[0] == ws[0][0]
  {
  }

  /** After a word, the next token is the next word or what stops the words. */
  lemma {:induction false} AfterWord(s: string, i: nat, ws: seq<string>)
    requires ws != [] && Stands(s, i, Join(ws)) && Stops(s, i + |Join(ws)|)
    requires AllPlain(ws)
    ensures var e := i + |ws[0]|;
            && Stands(s, i, ws[0]) && !(e < |s| && InWord(s[e]))
            && Skip(s, e) == (if |ws| == 1 then e else e + 1) && !White(At(s, Skip(s, e)))
            && At(s, Skip(s, e)) != '<' && At(s, Skip(s, e)) != '>'
            && Stands(s, Skip(s, e), Join(ws[1..])) && Skip(s, e) + |Join(ws[1..])| == i + |Join(ws)|
  {
    var w, e := ws[0], i + |ws[0]|;
    PlainTail(ws);
    if |ws| == 1 {
      assert Join(ws) == w && Join(ws[1..]) == "";
    } else {
      StandsBoth(s, i, w + " ", Join(ws[1..]));
      StandsBoth(s, i, w, " ");
      StandsFirst(s, e, " ");
      PlainTail(ws[1..]);
      JoinFirst(ws[1..]);
      StandsFirst(s, e + 1, Join(ws[1..]));
      assert Skip(s, e + 1) == e + 1;
    }
  }

  // ----- grammar rules -----

  datatype Part = Line | Pipeline | Command | Words(argv: seq<Span>)

  function ParsePart(p: Part, s: string, i: nat): Result
    requires i <= |s|
  {
    match p
    case Line => ParseLine(s, i)
    case Pipeline => ParsePipe(s, i)
    case Command => ParseExec(s, i)
    case Words(argv) => Args(s, i, Exec([]), argv)
  }

  /** The parser's function for p, started at i, gives c and ends at k. Sealed. */
  ghost predicate Gives(p: Part, s: string, i: nat, c: Tree, k: nat) {
    i <= |s| && k <= |s| && forall u: int | Key(u, (p, s, i)) :: ParsePart(p, s, i) == Ok(c, k)
  }

  lemma {:induction false} Given(p: Part, s: string, i: nat, c: Tree, k: nat)
    requires Gives(p, s, i, c, k)
    ensures ParsePart(p, s, i) == Ok(c, k)
  {
    assert Key(0, (p, s, i));
  }

  lemma {:induction false} WordsEnd(s: string, i: nat, argv: seq<Span>)
    requires Stops(s, i)
    ensures Gives(Words(argv), s, i, Exec(argv), i)
  {
    assert Skip(s, i) == i;
  }

  /** A word at i .. e, and after it at k something that is no redirection. */
  predicate WordAt(s: string, i: nat, e: nat, k: nat) {
    && i <= |s| && k <= |s| && GetToken(s, i) == Token('a', i, e, k) && Skip(s, i) == i && InWord(At(s, i))
    && !White(At(s, k)) && At(s, k) != '<' && At(s, k) != '>'
  }

  lemma {:induction false} WordsMore(s: string, i: nat, e: nat, k: nat, argv: seq<Span>, c: Tree, m: nat)
    requires WordAt(s, i, e, k) && |argv| + 1 < MAXARGS
    requires Gives(Words(argv + [Span(i, e)]), s, k, c, m)
    ensures Gives(Words(argv), s, i, c, m)
  {
    Given(Words(argv + [Span(i, e)]), s, k, c, m);
    NoRedirs(s, k, Exec([]));
  }

  lemma {:induction false} CommandOfWords(s: string, i: nat, c: Tree, k: nat)
    requires Gives(Words([]), s, i, c, k) && !White(At(s, i)) && At(s, i) != '<' && At(s, i) != '>' && At(s, i) != '('
    ensures Gives(Command, s, i, c, k)
  {
    Given(Words([]), s, i, c, k);
    NoRedirs(s, i, Exec([]));
  }

  lemma {:induction false} OneChar(s: string, i: nat, c: char)
    requires i < |s| && s[i] == c && Symbol(c) && c != '>' && !White(At(s, i + 1))
    ensures Skip(s, i) == i && GetToken(s, i) == Token(c, i, i + 1, i + 1)
  {
  }

  lemma {:induction false} OneRedir(s: string, k: nat, e: nat, d: Tree, write: bool)
    requires k < |s| && s[k] == (if write then '>' else '<') && k + 1 <= e <= |s|
    requires InWord(At(s, k + 1)) && GetToken(s, k + 1) == Token('a', k + 1, e, e) && Stops(s, e)
    ensures Redirs(s, k, d) == Ok(Redir(d, Span(k + 1, e), write), e)
  {
    assert Skip(s, k) == k && Skip(s, k + 1) == k + 1;
    NoRedirs(s, e, Redir(d, Span(k + 1, e), write));
  }

  /** "(" line ")", up to the redirections. */
  lemma {:induction false} BlockIs(s: string, i: nat, c: Tree, k: nat)
    requires i < |s| && s[i] == '(' && !White(At(s, i + 1)) && Gives(Line, s, i + 1, c, k)
    requires k < |s| && s[k] == ')' && !White(At(s, k + 1))
    ensures ParseExec(s, i) == Redirs(s, k + 1, c)
  {
    Given(Line, s, i + 1, c, k);
    OneChar(s, i, '(');
    OneChar(s, k, ')');
    assert ParseBlock(s, i) == Redirs(s, k + 1, c);
  }

  /** "(" line ")", with nothing to redirect. */
  lemma {:induction false} CommandOfBlock(s: string, i: nat, c: Tree, k: nat)
    requires i < |s| && s[i] == '(' && !White(At(s, i + 1)) && Gives(Line, s, i + 1, c, k)
    requires k < |s| && s[k] == ')' && !White(At(s, k + 1)) && At(s, k + 1) != '<' && At(s, k + 1) != '>'
    ensures Gives(Command, s, i, c, k + 1)
  {
    BlockIs(s, i, c, k);
    NoRedirs(s, k + 1, c);
  }

  /** "(" line ")" and one redirection. */
  lemma {:induction false} CommandOfRedir(s: string, i: nat, c: Tree, k: nat, e: nat, write: bool)
    requires i < |s| && s[i] == '(' && !White(At(s, i + 1)) && Gives(Line, s, i + 1, c, k)
    requires k + 1 < |s| && s[k] == ')' && s[k + 1] == (if write then '>' else '<') && k + 2 <= e <= |s|
    requires InWord(At(s, k + 2)) && GetToken(s, k + 2) == Token('a', k + 2, e, e) && Stops(s, e)
    ensures Gives(Command, s, i, Redir(c, Span(k + 2, e), write), e)
  {
    BlockIs(s, i, c, k);
    OneRedir(s, k + 1, e, c, write);
  }

  lemma {:induction false} PipelineOfCommand(s: string, i: nat, c: Tree, k: nat)
    requires Gives(Command, s, i, c, k) && !White(At(s, k)) && At(s, k) != '|'
    ensures Gives(Pipeline, s, i, c, k)
  {
    Given(Command, s, i, c, k);
    assert Skip(s, k) == k;
  }

  lemma {:induction false} PipelineOfPipe(s: string, i: nat, l: Tree, k: nat, r: Tree, m: nat)
    requires Gives(Command, s, i, l, k) && k < |s| && s[k] == '|' && !White(At(s, k + 1))
    requires Gives(Pipeline, s, k + 1, r, m)
    ensures Gives(Pipeline, s, i, Pipe(l, r), m)
  {
    Given(Command, s, i, l, k);
    Given(Pipeline, s, k + 1, r, m);
    OneChar(s, k, '|');
  }

  lemma {:induction false} LineOfPipeline(s: string, i: nat, c: Tree, k: nat)
    requires Gives(Pipeline, s, i, c, k) && Stops(s, k)
    ensures Gives(Line, s, i, c, k)
  {
    Given(Pipeline, s, i, c, k);
    assert Skip(s, k) == k;
    assert Backs(s, k, c) == Ok(c, k);
  }

  lemma {:induction false} LineOfBack(s: string, i: nat, c: Tree, k: nat)
    requires Gives(Pipeline, s, i, c, k) && k < |s| && s[k] == '&' && Stops(s, k + 1)
    ensures Gives(Line, s, i, Back(c), k + 1)
  {
    Given(Pipeline, s, i, c, k);
    OneChar(s, k, '&');
    assert Skip(s, k + 1) == k + 1;
    assert Backs(s, k + 1, Back(c)) == Ok(Back(c), k + 1);
    assert Backs(s, k, c) == Ok(Back(c), k + 1);
  }

  lemma {:induction false} LineOfList(s: string, i: nat, l: Tree, k: nat, r: Tree, m: nat)
    requires Gives(Pipeline, s, i, l, k) && k < |s| && s[k] == ';' && !White(At(s, k + 1))
    requires Gives(Line, s, k + 1, r, m)
    ensures Gives(Line, s, i, List(l, r), m)
  {
    Given(Pipeline, s, i, l, k);
    Given(Line, s, k + 1, r, m);
    OneChar(s, k, ';');
    assert Backs(s, k, l) == Ok(l, k);
  }

  // ----- words -----

  lemma {:induction false} TextsCons(s: string, w: Span, rest: seq<Span>, ws: seq<string>)
    requires ws != [] && Text(s, w) == ws[0] && Texts(s, rest) == ws[1..]
    ensures Texts(s, [w] + rest) == ws
  {
    var ts := Texts(s, [w] + rest);
    assert |ts| == |ws|;
    forall k | 0 <= k < |ws| ensures ts[k] == ws[k] {
      if k > 0 { assert ts[k] == Texts(s, rest)[k - 1]; }
    }
  }

  lemma {:induction false} FirstWord(s: string, i: nat, ws: seq<string>) returns (k: nat)
    requires ws != [] && Stands(s, i, Join(ws)) && Stops(s, i + |Join(ws)|) && AllPlain(ws)
    ensures WordAt(s, i, i + |ws[0]|, k) && Text(s, Span(i, i + |ws[0]|)) == ws[0]
    ensures Stands(s, k, Join(ws[1..])) && k + |Join(ws[1..])| == i + |Join(ws)| && AllPlain(ws[1..])
  {
    PlainTail(ws);
    AfterWord(s, i, ws);
    TokenWord(s, i, ws[0]);
    k := Skip(s, i + |ws[0]|);
  }

  lemma {:induction false} WordsTrip(s: string, i: nat, ws: seq<string>, argv: seq<Span>) returns (more: seq<Span>)
    requires Stands(s, i, Join(ws)) && Stops(s, i + |Join(ws)|) && |argv| + |ws| < MAXARGS && AllPlain(ws)
    ensures Gives(Words(argv), s, i, Exec(argv + more), i + |Join(ws)|)
    ensures Texts(s, more) == ws
    decreases |ws|, 1
  {
    if ws == [] {
      more := [];
      WordsEnd(s, i, argv);
      assert argv + more == argv;
    } else {
      more := WordsTripMore(s, i, ws, argv);
    }
  }

  lemma {:induction false} WordsTripMore(s: string, i: nat, ws: seq<string>, argv: seq<Span>) returns (more: seq<Span>)
    requires ws != [] && Stands(s, i, Join(ws)) && Stops(s, i + |Join(ws)|) && |argv| + |ws| < MAXARGS && AllPlain(ws)
    ensures Gives(Words(argv), s, i, Exec(argv + more), i + |Join(ws)|)
    ensures Texts(s, more) == ws
    decreases |ws|, 0
  {
    var k := FirstWord(s, i, ws);
    var w, end := Span(i, i + |ws[0]|), i + |Join(ws)|;
    var rest := WordsTrip(s, k, ws[1..], argv + [w]);
    more := [w] + rest;
    assert argv + [w] + rest == argv + more;
    WordsMore(s, i, w.eq, k, argv, Exec(argv + more), end);
    TextsCons(s, w, rest, ws);
  }

  lemma {:induction false} ExecTrip(s: string, i: nat, ws: seq<string>) returns (c: Tree)
    requires Stands(s, i, Join(ws)) && Stops(s, i + |Join(ws)|) && Printable(Exec(ws))
    ensures Gives(Command, s, i, c, i + |Join(ws)|) && Read(s, c) == Exec(ws)
  {
    if ws != [] {
      PlainTail(ws);
      AfterWord(s, i, ws);
      TokenWord(s, i, ws[0]);
    }
    var argv := WordsTrip(s, i, ws, []);
    assert [] + argv == argv;
    c := Exec(argv);
    CommandOfWords(s, i, c, i + |Join(ws)|);
  }

  // ----- commands -----

  /** The first character of a printed command is not white space. */
  lemma {:induction false} FirstOf(s: string, i: nat, t: Cmd<string>)
    requires Stands(s, i, Print(t)) && Printable(t) && Stops(s, i + |Print(t)|)
    ensures !White(At(s, i))
  {
    if t.Exec? {
      if t.argv != [] {
        PlainTail(t.argv);
        JoinFirst(t.argv);
        StandsFirst(s, i, Print(t));
      }
    } else {
      StandsFirst(s, i, Print(t));
      assert t.Redir? || t.Back? ==> Print(t)[0] == Block(t.cmd)[0] == '(';
      assert t.Pipe? || t.List? ==> Print(t)[0] == Block(t.left)[0] == '(';
    }
  }

  /** The inside of a parenthesised command. */
  lemma {:induction false} BlockTrip(s: string, i: nat, t: Cmd<string>) returns (c: Tree)
    requires Stands(s, i, Block(t)) && Printable(t)
    ensures i < |s| && s[i] == '(' && !White(At(s, i + 1)) && Gives(Line, s, i + 1, c, i + 1 + |Print(t)|)
    ensures i + 1 + |Print(t)| < |s| && s[i + 1 + |Print(t)|] == ')' && Read(s, c) == t
    decreases t, 3
  {
    var p := Print(t);
    StandsBoth(s, i, "(" + p, ")");
    StandsBoth(s, i, "(", p);
    StandsFirst(s, i, "(");
    StandsFirst(s, i + 1 + |p|, ")");
    c := LineTrip(s, i + 1, t);
    FirstOf(s, i + 1, t);
  }

  lemma {:induction false} RedirParts(s: string, i: nat, t: Cmd<string>)
    requires t.Redir? && Stands(s, i, Print(t)) && Printable(t) && Stops(s, i + |Print(t)|)
    ensures var k, e := i + |Block(t.cmd)|, i + |Print(t)|;
            && Stands(s, i, Block(t.cmd)) && k < |s| && s[k] == (if t.write then '>' else '<') && k + 1 <= e
            && InWord(At(s, k + 1)) && GetToken(s, k + 1) == Token('a', k + 1, e, e)
            && Text(s, Span(k + 1, e)) == t.file
  {
    var op := if t.write then ">" else "<";
    var k, e := i + |Block(t.cmd)|, i + |Print(t)|;
    StandsBoth(s, i, Block(t.cmd) + op, t.file);
    StandsBoth(s, i, Block(t.cmd), op);
    StandsFirst(s, k, op);
    assert Skip(s, e) == e;
    TokenWord(s, k + 1, t.file);
  }

  lemma {:induction false} RedirTrip(s: string, i: nat, t: Cmd<string>) returns (c: Tree)
    requires t.Redir? && Stands(s, i, Print(t)) && Printable(t) && Stops(s, i + |Print(t)|)
    ensures Gives(Line, s, i, c, i + |Print(t)|) && Read(s, c) == t
    decreases t, 1
  {
    var k, e := i + |Block(t.cmd)|, i + |Print(t)|;
    RedirParts(s, i, t);
    var d := BlockTrip(s, i, t.cmd);
    c := Redir(d, Span(k + 1, e), t.write);
    CommandOfRedir(s, i, d, k - 1, e, t.write);
    PipelineOfCommand(s, i, c, e);
    LineOfPipeline(s, i, c, e);
  }

  /** A block as a command, before a character that does not redirect. */
  lemma {:induction false} BlockCommand(s: string, i: nat, t: Cmd<string>) returns (c: Tree)
    requires Stands(s, i, Block(t)) && Printable(t)
    requires var n := At(s, i + |Block(t)|); !White(n) && n != '<' && n != '>'
    ensures Gives(Command, s, i, c, i + |Block(t)|) && Read(s, c) == t
    decreases t, 4
  {
    c := BlockTrip(s, i, t);
    CommandOfBlock(s, i, c, i + 1 + |Print(t)|);
  }

  lemma {:induction false} PipeTrip(s: string, i: nat, t: Cmd<string>) returns (c: Tree)
    requires t.Pipe? && Stands(s, i, Print(t)) && Printable(t) && Stops(s, i + |Print(t)|)
    ensures Gives(Line, s, i, c, i + |Print(t)|) && Read(s, c) == t
    decreases t, 1
  {
    var k, e := i + |Block(t.left)|, i + |Print(t)|;
    TwoBlocks(s, i, t.left, "|", t.right);
    var l := BlockCommand(s, i, t.left);
    var r := BlockCommand(s, k + 1, t.right);
    c := Pipe(l, r);
    PipelineOfCommand(s, k + 1, r, e);
    PipelineOfPipe(s, i, l, k, r, e);
    LineOfPipeline(s, i, c, e);
  }

  lemma {:induction false} TwoBlocks(s: string, i: nat, l: Cmd<string>, op: string, r: Cmd<string>)
    requires Stands(s, i, Block(l) + op + Block(r)) && |op| == 1
    ensures var k := i + |Block(l)|;
            Stands(s, i, Block(l)) && k < |s| && s[k] == op[0] && Stands(s, k + 1, Block(r)) && At(s, k + 1) == '('
  {
    StandsBoth(s, i, Block(l) + op, Block(r));
    StandsBoth(s, i, Block(l), op);
    StandsFirst(s, i + |Block(l)|, op);
    StandsFirst(s, i + |Block(l)| + 1, Block(r));
  }

  lemma {:induction false} ListTrip(s: string, i: nat, t: Cmd<string>) returns (c: Tree)
    requires t.List? && Stands(s, i, Print(t)) && Printable(t) && Stops(s, i + |Print(t)|)
    ensures Gives(Line, s, i, c, i + |Print(t)|) && Read(s, c) == t
    decreases t, 1
  {
    var k, e := i + |Block(t.left)|, i + |Print(t)|;
    TwoBlocks(s, i, t.left, ";", t.right);
    var l := BlockCommand(s, i, t.left);
    var r := BlockCommand(s, k + 1, t.right);
    c := List(l, r);
    PipelineOfCommand(s, k + 1, r, e);
    LineOfPipeline(s, k + 1, r, e);
    PipelineOfCommand(s, i, l, k);
    LineOfList(s, i, l, k, r, e);
  }

  lemma {:induction false} BackTrip(s: string, i: nat, t: Cmd<string>) returns (c: Tree)
    requires t.Back? && Stands(s, i, Print(t)) && Printable(t) && Stops(s, i + |Print(t)|)
    ensures Gives(Line, s, i, c, i + |Print(t)|) && Read(s, c) == t
    decreases t, 1
  {
    var k := i + |Block(t.cmd)|;
    StandsBoth(s, i, Block(t.cmd), "&");
    StandsFirst(s, k, "&");
    var d := BlockCommand(s, i, t.cmd);
    c := Back(d);
    PipelineOfCommand(s, i, d, k);
    LineOfBack(s, i, d, k);
  }

  lemma {:induction false} LineTrip(s: string, i: nat, t: Cmd<string>) returns (c: Tree)
    requires Stands(s, i, Print(t)) && Printable(t) && Stops(s, i + |Print(t)|)
    ensures Gives(Line, s, i, c, i + |Print(t)|) && Read(s, c) == t
    decreases t, 2
  {
    match t
    case Exec(argv) =>
      c := ExecTrip(s, i, argv);
      PipelineOfCommand(s, i, c, i + |Print(t)|);
      LineOfPipeline(s, i, c, i + |Print(t)|);
    case Redir(_, _, _) => c := RedirTrip(s, i, t);
    case Pipe(_, _) => c := PipeTrip(s, i, t);
    case List(_, _) => c := ListTrip(s, i, t);
    case Back(_) => c := BackTrip(s, i, t);
  }

  /** parsecmd of the printed command is the command. */
  lemma {:induction false} RoundTrip(t: Cmd<string>)
    requires Printable(t)
    ensures ParseCmd(Print(t)).Ok? && Read(Print(t), ParseCmd(Print(t)).cmd) == t
  {
    var s := Print(t);
    assert s[0..|s|] == s;
    var c := LineTrip(s, 0, t);
    Given(Line, s, 0, c, |s|);
    assert Skip(s, |s|) == |s|;
  }
}
