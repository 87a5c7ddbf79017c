/** The command language of sh.c: its trees, and its parser as functions of the text and a position. */
module ShellSyntax {
  const MAXARGS: nat := 10

  /** A word is a span of the text in the parser's trees, and a string in trees to print. Redirections
      read a file (O_RDONLY, descriptor 0) or write one (O_WRONLY|O_CREATE, descriptor 1). */
  datatype Cmd<T> =
    | Exec(argv: seq<T>)
    | Redir(cmd: Cmd<T>, file: T, write: bool)
    | Pipe(left: Cmd<T>, right: Cmd<T>)
    | List(left: Cmd<T>, right: Cmd<T>)
    | Back(cmd: Cmd<T>)

  datatype Span = Span(q: nat, eq: nat)

  type Tree = Cmd<Span>

  /** A panic of the shell, or the command parsed and the position after it. */
  datatype Result = Panic | Ok(cmd: Tree, next: nat)

  // ----- characters and tokens -----

  predicate White(c: char) {
    c == ' ' || c == '\t' || c == '\r' || c == '\n' || c == 11 as char
  }

  predicate Symbol(c: char) {
    c == '<' || c == '|' || c == '>' || c == '&' || c == ';' || c == '(' || c == ')'
  }

  predicate InWord(c: char) {
    !White(c) && !Symbol(c)
  }

  /** The character at i; the text is followed by a NUL. */
  function At(s: string, i: nat): char {
    if i < |s| then s[i] else '\0'
  }

  function Skip(s: string, i: nat): (j: nat)
    requires i <= |s|
    ensures i <= j <= |s| && (j < |s| ==> !White(s[j]))
    decreases |s| - i
  {
    if i < |s| && White(s[i]) then Skip(s, i + 1) else i
  }

  function WordEnd(s: string, i: nat): (j: nat)
    requires i <= |s|
    ensures i <= j <= |s| && (j < |s| ==> !InWord(s[j]))
    decreases |s| - i
  {
    if i < |s| && InWord(s[i]) then WordEnd(s, i + 1) else i
  }

  /** A token: its code ('a' for a word, '+' for ">>", NUL at the end), its span, and where the next
      one starts. */
  datatype Token = Token(code: char, q: nat, eq: nat, next: nat)

  function GetToken(s: string, i: nat): (t: Token)
    requires i <= |s|
    ensures i <= t.q <= t.eq <= t.next <= |s|
    ensures t.q < |s| && s[t.q] != '\0' ==> i < t.next
  {
    var q := Skip(s, i);
    var c := At(s, q);
    if c == '\0' then Token('\0', q, q, Skip(s, q))
    else if c == '>' && At(s, q + 1) == '>' then Token('+', q, q + 2, Skip(s, q + 2))
    else if Symbol(c) then Token(c, q, q + 1, Skip(s, q + 1))
    else Token('a', q, WordEnd(s, q), Skip(s, WordEnd(s, q)))
  }

  lemma {:induction false} SkipIs(s: string, i: nat, e: nat)
    requires i <= e <= |s| && (forall k | i <= k < e :: White(s[k])) && !(e < |s| && White(s[e]))
    ensures Skip(s, i) == e
    decreases e - i
  {
    if i < e { SkipIs(s, i + 1, e); }
  }

  lemma {:induction false} SkipWhites(s: string, i: nat)
    requires i <= |s|
    ensures forall k | i <= k < Skip(s, i) :: White(s[k])
    decreases |s| - i
  {
    if i < |s| && White(s[i]) { SkipWhites(s, i + 1); }
  }

  lemma {:induction false} WordEndIs(s: string, i: nat, e: nat)
    requires i <= e <= |s| && (forall k | i <= k < e :: InWord(s[k])) && !(e < |s| && InWord(s[e]))
    ensures WordEnd(s, i) == e
    decreases e - i
  {
    if i < e { WordEndIs(s, i + 1, e); }
  }

  lemma {:induction false} WordEndWords(s: string, i: nat)
    requires i <= |s|
    ensures forall k | i <= k < WordEnd(s, i) :: InWord(s[k])
    decreases |s| - i
  {
    if i < |s| && InWord(s[i]) { WordEndWords(s, i + 1); }
  }

  /** White space up to the token and after it, and as the token the end of the text, ">>", one symbol
      that does not start ">>", or a maximal run of word characters. */
  ghost predicate IsToken(s: string, i: nat, t: Token) {
    && i <= t.q <= t.eq <= t.next <= |s|
    && (forall k | i <= k < t.q :: White(s[k])) && (t.q < |s| ==> !White(s[t.q]))
    && (forall k | t.eq <= k < t.next :: White(s[k])) && (t.next < |s| ==> !White(s[t.next]))
    && (if t.code == '\0' then t.q == t.eq == |s|
        else if t.code == '+' then t.eq == t.q + 2 && s[t.q] == '>' && s[t.q + 1] == '>'
        else if t.code == 'a' then
          && t.q < t.eq && (forall k | t.q <= k < t.eq :: InWord(s[k])) && (t.eq < |s| ==> !InWord(s[t.eq]))
        else
          && Symbol(t.code) && t.eq == t.q + 1 && s[t.q] == t.code
          && (t.code == '>' && t.eq < |s| ==> s[t.eq] != '>'))
  }

  /** gettoken finds that token and no other. */
  lemma {:induction false} TokenExact(s: string, i: nat, t: Token)
    requires '\0' !in s && i <= |s|
    ensures IsToken(s, i, t) <==> t == GetToken(s, i)
  {
    var q := Skip(s, i);
    SkipWhites(s, i);
    WordEndWords(s, q);
    SkipWhites(s, GetToken(s, i).eq);
    if IsToken(s, i, t) {
      SkipIs(s, i, t.q);
      SkipIs(s, t.eq, t.next);
      if t.code == 'a' { WordEndIs(s, t.q, t.eq); }
    }
  }

  // ----- the parser -----

  /** The exec node inside redirections, once its arguments are known. */
  function SetArgs(c: Tree, argv: seq<Span>): Tree {
    match c
    case Exec(_) => Exec(argv)
    case Redir(d, file, write) => Redir(SetArgs(d, argv), file, write)
    case _ => c
  }

  function Redirs(s: string, i: nat, cmd: Tree): (r: Result)
    requires i <= |s|
    ensures r.Ok? ==> i <= r.next <= |s|
    decreases |s| - i
  {
    var j := Skip(s, i);
    if At(s, j) == '<' || At(s, j) == '>' then
      var tok := GetToken(s, j);
      var file := GetToken(s, tok.next);
      if file.code != 'a' then Panic
      else Redirs(s, file.next, Redir(cmd, Span(file.q, file.eq), tok.code != '<'))
    else Ok(cmd, j)
  }

  predicate EndsArgs(c: char) {
    c == '|' || c == ')' || c == '&' || c == ';'
  }

  function Args(s: string, i: nat, ret: Tree, argv: seq<Span>): (r: Result)
    requires i <= |s|
    ensures r.Ok? ==> i <= r.next <= |s|
    decreases |s| - i
  {
    var j := Skip(s, i);
    if EndsArgs(At(s, j)) then Ok(SetArgs(ret, argv), j)
    else
      var tok := GetToken(s, j);
      if tok.code == '\0' then Ok(SetArgs(ret, argv), tok.next)
      else if tok.code != 'a' || |argv| + 1 >= MAXARGS then Panic
      else match Redirs(s, tok.next, ret)
        case Panic => Panic
        case Ok(ret', k) => Args(s, k, ret', argv + [Span(tok.q, tok.eq)])
  }

  function ParseExec(s: string, i: nat): (r: Result)
    requires i <= |s|
    ensures r.Ok? ==> i <= r.next <= |s|
    decreases |s| - i, 1
  {
    var j := Skip(s, i);
    if At(s, j) == '(' then ParseBlock(s, j)
    else match Redirs(s, j, Exec([]))
      case Panic => Panic
      case Ok(ret, k) => Args(s, k, ret, [])
  }

  function ParseBlock(s: string, i: nat): (r: Result)
    requires i <= |s|
    ensures r.Ok? ==> i <= r.next <= |s|
    decreases |s| - i, 0
  {
    var j := Skip(s, i);
    if At(s, j) != '(' then Panic
    else match ParseLine(s, GetToken(s, j).next)
      case Panic => Panic
      case Ok(cmd, k) =>
        var close := Skip(s, k);
        if At(s, close) != ')' then Panic else Redirs(s, GetToken(s, close).next, cmd)
  }

  function ParsePipe(s: string, i: nat): (r: Result)
    requires i <= |s|
    ensures r.Ok? ==> i <= r.next <= |s|
    decreases |s| - i, 2
  {
    match ParseExec(s, i)
    case Panic => Panic
    case Ok(left, k) =>
      var j := Skip(s, k);
      if At(s, j) == '|' then
        match ParsePipe(s, GetToken(s, j).next)
        case Panic => Panic
        case Ok(right, m) => Ok(Pipe(left, right), m)
      else Ok(left, j)
  }

  /** The loop over '&' in parseline. */
  function Backs(s: string, i: nat, cmd: Tree): (r: Result)
    requires i <= |s|
    ensures r.Ok? && i <= r.next <= |s|
    decreases |s| - i
  {
    var j := Skip(s, i);
    if At(s, j) == '&' then Backs(s, GetToken(s, j).next, Back(cmd)) else Ok(cmd, j)
  }

  function ParseLine(s: string, i: nat): (r: Result)
    requires i <= |s|
    ensures r.Ok? ==> i <= r.next <= |s|
    decreases |s| - i, 3
  {
    match ParsePipe(s, i)
    case Panic => Panic
    case Ok(first, k) =>
      var back := Backs(s, k, first);
      var j := Skip(s, back.next);
      if At(s, j) == ';' then
        match ParseLine(s, GetToken(s, j).next)
        case Panic => Panic
        case Ok(rest, m) => Ok(List(back.cmd, rest), m)
      else Ok(back.cmd, j)
  }

  function ParseCmd(s: string): (r: Result)
    ensures r.Ok? ==> r.next == |s|
  {
    match ParseLine(s, 0)
    case Panic => Panic
    case Ok(cmd, k) => if Skip(s, k) == |s| then Ok(cmd, |s|) else Panic
  }

  // ----- the tree's words -----

  function Text(s: string, w: Span): string {
    if w.q <= w.eq <= |s| then s[w.q..w.eq] else ""
  }

  function Texts(s: string, ws: seq<Span>): (ts: seq<string>)
    ensures |ts| == |ws| && forall k | 0 <= k < |ws| :: ts[k] == Text(s, ws[k])
  {
    seq(|ws|, k requires 0 <= k < |ws| => Text(s, ws[k]))
  }

  /** The tree with its words read from the text. */
  function Read(s: string, c: Tree): Cmd<string> {
    match c
    case Exec(argv) => Exec(Texts(s, argv))
    case Redir(d, file, write) => Redir(Read(s, d), Text(s, file), write)
    case Pipe(l, r) => Pipe(Read(s, l), Read(s, r))
    case List(l, r) => List(Read(s, l), Read(s, r))
    case Back(d) => Back(Read(s, d))
  }
}
