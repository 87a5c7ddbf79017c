/** The words of an accepted command: what they are made of, that the tree can be printed, and that
    after nulterminate each reads as its own text. */
module ShellWords {
  import opened ShellSyntax
  import opened ShellRoundTrip

  /** A maximal run of word characters, not empty. */
  ghost predicate IsWord(s: string, w: Span) {
    && w.q < w.eq <= |s| && (w.eq < |s| ==> !InWord(s[w.eq]))
    && forall k | w.q <= k < w.eq :: InWord(s[k])
  }

  ghost predicate AllWords(s: string, ws: seq<Span>) {
    forall k | 0 <= k < |ws| :: IsWord(s, ws[k])
  }

  ghost predicate Proper(s: string, c: Tree) {
    match c
    case Exec(argv) => |argv| < MAXARGS && AllWords(s, argv)
    case Redir(d, file, _) => Proper(s, d) && IsWord(s, file)
    case Pipe(l, r) => Proper(s, l) && Proper(s, r)
    case List(l, r) => Proper(s, l) && Proper(s, r)
    case Back(d) => Proper(s, d)
  }

  lemma {:induction false} TokenIsWord(s: string, i: nat)
    requires i <= |s|
    ensures var t := GetToken(s, i); t.code == 'a' ==> IsWord(s, Span(t.q, t.eq))
  {
    WordEndWords(s, Skip(s, i));
  }

  lemma {:induction false} RedirsProper(s: string, i: nat, cmd: Tree)
    requires i <= |s| && Proper(s, cmd)
    ensures var r := Redirs(s, i, cmd); r.Ok? ==> Proper(s, r.cmd)
    decreases |s| - i
  {
    var j := Skip(s, i);
    if At(s, j) == '<' || At(s, j) == '>' {
      var tok := GetToken(s, j);
      var file := GetToken(s, tok.next);
      TokenIsWord(s, tok.next);
      if file.code == 'a' { RedirsProper(s, file.next, Redir(cmd, Span(file.q, file.eq), tok.code != '<')); }
    }
  }

  lemma {:induction false} SetArgsProper(s: string, c: Tree, argv: seq<Span>)
    requires Proper(s, c) && |argv| < MAXARGS && AllWords(s, argv)
    ensures Proper(s, SetArgs(c, argv))
  {
    if c.Redir? { SetArgsProper(s, c.cmd, argv); }
  }

  lemma {:induction false} ArgsProper(s: string, i: nat, ret: Tree, argv: seq<Span>)
    requires i <= |s| && Proper(s, ret) && |argv| < MAXARGS && AllWords(s, argv)
    ensures var r := Args(s, i, ret, argv); r.Ok? ==> Proper(s, r.cmd)
    decreases |s| - i
  {
    SetArgsProper(s, ret, argv);
    var j := Skip(s, i);
    var tok := GetToken(s, j);
    if !EndsArgs(At(s, j)) && tok.code == 'a' && |argv| + 1 < MAXARGS {
      TokenIsWord(s, j);
      RedirsProper(s, tok.next, ret);
      var r := Redirs(s, tok.next, ret);
      if r.Ok? { ArgsProper(s, r.next, r.cmd, argv + [Span(tok.q, tok.eq)]); }
    }
  }

  lemma {:induction false} ExecProper(s: string, i: nat)
    requires i <= |s|
    ensures var r := ParseExec(s, i); r.Ok? ==> Proper(s, r.cmd)
    decreases |s| - i, 1
  {
    var j := Skip(s, i);
    if At(s, j) == '(' {
      BlockProper(s, j);
    } else {
      RedirsProper(s, j, Exec([]));
      var r := Redirs(s, j, Exec([]));
      if r.Ok? { ArgsProper(s, r.next, r.cmd, []); }
    }
  }

  lemma {:induction false} BlockProper(s: string, i: nat)
    requires i <= |s|
    ensures var r := ParseBlock(s, i); r.Ok? ==> Proper(s, r.cmd)
    decreases |s| - i, 0
  {
    var j := Skip(s, i);
    if At(s, j) == '(' {
      LineProper(s, GetToken(s, j).next);
      var r := ParseLine(s, GetToken(s, j).next);
      if r.Ok? && At(s, Skip(s, r.next)) == ')' { RedirsProper(s, GetToken(s, Skip(s, r.next)).next, r.cmd); }
    }
  }

  lemma {:induction false} PipeProper(s: string, i: nat)
    requires i <= |s|
    ensures var r := ParsePipe(s, i); r.Ok? ==> Proper(s, r.cmd)
    decreases |s| - i, 2
  {
    ExecProper(s, i);
    var r := ParseExec(s, i);
    if r.Ok? && At(s, Skip(s, r.next)) == '|' { PipeProper(s, GetToken(s, Skip(s, r.next)).next); }
  }

  lemma {:induction false} BacksProper(s: string, i: nat, cmd: Tree)
    requires i <= |s| && Proper(s, cmd)
    ensures Proper(s, Backs(s, i, cmd).cmd)
    decreases |s| - i
  {
    var j := Skip(s, i);
    if At(s, j) == '&' { BacksProper(s, GetToken(s, j).next, Back(cmd)); }
  }

  lemma {:induction false} LineProper(s: string, i: nat)
    requires i <= |s|
    ensures var r := ParseLine(s, i); r.Ok? ==> Proper(s, r.cmd)
    decreases |s| - i, 3
  {
    PipeProper(s, i);
    var r := ParsePipe(s, i);
    if r.Ok? {
      BacksProper(s, r.next, r.cmd);
      var j := Skip(s, Backs(s, r.next, r.cmd).next);
      if At(s, j) == ';' { LineProper(s, GetToken(s, j).next); }
    }
  }

  // ----- printing what was parsed -----

  lemma {:induction false} WordIsPlain(s: string, w: Span)
    requires IsWord(s, w) && '\0' !in s
    ensures Plain(Text(s, w))
  {
    var t := Text(s, w);
    forall k | 0 <= k < |t| ensures InWord(t[k]) && t[k] != '\0' {
      assert t[k] == s[w.q + k];
    }
  }

  lemma {:induction false} ProperPrints(s: string, c: Tree)
    requires Proper(s, c) && '\0' !in s
    ensures Printable(Read(s, c))
  {
    match c
    case Exec(argv) =>
      forall k | 0 <= k < |argv| ensures Plain(Texts(s, argv)[k]) {
        WordIsPlain(s, argv[k]);
      }
    case Redir(d, file, _) =>
      ProperPrints(s, d);
      WordIsPlain(s, file);
    case Pipe(l, r) =>
      ProperPrints(s, l);
      ProperPrints(s, r);
    case List(l, r) =>
      ProperPrints(s, l);
      ProperPrints(s, r);
    case Back(d) => ProperPrints(s, d);
  }

  /** Whatever parsecmd accepts can be printed, and parsing the print gives the same command. */
  lemma {:induction false} ParsedReprints(s: string)
    requires '\0' !in s && ParseCmd(s).Ok?
    ensures var t := Read(s, ParseCmd(s).cmd);
            && Printable(t)
            && ParseCmd(Print(t)).Ok? && Read(Print(t), ParseCmd(Print(t)).cmd) == t
  {
    LineProper(s, 0);
    ProperPrints(s, ParseCmd(s).cmd);
    RoundTrip(Read(s, ParseCmd(s).cmd));
  }

  // ----- NUL termination -----

  ghost predicate InTree(c: Tree, w: Span) {
    match c
    case Exec(argv) => w in argv
    case Redir(d, file, _) => InTree(d, w) || w == file
    case Pipe(l, r) => InTree(l, w) || InTree(r, w)
    case List(l, r) => InTree(l, w) || InTree(r, w)
    case Back(d) => InTree(d, w)
  }

  ghost predicate EndsWord(c: Tree, k: nat) {
    exists w :: InTree(c, w) && w.eq == k
  }

  /** The text with its NUL, and a NUL at the end of every word of the command. */
  ghost predicate Terminated(s: string, c: Tree, buf: string) {
    && |buf| == |s| + 1
    && (forall k | 0 <= k <= |s| && EndsWord(c, k) :: buf[k] == '\0')
    && (forall k | 0 <= k <= |s| && !EndsWord(c, k) :: buf[k] == At(s, k))
  }

  /** The C string that starts at q. */
  function CString(buf: string, q: nat): string
    requires q <= |buf|
    decreases |buf| - q
  {
    if q < |buf| && buf[q] != '\0' then [buf[q]] + CString(buf, q + 1) else ""
  }

  lemma {:induction false} CStringIs(buf: string, q: nat, e: nat)
    requires q <= e < |buf| && buf[e] == '\0' && forall k | q <= k < e :: buf[k] != '\0'
    ensures CString(buf, q) == buf[q..e]
    decreases e - q
  {
    if q < e {
      CStringIs(buf, q + 1, e);
      assert buf[q..e] == [buf[q]] + buf[q + 1..e];
    } else {
      assert buf[q..e] == "";
    }
  }

  lemma {:induction false} TreeWord(s: string, c: Tree, w: Span)
    requires Proper(s, c) && InTree(c, w)
    ensures IsWord(s, w)
  {
    match c
    case Exec(argv) =>
    case Redir(d, file, _) => if InTree(d, w) { TreeWord(s, d, w); }
    case Pipe(l, r) => if InTree(l, w) { TreeWord(s, l, w); } else { TreeWord(s, r, w); }
    case List(l, r) => if InTree(l, w) { TreeWord(s, l, w); } else { TreeWord(s, r, w); }
    case Back(d) => TreeWord(s, d, w);
  }

  /** After nulterminate every word of an accepted command reads as exactly its own text. */
  lemma {:induction false} WordsReadBack(s: string, buf: string, w: Span)
    requires '\0' !in s && ParseCmd(s).Ok? && Terminated(s, ParseCmd(s).cmd, buf) && InTree(ParseCmd(s).cmd, w)
    ensures w.q < |buf| && CString(buf, w.q) == Text(s, w) != ""
  {
    var c := ParseCmd(s).cmd;
    LineProper(s, 0);
    TreeWord(s, c, w);
    assert EndsWord(c, w.eq);
    forall k | w.q <= k < w.eq ensures buf[k] == s[k] && buf[k] != '\0' {
      if EndsWord(c, k) {
        var v :| InTree(c, v) && v.eq == k;
        TreeWord(s, c, v);
      }
    }
    CStringIs(buf, w.q, w.eq);
    assert buf[w.q..w.eq] == s[w.q..w.eq];
  }
}
