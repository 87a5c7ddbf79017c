/** The parser of sh.c as it runs: a cursor moved by loops and mutual recursion, and NULs written into
    the command line afterwards. */
module Shell {
  import opened Sealing
  import opened ShellSyntax
  import opened ShellWords

  class Parser {
    /** The command line, without its NUL, and the cursor *ps. */
    const text: string
    var s: nat

    constructor (line: string)
      ensures text == line && s == 0
    {
      text := line;
      s := 0;
    }

    method SkipWhite()
      requires s <= |text|
      modifies `s
      ensures s == Skip(text, old(s))
    {
      while s < |text| && White(text[s])
        invariant s <= |text| && Skip(text, old(s)) == Skip(text, s)
      {
        s := s + 1;
      }
    }

    method Peek(toks: string) returns (r: bool)
      requires s <= |text|
      modifies `s
      ensures s == Skip(text, old(s)) && (r <==> At(text, s) != '\0' && At(text, s) in toks)
    {
      SkipWhite();
      r := At(text, s) != '\0' && At(text, s) in toks;
    }

    method Gettoken() returns (code: char, q: nat, eq: nat)
      requires s <= |text|
      modifies `s
      ensures Token(code, q, eq, s) == GetToken(text, old(s))
    {
      SkipWhite();
      q := s;
      code := At(text, s);
      if code == '\0' {
      } else if code == '>' && At(text, s + 1) == '>' {
        code := '+';
        s := s + 2;
      } else if Symbol(code) {
        s := s + 1;
      } else {
        code := 'a';
        while s < |text| && InWord(text[s])
          invariant q <= s <= |text| && WordEnd(text, q) == WordEnd(text, s)
        {
          s := s + 1;
        }
      }
      eq := s;
      SkipWhite();
    }

    /** The result of one of the parser's functions: a panic, or a command and the cursor after it. */
    ghost predicate Returns(panic: bool, c: Tree, r: Result)
      reads `s
    {
      s <= |text| && (if panic then r == Panic else r == Ok(c, s))
    }

    method Parseredirs(cmd: Tree) returns (panic: bool, c: Tree)
      requires s <= |text|
      modifies `s
      ensures Returns(panic, c, Redirs(text, old(s), cmd)) && old(s) <= s
    {
      panic, c := false, cmd;
      RedirsStart(text, s, c);
      var more := Peek("<>");
      while more
        invariant old(s) <= s <= |text| && (more <==> At(text, s) == '<' || At(text, s) == '>')
        invariant RedirsFrom(text, old(s), cmd, s, c)
        decreases |text| - s
      {
        RedirsTurn(text, old(s), cmd, s, c);
        var tok, _, _ := Gettoken();
        var code, q, eq := Gettoken();
        if code != 'a' {
          return true, c;
        }
        c := Redir(c, Span(q, eq), tok != '<');
        more := Peek("<>");
      }
      RedirsEnd(text, old(s), cmd, s, c);
    }

    method Parseexec() returns (panic: bool, c: Tree)
      requires s <= |text|
      modifies `s
      ensures Returns(panic, c, ParseExec(text, old(s))) && old(s) <= s
      decreases |text| - s, 1
    {
      var block := Peek("(");
      if block {
        panic, c := Parseblock();
        return;
      }
      panic, c := Parseredirs(Exec([]));
      if !panic {
        panic, c := Parseargs(c);
      }
    }

    /** The loop of parseexec. The arguments go into the exec node inside ret, which is filled in when
        the loop ends. */
    method Parseargs(ret: Tree) returns (panic: bool, c: Tree)
      requires s <= |text|
      modifies `s
      ensures Returns(panic, c, Args(text, old(s), ret, [])) && old(s) <= s
    {
      var argv: seq<Span> := [];
      panic, c := false, ret;
      ArgsStart(text, s, ret);
      var ends := Peek("|)&;");
      while !ends
        invariant old(s) <= s <= |text| && (ends <==> EndsArgs(At(text, s))) && |argv| < MAXARGS
        invariant ArgsFrom(text, old(s), ret, s, c, argv)
        decreases |text| - s, !ends
      {
        ArgsTurn(text, old(s), ret, s, c, argv);
        var code, q, eq := Gettoken();
        if code == '\0' {
          c := SetArgs(c, argv);
          return;
        }
        if code != 'a' {
          return true, c;
        }
        argv := argv + [Span(q, eq)];
        if |argv| >= MAXARGS {
          return true, c;
        }
        panic, c := Parseredirs(c);
        if panic {
          return;
        }
        ends := Peek("|)&;");
      }
      ArgsEnd(text, old(s), ret, s, c, argv);
      c := SetArgs(c, argv);
    }

    method Parseblock() returns (panic: bool, c: Tree)
      requires s <= |text|
      modifies `s
      ensures Returns(panic, c, ParseBlock(text, old(s))) && old(s) <= s
      decreases |text| - s, 0
    {
      c := Exec([]);
      var open := Peek("(");
      if !open {
        return true, c;
      }
      var _, _, _ := Gettoken();
      panic, c := Parseline();
      if panic {
        return;
      }
      var close := Peek(")");
      if !close {
        return true, c;
      }
      var _, _, _ := Gettoken();
      panic, c := Parseredirs(c);
    }

    method Parsepipe() returns (panic: bool, c: Tree)
      requires s <= |text|
      modifies `s
      ensures Returns(panic, c, ParsePipe(text, old(s))) && old(s) <= s
      decreases |text| - s, 2
    {
      panic, c := Parseexec();
      if panic {
        return;
      }
      var bar := Peek("|");
      if bar {
        var _, _, _ := Gettoken();
        var right;
        panic, right := Parsepipe();
        c := Pipe(c, right);
      }
    }

    method Parseline() returns (panic: bool, c: Tree)
      requires s <= |text|
      modifies `s
      ensures Returns(panic, c, ParseLine(text, old(s))) && old(s) <= s
      decreases |text| - s, 3
    {
      panic, c := Parsepipe();
      if panic {
        return;
      }
      c := Parsebacks(c);
      var semi := Peek(";");
      if semi {
        var _, _, _ := Gettoken();
        var rest;
        panic, rest := Parseline();
        c := List(c, rest);
      }
    }

    /** The loop of parseline over '&'. */
    method Parsebacks(cmd: Tree) returns (c: Tree)
      requires s <= |text|
      modifies `s
      ensures Backs(text, old(s), cmd) == Ok(c, s) && old(s) <= s <= |text|
    {
      c := cmd;
      BacksSkip(text, s, c);
      var amp := Peek("&");
      while amp
        invariant old(s) <= s <= |text| && s == Skip(text, s) && (amp <==> At(text, s) == '&')
        invariant Backs(text, old(s), cmd) == Backs(text, s, c)
        decreases |text| - s
      {
        var _, _, _ := Gettoken();
        c := Back(c);
        BacksSkip(text, s, c);
        amp := Peek("&");
      }
    }
  }

  /** Where the loop of parseredirs, started at i with cmd, has come to. Sealed. */
  ghost predicate RedirsFrom(s: string, i: nat, cmd: Tree, j: nat, c: Tree) {
    && i <= |s| && j <= |s| && Skip(s, j) == j
    && forall u: int | Key(u, (s, i, j)) :: Redirs(s, i, cmd) == Redirs(s, j, c)
  }

  lemma {:induction false} RedirsStart(s: string, i: nat, cmd: Tree)
    requires i <= |s|
    ensures RedirsFrom(s, i, cmd, Skip(s, i), cmd)
  {
    SkipTwice(s, i);
  }

  lemma {:induction false} RedirsTurn(s: string, i: nat, cmd: Tree, j: nat, c: Tree)
    requires RedirsFrom(s, i, cmd, j, c) && (At(s, j) == '<' || At(s, j) == '>')
    ensures var tok := GetToken(s, j);
            var file := GetToken(s, tok.next);
            && j < tok.next
            && (file.code != 'a' ==> Redirs(s, i, cmd) == Panic)
            && (file.code == 'a' ==>
                  RedirsFrom(s, i, cmd, Skip(s, file.next), Redir(c, Span(file.q, file.eq), tok.code != '<')))
  {
    assert Key(0, (s, i, j));
    var tok := GetToken(s, j);
    SkipTwice(s, GetToken(s, tok.next).next);
  }

  lemma {:induction false} RedirsEnd(s: string, i: nat, cmd: Tree, j: nat, c: Tree)
    requires RedirsFrom(s, i, cmd, j, c) && At(s, j) != '<' && At(s, j) != '>'
    ensures Redirs(s, i, cmd) == Ok(c, j)
  {
    assert Key(0, (s, i, j));
  }

  lemma {:induction false} SkipTwice(s: string, i: nat)
    requires i <= |s|
    ensures Skip(s, Skip(s, i)) == Skip(s, i)
  {
  }

  /** Where the loop of parseexec, started at i with ret, has come to. Sealed. */
  ghost predicate ArgsFrom(s: string, i: nat, ret: Tree, j: nat, c: Tree, argv: seq<Span>) {
    && i <= |s| && j <= |s| && Skip(s, j) == j
    && forall u: int | Key(u, (s, i, j)) :: Args(s, i, ret, []) == Args(s, j, c, argv)
  }

  lemma {:induction false} ArgsStart(s: string, i: nat, ret: Tree)
    requires i <= |s|
    ensures ArgsFrom(s, i, ret, Skip(s, i), ret, [])
  {
    SkipTwice(s, i);
  }

  lemma {:induction false} ArgsSkip(s: string, i: nat, ret: Tree, argv: seq<Span>)
    requires i <= |s|
    ensures Args(s, Skip(s, i), ret, argv) == Args(s, i, ret, argv) && Skip(s, Skip(s, i)) == Skip(s, i)
  {
    SkipTwice(s, i);
  }

  lemma {:induction false} ArgsOnce(s: string, j: nat, c: Tree, argv: seq<Span>)
    requires j <= |s| && Skip(s, j) == j && !EndsArgs(At(s, j))
    ensures var tok := GetToken(s, j);
            var r, more := Redirs(s, tok.next, c), argv + [Span(tok.q, tok.eq)];
            && (tok.code == '\0' ==> Args(s, j, c, argv) == Ok(SetArgs(c, argv), tok.next))
            && (tok.code != '\0' ==> j < tok.next)
            && (tok.code != '\0' && (tok.code != 'a' || |more| >= MAXARGS || r == Panic) ==>
                  Args(s, j, c, argv) == Panic)
            && (tok.code == 'a' && |more| < MAXARGS && r.Ok? ==> Args(s, j, c, argv) == Args(s, r.next, r.cmd, more))
  {
  }

  lemma {:induction false} ArgsTurn(s: string, i: nat, ret: Tree, j: nat, c: Tree, argv: seq<Span>)
    requires ArgsFrom(s, i, ret, j, c, argv) && !EndsArgs(At(s, j))
    ensures var tok := GetToken(s, j);
            var r, more := Redirs(s, tok.next, c), argv + [Span(tok.q, tok.eq)];
            && (tok.code == '\0' ==> Args(s, i, ret, []) == Ok(SetArgs(c, argv), tok.next))
            && (tok.code != '\0' ==> j < tok.next)
            && (tok.code != '\0' && (tok.code != 'a' || |more| >= MAXARGS || r == Panic) ==>
                  Args(s, i, ret, []) == Panic)
            && (tok.code == 'a' && |more| < MAXARGS && r.Ok? ==> ArgsFrom(s, i, ret, Skip(s, r.next), r.cmd, more))
  {
    assert Key(0, (s, i, j));
    ArgsOnce(s, j, c, argv);
    var tok := GetToken(s, j);
    var r := Redirs(s, tok.next, c);
    if r.Ok? { ArgsSkip(s, r.next, r.cmd, argv + [Span(tok.q, tok.eq)]); }
  }

  lemma {:induction false} ArgsEnd(s: string, i: nat, ret: Tree, j: nat, c: Tree, argv: seq<Span>)
    requires ArgsFrom(s, i, ret, j, c, argv) && EndsArgs(At(s, j))
    ensures Args(s, i, ret, []) == Ok(SetArgs(c, argv), j)
  {
    assert Key(0, (s, i, j));
  }

  lemma {:induction false} BacksSkip(s: string, i: nat, cmd: Tree)
    requires i <= |s|
    ensures Backs(s, Skip(s, i), cmd) == Backs(s, i, cmd) && Skip(s, Skip(s, i)) == Skip(s, i)
  {
    SkipTwice(s, i);
  }

  // ----- NUL termination -----

  /** buf is was with NULs at the ends of the command's words. */
  ghost predicate Cut(was: seq<char>, c: Tree, buf: seq<char>) {
    && |buf| == |was|
    && (forall k | 0 <= k < |was| && EndsWord(c, k) :: buf[k] == '\0')
    && (forall k | 0 <= k < |was| && !EndsWord(c, k) :: buf[k] == was[k])
  }

  /** Every word of the command ends inside a buffer of n characters. */
  ghost predicate Fits(c: Tree, n: nat) {
    forall w | InTree(c, w) :: w.eq < n
  }

  method Nulterminate(buf: array<char>, c: Tree)
    requires Fits(c, buf.Length)
    modifies buf
    ensures Cut(old(buf[..]), c, buf[..])
    decreases c
  {
    match c
    case Exec(argv) => NulWords(buf, argv);
    case Redir(d, file, _) =>
      assert forall w | InTree(d, w) :: InTree(c, w);
      Nulterminate(buf, d);
      assert InTree(c, file);
      ghost var mid := buf[..];
      buf[file.eq] := '\0';
      CutRedir(old(buf[..]), mid, c, buf[..]);
    case Pipe(l, r) =>
      assert forall w | InTree(l, w) || InTree(r, w) :: InTree(c, w);
      Nulterminate(buf, l);
      ghost var mid := buf[..];
      Nulterminate(buf, r);
      CutBoth(old(buf[..]), l, mid, r, buf[..], c);
    case List(l, r) =>
      assert forall w | InTree(l, w) || InTree(r, w) :: InTree(c, w);
      Nulterminate(buf, l);
      ghost var mid := buf[..];
      Nulterminate(buf, r);
      CutBoth(old(buf[..]), l, mid, r, buf[..], c);
    case Back(d) =>
      assert forall w :: InTree(d, w) <==> InTree(c, w);
      Nulterminate(buf, d);
      assert forall k: nat :: EndsWord(d, k) <==> EndsWord(c, k);
  }

  method NulWords(buf: array<char>, argv: seq<Span>)
    requires Fits(Exec(argv), buf.Length)
    modifies buf
    ensures Cut(old(buf[..]), Exec(argv), buf[..])
  {
    for i := 0 to |argv|
      invariant forall k | 0 <= k < buf.Length && EndsWord(Exec(argv[..i]), k) :: buf[k] == '\0'
      invariant forall k | 0 <= k < buf.Length && !EndsWord(Exec(argv[..i]), k) :: buf[k] == old(buf[k])
    {
      assert InTree(Exec(argv), argv[i]);
      EndsMore(argv, i);
      buf[argv[i].eq] := '\0';
    }
    assert argv[..|argv|] == argv;
  }

  lemma {:induction false} EndsMore(argv: seq<Span>, i: nat)
    requires i < |argv|
    ensures forall k: nat :: EndsWord(Exec(argv[..i + 1]), k) <==> EndsWord(Exec(argv[..i]), k) || k == argv[i].eq
  {
    var some, more := Exec(argv[..i]), Exec(argv[..i + 1]);
    forall w ensures InTree(more, w) <==> InTree(some, w) || w == argv[i] {
      assert argv[..i + 1] == argv[..i] + [argv[i]];
    }
    assert InTree(more, argv[i]);
    forall k: nat ensures EndsWord(more, k) <==> EndsWord(some, k) || k == argv[i].eq {
      if EndsWord(some, k) {
        var w :| InTree(some, w) && w.eq == k;
        assert InTree(more, w);
      }
    }
  }

  lemma {:induction false} CutRedir(was: seq<char>, mid: seq<char>, c: Tree, buf: seq<char>)
    requires c.Redir? && Cut(was, c.cmd, mid) && c.file.eq < |was| && buf == mid[c.file.eq := '\0']
    ensures Cut(was, c, buf)
  {
    forall k | 0 <= k < |was| ensures EndsWord(c, k) <==> EndsWord(c.cmd, k) || k == c.file.eq {
      if EndsWord(c.cmd, k) {
        var w :| InTree(c.cmd, w) && w.eq == k;
        assert InTree(c, w);
      }
      if k == c.file.eq { assert InTree(c, c.file); }
    }
  }

  lemma {:induction false} CutBoth(was: seq<char>, l: Tree, mid: seq<char>, r: Tree, buf: seq<char>, c: Tree)
    requires Cut(was, l, mid) && Cut(mid, r, buf) && (c == Pipe(l, r) || c == List(l, r))
    ensures Cut(was, c, buf)
  {
    forall k | 0 <= k < |was| ensures EndsWord(c, k) <==> EndsWord(l, k) || EndsWord(r, k) {
      if EndsWord(l, k) {
        var w :| InTree(l, w) && w.eq == k;
        assert InTree(c, w);
      }
      if EndsWord(r, k) {
        var w :| InTree(r, w) && w.eq == k;
        assert InTree(c, w);
      }
    }
  }

  /** parsecmd: the command line in buf ends at its first NUL; when it is accepted, the buffer holds
      every word of the command as a string of its own. */
  method Parsecmd(buf: array<char>) returns (panic: bool, c: Tree)
    requires '\0' in buf[..]
    modifies buf
    ensures var line := CString(old(buf[..]), 0);
            && |line| < buf.Length
            && (panic <==> ParseCmd(line) == Panic)
            && (panic ==> buf[..] == old(buf[..]))
            && (!panic ==> c == ParseCmd(line).cmd && Terminated(line, c, buf[..|line| + 1]))
            && (!panic ==> forall w | InTree(c, w) ::
                  w.q <= |line| && CString(buf[..|line| + 1], w.q) == Text(line, w) != "")
  {
    var n := Strlen(buf);
    ghost var was := buf[..];
    var line := buf[..n];
    var parser := new Parser(line);
    panic, c := parser.Parseline();
    if !panic {
      var _ := parser.Peek("");
      panic := parser.s != |line|;
    }
    if !panic {
      AcceptedFits(line, c);
      Nulterminate(buf, c);
      CutTerminated(was, line, c, buf[..]);
      forall w | InTree(c, w) ensures w.q <= |line| && CString(buf[..|line| + 1], w.q) == Text(line, w) != "" {
        WordsReadBack(line, buf[..|line| + 1], w);
      }
    }
  }

  method Strlen(buf: array<char>) returns (n: nat)
    requires '\0' in buf[..]
    ensures n < buf.Length && buf[n] == '\0' && '\0' !in buf[..n] && buf[..n] == CString(buf[..], 0)
  {
    n := 0;
    while buf[n] != '\0'
      invariant n < buf.Length && '\0' !in buf[..n]
      invariant exists k :: n <= k < buf.Length && buf[k] == '\0'
      decreases buf.Length - n
    {
      n := n + 1;
    }
    CStringIs(buf[..], 0, n);
    assert buf[..][0..n] == buf[..n];
  }

  lemma {:induction false} AcceptedFits(line: string, c: Tree)
    requires ParseCmd(line).Ok? && ParseCmd(line).cmd == c
    ensures Fits(c, |line| + 1)
  {
    LineProper(line, 0);
    forall w | InTree(c, w) ensures w.eq < |line| + 1 {
      TreeWord(line, c, w);
    }
  }

  lemma {:induction false} CutTerminated(was: seq<char>, line: string, c: Tree, buf: seq<char>)
    requires |line| < |was| && was[..|line|] == line && was[|line|] == '\0' && Cut(was, c, buf)
    ensures Terminated(line, c, buf[..|line| + 1])
  {
    var b := buf[..|line| + 1];
    forall k | 0 <= k <= |line|
      ensures EndsWord(c, k) ==> b[k] == '\0'
      ensures !EndsWord(c, k) ==> b[k] == At(line, k)
    {
      assert b[k] == buf[k];
      assert k < |line| ==> was[..|line|][k] == was[k];
    }
  }
}
