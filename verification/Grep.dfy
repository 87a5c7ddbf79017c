/** The regular-expression matcher of grep.c.

    The three C functions become three methods that walk the text with a moving suffix. They are
    proved against a meaning of patterns that does not mention the search at all: a pattern is a
    list of atoms, and it matches a text when the text can be cut into one piece per atom. */
module Grep {

  /** A C string: the NUL that ends it is not part of the sequence. */
  type CString = s: string | '\0' !in s

  /** The character a C program reads at position i of s, the terminator included. */
  function At(s: CString, i: nat): char
    requires i <= |s|
  {
    if i < |s| then s[i] else '\0'
  }

  // ----- what a pattern means -----

  /** One(c) stands for exactly one character, Many(c) for any run of them. */
  datatype Atom = One(c: char) | Many(c: char)

  datatype Pattern = Pattern(atoms: seq<Atom>, toEnd: bool)

  predicate Accepts(c: char, x: char) {
    c == '.' || c == x
  }

  ghost predicate Denotes(a: Atom, piece: string) {
    match a
    case One(c) => |piece| == 1 && Accepts(c, piece[0])
    case Many(c) => forall i | 0 <= i < |piece| :: Accepts(c, piece[i])
  }

  ghost function Flatten(pieces: seq<string>): string {
    if pieces == [] then "" else pieces[0] + Flatten(pieces[1..])
  }

  /** s can be cut into pieces that the atoms stand for, in order. */
  ghost predicate Cuts(atoms: seq<Atom>, pieces: seq<string>, s: string) {
    && |pieces| == |atoms|
    && Flatten(pieces) == s
    && forall i | 0 <= i < |atoms| :: Denotes(atoms[i], pieces[i])
  }

  ghost predicate InLanguage(atoms: seq<Atom>, s: string) {
    exists pieces :: Cuts(atoms, pieces, s)
  }

  /** Some prefix of t is in the language of p, and it is all of t when p ends in '$'. */
  ghost predicate MatchesPrefix(p: Pattern, t: string) {
    exists k | 0 <= k <= |t| :: InLanguage(p.atoms, t[..k]) && (p.toEnd ==> k == |t|)
  }

  /** How the text of a pattern is read: a '*' belongs to the character before it, even when that
      character is '$', and '$' is special only as the very last character. */
  function Read(re: CString): Pattern {
    if re == "" then
      Pattern([], false)
    else if |re| > 1 && re[1] == '*' then
      var p := Read(re[2..]);
      Pattern([Many(re[0])] + p.atoms, p.toEnd)
    else if re == "$" then
      Pattern([], true)
    else
      var p := Read(re[1..]);
      Pattern([One(re[0])] + p.atoms, p.toEnd)
  }

  /** The meaning of a whole pattern: '^' in front pins the match to the start of the text. */
  ghost predicate Matches(re: CString, text: CString) {
    if re != "" && re[0] == '^' then
      MatchesPrefix(Read(re[1..]), text)
    else
      exists i | 0 <= i <= |text| :: MatchesPrefix(Read(re), text[i..])
  }

  // ----- how the meaning unfolds atom by atom -----

  lemma {:induction false} InLanguageNil(s: string)
    ensures InLanguage([], s) <==> s == ""
  {
    if s == "" {
      assert Cuts([], [], s);
    }
  }

  lemma {:induction false} InLanguageCons(a: Atom, rest: seq<Atom>, s: string)
    ensures InLanguage([a] + rest, s) <==>
            exists k | 0 <= k <= |s| :: Denotes(a, s[..k]) && InLanguage(rest, s[k..])
  {
    var atoms := [a] + rest;
    if InLanguage(atoms, s) {
      var pieces :| Cuts(atoms, pieces, s);
      var k := |pieces[0]|;
      assert s[..k] == pieces[0] && s[k..] == Flatten(pieces[1..]);
      assert Denotes(atoms[0], pieces[0]);
      assert Cuts(rest, pieces[1..], s[k..]) by {
        forall i | 0 <= i < |rest| ensures Denotes(rest[i], pieces[1..][i]) {
          assert Denotes(atoms[i + 1], pieces[i + 1]);
        }
      }
      assert Denotes(a, s[..k]) && InLanguage(rest, s[k..]);
    }
    if k :| 0 <= k <= |s| && Denotes(a, s[..k]) && InLanguage(rest, s[k..]) {
      var tail :| Cuts(rest, tail, s[k..]);
      var pieces := [s[..k]] + tail;
      assert pieces[1..] == tail && s == s[..k] + s[k..];
      assert Cuts(atoms, pieces, s);
    }
  }

  lemma {:induction false} MatchesPrefixNil(p: Pattern, t: string)
    requires p.atoms == []
    ensures MatchesPrefix(p, t) <==> (p.toEnd ==> t == "")
  {
    forall k | 0 <= k <= |t| ensures InLanguage([], t[..k]) <==> k == 0 {
      InLanguageNil(t[..k]);
    }
    if p.toEnd ==> t == "" {
      assert InLanguage(p.atoms, t[..0]);
    }
  }

  lemma {:induction false} MatchesPrefixOne(c: char, rest: Pattern, t: string)
    ensures MatchesPrefix(Pattern([One(c)] + rest.atoms, rest.toEnd), t) <==>
            t != "" && Accepts(c, t[0]) && MatchesPrefix(rest, t[1..])
  {
    var p := Pattern([One(c)] + rest.atoms, rest.toEnd);
    if MatchesPrefix(p, t) {
      var k :| 0 <= k <= |t| && InLanguage(p.atoms, t[..k]) && (p.toEnd ==> k == |t|);
      InLanguageCons(One(c), rest.atoms, t[..k]);
      assert t[..k][1..] == t[1..][..k - 1];
    }
    if t != "" && Accepts(c, t[0]) && MatchesPrefix(rest, t[1..]) {
      var k :| 0 <= k <= |t[1..]| && InLanguage(rest.atoms, t[1..][..k]) && (rest.toEnd ==> k == |t[1..]|);
      var s := t[..k + 1];
      assert s[1..] == t[1..][..k];
      assert Denotes(One(c), s[..1]) && InLanguage(rest.atoms, s[1..]);
      InLanguageCons(One(c), rest.atoms, s);
    }
  }

  /** c* followed by the rest matches exactly when the rest matches after some run of c. */
  lemma {:induction false} MatchesPrefixMany(c: char, rest: Pattern, t: string)
    ensures MatchesPrefix(Pattern([Many(c)] + rest.atoms, rest.toEnd), t) <==>
            exists j | 0 <= j <= |t| :: Denotes(Many(c), t[..j]) && MatchesPrefix(rest, t[j..])
  {
    var p := Pattern([Many(c)] + rest.atoms, rest.toEnd);
    if MatchesPrefix(p, t) {
      var k :| 0 <= k <= |t| && InLanguage(p.atoms, t[..k]) && (p.toEnd ==> k == |t|);
      InLanguageCons(Many(c), rest.atoms, t[..k]);
      var j :| 0 <= j <= k && Denotes(Many(c), t[..k][..j]) && InLanguage(rest.atoms, t[..k][j..]);
      assert t[..k][..j] == t[..j] && t[..k][j..] == t[j..][..k - j];
      assert Denotes(Many(c), t[..j]) && MatchesPrefix(rest, t[j..]);
    }
    if j :| 0 <= j <= |t| && Denotes(Many(c), t[..j]) && MatchesPrefix(rest, t[j..]) {
      var k :| 0 <= k <= |t[j..]| && InLanguage(rest.atoms, t[j..][..k]) && (rest.toEnd ==> k == |t[j..]|);
      var s := t[..j + k];
      assert s[..j] == t[..j] && s[j..] == t[j..][..k];
      assert Denotes(Many(c), s[..j]) && InLanguage(rest.atoms, s[j..]);
      InLanguageCons(Many(c), rest.atoms, s);
    }
  }

  // ----- the matcher -----

  method Match(re: CString, text: CString) returns (found: bool)
    ensures found <==> Matches(re, text)
  {
    if At(re, 0) == '^' {
      found := MatchHere(re[1..], text);
      return;
    }
    var t: CString := text;
    ghost var k := 0;
    while true
      invariant 0 <= k <= |text| && t == text[k..]
      invariant forall i | 0 <= i < k :: !MatchesPrefix(Read(re), text[i..])
      decreases |t|
    {
      found := MatchHere(re, t);
      if found {
        return;
      }
      if At(t, 0) == '\0' {
        return false;
      }
      t, k := t[1..], k + 1;
    }
  }

  /** Search for re at the beginning of text. */
  method MatchHere(re: CString, text: CString) returns (found: bool)
    ensures found <==> MatchesPrefix(Read(re), text)
    decreases |re|, 0
  {
    if At(re, 0) == '\0' {
      MatchesPrefixNil(Read(re), text);
      return true;
    }
    if At(re, 1) == '*' {
      found := MatchStar(re[0], re[2..], text);
      MatchesPrefixMany(re[0], Read(re[2..]), text);
      return;
    }
    if At(re, 0) == '$' && At(re, 1) == '\0' {
      MatchesPrefixNil(Read(re), text);
      return At(text, 0) == '\0';
    }
    MatchesPrefixOne(re[0], Read(re[1..]), text);
    if At(text, 0) != '\0' && (At(re, 0) == '.' || At(re, 0) == At(text, 0)) {
      found := MatchHere(re[1..], text[1..]);
      return;
    }
    return false;
  }

  /** Search for c*re at the beginning of text. */
  method MatchStar(c: char, re: CString, text: CString) returns (found: bool)
    ensures found <==> exists j | 0 <= j <= |text| :: Denotes(Many(c), text[..j]) && MatchesPrefix(Read(re), text[j..])
    decreases |re|, 1
  {
    var t: CString := text;
    ghost var k := 0;
    while true
      invariant 0 <= k <= |text| && t == text[k..]
      invariant Denotes(Many(c), text[..k])
      invariant forall j | 0 <= j < k :: !MatchesPrefix(Read(re), text[j..])
      decreases |t|
    {
      found := MatchHere(re, t);
      if found {
        return;
      }
      if !(At(t, 0) != '\0' && (At(t, 0) == c || c == '.')) {
        assert forall j | k < j <= |text| :: text[..j][k] == text[k];
        return false;
      }
      t, k := t[1..], k + 1;
    }
  }
}
