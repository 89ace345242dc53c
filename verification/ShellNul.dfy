/**
 What the parser guarantees about the positions in a parsed tree, and the pass of
 sh.c that turns every counted string of a tree into a C string inside the input
 buffer.
 */
module ShellNul {
  import opened ShellLex
  import opened ShellParse
  import opened ShellGrammar
  import opened ShellAccept
  import opened ShellPrint

  /** x is a whole word of the line: not empty, all word characters, and not extendable. */
  ghost predicate IsToken(s: string, x: Span) {
    && x.q < x.eq <= |s|
    && (forall k :: x.q <= k < x.eq ==> IsWordChar(s[k]))
    && (x.eq < |s| ==> !IsWordChar(s[x.eq]))
  }

  ghost predicate AllTokens(s: string, xs: seq<Span>) {
    forall k :: 0 <= k < |xs| ==> IsToken(s, xs[k])
  }

  /** Input comes to descriptor 0 read-only, output from descriptor 1, write-only and created. */
  predicate Directed(mode: int, fd: int) {
    (mode == O_RDONLY && fd == 0) || (mode == O_WRONLY + O_CREATE && fd == 1)
  }

  /** Every argument and file of the tree is a word of the line, and argv has room for its terminator. */
  ghost predicate Tokens(s: string, c: Cmd) {
    match c
    case Exec(argv) => |argv| < MAXARGS && AllTokens(s, argv)
    case Redir(d, file, mode, fd) => Tokens(s, d) && IsToken(s, file) && Directed(mode, fd)
    case Pipe(l, r) => Tokens(s, l) && Tokens(s, r)
    case List(l, r) => Tokens(s, l) && Tokens(s, r)
    case Back(d) => Tokens(s, d)
  }

  ghost predicate RedirTokens(s: string, rs: seq<Redirection>) {
    forall k :: 0 <= k < |rs| ==> IsToken(s, rs[k].file) && Directed(rs[k].mode, rs[k].fd)
  }

  // ----- the parser only builds such trees -----

  lemma {:induction false} GettokenToken(s: string, i: nat)
    requires CString(s) && i <= |s| && Gettoken(s, i).kind == 'a'
    ensures IsToken(s, Span(Gettoken(s, i).q, Gettoken(s, i).eq))
  {
  }

  lemma {:induction false} WrapTokens(s: string, c: Cmd, rs: seq<Redirection>)
    requires Tokens(s, c) && RedirTokens(s, rs)
    ensures Tokens(s, Wrap(c, rs))
    decreases |rs|
  {
    if rs != [] {
      WrapTokens(s, c, rs[..|rs| - 1]);
    }
  }

  lemma {:induction false} RedirsTokens(s: string, i: nat)
    requires CString(s) && i <= |s| && ParseRedirs(s, i).Ok?
    ensures RedirTokens(s, ParseRedirs(s, i).value)
    decreases |s| - i
  {
    if Peek(s, i, "<>") {
      var t := Gettoken(s, SkipSpace(s, i));
      var f := Gettoken(s, t.pos);
      GettokenToken(s, t.pos);
      RedirsTokens(s, f.pos);
    }
  }

  lemma {:induction false} ArgsTokens(s: string, i: nat, args: seq<Span>, rs: seq<Redirection>)
    requires CString(s) && i <= |s| && ParseArgs(s, i, args, rs).Ok?
    requires |args| < MAXARGS && AllTokens(s, args) && RedirTokens(s, rs)
    ensures Tokens(s, ParseArgs(s, i, args, rs).value)
    decreases |s| - i
  {
    var p := SkipSpace(s, i);
    var t := Gettoken(s, p);
    if Peek(s, i, "|)&;") || t.kind == '\0' {
      WrapTokens(s, Exec(args), rs);
    } else {
      GettokenToken(s, p);
      RedirsTokens(s, t.pos);
      var more := ParseRedirs(s, t.pos);
      ArgsTokens(s, more.pos, args + [Span(t.q, t.eq)], rs + more.value);
    }
  }

  lemma {:induction false} ExecTokens(s: string, i: nat)
    requires CString(s) && i <= |s| && ParseExec(s, i).Ok?
    ensures Tokens(s, ParseExec(s, i).value)
    decreases |s| - i, 1
  {
    if Peek(s, i, "(") {
      BlockTokens(s, SkipSpace(s, i));
    } else {
      RedirsTokens(s, i);
      ArgsTokens(s, ParseRedirs(s, i).pos, [], ParseRedirs(s, i).value);
    }
  }

  lemma {:induction false} BlockTokens(s: string, i: nat)
    requires CString(s) && i <= |s| && ParseBlock(s, i).Ok?
    ensures Tokens(s, ParseBlock(s, i).value)
    decreases |s| - i, 0
  {
    var line := ParseLine(s, Gettoken(s, i).pos);
    var p := Gettoken(s, line.pos).pos;
    LineTokens(s, Gettoken(s, i).pos);
    RedirsTokens(s, p);
    WrapTokens(s, line.value, ParseRedirs(s, p).value);
  }

  lemma {:induction false} PipeTokens(s: string, i: nat)
    requires CString(s) && i <= |s| && ParsePipe(s, i).Ok?
    ensures Tokens(s, ParsePipe(s, i).value)
    decreases |s| - i, 2
  {
    ExecTokens(s, i);
    var left := ParseExec(s, i);
    if Peek(s, left.pos, "|") {
      PipeTokens(s, Gettoken(s, left.pos).pos);
    }
  }

  lemma {:induction false} BacksTokens(s: string, c: Cmd, i: nat)
    requires CString(s) && i <= |s| && Tokens(s, c)
    ensures Tokens(s, ParseBacks(s, c, i).0)
    decreases |s| - i
  {
    if Peek(s, i, "&") {
      BacksTokens(s, Back(c), Gettoken(s, i).pos);
    }
  }

  lemma {:induction false} LineTokens(s: string, i: nat)
    requires CString(s) && i <= |s| && ParseLine(s, i).Ok?
    ensures Tokens(s, ParseLine(s, i).value)
    decreases |s| - i, 3
  {
    PipeTokens(s, i);
    var first := ParsePipe(s, i);
    BacksTokens(s, first.value, first.pos);
    var (c, p) := ParseBacks(s, first.value, first.pos);
    if Peek(s, p, ";") {
      LineTokens(s, Gettoken(s, p).pos);
    }
  }

  /** Trees of the parser are legal, so what one parse yields survives printing and parsing again. */
  lemma {:induction false} TokensLegal(s: string, c: Cmd)
    requires Tokens(s, c)
    ensures Legal(Erase(s, c))
  {
    match c
    case Exec(argv) =>
      forall k | 0 <= k < |argv|
        ensures IsWord(Texts(s, argv)[k])
      {
        assert IsToken(s, argv[k]);
      }
    case Redir(d, _, _, _) => TokensLegal(s, d);
    case Pipe(l, r) => TokensLegal(s, l); TokensLegal(s, r);
    case List(l, r) => TokensLegal(s, l); TokensLegal(s, r);
    case Back(d) => TokensLegal(s, d);
  }

  /** Printing and parsing again is the identity on everything the parser accepts. */
  lemma {:induction false} Reparse(s: string)
    requires CString(s) && ParseCmd(s).Ok?
    ensures var a := Erase(s, ParseCmd(s).value);
            && Legal(a) && CString(Print(a))
            && ParseCmd(Print(a)).Ok? && Erase(Print(a), ParseCmd(Print(a)).value) == a
  {
    LineTokens(s, 0);
    TokensLegal(s, ParseCmd(s).value);
    RoundTrip(Erase(s, ParseCmd(s).value));
  }

  // ----- nulterminate -----

  /** The counted strings of a tree, in the order nulterminate visits them. */
  ghost function Spans(c: Cmd): (xs: seq<Span>) {
    match c
    case Exec(argv) => argv
    case Redir(d, file, _, _) => Spans(d) + [file]
    case Pipe(l, r) => Spans(l) + Spans(r)
    case List(l, r) => Spans(l) + Spans(r)
    case Back(d) => Spans(d)
  }

  lemma {:induction false} SpansTokens(s: string, c: Cmd)
    requires Tokens(s, c)
    ensures AllTokens(s, Spans(c))
  {
    match c
    case Exec(argv) =>
    case Redir(d, _, _, _) => SpansTokens(s, d);
    case Pipe(l, r) => SpansTokens(s, l); SpansTokens(s, r);
    case List(l, r) => SpansTokens(s, l); SpansTokens(s, r);
    case Back(d) => SpansTokens(s, d);
  }

  ghost predicate EndOf(k: int, xs: seq<Span>) {
    exists j :: 0 <= j < |xs| && xs[j].eq == k
  }

  /** b is a with NUL written at the ends of xs and nowhere else. */
  ghost predicate Nulled(a: seq<char>, b: seq<char>, xs: seq<Span>) {
    && |b| == |a|
    && (forall k :: 0 <= k < |a| && EndOf(k, xs) ==> b[k] == '\0')
    && (forall k :: 0 <= k < |a| && !EndOf(k, xs) ==> b[k] == a[k])
  }

  lemma NulledSeq(a: seq<char>, b: seq<char>, c: seq<char>, xs: seq<Span>, ys: seq<Span>)
    requires Nulled(a, b, xs) && Nulled(b, c, ys)
    ensures Nulled(a, c, xs + ys)
  {
    forall k | 0 <= k < |a|
      ensures EndOf(k, xs + ys) <==> EndOf(k, xs) || EndOf(k, ys)
    {
      if EndOf(k, xs) {
        var j :| 0 <= j < |xs| && xs[j].eq == k;
        assert (xs + ys)[j].eq == k;
      }
      if EndOf(k, ys) {
        var j :| 0 <= j < |ys| && ys[j].eq == k;
        assert (xs + ys)[|xs| + j].eq == k;
      }
    }
  }

  lemma NulledOne(a: seq<char>, x: Span)
    requires x.eq < |a|
    ensures Nulled(a, a[x.eq := '\0'], [x])
  {
    assert [x][0].eq == x.eq;
  }

  lemma NulledNone(a: seq<char>)
    ensures Nulled(a, a, [])
  {
  }

  ghost predicate EndsBefore(xs: seq<Span>, n: nat) {
    forall j :: 0 <= j < |xs| ==> xs[j].eq < n
  }

  /** nulterminate, in place on the line and its terminator. */
  method NulTerminate(c: Cmd, buf: array<char>)
    requires EndsBefore(Spans(c), buf.Length)
    modifies buf
    ensures Nulled(old(buf[..]), buf[..], Spans(c))
    decreases c, 1
  {
    ghost var before := buf[..];
    match c
    case Exec(argv) =>
      NulledNone(before);
      assert argv[..0] == [];
      var i := 0;
      while i < |argv|
        invariant i <= |argv| && Nulled(before, buf[..], argv[..i])
      {
        assert Spans(c)[i].eq < buf.Length;
        ghost var was := buf[..];
        buf[argv[i].eq] := '\0';
        NulledOne(was, argv[i]);
        assert buf[..] == was[argv[i].eq := '\0'];
        NulledSeq(before, was, buf[..], argv[..i], [argv[i]]);
        assert argv[..i + 1] == argv[..i] + [argv[i]];
        i := i + 1;
      }
      assert argv[..i] == argv;
    case Redir(d, file, _, _) =>
      assert Spans(c) == Spans(d) + [file];
      FirstSpans(Spans(d), [file], buf.Length);
      NulTerminate(d, buf);
      ghost var was := buf[..];
      assert [file][0].eq < buf.Length;
      buf[file.eq] := '\0';
      NulledOne(was, file);
      assert buf[..] == was[file.eq := '\0'];
      NulledSeq(before, was, buf[..], Spans(d), [file]);
    case Pipe(l, r) => NulBoth(l, r, buf, c);
    case List(l, r) => NulBoth(l, r, buf, c);
    case Back(d) => NulTerminate(d, buf);
  }

  /** The two recursive calls of a pipe or a list. */
  method NulBoth(l: Cmd, r: Cmd, buf: array<char>, ghost c: Cmd)
    requires EndsBefore(Spans(l) + Spans(r), buf.Length) && l < c && r < c
    modifies buf
    ensures Nulled(old(buf[..]), buf[..], Spans(l) + Spans(r))
    decreases c, 0
  {
    ghost var before := buf[..];
    FirstSpans(Spans(l), Spans(r), buf.Length);
    NulTerminate(l, buf);
    ghost var was := buf[..];
    NulTerminate(r, buf);
    NulledSeq(before, was, buf[..], Spans(l), Spans(r));
  }

  lemma FirstSpans(xs: seq<Span>, ys: seq<Span>, n: nat)
    requires EndsBefore(xs + ys, n)
    ensures EndsBefore(xs, n) && EndsBefore(ys, n)
  {
    forall j | 0 <= j < |xs|
      ensures xs[j].eq < n
    {
      assert (xs + ys)[j].eq < n;
    }
    forall j | 0 <= j < |ys|
      ensures ys[j].eq < n
    {
      assert (xs + ys)[|xs| + j].eq < n;
    }
  }

  /** The C string at position q of a buffer: up to the first NUL. */
  ghost function CText(b: seq<char>, q: nat): (w: string)
    requires q <= |b|
    decreases |b| - q
  {
    if q == |b| || b[q] == '\0' then "" else [b[q]] + CText(b, q + 1)
  }

  lemma {:induction false} CTextIs(b: seq<char>, q: nat, e: nat)
    requires q <= e < |b| && b[e] == '\0' && forall k :: q <= k < e ==> b[k] != '\0'
    ensures CText(b, q) == b[q..e]
    decreases e - q
  {
    if q < e {
      CTextIs(b, q + 1, e);
      assert b[q..e] == [b[q]] + b[q + 1..e];
    }
  }

  /** No word of the line loses a byte: the ends of tokens are never word characters. */
  lemma {:induction false} EndsOutsideWords(s: string, xs: seq<Span>, k: nat)
    requires AllTokens(s, xs) && EndOf(k, xs)
    ensures k <= |s| && (k < |s| ==> !IsWordChar(s[k]))
  {
    var j :| 0 <= j < |xs| && xs[j].eq == k;
    assert IsToken(s, xs[j]);
  }

  /** After the pass, the C string at the start of a token is the text lexed for it. */
  lemma {:induction false} Isolated(s: string, a: seq<char>, b: seq<char>, xs: seq<Span>, j: nat)
    requires CString(s) && AllTokens(s, xs) && s <= a && |s| < |a| && Nulled(a, b, xs) && j < |xs|
    ensures xs[j].q < |b| && CText(b, xs[j].q) == Text(s, xs[j])
  {
    var x := xs[j];
    assert IsToken(s, x);
    assert EndOf(x.eq, xs);
    forall k | x.q <= k < x.eq
      ensures b[k] == s[k] && b[k] != '\0'
    {
      if EndOf(k, xs) {
        EndsOutsideWords(s, xs, k);
      }
    }
    CTextIs(b, x.q, x.eq);
    assert b[x.q..x.eq] == s[x.q..x.eq];
  }

  // ----- the tree as runcmd sees it -----

  ghost function CTextAt(b: seq<char>, q: nat): (w: string) {
    if q <= |b| then CText(b, q) else ""
  }

  /** The tree with its words read as C strings from the buffer. */
  ghost function CErase(b: seq<char>, c: Cmd): (a: Ast) {
    match c
    case Exec(argv) => AExec(seq(|argv|, k requires 0 <= k < |argv| => CTextAt(b, argv[k].q)))
    case Redir(d, file, mode, fd) => ARedir(CErase(b, d), CTextAt(b, file.q), mode != O_RDONLY)
    case Pipe(l, r) => APipe(CErase(b, l), CErase(b, r))
    case List(l, r) => AList(CErase(b, l), CErase(b, r))
    case Back(d) => ABack(CErase(b, d))
  }

  ghost predicate AllIsolated(s: string, b: seq<char>, xs: seq<Span>) {
    forall j :: 0 <= j < |xs| ==> CTextAt(b, xs[j].q) == Text(s, xs[j])
  }

  lemma FirstIsolated(s: string, b: seq<char>, xs: seq<Span>, ys: seq<Span>)
    requires AllIsolated(s, b, xs + ys)
    ensures AllIsolated(s, b, xs) && AllIsolated(s, b, ys)
  {
    forall j | 0 <= j < |xs|
      ensures CTextAt(b, xs[j].q) == Text(s, xs[j])
    {
      assert (xs + ys)[j] == xs[j];
    }
    forall j | 0 <= j < |ys|
      ensures CTextAt(b, ys[j].q) == Text(s, ys[j])
    {
      assert (xs + ys)[|xs| + j] == ys[j];
    }
  }

  /** Once every counted string is a C string, the buffer shows the tree that was parsed. */
  lemma {:induction false} SameTree(s: string, b: seq<char>, c: Cmd)
    requires AllIsolated(s, b, Spans(c))
    ensures CErase(b, c) == Erase(s, c)
  {
    match c
    case Exec(argv) => assert CErase(b, c).args == Texts(s, argv);
    case Redir(d, file, _, _) =>
      FirstIsolated(s, b, Spans(d), [file]);
      SameTree(s, b, d);
      assert CTextAt(b, [file][0].q) == Text(s, [file][0]);
    case Pipe(l, r) =>
      FirstIsolated(s, b, Spans(l), Spans(r));
      SameTree(s, b, l);
      SameTree(s, b, r);
    case List(l, r) =>
      FirstIsolated(s, b, Spans(l), Spans(r));
      SameTree(s, b, l);
      SameTree(s, b, r);
    case Back(d) => SameTree(s, b, d);
  }
}
