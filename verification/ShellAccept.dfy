/**
 The parser of sh.c accepts exactly the lines of the grammar, and builds their trees.
 */
module ShellAccept {
  import opened ShellLex
  import opened ShellParse
  import opened ShellGrammar

  function Text(s: string, x: Span): (w: string) {
    if x.q <= x.eq <= |s| then s[x.q..x.eq] else ""
  }

  function Texts(s: string, xs: seq<Span>): (ws: seq<string>)
    ensures |ws| == |xs| && forall k :: 0 <= k < |xs| ==> ws[k] == Text(s, xs[k])
  {
    seq(|xs|, k requires 0 <= k < |xs| => Text(s, xs[k]))
  }

  /** The tree a parsed command stands for in its line. */
  function Erase(s: string, c: Cmd): (a: Ast) {
    match c
    case Exec(argv) => AExec(Texts(s, argv))
    case Redir(d, file, mode, fd) => ARedir(Erase(s, d), Text(s, file), mode != O_RDONLY)
    case Pipe(l, r) => APipe(Erase(s, l), Erase(s, r))
    case List(l, r) => AList(Erase(s, l), Erase(s, r))
    case Back(d) => ABack(Erase(s, d))
  }

  function EraseRedir(s: string, x: Redirection): (r: RedirText) {
    RedirText(Text(s, x.file), x.mode != O_RDONLY)
  }

  function EraseRedirs(s: string, rs: seq<Redirection>): (r: seq<RedirText>)
    ensures |r| == |rs| && forall k :: 0 <= k < |rs| ==> r[k] == EraseRedir(s, rs[k])
  {
    seq(|rs|, k requires 0 <= k < |rs| => EraseRedir(s, rs[k]))
  }

  lemma EraseConcat(s: string, rs: seq<Redirection>, ys: seq<Redirection>)
    ensures EraseRedirs(s, rs + ys) == EraseRedirs(s, rs) + EraseRedirs(s, ys)
  {
  }

  lemma {:induction false} EraseWrap(s: string, c: Cmd, rs: seq<Redirection>)
    ensures Erase(s, Wrap(c, rs)) == WrapAst(Erase(s, c), EraseRedirs(s, rs))
    decreases |rs|
  {
    if rs != [] {
      var front := rs[..|rs| - 1];
      EraseWrap(s, c, front);
      assert EraseRedirs(s, rs)[..|rs| - 1] == EraseRedirs(s, front);
    }
  }

  // ----- tokens at the cursor -----

  lemma {:induction false} Consume(s: string, i: nat, y: Sym, rest: seq<Sym>)
    requires CString(s) && i <= |s| && Lex(s, i) == [y] + rest
    ensures SymOf(s, Gettoken(s, i)) == y && Lex(s, Gettoken(s, i).pos) == rest
    ensures Gettoken(s, i).kind != '\0' && Gettoken(s, i).pos > i
    ensures Gettoken(s, SkipSpace(s, i)) == Gettoken(s, i)
    ensures y.Word? <==> Gettoken(s, i).kind == 'a'
    ensures y.Sp? ==> Gettoken(s, i).kind == y.c
  {
    LexSkip(s, i);
    var t := Gettoken(s, i);
    assert Lex(s, i)[0] == SymOf(s, t) && Lex(s, i)[1..] == Lex(s, t.pos);
    assert ([y] + rest)[1..] == rest;
  }

  lemma {:induction false} PeekSym(s: string, i: nat, c: char)
    requires CString(s) && i <= |s| && IsSymbol(c)
    ensures Peek(s, i, [c]) <==> Starts(Lex(s, i), c)
  {
    PeekIsLex(s, i, [c]);
    assert c in [c];
  }

  lemma {:induction false} AtEnd(s: string, i: nat)
    requires CString(s) && i <= |s| && Lex(s, i) == []
    ensures SkipSpace(s, i) == |s| && Gettoken(s, i).kind == '\0' && Gettoken(s, i).pos == |s|
  {
    assert Gettoken(s, i).q == |s|;
  }

  ghost predicate StartsRedir(ys: seq<Sym>) {
    Starts(ys, '<') || Starts(ys, '>')
  }

  lemma {:induction false} PeekRedir(s: string, i: nat)
    requires CString(s) && i <= |s|
    ensures Peek(s, i, "<>") <==> StartsRedir(Lex(s, i))
  {
    PeekIsLex(s, i, "<>");
    assert "<>" == ['<', '>'];
  }

  lemma {:induction false} RedirsNone(s: string, i: nat)
    requires CString(s) && i <= |s| && !StartsRedir(Lex(s, i))
    ensures ParseRedirs(s, i) == Ok([], SkipSpace(s, i)) && Lex(s, SkipSpace(s, i)) == Lex(s, i)
  {
    PeekRedir(s, i);
    LexSkip(s, i);
  }

  /** What may follow a command of parseexec. */
  ghost predicate FollowExec(rest: seq<Sym>) {
    rest == [] || Starts(rest, '|') || Starts(rest, ')') || Starts(rest, '&') || Starts(rest, ';')
  }

  lemma {:induction false} PeekStop(s: string, i: nat)
    requires CString(s) && i <= |s|
    ensures Peek(s, i, "|)&;") <==> Lex(s, i) != [] && FollowExec(Lex(s, i))
  {
    PeekIsLex(s, i, "|)&;");
    assert "|)&;" == ['|', ')', '&', ';'];
  }

  ghost predicate FollowPipe(rest: seq<Sym>) {
    rest == [] || Starts(rest, ')') || Starts(rest, '&') || Starts(rest, ';')
  }

  ghost predicate FollowLine(rest: seq<Sym>) {
    rest == [] || Starts(rest, ')')
  }

  /** The token sequence starts with the token at the cursor. */
  lemma {:induction false} FirstToken(s: string, i: nat)
    requires CString(s) && i <= |s| && Gettoken(s, i).kind != '\0'
    ensures Lex(s, i) == [SymOf(s, Gettoken(s, i))] + Lex(s, Gettoken(s, i).pos)
    ensures Gettoken(s, SkipSpace(s, i)) == Gettoken(s, i) && Gettoken(s, i).pos > i
  {
    LexSkip(s, i);
  }

  /** A symbol that peek has seen. */
  lemma {:induction false} TakeSym(s: string, i: nat, c: char) returns (p: nat)
    requires CString(s) && i <= |s| && IsSymbol(c) && c != '>' && Peek(s, i, [c])
    ensures p == Gettoken(s, i).pos && i < p <= |s| && Lex(s, i) == [Sp(c)] + Lex(s, p)
  {
    PeekSym(s, i, c);
    FirstToken(s, i);
    p := Gettoken(s, i).pos;
  }

  // ----- what the parser accepts is in the grammar -----

  lemma {:induction false} RedirsSound(s: string, i: nat, rs: seq<Redirection>, p: nat) returns (xs: seq<Sym>)
    requires CString(s) && i <= |s| && ParseRedirs(s, i) == Ok(rs, p)
    ensures Lex(s, i) == xs + Lex(s, p) && Reads(xs, [], EraseRedirs(s, rs))
    decreases |s| - i
  {
    if !Peek(s, i, "<>") {
      LexSkip(s, i);
      xs := [];
    } else {
      var y, w, x, j := RedirTaken(s, i);
      var more := ParseRedirs(s, j);
      var ys := RedirsSound(s, j, more.value, p);
      ReadsRedir(y, w, ys, [], EraseRedirs(s, more.value));
      EraseCons(s, x, more.value);
      xs := [y, Word(w)] + ys;
      TwoMore(y, Word(w), ys, Lex(s, p));
    }
  }

  lemma EraseCons(s: string, x: Redirection, ys: seq<Redirection>)
    ensures EraseRedirs(s, [x] + ys) == [EraseRedir(s, x)] + EraseRedirs(s, ys)
  {
  }

  lemma EraseBack(s: string, x: Redirection, ys: seq<Redirection>, rl: seq<RedirText>)
    requires rl != [] && EraseRedir(s, x) == rl[0] && EraseRedirs(s, ys) == rl[1..]
    ensures EraseRedirs(s, [x] + ys) == rl
  {
  }

  lemma TwoMore(x: Sym, y: Sym, ys: seq<Sym>, rest: seq<Sym>)
    ensures [x] + ([y] + (ys + rest)) == [x, y] + ys + rest
  {
  }

  /** One round of the loop of parseredirs. */
  lemma {:induction false} RedirTaken(s: string, i: nat) returns (y: Sym, w: string, x: Redirection, j: nat)
    requires CString(s) && i <= |s| && Peek(s, i, "<>") && ParseRedirs(s, i).Ok?
    ensures IsRedir(y) && i < j <= |s| && Lex(s, i) == [y] + ([Word(w)] + Lex(s, j))
    ensures EraseRedir(s, x) == RedirText(w, y != Sp('<'))
    ensures ParseRedirs(s, j).Ok? && ParseRedirs(s, i) == Ok([x] + ParseRedirs(s, j).value, ParseRedirs(s, j).pos)
  {
    PeekRedir(s, i);
    FirstToken(s, i);
    var t := Gettoken(s, i);
    FirstToken(s, t.pos);
    var f := Gettoken(s, t.pos);
    y, w, x, j := Sp(t.kind), s[f.q..f.eq], RedirectionOf(t.kind, f), f.pos;
  }

  /** A word and the redirections behind it. */
  lemma {:induction false} ArgTaken(s: string, i: nat, more: seq<Redirection>, p: nat) returns (xs: seq<Sym>)
    requires CString(s) && i <= |s| && Gettoken(s, i).kind == 'a' && ParseRedirs(s, Gettoken(s, i).pos) == Ok(more, p)
    ensures Lex(s, i) == xs + Lex(s, p)
    ensures Reads(xs, [Text(s, Span(Gettoken(s, i).q, Gettoken(s, i).eq))], EraseRedirs(s, more))
  {
    var t := Gettoken(s, i);
    FirstToken(s, i);
    var ys := RedirsSound(s, t.pos, more, p);
    var w := s[t.q..t.eq];
    ReadsWord(w, ys, [], EraseRedirs(s, more));
    assert [w] + [] == [w];
    xs := [Word(w)] + ys;
    Assoc([Word(w)], ys, Lex(s, p));
  }

  /** What the argument loop makes of more words and redirections, from those so far. */
  ghost predicate ArgsRead(s: string, args: seq<Span>, rs: seq<Redirection>, ws: seq<string>, rl: seq<RedirText>,
                           c: Cmd) {
    |args| + |ws| < MAXARGS && Erase(s, c) == WrapAst(AExec(Texts(s, args) + ws), EraseRedirs(s, rs) + rl)
  }

  lemma {:induction false} ArgsReadNone(s: string, args: seq<Span>, rs: seq<Redirection>)
    requires |args| < MAXARGS
    ensures ArgsRead(s, args, rs, [], [], Wrap(Exec(args), rs))
  {
    EraseWrap(s, Exec(args), rs);
    assert Texts(s, args) + [] == Texts(s, args) && EraseRedirs(s, rs) + [] == EraseRedirs(s, rs);
  }

  lemma {:induction false} ArgsReadMore(s: string, args: seq<Span>, rs: seq<Redirection>, x: Span,
                                        more: seq<Redirection>, ws: seq<string>, rl: seq<RedirText>, c: Cmd)
    requires ArgsRead(s, args + [x], rs + more, ws, rl, c)
    ensures ArgsRead(s, args, rs, [Text(s, x)] + ws, EraseRedirs(s, more) + rl, c)
  {
    EraseConcat(s, rs, more);
    assert Texts(s, args + [x]) + ws == Texts(s, args) + ([Text(s, x)] + ws);
    assert EraseRedirs(s, rs) + EraseRedirs(s, more) + rl == EraseRedirs(s, rs) + (EraseRedirs(s, more) + rl);
  }

  lemma {:induction false} ArgsSound(s: string, i: nat, args: seq<Span>, rs: seq<Redirection>, c: Cmd, p: nat)
    returns (xs: seq<Sym>, ws: seq<string>, rl: seq<RedirText>)
    requires CString(s) && i <= |s| && |args| < MAXARGS && ParseArgs(s, i, args, rs) == Ok(c, p)
    ensures Lex(s, i) == xs + Lex(s, p) && Reads(xs, ws, rl) && ArgsRead(s, args, rs, ws, rl, c)
    decreases |s| - i
  {
    LexSkip(s, i);
    var k := SkipSpace(s, i);
    var t := Gettoken(s, k);
    if Peek(s, i, "|)&;") || t.kind == '\0' {
      ArgsReadNone(s, args, rs);
      xs, ws, rl := [], [], [];
    } else {
      var x, more := Span(t.q, t.eq), ParseRedirs(s, t.pos);
      FirstToken(s, k);
      var us := ArgTaken(s, k, more.value, more.pos);
      var ys, vs, sl := ArgsSound(s, more.pos, args + [x], rs + more.value, c, p);
      ReadsConcat(us, [Text(s, x)], EraseRedirs(s, more.value), ys, vs, sl);
      ArgsReadMore(s, args, rs, x, more.value, vs, sl, c);
      Assoc(us, ys, Lex(s, p));
      xs, ws, rl := us + ys, [Text(s, x)] + vs, EraseRedirs(s, more.value) + sl;
    }
  }

  /** A command without parentheses: redirections, then the argument loop. */
  lemma {:induction false} CommandSound(s: string, i: nat, c: Cmd, p: nat) returns (xs: seq<Sym>)
    requires CString(s) && i <= |s| && !Peek(s, i, "(") && ParseExec(s, i) == Ok(c, p)
    ensures Lex(s, i) == xs + Lex(s, p) && IsExec(Erase(s, c), xs) && Bounded(Erase(s, c))
  {
    var rs := ParseRedirs(s, i);
    var us := RedirsSound(s, i, rs.value, rs.pos);
    var vs, ws, rl := ArgsSound(s, rs.pos, [], rs.value, c, p);
    ReadsConcat(us, [], EraseRedirs(s, rs.value), vs, ws, rl);
    assert [] + ws == ws && Texts(s, []) + ws == ws;
    xs := us + vs;
    SimpleRule(xs, ws, EraseRedirs(s, rs.value) + rl);
    WrapBounded(AExec(ws), EraseRedirs(s, rs.value) + rl);
    Assoc(us, vs, Lex(s, p));
  }

  lemma {:induction false} BlockSound(s: string, i: nat, c: Cmd, p: nat) returns (xs: seq<Sym>)
    requires CString(s) && i <= |s| && ParseBlock(s, i) == Ok(c, p)
    ensures Lex(s, i) == xs + Lex(s, p) && IsExec(Erase(s, c), xs) && Bounded(Erase(s, c))
    decreases |s| - i, 0
  {
    var k := TakeSym(s, i, '(');
    var line := ParseLine(s, k);
    var ms := LineSound(s, k, line.value, line.pos);
    var j := TakeSym(s, line.pos, ')');
    var rs := ParseRedirs(s, j);
    var zs := RedirsSound(s, j, rs.value, p);
    BlockBuilt(s, line.value, rs.value, ms, zs);
    xs := [Sp('(')] + ms + [Sp(')')] + zs;
    BlockTokens(ms, zs, Lex(s, p));
  }

  lemma {:induction false} BlockBuilt(s: string, line: Cmd, rs: seq<Redirection>, ms: seq<Sym>, zs: seq<Sym>)
    requires IsLine(Erase(s, line), ms) && Bounded(Erase(s, line)) && Reads(zs, [], EraseRedirs(s, rs))
    ensures IsExec(Erase(s, Wrap(line, rs)), [Sp('(')] + ms + [Sp(')')] + zs) && Bounded(Erase(s, Wrap(line, rs)))
  {
    EraseWrap(s, line, rs);
    WrapBounded(Erase(s, line), EraseRedirs(s, rs));
    BlockRule(Erase(s, line), ms, zs, EraseRedirs(s, rs));
  }

  lemma BlockTokens(mid: seq<Sym>, zs: seq<Sym>, rest: seq<Sym>)
    ensures [Sp('(')] + (mid + ([Sp(')')] + (zs + rest))) == [Sp('(')] + mid + [Sp(')')] + zs + rest
  {
  }

  lemma {:induction false} ExecSound(s: string, i: nat, c: Cmd, p: nat) returns (xs: seq<Sym>)
    requires CString(s) && i <= |s| && ParseExec(s, i) == Ok(c, p)
    ensures Lex(s, i) == xs + Lex(s, p) && IsExec(Erase(s, c), xs) && Bounded(Erase(s, c))
    decreases |s| - i, 1
  {
    if Peek(s, i, "(") {
      LexSkip(s, i);
      xs := BlockSound(s, SkipSpace(s, i), c, p);
    } else {
      xs := CommandSound(s, i, c, p);
    }
  }

  /** Two token sequences with a symbol between them. */
  lemma Joined(xs: seq<Sym>, y: Sym, zs: seq<Sym>, rest: seq<Sym>)
    ensures xs + ([y] + (zs + rest)) == xs + [y] + zs + rest
  {
  }

  lemma {:induction false} PipeSound(s: string, i: nat, c: Cmd, p: nat) returns (xs: seq<Sym>)
    requires CString(s) && i <= |s| && ParsePipe(s, i) == Ok(c, p)
    ensures Lex(s, i) == xs + Lex(s, p) && IsPipe(Erase(s, c), xs) && Bounded(Erase(s, c))
    decreases |s| - i, 2
  {
    var left := ParseExec(s, i);
    xs := ExecSound(s, i, left.value, left.pos);
    LexSkip(s, left.pos);
    if Peek(s, left.pos, "|") {
      var k := TakeSym(s, left.pos, '|');
      var zs := PipeSound(s, k, c.right, p);
      PipeRule(Erase(s, c), xs, zs);
      Joined(xs, Sp('|'), zs, Lex(s, p));
      xs := xs + [Sp('|')] + zs;
    }
  }

  /** The ampersand loop of parseline, behind a pipeline read from us. */
  lemma {:induction false} BacksSound(s: string, c: Cmd, i: nat, us: seq<Sym>, c': Cmd, p: nat) returns (xs: seq<Sym>)
    requires CString(s) && i <= |s| && IsBack(Erase(s, c), us) && Bounded(Erase(s, c)) && ParseBacks(s, c, i) == (c', p)
    ensures us + Lex(s, i) == xs + Lex(s, p) && IsBack(Erase(s, c'), xs) && Bounded(Erase(s, c'))
    decreases |s| - i
  {
    LexSkip(s, i);
    xs := us;
    if Peek(s, i, "&") {
      var k := TakeSym(s, i, '&');
      BackRule(Erase(s, c), us);
      Assoc(us, [Sp('&')], Lex(s, k));
      xs := BacksSound(s, Back(c), k, us + [Sp('&')], c', p);
    }
  }

  /** A pipeline with its ampersands. */
  lemma {:induction false} FirstSound(s: string, i: nat, c: Cmd, p: nat) returns (xs: seq<Sym>)
    requires CString(s) && i <= |s| && ParsePipe(s, i).Ok?
    requires ParseBacks(s, ParsePipe(s, i).value, ParsePipe(s, i).pos) == (c, p)
    ensures Lex(s, i) == xs + Lex(s, p) && IsBack(Erase(s, c), xs) && Bounded(Erase(s, c))
    decreases |s| - i, 3
  {
    var first := ParsePipe(s, i);
    var us := PipeSound(s, i, first.value, first.pos);
    xs := BacksSound(s, first.value, first.pos, us, c, p);
  }

  lemma {:induction false} LineSound(s: string, i: nat, c: Cmd, p: nat) returns (xs: seq<Sym>)
    requires CString(s) && i <= |s| && ParseLine(s, i) == Ok(c, p)
    ensures Lex(s, i) == xs + Lex(s, p) && IsLine(Erase(s, c), xs) && Bounded(Erase(s, c))
    decreases |s| - i, 4
  {
    var first := ParsePipe(s, i);
    var (l, j) := ParseBacks(s, first.value, first.pos);
    xs := FirstSound(s, i, l, j);
    LexSkip(s, j);
    if Peek(s, j, ";") {
      var k := TakeSym(s, j, ';');
      var zs := LineSound(s, k, c.right, p);
      LineRule(Erase(s, c), xs, zs);
      Joined(xs, Sp(';'), zs, Lex(s, p));
      xs := xs + [Sp(';')] + zs;
    }
  }

  // ----- what is in the grammar the parser accepts -----

  /** The redirections that a simple command starts with, and the rest. */
  lemma {:induction false} LeadingRedirs(xs: seq<Sym>, ws: seq<string>, rl: seq<RedirText>)
    returns (us: seq<Sym>, ul: seq<RedirText>, vs: seq<Sym>, vl: seq<RedirText>)
    requires Reads(xs, ws, rl)
    ensures xs == us + vs && rl == ul + vl && Reads(us, [], ul) && Reads(vs, ws, vl) && (vs == [] || vs[0].Word?)
  {
    us, ul, vs, vl := [], [], xs, rl;
    if xs != [] && !xs[0].Word? {
      us, ul, vs, vl := LeadingRedirs(xs[2..], ws, rl[1..]);
      ReadsRedir(xs[0], xs[1].text, us, [], ul);
      assert xs == [xs[0], xs[1]] + us + vs && rl == [rl[0]] + ul + vl;
      us, ul := [xs[0], xs[1]] + us, [rl[0]] + ul;
    }
  }

  /** One round of parseredirs. */
  lemma {:induction false} RedirStep(s: string, i: nat, y: Sym, w: string, tail: seq<Sym>)
    returns (x: Redirection, p: nat)
    requires CString(s) && i <= |s| && Lex(s, i) == [y] + ([Word(w)] + tail) && IsRedir(y)
    ensures i < p <= |s| && Lex(s, p) == tail && EraseRedir(s, x) == RedirText(w, y != Sp('<'))
    ensures ParseRedirs(s, p).Ok? ==> ParseRedirs(s, i) == Ok([x] + ParseRedirs(s, p).value, ParseRedirs(s, p).pos)
  {
    PeekRedir(s, i);
    Consume(s, i, y, [Word(w)] + tail);
    var t := Gettoken(s, i);
    Consume(s, t.pos, Word(w), tail);
    var f := Gettoken(s, t.pos);
    x, p := RedirectionOf(t.kind, f), f.pos;
  }

  /** parseredirs reads exactly the redirections at the cursor. */
  lemma {:induction false} RedirsOk(s: string, i: nat, xs: seq<Sym>, rl: seq<RedirText>, rest: seq<Sym>)
    returns (rs: seq<Redirection>, p: nat)
    requires CString(s) && i <= |s| && Lex(s, i) == xs + rest && Reads(xs, [], rl) && !StartsRedir(rest)
    ensures ParseRedirs(s, i) == Ok(rs, p) && i <= p <= |s| && EraseRedirs(s, rs) == rl && Lex(s, p) == rest
    decreases |xs|
  {
    if xs == [] {
      assert xs + rest == rest;
      RedirsNone(s, i);
      rs, p := [], SkipSpace(s, i);
    } else {
      var tail := xs[2..] + rest;
      TwoMore(xs[0], xs[1], xs[2..], rest);
      assert xs == [xs[0], xs[1]] + xs[2..];
      var x, j := RedirStep(s, i, xs[0], xs[1].text, tail);
      var ys;
      ys, p := RedirsOk(s, j, xs[2..], rl[1..], rest);
      EraseBack(s, x, ys, rl);
      rs := [x] + ys;
    }
  }

  /** The argument loop at its end. */
  lemma {:induction false} ArgsEnd(s: string, i: nat, args: seq<Span>, rs: seq<Redirection>)
    requires CString(s) && i <= |s| && FollowExec(Lex(s, i))
    ensures ParseArgs(s, i, args, rs) == Ok(Wrap(Exec(args), rs), SkipSpace(s, i))
    ensures Lex(s, SkipSpace(s, i)) == Lex(s, i)
  {
    PeekStop(s, i);
    LexSkip(s, i);
    if Lex(s, i) == [] {
      AtEnd(s, i);
    }
  }

  /** One argument. */
  lemma {:induction false} ArgStep(s: string, i: nat, w: string, tail: seq<Sym>, args: seq<Span>, rs: seq<Redirection>)
    returns (x: Span, p: nat)
    requires CString(s) && i <= |s| && Lex(s, i) == [Word(w)] + tail && |args| + 1 < MAXARGS
    ensures i < p <= |s| && Lex(s, p) == tail && Text(s, x) == w
    ensures ParseRedirs(s, p).Ok? ==>
              ParseArgs(s, i, args, rs) == ParseArgs(s, ParseRedirs(s, p).pos, args + [x], rs + ParseRedirs(s, p).value)
  {
    Consume(s, i, Word(w), tail);
    PeekStop(s, i);
    var t := Gettoken(s, i);
    x, p := Span(t.q, t.eq), t.pos;
  }

  lemma NotRedir(vs: seq<Sym>, rest: seq<Sym>)
    requires FollowExec(rest) && (vs == [] || vs[0].Word?)
    ensures !StartsRedir(vs + rest)
  {
  }

  /** The argument loop on the rest of a simple command, from a word on. */
  lemma {:induction false} ArgsOk(s: string, i: nat, xs: seq<Sym>, ws: seq<string>, rl: seq<RedirText>, rest: seq<Sym>,
                                  args: seq<Span>, rs: seq<Redirection>)
      returns (c: Cmd, p: nat)
    requires CString(s) && i <= |s| && FollowExec(rest) && Lex(s, i) == xs + rest
    requires Reads(xs, ws, rl) && (xs == [] || xs[0].Word?) && |args| + |ws| < MAXARGS
    ensures ParseArgs(s, i, args, rs) == Ok(c, p) && i <= p <= |s| && Lex(s, p) == rest
    ensures ArgsRead(s, args, rs, ws, rl, c)
    decreases |xs|
  {
    if xs == [] {
      assert xs + rest == rest;
      ArgsEnd(s, i, args, rs);
      ArgsReadNone(s, args, rs);
      c, p := Wrap(Exec(args), rs), SkipSpace(s, i);
    } else {
      var us, ul, vs, vl := LeadingRedirs(xs[1..], ws[1..], rl);
      WordThen(xs, us, vs, rest);
      var x, j, ys, k := ArgRound(s, i, xs[0].text, us, ul, vs + rest, args, rs, vs, rest);
      c, p := ArgsOk(s, k, vs, ws[1..], vl, rest, args + [x], rs + ys);
      ArgsReadMore(s, args, rs, x, ys, ws[1..], vl, c);
      assert ws == [ws[0]] + ws[1..];
    }
  }

  lemma WordThen(xs: seq<Sym>, us: seq<Sym>, vs: seq<Sym>, rest: seq<Sym>)
    requires xs != [] && xs[1..] == us + vs
    ensures xs + rest == [xs[0]] + (us + (vs + rest)) && |vs| < |xs|
  {
    assert xs == [xs[0]] + (us + vs);
  }

  /** A round of the argument loop: a word and the redirections behind it. */
  lemma {:induction false} ArgRound(s: string, i: nat, w: string, us: seq<Sym>, ul: seq<RedirText>, tail: seq<Sym>,
                                    args: seq<Span>, rs: seq<Redirection>, vs: seq<Sym>, rest: seq<Sym>)
      returns (x: Span, j: nat, ys: seq<Redirection>, k: nat)
    requires CString(s) && i <= |s| && Lex(s, i) == [Word(w)] + (us + tail) && |args| + 1 < MAXARGS
    requires Reads(us, [], ul) && tail == vs + rest && FollowExec(rest) && (vs == [] || vs[0].Word?)
    ensures i < k <= |s| && Lex(s, k) == tail && Text(s, x) == w && EraseRedirs(s, ys) == ul
    ensures ParseArgs(s, i, args, rs) == ParseArgs(s, k, args + [x], rs + ys)
  {
    x, j := ArgStep(s, i, w, us + tail, args, rs);
    NotRedir(vs, rest);
    ys, k := RedirsOk(s, j, us, ul, tail);
  }

  /** parseexec on a simple command. */
  lemma {:induction false} CommandOk(s: string, i: nat, xs: seq<Sym>, ws: seq<string>, rl: seq<RedirText>,
                                     rest: seq<Sym>)
    returns (c: Cmd, p: nat)
    requires CString(s) && i <= |s| && FollowExec(rest) && Lex(s, i) == xs + rest && Reads(xs, ws, rl) && |ws| < MAXARGS
    ensures ParseExec(s, i) == Ok(c, p) && i <= p <= |s| && Lex(s, p) == rest && Erase(s, c) == WrapAst(AExec(ws), rl)
  {
    NoParen(s, i, xs, ws, rl, rest);
    var us, ul, vs, vl := LeadingRedirs(xs, ws, rl);
    NotRedir(vs, rest);
    Assoc(us, vs, rest);
    var ys, k := RedirsOk(s, i, us, ul, vs + rest);
    c, p := ArgsOk(s, k, vs, ws, vl, rest, [], ys);
    assert Texts(s, []) + ws == ws;
  }

  lemma {:induction false} NoParen(s: string, i: nat, xs: seq<Sym>, ws: seq<string>, rl: seq<RedirText>, rest: seq<Sym>)
    requires CString(s) && i <= |s| && FollowExec(rest) && Lex(s, i) == xs + rest && Reads(xs, ws, rl)
    ensures !Peek(s, i, "(")
  {
    PeekSym(s, i, '(');
    if xs != [] {
      assert Lex(s, i)[0] == xs[0];
    } else {
      assert xs + rest == rest;
    }
  }

  /** n ampersands. */
  function Amps(n: nat): (ys: seq<Sym>) {
    if n == 0 then [] else [Sp('&')] + Amps(n - 1)
  }

  /** n-fold backcmd. */
  function Backs(a: Ast, n: nat): (r: Ast)
    decreases n
  {
    if n == 0 then a else Backs(ABack(a), n - 1)
  }

  /** One ampersand. */
  lemma {:induction false} BackStep(s: string, i: nat, c: Cmd, tail: seq<Sym>) returns (k: nat)
    requires CString(s) && i <= |s| && Lex(s, i) == [Sp('&')] + tail
    ensures i < k <= |s| && Lex(s, k) == tail && ParseBacks(s, c, i) == ParseBacks(s, Back(c), k)
  {
    PeekSym(s, i, '&');
    Consume(s, i, Sp('&'), tail);
    k := Gettoken(s, i).pos;
  }

  lemma {:induction false} BacksStop(s: string, i: nat, c: Cmd)
    requires CString(s) && i <= |s| && !Starts(Lex(s, i), '&')
    ensures ParseBacks(s, c, i) == (c, SkipSpace(s, i)) && Lex(s, SkipSpace(s, i)) == Lex(s, i)
  {
    PeekSym(s, i, '&');
    LexSkip(s, i);
  }

  /** The ampersand loop of parseline. */
  lemma {:induction false} BacksOk(s: string, i: nat, c: Cmd, n: nat, rest: seq<Sym>) returns (c': Cmd, p: nat)
    requires CString(s) && i <= |s| && Lex(s, i) == Amps(n) + rest && !Starts(rest, '&')
    ensures ParseBacks(s, c, i) == (c', p) && i <= p <= |s| && Lex(s, p) == rest
    ensures Erase(s, c') == Backs(Erase(s, c), n)
    decreases n
  {
    if n == 0 {
      assert Amps(0) + rest == rest;
      BacksStop(s, i, c);
      c', p := c, SkipSpace(s, i);
    } else {
      var m := n - 1;
      Assoc([Sp('&')], Amps(m), rest);
      var k := BackStep(s, i, c, Amps(m) + rest);
      c', p := BacksOk(s, k, Back(c), m, rest);
      assert Erase(s, Back(c)) == ABack(Erase(s, c));
    }
  }

  /** parsepipe past a bar. */
  lemma {:induction false} PipeJoin(s: string, i: nat, l: Cmd, j: nat, tail: seq<Sym>) returns (k: nat)
    requires CString(s) && i <= j <= |s| && ParseExec(s, i) == Ok(l, j) && Lex(s, j) == [Sp('|')] + tail
    ensures j < k <= |s| && Lex(s, k) == tail
    ensures ParsePipe(s, k).Ok? ==> ParsePipe(s, i) == Ok(Pipe(l, ParsePipe(s, k).value), ParsePipe(s, k).pos)
  {
    PeekSym(s, j, '|');
    Consume(s, j, Sp('|'), tail);
    k := Gettoken(s, j).pos;
  }

  lemma {:induction false} PipeStop(s: string, i: nat, l: Cmd, j: nat)
    requires CString(s) && i <= j <= |s| && ParseExec(s, i) == Ok(l, j) && !Starts(Lex(s, j), '|')
    ensures ParsePipe(s, i) == Ok(l, SkipSpace(s, j)) && Lex(s, SkipSpace(s, j)) == Lex(s, j)
  {
    PeekSym(s, j, '|');
    LexSkip(s, j);
  }

  /** parseline past a semicolon. */
  lemma {:induction false} LineJoin(s: string, i: nat, first: Cmd, j: nat, l: Cmd, p: nat, tail: seq<Sym>)
    returns (k: nat)
    requires CString(s) && i <= j <= p <= |s| && ParsePipe(s, i) == Ok(first, j) && ParseBacks(s, first, j) == (l, p)
    requires Lex(s, p) == [Sp(';')] + tail
    ensures p < k <= |s| && Lex(s, k) == tail
    ensures ParseLine(s, k).Ok? ==> ParseLine(s, i) == Ok(List(l, ParseLine(s, k).value), ParseLine(s, k).pos)
  {
    PeekSym(s, p, ';');
    Consume(s, p, Sp(';'), tail);
    k := Gettoken(s, p).pos;
  }

  lemma {:induction false} LineStop(s: string, i: nat, first: Cmd, j: nat, l: Cmd, p: nat)
    requires CString(s) && i <= j <= p <= |s| && ParsePipe(s, i) == Ok(first, j) && ParseBacks(s, first, j) == (l, p)
    requires !Starts(Lex(s, p), ';')
    ensures ParseLine(s, i) == Ok(l, SkipSpace(s, p)) && Lex(s, SkipSpace(s, p)) == Lex(s, p)
  {
    PeekSym(s, p, ';');
    LexSkip(s, p);
  }

  /** parseexec at an opening parenthesis. */
  lemma {:induction false} BlockOpen(s: string, i: nat, tail: seq<Sym>) returns (k: nat)
    requires CString(s) && i <= |s| && Lex(s, i) == [Sp('(')] + tail
    ensures i < k <= |s| && Lex(s, k) == tail && k == Gettoken(s, SkipSpace(s, i)).pos
    ensures Peek(s, i, "(") && Peek(s, SkipSpace(s, i), "(")
  {
    PeekSym(s, i, '(');
    LexSkip(s, i);
    PeekSym(s, SkipSpace(s, i), '(');
    Consume(s, i, Sp('('), tail);
    k := Gettoken(s, i).pos;
  }

  /** How parseexec and parseblock put a parenthesised line together. */
  lemma {:induction false} BlockParse(s: string, i: nat, k: nat, line: Cmd, j: nat, rs: seq<Redirection>, p: nat)
    requires CString(s) && i < k <= j <= |s|
    requires Peek(s, i, "(") && Peek(s, SkipSpace(s, i), "(") && k == Gettoken(s, SkipSpace(s, i)).pos
    requires ParseLine(s, k) == Ok(line, j) && Peek(s, j, ")") && ParseRedirs(s, Gettoken(s, j).pos) == Ok(rs, p)
    ensures ParseExec(s, i) == Ok(Wrap(line, rs), p)
  {
    assert ParseBlock(s, SkipSpace(s, i)) == Ok(Wrap(line, rs), p);
  }

  lemma NoAmps(rest: seq<Sym>)
    ensures Amps(0) + rest == rest
  {
  }

  lemma {:induction false} AmpsFollow(n: nat, rest: seq<Sym>)
    requires FollowPipe(rest)
    ensures FollowPipe(Amps(n) + rest)
    ensures [Sp('&')] + (Amps(n) + rest) == Amps(n + 1) + rest
  {
    if n == 0 {
      assert Amps(0) + rest == rest;
    }
  }

  /** The closing parenthesis and the redirections behind it. */
  lemma {:induction false} BlockRedirs(s: string, j: nat, zs: seq<Sym>, rl: seq<RedirText>, rest: seq<Sym>)
    returns (rs: seq<Redirection>, p: nat)
    requires CString(s) && j <= |s| && FollowExec(rest) && Reads(zs, [], rl) && Lex(s, j) == [Sp(')')] + (zs + rest)
    ensures Peek(s, j, ")") && ParseRedirs(s, Gettoken(s, j).pos) == Ok(rs, p) && j <= p <= |s|
    ensures Lex(s, p) == rest && EraseRedirs(s, rs) == rl
  {
    PeekSym(s, j, ')');
    Consume(s, j, Sp(')'), zs + rest);
    rs, p := RedirsOk(s, Gettoken(s, j).pos, zs, rl, rest);
  }

  /** parseexec on a parenthesised line with redirections, given that the line parses. */
  lemma {:induction false} BlockEnd(s: string, i: nat, k: nat, line: Cmd, j: nat, zs: seq<Sym>, rl: seq<RedirText>,
                                    rest: seq<Sym>)
      returns (c: Cmd, p: nat)
    requires CString(s) && i < k <= j <= |s| && FollowExec(rest) && Reads(zs, [], rl)
    requires Peek(s, i, "(") && Peek(s, SkipSpace(s, i), "(") && k == Gettoken(s, SkipSpace(s, i)).pos
    requires ParseLine(s, k) == Ok(line, j) && Lex(s, j) == [Sp(')')] + (zs + rest)
    ensures ParseExec(s, i) == Ok(c, p) && i <= p <= |s| && Lex(s, p) == rest
    ensures Erase(s, c) == WrapAst(Erase(s, line), rl)
  {
    var rs;
    rs, p := BlockRedirs(s, j, zs, rl, rest);
    BlockParse(s, i, k, line, j, rs, p);
    EraseWrap(s, line, rs);
    c := Wrap(line, rs);
  }

  /** A block, taken apart. */
  lemma BlockParts(a: Ast, xs: seq<Sym>, b: Ast, k: int, rl: seq<RedirText>, rest: seq<Sym>)
    returns (ms: seq<Sym>, zs: seq<Sym>)
    requires IsBlock(a, xs, b, k, rl) && Bounded(a)
    ensures |ms| < |xs| && IsLine(b, ms) && Bounded(b) && Reads(zs, [], rl)
    ensures xs + rest == [Sp('(')] + (ms + ([Sp(')')] + (zs + rest)))
  {
    ms, zs := xs[1..k], xs[k + 1..];
    WrapBounded(b, rl);
    assert xs == [Sp('(')] + ms + [Sp(')')] + zs;
    BlockTokens(ms, zs, rest);
  }

  /** parseexec reads a command of the grammar and leaves what follows it. */
  lemma {:induction false} ExecOk(s: string, i: nat, a: Ast, xs: seq<Sym>, rest: seq<Sym>) returns (c: Cmd, p: nat)
    requires CString(s) && i <= |s| && Bounded(a) && IsExec(a, xs) && FollowExec(rest) && Lex(s, i) == xs + rest
    ensures ParseExec(s, i) == Ok(c, p) && i <= p <= |s| && Lex(s, p) == rest && Erase(s, c) == a
    decreases |xs|, 0
  {
    if ws, rl :| Reads(xs, ws, rl) && a == WrapAst(AExec(ws), rl) {
      WrapBounded(AExec(ws), rl);
      c, p := CommandOk(s, i, xs, ws, rl, rest);
    } else {
      var b, k, rl :| IsBlock(a, xs, b, k, rl);
      var ms, zs := BlockParts(a, xs, b, k, rl, rest);
      var j := BlockOpen(s, i, ms + ([Sp(')')] + (zs + rest)));
      var line, q := LineOk(s, j, b, ms, [Sp(')')] + (zs + rest));
      c, p := BlockEnd(s, i, j, line, q, zs, rl, rest);
    }
  }

  /** The tokens before and after position k. */
  lemma SplitAt(xs: seq<Sym>, k: int, y: Sym, rest: seq<Sym>) returns (us: seq<Sym>, zs: seq<Sym>)
    requires 0 <= k < |xs| && xs[k] == y
    ensures us == xs[..k] && zs == xs[k + 1..] && |us| < |xs| && |zs| < |xs|
    ensures xs + rest == us + ([y] + (zs + rest)) && ([y] + (zs + rest))[0] == y
  {
    us, zs := xs[..k], xs[k + 1..];
  }

  /** The same for pipelines. */
  lemma {:induction false} PipeOk(s: string, i: nat, a: Ast, xs: seq<Sym>, rest: seq<Sym>) returns (c: Cmd, p: nat)
    requires CString(s) && i <= |s| && Bounded(a) && IsPipe(a, xs) && FollowPipe(rest) && Lex(s, i) == xs + rest
    ensures ParsePipe(s, i) == Ok(c, p) && i <= p <= |s| && Lex(s, p) == rest && Erase(s, c) == a
    decreases |xs|, 1
  {
    var j;
    if IsExec(a, xs) {
      c, j := ExecOk(s, i, a, xs, rest);
      PipeStop(s, i, c, j);
      p := SkipSpace(s, j);
    } else {
      var k :| BarAt(a, xs, k);
      var us, zs := SplitAt(xs, k, Sp('|'), rest);
      var l;
      l, j := ExecOk(s, i, a.left, us, [Sp('|')] + (zs + rest));
      var q := PipeJoin(s, i, l, j, zs + rest);
      var r;
      r, p := PipeOk(s, q, a.right, zs, rest);
      ErasePipe(s, l, r, a);
      c := Pipe(l, r);
    }
  }

  lemma LastAmp(xs: seq<Sym>, ys: seq<Sym>, rest: seq<Sym>)
    requires xs != [] && ys == xs[..|xs| - 1] && xs[|xs| - 1] == Sp('&')
    ensures xs + rest == ys + ([Sp('&')] + rest)
  {
  }

  /** The same for a pipeline and its ampersands, with n more of them. */
  lemma {:induction false} BackOk(s: string, i: nat, a: Ast, xs: seq<Sym>, n: nat, rest: seq<Sym>)
    returns (first: Cmd, j: nat, c: Cmd, p: nat)
    requires CString(s) && i <= |s| && Bounded(a) && IsBack(a, xs) && FollowPipe(rest) && !Starts(rest, '&')
    requires Lex(s, i) == xs + (Amps(n) + rest)
    ensures ParsePipe(s, i) == Ok(first, j) && i <= j <= |s| && ParseBacks(s, first, j) == (c, p)
    ensures j <= p <= |s| && Lex(s, p) == rest && Erase(s, c) == Backs(a, n)
    decreases |xs|, 2
  {
    AmpsFollow(n, rest);
    if IsPipe(a, xs) {
      first, j := PipeOk(s, i, a, xs, Amps(n) + rest);
      c, p := BacksOk(s, j, first, n, rest);
    } else {
      var ys := xs[..|xs| - 1];
      LastAmp(xs, ys, Amps(n) + rest);
      first, j, c, p := BackOk(s, i, a.cmd, ys, n + 1, rest);
    }
  }

  /** The same for the last command of a line. */
  lemma {:induction false} LastOk(s: string, i: nat, a: Ast, xs: seq<Sym>, rest: seq<Sym>) returns (c: Cmd, p: nat)
    requires CString(s) && i <= |s| && Bounded(a) && IsBack(a, xs) && FollowLine(rest) && Lex(s, i) == xs + rest
    ensures ParseLine(s, i) == Ok(c, p) && i <= p <= |s| && Lex(s, p) == rest && Erase(s, c) == a
    decreases |xs|, 3
  {
    NoAmps(rest);
    var first, j, q;
    first, j, c, q := BackOk(s, i, a, xs, 0, rest);
    LineStop(s, i, first, j, c, q);
    p := SkipSpace(s, q);
  }

  /** The same for a command before a semicolon. */
  lemma {:induction false} SemiOk(s: string, i: nat, a: Ast, xs: seq<Sym>, tail: seq<Sym>) returns (l: Cmd, k: nat)
    requires CString(s) && i <= |s| && Bounded(a) && IsBack(a, xs) && Lex(s, i) == xs + ([Sp(';')] + tail)
    ensures i < k <= |s| && Lex(s, k) == tail && Erase(s, l) == a
    ensures ParseLine(s, k).Ok? ==> ParseLine(s, i) == Ok(List(l, ParseLine(s, k).value), ParseLine(s, k).pos)
    decreases |xs|, 3
  {
    NoAmps([Sp(';')] + tail);
    var first, j, q;
    first, j, l, q := BackOk(s, i, a, xs, 0, [Sp(';')] + tail);
    k := LineJoin(s, i, first, j, l, q, tail);
  }

  /** The same for lines. */
  lemma {:induction false} LineOk(s: string, i: nat, a: Ast, xs: seq<Sym>, rest: seq<Sym>) returns (c: Cmd, p: nat)
    requires CString(s) && i <= |s| && Bounded(a) && IsLine(a, xs) && FollowLine(rest) && Lex(s, i) == xs + rest
    ensures ParseLine(s, i) == Ok(c, p) && i <= p <= |s| && Lex(s, p) == rest && Erase(s, c) == a
    decreases |xs|, 4
  {
    if IsBack(a, xs) {
      c, p := LastOk(s, i, a, xs, rest);
    } else {
      var k :| SemiAt(a, xs, k);
      var us, zs := SplitAt(xs, k, Sp(';'), rest);
      var l, q := SemiOk(s, i, a.left, us, zs + rest);
      var r;
      r, p := LineOk(s, q, a.right, zs, rest);
      EraseList(s, l, r, a);
      c := List(l, r);
    }
  }

  lemma EraseList(s: string, l: Cmd, r: Cmd, a: Ast)
    requires a.AList? && Erase(s, l) == a.left && Erase(s, r) == a.right
    ensures Erase(s, List(l, r)) == a
  {
  }

  lemma ErasePipe(s: string, l: Cmd, r: Cmd, a: Ast)
    requires a.APipe? && Erase(s, l) == a.left && Erase(s, r) == a.right
    ensures Erase(s, Pipe(l, r)) == a
  {
  }

  // ----- the parser and the grammar agree -----

  /** Soundness: an accepted line is a line of the grammar, all of it, and the tree built is its reading. */
  lemma {:induction false} Sound(s: string)
    requires CString(s) && ParseCmd(s).Ok?
    ensures Reading(Erase(s, ParseCmd(s).value), Lex(s, 0))
  {
    var line := ParseLine(s, 0);
    var xs := LineSound(s, 0, line.value, line.pos);
    LexSkip(s, line.pos);
    assert xs + [] == xs;
  }

  /** Completeness: every line of the grammar, within the argument bound, is accepted, with that reading. */
  lemma {:induction false} Complete(s: string, a: Ast)
    requires CString(s) && Reading(a, Lex(s, 0))
    ensures ParseCmd(s).Ok? && Erase(s, ParseCmd(s).value) == a
  {
    var xs := Lex(s, 0);
    assert xs + [] == xs;
    var c, p := LineOk(s, 0, a, xs, []);
    AtEnd(s, p);
  }

  /** The parser accepts exactly the lines that have a reading within the argument bound; there is only one. */
  lemma Accepts(s: string, ys: seq<Sym>)
    requires CString(s) && ys == Lex(s, 0)
    ensures ParseCmd(s).Ok? <==> exists a :: Reading(a, ys)
    ensures forall a, b :: Reading(a, ys) && Reading(b, ys) ==> a == b
  {
    if ParseCmd(s).Ok? {
      Sound(s);
      assert Reading(Erase(s, ParseCmd(s).value), ys);
    }
    if a :| Reading(a, ys) {
      Complete(s, a);
    }
    forall a, b | Reading(a, ys) && Reading(b, ys)
      ensures a == b
    {
      Complete(s, a);
      Complete(s, b);
    }
  }
}
