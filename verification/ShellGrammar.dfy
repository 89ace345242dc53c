/**
 The command language of sh.c as a grammar over tokens, apart from any parser: which
 token sequences a command tree stands for.  Redundant parentheses are allowed, words
 and redirections of a simple command mix freely, and > and >> mean the same.
 */
module ShellGrammar {
  import opened ShellLex
  import opened ShellParse

  /** A command tree with the text of its words instead of positions. */
  datatype Ast =
    | AExec(args: seq<string>)
    | ARedir(cmd: Ast, file: string, out: bool)
    | APipe(left: Ast, right: Ast)
    | AList(left: Ast, right: Ast)
    | ABack(cmd: Ast)

  /** A redirection by text. */
  datatype RedirText = RedirText(file: string, out: bool)

  /** Redirections around a tree. */
  function WrapAst(a: Ast, rl: seq<RedirText>): (r: Ast)
    decreases |rl|
  {
    if rl == [] then a
    else
      var x := rl[|rl| - 1];
      ARedir(WrapAst(a, rl[..|rl| - 1]), x.file, x.out)
  }

  /** Fewer than MAXARGS arguments in every simple command. */
  ghost predicate Bounded(a: Ast) {
    match a
    case AExec(args) => |args| < MAXARGS
    case ARedir(c, _, _) => Bounded(c)
    case APipe(l, r) => Bounded(l) && Bounded(r)
    case AList(l, r) => Bounded(l) && Bounded(r)
    case ABack(c) => Bounded(c)
  }

  // ----- simple commands -----

  predicate IsRedir(y: Sym) {
    y == Sp('<') || y == Sp('>') || y == Sp('+')
  }

  /**
   Words, which become the arguments ws, and redirection symbols with a word after each,
   which become the redirections rl; only < is an input.
   */
  ghost predicate Reads(ys: seq<Sym>, ws: seq<string>, rl: seq<RedirText>) {
    if ys == [] then ws == [] && rl == []
    else if ys[0].Word? then ws != [] && ws[0] == ys[0].text && Reads(ys[1..], ws[1..], rl)
    else
      && IsRedir(ys[0]) && |ys| >= 2 && ys[1].Word?
      && rl != [] && rl[0] == RedirText(ys[1].text, ys[0] != Sp('<')) && Reads(ys[2..], ws, rl[1..])
  }

  // ----- the grammar -----

  /** A simple command, or a line in parentheses with redirections behind it. */
  ghost predicate IsExec(a: Ast, ys: seq<Sym>)
    decreases |ys|, 0
  {
    || (exists ws, rl :: Reads(ys, ws, rl) && a == WrapAst(AExec(ws), rl))
    || (exists b, k, rl :: IsBlock(a, ys, b, k, rl))
  }

  /** Tree b between the parentheses at 0 and k, redirections from k on. */
  ghost predicate IsBlock(a: Ast, ys: seq<Sym>, b: Ast, k: int, rl: seq<RedirText>)
    decreases |ys|, 0, 0
  {
    && 0 < k < |ys| && ys[0] == Sp('(') && ys[k] == Sp(')')
    && IsLine(b, ys[1..k]) && Reads(ys[k + 1..], [], rl) && a == WrapAst(b, rl)
  }

  /** Commands joined by bars, to the right. */
  ghost predicate IsPipe(a: Ast, ys: seq<Sym>)
    decreases |ys|, 1
  {
    IsExec(a, ys) || (a.APipe? && exists k :: BarAt(a, ys, k))
  }

  ghost predicate BarAt(a: Ast, ys: seq<Sym>, k: int)
    requires a.APipe?
    decreases |ys|, 1, 0
  {
    0 <= k < |ys| && ys[k] == Sp('|') && IsExec(a.left, ys[..k]) && IsPipe(a.right, ys[k + 1..])
  }

  /** A pipeline with any number of ampersands behind it. */
  ghost predicate IsBack(a: Ast, ys: seq<Sym>)
    decreases |ys|, 2
  {
    || IsPipe(a, ys)
    || (a.ABack? && ys != [] && ys[|ys| - 1] == Sp('&') && IsBack(a.cmd, ys[..|ys| - 1]))
  }

  /** Such pipelines with semicolons between them, to the right. */
  ghost predicate IsLine(a: Ast, ys: seq<Sym>)
    decreases |ys|, 3
  {
    IsBack(a, ys) || (a.AList? && exists k :: SemiAt(a, ys, k))
  }

  ghost predicate SemiAt(a: Ast, ys: seq<Sym>, k: int)
    requires a.AList?
    decreases |ys|, 3, 0
  {
    0 <= k < |ys| && ys[k] == Sp(';') && IsBack(a.left, ys[..k]) && IsLine(a.right, ys[k + 1..])
  }

  /** The tree a is a reading of the whole token sequence. */
  ghost predicate Derives(a: Ast, ys: seq<Sym>) {
    IsLine(a, ys)
  }

  /** A reading that the shell has room for. */
  ghost predicate Reading(a: Ast, ys: seq<Sym>) {
    Derives(a, ys) && Bounded(a)
  }

  // ----- sequences -----

  lemma Assoc(a: seq<Sym>, b: seq<Sym>, c: seq<Sym>)
    ensures a + b + c == a + (b + c)
  {
  }

  /** A word in front. */
  lemma ReadsWord(w: string, ys: seq<Sym>, ws: seq<string>, rl: seq<RedirText>)
    requires Reads(ys, ws, rl)
    ensures Reads([Word(w)] + ys, [w] + ws, rl)
  {
    assert ([Word(w)] + ys)[1..] == ys && ([w] + ws)[1..] == ws;
  }

  /** A redirection in front. */
  lemma ReadsRedir(y: Sym, w: string, ys: seq<Sym>, ws: seq<string>, rl: seq<RedirText>)
    requires IsRedir(y) && Reads(ys, ws, rl)
    ensures Reads([y, Word(w)] + ys, ws, [RedirText(w, y != Sp('<'))] + rl)
  {
    var zs, tl := [y, Word(w)] + ys, [RedirText(w, y != Sp('<'))] + rl;
    assert zs[2..] == ys && tl[1..] == rl;
  }

  lemma ConcatWord(xs: seq<Sym>, ws: seq<string>, ys: seq<Sym>, vs: seq<string>, tl: seq<RedirText>)
    requires xs != [] && ws != [] && xs[0] == Word(ws[0]) && Reads(xs[1..] + ys, ws[1..] + vs, tl)
    ensures Reads(xs + ys, ws + vs, tl)
  {
    assert (xs + ys)[1..] == xs[1..] + ys && (ws + vs)[1..] == ws[1..] + vs;
  }

  lemma ConcatRedir(xs: seq<Sym>, rl: seq<RedirText>, ys: seq<Sym>, sl: seq<RedirText>, us: seq<string>)
    requires |xs| >= 2 && IsRedir(xs[0]) && xs[1].Word? && rl != [] && rl[0] == RedirText(xs[1].text, xs[0] != Sp('<'))
    requires Reads(xs[2..] + ys, us, rl[1..] + sl)
    ensures Reads(xs + ys, us, rl + sl)
  {
    assert (xs + ys)[2..] == xs[2..] + ys && (rl + sl)[1..] == rl[1..] + sl;
  }

  lemma {:induction false} ReadsConcat(xs: seq<Sym>, ws: seq<string>, rl: seq<RedirText>, ys: seq<Sym>,
                                       vs: seq<string>, sl: seq<RedirText>)
    requires Reads(xs, ws, rl) && Reads(ys, vs, sl)
    ensures Reads(xs + ys, ws + vs, rl + sl)
    decreases |xs|
  {
    if xs == [] {
      assert xs + ys == ys && ws + vs == vs && rl + sl == sl;
    } else if xs[0].Word? {
      ReadsConcat(xs[1..], ws[1..], rl, ys, vs, sl);
      ConcatWord(xs, ws, ys, vs, rl + sl);
    } else {
      ReadsConcat(xs[2..], ws, rl[1..], ys, vs, sl);
      ConcatRedir(xs, rl, ys, sl, ws + vs);
    }
  }

  lemma WrapSnocAst(a: Ast, rl: seq<RedirText>, x: RedirText)
    ensures WrapAst(a, rl + [x]) == ARedir(WrapAst(a, rl), x.file, x.out)
  {
    assert (rl + [x])[..|rl|] == rl;
  }

  lemma {:induction false} WrapBounded(a: Ast, rl: seq<RedirText>)
    ensures Bounded(WrapAst(a, rl)) <==> Bounded(a)
    decreases |rl|
  {
    if rl != [] {
      WrapBounded(a, rl[..|rl| - 1]);
    }
  }

  // ----- building derivations -----

  lemma SimpleRule(ys: seq<Sym>, ws: seq<string>, rl: seq<RedirText>)
    requires Reads(ys, ws, rl)
    ensures IsExec(WrapAst(AExec(ws), rl), ys)
  {
  }

  lemma BlockRule(b: Ast, xs: seq<Sym>, zs: seq<Sym>, rl: seq<RedirText>)
    requires IsLine(b, xs) && Reads(zs, [], rl)
    ensures IsExec(WrapAst(b, rl), [Sp('(')] + xs + [Sp(')')] + zs)
  {
    var ys, k := [Sp('(')] + xs + [Sp(')')] + zs, |xs| + 1;
    assert ys[1..k] == xs && ys[k + 1..] == zs;
    assert IsBlock(WrapAst(b, rl), ys, b, k, rl);
  }

  lemma PipeRule(a: Ast, xs: seq<Sym>, zs: seq<Sym>)
    requires a.APipe? && IsExec(a.left, xs) && IsPipe(a.right, zs)
    ensures IsPipe(a, xs + [Sp('|')] + zs)
  {
    var ys := xs + [Sp('|')] + zs;
    assert ys[..|xs|] == xs && ys[|xs| + 1..] == zs;
    assert BarAt(a, ys, |xs|);
  }

  lemma BackRule(a: Ast, xs: seq<Sym>)
    requires IsBack(a, xs)
    ensures IsBack(ABack(a), xs + [Sp('&')])
  {
    var ys := xs + [Sp('&')];
    assert ys[..|ys| - 1] == xs;
  }

  lemma LineRule(a: Ast, xs: seq<Sym>, zs: seq<Sym>)
    requires a.AList? && IsBack(a.left, xs) && IsLine(a.right, zs)
    ensures IsLine(a, xs + [Sp(';')] + zs)
  {
    var ys := xs + [Sp(';')] + zs;
    assert ys[..|xs|] == xs && ys[|xs| + 1..] == zs;
    assert SemiAt(a, ys, |xs|);
  }

  lemma OneRedir(y: Sym, w: string)
    requires IsRedir(y)
    ensures Reads([y, Word(w)], [], [RedirText(w, y != Sp('<'))])
  {
    ReadsRedir(y, w, [], [], []);
    assert [y, Word(w)] + [] == [y, Word(w)];
  }

  lemma SimpleRedir(xs: seq<Sym>, ws: seq<string>, rl: seq<RedirText>, rs: seq<Sym>, x: RedirText)
    requires Reads(xs, ws, rl) && Reads(rs, [], [x])
    ensures IsExec(ARedir(WrapAst(AExec(ws), rl), x.file, x.out), xs + rs)
  {
    ReadsConcat(xs, ws, rl, rs, [], [x]);
    assert ws + [] == ws;
    WrapSnocAst(AExec(ws), rl, x);
    SimpleRule(xs + rs, ws, rl + [x]);
  }

  lemma BlockRedir(a: Ast, xs: seq<Sym>, b: Ast, k: int, rl: seq<RedirText>, rs: seq<Sym>, x: RedirText)
    requires IsBlock(a, xs, b, k, rl) && Reads(rs, [], [x])
    ensures IsExec(ARedir(a, x.file, x.out), xs + rs)
  {
    var zs := xs[k + 1..];
    ReadsConcat(zs, [], rl, rs, [], [x]);
    var none: seq<string> := [];
    assert none + none == none;
    WrapSnocAst(b, rl, x);
    BlockRule(b, xs[1..k], zs + rs, rl + [x]);
    assert [Sp('(')] + xs[1..k] + [Sp(')')] + (zs + rs) == xs + rs;
  }

  /** One more redirection behind a command. */
  lemma RedirRule(a: Ast, xs: seq<Sym>, y: Sym, w: string)
    requires IsExec(a, xs) && IsRedir(y)
    ensures IsExec(ARedir(a, w, y != Sp('<')), xs + [y, Word(w)])
  {
    var x := RedirText(w, y != Sp('<'));
    OneRedir(y, w);
    if ws, rl :| Reads(xs, ws, rl) && a == WrapAst(AExec(ws), rl) {
      SimpleRedir(xs, ws, rl, [y, Word(w)], x);
    } else {
      var b, k, rl :| IsBlock(a, xs, b, k, rl);
      BlockRedir(a, xs, b, k, rl, [y, Word(w)], x);
    }
  }
}
