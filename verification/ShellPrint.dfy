/**
 Printing command trees back to text, and the round trip through the parser: the
 tokens of a printed tree parse to that tree.
 */
module ShellPrint {
  import opened ShellLex
  import opened ShellParse
  import opened ShellGrammar
  import opened ShellAccept

  ghost predicate IsWord(w: string) {
    w != "" && forall k :: 0 <= k < |w| ==> IsWordChar(w[k])
  }

  /** Legal words everywhere and fewer than MAXARGS arguments. */
  ghost predicate Legal(a: Ast) {
    match a
    case AExec(args) => |args| < MAXARGS && forall k :: 0 <= k < |args| ==> IsWord(args[k])
    case ARedir(c, file, _) => Legal(c) && IsWord(file)
    case APipe(l, r) => Legal(l) && Legal(r)
    case AList(l, r) => Legal(l) && Legal(r)
    case ABack(c) => Legal(c)
  }

  // ----- printing, by precedence level -----

  datatype Level = LExec | LPipe | LBack | LLine

  /**
   Printing a tree at one level may print the same tree at another; the rank falls
   each time, in an order that depends on the tree.
   */
  function Rank(v: Level, a: Ast): (r: nat) {
    match (v, a)
    case (LLine, AList(_, _)) => 0
    case (LExec, AList(_, _)) => 1
    case (LPipe, AList(_, _)) => 2
    case (LBack, AList(_, _)) => 3
    case (LBack, ABack(_)) => 0
    case (LLine, ABack(_)) => 1
    case (LExec, ABack(_)) => 2
    case (LPipe, ABack(_)) => 3
    case (LPipe, APipe(_, _)) => 0
    case (LBack, APipe(_, _)) => 1
    case (LLine, APipe(_, _)) => 2
    case (LExec, APipe(_, _)) => 3
    case (LExec, _) => 0
    case (LPipe, _) => 1
    case (LBack, _) => 2
    case (LLine, _) => 3
  }

  function Words(args: seq<string>): (ys: seq<Sym>) {
    if args == [] then [] else [Word(args[0])] + Words(args[1..])
  }

  function RedirToks(file: string, out: bool): (ys: seq<Sym>) {
    [Sp(if out then '>' else '<'), Word(file)]
  }

  /** A command as parseexec takes it, in parentheses unless it is a simple command or a redirection. */
  function ExecToks(a: Ast): (ys: seq<Sym>)
    decreases a, Rank(LExec, a)
  {
    match a
    case AExec(args) => Words(args)
    case ARedir(c, file, out) => ExecToks(c) + RedirToks(file, out)
    case _ => [Sp('(')] + LineToks(a) + [Sp(')')]
  }

  function PipeToks(a: Ast): (ys: seq<Sym>)
    decreases a, Rank(LPipe, a)
  {
    match a
    case APipe(l, r) => ExecToks(l) + [Sp('|')] + PipeToks(r)
    case _ => ExecToks(a)
  }

  function BackToks(a: Ast): (ys: seq<Sym>)
    decreases a, Rank(LBack, a)
  {
    match a
    case ABack(c) => BackToks(c) + [Sp('&')]
    case _ => PipeToks(a)
  }

  function LineToks(a: Ast): (ys: seq<Sym>)
    decreases a, Rank(LLine, a)
  {
    match a
    case AList(l, r) => BackToks(l) + [Sp(';')] + LineToks(r)
    case _ => BackToks(a)
  }

  // ----- what is printed is a reading -----

  lemma {:induction false} WordsRead(ws: seq<string>)
    ensures Reads(Words(ws), ws, [])
  {
    if ws != [] {
      WordsRead(ws[1..]);
      ReadsWord(ws[0], Words(ws[1..]), ws[1..], []);
      assert ws == [ws[0]] + ws[1..];
    }
  }

  lemma {:induction false} ExecPrinted(a: Ast)
    ensures IsExec(a, ExecToks(a))
    decreases a, Rank(LExec, a)
  {
    match a
    case AExec(args) =>
      WordsRead(args);
      SimpleRule(Words(args), args, []);
    case ARedir(c, file, out) =>
      ExecPrinted(c);
      RedirRule(c, ExecToks(c), Sp(if out then '>' else '<'), file);
    case _ =>
      LinePrinted(a);
      BlockRule(a, LineToks(a), [], []);
      assert ExecToks(a) + [] == ExecToks(a);
  }

  lemma {:induction false} PipePrinted(a: Ast)
    ensures IsPipe(a, PipeToks(a))
    decreases a, Rank(LPipe, a)
  {
    if a.APipe? {
      ExecPrinted(a.left);
      PipePrinted(a.right);
      PipeRule(a, ExecToks(a.left), PipeToks(a.right));
    } else {
      ExecPrinted(a);
    }
  }

  lemma {:induction false} BackPrinted(a: Ast)
    ensures IsBack(a, BackToks(a))
    decreases a, Rank(LBack, a)
  {
    if a.ABack? {
      BackPrinted(a.cmd);
      BackRule(a.cmd, BackToks(a.cmd));
    } else {
      PipePrinted(a);
    }
  }

  /** The grammar reads what LineToks prints as the tree it was printed from. */
  lemma {:induction false} LinePrinted(a: Ast)
    ensures Derives(a, LineToks(a))
    decreases a, Rank(LLine, a)
  {
    if a.AList? {
      BackPrinted(a.left);
      LinePrinted(a.right);
      LineRule(a, BackToks(a.left), LineToks(a.right));
    } else {
      BackPrinted(a);
    }
  }

  lemma {:induction false} LegalBounded(a: Ast)
    requires Legal(a)
    ensures Bounded(a)
  {
    match a
    case AExec(_) =>
    case ARedir(c, _, _) => LegalBounded(c);
    case APipe(l, r) => LegalBounded(l); LegalBounded(r);
    case AList(l, r) => LegalBounded(l); LegalBounded(r);
    case ABack(c) => LegalBounded(c);
  }

  // ----- from trees to text and back -----

  function SymText(y: Sym): (w: string) {
    if y.Word? then y.text else [y.c]
  }

  /** The tokens as text, each followed by a blank. */
  function Render(ys: seq<Sym>): (s: string) {
    if ys == [] then "" else SymText(ys[0]) + " " + Render(ys[1..])
  }

  /** A command tree as a command line. */
  function Print(a: Ast): (s: string) {
    Render(LineToks(a))
  }

  /** A token that scans as itself: a legal word or a one-character symbol. */
  ghost predicate Scans(y: Sym) {
    if y.Word? then IsWord(y.text) else IsSymbol(y.c)
  }

  ghost predicate AllScan(ys: seq<Sym>) {
    forall k :: 0 <= k < |ys| ==> Scans(ys[k])
  }

  lemma {:induction false} SkipNothing(s: string, i: nat)
    requires i <= |s| && (i < |s| ==> !IsSpace(s[i]))
    ensures SkipSpace(s, i) == i
  {
  }

  /** A word that ends at a blank. */
  lemma {:induction false} WordEndAt(s: string, i: nat, e: nat)
    requires i <= e < |s| && IsSpace(s[e]) && forall k :: i <= k < e ==> IsWordChar(s[k])
    ensures WordEnd(s, i) == e
    decreases e - i
  {
    if i < e {
      WordEndAt(s, i + 1, e);
    }
  }

  /** gettoken at a rendered token. */
  lemma {:induction false} TokenOk(s: string, i: nat, y: Sym, e: nat)
    requires CString(s) && i < e < |s| && Scans(y) && s[i..e] == SymText(y) && s[e] == ' '
    requires e + 1 < |s| ==> !IsSpace(s[e + 1])
    ensures Gettoken(s, i).kind != '\0' && Gettoken(s, i).pos == e + 1 && SymOf(s, Gettoken(s, i)) == y
  {
    assert s[i] == SymText(y)[0];
    SkipNothing(s, i);
    SkipNothing(s, e + 1);
    assert SkipSpace(s, e) == e + 1;
    if y.Word? {
      forall k | i <= k < e
        ensures IsWordChar(s[k])
      {
        assert s[k] == s[i..e][k - i];
      }
      WordEndAt(s, i, e);
    }
  }

  /** The first character of rendered tokens is not a blank. */
  lemma {:induction false} RenderStart(ys: seq<Sym>)
    requires AllScan(ys) && ys != []
    ensures Render(ys) != "" && !IsSpace(Render(ys)[0])
  {
    assert Scans(ys[0]);
  }

  lemma RenderUnfold(ys: seq<Sym>)
    requires ys != [] && AllScan(ys)
    ensures Scans(ys[0]) && AllScan(ys[1..])
    ensures Render(ys) == SymText(ys[0]) + (" " + Render(ys[1..]))
  {
  }

  /** gettoken at the first of some rendered tokens. */
  lemma {:induction false} RenderFirst(s: string, i: nat, y: Sym, tail: seq<Sym>, r: string, e: nat)
    requires CString(s) && i <= |s| && Scans(y) && AllScan(tail) && r == Render(tail)
    requires s[i..] == SymText(y) + (" " + r) && e == i + |SymText(y)|
    ensures e < |s| && s[e + 1..] == r
    ensures Gettoken(s, i).kind != '\0' && Gettoken(s, i).pos == e + 1 && SymOf(s, Gettoken(s, i)) == y
  {
    RenderSplit(s, i, SymText(y), r, e);
    if tail != [] {
      RenderStart(tail);
      assert s[e + 1] == s[e + 1..][0];
    }
    TokenOk(s, i, y, e);
  }

  lemma {:induction false} LexCons(s: string, i: nat, y: Sym, p: nat)
    requires CString(s) && i < p <= |s|
    requires Gettoken(s, i).kind != '\0' && Gettoken(s, i).pos == p && SymOf(s, Gettoken(s, i)) == y
    ensures Lex(s, i) == [y] + Lex(s, p)
  {
  }

  /** Scanning rendered tokens, one at a time. */
  lemma {:induction false} RenderNext(s: string, i: nat, ys: seq<Sym>) returns (e: nat)
    requires CString(s) && i <= |s| && s[i..] == Render(ys) && AllScan(ys) && ys != []
    ensures i < e <= |s| && s[e..] == Render(ys[1..]) && AllScan(ys[1..]) && Lex(s, i) == [ys[0]] + Lex(s, e)
  {
    RenderUnfold(ys);
    var y, r := ys[0], Render(ys[1..]);
    var k := i + |SymText(y)|;
    RenderFirst(s, i, y, ys[1..], r, k);
    e := k + 1;
    LexCons(s, i, y, e);
  }

  /** Scanning rendered tokens gives them back. */
  lemma {:induction false} RenderLex(s: string, i: nat, ys: seq<Sym>, zs: seq<Sym>)
    requires CString(s) && i <= |s| && s[i..] == Render(ys) && AllScan(ys) && zs == Lex(s, i)
    ensures zs == ys
    decreases |ys|
  {
    if ys == [] {
      LexEnd(s, i);
    } else {
      var e := RenderNext(s, i, ys);
      RenderLex(s, e, ys[1..], Lex(s, e));
      HeadTail(ys);
    }
  }

  lemma {:induction false} LexEnd(s: string, i: nat)
    requires CString(s) && i == |s|
    ensures Lex(s, i) == []
  {
  }

  lemma HeadTail(ys: seq<Sym>)
    requires ys != []
    ensures ys == [ys[0]] + ys[1..]
  {
  }

  lemma RenderSplit(s: string, i: nat, w: string, r: string, e: nat)
    requires i <= |s| && s[i..] == w + (" " + r) && e == i + |w|
    ensures e < |s| && s[i..e] == w && s[e] == ' ' && s[e + 1..] == r
  {
    assert |s[i..]| == |w| + 1 + |r|;
    assert s[e] == s[i..][|w|];
    assert s[i..e] == s[i..][..|w|];
    assert s[e + 1..] == s[i..][|w| + 1..];
  }

  lemma {:induction false} RenderCString(ys: seq<Sym>)
    requires AllScan(ys)
    ensures CString(Render(ys))
    decreases |ys|
  {
    if ys != [] {
      RenderCString(ys[1..]);
      assert Scans(ys[0]);
    }
  }

  // ----- printed trees scan -----

  lemma {:induction false} WordsScan(ws: seq<string>)
    requires forall k :: 0 <= k < |ws| ==> IsWord(ws[k])
    ensures AllScan(Words(ws))
  {
    if ws != [] {
      WordsScan(ws[1..]);
    }
  }

  lemma {:induction false} ExecScan(a: Ast)
    requires Legal(a)
    ensures AllScan(ExecToks(a))
    decreases a, Rank(LExec, a)
  {
    match a
    case AExec(args) => WordsScan(args);
    case ARedir(c, _, _) => ExecScan(c);
    case _ => LineScan(a);
  }

  lemma {:induction false} PipeScan(a: Ast)
    requires Legal(a)
    ensures AllScan(PipeToks(a))
    decreases a, Rank(LPipe, a)
  {
    if a.APipe? {
      ExecScan(a.left);
      PipeScan(a.right);
    } else {
      ExecScan(a);
    }
  }

  lemma {:induction false} BackScan(a: Ast)
    requires Legal(a)
    ensures AllScan(BackToks(a))
    decreases a, Rank(LBack, a)
  {
    if a.ABack? {
      BackScan(a.cmd);
    } else {
      PipeScan(a);
    }
  }

  lemma {:induction false} LineScan(a: Ast)
    requires Legal(a)
    ensures AllScan(LineToks(a))
    decreases a, Rank(LLine, a)
  {
    if a.AList? {
      BackScan(a.left);
      LineScan(a.right);
    } else {
      BackScan(a);
    }
  }

  /**
   Round trip: every legal command tree, printed with parentheses where needed,
   parses, and to that tree.
   */
  lemma {:induction false} RoundTrip(a: Ast)
    requires Legal(a)
    ensures CString(Print(a))
    ensures ParseCmd(Print(a)).Ok? && Erase(Print(a), ParseCmd(Print(a)).value) == a
  {
    LineScan(a);
    var s := Print(a);
    RenderCString(LineToks(a));
    assert s[0..] == s;
    RenderLex(s, 0, LineToks(a), Lex(s, 0));
    LinePrinted(a);
    LegalBounded(a);
    Complete(s, a);
  }
}
