/**
 The parser of sh.c as it runs: the cursor moves through the line, redirections and
 arguments are collected in loops, and a successful parse ends with NUL bytes in the
 buffer.
 */
module Shell {
  import opened ShellLex
  import opened ShellParse
  import opened ShellGrammar
  import opened ShellAccept
  import opened ShellPrint
  import opened ShellNul

  /** peek: moves the cursor over blanks. */
  method PeekAt(s: string, i: nat, toks: string) returns (found: bool, p: nat)
    requires i <= |s|
    ensures p == SkipSpace(s, i) && found == Peek(s, i, toks)
  {
    p := SkipLoop(s, i);
    found := At(s, p) != '\0' && At(s, p) in toks;
  }

  /** What is left of a list of redirections, put behind those already read. */
  ghost function After(acc: seq<Redirection>, rest: Result<seq<Redirection>>): (r: Result<seq<Redirection>>) {
    if rest.Fail? then rest else Ok(acc + rest.value, rest.pos)
  }

  ghost function Wrapped(c: Cmd, rs: Result<seq<Redirection>>): (r: Result<Cmd>) {
    if rs.Fail? then Fail(rs.msg) else Ok(Wrap(c, rs.value), rs.pos)
  }

  lemma WrapSnoc(c: Cmd, rs: seq<Redirection>, x: Redirection)
    ensures Wrap(c, rs + [x]) == Redir(Wrap(c, rs), x.file, x.mode, x.fd)
  {
    assert (rs + [x])[..|rs|] == rs;
  }

  lemma {:induction false} WrapConcat(c: Cmd, rs: seq<Redirection>, ys: seq<Redirection>)
    ensures Wrap(Wrap(c, rs), ys) == Wrap(c, rs + ys)
    decreases |ys|
  {
    if ys == [] {
      assert rs + ys == rs;
    } else {
      var front, x := ys[..|ys| - 1], ys[|ys| - 1];
      WrapConcat(c, rs, front);
      assert rs + ys == rs + front + [x];
      WrapSnoc(c, rs + front, x);
    }
  }

  lemma {:induction false} RedirsSkip(s: string, i: nat)
    requires CString(s) && i <= |s|
    ensures ParseRedirs(s, SkipSpace(s, i)) == ParseRedirs(s, i)
  {
    assert SkipSpace(s, SkipSpace(s, i)) == SkipSpace(s, i);
  }

  /** One round of the loop of parseredirs. */
  lemma {:induction false} RedirsRound(s: string, i: nat, acc: seq<Redirection>, t: Token, f: Token)
    requires CString(s) && i <= |s| && Peek(s, i, "<>") && t == Gettoken(s, SkipSpace(s, i)) && f == Gettoken(s, t.pos)
    requires f.kind == 'a'
    ensures After(acc, ParseRedirs(s, i)) == After(acc + [RedirectionOf(t.kind, f)], ParseRedirs(s, f.pos))
  {
    var rest := ParseRedirs(s, f.pos);
    if rest.Ok? {
      assert acc + ([RedirectionOf(t.kind, f)] + rest.value) == acc + [RedirectionOf(t.kind, f)] + rest.value;
    }
  }

  /** parseredirs: wraps c in the redirections found at the cursor. */
  method Parseredirs(s: string, c: Cmd, i: nat) returns (r: Result<Cmd>)
    requires CString(s) && i <= |s|
    ensures r == Wrapped(c, ParseRedirs(s, i))
  {
    var cmd := c;
    ghost var acc: seq<Redirection> := [];
    var more, p := PeekAt(s, i, "<>");
    RedirsSkip(s, i);
    assert After([], ParseRedirs(s, i)) == ParseRedirs(s, i) by {
      if ParseRedirs(s, i).Ok? {
        assert [] + ParseRedirs(s, i).value == ParseRedirs(s, i).value;
      }
    }
    while more
      invariant i <= p <= |s| && SkipSpace(s, p) == p && more == Peek(s, p, "<>")
      invariant cmd == Wrap(c, acc)
      invariant After(acc, ParseRedirs(s, p)) == ParseRedirs(s, i)
      decreases |s| - p, more
    {
      var t := GettokenLoop(s, p);
      var f := GettokenLoop(s, t.pos);
      if f.kind != 'a' {
        return Fail("missing file for redirection");
      }
      RedirsRound(s, p, acc, t, f);
      var x := RedirectionOf(t.kind, f);
      WrapSnoc(c, acc, x);
      cmd, acc := Redir(cmd, x.file, x.mode, x.fd), acc + [x];
      more, p := PeekAt(s, f.pos, "<>");
      RedirsSkip(s, f.pos);
    }
    assert acc + [] == acc;
    r := Ok(cmd, p);
  }

  lemma {:induction false} ArgsSkip(s: string, i: nat, args: seq<Span>, rs: seq<Redirection>)
    requires CString(s) && i <= |s|
    ensures ParseArgs(s, SkipSpace(s, i), args, rs) == ParseArgs(s, i, args, rs)
  {
    assert SkipSpace(s, SkipSpace(s, i)) == SkipSpace(s, i);
  }

  /** Storing an argument vector in the simple command inside a tree of redirections. */
  function Fill(c: Cmd, argv: seq<Span>): (r: Cmd) {
    match c
    case Exec(_) => Exec(argv)
    case Redir(d, file, mode, fd) => Redir(Fill(d, argv), file, mode, fd)
    case _ => c
  }

  lemma {:induction false} FillWrap(was: seq<Span>, argv: seq<Span>, rs: seq<Redirection>)
    ensures Fill(Wrap(Exec(was), rs), argv) == Wrap(Exec(argv), rs)
    decreases |rs|
  {
    if rs != [] {
      FillWrap(was, argv, rs[..|rs| - 1]);
    }
  }

  /** One round of the loop of parseexec. */
  lemma {:induction false} ArgsRound(s: string, p: nat, argv: seq<Span>, rs: seq<Redirection>, t: Token,
                                     argv': seq<Span>)
    requires CString(s) && p <= |s| && SkipSpace(s, p) == p && !Peek(s, p, "|)&;") && t == Gettoken(s, p)
    requires t.kind == 'a'
    requires argv' == argv + [Span(t.q, t.eq)]
    ensures |argv'| >= MAXARGS ==> ParseArgs(s, p, argv, rs) == Fail("too many args")
    ensures |argv'| < MAXARGS && ParseRedirs(s, t.pos).Fail? ==>
              ParseArgs(s, p, argv, rs) == Fail(ParseRedirs(s, t.pos).msg)
    ensures |argv'| < MAXARGS && ParseRedirs(s, t.pos).Ok? ==>
              var rs' := rs + ParseRedirs(s, t.pos).value;
              && Wrapped(Wrap(Exec(argv'), rs), ParseRedirs(s, t.pos)).value == Wrap(Exec(argv'), rs')
              && ParseArgs(s, p, argv, rs) == ParseArgs(s, ParseRedirs(s, t.pos).pos, argv', rs')
  {
    if ParseRedirs(s, t.pos).Ok? {
      WrapConcat(Exec(argv'), rs, ParseRedirs(s, t.pos).value);
    }
  }

  /** The loop of parseexec; ret is the tree around the simple command whose argv grows. */
  method ParseexecArgs(s: string, i: nat, first: Cmd, ghost fs: seq<Redirection>) returns (r: Result<Cmd>)
    requires CString(s) && i <= |s| && first == Wrap(Exec([]), fs)
    ensures r == ParseArgs(s, i, [], fs)
  {
    var argv: seq<Span>, ret := [], first;
    ghost var rs := fs;
    var stop, p := PeekAt(s, i, "|)&;");
    ArgsSkip(s, i, [], fs);
    while !stop
      invariant i <= p <= |s| && SkipSpace(s, p) == p && stop == Peek(s, p, "|)&;")
      invariant |argv| < MAXARGS && ret == Wrap(Exec(argv), rs)
      invariant ParseArgs(s, p, argv, rs) == ParseArgs(s, i, [], fs)
      decreases |s| - p, !stop
    {
      var t := GettokenLoop(s, p);
      if t.kind == '\0' {
        return Ok(ret, t.pos);
      }
      if t.kind != 'a' {
        return Fail("syntax");
      }
      FillWrap(argv, argv + [Span(t.q, t.eq)], rs);
      ArgsRound(s, p, argv, rs, t, argv + [Span(t.q, t.eq)]);
      argv := argv + [Span(t.q, t.eq)];
      ret := Fill(ret, argv);
      if |argv| >= MAXARGS {
        return Fail("too many args");
      }
      var more := Parseredirs(s, ret, t.pos);
      if more.Fail? {
        return more;
      }
      ret, rs := more.value, rs + ParseRedirs(s, t.pos).value;
      stop, p := PeekAt(s, more.pos, "|)&;");
      ArgsSkip(s, more.pos, argv, rs);
    }
    r := Ok(ret, p);
  }

  method Parseexec(s: string, i: nat) returns (r: Result<Cmd>)
    requires CString(s) && i <= |s|
    ensures r == ParseExec(s, i)
    decreases |s| - i, 1
  {
    var block, p := PeekAt(s, i, "(");
    if block {
      r := Parseblock(s, p);
      return;
    }
    RedirsSkip(s, i);
    var ret := Parseredirs(s, Exec([]), p);
    if ret.Fail? {
      return ret;
    }
    r := ParseexecArgs(s, ret.pos, ret.value, ParseRedirs(s, i).value);
  }

  method Parseblock(s: string, i: nat) returns (r: Result<Cmd>)
    requires CString(s) && i <= |s|
    ensures r == ParseBlock(s, i)
    decreases |s| - i, 0
  {
    var open, p := PeekAt(s, i, "(");
    if !open {
      return Fail("parseblock");
    }
    LexSkip(s, i);
    var t := GettokenLoop(s, p);
    var line := Parseline(s, t.pos);
    if line.Fail? {
      return line;
    }
    var close, q := PeekAt(s, line.pos, ")");
    if !close {
      return Fail("syntax - missing )");
    }
    LexSkip(s, line.pos);
    t := GettokenLoop(s, q);
    r := Parseredirs(s, line.value, t.pos);
  }

  method Parsepipe(s: string, i: nat) returns (r: Result<Cmd>)
    requires CString(s) && i <= |s|
    ensures r == ParsePipe(s, i)
    decreases |s| - i, 2
  {
    var left := Parseexec(s, i);
    if left.Fail? {
      return left;
    }
    var bar, p := PeekAt(s, left.pos, "|");
    if !bar {
      return Ok(left.value, p);
    }
    LexSkip(s, left.pos);
    var t := GettokenLoop(s, p);
    var right := Parsepipe(s, t.pos);
    if right.Fail? {
      return right;
    }
    r := Ok(Pipe(left.value, right.value), right.pos);
  }

  /** The ampersand loop of parseline. */
  method ParselineBacks(s: string, c: Cmd, i: nat) returns (cmd: Cmd, p: nat)
    requires CString(s) && i <= |s|
    ensures (cmd, p) == ParseBacks(s, c, i)
  {
    cmd := c;
    var amp;
    amp, p := PeekAt(s, i, "&");
    LexSkip(s, i);
    while amp
      invariant i <= p <= |s| && SkipSpace(s, p) == p && amp == Peek(s, p, "&")
      invariant ParseBacks(s, cmd, p) == ParseBacks(s, c, i)
      decreases |s| - p, amp
    {
      var t := GettokenLoop(s, p);
      cmd := Back(cmd);
      amp, p := PeekAt(s, t.pos, "&");
      LexSkip(s, t.pos);
    }
  }

  method Parseline(s: string, i: nat) returns (r: Result<Cmd>)
    requires CString(s) && i <= |s|
    ensures r == ParseLine(s, i)
    decreases |s| - i, 3
  {
    var first := Parsepipe(s, i);
    if first.Fail? {
      return first;
    }
    var cmd, p := ParselineBacks(s, first.value, first.pos);
    var semi, q := PeekAt(s, p, ";");
    if !semi {
      return Ok(cmd, q);
    }
    LexSkip(s, p);
    var t := GettokenLoop(s, q);
    var rest := Parseline(s, t.pos);
    if rest.Fail? {
      return rest;
    }
    r := Ok(List(cmd, rest.value), rest.pos);
  }

  method Strlen(buf: array<char>) returns (n: nat)
    requires exists k :: 0 <= k < buf.Length && buf[k] == '\0'
    ensures n < buf.Length && buf[n] == '\0' && CString(buf[..n])
  {
    n := 0;
    while buf[n] != '\0'
      invariant n < buf.Length && exists k :: n <= k < buf.Length && buf[k] == '\0'
      invariant forall k :: 0 <= k < n ==> buf[k] != '\0'
      decreases buf.Length - n
    {
      n := n + 1;
    }
  }

  /**
   parsecmd: fails exactly on the lines whose tokens ys have no reading in the grammar;
   otherwise the tree is that reading, and every argument and file of it is left in the
   buffer as the C string that was lexed for it.  Only bytes that end a word are
   overwritten, and none when the parse fails.
   */
  method Parsecmd(buf: array<char>) returns (r: Result<Cmd>, ghost s: string, ghost ys: seq<Sym>)
    requires exists k :: 0 <= k < buf.Length && buf[k] == '\0'
    modifies buf
    ensures CString(s) && |s| < buf.Length && s == old(buf[..])[..|s|] && old(buf[..])[|s|] == '\0'
    ensures r == ParseCmd(s)
    ensures ys == Lex(s, 0) && (r.Ok? <==> exists a :: Reading(a, ys))
    ensures r.Ok? ==> Reading(Erase(s, r.value), ys) && CErase(buf[..], r.value) == Erase(s, r.value)
    ensures r.Fail? ==> buf[..] == old(buf[..])
    ensures r.Ok? ==> Nulled(old(buf[..]), buf[..], Spans(r.value)) && AllTokens(s, Spans(r.value))
    ensures r.Ok? ==> forall j :: 0 <= j < |Spans(r.value)| ==>
                        var x := Spans(r.value)[j]; x.q < buf.Length && CText(buf[..], x.q) == Text(s, x)
    ensures forall k :: 0 <= k < buf.Length && (k > |s| || IsWordChar(old(buf[..])[k])) ==> buf[k] == old(buf[..])[k]
  {
    var n := Strlen(buf);
    var line := buf[..n];
    s := line;
    ys := Lex(line, 0);
    Accepts(line, ys);
    ghost var before := buf[..];
    var all := Parseline(line, 0);
    if all.Fail? {
      return all, s, ys;
    }
    var found, p := PeekAt(line, all.pos, "");
    if p != n {
      return Fail("syntax"), s, ys;
    }
    r := Ok(all.value, n);
    Sound(line);
    LineTokens(line, 0);
    SpansTokens(line, r.value);
    TokensEnd(line, Spans(r.value), buf.Length);
    NulTerminate(r.value, buf);
    Untouched(s, before, buf[..], Spans(r.value));
    SameTree(s, buf[..], r.value);
  }

  lemma TokensEnd(s: string, xs: seq<Span>, n: nat)
    requires AllTokens(s, xs) && |s| < n
    ensures EndsBefore(xs, n)
  {
    forall j | 0 <= j < |xs|
      ensures xs[j].eq < n
    {
      assert IsToken(s, xs[j]);
    }
  }

  /** The whole effect of nulterminate on a parsed line. */
  lemma {:induction false} Untouched(s: string, a: seq<char>, b: seq<char>, xs: seq<Span>)
    requires CString(s) && AllTokens(s, xs) && s <= a && |s| < |a| && a[|s|] == '\0' && Nulled(a, b, xs)
    ensures forall k :: 0 <= k < |a| && (k > |s| || IsWordChar(a[k])) ==> b[k] == a[k]
    ensures forall j :: 0 <= j < |xs| ==> xs[j].q < |b| && CText(b, xs[j].q) == Text(s, xs[j])
  {
    forall k | 0 <= k < |a| && (k > |s| || IsWordChar(a[k]))
      ensures b[k] == a[k]
    {
      if EndOf(k, xs) {
        EndsOutsideWords(s, xs, k);
      }
    }
    forall j | 0 <= j < |xs|
      ensures xs[j].q < |b| && CText(b, xs[j].q) == Text(s, xs[j])
    {
      Isolated(s, a, b, xs, j);
    }
  }
}
