/**
 The recursive-descent parser of sh.c.  Command trees hold positions in the input
 line, as the argv and eargv pointers of the source do; a panic becomes a Fail.
 */
module ShellParse {
  import opened ShellLex

  const MAXARGS: nat := 10
  const O_RDONLY := 0x000
  const O_WRONLY := 0x001
  const O_CREATE := 0x200

  /** The text of a token: from q up to eq. */
  datatype Span = Span(q: nat, eq: nat)

  datatype Cmd =
    | Exec(argv: seq<Span>)
    | Redir(cmd: Cmd, file: Span, mode: int, fd: int)
    | Pipe(left: Cmd, right: Cmd)
    | List(left: Cmd, right: Cmd)
    | Back(cmd: Cmd)

  datatype Redirection = Redirection(file: Span, mode: int, fd: int)

  datatype Result<+T> = Ok(value: T, pos: nat) | Fail(msg: string)

  /** redircmd applied for each redirection in turn. */
  function Wrap(c: Cmd, rs: seq<Redirection>): (r: Cmd)
    decreases |rs|
  {
    if rs == [] then c
    else
      var x := rs[|rs| - 1];
      Redir(Wrap(c, rs[..|rs| - 1]), x.file, x.mode, x.fd)
  }

  /** The node parseredirs builds; > and >> build the same one. */
  function RedirectionOf(tok: char, f: Token): (r: Redirection) {
    if tok == '<' then Redirection(Span(f.q, f.eq), O_RDONLY, 0)
    else Redirection(Span(f.q, f.eq), O_WRONLY + O_CREATE, 1)
  }

  /** parseredirs: the redirections from i on. */
  function ParseRedirs(s: string, i: nat): (r: Result<seq<Redirection>>)
    requires CString(s) && i <= |s|
    ensures r.Ok? ==> i <= r.pos <= |s|
    decreases |s| - i
  {
    var p := SkipSpace(s, i);
    if !Peek(s, i, "<>") then Ok([], p)
    else
      var t := Gettoken(s, p);
      var f := Gettoken(s, t.pos);
      if f.kind != 'a' then Fail("missing file for redirection")
      else
        var rest := ParseRedirs(s, f.pos);
        if rest.Fail? then rest else Ok([RedirectionOf(t.kind, f)] + rest.value, rest.pos)
  }

  /** The argument loop of parseexec: arguments and redirections so far, cursor at i. */
  function ParseArgs(s: string, i: nat, args: seq<Span>, rs: seq<Redirection>): (r: Result<Cmd>)
    requires CString(s) && i <= |s|
    ensures r.Ok? ==> i <= r.pos <= |s|
    decreases |s| - i
  {
    var p := SkipSpace(s, i);
    if Peek(s, i, "|)&;") then Ok(Wrap(Exec(args), rs), p)
    else
      var t := Gettoken(s, p);
      if t.kind == '\0' then Ok(Wrap(Exec(args), rs), t.pos)
      else if t.kind != 'a' then Fail("syntax")
      else if |args| + 1 >= MAXARGS then Fail("too many args")
      else
        var more := ParseRedirs(s, t.pos);
        if more.Fail? then Fail(more.msg)
        else ParseArgs(s, more.pos, args + [Span(t.q, t.eq)], rs + more.value)
  }

  function ParseExec(s: string, i: nat): (r: Result<Cmd>)
    requires CString(s) && i <= |s|
    ensures r.Ok? ==> i <= r.pos <= |s|
    decreases |s| - i, 1
  {
    if Peek(s, i, "(") then ParseBlock(s, SkipSpace(s, i))
    else
      var rs := ParseRedirs(s, i);
      if rs.Fail? then Fail(rs.msg) else ParseArgs(s, rs.pos, [], rs.value)
  }

  function ParseBlock(s: string, i: nat): (r: Result<Cmd>)
    requires CString(s) && i <= |s|
    ensures r.Ok? ==> i <= r.pos <= |s|
    decreases |s| - i, 0
  {
    if !Peek(s, i, "(") then Fail("parseblock")
    else
      var line := ParseLine(s, Gettoken(s, i).pos);
      if line.Fail? then line
      else if !Peek(s, line.pos, ")") then Fail("syntax - missing )")
      else
        var rs := ParseRedirs(s, Gettoken(s, line.pos).pos);
        if rs.Fail? then Fail(rs.msg) else Ok(Wrap(line.value, rs.value), rs.pos)
  }

  function ParsePipe(s: string, i: nat): (r: Result<Cmd>)
    requires CString(s) && i <= |s|
    ensures r.Ok? ==> i <= r.pos <= |s|
    decreases |s| - i, 2
  {
    var left := ParseExec(s, i);
    if left.Fail? then left
    else if !Peek(s, left.pos, "|") then Ok(left.value, SkipSpace(s, left.pos))
    else
      var right := ParsePipe(s, Gettoken(s, left.pos).pos);
      if right.Fail? then right else Ok(Pipe(left.value, right.value), right.pos)
  }

  /** The loop of parseline over trailing ampersands. */
  function ParseBacks(s: string, c: Cmd, i: nat): (r: (Cmd, nat))
    requires CString(s) && i <= |s|
    ensures i <= r.1 <= |s|
    decreases |s| - i
  {
    if !Peek(s, i, "&") then (c, SkipSpace(s, i)) else ParseBacks(s, Back(c), Gettoken(s, i).pos)
  }

  function ParseLine(s: string, i: nat): (r: Result<Cmd>)
    requires CString(s) && i <= |s|
    ensures r.Ok? ==> i <= r.pos <= |s|
    decreases |s| - i, 3
  {
    var first := ParsePipe(s, i);
    if first.Fail? then first
    else
      var (c, p) := ParseBacks(s, first.value, first.pos);
      if !Peek(s, p, ";") then Ok(c, SkipSpace(s, p))
      else
        var rest := ParseLine(s, Gettoken(s, p).pos);
        if rest.Fail? then rest else Ok(List(c, rest.value), rest.pos)
  }

  /** parsecmd without the final nulterminate: all of the line must be used up. */
  function ParseCmd(s: string): (r: Result<Cmd>)
    requires CString(s)
  {
    var line := ParseLine(s, 0);
    if line.Fail? then line
    else if SkipSpace(s, line.pos) != |s| then Fail("syntax")
    else Ok(line.value, |s|)
  }
}
