/**
 The scanner of sh.c: a cursor over a C string, whitespace, the one- and
 two-character symbols, and words.
 */
module ShellLex {

  predicate IsSpace(c: char) {
    c == ' ' || c == '\t' || c == '\r' || c == '\n' || c == '\U{0B}'
  }

  predicate IsSymbol(c: char) {
    c == '<' || c == '|' || c == '>' || c == '&' || c == ';' || c == '(' || c == ')'
  }

  /** A character that can stand inside a word. */
  predicate IsWordChar(c: char) {
    !IsSpace(c) && !IsSymbol(c) && c != '\0'
  }

  /** The strings whitespace and symbols of sh.c. */
  lemma CharClasses(c: char)
    ensures IsSpace(c) <==> c in " \t\r\n\U{0B}"
    ensures IsSymbol(c) <==> c in "<|>&;()"
  {
  }

  /** A C string holds no NUL before its end. */
  ghost predicate CString(s: string) {
    forall i :: 0 <= i < |s| ==> s[i] != '\0'
  }

  /** The character under the cursor; NUL at the end. */
  function At(s: string, i: nat): (c: char)
    requires i <= |s|
  {
    if i < |s| then s[i] else '\0'
  }

  /** The first position from i on that is not whitespace. */
  function SkipSpace(s: string, i: nat): (r: nat)
    requires i <= |s|
    ensures i <= r <= |s|
    ensures r < |s| ==> !IsSpace(s[r])
    ensures forall k :: i <= k < r ==> IsSpace(s[k])
    decreases |s| - i
  {
    if i < |s| && IsSpace(s[i]) then SkipSpace(s, i + 1) else i
  }

  /** The first position from i on that is whitespace or a symbol. */
  function WordEnd(s: string, i: nat): (r: nat)
    requires i <= |s|
    ensures i <= r <= |s|
    ensures r < |s| ==> IsSpace(s[r]) || IsSymbol(s[r])
    ensures forall k :: i <= k < r ==> !IsSpace(s[k]) && !IsSymbol(s[k])
    decreases |s| - i
  {
    if i < |s| && !IsSpace(s[i]) && !IsSymbol(s[i]) then WordEnd(s, i + 1) else i
  }

  /** A token: its kind, where its text starts and ends, and the cursor after it. */
  datatype Token = Token(kind: char, q: nat, eq: nat, pos: nat)

  /** gettoken: kind is NUL at the end, 'a' for a word, '+' for >>, else the symbol. */
  function Gettoken(s: string, i: nat): (t: Token)
    requires i <= |s|
    ensures i <= t.q <= t.eq <= t.pos <= |s|
    ensures t.q == |s| ==> t.kind == '\0'
    ensures CString(s) && t.kind != '\0' ==> t.q < t.eq
  {
    var q := SkipSpace(s, i);
    var c := At(s, q);
    if c == '\0' then
      Token('\0', q, q, SkipSpace(s, q))
    else if c == '|' || c == '(' || c == ')' || c == ';' || c == '&' || c == '<' then
      Token(c, q, q + 1, SkipSpace(s, q + 1))
    else if c == '>' then
      if At(s, q + 1) == '>' then Token('+', q, q + 2, SkipSpace(s, q + 2))
      else Token('>', q, q + 1, SkipSpace(s, q + 1))
    else
      var e := WordEnd(s, q);
      Token('a', q, e, SkipSpace(s, e))
  }

  /**
   What gettoken finds, in characters: blanks are skipped on both sides; a word is a
   maximal run of word characters; >> is one token, every other symbol is its own.
   */
  lemma GettokenExact(s: string, i: nat, t: Token)
    requires CString(s) && i <= |s| && t == Gettoken(s, i)
    ensures i <= t.q <= t.eq <= t.pos <= |s| && forall k :: i <= k < t.q || t.eq <= k < t.pos ==> IsSpace(s[k])
    ensures (t.q < |s| ==> !IsSpace(s[t.q])) && (t.pos < |s| ==> !IsSpace(s[t.pos]))
    ensures t.kind == '\0' <==> t.q == |s|
    ensures t.kind == 'a' <==> t.q < |s| && IsWordChar(s[t.q])
    ensures t.kind == 'a' ==> forall k :: t.q <= k < t.eq ==> IsWordChar(s[k])
    ensures t.kind == 'a' && t.eq < |s| ==> !IsWordChar(s[t.eq])
    ensures t.q < |s| && IsSymbol(s[t.q]) ==>
              if t.q + 1 < |s| && s[t.q] == '>' && s[t.q + 1] == '>' then t.kind == '+' && t.eq == t.q + 2
              else t.kind == s[t.q] && t.eq == t.q + 1
  {
  }

  /** peek: is the next non-blank character one of toks? */
  predicate Peek(s: string, i: nat, toks: string)
    requires i <= |s|
  {
    var c := At(s, SkipSpace(s, i));
    c != '\0' && c in toks
  }

  /** The loop that both gettoken and peek start with. */
  method SkipLoop(s: string, i: nat) returns (r: nat)
    requires i <= |s|
    ensures r == SkipSpace(s, i)
  {
    r := i;
    while r < |s| && IsSpace(s[r])
      invariant i <= r <= |s| && SkipSpace(s, r) == SkipSpace(s, i)
    {
      r := r + 1;
    }
  }

  method GettokenLoop(s: string, i: nat) returns (t: Token)
    requires i <= |s|
    ensures t == Gettoken(s, i)
  {
    var q := SkipLoop(s, i);
    var e, kind := q, At(s, q);
    if kind == '\0' {
    } else if kind == '|' || kind == '(' || kind == ')' || kind == ';' || kind == '&' || kind == '<' {
      e := e + 1;
    } else if kind == '>' {
      e := e + 1;
      if At(s, e) == '>' {
        kind := '+';
        e := e + 1;
      }
    } else {
      kind := 'a';
      while e < |s| && !IsSpace(s[e]) && !IsSymbol(s[e])
        invariant q <= e <= |s| && WordEnd(s, e) == WordEnd(s, q)
      {
        e := e + 1;
      }
    }
    var pos := SkipLoop(s, e);
    t := Token(kind, q, e, pos);
  }

  // ----- the token sequence -----

  /** A token without its position: a symbol, or a word and its text. */
  datatype Sym = Sp(c: char) | Word(text: string)

  function SymOf(s: string, t: Token): (y: Sym)
    requires t.q <= t.eq <= |s|
  {
    if t.kind == 'a' then Word(s[t.q..t.eq]) else Sp(t.kind)
  }

  /** What repeated gettoken from position i yields up to the end. */
  ghost function Lex(s: string, i: nat): (ys: seq<Sym>)
    requires CString(s) && i <= |s|
    decreases |s| - i
  {
    var t := Gettoken(s, i);
    if t.kind == '\0' then [] else [SymOf(s, t)] + Lex(s, t.pos)
  }

  /** Skipping blanks first makes no difference to the tokens. */
  lemma {:induction false} LexSkip(s: string, i: nat)
    requires CString(s) && i <= |s|
    ensures Lex(s, SkipSpace(s, i)) == Lex(s, i)
    ensures Gettoken(s, SkipSpace(s, i)) == Gettoken(s, i)
  {
    var j := SkipSpace(s, i);
    assert SkipSpace(s, j) == j;
    assert Gettoken(s, j) == Gettoken(s, i);
  }

  /** The characters a peek for a symbol sees, in terms of the token sequence. */
  ghost predicate Starts(ys: seq<Sym>, c: char) {
    ys != [] && ys[0].Sp? && (ys[0].c == c || (c == '>' && ys[0].c == '+'))
  }

  /** peek for symbols looks at the next token. */
  lemma {:induction false} PeekIsLex(s: string, i: nat, toks: string)
    requires CString(s) && i <= |s| && forall k :: 0 <= k < |toks| ==> IsSymbol(toks[k])
    ensures Peek(s, i, toks) <==> exists c :: c in toks && Starts(Lex(s, i), c)
  {
    var t := Gettoken(s, i);
    if Peek(s, i, toks) {
      assert At(s, t.q) in toks && Starts(Lex(s, i), At(s, t.q));
    }
  }
}
