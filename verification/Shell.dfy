/** The parser of user/sh.c: the cursor moves through the text as the tree is built. */
module Shell {
  import opened ShellSpec

  type CString = s: string | '\0' !in s witness ""

  datatype Result = Done(cmd: Cmd<Span>) | Panic(error: Error)

  // The rest of a parse, seen from the tokens.
  ghost predicate Agrees(t: CString, r: Result, s: nat, p: Parsed<Span>) {
    && s <= |t|
    && match p
       case Ok(c, rest) => r == Done(c) && Tokens(t, s) == rest
       case Fail(e) => r == Panic(e)
  }

  // Skips white space; tells whether the next character is one of toks.
  method Peek(t: CString, s: nat, toks: string) returns (s': nat, yes: bool)
    requires s <= |t| && forall c :: c in toks ==> Symbol(c) && c != '+'
    ensures s' <= |t| && Tokens(t, s') == Tokens(t, s) && s' == SkipSpace(t, s)
    ensures yes <==> HeadIn(Tokens(t, s), toks)
  {
    s' := SkipSpaces(t, s);
    SkipTwice(t, s);
    yes := s' < |t| && t[s'] in toks;
    if s' < |t| { FirstHead(t, s', toks); }
  }

  method SkipSpaces(t: string, s: nat) returns (i: nat)
    requires s <= |t|
    ensures i == SkipSpace(t, s)
  {
    i := s;
    while i < |t| && Space(t[i])
      invariant s <= i <= |t| && SkipSpace(t, i) == SkipSpace(t, s)
    {
      i := i + 1;
    }
  }

  lemma SkipTwice(t: string, s: nat)
    requires s <= |t|
    ensures SkipSpace(t, SkipSpace(t, s)) == SkipSpace(t, s)
    ensures Tokens(t, SkipSpace(t, s)) == Tokens(t, s)
  {
  }

  lemma FirstHead(t: string, i: nat, toks: string)
    requires i < |t| && !Space(t[i]) && forall c :: c in toks ==> Symbol(c) && c != '+'
    ensures t[i] in toks <==> HeadIn(Tokens(t, i), toks)
  {
    assert Tokens(t, i)[0] == First(t, i).0;
  }

  // The next token: tok is 0 at the end, 'a' for a word, '+' for >>.
  method GetToken(t: CString, s: nat) returns (tok: char, q: nat, eq: nat, s': nat)
    requires s <= |t|
    ensures s' <= |t| && q <= eq <= |t|
    ensures tok == '\0' <==> Tokens(t, s) == []
    ensures tok == '\0' ==> Tokens(t, s') == []
    ensures tok != '\0' ==> Tokens(t, s) == [if tok == 'a' then Word((q, eq)) else Sym(tok)] + Tokens(t, s')
  {
    hide First;
    q := SkipSpaces(t, s);
    SkipTwice(t, s);
    if q == |t| {
      tok, eq := '\0', q;
    } else {
      tok, eq := TokenAt(t, q);
    }
    s' := SkipSpaces(t, eq);
    SkipTwice(t, eq);
  }

  // The switch of gettoken.
  method TokenAt(t: CString, q: nat) returns (tok: char, eq: nat)
    requires q < |t| && !Space(t[q])
    ensures tok != '\0' && q <= eq <= |t|
    ensures First(t, q) == (if tok == 'a' then Word((q, eq)) else Sym(tok), eq)
  {
    if t[q] == '>' {
      tok, eq := '>', q + 1;
      if eq < |t| && t[eq] == '>' {
        tok, eq := '+', eq + 1;
      }
    } else if Symbol(t[q]) {
      tok, eq := t[q], q + 1;
    } else {
      eq := SkipWord(t, q);
      tok := 'a';
    }
  }

  method SkipWord(t: string, s: nat) returns (i: nat)
    requires s <= |t|
    ensures i == WordEnd(t, s)
  {
    i := s;
    while i < |t| && !Space(t[i]) && !Symbol(t[i])
      invariant s <= i <= |t| && WordEnd(t, i) == WordEnd(t, s)
    {
      i := i + 1;
    }
  }

  // --- recursive descent ---

  method ParseRedirs(t: CString, cmd: Cmd<Span>, s: nat) returns (r: Result, s': nat)
    requires s <= |t|
    ensures Agrees(t, r, s', Redirs(cmd, Tokens(t, s)))
  {
    hide Tokens;
    var ret := cmd;
    var more;
    s', more := Peek(t, s, "<>");
    while more
      invariant s' <= |t| && (more <==> HeadIn(Tokens(t, s'), "<>"))
      invariant Redirs(ret, Tokens(t, s')) == Redirs(cmd, Tokens(t, s))
      decreases |Tokens(t, s')|
    {
      ghost var here := Tokens(t, s');
      var tok, file, q, eq;
      tok, q, eq, s' := GetToken(t, s');
      assert here[1..] == Tokens(t, s');
      file, q, eq, s' := GetToken(t, s');
      assert file != '\0' ==> here[2..] == Tokens(t, s');
      if file != 'a' {
        r := Panic(MissingFile);
        return;
      }
      ret := Redir(ret, (q, eq), ModeOf(tok));
      s', more := Peek(t, s', "<>");
    }
    r := Done(ret);
  }

  method ParseExec(t: CString, s: nat) returns (r: Result, s': nat)
    requires s <= |t|
    ensures Agrees(t, r, s', ShellSpec.ParseExec(Tokens(t, s)))
    decreases |Tokens(t, s)|, 1
  {
    hide Tokens;
    var block;
    s', block := Peek(t, s, "(");
    if block {
      r, s' := ParseBlock(t, s');
      return;
    }
    var argv: seq<Span> := [];
    r, s' := ParseRedirs(t, Exec([]), s');
    if r.Panic? {
      return;
    }
    var ret := r.cmd;
    var end;
    s', end := Peek(t, s', "|)&;");
    while !end
      invariant s' <= |t| && (end <==> HeadIn(Tokens(t, s'), "|)&;")) && |argv| < MAXARGS
      invariant ShellSpec.ParseExec(Tokens(t, s)) == Args(ret, argv, Tokens(t, s'))
      decreases |Tokens(t, s')|
    {
      ghost var here := Tokens(t, s');
      var tok, q, eq;
      tok, q, eq, s' := GetToken(t, s');
      if tok == '\0' {
        break;
      }
      if tok != 'a' {
        return Panic(Syntax), s';
      }
      argv := argv + [(q, eq)];
      if |argv| >= MAXARGS {
        return Panic(TooManyArgs), s';
      }
      assert here[1..] == Tokens(t, s');
      r, s' := ParseRedirs(t, ret, s');
      if r.Panic? {
        return;
      }
      ret := r.cmd;
      s', end := Peek(t, s', "|)&;");
    }
    r := Done(WithArgs(ret, argv));
  }

  method ParseBlock(t: CString, s: nat) returns (r: Result, s': nat)
    requires s <= |t| && HeadIn(Tokens(t, s), "(")
    ensures Agrees(t, r, s', ShellSpec.ParseBlock(Tokens(t, s)))
    decreases |Tokens(t, s)|, 0
  {
    hide Tokens;
    ghost var here := Tokens(t, s);
    var tok, q, eq;
    tok, q, eq, s' := GetToken(t, s);
    assert here[1..] == Tokens(t, s');
    r, s' := ParseLine(t, s');
    if r.Panic? {
      return;
    }
    ghost var rest := Tokens(t, s');
    var close;
    s', close := Peek(t, s', ")");
    if !close {
      return Panic(MissingParen), s';
    }
    tok, q, eq, s' := GetToken(t, s');
    assert rest[1..] == Tokens(t, s');
    r, s' := ParseRedirs(t, r.cmd, s');
  }

  method ParsePipe(t: CString, s: nat) returns (r: Result, s': nat)
    requires s <= |t|
    ensures Agrees(t, r, s', ShellSpec.ParsePipe(Tokens(t, s)))
    decreases |Tokens(t, s)|, 2
  {
    hide Tokens;
    r, s' := ParseExec(t, s);
    if r.Panic? {
      return;
    }
    ghost var rest := Tokens(t, s');
    var more;
    s', more := Peek(t, s', "|");
    if more {
      var tok, q, eq;
      tok, q, eq, s' := GetToken(t, s');
      assert rest[1..] == Tokens(t, s');
      var left := r.cmd;
      r, s' := ParsePipe(t, s');
      if r.Panic? {
        return;
      }
      r := Done(Pipe(left, r.cmd));
    }
  }

  method ParseLine(t: CString, s: nat) returns (r: Result, s': nat)
    requires s <= |t|
    ensures Agrees(t, r, s', ShellSpec.ParseLine(Tokens(t, s)))
    decreases |Tokens(t, s)|, 3
  {
    hide Tokens;
    r, s' := ParsePipe(t, s);
    if r.Panic? {
      return;
    }
    ghost var rest0 := Tokens(t, s');
    var cmd, more := r.cmd, false;
    s', more := Peek(t, s', "&");
    while more
      invariant s' <= |t| && (more <==> HeadIn(Tokens(t, s'), "&"))
      invariant Backs(r.cmd, rest0) == Backs(cmd, Tokens(t, s'))
      decreases |Tokens(t, s')|
    {
      ghost var here := Tokens(t, s');
      var tok, q, eq;
      tok, q, eq, s' := GetToken(t, s');
      assert here[1..] == Tokens(t, s');
      cmd := Back(cmd);
      s', more := Peek(t, s', "&");
    }
    ghost var rest := Tokens(t, s');
    s', more := Peek(t, s', ";");
    if more {
      var tok, q, eq;
      tok, q, eq, s' := GetToken(t, s');
      assert rest[1..] == Tokens(t, s');
      r, s' := ParseLine(t, s');
      if r.Panic? {
        return;
      }
      cmd := List(cmd, r.cmd);
    }
    r := Done(cmd);
  }

  // --- NUL termination ---

  // w is a longest run of word characters.
  ghost predicate WordSpan(t: string, w: Span) {
    && w.0 < w.1 <= |t| && (w.1 < |t| ==> !WordChar(t[w.1]))
    && forall j :: w.0 <= j < w.1 ==> WordChar(t[j])
  }

  ghost predicate AllSpans(t: string, c: Cmd<Span>) {
    match c
    case Exec(args) => forall i :: 0 <= i < |args| ==> WordSpan(t, args[i])
    case Redir(d, f, _) => AllSpans(t, d) && WordSpan(t, f)
    case Pipe(l, r) => AllSpans(t, l) && AllSpans(t, r)
    case List(l, r) => AllSpans(t, l) && AllSpans(t, r)
    case Back(d) => AllSpans(t, d)
  }

  ghost predicate TokSpans(t: string, ts: seq<Tok<Span>>) {
    forall i :: 0 <= i < |ts| && ts[i].Word? ==> WordSpan(t, ts[i].w)
  }

  lemma {:induction false} TokensSpans(t: CString, s: nat)
    requires s <= |t|
    ensures TokSpans(t, Tokens(t, s))
    decreases |t| - s
  {
    var i := SkipSpace(t, s);
    if i < |t| {
      var (tok, e) := First(t, i);
      TokensSpans(t, e);
    }
  }

  lemma {:induction false} RedirsSpans(t: string, cmd: Cmd<Span>, ts: seq<Tok<Span>>)
    requires TokSpans(t, ts) && AllSpans(t, cmd)
    ensures var p := Redirs(cmd, ts); p.Ok? ==> AllSpans(t, p.cmd) && TokSpans(t, p.rest)
    decreases |ts|
  {
    if HeadIn(ts, "<>") && |ts| >= 2 && ts[1].Word? {
      RedirsSpans(t, Redir(cmd, ts[1].w, ModeOf(ts[0].c)), ts[2..]);
    }
  }

  lemma {:induction false} WithArgsSpans(t: string, cmd: Cmd<Span>, args: seq<Span>)
    requires AllSpans(t, cmd) && AllSpans(t, Exec(args))
    ensures AllSpans(t, WithArgs(cmd, args))
    decreases cmd
  {
    if cmd.Redir? { WithArgsSpans(t, cmd.cmd, args); }
  }

  lemma {:induction false} ArgsSpans(t: string, cmd: Cmd<Span>, args: seq<Span>, ts: seq<Tok<Span>>)
    requires TokSpans(t, ts) && AllSpans(t, cmd) && AllSpans(t, Exec(args))
    ensures var p := Args(cmd, args, ts); p.Ok? ==> AllSpans(t, p.cmd) && TokSpans(t, p.rest)
    decreases |ts|
  {
    WithArgsSpans(t, cmd, args);
    if ts != [] && ts[0].Word? {
      RedirsSpans(t, cmd, ts[1..]);
      var p := Redirs(cmd, ts[1..]);
      if p.Ok? { ArgsSpans(t, p.cmd, args + [ts[0].w], p.rest); }
    }
  }

  lemma {:induction false} BacksSpans(t: string, cmd: Cmd<Span>, ts: seq<Tok<Span>>)
    requires TokSpans(t, ts) && AllSpans(t, cmd)
    ensures var p := Backs(cmd, ts); AllSpans(t, p.0) && TokSpans(t, p.1)
    decreases |ts|
  {
    if HeadIn(ts, "&") { BacksSpans(t, Back(cmd), ts[1..]); }
  }

  lemma {:induction false} ExecSpans(t: string, ts: seq<Tok<Span>>)
    requires TokSpans(t, ts)
    ensures var p := ShellSpec.ParseExec(ts); p.Ok? ==> AllSpans(t, p.cmd) && TokSpans(t, p.rest)
    decreases |ts|, 1
  {
    if HeadIn(ts, "(") {
      LineSpans(t, ts[1..]);
      var p := ShellSpec.ParseLine(ts[1..]);
      if p.Ok? && HeadIn(p.rest, ")") { RedirsSpans(t, p.cmd, p.rest[1..]); }
    } else {
      RedirsSpans(t, Exec([]), ts);
      var p := Redirs(Exec([]), ts);
      if p.Ok? { ArgsSpans(t, p.cmd, [], p.rest); }
    }
  }

  lemma {:induction false} PipeSpans(t: string, ts: seq<Tok<Span>>)
    requires TokSpans(t, ts)
    ensures var p := ShellSpec.ParsePipe(ts); p.Ok? ==> AllSpans(t, p.cmd) && TokSpans(t, p.rest)
    decreases |ts|, 2
  {
    ExecSpans(t, ts);
    var p := ShellSpec.ParseExec(ts);
    if p.Ok? && HeadIn(p.rest, "|") { PipeSpans(t, p.rest[1..]); }
  }

  lemma {:induction false} LineSpans(t: string, ts: seq<Tok<Span>>)
    requires TokSpans(t, ts)
    ensures var p := ShellSpec.ParseLine(ts); p.Ok? ==> AllSpans(t, p.cmd) && TokSpans(t, p.rest)
    decreases |ts|, 3
  {
    PipeSpans(t, ts);
    var p := ShellSpec.ParsePipe(ts);
    if p.Ok? {
      BacksSpans(t, p.cmd, p.rest);
      var (c, rest) := Backs(p.cmd, p.rest);
      if HeadIn(rest, ";") { LineSpans(t, rest[1..]); }
    }
  }

  // The places where nulterminate writes.
  ghost predicate EndsAt(c: Cmd<Span>, e: nat) {
    match c
    case Exec(args) => exists i :: 0 <= i < |args| && args[i].1 == e
    case Redir(d, f, _) => EndsAt(d, e) || f.1 == e
    case Pipe(l, r) => EndsAt(l, e) || EndsAt(r, e)
    case List(l, r) => EndsAt(l, e) || EndsAt(r, e)
    case Back(d) => EndsAt(d, e)
  }

  method NulTerminate(buf: array<char>, t: string, c: Cmd<Span>)
    requires AllSpans(t, c) && |t| < buf.Length
    modifies buf
    ensures forall i :: 0 <= i < buf.Length ==> buf[i] == if EndsAt(c, i) then '\0' else old(buf[i])
    decreases c
  {
    match c
    case Exec(args) =>
      for i := 0 to |args|
        invariant forall j :: 0 <= j < buf.Length ==>
                    buf[j] == if exists k :: 0 <= k < i && args[k].1 == j then '\0' else old(buf[j])
      {
        assert WordSpan(t, args[i]);
        buf[args[i].1] := '\0';
      }
    case Redir(d, f, _) =>
      NulTerminate(buf, t, d);
      buf[f.1] := '\0';
    case Pipe(l, r) =>
      NulTerminate(buf, t, l);
      NulTerminate(buf, t, r);
    case List(l, r) =>
      NulTerminate(buf, t, l);
      NulTerminate(buf, t, r);
    case Back(d) =>
      NulTerminate(buf, t, d);
  }

  // Nothing is written inside a word.
  lemma {:induction false} EndsOutside(t: string, c: Cmd<Span>, e: nat)
    requires AllSpans(t, c) && EndsAt(c, e)
    ensures e <= |t| && (e < |t| ==> !WordChar(t[e]))
    decreases c
  {
    match c
    case Exec(args) =>
      var i :| 0 <= i < |args| && args[i].1 == e;
      assert WordSpan(t, args[i]);
    case Redir(d, f, _) => if EndsAt(d, e) { EndsOutside(t, d, e); }
    case Pipe(l, r) => if EndsAt(l, e) { EndsOutside(t, l, e); } else { EndsOutside(t, r, e); }
    case List(l, r) => if EndsAt(l, e) { EndsOutside(t, l, e); } else { EndsOutside(t, r, e); }
    case Back(d) => EndsOutside(t, d, e);
  }

  // w is a word of the tree.
  ghost predicate HasWord(c: Cmd<Span>, w: Span) {
    match c
    case Exec(args) => w in args
    case Redir(d, f, _) => HasWord(d, w) || f == w
    case Pipe(l, r) => HasWord(l, w) || HasWord(r, w)
    case List(l, r) => HasWord(l, w) || HasWord(r, w)
    case Back(d) => HasWord(d, w)
  }

  lemma {:induction false} HasWordEnds(t: string, c: Cmd<Span>, w: Span)
    requires AllSpans(t, c) && HasWord(c, w)
    ensures WordSpan(t, w) && EndsAt(c, w.1)
    decreases c
  {
    match c
    case Exec(args) => var i :| 0 <= i < |args| && args[i] == w;
    case Redir(d, f, _) => if HasWord(d, w) { HasWordEnds(t, d, w); }
    case Pipe(l, r) => if HasWord(l, w) { HasWordEnds(t, l, w); } else { HasWordEnds(t, r, w); }
    case List(l, r) => if HasWord(l, w) { HasWordEnds(t, l, w); } else { HasWordEnds(t, r, w); }
    case Back(d) => HasWordEnds(t, d, w);
  }

  // Parses the C string in buf[..n].  In the tree that comes out every word is a C string:
  // its characters are as they were and a NUL follows.
  method ParseCmd(buf: array<char>, n: nat) returns (r: Result)
    requires n < buf.Length && '\0' !in buf[..n]
    modifies buf
    ensures match ShellSpec.ParseCmd(Tokens(old(buf[..n]), 0))
            case Ok(c, _) => r == Done(c)
            case Fail(e) => r == Panic(e) && buf[..] == old(buf[..])
    ensures r.Done? ==> forall w: Span :: HasWord(r.cmd, w) ==>
                          w.0 < w.1 <= n && buf[w.0..w.1] == old(buf[w.0..w.1]) && '\0' !in buf[w.0..w.1] && buf[w.1] == '\0'
  {
    hide Tokens;
    var t: CString := buf[..n];
    var s, more;
    r, s := ParseLine(t, 0);
    if r.Panic? {
      return;
    }
    s, more := Peek(t, s, "");
    AtEndOrNot(t, s);
    if s != n {
      return Panic(Leftovers);
    }
    TokensSpans(t, 0);
    LineSpans(t, Tokens(t, 0));
    var c := r.cmd;
    NulTerminate(buf, t, c);
    forall w: Span | HasWord(c, w)
      ensures w.0 < w.1 <= n && buf[w.0..w.1] == t[w.0..w.1] && '\0' !in buf[w.0..w.1] && buf[w.1] == '\0'
    {
      HasWordEnds(t, c, w);
      WordInside(t, c, w);
      assert forall j :: w.0 <= j < w.1 ==> buf[j] == t[j];
      assert buf[w.0..w.1] == t[w.0..w.1];
    }
  }

  lemma WordInside(t: string, c: Cmd<Span>, w: Span)
    requires AllSpans(t, c) && WordSpan(t, w)
    ensures forall j :: w.0 <= j < w.1 ==> !EndsAt(c, j) && t[j] != '\0'
  {
    forall j | w.0 <= j < w.1 ensures !EndsAt(c, j) && t[j] != '\0' {
      if EndsAt(c, j) { EndsOutside(t, c, j); }
    }
  }

  lemma AtEndOrNot(t: string, s: nat)
    requires s <= |t| && (s < |t| ==> !Space(t[s]))
    ensures Tokens(t, s) == [] <==> s == |t|
  {
  }
}
