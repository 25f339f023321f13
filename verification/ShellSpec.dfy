/** The command language of user/sh.c: its tokens, its grammar, and the trees it builds. */
module ShellSpec {
  const MAXARGS: nat := 10

  // --- trees ---

  datatype Mode = Read | Write | Append

  datatype Cmd<W> =
    | Exec(args: seq<W>)
    | Redir(cmd: Cmd<W>, file: W, mode: Mode)
    | Pipe(left: Cmd<W>, right: Cmd<W>)
    | List(left: Cmd<W>, right: Cmd<W>)
    | Back(cmd: Cmd<W>)

  // --- tokens ---

  predicate Space(c: char) { c in " \t\r\n" || c == 11 as char }

  predicate Symbol(c: char) { c in "<|>&;()" }

  predicate WordChar(c: char) { !Space(c) && !Symbol(c) && c != '\0' }

  // Sym('+') stands for >>.
  datatype Tok<W> = Word(w: W) | Sym(c: char)

  // A word of the text, from its first character to the one after its last.
  type Span = (nat, nat)

  function SkipSpace(t: string, s: nat): (i: nat)
    requires s <= |t|
    ensures s <= i <= |t| && (i < |t| ==> !Space(t[i])) && forall j :: s <= j < i ==> Space(t[j])
    decreases |t| - s
  {
    if s < |t| && Space(t[s]) then SkipSpace(t, s + 1) else s
  }

  function WordEnd(t: string, s: nat): (i: nat)
    requires s <= |t|
    ensures s <= i <= |t| && (i < |t| ==> Space(t[i]) || Symbol(t[i]))
    ensures forall j :: s <= j < i ==> !Space(t[j]) && !Symbol(t[j])
    decreases |t| - s
  {
    if s < |t| && !Space(t[s]) && !Symbol(t[s]) then WordEnd(t, s + 1) else s
  }

  // The first token at or after s, and the place where it ends.
  function First(t: string, s: nat): (r: (Tok<Span>, nat))
    requires s < |t| && !Space(t[s])
    ensures s < r.1 <= |t|
  {
    if t[s] == '>' && s + 1 < |t| && t[s + 1] == '>' then (Sym('+'), s + 2)
    else if Symbol(t[s]) then (Sym(t[s]), s + 1)
    else (Word((s, WordEnd(t, s))), WordEnd(t, s))
  }

  function Tokens(t: string, s: nat): seq<Tok<Span>>
    requires s <= |t|
    decreases |t| - s
  {
    var i := SkipSpace(t, s);
    if i == |t| then [] else
      var (tok, e) := First(t, i);
      [tok] + Tokens(t, e)
  }

  // --- the grammar ---

  datatype Error = MissingFile | MissingParen | Syntax | TooManyArgs | Leftovers

  datatype Parsed<W> = Ok(cmd: Cmd<W>, rest: seq<Tok<W>>) | Fail(error: Error)

  // The next token is a symbol whose first character is one of cs.
  predicate HeadIn<W(!new)>(ts: seq<Tok<W>>, cs: string) {
    ts != [] && ts[0].Sym? && (ts[0].c in cs || (ts[0].c == '+' && '>' in cs))
  }

  function ModeOf(c: char): Mode { if c == '<' then Read else if c == '>' then Write else Append }

  // parseredirs
  function Redirs<W(!new)>(cmd: Cmd<W>, ts: seq<Tok<W>>): (r: Parsed<W>)
    ensures r.Ok? ==> |r.rest| <= |ts| && !HeadIn(r.rest, "<>")
    decreases |ts|
  {
    if !HeadIn(ts, "<>") then Ok(cmd, ts)
    else if |ts| < 2 || !ts[1].Word? then Fail(MissingFile)
    else Redirs(Redir(cmd, ts[1].w, ModeOf(ts[0].c)), ts[2..])
  }

  // Puts the arguments into the exec command inside its redirections.
  function WithArgs<W>(cmd: Cmd<W>, args: seq<W>): Cmd<W> {
    match cmd
    case Exec(_) => Exec(args)
    case Redir(c, f, m) => Redir(WithArgs(c, args), f, m)
    case _ => cmd
  }

  // The loop of parseexec; cmd holds the redirections so far.
  function Args<W(!new)>(cmd: Cmd<W>, args: seq<W>, ts: seq<Tok<W>>): (r: Parsed<W>)
    ensures r.Ok? ==> |r.rest| <= |ts|
    decreases |ts|
  {
    if ts == [] || HeadIn(ts, "|)&;") then Ok(WithArgs(cmd, args), ts)
    else if !ts[0].Word? then Fail(Syntax)
    else if |args| + 1 >= MAXARGS then Fail(TooManyArgs)
    else
      match Redirs(cmd, ts[1..])
      case Fail(e) => Fail(e)
      case Ok(c, rest) => Args(c, args + [ts[0].w], rest)
  }

  function ParseExec<W(!new)>(ts: seq<Tok<W>>): (r: Parsed<W>)
    ensures r.Ok? ==> |r.rest| <= |ts|
    decreases |ts|, 1
  {
    if HeadIn(ts, "(") then ParseBlock(ts)
    else
      match Redirs(Exec([]), ts)
      case Fail(e) => Fail(e)
      case Ok(c, rest) => Args(c, [], rest)
  }

  function ParseBlock<W(!new)>(ts: seq<Tok<W>>): (r: Parsed<W>)
    requires HeadIn(ts, "(")
    ensures r.Ok? ==> |r.rest| < |ts|
    decreases |ts|, 0
  {
    match ParseLine(ts[1..])
    case Fail(e) => Fail(e)
    case Ok(c, rest) => if !HeadIn(rest, ")") then Fail(MissingParen) else Redirs(c, rest[1..])
  }

  function ParsePipe<W(!new)>(ts: seq<Tok<W>>): (r: Parsed<W>)
    ensures r.Ok? ==> |r.rest| <= |ts|
    decreases |ts|, 2
  {
    match ParseExec(ts)
    case Fail(e) => Fail(e)
    case Ok(c, rest) =>
      if !HeadIn(rest, "|") then Ok(c, rest)
      else
        match ParsePipe(rest[1..])
        case Fail(e) => Fail(e)
        case Ok(d, rest') => Ok(Pipe(c, d), rest')
  }

  // The loop of parseline.
  function Backs<W(!new)>(cmd: Cmd<W>, ts: seq<Tok<W>>): (r: (Cmd<W>, seq<Tok<W>>))
    ensures |r.1| <= |ts|
    decreases |ts|
  {
    if HeadIn(ts, "&") then Backs(Back(cmd), ts[1..]) else (cmd, ts)
  }

  function ParseLine<W(!new)>(ts: seq<Tok<W>>): (r: Parsed<W>)
    ensures r.Ok? ==> |r.rest| <= |ts|
    decreases |ts|, 3
  {
    match ParsePipe(ts)
    case Fail(e) => Fail(e)
    case Ok(c, rest0) =>
      var (c', rest) := Backs(c, rest0);
      if !HeadIn(rest, ";") then Ok(c', rest)
      else
        match ParseLine(rest[1..])
        case Fail(e) => Fail(e)
        case Ok(d, rest') => Ok(List(c', d), rest')
  }

  function ParseCmd<W(!new)>(ts: seq<Tok<W>>): Parsed<W> {
    match ParseLine(ts)
    case Fail(e) => Fail(e)
    case Ok(c, rest) => if rest != [] then Fail(Leftovers) else Ok(c, rest)
  }
}
