/** Command lines as text: exactly which texts are parsed, and as which trees. */
module ShellPrint {
  import opened ShellSpec
  import opened ShellGrammar

  // --- spelling ---

  predicate IsWord(w: string) { w != "" && forall i :: 0 <= i < |w| ==> WordChar(w[i]) }

  function TokText(k: Tok<string>): string {
    match k case Word(w) => w case Sym(c) => if c == '+' then ">>" else [c]
  }

  predicate TokOk(k: Tok<string>) { match k case Word(w) => IsWord(w) case Sym(c) => Symbol(c) || c == '+' }

  // The tokens would run together.
  predicate Touch(a: Tok<string>, b: Tok<string>) {
    (a.Word? && b.Word?) || (a == Sym('>') && (b == Sym('>') || b == Sym('+')))
  }

  predicate AllSpace(g: string) { forall i :: 0 <= i < |g| ==> Space(g[i]) }

  // White space for before, between and after the tokens.
  ghost predicate Gaps(ts: seq<Tok<string>>, gaps: seq<string>) {
    && |gaps| == |ts| + 1
    && (forall i :: 0 <= i < |gaps| ==> AllSpace(gaps[i]))
    && (forall i :: 0 <= i < |ts| ==> TokOk(ts[i]))
    && (forall i :: 1 <= i < |ts| && Touch(ts[i - 1], ts[i]) ==> gaps[i] != "")
  }

  function Spelled(ts: seq<Tok<string>>, gaps: seq<string>): string
    requires |gaps| == |ts| + 1
  {
    if ts == [] then gaps[0] else gaps[0] + (TokText(ts[0]) + Spelled(ts[1..], gaps[1..]))
  }

  // --- words in place and as strings ---

  function Slice(t: string, w: Span): string {
    if w.0 <= w.1 <= |t| then t[w.0..w.1] else ""
  }

  function TokString(t: string, k: Tok<Span>): Tok<string> {
    match k case Word(w) => Word(Slice(t, w)) case Sym(c) => Sym(c)
  }

  function TokStrings(t: string, ts: seq<Tok<Span>>): (r: seq<Tok<string>>)
    ensures |r| == |ts| && forall i :: 0 <= i < |ts| ==> r[i] == TokString(t, ts[i])
  {
    seq(|ts|, i requires 0 <= i < |ts| => TokString(t, ts[i]))
  }

  function ArgStrings(t: string, args: seq<Span>): (r: seq<string>)
    ensures |r| == |args| && forall i :: 0 <= i < |args| ==> r[i] == Slice(t, args[i])
  {
    seq(|args|, i requires 0 <= i < |args| => Slice(t, args[i]))
  }

  function Strings(t: string, c: Cmd<Span>): Cmd<string> {
    match c
    case Exec(args) => Exec(ArgStrings(t, args))
    case Redir(d, f, m) => Redir(Strings(t, d), Slice(t, f), m)
    case Pipe(l, r) => Pipe(Strings(t, l), Strings(t, r))
    case List(l, r) => List(Strings(t, l), Strings(t, r))
    case Back(d) => Back(Strings(t, d))
  }

  function ParsedStrings(t: string, p: Parsed<Span>): Parsed<string> {
    match p case Fail(e) => Fail(e) case Ok(c, rest) => Ok(Strings(t, c), TokStrings(t, rest))
  }

  // --- lexing a spelled text ---

  lemma {:induction false} SkipGap(t: string, s: nat, g: string, rest: string)
    requires s <= |t| && t[s..] == g + rest && AllSpace(g) && (rest != "" ==> !Space(rest[0]))
    ensures SkipSpace(t, s) == s + |g|
    decreases |g|
  {
    if g == "" {
      assert t[s..] == rest;
      assert rest != "" ==> t[s] == rest[0];
    } else {
      assert t[s] == t[s..][0] == g[0];
      assert t[s + 1..] == g[1..] + rest by { assert t[s + 1..] == t[s..][1..]; }
      SkipGap(t, s + 1, g[1..], rest);
    }
  }

  lemma {:induction false} WordStops(t: string, s: nat, w: string, rest: string)
    requires s <= |t| && t[s..] == w + rest && (forall i :: 0 <= i < |w| ==> WordChar(w[i]))
    requires rest != "" ==> Space(rest[0]) || Symbol(rest[0])
    ensures WordEnd(t, s) == s + |w|
    decreases |w|
  {
    if w == "" {
      assert t[s..] == rest;
      assert rest != "" ==> t[s] == rest[0];
    } else {
      assert t[s] == t[s..][0] == w[0];
      assert t[s + 1..] == w[1..] + rest by { assert t[s + 1..] == t[s..][1..]; }
      WordStops(t, s + 1, w[1..], rest);
    }
  }

  // What may follow a token.
  predicate Stops(k: Tok<string>, rest: string) {
    rest != "" ==> (k.Word? ==> Space(rest[0]) || Symbol(rest[0])) && (k == Sym('>') ==> rest[0] != '>')
  }

  lemma FirstTok(t: string, s: nat, k: Tok<string>, rest: string)
    requires s <= |t| && t[s..] == TokText(k) + rest && TokOk(k) && Stops(k, rest)
    ensures s < |t| && !Space(t[s]) && First(t, s).1 == s + |TokText(k)| && TokString(t, First(t, s).0) == k
  {
    var x := TokText(k);
    assert t[s] == t[s..][0] == x[0];
    match k
    case Word(w) =>
      assert WordChar(w[0]);
      WordStops(t, s, w, rest);
      assert t[s..s + |w|] == t[s..][..|w|] == w;
    case Sym(c) =>
      assert s + 1 < |t| ==> t[s + 1] == t[s..][1];
  }

  lemma StartsWith(k: Tok<string>)
    requires TokOk(k)
    ensures TokText(k) != "" && !Space(TokText(k)[0]) && (k.Sym? ==> Symbol(TokText(k)[0]))
    ensures TokText(k)[0] == '>' <==> k == Sym('>') || k == Sym('+')
  {
    if k.Word? { assert WordChar(k.w[0]); }
  }

  lemma Following(ts: seq<Tok<string>>, gaps: seq<string>)
    requires ts != [] && Gaps(ts, gaps)
    ensures Gaps(ts[1..], gaps[1..]) && Stops(ts[0], Spelled(ts[1..], gaps[1..]))
  {
    if |ts| > 1 {
      StartsWith(ts[1]);
      assert Touch(ts[0], ts[1]) ==> gaps[1] != "";
    }
    assert AllSpace(gaps[1]);
  }

  lemma Dropped(t: string, s: nat, a: string, b: string)
    requires s <= |t| && t[s..] == a + b
    ensures s + |a| <= |t| && t[s + |a|..] == b
  {
    assert t[s + |a|..] == t[s..][|a|..];
  }

  lemma TokensAt(t: string, s: nat)
    requires s <= |t| && SkipSpace(t, s) < |t|
    ensures var i := SkipSpace(t, s);
            TokStrings(t, Tokens(t, s)) == [TokString(t, First(t, i).0)] + TokStrings(t, Tokens(t, First(t, i).1))
  {
    hide First, TokString;
  }

  // White space, a token and the rest.
  lemma LexOne(t: string, s: nat, g: string, k: Tok<string>, rest: string)
    requires s <= |t| && t[s..] == g + (TokText(k) + rest) && AllSpace(g) && TokOk(k) && Stops(k, rest)
    ensures var e := s + |g| + |TokText(k)|;
            e <= |t| && t[e..] == rest && TokStrings(t, Tokens(t, s)) == [k] + TokStrings(t, Tokens(t, e))
  {
    hide TokText, TokOk, Stops, First, Tokens, TokString, TokStrings, AllSpace;
    StartsWith(k);
    SkipGap(t, s, g, TokText(k) + rest);
    Dropped(t, s, g, TokText(k) + rest);
    FirstTok(t, s + |g|, k, rest);
    Dropped(t, s + |g|, TokText(k), rest);
    TokensAt(t, s);
  }

  lemma LexNone(t: string, s: nat)
    requires s <= |t| && AllSpace(t[s..])
    ensures TokStrings(t, Tokens(t, s)) == []
  {
    assert t[s..] == t[s..] + "";
    SkipGap(t, s, t[s..], "");
  }

  // A text spelled from tokens lexes to them, whatever the white space.
  lemma {:induction false} Lexes(t: string, s: nat, ts: seq<Tok<string>>, gaps: seq<string>)
    requires s <= |t| && Gaps(ts, gaps) && t[s..] == Spelled(ts, gaps)
    ensures TokStrings(t, Tokens(t, s)) == ts
    decreases |ts|
  {
    hide TokText, Stops, Touch, TokOk, Tokens, AllSpace;
    if ts == [] {
      LexNone(t, s);
    } else {
      Following(ts, gaps);
      LexOne(t, s, gaps[0], ts[0], Spelled(ts[1..], gaps[1..]));
      Lexes(t, s + |gaps[0]| + |TokText(ts[0])|, ts[1..], gaps[1..]);
    }
  }

  // --- every text is spelled from its tokens ---

  // The token at s and the text after it.
  lemma FirstText(t: string, s: nat)
    requires s < |t| && !Space(t[s]) && '\0' !in t
    ensures var k, e := TokString(t, First(t, s).0), First(t, s).1;
            TokOk(k) && t[s..] == TokText(k) + t[e..] && Stops(k, t[e..])
  {
    var e := First(t, s).1;
    assert t[s..] == t[s..e] + t[e..];
    if Symbol(t[s]) { assert t[s..e] == TokText(TokString(t, First(t, s).0)); }
  }

  lemma {:induction false} Spells(t: string, s: nat) returns (gaps: seq<string>)
    requires s <= |t| && '\0' !in t
    ensures Gaps(TokStrings(t, Tokens(t, s)), gaps) && t[s..] == Spelled(TokStrings(t, Tokens(t, s)), gaps)
    decreases |t| - s
  {
    hide First, TokString, TokText, TokOk, Stops, Touch;
    var i := SkipSpace(t, s);
    var g := t[s..i];
    assert AllSpace(g);
    if i == |t| {
      gaps := [g];
      assert Tokens(t, s) == [] && t[s..] == g;
    } else {
      var k, e := TokString(t, First(t, i).0), First(t, i).1;
      FirstText(t, i);
      var more := Spells(t, e);
      gaps := [g] + more;
      TokensAt(t, s);
      GapsMore(g, k, TokStrings(t, Tokens(t, e)), more);
      assert t[s..] == g + t[i..];
    }
  }

  lemma GapsMore(g: string, k: Tok<string>, ts: seq<Tok<string>>, gaps: seq<string>)
    requires Gaps(ts, gaps) && AllSpace(g) && TokOk(k) && Stops(k, Spelled(ts, gaps))
    ensures Gaps([k] + ts, [g] + gaps) && Spelled([k] + ts, [g] + gaps) == g + (TokText(k) + Spelled(ts, gaps))
  {
    assert ([k] + ts)[1..] == ts && ([g] + gaps)[1..] == gaps;
    if ts != [] && gaps[0] == "" {
      StartsWith(ts[0]);
      if ts[0].Word? { assert WordChar(TokText(ts[0])[0]); }
    }
  }

  // --- parsing does not look at the words ---

  lemma TokStringsDrop(t: string, ts: seq<Tok<Span>>, k: nat)
    requires k <= |ts|
    ensures TokStrings(t, ts)[k..] == TokStrings(t, ts[k..])
  {
  }

  lemma HeadStrings(t: string, ts: seq<Tok<Span>>, cs: string)
    ensures HeadIn(TokStrings(t, ts), cs) <==> HeadIn(ts, cs)
  {
  }

  lemma {:induction false} RedirsStrings(t: string, c: Cmd<Span>, ts: seq<Tok<Span>>)
    ensures Redirs(Strings(t, c), TokStrings(t, ts)) == ParsedStrings(t, Redirs(c, ts))
    decreases |ts|
  {
    HeadStrings(t, ts, "<>");
    if HeadIn(ts, "<>") && |ts| >= 2 && ts[1].Word? {
      TokStringsDrop(t, ts, 2);
      RedirsStrings(t, Redir(c, ts[1].w, ModeOf(ts[0].c)), ts[2..]);
    }
  }

  lemma {:induction false} WithArgsStrings(t: string, c: Cmd<Span>, args: seq<Span>)
    ensures Strings(t, WithArgs(c, args)) == WithArgs(Strings(t, c), ArgStrings(t, args))
    decreases c
  {
    if c.Redir? { WithArgsStrings(t, c.cmd, args); }
  }

  lemma {:induction false} ArgsStrings(t: string, c: Cmd<Span>, args: seq<Span>, ts: seq<Tok<Span>>)
    ensures Args(Strings(t, c), ArgStrings(t, args), TokStrings(t, ts)) == ParsedStrings(t, Args(c, args, ts))
    decreases |ts|
  {
    hide Redirs;
    HeadStrings(t, ts, "|)&;");
    if ts == [] || HeadIn(ts, "|)&;") {
      WithArgsStrings(t, c, args);
    } else if ts[0].Word? && |args| + 1 < MAXARGS {
      TokStringsDrop(t, ts, 1);
      RedirsStrings(t, c, ts[1..]);
      var r := Redirs(c, ts[1..]);
      assert ArgStrings(t, args + [ts[0].w]) == ArgStrings(t, args) + [Slice(t, ts[0].w)];
      if r.Ok? { ArgsStrings(t, r.cmd, args + [ts[0].w], r.rest); }
    }
  }

  lemma {:induction false} ExecStrings(t: string, ts: seq<Tok<Span>>)
    ensures ParseExec(TokStrings(t, ts)) == ParsedStrings(t, ParseExec(ts))
    decreases |ts|, 0
  {
    hide Redirs, Args, ParseLine;
    HeadStrings(t, ts, "(");
    if HeadIn(ts, "(") {
      TokStringsDrop(t, ts, 1);
      LineStrings(t, ts[1..]);
      var r := ParseLine(ts[1..]);
      if r.Ok? {
        HeadStrings(t, r.rest, ")");
        if HeadIn(r.rest, ")") {
          TokStringsDrop(t, r.rest, 1);
          RedirsStrings(t, r.cmd, r.rest[1..]);
        }
      }
    } else {
      assert ArgStrings(t, []) == [];
      RedirsStrings(t, Exec([]), ts);
      var r := Redirs(Exec([]), ts);
      if r.Ok? { ArgsStrings(t, r.cmd, [], r.rest); }
    }
  }

  lemma {:induction false} PipeStrings(t: string, ts: seq<Tok<Span>>)
    ensures ParsePipe(TokStrings(t, ts)) == ParsedStrings(t, ParsePipe(ts))
    decreases |ts|, 1
  {
    hide ParseExec;
    ExecStrings(t, ts);
    var r := ParseExec(ts);
    if r.Ok? {
      HeadStrings(t, r.rest, "|");
      if HeadIn(r.rest, "|") {
        TokStringsDrop(t, r.rest, 1);
        PipeStrings(t, r.rest[1..]);
      }
    }
  }

  lemma {:induction false} BacksStrings(t: string, c: Cmd<Span>, ts: seq<Tok<Span>>)
    ensures Backs(Strings(t, c), TokStrings(t, ts)) == (Strings(t, Backs(c, ts).0), TokStrings(t, Backs(c, ts).1))
    decreases |ts|
  {
    HeadStrings(t, ts, "&");
    if HeadIn(ts, "&") {
      TokStringsDrop(t, ts, 1);
      BacksStrings(t, Back(c), ts[1..]);
    }
  }

  lemma {:induction false} LineStrings(t: string, ts: seq<Tok<Span>>)
    ensures ParseLine(TokStrings(t, ts)) == ParsedStrings(t, ParseLine(ts))
    decreases |ts|, 2
  {
    hide ParsePipe, Backs;
    PipeStrings(t, ts);
    var r := ParsePipe(ts);
    if r.Ok? {
      BacksStrings(t, r.cmd, r.rest);
      var rest := Backs(r.cmd, r.rest).1;
      HeadStrings(t, rest, ";");
      if HeadIn(rest, ";") {
        TokStringsDrop(t, rest, 1);
        LineStrings(t, rest[1..]);
      }
    }
  }

  // --- texts and trees ---

  // The text is parsed, and c is its tree with the words as strings.
  predicate ReadAs(t: string, c: Cmd<string>) {
    ParseCmd(Tokens(t, 0)).Ok? && Strings(t, ParseCmd(Tokens(t, 0)).cmd) == c
  }

  lemma ReadAsTokens(t: string, c: Cmd<string>)
    ensures ReadAs(t, c) <==> ParseCmd(TokStrings(t, Tokens(t, 0))) == Ok(c, [])
  {
    hide ParseLine, Tokens, Strings;
    LineStrings(t, Tokens(t, 0));
  }

  // A spelled command line is read as what it stands for.
  lemma PhraseText(p: Phrase<string>, gaps: seq<string>)
    requires Shape(p, 3) && Gaps(Written(p), gaps)
    ensures ReadAs(Spelled(Written(p), gaps), Tree(p))
  {
    var t := Spelled(Written(p), gaps);
    assert t[0..] == t;
    Lexes(t, 0, Written(p), gaps);
    hide ReadAs, ParseCmd, Tokens, Shape, Gaps, Written, Tree, Spelled;
    Grammar(Written(p), Tree(p));
    ReadAsTokens(t, Tree(p));
  }

  /** A text is read as a tree exactly when it is a command line that stands for the tree, spelled
      with any white space that keeps its tokens apart. */
  lemma TextGrammar(t: string, c: Cmd<string>)
    requires '\0' !in t
    ensures ReadAs(t, c)
            <==> exists p, gaps :: Shape(p, 3) && Gaps(Written(p), gaps) && Spelled(Written(p), gaps) == t && Tree(p) == c
  {
    hide ReadAs, ParseCmd, Tokens, Shape, Written, Tree;
    if ReadAs(t, c) {
      ReadAsTokens(t, c);
      var ts := TokStrings(t, Tokens(t, 0));
      Grammar(ts, c);
      var p :| Shape(p, 3) && Written(p) == ts && Tree(p) == c;
      assert t[0..] == t;
      var gaps := Spells(t, 0);
    }
    forall p, gaps | Shape(p, 3) && Gaps(Written(p), gaps) && Spelled(Written(p), gaps) == t && Tree(p) == c ensures ReadAs(t, c) {
      PhraseText(p, gaps);
    }
  }

  // A tree printed with any white space is read as itself.
  lemma TextRoundTrip(c: Cmd<string>, gaps: seq<string>)
    requires Small(c) && Gaps(Print(c), gaps)
    ensures ReadAs(Spelled(Print(c), gaps), c)
  {
    hide ReadAs, Gaps, Source, Written, Spelled, Tree, Shape;
    SourceOk(c, 3);
    PhraseText(Source(c, 3), gaps);
  }
}
