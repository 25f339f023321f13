/** The command lines of user/sh.c as they are written, apart from how they are parsed: the parser
    accepts exactly the token lists of the grammar, and builds the tree each of them stands for. */
module ShellGrammar {
  import opened ShellSpec

  // --- what is written ---

  // A part of a simple command.
  datatype Item<W> = Arg(w: W) | To(mode: Mode, file: W)

  datatype Phrase<W> =
    | Simple(items: seq<Item<W>>)
    | Group(inside: Phrase<W>, redirs: seq<Item<W>>)
    | Piped(first: Phrase<W>, rest: Phrase<W>)
    | Behind(front: Phrase<W>)
    | Then(first: Phrase<W>, rest: Phrase<W>)

  function ModeSym(m: Mode): char { match m case Read => '<' case Write => '>' case Append => '+' }

  function ItemTok<W>(i: Item<W>): seq<Tok<W>> {
    match i case Arg(w) => [Word(w)] case To(m, f) => [Sym(ModeSym(m)), Word(f)]
  }

  function ItemToks<W>(items: seq<Item<W>>): seq<Tok<W>> {
    if items == [] then [] else ItemTok(items[0]) + ItemToks(items[1..])
  }

  // The tokens of a phrase.
  function Written<W>(p: Phrase<W>): seq<Tok<W>> {
    match p
    case Simple(items) => ItemToks(items)
    case Group(q, rs) => [Sym('(')] + Written(q) + [Sym(')')] + ItemToks(rs)
    case Piped(l, r) => Written(l) + [Sym('|')] + Written(r)
    case Behind(q) => Written(q) + [Sym('&')]
    case Then(l, r) => Written(l) + [Sym(';')] + Written(r)
  }

  // --- what it stands for ---

  // The arguments among the parts, in order.
  function ArgsIn<W>(items: seq<Item<W>>): seq<W> {
    if items == [] then [] else (if items[0].Arg? then [items[0].w] else []) + ArgsIn(items[1..])
  }

  // A command with the redirections among the parts, the first one innermost.
  function Wrap<W>(c: Cmd<W>, items: seq<Item<W>>): Cmd<W>
    decreases |items|
  {
    if items == [] then c
    else Wrap(if items[0].To? then Redir(c, items[0].file, items[0].mode) else c, items[1..])
  }

  function Tree<W>(p: Phrase<W>): Cmd<W> {
    match p
    case Simple(items) => Wrap(Exec(ArgsIn(items)), items)
    case Group(q, rs) => Wrap(Tree(q), rs)
    case Piped(l, r) => Pipe(Tree(l), Tree(r))
    case Behind(q) => Back(Tree(q))
    case Then(l, r) => List(Tree(l), Tree(r))
  }

  // Where a phrase may stand: 0 in a pipeline, 1 before &, 2 before ; and 3 as a whole line.
  predicate Shape<W>(p: Phrase<W>, level: nat) {
    match p
    case Simple(items) => |ArgsIn(items)| <= 9
    case Group(q, rs) => Shape(q, 3) && ArgsIn(rs) == []
    case Piped(l, r) => level >= 1 && Shape(l, 0) && Shape(r, 1)
    case Behind(q) => level >= 2 && Shape(q, 2)
    case Then(l, r) => level >= 3 && Shape(l, 2) && Shape(r, 3)
  }

  // --- parts of commands ---

  lemma {:induction false} ToksAppended<W>(a: seq<Item<W>>, b: seq<Item<W>>)
    ensures ItemToks(a + b) == ItemToks(a) + ItemToks(b)
    decreases |a|
  {
    hide ItemTok;
    if a == [] {
      assert a + b == b;
    } else {
      assert (a + b)[1..] == a[1..] + b && (a + b)[0] == a[0];
      ToksAppended(a[1..], b);
      assert ItemToks(a + b) == ItemTok(a[0]) + (ItemToks(a[1..]) + ItemToks(b));
    }
  }

  lemma ArgsFirst<W>(i: Item<W>, items: seq<Item<W>>)
    ensures ArgsIn([i] + items) == (if i.Arg? then [i.w] else []) + ArgsIn(items)
  {
    assert ([i] + items)[1..] == items;
  }

  lemma {:induction false} ArgsAppended<W>(a: seq<Item<W>>, b: seq<Item<W>>)
    ensures ArgsIn(a + b) == ArgsIn(a) + ArgsIn(b)
    decreases |a|
  {
    hide ArgsIn;
    if a == [] {
      assert a + b == b;
      NoParts<W>(Exec([]));
    } else {
      ArgsAppended(a[1..], b);
      ArgsFirst(a[0], a[1..]);
      ArgsFirst(a[0], a[1..] + b);
      assert a == [a[0]] + a[1..] && a + b == [a[0]] + (a[1..] + b);
    }
  }

  lemma {:induction false} WrapAppended<W>(c: Cmd<W>, a: seq<Item<W>>, b: seq<Item<W>>)
    ensures Wrap(c, a + b) == Wrap(Wrap(c, a), b)
    decreases |a|
  {
    if a == [] {
      assert a + b == b;
    } else {
      assert (a + b)[1..] == a[1..] + b && (a + b)[0] == a[0];
      WrapAppended(if a[0].To? then Redir(c, a[0].file, a[0].mode) else c, a[1..], b);
    }
  }

  lemma OneTo<W>(c: Cmd<W>, i: Item<W>, more: seq<Item<W>>)
    requires i.To?
    ensures var rs := [i] + more;
            && ArgsIn(rs) == ArgsIn(more) && Wrap(c, rs) == Wrap(Redir(c, i.file, i.mode), more)
            && ItemToks(rs) == [Sym(ModeSym(i.mode)), Word(i.file)] + ItemToks(more)
  {
    assert ([i] + more)[1..] == more;
  }

  lemma OneArg<W>(c: Cmd<W>, a: Item<W>)
    requires a.Arg?
    ensures ArgsIn([a]) == [a.w] && Wrap(c, [a]) == c && ItemToks([a]) == [Word(a.w)]
  {
  }

  lemma NoParts<W>(c: Cmd<W>)
    ensures ArgsIn<W>([]) == [] && Wrap(c, []) == c
  {
  }

  // The tokens of one part, and what follows.
  lemma FirstItem<W>(i: Item<W>, items: seq<Item<W>>, tail: seq<Tok<W>>)
    requires items != [] && items[0] == i
    ensures var ts, rest := ItemToks(items) + tail, ItemToks(items[1..]) + tail;
            if i.Arg? then ts != [] && ts[0] == Word(i.w) && ts[1..] == rest
            else |ts| >= 2 && ts[0] == Sym(ModeSym(i.mode)) && ts[1] == Word(i.file) && ts[2..] == rest
  {
    var rest := ItemToks(items[1..]) + tail;
    assert ItemToks(items) + tail == ItemTok(i) + rest;
  }

  // Putting arguments into a wrapped command.
  lemma {:induction false} WithArgsWrap<W>(c: Cmd<W>, items: seq<Item<W>>, args: seq<W>)
    ensures WithArgs(Wrap(c, items), args) == Wrap(WithArgs(c, args), items)
    decreases |items|
  {
    if items != [] {
      WithArgsWrap(if items[0].To? then Redir(c, items[0].file, items[0].mode) else c, items[1..], args);
    }
  }

  // --- everything that is written is accepted ---

  function Enders(level: nat): string {
    if level == 0 then "|)&;" else if level == 1 then ")&;" else if level == 2 then ");" else ")"
  }

  predicate Ends<W>(tail: seq<Tok<W>>, level: nat) { tail == [] || (tail[0].Sym? && tail[0].c in Enders(level)) }

  // parseline up to its test for ;.
  function ParseBacks<W(!new)>(ts: seq<Tok<W>>): Parsed<W> {
    match ParsePipe(ts)
    case Fail(e) => Fail(e)
    case Ok(c, rest) => Ok(Backs(c, rest).0, Backs(c, rest).1)
  }

  function ParseAt<W(!new)>(level: nat, ts: seq<Tok<W>>): Parsed<W> {
    if level == 0 then ParseExec(ts) else if level == 1 then ParsePipe(ts)
    else if level == 2 then ParseBacks(ts) else ParseLine(ts)
  }

  // What ends at one level does so at the next, if nothing of that level follows.
  lemma Lift<W(!new)>(level: nat, ts: seq<Tok<W>>, c: Cmd<W>, tail: seq<Tok<W>>)
    requires level < 3 && ParseAt(level, ts) == Ok(c, tail) && Ends(tail, level + 1)
    ensures ParseAt(level + 1, ts) == Ok(c, tail)
  {
    hide ParseExec;
  }

  // The redirections up to the next argument.
  lemma {:induction false} RedirsAccept<W(!new)>(c: Cmd<W>, items: seq<Item<W>>, tail: seq<Tok<W>>) returns (k: nat)
    requires !HeadIn(tail, "<>")
    ensures k <= |items| && ArgsIn(items[..k]) == [] && (k < |items| ==> items[k].Arg?)
    ensures Redirs(c, ItemToks(items) + tail) == Ok(Wrap(c, items[..k]), ItemToks(items[k..]) + tail)
    decreases |items|
  {
    hide ItemToks, Redirs, Wrap, ArgsIn;
    k := 0;
    NoParts(c);
    assert items[0..] == items && items[..0] == [];
    if items == [] {
      NoItems(tail);
      RedirsNone(c, tail);
    } else {
      var i, ts := items[0], ItemToks(items) + tail;
      FirstItem(i, items, tail);
      if i.To? {
        var n := RedirsAccept(Redir(c, i.file, i.mode), items[1..], tail);
        k := n + 1;
        assert items[..k] == [i] + items[1..][..n] && items[k..] == items[1..][n..];
        OneTo(c, i, items[1..][..n]);
        RedirsOne(c, i, ts);
      } else {
        RedirsNone(c, ts);
      }
    }
  }

  lemma RedirsNone<W(!new)>(c: Cmd<W>, ts: seq<Tok<W>>)
    requires !HeadIn(ts, "<>")
    ensures Redirs(c, ts) == Ok(c, ts)
  {
  }

  lemma RedirsOne<W(!new)>(c: Cmd<W>, i: Item<W>, ts: seq<Tok<W>>)
    requires i.To? && |ts| >= 2 && ts[0] == Sym(ModeSym(i.mode)) && ts[1] == Word(i.file)
    ensures Redirs(c, ts) == Redirs(Redir(c, i.file, i.mode), ts[2..])
  {
  }

  lemma NoItems<W>(tail: seq<Tok<W>>)
    ensures ItemToks([]) + tail == tail
  {
  }

  lemma ArgsEnd<W(!new)>(done: seq<Item<W>>, tail: seq<Tok<W>>)
    requires tail == [] || HeadIn(tail, "|)&;")
    ensures Args(Wrap(Exec([]), done), ArgsIn(done), tail) == Ok(Tree(Simple(done)), tail)
  {
    hide Wrap, ArgsIn;
    WithArgsWrap(Exec([]), done, ArgsIn(done));
  }

  // One more argument and the redirections after it.
  lemma OneMore<W>(done: seq<Item<W>>, a: Item<W>, rs: seq<Item<W>>)
    requires a.Arg? && ArgsIn(rs) == []
    ensures var c, next := Exec([]), done + [a] + rs;
            && ArgsIn(next) == ArgsIn(done) + [a.w] && Wrap(c, next) == Wrap(Wrap(c, done), rs)
            && ItemToks(next) == ItemToks(done) + [Word(a.w)] + ItemToks(rs)
  {
    var c: Cmd<W> := Exec([]);
    OneArg(Wrap(c, done), a);
    hide Wrap, ArgsIn, ItemToks;
    ArgsAppended(done, [a]);
    ArgsAppended(done + [a], rs);
    WrapAppended(c, done, [a]);
    WrapAppended(c, done + [a], rs);
    ToksAppended(done, [a]);
    ToksAppended(done + [a], rs);
  }

  // The loop of parseexec, when done has been read and an argument or the end is next.
  lemma {:induction false} ArgsAccept<W(!new)>(done: seq<Item<W>>, items: seq<Item<W>>, tail: seq<Tok<W>>)
    requires Ends(tail, 0) && |ArgsIn(done + items)| < MAXARGS && (items != [] ==> items[0].Arg?)
    ensures Args(Wrap(Exec([]), done), ArgsIn(done), ItemToks(items) + tail) == Ok(Tree(Simple(done + items)), tail)
    decreases |items|
  {
    hide Redirs, ItemToks, Wrap, ArgsIn, Tree;
    var ts, c := ItemToks(items) + tail, Wrap(Exec([]), done);
    if items == [] {
      NoItems(tail);
      ArgsEnd(done, tail);
      assert done + items == done;
    } else {
      FirstItem(items[0], items, tail);
      var k := RedirsAccept(c, items[1..], tail);
      var next := done + [items[0]] + items[1..][..k];
      OneMore(done, items[0], items[1..][..k]);
      assert next + items[1..][k..] == done + items;
      ArgsAppended(next, items[1..][k..]);
      ArgsAccept(next, items[1..][k..], tail);
    }
  }

  lemma SimpleAccept<W(!new)>(items: seq<Item<W>>, tail: seq<Tok<W>>)
    requires Ends(tail, 0) && |ArgsIn(items)| <= 9
    ensures ParseExec(ItemToks(items) + tail) == Ok(Tree(Simple(items)), tail)
  {
    hide Redirs, Args, ItemToks, Tree, Wrap, ArgsIn, ParseExec;
    var ts, c: Cmd<W> := ItemToks(items) + tail, Exec([]);
    var k := RedirsAccept(c, items, tail);
    assert items[..k] + items[k..] == items;
    ArgsAccept(items[..k], items[k..], tail);
    if items == [] { NoItems(tail); } else { FirstItem(items[0], items, tail); }
    ExecOf(ts);
  }

  lemma ExecOf<W(!new)>(ts: seq<Tok<W>>)
    requires !HeadIn(ts, "(") && Redirs(Exec([]), ts).Ok?
    ensures ParseExec(ts) == Args(Redirs(Exec([]), ts).cmd, [], Redirs(Exec([]), ts).rest)
  {
  }

  lemma GroupOf<W(!new)>(ts: seq<Tok<W>>, c: Cmd<W>, rest: seq<Tok<W>>)
    requires HeadIn(ts, "(") && ParseLine(ts[1..]) == Ok(c, rest) && HeadIn(rest, ")")
    ensures ParseExec(ts) == Redirs(c, rest[1..])
  {
  }

  lemma GroupAccept<W(!new)>(q: Phrase<W>, rs: seq<Item<W>>, tail: seq<Tok<W>>)
    requires ParseLine(Written(q) + ([Sym(')')] + (ItemToks(rs) + tail))) == Ok(Tree(q), [Sym(')')] + (ItemToks(rs) + tail))
    requires Ends(tail, 0) && ArgsIn(rs) == []
    ensures ParseExec(Written(Group(q, rs)) + tail) == Ok(Tree(Group(q, rs)), tail)
  {
    hide Redirs, ParseExec, ParseLine, ItemToks, ArgsIn, Wrap;
    var mid := [Sym(')')] + (ItemToks(rs) + tail);
    var ts := [Sym('(')] + (Written(q) + mid);
    assert Written(Group(q, rs)) + tail == ts;
    assert ts[1..] == Written(q) + mid && mid[1..] == ItemToks(rs) + tail;
    GroupOf(ts, Tree(q), mid);
    var k := RedirsAccept(Tree(q), rs, tail);
    NoArgs(rs, k);
    NoItems(tail);
    assert rs[..k] == rs && rs[k..] == [];
  }

  lemma {:induction false} NoArgs<W>(rs: seq<Item<W>>, k: nat)
    requires ArgsIn(rs) == [] && (k < |rs| ==> rs[k].Arg?)
    ensures k >= |rs|
    decreases k
  {
    if k > 0 && rs != [] { NoArgs(rs[1..], k - 1); }
  }

  lemma PipedAccept<W(!new)>(l: Phrase<W>, r: Phrase<W>, tail: seq<Tok<W>>)
    requires var t := [Sym('|')] + (Written(r) + tail); ParseExec(Written(l) + t) == Ok(Tree(l), t)
    requires ParsePipe(Written(r) + tail) == Ok(Tree(r), tail)
    ensures ParsePipe(Written(Piped(l, r)) + tail) == Ok(Tree(Piped(l, r)), tail)
  {
    hide ParseExec;
    var t := [Sym('|')] + (Written(r) + tail);
    assert Written(Piped(l, r)) + tail == Written(l) + t && t[1..] == Written(r) + tail;
  }

  lemma ThenAccept<W(!new)>(l: Phrase<W>, r: Phrase<W>, tail: seq<Tok<W>>)
    requires var t := [Sym(';')] + (Written(r) + tail); ParseBacks(Written(l) + t) == Ok(Tree(l), t)
    requires ParseLine(Written(r) + tail) == Ok(Tree(r), tail)
    ensures ParseLine(Written(Then(l, r)) + tail) == Ok(Tree(Then(l, r)), tail)
  {
    hide ParsePipe;
    var t := [Sym(';')] + (Written(r) + tail);
    assert Written(Then(l, r)) + tail == Written(l) + t && t[1..] == Written(r) + tail;
  }

  lemma SimpleWritten<W>(items: seq<Item<W>>)
    ensures Written(Simple(items)) == ItemToks(items)
  {
  }

  // Before any number of further &.
  lemma {:induction false} BacksAccept<W(!new)>(p: Phrase<W>, tail: seq<Tok<W>>)
    requires Shape(p, 2) && Ends(tail, 1)
    ensures ParseBacks(Written(p) + tail) == Ok(Backs(Tree(p), tail).0, Backs(Tree(p), tail).1)
    decreases p, 2
  {
    hide ParsePipe;
    if p.Behind? {
      var t := [Sym('&')] + tail;
      assert Written(p) + tail == Written(p.front) + t && t[1..] == tail;
      BacksAccept(p.front, t);
    } else {
      Accept(p, 1, tail);
    }
  }

  // A phrase in its place is read as the tree it stands for.
  lemma {:induction false} Accept<W(!new)>(p: Phrase<W>, level: nat, tail: seq<Tok<W>>)
    requires level <= 3 && Shape(p, level) && Ends(tail, level)
    ensures ParseAt(level, Written(p) + tail) == Ok(Tree(p), tail)
    decreases p, if level <= 1 then level else level + 1
  {
    hide ParseExec, ParsePipe, ParseLine, Written, Tree;
    if level == 2 {
      BacksAccept(p, tail);
    } else if p.Then? && level == 3 {
      var t := [Sym(';')] + (Written(p.rest) + tail);
      BacksAccept(p.first, t);
      Accept(p.rest, 3, tail);
      ThenAccept(p.first, p.rest, tail);
    } else if p.Piped? && level == 1 {
      Accept(p.first, 0, [Sym('|')] + (Written(p.rest) + tail));
      Accept(p.rest, 1, tail);
      PipedAccept(p.first, p.rest, tail);
    } else if level > 0 {
      Accept(p, level - 1, tail);
      Lift(level - 1, Written(p) + tail, Tree(p), tail);
    } else if p.Group? {
      Accept(p.inside, 3, [Sym(')')] + (ItemToks(p.redirs) + tail));
      GroupAccept(p.inside, p.redirs, tail);
    } else {
      SimpleAccept(p.items, tail);
      SimpleWritten(p.items);
    }
  }

  // --- everything that is accepted is written ---

  // ts is p followed by what r leaves, and r is its tree.
  ghost predicate Reads<W>(p: Phrase<W>, level: nat, ts: seq<Tok<W>>, r: Parsed<W>) {
    r.Ok? && Shape(p, level) && Tree(p) == r.cmd && Written(p) + r.rest == ts
  }

  lemma {:induction false} RedirsSound<W(!new)>(c: Cmd<W>, ts: seq<Tok<W>>) returns (rs: seq<Item<W>>)
    requires Redirs(c, ts).Ok?
    ensures ArgsIn(rs) == [] && Redirs(c, ts).cmd == Wrap(c, rs) && ItemToks(rs) + Redirs(c, ts).rest == ts
    decreases |ts|
  {
    hide ItemToks, Wrap, ArgsIn;
    NoParts(c);
    rs := [];
    if HeadIn(ts, "<>") {
      var i := To(ModeOf(ts[0].c), ts[1].w);
      var more := RedirsSound(Redir(c, i.file, i.mode), ts[2..]);
      rs := [i] + more;
      OneTo(c, i, more);
      assert ts == [Sym(ModeSym(i.mode)), Word(i.file)] + ts[2..];
    } else {
      NoItems(ts);
    }
  }

  lemma {:induction false} ArgsSound<W(!new)>(done: seq<Item<W>>, ts: seq<Tok<W>>) returns (items: seq<Item<W>>)
    requires |ArgsIn(done)| < MAXARGS && Args(Wrap(Exec([]), done), ArgsIn(done), ts).Ok?
    ensures |ArgsIn(items)| <= 9
    ensures var r := Args(Wrap(Exec([]), done), ArgsIn(done), ts);
            r.cmd == Tree(Simple(items)) && ItemToks(done) + ts == ItemToks(items) + r.rest
    decreases |ts|
  {
    hide Redirs, ItemToks, Wrap, ArgsIn, Tree;
    items := done;
    var c := Wrap(Exec([]), done);
    if ts == [] || HeadIn(ts, "|)&;") {
      ArgsEnd(done, ts);
    } else {
      var a, r := Arg(ts[0].w), Redirs(c, ts[1..]);
      var rs := RedirsSound(c, ts[1..]);
      OneMore(done, a, rs);
      items := ArgsSound(done + [a] + rs, r.rest);
      assert ts == [Word(a.w)] + (ItemToks(rs) + r.rest);
      assert ItemToks(done) + ts == ItemToks(done + [a] + rs) + r.rest;
    }
  }

  lemma ReadsSimple<W>(items: seq<Item<W>>, ts: seq<Tok<W>>, r: Parsed<W>)
    requires |ArgsIn(items)| < MAXARGS && r.Ok? && r.cmd == Tree(Simple(items)) && ItemToks(items) + r.rest == ts
    ensures Reads(Simple(items), 0, ts, r)
  {
    hide ItemToks, Tree, ArgsIn;
    SimpleWritten(items);
  }

  lemma ReadsGroup<W>(q: Phrase<W>, rs: seq<Item<W>>, ts: seq<Tok<W>>, inner: Parsed<W>, r: Parsed<W>)
    requires ts != [] && ts[0] == Sym('(') && Reads(q, 3, ts[1..], inner) && inner.rest != [] && inner.rest[0] == Sym(')')
    requires ArgsIn(rs) == [] && r.Ok? && r.cmd == Wrap(inner.cmd, rs) && ItemToks(rs) + r.rest == inner.rest[1..]
    ensures Reads(Group(q, rs), 0, ts, r)
  {
    hide ItemToks, ArgsIn, Wrap;
    assert ts == [Sym('(')] + (Written(q) + ([Sym(')')] + (ItemToks(rs) + r.rest)));
  }

  // Two phrases with the symbol c between them.
  lemma ReadsTwo<W>(p: Phrase<W>, q: Phrase<W>, c: char, ts: seq<Tok<W>>, mid: seq<Tok<W>>, rest: seq<Tok<W>>)
    requires Written(p) + mid == ts && mid != [] && mid[0] == Sym(c) && Written(q) + rest == mid[1..]
    ensures Written(p) + [Sym(c)] + Written(q) + rest == ts
  {
    hide Written;
    assert mid == [Sym(c)] + (Written(q) + rest);
  }

  lemma {:induction false} ExecSound<W(!new)>(ts: seq<Tok<W>>) returns (p: Phrase<W>)
    requires ParseExec(ts).Ok?
    ensures Reads(p, 0, ts, ParseExec(ts))
    decreases |ts|, 0
  {
    hide Redirs, Args, ParseLine, Reads, ItemToks, ArgsIn, Tree, Wrap;
    if HeadIn(ts, "(") {
      var q := LineSound(ts[1..]);
      var inner := ParseLine(ts[1..]);
      var rs := RedirsSound(inner.cmd, inner.rest[1..]);
      p := Group(q, rs);
      ReadsGroup(q, rs, ts, inner, ParseExec(ts));
    } else {
      var rs := RedirsSound(Exec([]), ts);
      var items := ArgsSound(rs, Redirs(Exec([]), ts).rest);
      p := Simple(items);
      ReadsSimple(items, ts, ParseExec(ts));
    }
  }

  lemma {:induction false} PipeSound<W(!new)>(ts: seq<Tok<W>>) returns (p: Phrase<W>)
    requires ParsePipe(ts).Ok?
    ensures Reads(p, 1, ts, ParsePipe(ts))
    decreases |ts|, 1
  {
    hide ParseExec, Written;
    p := ExecSound(ts);
    var r := ParseExec(ts);
    Looser(p, 0);
    if HeadIn(r.rest, "|") {
      var q := PipeSound(r.rest[1..]);
      ReadsTwo(p, q, '|', ts, r.rest, ParsePipe(r.rest[1..]).rest);
      p := Joined(p, q, '|');
    }
  }

  // The phrases with |, & or ; after the first part.
  lemma Joined<W>(p: Phrase<W>, q: Phrase<W>, c: char) returns (r: Phrase<W>)
    requires c == '|' || c == ';'
    ensures r == if c == '|' then Piped(p, q) else Then(p, q)
    ensures Written(r) == Written(p) + [Sym(c)] + Written(q)
    ensures Tree(r) == if c == '|' then Pipe(Tree(p), Tree(q)) else List(Tree(p), Tree(q))
  {
    r := if c == '|' then Piped(p, q) else Then(p, q);
  }

  lemma {:induction false} BacksSound<W(!new)>(p: Phrase<W>, ts: seq<Tok<W>>) returns (q: Phrase<W>)
    requires Shape(p, 2)
    ensures Shape(q, 2) && Backs(Tree(p), ts).0 == Tree(q) && Written(p) + ts == Written(q) + Backs(Tree(p), ts).1
    decreases |ts|
  {
    q := p;
    if HeadIn(ts, "&") {
      q := BacksSound(Behind(p), ts[1..]);
      assert ts == [Sym('&')] + ts[1..];
    }
  }

  lemma {:induction false} LineSound<W(!new)>(ts: seq<Tok<W>>) returns (p: Phrase<W>)
    requires ParseLine(ts).Ok?
    ensures Reads(p, 3, ts, ParseLine(ts))
    decreases |ts|, 2
  {
    hide ParsePipe, Backs, Written, Tree;
    p := PipeSound(ts);
    var r := ParsePipe(ts);
    Looser(p, 1);
    p := BacksSound(p, r.rest);
    Looser(p, 2);
    var rest := Backs(r.cmd, r.rest).1;
    if HeadIn(rest, ";") {
      var q := LineSound(rest[1..]);
      ReadsTwo(p, q, ';', ts, rest, ParseLine(rest[1..]).rest);
      p := Joined(p, q, ';');
    }
  }

  lemma Looser<W>(p: Phrase<W>, level: nat)
    requires Shape(p, level)
    ensures Shape(p, level + 1)
  {
  }

  /** The parser accepts a token list, and builds a tree from it, exactly when the list is a command
      line that stands for the tree. */
  lemma Grammar<W(!new)>(ts: seq<Tok<W>>, c: Cmd<W>)
    ensures ParseCmd(ts) == Ok(c, []) <==> exists p :: Shape(p, 3) && Written(p) == ts && Tree(p) == c
  {
    hide ParseLine, Shape, Written, Tree;
    forall p | Shape(p, 3) && Written(p) == ts && Tree(p) == c ensures ParseCmd(ts) == Ok(c, []) {
      Accept(p, 3, []);
      assert Written(p) + [] == ts;
    }
    if ParseCmd(ts) == Ok(c, []) {
      var p := LineSound(ts);
      assert Written(p) + [] == Written(p);
    }
  }

  // --- the words ---

  ghost function Words<W>(ts: seq<Tok<W>>): multiset<W> {
    if ts == [] then multiset{} else (if ts[0].Word? then multiset{ts[0].w} else multiset{}) + Words(ts[1..])
  }

  // The arguments and files of a tree.
  ghost function TreeWords<W>(c: Cmd<W>): multiset<W> {
    match c
    case Exec(args) => multiset(args)
    case Redir(d, f, _) => TreeWords(d) + multiset{f}
    case Pipe(l, r) => TreeWords(l) + TreeWords(r)
    case List(l, r) => TreeWords(l) + TreeWords(r)
    case Back(d) => TreeWords(d)
  }

  lemma {:induction false} WordsTwo<W>(a: seq<Tok<W>>, b: seq<Tok<W>>)
    ensures Words(a + b) == Words(a) + Words(b)
    decreases |a|
  {
    if a == [] {
      assert a + b == b;
    } else {
      assert (a + b)[1..] == a[1..] + b;
      WordsTwo(a[1..], b);
    }
  }

  // Symbols carry no words.
  lemma WordsAround<W>(a: seq<Tok<W>>, c: char, b: seq<Tok<W>>)
    ensures Words(a + [Sym(c)] + b) == Words(a) + Words(b)
  {
    WordsTwo(a + [Sym(c)], b);
    WordsTwo(a, [Sym(c)]);
  }

  lemma ItemWord<W>(i: Item<W>)
    ensures Words(ItemTok(i)) == multiset{if i.Arg? then i.w else i.file}
  {
    match i
    case Arg(w) => assert ItemTok(i)[1..] == [];
    case To(m, f) =>
      WordsAround([], ModeSym(m), [Word(f)]);
      assert [] + [Sym(ModeSym(m))] + [Word(f)] == ItemTok(i) && [Word(f)][1..] == [];
  }

  lemma ArgsBag<W>(items: seq<Item<W>>)
    requires items != []
    ensures var more := multiset(ArgsIn(items[1..]));
            multiset(ArgsIn(items)) == if items[0].Arg? then multiset{items[0].w} + more else more
  {
    if items[0].To? { assert ArgsIn(items) == ArgsIn(items[1..]); }
  }

  // Off with the first part.
  lemma Peeled<W>(c: Cmd<W>, items: seq<Item<W>>) returns (d: Cmd<W>)
    requires items != []
    ensures Wrap(c, items) == Wrap(d, items[1..])
    ensures var w := multiset{if items[0].Arg? then items[0].w else items[0].file};
            && TreeWords(d) == TreeWords(c) + (if items[0].To? then w else multiset{})
            && Words(ItemToks(items)) == w + Words(ItemToks(items[1..]))
  {
    var i := items[0];
    d := if i.To? then Redir(c, i.file, i.mode) else c;
    assert Wrap(c, items) == Wrap(d, items[1..]);
    hide Words, ItemTok, Wrap;
    WordsTwo(ItemTok(i), ItemToks(items[1..]));
    ItemWord(i);
  }

  lemma {:induction false} ItemWords<W>(c: Cmd<W>, items: seq<Item<W>>)
    ensures TreeWords(Wrap(c, items)) + multiset(ArgsIn(items)) == TreeWords(c) + Words(ItemToks(items))
    decreases |items|
  {
    hide Words, ItemToks, ArgsIn, Wrap, TreeWords;
    if items == [] {
      NoParts(c);
      NoItems<W>([]);
      NoWords<W>();
      assert ItemToks<W>([]) == ItemToks<W>([]) + [];
    } else {
      var d := Peeled(c, items);
      ItemWords(d, items[1..]);
      ArgsBag(items);
      var w := multiset{if items[0].Arg? then items[0].w else items[0].file};
      var x, m := if items[0].Arg? then w else multiset{}, multiset(ArgsIn(items[1..]));
      assert TreeWords(Wrap(c, items)) + multiset(ArgsIn(items)) == TreeWords(Wrap(d, items[1..])) + m + x;
      assert TreeWords(d) + x == TreeWords(c) + w;
    }
  }

  lemma Cancel<W>(a: multiset<W>, b: multiset<W>, c: multiset<W>)
    requires a + b == b + c
    ensures a == c
  {
    assert a == a + b - b && c == b + c - b;
  }

  lemma NoWords<W>()
    ensures Words<W>([]) == multiset{}
  {
  }

  lemma {:induction false} PhraseWords<W>(p: Phrase<W>, level: nat)
    requires Shape(p, level)
    ensures TreeWords(Tree(p)) == Words(Written(p))
    decreases p
  {
    hide Words, ItemToks, ArgsIn, Wrap;
    NoWords<W>();
    match p
    case Simple(items) =>
      ItemWords(Exec(ArgsIn(items)), items);
      Cancel(TreeWords(Tree(p)), multiset(ArgsIn(items)), Words(Written(p)));
    case Group(q, rs) =>
      PhraseWords(q, 3);
      ItemWords(Tree(q), rs);
      WordsAround([Sym('(')] + Written(q), ')', ItemToks(rs));
      WordsAround([], '(', Written(q));
      assert [] + [Sym('(')] + Written(q) == [Sym('(')] + Written(q);
      assert Tree(p) == Wrap(Tree(q), rs);
      assert Words(Written(p)) == Words(Written(q)) + Words(ItemToks(rs));
      assert multiset(ArgsIn(rs)) == multiset{};
    case Piped(l, r) =>
      PhraseWords(l, 0);
      PhraseWords(r, 1);
      WordsAround(Written(l), '|', Written(r));
    case Behind(q) =>
      PhraseWords(q, 2);
      WordsAround(Written(q), '&', []);
      assert Written(p) + [] == Written(p);
    case Then(l, r) =>
      PhraseWords(l, 2);
      PhraseWords(r, 3);
      WordsAround(Written(l), ';', Written(r));
  }

  // No word is lost and none appears twice.
  lemma WordsKept<W(!new)>(ts: seq<Tok<W>>)
    requires ParseCmd(ts).Ok?
    ensures TreeWords(ParseCmd(ts).cmd) == Words(ts)
  {
    hide ParseLine, Shape, Written, Tree, TreeWords, Words;
    Grammar(ts, ParseCmd(ts).cmd);
    var p :| Shape(p, 3) && Written(p) == ts && Tree(p) == ParseCmd(ts).cmd;
    PhraseWords(p, 3);
  }

  // --- printing a tree ---

  function ArgItems<W>(args: seq<W>): seq<Item<W>> {
    if args == [] then [] else [Arg(args[0])] + ArgItems(args[1..])
  }

  // The command inside its parentheses, or by itself where it may stand.
  function Source<W>(c: Cmd<W>, level: nat): (p: Phrase<W>)
    ensures level == 0 ==> p.Simple? || p.Group?
  {
    match c
    case Exec(args) => Simple(ArgItems(args))
    case Redir(d, f, m) =>
      (match Source(d, 0)
       case Simple(items) => Simple(items + [To(m, f)])
       case Group(q, rs) => Group(q, rs + [To(m, f)]))
    case Pipe(l, r) =>
      var p := Piped(Source(l, 0), Source(r, 1));
      if level >= 1 then p else Group(p, [])
    case Back(d) =>
      var p := Behind(Source(d, 2));
      if level >= 2 then p else Group(p, [])
    case List(l, r) =>
      var p := Then(Source(l, 2), Source(r, 3));
      if level >= 3 then p else Group(p, [])
  }

  // No command has more arguments than the shell takes.
  predicate Small<W>(c: Cmd<W>) {
    match c
    case Exec(args) => |args| <= 9
    case Redir(d, _, _) => Small(d)
    case Pipe(l, r) => Small(l) && Small(r)
    case List(l, r) => Small(l) && Small(r)
    case Back(d) => Small(d)
  }

  lemma {:induction false} ArgItemsArgs<W>(c: Cmd<W>, args: seq<W>)
    ensures ArgsIn(ArgItems(args)) == args && Wrap(c, ArgItems(args)) == c
    decreases |args|
  {
    if args != [] { ArgItemsArgs(c, args[1..]); }
  }

  lemma MoreTo<W>(c: Cmd<W>, items: seq<Item<W>>, i: Item<W>)
    requires i.To?
    ensures ArgsIn(items + [i]) == ArgsIn(items) && Wrap(c, items + [i]) == Redir(Wrap(c, items), i.file, i.mode)
  {
    OneTo(Wrap(c, items), i, []);
    NoParts(Redir(Wrap(c, items), i.file, i.mode));
    hide ArgsIn, Wrap;
    assert [i] + [] == [i];
    ArgsAppended(items, [i]);
    WrapAppended(c, items, [i]);
  }

  lemma {:induction false} SourceOk<W>(c: Cmd<W>, level: nat)
    requires Small(c)
    ensures Shape(Source(c, level), level) && Tree(Source(c, level)) == c
    decreases c
  {
    match c
    case Exec(args) => ArgItemsArgs(c, args);
    case Redir(d, f, m) =>
      SourceOk(d, 0);
      match Source(d, 0) {
        case Simple(items) => MoreTo(Exec(ArgsIn(items)), items, To(m, f));
        case Group(q, rs) => MoreTo(Tree(q), rs, To(m, f));
      }
    case Pipe(l, r) => SourceOk(l, 0); SourceOk(r, 1);
    case List(l, r) => SourceOk(l, 2); SourceOk(r, 3);
    case Back(d) => SourceOk(d, 2);
  }

  function Print<W>(c: Cmd<W>): seq<Tok<W>> { Written(Source(c, 3)) }

  // Parsing a printed tree gives the tree back.
  lemma RoundTrip<W(!new)>(c: Cmd<W>)
    requires Small(c)
    ensures ParseCmd(Print(c)) == Ok(c, [])
  {
    hide ParseCmd, Source, Written, Tree;
    SourceOk(c, 3);
    Grammar(Print(c), c);
    assert Written(Source(c, 3)) == Print(c);
  }
}
