/** The shell's grammar on tokens: what parseline and its helpers do with a token list, how a
    command tree is written down, and that parsing undoes writing. */
module ShellGrammar {

  const MAXARGS: nat := 10

  /** Command trees over any kind of word. */
  datatype Cmd<A> =
    | Exec(args: seq<A>)
    | Redir(cmd: Cmd<A>, file: A, out: bool)
    | Pipe(left: Cmd<A>, right: Cmd<A>)
    | List(left: Cmd<A>, right: Cmd<A>)
    | Back(cmd: Cmd<A>)

  /** What gettoken returns, 'a' for a word and '+' for >>, and the word itself. */
  datatype Tok<A> = Tok(kind: char, val: A)

  /** A redirection; '>' and '>>' are the same to the shell. */
  datatype Arrow<A> = Arrow(file: A, out: bool)

  /** The command and the tokens left over, or the call of panic. */
  datatype Parsed<A> = Panic | Done(cmd: Cmd<A>, rest: seq<Tok<A>>)

  datatype Arrows<A> = NoFile | Got(list: seq<Arrow<A>>, rest: seq<Tok<A>>)

  /** peek */
  predicate At<A>(ts: seq<Tok<A>>, kinds: string) {
    ts != [] && ts[0].kind in kinds
  }

  // ---- parsing -----------------------------------------------------------------------

  /** parseredirs. */
  function ParseRedirs<A>(ts: seq<Tok<A>>): (r: Arrows<A>)
    ensures r.Got? ==> |r.rest| <= |ts| && !At(r.rest, "<>+")
  {
    if !At(ts, "<>+") then Got([], ts)
    else if |ts| < 2 || ts[1].kind != 'a' then NoFile
    else
      match ParseRedirs(ts[2..])
      case NoFile => NoFile
      case Got(l, rest) => Got([Arrow(ts[1].val, ts[0].kind != '<')] + l, rest)
  }

  /** Redirections wrap the command, the first innermost. */
  function Wrapped<A>(cmd: Cmd<A>, l: seq<Arrow<A>>): Cmd<A>
    decreases |l|
  {
    if l == [] then cmd else Wrapped(Redir(cmd, l[0].file, l[0].out), l[1..])
  }

  /** parseexec's loop, with the arguments and redirections so far. */
  function ParseArgs<A>(args: seq<A>, l: seq<Arrow<A>>, ts: seq<Tok<A>>): (r: Parsed<A>)
    ensures r.Done? ==> |r.rest| <= |ts|
    decreases |ts|
  {
    match ParseRedirs(ts)
    case NoFile => Panic
    case Got(more, rest) =>
      if rest == [] || At(rest, "|)&;") then Done(Wrapped(Exec(args), l + more), rest)
      else if rest[0].kind != 'a' || |args| + 1 >= MAXARGS then Panic
      else ParseArgs(args + [rest[0].val], l + more, rest[1..])
  }

  /** parseexec, and parseblock. */
  function ParseExec<A>(ts: seq<Tok<A>>): (r: Parsed<A>)
    ensures r.Done? ==> |r.rest| <= |ts|
    decreases |ts|, 0
  {
    if At(ts, "(") then
      match ParseLine(ts[1..])
      case Panic => Panic
      case Done(c, r1) =>
        if !At(r1, ")") then Panic
        else
          match ParseRedirs(r1[1..])
          case NoFile => Panic
          case Got(l, r2) => Done(Wrapped(c, l), r2)
    else ParseArgs([], [], ts)
  }

  /** parsepipe. */
  function ParsePipe<A>(ts: seq<Tok<A>>): (r: Parsed<A>)
    ensures r.Done? ==> |r.rest| <= |ts|
    decreases |ts|, 1
  {
    match ParseExec(ts)
    case Panic => Panic
    case Done(c, r1) =>
      if !At(r1, "|") then Done(c, r1)
      else
        match ParsePipe(r1[1..])
        case Panic => Panic
        case Done(d, r2) => Done(Pipe(c, d), r2)
  }

  /** parseline's while loop. */
  function Backs<A>(c: Cmd<A>, ts: seq<Tok<A>>): (r: Parsed<A>)
    ensures r.Done? && |r.rest| <= |ts| && !At(r.rest, "&")
    decreases |ts|
  {
    if At(ts, "&") then Backs(Back(c), ts[1..]) else Done(c, ts)
  }

  /** parseline. */
  function ParseLine<A>(ts: seq<Tok<A>>): (r: Parsed<A>)
    ensures r.Done? ==> |r.rest| <= |ts|
    decreases |ts|, 2
  {
    match ParsePipe(ts)
    case Panic => Panic
    case Done(c, r1) =>
      var b := Backs(c, r1);
      if !At(b.rest, ";") then b
      else
        match ParseLine(b.rest[1..])
        case Panic => Panic
        case Done(d, r2) => Done(List(b.cmd, d), r2)
  }

  /** parsecmd up to nulterminate: nothing may be left over. */
  function ParseCmd<A>(ts: seq<Tok<A>>): Parsed<A> {
    match ParseLine(ts)
    case Panic => Panic
    case Done(c, r) => if r == [] then Done(c, r) else Panic
  }

  // ---- writing -------------------------------------------------------------------------

  function Sym(k: char): Tok<string> {
    Tok(k, [k])
  }

  function Words(ws: seq<string>): (r: seq<Tok<string>>)
    ensures |r| == |ws|
  {
    if ws == [] then [] else [Tok('a', ws[0])] + Words(ws[1..])
  }

  /** How tightly a command holds together: lists least, then background, pipes, the rest. */
  function Level(c: Cmd<string>): nat {
    match c
    case List(_, _) => 0
    case Back(_) => 1
    case Pipe(_, _) => 2
    case _ => 3
  }

  /** The command as tokens, in parentheses where it stands for something tighter. */
  function Render(c: Cmd<string>, level: nat): seq<Tok<string>>
    decreases c, 1
  {
    if Level(c) < level then [Sym('(')] + Body(c) + [Sym(')')] else Body(c)
  }

  function Body(c: Cmd<string>): seq<Tok<string>>
    decreases c, 0
  {
    match c
    case Exec(ws) => Words(ws)
    case Redir(d, f, out) => Render(d, 3) + [Sym(if out then '>' else '<'), Tok('a', f)]
    case Pipe(l, r) => Render(l, 3) + [Sym('|')] + Render(r, 2)
    case List(l, r) => Render(l, 1) + [Sym(';')] + Render(r, 0)
    case Back(d) => Render(d, 1) + [Sym('&')]
  }

  /** Fewer than MAXARGS words in every command. */
  predicate Fits<A>(c: Cmd<A>) {
    match c
    case Exec(ws) => |ws| < MAXARGS
    case Redir(d, _, _) => Fits(d)
    case Pipe(l, r) => Fits(l) && Fits(r)
    case List(l, r) => Fits(l) && Fits(r)
    case Back(d) => Fits(d)
  }

  // ---- parsing undoes writing -------------------------------------------------------------

  function ArrowToks(l: seq<Arrow<string>>): seq<Tok<string>> {
    if l == [] then [] else [Sym(if l[0].out then '>' else '<'), Tok('a', l[0].file)] + ArrowToks(l[1..])
  }

  /** Nothing that could belong to a simple command. */
  predicate Stops<A>(ts: seq<Tok<A>>) {
    ts == [] || At(ts, "|)&;")
  }

  lemma {:induction false} RedirsBack(l: seq<Arrow<string>>, rest: seq<Tok<string>>)
    requires !At(rest, "<>+")
    ensures ParseRedirs(ArrowToks(l) + rest) == Got(l, rest)
  {
    var ts := ArrowToks(l) + rest;
    if l == [] {
      assert ts == rest;
    } else {
      assert ts[2..] == ArrowToks(l[1..]) + rest;
      RedirsBack(l[1..], rest);
      assert [Arrow(l[0].file, l[0].out)] + l[1..] == l;
    }
  }

  lemma FirstWord(ws: seq<string>, l: seq<Tok<string>>, rest: seq<Tok<string>>)
    requires ws != []
    ensures Words(ws) + l + rest == [Tok('a', ws[0])] + (Words(ws[1..]) + l + rest)
  {
    assert Words(ws) == [Tok('a', ws[0])] + Words(ws[1..]);
    hide Words;
  }

  lemma WordNext<A>(a: A, ts: seq<Tok<A>>)
    ensures var r := [Tok('a', a)] + ts; r[0] == Tok('a', a) && r[1..] == ts && ParseRedirs(r) == Got([], r)
  {
  }

  lemma {:induction false} ArgsBack(args: seq<string>, l0: seq<Arrow<string>>, ws: seq<string>, l: seq<Arrow<string>>,
                                    rest: seq<Tok<string>>)
    requires Stops(rest) && |args| + |ws| < MAXARGS
    decreases |ws|
    ensures ParseArgs(args, l0, Words(ws) + ArrowToks(l) + rest) == Done(Wrapped(Exec(args + ws), l0 + l), rest)
  {
    var ts := Words(ws) + ArrowToks(l) + rest;
    if ws == [] {
      assert ts == ArrowToks(l) + rest;
      RedirsBack(l, rest);
      assert args + ws == args;
    } else {
      FirstWord(ws, ArrowToks(l), rest);
      WordNext(ws[0], Words(ws[1..]) + ArrowToks(l) + rest);
      hide Words, ArrowToks, Wrapped, ParseRedirs;
      assert l0 + [] == l0;
      ArgsBack(args + [ws[0]], l0, ws[1..], l, rest);
      assert args + [ws[0]] + ws[1..] == args + ws;
    }
  }

  lemma {:induction false} ExecBack(c: Cmd<string>, l: seq<Arrow<string>>, rest: seq<Tok<string>>)
    requires Fits(c) && Stops(rest)
    ensures ParseExec(Render(c, 3) + ArrowToks(l) + rest) == Done(Wrapped(c, l), rest)
    decreases c, if Level(c) < 3 then 4 else 0
  {
    match c {
      case Exec(ws) =>
        WordsFirst(ws, l, rest);
        ArgsBack([], [], ws, l, rest);
        assert [] + ws == ws && [] + l == l;
      case Redir(d, f, out) =>
        var a := Arrow(f, out);
        assert Render(c, 3) + ArrowToks(l) + rest == Render(d, 3) + ArrowToks([a] + l) + rest;
        ExecBack(d, [a] + l, rest);
        assert ([a] + l)[1..] == l;
      case _ => BlockBack(c, l, rest);
    }
  }

  /** A simple command does not start with a parenthesis. */
  lemma WordsFirst(ws: seq<string>, l: seq<Arrow<string>>, rest: seq<Tok<string>>)
    requires Stops(rest)
    ensures var ts := Words(ws) + ArrowToks(l) + rest;
            !At(ts, "(") && Body(Exec(ws)) + ArrowToks(l) + rest == ts
  {
    var ts := Words(ws) + ArrowToks(l) + rest;
    if ws == [] && l == [] {
      assert ts == rest;
    } else if ws == [] {
      assert ts[0] == Sym(if l[0].out then '>' else '<');
    } else {
      assert ts[0] == Tok('a', ws[0]);
    }
  }

  lemma {:induction false} BlockBack(c: Cmd<string>, l: seq<Arrow<string>>, rest: seq<Tok<string>>)
    requires Fits(c) && Stops(rest) && Level(c) < 3
    ensures ParseExec(Render(c, 3) + ArrowToks(l) + rest) == Done(Wrapped(c, l), rest)
    decreases c, 4, 0
  {
    var after := [Sym(')')] + ArrowToks(l) + rest;
    Bracketed(Body(c), l, rest);
    LineBack(c, after);
    RedirsBack(l, rest);
  }

  lemma Bracketed(body: seq<Tok<string>>, l: seq<Arrow<string>>, rest: seq<Tok<string>>)
    ensures var ts := [Sym('(')] + body + [Sym(')')] + ArrowToks(l) + rest;
            var after := [Sym(')')] + ArrowToks(l) + rest;
            At(ts, "(") && ts[1..] == body + after && At(after, ")") && after[1..] == ArrowToks(l) + rest
  {
    Around(Sym('('), body, Sym(')'), ArrowToks(l), rest);
    hide ArrowToks;
  }

  lemma Around<A>(x: A, body: seq<A>, y: A, a: seq<A>, rest: seq<A>)
    ensures var ts, after := [x] + body + [y] + a + rest, [y] + a + rest;
            |ts| > 0 && ts[0] == x && ts[1..] == body + after && after[0] == y && after[1..] == a + rest
  {
    assert [x] + body + [y] + a + rest == [x] + (body + ([y] + a + rest));
  }

  lemma {:induction false} PipeBack(c: Cmd<string>, rest: seq<Tok<string>>)
    requires Fits(c) && (rest == [] || At(rest, ")&;"))
    ensures ParsePipe(Render(c, 2) + rest) == Done(c, rest)
    decreases c, if Level(c) < 2 then 5 else 1
  {
    if c.Pipe? {
      var after := [Sym('|')] + Render(c.right, 2) + rest;
      assert Render(c, 2) + rest == Render(c.left, 3) + ArrowToks([]) + after;
      ExecBack(c.left, [], after);
      assert after[1..] == Render(c.right, 2) + rest;
      PipeBack(c.right, rest);
    } else {
      assert Render(c, 2) + rest == Render(c, 3) + ArrowToks([]) + rest;
      ExecBack(c, [], rest);
    }
  }

  /** What parsepipe leaves for the while loop amounts to the whole command. */
  lemma {:induction false} ChainBack(c: Cmd<string>, rest: seq<Tok<string>>)
    requires Fits(c) && (rest == [] || At(rest, ")&;"))
    ensures var r := ParsePipe(Render(c, 1) + rest); r.Done? && Backs(r.cmd, r.rest) == Backs(c, rest)
    decreases c, if Level(c) < 1 then 6 else 2
  {
    if c.Back? {
      var after := [Sym('&')] + rest;
      assert Render(c, 1) + rest == Render(c.cmd, 1) + after;
      ChainBack(c.cmd, after);
      assert after[1..] == rest;
    } else {
      assert Render(c, 1) == Render(c, 2);
      PipeBack(c, rest);
    }
  }

  lemma {:induction false} LineBack(c: Cmd<string>, rest: seq<Tok<string>>)
    requires Fits(c) && (rest == [] || At(rest, ")"))
    ensures ParseLine(Render(c, 0) + rest) == Done(c, rest)
    decreases c, 3
  {
    if c.List? {
      var after := [Sym(';')] + Render(c.right, 0) + rest;
      assert Render(c, 0) + rest == Render(c.left, 1) + after;
      ChainBack(c.left, after);
      assert after[1..] == Render(c.right, 0) + rest;
      LineBack(c.right, rest);
      hide Body, Words, ParseExec, ParseArgs;
    } else {
      assert Render(c, 0) == Render(c, 1);
      ChainBack(c, rest);
    }
  }

  /** On tokens, parsing is the inverse of writing: the same tree, nothing left over. */
  lemma ParseOfRender(c: Cmd<string>)
    requires Fits(c)
    ensures ParseCmd(Render(c, 0)) == Done(c, [])
  {
    LineBack(c, []);
    assert Render(c, 0) + [] == Render(c, 0);
  }

  // ---- parsing looks at kinds only ---------------------------------------------------------

  function MapCmd<A, B>(f: A -> B, c: Cmd<A>): Cmd<B> {
    match c
    case Exec(args) => Exec(seq(|args|, i requires 0 <= i < |args| => f(args[i])))
    case Redir(d, file, out) => Redir(MapCmd(f, d), f(file), out)
    case Pipe(l, r) => Pipe(MapCmd(f, l), MapCmd(f, r))
    case List(l, r) => List(MapCmd(f, l), MapCmd(f, r))
    case Back(d) => Back(MapCmd(f, d))
  }

  function MapToks<A, B>(f: A -> B, ts: seq<Tok<A>>): (r: seq<Tok<B>>)
    ensures |r| == |ts|
  {
    seq(|ts|, i requires 0 <= i < |ts| => Tok(ts[i].kind, f(ts[i].val)))
  }

  function MapArrows<A, B>(f: A -> B, l: seq<Arrow<A>>): (r: seq<Arrow<B>>)
    ensures |r| == |l|
  {
    seq(|l|, i requires 0 <= i < |l| => Arrow(f(l[i].file), l[i].out))
  }

  function MapParsed<A, B>(f: A -> B, p: Parsed<A>): Parsed<B> {
    match p
    case Panic => Panic
    case Done(c, rest) => Done(MapCmd(f, c), MapToks(f, rest))
  }

  lemma MapTail<A, B>(f: A -> B, ts: seq<Tok<A>>, n: nat)
    requires n <= |ts|
    ensures MapToks(f, ts[n..]) == MapToks(f, ts)[n..]
  {
  }

  lemma {:induction false} MapRedirs<A, B>(f: A -> B, ts: seq<Tok<A>>)
    ensures ParseRedirs(MapToks(f, ts)) ==
              match ParseRedirs(ts) case NoFile => NoFile case Got(l, rest) => Got(MapArrows(f, l), MapToks(f, rest))
    decreases |ts|
  {
    if At(ts, "<>+") && |ts| >= 2 && ts[1].kind == 'a' {
      MapTail(f, ts, 2);
      MapRedirs(f, ts[2..]);
      match ParseRedirs(ts[2..]) {
        case NoFile =>
        case Got(l, rest) =>
          var a := Arrow(ts[1].val, ts[0].kind != '<');
          assert MapArrows(f, [a] + l) == [Arrow(f(a.file), a.out)] + MapArrows(f, l);
      }
    }
  }

  lemma {:induction false} MapWrapped<A, B>(f: A -> B, c: Cmd<A>, l: seq<Arrow<A>>)
    ensures MapCmd(f, Wrapped(c, l)) == Wrapped(MapCmd(f, c), MapArrows(f, l))
    decreases |l|
  {
    if l != [] {
      MapWrapped(f, Redir(c, l[0].file, l[0].out), l[1..]);
      assert MapArrows(f, l)[1..] == MapArrows(f, l[1..]);
    }
  }

  function MapSeq<A, B>(f: A -> B, s: seq<A>): (r: seq<B>)
    ensures |r| == |s|
  {
    seq(|s|, i requires 0 <= i < |s| => f(s[i]))
  }

  lemma {:induction false} MapArgs<A, B>(f: A -> B, args: seq<A>, l: seq<Arrow<A>>, ts: seq<Tok<A>>)
    ensures ParseArgs(MapSeq(f, args), MapArrows(f, l), MapToks(f, ts)) == MapParsed(f, ParseArgs(args, l, ts))
    decreases |ts|
  {
    MapRedirs(f, ts);
    match ParseRedirs(ts) {
      case NoFile =>
      case Got(more, rest) =>
        assert MapArrows(f, l + more) == MapArrows(f, l) + MapArrows(f, more);
        if rest == [] || At(rest, "|)&;") {
          MapWrapped(f, Exec(args), l + more);
          assert MapSeq(f, args) == seq(|args|, i requires 0 <= i < |args| => f(args[i]));
        } else if rest[0].kind == 'a' && |args| + 1 < MAXARGS {
          MapTail(f, rest, 1);
          assert MapSeq(f, args + [rest[0].val]) == MapSeq(f, args) + [f(rest[0].val)];
          MapArgs(f, args + [rest[0].val], l + more, rest[1..]);
        }
    }
  }

  lemma {:induction false} MapExec<A, B>(f: A -> B, ts: seq<Tok<A>>)
    ensures ParseExec(MapToks(f, ts)) == MapParsed(f, ParseExec(ts))
    decreases |ts|, 0
  {
    if At(ts, "(") {
      MapTail(f, ts, 1);
      MapLine(f, ts[1..]);
      match ParseLine(ts[1..]) {
        case Panic =>
        case Done(c, r1) =>
          if At(r1, ")") {
            MapTail(f, r1, 1);
            MapRedirs(f, r1[1..]);
            match ParseRedirs(r1[1..]) {
              case NoFile =>
              case Got(l, r2) => MapWrapped(f, c, l);
            }
          }
      }
    } else {
      MapArgs(f, [], [], ts);
      assert MapSeq(f, []) == [] && MapArrows(f, []) == [];
    }
  }

  lemma {:induction false} MapPipe<A, B>(f: A -> B, ts: seq<Tok<A>>)
    ensures ParsePipe(MapToks(f, ts)) == MapParsed(f, ParsePipe(ts))
    decreases |ts|, 1
  {
    MapExec(f, ts);
    match ParseExec(ts) {
      case Panic =>
      case Done(c, r1) =>
        if At(r1, "|") {
          MapTail(f, r1, 1);
          MapPipe(f, r1[1..]);
        }
    }
  }

  lemma {:induction false} MapBacks<A, B>(f: A -> B, c: Cmd<A>, ts: seq<Tok<A>>)
    ensures Backs(MapCmd(f, c), MapToks(f, ts)) == MapParsed(f, Backs(c, ts))
    decreases |ts|
  {
    if At(ts, "&") {
      MapTail(f, ts, 1);
      MapBacks(f, Back(c), ts[1..]);
    }
  }

  lemma {:induction false} MapLine<A, B>(f: A -> B, ts: seq<Tok<A>>)
    ensures ParseLine(MapToks(f, ts)) == MapParsed(f, ParseLine(ts))
    decreases |ts|, 2
  {
    MapPipe(f, ts);
    match ParsePipe(ts) {
      case Panic =>
      case Done(c, r1) =>
        MapBacks(f, c, r1);
        var b := Backs(c, r1);
        if At(b.rest, ";") {
          MapTail(f, b.rest, 1);
          MapLine(f, b.rest[1..]);
        }
    }
  }

  lemma MapParse<A, B>(f: A -> B, ts: seq<Tok<A>>)
    ensures ParseCmd(MapToks(f, ts)) == MapParsed(f, ParseCmd(ts))
  {
    MapLine(f, ts);
  }

  // ---- parsing invents no words --------------------------------------------------------------

  /** Every word and file name of the command has the property. */
  ghost predicate Every<A(!new)>(p: A -> bool, c: Cmd<A>) {
    match c
    case Exec(args) => forall i :: 0 <= i < |args| ==> p(args[i])
    case Redir(d, file, _) => Every(p, d) && p(file)
    case Pipe(l, r) => Every(p, l) && Every(p, r)
    case List(l, r) => Every(p, l) && Every(p, r)
    case Back(d) => Every(p, d)
  }

  ghost predicate EveryTok<A(!new)>(p: A -> bool, ts: seq<Tok<A>>) {
    forall i :: 0 <= i < |ts| && ts[i].kind == 'a' ==> p(ts[i].val)
  }

  ghost predicate EveryArrow<A(!new)>(p: A -> bool, l: seq<Arrow<A>>) {
    forall i :: 0 <= i < |l| ==> p(l[i].file)
  }

  lemma {:induction false} EveryRedirs<A(!new)>(p: A -> bool, ts: seq<Tok<A>>)
    requires EveryTok(p, ts)
    ensures var r := ParseRedirs(ts); r.Got? ==> EveryArrow(p, r.list) && EveryTok(p, r.rest)
    decreases |ts|
  {
    if At(ts, "<>+") && |ts| >= 2 && ts[1].kind == 'a' {
      EveryRedirs(p, ts[2..]);
    }
  }

  lemma {:induction false} EveryWrapped<A(!new)>(p: A -> bool, c: Cmd<A>, l: seq<Arrow<A>>)
    requires Every(p, c) && EveryArrow(p, l)
    ensures Every(p, Wrapped(c, l))
    decreases |l|
  {
    if l != [] {
      EveryWrapped(p, Redir(c, l[0].file, l[0].out), l[1..]);
    }
  }

  lemma {:induction false} EveryArgs<A(!new)>(p: A -> bool, args: seq<A>, l: seq<Arrow<A>>, ts: seq<Tok<A>>)
    requires Every(p, Exec(args)) && EveryArrow(p, l) && EveryTok(p, ts)
    ensures var r := ParseArgs(args, l, ts); r.Done? ==> Every(p, r.cmd) && EveryTok(p, r.rest)
    decreases |ts|
  {
    EveryRedirs(p, ts);
    match ParseRedirs(ts) {
      case NoFile =>
      case Got(more, rest) =>
        if rest == [] || At(rest, "|)&;") {
          EveryWrapped(p, Exec(args), l + more);
        } else if rest[0].kind == 'a' && |args| + 1 < MAXARGS {
          assert Every(p, Exec(args + [rest[0].val]));
          EveryArgs(p, args + [rest[0].val], l + more, rest[1..]);
        }
    }
  }

  lemma {:induction false} EveryExec<A(!new)>(p: A -> bool, ts: seq<Tok<A>>)
    requires EveryTok(p, ts)
    ensures var r := ParseExec(ts); r.Done? ==> Every(p, r.cmd) && EveryTok(p, r.rest)
    decreases |ts|, 0
  {
    if At(ts, "(") {
      EveryLine(p, ts[1..]);
      match ParseLine(ts[1..]) {
        case Panic =>
        case Done(c, r1) =>
          if At(r1, ")") {
            EveryRedirs(p, r1[1..]);
            match ParseRedirs(r1[1..]) {
              case NoFile =>
              case Got(l, r2) => EveryWrapped(p, c, l);
            }
          }
      }
    } else {
      EveryArgs(p, [], [], ts);
    }
  }

  lemma {:induction false} EveryPipe<A(!new)>(p: A -> bool, ts: seq<Tok<A>>)
    requires EveryTok(p, ts)
    ensures var r := ParsePipe(ts); r.Done? ==> Every(p, r.cmd) && EveryTok(p, r.rest)
    decreases |ts|, 1
  {
    EveryExec(p, ts);
    match ParseExec(ts) {
      case Panic =>
      case Done(c, r1) =>
        if At(r1, "|") {
          EveryPipe(p, r1[1..]);
        }
    }
  }

  lemma {:induction false} EveryBacks<A(!new)>(p: A -> bool, c: Cmd<A>, ts: seq<Tok<A>>)
    requires Every(p, c) && EveryTok(p, ts)
    ensures var r := Backs(c, ts); Every(p, r.cmd) && EveryTok(p, r.rest)
    decreases |ts|
  {
    if At(ts, "&") {
      EveryBacks(p, Back(c), ts[1..]);
    }
  }

  lemma {:induction false} EveryLine<A(!new)>(p: A -> bool, ts: seq<Tok<A>>)
    requires EveryTok(p, ts)
    ensures var r := ParseLine(ts); r.Done? ==> Every(p, r.cmd) && EveryTok(p, r.rest)
    decreases |ts|, 2
  {
    EveryPipe(p, ts);
    match ParsePipe(ts) {
      case Panic =>
      case Done(c, r1) =>
        EveryBacks(p, c, r1);
        var b := Backs(c, r1);
        if At(b.rest, ";") {
          EveryLine(p, b.rest[1..]);
        }
    }
  }

  // ---- symbols are their kinds, and >> is > -----------------------------------------

  function PlainKind(k: char): char {
    if k == '+' then '>' else k
  }

  /** The same words, and the same symbols but for > and >>, however they are written. */
  predicate AlikeTok<A(==)>(t: Tok<A>, u: Tok<A>) {
    if t.kind == 'a' then u == t else u.kind != 'a' && PlainKind(t.kind) == PlainKind(u.kind)
  }

  predicate Alike<A(==)>(ts: seq<Tok<A>>, us: seq<Tok<A>>) {
    |ts| == |us| && forall i :: 0 <= i < |ts| ==> AlikeTok(ts[i], us[i])
  }

  predicate AlikeParsed<A(==)>(p: Parsed<A>, q: Parsed<A>) {
    match p
    case Panic => q.Panic?
    case Done(c, rest) => q.Done? && q.cmd == c && Alike(rest, q.rest)
  }

  predicate AlikeArrows<A(==)>(p: Arrows<A>, q: Arrows<A>) {
    match p
    case NoFile => q.NoFile?
    case Got(l, rest) => q.Got? && q.list == l && Alike(rest, q.rest)
  }

  lemma AlikeTail<A>(ts: seq<Tok<A>>, us: seq<Tok<A>>, n: nat)
    requires Alike(ts, us) && n <= |ts|
    ensures Alike(ts[n..], us[n..])
  {
  }

  /** peek for symbols cannot tell them apart. */
  lemma AlikeAt<A>(ts: seq<Tok<A>>, us: seq<Tok<A>>, kinds: string)
    requires Alike(ts, us) && 'a' !in kinds && ('>' in kinds <==> '+' in kinds)
    ensures At(ts, kinds) <==> At(us, kinds)
  {
    if ts != [] {
      assert AlikeTok(ts[0], us[0]);
    }
  }

  lemma {:induction false} AlikeRedirs<A>(ts: seq<Tok<A>>, us: seq<Tok<A>>)
    requires Alike(ts, us)
    ensures AlikeArrows(ParseRedirs(ts), ParseRedirs(us))
    decreases |ts|
  {
    AlikeAt(ts, us, "<>+");
    if At(ts, "<>+") && |ts| >= 2 {
      assert AlikeTok(ts[0], us[0]) && AlikeTok(ts[1], us[1]);
      AlikeTail(ts, us, 2);
      AlikeRedirs(ts[2..], us[2..]);
    }
  }

  lemma {:induction false} AlikeArgs<A>(args: seq<A>, l: seq<Arrow<A>>, ts: seq<Tok<A>>, us: seq<Tok<A>>)
    requires Alike(ts, us)
    ensures AlikeParsed(ParseArgs(args, l, ts), ParseArgs(args, l, us))
    decreases |ts|
  {
    AlikeRedirs(ts, us);
    match ParseRedirs(ts) {
      case NoFile =>
      case Got(more, rest) =>
        var rest' := ParseRedirs(us).rest;
        AlikeAt(rest, rest', "|)&;");
        if rest != [] && !At(rest, "|)&;") {
          assert AlikeTok(rest[0], rest'[0]);
          if rest[0].kind == 'a' && |args| + 1 < MAXARGS {
            AlikeTail(rest, rest', 1);
            AlikeArgs(args + [rest[0].val], l + more, rest[1..], rest'[1..]);
          }
        }
    }
  }

  lemma {:induction false} AlikeExec<A>(ts: seq<Tok<A>>, us: seq<Tok<A>>)
    requires Alike(ts, us)
    ensures AlikeParsed(ParseExec(ts), ParseExec(us))
    decreases |ts|, 0
  {
    AlikeAt(ts, us, "(");
    if At(ts, "(") {
      AlikeTail(ts, us, 1);
      AlikeLine(ts[1..], us[1..]);
      match ParseLine(ts[1..]) {
        case Panic =>
        case Done(c, r1) =>
          var r2 := ParseLine(us[1..]).rest;
          AlikeAt(r1, r2, ")");
          if At(r1, ")") {
            AlikeTail(r1, r2, 1);
            AlikeRedirs(r1[1..], r2[1..]);
          }
      }
    } else {
      AlikeArgs([], [], ts, us);
    }
  }

  lemma {:induction false} AlikePipe<A>(ts: seq<Tok<A>>, us: seq<Tok<A>>)
    requires Alike(ts, us)
    ensures AlikeParsed(ParsePipe(ts), ParsePipe(us))
    decreases |ts|, 1
  {
    AlikeExec(ts, us);
    match ParseExec(ts) {
      case Panic =>
      case Done(c, r1) =>
        var r2 := ParseExec(us).rest;
        AlikeAt(r1, r2, "|");
        if At(r1, "|") {
          AlikeTail(r1, r2, 1);
          AlikePipe(r1[1..], r2[1..]);
        }
    }
  }

  lemma {:induction false} AlikeBacks<A>(c: Cmd<A>, ts: seq<Tok<A>>, us: seq<Tok<A>>)
    requires Alike(ts, us)
    ensures AlikeParsed(Backs(c, ts), Backs(c, us))
    decreases |ts|
  {
    AlikeAt(ts, us, "&");
    if At(ts, "&") {
      AlikeTail(ts, us, 1);
      AlikeBacks(Back(c), ts[1..], us[1..]);
    }
  }

  /** The tree does not depend on how a symbol is written, nor on which of > and >> it is: the
      shell opens the file of >> as it opens that of >. */
  lemma {:induction false} AlikeLine<A>(ts: seq<Tok<A>>, us: seq<Tok<A>>)
    requires Alike(ts, us)
    ensures AlikeParsed(ParseLine(ts), ParseLine(us))
    decreases |ts|, 2
  {
    AlikePipe(ts, us);
    match ParsePipe(ts) {
      case Panic =>
      case Done(c, r1) =>
        AlikeBacks(c, r1, ParsePipe(us).rest);
        var b, b' := Backs(c, r1), Backs(c, ParsePipe(us).rest);
        AlikeAt(b.rest, b'.rest, ";");
        if At(b.rest, ";") {
          AlikeTail(b.rest, b'.rest, 1);
          AlikeLine(b.rest[1..], b'.rest[1..]);
        }
    }
  }

  /** A written command in which some > are >> parses to the same tree. */
  lemma AppendBack(c: Cmd<string>, ts: seq<Tok<string>>)
    requires Fits(c) && Alike(Render(c, 0), ts)
    ensures ParseCmd(ts) == Done(c, [])
  {
    ParseOfRender(c);
    AlikeLine(Render(c, 0), ts);
  }
}
