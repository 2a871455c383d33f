/** The parser takes a command line only when everything in it has its place in the tree: no
    word or symbol is lost or made up, parentheses balance, and no command has too many words. */
module ShellTally {
  import opened ShellGrammar

  /** What there is: the words, the pipes, lists, background marks and redirections, and by
      how many the opening parentheses outnumber the closing ones. */
  datatype Tally<A(==)> = Tally(words: multiset<A>, pipes: int, lists: int, backs: int, arrows: int, open: int)

  function Nothing<A(==)>(): Tally<A> {
    Tally(multiset{}, 0, 0, 0, 0, 0)
  }

  function Plus<A(==)>(a: Tally<A>, b: Tally<A>): Tally<A> {
    Tally(a.words + b.words, a.pipes + b.pipes, a.lists + b.lists, a.backs + b.backs, a.arrows + b.arrows, a.open + b.open)
  }

  function OfTok<A(==)>(t: Tok<A>): Tally<A> {
    match t.kind
    case 'a' => Tally(multiset{t.val}, 0, 0, 0, 0, 0)
    case '|' => Tally(multiset{}, 1, 0, 0, 0, 0)
    case ';' => Tally(multiset{}, 0, 1, 0, 0, 0)
    case '&' => Tally(multiset{}, 0, 0, 1, 0, 0)
    case '(' => Tally(multiset{}, 0, 0, 0, 0, 1)
    case ')' => Tally(multiset{}, 0, 0, 0, 0, -1)
    case k => if k in "<>+" then Tally(multiset{}, 0, 0, 0, 1, 0) else Nothing()
  }

  function OfToks<A(==)>(ts: seq<Tok<A>>): Tally<A> {
    if ts == [] then Nothing() else Plus(OfTok(ts[0]), OfToks(ts[1..]))
  }

  function OfArrows<A(==)>(l: seq<Arrow<A>>): Tally<A> {
    if l == [] then Nothing() else Plus(Tally(multiset{l[0].file}, 0, 0, 0, 1, 0), OfArrows(l[1..]))
  }

  function OfCmd<A(==)>(c: Cmd<A>): Tally<A> {
    match c
    case Exec(args) => Tally(multiset(args), 0, 0, 0, 0, 0)
    case Redir(d, file, _) => Plus(OfCmd(d), Tally(multiset{file}, 0, 0, 0, 1, 0))
    case Pipe(l, r) => Plus(Plus(OfCmd(l), OfCmd(r)), Tally(multiset{}, 1, 0, 0, 0, 0))
    case List(l, r) => Plus(Plus(OfCmd(l), OfCmd(r)), Tally(multiset{}, 0, 1, 0, 0, 0))
    case Back(d) => Plus(OfCmd(d), Tally(multiset{}, 0, 0, 1, 0, 0))
  }

  lemma PlusInTurn<A>(a: Tally<A>, b: Tally<A>, c: Tally<A>)
    ensures Plus(Plus(a, b), c) == Plus(a, Plus(b, c)) && Plus(a, b) == Plus(b, a)
    ensures Plus(Nothing(), a) == a
  {
  }

  lemma First<A>(ts: seq<Tok<A>>)
    requires ts != []
    ensures OfToks(ts) == Plus(OfTok(ts[0]), OfToks(ts[1..]))
  {
  }

  lemma {:induction false} WrappedTally<A>(c: Cmd<A>, l: seq<Arrow<A>>)
    ensures OfCmd(Wrapped(c, l)) == Plus(OfCmd(c), OfArrows(l))
    ensures Fits(Wrapped(c, l)) == Fits(c)
    decreases |l|
  {
    hide Plus;
    if l != [] {
      WrappedTally(Redir(c, l[0].file, l[0].out), l[1..]);
      PlusInTurn(OfCmd(c), Tally(multiset{l[0].file}, 0, 0, 0, 1, 0), OfArrows(l[1..]));
    } else {
      PlusInTurn(OfCmd(c), Nothing(), Nothing());
    }
  }

  lemma {:induction false} ArrowsTally<A>(l: seq<Arrow<A>>, m: seq<Arrow<A>>)
    ensures OfArrows(l + m) == Plus(OfArrows(l), OfArrows(m))
  {
    hide Plus;
    if l == [] {
      assert l + m == m;
      PlusInTurn(OfArrows(m), Nothing(), Nothing());
    } else {
      assert (l + m)[1..] == l[1..] + m;
      ArrowsTally(l[1..], m);
      PlusInTurn(Tally(multiset{l[0].file}, 0, 0, 0, 1, 0), OfArrows(l[1..]), OfArrows(m));
    }
  }

  lemma {:induction false} RedirsTally<A>(ts: seq<Tok<A>>)
    ensures var r := ParseRedirs(ts); r.Got? ==> OfToks(ts) == Plus(OfArrows(r.list), OfToks(r.rest))
    decreases |ts|
  {
    hide Plus, OfTok;
    var r := ParseRedirs(ts);
    if r.Got? {
      if !At(ts, "<>+") {
        PlusInTurn(OfToks(ts), Nothing(), Nothing());
      } else {
        RedirsTally(ts[2..]);
        First(ts);
        First(ts[1..]);
        assert ts[1..][1..] == ts[2..];
        var next := ParseRedirs(ts[2..]);
        var a := Arrow(ts[1].val, ts[0].kind != '<');
        assert r.list[1..] == next.list && r.list[0] == a;
        ArrowFirst(r.list);
        ArrowTok(ts[0]);
        WordTok(ts[1]);
        TwoToks(OfTok(ts[0]), OfTok(ts[1]), a.file, OfArrows(next.list), OfToks(r.rest));
      }
    }
  }

  lemma ArrowFirst<A>(l: seq<Arrow<A>>)
    requires l != []
    ensures OfArrows(l) == Plus(Tally(multiset{l[0].file}, 0, 0, 0, 1, 0), OfArrows(l[1..]))
  {
  }

  lemma ArrowTok<A>(t: Tok<A>)
    requires t.kind in "<>+"
    ensures OfTok(t) == Tally(multiset{}, 0, 0, 0, 1, 0)
  {
  }

  lemma WordTok<A>(t: Tok<A>)
    requires t.kind == 'a'
    ensures OfTok(t) == Tally(multiset{t.val}, 0, 0, 0, 0, 0)
  {
  }

  lemma Parens<A>(t: Tok<A>, u: Tok<A>)
    requires t.kind == '(' && u.kind == ')'
    ensures Plus(OfTok(t), OfTok(u)) == Nothing()
  {
    OpenTok(t);
    CloseTok(u);
    hide OfTok;
  }

  lemma OpenTok<A>(t: Tok<A>)
    requires t.kind == '('
    ensures OfTok(t) == Tally(multiset{}, 0, 0, 0, 0, 1)
  {
  }

  lemma CloseTok<A>(t: Tok<A>)
    requires t.kind == ')'
    ensures OfTok(t) == Tally(multiset{}, 0, 0, 0, 0, -1)
  {
  }

  lemma TwoToks<A>(a: Tally<A>, b: Tally<A>, file: A, l: Tally<A>, rest: Tally<A>)
    requires a == Tally(multiset{}, 0, 0, 0, 1, 0) && b == Tally(multiset{file}, 0, 0, 0, 0, 0)
    ensures Plus(a, Plus(b, Plus(l, rest))) == Plus(Plus(Tally(multiset{file}, 0, 0, 0, 1, 0), l), rest)
  {
  }

  /** The tokens before `rest` make up the command. */
  predicate Accounted<A(==)>(ts: seq<Tok<A>>, r: Parsed<A>) {
    r.Done? ==> OfToks(ts) == Plus(OfCmd(r.cmd), OfToks(r.rest)) && Fits(r.cmd)
  }

  lemma {:induction false} ArgsTally<A>(args: seq<A>, l: seq<Arrow<A>>, ts: seq<Tok<A>>)
    requires |args| < MAXARGS
    ensures var r := ParseArgs(args, l, ts);
            r.Done? ==>
              && Fits(r.cmd)
              && Plus(Plus(Tally(multiset(args), 0, 0, 0, 0, 0), OfArrows(l)), OfToks(ts)) == Plus(OfCmd(r.cmd), OfToks(r.rest))
    decreases |ts|
  {
    hide Plus, OfTok, OfArrows;
    RedirsTally(ts);
    match ParseRedirs(ts) {
      case NoFile =>
      case Got(more, rest) =>
        ArrowsTally(l, more);
        if rest == [] || At(rest, "|)&;") {
          WrappedTally(Exec(args), l + more);
          PlusInTurn(Plus(Tally(multiset(args), 0, 0, 0, 0, 0), OfArrows(l)), OfArrows(more), OfToks(rest));
          PlusInTurn(Tally(multiset(args), 0, 0, 0, 0, 0), OfArrows(l), OfArrows(more));
        } else if rest[0].kind == 'a' && |args| + 1 < MAXARGS {
          ArgsTally(args + [rest[0].val], l + more, rest[1..]);
          First(rest);
          WordTok(rest[0]);
          OneArgMore(args, rest[0].val, OfArrows(l), OfArrows(more), OfToks(rest[1..]));
        }
    }
  }

  lemma OneArgMore<A>(args: seq<A>, w: A, l: Tally<A>, more: Tally<A>, rest: Tally<A>)
    ensures Plus(Plus(Tally(multiset(args), 0, 0, 0, 0, 0), l), Plus(more, Plus(Tally(multiset{w}, 0, 0, 0, 0, 0), rest)))
            == Plus(Plus(Tally(multiset(args + [w]), 0, 0, 0, 0, 0), Plus(l, more)), rest)
  {
    assert multiset(args + [w]) == multiset(args) + multiset{w};
  }

  lemma {:induction false} ExecTally<A>(ts: seq<Tok<A>>)
    ensures Accounted(ts, ParseExec(ts))
    decreases |ts|, 0
  {
    hide Plus, OfTok, OfToks, OfCmd, OfArrows, Wrapped, ParseRedirs, ParseArgs;
    if At(ts, "(") {
      First(ts);
      LineTally(ts[1..]);
      match ParseLine(ts[1..]) {
        case Panic =>
        case Done(c, r1) =>
          if At(r1, ")") {
            First(r1);
            RedirsTally(r1[1..]);
            match ParseRedirs(r1[1..]) {
              case NoFile =>
              case Got(l, r2) =>
                WrappedTally(c, l);
                Parens(ts[0], r1[0]);
                Between(OfTok(ts[0]), OfCmd(c), OfTok(r1[0]), OfArrows(l), OfToks(r2));
            }
          }
      }
    } else {
      ArgsTally<A>([], [], ts);
      NoArgs(OfToks(ts));
    }
  }

  lemma NoArgs<A>(rest: Tally<A>)
    ensures var none: seq<A> := []; Plus(Plus(Tally(multiset(none), 0, 0, 0, 0, 0), OfArrows<A>([])), rest) == rest
  {
  }

  lemma Between<A>(a: Tally<A>, c: Tally<A>, b: Tally<A>, l: Tally<A>, rest: Tally<A>)
    requires Plus(a, b) == Nothing()
    ensures Plus(a, Plus(c, Plus(b, Plus(l, rest)))) == Plus(Plus(c, l), rest)
  {
  }

  lemma Joined<A>(c: Tally<A>, t: Tally<A>, d: Tally<A>, rest: Tally<A>)
    ensures Plus(c, Plus(t, Plus(d, rest))) == Plus(Plus(Plus(c, d), t), rest)
  {
  }

  lemma {:induction false} PipeTally<A>(ts: seq<Tok<A>>)
    ensures Accounted(ts, ParsePipe(ts))
    decreases |ts|, 1
  {
    hide Plus, OfToks;
    ExecTally(ts);
    match ParseExec(ts) {
      case Panic =>
      case Done(c, r1) =>
        if At(r1, "|") {
          First(r1);
          PipeTally(r1[1..]);
          match ParsePipe(r1[1..]) {
            case Panic =>
            case Done(d, r2) => Joined(OfCmd(c), OfTok(r1[0]), OfCmd(d), OfToks(r2));
          }
        }
    }
  }

  lemma {:induction false} BacksTally<A>(c: Cmd<A>, ts: seq<Tok<A>>)
    requires Fits(c)
    ensures var r := Backs(c, ts); Fits(r.cmd) && Plus(OfCmd(c), OfToks(ts)) == Plus(OfCmd(r.cmd), OfToks(r.rest))
    decreases |ts|
  {
    hide Plus, OfToks;
    if At(ts, "&") {
      First(ts);
      BacksTally(Back(c), ts[1..]);
      PlusInTurn(OfCmd(c), OfTok(ts[0]), OfToks(ts[1..]));
    }
  }

  lemma {:induction false} LineTally<A>(ts: seq<Tok<A>>)
    ensures Accounted(ts, ParseLine(ts))
    decreases |ts|, 2
  {
    hide Plus, OfToks, ParsePipe;
    PipeTally(ts);
    match ParsePipe(ts) {
      case Panic =>
      case Done(c, r1) =>
        BacksTally(c, r1);
        var b := Backs(c, r1);
        if At(b.rest, ";") {
          First(b.rest);
          LineTally(b.rest[1..]);
          match ParseLine(b.rest[1..]) {
            case Panic =>
            case Done(d, r2) => Joined(OfCmd(b.cmd), OfTok(b.rest[0]), OfCmd(d), OfToks(r2));
          }
        }
    }
  }

  /** A command line that is accepted: nothing is left over, every word and symbol is in the
      tree exactly once, the parentheses balance, and every command has fewer than MAXARGS
      words. */
  lemma AllAccounted<A>(ts: seq<Tok<A>>)
    ensures var r := ParseCmd(ts); r.Done? ==> r.rest == [] && OfToks(ts) == OfCmd(r.cmd) && Fits(r.cmd)
  {
    hide Plus, ParseLine;
    LineTally(ts);
    if ParseCmd(ts).Done? {
      PlusInTurn(OfCmd(ParseCmd(ts).cmd), Nothing(), Nothing());
    }
  }
}
