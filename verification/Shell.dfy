/** The shell's recursive-descent parser over its input buffer, and nulterminate, which turns
    the words it found into C strings in place. */
module Shell {
  import opened ShellGrammar
  import opened ShellText
  import opened Wrappers

  /** peek's set of characters as token kinds: '>' also starts '>>'. */
  function Kinds(toks: string): string {
    if '>' in toks then toks + "+" else toks
  }

  predicate Symbols(toks: string) {
    forall i :: 0 <= i < |toks| ==> IsSymbol(toks[i])
  }

  /** The next character decides what the next token is. */
  lemma PeekHead(text: string, p: nat, toks: string)
    requires p <= |text| && CString(text) && Symbols(toks)
    ensures var c := CharAt(text, Skip(text, p)); (c != '\0' && c in toks) <==> At(Lex(text, p), Kinds(toks))
  {
    var q := Skip(text, p);
    if q < |text| {
      var k := Kind(text, q);
      assert Lex(text, p)[0].kind == k;
      assert !IsSymbol('a') && !IsSymbol('+');
    }
  }

  class Parser {
    const buf: array<char>
    const es: nat
    var s: nat

    ghost predicate Valid()
      reads this, buf
    {
      es < buf.Length && s <= es && buf[es] == '\0' && CString(buf[..es])
    }

    ghost function Text(): string
      reads this, buf
      requires Valid()
    {
      buf[..es]
    }

    /** The tokens ahead of the cursor. */
    ghost function Left(): seq<Tok<Span>>
      reads this, buf
      requires Valid()
    {
      Lex(Text(), s)
    }

    constructor (text: string)
      requires CString(text)
      ensures Valid() && fresh(buf) && s == 0 && Text() == text
    {
      var b := new char[|text| + 1](i requires 0 <= i => if i < |text| then text[i] else '\0');
      buf, es, s := b, |text|, 0;
      new;
      assert buf[..es] == text;
    }

    // ---- gettoken and peek ----------------------------------------------------------

    method SkipSpace()
      requires Valid()
      modifies `s
      ensures Valid() && s == Skip(Text(), old(s)) && Left() == old(Left())
    {
      ghost var p := s;
      LexSkips(Text(), s);
      while s < es && IsSpace(buf[s])
        invariant Valid() && Skip(Text(), s) == Skip(Text(), p)
      {
        s := s + 1;
      }
    }

    method Peek(toks: string) returns (b: bool)
      requires Valid() && Symbols(toks)
      modifies `s
      ensures Valid() && s == Skip(Text(), old(s)) && Left() == old(Left())
      ensures b <==> At(Left(), Kinds(toks))
    {
      PeekHead(Text(), s, toks);
      SkipSpace();
      b := buf[s] != '\0' && buf[s] in toks;
    }

    /** gettoken: the next token, or NUL at the end. */
    method Gettoken() returns (ret: char, q: nat, eq: nat)
      requires Valid()
      modifies `s
      ensures Valid()
      ensures old(Left()) == [] ==> ret == '\0' && Left() == []
      ensures old(Left()) != [] ==> Tok(ret, Span(q, eq)) == old(Left())[0] && Left() == old(Left())[1..]
    {
      SkipSpace();
      q := s;
      ghost var text := Text();
      assert Skip(text, q) == q;
      ret := buf[s];
      if ret == '\0' {
        assert q == es;
      } else if ret == '>' {
        s := s + 1;
        if buf[s] == '>' {
          ret := '+';
          s := s + 1;
        }
      } else if IsSymbol(ret) {
        s := s + 1;
      } else {
        ret := 'a';
        EatWord();
      }
      eq := s;
      assert ret == Kind(text, q) && eq == TokenEnd(text, q);
      SkipSpace();
      LexSkips(text, eq);
    }

    method EatWord()
      requires Valid()
      modifies `s
      ensures Valid() && s == WordEnd(Text(), old(s))
    {
      ghost var p := s;
      while s < es && !IsSpace(buf[s]) && !IsSymbol(buf[s])
        invariant Valid() && WordEnd(Text(), s) == WordEnd(Text(), p)
      {
        s := s + 1;
      }
    }

    // ---- the grammar ------------------------------------------------------------------

    /** The method got what the grammar on tokens says, panics included. */
    ghost predicate Agrees(r: Option<Cmd<Span>>, p: Parsed<Span>)
      reads this, buf
    {
      Valid() && (match p case Panic => r.None? case Done(c, rest) => r == Some(c) && Left() == rest)
    }

    /** parseredirs.  The redirections are collected, the first innermost, and put around the
        command by the caller, since the tree is a value here. */
    method Parseredirs() returns (r: Option<seq<Arrow<Span>>>)
      requires Valid()
      modifies `s
      ensures Valid()
      ensures match ParseRedirs(old(Left())) case NoFile => r.None? case Got(l, rest) => r == Some(l) && Left() == rest
    {
      var l: seq<Arrow<Span>> := [];
      ghost var ts := Left();
      var more := Peek("<>");
      while more
        invariant Valid() && (more <==> At(Left(), "<>+"))
        invariant Continues(ts, l, Left())
        decreases |Left()|
      {
        ghost var now := Left();
        RedirStep(ts, l, now);
        var tok, q0, eq0 := Gettoken();
        var ret, q, eq := Gettoken();
        if ret != 'a' {
          return None;
        }
        l := l + [Arrow(Span(q, eq), tok != '<')];
        more := Peek("<>");
      }
      assert l + [] == l;
      return Some(l);
    }

    /** parseexec. */
    method Parseexec() returns (r: Option<Cmd<Span>>)
      requires Valid()
      modifies `s
      ensures Agrees(r, ParseExec(old(Left())))
      decreases |Left()|, 0
    {
      var block := Peek("(");
      if block {
        r := Parseblock();
      } else {
        r := Simple();
      }
    }

    /** The rest of parseexec: words and redirections. */
    method Simple() returns (r: Option<Cmd<Span>>)
      requires Valid()
      modifies `s
      ensures Agrees(r, ParseArgs([], [], old(Left())))
    {
      ghost var ts := Left();
      var args: seq<Span> := [];
      ArgsAfterRedirs(args, [], ts);
      var l := Parseredirs();
      if l.None? {
        return None;
      }
      var arrows := l.value;
      assert [] + arrows == arrows;
      var stop := Peek("|)&;");
      while !stop
        invariant Valid() && (stop <==> At(Left(), "|)&;")) && !At(Left(), "<>+")
        invariant ParseArgs(args, arrows, Left()) == ParseArgs([], [], ts)
        decreases |Left()|
      {
        ArgsStep(args, arrows, Left());
        var tok, q, eq := Gettoken();
        if tok == '\0' {
          break;
        }
        if tok != 'a' {
          return None;
        }
        args := args + [Span(q, eq)];
        if |args| >= MAXARGS {
          return None;
        }
        ArgsAfterRedirs(args, arrows, Left());
        l := Parseredirs();
        if l.None? {
          return None;
        }
        arrows := arrows + l.value;
        stop := Peek("|)&;");
      }
      ArgsStep(args, arrows, Left());
      r := Some(Wrapped(Exec(args), arrows));
    }

    /** parseblock. */
    method Parseblock() returns (r: Option<Cmd<Span>>)
      requires Valid() && At(Left(), "(")
      modifies `s
      ensures Agrees(r, ParseExec(old(Left())))
      decreases |Left()|, 0, 0
    {
      var tok, q, eq := Gettoken();
      var c := Parseline();
      if c.None? {
        return None;
      }
      var close := Peek(")");
      if !close {
        return None;
      }
      tok, q, eq := Gettoken();
      var l := Parseredirs();
      if l.None? {
        return None;
      }
      r := Some(Wrapped(c.value, l.value));
    }

    /** parsepipe. */
    method Parsepipe() returns (r: Option<Cmd<Span>>)
      requires Valid()
      modifies `s
      ensures Agrees(r, ParsePipe(old(Left())))
      decreases |Left()|, 1
    {
      r := Parseexec();
      if r.Some? {
        var more := Peek("|");
        if more {
          var tok, q, eq := Gettoken();
          var d := Parsepipe();
          r := if d.None? then None else Some(Pipe(r.value, d.value));
        }
      }
    }

    /** parseline. */
    method Parseline() returns (r: Option<Cmd<Span>>)
      requires Valid()
      modifies `s
      ensures Agrees(r, ParseLine(old(Left())))
      decreases |Left()|, 2
    {
      r := Parsepipe();
      if r.None? {
        return;
      }
      var c := r.value;
      c := Ampersands(c);
      var more := Peek(";");
      if more {
        var tok, q, eq := Gettoken();
        var d := Parseline();
        r := if d.None? then None else Some(List(c, d.value));
      } else {
        r := Some(c);
      }
    }

    method Ampersands(c0: Cmd<Span>) returns (c: Cmd<Span>)
      requires Valid()
      modifies `s
      ensures Agrees(Some(c), Backs(c0, old(Left())))
    {
      c := c0;
      var more := Peek("&");
      while more
        invariant Valid() && (more <==> At(Left(), "&")) && Backs(c, Left()) == Backs(c0, old(Left()))
        decreases |Left()|
      {
        var tok, q, eq := Gettoken();
        c := Back(c);
        more := Peek("&");
      }
    }

    /** parsecmd: the tree, with every word and file name cut out of the buffer as a C string
        of exactly its token; None is panic's exit. */
    method Parsecmd() returns (r: Option<Cmd<Span>>)
      requires Valid() && s == 0
      modifies `s, buf
      ensures match ParseText(old(Text())) case Panic => r.None? case Done(c, rest) => r == Some(c)
      ensures r.Some? ==> Every(Reader(old(Text()), buf[..]), r.value)
    {
      ghost var text := Text();
      r := Parseline();
      if r.None? {
        return;
      }
      var b := Peek("");
      LeftoverOrNot(text, s);
      if s != es {
        return None;
      }
      TreeOfWords(text, r.value);
      ghost var before := buf[..];
      SpansFit(text, before, r.value);
      Nulterminate(r.value);
      AllRead(text, before, buf[..], r.value);
    }

    /** nulterminate: a NUL at the end of every word and file name, and nothing else. */
    method Nulterminate(c: Cmd<Span>)
      requires Every(Within(buf.Length), c)
      modifies buf
      ensures forall k :: 0 <= k < buf.Length ==> buf[k] == if IsEnd(c, k) then '\0' else old(buf[k])
      decreases c
    {
      match c {
        case Exec(args) =>
          var i := 0;
          while i < |args|
            invariant i <= |args|
            invariant forall k :: 0 <= k < buf.Length ==>
                        buf[k] == if exists j :: 0 <= j < i && args[j].eq == k then '\0' else old(buf[k])
          {
            assert InBuffer(buf.Length, args[i]);
            buf[args[i].eq] := '\0';
            i := i + 1;
          }
        case Redir(d, file, out) =>
          Nulterminate(d);
          buf[file.eq] := '\0';
        case Pipe(l, r) =>
          Nulterminate(l);
          Nulterminate(r);
        case List(l, r) =>
          Nulterminate(l);
          Nulterminate(r);
        case Back(d) =>
          Nulterminate(d);
      }
    }
  }

  predicate InBuffer(n: nat, sp: Span) {
    sp.eq < n
  }

  function Within(n: nat): Span -> bool {
    (sp: Span) => InBuffer(n, sp)
  }

  function WordIn(text: string): Span -> bool {
    (sp: Span) => IsWord(text, sp)
  }

  ghost function Reader(text: string, buf: seq<char>): Span -> bool {
    (sp: Span) => ReadsToken(text, buf, sp)
  }

  ghost function EndIn(c: Cmd<Span>): Span -> bool {
    (sp: Span) => IsEnd(c, sp.eq)
  }

  ghost function WordEndIn(text: string, c: Cmd<Span>): Span -> bool {
    (sp: Span) => IsWord(text, sp) && IsEnd(c, sp.eq)
  }

  /** Some word of the command ends at k. */
  ghost predicate IsEnd(c: Cmd<Span>, k: int) {
    match c
    case Exec(args) => exists i :: 0 <= i < |args| && args[i].eq == k
    case Redir(d, file, _) => IsEnd(d, k) || file.eq == k
    case Pipe(l, r) => IsEnd(l, k) || IsEnd(r, k)
    case List(l, r) => IsEnd(l, k) || IsEnd(r, k)
    case Back(d) => IsEnd(d, k)
  }

  /** As a C string, the buffer at the span's start reads exactly the span's text. */
  ghost predicate ReadsToken(text: string, buf: seq<char>, sp: Span) {
    && sp.q < sp.eq <= |text| && sp.eq < |buf| && buf[sp.eq] == '\0'
    && forall k :: sp.q <= k < sp.eq ==> buf[k] == text[k] && buf[k] != '\0'
  }

  // ---- steps of the loops ---------------------------------------------------------------

  /** l has been parsed off the front of ts, and now is left. */
  ghost predicate Continues(ts: seq<Tok<Span>>, l: seq<Arrow<Span>>, now: seq<Tok<Span>>) {
    ParseRedirs(ts) == match ParseRedirs(now) case NoFile => NoFile case Got(more, rest) => Got(l + more, rest)
  }

  lemma RedirStep(ts: seq<Tok<Span>>, l: seq<Arrow<Span>>, now: seq<Tok<Span>>)
    requires Continues(ts, l, now) && At(now, "<>+")
    ensures |now| < 2 || now[1].kind != 'a' ==> ParseRedirs(ts).NoFile?
    ensures |now| >= 2 && now[1].kind == 'a' ==> Continues(ts, l + [Arrow(now[1].val, now[0].kind != '<')], now[2..])
  {
    if |now| >= 2 && now[1].kind == 'a' {
      var a := Arrow(now[1].val, now[0].kind != '<');
      match ParseRedirs(now[2..]) {
        case NoFile =>
        case Got(more, rest) => assert l + ([a] + more) == l + [a] + more;
      }
    }
  }

  lemma ArgsAfterRedirs(args: seq<Span>, l: seq<Arrow<Span>>, ts: seq<Tok<Span>>)
    ensures match ParseRedirs(ts)
            case NoFile => ParseArgs(args, l, ts).Panic?
            case Got(more, rest) => ParseArgs(args, l, ts) == ParseArgs(args, l + more, rest)
  {
    match ParseRedirs(ts) {
      case NoFile =>
      case Got(more, rest) =>
        assert ParseRedirs(rest) == Got([], rest);
        assert l + more + [] == l + more;
    }
  }

  lemma ArgsStep(args: seq<Span>, l: seq<Arrow<Span>>, ts: seq<Tok<Span>>)
    requires !At(ts, "<>+")
    ensures ParseArgs(args, l, ts) ==
              if ts == [] || At(ts, "|)&;") then Done(Wrapped(Exec(args), l), ts)
              else if ts[0].kind != 'a' || |args| + 1 >= MAXARGS then Panic
              else ParseArgs(args + [ts[0].val], l, ts[1..])
  {
    assert ParseRedirs(ts) == Got([], ts);
    assert l + [] == l;
  }

  lemma LeftoverOrNot(text: string, p: nat)
    requires p <= |text| && CString(text) && p == Skip(text, p)
    ensures Lex(text, p) == [] <==> p == |text|
  {
  }

  // ---- no NUL lands inside a word ---------------------------------------------------------

  lemma TreeOfWords(text: string, c: Cmd<Span>)
    requires CString(text) && ParseLine(Lex(text, 0)) == Done(c, [])
    ensures Every(WordIn(text), c)
  {
    LexWords(text, 0);
    EveryLine(WordIn(text), Lex(text, 0));
  }

  lemma {:induction false} EveryWeaker(p: Span -> bool, q: Span -> bool, c: Cmd<Span>)
    requires Every(p, c) && forall sp :: p(sp) ==> q(sp)
    ensures Every(q, c)
  {
    match c {
      case Exec(args) =>
      case Redir(d, file, out) => EveryWeaker(p, q, d);
      case Pipe(l, r) =>
        EveryWeaker(p, q, l);
        EveryWeaker(p, q, r);
      case List(l, r) =>
        EveryWeaker(p, q, l);
        EveryWeaker(p, q, r);
      case Back(d) => EveryWeaker(p, q, d);
    }
  }

  lemma SpansFit(text: string, buf: seq<char>, c: Cmd<Span>)
    requires Every(WordIn(text), c) && |text| < |buf|
    ensures Every(Within(|buf|), c)
  {
    EveryWeaker(WordIn(text), Within(|buf|), c);
  }

  /** Where one word ends, no word goes on. */
  lemma {:induction false} EndsOutside(text: string, c: Cmd<Span>, sp: Span, k: int)
    requires Every(WordIn(text), c) && IsWord(text, sp) && IsEnd(c, k)
    ensures !(sp.q <= k < sp.eq)
  {
    match c {
      case Exec(args) =>
        var i :| 0 <= i < |args| && args[i].eq == k;
        assert IsWord(text, args[i]);
      case Redir(d, file, out) => if IsEnd(d, k) { EndsOutside(text, d, sp, k); }
      case Pipe(l, r) => if IsEnd(l, k) { EndsOutside(text, l, sp, k); } else { EndsOutside(text, r, sp, k); }
      case List(l, r) => if IsEnd(l, k) { EndsOutside(text, l, sp, k); } else { EndsOutside(text, r, sp, k); }
      case Back(d) => EndsOutside(text, d, sp, k);
    }
  }

  lemma {:induction false} OwnEnds(c: Cmd<Span>)
    ensures Every(EndIn(c), c)
  {
    match c {
      case Exec(args) =>
      case Redir(d, file, out) =>
        OwnEnds(d);
        EveryWeaker(EndIn(d), EndIn(c), d);
      case Pipe(l, r) =>
        OwnEnds(l);
        OwnEnds(r);
        EveryWeaker(EndIn(l), EndIn(c), l);
        EveryWeaker(EndIn(r), EndIn(c), r);
      case List(l, r) =>
        OwnEnds(l);
        OwnEnds(r);
        EveryWeaker(EndIn(l), EndIn(c), l);
        EveryWeaker(EndIn(r), EndIn(c), r);
      case Back(d) =>
        OwnEnds(d);
        EveryWeaker(EndIn(d), EndIn(c), d);
    }
  }

  lemma {:induction false} BothHold(text: string, top: Cmd<Span>, c: Cmd<Span>)
    requires Every(WordIn(text), c) && Every(EndIn(top), c)
    ensures Every(WordEndIn(text, top), c)
  {
    match c {
      case Exec(args) =>
      case Redir(d, file, out) => BothHold(text, top, d);
      case Pipe(l, r) =>
        BothHold(text, top, l);
        BothHold(text, top, r);
      case List(l, r) =>
        BothHold(text, top, l);
        BothHold(text, top, r);
      case Back(d) => BothHold(text, top, d);
    }
  }

  /** After nulterminate every word and file name reads exactly its token. */
  lemma AllRead(text: string, before: seq<char>, after: seq<char>, c: Cmd<Span>)
    requires CString(text) && |text| < |before| == |after| && before[..|text|] == text && Every(WordIn(text), c)
    requires forall k :: 0 <= k < |after| ==> after[k] == if IsEnd(c, k) then '\0' else before[k]
    ensures Every(Reader(text, after), c)
  {
    OwnEnds(c);
    BothHold(text, c, c);
    forall sp | WordEndIn(text, c)(sp) ensures Reader(text, after)(sp) {
      forall k | sp.q <= k < sp.eq ensures after[k] == text[k] && after[k] != '\0' {
        if IsEnd(c, k) {
          EndsOutside(text, c, sp, k);
        }
        assert before[..|text|][k] == before[k];
      }
    }
    EveryWeaker(WordEndIn(text, c), Reader(text, after), c);
  }
}
