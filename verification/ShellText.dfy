/** The shell's text: white space, words, gettoken, and the token list that a text spells. */
module ShellText {
  import opened ShellGrammar

  predicate IsSpace(c: char) {
    c == ' ' || c == '\t' || c == '\r' || c == '\n' || c == '\U{B}'
  }

  predicate IsSymbol(c: char) {
    c == '<' || c == '|' || c == '>' || c == '&' || c == ';' || c == '(' || c == ')'
  }

  predicate IsWordChar(c: char) {
    !IsSpace(c) && !IsSymbol(c) && c != '\0'
  }

  predicate CString(text: string) {
    forall i :: 0 <= i < |text| ==> text[i] != '\0'
  }

  /** The NUL after the text is at position |text|. */
  function CharAt(text: string, p: nat): char {
    if p < |text| then text[p] else '\0'
  }

  function Skip(text: string, p: nat): (r: nat)
    requires p <= |text|
    ensures p <= r <= |text| && !IsSpace(CharAt(text, r)) && forall i :: p <= i < r ==> IsSpace(text[i])
    decreases |text| - p
  {
    if p < |text| && IsSpace(text[p]) then Skip(text, p + 1) else p
  }

  function WordEnd(text: string, p: nat): (r: nat)
    requires p <= |text|
    ensures p <= r <= |text| && (r < |text| ==> IsSpace(text[r]) || IsSymbol(text[r]))
    ensures forall i :: p <= i < r ==> !IsSpace(text[i]) && !IsSymbol(text[i])
    decreases |text| - p
  {
    if p < |text| && !IsSpace(text[p]) && !IsSymbol(text[p]) then WordEnd(text, p + 1) else p
  }

  /** A word is the characters from q up to eq. */
  datatype Span = Span(q: nat, eq: nat)

  /** What gettoken finds at a position that is not white space. */
  function Kind(text: string, q: nat): char {
    var c := CharAt(text, q);
    if c == '\0' || (IsSymbol(c) && c != '>') then c
    else if c == '>' then if CharAt(text, q + 1) == '>' then '+' else '>'
    else 'a'
  }

  function TokenEnd(text: string, q: nat): (eq: nat)
    requires q <= |text|
    ensures q <= eq <= |text| && (q < |text| && !IsSpace(text[q]) && text[q] != '\0' ==> q < eq)
  {
    var k := Kind(text, q);
    if k == '\0' then q
    else if k == '+' then q + 2
    else if k == 'a' then WordEnd(text, q)
    else q + 1
  }

  /** The tokens from position p on. */
  function Lex(text: string, p: nat): (ts: seq<Tok<Span>>)
    requires p <= |text| && CString(text)
    decreases |text| - p
  {
    var q := Skip(text, p);
    if q == |text| then []
    else [Tok(Kind(text, q), Span(q, TokenEnd(text, q)))] + Lex(text, TokenEnd(text, q))
  }

  lemma LexSkips(text: string, p: nat)
    requires p <= |text| && CString(text)
    ensures Lex(text, Skip(text, p)) == Lex(text, p)
  {
    assert Skip(text, Skip(text, p)) == Skip(text, p);
  }

  /** Words are made of word characters, and end where one does not follow. */
  predicate IsWord(text: string, s: Span) {
    && s.q < s.eq <= |text| && (forall i :: s.q <= i < s.eq ==> IsWordChar(text[i]))
    && (s.eq < |text| ==> !IsWordChar(text[s.eq]))
  }

  lemma {:induction false} LexWords(text: string, p: nat)
    requires p <= |text| && CString(text)
    ensures forall i :: 0 <= i < |Lex(text, p)| && Lex(text, p)[i].kind == 'a' ==> IsWord(text, Lex(text, p)[i].val)
    decreases |text| - p
  {
    var q := Skip(text, p);
    if q < |text| {
      LexWords(text, TokenEnd(text, q));
    }
  }

  // ---- spelling ----------------------------------------------------------------------------

  function Spell(ts: seq<Tok<string>>): string {
    if ts == [] then "" else ts[0].val + " " + Spell(ts[1..])
  }

  predicate ProperWord(w: string) {
    w != [] && forall i :: 0 <= i < |w| ==> IsWordChar(w[i])
  }

  predicate ProperTok(t: Tok<string>) {
    if t.kind == 'a' then ProperWord(t.val) else if t.kind == '+' then t.val == ">>" else IsSymbol(t.kind) && t.val == [t.kind]
  }

  predicate ProperToks(ts: seq<Tok<string>>) {
    forall i :: 0 <= i < |ts| ==> ProperTok(ts[i])
  }

  function Read(text: string): Span -> string {
    (s: Span) => if s.q <= s.eq <= |text| then text[s.q..s.eq] else ""
  }

  lemma {:induction false} WordEndAt(text: string, p: nat, n: nat)
    requires p + n <= |text| && (p + n < |text| ==> IsSpace(text[p + n]) || IsSymbol(text[p + n]))
    requires forall i :: p <= i < p + n ==> IsWordChar(text[i])
    ensures WordEnd(text, p) == p + n
    decreases n
  {
    if n > 0 {
      WordEndAt(text, p + 1, n - 1);
    }
  }

  /** What may come next: after a word, something that is no part of it; after >, no >. */
  predicate EndsAt(text: string, n: nat, t: Tok<string>) {
    n < |text| ==> if t.kind == 'a' then IsSpace(text[n]) || IsSymbol(text[n]) else t.kind == '>' ==> text[n] != '>'
  }

  predicate Blank(text: string, p: nat, q: nat) {
    p <= q <= |text| && forall i :: p <= i < q ==> IsSpace(text[i])
  }

  /** From position p the text holds the tokens, at the given places, with any white space
      before, between and after them; none is needed where one token could not be taken for
      part of another. */
  ghost predicate Laid(text: string, p: nat, ts: seq<Tok<string>>, at: seq<nat>)
    decreases |ts|
  {
    if ts == [] then Blank(text, p, |text|)
    else
      && |at| > 0 && Blank(text, p, at[0])
      && (var n := at[0] + |ts[0].val|;
          n <= |text| && text[at[0]..n] == ts[0].val && EndsAt(text, n, ts[0]) && Laid(text, n, ts[1..], at[1..]))
  }

  lemma SkipBlank(text: string, p: nat, q: nat)
    requires Blank(text, p, q) && !IsSpace(CharAt(text, q))
    ensures Skip(text, p) == q
  {
    assert forall i :: p <= i < q ==> IsSpace(CharAt(text, i));
  }

  /** gettoken on a token. */
  lemma FirstToken(text: string, p: nat, t: Tok<string>)
    requires CString(text) && ProperTok(t) && p + |t.val| <= |text|
    requires text[p..p + |t.val|] == t.val && EndsAt(text, p + |t.val|, t)
    ensures |t.val| > 0 && !IsSpace(CharAt(text, p)) && Kind(text, p) == t.kind && TokenEnd(text, p) == p + |t.val|
  {
    assert forall i :: 0 <= i < |t.val| ==> text[p + i] == t.val[i];
    assert text[p] == t.val[0];
    if t.kind == 'a' {
      assert forall i :: p <= i < p + |t.val| ==> text[i] == t.val[i - p];
      WordEndAt(text, p, |t.val|);
    } else if t.kind == '+' {
      assert text[p + 1] == t.val[1];
    }
  }

  lemma LexStep(text: string, p: nat, q: nat, t: Tok<string>)
    requires p <= |text| && CString(text) && ProperTok(t) && Blank(text, p, q) && q + |t.val| <= |text|
    requires text[q..q + |t.val|] == t.val && EndsAt(text, q + |t.val|, t)
    ensures var n := q + |t.val|; Lex(text, p) == [Tok(t.kind, Span(q, n))] + Lex(text, n)
  {
    FirstToken(text, q, t);
    SkipBlank(text, p, q);
    hide ProperTok, EndsAt, Blank;
  }

  /** Reading undoes spelling, however the tokens are spaced. */
  lemma {:induction false} LexOfSpell(text: string, p: nat, ts: seq<Tok<string>>, at: seq<nat>)
    requires p <= |text| && CString(text) && ProperToks(ts) && Laid(text, p, ts, at)
    ensures MapToks(Read(text), Lex(text, p)) == ts
    decreases |ts|
  {
    if ts == [] {
      NothingLeft(text, p);
    } else {
      var n := at[0] + |ts[0].val|;
      LexOfSpell(text, n, ts[1..], at[1..]);
      LexFirst(text, p, at[0], n, ts);
    }
  }

  lemma NothingLeft(text: string, p: nat)
    requires p <= |text| && CString(text) && Blank(text, p, |text|)
    ensures MapToks(Read(text), Lex(text, p)) == []
  {
    SkipBlank(text, p, |text|);
  }

  lemma LexFirst(text: string, p: nat, q: nat, n: nat, ts: seq<Tok<string>>)
    requires p <= q <= n <= |text| && CString(text) && ts != [] && ProperTok(ts[0]) && n == q + |ts[0].val|
    requires Blank(text, p, q) && text[q..n] == ts[0].val && EndsAt(text, n, ts[0])
    requires MapToks(Read(text), Lex(text, n)) == ts[1..]
    ensures MapToks(Read(text), Lex(text, p)) == ts
  {
    hide Lex, MapToks, Read, ProperTok, EndsAt, Blank;
    LexStep(text, p, q, ts[0]);
    MapCons(text, q, n, ts, Lex(text, n));
  }

  lemma MapCons(text: string, p: nat, n: nat, ts: seq<Tok<string>>, more: seq<Tok<Span>>)
    requires p <= n <= |text| && ts != [] && text[p..n] == ts[0].val && MapToks(Read(text), more) == ts[1..]
    ensures MapToks(Read(text), [Tok(ts[0].kind, Span(p, n))] + more) == ts
  {
    var f := Read(text);
    var all := [Tok(ts[0].kind, Span(p, n))] + more;
    forall i | 0 <= i < |ts| ensures MapToks(f, all)[i] == ts[i] {
      if i > 0 {
        assert MapToks(f, more)[i - 1] == ts[1..][i - 1];
      }
    }
  }

  /** One way to lay them out: a space after each. */
  lemma {:induction false} SpellLays(text: string, p: nat, ts: seq<Tok<string>>) returns (at: seq<nat>)
    requires p <= |text| && (text[p..] == Spell(ts) || (p < |text| && text[p] == ' ' && text[p + 1..] == Spell(ts))) && ProperToks(ts)
    ensures Laid(text, p, ts, at)
    decreases |ts|
  {
    var q := if text[p..] == Spell(ts) then p else p + 1;
    if ts == [] {
      at := [];
    } else {
      SplitText(text, q, ts);
      assert ProperTok(ts[0]);
      var rest := SpellLays(text, q + |ts[0].val|, ts[1..]);
      at := [q] + rest;
      assert at[1..] == rest;
    }
  }

  lemma SplitText(text: string, p: nat, ts: seq<Tok<string>>)
    requires p <= |text| && ts != [] && text[p..] == Spell(ts)
    ensures var n := p + |ts[0].val|;
            n < |text| && text[p..n] == ts[0].val && text[n] == ' ' && text[n + 1..] == Spell(ts[1..])
  {
    var s, v, rest := text[p..], ts[0].val, Spell(ts[1..]);
    assert s == v + " " + rest;
    assert s[..|v|] == v && s[|v|] == ' ' && s[|v| + 1..] == rest;
  }

  // ---- whole texts ----------------------------------------------------------------------------

  function ParseText(text: string): Parsed<Span>
    requires CString(text)
  {
    ParseCmd(Lex(text, 0))
  }

  /** Every word and file name is one a shell word can be. */
  ghost predicate ProperCmd(c: Cmd<string>) {
    Every(ProperWord, c)
  }

  lemma {:induction false} WordsProper(ws: seq<string>)
    requires forall i :: 0 <= i < |ws| ==> ProperWord(ws[i])
    ensures ProperToks(Words(ws))
  {
    if ws != [] {
      WordsProper(ws[1..]);
    }
  }

  lemma {:induction false} BodyProper(c: Cmd<string>)
    requires ProperCmd(c)
    ensures ProperToks(Body(c))
  {
    match c {
      case Exec(ws) => WordsProper(ws);
      case Redir(d, f, out) => BodyProper(d);
      case Pipe(l, r) =>
        BodyProper(l);
        BodyProper(r);
      case List(l, r) =>
        BodyProper(l);
        BodyProper(r);
      case Back(d) => BodyProper(d);
    }
  }

  lemma {:induction false} SpellIsCString(ts: seq<Tok<string>>)
    requires ProperToks(ts)
    ensures CString(Spell(ts))
  {
    if ts != [] {
      assert ProperTok(ts[0]);
      SpellIsCString(ts[1..]);
    }
  }

  /** Parsing is inverse to writing: any command tree with fewer than MAXARGS words in each
      simple command, written with parentheses where precedence needs them, with any white
      space and with > or >>, parses back to exactly that tree with nothing left over. */
  lemma AnyText(c: Cmd<string>, ts: seq<Tok<string>>, text: string, at: seq<nat>)
    requires Fits(c) && Alike(Render(c, 0), ts) && ProperToks(ts)
    requires CString(text) && Laid(text, 0, ts, at)
    ensures ParseText(text).Done? && ParseText(text).rest == []
    ensures MapCmd(Read(text), ParseText(text).cmd) == c
  {
    LexOfSpell(text, 0, ts, at);
    AppendBack(c, ts);
    MapParse(Read(text), Lex(text, 0));
  }

  /** There is such a text for every tree. */
  lemma RoundTrip(c: Cmd<string>)
    requires Fits(c) && ProperCmd(c)
    ensures var text := Spell(Render(c, 0));
            && CString(text) && ParseText(text).Done? && ParseText(text).rest == []
            && MapCmd(Read(text), ParseText(text).cmd) == c
  {
    var ts := Render(c, 0);
    var text := Spell(ts);
    BodyProper(c);
    SpellIsCString(ts);
    assert text[0..] == text;
    var at := SpellLays(text, 0, ts);
    AnyText(c, ts, text, at);
  }
}
