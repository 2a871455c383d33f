/** The regular expression matcher of grep.c against the language its patterns denote. */
module Grep {

  /** A pattern is a sequence of these, with an optional ^ before it and $ after it. */
  datatype Elem = One(c: char) | Many(c: char)

  /** '.' stands for any character. */
  predicate Fits(c: char, x: char) {
    c == '.' || c == x
  }

  /** The elements of a pattern after its ^; a $ at the very end is not one. */
  function Elems(re: string): seq<Elem> {
    if re == [] then []
    else if |re| >= 2 && re[1] == '*' then [Many(re[0])] + Elems(re[2..])
    else if re == "$" then []
    else [One(re[0])] + Elems(re[1..])
  }

  /** Does the pattern end with $? */
  predicate ToEnd(re: string) {
    if re == [] then false
    else if |re| >= 2 && re[1] == '*' then ToEnd(re[2..])
    else if re == "$" then true
    else ToEnd(re[1..])
  }

  /** The strings one element denotes. */
  predicate InElem(e: Elem, s: string) {
    match e
    case One(c) => |s| == 1 && Fits(c, s[0])
    case Many(c) => forall i :: 0 <= i < |s| ==> Fits(c, s[i])
  }

  /** The language of a sequence of elements: concatenations of strings of each. */
  ghost predicate InLang(es: seq<Elem>, s: string) {
    if es == [] then s == []
    else exists k: nat {:trigger s[..k]} :: k <= |s| && InElem(es[0], s[..k]) && InLang(es[1..], s[k..])
  }

  /** A prefix of the text is in the language, the whole text if the pattern ends with $. */
  ghost predicate Here(re: string, text: string) {
    exists j: nat {:trigger text[..j]} :: j <= |text| && InLang(Elems(re), text[..j]) && (ToEnd(re) ==> j == |text|)
  }

  /** What match decides: some substring is in the language, at the front if the pattern
      starts with ^, and at the end if it ends with $. */
  ghost predicate Matches(re: string, text: string) {
    if re != [] && re[0] == '^' then Here(re[1..], text)
    else exists i: nat {:trigger text[i..]} :: i <= |text| && Here(re, text[i..])
  }

  lemma HereEmpty(text: string)
    ensures Here([], text)
  {
    assert text[..0] == [];
  }

  lemma HereEnd(text: string)
    ensures Here("$", text) <==> text == []
  {
    assert Elems("$") == [] && ToEnd("$");
    if text == [] {
      assert text[..0] == [];
    }
    if Here("$", text) {
      var j: nat :| j <= |text| && InLang(Elems("$"), text[..j]) && j == |text|;
      assert text[..j] == text;
    }
  }

  /** One character, then the rest. */
  lemma HereOne(re: string, text: string)
    requires re != [] && !(|re| >= 2 && re[1] == '*') && re != "$"
    ensures Here(re, text) <==> text != [] && Fits(re[0], text[0]) && Here(re[1..], text[1..])
  {
    var es := Elems(re);
    assert es[0] == One(re[0]) && es[1..] == Elems(re[1..]);
    if Here(re, text) {
      var j: nat :| j <= |text| && InLang(es, text[..j]) && (ToEnd(re) ==> j == |text|);
      var s := text[..j];
      var k: nat :| k <= |s| && InElem(es[0], s[..k]) && InLang(es[1..], s[k..]);
      assert k == 1 && s[1..] == text[1..][..j - 1];
    }
    if text != [] && Fits(re[0], text[0]) && Here(re[1..], text[1..]) {
      var j: nat :| j <= |text[1..]| && InLang(Elems(re[1..]), text[1..][..j]) && (ToEnd(re[1..]) ==> j == |text[1..]|);
      var s := text[..j + 1];
      assert s[1..] == text[1..][..j] && InElem(es[0], s[..1]);
      assert InLang(es, s);
    }
  }

  /** Any number of fitting characters, then the rest. */
  ghost predicate Star(c: char, re: string, text: string) {
    exists k: nat {:trigger text[k..]} :: k <= |text| && InElem(Many(c), text[..k]) && Here(re, text[k..])
  }

  lemma HereMany(re: string, text: string)
    requires |re| >= 2 && re[1] == '*'
    ensures Here(re, text) <==> Star(re[0], re[2..], text)
  {
    var es := Elems(re);
    assert es[0] == Many(re[0]) && es[1..] == Elems(re[2..]);
    if Here(re, text) {
      var j: nat :| j <= |text| && InLang(es, text[..j]) && (ToEnd(re) ==> j == |text|);
      var s := text[..j];
      var k: nat :| k <= |s| && InElem(es[0], s[..k]) && InLang(es[1..], s[k..]);
      assert s[k..] == text[k..][..j - k] && s[..k] == text[..k];
      assert Here(re[2..], text[k..]);
    }
    if Star(re[0], re[2..], text) {
      var k: nat :| k <= |text| && InElem(es[0], text[..k]) && Here(re[2..], text[k..]);
      var j: nat :| j <= |text[k..]| && InLang(Elems(re[2..]), text[k..][..j]) && (ToEnd(re[2..]) ==> j == |text[k..]|);
      var s := text[..k + j];
      assert s[k..] == text[k..][..j] && s[..k] == text[..k];
      assert InLang(es, s);
    }
  }

  // ---- the matcher -------------------------------------------------------------------

  /** match: sound and complete. */
  method Match(re: string, text: string) returns (b: bool)
    ensures b <==> Matches(re, text)
  {
    if |re| > 0 && re[0] == '^' {
      b := Matchhere(re[1..], text);
      return;
    }
    var t: nat := 0;
    while true
      invariant t <= |text|
      invariant forall i: nat {:trigger text[i..]} :: i < t ==> !Here(re, text[i..])
      decreases |text| - t
    {
      b := Matchhere(re, text[t..]);
      if b {
        return;
      }
      if t == |text| {
        break;
      }
      t := t + 1;
    }
    return false;
  }

  method Matchhere(re: string, text: string) returns (b: bool)
    ensures b <==> Here(re, text)
    decreases |re|, |text|, 0
  {
    if |re| == 0 {
      HereEmpty(text);
      return true;
    }
    if |re| > 1 && re[1] == '*' {
      HereMany(re, text);
      b := Matchstar(re[0], re[2..], text);
      return;
    }
    if re[0] == '$' && |re| == 1 {
      assert re == "$";
      HereEnd(text);
      return text == [];
    }
    HereOne(re, text);
    if |text| > 0 && (re[0] == '.' || re[0] == text[0]) {
      b := Matchhere(re[1..], text[1..]);
      return;
    }
    return false;
  }

  method Matchstar(c: char, re: string, text: string) returns (b: bool)
    ensures b <==> Star(c, re, text)
    decreases |re|, |text|, 1
  {
    var t: nat := 0;
    while true
      invariant t <= |text| && InElem(Many(c), text[..t])
      invariant forall k: nat {:trigger text[k..]} :: k < t ==> !Here(re, text[k..])
      decreases |text| - t
    {
      b := Matchhere(re, text[t..]);
      if b {
        return;
      }
      if !(t < |text| && (text[t] == c || c == '.')) {
        NoMore(c, re, text, t);
        break;
      }
      t := t + 1;
    }
    return false;
  }

  /** Past a character that does not fit there is nothing to try. */
  lemma NoMore(c: char, re: string, text: string, t: nat)
    requires t <= |text| && (t == |text| || !Fits(c, text[t]))
    requires forall k: nat {:trigger text[k..]} :: k <= t ==> !Here(re, text[k..])
    ensures !Star(c, re, text)
  {
    forall k: nat | t < k <= |text| ensures !InElem(Many(c), text[..k]) {
      assert text[..k][t] == text[t];
    }
  }
}
