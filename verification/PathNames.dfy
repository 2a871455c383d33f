/** Path names as skipelem of fs.c takes them apart: elements separated by any number of
    slashes, each cut to the DIRSIZ characters that a directory entry holds. */
module PathNames {
  import opened DirTree

  /** The number of slashes at the front. */
  function Slashes(path: string): (n: nat)
    ensures n <= |path| && (n < |path| ==> path[n] != '/') && forall i :: 0 <= i < n ==> path[i] == '/'
  {
    if path == "" || path[0] != '/' then 0 else 1 + Slashes(path[1..])
  }

  /** The number of other characters at the front. */
  function Letters(path: string): (n: nat)
    ensures n <= |path| && (n < |path| ==> path[n] == '/') && forall i :: 0 <= i < n ==> path[i] != '/'
  {
    if path == "" || path[0] == '/' then 0 else 1 + Letters(path[1..])
  }

  function Cut(s: string): Name {
    if |s| >= DIRSIZ then s[..DIRSIZ] else s
  }

  function Elements(path: string): seq<Name>
    decreases |path|
  {
    var rest := path[Slashes(path)..];
    if rest == "" then [] else [Cut(rest[..Letters(rest)])] + Elements(rest[Letters(rest)..])
  }

  lemma FirstElement(path: string, rest: string, n: nat)
    requires rest == path[Slashes(path)..] && n == Letters(rest)
    ensures Elements(path) == if rest == "" then [] else [Cut(rest[..n])] + Elements(rest[n..])
  {
    hide Slashes, Letters;
  }

  lemma {:induction false} LeadingSlashes(path: string, n: nat)
    requires n <= Slashes(path)
    ensures Elements(path[n..]) == Elements(path) && Slashes(path[n..]) == Slashes(path) - n
  {
    if n > 0 {
      assert path[1..][n - 1..] == path[n..];
      LeadingSlashes(path[1..], n - 1);
      assert path[1..][Slashes(path[1..])..] == path[Slashes(path)..];
    }
  }

  lemma {:induction false} SlashesAre(path: string, n: nat)
    requires n <= |path| && (n < |path| ==> path[n] != '/') && forall i :: 0 <= i < n ==> path[i] == '/'
    ensures Slashes(path) == n
  {
    if n > 0 {
      SlashesAre(path[1..], n - 1);
    }
  }

  lemma {:induction false} LettersAre(path: string, n: nat)
    requires n <= |path| && (n < |path| ==> path[n] == '/') && forall i :: 0 <= i < n ==> path[i] != '/'
    ensures Letters(path) == n
  {
    if n > 0 {
      LettersAre(path[1..], n - 1);
    }
  }

  method SkipSlashes(path: string, p: nat) returns (q: nat)
    requires p <= |path|
    ensures q == p + Slashes(path[p..])
  {
    q := p;
    while q < |path| && path[q] == '/'
      invariant p <= q <= |path| && forall i :: p <= i < q ==> path[i] == '/'
    {
      q := q + 1;
    }
    SlashesAre(path[p..], q - p);
  }

  method SkipLetters(path: string, p: nat) returns (q: nat)
    requires p <= |path|
    ensures q == p + Letters(path[p..])
  {
    q := p;
    while q < |path| && path[q] != '/'
      invariant p <= q <= |path| && forall i :: p <= i < q ==> path[i] != '/'
    {
      q := q + 1;
    }
    LettersAre(path[p..], q - p);
  }

  /** skipelem from position p: the next element and the position after it and the slashes
      that follow; no element is left exactly at the end of the path. */
  method Skipelem(path: string, p: nat) returns (more: bool, q: nat, name: Name)
    requires p <= |path|
    ensures q <= |path| && (more <==> Elements(path[p..]) != [])
    ensures more ==> p < q <= |path| && Elements(path[p..]) == [name] + Elements(path[q..])
    ensures more ==> (q == |path| <==> Elements(path[q..]) == [])
  {
    hide *;
    var s := SkipSlashes(path, p);
    name := "";
    if s == |path| {
      NothingLeft(path, p, s);
      return false, s, name;
    }
    var e := SkipLetters(path, s);
    name := Cut(path[s..e]);
    q := SkipSlashes(path, e);
    ElementAt(path, p, s, e, q);
    more := true;
  }

  lemma NothingLeft(path: string, p: nat, s: nat)
    requires p <= s == |path| && s == p + Slashes(path[p..])
    ensures Elements(path[p..]) == []
  {
    Dropped(path, p, s);
  }

  lemma ElementAt(path: string, p: nat, s: nat, e: nat, q: nat)
    requires p <= s <= e <= q <= |path| && s < |path|
    requires s == p + Slashes(path[p..]) && e == s + Letters(path[s..]) && q == e + Slashes(path[e..])
    ensures p < q && Elements(path[p..]) == [Cut(path[s..e])] + Elements(path[q..])
    ensures q == |path| <==> Elements(path[q..]) == []
  {
    Dropped(path, p, s);
    assert path[s] != '/' by { assert path[p..][s - p] == path[s]; }
    assert s < e by { assert path[s..][0] == path[s]; }
    FirstElement(path[p..], path[s..], e - s);
    Dropped(path, s, e);
    Dropped(path, e, q);
    hide Letters, Cut;
    LeadingSlashes(path[e..], q - e);
    hide Elements;
    NoneLeft(path[q..]);
  }

  lemma Dropped(path: string, p: nat, s: nat)
    requires p <= s <= |path|
    ensures path[p..][s - p..] == path[s..] && path[p..][..s - p] == path[p..s]
  {
  }

  lemma NoneLeft(path: string)
    requires Slashes(path) == 0
    ensures Elements(path) == [] <==> path == ""
  {
  }

  // ---- what the elements of a path are -----------------------------------------------

  function Bars(n: nat): (s: string)
    ensures |s| == n && forall i :: 0 <= i < n ==> s[i] == '/'
  {
    if n == 0 then "" else "/" + Bars(n - 1)
  }

  /** gaps[i] slashes before the i-th name, and the last gap at the end. */
  function Path(gaps: seq<nat>, names: seq<string>): string
    requires |gaps| == |names| + 1
  {
    if names == [] then Bars(gaps[0]) else Bars(gaps[0]) + (names[0] + Path(gaps[1..], names[1..]))
  }

  predicate Plain(name: string) {
    name != "" && '/' !in name
  }

  function Cuts(names: seq<string>): (r: seq<Name>)
    ensures |r| == |names| && forall i :: 0 <= i < |r| ==> r[i] == Cut(names[i])
  {
    seq(|names|, i requires 0 <= i < |names| => Cut(names[i]))
  }

  /** However many slashes separate, precede or follow the names, the elements of the path
      are the names, cut to DIRSIZ characters. */
  lemma {:induction false} ElementsOfPath(gaps: seq<nat>, names: seq<string>)
    requires |gaps| == |names| + 1 && forall i :: 0 <= i < |names| ==> Plain(names[i])
    requires forall i :: 1 <= i < |names| ==> gaps[i] > 0
    ensures Elements(Path(gaps, names)) == Cuts(names)
    decreases |names|
  {
    hide Slashes, Letters, Elements, Cut;
    var path := Path(gaps, names);
    if names == [] {
      SlashesAre(path, gaps[0]);
      FirstElement(path, "", Letters(""));
    } else {
      var tail := Path(gaps[1..], names[1..]);
      assert path[gaps[0]..] == names[0] + tail;
      assert names[0][0] in names[0];
      SlashesAre(path, gaps[0]);
      forall i | 0 <= i < |names[0]| ensures (names[0] + tail)[i] != '/' {
        assert names[0][i] in names[0];
      }
      LettersAre(names[0] + tail, |names[0]|);
      FirstElement(path, names[0] + tail, |names[0]|);
      assert (names[0] + tail)[..|names[0]|] == names[0] && (names[0] + tail)[|names[0]|..] == tail;
      ElementsOfPath(gaps[1..], names[1..]);
      assert Cuts(names) == [Cut(names[0])] + Cuts(names[1..]);
    }
  }
}
