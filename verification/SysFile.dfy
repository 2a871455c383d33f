/** link, unlink and create of sysfile.c, with the directory operations of fs.c under them.
    Each call is one atomic step: they run inside a transaction with the inodes locked. */
module SysFile {
  import opened DirTree
  import opened PathNames
  import opened Wrappers

  datatype Result = Failed | Panic | Done(inum: nat)

  /** The index of the first live entry with that name, from j on. */
  function FindIn(es: seq<Dirent>, name: Name, j: nat): (k: nat)
    requires j <= |es|
    ensures j <= k <= |es| && (k < |es| ==> es[k].inum != 0 && es[k].name == name)
    ensures forall i :: j <= i < k && es[i].inum != 0 ==> es[i].name != name
    decreases |es| - j
  {
    if j == |es| || (es[j].inum != 0 && es[j].name == name) then j else FindIn(es, name, j + 1)
  }

  /** What a path leads to. */
  function Walk(ns: seq<Node>, x: nat, path: seq<Name>): Option<nat>
    decreases |path|
  {
    if path == [] then Some(x)
    else if x >= |ns| || !ns[x].kind.Dir? then None
    else
      var k := FindIn(ns[x].entries, path[0], 0);
      if k == |ns[x].entries| then None else Walk(ns, ns[x].entries[k].inum, path[1..])
  }

  /** namei, or nameiparent, which stops one element early and wants a directory there. */
  function Resolve(ns: seq<Node>, x: nat, path: seq<Name>, parent: bool): Option<nat> {
    if !parent then Walk(ns, x, path)
    else if path == [] then None
    else
      var d := Walk(ns, x, path[..|path| - 1]);
      if d.Some? && d.value < |ns| && ns[d.value].kind.Dir? then d else None
  }

  lemma ResolveStep(ns: seq<Node>, x: nat, name: Name, rest: seq<Name>, parent: bool)
    requires x < |ns|
    ensures var k := FindIn(ns[x].entries, name, 0);
            Resolve(ns, x, [name] + rest, parent) ==
              if !ns[x].kind.Dir? then None
              else if parent && rest == [] then Some(x)
              else if k == |ns[x].entries| then None
              else Resolve(ns, ns[x].entries[k].inum, rest, parent)
  {
    var path := [name] + rest;
    assert path[1..] == rest;
    if parent && rest != [] {
      assert path[..|path| - 1] == [name] + rest[..|rest| - 1];
      assert ([name] + rest[..|rest| - 1])[1..] == rest[..|rest| - 1];
    } else if parent {
      assert path[..|path| - 1] == [];
    }
  }

  lemma {:induction false} WalkSnoc(ns: seq<Node>, x: nat, path: seq<Name>, n: Name)
    requires x < |ns|
    ensures Walk(ns, x, path + [n]) ==
              match Walk(ns, x, path)
              case None => None
              case Some(d) => if d < |ns| && ns[d].kind.Dir? then Lookup(ns[d], n) else None
    decreases |path|
  {
    var p := path + [n];
    if path == [] {
      assert p == [n] && p[1..] == [];
    } else if ns[x].kind.Dir? {
      assert p[0] == path[0] && p[1..] == path[1..] + [n];
      var k := FindIn(ns[x].entries, path[0], 0);
      if k < |ns[x].entries| {
        var y := ns[x].entries[k].inum;
        if y < |ns| {
          WalkSnoc(ns, y, path[1..], n);
        } else {
          WalkLost(ns, y, path[1..], n);
        }
      }
    }
  }

  lemma WalkLost(ns: seq<Node>, x: nat, path: seq<Name>, n: Name)
    requires x >= |ns|
    ensures Walk(ns, x, path + [n]) == None
    ensures match Walk(ns, x, path) case None => true case Some(d) => d >= |ns|
  {
  }

  /** namei of a path is the lookup of its last name in what nameiparent gives; nameiparent is
      namei of the rest, if that is a directory. */
  lemma ParentThenLookup(ns: seq<Node>, x: nat, path: seq<Name>, n: Name)
    requires x < |ns|
    ensures var d := Resolve(ns, x, path, false);
            Resolve(ns, x, path + [n], true) == if d.Some? && d.value < |ns| && ns[d.value].kind.Dir? then d else None
    ensures Resolve(ns, x, path + [n], false) ==
              match Resolve(ns, x, path + [n], true) case None => None case Some(d) => Lookup(ns[d], n)
  {
    WalkSnoc(ns, x, path, n);
    assert (path + [n])[..|path + [n]| - 1] == path;
  }

  /** A path without names leads where it starts: the same place as "." there; it has no parent. */
  lemma EmptyPath(ns: seq<Node>, rank: seq<nat>, d: nat)
    requires Shape(ns, rank) && d < |ns| && Live(ns[d])
    ensures Resolve(ns, d, [], false) == Resolve(ns, d, ["."], false) == Some(d)
    ensures Resolve(ns, d, [], true) == None
  {
    assert Dots(ns, rank, d);
    var p: seq<Name> := ["."];
    assert FindIn(ns[d].entries, ".", 0) == 0;
    assert p[1..] == [];
  }

  class FileTree {
    const inodes: array<Node>
    ghost var rank: seq<nat>

    ghost function View(): seq<Node>
      reads inodes
    {
      inodes[..]
    }

    ghost predicate Valid()
      reads this, inodes
    {
      Shape(View(), rank) && Sized(View())
    }

    /** mkfs's image: only the root. */
    constructor (ninodes: nat)
      requires ROOTINO < ninodes <= 0x1_0000
      ensures Valid() && fresh(inodes) && inodes.Length == ninodes
    {
      inodes := new Node[ninodes](i => Node(Free, 0, []));
      rank := seq(ninodes, i => 0);
      new;
      inodes[ROOTINO] := Node(Dir, 1, [Dirent(ROOTINO, "."), Dirent(ROOTINO, "..")]);
      RootOnly(View(), rank);
    }

    // ---- fs.c --------------------------------------------------------------------

    method Dirlookup(dp: nat, name: Name) returns (r: Option<nat>)
      requires dp < inodes.Length
      ensures var es := inodes[dp].entries; var k := FindIn(es, name, 0);
              r == if k < |es| then Some(k) else None
    {
      var off := 0;
      while off < |inodes[dp].entries|
        invariant off <= |inodes[dp].entries|
        invariant FindIn(inodes[dp].entries, name, 0) == FindIn(inodes[dp].entries, name, off)
      {
        var de := inodes[dp].entries[off];
        if de.inum != 0 && de.name == name {
          return Some(off);
        }
        off := off + 1;
      }
      return None;
    }

    /** The loop of dirlink that looks for an empty entry. */
    method FindSlot(dp: nat) returns (off: nat)
      requires dp < inodes.Length
      ensures FirstFree(inodes[dp].entries, off)
    {
      off := 0;
      while off < |inodes[dp].entries| && inodes[dp].entries[off].inum != 0
        invariant off <= |inodes[dp].entries|
        invariant forall j :: 0 <= j < off ==> inodes[dp].entries[j].inum != 0
      {
        off := off + 1;
      }
    }

    /** dirlink.  Panic is writei's refusal to go past the largest file size. */
    method Dirlink(dp: nat, name: Name, inum: nat) returns (r: Result, k: nat)
      requires dp < inodes.Length && inum < 0x1_0000
      modifies inodes
      ensures r.Failed? <==> !Absent(old(inodes[dp].entries), name)
      ensures !r.Failed? ==> FirstFree(old(inodes[dp].entries), k)
      ensures r.Done? ==> r.inum == inum && k < MAXENTRIES && View() == WithEntry(old(View()), dp, k, Dirent(inum, name))
      ensures r.Panic? <==> Absent(old(inodes[dp].entries), name) && Full(old(inodes[dp].entries))
      ensures !r.Done? ==> View() == old(View())
    {
      var found := Dirlookup(dp, name);
      if found.Some? {
        r, k := Failed, 0;
      } else {
        k := FindSlot(dp);
        if k >= MAXENTRIES {
          r := Panic;
        } else {
          var n := inodes[dp];
          inodes[dp] := Node(n.kind, n.nlink, Put(n.entries, k, Dirent(inum, name)));
          r := Done(inum);
        }
      }
    }

    method Isdirempty(dp: nat) returns (b: bool)
      requires dp < inodes.Length
      ensures b <==> Empty(inodes[dp])
    {
      var off := 2;
      while off < |inodes[dp].entries|
        invariant forall k :: 2 <= k < off && k < |inodes[dp].entries| ==> inodes[dp].entries[k].inum == 0
      {
        if inodes[dp].entries[off].inum != 0 {
          return false;
        }
        off := off + 1;
      }
      return true;
    }

    /** ialloc; None is the panic "no inodes". */
    method Ialloc(kind: Kind) returns (r: Option<nat>)
      modifies inodes
      ensures r.None? ==> View() == old(View()) && NoneFree(View())
      ensures r.Some? ==> 0 < r.value < inodes.Length && old(inodes[r.value]).kind.Free?
      ensures r.Some? ==> forall x :: 0 < x < r.value ==> !old(inodes[x]).kind.Free?
      ensures r.Some? ==> View() == WithNode(old(View()), r.value, Node(kind, 0, []))
    {
      var inum := 1;
      while inum < inodes.Length
        invariant 0 < inum && View() == old(View())
        invariant forall x :: 0 < x < inum && x < inodes.Length ==> !old(inodes[x]).kind.Free?
      {
        if inodes[inum].kind.Free? {
          inodes[inum] := Node(kind, 0, []);
          return Some(inum);
        }
        inum := inum + 1;
      }
      return None;
    }

    /** iput: the last reference to an inode without links frees it. */
    method Iput(ip: nat, last: bool)
      requires Valid() && 0 < ip < inodes.Length
      modifies inodes
      ensures Valid() && View() == Released(old(View()), ip, last)
      ensures inodes[ip].kind.Free? <==> old(inodes[ip]).kind.Free? || (old(inodes[ip]).nlink == 0 && last)
      ensures forall x :: 0 <= x < inodes.Length && (x != ip || !inodes[x].kind.Free?) ==> inodes[x] == old(inodes[x])
    {
      ReleaseKeeps(View(), rank, ip, last);
      if inodes[ip].nlink == 0 && last {
        inodes[ip] := Node(Free, 0, []);
      }
    }

    /** namex.  An absolute path starts at the root, any other at the current directory. */
    method Namex(cwd: nat, path: string, parent: bool) returns (r: Option<nat>, name: Name)
      requires Valid() && cwd < inodes.Length && Live(inodes[cwd])
      ensures var start := if path != "" && path[0] == '/' then ROOTINO else cwd;
              r == Resolve(View(), start, Elements(path), parent)
      ensures r.Some? ==> r.value < inodes.Length && !inodes[r.value].kind.Free? && inodes[r.value].nlink >= 1
      ensures r.Some? && parent ==> Live(inodes[r.value])
      ensures r.Some? && parent ==> Elements(path) != [] && name == Elements(path)[|Elements(path)| - 1]
    {
      hide Elements, Shape;
      var ip: nat, p := if path != "" && path[0] == '/' then ROOTINO else cwd, 0;
      RootLives(View(), rank);
      ghost var start := ip;
      assert path[0..] == path;
      var more;
      more, p, name := Skipelem(path, p);
      while more
        invariant p <= |path| && ip < inodes.Length && !inodes[ip].kind.Free? && inodes[ip].nlink >= 1
        invariant Resolve(View(), start, Elements(path), parent) ==
                  Resolve(View(), ip, if more then [name] + Elements(path[p..]) else [], parent)
        invariant more ==> (p == |path| <==> Elements(path[p..]) == []) && EndsWith(Elements(path), [name] + Elements(path[p..]))
        decreases if more then 1 + |path| - p else 0
      {
        ResolveStep(View(), ip, name, Elements(path[p..]), parent);
        if !inodes[ip].kind.Dir? {
          return None, name;
        }
        if parent && p == |path| {
          return Some(ip), name;
        }
        var found := Dirlookup(ip, name);
        if found.None? {
          return None, name;
        }
        NamedCounted(View(), rank, Place(ip, found.value));
        ip := inodes[ip].entries[found.value].inum;
        more, p, name := Skipelem(path, p);
      }
      r := if parent then None else Some(ip);
    }

    // ---- sysfile.c ---------------------------------------------------------------

    method SetLinks(x: nat, n: int)
      requires x < inodes.Length
      modifies inodes
      ensures View() == WithLinks(old(View()), x, n)
    {
      inodes[x] := Node(inodes[x].kind, n, inodes[x].entries);
    }

    /** sys_link, after namei gave ip and nameiparent gave dp. */
    method Link(ip: nat, dp: Option<nat>, name: Name) returns (r: Result, k: nat)
      requires Valid() && ip < inodes.Length && !inodes[ip].kind.Free? && inodes[ip].nlink >= 1
      requires dp.Some? ==> dp.value < inodes.Length && Live(inodes[dp.value])
      modifies inodes
      ensures r.Failed? <==> old(inodes[ip]).kind.Dir? || dp.None? || !Absent(old(inodes[dp.value].entries), name)
      ensures r.Failed? ==> View() == old(View())
      ensures r.Panic? <==> !r.Failed? && Full(old(inodes[dp.value].entries))
      ensures r.Done? ==> ip != dp.value && FirstFree(old(inodes[dp.value].entries), k)
      ensures r.Done? ==> View() == Linked(old(View()), ip, dp.value, k, name)
      ensures r.Done? ==> (Valid() <==> old(inodes[ip]).nlink < 0x7FFF)
      ensures r.Done? && old(inodes[ip]).nlink < 0x7FFF && NoneLost(old(View())) ==> NoneLost(View())
    {
      k := 0;
      if inodes[ip].kind.Dir? {
        r := Failed;
      } else {
        r, k := LinkFile(ip, dp, name);
      }
    }

    method LinkFile(ip: nat, dp: Option<nat>, name: Name) returns (r: Result, k: nat)
      requires Valid() && ip < inodes.Length && IsFile(inodes[ip]) && inodes[ip].nlink >= 1
      requires dp.Some? ==> dp.value < inodes.Length && Live(inodes[dp.value])
      modifies inodes
      ensures r.Failed? <==> dp.None? || !Absent(old(inodes[dp.value].entries), name)
      ensures r.Failed? ==> View() == old(View())
      ensures r.Panic? <==> !r.Failed? && Full(old(inodes[dp.value].entries))
      ensures r.Done? ==> ip != dp.value && FirstFree(old(inodes[dp.value].entries), k)
      ensures r.Done? ==> View() == Linked(old(View()), ip, dp.value, k, name)
      ensures r.Done? ==> (Valid() <==> old(inodes[ip]).nlink < 0x7FFF)
      ensures r.Done? && old(inodes[ip]).nlink < 0x7FFF && NoneLost(old(View())) ==> NoneLost(View())
    {
      ghost var ns := View();
      assert LinksCounted(ns, ip);
      SetLinks(ip, Short(inodes[ip].nlink + 1));
      r, k := Failed, 0;
      if dp.Some? {
        r, k := Dirlink(dp.value, name, ip);
      }
      if r.Done? {
        LinkKeeps(ns, rank, ip, dp.value, k, name);
        LinkedMeans(ns, rank, ip, dp.value, k, name);
      } else if r.Failed? {
        BackAgain(ns[ip].nlink);
        SetLinks(ip, Short(inodes[ip].nlink - 1));
      }
    }

    /** sys_unlink, after nameiparent gave dp; `last` says that nobody else refers to the
        inode that loses its name.  Its two panics cannot happen. */
    method Unlink(dp: nat, name: Name, last: bool) returns (r: Result, k: nat)
      requires Valid() && dp < inodes.Length && Live(inodes[dp])
      modifies inodes
      ensures Valid() && !r.Panic?
      ensures r.Failed? ==> View() == old(View())
      ensures r.Failed? <==> name == "." || name == ".." || Absent(old(inodes[dp].entries), name)
                             || Occupied(old(View()), dp, FindIn(old(inodes[dp].entries), name, 0))
      ensures r.Done? ==> k == FindIn(old(inodes[dp].entries), name, 0) && Holds(old(View()), Place(dp, k), r.inum)
      ensures r.Done? ==> View() == Released(Unnamed(old(View()), r.inum, dp, k), r.inum, last)
      ensures r.Done? ==> 0 < r.inum < inodes.Length && LostName(old(inodes[r.inum]), inodes[r.inum], last)
      ensures r.Done? && last && NoneLost(old(View())) ==> NoneLost(View())
    {
      var found := Dirlookup(dp, name);
      k := 0;
      if name == "." || name == ".." || found.None? {
        r := Failed;
      } else {
        k := found.value;
        r := UnlinkAt(dp, k, last);
      }
    }

    method UnlinkAt(dp: nat, k: nat, last: bool) returns (r: Result)
      requires Valid() && dp < inodes.Length && Live(inodes[dp]) && k < |inodes[dp].entries| && inodes[dp].entries[k].inum != 0
      requires inodes[dp].entries[k].name != "." && inodes[dp].entries[k].name != ".."
      modifies inodes
      ensures Valid() && !r.Panic?
      ensures r.Failed? ==> View() == old(View())
      ensures r.Failed? <==> Occupied(old(View()), dp, k)
      ensures r.Done? ==> Holds(old(View()), Place(dp, k), r.inum)
      ensures r.Done? ==> View() == Released(Unnamed(old(View()), r.inum, dp, k), r.inum, last)
      ensures r.Done? ==> 0 < r.inum < inodes.Length && LostName(old(inodes[r.inum]), inodes[r.inum], last)
      ensures r.Done? && last && NoneLost(old(View())) ==> NoneLost(View())
    {
      var ip := inodes[dp].entries[k].inum;
      ghost var ns := View();
      NamedHere(ns, rank, dp, k);
      if inodes[ip].nlink < 1 {
        return Panic;
      }
      if inodes[ip].kind.Dir? {
        var empty := Isdirempty(ip);
        if !empty {
          return Failed;
        }
      }
      Remove(ip, dp, k);
      UnnamedMeans(ns, rank, ip, dp, k);
      Iput(ip, last);
      r := Done(ip);
    }

    /** The entry is overwritten with zeros and the link counts drop. */
    method Remove(ip: nat, dp: nat, k: nat)
      requires Valid() && ip < inodes.Length && Holds(View(), Place(dp, k), ip)
      requires inodes[ip].kind.Dir? ==> Empty(inodes[ip])
      modifies inodes
      ensures Valid() && View() == Unnamed(old(View()), ip, dp, k)
    {
      ghost var ns := View();
      var n := inodes[dp];
      if inodes[ip].kind.Dir? {
        UnlinkDirKeeps(ns, rank, ip, dp, k);
      } else {
        UnlinkKeeps(ns, rank, ip, dp, k);
      }
      inodes[dp] := Node(n.kind, n.nlink, n.entries[k := NOTHING]);
      if inodes[ip].kind.Dir? {
        SetLinks(dp, Short(inodes[dp].nlink - 1));
      }
      SetLinks(ip, Short(inodes[ip].nlink - 1));
    }

    /** create, after nameiparent gave dp. */
    method Create(dp: nat, name: Name, kind: Kind) returns (r: Result, k: nat)
      requires Valid() && dp < inodes.Length && Live(inodes[dp]) && !kind.Free?
      modifies inodes, this`rank
      ensures !Absent(old(inodes[dp].entries), name) ==>
                View() == old(View()) && rank == old(rank) && ExistingOk(old(View()), dp, name, kind, r)
      ensures Absent(old(inodes[dp].entries), name) ==>
                !r.Failed? && (r.Panic? <==> NoneFree(old(View())) || Full(old(inodes[dp].entries)))
      ensures r.Done? && Absent(old(inodes[dp].entries), name) ==>
                && Fresh(old(View()), old(rank), r.inum, dp, k, name) && dp != r.inum
                && View() == Made(old(View()), r.inum, dp, k, name, kind)
                && Valid() && (NoneLost(old(View())) ==> NoneLost(View()))
    {
      var found := Dirlookup(dp, name);
      k := 0;
      if found.Some? {
        var ip := inodes[dp].entries[found.value].inum;
        NamedHere(View(), rank, dp, found.value);
        r := if kind.File? && inodes[ip].kind.File? then Done(ip) else Failed;
      } else {
        r, k := CreateNew(dp, name, kind);
      }
    }

    method CreateNew(dp: nat, name: Name, kind: Kind) returns (r: Result, k: nat)
      requires Valid() && dp < inodes.Length && Live(inodes[dp]) && !kind.Free? && Absent(inodes[dp].entries, name)
      modifies inodes, this`rank
      ensures !r.Failed? && (r.Panic? <==> NoneFree(old(View())) || Full(old(inodes[dp].entries)))
      ensures r.Done? ==>
                && Fresh(old(View()), old(rank), r.inum, dp, k, name) && dp != r.inum
                && View() == Made(old(View()), r.inum, dp, k, name, kind)
                && Valid() && (NoneLost(old(View())) ==> NoneLost(View()))
    {
      ghost var ns := View();
      var ialloc := Ialloc(kind);
      k := 0;
      if ialloc.None? {
        r := Panic;
      } else {
        var ip := ialloc.value;
        r, k := Enter(ip, dp, name, ns);
        if r.Done? {
          DirLinksBound(ns, rank, dp);
          SizedMade(ns, ip, dp, k, name, kind);
          MakeKeeps(ns, rank, ip, dp, k, name, kind);
          MadeMeans(ns, rank, ip, dp, k, name, kind);
          if kind.Dir? {
            rank := rank[ip := rank[dp] + 1];
          }
        }
      }
    }

    /** The new inode gets its link count, its dots, and its entry. */
    method Enter(ip: nat, dp: nat, name: Name, ghost ns: seq<Node>) returns (r: Result, k: nat)
      requires 0 < ip < inodes.Length && dp < inodes.Length && ip != dp && inodes.Length <= 0x1_0000
      requires inodes[ip].nlink == 0 && inodes[ip].entries == [] && Absent(inodes[dp].entries, name)
      requires |ns| == inodes.Length && View() == WithNode(ns, ip, inodes[ip])
      modifies inodes
      ensures !r.Failed? && (r.Panic? <==> Full(ns[dp].entries))
      ensures r.Done? ==> r.inum == ip && FirstFree(ns[dp].entries, k) && k < MAXENTRIES
      ensures r.Done? ==> View() == Made(ns, ip, dp, k, name, old(inodes[ip]).kind)
    {
      assert ns[dp] == View()[dp];
      SetLinks(ip, 1);
      ghost var n := inodes[ip];
      assert n == View()[ip] && inodes[dp] == View()[dp] == ns[dp];
      if inodes[ip].kind.Dir? {
        EnterDots(ip, dp, ns);
        assert inodes[dp] == View()[dp] && inodes[dp].entries == ns[dp].entries;
        r, k := Dirlink(dp, name, ip);
      } else {
        r, k := Dirlink(dp, name, ip);
        if r.Done? {
          assert View() == WithEntry(WithNode(ns, ip, n), dp, k, Dirent(ip, name));
          ghost var m := WithNode(ns, ip, Node(n.kind, 0, []));
          assert Short(m[ip].nlink + 1) == 1;
          assert WithLinks(m, ip, Short(m[ip].nlink + 1)) == WithNode(ns, ip, n);
        }
      }
    }

    method EnterDots(ip: nat, dp: nat, ghost ns: seq<Node>)
      requires 0 < ip < inodes.Length && dp < inodes.Length && ip != dp && inodes.Length <= 0x1_0000
      requires inodes[ip] == Node(Dir, 1, [])
      requires |ns| == inodes.Length && View() == WithNode(ns, ip, inodes[ip])
      modifies inodes
      ensures View() == WithLinks(WithNode(ns, ip, Node(Dir, 1, [Dirent(ip, "."), Dirent(dp, "..")])), dp, Short(ns[dp].nlink + 1))
    {
      assert ns[dp] == View()[dp];
      SetLinks(dp, Short(inodes[dp].nlink + 1));
      ghost var m := View();
      assert inodes[ip] == m[ip] == Node(Dir, 1, []);
      var d, k := Dirlink(ip, ".", ip);
      assert Put([], 0, Dirent(ip, ".")) == [Dirent(ip, ".")];
      assert View() == m[ip := Node(Dir, 1, [Dirent(ip, ".")])];
      assert inodes[ip] == View()[ip];
      assert |"."| != |".."|;
      d, k := Dirlink(ip, "..", dp);
      assert Put([Dirent(ip, ".")], 1, Dirent(dp, "..")) == [Dirent(ip, "."), Dirent(dp, "..")];
      assert View() == m[ip := Node(Dir, 1, [Dirent(ip, "."), Dirent(dp, "..")])];
    }
  }

  /** ialloc's panic. */
  ghost predicate NoneFree(ns: seq<Node>) {
    forall x :: 0 < x < |ns| ==> !ns[x].kind.Free?
  }

  ghost predicate EndsWith(es: seq<Name>, tail: seq<Name>) {
    |tail| <= |es| && es[|es| - |tail|..] == tail
  }

  lemma RootLives(ns: seq<Node>, rank: seq<nat>)
    requires Shape(ns, rank)
    ensures ROOTINO < |ns| && Live(ns[ROOTINO])
  {
  }

  // ---- the effects on values ---------------------------------------------------------

  /** An inode without links goes with its last reference. */
  function Released(ns: seq<Node>, x: nat, last: bool): (r: seq<Node>)
    requires x < |ns|
    ensures |r| == |ns|
  {
    if ns[x].nlink == 0 && last then WithNode(ns, x, Node(Free, 0, [])) else ns
  }

  function Unnamed(ns: seq<Node>, ip: nat, dp: nat, k: nat): (r: seq<Node>)
    requires ip < |ns| && dp < |ns| && k <= |ns[dp].entries|
    ensures |r| == |ns|
  {
    if ns[ip].kind.Dir? then UnlinkedDir(ns, ip, dp, k) else Unlinked(ns, ip, dp, k)
  }

  function Made(ns: seq<Node>, ip: nat, dp: nat, k: nat, name: Name, kind: Kind): (r: seq<Node>)
    requires ip < |ns| && dp < |ns| && ip != dp && k <= |ns[dp].entries|
    ensures |r| == |ns|
  {
    if kind.Dir? then MadeDir(ns, ip, dp, k, name) else Linked(WithNode(ns, ip, Node(kind, 0, [])), ip, dp, k, name)
  }

  /** Entry k of dp names a directory that is not empty. */
  predicate Occupied(ns: seq<Node>, dp: nat, k: nat)
    requires dp < |ns|
  {
    && k < |ns[dp].entries| && ns[dp].entries[k].inum < |ns|
    && ns[ns[dp].entries[k].inum].kind.Dir? && !Empty(ns[ns[dp].entries[k].inum])
  }

  /** create of a name that exists gives an existing file when a file is asked for. */
  predicate ExistingOk(ns: seq<Node>, dp: nat, name: Name, kind: Kind, r: Result)
    requires dp < |ns|
  {
    var k := FindIn(ns[dp].entries, name, 0);
    && k < |ns[dp].entries| && ns[dp].entries[k].inum < |ns|
    && r == if kind.File? && ns[ns[dp].entries[k].inum].kind.File? then Done(ns[dp].entries[k].inum) else Failed
  }

  lemma ReleaseKeeps(ns: seq<Node>, rank: seq<nat>, x: nat, last: bool)
    requires Shape(ns, rank) && 0 < x < |ns|
    ensures Shape(Released(ns, x, last), rank)
  {
    if ns[x].nlink == 0 && last {
      UnnamedChange(ns, rank, x, Node(Free, 0, []));
    }
  }

  lemma BackAgain(n: int)
    requires 0 <= n < 0x8000
    ensures Short(Short(n + 1) - 1) == n
  {
  }

  lemma NamedHere(ns: seq<Node>, rank: seq<nat>, dp: nat, k: nat)
    requires Shape(ns, rank) && dp < |ns| && Live(ns[dp]) && k < |ns[dp].entries| && ns[dp].entries[k].inum != 0
    ensures var ip := ns[dp].entries[k].inum;
            && ip < |ns| && !ns[ip].kind.Free? && ns[ip].nlink >= 1
            && (ns[dp].entries[k].name != "." && ns[dp].entries[k].name != ".." ==> Holds(ns, Place(dp, k), ip))
  {
    NamedCounted(ns, rank, Place(dp, k));
    assert Dots(ns, rank, dp);
  }

  lemma MakeKeeps(ns: seq<Node>, rank: seq<nat>, ip: nat, dp: nat, k: nat, name: Name, kind: Kind)
    requires Fresh(ns, rank, ip, dp, k, name) && ip != dp && !kind.Free?
    ensures ns[dp].nlink <= 0x7FFF
    ensures kind.Dir? && ns[dp].nlink < 0x7FFF ==> Shape(Made(ns, ip, dp, k, name, kind), rank[ip := rank[dp] + 1])
    ensures kind.Dir? && ns[dp].nlink == 0x7FFF ==> forall rank' :: !Shape(Made(ns, ip, dp, k, name, kind), rank')
    ensures !kind.Dir? ==> Shape(Made(ns, ip, dp, k, name, kind), rank)
  {
    MakeDirKeeps(ns, rank, ip, dp, k, name);
    if !kind.Dir? {
      var n := Node(kind, 0, []);
      FreeUnnamed(ns, rank, ip);
      assert LinksCounted(ns, ip);
      UnnamedChange(ns, rank, ip, n);
      LinkKeeps(WithNode(ns, ip, n), rank, ip, dp, k, name);
    }
  }

  lemma SizedMade(ns: seq<Node>, ip: nat, dp: nat, k: nat, name: Name, kind: Kind)
    requires ip < |ns| && dp < |ns| && ip != dp && k <= |ns[dp].entries| && k < MAXENTRIES && Sized(ns)
    ensures Sized(Made(ns, ip, dp, k, name, kind))
  {
  }

  lemma RootOnly(ns: seq<Node>, rank: seq<nat>)
    requires ROOTINO < |ns| <= 0x1_0000 && |rank| == |ns|
    requires ns[ROOTINO] == Node(Dir, 1, [Dirent(ROOTINO, "."), Dirent(ROOTINO, "..")])
    requires forall i :: 0 <= i < |ns| && i != ROOTINO ==> ns[i] == Node(Free, 0, [])
    ensures Shape(ns, rank)
  {
    forall x | 0 <= x < |ns| ensures LinksCounted(ns, x) {
      NamesSet(ns, x);
      if x == ROOTINO {
        assert Names(ns, x) == {Place(ROOTINO, 1)};
      } else {
        assert Names(ns, x) == {};
      }
    }
  }

  // ---- what the effects mean ------------------------------------------------------------

  /** No inode is lost: what is allocated has a name. */
  ghost predicate NoneLost(ns: seq<Node>) {
    forall x :: 0 <= x < |ns| && !ns[x].kind.Free? ==> ns[x].nlink >= 1
  }

  /** A node before and after it lost one of its names: with the last one, and when nobody
      refers to it, it becomes free; otherwise it keeps its kind and contents. */
  ghost predicate LostName(n: Node, m: Node, last: bool) {
    && n.nlink >= 1
    && (m.kind.Free? <==> n.nlink == 1 && last)
    && (!m.kind.Free? ==> m == Node(n.kind, n.nlink - 1, n.entries))
  }

  /** The inode that a name in a directory stands for. */
  function Lookup(n: Node, name: Name): Option<nat> {
    var k := FindIn(n.entries, name, 0);
    if k == |n.entries| then None else Some(n.entries[k].inum)
  }

  lemma PutFound(es: seq<Dirent>, k: nat, e: Dirent, name: Name)
    requires FirstFree(es, k) && Absent(es, e.name) && e.inum != 0
    ensures var j := FindIn(Put(es, k, e), name, 0);
            if name == e.name then j == k
            else j == FindIn(es, name, 0) || (j == |Put(es, k, e)| && FindIn(es, name, 0) == |es|)
  {
    var r := Put(es, k, e);
    var i, j := FindIn(es, name, 0), FindIn(r, name, 0);
    assert r[k] == e;
    assert j < |r| && j != k ==> r[j] == es[j];
    assert i < |es| ==> r[i] == es[i];
  }

  /** A new entry: that name, and no other, stands for something else now. */
  lemma PutLooks(n: Node, m: Node, k: nat, e: Dirent, name: Name)
    requires FirstFree(n.entries, k) && Absent(n.entries, e.name) && e.inum != 0 && m.entries == Put(n.entries, k, e)
    ensures Lookup(m, name) == if name == e.name then Some(e.inum) else Lookup(n, name)
  {
    PutFound(n.entries, k, e, name);
  }

  /** An entry wiped out: that name is gone, and no other. */
  lemma WipeLooks(n: Node, m: Node, k: nat, name: Name)
    requires k < |n.entries| && n.entries[k].inum != 0 && m.entries == n.entries[k := NOTHING]
    requires forall j :: 0 <= j < |n.entries| && n.entries[j].inum != 0 && n.entries[j].name == n.entries[k].name ==> j == k
    ensures Lookup(m, name) == if name == n.entries[k].name then None else Lookup(n, name)
  {
    var i, j := FindIn(n.entries, name, 0), FindIn(m.entries, name, 0);
    assert j < |m.entries| ==> j != k && m.entries[j] == n.entries[j];
    assert i < |n.entries| && i != k ==> m.entries[i] == n.entries[i];
  }

  /** link: one name more in the whole tree, and one link more for what it names. */
  lemma LinkedMeans(ns: seq<Node>, rank: seq<nat>, ip: nat, dp: nat, k: nat, name: Name)
    requires Roomy(ns, rank, dp, k, name) && 0 < ip < |ns| && IsFile(ns[ip]) && ip != dp
    ensures var r := Linked(ns, ip, dp, k, name);
            && (forall d, n :: 0 <= d < |ns| ==>
                  Lookup(r[d], n) == if d == dp && n == name then Some(ip) else Lookup(ns[d], n))
            && (forall x :: 0 <= x < |ns| ==>
                  && r[x].kind == ns[x].kind
                  && (ns[ip].nlink < 0x7FFF ==> r[x].nlink == if x == ip then ns[x].nlink + 1 else ns[x].nlink))
  {
    var r := Linked(ns, ip, dp, k, name);
    assert LinksCounted(ns, ip);
    if ns[ip].nlink < 0x7FFF {
      ShortFits(ns[ip].nlink);
    }
    forall d, n | 0 <= d < |ns| ensures Lookup(r[d], n) == if d == dp && n == name then Some(ip) else Lookup(ns[d], n) {
      if d == dp {
        PutLooks(ns[d], r[d], k, Dirent(ip, name), n);
      } else {
        assert r[d].entries == ns[d].entries;
      }
    }
  }

  /** unlink before its iput: one name less, one link less for what it named, and for a
      directory one link less for the parent. */
  lemma UnnamedMeans(ns: seq<Node>, rank: seq<nat>, ip: nat, dp: nat, k: nat)
    requires Shape(ns, rank) && ip < |ns| && Holds(ns, Place(dp, k), ip) && (ns[ip].kind.Dir? ==> Empty(ns[ip]))
    ensures ip != dp && ns[ip].nlink >= 1
    ensures var r, name := Unnamed(ns, ip, dp, k), ns[dp].entries[k].name;
            && (forall d, n :: 0 <= d < |ns| ==> Lookup(r[d], n) == if d == dp && n == name then None else Lookup(ns[d], n))
            && (forall x :: 0 <= x < |ns| ==>
                  && r[x].kind == ns[x].kind && (x != dp ==> r[x].entries == ns[x].entries)
                  && r[x].nlink == if x == ip then ns[x].nlink - 1
                                   else if x == dp && ns[ip].kind.Dir? then ns[x].nlink - 1 else ns[x].nlink)
            && r[dp].nlink >= 1
  {
    var r, p := Unnamed(ns, ip, dp, k), Place(dp, k);
    NamedCounted(ns, rank, p);
    NotItself(ns, rank, ip, dp, k);
    forall d, n | 0 <= d < |ns| ensures Lookup(r[d], n) == if d == dp && n == At(ns, p).name then None else Lookup(ns[d], n) {
      if d == dp {
        OnlyOne(ns, p);
        WipeLooks(ns[d], r[d], k, n);
      } else {
        assert r[d].entries == ns[d].entries;
      }
    }
  }

  lemma OnlyOne(ns: seq<Node>, p: Place)
    requires Distinct(ns) && Entry(ns, p) && At(ns, p).inum != 0
    ensures var es := ns[p.dir].entries;
            forall j :: 0 <= j < |es| && es[j].inum != 0 && es[j].name == At(ns, p).name ==> j == p.slot
  {
    forall j | 0 <= j < |ns[p.dir].entries| && ns[p.dir].entries[j].inum != 0 && ns[p.dir].entries[j].name == At(ns, p).name
      ensures j == p.slot
    {
      assert At(ns, Place(p.dir, j)) == ns[p.dir].entries[j];
    }
  }

  lemma NotItself(ns: seq<Node>, rank: seq<nat>, ip: nat, dp: nat, k: nat)
    requires Shape(ns, rank) && ip < |ns| && Holds(ns, Place(dp, k), ip) && (ns[ip].kind.Dir? ==> Empty(ns[ip]))
    ensures ip != dp && 1 <= ns[ip].nlink < 0x8000 && Short(ns[ip].nlink - 1) == ns[ip].nlink - 1
    ensures 1 <= ns[dp].nlink < 0x8000 && Short(ns[dp].nlink - 1) == ns[dp].nlink - 1
    ensures ns[ip].kind.Dir? ==> ns[dp].nlink >= 2
  {
    NamedCounted(ns, rank, Place(dp, k));
    assert LinksCounted(ns, ip) && LinksCounted(ns, dp);
    if ns[ip].kind.Dir? {
      EmptyDirNames(ns, rank, ip, dp, k);
    }
  }

  lemma DotsLook(n: Node, ip: nat, dp: nat, name: Name)
    requires n.entries == [Dirent(ip, "."), Dirent(dp, "..")] && ip != 0 && dp != 0
    ensures Lookup(n, name) == if name == "." then Some(ip) else if name == ".." then Some(dp) else None
  {
    assert |"."| != |".."|;
    var es := n.entries;
    assert |es| == 2 && es[0] == Dirent(ip, ".") && es[1] == Dirent(dp, "..");
    if name == "." {
      assert FindIn(es, name, 0) == 0;
    } else if name == ".." {
      assert FindIn(es, name, 0) == FindIn(es, name, 1) == 1;
    } else {
      assert FindIn(es, name, 0) == FindIn(es, name, 1) == FindIn(es, name, 2) == 2;
    }
  }

  /** create: one name more, for a new node with one link; a directory gets its dots, and its
      parent one link more. */
  lemma MadeMeans(ns: seq<Node>, rank: seq<nat>, ip: nat, dp: nat, k: nat, name: Name, kind: Kind)
    requires Fresh(ns, rank, ip, dp, k, name) && ip != dp && !kind.Free? && (kind.Dir? ==> ns[dp].nlink < 0x7FFF)
    ensures var r := Made(ns, ip, dp, k, name, kind);
            && (forall d, n :: 0 <= d < |ns| ==>
                  Lookup(r[d], n) == if d == dp && n == name then Some(ip)
                                     else if d != ip then Lookup(ns[d], n)
                                     else if kind.Dir? && n == "." then Some(ip)
                                     else if kind.Dir? && n == ".." then Some(dp) else None)
            && (forall x :: 0 <= x < |ns| ==>
                  && r[x].kind == (if x == ip then kind else ns[x].kind)
                  && r[x].nlink == if x == ip then 1 else if x == dp && kind.Dir? then ns[x].nlink + 1 else ns[x].nlink)
  {
    var r := Made(ns, ip, dp, k, name, kind);
    assert LinksCounted(ns, dp) && Short(0 + 1) == 1;
    if kind.Dir? {
      ShortFits(ns[dp].nlink);
    }
    assert forall x :: 0 <= x < |ns| && x != ip && x != dp ==> r[x] == ns[x];
    hide LinksCounted, Dots, EntriesOk, Distinct, Tree, Shape;
    forall d, n | 0 <= d < |ns|
      ensures Lookup(r[d], n) == if d == dp && n == name then Some(ip)
                                 else if d != ip then Lookup(ns[d], n)
                                 else if kind.Dir? && n == "." then Some(ip)
                                 else if kind.Dir? && n == ".." then Some(dp) else None
    {
      if d == dp {
        PutLooks(ns[d], r[d], k, Dirent(ip, name), n);
      } else if d == ip && kind.Dir? {
        DotsLook(r[d], ip, dp, n);
      } else if d != ip {
        assert r[d].entries == ns[d].entries;
      }
    }
  }

  lemma MadeNodes(ns: seq<Node>, rank: seq<nat>, ip: nat, dp: nat, k: nat, name: Name, kind: Kind)
    requires Fresh(ns, rank, ip, dp, k, name) && ip != dp && !kind.Free? && (kind.Dir? ==> ns[dp].nlink < 0x7FFF)
    ensures 0 <= ns[dp].nlink < 0x8000
    ensures var r := Made(ns, ip, dp, k, name, kind);
            && r[ip].kind == kind && r[ip].nlink == 1 && Empty(r[ip])
            && r[dp] == Node(ns[dp].kind, if kind.Dir? then ns[dp].nlink + 1 else ns[dp].nlink, Put(ns[dp].entries, k, Dirent(ip, name)))
            && forall x :: 0 <= x < |ns| && x != ip && x != dp ==> r[x] == ns[x]
  {
    assert Short(0 + 1) == 1;
    assert LinksCounted(ns, dp);
    if kind.Dir? {
      ShortFits(ns[dp].nlink);
    }
    hide LinksCounted, Dots, EntriesOk, Distinct, Tree;
  }

  lemma WipedNodes(r: seq<Node>, ip: nat, dp: nat, k: nat)
    requires ip < |r| && dp < |r| && ip != dp && k < |r[dp].entries| && r[ip].nlink == 1 && 0 <= r[dp].nlink < 0x8000
    requires r[ip].kind.Dir? ==> r[dp].nlink >= 1
    ensures var u := Released(Unnamed(r, ip, dp, k), ip, true);
            && u[ip].kind.Free?
            && u[dp] == Node(r[dp].kind, if r[ip].kind.Dir? then r[dp].nlink - 1 else r[dp].nlink, r[dp].entries[k := NOTHING])
            && forall x :: 0 <= x < |r| && x != ip && x != dp ==> u[x] == r[x]
  {
    assert Short(1 - 1) == 0;
    if r[ip].kind.Dir? {
      ShortBack(r[dp].nlink);
    }
  }

  lemma ShortBack(n: int)
    requires 1 <= n < 0x8000
    ensures Short(n - 1) == n - 1
  {
  }

  /** What create made, unlink with no other reference takes away again: the inode is free,
      the entry is empty, and all other inodes are what they were. */
  lemma UnlinkUndoesCreate(ns: seq<Node>, rank: seq<nat>, ip: nat, dp: nat, k: nat, name: Name, kind: Kind)
    requires Fresh(ns, rank, ip, dp, k, name) && ip != dp && !kind.Free? && (kind.Dir? ==> ns[dp].nlink < 0x7FFF)
    ensures var r := Made(ns, ip, dp, k, name, kind);
            && !Occupied(r, dp, k) && k < |r[dp].entries| && r[dp].entries[k] == Dirent(ip, name)
            && (var u := Released(Unnamed(r, ip, dp, k), ip, true);
                && |u| == |ns| && u[ip].kind.Free?
                && u[dp] == Node(ns[dp].kind, ns[dp].nlink, Put(ns[dp].entries, k, NOTHING))
                && forall x :: 0 <= x < |ns| && x != ip && x != dp ==> u[x] == ns[x])
  {
    MadeNodes(ns, rank, ip, dp, k, name, kind);
    WipedNodes(Made(ns, ip, dp, k, name, kind), ip, dp, k);
    hide Made, Unnamed, Released, Empty, Shape;
    var es := ns[dp].entries;
    assert Put(es, k, Dirent(ip, name))[k := NOTHING] == Put(es, k, NOTHING);
  }
}
