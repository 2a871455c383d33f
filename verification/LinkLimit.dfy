/** A file can get to the end of a short with no directory larger than the largest file:
    eight directories, filled by create and link. */
module LinkLimit {
  import opened DirTree
  import opened SysFile

  const ENTRIES_EACH: nat := 4096
  const FILE: nat := 2

  /** Distinct names of two printable characters. */
  function NameOf(j: nat): Name
    requires j < ENTRIES_EACH
  {
    [(64 + j / 64) as char, (64 + j % 64) as char]
  }

  lemma NamesDiffer(i: nat, j: nat)
    requires i < ENTRIES_EACH && j < ENTRIES_EACH
    ensures NameOf(i) == NameOf(j) ==> i == j
    ensures NameOf(i) != "." && NameOf(i) != ".."
  {
    if NameOf(i) == NameOf(j) {
      assert NameOf(i)[0] == NameOf(j)[0] && NameOf(i)[1] == NameOf(j)[1];
      assert i / 64 == j / 64 && i % 64 == j % 64;
    }
    assert NameOf(i)[0] != '.';
  }

  /** How many of the first n links are in directory i. */
  function Share(n: nat, i: nat): nat {
    if n <= ENTRIES_EACH * i then 0 else if n >= ENTRIES_EACH * i + ENTRIES_EACH then ENTRIES_EACH else n - ENTRIES_EACH * i
  }

  /** After the dots, m entries that name the file. */
  predicate Filled(es: seq<Dirent>, m: nat) {
    && m <= ENTRIES_EACH && |es| == 2 + m && es[0].inum != 0 && es[0].name == "." && es[1].inum != 0 && es[1].name == ".."
    && forall k :: 2 <= k < |es| ==> es[k] == Dirent(FILE, NameOf(k - 2))
  }

  /** The root, a file of n links, and eight directories over which its names are spread. */
  ghost predicate Crowd(ns: seq<Node>, rank: seq<nat>, n: nat) {
    && Shape(ns, rank) && |ns| == 11 && n <= 8 * ENTRIES_EACH
    && IsFile(ns[FILE]) && ns[FILE].nlink == n && ns[FILE].entries == ns[0].entries == [] && |ns[ROOTINO].entries| <= 10
    && forall d :: 3 <= d < 11 ==> Live(ns[d]) && Filled(ns[d].entries, Share(n, d - 3))
  }

  /** link once more. */
  lemma CrowdGrows(ns: seq<Node>, rank: seq<nat>, n: nat)
    requires Crowd(ns, rank, n) && n < 0x7FFF
    ensures var i, j := n / ENTRIES_EACH, n % ENTRIES_EACH;
            && Roomy(ns, rank, 3 + i, 2 + j, NameOf(j))
            && Crowd(Linked(ns, FILE, 3 + i, 2 + j, NameOf(j)), rank, n + 1)
  {
    hide Shape, NameOf;
    var i, j := n / ENTRIES_EACH, n % ENTRIES_EACH;
    var es := ns[3 + i].entries;
    assert Share(n, i) == j && Share(n + 1, i) == j + 1;
    forall q | 0 <= q < |es| ensures es[q].inum != 0 && es[q].name != NameOf(j) {
      NamesDiffer(j, if q < 2 then 0 else q - 2);
    }
    assert Roomy(ns, rank, 3 + i, 2 + j, NameOf(j));
    LinkKeeps(ns, rank, FILE, 3 + i, 2 + j, NameOf(j));
    ShortFits(n);
    LinkedCrowd(ns, rank, n, i, j);
  }

  lemma LinkedCrowd(ns: seq<Node>, rank: seq<nat>, n: nat, i: nat, j: nat)
    requires Crowd(ns, rank, n) && n < 0x7FFF && i == n / ENTRIES_EACH && j == n % ENTRIES_EACH
    ensures var r := Linked(ns, FILE, 3 + i, 2 + j, NameOf(j));
            forall d :: 3 <= d < 11 ==> Live(r[d]) && Filled(r[d].entries, Share(n + 1, d - 3))
  {
    var r := Linked(ns, FILE, 3 + i, 2 + j, NameOf(j));
    forall d | 3 <= d < 11 ensures Live(r[d]) && Filled(r[d].entries, Share(n + 1, d - 3)) {
      assert Filled(ns[d].entries, Share(n, d - 3));
      if d != 3 + i {
        assert r[d] == ns[d] && Share(n + 1, d - 3) == Share(n, d - 3);
      }
    }
  }

  /** The root with its first i subdirectories. */
  ghost predicate Sparse(ns: seq<Node>, rank: seq<nat>, i: nat) {
    && Shape(ns, rank) && |ns| == 11 && i <= 8 && |ns[ROOTINO].entries| == 2 + i && ns[ROOTINO].nlink == 1 + i
    && ns[FILE] == ns[0] == Node(Free, 0, [])
    && (forall k :: 0 <= k < |ns[ROOTINO].entries| ==> ns[ROOTINO].entries[k].inum != 0)
    && (forall k :: 2 <= k < 2 + i ==> ns[ROOTINO].entries[k].name == NameOf(k - 2))
    && (forall d :: 3 <= d < 3 + i ==> Live(ns[d]) && Filled(ns[d].entries, 0))
    && forall d :: 3 + i <= d < 11 ==> ns[d].kind.Free?
  }

  /** create a directory once more. */
  lemma SparseGrows(ns: seq<Node>, rank: seq<nat>, i: nat)
    requires Sparse(ns, rank, i) && i < 8
    ensures Fresh(ns, rank, 3 + i, ROOTINO, 2 + i, NameOf(i))
    ensures Sparse(MadeDir(ns, 3 + i, ROOTINO, 2 + i, NameOf(i)), rank[3 + i := rank[ROOTINO] + 1], i + 1)
  {
    var es := ns[ROOTINO].entries;
    assert Dots(ns, rank, ROOTINO);
    forall q | 0 <= q < |es| ensures es[q].name != NameOf(i) {
      NamesDiffer(i, if q < 2 then 0 else q - 2);
    }
    MakeDirKeeps(ns, rank, 3 + i, ROOTINO, 2 + i, NameOf(i));
    ShortFits(1 + i);
  }

  lemma {:induction false} SparseReached(i: nat) returns (ns: seq<Node>, rank: seq<nat>)
    requires i <= 8
    ensures Sparse(ns, rank, i)
  {
    if i == 0 {
      ns := seq(11, x => if x == ROOTINO then Node(Dir, 1, [Dirent(ROOTINO, "."), Dirent(ROOTINO, "..")]) else Node(Free, 0, []));
      rank := seq(11, _ => 0);
      RootOnly(ns, rank);
    } else {
      ns, rank := SparseReached(i - 1);
      SparseGrows(ns, rank, i - 1);
      ns, rank := MadeDir(ns, 2 + i, ROOTINO, 1 + i, NameOf(i - 1)), rank[2 + i := rank[ROOTINO] + 1];
    }
  }

  /** For every number of links there is a well-shaped tree, of 11 inodes, in which a file
      has that many. */
  lemma {:induction false} CrowdReached(n: nat) returns (ns: seq<Node>, rank: seq<nat>)
    requires n <= 0x7FFF
    ensures Crowd(ns, rank, n) && Sized(ns)
  {
    if n == 0 {
      ns, rank := SparseReached(8);
      UnnamedChange(ns, rank, FILE, Node(File, 0, []));
      ns := WithNode(ns, FILE, Node(File, 0, []));
    } else {
      ns, rank := CrowdReached(n - 1);
      CrowdGrows(ns, rank, n - 1);
      var i, j := (n - 1) / ENTRIES_EACH, (n - 1) % ENTRIES_EACH;
      ns := Linked(ns, FILE, 3 + i, 2 + j, NameOf(j));
    }
    CrowdSized(ns, rank, n);
  }

  lemma CrowdSized(ns: seq<Node>, rank: seq<nat>, n: nat)
    requires Crowd(ns, rank, n)
    ensures Sized(ns)
  {
    assert ns[0].kind.Free?;
    forall d | 0 <= d < |ns| ensures |ns[d].entries| <= MAXENTRIES {
      assert d >= 3 ==> Filled(ns[d].entries, Share(n, d - 3));
    }
  }

  /** So link does break the shape of a tree that it could have built: the caller's check
      that it does not is nlink < 32767. */
  lemma LinkCanWrap() returns (ns: seq<Node>, rank: seq<nat>, dp: nat, k: nat, name: Name)
    ensures |ns| == 11 && Sized(ns) && Roomy(ns, rank, dp, k, name) && k < MAXENTRIES && IsFile(ns[FILE]) && dp != FILE
    ensures forall rank' :: !Shape(Linked(ns, FILE, dp, k, name), rank')
  {
    ns, rank := CrowdReached(0x7FFF);
    dp, k, name := 10, 2 + 4095, NameOf(4095);
    var es := ns[10].entries;
    assert Live(ns[10]) && Filled(es, Share(0x7FFF, 7)) && Share(0x7FFF, 7) == 4095;
    forall q | 0 <= q < |es| ensures es[q].inum != 0 && es[q].name != name {
      NamesDiffer(4095, if q < 2 then 0 else q - 2);
    }
    LinkKeeps(ns, rank, FILE, dp, k, name);
  }
}
