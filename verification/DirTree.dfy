/** The directory tree as a value: inodes, directory entries, link counts, and the shape
    that link, unlink and create keep. */
module DirTree {
  import opened Wrappers

  const ROOTINO: nat := 1
  const DIRSIZ: nat := 14
  const MAXENTRIES: nat := 4480  // MAXFILE * BSIZE / sizeof(struct dirent)

  type Name = s: string | |s| <= DIRSIZ witness ""

  datatype Kind = Free | Dir | File | Dev
  datatype Dirent = Dirent(inum: nat, name: Name)
  datatype Node = Node(kind: Kind, nlink: int, entries: seq<Dirent>)

  /** The slot-th entry of directory dir. */
  datatype Place = Place(dir: nat, slot: nat)

  /** nlink is a 16-bit signed short. */
  function Short(n: int): int {
    (n + 0x8000) % 0x1_0000 - 0x8000
  }

  /** A directory that some entry names; the entries of others no longer count. */
  predicate Live(n: Node) {
    n.kind.Dir? && n.nlink >= 1
  }

  predicate Entry(ns: seq<Node>, p: Place) {
    p.dir < |ns| && Live(ns[p.dir]) && p.slot < |ns[p.dir].entries|
  }

  function At(ns: seq<Node>, p: Place): Dirent
    requires Entry(ns, p)
  {
    ns[p.dir].entries[p.slot]
  }

  /** A live entry, other than ".", that names x. */
  predicate Naming(ns: seq<Node>, p: Place, x: nat) {
    x != 0 && Entry(ns, p) && At(ns, p).inum == x && At(ns, p).name != "."
  }

  ghost function Names(ns: seq<Node>, x: nat): set<Place> {
    set d, k | 0 <= d < |ns| && 0 <= k < |ns[d].entries| && Naming(ns, Place(d, k), x) :: Place(d, k)
  }

  /** An entry other than the dots that names c. */
  predicate Holds(ns: seq<Node>, p: Place, c: nat) {
    c != 0 && Entry(ns, p) && 2 <= p.slot && At(ns, p).inum == c
  }

  /** The invariant.  Ranks grow from every directory's parent to itself. */
  ghost predicate Shape(ns: seq<Node>, rank: seq<nat>) {
    && ROOTINO < |ns| <= 0x1_0000 && |rank| == |ns| && Live(ns[ROOTINO]) && ns[0].kind.Free?
    && (forall x {:trigger LinksCounted(ns, x)} :: 0 <= x < |ns| ==> LinksCounted(ns, x))
    && (forall d {:trigger Dots(ns, rank, d)} :: 0 <= d < |ns| && Live(ns[d]) ==> Dots(ns, rank, d))
    && EntriesOk(ns) && Distinct(ns) && Tree(ns)
  }

  ghost predicate LinksCounted(ns: seq<Node>, x: nat)
    requires x < |ns|
  {
    ns[x].nlink == |Names(ns, x)| && ns[x].nlink < 0x8000
  }

  predicate Allocated(ns: seq<Node>, x: nat) {
    x < |ns| && !ns[x].kind.Free?
  }

  /** "." names the directory itself and ".." its parent, which is live and nearer the root. */
  ghost predicate Dots(ns: seq<Node>, rank: seq<nat>, d: nat)
    requires |rank| == |ns| && d < |ns|
  {
    var es := ns[d].entries;
    && 2 <= |es| && es[0] == Dirent(d, ".") && es[1].name == ".."
    && es[1].inum < |ns| && Live(ns[es[1].inum])
    && if d == ROOTINO then es[1].inum == ROOTINO else rank[es[1].inum] < rank[d]
  }

  /** Live entries name allocated inodes, and only the first two are dots. */
  ghost predicate EntriesOk(ns: seq<Node>) {
    forall p {:trigger At(ns, p)} :: Entry(ns, p) && At(ns, p).inum != 0 ==>
      Allocated(ns, At(ns, p).inum) && (2 <= p.slot ==> At(ns, p).name != "." && At(ns, p).name != "..")
  }

  /** No two entries of a directory have the same name. */
  ghost predicate Distinct(ns: seq<Node>) {
    forall p, q {:trigger At(ns, p), At(ns, q)} ::
      Entry(ns, p) && Entry(ns, q) && p.dir == q.dir && At(ns, p).inum != 0 && At(ns, q).inum != 0
      && At(ns, p).name == At(ns, q).name
      ==> p == q
  }

  /** Every directory but the root has exactly one entry, in its parent. */
  ghost predicate Tree(ns: seq<Node>) {
    && (forall p, c: nat {:trigger Holds(ns, p, c)} ::
          Holds(ns, p, c) && c < |ns| && ns[c].kind.Dir?
          ==> c != ROOTINO && 2 <= |ns[c].entries| && ns[c].entries[1].inum == p.dir)
    && (forall p, q, c: nat {:trigger Holds(ns, p, c), Holds(ns, q, c)} ::
          Holds(ns, p, c) && Holds(ns, q, c) && c < |ns| && ns[c].kind.Dir? ==> p == q)
    && (forall c: nat {:trigger Housed(ns, c)} :: c < |ns| && Live(ns[c]) && c != ROOTINO ==> Housed(ns, c))
  }

  ghost predicate Housed(ns: seq<Node>, c: nat) {
    exists p :: Holds(ns, p, c)
  }

  lemma NamesSet(ns: seq<Node>, x: nat)
    ensures forall p :: p in Names(ns, x) <==> Naming(ns, p, x)
  {
    forall p | Naming(ns, p, x) ensures p in Names(ns, x) {
      assert p == Place(p.dir, p.slot);
    }
  }

  /** What an entry names has a positive link count, so unlink's panic "nlink < 1" cannot fire. */
  lemma NamedCounted(ns: seq<Node>, rank: seq<nat>, p: Place)
    requires Shape(ns, rank) && Entry(ns, p) && At(ns, p).inum != 0
    ensures Allocated(ns, At(ns, p).inum) && ns[At(ns, p).inum].nlink >= 1
  {
    var x := At(ns, p).inum;
    NamesSet(ns, x);
    if p.slot == 0 {
      assert Dots(ns, rank, p.dir);
    } else {
      assert Dots(ns, rank, p.dir);
      assert Naming(ns, p, x);
      assert LinksCounted(ns, x);
    }
  }

  // ---- link ----------------------------------------------------------------------

  /** Entry k of a directory set to e; k may be one past the end. */
  function Put(es: seq<Dirent>, k: nat, e: Dirent): seq<Dirent>
    requires k <= |es|
  {
    if k < |es| then es[k := e] else es + [e]
  }

  /** The slot dirlink uses: the first empty one, or one past the end. */
  predicate FirstFree(es: seq<Dirent>, k: nat) {
    k <= |es| && (k < |es| ==> es[k].inum == 0) && forall j :: 0 <= j < k ==> es[j].inum != 0
  }

  /** Every entry that the largest directory has room for is taken. */
  predicate Full(es: seq<Dirent>) {
    MAXENTRIES <= |es| && forall j :: 0 <= j < MAXENTRIES ==> es[j].inum != 0
  }

  predicate Absent(es: seq<Dirent>, name: Name) {
    forall j :: 0 <= j < |es| && es[j].inum != 0 ==> es[j].name != name
  }

  function WithEntry(ns: seq<Node>, d: nat, k: nat, e: Dirent): (r: seq<Node>)
    requires d < |ns| && k <= |ns[d].entries|
    ensures |r| == |ns|
  {
    ns[d := Node(ns[d].kind, ns[d].nlink, Put(ns[d].entries, k, e))]
  }

  function WithLinks(ns: seq<Node>, x: nat, n: int): (r: seq<Node>)
    requires x < |ns|
    ensures |r| == |ns|
  {
    ns[x := Node(ns[x].kind, n, ns[x].entries)]
  }

  /** sys_link's effect: one more name for the file ip. */
  function Linked(ns: seq<Node>, ip: nat, dp: nat, k: nat, name: Name): (r: seq<Node>)
    requires ip < |ns| && dp < |ns| && ip != dp && k <= |ns[dp].entries|
    ensures |r| == |ns|
  {
    WithEntry(WithLinks(ns, ip, Short(ns[ip].nlink + 1)), dp, k, Dirent(ip, name))
  }

  ghost predicate Roomy(ns: seq<Node>, rank: seq<nat>, dp: nat, k: nat, name: Name) {
    Shape(ns, rank) && dp < |ns| && Live(ns[dp]) && FirstFree(ns[dp].entries, k) && Absent(ns[dp].entries, name)
  }

  /** The new entry is none of the dots. */
  lemma RoomyPlace(ns: seq<Node>, rank: seq<nat>, dp: nat, k: nat, name: Name)
    requires Roomy(ns, rank, dp, k, name)
    ensures 2 <= k && name != "." && name != ".."
  {
    var es := ns[dp].entries;
    assert Dots(ns, rank, dp);
    assert es[0].inum != 0 && es[1].inum != 0;
  }

  /** From ns to r, entry e came into the empty slot p of a live directory; kinds and
      liveness stayed. */
  ghost predicate Added(ns: seq<Node>, r: seq<Node>, p: Place, e: Dirent) {
    && |r| == |ns| && e.inum != 0 && e.name != "." && e.name != ".." && 2 <= p.slot
    && Entry(r, p) && At(r, p) == e && (Entry(ns, p) ==> At(ns, p).inum == 0)
    && (forall q: Place {:trigger Entry(r, q)} {:trigger Entry(ns, q)} :: q != p ==> (Entry(r, q) <==> Entry(ns, q)))
    && (forall q: Place {:trigger At(r, q)} {:trigger At(ns, q)} :: q != p && Entry(r, q) && Entry(ns, q) ==> At(r, q) == At(ns, q))
    && (forall d :: 0 <= d < |ns| ==> r[d].kind == ns[d].kind && (Live(r[d]) <==> Live(ns[d])))
  }

  lemma LinkAdds(ns: seq<Node>, rank: seq<nat>, ip: nat, dp: nat, k: nat, name: Name)
    requires Roomy(ns, rank, dp, k, name) && ip < |ns| && IsFile(ns[ip])
    ensures Added(ns, Linked(ns, ip, dp, k, name), Place(dp, k), Dirent(ip, name))
  {
    RoomyPlace(ns, rank, dp, k, name);
  }

  /** The names of x after an entry was added. */
  lemma NamesAfterAdd(ns: seq<Node>, r: seq<Node>, p: Place, e: Dirent, x: nat)
    requires Added(ns, r, p, e)
    ensures Names(r, x) == Names(ns, x) + if x == e.inum then {p} else {}
    ensures p !in Names(ns, x)
  {
    NamesSet(ns, x);
    NamesSet(r, x);
  }

  lemma HoldsAfterAdd(ns: seq<Node>, r: seq<Node>, p: Place, e: Dirent)
    requires Added(ns, r, p, e)
    ensures forall q, c: nat {:trigger Holds(r, q, c)} {:trigger Holds(ns, q, c)} ::
              Holds(r, q, c) <==> Holds(ns, q, c) || (q == p && c == e.inum)
  {
    forall q, c: nat ensures Holds(r, q, c) <==> Holds(ns, q, c) || (q == p && c == e.inum) {
      assert q != p ==> (Entry(r, q) <==> Entry(ns, q));
    }
  }

  /** An added file entry keeps the tree. */
  lemma AddKeepsTree(ns: seq<Node>, r: seq<Node>, p: Place, e: Dirent)
    requires Added(ns, r, p, e) && Tree(ns) && e.inum < |ns| && !ns[e.inum].kind.Dir?
    requires forall d :: 0 <= d < |ns| && 2 <= |ns[d].entries| ==> 2 <= |r[d].entries| && r[d].entries[1] == ns[d].entries[1]
    ensures Tree(r)
  {
    HoldsAfterAdd(ns, r, p, e);
    forall c: nat | c < |r| && Live(r[c]) && c != ROOTINO ensures Housed(r, c) {
      assert Live(ns[c]) && Housed(ns, c);
      var q :| Holds(ns, q, c);
      assert Holds(r, q, c);
    }
  }

  lemma AddKeepsDistinct(ns: seq<Node>, r: seq<Node>, p: Place, e: Dirent)
    requires Added(ns, r, p, e) && Distinct(ns) && Absent(ns[p.dir].entries, e.name)
    ensures Distinct(r)
  {
    forall q, s {:trigger At(r, q), At(r, s)} |
      Entry(r, q) && Entry(r, s) && q.dir == s.dir && At(r, q).inum != 0 && At(r, s).inum != 0 && At(r, q).name == At(r, s).name
      ensures q == s
    {
      assert q != p ==> At(ns, q) == At(r, q);
      assert s != p ==> At(ns, s) == At(r, s);
    }
  }

  predicate IsFile(n: Node) {
    n.kind.File? || n.kind.Dev?
  }

  lemma ShortFits(n: int)
    requires 0 <= n < 0x7FFF
    ensures Short(n + 1) == n + 1
  {
  }

  /** link on a file keeps the shape exactly when nlink does not wrap around. */
  lemma LinkKeeps(ns: seq<Node>, rank: seq<nat>, ip: nat, dp: nat, k: nat, name: Name)
    requires Roomy(ns, rank, dp, k, name) && ip < |ns| && IsFile(ns[ip])
    ensures ip != dp
    ensures ns[ip].nlink < 0x7FFF ==> Shape(Linked(ns, ip, dp, k, name), rank)
    ensures ns[ip].nlink == 0x7FFF ==> forall rank' :: !Shape(Linked(ns, ip, dp, k, name), rank')
    ensures ns[ip].nlink <= 0x7FFF
  {
    LinkAdds(ns, rank, ip, dp, k, name);
    assert LinksCounted(ns, ip);
    var r := Linked(ns, ip, dp, k, name);
    if ns[ip].nlink < 0x7FFF {
      forall x | 0 <= x < |ns| ensures LinksCounted(r, x) {
        LinkCounts(ns, rank, ip, dp, k, name, x);
      }
      AddKeepsEntries(ns, r, Place(dp, k), Dirent(ip, name));
      LinkKeepsDots(ns, rank, ip, dp, k, name);
      AddKeepsTree(ns, r, Place(dp, k), Dirent(ip, name));
      AddKeepsDistinct(ns, r, Place(dp, k), Dirent(ip, name));
    } else {
      assert Short(0x8000) == -0x8000;
      assert r[ip].nlink == -0x8000;
      forall rank': seq<nat> ensures !Shape(r, rank') {
        assert !LinksCounted(r, ip);
      }
    }
  }

  lemma AddKeepsEntries(ns: seq<Node>, r: seq<Node>, p: Place, e: Dirent)
    requires Added(ns, r, p, e) && EntriesOk(ns) && Allocated(ns, e.inum)
    ensures EntriesOk(r)
  {
    forall q {:trigger At(r, q)} | Entry(r, q) && At(r, q).inum != 0
      ensures Allocated(r, At(r, q).inum) && (2 <= q.slot ==> At(r, q).name != "." && At(r, q).name != "..")
    {
      assert q != p ==> Entry(ns, q) && At(ns, q) == At(r, q);
    }
  }

  lemma LinkKeepsDots(ns: seq<Node>, rank: seq<nat>, ip: nat, dp: nat, k: nat, name: Name)
    requires Roomy(ns, rank, dp, k, name) && ip < |ns| && IsFile(ns[ip])
    ensures var r := Linked(ns, ip, dp, k, name);
            && (forall d {:trigger Dots(r, rank, d)} :: 0 <= d < |r| && Live(r[d]) ==> Dots(r, rank, d))
            && (forall d :: 0 <= d < |ns| && 2 <= |ns[d].entries| ==> 2 <= |r[d].entries| && r[d].entries[1] == ns[d].entries[1])
  {
    RoomyPlace(ns, rank, dp, k, name);
    hide LinksCounted, EntriesOk, Distinct, Tree, FirstFree, Absent;
    var r := Linked(ns, ip, dp, k, name);
    forall d | 0 <= d < |r| && Live(r[d]) ensures Dots(r, rank, d) {
      assert Dots(ns, rank, d);
    }
  }

  lemma LinkCounts(ns: seq<Node>, rank: seq<nat>, ip: nat, dp: nat, k: nat, name: Name, x: nat)
    requires Roomy(ns, rank, dp, k, name) && ip < |ns| && IsFile(ns[ip]) && ns[ip].nlink < 0x7FFF && x < |ns|
    ensures LinksCounted(Linked(ns, ip, dp, k, name), x)
  {
    LinkAdds(ns, rank, ip, dp, k, name);
    var r := Linked(ns, ip, dp, k, name);
    assert LinksCounted(ns, x);
    NamesAfterAdd(ns, r, Place(dp, k), Dirent(ip, name), x);
    if x == ip {
      ShortFits(ns[ip].nlink);
    } else {
      assert Names(ns, x) + {} == Names(ns, x);
    }
  }

  // ---- ialloc and iput's release -----------------------------------------------------

  function WithNode(ns: seq<Node>, x: nat, n: Node): (r: seq<Node>)
    requires x < |ns|
    ensures |r| == |ns|
  {
    ns[x := n]
  }

  /** A node that no live entry names changes, without becoming live: no live entry changes. */
  lemma UnnamedChange(ns: seq<Node>, rank: seq<nat>, x: nat, n: Node)
    requires Shape(ns, rank) && x < |ns| && x != 0 && !Live(ns[x]) && !Live(n) && ns[x].nlink == 0 && n.nlink == 0
    requires ns[x].kind.Free? || n.kind.Free?
    ensures Shape(WithNode(ns, x, n), rank)
  {
    var r := WithNode(ns, x, n);
    NamesSet(ns, x);
    assert LinksCounted(ns, x) && Names(ns, x) == {};
    forall p ensures (Entry(r, p) <==> Entry(ns, p)) && (Entry(ns, p) ==> At(r, p) == At(ns, p)) {
    }
    forall y | 0 <= y < |r| ensures LinksCounted(r, y) {
      assert LinksCounted(ns, y);
      NamesSet(ns, y);
      NamesSet(r, y);
      assert Names(r, y) == Names(ns, y);
    }
    UnnamedEntries(ns, rank, x, n);
    forall d | 0 <= d < |r| && Live(r[d]) ensures Dots(r, rank, d) {
      assert Dots(ns, rank, d);
    }
    forall p, c: nat {:trigger Holds(r, p, c)} ensures Holds(r, p, c) <==> Holds(ns, p, c) {
      assert Entry(r, p) <==> Entry(ns, p);
    }
    UnnamedTree(ns, r, x);
  }

  lemma UnnamedEntries(ns: seq<Node>, rank: seq<nat>, x: nat, n: Node)
    requires Shape(ns, rank) && x < |ns| && x != 0 && !Live(ns[x]) && !Live(n) && Names(ns, x) == {}
    ensures EntriesOk(WithNode(ns, x, n)) && Distinct(WithNode(ns, x, n))
    ensures forall p :: !Holds(ns, p, x)
  {
    var r := WithNode(ns, x, n);
    NamesSet(ns, x);
    forall p {:trigger At(r, p)} | Entry(r, p) && At(r, p).inum != 0
      ensures Allocated(r, At(r, p).inum) && (2 <= p.slot ==> At(r, p).name != "." && At(r, p).name != "..")
    {
      assert Entry(ns, p) && At(ns, p) == At(r, p);
      assert Dots(ns, rank, p.dir);
      assert !Naming(ns, p, x);
    }
    forall p {:trigger At(r, p)} | Entry(r, p) ensures Entry(ns, p) && At(ns, p) == At(r, p) {
      assert p.dir != x;
    }
    forall p ensures !Holds(ns, p, x) {
      assert Holds(ns, p, x) ==> At(ns, p).inum == x && Naming(ns, p, x);
    }
  }

  lemma UnnamedTree(ns: seq<Node>, r: seq<Node>, x: nat)
    requires Tree(ns) && |r| == |ns| && x < |ns| && (forall y :: 0 <= y < |ns| && y != x ==> r[y] == ns[y])
    requires !Live(r[x]) && (forall p :: !Holds(ns, p, x))
    requires forall p, c: nat {:trigger Holds(r, p, c)} :: Holds(r, p, c) <==> Holds(ns, p, c)
    ensures Tree(r)
  {
    forall c: nat | c < |r| && Live(r[c]) && c != ROOTINO ensures Housed(r, c) {
      assert Live(ns[c]) && Housed(ns, c);
      var p :| Holds(ns, p, c);
      assert Holds(r, p, c);
    }
  }

  // ---- unlink ------------------------------------------------------------------------

  const NOTHING := Dirent(0, "")

  /** sys_unlink's effect on a file: its entry is emptied, its link count drops. */
  function Unlinked(ns: seq<Node>, ip: nat, dp: nat, k: nat): (r: seq<Node>)
    requires ip < |ns| && dp < |ns| && k <= |ns[dp].entries|
    ensures |r| == |ns|
  {
    var m := WithEntry(ns, dp, k, NOTHING);
    WithLinks(m, ip, Short(m[ip].nlink - 1))
  }

  /** And on a directory: its parent loses the name that its ".." was. */
  function UnlinkedDir(ns: seq<Node>, ip: nat, dp: nat, k: nat): (r: seq<Node>)
    requires ip < |ns| && dp < |ns| && k <= |ns[dp].entries|
    ensures |r| == |ns|
  {
    var m := WithEntry(ns, dp, k, NOTHING);
    var m' := WithLinks(m, dp, Short(m[dp].nlink - 1));
    WithLinks(m', ip, Short(m'[ip].nlink - 1))
  }

  /** No entries but the dots. */
  predicate Empty(n: Node) {
    forall k :: 2 <= k < |n.entries| ==> n.entries[k].inum == 0
  }

  /** From ns to r, entry p went, and with it the entries of directory `gone`, if any. */
  ghost predicate Removed(ns: seq<Node>, r: seq<Node>, p: Place, gone: nat) {
    && |r| == |ns| && 2 <= p.slot && p.dir != gone
    && Entry(ns, p) && Entry(r, p) && At(r, p).inum == 0
    && (forall q: Place {:trigger Entry(r, q)} {:trigger Entry(ns, q)} :: Entry(r, q) <==> Entry(ns, q) && q.dir != gone)
    && (forall q: Place {:trigger At(r, q)} {:trigger At(ns, q)} :: q != p && Entry(r, q) && Entry(ns, q) ==> At(r, q) == At(ns, q))
    && (forall d :: 0 <= d < |ns| ==> r[d].kind == ns[d].kind && (Live(r[d]) <==> Live(ns[d]) && d != gone))
    && (forall d :: 0 <= d < |ns| && 2 <= |ns[d].entries| ==>
          2 <= |r[d].entries| && r[d].entries[0] == ns[d].entries[0] && r[d].entries[1] == ns[d].entries[1])
  }

  lemma RemovedOk(ns: seq<Node>, r: seq<Node>, p: Place, gone: nat)
    requires Removed(ns, r, p, gone) && EntriesOk(ns) && Distinct(ns)
    ensures EntriesOk(r) && Distinct(r)
  {
    forall q {:trigger At(r, q)} | Entry(r, q) && At(r, q).inum != 0 ensures Entry(ns, q) && At(ns, q) == At(r, q) {
    }
  }

  lemma RemovedHolds(ns: seq<Node>, r: seq<Node>, p: Place, gone: nat)
    requires Removed(ns, r, p, gone)
    ensures forall q, c: nat {:trigger Holds(r, q, c)} {:trigger Holds(ns, q, c)} ::
              Holds(r, q, c) <==> Holds(ns, q, c) && q != p && q.dir != gone
  {
    forall q, c: nat ensures Holds(r, q, c) <==> Holds(ns, q, c) && q != p && q.dir != gone {
      assert Entry(r, q) <==> Entry(ns, q) && q.dir != gone;
    }
  }

  lemma RemovedTree(ns: seq<Node>, r: seq<Node>, p: Place, gone: nat)
    requires Removed(ns, r, p, gone) && Tree(ns)
    requires forall c: nat {:trigger Live(ns[c])} :: c < |ns| && Live(ns[c]) && Holds(ns, p, c) ==> c == gone
    requires gone < |ns| ==> Empty(ns[gone])
    ensures Tree(r)
  {
    RemovedHolds(ns, r, p, gone);
    forall c: nat | c < |r| && Live(r[c]) && c != ROOTINO ensures Housed(r, c) {
      assert Live(ns[c]) && Housed(ns, c);
      var q :| Holds(ns, q, c);
      assert q.dir != gone;
      assert Holds(r, q, c);
    }
  }

  lemma RemovedDots(ns: seq<Node>, rank: seq<nat>, r: seq<Node>, p: Place, gone: nat)
    requires Removed(ns, r, p, gone) && |rank| == |ns|
    requires forall d {:trigger Dots(ns, rank, d)} :: 0 <= d < |ns| && Live(ns[d]) ==> Dots(ns, rank, d)
    requires forall d :: 0 <= d < |ns| && Live(ns[d]) && d != gone && 2 <= |ns[d].entries| ==> ns[d].entries[1].inum != gone
    ensures forall d {:trigger Dots(r, rank, d)} :: 0 <= d < |r| && Live(r[d]) ==> Dots(r, rank, d)
  {
    forall d | 0 <= d < |r| && Live(r[d]) ensures Dots(r, rank, d) {
      assert Dots(ns, rank, d);
    }
  }

  lemma RemovedNames(ns: seq<Node>, r: seq<Node>, p: Place, gone: nat, x: nat)
    requires Removed(ns, r, p, gone)
    ensures forall q :: q in Names(r, x) <==> q in Names(ns, x) && q != p && q.dir != gone
  {
    NamesSet(ns, x);
    NamesSet(r, x);
    forall q ensures Naming(r, q, x) <==> Naming(ns, q, x) && q != p && q.dir != gone {
      assert Entry(r, q) <==> Entry(ns, q) && q.dir != gone;
    }
  }

  /** unlink of a file always keeps the shape. */
  lemma UnlinkKeeps(ns: seq<Node>, rank: seq<nat>, ip: nat, dp: nat, k: nat)
    requires Shape(ns, rank) && Holds(ns, Place(dp, k), ip) && ip < |ns| && !ns[ip].kind.Dir?
    ensures ns[ip].nlink >= 1 && Shape(Unlinked(ns, ip, dp, k), rank)
  {
    var r, p := Unlinked(ns, ip, dp, k), Place(dp, k);
    NamedCounted(ns, rank, p);
    assert LinksCounted(ns, ip);
    UnlinkRemoves(ns, rank, ip, dp, k);
    RemovedOk(ns, r, p, |ns|);
    RemovedTree(ns, r, p, |ns|);
    NoParentOutside(ns, rank);
    RemovedDots(ns, rank, r, p, |ns|);
    forall x | 0 <= x < |r| ensures LinksCounted(r, x) {
      UnlinkCounts(ns, rank, ip, dp, k, x);
    }
  }

  lemma NoParentOutside(ns: seq<Node>, rank: seq<nat>)
    requires Shape(ns, rank)
    ensures forall d :: 0 <= d < |ns| && Live(ns[d]) && 2 <= |ns[d].entries| ==> ns[d].entries[1].inum < |ns|
  {
    forall d | 0 <= d < |ns| && Live(ns[d]) && 2 <= |ns[d].entries| ensures ns[d].entries[1].inum < |ns| {
      assert Dots(ns, rank, d);
    }
  }

  lemma UnlinkRemoves(ns: seq<Node>, rank: seq<nat>, ip: nat, dp: nat, k: nat)
    requires Shape(ns, rank) && Holds(ns, Place(dp, k), ip) && ip < |ns| && !ns[ip].kind.Dir?
    requires 1 <= ns[ip].nlink < 0x8000
    ensures Removed(ns, Unlinked(ns, ip, dp, k), Place(dp, k), |ns|)
    ensures Unlinked(ns, ip, dp, k)[ip].nlink == ns[ip].nlink - 1
  {
  }

  lemma UnlinkCounts(ns: seq<Node>, rank: seq<nat>, ip: nat, dp: nat, k: nat, x: nat)
    requires Shape(ns, rank) && Holds(ns, Place(dp, k), ip) && ip < |ns| && !ns[ip].kind.Dir? && ns[ip].nlink >= 1
    requires x < |ns|
    ensures LinksCounted(Unlinked(ns, ip, dp, k), x)
  {
    var r, p := Unlinked(ns, ip, dp, k), Place(dp, k);
    assert LinksCounted(ns, x) && LinksCounted(ns, ip);
    UnlinkRemoves(ns, rank, ip, dp, k);
    RemovedNames(ns, r, p, |ns|, x);
    NamesSet(ns, x);
    if x == ip {
      assert Naming(ns, p, ip);
      assert Names(r, x) == Names(ns, x) - {p};
    } else {
      assert Names(r, x) == Names(ns, x);
    }
  }

  /** What the live names of an empty directory and of its parent are. */
  lemma EmptyDirNames(ns: seq<Node>, rank: seq<nat>, ip: nat, dp: nat, k: nat)
    requires Shape(ns, rank) && Holds(ns, Place(dp, k), ip) && ip < |ns| && ns[ip].kind.Dir? && Empty(ns[ip])
    ensures ip != dp && ip != ROOTINO && Live(ns[ip]) && Dots(ns, rank, ip) && ns[ip].entries[1].inum == dp
    ensures Names(ns, ip) == {Place(dp, k)}
    ensures Place(ip, 1) in Names(ns, dp) && ns[dp].nlink >= 2
    ensures forall d :: 0 <= d < |ns| && Live(ns[d]) && d != ip && 2 <= |ns[d].entries| ==> ns[d].entries[1].inum != ip
  {
    NamedCounted(ns, rank, Place(dp, k));
    assert Dots(ns, rank, ip);
    NamesSet(ns, ip);
    forall d | 0 <= d < |ns| && Live(ns[d]) && d != ip && 2 <= |ns[d].entries| ensures ns[d].entries[1].inum != ip {
      NoChild(ns, rank, ip, d);
    }
    forall q ensures q in Names(ns, ip) <==> q == Place(dp, k) {
      OnlyName(ns, rank, ip, Place(dp, k), q);
    }
    ParentNames(ns, rank, ip, dp);
  }

  /** An empty directory is nobody's parent. */
  lemma NoChild(ns: seq<Node>, rank: seq<nat>, ip: nat, d: nat)
    requires Shape(ns, rank) && ip < |ns| && ip != ROOTINO && Empty(ns[ip])
    requires d < |ns| && Live(ns[d]) && d != ip && 2 <= |ns[d].entries|
    ensures ns[d].entries[1].inum != ip
  {
    assert Dots(ns, rank, d);
    if d != ROOTINO {
      assert Housed(ns, d);
      var h :| Holds(ns, h, d);
      assert ns[d].entries[1].inum == h.dir && At(ns, h).inum != 0;
    }
  }

  lemma OnlyName(ns: seq<Node>, rank: seq<nat>, ip: nat, p: Place, q: Place)
    requires Shape(ns, rank) && Holds(ns, p, ip) && ip < |ns| && ns[ip].kind.Dir? && Dots(ns, rank, ip)
    requires forall d :: 0 <= d < |ns| && Live(ns[d]) && d != ip && 2 <= |ns[d].entries| ==> ns[d].entries[1].inum != ip
    requires rank[p.dir] < rank[ip]
    ensures q in Names(ns, ip) <==> q == p
  {
    NamesSet(ns, ip);
    if Naming(ns, q, ip) {
      assert Dots(ns, rank, q.dir);
      if 2 <= q.slot {
        assert Holds(ns, q, ip);
      }
    }
    if q == p {
      assert At(ns, p).name != ".";
    }
  }

  lemma ParentNames(ns: seq<Node>, rank: seq<nat>, ip: nat, dp: nat)
    requires Shape(ns, rank) && ip < |ns| && Live(ns[ip]) && ip != ROOTINO && Dots(ns, rank, ip)
    requires ns[ip].entries[1].inum == dp
    ensures dp != ip && Place(ip, 1) in Names(ns, dp) && ns[dp].nlink >= 2
  {
    NamesSet(ns, dp);
    assert Naming(ns, Place(ip, 1), dp);
    assert LinksCounted(ns, dp);
    var q := Place(ROOTINO, 1);
    if dp == ROOTINO {
      assert Dots(ns, rank, ROOTINO);
    } else {
      assert Housed(ns, dp);
      q :| Holds(ns, q, dp);
      assert At(ns, q).name != ".";
    }
    assert Naming(ns, q, dp);
    assert {Place(ip, 1), q} <= Names(ns, dp);
    TwoIn(Names(ns, dp), Place(ip, 1), q);
  }

  lemma TwoIn(s: set<Place>, p: Place, q: Place)
    requires p in s && q in s && p != q
    ensures |s| >= 2
  {
    assert |s - {p}| == |s| - 1;
    assert q in s - {p};
  }

  /** unlink of an empty directory always keeps the shape. */
  lemma UnlinkDirKeeps(ns: seq<Node>, rank: seq<nat>, ip: nat, dp: nat, k: nat)
    requires Shape(ns, rank) && Holds(ns, Place(dp, k), ip) && ip < |ns| && ns[ip].kind.Dir? && Empty(ns[ip])
    ensures ns[ip].nlink == 1
    ensures Shape(UnlinkedDir(ns, ip, dp, k), rank) && UnlinkedDir(ns, ip, dp, k)[ip].nlink == 0
  {
    var r, p := UnlinkedDir(ns, ip, dp, k), Place(dp, k);
    EmptyDirNames(ns, rank, ip, dp, k);
    assert LinksCounted(ns, ip) && LinksCounted(ns, dp);
    UnlinkDirRemoves(ns, rank, ip, dp, k);
    RemovedOk(ns, r, p, ip);
    RemovedTree(ns, r, p, ip);
    RemovedDots(ns, rank, r, p, ip);
    forall x | 0 <= x < |r| ensures LinksCounted(r, x) {
      UnlinkDirCounts(ns, rank, ip, dp, k, x);
    }
  }

  lemma UnlinkDirRemoves(ns: seq<Node>, rank: seq<nat>, ip: nat, dp: nat, k: nat)
    requires Shape(ns, rank) && Holds(ns, Place(dp, k), ip) && ip < |ns| && ns[ip].kind.Dir? && ip != dp
    requires ns[ip].nlink == 1 && 2 <= ns[dp].nlink < 0x8000
    ensures Removed(ns, UnlinkedDir(ns, ip, dp, k), Place(dp, k), ip)
    ensures UnlinkedDir(ns, ip, dp, k)[ip].nlink == 0
    ensures UnlinkedDir(ns, ip, dp, k)[dp].nlink == ns[dp].nlink - 1
  {
  }

  lemma UnlinkDirCounts(ns: seq<Node>, rank: seq<nat>, ip: nat, dp: nat, k: nat, x: nat)
    requires Shape(ns, rank) && Holds(ns, Place(dp, k), ip) && ip < |ns| && ns[ip].kind.Dir? && Empty(ns[ip])
    requires x < |ns|
    ensures LinksCounted(UnlinkedDir(ns, ip, dp, k), x)
  {
    var r, p := UnlinkedDir(ns, ip, dp, k), Place(dp, k);
    EmptyDirNames(ns, rank, ip, dp, k);
    assert LinksCounted(ns, x) && LinksCounted(ns, ip) && LinksCounted(ns, dp);
    UnlinkDirRemoves(ns, rank, ip, dp, k);
    RemovedNames(ns, r, p, ip, x);
    NamesSet(ns, x);
    assert Dots(ns, rank, ip);
    if x == ip {
      assert Names(r, x) == {};
    } else if x == dp {
      forall q ensures q in Names(r, x) <==> q in Names(ns, x) && q != Place(ip, 1) {
        EmptySlots(ns, rank, ip, q, x);
      }
      assert Names(r, x) == Names(ns, x) - {Place(ip, 1)};
    } else {
      forall q ensures q in Names(r, x) <==> q in Names(ns, x) {
        EmptySlots(ns, rank, ip, q, x);
      }
      assert Names(r, x) == Names(ns, x);
    }
  }

  /** An empty directory names only itself and its parent. */
  lemma EmptySlots(ns: seq<Node>, rank: seq<nat>, ip: nat, q: Place, x: nat)
    requires ip < |ns| && |rank| == |ns| && Live(ns[ip]) && Empty(ns[ip]) && Dots(ns, rank, ip)
    ensures q.dir == ip && q in Names(ns, x) ==> q == Place(ip, 1) && x == ns[ip].entries[1].inum
  {
    NamesSet(ns, x);
  }

  // ---- create ------------------------------------------------------------------------

  /** create of a directory: its dots, its parent's new link, and its entry there. */
  function MadeDir(ns: seq<Node>, ip: nat, dp: nat, k: nat, name: Name): (r: seq<Node>)
    requires ip < |ns| && dp < |ns| && ip != dp && k <= |ns[dp].entries|
    ensures |r| == |ns|
  {
    var m := WithNode(ns, ip, Node(Dir, 1, [Dirent(ip, "."), Dirent(dp, "..")]));
    WithEntry(WithLinks(m, dp, Short(ns[dp].nlink + 1)), dp, k, Dirent(ip, name))
  }

  /** From ns to r, directory ip came to be, with its dots, and entry p naming it. */
  ghost predicate Grew(ns: seq<Node>, r: seq<Node>, ip: nat, p: Place, name: Name) {
    && |r| == |ns| && 0 < ip < |ns| && p.dir < |ns| && ip != p.dir && 2 <= p.slot && name != "." && name != ".."
    && ns[ip].kind.Free? && Live(r[ip]) && r[ip].entries == [Dirent(ip, "."), Dirent(p.dir, "..")]
    && Live(ns[p.dir]) && (Entry(ns, p) ==> At(ns, p).inum == 0) && Entry(r, p) && At(r, p) == Dirent(ip, name)
    && (forall q: Place {:trigger Entry(r, q)} {:trigger Entry(ns, q)} :: q.dir != ip && q != p ==> (Entry(r, q) <==> Entry(ns, q)))
    && (forall q: Place {:trigger At(r, q)} {:trigger At(ns, q)} ::
          q.dir != ip && q != p && Entry(r, q) && Entry(ns, q) ==> At(r, q) == At(ns, q))
    && (forall d :: 0 <= d < |ns| && d != ip ==> r[d].kind == ns[d].kind && (Live(r[d]) <==> Live(ns[d])))
    && (forall d :: 0 <= d < |ns| && d != ip && 2 <= |ns[d].entries| ==>
          2 <= |r[d].entries| && r[d].entries[0] == ns[d].entries[0] && r[d].entries[1] == ns[d].entries[1])
  }

  ghost predicate Fresh(ns: seq<Node>, rank: seq<nat>, ip: nat, dp: nat, k: nat, name: Name) {
    Roomy(ns, rank, dp, k, name) && 0 < ip < |ns| && ns[ip].kind.Free?
  }

  lemma MadeDirGrew(ns: seq<Node>, rank: seq<nat>, ip: nat, dp: nat, k: nat, name: Name)
    requires Fresh(ns, rank, ip, dp, k, name) && ns[dp].nlink < 0x7FFF
    ensures ip != dp && Grew(ns, MadeDir(ns, ip, dp, k, name), ip, Place(dp, k), name)
  {
    RoomyPlace(ns, rank, dp, k, name);
    ShortFits(ns[dp].nlink);
  }

  /** Nothing names a free inode. */
  lemma FreeUnnamed(ns: seq<Node>, rank: seq<nat>, ip: nat)
    requires Shape(ns, rank) && 0 < ip < |ns| && ns[ip].kind.Free?
    ensures Names(ns, ip) == {} && forall q :: !Holds(ns, q, ip)
    ensures forall q :: Entry(ns, q) ==> At(ns, q).inum != ip && q.dir != ip
  {
    NamesSet(ns, ip);
    forall q | Entry(ns, q) ensures At(ns, q).inum != ip {
      assert At(ns, q).inum != 0 ==> Allocated(ns, At(ns, q).inum);
    }
  }

  lemma GrewHolds(ns: seq<Node>, r: seq<Node>, ip: nat, p: Place, name: Name)
    requires Grew(ns, r, ip, p, name)
    ensures forall q, c: nat {:trigger Holds(r, q, c)} {:trigger Holds(ns, q, c)} ::
              Holds(r, q, c) <==> Holds(ns, q, c) || (q == p && c == ip)
  {
    forall q, c: nat ensures Holds(r, q, c) <==> Holds(ns, q, c) || (q == p && c == ip) {
      assert q.dir != ip && q != p ==> (Entry(r, q) <==> Entry(ns, q));
    }
  }

  lemma GrewTree(ns: seq<Node>, r: seq<Node>, ip: nat, p: Place, name: Name)
    requires Grew(ns, r, ip, p, name) && Tree(ns) && ip != ROOTINO && forall q :: !Holds(ns, q, ip)
    ensures Tree(r)
  {
    GrewHolds(ns, r, ip, p, name);
    forall c: nat | c < |r| && Live(r[c]) && c != ROOTINO ensures Housed(r, c) {
      if c == ip {
        assert Holds(r, p, ip);
      } else {
        assert Live(ns[c]) && Housed(ns, c);
        var q :| Holds(ns, q, c);
        assert Holds(r, q, c);
      }
    }
  }

  lemma GrewEntries(ns: seq<Node>, r: seq<Node>, ip: nat, p: Place, name: Name)
    requires Grew(ns, r, ip, p, name) && EntriesOk(ns) && Distinct(ns) && Absent(ns[p.dir].entries, name)
    ensures EntriesOk(r) && Distinct(r)
  {
    forall q: Place {:trigger At(r, q)} | Entry(r, q) && q != p && q.dir != ip ensures Entry(ns, q) && At(ns, q) == At(r, q) {
    }
    forall q {:trigger At(r, q)} | Entry(r, q) && At(r, q).inum != 0
      ensures Allocated(r, At(r, q).inum) && (2 <= q.slot ==> At(r, q).name != "." && At(r, q).name != "..")
    {
    }
    forall q, s {:trigger At(r, q), At(r, s)} |
      Entry(r, q) && Entry(r, s) && q.dir == s.dir && At(r, q).inum != 0 && At(r, s).inum != 0 && At(r, q).name == At(r, s).name
      ensures q == s
    {
    }
  }

  lemma GrewDots(ns: seq<Node>, rank: seq<nat>, r: seq<Node>, rank': seq<nat>, ip: nat, p: Place, name: Name)
    requires Grew(ns, r, ip, p, name) && |rank| == |ns| && ip != ROOTINO && rank' == rank[ip := rank[p.dir] + 1]
    requires forall d {:trigger Dots(ns, rank, d)} :: 0 <= d < |ns| && Live(ns[d]) ==> Dots(ns, rank, d)
    ensures forall d {:trigger Dots(r, rank', d)} :: 0 <= d < |r| && Live(r[d]) ==> Dots(r, rank', d)
  {
    forall d | 0 <= d < |r| && Live(r[d]) ensures Dots(r, rank', d) {
      if d != ip {
        assert Dots(ns, rank, d);
      }
    }
  }

  lemma GrewNames(ns: seq<Node>, rank: seq<nat>, r: seq<Node>, ip: nat, p: Place, name: Name, x: nat)
    requires Grew(ns, r, ip, p, name) && Shape(ns, rank)
    ensures Names(r, x) == Names(ns, x) + (if x == ip then {p} else if x == p.dir then {Place(ip, 1)} else {})
    ensures p !in Names(ns, x) && Place(ip, 1) !in Names(ns, x)
  {
    NamesSet(ns, x);
    NamesSet(r, x);
    forall q: Place ensures Naming(r, q, x) <==> Naming(ns, q, x) || (x == ip && q == p) || (x == p.dir && q == Place(ip, 1)) {
      assert q.dir != ip && q != p ==> (Entry(r, q) <==> Entry(ns, q));
    }
  }

  /** create of a directory keeps the shape exactly when the parent's nlink does not wrap
      around. */
  lemma MakeDirKeeps(ns: seq<Node>, rank: seq<nat>, ip: nat, dp: nat, k: nat, name: Name)
    requires Fresh(ns, rank, ip, dp, k, name)
    ensures ip != dp && ns[dp].nlink <= 0x7FFF
    ensures ns[dp].nlink < 0x7FFF ==> Shape(MadeDir(ns, ip, dp, k, name), rank[ip := rank[dp] + 1])
    ensures ns[dp].nlink == 0x7FFF ==> forall rank' :: !Shape(MadeDir(ns, ip, dp, k, name), rank')
  {
    var r, p := MadeDir(ns, ip, dp, k, name), Place(dp, k);
    assert LinksCounted(ns, dp);
    if ns[dp].nlink < 0x7FFF {
      MadeDirGrew(ns, rank, ip, dp, k, name);
      FreeUnnamed(ns, rank, ip);
      GrewTree(ns, r, ip, p, name);
      GrewEntries(ns, r, ip, p, name);
      GrewDots(ns, rank, r, rank[ip := rank[dp] + 1], ip, p, name);
      assert r[0].kind.Free? && Live(r[ROOTINO]);
      forall x | 0 <= x < |r| ensures LinksCounted(r, x) {
        MakeDirCounts(ns, rank, ip, dp, k, name, x);
      }
    } else {
      assert Short(0x8000) == -0x8000;
      assert r[dp].nlink == -0x8000;
      forall rank': seq<nat> ensures !Shape(r, rank') {
        assert !LinksCounted(r, dp);
      }
    }
  }

  lemma MakeDirCounts(ns: seq<Node>, rank: seq<nat>, ip: nat, dp: nat, k: nat, name: Name, x: nat)
    requires Fresh(ns, rank, ip, dp, k, name) && ns[dp].nlink < 0x7FFF && x < |ns|
    ensures LinksCounted(MadeDir(ns, ip, dp, k, name), x)
  {
    var r, p := MadeDir(ns, ip, dp, k, name), Place(dp, k);
    MadeDirGrew(ns, rank, ip, dp, k, name);
    FreeUnnamed(ns, rank, ip);
    GrewNames(ns, rank, r, ip, p, name, x);
    assert LinksCounted(ns, x);
    ShortFits(ns[dp].nlink);
    if x != ip && x != dp {
      assert Names(ns, x) + {} == Names(ns, x);
    } else if x == ip {
      assert {} + {p} == {p};
    }
  }

  // ---- what the shape means -----------------------------------------------------------

  /** The directory reached from d by n steps through "..". */
  ghost function Up(ns: seq<Node>, rank: seq<nat>, d: nat, n: nat): nat
    requires Shape(ns, rank) && d < |ns| && Live(ns[d])
    ensures Up(ns, rank, d, n) < |ns| && Live(ns[Up(ns, rank, d, n)])
    decreases n
  {
    assert Dots(ns, rank, d);
    if n == 0 then d else Up(ns, rank, ns[d].entries[1].inum, n - 1)
  }

  /** From every live directory ".." leads to the root. */
  lemma {:induction false} ReachesRoot(ns: seq<Node>, rank: seq<nat>, d: nat)
    requires Shape(ns, rank) && d < |ns| && Live(ns[d])
    ensures exists n: nat :: Up(ns, rank, d, n) == ROOTINO
    decreases rank[d]
  {
    assert Dots(ns, rank, d);
    if d == ROOTINO {
      assert Up(ns, rank, d, 0) == ROOTINO;
    } else {
      ReachesRoot(ns, rank, ns[d].entries[1].inum);
      var n: nat :| Up(ns, rank, ns[d].entries[1].inum, n) == ROOTINO;
      assert Up(ns, rank, d, n + 1) == ROOTINO;
    }
  }

  ghost function Children(ns: seq<Node>, d: nat): set<nat> {
    set c: nat | c < |ns| && Live(ns[c]) && c != ROOTINO && 2 <= |ns[c].entries| && ns[c].entries[1].inum == d
  }

  /** A directory's link count is one more than the number of its subdirectories. */
  lemma DirLinks(ns: seq<Node>, rank: seq<nat>, d: nat)
    requires Shape(ns, rank) && d < |ns| && Live(ns[d])
    ensures ns[d].nlink == 1 + |Children(ns, d)|
  {
    assert LinksCounted(ns, d) && Dots(ns, rank, d);
    NamesSet(ns, d);
    var home := Place(ROOTINO, 1);
    if d != ROOTINO {
      assert Housed(ns, d);
      home :| Holds(ns, home, d);
      assert At(ns, home).name != ".";
    } else {
      assert Dots(ns, rank, ROOTINO);
    }
    var ups := set c | c in Children(ns, d) :: Place(c, 1);
    assert forall p: Place :: p in ups <==> p.dir in Children(ns, d) && p == Place(p.dir, 1);
    SameSize(Children(ns, d), ups);
    forall p ensures p in Names(ns, d) <==> p == home || p in ups {
      NamesOfDir(ns, rank, d, home, p);
      assert p in ups <==> p.dir in Children(ns, d) && p == Place(p.dir, 1);
    }
    assert Names(ns, d) == ups + {home};
  }

  lemma NamesOfDir(ns: seq<Node>, rank: seq<nat>, d: nat, home: Place, p: Place)
    requires Shape(ns, rank) && d < |ns| && Live(ns[d])
    requires if d == ROOTINO then home == Place(ROOTINO, 1) else Holds(ns, home, d)
    ensures p in Names(ns, d) <==> p == home || (p.dir in Children(ns, d) && p.slot == 1)
  {
    NamesSet(ns, d);
    assert ns[0].kind.Free? && Dots(ns, rank, ROOTINO);
    if Entry(ns, p) {
      assert Dots(ns, rank, p.dir);
      assert At(ns, p) == ns[p.dir].entries[p.slot];
      if 2 <= p.slot {
        assert At(ns, p).inum != 0 ==> At(ns, p).name != ".";
        assert Naming(ns, p, d) ==> Holds(ns, p, d);
      } else if p.slot == 1 {
        assert Naming(ns, p, d) <==> At(ns, p).inum == d;
      }
    }
  }

  lemma {:induction false} SameSize(cs: set<nat>, ps: set<Place>)
    requires forall p: Place :: p in ps <==> p.dir in cs && p == Place(p.dir, 1)
    ensures |ps| == |cs|
  {
    if cs == {} {
      assert ps == {};
    } else {
      var c :| c in cs;
      SameSize(cs - {c}, ps - {Place(c, 1)});
      assert Place(c, 1) in ps;
    }
  }

  // ---- how far link counts can go ------------------------------------------------------

  /** No directory is larger than the largest file. */
  predicate Sized(ns: seq<Node>) {
    forall d :: 0 <= d < |ns| ==> |ns[d].entries| <= MAXENTRIES
  }

  /** The inodes that the entries after the dots name, among the first n entries. */
  ghost function Named(es: seq<Dirent>, n: nat): (r: set<nat>)
    requires n <= |es|
    ensures |r| <= if n <= 2 then 0 else n - 2
    ensures forall k :: 2 <= k < n ==> es[k].inum in r
  {
    if n <= 2 then {} else Named(es, n - 1) + {es[n - 1].inum}
  }

  /** Each subdirectory takes an entry of its own, so a directory that is no larger than
      the largest file never comes near the end of a short: create always keeps the shape. */
  lemma DirLinksBound(ns: seq<Node>, rank: seq<nat>, d: nat)
    requires Shape(ns, rank) && d < |ns| && Live(ns[d])
    ensures ns[d].nlink <= |ns[d].entries| - 1
    ensures Sized(ns) ==> ns[d].nlink < 0x7FFF
    ensures |ns| <= 0x7FFF ==> ns[d].nlink < 0x7FFF
  {
    DirLinks(ns, rank, d);
    assert Dots(ns, rank, d);
    var es := ns[d].entries;
    forall c | c in Children(ns, d) ensures c in Named(es, |es|) {
      assert Housed(ns, c);
      var p :| Holds(ns, p, c);
      assert p.dir == d && es[p.slot].inum == c;
    }
    SubsetSize(Children(ns, d), Named(es, |es|));
    ChildrenBound(ns, rank, d, |ns|);
  }

  /** Neither inode 0 nor the root is anybody's subdirectory. */
  lemma ChildrenBound(ns: seq<Node>, rank: seq<nat>, d: nat, n: nat)
    requires Shape(ns, rank) && d < |ns| && n == |ns|
    ensures |Children(ns, d)| <= n - 2
  {
    assert {0, ROOTINO} <= Below(n) && |{0, ROOTINO}| == 2;
    assert Below(n) - {0, ROOTINO} + {0, ROOTINO} == Below(n);
    SubsetSize(Children(ns, d), Below(n) - {0, ROOTINO});
  }

  ghost function Below(n: nat): (r: set<nat>)
    ensures |r| == n && forall c: nat :: c in r <==> c < n
  {
    if n == 0 then {} else Below(n - 1) + {n - 1}
  }

  /** The number of entries of the live directories below n. */
  ghost function Entries(ns: seq<Node>, n: nat): nat
    requires n <= |ns|
  {
    if n == 0 then 0 else Entries(ns, n - 1) + if Live(ns[n - 1]) then |ns[n - 1].entries| else 0
  }

  ghost function Slots(d: nat, n: nat): (r: set<Place>)
    ensures |r| <= n && forall p :: p in r <==> p.dir == d && p.slot < n
  {
    if n == 0 then {} else Slots(d, n - 1) + {Place(d, n - 1)}
  }

  ghost function Places(ns: seq<Node>, n: nat): (r: set<Place>)
    requires n <= |ns|
    ensures |r| <= Entries(ns, n) && forall p :: p in r <==> p.dir < n && Entry(ns, p)
  {
    if n == 0 then {}
    else Places(ns, n - 1) + if Live(ns[n - 1]) then Slots(n - 1, |ns[n - 1].entries|) else {}
  }

  /** A file has no more links than there are entries, so fewer than 32767 entries in all
      directories together keep link from wrapping any count around. */
  lemma LinksBound(ns: seq<Node>, rank: seq<nat>, x: nat)
    requires Shape(ns, rank) && x < |ns|
    ensures ns[x].nlink <= Entries(ns, |ns|)
  {
    assert LinksCounted(ns, x);
    SubsetSize(Names(ns, x), Places(ns, |ns|));
  }

  /** The data blocks that the live directories below n take up. */
  ghost function DirBlocks(ns: seq<Node>, n: nat): (b: nat)
    requires n <= |ns|
    ensures Entries(ns, n) <= 32 * b
  {
    if n == 0 then 0 else DirBlocks(ns, n - 1) + if Live(ns[n - 1]) then (|ns[n - 1].entries| + 31) / 32 else 0
  }

  /** On the image that mkfs builds, with 941 data blocks, no count ever wraps around. */
  lemma MkfsNeverWraps(ns: seq<Node>, rank: seq<nat>, x: nat)
    requires Shape(ns, rank) && x < |ns| && DirBlocks(ns, |ns|) <= 941
    ensures ns[x].nlink < 0x7FFF
  {
    LinksBound(ns, rank, x);
  }
}
