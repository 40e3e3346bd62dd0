/** Directories and link counts (kernel/fs.c and kernel/sysfile.c), over directories as sequences of
    entries.  Paths are resolved: operations take the directory and the last name of the path. */
module Directories {
  import opened Prelude

  const DIRSIZ := 14
  const ROOT := 1

  /** An entry with inode number 0 is empty. */
  datatype Entry = Entry(inum: nat, name: string)

  type Dir = seq<Entry>

  /** What is kept and compared of a name: strncpy and strncmp stop at DIRSIZ characters. */
  function Cut(name: string): (r: string)
    ensures r <= name && |r| == (if |name| < 14 then |name| else 14) && (|name| <= DIRSIZ ==> r == name)
  {
    if |name| <= DIRSIZ then name else name[..DIRSIZ]
  }

  // ---------- one directory ----------

  /** No name is in use twice. */
  ghost predicate UniqueNames(d: Dir) {
    forall i, j | 0 <= i < j < |d| && d[i].inum != 0 && d[j].inum != 0 :: d[i].name != d[j].name
  }

  /** The directory as a map: `name` leads to `inum`. */
  ghost predicate Maps(d: Dir, name: string, inum: nat) {
    exists i :: 0 <= i < |d| && d[i].inum != 0 && d[i].inum == inum && d[i].name == name
  }

  /** The first entry in use that has the name. */
  method DirLookup(d: Dir, name: string) returns (r: Option<nat>)
    ensures r.Some? ==> && r.value < |d| && d[r.value].inum != 0 && d[r.value].name == Cut(name)
                        && (forall i | 0 <= i < r.value && d[i].inum != 0 :: d[i].name != Cut(name))
                        && Maps(d, Cut(name), d[r.value].inum)
    ensures r.None? <==> forall x :: !Maps(d, Cut(name), x)
  {
    var off := 0;
    while off < |d|
      invariant off <= |d| && forall i | 0 <= i < off && d[i].inum != 0 :: d[i].name != Cut(name)
    {
      if d[off].inum != 0 && d[off].name == Cut(name) {
        assert Maps(d, Cut(name), d[off].inum);
        return Some(off);
      }
      off := off + 1;
    }
    return None;
  }

  /** The directory with an entry stored at `k`, or added at the end. */
  function Store(d: Dir, k: nat, e: Entry): (r: Dir)
    requires k <= |d|
  {
    if k < |d| then d[k := e] else d + [e]
  }

  /** Adds a name that is not there, in the first empty entry `k` or behind the others. */
  method DirLink(d: Dir, name: string, inum: nat) returns (ok: bool, d': Dir, ghost k: nat)
    ensures ok <==> forall x :: !Maps(d, Cut(name), x)
    ensures !ok ==> d' == d
    ensures ok ==> && k <= |d| && (k < |d| ==> d[k].inum == 0) && (forall i | 0 <= i < k :: d[i].inum != 0)
                   && d' == Store(d, k, Entry(inum, Cut(name)))
                   && forall i | 0 <= i < |d| && d[i].inum != 0 :: d[i].name != Cut(name)
  {
    var found := DirLookup(d, name);
    if found.Some? {
      return false, d, 0;
    }
    var off := 0;
    while off < |d|
      invariant off <= |d| && forall i | 0 <= i < off :: d[i].inum != 0
    {
      if d[off].inum == 0 {
        break;
      }
      off := off + 1;
    }
    forall i | 0 <= i < |d| && d[i].inum != 0 ensures d[i].name != Cut(name) {
      assert !Maps(d, Cut(name), d[i].inum);
    }
    return true, Store(d, off, Entry(inum, Cut(name))), off;
  }

  /** Linking a new name adds it to the map and changes nothing else. */
  lemma LinkMaps(d: Dir, k: nat, name: string, inum: nat)
    requires k <= |d| && (k < |d| ==> d[k].inum == 0) && inum != 0
    requires forall i | 0 <= i < |d| && d[i].inum != 0 :: d[i].name != Cut(name)
    ensures UniqueNames(d) ==> UniqueNames(Store(d, k, Entry(inum, Cut(name))))
    ensures forall n, x :: Maps(Store(d, k, Entry(inum, Cut(name))), n, x)
                           <==> Maps(d, n, x) || (n == Cut(name) && x == inum)
  {
    var e := Store(d, k, Entry(inum, Cut(name)));
    forall n, x ensures Maps(e, n, x) <==> Maps(d, n, x) || (n == Cut(name) && x == inum) {
      if Maps(d, n, x) {
        var i :| 0 <= i < |d| && d[i].inum != 0 && d[i].inum == x && d[i].name == n;
        assert e[i] == d[i];
      }
      if n == Cut(name) && x == inum {
        assert e[k] == Entry(inum, Cut(name));
      }
    }
  }

  /** Clearing an entry takes its name out of the map and changes nothing else. */
  lemma UnlinkMaps(d: Dir, k: nat)
    requires UniqueNames(d) && k < |d| && d[k].inum != 0
    ensures UniqueNames(d[k := Entry(0, "")])
    ensures forall n, x :: Maps(d[k := Entry(0, "")], n, x) <==> Maps(d, n, x) && n != d[k].name
  {
    var e := d[k := Entry(0, "")];
    forall n, x ensures Maps(e, n, x) <==> Maps(d, n, x) && n != d[k].name {
      if Maps(d, n, x) && n != d[k].name {
        var i :| 0 <= i < |d| && d[i].inum != 0 && d[i].inum == x && d[i].name == n;
        assert e[i] == d[i];
      }
    }
  }

  /** Nothing but the first two entries. */
  method IsDirEmpty(d: Dir) returns (empty: bool)
    ensures empty <==> forall i | 2 <= i < |d| :: d[i].inum == 0
  {
    var off := 2;
    while off < |d|
      invariant forall i | 2 <= i < off && i < |d| :: d[i].inum == 0
    {
      if d[off].inum != 0 {
        return false;
      }
      off := off + 1;
    }
    return true;
  }

  // ---------- the tree ----------

  datatype Kind = Free | File | Directory | Device

  datatype Node = Node(kind: Kind, nlink: int, dir: Dir)

  /** A directory that some name leads to, or the root. */
  predicate Linked(n: Node) {
    n.kind.Directory? && n.nlink > 0
  }

  /** Entry `k` of the linked directory `d` names inode `i`, and is not the directory's own ".". */
  predicate NamesAt(nodes: seq<Node>, i: nat, d: nat, k: nat) {
    && d < |nodes| && Linked(nodes[d]) && k < |nodes[d].dir|
    && i != 0 && nodes[d].dir[k].inum == i && nodes[d].dir[k].name != "."
  }

  ghost function Names(nodes: seq<Node>, i: nat): (s: set<(nat, nat)>) {
    set d: nat, k: nat | d < |nodes| && k < |nodes[d].dir| && NamesAt(nodes, i, d, k) :: (d, k)
  }

  lemma InNames(nodes: seq<Node>, i: nat, d: nat, k: nat)
    ensures (d, k) in Names(nodes, i) <==> NamesAt(nodes, i, d, k)
  {
  }

  ghost predicate EntryOk(nodes: seq<Node>, at: map<nat, nat>, d: nat, k: nat, e: Entry) {
    && e.inum < |nodes| && !nodes[e.inum].kind.Free? && e.name != "." && e.name != ".." && |e.name| <= DIRSIZ
    && (nodes[e.inum].kind.Directory? ==>
          && Linked(nodes[e.inum]) && e.inum != ROOT && e.inum != d && e.inum in at && at[e.inum] == k
          && |nodes[e.inum].dir| >= 2 && nodes[e.inum].dir[1].inum == d)
  }

  /** A linked directory: "." and ".." come first, names are in use once, a directory among its entries
      has it as parent, and its own parent has it at `at`. */
  ghost predicate DirOk(nodes: seq<Node>, at: map<nat, nat>, d: nat)
    requires d < |nodes|
  {
    var dir := nodes[d].dir;
    && |dir| >= 2 && dir[0] == Entry(d, ".") && dir[1].name == ".." && d != 0
    && 0 < dir[1].inum < |nodes| && Linked(nodes[dir[1].inum]) && UniqueNames(dir)
    && (forall k | 2 <= k < |dir| && dir[k].inum != 0 :: EntryOk(nodes, at, d, k, dir[k]))
    && (if d == ROOT then dir[1].inum == ROOT
        else dir[1].inum != d && d in at && HasAt(nodes[dir[1].inum].dir, at[d], d))
  }

  predicate HasAt(dir: Dir, k: nat, i: nat) {
    2 <= k < |dir| && dir[k].inum == i
  }

  /** Every link count is the number of names. */
  ghost predicate CountsOk(nodes: seq<Node>, at: map<nat, nat>) {
    && |nodes| > ROOT && Linked(nodes[ROOT])
    && (forall d: nat {:trigger DirOk(nodes, at, d)} | d < |nodes| && Linked(nodes[d]) :: DirOk(nodes, at, d))
    && (forall i: nat | 0 < i < |nodes| :: nodes[i].nlink == |Names(nodes, i)|)
    && (forall i: nat | i < |nodes| && nodes[i].kind.Free? :: nodes[i].nlink == 0)
  }

  /** An unlinked directory, which a process may still have open or be in, holds nothing but the two dots. */
  ghost predicate Hollow(nodes: seq<Node>, d: nat)
    requires d < |nodes|
  {
    var dir := nodes[d].dir;
    && |dir| >= 2 && dir[0] == Entry(d, ".") && dir[1].name == ".." && dir[1].inum < |nodes|
    && forall k | 2 <= k < |dir| :: dir[k].inum == 0
  }

  ghost predicate AllHollow(nodes: seq<Node>) {
    forall d: nat | d < |nodes| && nodes[d].kind.Directory? && nodes[d].nlink <= 0 :: Hollow(nodes, d)
  }

  ghost predicate TreeOk(nodes: seq<Node>, at: map<nat, nat>) {
    CountsOk(nodes, at) && AllHollow(nodes)
  }

  /** An inode without links is named nowhere. */
  lemma NoNames(nodes: seq<Node>, at: map<nat, nat>, i: nat, d: nat, k: nat)
    requires CountsOk(nodes, at) && 0 < i < |nodes| && nodes[i].nlink == 0
    ensures !NamesAt(nodes, i, d, k)
  {
    InNames(nodes, i, d, k);
    assert Names(nodes, i) == {};
  }

  /** A name is a link: unlink never meets an inode without one. */
  lemma HasLink(nodes: seq<Node>, at: map<nat, nat>, i: nat, d: nat, k: nat)
    requires CountsOk(nodes, at) && 0 < i < |nodes| && NamesAt(nodes, i, d, k)
    ensures nodes[i].nlink > 0
  {
    if nodes[i].nlink == 0 {
      NoNames(nodes, at, i, d, k);
    }
  }

  lemma AddName(s: set<(nat, nat)>, t: set<(nat, nat)>, x: (nat, nat))
    requires x !in s && t == s + {x}
    ensures |t| == |s| + 1
  {
  }

  /** Nothing that linked directories rely on was taken away. */
  ghost predicate Grows(nodes: seq<Node>, nodes': seq<Node>, at: map<nat, nat>, at': map<nat, nat>) {
    && |nodes'| == |nodes|
    && (forall i: nat | i < |nodes| && !nodes[i].kind.Free? :: nodes'[i].kind == nodes[i].kind)
    && (forall i: nat | i < |nodes| && Linked(nodes[i]) ::
          && Linked(nodes'[i]) && |nodes'[i].dir| >= |nodes[i].dir|
          && forall k | 0 <= k < |nodes[i].dir| && nodes[i].dir[k].inum != 0 :: nodes'[i].dir[k] == nodes[i].dir[k])
    && (forall i | i in at :: i in at' && at'[i] == at[i])
  }

  lemma DirKept(nodes: seq<Node>, nodes': seq<Node>, at: map<nat, nat>, at': map<nat, nat>, d: nat)
    requires d < |nodes| && CountsOk(nodes, at) && Linked(nodes[d]) && Grows(nodes, nodes', at, at')
             && nodes'[d].dir == nodes[d].dir
    ensures DirOk(nodes', at', d)
  {
    assert DirOk(nodes, at, d);
    forall k | 2 <= k < |nodes[d].dir| && nodes[d].dir[k].inum != 0
      ensures EntryOk(nodes', at', d, k, nodes[d].dir[k])
    {
      EntryKept(nodes, nodes', at, at', d, k, nodes[d].dir[k]);
    }
  }

  lemma EntryKept(nodes: seq<Node>, nodes': seq<Node>, at: map<nat, nat>, at': map<nat, nat>, d: nat, k: nat, e: Entry)
    requires EntryOk(nodes, at, d, k, e) && Grows(nodes, nodes', at, at') && d != 0
    ensures EntryOk(nodes', at', d, k, e)
  {
  }

  /** A directory that got one more entry. */
  lemma DirGrown(nodes: seq<Node>, nodes': seq<Node>, at: map<nat, nat>, at': map<nat, nat>, d: nat, k: nat, e: Entry)
    requires d < |nodes| && CountsOk(nodes, at) && Linked(nodes[d]) && Grows(nodes, nodes', at, at')
    requires k <= |nodes[d].dir| && (k < |nodes[d].dir| ==> nodes[d].dir[k].inum == 0)
    requires nodes'[d].dir == Store(nodes[d].dir, k, e) && e.inum != 0 && EntryOk(nodes', at', d, k, e)
    requires forall i | 0 <= i < |nodes[d].dir| && nodes[d].dir[i].inum != 0 :: nodes[d].dir[i].name != e.name
    ensures DirOk(nodes', at', d)
  {
    assert DirOk(nodes, at, d);
    var dir, dir' := nodes[d].dir, nodes'[d].dir;
    forall x | 2 <= x < |dir'| && dir'[x].inum != 0 ensures EntryOk(nodes', at', d, x, dir'[x]) {
      if x != k {
        EntryKept(nodes, nodes', at, at', d, x, dir[x]);
      }
    }
  }

  // ---------- link ----------

  /** Another name for a file, in a linked directory. */
  lemma LinkNames(nodes: seq<Node>, ip: nat, dp: nat, k: nat, e: Entry, nodes': seq<Node>, i: nat)
    requires 0 < ip < |nodes| && dp < |nodes| && ip != dp && Linked(nodes[dp]) && !nodes[ip].kind.Directory?
    requires k <= |nodes[dp].dir| && (k < |nodes[dp].dir| ==> nodes[dp].dir[k].inum == 0) && e.inum == ip
             && e.name != "."
    requires nodes' == nodes[ip := nodes[ip].(nlink := nodes[ip].nlink + 1)]
                            [dp := nodes[dp].(dir := Store(nodes[dp].dir, k, e))]
    ensures |Names(nodes', i)| == |Names(nodes, i)| + if i == ip then 1 else 0
  {
    hide Names;
    forall p: (nat, nat) ensures p in Names(nodes', i) <==> p in Names(nodes, i) || (i == ip && p == (dp, k)) {
      InNames(nodes, i, p.0, p.1);
      InNames(nodes', i, p.0, p.1);
    }
    InNames(nodes, ip, dp, k);
    if i == ip {
      AddName(Names(nodes, i), Names(nodes', i), (dp, k));
    } else {
      assert Names(nodes', i) == Names(nodes, i);
    }
  }

  lemma LinkGrows(nodes: seq<Node>, at: map<nat, nat>, ip: nat, dp: nat, k: nat, e: Entry, nodes': seq<Node>)
    requires ip < |nodes| && dp < |nodes| && ip != dp && k <= |nodes[dp].dir|
             && (k < |nodes[dp].dir| ==> nodes[dp].dir[k].inum == 0)
    requires !nodes[ip].kind.Directory? && !nodes[ip].kind.Free? && e.inum == ip && e.name != "." && e.name != ".."
             && |e.name| <= DIRSIZ
    requires nodes' == nodes[ip := nodes[ip].(nlink := nodes[ip].nlink + 1)]
                            [dp := nodes[dp].(dir := Store(nodes[dp].dir, k, e))]
    ensures Grows(nodes, nodes', at, at) && EntryOk(nodes', at, dp, k, e)
  {
  }

  lemma LinkOk(nodes: seq<Node>, at: map<nat, nat>, ip: nat, dp: nat, k: nat, e: Entry, nodes': seq<Node>)
    requires CountsOk(nodes, at) && 0 < ip < |nodes| && dp < |nodes| && Linked(nodes[dp])
    requires !nodes[ip].kind.Directory? && !nodes[ip].kind.Free?
    requires k <= |nodes[dp].dir| && (k < |nodes[dp].dir| ==> nodes[dp].dir[k].inum == 0) && e.inum == ip
             && |e.name| <= DIRSIZ
    requires forall i | 0 <= i < |nodes[dp].dir| && nodes[dp].dir[i].inum != 0 :: nodes[dp].dir[i].name != e.name
    requires nodes' == nodes[ip := nodes[ip].(nlink := nodes[ip].nlink + 1)]
                            [dp := nodes[dp].(dir := Store(nodes[dp].dir, k, e))]
    ensures CountsOk(nodes', at)
  {
    hide Names, DirOk, EntryOk, Grows;
    ParentFacts(nodes, at, dp, k, e);
    LinkGrows(nodes, at, ip, dp, k, e, nodes');
    forall d: nat | d < |nodes'| && Linked(nodes'[d]) ensures DirOk(nodes', at, d) {
      if d == dp {
        DirGrown(nodes, nodes', at, at, dp, k, e);
      } else {
        DirKept(nodes, nodes', at, at, d);
      }
    }
    forall i: nat | 0 < i < |nodes'| ensures nodes'[i].nlink == |Names(nodes', i)| {
      LinkNames(nodes, ip, dp, k, e, nodes', i);
    }
  }

  // ---------- create ----------

  /** What a new inode holds. */
  function NewNode(kind: Kind, ip: nat, dp: nat): (n: Node) {
    Node(kind, 1, if kind.Directory? then [Entry(ip, "."), Entry(dp, "..")] else [])
  }

  function Created(nodes: seq<Node>, dp: nat, k: nat, e: Entry, kind: Kind): (r: seq<Node>)
    requires dp < |nodes| && e.inum < |nodes| && k <= |nodes[dp].dir|
  {
    nodes[e.inum := NewNode(kind, e.inum, dp)]
         [dp := nodes[dp].(nlink := nodes[dp].nlink + (if kind.Directory? then 1 else 0),
                           dir := Store(nodes[dp].dir, k, e))]
  }

  /** The names that are new: that of the inode, and a new directory's ".." for its parent. */
  lemma CreateNamesAt(nodes: seq<Node>, dp: nat, k: nat, e: Entry, kind: Kind, i: nat, d: nat, x: nat)
    requires dp < |nodes| && 0 < e.inum < |nodes| && e.inum != dp && dp != 0 && Linked(nodes[dp])
    requires nodes[e.inum].kind.Free? && !kind.Free? && e.name != "."
    requires k <= |nodes[dp].dir| && (k < |nodes[dp].dir| ==> nodes[dp].dir[k].inum == 0)
    ensures NamesAt(Created(nodes, dp, k, e, kind), i, d, x)
            <==> || NamesAt(nodes, i, d, x) || (i == e.inum && d == dp && x == k)
                 || (i == dp && kind.Directory? && d == e.inum && x == 1)
    ensures NamesAt(nodes, i, d, x) ==> d != e.inum && (d != dp || x != k)
  {
  }

  lemma CreateNames(nodes: seq<Node>, dp: nat, k: nat, e: Entry, kind: Kind, i: nat)
    requires dp < |nodes| && 0 < e.inum < |nodes| && e.inum != dp && dp != 0 && Linked(nodes[dp])
    requires nodes[e.inum].kind.Free? && !kind.Free? && e.name != "." && Names(nodes, e.inum) == {}
    requires k <= |nodes[dp].dir| && (k < |nodes[dp].dir| ==> nodes[dp].dir[k].inum == 0)
    ensures |Names(Created(nodes, dp, k, e, kind), i)|
            == |Names(nodes, i)| + if i == e.inum || (i == dp && kind.Directory?) then 1 else 0
  {
    hide Names, Created;
    var nodes', ip := Created(nodes, dp, k, e, kind), e.inum;
    var new1 := if i == ip then {(dp, k)} else if i == dp && kind.Directory? then {(ip, 1)} else {};
    forall p: (nat, nat) ensures p in Names(nodes', i) <==> p in Names(nodes, i) || p in new1 {
      CreateNamesAt(nodes, dp, k, e, kind, i, p.0, p.1);
      InNames(nodes, i, p.0, p.1);
      InNames(nodes', i, p.0, p.1);
    }
    CreateNamesAt(nodes, dp, k, e, kind, i, dp, k);
    CreateNamesAt(nodes, dp, k, e, kind, i, ip, 1);
    InNames(nodes, i, dp, k);
    InNames(nodes, i, ip, 1);
    if i == ip {
      AddName(Names(nodes, i), Names(nodes', i), (dp, k));
    } else if i == dp && kind.Directory? {
      AddName(Names(nodes, i), Names(nodes', i), (ip, 1));
    } else {
      assert Names(nodes', i) == Names(nodes, i);
    }
  }

  /** Creating a file, device or directory in a linked directory keeps every count. */
  lemma CreateOk(nodes: seq<Node>, at: map<nat, nat>, dp: nat, k: nat, e: Entry, kind: Kind)
    requires CountsOk(nodes, at) && dp < |nodes| && Linked(nodes[dp]) && 0 < e.inum < |nodes|
             && nodes[e.inum].kind.Free? && !kind.Free?
    requires k <= |nodes[dp].dir| && (k < |nodes[dp].dir| ==> nodes[dp].dir[k].inum == 0) && |e.name| <= DIRSIZ
    requires forall i | 0 <= i < |nodes[dp].dir| && nodes[dp].dir[i].inum != 0 :: nodes[dp].dir[i].name != e.name
    ensures CountsOk(Created(nodes, dp, k, e, kind), at[e.inum := k])
  {
    hide Names, DirOk, Created, EntryOk, Grows;
    var nodes', at', ip, at0 := Created(nodes, dp, k, e, kind), at[e.inum := k], e.inum, at - {e.inum};
    ParentFacts(nodes, at, dp, k, e);
    NotAt(nodes, at, ip);
    TreeWithout(nodes, at, ip);
    NoNamesAtAll(nodes, at, ip);
    CreateGrows(nodes, at, dp, k, e, kind);
    CreatedFields(nodes, dp, k, e, kind);
    forall d: nat | d < |nodes'| && Linked(nodes'[d]) ensures DirOk(nodes', at', d) {
      if d == dp {
        DirGrown(nodes, nodes', at0, at', dp, k, e);
      } else if d == ip {
        NewDirOk(nodes, at, dp, k, e, kind);
      } else {
        DirKept(nodes, nodes', at0, at', d);
      }
    }
    forall i: nat | 0 < i < |nodes'| ensures nodes'[i].nlink == |Names(nodes', i)| {
      CreateNames(nodes, dp, k, e, kind, i);
    }
  }

  lemma CreatedFields(nodes: seq<Node>, dp: nat, k: nat, e: Entry, kind: Kind)
    requires dp < |nodes| && e.inum < |nodes| && k <= |nodes[dp].dir| && dp != e.inum
    ensures var r := Created(nodes, dp, k, e, kind);
            && |r| == |nodes| && r[dp].dir == Store(nodes[dp].dir, k, e) && r[dp].kind == nodes[dp].kind
            && r[dp].nlink == nodes[dp].nlink + (if kind.Directory? then 1 else 0)
            && r[e.inum] == NewNode(kind, e.inum, dp)
            && forall i: nat | i < |nodes| && i != dp && i != e.inum :: r[i] == nodes[i]
  {
  }

  /** The parent has "." and "..", so the new name is neither, and comes behind them. */
  lemma ParentFacts(nodes: seq<Node>, at: map<nat, nat>, dp: nat, k: nat, e: Entry)
    requires CountsOk(nodes, at) && dp < |nodes| && Linked(nodes[dp]) && k <= |nodes[dp].dir|
    requires k < |nodes[dp].dir| ==> nodes[dp].dir[k].inum == 0
    requires forall i | 0 <= i < |nodes[dp].dir| && nodes[dp].dir[i].inum != 0 :: nodes[dp].dir[i].name != e.name
    ensures e.name != "." && e.name != ".." && 2 <= k && dp != 0
  {
    assert DirOk(nodes, at, dp);
  }

  lemma NoNamesAtAll(nodes: seq<Node>, at: map<nat, nat>, i: nat)
    requires CountsOk(nodes, at) && 0 < i < |nodes| && nodes[i].kind.Free?
    ensures Names(nodes, i) == {}
  {
    hide Names;
  }

  lemma CreateGrows(nodes: seq<Node>, at: map<nat, nat>, dp: nat, k: nat, e: Entry, kind: Kind)
    requires dp < |nodes| && e.inum < |nodes| && k <= |nodes[dp].dir| && dp != e.inum && Linked(nodes[dp])
             && nodes[e.inum].kind.Free?
    requires k < |nodes[dp].dir| ==> nodes[dp].dir[k].inum == 0
    ensures Grows(nodes, Created(nodes, dp, k, e, kind), at - {e.inum}, at[e.inum := k])
    ensures |e.name| <= DIRSIZ && e.name != "." && e.name != ".." && !kind.Free? && e.inum != ROOT && 2 <= k
            ==> EntryOk(Created(nodes, dp, k, e, kind), at[e.inum := k], dp, k, e)
  {
  }

  lemma NewDirOk(nodes: seq<Node>, at: map<nat, nat>, dp: nat, k: nat, e: Entry, kind: Kind)
    requires 0 < dp < |nodes| && 0 < e.inum < |nodes| && 2 <= k <= |nodes[dp].dir| && dp != e.inum && Linked(nodes[dp])
    requires kind.Directory? && e.inum != ROOT
    ensures DirOk(Created(nodes, dp, k, e, kind), at[e.inum := k], e.inum)
  {
  }

  /** No linked directory relies on where an inode that is no directory was. */
  lemma NotAt(nodes: seq<Node>, at: map<nat, nat>, ip: nat)
    requires CountsOk(nodes, at) && 0 < ip < |nodes| && nodes[ip].kind.Free?
    ensures forall d: nat | d < |nodes| && Linked(nodes[d]) :: DirOk(nodes, at - {ip}, d)
  {
    forall d: nat | d < |nodes| && Linked(nodes[d]) ensures DirOk(nodes, at - {ip}, d) {
      assert DirOk(nodes, at, d);
      forall k | 2 <= k < |nodes[d].dir| && nodes[d].dir[k].inum != 0
        ensures EntryOk(nodes, at - {ip}, d, k, nodes[d].dir[k])
      {
        assert EntryOk(nodes, at, d, k, nodes[d].dir[k]);
      }
    }
  }

  lemma TreeWithout(nodes: seq<Node>, at: map<nat, nat>, ip: nat)
    requires CountsOk(nodes, at) && forall d: nat | d < |nodes| && Linked(nodes[d]) :: DirOk(nodes, at - {ip}, d)
    ensures CountsOk(nodes, at - {ip})
  {
  }

  // ---------- unlink ----------

  /** The entry is cleared; a directory's name also took its ".." along. */
  function Unlinked(nodes: seq<Node>, dp: nat, k: nat, ip: nat): (r: seq<Node>)
    requires dp < |nodes| && ip < |nodes| && k < |nodes[dp].dir|
  {
    nodes[dp := nodes[dp].(dir := nodes[dp].dir[k := Entry(0, "")],
                           nlink := nodes[dp].nlink - if nodes[ip].kind.Directory? then 1 else 0)]
         [ip := nodes[ip].(nlink := nodes[ip].nlink - 1)]
  }

  /** Removing a file's name. */
  lemma UnlinkFileNames(nodes: seq<Node>, dp: nat, k: nat, ip: nat, i: nat)
    requires dp < |nodes| && 0 < ip < |nodes| && ip != dp && k < |nodes[dp].dir| && NamesAt(nodes, ip, dp, k)
    requires nodes[ip].nlink > 0 && !nodes[ip].kind.Directory?
    ensures |Names(nodes, i)| == |Names(Unlinked(nodes, dp, k, ip), i)| + if i == ip then 1 else 0
  {
    hide Names;
    var nodes' := Unlinked(nodes, dp, k, ip);
    forall p: (nat, nat) ensures p in Names(nodes, i) <==> p in Names(nodes', i) || (i == ip && p == (dp, k)) {
      InNames(nodes, i, p.0, p.1);
      InNames(nodes', i, p.0, p.1);
    }
    InNames(nodes', ip, dp, k);
    if i == ip {
      AddName(Names(nodes', i), Names(nodes, i), (dp, k));
    } else {
      assert Names(nodes', i) == Names(nodes, i);
    }
  }

  lemma UnlinkFileOk(nodes: seq<Node>, at: map<nat, nat>, dp: nat, k: nat, ip: nat)
    requires CountsOk(nodes, at) && dp < |nodes| && 0 < ip < |nodes| && 2 <= k < |nodes[dp].dir|
             && NamesAt(nodes, ip, dp, k)
    requires nodes[ip].nlink > 0 && !nodes[ip].kind.Directory?
    ensures CountsOk(Unlinked(nodes, dp, k, ip), at)
  {
    hide Names;
    var nodes' := Unlinked(nodes, dp, k, ip);
    assert DirOk(nodes, at, dp);
    forall d: nat | d < |nodes'| && Linked(nodes'[d]) ensures DirOk(nodes', at, d) {
      DirAfterUnlink(nodes, at, dp, k, ip, d, nodes');
    }
    forall i: nat | 0 < i < |nodes'| ensures nodes'[i].nlink == |Names(nodes', i)| {
      UnlinkFileNames(nodes, dp, k, ip, i);
    }
  }

  lemma DirAfterUnlink(nodes: seq<Node>, at: map<nat, nat>, dp: nat, k: nat, ip: nat, d: nat, nodes': seq<Node>)
    requires CountsOk(nodes, at) && dp < |nodes| && 0 < ip < |nodes| && ip != dp && 2 <= k < |nodes[dp].dir|
             && NamesAt(nodes, ip, dp, k)
    requires d < |nodes| && Linked(nodes[d]) && (d == ip ==> !nodes[ip].kind.Directory?)
    requires |nodes'| == |nodes| && nodes'[dp].dir == nodes[dp].dir[k := Entry(0, "")]
    requires forall i: nat | i < |nodes| && i != dp :: nodes'[i].dir == nodes[i].dir
    requires forall i: nat | i < |nodes| ::
               nodes'[i].kind == nodes[i].kind && (i != ip ==> (Linked(nodes'[i]) <==> Linked(nodes[i])))
    requires nodes[ip].kind.Directory?
             ==> nodes[d].dir != [] && forall j | 1 <= j < |nodes[d].dir| && nodes[d].dir[j].inum == ip ::
               d == dp && j == k
    ensures DirOk(nodes', at, d)
  {
    assert DirOk(nodes, at, d) && DirOk(nodes, at, dp);
    var dir' := nodes'[d].dir;
    forall j | 2 <= j < |dir'| && dir'[j].inum != 0 ensures EntryOk(nodes', at, d, j, dir'[j]) {
      assert EntryOk(nodes, at, d, j, nodes[d].dir[j]);
    }
  }

  /** An empty directory has one name: no child has it as its parent. */
  lemma OnlyName(nodes: seq<Node>, at: map<nat, nat>, dp: nat, k: nat, ip: nat, d: nat, x: nat)
    requires CountsOk(nodes, at) && dp < |nodes| && 0 < ip < |nodes| && 2 <= k < |nodes[dp].dir|
             && NamesAt(nodes, ip, dp, k)
    requires nodes[ip].kind.Directory? && forall j | 2 <= j < |nodes[ip].dir| :: nodes[ip].dir[j].inum == 0
    ensures NamesAt(nodes, ip, d, x) ==> d == dp && x == k
    ensures Linked(nodes[ip]) && ip != ROOT && ip != dp && |nodes[ip].dir| >= 2 && nodes[ip].dir[1].inum == dp
            && dp != 0
  {
    assert DirOk(nodes, at, dp) && EntryOk(nodes, at, dp, k, nodes[dp].dir[k]) && DirOk(nodes, at, ip);
    if NamesAt(nodes, ip, d, x) {
      assert DirOk(nodes, at, d);
      if x >= 2 {
        assert EntryOk(nodes, at, d, x, nodes[d].dir[x]);
      }
    }
  }

  /** The names that go: the directory's own, and its ".." for the parent. */
  lemma UnlinkDirNamesAt(nodes: seq<Node>, at: map<nat, nat>, dp: nat, k: nat, ip: nat, i: nat, d: nat, x: nat)
    requires CountsOk(nodes, at) && dp < |nodes| && 0 < ip < |nodes| && 2 <= k < |nodes[dp].dir|
             && NamesAt(nodes, ip, dp, k)
    requires nodes[ip].kind.Directory? && forall j | 2 <= j < |nodes[ip].dir| :: nodes[ip].dir[j].inum == 0
    requires nodes[ip].nlink == 1 && nodes[dp].nlink > 1
    ensures NamesAt(nodes, i, d, x)
            <==> || NamesAt(Unlinked(nodes, dp, k, ip), i, d, x) || (i == ip && d == dp && x == k)
                 || (i == dp && d == ip && x == 1)
    ensures NamesAt(Unlinked(nodes, dp, k, ip), i, d, x) ==> d != ip && (d != dp || x != k)
  {
    hide Names;
    OnlyName(nodes, at, dp, k, ip, d, x);
    assert DirOk(nodes, at, ip);
  }

  lemma UnlinkDirNames(nodes: seq<Node>, at: map<nat, nat>, dp: nat, k: nat, ip: nat, i: nat)
    requires CountsOk(nodes, at) && dp < |nodes| && 0 < ip < |nodes| && 2 <= k < |nodes[dp].dir|
             && NamesAt(nodes, ip, dp, k)
    requires nodes[ip].kind.Directory? && forall j | 2 <= j < |nodes[ip].dir| :: nodes[ip].dir[j].inum == 0
    requires nodes[ip].nlink == 1 && nodes[dp].nlink > 1
    ensures |Names(nodes, i)| == |Names(Unlinked(nodes, dp, k, ip), i)| + if i == ip || i == dp then 1 else 0
  {
    hide Names, Unlinked, CountsOk;
    var nodes' := Unlinked(nodes, dp, k, ip);
    var gone := if i == ip then {(dp, k)} else if i == dp then {(ip, 1)} else {};
    OnlyName(nodes, at, dp, k, ip, dp, k);
    forall p: (nat, nat) ensures p in Names(nodes, i) <==> p in Names(nodes', i) || p in gone {
      UnlinkDirNamesAt(nodes, at, dp, k, ip, i, p.0, p.1);
      InNames(nodes, i, p.0, p.1);
      InNames(nodes', i, p.0, p.1);
    }
    UnlinkDirNamesAt(nodes, at, dp, k, ip, i, dp, k);
    UnlinkDirNamesAt(nodes, at, dp, k, ip, i, ip, 1);
    InNames(nodes', i, dp, k);
    InNames(nodes', i, ip, 1);
    if i == ip {
      AddName(Names(nodes', i), Names(nodes, i), (dp, k));
    } else if i == dp {
      AddName(Names(nodes', i), Names(nodes, i), (ip, 1));
    } else {
      assert Names(nodes', i) == Names(nodes, i);
    }
  }

  lemma OneOf(s: set<(nat, nat)>, x: (nat, nat))
    requires x in s && forall y | y in s :: y == x
    ensures |s| == 1
  {
    assert s == {x};
  }

  lemma TwoOf(s: set<(nat, nat)>, x: (nat, nat), y: (nat, nat))
    requires x in s && y in s && x != y
    ensures |s| >= 2
  {
    assert |s| == |s - {x}| + 1 && y in s - {x};
  }

  /** Its name is its only link, and its parent has another one. */
  lemma UnlinkDirCounts(nodes: seq<Node>, at: map<nat, nat>, dp: nat, k: nat, ip: nat)
    requires CountsOk(nodes, at) && dp < |nodes| && 0 < ip < |nodes| && 2 <= k < |nodes[dp].dir|
             && NamesAt(nodes, ip, dp, k)
    requires nodes[ip].kind.Directory? && forall j | 2 <= j < |nodes[ip].dir| :: nodes[ip].dir[j].inum == 0
    ensures nodes[ip].nlink == 1 && nodes[dp].nlink > 1
  {
    hide Names;
    forall p | p in Names(nodes, ip) ensures p == (dp, k) {
      InNames(nodes, ip, p.0, p.1);
      OnlyName(nodes, at, dp, k, ip, p.0, p.1);
    }
    OnlyName(nodes, at, dp, k, ip, dp, k);
    InNames(nodes, ip, dp, k);
    OneOf(Names(nodes, ip), (dp, k));
    assert DirOk(nodes, at, dp) && DirOk(nodes, at, ip);
    InNames(nodes, dp, ip, 1);
    var q := nodes[dp].dir[1].inum;
    if dp == ROOT {
      InNames(nodes, dp, ROOT, 1);
      TwoOf(Names(nodes, dp), (ip, 1), (ROOT, 1));
    } else {
      NamedByParent(nodes, at, dp);
      InNames(nodes, dp, q, at[dp]);
      TwoOf(Names(nodes, dp), (ip, 1), (q, at[dp]));
    }
  }

  lemma NamedByParent(nodes: seq<Node>, at: map<nat, nat>, d: nat)
    requires CountsOk(nodes, at) && d < |nodes| && Linked(nodes[d]) && d != ROOT
    ensures |nodes[d].dir| >= 2 && d in at && at[d] >= 2 && NamesAt(nodes, d, nodes[d].dir[1].inum, at[d])
  {
    assert DirOk(nodes, at, d);
    var q := nodes[d].dir[1].inum;
    assert DirOk(nodes, at, q);
    assert EntryOk(nodes, at, q, at[d], nodes[q].dir[at[d]]);
  }

  lemma UnlinkDirOk(nodes: seq<Node>, at: map<nat, nat>, dp: nat, k: nat, ip: nat)
    requires CountsOk(nodes, at) && dp < |nodes| && 0 < ip < |nodes| && 2 <= k < |nodes[dp].dir|
             && NamesAt(nodes, ip, dp, k)
    requires nodes[ip].kind.Directory? && forall j | 2 <= j < |nodes[ip].dir| :: nodes[ip].dir[j].inum == 0
    ensures nodes[ip].nlink == 1 && nodes[dp].nlink > 1 && CountsOk(Unlinked(nodes, dp, k, ip), at)
  {
    hide Names;
    UnlinkDirCounts(nodes, at, dp, k, ip);
    OnlyName(nodes, at, dp, k, ip, dp, k);
    var nodes' := Unlinked(nodes, dp, k, ip);
    forall d: nat | d < |nodes'| && Linked(nodes'[d]) ensures DirOk(nodes', at, d) {
      OtherDir(nodes, at, dp, k, ip, d);
      DirAfterUnlink(nodes, at, dp, k, ip, d, nodes');
    }
    forall i: nat | 0 < i < |nodes'| ensures nodes'[i].nlink == |Names(nodes', i)| {
      UnlinkDirNames(nodes, at, dp, k, ip, i);
    }
  }

  lemma OtherDir(nodes: seq<Node>, at: map<nat, nat>, dp: nat, k: nat, ip: nat, d: nat)
    requires CountsOk(nodes, at) && dp < |nodes| && 0 < ip < |nodes| && 2 <= k < |nodes[dp].dir|
             && NamesAt(nodes, ip, dp, k)
    requires nodes[ip].kind.Directory? && forall j | 2 <= j < |nodes[ip].dir| :: nodes[ip].dir[j].inum == 0
    requires d < |nodes| && Linked(nodes[d])
    ensures nodes[d].dir != [] && forall j | 1 <= j < |nodes[d].dir| && nodes[d].dir[j].inum == ip :: d == dp && j == k
  {
    assert DirOk(nodes, at, d);
    forall j | 1 <= j < |nodes[d].dir| && nodes[d].dir[j].inum == ip ensures d == dp && j == k {
      if j >= 2 {
        assert EntryOk(nodes, at, d, j, nodes[d].dir[j]);
      }
      OnlyName(nodes, at, dp, k, ip, d, j);
    }
  }

  // ---------- the calls ----------

  function EmptyTree(n: nat): (nodes: seq<Node>) {
    [Node(Free, 0, []), Node(Directory, 1, [Entry(ROOT, "."), Entry(ROOT, "..")])] + seq(n, _ => Node(Free, 0, []))
  }

  lemma EmptyTreeOk(n: nat)
    ensures TreeOk(EmptyTree(n), map[])
  {
    var nodes := EmptyTree(n);
    assert DirOk(nodes, map[], ROOT);
    forall i: nat | 0 < i < |nodes| ensures nodes[i].nlink == |Names(nodes, i)| {
      forall p: (nat, nat) ensures p in Names(nodes, i) <==> i == ROOT && p == (ROOT, 1) {
        InNames(nodes, i, p.0, p.1);
      }
      if i == ROOT {
        OneOf(Names(nodes, i), (ROOT, 1));
      } else {
        assert Names(nodes, i) == {};
      }
    }
  }

  // ---------- unlinked directories ----------

  /** Every directory has its names once, and its numbers are those of inodes. */
  lemma AnyDir(nodes: seq<Node>, at: map<nat, nat>, d: nat)
    requires TreeOk(nodes, at) && d < |nodes| && nodes[d].kind.Directory?
    ensures UniqueNames(nodes[d].dir) && forall k | 0 <= k < |nodes[d].dir| :: nodes[d].dir[k].inum < |nodes|
  {
    hide Names;
    if Linked(nodes[d]) {
      assert DirOk(nodes, at, d);
      forall k | 0 <= k < |nodes[d].dir| ensures nodes[d].dir[k].inum < |nodes| {
        if k >= 2 && nodes[d].dir[k].inum != 0 {
          assert EntryOk(nodes, at, d, k, nodes[d].dir[k]);
        }
      }
    } else {
      assert Hollow(nodes, d);
    }
  }

  /** Directories that were linked before, or are what they were, or are still linked. */
  lemma HollowKept(nodes: seq<Node>, nodes': seq<Node>)
    requires AllHollow(nodes) && |nodes'| == |nodes|
    requires forall d: nat | d < |nodes| && nodes'[d].kind.Directory? && nodes'[d].nlink <= 0 ::
               nodes[d].kind.Directory? && nodes[d].nlink <= 0 && nodes'[d].dir == nodes[d].dir
    ensures AllHollow(nodes')
  {
    forall d: nat | d < |nodes'| && nodes'[d].kind.Directory? && nodes'[d].nlink <= 0 ensures Hollow(nodes', d) {
      assert Hollow(nodes, d);
    }
  }

  /** rmdir leaves such a directory behind. */
  lemma UnlinkHollow(nodes: seq<Node>, at: map<nat, nat>, dp: nat, k: nat, ip: nat)
    requires TreeOk(nodes, at) && dp < |nodes| && 0 < ip < |nodes| && ip != dp && k < |nodes[dp].dir|
             && Linked(nodes[dp])
    requires nodes[ip].kind.Directory? ==>
               Linked(nodes[ip]) && nodes[dp].nlink > 1
                   && forall j | 2 <= j < |nodes[ip].dir| :: nodes[ip].dir[j].inum == 0
    ensures AllHollow(Unlinked(nodes, dp, k, ip))
  {
    hide Names;
    var nodes' := Unlinked(nodes, dp, k, ip);
    forall d: nat | d < |nodes'| && nodes'[d].kind.Directory? && nodes'[d].nlink <= 0 ensures Hollow(nodes', d) {
      if d == ip {
        assert DirOk(nodes, at, ip);
      } else {
        assert Hollow(nodes, d);
      }
    }
  }

  class Tree {
    var nodes: seq<Node>
    /** Where each linked directory is in its parent. */
    ghost var at: map<nat, nat>

    ghost predicate Valid()
      reads this
    {
      TreeOk(nodes, at)
    }

    /** A file system with an empty root directory and `n` free inodes. */
    constructor (n: nat)
      ensures Valid() && nodes == EmptyTree(n)
    {
      nodes := EmptyTree(n);
      at := map[];
      new;
      EmptyTreeOk(n);
    }

    /** A new inode named `name` in the directory `dp`, or the one that has the name already if a file was
        asked for and it is no directory.  The tree stays in order exactly if `dp` is linked or nothing
        was made.  Without a free inode there is a panic. */
    method Create(dp: nat, name: string, kind: Kind) returns (r: Option<nat>, panic: bool)
      requires Valid() && 0 < dp < |nodes| && nodes[dp].kind.Directory? && !kind.Free?
      modifies this
      ensures |nodes| == |old(nodes)| && (Valid() <==> Linked(old(nodes)[dp]) || nodes == old(nodes))
      ensures panic <==> && (forall i: nat :: !Maps(old(nodes)[dp].dir, Cut(name), i))
                         && forall i | 0 < i < |old(nodes)| :: !old(nodes)[i].kind.Free?
      ensures panic ==> r.None? && nodes == old(nodes)
      ensures forall i: nat | Maps(old(nodes)[dp].dir, Cut(name), i) ::
                && i < |nodes| && nodes == old(nodes)
                && r == if kind.File? && (nodes[i].kind.File? || nodes[i].kind.Device?) then Some(i) else None
      ensures !panic && (forall i: nat :: !Maps(old(nodes)[dp].dir, Cut(name), i)) ==>
                && r.Some? && 0 < r.value < |nodes| && old(nodes)[r.value].kind.Free?
                && (forall i | 0 < i < r.value :: !old(nodes)[i].kind.Free?)
                && nodes[r.value].kind == kind && nodes[r.value].nlink == 1
                && (kind.Directory? ==> nodes[r.value].dir == [Entry(r.value, "."), Entry(dp, "..")])
                && (!kind.Directory? ==> nodes[r.value].dir == []) && nodes[dp].kind.Directory?
                && nodes[dp].nlink == old(nodes)[dp].nlink + (if kind.Directory? then 1 else 0)
                && forall n, x :: Maps(nodes[dp].dir, n, x)
                                  <==> Maps(old(nodes)[dp].dir, n, x) || (n == Cut(name) && x == r.value)
      ensures forall i | 0 <= i < |nodes| && i != dp && r != Some(i) :: nodes[i] == old(nodes)[i]
    {
      hide Names, CountsOk, AllHollow;
      AnyDir(nodes, at, dp);
      var found := DirLookup(nodes[dp].dir, name);
      if found.Some? {
        var ip := nodes[dp].dir[found.value].inum;
        OneTarget(nodes[dp].dir, found.value);
        if kind.File? && (nodes[ip].kind.File? || nodes[ip].kind.Device?) {
          return Some(ip), false;
        }
        return None, false;
      }
      var ip := 1;
      while ip < |nodes| && !nodes[ip].kind.Free?
        invariant 1 <= ip <= |nodes| && forall i | 0 < i < ip :: !nodes[i].kind.Free?
      {
        ip := ip + 1;
      }
      if ip == |nodes| {
        return None, true;
      }
      var ok, dir, k := DirLink(nodes[dp].dir, name, ip);
      ghost var e := Entry(ip, Cut(name));
      LinkMaps(nodes[dp].dir, k, name, ip);
      CreateIff(nodes, at, dp, k, e, kind);
      CreatedFields(nodes, dp, k, e, kind);
      nodes := nodes[ip := NewNode(kind, ip, dp)];
      nodes := nodes[dp := nodes[dp].(nlink := nodes[dp].nlink + (if kind.Directory? then 1 else 0), dir := dir)];
      at := at[ip := k];
      assert nodes[ip] != old(nodes)[ip];
      return Some(ip), false;
    }

    /** Another name for the file `ip`, in the directory `dp`.  The tree stays in order exactly if `dp` is
        linked or nothing was done. */
    method Link(ip: nat, dp: nat, name: string) returns (ok: bool)
      requires Valid() && 0 < ip < |nodes| && 0 < dp < |nodes| && nodes[dp].kind.Directory? && !nodes[ip].kind.Free?
      modifies this
      ensures |nodes| == |old(nodes)| && (Valid() <==> Linked(old(nodes)[dp]) || !ok)
      ensures !ok ==> nodes == old(nodes)
      ensures ok <==> !old(nodes)[ip].kind.Directory? && forall i: nat :: !Maps(old(nodes)[dp].dir, Cut(name), i)
      ensures ok ==> && nodes[ip] == old(nodes)[ip].(nlink := old(nodes)[ip].nlink + 1)
                     && nodes[dp].kind == old(nodes)[dp].kind && nodes[dp].nlink == old(nodes)[dp].nlink
                     && forall n, x :: Maps(nodes[dp].dir, n, x)
                                       <==> Maps(old(nodes)[dp].dir, n, x) || (n == Cut(name) && x == ip)
      ensures forall i | 0 <= i < |nodes| && i != dp && i != ip :: nodes[i] == old(nodes)[i]
    {
      hide Names, CountsOk, AllHollow;
      if nodes[ip].kind.Directory? {
        return false;
      }
      nodes := nodes[ip := nodes[ip].(nlink := nodes[ip].nlink + 1)];
      var done, dir, k := DirLink(nodes[dp].dir, name, ip);
      if !done {
        nodes := nodes[ip := nodes[ip].(nlink := nodes[ip].nlink - 1)];
        assert nodes == old(nodes);
        return false;
      }
      LinkMaps(nodes[dp].dir, k, name, ip);
      nodes := nodes[dp := nodes[dp].(dir := dir)];
      LinkIff(old(nodes), at, ip, dp, k, Entry(ip, Cut(name)), nodes);
      return true;
    }

    /** Removes the name from the directory `dp`; a directory must be empty.  The tree stays in order, also
        if `dp` is unlinked, and the test for a link count below 1 never finds one. */
    method Unlink(dp: nat, name: string) returns (ok: bool, panic: bool)
      requires Valid() && 0 < dp < |nodes| && nodes[dp].kind.Directory?
      modifies this
      ensures Valid() && !panic && |nodes| == |old(nodes)|
      ensures !ok ==> nodes == old(nodes)
      ensures ok <==> && Cut(name) != "." && Cut(name) != ".."
                      && exists i: nat :: Maps(old(nodes)[dp].dir, Cut(name), i) && i < |nodes|
                                          && Removes(old(nodes)[i])
      ensures ok ==> Linked(old(nodes)[dp])
                     && forall n, x :: Maps(nodes[dp].dir, n, x) <==> Maps(old(nodes)[dp].dir, n, x) && n != Cut(name)
      ensures forall i: nat | i < |nodes| && i != dp ::
                && nodes[i].kind == old(nodes)[i].kind && nodes[i].dir == old(nodes)[i].dir
                && nodes[i].nlink == old(nodes)[i].nlink - if ok && Maps(old(nodes)[dp].dir, Cut(name), i) then 1 else 0
      ensures nodes[dp].kind.Directory?
      ensures forall i: nat | ok && Maps(old(nodes)[dp].dir, Cut(name), i) && i < |nodes| ::
                nodes[dp].nlink == old(nodes)[dp].nlink - if old(nodes)[i].kind.Directory? then 1 else 0
    {
      hide Names, CountsOk, AllHollow;
      AnyDir(nodes, at, dp);
      if Cut(name) == "." || Cut(name) == ".." {
        return false, false;
      }
      var found := DirLookup(nodes[dp].dir, name);
      if found.None? {
        return false, false;
      }
      var k := found.value;
      var ip := nodes[dp].dir[k].inum;
      OneTarget(nodes[dp].dir, k);
      NameHasLink(nodes, at, dp, k);
      if nodes[ip].nlink < 1 {
        return false, true;
      }
      if nodes[ip].kind.Directory? {
        var empty := IsDirEmpty(nodes[ip].dir);
        if !empty {
          return false, false;
        }
      }
      UnlinkOk(nodes, at, dp, k, ip);
      UnlinkMaps(nodes[dp].dir, k);
      ghost var after := Unlinked(nodes, dp, k, ip);
      var isDir := nodes[ip].kind.Directory?;
      nodes := nodes[dp := nodes[dp].(dir := nodes[dp].dir[k := Entry(0, "")])];
      if isDir {
        nodes := nodes[dp := nodes[dp].(nlink := nodes[dp].nlink - 1)];
      }
      nodes := nodes[ip := nodes[ip].(nlink := nodes[ip].nlink - 1)];
      assert nodes == after;
      return true, false;
    }

    /** Gives up one of `ref` references to an inode: without links, the last one frees it. */
    method Iput(i: nat, ref: nat) returns (ref': nat)
      requires Valid() && 0 < i < |nodes| && ref > 0
      modifies `nodes
      ensures Valid() && ref' == ref - 1
      ensures nodes == if ref == 1 && old(nodes)[i].nlink == 0 then old(nodes)[i := Node(Free, 0, [])] else old(nodes)
    {
      if ref == 1 && nodes[i].nlink == 0 {
        FreeOk(nodes, at, i);
        nodes := nodes[i := Node(Free, 0, [])];
      }
      ref' := ref - 1;
    }
  }

  /** unlink removes a file, and a directory without entries of its own. */
  predicate Removes(n: Node) {
    n.kind.Directory? ==> forall k | 2 <= k < |n.dir| :: n.dir[k].inum == 0
  }

  lemma FreeOk(nodes: seq<Node>, at: map<nat, nat>, i: nat)
    requires TreeOk(nodes, at) && 0 < i < |nodes| && nodes[i].nlink == 0
    ensures TreeOk(nodes[i := Node(Free, 0, [])], at)
  {
    hide Names;
    var nodes' := nodes[i := Node(Free, 0, [])];
    HollowKept(nodes, nodes');
    forall d: nat | d < |nodes'| && Linked(nodes'[d]) ensures DirOk(nodes', at, d) {
      assert DirOk(nodes, at, d);
      forall k | 2 <= k < |nodes[d].dir| && nodes[d].dir[k].inum != 0
        ensures EntryOk(nodes', at, d, k, nodes[d].dir[k])
      {
        NoNames(nodes, at, i, d, k);
        assert EntryOk(nodes, at, d, k, nodes[d].dir[k]);
      }
    }
    forall j: nat | 0 < j < |nodes'| ensures nodes'[j].nlink == |Names(nodes', j)| {
      forall p: (nat, nat) ensures p in Names(nodes', j) <==> p in Names(nodes, j) {
        InNames(nodes, j, p.0, p.1);
        InNames(nodes', j, p.0, p.1);
      }
      assert Names(nodes', j) == Names(nodes, j);
    }
  }

  // ---------- the unlinked parent ----------

  /** Names in an unlinked directory do not count. */
  lemma SameNames(nodes: seq<Node>, nodes': seq<Node>, i: nat)
    requires forall d: nat, x: nat :: NamesAt(nodes', i, d, x) <==> NamesAt(nodes, i, d, x)
    ensures Names(nodes', i) == Names(nodes, i)
  {
    hide Names;
    forall p: (nat, nat) ensures p in Names(nodes', i) <==> p in Names(nodes, i) {
      InNames(nodes, i, p.0, p.1);
      InNames(nodes', i, p.0, p.1);
    }
  }

  /** A file or device made in an unlinked directory has a link but no name. */
  lemma CreateLost(nodes: seq<Node>, at: map<nat, nat>, dp: nat, k: nat, e: Entry, kind: Kind, at': map<nat, nat>)
    requires CountsOk(nodes, at) && 0 < dp < |nodes| && nodes[dp].kind.Directory? && !Linked(nodes[dp])
    requires 0 < e.inum < |nodes| && nodes[e.inum].kind.Free? && !kind.Free? && !kind.Directory?
    requires k <= |nodes[dp].dir|
    ensures !CountsOk(Created(nodes, dp, k, e, kind), at')
  {
    hide Names;
    NoNamesAtAll(nodes, at, e.inum);
    SameNames(nodes, Created(nodes, dp, k, e, kind), e.inum);
  }

  /** A directory made in an unlinked one gives that one a link, but its parent does not name it. */
  lemma MkdirLost(nodes: seq<Node>, at: map<nat, nat>, dp: nat, k: nat, e: Entry, at': map<nat, nat>)
    requires CountsOk(nodes, at) && 0 < dp < |nodes| && nodes[dp].kind.Directory? && !Linked(nodes[dp])
    requires 0 < e.inum < |nodes| && nodes[e.inum].kind.Free? && k <= |nodes[dp].dir|
    ensures !CountsOk(Created(nodes, dp, k, e, Directory), at')
  {
    hide Names;
    var nodes' := Created(nodes, dp, k, e, Directory);
    assert nodes[dp].nlink == 0;
    if CountsOk(nodes', at') {
      NamedByParent(nodes', at', dp);
      var q, x := nodes'[dp].dir[1].inum, at'[dp];
      assert DirOk(nodes', at', dp);
      NoNames(nodes, at, dp, q, x);
    }
  }

  /** create keeps the tree in order exactly if the parent is linked, which it does not look at. */
  lemma CreateIff(nodes: seq<Node>, at: map<nat, nat>, dp: nat, k: nat, e: Entry, kind: Kind)
    requires TreeOk(nodes, at) && 0 < dp < |nodes| && nodes[dp].kind.Directory? && !kind.Free?
    requires 0 < e.inum < |nodes| && nodes[e.inum].kind.Free?
    requires k <= |nodes[dp].dir| && (k < |nodes[dp].dir| ==> nodes[dp].dir[k].inum == 0) && |e.name| <= DIRSIZ
    requires forall i | 0 <= i < |nodes[dp].dir| && nodes[dp].dir[i].inum != 0 :: nodes[dp].dir[i].name != e.name
    ensures (exists at' :: CountsOk(Created(nodes, dp, k, e, kind), at')) <==> Linked(nodes[dp])
    ensures Linked(nodes[dp]) ==> TreeOk(Created(nodes, dp, k, e, kind), at[e.inum := k])
  {
    hide CountsOk, Created;
    if Linked(nodes[dp]) {
      CreateOk(nodes, at, dp, k, e, kind);
      CreatedFields(nodes, dp, k, e, kind);
      HollowKept(nodes, Created(nodes, dp, k, e, kind));
    } else {
      forall at' ensures !CountsOk(Created(nodes, dp, k, e, kind), at') {
        if kind.Directory? {
          MkdirLost(nodes, at, dp, k, e, at');
        } else {
          CreateLost(nodes, at, dp, k, e, kind, at');
        }
      }
    }
  }

  /** The same for link, which does not look either. */
  lemma LinkIff(nodes: seq<Node>, at: map<nat, nat>, ip: nat, dp: nat, k: nat, e: Entry, nodes': seq<Node>)
    requires TreeOk(nodes, at) && 0 < ip < |nodes| && 0 < dp < |nodes| && nodes[dp].kind.Directory?
    requires !nodes[ip].kind.Directory? && !nodes[ip].kind.Free?
    requires k <= |nodes[dp].dir| && (k < |nodes[dp].dir| ==> nodes[dp].dir[k].inum == 0) && e.inum == ip
             && |e.name| <= DIRSIZ
    requires forall i | 0 <= i < |nodes[dp].dir| && nodes[dp].dir[i].inum != 0 :: nodes[dp].dir[i].name != e.name
    requires nodes' == nodes[ip := nodes[ip].(nlink := nodes[ip].nlink + 1)]
                            [dp := nodes[dp].(dir := Store(nodes[dp].dir, k, e))]
    ensures (exists at' :: CountsOk(nodes', at')) <==> Linked(nodes[dp])
    ensures Linked(nodes[dp]) ==> TreeOk(nodes', at)
  {
    hide Names;
    if Linked(nodes[dp]) {
      LinkOk(nodes, at, ip, dp, k, e, nodes');
      HollowKept(nodes, nodes');
    } else {
      SameNames(nodes, nodes', ip);
    }
  }

  /** Whatever name unlink finds is in a linked directory and is a link. */
  lemma NameHasLink(nodes: seq<Node>, at: map<nat, nat>, dp: nat, k: nat)
    requires TreeOk(nodes, at) && dp < |nodes| && nodes[dp].kind.Directory?
    requires k < |nodes[dp].dir| && nodes[dp].dir[k].inum != 0 && nodes[dp].dir[k].name != "."
             && nodes[dp].dir[k].name != ".."
    ensures Linked(nodes[dp]) && nodes[dp].dir[k].inum < |nodes| && nodes[nodes[dp].dir[k].inum].nlink >= 1
  {
    hide Names;
    assert Linked(nodes[dp]) || Hollow(nodes, dp);
    Target(nodes, at, dp, k);
    HasLink(nodes, at, nodes[dp].dir[k].inum, dp, k);
  }

  /** unlink keeps the tree in order, whatever directory it is called for. */
  lemma UnlinkOk(nodes: seq<Node>, at: map<nat, nat>, dp: nat, k: nat, ip: nat)
    requires TreeOk(nodes, at) && 0 < dp < |nodes| && nodes[dp].kind.Directory?
    requires 0 < ip < |nodes| && k < |nodes[dp].dir| && nodes[dp].dir[k].inum == ip && Removes(nodes[ip])
    requires nodes[dp].dir[k].name != "." && nodes[dp].dir[k].name != ".."
    ensures ip != dp && TreeOk(Unlinked(nodes, dp, k, ip), at)
  {
    hide Names, Unlinked;
    NameHasLink(nodes, at, dp, k);
    Target(nodes, at, dp, k);
    if nodes[ip].kind.Directory? {
      UnlinkDirOk(nodes, at, dp, k, ip);
    } else {
      UnlinkFileOk(nodes, at, dp, k, ip);
    }
    UnlinkHollow(nodes, at, dp, k, ip);
  }

  /** Such a parent comes about when a directory is made, entered and removed.  From there creating anything
      in it, and linking a file into it, spoils the tree. */
  lemma UnlinkedParent() returns (nodes: seq<Node>, at: map<nat, nat>, linked: seq<Node>)
    ensures TreeOk(nodes, at) && |nodes| == 4 && nodes[2].kind.Directory? && nodes[2].nlink == 0 && nodes[3].kind.Free?
    ensures var made := Created(EmptyTree(2), ROOT, 2, Entry(2, "d"), Directory); nodes == Unlinked(made, ROOT, 2, 2)
    ensures forall kind: Kind, at' | !kind.Free? :: !CountsOk(Created(nodes, 2, 2, Entry(3, "f"), kind), at')
    ensures TreeOk(Created(nodes, ROOT, 2, Entry(3, "f"), File), at[3 := 2])
    ensures var file := Created(nodes, ROOT, 2, Entry(3, "f"), File);
            linked == file[3 := Node(File, 2, [])][2 := nodes[2].(dir := nodes[2].dir + [Entry(3, "g")])]
    ensures forall at' :: !CountsOk(linked, at')
  {
    hide Names, CountsOk, AllHollow, DirOk;
    var empty := EmptyTree(2);
    EmptyTreeOk(2);
    CreateIff(empty, map[], ROOT, 2, Entry(2, "d"), Directory);
    var made := Created(empty, ROOT, 2, Entry(2, "d"), Directory);
    at := map[2 := 2];
    assert map[][2 := 2] == at;
    UnlinkOk(made, at, ROOT, 2, 2);
    nodes := Unlinked(made, ROOT, 2, 2);
    forall kind: Kind, at' | !kind.Free? ensures !CountsOk(Created(nodes, 2, 2, Entry(3, "f"), kind), at') {
      CreateIff(nodes, at, 2, 2, Entry(3, "f"), kind);
    }
    CreateIff(nodes, at, ROOT, 2, Entry(3, "f"), File);
    var file := Created(nodes, ROOT, 2, Entry(3, "f"), File);
    linked := file[3 := Node(File, 2, [])][2 := nodes[2].(dir := nodes[2].dir + [Entry(3, "g")])];
    LinkIff(file, at[3 := 2], 3, 2, 2, Entry(3, "g"), linked);
  }

  /** A name leads to one inode. */
  lemma OneTarget(d: Dir, k: nat)
    requires k < |d| && d[k].inum != 0
    ensures UniqueNames(d) ==> forall i | Maps(d, d[k].name, i) :: i == d[k].inum
  {
  }

  /** What an entry leads to. */
  lemma Target(nodes: seq<Node>, at: map<nat, nat>, d: nat, k: nat)
    requires CountsOk(nodes, at) && d < |nodes| && Linked(nodes[d]) && k < |nodes[d].dir| && nodes[d].dir[k].inum != 0
    ensures var e := nodes[d].dir[k];
            && e.inum < |nodes| && !nodes[e.inum].kind.Free?
            && (e.name != "." && e.name != ".." ==> k >= 2 && e.inum != d && NamesAt(nodes, e.inum, d, k))
  {
    assert DirOk(nodes, at, d);
    if k >= 2 {
      assert EntryOk(nodes, at, d, k, nodes[d].dir[k]);
    }
  }
}
