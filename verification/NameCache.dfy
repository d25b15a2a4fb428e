/**
 * The local copy of the kernel name cache: an open-addressing hash table that
 * never wraps around, and the assembly of paths from it, backwards.
 */
module NameCache {
  import opened Common
  import FileSystem

  /** A cache entry: a node's address, its parent's (0: none) and its name. */
  datatype Entry = Entry(node: int, parent: int, name: string)

  /** The entries from `i` on whose node is `v`: the number of the first. */
  function Earliest(es: seq<Entry>, v: int, i: nat): (r: Option<nat>)
    requires i <= |es|
    ensures r.Some? ==> i <= r.value < |es| && es[r.value].node == v && forall k | i <= k < r.value :: es[k].node != v
    ensures r.None? ==> forall k | i <= k < |es| :: es[k].node != v
    decreases |es| - i
  {
    if i == |es| then None else if es[i].node == v then Some(i) else Earliest(es, v, i + 1)
  }

  /** The number of an entry's parent entry. */
  function Parent(es: seq<Entry>, e: Entry): (r: Option<nat>)
    ensures r.Some? ==> r.value < |es|
  {
    if e.parent == 0 then None else Earliest(es, e.parent, 0)
  }

  /** The entry `k` steps up from entry `n`. */
  function Ancestor(es: seq<Entry>, n: nat, k: nat): (r: Option<nat>)
    requires n < |es|
    ensures r.Some? ==> r.value < |es|
  {
    if k == 0 then Some(n)
    else
      match Ancestor(es, n, k - 1)
      case None => None
      case Some(m) => Parent(es, es[m])
  }

  /** The names of entry `n` and its first `k` ancestors, joined by slashes. */
  function PathUp(es: seq<Entry>, n: nat, k: nat): string
    requires n < |es| && Ancestor(es, n, k).Some?
  {
    if k == 0 then es[n].name else es[Ancestor(es, n, k).value].name + "/" + PathUp(es, n, k - 1)
  }

  /** A longer run of ancestors gives a longer path. */
  lemma {:induction false} PathUpGrows(es: seq<Entry>, n: nat, j: nat, k: nat)
    requires n < |es| && j <= k && Ancestor(es, n, k).Some?
    ensures Ancestor(es, n, j).Some? && |PathUp(es, n, j)| + (k - j) <= |PathUp(es, n, k)|
    decreases k - j
  {
    if j < k { PathUpGrows(es, n, j, k - 1); }
  }

  // ----- Where the path leads -----

  /** What a directory, by its address, holds under a name */
  type Tree = (int, string) -> Option<int>

  function Descend(tree: Tree, d: int, names: seq<string>): Option<int>
    decreases |names|
  {
    if names == [] then Some(d)
    else
      match tree(d, names[0])
      case None => None
      case Some(m) => Descend(tree, m, names[1..])
  }

  /** The cache tells the truth about the directories. */
  ghost predicate Truthful(es: seq<Entry>, tree: Tree) {
    forall i | 0 <= i < |es| :: '/' !in es[i].name && tree(es[i].parent, es[i].name) == Some(es[i].node)
  }

  /** If the cache is true, the path, taken from the directory above its first
      name, leads to the node. */
  lemma {:induction false} PathLeadsThere(es: seq<Entry>, tree: Tree, n: nat, k: nat)
    requires n < |es| && Ancestor(es, n, k).Some? && Truthful(es, tree)
    ensures Descend(tree, es[Ancestor(es, n, k).value].parent, FileSystem.Split(PathUp(es, n, k))) == Some(es[n].node)
  {
    var m := Ancestor(es, n, k).value;
    var e := es[m];
    FileSystem.SplitName(e.name);
    assert Descend(tree, e.node, []) == Some(e.node);
    if k == 0 {
      assert [e.name][1..] == [];
    } else {
      var rest := FileSystem.Split(PathUp(es, n, k - 1));
      PathLeadsThere(es, tree, n, k - 1);
      assert e.node == es[Ancestor(es, n, k - 1).value].parent;
      FileSystem.SplitCat(e.name, PathUp(es, n, k - 1));
      assert ([e.name] + rest)[1..] == rest;
    }
  }

  // ----- The table -----

  /** The slot where the search for a node begins. */
  function Home(hash: int -> nat, nch: nat, v: int): (q: nat)
    requires nch > 0
    ensures q < nch
  {
    hash(v) % nch
  }

  type Slots = seq<Option<nat>>

  /** Every slot holds one of the first `i` entries, at or after its home with
      no gap between; slots of one node are in entry order. */
  ghost predicate Chained(es: seq<Entry>, hash: int -> nat, nch: nat, t: Slots, i: nat)
    requires nch > 0 && i <= |es|
  {
    && (forall q | 0 <= q < |t| && t[q].Some? :: t[q].value < i && NoGap(es, hash, nch, t, q))
    && (forall q, h | 0 <= q < h < |t| && t[q].Some? && t[h].Some? && t[q].value < |es| && t[h].value < |es| ::
          es[t[q].value].node == es[t[h].value].node ==> t[q].value < t[h].value)
  }

  ghost predicate NoGap(es: seq<Entry>, hash: int -> nat, nch: nat, t: Slots, q: nat)
    requires nch > 0 && q < |t| && t[q].Some?
  {
    && t[q].value < |es| && Home(hash, nch, es[t[q].value].node) <= q
    && forall h | Home(hash, nch, es[t[q].value].node) <= h < q :: t[h].Some?
  }

  /** An entry of node `v`, no later than `k`, has a slot. */
  ghost predicate Present(es: seq<Entry>, t: Slots, v: int, k: nat) {
    exists q :: Holds(es, t, q, v, k)
  }

  predicate Holds(es: seq<Entry>, t: Slots, q: int, v: int, k: nat) {
    0 <= q < |t| && t[q].Some? && t[q].value <= k && t[q].value < |es| && es[t[q].value].node == v
  }

  /** The table after the first `i` entries. */
  ghost predicate Filled(es: seq<Entry>, hash: int -> nat, nch: nat, t: Slots, i: nat)
    requires nch > 0 && i <= |es|
  {
    && |t| == nch + |es| && Chained(es, hash, nch, t, i)
    && (forall k | 0 <= k < i :: Present(es, t, es[k].node, k))
    && (forall q | nch - 1 + i <= q < |t| :: t[q].None?)
  }

  /** Placing entry `i` in the first free slot from its home. */
  lemma Place(es: seq<Entry>, hash: int -> nat, nch: nat, t: Slots, i: nat, q: nat)
    requires nch > 0 && i < |es| && Filled(es, hash, nch, t, i)
    requires Home(hash, nch, es[i].node) <= q <= nch - 1 + i && t[q].None?
    requires forall h | Home(hash, nch, es[i].node) <= h < q :: t[h].Some?
    ensures Filled(es, hash, nch, t[q := Some(i)], i + 1)
  {
    hide Chained, Home;
    var u := t[q := Some(i)];
    PlaceChained(es, hash, nch, t, i, q);
    forall k | 0 <= k < i + 1 ensures Present(es, u, es[k].node, k) {
      if k < i {
        assert Present(es, t, es[k].node, k);
        var h :| Holds(es, t, h, es[k].node, k);
        assert Holds(es, u, h, es[k].node, k);
      } else {
        assert Holds(es, u, q, es[k].node, k);
      }
    }
  }

  lemma PlaceChained(es: seq<Entry>, hash: int -> nat, nch: nat, t: Slots, i: nat, q: nat)
    requires nch > 0 && i < |es| && Chained(es, hash, nch, t, i) && q < |t|
    requires Home(hash, nch, es[i].node) <= q && t[q].None?
    requires forall h | Home(hash, nch, es[i].node) <= h < q :: t[h].Some?
    ensures Chained(es, hash, nch, t[q := Some(i)], i + 1)
  {
    hide Home;
    var u := t[q := Some(i)];
    assert NoGap(es, hash, nch, u, q);
    forall h | 0 <= h < |u| && u[h].Some? ensures u[h].value < i + 1 && NoGap(es, hash, nch, u, h) {
      if h != q { assert NoGap(es, hash, nch, t, h); }
    }
    forall h | q < h < |t| && t[h].Some? ensures t[h].value < |es| && es[t[h].value].node != es[i].node {
      assert NoGap(es, hash, nch, t, h);
    }
  }

  /** Dropping entry `i`, whose node has a slot already. */
  lemma Drop(es: seq<Entry>, hash: int -> nat, nch: nat, t: Slots, i: nat, q: nat)
    requires nch > 0 && i < |es| && Filled(es, hash, nch, t, i)
    requires q < |t| && t[q].Some? && t[q].value < i && es[t[q].value].node == es[i].node
    ensures Filled(es, hash, nch, t, i + 1)
  {
    assert Holds(es, t, q, es[i].node, i);
  }

  /** The first slot of a node holds its earliest entry. */
  lemma FirstSlot(es: seq<Entry>, hash: int -> nat, nch: nat, t: Slots, v: int, q: nat)
    requires nch > 0 && Filled(es, hash, nch, t, |es|) && q < |t| && Home(hash, nch, v) <= q
    requires forall h | Home(hash, nch, v) <= h < q :: t[h].Some? && t[h].value < |es| && es[t[h].value].node != v
    ensures t[q].Some? ==> t[q].value < |es|
    ensures t[q].Some? && es[t[q].value].node == v ==> Earliest(es, v, 0) == t[q]
    ensures t[q].None? ==> Earliest(es, v, 0).None?
  {
    hide Home;
    var e := Earliest(es, v, 0);
    if e.Some? {
      assert Present(es, t, v, e.value);
      var h :| Holds(es, t, h, v, e.value);
      SlotAfter(es, hash, nch, t, v, q, h);
    }
  }

  lemma SlotAfter(es: seq<Entry>, hash: int -> nat, nch: nat, t: Slots, v: int, q: nat, h: nat)
    requires nch > 0 && Chained(es, hash, nch, t, |es|) && q < |t| && h < |t| && Home(hash, nch, v) <= q
    requires forall g | Home(hash, nch, v) <= g < q :: t[g].Some? && t[g].value < |es| && es[t[g].value].node != v
    requires t[h].Some? && t[h].value < |es| && es[t[h].value].node == v
    ensures q <= h && t[q].Some? && t[q].value < |es|
    ensures es[t[q].value].node == v ==> t[q].value <= t[h].value
  {
    assert NoGap(es, hash, nch, t, h);
  }

  lemma SlotInRange(es: seq<Entry>, hash: int -> nat, nch: nat, t: Slots, i: nat, q: nat)
    requires nch > 0 && i <= |es| && Filled(es, hash, nch, t, i) && q < |t| && t[q].Some?
    ensures t[q].value < i
  {
  }

  /** With any entry at all, the last slot stays empty. */
  lemma LastEmpty(es: seq<Entry>, hash: int -> nat, nch: nat, t: Slots)
    requires nch > 0 && Filled(es, hash, nch, t, |es|)
    ensures t[|t| - 1].None?
  {
  }

  // ----- ncache_lookup() -----

  /** What is known of an open file: its node address, its inode and the inode
      of its file system's mount point (0: none), and the mount point */
  datatype Node = Node(address: int, inode: Option<int>, fsIno: int, fsdir: Option<string>, dev: Option<int>)

  datatype Mount = Mount(dir: Option<string>, inode: int, dev: int)

  datatype Reply = NoName | MountPoint | Path(at: nat)

  predicate OnMountPoint(v: Node) {
    v.fsIno != 0 && v.inode == Some(v.fsIno)
  }

  predicate MountedOn(v: Node, m: Mount) {
    m.inode != 0 && v.fsdir.Some? && m.dir == v.fsdir && v.dev == Some(m.dev) && v.inode == Some(m.inode)
  }

  /** The node is the mount point of a known file system. */
  predicate Mounted(v: Node, mounts: seq<Mount>) {
    exists i | 0 <= i < |mounts| :: MountedOn(v, mounts[i])
  }

  /** The search of the mount table for a node without an entry */
  method FindMount(v: Node, mounts: seq<Mount>) returns (found: bool)
    ensures found == Mounted(v, mounts)
  {
    if v.fsdir.None? || v.dev.None? || v.inode.None? {
      return false;
    }
    var i := 0;
    while i < |mounts|
      invariant 0 <= i <= |mounts| && forall h | 0 <= h < i :: !MountedOn(v, mounts[h])
    {
      var m := mounts[i];
      if m.dir.Some? && m.inode != 0 && v.dev.value == m.dev && m.inode == v.inode.value && m.dir.value == v.fsdir.value {
        return true;
      }
      i := i + 1;
    }
    return false;
  }

  /** Where a path assembly stops: the run of ancestors cannot grow, or would
      not fit the room that the terminator leaves. */
  ghost predicate Longest(es: seq<Entry>, n: nat, k: nat, room: nat)
    requires n < |es|
  {
    && Ancestor(es, n, k).Some? && |PathUp(es, n, k)| <= room
    && (Ancestor(es, n, k + 1).Some? ==> |PathUp(es, n, k + 1)| > room)
  }

  /** No other run of ancestors is longest. */
  lemma LongestIsUnique(es: seq<Entry>, n: nat, j: nat, k: nat, room: nat)
    requires n < |es| && Longest(es, n, j, room) && Longest(es, n, k, room)
    ensures j == k
  {
    if j < k { PathUpGrows(es, n, j + 1, k); }
    if k < j { PathUpGrows(es, n, k + 1, j); }
  }

  lemma NoneUp(es: seq<Entry>, n: nat)
    requires n < |es|
    ensures Ancestor(es, n, 0) == Some(n) && PathUp(es, n, 0) == es[n].name
  {
  }

  lemma OneUp(es: seq<Entry>, n: nat, k: nat, at: nat)
    requires n < |es| && at < |es| && Ancestor(es, n, k) == Some(at)
    ensures Ancestor(es, n, k + 1) == Parent(es, es[at])
    ensures Ancestor(es, n, k + 1).Some? ==>
              PathUp(es, n, k + 1) == es[Parent(es, es[at]).value].name + "/" + PathUp(es, n, k)
  {
  }

  /** strncpy() into the middle of a buffer */
  method CopyTo(buf: array<char>, at: nat, s: string)
    requires at + |s| <= buf.Length
    modifies buf
    ensures buf[at..at + |s|] == s
    ensures forall i | 0 <= i < buf.Length && !(at <= i < at + |s|) :: buf[i] == old(buf[i])
  {
    var i := 0;
    while i < |s|
      invariant 0 <= i <= |s| && buf[at..at + i] == s[..i]
      invariant forall h | 0 <= h < buf.Length && !(at <= h < at + i) :: buf[h] == old(buf[h])
    {
      buf[at + i] := s[i];
      i := i + 1;
    }
    assert s[..i] == s;
  }

  /** Puts a name and a slash before the path in the buffer. */
  method Prepend(buf: array<char>, rlen: nat, name: string) returns (r: nat)
    requires |name| + 1 <= rlen < buf.Length
    modifies buf
    ensures r == rlen - 1 - |name| && buf[buf.Length - 1] == old(buf[buf.Length - 1])
    ensures buf[r..buf.Length - 1] == name + "/" + old(buf[rlen..buf.Length - 1])
  {
    buf[rlen - 1] := '/';
    r := rlen - 1 - |name|;
    CopyTo(buf, r, name);
    var end := buf.Length - 1;
    assert buf[r..end] == buf[r..r + |name|] + [buf[rlen - 1]] + buf[rlen..end];
  }

  class Cache {
    const es: seq<Entry>                // the local cache, in search order
    const hash: int -> nat
    const same: (Entry, Entry) -> bool  // the test that drops an entry as a duplicate
    var nch: nat                        // Nch, the mask plus one
    var table: array<Option<nat>>       // Nchash; None is a null pointer
    var pa: seq<Option<nat>>            // each entry's parent pointer

    /** A duplicate at least has the same node. */
    ghost predicate SameNode() {
      forall a, b :: same(a, b) ==> a.node == b.node
    }

    ghost predicate Indexed()
      reads this, table
    {
      nch > 0 && Filled(es, hash, nch, table[..], |es|)
    }

    ghost predicate Loaded()
      reads this, table
    {
      && Indexed() && |pa| == |es|
      && forall i | 0 <= i < |es| :: pa[i] == Parent(es, es[i])
    }

    constructor (es: seq<Entry>, hash: int -> nat, same: (Entry, Entry) -> bool)
      ensures this.es == es && this.hash == hash && this.same == same
    {
      this.es, this.hash, this.same := es, hash, same;
      nch, table, pa := 0, new Option<nat>[0], [];
    }

    /** ncache_load() from the hash table on. */
    method Load()
      requires SameNode()
      modifies this
      ensures Loaded() && fresh(table)
    {
      nch := 1;
      while nch < |es|
        invariant nch > 0
        decreases |es| - nch
      {
        nch := nch * 2;
      }
      nch := nch * 2;
      table := new Option<nat>[nch + |es|](_ => None);
      var i := 0;
      while i < |es|
        invariant 0 <= i <= |es| && nch > 0 && fresh(table) && Filled(es, hash, nch, table[..], i)
      {
        Insert(i);
        i := i + 1;
      }
      LinkParents();
    }

    /** Finds entry `i` a slot; the probe stays inside the table. */
    method Insert(i: nat)
      requires SameNode() && nch > 0 && i < |es| && Filled(es, hash, nch, table[..], i)
      modifies table
      ensures Filled(es, hash, nch, table[..], i + 1)
    {
      hide Home, Chained, Present;
      var home := Home(hash, nch, es[i].node);
      var hp := home;
      ghost var t := table[..];
      assert t[nch - 1 + i].None?;
      while table[hp].Some?
        invariant table[..] == t && home <= hp <= nch - 1 + i && forall h | home <= h < hp :: table[h].Some?
        decreases nch + i - hp
      {
        SlotInRange(es, hash, nch, t, i, hp);
        if same(es[table[hp].value], es[i]) {
          Drop(es, hash, nch, t, i, hp);
          return;
        }
        hp := hp + 1;
      }
      Place(es, hash, nch, t, i, hp);
      table[hp] := Some(i);
      assert table[..] == t[hp := Some(i)];
    }

    /** ncache_addr() */
    method Address(v: int) returns (r: Option<nat>)
      requires Indexed()
      ensures r == Earliest(es, v, 0)
    {
      hide Home, Chained, Present;
      var hp := Home(hash, nch, v);
      while table[hp].Some?
        invariant Home(hash, nch, v) <= hp < table.Length
        invariant forall h | Home(hash, nch, v) <= h < hp ::
                    table[h].Some? && table[h].value < |es| && es[table[h].value].node != v
        decreases table.Length - hp
      {
        SlotInRange(es, hash, nch, table[..], |es|, hp);
        if es[table[hp].value].node == v {
          FirstSlot(es, hash, nch, table[..], v, hp);
          return table[hp];
        }
        LastEmpty(es, hash, nch, table[..]);
        hp := hp + 1;
      }
      FirstSlot(es, hash, nch, table[..], v, hp);
      return None;
    }

    /** The final pass: parent addresses become pointers. */
    method LinkParents()
      requires Indexed()
      modifies this`pa
      ensures Loaded()
    {
      hide Filled;
      var ps: seq<Option<nat>> := [];
      while |ps| < |es|
        invariant |ps| <= |es| && forall i | 0 <= i < |ps| :: ps[i] == Parent(es, es[i])
      {
        var r: Option<nat> := None;
        if es[|ps|].parent != 0 {
          r := Address(es[|ps|].parent);
        }
        ps := ps + [r];
      }
      pa := ps;
    }

    /** The assembly loop, from the name of entry `n` upwards. */
    method Climb(n: nat, buf: array<char>, isRoot: (int, string) -> bool) returns (rlen: nat, full: bool, ghost k: nat)
      requires Loaded() && n < |es| && |es[n].name| < buf.Length
      modifies buf
      ensures rlen < buf.Length && buf[buf.Length - 1] == '\0'
      ensures Longest(es, n, k, buf.Length - 1) && buf[rlen..buf.Length - 1] == PathUp(es, n, k)
      ensures full <==> Ancestor(es, n, k + 1).None?
                        && isRoot(es[Ancestor(es, n, k).value].parent, PathUp(es, n, k))
    {
      hide Indexed, Ancestor, PathUp, Parent;
      NoneUp(es, n);
      var end, at := buf.Length - 1, n;
      k, rlen, full := 0, end - |es[n].name|, false;
      buf[end] := '\0';
      CopyTo(buf, rlen, es[n].name);
      while true
        invariant at < |es| && Ancestor(es, n, k) == Some(at) && rlen == end - |PathUp(es, n, k)|
        invariant buf[rlen..end] == PathUp(es, n, k) && buf[end] == '\0'
        decreases rlen
      {
        OneUp(es, n, k, at);
        if pa[at].None? {
          full := isRoot(es[at].parent, buf[rlen..end]);
          break;
        }
        at := pa[at].value;
        if |es[at].name| + 1 > rlen {
          break;
        }
        rlen := Prepend(buf, rlen, es[at].name);
        k := k + 1;
      }
    }

    /**
     * ncache_lookup().  A path, with a NUL after it, ends the buffer and begins
     * at the place returned; `full` reports that it reached a root.  Parent
     * pointers may form a cycle.  An empty reply stands for the mount point.
     */
    method Lookup(v: Node, mounts: seq<Mount>, buf: array<char>, isRoot: (int, string) -> bool)
      returns (r: Reply, full: bool, ghost k: nat)
      requires Loaded() && buf.Length > 0 && buf as object != table
      modifies buf
      ensures r.MountPoint? ==> buf[0] == '\0' && !full
      ensures var e := Earliest(es, v.address, 0);
              if OnMountPoint(v) || (e.None? && Mounted(v, mounts)) then r.MountPoint?
              else if e.None? || |es[e.value].name| > buf.Length - 1 then r.NoName? && !full
              else
                && r.Path? && r.at < buf.Length && buf[buf.Length - 1] == '\0'
                && Longest(es, e.value, k, buf.Length - 1)
                && buf[r.at..buf.Length - 1] == PathUp(es, e.value, k)
                && (full <==> Ancestor(es, e.value, k + 1).None?
                              && isRoot(es[Ancestor(es, e.value, k).value].parent, PathUp(es, e.value, k)))
    {
      hide Indexed, Ancestor, PathUp, Mounted;
      k, full := 0, false;
      buf[0] := '\0';
      if v.inode.Some? && v.fsIno != 0 && v.inode.value == v.fsIno {
        return MountPoint, false, 0;
      }
      var lc := Address(v.address);
      if lc.None? {
        var known := FindMount(v, mounts);
        return if known then MountPoint else NoName, false, 0;
      }
      if |es[lc.value].name| > buf.Length - 1 {
        return NoName, false, 0;
      }
      var rlen;
      rlen, full, k := Climb(lc.value, buf, isRoot);
      r := Path(rlen);
    }
  }
}
