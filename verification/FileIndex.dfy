/** The hash index over the file search arguments (lib/isfn.c). */
module FileIndex {
  import opened Common

  // ----- Search arguments and questions -----

  /** A search argument; `whole` means it names a file system (type 0). */
  datatype Sfile = Sfile(aname: Option<string>, whole: bool, special: bool, dev: int, rdev: int, ino: int)

  /** What is_file_named() is asked: the path, if any, the character or block
      mark, and what is known of the open file. */
  datatype Query = Query(path: Option<string>, cd: bool, stream: bool, dev: Option<int>, rdev: Option<int>,
                         inode: int, inodeDefined: bool)

  /** The dialect: the clone major number, if it has one, the device number of
      /dev, and how device numbers split. */
  datatype Dialect = Dialect(cloneMajor: Option<int>, devDev: int, major: int -> int, minor: int -> int)

  // ----- The linear scan -----

  predicate NameMatch(q: Query, s: Sfile) {
    q.path.Some? && s.aname == q.path
  }

  predicate CloneMatch(d: Dialect, q: Query, s: Sfile) {
    && d.cloneMajor.Some? && d.major(s.rdev) == d.cloneMajor.value
    && q.stream && q.dev == Some(d.devDev) && q.rdev.Some? && d.minor(s.rdev) == d.major(q.rdev.value)
  }

  predicate FileMatch(q: Query, s: Sfile) {
    !s.whole && q.dev == Some(s.dev) && q.inodeDefined && q.inode == s.ino
  }

  predicate FileSystemMatch(q: Query, s: Sfile) {
    s.whole && q.dev == Some(s.dev)
  }

  predicate RawMatch(d: Dialect, q: Query, s: Sfile) {
    && s.special && q.cd && q.dev == Some(d.devDev) && q.dev == Some(s.dev)
    && q.rdev == Some(s.rdev) && q.inodeDefined && q.inode == s.ino
  }

  /** The search argument names the open file. */
  predicate Names(d: Dialect, q: Query, s: Sfile) {
    NameMatch(q, s) || CloneMatch(d, q, s) || FileMatch(q, s) || FileSystemMatch(q, s)
  }

  /** The raw-device stage adds nothing to the stages before it. */
  lemma RawAddsNothing(d: Dialect, q: Query, s: Sfile)
    requires RawMatch(d, q, s)
    ensures FileMatch(q, s) || FileSystemMatch(q, s)
  {
  }

  // ----- Hash keys -----

  datatype Stage = NameStage | CloneStage | FileStage | FileSystemStage | RawStage

  datatype Key = NameKey(name: string) | CloneKey(minor: int) | FileKey(dev: int, ino: int) | FileSystemKey(dev: int)
               | RawKey(dev: int, rdev: int, ino: int)

  /** SFNMHASH, SFCDHASH, SFDIHASH, SFFSHASH and SFRDHASH */
  function Size(g: Stage): nat {
    match g
    case NameStage => 4096
    case FileStage => 4094
    case _ => 1024
  }

  /** One less than the bucket count, by which every hash is masked at last */
  function Mask(g: Stage): bv32 {
    match g
    case NameStage => 4095
    case FileStage => 4093
    case _ => 1023
  }

  /** The bucket of a mixed value: in range although 4094 is not a power of
      two, and for that count one of only half of the buckets */
  function Slot(g: Stage, x: bv32): (slot: nat)
    ensures slot < Size(g) && (g == FileStage ==> x & Mask(g) & 2 == 0)
  {
    (x & Mask(g)) as nat
  }

  /** The key under which hashSfile() enters a search argument in a stage's buckets */
  function Entered(d: Dialect, g: Stage, s: Sfile): Option<Key> {
    match g
    case NameStage => if s.aname.Some? then Some(NameKey(s.aname.value)) else None
    case CloneStage =>
      if d.cloneMajor.Some? && d.major(s.rdev) == d.cloneMajor.value then Some(CloneKey(d.minor(s.rdev))) else None
    case FileStage => if s.whole then None else Some(FileKey(s.dev, s.ino))
    case FileSystemStage => if s.whole then Some(FileSystemKey(s.dev)) else None
    case RawStage => if s.special then Some(RawKey(s.dev, s.rdev, s.ino)) else None
  }

  /** The key is_file_named() looks up in a stage, if its guards let it look */
  function Asked(d: Dialect, g: Stage, q: Query): Option<Key> {
    match g
    case NameStage => if q.path.Some? then Some(NameKey(q.path.value)) else None
    case CloneStage =>
      if q.stream && q.rdev.Some? && q.dev == Some(d.devDev) then Some(CloneKey(d.major(q.rdev.value))) else None
    case FileStage => if q.dev.Some? && q.inodeDefined then Some(FileKey(q.dev.value, q.inode)) else None
    case FileSystemStage => if q.dev.Some? then Some(FileSystemKey(q.dev.value)) else None
    case RawStage =>
      if q.cd && q.dev == Some(d.devDev) && q.rdev.Some? && q.inodeDefined
      then Some(RawKey(d.devDev, q.rdev.value, q.inode)) else None
  }

  /** A stage's key equality is that stage's match. */
  predicate StageMatch(d: Dialect, g: Stage, q: Query, s: Sfile) {
    Asked(d, g, q).Some? && Entered(d, g, s) == Asked(d, g, q)
  }

  lemma StagesAreMatches(d: Dialect, q: Query, s: Sfile)
    ensures StageMatch(d, NameStage, q, s) <==> NameMatch(q, s)
    ensures StageMatch(d, CloneStage, q, s) <==> CloneMatch(d, q, s)
    ensures StageMatch(d, FileStage, q, s) <==> FileMatch(q, s)
    ensures StageMatch(d, FileSystemStage, q, s) <==> FileSystemMatch(q, s)
    ensures StageMatch(d, RawStage, q, s) <==> RawMatch(d, q, s)
  {
  }

  // ----- Buckets -----

  /** A stage's bucket heads with their chains, and the count of what was entered */
  datatype Table = Table(buckets: seq<seq<nat>>, count: nat)

  type Hash = (Stage, Key) -> nat

  ghost predicate InRange(hash: Hash) {
    forall g, k :: hash(g, k) < Size(g)
  }

  /** Every hash that ends with the mask is in range, however it mixes. */
  lemma MaskedIsInRange(mix: (Stage, Key) -> bv32, hash: Hash)
    requires forall g, k :: hash(g, k) == Slot(g, mix(g, k))
    ensures InRange(hash)
  {
    hide Slot, Size;
  }

  /** Entry `i` is in the chain of its key, if it has one. */
  ghost predicate Entry(d: Dialect, hash: Hash, g: Stage, t: Table, s: Sfile, i: nat)
    requires InRange(hash) && |t.buckets| == Size(g)
  {
    Entered(d, g, s).Some? ==> t.count > 0 && i in t.buckets[hash(g, Entered(d, g, s).value)]
  }

  /** Every entry of a chain is one of the first `n` search arguments and has a key. */
  ghost predicate ChainOk(d: Dialect, g: Stage, chain: seq<nat>, list: seq<Sfile>, n: nat)
    requires n <= |list|
  {
    forall m | 0 <= m < |chain| :: chain[m] < n && Entered(d, g, list[chain[m]]).Some?
  }

  /** Every chain holds search arguments, and the first `n` are all in their chains. */
  ghost predicate Indexes(d: Dialect, hash: Hash, g: Stage, t: Table, list: seq<Sfile>, n: nat)
    requires InRange(hash) && n <= |list|
  {
    && |t.buckets| == Size(g)
    && (forall j | 0 <= j < |t.buckets| :: ChainOk(d, g, t.buckets[j], list, n))
    && (forall i | 0 <= i < n :: Entry(d, hash, g, t, list[i], i))
  }

  /** A new chain member becomes the head, or goes after the head. */
  function Linked(chain: seq<nat>, n: nat): (longer: seq<nat>)
    ensures forall i :: i in longer <==> i == n || i in chain
  {
    if chain == [] then [n] else [chain[0], n] + chain[1..]
  }

  lemma ChainGrows(d: Dialect, g: Stage, chain: seq<nat>, list: seq<Sfile>, n: nat)
    requires n < |list| && ChainOk(d, g, chain, list, n) && Entered(d, g, list[n]).Some?
    ensures ChainOk(d, g, Linked(chain, n), list, n + 1)
  {
    forall m | 0 <= m < |Linked(chain, n)|
      ensures Linked(chain, n)[m] < n + 1 && Entered(d, g, list[Linked(chain, n)[m]]).Some?
    {
      assert Linked(chain, n)[m] in Linked(chain, n);
    }
  }

  /** hashSfile() for one search argument and one stage */
  method Enter(d: Dialect, hash: Hash, g: Stage, t: Table, ghost list: seq<Sfile>, s: Sfile, n: nat) returns (t': Table)
    requires InRange(hash) && n < |list| && list[n] == s && Indexes(d, hash, g, t, list, n)
    ensures Indexes(d, hash, g, t', list, n + 1)
  {
    hide Entered, Size, Linked;
    if Entered(d, g, s).None? {
      return t;
    }
    var slot := hash(g, Entered(d, g, s).value);
    t' := Table(t.buckets[slot := Linked(t.buckets[slot], n)], t.count + 1);
    forall i | 0 <= i < n ensures Entry(d, hash, g, t', list[i], i) {
      assert Entry(d, hash, g, t, list[i], i);
    }
    ChainGrows(d, g, t.buckets[slot], list, n);
  }

  /** Walk one bucket's chain for a key. */
  method Find(d: Dialect, hash: Hash, g: Stage, t: Table, list: seq<Sfile>, k: Key) returns (r: Option<nat>)
    requires InRange(hash) && Indexes(d, hash, g, t, list, |list|)
    ensures r.Some? ==> r.value < |list| && Entered(d, g, list[r.value]) == Some(k)
    ensures r.None? ==> forall i | 0 <= i < |list| :: Entered(d, g, list[i]) != Some(k)
  {
    var chain := t.buckets[hash(g, k)];
    var m := 0;
    while m < |chain|
      invariant 0 <= m <= |chain|
      invariant forall h | 0 <= h < m :: Entered(d, g, list[chain[h]]) != Some(k)
    {
      if Entered(d, g, list[chain[m]]) == Some(k) {
        return Some(chain[m]);
      }
      m := m + 1;
    }
    forall i | 0 <= i < |list| ensures Entered(d, g, list[i]) != Some(k) {
      assert Entry(d, hash, g, t, list[i], i);
    }
    return None;
  }

  // ----- The index -----

  class SearchList {
    const dialect: Dialect
    const hash: Hash
    const list: seq<Sfile>   // Sfile, in chain order
    var found: seq<bool>     // their f marks
    var hashed: bool         // Hs
    var byName: Table
    var byClone: Table
    var byFile: Table
    var byFileSystem: Table
    var byRaw: Table

    ghost predicate Upto(n: nat)
      requires InRange(hash) && n <= |list|
      reads this
    {
      && Indexes(dialect, hash, NameStage, byName, list, n)
      && Indexes(dialect, hash, CloneStage, byClone, list, n)
      && Indexes(dialect, hash, FileStage, byFile, list, n)
      && Indexes(dialect, hash, FileSystemStage, byFileSystem, list, n)
      && Indexes(dialect, hash, RawStage, byRaw, list, n)
    }

    /** Before hashSfile() nothing is counted; after it everything is indexed,
        unless there was nothing to index. */
    ghost predicate Valid()
      reads this
    {
      && InRange(hash) && |found| == |list|
      && (if hashed then Upto(|list|)
          else byName.count == byClone.count == byFile.count == byFileSystem.count == byRaw.count == 0)
    }

    constructor (dialect: Dialect, hash: Hash, list: seq<Sfile>)
      requires InRange(hash)
      ensures Valid() && !hashed && this.list == list && this.dialect == dialect
    {
      this.dialect, this.hash, this.list := dialect, hash, list;
      found, hashed := seq(|list|, _ => false), false;
      byName, byClone, byFile, byFileSystem, byRaw := Table([], 0), Table([], 0), Table([], 0), Table([], 0), Table([], 0);
    }

    /** hashSfile() */
    method HashAll()
      requires Valid()
      modifies this
      ensures Valid() && found == old(found) && (hashed <==> old(hashed) || list != [])
    {
      if list == [] || hashed {
        return;
      }
      AllFresh();
      hashed := true;
      var n := 0;
      while n < |list|
        invariant 0 <= n <= |list| && hashed && found == old(found) && Upto(n)
      {
        EnterAll(n);
        n := n + 1;
      }
    }

    /** Allocate the buckets. */
    method AllFresh()
      requires InRange(hash)
      modifies this`byName, this`byClone, this`byFile, this`byFileSystem, this`byRaw
      ensures Upto(0)
    {
      hide Indexes;
      byName, byClone := Fresh(NameStage), Fresh(CloneStage);
      byFile, byFileSystem, byRaw := Fresh(FileStage), Fresh(FileSystemStage), Fresh(RawStage);
      FreshIndexes(NameStage);
      FreshIndexes(CloneStage);
      FreshIndexes(FileStage);
      FreshIndexes(FileSystemStage);
      FreshIndexes(RawStage);
    }

    /** Enter one search argument in every stage's buckets. */
    method EnterAll(n: nat)
      requires InRange(hash) && n < |list| && Upto(n)
      modifies this`byName, this`byClone, this`byFile, this`byFileSystem, this`byRaw
      ensures Upto(n + 1)
    {
      hide Indexes;
      byName := Enter(dialect, hash, NameStage, byName, list, list[n], n);
      byFile := Enter(dialect, hash, FileStage, byFile, list, list[n], n);
      byFileSystem := Enter(dialect, hash, FileSystemStage, byFileSystem, list, list[n], n);
      byRaw := Enter(dialect, hash, RawStage, byRaw, list, list[n], n);
      byClone := Enter(dialect, hash, CloneStage, byClone, list, list[n], n);
    }

    function Fresh(g: Stage): Table {
      Table(seq(Size(g), _ => []), 0)
    }

    lemma FreshIndexes(g: Stage)
      requires InRange(hash)
      ensures Indexes(dialect, hash, g, Fresh(g), list, 0)
    {
    }

    /** A stage's buckets can answer for every search argument. */
    ghost predicate Answers(g: Stage, t: Table)
      requires InRange(hash)
    {
      if t.count > 0 then Indexes(dialect, hash, g, t, list, |list|)
      else forall i | 0 <= i < |list| :: Entered(dialect, g, list[i]).None?
    }

    lemma IndexAnswers(g: Stage, t: Table)
      requires InRange(hash) && Indexes(dialect, hash, g, t, list, |list|)
      ensures Answers(g, t)
    {
      forall i | 0 <= i < |list| ensures t.count > 0 || Entered(dialect, g, list[i]).None? {
        assert Entry(dialect, hash, g, t, list[i], i);
      }
    }

    /** Nothing on the list matches in this stage. */
    ghost predicate Misses(g: Stage, q: Query) {
      forall i | 0 <= i < |list| :: !StageMatch(dialect, g, q, list[i])
    }

    /** Entry `w` matches in a stage, and no stage before it matches anything. */
    ghost predicate FirstMatch(q: Query, w: nat) {
      && w < |list|
      && (|| StageMatch(dialect, NameStage, q, list[w])
          || (Misses(NameStage, q) && StageMatch(dialect, CloneStage, q, list[w]))
          || (Misses(NameStage, q) && Misses(CloneStage, q) && StageMatch(dialect, FileStage, q, list[w]))
          || (&& Misses(NameStage, q) && Misses(CloneStage, q) && Misses(FileStage, q)
              && StageMatch(dialect, FileSystemStage, q, list[w])))
    }

    /** One stage of is_file_named(): skipped when its guards fail or when
        nothing was entered. */
    method LookIn(g: Stage, t: Table, q: Query) returns (r: Option<nat>)
      requires InRange(hash) && Answers(g, t)
      ensures r.Some? ==> r.value < |list| && StageMatch(dialect, g, q, list[r.value])
      ensures r.None? ==> Misses(g, q)
    {
      r := None;
      if t.count > 0 && Asked(dialect, g, q).Some? {
        r := Find(dialect, hash, g, t, list, Asked(dialect, g, q).value);
      }
    }

    /** The first four stages in turn */
    method Search(q: Query) returns (r: Option<nat>)
      requires Valid() && hashed
      ensures r.Some? ==> FirstMatch(q, r.value)
      ensures r.None? ==> Misses(NameStage, q) && Misses(CloneStage, q) && Misses(FileStage, q) && Misses(FileSystemStage, q)
    {
      hide Indexes, Answers, Misses, StageMatch;
      IndexAnswers(NameStage, byName);
      r := LookIn(NameStage, byName, q);
      if r.None? {
        IndexAnswers(CloneStage, byClone);
        r := LookIn(CloneStage, byClone, q);
      }
      if r.None? {
        IndexAnswers(FileStage, byFile);
        r := LookIn(FileStage, byFile, q);
      }
      if r.None? {
        IndexAnswers(FileSystemStage, byFileSystem);
        r := LookIn(FileSystemStage, byFileSystem, q);
      }
    }

    /** is_file_named(): yes exactly if a scan of the list finds an argument
        naming the file, and then one such argument is marked. */
    method IsNamed(q: Query) returns (named: bool)
      requires Valid()
      modifies this`found
      ensures Valid()
      ensures named <==> hashed && exists i | 0 <= i < |list| :: Names(dialect, q, list[i])
      ensures !named ==> found == old(found)
      ensures named ==> exists w: nat | FirstMatch(q, w) :: Names(dialect, q, list[w]) && found == old(found)[w := true]
    {
      if !hashed {
        return false; // every count is zero
      }
      var r := Search(q);
      forall i | 0 <= i < |list| { StagesAreMatches(dialect, q, list[i]); }
      if r.None? {
        IndexAnswers(RawStage, byRaw);
        r := LookIn(RawStage, byRaw, q);
        if r.Some? {
          RawAddsNothing(dialect, q, list[r.value]);
          assert false;
        }
        return false;
      }
      found := found[r.value := true];
      return true;
    }
  }
}
