/** lkupdev(), lkupbdev() and vfy_dev(): a binary search that rereads the
    device table when the cache it came from proves stale. */
module DevLookup {
  import opened Common
  import opened DevTable

  /** What is looked up.  `exact` is the inode matching of `i != 0 && ty == 1`. */
  datatype Query = Query(rdev: nat, inode: nat, exact: bool)

  predicate Matches(q: Query, d: Dev) {
    q.rdev == d.rdev && (q.exact ==> q.inode == d.inode)
  }

  ghost predicate HasMatch(q: Query, d: seq<Dev>) {
    exists i | 0 <= i < |d| :: Matches(q, d[i])
  }

  /** The world outside: what stat() says of a name now, the devices that
      reading /dev now would find, and the order qsort() would put them in. */
  datatype World = World(stat: string -> Option<(nat, nat)>, scan: seq<Dev>, order: seq<nat>)

  /** The order is one that compdev() allows, of all the devices. */
  ghost predicate WorldOk(w: World) {
    Points(w.scan, w.order) && Sorted(w.scan, w.order) && forall k | 0 <= k < |w.scan| :: k in w.order
  }

  /** The table that reading /dev now gives */
  ghost function Fresh(w: World): seq<Dev>
    requires WorldOk(w)
  {
    Select(w.scan, Kept(w.scan, w.order))
  }

  /** It is strictly sorted and has every device found, under its least name. */
  lemma FreshIsComplete(w: World)
    requires WorldOk(w)
    ensures Strict(Fresh(w)) && CoversAll(Fresh(w), w.scan)
  {
    hide Kept, Sorted, Strict, Covers;
    KeptIsStrict(w.scan, w.order);
    forall x | x in w.scan ensures Covers(Fresh(w), x) {
      var k :| 0 <= k < |w.scan| && w.scan[k] == x;
      assert k in w.order;
      var h :| 0 <= h < |w.order| && w.order[h] == k;
      assert Select(w.scan, w.order)[h] == x;
    }
  }

  predicate Confirms(w: World, d: Dev) {
    w.stat(d.name) == Some((d.rdev, d.inode))
  }

  /** A match does not lie on the side of `d` that the search gives up. */
  lemma GiveUpSide(q: Query, d: seq<Dev>, mid: nat, i: nat)
    requires Strict(d) && mid < |d| && i < |d| && Matches(q, d[i]) && !Matches(q, d[mid])
    ensures q.rdev < d[mid].rdev || (q.rdev == d[mid].rdev && q.inode < d[mid].inode) <==> i < mid
    ensures i != mid
  {
    if i < mid { assert KeyLess(d[i], d[mid]); }
    if mid < i { assert KeyLess(d[mid], d[i]); }
  }

  class Devices {
    const world: World
    const devDev: nat
    var sdev: seq<Dev>   // the table in force, in pointer order
    var v: seq<bool>     // each entry's verify status
    var unsafe: bool     // DCunsafe
    ghost var rereads: nat
    ghost var searches: nat

    /** Every verified entry was confirmed by stat(). */
    ghost predicate Valid()
      reads this
    {
      && Strict(sdev) && WorldOk(world) && |v| == |sdev|
      && forall i | 0 <= i < |v| && v[i] :: Confirms(world, sdev[i])
    }

    constructor (world: World, devDev: nat, cached: seq<Dev>, stale: bool)
      requires WorldOk(world) && Strict(cached)
      ensures Valid() && sdev == cached && unsafe == stale && rereads == 0 && searches == 0
      ensures this.world == world && this.devDev == devDev
    {
      this.world, this.devDev := world, devDev;
      sdev, v, unsafe, rereads, searches := cached, seq(|cached|, _ => false), stale, 0, 0;
    }

    /** rereaddev(): clear the table, read /dev, sort and remove duplicates */
    method Reread()
      requires Valid()
      modifies this`sdev, this`v, this`unsafe, this`rereads
      ensures Valid() && sdev == Fresh(world) && !unsafe && rereads == old(rereads) + 1
    {
      hide Kept, Sorted, Strict, Dropped;
      var table := new Table(world.scan, []);
      var order := world.order;
      var p := new nat[|order|](i requires 0 <= i < |order| => order[i]);
      assert p[..] == order;
      var n := table.RemoveDuplicates(p);
      sdev := Select(world.scan, p[..n]);
      v := seq(|sdev|, _ => false);
      unsafe := false;
      rereads := rereads + 1;
      FreshIsComplete(world);
    }

    /** vfy_dev() on entry `k` */
    method Verify(k: nat) returns (ok: bool)
      requires Valid() && k < |sdev|
      modifies this`sdev, this`v, this`unsafe, this`rereads
      ensures Valid()
      ensures ok ==> sdev == old(sdev) && unsafe == old(unsafe) && rereads == old(rereads) && (unsafe ==> v[k])
      ensures !ok ==> old(unsafe) && !unsafe && sdev == Fresh(world) && rereads == old(rereads) + 1
      ensures ok == (!old(unsafe) || old(v[k]) || Confirms(world, old(sdev[k])))
    {
      if !unsafe || v[k] {
        return true;
      }
      if world.stat(sdev[k].name) != Some((sdev[k].rdev, sdev[k].inode)) {
        Reread();
        return false;
      }
      v := v[k := true];
      return true;
    }

    lemma GiveUp(q: Query, mid: nat)
      requires Valid() && mid < |sdev| && !Matches(q, sdev[mid])
      ensures var d := sdev[mid];
              forall i | 0 <= i < |sdev| && Matches(q, sdev[i]) ::
                i != mid && (q.rdev < d.rdev || (q.rdev == d.rdev && q.inode < d.inode) <==> i < mid)
    {
      forall i | 0 <= i < |sdev| && Matches(q, sdev[i]) { GiveUpSide(q, sdev, mid, i); }
    }

    /** The binary search: an entry that matches, or none when there is none. */
    method Search(q: Query) returns (r: Option<nat>)
      requires Valid()
      modifies this`searches
      ensures searches == old(searches) + 1
      ensures r.Some? ==> r.value < |sdev| && Matches(q, sdev[r.value])
      ensures r.Some? <==> HasMatch(q, sdev)
    {
      searches := searches + 1;
      var low, hi := 0, |sdev| - 1;
      while low <= hi
        invariant 0 <= low <= hi + 1 <= |sdev| && searches == old(searches) + 1
        invariant forall i | 0 <= i < |sdev| && Matches(q, sdev[i]) :: low <= i <= hi
      {
        var mid := (low + hi) / 2;
        var d := sdev[mid];
        if !Matches(q, d) {
          GiveUp(q, mid);
        }
        if q.rdev < d.rdev {
          hi := mid - 1;
        } else if q.rdev > d.rdev {
          low := mid + 1;
        } else {
          if !q.exact || q.inode == d.inode {
            return Some(mid);
          }
          if q.inode < d.inode {
            hi := mid - 1;
          } else {
            low := mid + 1;
          }
        }
      }
      return None;
    }

    /**
     * lkupdev().  It searches at most twice, the second time in a table read
     * anew.  There is an answer exactly when the table then in force has a
     * match, and an answer from a table still marked unsafe is confirmed.
     */
    method Lookup(dev: nat, q: Query, rebuild: bool) returns (r: Option<nat>)
      requires Valid()
      modifies this
      ensures Valid()
      ensures searches == old(searches) + (if dev == devDev then 1 + rereads - old(rereads) else 0) <= old(searches) + 2
      ensures dev != devDev ==> r.None? && sdev == old(sdev) && unsafe == old(unsafe)
      ensures r.Some? ==> r.value < |sdev| && Matches(q, sdev[r.value])
      ensures r.Some? && unsafe ==> Confirms(world, sdev[r.value])
      ensures dev == devDev ==> (r.Some? <==> HasMatch(q, sdev))
      ensures if rereads == old(rereads) then sdev == old(sdev) && unsafe == old(unsafe)
              else rereads == old(rereads) + 1 && old(unsafe) && !unsafe && sdev == Fresh(world)
      ensures dev == devDev && r.None? && rebuild ==> !unsafe
    {
      hide Strict, WorldOk, Fresh, Confirms;
      if dev != devDev {
        return None;
      }
      while true
        invariant Valid() && searches == old(searches) + (rereads - old(rereads))
        invariant if rereads == old(rereads) then sdev == old(sdev) && unsafe == old(unsafe)
                  else rereads == old(rereads) + 1 && old(unsafe) && !unsafe && sdev == Fresh(world)
        decreases unsafe
      {
        r := Search(q);
        if r.Some? {
          if unsafe && !v[r.value] {
            var ok := Verify(r.value);
            if !ok {
              continue;
            }
          }
          return;
        }
        if !(unsafe && rebuild) {
          return;
        }
        Reread();
      }
    }
  }
}
