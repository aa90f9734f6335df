/** The cache of folder listings behind DirExists (internal/catalog/locate.go): a kept listing is used
    while the folder's stat is unchanged. Timestamps are coarse, so a stat alone does not show that
    nothing changed; a listing read too soon after a change is therefore not kept. */
module DirListings {
  import opened Wrappers

  type Time = int

  type Name = string

  datatype Key = Key(root: string, dir: string)

  const SECOND: int := 1_000_000_000

  const TTL: int := 30 * SECOND

  const RACY: int := 2 * SECOND

  const MAX_NAMES: nat := 0x10_0000

  datatype InodeId = InodeId(dev: int, ino: int)

  datatype Stamp = Stamp(id: InodeId, size: int, mtime: Time, ctime: Time)

  /** A folder: its entries and the times its last change left. */
  datatype Inode = Inode(names: set<Name>, size: int, mtime: Time, ctime: Time)

  /** The disk: which folder a path leads to, and the folders. */
  datatype Disk = Disk(now: Time, paths: map<Key, InodeId>, inodes: map<InodeId, Inode>)

  datatype Listing = Listing(stamp: Stamp, read: Time, names: set<Name>)

  function StampOf(id: InodeId, i: Inode): Stamp {
    Stamp(id, i.size, i.mtime, i.ctime)
  }

  function Max(a: int, b: int): int {
    if a > b then a else b
  }

  /** Every change of a folder, its creation too, stamps it with the time of the change, rounded down by
      at most RACY, on a clock that never goes back. Paths may come to lead anywhere. */
  predicate Evolves(a: Disk, b: Disk) {
    && a.now <= b.now
    && forall id :: id in b.inodes ==> SameOrStamped(a, b, id)
  }

  predicate SameOrStamped(a: Disk, b: Disk, id: InodeId)
    requires id in b.inodes
  {
    (id in a.inodes && b.inodes[id] == a.inodes[id]) || Stamped(b.inodes[id], a.now)
  }

  predicate Stamped(i: Inode, t: Time) {
    Max(i.mtime, i.ctime) >= t - RACY
  }

  lemma EvolvesOn(a: Disk, b: Disk, c: Disk)
    requires Evolves(a, b) && Evolves(b, c)
    ensures Evolves(a, c)
  {
    forall id | id in c.inodes ensures SameOrStamped(a, c, id) {
      assert SameOrStamped(b, c, id);
      assert id in b.inodes ==> SameOrStamped(a, b, id);
    }
  }

  /** A folder whose stat is the listing's has the listing's entries. */
  predicate Trusted(l: Listing, d: Disk) {
    && l.read <= d.now
    && Max(l.stamp.mtime, l.stamp.ctime) < l.read - RACY
    && (l.stamp.id in d.inodes && StampOf(l.stamp.id, d.inodes[l.stamp.id]) == l.stamp ==>
        d.inodes[l.stamp.id].names == l.names)
  }

  /** That stays so whatever happens. */
  lemma TrustedLater(l: Listing, a: Disk, b: Disk)
    requires Trusted(l, a) && Evolves(a, b)
    ensures Trusted(l, b)
  {
    if l.stamp.id in b.inodes {
      assert SameOrStamped(a, b, l.stamp.id);
    }
  }

  predicate StatTellsNames(a: Disk, b: Disk, id: InodeId)
    requires id in a.inodes
  {
    id in b.inodes && StampOf(id, b.inodes[id]) == StampOf(id, a.inodes[id]) ==>
      b.inodes[id].names == a.inodes[id].names
  }

  /** keep's condition is exact: an unchanged stat will always mean an unchanged folder if and only if the
      folder's last change lies more than the racy window back. */
  lemma KeepConditionIsExact(a: Disk, id: InodeId)
    requires id in a.inodes
    ensures (forall b :: Evolves(a, b) ==> StatTellsNames(a, b, id)) <==> !Stamped(a.inodes[id], a.now)
  {
    var i := a.inodes[id];
    if Stamped(i, a.now) {
      var other := if i.names == {} then {""} else {};
      var b := a.(inodes := a.inodes[id := i.(names := other)]);
      assert Evolves(a, b) && !StatTellsNames(a, b, id);
    } else {
      forall b | Evolves(a, b) ensures StatTellsNames(a, b, id) {
        if id in b.inodes {
          assert SameOrStamped(a, b, id);
        }
      }
    }
  }

  /** Listing a folder: the entries, exact when nothing changed it meanwhile; otherwise a mix. */
  ghost predicate ReadNames(a: Disk, b: Disk, id: InodeId, names: set<Name>) {
    && Evolves(a, b)
    && id in a.inodes
    && ((id in b.inodes && b.inodes[id] == a.inodes[id] && names == a.inodes[id].names)
        || (id in b.inodes ==> Stamped(b.inodes[id], a.now)))
  }

  /** A listing worth keeping may be trusted: start is before the stat, and the stat before the reading. */
  lemma KeptIsTrusted(start: Disk, a: Disk, b: Disk, id: InodeId, names: set<Name>)
    requires Evolves(start, a) && ReadNames(a, b, id, names)
    requires var st := StampOf(id, a.inodes[id]); Max(st.mtime, st.ctime) < start.now - RACY
    ensures Trusted(Listing(StampOf(id, a.inodes[id]), start.now, names), b)
  {
  }

  // ---- The counter ----

  function Del(m: map<Key, Listing>, key: Key): map<Key, Listing> {
    map k | k in m && k != key :: m[k]
  }

  ghost function Total(m: map<Key, Listing>): nat
    decreases |m.Keys|
  {
    if m == map[] then 0
    else
      var k :| k in m;
      assert Del(m, k).Keys == m.Keys - {k};
      |m[k].names| + Total(Del(m, k))
  }

  lemma {:induction false} TotalWithout(m: map<Key, Listing>, key: Key)
    requires key in m
    ensures Total(m) == |m[key].names| + Total(Del(m, key))
    decreases |m.Keys|
  {
    var k :| k in m && Total(m) == |m[k].names| + Total(Del(m, k));
    if k != key {
      assert Del(m, k).Keys == m.Keys - {k} && Del(m, key).Keys == m.Keys - {key};
      TotalWithout(Del(m, k), key);
      TotalWithout(Del(m, key), k);
      assert Del(Del(m, k), key) == Del(Del(m, key), k);
    }
  }

  lemma TotalWith(m: map<Key, Listing>, key: Key, l: Listing)
    requires key !in m
    ensures Total(m[key := l]) == Total(m) + |l.names|
  {
    TotalWithout(m[key := l], key);
    assert Del(m[key := l], key) == m;
  }

  ghost predicate AllTrusted(m: map<Key, Listing>, d: Disk) {
    forall k :: k in m ==> Trusted(m[k], d)
  }

  lemma AllTrustedLater(m: map<Key, Listing>, a: Disk, b: Disk)
    requires AllTrusted(m, a) && Evolves(a, b)
    ensures AllTrusted(m, b)
  {
    forall k | k in m ensures Trusted(m[k], b) {
      TrustedLater(m[k], a, b);
    }
  }

  /** The cache after one more listing, and after one less. */
  lemma Keeping(m: map<Key, Listing>, key: Key, l: Listing, d: Disk)
    requires AllTrusted(m, d) && key !in m && Trusted(l, d)
    ensures AllTrusted(m[key := l], d) && Total(m[key := l]) == Total(m) + |l.names|
  {
    TotalWith(m, key, l);
  }

  lemma Dropping(m: map<Key, Listing>, key: Key, d: Disk)
    requires AllTrusted(m, d) && key in m
    ensures AllTrusted(Del(m, key), d) && Total(Del(m, key)) == Total(m) - |m[key].names|
  {
    TotalWithout(m, key);
  }

  /** What a call of lists saw: a kept listing whose stat still matched when the disk was at, or a reading
      of folder id that began when the disk was at and ended when it was end. */
  datatype Seen =
    | Kept(used: Listing, at: Disk)
    | Read(id: InodeId, at: Disk, end: Disk, names: set<Name>)

  predicate LeadsTo(d: Disk, key: Key) {
    key in d.paths && d.paths[key] in d.inodes
  }

  /** A listing that is kept, young enough and names name, of a folder whose stat is the listing's. */
  predicate Usable(m: map<Key, Listing>, d: Disk, key: Key, name: Name) {
    && key in m && d.now - m[key].read < TTL && name in m[key].names && LeadsTo(d, key)
    && StampOf(d.paths[key], d.inodes[d.paths[key]]) == m[key].stamp
  }

  /** The folder key led to, when the disk was d, lists name. */
  predicate ListsName(d: Disk, key: Key, name: Name) {
    key in d.paths && d.paths[key] in d.inodes && name in d.inodes[d.paths[key]].names
  }

  class Cache {
    var m: map<Key, Listing>
    var names: int
    var swept: Time
    var listed: nat
    /** The disk as it is now, whoever changes it. */
    var disk: Disk

    ghost predicate Valid()
      reads this
    {
      names == Total(m) <= MAX_NAMES && AllTrusted(m, disk)
    }

    constructor (disk: Disk)
      ensures Valid() && this.disk == disk && m == map[]
    {
      m, names, swept, listed, this.disk := map[], 0, 0, 0, disk;
    }

    /** Time passes, and anything may happen on the disk; alone: nothing. */
    method Elapse(alone: bool)
      requires Valid()
      modifies this
      ensures Valid() && Evolves(old(disk), disk) && m == old(m) && listed == old(listed)
      ensures alone ==> disk == old(disk)
    {
      var next: Disk := *;
      if !alone && Evolves(disk, next) {
        AllTrustedLater(m, disk, next);
        disk := next;
      }
    }

    /** Other calls run, but not when alone: they keep listings read as this call reads its own. */
    method Others(alone: bool)
      requires Valid()
      modifies this
      ensures Valid() && Evolves(old(disk), disk)
      ensures alone ==> disk == old(disk) && m == old(m) && listed == old(listed)
    {
      if alone {
        return;
      }
      var n: nat := *;
      while n > 0
        invariant Valid() && Evolves(old(disk), disk)
      {
        n := n - 1;
        ghost var before := disk;
        Elapse(false);
        EvolvesOn(old(disk), before, disk);
        var key: Key, l: Listing := *, *;
        if Trusted(l, disk) {
          Keep(key, l, true);
        }
      }
    }

    /** keep: counts a reading, and keeps it when its stat is known and old enough. */
    method Keep(key: Key, l: Listing, stamped: bool)
      requires Valid() && (stamped && Max(l.stamp.mtime, l.stamp.ctime) < l.read - RACY ==> Trusted(l, disk))
      modifies this
      ensures Valid() && disk == old(disk) && listed == old(listed) + 1
      ensures forall k :: k in m && k != key ==> k in old(m) && m[k] == old(m)[k]
      ensures key in m ==> m[key] == l
      ensures key in m <==> stamped && Max(l.stamp.mtime, l.stamp.ctime) < l.read - RACY && |l.names| <= MAX_NAMES
      ensures old(names) + |l.names| <= MAX_NAMES || key !in m ==>
        forall k :: k in old(m) && k != key && disk.now - old(m)[k].read < TTL ==> k in m
    {
      listed := listed + 1;
      m, names, swept := KeepIn(m, names, swept, disk.now, key, l, stamped, disk);
    }

    /** lists: whether the folder lists name, None when it cannot be read. readable: no stat of a folder that is
        there fails; stamped: a stat tells all that a stamp holds; alone: nothing else happens meanwhile. */
    method Lists(key: Key, name: Name, readable: bool, stamped: bool, alone: bool)
      returns (r: Option<bool>, ghost seen: Option<Seen>)
      requires Valid()
      modifies this
      ensures Valid() && Evolves(old(disk), disk)
      ensures r.Some? <==> seen.Some?
      ensures r.Some? && seen.value.Kept? ==>
        r.value && Evolves(old(disk), seen.value.at) && Evolves(seen.value.at, disk)
      ensures r.Some? && seen.value.Kept? ==>
        ListsName(seen.value.at, key, name) && seen.value.used.read > old(disk).now - TTL
      ensures r.Some? && seen.value.Read? ==>
        ReadAnswer(old(disk), disk, key, seen.value) && r.value == (name in seen.value.names)
      ensures alone && readable ==>
        r == if LeadsTo(old(disk), key) then Some(ListsName(old(disk), key, name)) else None
      ensures alone && readable && stamped && Usable(old(m), old(disk), key, name) ==>
        m == old(m) && listed == old(listed)
      ensures alone && readable && LeadsTo(old(disk), key) && !(Usable(old(m), old(disk), key, name) && stamped) ==>
        listed == old(listed) + 1
    {
      ghost var first := disk;
      if key in m {
        var l := m[key];
        Elapse(alone);
        if disk.now - l.read < TTL && name in l.names {
          ghost var looked := disk;
          TrustedLater(l, first, looked);
          Others(alone);
          TrustedLater(l, looked, disk);
          EvolvesOn(first, looked, disk);
          var st := Stat(key, readable);
          if st.None? {
            return None, None;
          }
          if stamped && st.value == l.stamp {
            return Some(true), Some(Kept(l, disk));
          }
        }
      }
      r, seen := ReadFolder(first, key, name, readable, stamped, alone);
    }

    /** The stat of the folder a path leads to. */
    method Stat(key: Key, readable: bool) returns (st: Option<Stamp>)
      ensures st.Some? ==> LeadsTo(disk, key)
      ensures st.Some? ==> st.value == StampOf(disk.paths[key], disk.inodes[disk.paths[key]])
      ensures readable && LeadsTo(disk, key) ==> st.Some?
    {
      var fails: bool := *;
      if (!readable && fails) || key !in disk.paths || disk.paths[key] !in disk.inodes {
        return None;
      }
      st := Some(StampOf(disk.paths[key], disk.inodes[disk.paths[key]]));
    }

    /** The rest of lists: the folder is read, and the listing offered to keep. */
    method ReadFolder(ghost first: Disk, key: Key, name: Name, readable: bool, stamped: bool, alone: bool)
      returns (r: Option<bool>, ghost seen: Option<Seen>)
      requires Valid() && Evolves(first, disk)
      modifies this
      ensures Valid() && Evolves(first, disk)
      ensures r.Some? <==> seen.Some?
      ensures r.Some? ==> seen.value.Read? && ReadAnswer(first, disk, key, seen.value)
      ensures r.Some? ==> r.value == (name in seen.value.names)
      ensures alone && readable ==>
        r == if LeadsTo(old(disk), key) then Some(ListsName(old(disk), key, name)) else None
      ensures alone && r.Some? ==> listed == old(listed) + 1
    {
      ghost var start := disk;
      var read := disk.now;
      Others(alone);
      EvolvesOn(first, start, disk);
      var st := Stat(key, readable);
      if st.None? {
        return None, None;
      }
      ghost var a := disk;
      var id := disk.paths[key];
      var before := disk.inodes[id];
      Others(alone);
      EvolvesOn(first, a, disk);
      EvolvesOn(start, a, disk);
      var list: set<Name> := *;
      if id in disk.inodes && disk.inodes[id] == before {
        list := before.names;
      }
      assert ReadNames(a, disk, id, list) by {
        assert id in disk.inodes ==> SameOrStamped(a, disk, id);
      }
      var l := Listing(st.value, read, list);
      if Max(st.value.mtime, st.value.ctime) < start.now - RACY {
        KeptIsTrusted(start, a, disk, id, list);
      }
      Keep(key, l, stamped);
      return Some(name in list), Some(Read(id, a, disk, list));
    }
  }

  /** The reading is of the folder key led to, during the call. */
  ghost predicate ReadAnswer(first: Disk, last: Disk, key: Key, s: Seen)
    requires s.Read?
  {
    && Evolves(first, s.at) && Evolves(s.end, last) && ReadNames(s.at, s.end, s.id, s.names)
    && key in s.at.paths && s.at.paths[key] == s.id
  }

  /** keep, on the cache's fields. */
  method KeepIn(m: map<Key, Listing>, names: int, swept: Time, now: Time, key: Key, l: Listing, stamped: bool,
      ghost d: Disk)
    returns (left: map<Key, Listing>, n: int, when: Time)
    requires names == Total(m) <= MAX_NAMES && AllTrusted(m, d)
    requires stamped && Max(l.stamp.mtime, l.stamp.ctime) < l.read - RACY ==> Trusted(l, d)
    ensures n == Total(left) <= MAX_NAMES && AllTrusted(left, d)
    ensures forall k :: k in left && k != key ==> k in m && left[k] == m[k]
    ensures key in left ==> left[key] == l
    ensures key in left <==> stamped && Max(l.stamp.mtime, l.stamp.ctime) < l.read - RACY && |l.names| <= MAX_NAMES
    ensures names + |l.names| <= MAX_NAMES || key !in left ==>
      forall k :: k in m && k != key && now - m[k].read < TTL ==> k in left
  {
    left, n, when := m, names, swept;
    if key in left {
      Dropping(left, key, d);
      n := n - |left[key].names|;
      left := Del(left, key);
    }
    if !stamped || !(Max(l.stamp.mtime, l.stamp.ctime) < l.read - RACY) || |l.names| > MAX_NAMES {
      return;
    }
    left, n, when := MakeRoom(left, n, when, now, |l.names|, d);
    Keeping(left, key, l, d);
    left := left[key := l];
    n := n + |l.names|;
  }

  /** Expired listings go now and then, and all of them when the new one would not fit. */
  method MakeRoom(m: map<Key, Listing>, names: int, swept: Time, now: Time, more: nat, ghost d: Disk)
    returns (left: map<Key, Listing>, n: int, when: Time)
    requires names == Total(m) && AllTrusted(m, d) && more <= MAX_NAMES
    ensures n == Total(left) && n + more <= MAX_NAMES && AllTrusted(left, d)
    ensures forall k :: k in left ==> k in m && left[k] == m[k]
    ensures names + more <= MAX_NAMES ==> forall k :: k in m && now - m[k].read < TTL ==> k in left
  {
    left, n, when := m, names, swept;
    if now - swept >= TTL {
      left, n := Sweep(m, names, now, d);
      when := now;
    }
    if n + more > MAX_NAMES {
      left, n := map[], 0;
    }
  }

  /** Dropping the expired listings. */
  method Sweep(m: map<Key, Listing>, names: int, now: Time, ghost d: Disk) returns (left: map<Key, Listing>, n: int)
    requires names == Total(m) && AllTrusted(m, d)
    ensures n == Total(left) <= names && AllTrusted(left, d)
    ensures forall k :: k in left <==> k in m && now - m[k].read < TTL
    ensures forall k :: k in left ==> left[k] == m[k]
  {
    left, n := m, names;
    var rest := m.Keys;
    while rest != {}
      invariant n == Total(left) <= names && rest <= m.Keys
      invariant forall k :: k in left <==> k in m && (k in rest || now - m[k].read < TTL)
      invariant forall k :: k in left ==> left[k] == m[k]
      decreases rest
    {
      var k :| k in rest;
      rest := rest - {k};
      if now - m[k].read >= TTL {
        TotalWithout(left, k);
        n := n - |left[k].names|;
        left := Del(left, k);
      }
    }
  }
}
