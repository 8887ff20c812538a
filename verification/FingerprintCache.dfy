/**
  The in-process cache of packaged artifact bytes, keyed by path and stat fingerprint.
 */
module FingerprintCache {
  import opened Wrappers

  type Path = string
  type Bytes = seq<bv8>

  datatype Stat = Stat(size: nat, modified: int, inode: nat)

  datatype File = File(stat: Stat, bytes: Bytes)

  type Disk = map<Path, File>

  const BUILD_MANIFEST: Path := "build-manifest.json"

  // The fingerprint of the file and of the build manifest beside it.
  datatype Key = Key(path: Path, stat: Stat, build: Option<(nat, int)>)

  function KeyOf(disk: Disk, path: Path): Key
    requires path in disk
  {
    var build := if BUILD_MANIFEST in disk
                 then Some((disk[BUILD_MANIFEST].stat.size, disk[BUILD_MANIFEST].stat.modified)) else None;
    Key(path, disk[path].stat, build)
  }

  // What reading the file itself gives; a missing file raises.
  function Direct(disk: Disk, path: Path): Option<Bytes> {
    if path in disk then Some(disk[path].bytes) else None
  }

  function CachedRead(entries: map<Key, Bytes>, disk: Disk, path: Path): (Option<Bytes>, map<Key, Bytes>) {
    if path !in disk then (None, entries)
    else
      var key := KeyOf(disk, path);
      if key in entries then (Some(entries[key]), entries)
      else (Some(disk[path].bytes), WithoutPath(entries, path)[key := disk[path].bytes])
  }

  function WithoutPath(entries: map<Key, Bytes>, path: Path): map<Key, Bytes> {
    map k | k in entries && k.path != path :: entries[k]
  }

  class Cache {
    var entries: map<Key, Bytes>

    constructor ()
      ensures entries == map[]
    {
      entries := map[];
    }

    method Read(disk: Disk, path: Path) returns (value: Option<Bytes>)
      modifies this
      ensures (value, entries) == CachedRead(old(entries), disk, path)
    {
      if path !in disk {
        return None;
      }
      var key := KeyOf(disk, path);
      if key in entries {
        return Some(entries[key]);
      }
      var bytes := disk[path].bytes;
      entries := entries[key := bytes];
      var todo := entries.Keys;
      while todo != {}
        invariant todo <= old(entries).Keys + {key} && key in entries
        invariant forall k :: k in entries <==> k == key || (k in old(entries) && (k.path != path || k in todo))
        invariant forall k :: k in entries ==> entries[k] == if k == key then bytes else old(entries)[k]
        decreases todo
      {
        var k :| k in todo;
        todo := todo - {k};
        if k != key && k.path == path {
          entries := entries - {k};
        }
      }
      assert entries == WithoutPath(old(entries), path)[key := bytes];
      return Some(bytes);
    }
  }

  // ---------- Runs of changes and reads ----------

  datatype Event = Change(disk: Disk) | ReadPath(path: Path)

  // Every result of a read, with what a direct read would have given at that moment.
  function Replay(entries: map<Key, Bytes>, disk: Disk, es: seq<Event>): seq<(Option<Bytes>, Option<Bytes>)>
    decreases |es|
  {
    if es == [] then []
    else match es[0]
      case Change(next) => Replay(entries, next, es[1..])
      case ReadPath(path) =>
        var (value, after) := CachedRead(entries, disk, path);
        [(value, Direct(disk, path))] + Replay(after, disk, es[1..])
  }

  function CacheAfter(entries: map<Key, Bytes>, disk: Disk, es: seq<Event>): map<Key, Bytes>
    decreases |es|
  {
    if es == [] then entries
    else match es[0]
      case Change(next) => CacheAfter(entries, next, es[1..])
      case ReadPath(path) => CacheAfter(CachedRead(entries, disk, path).1, disk, es[1..])
  }

  // ---------- When cached reads are direct reads ----------

  // A successful read: what it looked up and what the file held.
  datatype Look = Look(key: Key, bytes: Bytes)

  function Looks(disk: Disk, es: seq<Event>): seq<Look>
    decreases |es|
  {
    if es == [] then []
    else match es[0]
      case Change(next) => Looks(next, es[1..])
      case ReadPath(path) =>
        (if path in disk then [Look(KeyOf(disk, path), disk[path].bytes)] else []) + Looks(disk, es[1..])
  }

  // Look j is the next one at the path of look i.
  ghost predicate NextOfPath(looks: seq<Look>, i: int, j: int)
  {
    && 0 <= i < j < |looks| && looks[i].key.path == looks[j].key.path
    && forall k :: i < k < j ==> looks[k].key.path != looks[i].key.path
  }

  // Two reads of a path in a row that find the same fingerprints find the same contents.
  ghost predicate Stable(looks: seq<Look>)
  {
    forall i, j :: NextOfPath(looks, i, j) && looks[i].key == looks[j].key ==> looks[i].bytes == looks[j].bytes
  }

  ghost predicate AllDirect(entries: map<Key, Bytes>, disk: Disk, es: seq<Event>)
  {
    forall r | r in Replay(entries, disk, es) :: r.0 == r.1
  }

  // The entries are the last look at each path, and nothing else.
  ghost predicate HoldsLast(entries: map<Key, Bytes>, last: map<Path, Look>)
  {
    && (forall p | p in last :: last[p].key.path == p && last[p].key in entries && entries[last[p].key] == last[p].bytes)
    && (forall k | k in entries :: k.path in last && last[k.path].key == k)
  }

  // The same as Stable, counted from the last looks so far.
  predicate StableFrom(last: map<Path, Look>, looks: seq<Look>)
    decreases |looks|
  {
    looks == [] ||
      var l := looks[0];
      && (l.key.path in last && last[l.key.path].key == l.key ==> last[l.key.path].bytes == l.bytes)
      && StableFrom(last[l.key.path := l], looks[1..])
  }

  // A successful read is direct exactly when it agrees with the last look at the path, and
  // leaves the cache with this look in its place.
  lemma ReadReplacesLast(entries: map<Key, Bytes>, disk: Disk, path: Path, last: map<Path, Look>)
    requires HoldsLast(entries, last) && path in disk
    ensures
      var (value, after) := CachedRead(entries, disk, path);
      var l := Look(KeyOf(disk, path), disk[path].bytes);
      var agrees := path in last && last[path].key == l.key ==> last[path].bytes == l.bytes;
      (value == Direct(disk, path) <==> agrees) && (agrees ==> HoldsLast(after, last[path := l]))
  {
  }

  lemma {:induction false} DirectFrom(entries: map<Key, Bytes>, disk: Disk, es: seq<Event>, last: map<Path, Look>)
    requires HoldsLast(entries, last)
    ensures AllDirect(entries, disk, es) <==> StableFrom(last, Looks(disk, es))
    decreases |es|
  {
    if es != [] {
      match es[0]
      case Change(next) => DirectFrom(entries, next, es[1..], last);
      case ReadPath(path) =>
        var (value, after) := CachedRead(entries, disk, path);
        var rest := Replay(after, disk, es[1..]);
        assert Replay(entries, disk, es) == [(value, Direct(disk, path))] + rest;
        if path !in disk {
          assert Looks(disk, es) == Looks(disk, es[1..]);
          DirectFrom(entries, disk, es[1..], last);
        } else {
          var l := Look(KeyOf(disk, path), disk[path].bytes);
          assert Looks(disk, es) == [l] + Looks(disk, es[1..]);
          ReadReplacesLast(entries, disk, path, last);
          if value == Direct(disk, path) {
            DirectFrom(after, disk, es[1..], last[path := l]);
          } else {
            assert (value, Direct(disk, path)) in Replay(entries, disk, es);
          }
        }
    }
  }

  // The last look of a prefix at each path.
  ghost predicate LastOf(last: map<Path, Look>, looks: seq<Look>, n: nat)
    requires n <= |looks|
  {
    && (forall i | 0 <= i < n :: looks[i].key.path in last)
    && (forall p | p in last :: exists i :: LastAt(looks, n, p, i) && looks[i] == last[p])
  }

  ghost predicate LastAt(looks: seq<Look>, n: nat, p: Path, i: int)
    requires n <= |looks|
  {
    0 <= i < n && looks[i].key.path == p && forall k :: i < k < n ==> looks[k].key.path != p
  }

  lemma LastOfNext(last: map<Path, Look>, looks: seq<Look>, n: nat)
    requires n < |looks| && LastOf(last, looks, n)
    ensures LastOf(last[looks[n].key.path := looks[n]], looks, n + 1)
  {
    var p := looks[n].key.path;
    var after := last[p := looks[n]];
    assert LastAt(looks, n + 1, p, n);
    forall q | q in after ensures exists i :: LastAt(looks, n + 1, q, i) && looks[i] == after[q] {
      if q != p {
        var i :| LastAt(looks, n, q, i) && looks[i] == last[q];
        assert LastAt(looks, n + 1, q, i);
      }
    }
  }

  // The look before look n at the same path is the last one so far.
  lemma PreviousIsLast(last: map<Path, Look>, looks: seq<Look>, n: nat, i: int)
    requires n < |looks| && LastOf(last, looks, n) && NextOfPath(looks, i, n)
    ensures looks[n].key.path in last && looks[i] == last[looks[n].key.path]
  {
    var p := looks[n].key.path;
    var k :| LastAt(looks, n, p, k) && looks[k] == last[p];
    assert i == k;
  }

  lemma PreviousExists(last: map<Path, Look>, looks: seq<Look>, n: nat)
    requires n < |looks| && LastOf(last, looks, n) && looks[n].key.path in last
    ensures exists i :: NextOfPath(looks, i, n)
  {
    var i :| LastAt(looks, n, looks[n].key.path, i);
    assert NextOfPath(looks, i, n);
  }

  ghost predicate StableAfter(looks: seq<Look>, n: nat)
  {
    forall i, j :: n <= j && NextOfPath(looks, i, j) && looks[i].key == looks[j].key ==> looks[i].bytes == looks[j].bytes
  }

  lemma {:induction false} StableByIndex(last: map<Path, Look>, looks: seq<Look>, n: nat)
    requires n <= |looks| && LastOf(last, looks, n)
    ensures StableFrom(last, looks[n..]) <==> StableAfter(looks, n)
    decreases |looks| - n
  {
    hide LastOf, NextOfPath;
    if n == |looks| {
      NothingAfter(looks);
    } else {
      var p := looks[n].key.path;
      LastOfNext(last, looks, n);
      assert looks[n..][1..] == looks[n + 1..];
      StableByIndex(last[p := looks[n]], looks, n + 1);
      Indices(looks);
      if p in last { PreviousExists(last, looks, n); }
      forall i | NextOfPath(looks, i, n) ensures p in last && looks[i] == last[p] { PreviousIsLast(last, looks, n, i); }
    }
  }

  lemma Indices(looks: seq<Look>)
    ensures forall i, j :: NextOfPath(looks, i, j) ==> 0 <= i < j < |looks|
  {
  }

  lemma NothingAfter(looks: seq<Look>)
    ensures StableAfter(looks, |looks|)
  {
  }

  // Over any run of changes and reads, every cached read is a direct read if and only if no
  // two reads of a path in a row find equal fingerprints on different contents.
  lemma CacheRefinesReads(disk: Disk, es: seq<Event>)
    ensures AllDirect(map[], disk, es) <==> Stable(Looks(disk, es))
  {
    var looks := Looks(disk, es);
    DirectFrom(map[], disk, es, map[]);
    StableByIndex(map[], looks, 0);
    assert looks[0..] == looks && (Stable(looks) <==> StableAfter(looks, 0)) by { Indices(looks); }
  }

  // The cache holds exactly the key of the last look at each path, whatever the contents do.
  ghost predicate KeysAreLast(entries: map<Key, Bytes>, last: map<Path, Key>)
  {
    && (forall p | p in last :: last[p].path == p && last[p] in entries)
    && (forall k | k in entries :: k.path in last && last[k.path] == k)
  }

  function LastKeys(disk: Disk, es: seq<Event>, last: map<Path, Key>): map<Path, Key>
    decreases |es|
  {
    if es == [] then last
    else match es[0]
      case Change(next) => LastKeys(next, es[1..], last)
      case ReadPath(path) => LastKeys(disk, es[1..], if path in disk then last[path := KeyOf(disk, path)] else last)
  }

  lemma {:induction false} OneEntryPerPath(entries: map<Key, Bytes>, disk: Disk, es: seq<Event>, last: map<Path, Key>)
    requires KeysAreLast(entries, last)
    ensures KeysAreLast(CacheAfter(entries, disk, es), LastKeys(disk, es, last))
    ensures forall j, k | j in CacheAfter(entries, disk, es) && k in CacheAfter(entries, disk, es) && j.path == k.path :: j == k
    decreases |es|
  {
    if es != [] {
      match es[0]
      case Change(next) => OneEntryPerPath(entries, next, es[1..], last);
      case ReadPath(path) =>
        var after := CachedRead(entries, disk, path).1;
        OneEntryPerPath(after, disk, es[1..], if path in disk then last[path := KeyOf(disk, path)] else last);
    }
  }

  function DiskAfter(disk: Disk, es: seq<Event>): Disk
    decreases |es|
  {
    if es == [] then disk
    else match es[0]
      case Change(next) => DiskAfter(next, es[1..])
      case ReadPath(_) => DiskAfter(disk, es[1..])
  }

  lemma {:induction false} KeyIsKept(disk: Disk, es: seq<Event>, last: map<Path, Key>, path: Path)
    requires ReadPath(path) !in es && path in last
    ensures path in LastKeys(disk, es, last) && LastKeys(disk, es, last)[path] == last[path]
    decreases |es|
  {
    if es != [] {
      match es[0]
      case Change(next) => KeyIsKept(next, es[1..], last, path);
      case ReadPath(other) =>
        KeyIsKept(disk, es[1..], if other in disk then last[other := KeyOf(disk, other)] else last, path);
    }
  }

  // What two disks show of a path and of the build manifest beside it.
  predicate LooksAlike(a: Disk, b: Disk, path: Path)
    requires path in a && path in b
  {
    && a[path].stat.size == b[path].stat.size && a[path].stat.modified == b[path].stat.modified
    && a[path].stat.inode == b[path].stat.inode
    && ("build-manifest.json" in a <==> "build-manifest.json" in b)
    && ("build-manifest.json" in a && "build-manifest.json" in b ==>
          && a["build-manifest.json"].stat.size == b["build-manifest.json"].stat.size
          && a["build-manifest.json"].stat.modified == b["build-manifest.json"].stat.modified)
  }

  // Between a read of a path and the next one anything may happen: if the file or the build
  // manifest looks different then, the read is direct; if both look the same, it gives again
  // what the first one left in the cache.
  lemma NextRead(entries: map<Key, Bytes>, disk: Disk, mid: seq<Event>, path: Path, last: map<Path, Key>)
    requires KeysAreLast(entries, last) && path in disk && path in DiskAfter(disk, mid) && ReadPath(path) !in mid
    ensures var first := CachedRead(entries, disk, path);
            var now := DiskAfter(disk, mid);
            var next := CachedRead(CacheAfter(first.1, disk, mid), now, path).0;
            && (!LooksAlike(disk, now, path) ==> next == Direct(now, path))
            && (LooksAlike(disk, now, path) ==> next == first.0)
  {
    var first := CachedRead(entries, disk, path);
    var now := DiskAfter(disk, mid);
    var last' := last[path := KeyOf(disk, path)];
    assert KeysAreLast(first.1, last');
    OneEntryPerPath(first.1, disk, mid, last');
    KeyIsKept(disk, mid, last', path);
    EntryIsKept(first.1, disk, mid, KeyOf(disk, path));
    assert LooksAlike(disk, now, path) <==> KeyOf(now, path) == KeyOf(disk, path);
    hide KeyOf, LooksAlike;
  }

  // An entry outlives everything but a read of its path.
  lemma {:induction false} EntryIsKept(entries: map<Key, Bytes>, disk: Disk, es: seq<Event>, key: Key)
    requires key in entries && ReadPath(key.path) !in es
    ensures key in CacheAfter(entries, disk, es) && CacheAfter(entries, disk, es)[key] == entries[key]
    decreases |es|
  {
    if es != [] {
      match es[0]
      case Change(next) => EntryIsKept(entries, next, es[1..], key);
      case ReadPath(path) => EntryIsKept(CachedRead(entries, disk, path).1, disk, es[1..], key);
    }
  }

  // It is not enough that each single change alters the fingerprint: a file changed twice
  // between two reads, with its first fingerprint again, is served from before both changes.
  lemma ReusedFingerprintIsStale(path: Path, a: File, b: File, c: File)
    requires a.stat == c.stat && a.stat != b.stat && a.bytes != c.bytes && path != BUILD_MANIFEST
    ensures var es := [ReadPath(path), Change(map[path := b]), Change(map[path := c]), ReadPath(path)];
            Replay(map[], map[path := a], es) == [(Some(a.bytes), Some(a.bytes)), (Some(a.bytes), Some(c.bytes))]
  {
    var es := [ReadPath(path), Change(map[path := b]), Change(map[path := c]), ReadPath(path)];
    var d := map[path := a];
    var after := CachedRead(map[], d, path).1;
    assert es[1..][0] == es[1] && es[1..][1..] == es[2..] && es[2..][1..] == es[3..] && es[3..][1..] == [];
    assert Replay(after, map[path := c], es[3..]) == [(Some(a.bytes), Some(c.bytes))] + Replay(after, map[path := c], []);
    assert Replay(after, map[path := b], es[2..]) == Replay(after, map[path := c], es[3..]);
    assert Replay(after, d, es[1..]) == Replay(after, map[path := b], es[2..]);
  }
}
