// The directory tree of the file system (kernel/driver/filesystem/filesystem.h:50-96):
// every file has a file block and one data block. The data blocks of some files, the
// directories, hold entries, found by the hash of the name; those of the others hold
// anything.
module FsTree {
  import opened Options
  import opened Bits
  import opened FsBlocks

  datatype Entry = Entry(address: u32, hash: u32)

  const DIR_FILE_PTRS: nat := 256

  /** data: the data block of each file block. dirs: the entries in it, where it is a
      directory's. */
  datatype Tree = Tree(root: nat, data: map<nat, nat>, dirs: map<nat, seq<Entry>>)

  /** The address under which a directory lists a hash first, or 0. */
  function Find(es: seq<Entry>, hash: u32): (a: nat) {
    if es == [] then 0 else if es[0].hash == hash then es[0].address else Find(es[1..], hash)
  }

  /** The file block at the end of a path of hashes, if the path leads anywhere. */
  function Resolve(t: Tree, f: nat, path: seq<u32>): Option<nat>
    decreases |path|
  {
    if path == [] then Some(f)
    else if f !in t.dirs || Find(t.dirs[f], path[0]) == 0 then None
    else Resolve(t, Find(t.dirs[f], path[0]), path[1..])
  }

  ghost predicate Listed(t: Tree, f: nat, i: nat) {
    f in t.dirs && i < |t.dirs[f]|
  }

  /** The file that entry i of directory f lists. */
  ghost function Child(t: Tree, f: nat, i: nat): u32 {
    if Listed(t, f, i) then t.dirs[f][i].address else 0
  }

  /** Files and data blocks are all different; each file but the root is listed once,
      the root nowhere. */
  ghost predicate TreeOk(t: Tree) {
    && t.root in t.data && t.dirs.Keys <= t.data.Keys
    && (forall f, g :: f in t.data && g in t.data ==> f != t.data[g] && (t.data[f] == t.data[g] ==> f == g))
    && (forall f, i: nat :: Listed(t, f, i) ==> Child(t, f, i) in t.data && Child(t, f, i) != t.root && Child(t, f, i) != 0)
    && forall f, i: nat, g, j: nat :: Listed(t, f, i) && Listed(t, g, j) && Child(t, f, i) == Child(t, g, j) ==>
         f == g && i == j
  }

  lemma {:induction false} FindListed(es: seq<Entry>, hash: u32) returns (i: nat)
    requires Find(es, hash) != 0
    ensures i < |es| && es[i].hash == hash && es[i].address == Find(es, hash)
  {
    if es[0].hash == hash {
      i := 0;
    } else {
      i := FindListed(es[1..], hash);
      i := i + 1;
    }
  }

  /** The last step of a path. */
  lemma {:induction false} ResolveLast(t: Tree, f: nat, path: seq<u32>) returns (g: nat, i: nat)
    requires TreeOk(t) && f in t.data && path != [] && Resolve(t, f, path).Some?
    ensures var n := |path| - 1;
            && Resolve(t, f, path[..n]) == Some(g) && Listed(t, g, i) && t.dirs[g][i].hash == path[n]
            && t.dirs[g][i].address == Resolve(t, f, path).value
    decreases |path|
  {
    var n := |path| - 1;
    var j := FindListed(t.dirs[f], path[0]);
    assert Listed(t, f, j);
    var c: nat := t.dirs[f][j].address;
    if n == 0 {
      g, i := f, j;
    } else {
      g, i := ResolveLast(t, c, path[1..]);
      assert path[..n][1..] == path[1..][..n - 1];
    }
  }

  /** Different paths of hashes lead to different files, so two names are the same file
      exactly when their hashes agree all along. */
  lemma {:induction false} PathsDistinct(t: Tree, p: seq<u32>, q: seq<u32>)
    requires TreeOk(t) && Resolve(t, t.root, p).Some? && Resolve(t, t.root, p) == Resolve(t, t.root, q)
    ensures p == q
    decreases |p|
  {
    if p != [] && q != [] {
      var f, i := ResolveLast(t, t.root, p);
      var g, j := ResolveLast(t, t.root, q);
      PathsDistinct(t, p[..|p| - 1], q[..|q| - 1]);
      assert p == p[..|p| - 1] + [p[|p| - 1]] && q == q[..|q| - 1] + [q[|q| - 1]];
    } else if p != [] {
      var f, i := ResolveLast(t, t.root, p);
    } else if q != [] {
      var g, j := ResolveLast(t, t.root, q);
    }
  }

  // ------------------------------------------------------------------ growing

  /** A new file under directory f. */
  function Added(t: Tree, f: nat, hash: u32, blk: u32, db: nat): Tree
    requires f in t.dirs
  {
    t.(data := t.data[blk := db], dirs := t.dirs[f := t.dirs[f] + [Entry(blk, hash)]][blk := []])
  }

  ghost predicate Unused(t: Tree, x: nat) {
    x != 0 && x !in t.data && forall f :: f in t.data ==> t.data[f] != x
  }

  lemma AddedOk(t: Tree, f: nat, hash: u32, blk: u32, db: nat)
    requires TreeOk(t) && f in t.dirs && Unused(t, blk) && Unused(t, db) && blk != db
    ensures TreeOk(Added(t, f, hash, blk, db))
  {
    hide Added, Listed, Child;
    var u := Added(t, f, hash, blk, db);
    AddedBlocks(t, f, hash, blk, db);
    forall g, i: nat | Listed(u, g, i)
      ensures Child(u, g, i) in u.data && Child(u, g, i) != u.root && Child(u, g, i) != 0
    {
      AddedEntry(t, f, hash, blk, db, g, i);
    }
    forall g, i: nat, h, j: nat | Listed(u, g, i) && Listed(u, h, j) && Child(u, g, i) == Child(u, h, j)
      ensures g == h && i == j
    {
      AddedEntry(t, f, hash, blk, db, g, i);
      AddedEntry(t, f, hash, blk, db, h, j);
    }
  }

  lemma AddedBlocks(t: Tree, f: nat, hash: u32, blk: u32, db: nat)
    requires TreeOk(t) && f in t.dirs && Unused(t, blk) && Unused(t, db) && blk != db
    ensures var u := Added(t, f, hash, blk, db);
            && u.root == t.root && u.dirs.Keys == t.dirs.Keys + {blk} && u.data.Keys == t.data.Keys + {blk}
            && forall g, h :: g in u.data && h in u.data ==> g != u.data[h] && (u.data[g] == u.data[h] ==> g == h)
  {
    hide Listed;
    var u := Added(t, f, hash, blk, db);
    assert u.dirs.Keys == t.dirs.Keys + {blk};
  }

  lemma AddedEntry(t: Tree, f: nat, hash: u32, blk: u32, db: nat, g: nat, i: nat)
    requires f in t.dirs && blk !in t.dirs && Listed(Added(t, f, hash, blk, db), g, i)
    ensures var u := Added(t, f, hash, blk, db);
            if g == f && i == |t.dirs[f]| then Child(u, g, i) == blk
            else Listed(t, g, i) && Child(u, g, i) == Child(t, g, i)
  {
  }

  /** A file may stop being a directory. */
  lemma ShrunkOk(t: Tree, f: nat)
    requires TreeOk(t)
    ensures TreeOk(t.(dirs := t.dirs - {f}))
  {
    var u := t.(dirs := t.dirs - {f});
    assert forall g, i: nat :: Listed(u, g, i) ==> Listed(t, g, i) && Child(u, g, i) == Child(t, g, i);
    hide Listed, Child;
  }

  lemma {:induction false} FindAppend(es: seq<Entry>, e: Entry, hash: u32)
    requires forall i :: 0 <= i < |es| ==> es[i].address != 0
    ensures Find(es + [e], hash) ==
            if Find(es, hash) != 0 then Find(es, hash) else if e.hash == hash then e.address else 0
  {
    if es == [] {
      assert ([] + [e])[1..] == [];
    } else {
      assert (es + [e])[1..] == es[1..] + [e];
      FindAppend(es[1..], e, hash);
    }
  }

  lemma EntriesNonzero(t: Tree, f: nat)
    requires TreeOk(t) && f in t.dirs
    ensures forall k :: 0 <= k < |t.dirs[f]| ==> t.dirs[f][k].address != 0
  {
    forall k | 0 <= k < |t.dirs[f]|
      ensures t.dirs[f][k].address != 0
    {
      assert Listed(t, f, k) && Child(t, f, k) == t.dirs[f][k].address;
    }
  }

  /** Whatever resolved still resolves to the same file, and nothing else does but the
      new one. */
  lemma {:induction false} AddedResolves(t: Tree, f: nat, hash: u32, blk: u32, db: nat, g: nat, path: seq<u32>)
    requires TreeOk(t) && f in t.dirs && Unused(t, blk) && Unused(t, db) && blk != db && g in t.data
    requires Find(t.dirs[f], hash) == 0
    ensures var u := Added(t, f, hash, blk, db);
            && (Resolve(t, g, path).Some? ==> Resolve(u, g, path) == Resolve(t, g, path))
            && (Resolve(u, g, path).Some? && Resolve(t, g, path).None? ==> Resolve(u, g, path).value == blk)
    decreases |path|
  {
    var u := Added(t, f, hash, blk, db);
    if path != [] {
      if g == f {
        EntriesNonzero(t, f);
        FindAppend(t.dirs[f], Entry(blk, hash), path[0]);
      }
      if g !in t.dirs {
        assert g !in u.dirs;
      } else if Find(t.dirs[g], path[0]) != 0 {
        var i := FindListed(t.dirs[g], path[0]);
        assert Listed(t, g, i) && Child(t, g, i) in t.data;
        AddedResolves(t, f, hash, blk, db, t.dirs[g][i].address, path[1..]);
      } else if Find(u.dirs[g], path[0]) != 0 {
        assert u.dirs[blk] == [];
      }
    }
  }

  /** Every path of t leads to the same file in u. */
  ghost predicate Extends(t: Tree, u: Tree) {
    u.root == t.root && forall path :: Resolve(t, t.root, path).Some? ==> Resolve(u, u.root, path) == Resolve(t, t.root, path)
  }

  lemma AddedExtends(t: Tree, f: nat, hash: u32, blk: u32, db: nat)
    requires TreeOk(t) && f in t.dirs && Unused(t, blk) && Unused(t, db) && blk != db && Find(t.dirs[f], hash) == 0
    ensures Extends(t, Added(t, f, hash, blk, db))
  {
    forall path | Resolve(t, t.root, path).Some?
      ensures Resolve(Added(t, f, hash, blk, db), t.root, path) == Resolve(t, t.root, path)
    {
      AddedResolves(t, f, hash, blk, db, t.root, path);
    }
  }

  /** One step further along a path. */
  lemma {:induction false} ResolveStep(t: Tree, f: nat, path: seq<u32>, hash: u32)
    requires Resolve(t, f, path).Some? && Resolve(t, f, path).value in t.dirs
    ensures var g := Resolve(t, f, path).value;
            Resolve(t, f, path + [hash]) == if Find(t.dirs[g], hash) == 0 then None else Some(Find(t.dirs[g], hash))
    decreases |path|
  {
    if path == [] {
      assert ([] + [hash])[1..] == [];
    } else {
      assert (path + [hash])[1..] == path[1..] + [hash];
      ResolveStep(t, Find(t.dirs[f], path[0]), path[1..], hash);
    }
  }

  /** How many components of a path are missing, each of which takes two blocks. */
  function Missing(t: Tree, f: nat, path: seq<u32>): (n: nat)
    ensures n <= |path|
    decreases |path|
  {
    if path == [] then 0
    else if f !in t.dirs || Find(t.dirs[f], path[0]) == 0 then |path|
    else Missing(t, Find(t.dirs[f], path[0]), path[1..])
  }

  /** The file that the path gets to. */
  function Stop(t: Tree, f: nat, path: seq<u32>): nat
    decreases |path|
  {
    if path == [] || f !in t.dirs || Find(t.dirs[f], path[0]) == 0 then f
    else Stop(t, Find(t.dirs[f], path[0]), path[1..])
  }

  /** Every file walked through is a directory, and there is a place in it for the first
      missing component. */
  predicate HasSlot(t: Tree, f: nat, path: seq<u32>)
    decreases |path|
  {
    if path == [] then true
    else if f !in t.dirs then false
    else if Find(t.dirs[f], path[0]) == 0 then |t.dirs[f]| < DIR_FILE_PTRS
    else HasSlot(t, Find(t.dirs[f], path[0]), path[1..])
  }

  /** Nothing is missing of a path exactly if it resolves. */
  lemma {:induction false} ResolvesNoneMissing(t: Tree, f: nat, path: seq<u32>)
    ensures Resolve(t, f, path) == if Missing(t, f, path) == 0 then Some(Stop(t, f, path)) else None
    ensures Resolve(t, f, path).Some? ==> HasSlot(t, f, path)
    decreases |path|
  {
    if path != [] && f in t.dirs {
      ResolvesNoneMissing(t, Find(t.dirs[f], path[0]), path[1..]);
    }
  }

  /** One component more. */
  lemma {:induction false} MissingNext(t: Tree, f: nat, path: seq<u32>, hash: u32)
    ensures var g := Stop(t, f, path);
            if Missing(t, f, path) > 0 || g !in t.dirs || Find(t.dirs[g], hash) == 0
            then Missing(t, f, path + [hash]) == Missing(t, f, path) + 1 && Stop(t, f, path + [hash]) == g
            else Missing(t, f, path + [hash]) == 0 && Stop(t, f, path + [hash]) == Find(t.dirs[g], hash)
    decreases |path|
  {
    if path == [] {
      assert ([] + [hash])[1..] == [];
    } else if f in t.dirs {
      assert (path + [hash])[1..] == path[1..] + [hash];
      MissingNext(t, Find(t.dirs[f], path[0]), path[1..], hash);
    }
  }

  /** A directory just made lacks everything, and has room. */
  lemma NewMissing(t: Tree, f: nat, path: seq<u32>)
    requires f in t.dirs && t.dirs[f] == []
    ensures Missing(t, f, path) == |path| && HasSlot(t, f, path)
  {
  }
}
