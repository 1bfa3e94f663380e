// Paths: splitting at slashes, and walking component by component
// (kernel/driver/filesystem/filesystem.c:113-156).
module FsPath {
  import opened Options
  import opened Bits
  import opened FsBlocks
  import opened FsTree
  import opened FsDisk

  const SLASH: u8 := 47

  /** The components of cur and rest together, where cur has no slash in it. */
  function Components(cur: seq<u8>, rest: seq<u8>): (cs: seq<seq<u8>>)
    ensures |cs| > 0
    decreases |rest|
  {
    if rest == [] then [cur]
    else if rest[0] == SLASH then [cur] + Components([], rest[1..])
    else Components(cur + [rest[0]], rest[1..])
  }

  function Join(cs: seq<seq<u8>>): seq<u8>
    requires |cs| > 0
  {
    if |cs| == 1 then cs[0] else cs[0] + [SLASH] + Join(cs[1..])
  }

  /** Nothing is lost: the components, none with a slash, joined by slashes are the
      path. */
  lemma {:induction false} ComponentsJoin(cur: seq<u8>, rest: seq<u8>)
    requires SLASH !in cur
    ensures Join(Components(cur, rest)) == cur + rest
    ensures forall c :: c in Components(cur, rest) ==> SLASH !in c
    decreases |rest|
  {
    if rest == [] {
      assert cur + rest == cur;
    } else if rest[0] == SLASH {
      ComponentsJoin([], rest[1..]);
      var cs := Components([], rest[1..]);
      assert ([cur] + cs)[1..] == cs;
      assert cur + [SLASH] + rest[1..] == cur + rest;
    } else {
      ComponentsJoin(cur + [rest[0]], rest[1..]);
      assert cur + [rest[0]] + rest[1..] == cur + rest;
    }
  }

  /** A slash or the end closes a component; any other character goes on with it. */
  lemma ComponentNext(cur: seq<u8>, rest: seq<u8>)
    ensures var cs := Components(cur, rest);
            if rest == [] then cs == [cur]
            else if rest[0] == SLASH then cs[0] == cur && cs[1..] == Components([], rest[1..])
            else cs == Components(cur + [rest[0]], rest[1..])
  {
  }

  /** The components behind the slash that begins a path; none, if nothing is there. */
  function NamesOf(path: seq<u8>): seq<seq<u8>> {
    if |path| < 2 then [] else Components([], path[1..])
  }

  function Hashes(cs: seq<seq<u8>>): (hs: seq<u32>)
    ensures |hs| == |cs|
  {
    seq(|cs|, i requires 0 <= i < |cs| => Hash(cs[i]))
  }

  lemma HashesNext(cs: seq<seq<u8>>, c: seq<u8>)
    ensures Hashes(cs + [c]) == Hashes(cs) + [Hash(c)]
  {
  }

  lemma HashesSplit(cs: seq<seq<u8>>, ds: seq<seq<u8>>)
    ensures Hashes(cs + ds) == Hashes(cs) + Hashes(ds)
  {
  }

  /** Every component fits a file name. */
  predicate ShortNames(cs: seq<seq<u8>>) {
    forall i :: 0 <= i < |cs| ==> |cs[i]| < FILE_NAME_SIZE
  }

  // --------------------------------------------------------------- the walk

  /** The tree u is t with the new, empty file blk under directory f. */
  ghost predicate Grown(t: Tree, u: Tree, f: nat, hash: u32, blk: u32) {
    f in t.dirs && Unused(t, blk) && exists db :: Unused(t, db) && db != blk && u == Added(t, f, hash, blk, db)
  }

  /** The component is looked for in a directory; if it is missing, there is a place for
      it and there are two blocks. */
  ghost predicate Room(ls: Lists, t: Tree, dir: nat, hash: u32) {
    && dir in t.dirs && |ls| == ORDERS
    && (Find(t.dirs[dir], hash) == 0 ==> Total(ls, ORDERS) >= 2 && |t.dirs[dir]| < DIR_FILE_PTRS)
  }

  /** File blk, in blocks free under ls, is what createFileBlock makes for the name. */
  ghost predicate Made(ls: Lists, e: Disk, u: Tree, name: seq<u8>, blk: nat) {
    && blk in u.data && u.data[blk] < WORD && Free(ls, blk) && Free(ls, u.data[blk])
    && |name| < FILE_NAME_SIZE && IsBlock(e, blk) && At(e, blk) == FileBlock(name, u.data[blk])
  }

  /** Place i of block b has become the entry. */
  ghost predicate Linked(d: Disk, e: Disk, b: nat, i: nat, entry: Entry) {
    IsBlock(d, b) && IsBlock(e, b) && i < DIR_FILE_PTRS && At(e, b) == WithEntry(At(d, b), i, entry)
  }

  /** A new file next for the name in directory dir; of all that was not free only the
      entry is new. */
  ghost predicate Created(d: Disk, ls: Lists, t: Tree, e: Disk, ms: Lists, u: Tree, dir: nat, name: seq<u8>, next: u32)
    requires |ls| == |ms| == ORDERS
  {
    && Grown(t, u, dir, Hash(name), next) && Total(ms, ORDERS) == Total(ls, ORDERS) - 2 && Fewer(ls, ms)
    && dir in t.data && Kept(d, ls, e, {t.data[dir]})
    && Linked(d, e, t.data[dir], |t.dirs[dir]|, Entry(next, Hash(name)))
    && Made(ls, e, u, name, next) && IsBlock(e, u.data[next]) && At(e, u.data[next]) == Blank()
  }

  /** One component on: next is found under dir, and if it was found before, nothing
      has changed; otherwise it is new. */
  ghost predicate Stepped(d: Disk, ls: Lists, t: Tree, e: Disk, ms: Lists, u: Tree, dir: nat, name: seq<u8>, next: u32) {
    && dir in t.dirs && dir in u.dirs && next in u.data && Find(u.dirs[dir], Hash(name)) == next != 0
    && |ls| == |ms| == ORDERS
    && if Find(t.dirs[dir], Hash(name)) != 0 then e == d && ms == ls && u == t
       else Created(d, ls, t, e, ms, u, dir, name, next)
  }

  /** There are the blocks and the directory places to make what is missing of the
      path, and it leads through directories only. */
  ghost predicate Ready(ls: Lists, t: Tree, f: nat, path: seq<u32>) {
    |ls| == ORDERS && Total(ls, ORDERS) >= 2 * Missing(t, f, path) && HasSlot(t, f, path)
  }

  /** The file at the end of a path, or 0. */
  function FileAt(t: Tree, path: seq<u32>): nat {
    var r := Resolve(t, t.root, path);
    if r.Some? then r.value else 0
  }

  /** What the walk along cs has done to the disk. Nothing, as long as nothing was missing.
      Else every block that was not free is as it was, but for one entry in the directory
      where the first component was missing; and for each missing component there is a
      file of that name, in blocks that were free. */
  ghost predicate Built(d: Disk, ls: Lists, t: Tree, e: Disk, ms: Lists, u: Tree, cs: seq<seq<u8>>) {
    var path, n := Hashes(cs), |cs| - Missing(t, t.root, Hashes(cs));
    && Fewer(ls, ms)
    && if n == |cs| then e == d && ms == ls && u == t
       else
         var f := Stop(t, t.root, path);
         && f in t.dirs && f in t.data && Kept(d, ls, e, {t.data[f]})
         && FileAt(u, path[..n + 1]) < WORD
         && Linked(d, e, t.data[f], |t.dirs[f]|, Entry(FileAt(u, path[..n + 1]), path[n]))
         && forall i :: n <= i < |cs| ==> Made(ls, e, u, cs[i], FileAt(u, path[..i + 1]))
  }

  /** The walk began with tree t and path done + left; it stands at dir, which is empty if
      it is new. */
  ghost predicate Walking(d: Disk, ls: Lists, t: Tree, e: Disk, ms: Lists, u: Tree, dir: nat, done: seq<seq<u8>>,
                          left: seq<seq<u8>>) {
    && Extends(t, u) && Resolve(u, u.root, Hashes(done)) == Some(dir) && dir in u.data
    && |ls| == ORDERS && Ready(ms, u, dir, Hashes(left)) && Built(d, ls, t, e, ms, u, done)
    && (Missing(t, t.root, Hashes(done)) > 0 ==> dir in u.dirs && u.dirs[dir] == [] && Free(ls, u.data[dir]))
    && Total(ms, ORDERS) - 2 * Missing(u, dir, Hashes(left)) == Total(ls, ORDERS) - 2 * Missing(t, t.root, Hashes(done + left))
  }

  lemma WalkStart(d: Disk, ls: Lists, t: Tree, cs: seq<seq<u8>>)
    requires t.root in t.data && Ready(ls, t, t.root, Hashes(cs))
    ensures Walking(d, ls, t, d, ls, t, t.root, [], cs)
  {
    assert [] + cs == cs;
  }

  lemma WalkRoom(d: Disk, ls: Lists, t: Tree, e: Disk, ms: Lists, u: Tree, dir: nat, done: seq<seq<u8>>, left: seq<seq<u8>>)
    requires Walking(d, ls, t, e, ms, u, dir, done, left) && left != []
    ensures Room(ms, u, dir, Hash(left[0]))
  {
    hide Hash, Built, Free;
    assert Hashes(left)[0] == Hash(left[0]);
  }

  lemma GrownFacts(t: Tree, u: Tree, f: nat, hash: u32, blk: u32)
    requires TreeOk(t) && f in t.dirs && Grown(t, u, f, hash, blk) && Find(t.dirs[f], hash) == 0
    ensures Extends(t, u) && blk in u.dirs && u.dirs[blk] == [] && blk !in t.data
    ensures forall g :: g in t.data ==> g in u.data && u.data[g] == t.data[g]
  {
    var db :| Unused(t, db) && db != blk && u == Added(t, f, hash, blk, db);
    AddedExtends(t, f, hash, blk, db);
  }

  /** The component was there. */
  lemma BuiltFound(d: Disk, ls: Lists, t: Tree, e: Disk, ms: Lists, u: Tree, dir: nat, cs: seq<seq<u8>>, c: seq<u8>)
    requires Built(d, ls, t, e, ms, u, cs) && Resolve(u, u.root, Hashes(cs)) == Some(dir) && dir in u.dirs
    requires Missing(t, t.root, Hashes(cs)) == 0 && Find(u.dirs[dir], Hash(c)) != 0
    ensures Missing(t, t.root, Hashes(cs + [c])) == 0 && Built(d, ls, t, e, ms, u, cs + [c])
  {
    hide Hash, Find, Kept, Linked, Made, Hashes;
    HashesNext(cs, c);
    ResolvesNoneMissing(t, t.root, Hashes(cs));
    MissingNext(t, t.root, Hashes(cs), Hash(c));
  }

  /** It was the first that was missing. */
  lemma BuiltFirst(d: Disk, ls: Lists, t: Tree, e: Disk, ms: Lists, u: Tree, dir: nat, cs: seq<seq<u8>>, c: seq<u8>, next: u32)
    requires |ls| == |ms| == ORDERS && Created(d, ls, t, e, ms, u, dir, c, next) && dir in t.dirs
    requires Find(t.dirs[dir], Hash(c)) == 0 && Resolve(t, t.root, Hashes(cs)) == Some(dir)
    requires Resolve(u, u.root, Hashes(cs + [c])) == Some(next as nat)
    ensures Missing(t, t.root, Hashes(cs + [c])) == 1 && Built(d, ls, t, e, ms, u, cs + [c])
  {
    hide Hash, Find, Kept, Linked, Made, Hashes, Fewer;
    HashesNext(cs, c);
    ResolvesNoneMissing(t, t.root, Hashes(cs));
    MissingNext(t, t.root, Hashes(cs), Hash(c));
    var path := Hashes(cs + [c]);
    assert path[..|cs| + 1] == path;
  }

  /** What was made stays as it is while the next component is made. */
  lemma MadeStays(d: Disk, ls: Lists, e: Disk, ms: Lists, u: Tree, e2: Disk, u2: Tree, b: nat, name: seq<u8>, f: nat)
    requires Made(ls, e, u, name, f) && FsOk(e, ms, u) && b in u.data && Kept(e, ms, e2, {u.data[b]})
    requires f in u2.data && u2.data[f] == u.data[f]
    ensures Made(ls, e2, u2, name, f)
  {
    hide Free, IsFile, IsDir, FileBlock, Good, Kept;
    assert Holds(e, ms, f, u.data[f], Listing(u, f));
    KeptAt(e, ms, e2, {u.data[b]}, f);
  }

  lemma LinkStays(d: Disk, ls: Lists, e: Disk, ms: Lists, e2: Disk, x: nat, b: nat, i: nat, entry: Entry)
    requires Linked(d, e, b, i, entry) && Kept(e, ms, e2, {x}) && Fewer(ls, ms) && !Free(ls, b) && b != x
    ensures Linked(d, e2, b, i, entry)
  {
    hide Free, Kept;
    KeptAt(e, ms, e2, {x}, b);
  }

  lemma MadeFiles(ls: Lists, e: Disk, u: Tree, cs: seq<seq<u8>>, n: nat, i: nat)
    requires n <= i < |cs| && forall j :: n <= j < |cs| ==> Made(ls, e, u, cs[j], FileAt(u, Hashes(cs)[..j + 1]))
    ensures Made(ls, e, u, cs[i], FileAt(u, Hashes(cs)[..i + 1]))
  {
  }

  /** A file found along a path is found in a tree that extends it. */
  lemma FileStays(t: Tree, u: Tree, path: seq<u32>)
    requires Extends(t, u) && FileAt(t, path) != 0
    ensures FileAt(u, path) == FileAt(t, path)
  {
  }

  /** Another one was missing already. */
  lemma BuiltMore(d: Disk, ls: Lists, t: Tree, e: Disk, ms: Lists, u: Tree, dir: nat, cs: seq<seq<u8>>, c: seq<u8>,
                  e2: Disk, ms2: Lists, u2: Tree, next: u32)
    requires FsOk(d, ls, t) && FsOk(e, ms, u) && Built(d, ls, t, e, ms, u, cs) && dir in u.data && Free(ls, u.data[dir])
    requires Missing(t, t.root, Hashes(cs)) > 0
    requires |ms| == |ms2| == ORDERS && Created(e, ms, u, e2, ms2, u2, dir, c, next) && Extends(u, u2)
    requires forall g :: g in u.data ==> g in u2.data && u2.data[g] == u.data[g]
    requires Resolve(u2, u2.root, Hashes(cs + [c])) == Some(next as nat)
    ensures Missing(t, t.root, Hashes(cs + [c])) == Missing(t, t.root, Hashes(cs)) + 1
    ensures Built(d, ls, t, e2, ms2, u2, cs + [c])
  {
    hide Hash, Find, Kept, Linked, Made, Hashes, FsOk, Free, Grown, Fewer, Resolve, FileAt, Extends;
    HashesNext(cs, c);
    MissingNext(t, t.root, Hashes(cs), Hash(c));
    var was, path := Hashes(cs), Hashes(cs + [c]);
    var n, f := |cs| - Missing(t, t.root, was), Stop(t, t.root, was);
    StopHolds(d, ls, t, f);
    FewerThen(ls, ms, ms2);
    KeptThen(d, ls, e, {t.data[f]}, ms, e2, {u.data[dir]});
    forall i | n <= i < |cs|
      ensures Made(ls, e2, u2, cs[i], FileAt(u2, path[..i + 1])) && FileAt(u2, path[..i + 1]) == FileAt(u, was[..i + 1])
    {
      assert path[..i + 1] == was[..i + 1];
      MadeFiles(ls, e, u, cs, n, i);
      MadeInTree(ls, e, u, cs[i], FileAt(u, was[..i + 1]));
      FileStays(u, u2, was[..i + 1]);
      MadeStays(d, ls, e, ms, u, e2, u2, dir, cs[i], FileAt(u, was[..i + 1]));
    }
    assert path[..|cs| + 1] == path;
    FileIs(u2, path, next);
    MadeBefore(ls, ms, e2, u2, c, next);
    LinkStays(d, ls, e, ms, e2, u.data[dir], t.data[f], |t.dirs[f]|, Entry(FileAt(u, was[..n + 1]), was[n]));
    assert n < |cs| && Made(ls, e2, u2, cs[n], FileAt(u2, path[..n + 1]));
    assert path[n] == was[n] && FileAt(u2, path[..n + 1]) == FileAt(u, was[..n + 1]);
    assert forall i :: n <= i < |cs + [c]| ==> Made(ls, e2, u2, (cs + [c])[i], FileAt(u2, path[..i + 1]));
  }

  lemma StopHolds(d: Disk, ls: Lists, t: Tree, f: nat)
    requires FsOk(d, ls, t) && f in t.data
    ensures !Free(ls, t.data[f])
  {
    assert Holds(d, ls, f, t.data[f], Listing(t, f));
  }

  lemma FewerThen(ls: Lists, ms: Lists, ns: Lists)
    requires Fewer(ls, ms) && Fewer(ms, ns)
    ensures Fewer(ls, ns)
  {
    hide Free;
  }

  lemma MadeInTree(ls: Lists, e: Disk, u: Tree, name: seq<u8>, f: nat)
    requires Made(ls, e, u, name, f)
    ensures f in u.data && f != 0
  {
  }

  lemma FileIs(t: Tree, path: seq<u32>, f: nat)
    requires Resolve(t, t.root, path) == Some(f)
    ensures FileAt(t, path) == f
  {
  }

  lemma MadeBefore(ls: Lists, ms: Lists, e: Disk, u: Tree, name: seq<u8>, f: nat)
    requires Made(ms, e, u, name, f) && Fewer(ls, ms)
    ensures Made(ls, e, u, name, f)
  {
    hide Free;
  }

  lemma WalkStep(d: Disk, ls: Lists, t: Tree, e: Disk, ms: Lists, u: Tree, dir: nat, done: seq<seq<u8>>, left: seq<seq<u8>>,
                 e2: Disk, ms2: Lists, u2: Tree, next: u32)
    requires FsOk(d, ls, t) && FsOk(e, ms, u) && Walking(d, ls, t, e, ms, u, dir, done, left) && left != []
    requires Stepped(e, ms, u, e2, ms2, u2, dir, left[0], next)
    ensures Walking(d, ls, t, e2, ms2, u2, next, done + [left[0]], left[1..])
  {
    hide FsOk, Find, Total, Hash, Hashes, Built, Made, Linked, Kept, Fewer, Free, FileAt;
    var c := left[0];
    assert done + left == done + [c] + left[1..];
    assert left == [c] + left[1..];
    HashesNext(done, c);
    HashesSplit([c], left[1..]);
    HashOne(c);
    assert Hashes(left)[1..] == Hashes(left[1..]);
    if Find(u.dirs[dir], Hash(c)) != 0 {
      if Missing(t, t.root, Hashes(done)) > 0 { FindNone(Hash(c)); }
      ResolveStep(u, u.root, Hashes(done), Hash(c));
      BuiltFound(d, ls, t, e, ms, u, dir, done, c);
    } else {
      FsTreeOk(e, ms, u);
      GrownFacts(u, u2, dir, Hash(c), next);
      NewMissing(u2, next, Hashes(left[1..]));
      ResolveStep(u2, u2.root, Hashes(done), Hash(c));
      ResolveThrough(t, u, u2);
      if Missing(t, t.root, Hashes(done)) == 0 {
        BuiltNothing(d, ls, t, e, ms, u, done);
        BuiltFirst(d, ls, t, e2, ms2, u2, dir, done, c, next);
      } else {
        BuiltMore(d, ls, t, e, ms, u, dir, done, c, e2, ms2, u2, next);
      }
      MadeFree(d, ls, t, e, ms, u, done, e2, u2, c, next);
    }
  }

  lemma HashOne(c: seq<u8>)
    ensures Hashes([c]) == [Hash(c)]
  {
  }

  lemma FindNone(hash: u32)
    ensures Find([], hash) == 0
  {
  }

  lemma FsTreeOk(d: Disk, ls: Lists, t: Tree)
    requires FsOk(d, ls, t)
    ensures TreeOk(t)
  {
  }

  lemma ResolveThrough(t: Tree, u: Tree, v: Tree)
    requires Extends(t, u) && Extends(u, v)
    ensures Extends(t, v)
  {
  }

  lemma BuiltNothing(d: Disk, ls: Lists, t: Tree, e: Disk, ms: Lists, u: Tree, cs: seq<seq<u8>>)
    requires Built(d, ls, t, e, ms, u, cs) && Missing(t, t.root, Hashes(cs)) == 0
    ensures e == d && ms == ls && u == t
  {
  }

  lemma MadeFree(d: Disk, ls: Lists, t: Tree, e: Disk, ms: Lists, u: Tree, cs: seq<seq<u8>>, e2: Disk, u2: Tree, c: seq<u8>, f: nat)
    requires Built(d, ls, t, e, ms, u, cs) && Made(ms, e2, u2, c, f)
    ensures f in u2.data && Free(ls, u2.data[f])
  {
    hide Free;
  }

  /** What opening the path cs comes to: it leads to the handle; every path that led
      anywhere leads to the same file; two blocks are gone for each component that was
      missing, and the disk has changed just so far. */
  ghost predicate Walked(d: Disk, ls: Lists, t: Tree, e: Disk, ms: Lists, u: Tree, cs: seq<seq<u8>>, handle: nat) {
    && Extends(t, u) && Resolve(u, u.root, Hashes(cs)) == Some(handle)
    && |ls| == |ms| == ORDERS && Total(ms, ORDERS) == Total(ls, ORDERS) - 2 * Missing(t, t.root, Hashes(cs))
    && Built(d, ls, t, e, ms, u, cs)
  }

  lemma WalkEnd(d: Disk, ls: Lists, t: Tree, e: Disk, ms: Lists, u: Tree, dir: nat, done: seq<seq<u8>>)
    requires Walking(d, ls, t, e, ms, u, dir, done, [])
    ensures Walked(d, ls, t, e, ms, u, done, dir)
  {
    hide Built;
    assert done + [] == done;
  }

  /** A path that led somewhere is opened without a change to the disk. */
  lemma WalkedBefore(d: Disk, ls: Lists, t: Tree, e: Disk, ms: Lists, u: Tree, cs: seq<seq<u8>>, handle: nat)
    requires Walked(d, ls, t, e, ms, u, cs, handle) && Resolve(t, t.root, Hashes(cs)).Some?
    ensures e == d && ms == ls && u == t && Resolve(t, t.root, Hashes(cs)) == Some(handle)
  {
    hide Kept, Fewer, Linked, Made;
    ResolvesNoneMissing(t, t.root, Hashes(cs));
  }

  /** Once a path has been opened it can be opened again, without more blocks or
      places. */
  lemma WalkedAgain(d: Disk, ls: Lists, t: Tree, e: Disk, ms: Lists, u: Tree, cs: seq<seq<u8>>, handle: nat)
    requires Walked(d, ls, t, e, ms, u, cs, handle)
    ensures Ready(ms, u, u.root, Hashes(cs))
  {
    hide Built;
    ResolvesNoneMissing(u, u.root, Hashes(cs));
  }
}
