// Access to the disk through one shared sector buffer, and the block allocator on top
// of it (kernel/proclib.c:76-97, kernel/driver/filesystem/filesystem.c:284-324).
module FsVolume {
  import opened Options
  import opened Bits
  import opened FsBlocks
  import opened FsTree
  import opened FsDisk
  import opened FsPath
  import opened FsFormat

  class Volume {
    const disk: array<Sector>
    /** The data area of the message page: what fileRead fills and fileWrite sends. */
    const buf: array<Sector>
    ghost var lists: Lists
    /** The root directory's file block, as read from the superblock at start-up. */
    var root: u32
    ghost var tree: Tree

    ghost predicate Shape()
      reads this
    {
      disk != buf && buf.Length == 4 && 4 <= disk.Length <= WORD
    }

    ghost predicate Valid()
      reads this, disk
    {
      Shape() && Good(disk[..], lists)
    }

    ghost predicate Mounted()
      reads this, disk
    {
      Shape() && FsOk(disk[..], lists, tree) && tree.root == root
    }

    constructor (contents: Disk, ghost ls: Lists)
      requires 4 <= |contents| <= WORD && Good(contents, ls)
      ensures Valid() && disk[..] == contents && lists == ls && fresh(disk) && fresh(buf)
    {
      disk := new Sector[|contents|](i requires 0 <= i < |contents| => contents[i]);
      buf := new Sector[4];
      lists := ls;
      root := 0;
      tree := Tree(0, map[], map[]);
      new;
      assert disk[..] == contents;
    }

    /** fileRead: count sectors into the buffer; the rest of it stays. */
    method FileRead(offset: nat, count: nat)
      requires Shape() && count <= 4 && offset + count <= disk.Length
      modifies buf
      ensures forall i :: 0 <= i < 4 ==> buf[i] == if i < count then disk[offset + i] else old(buf[i])
    {
      var i := 0;
      while i < count
        invariant i <= count
        invariant forall j :: 0 <= j < 4 ==> buf[j] == if j < i then disk[offset + j] else old(buf[j])
      {
        buf[i] := disk[offset + i];
        i := i + 1;
      }
    }

    /** fileWrite: count sectors out of the buffer. */
    method FileWrite(offset: nat, count: nat)
      requires Shape() && count <= 4 && offset + count <= disk.Length
      modifies disk
      ensures forall j :: 0 <= j < disk.Length ==>
                disk[j] == if offset <= j < offset + count then buf[j - offset] else old(disk[j])
    {
      var i := 0;
      while i < count
        invariant i <= count
        invariant forall j :: 0 <= j < disk.Length ==>
                    disk[j] == if offset <= j < offset + i then buf[j - offset] else old(disk[j])
      {
        disk[offset + i] := buf[i];
        i := i + 1;
      }
    }

    method FreeBlock(base: u32, len: nat)
      requires Shape() && 0 < base && 4 * base < disk.Length && len < ORDERS
      modifies disk, buf
      ensures disk[..] == Freed(old(disk[..]), base, len)
    {
      hide Pow2, Wrap;
      ghost var d := disk[..];
      FileRead(1, 1);
      var cid := buf[0][FREE_BLOCK + len];
      buf[0] := buf[0][FREE_SIZE := Wrap(buf[0][FREE_SIZE] + Pow2(len))];
      buf[0] := buf[0][FREE_BLOCK + len := base];
      FileWrite(1, 1);
      assert disk[..] == d[1 := buf[0]];
      buf[0] := buf[0][0 := cid];
      FileWrite(base * 4, 1);
      assert disk[..] == Freed(d, base, len);
    }

    /** The part of mallocBlock that both its branches repeat: the head of list k is
        read for its link, the superblock read again and the list moved on. */
    method TakeHead(k: nat) returns (rt: u32)
      requires Shape() && k < ORDERS && 4 * Head(disk[..], k) < disk.Length
      requires buf[0] == disk[1]
      modifies disk, buf
      ensures rt == Head(old(disk[..]), k) && disk[..] == Taken(old(disk[..]), k)
    {
      hide Wrap, Pow2, Taken;
      ghost var d := disk[..];
      rt := buf[0][FREE_BLOCK + k];
      FileRead(rt * 4, 1);
      var nxt := buf[0][0];
      MoveHead(k, nxt);
      TakenIs(d, disk[..], k);
    }

    /** The superblock, read again, gets a new head for list k and 2^k blocks less. */
    method MoveHead(k: nat, nxt: u32)
      requires Shape() && k < ORDERS
      modifies disk, buf
      ensures disk[..] == old(disk[..])[1 := WithHead(old(disk[1]), k, nxt)]
    {
      hide Wrap, Pow2;
      ghost var d := disk[..];
      FileRead(1, 1);
      buf[0] := buf[0][FREE_BLOCK + k := nxt];
      buf[0] := buf[0][FREE_SIZE := Wrap(buf[0][FREE_SIZE] - Pow2(k))];
      FileWrite(1, 1);
      assert disk[..] == d[1 := WithHead(d[1], k, nxt)];
    }

    /** The halves above rt go back. */
    method PutBack(rt: u32, len: nat, order: nat)
      requires Shape() && 0 < rt && order <= ORDERS && 4 * (rt + Pow2(order)) <= disk.Length
      modifies disk, buf
      ensures disk[..] == SplitDown(old(disk[..]), rt, len, order)
    {
      hide Freed, SplitDown, Pow2;
      ghost var d := disk[..];
      var l2: int := order - 1;
      while l2 >= len
        invariant -1 <= l2 < order && 4 * (rt + Pow2(l2 + 1)) <= disk.Length
        invariant SplitDown(d, rt, len, order) == SplitDown(disk[..], rt, len, l2 + 1)
      {
        SplitNext(disk[..], rt, len, l2);
        FreeBlock(rt + Pow2(l2), l2);
        l2 := l2 - 1;
      }
      SplitEnds(disk[..], rt, len, l2 + 1);
    }

    method MallocBlock(len: nat) returns (ret: u32)
      requires Valid() && len < ORDERS
      modifies this`lists, disk, buf
      ensures Valid() && ret == MallocBase(old(disk[..]), len)
      ensures disk[..] == MallocDisk(old(disk[..]), old(lists), len) && lists == MallocLists(old(disk[..]), old(lists), len)
    {
      ghost var d, ls := disk[..], lists;
      MallocGood(d, ls, len);
      hide Good, Taken, SplitDown, MallocLists, Fits;
      FileRead(1, 1);
      lists := MallocLists(d, ls, len);
      if buf[0][FREE_BLOCK + len] != 0 {
        TakenGood(d, ls, len);
        ret := TakeHead(len);
        SplitNone(disk[..], ret, len);
        return;
      }
      var l2 := len + 1;
      while l2 < ORDERS && buf[0][FREE_BLOCK + l2] == 0
        invariant len < l2 <= ORDERS && buf[0] == d[1] && disk[..] == d && lists == MallocLists(d, ls, len)
        invariant Least(d, len) == Least(d, l2)
      {
        l2 := l2 + 1;
      }
      if l2 == ORDERS {
        return 0;
      }
      TakenGood(d, ls, l2);
      ret := TakeHead(l2);
      PutBack(ret, len, l2);
    }
  
    // ----------------------------------------------------------------- files

    /** Reading a whole block. */
    method ReadBlock(b: u32)
      requires Shape() && 4 * (b + 1) <= disk.Length
      modifies buf
      ensures buf[..] == disk[4 * b..4 * b + 4]
      ensures IsBlock(disk[..], b) ==> buf[..] == At(disk[..], b)
    {
      FileRead(b * 4, 4);
      assert disk[4 * b..4 * b + 4] == disk[..][4 * b..4 * b + 4];
    }

    method WriteBack(b: u32)
      requires Shape() && 4 * (b + 1) <= disk.Length
      modifies disk
      ensures disk[..] == WriteBlock(old(disk[..]), b, buf[..])
    {
      ghost var d := disk[..];
      FileWrite(b * 4, 4);
      assert disk[..] == WriteBlock(d, b, buf[..]);
    }

    /** seekDataBlock. */
    method SeekDataBlock(file: u32, offset: u32) returns (ret: u32)
      requires Shape() && IsBlock(disk[..], file)
      modifies buf
      ensures ret == Seek(Extents(At(disk[..], file), 0), offset)
    {
      ReadBlock(file);
      ghost var four := At(disk[..], file);
      var i, left := 0, offset;
      while i < DATA_BLOCK_PTRS
        invariant i <= DATA_BLOCK_PTRS && buf[..] == four
        invariant Seek(Extents(four, 0), offset) == Seek(Extents(four, i), left)
      {
        var size := buf[2 + i / 64][2 * (i % 64) + 1];
        assert Pointer(four, i) == Extent(buf[2 + i / 64][2 * (i % 64)], size);
        if size == 0 {
          return 0;
        }
        if left < size {
          return buf[2 + i / 64][2 * (i % 64)];
        }
        left := left - size;
        i := i + 1;
      }
      ret := 0;
    }

    /** stringHash. */
    static method StringHash(str: seq<u8>) returns (hash: u32)
      ensures hash == Hash(str)
      ensures hash == HashSum(str) % WORD
    {
      HashIs(str);
      hash := 0;
      for i := 0 to |str|
        invariant hash == Hash(str[..i])
      {
        assert str[..i + 1][..i] == str[..i];
        hash := Wrap(hash * 31 + str[i]);
      }
      assert str[..|str|] == str;
    }

    /** `memset(db, 0, 2048)`. */
    method BlankBuffer()
      requires Shape()
      modifies buf
      ensures buf[..] == Blank()
    {
      buf[0], buf[1], buf[2], buf[3] := Zero(), Zero(), Zero(), Zero();
    }

    /** What is set on top of it. */
    method FillFileBlock(name: seq<u8>, dataBlock: u32)
      requires Shape() && |name| < FILE_NAME_SIZE && buf[..] == Blank()
      modifies buf
      ensures buf[..] == FileBlock(name, dataBlock)
    {
      hide Poke;
      for i := 0 to |name|
        invariant buf[..] == [Copied(Zero(), name, i), Zero(), Zero(), Zero()]
      {
        buf[0] := Poke(buf[0], i, name[i]);
      }
      buf[0] := Poke(buf[0], |name|, 0);
      var hash := StringHash(name);
      buf[0] := buf[0][NAME_HASH := hash];
      buf[2] := buf[2][0 := dataBlock];
      buf[2] := buf[2][1 := 1];
    }

    /** createFileBlock. The second mallocBlock is not checked: with one block left,
        its 0 is taken for a block, and the blank data block goes over the first
        sectors of the disk. */
    method CreateFileBlock(name: seq<u8>) returns (blk: u32)
      requires Valid() && |name| < FILE_NAME_SIZE
      modifies this`lists, disk, buf
      ensures blk == MallocBase(old(disk[..]), 0)
      ensures disk[..] == CreatedDisk(old(disk[..]), old(lists), name) && lists == CreatedLists(old(disk[..]), old(lists))
    {
      hide Good, MallocDisk, MallocLists, MallocBase, WriteBlock, FileBlock, Blank;
      ghost var d, ls := disk[..], lists;
      blk := MallocBlock(0);
      if blk == 0 {
        MallocFails(d, ls, 0);
        return;
      }
      MallocBlocks(d, ls);
      MallocBlocks(disk[..], lists);
      var dataBlock := MallocBlock(0);
      BlankBuffer();
      WriteBack(dataBlock);
      FillFileBlock(name, dataBlock);
      WriteBack(blk);
    }
  
    // ------------------------------------------------------------- the walk

    /** The scan of a directory block for a hash: the entry's place, which is the first
        free one if there is none. */
    method ScanDirectory(hash: u32, ghost es: seq<Entry>) returns (i: nat, address: u32)
      requires Shape() && IsDir(buf[..], es) && forall k :: 0 <= k < |es| ==> es[k].address != 0
      requires Find(es, hash) == 0 ==> |es| < DIR_FILE_PTRS
      ensures address == Find(es, hash) && (address == 0 ==> i == |es|)
    {
      i := 0;
      assert es[0..] == es;
      while i < DIR_FILE_PTRS && buf[i / 64][2 * (i % 64)] != 0
        invariant i <= |es| && Find(es, hash) == Find(es[i..], hash)
      {
        assert EntryAt(buf[..], i) == es[i] && es[i..][1..] == es[i + 1..];
        if buf[i / 64][2 * (i % 64) + 1] == hash {
          return i, buf[i / 64][2 * (i % 64)];
        }
        i := i + 1;
      }
      assert EntryAt(buf[..], i).address == 0;
      address := 0;
    }

    /** The directory block of dir, and the entry with the hash or the place for
        one. */
    method Lookup(dir: u32, hash: u32) returns (data: u32, i: nat, address: u32)
      requires Mounted() && Room(lists, tree, dir, hash)
      modifies buf
      ensures dir in tree.dirs && dir in tree.data && data == tree.data[dir] && address == Find(tree.dirs[dir], hash)
      ensures address == 0 ==> i == |tree.dirs[dir]|
    {
      hide FsOk, Find, IsDir, At, Seek, Extents, Total;
      DirBlocks(disk[..], lists, tree, dir);
      data := SeekDataBlock(dir, 0);
      ReadBlock(data);
      i, address := ScanDirectory(hash, tree.dirs[dir]);
    }

    /** One component of a path. */
    method Step(dir: u32, name: seq<u8>) returns (next: u32)
      requires Mounted() && |name| < FILE_NAME_SIZE && Room(lists, tree, dir, Hash(name))
      modifies this`lists, this`tree, disk, buf
      ensures Mounted()
      ensures Stepped(old(disk[..]), old(lists), old(tree), disk[..], lists, tree, dir, name, next)
    {
      hide FsOk, Hash, Find, Total, Stepped, Room, Lacks;
      ghost var d, ls, t := disk[..], lists, tree;
      var hash := StringHash(name);
      var data, i, address := Lookup(dir, hash);
      if address != 0 {
        next := address;
        FoundInTree(d, ls, t, dir, name);
      } else {
        CreatePossible(d, ls, t, dir, hash);
        next := Create(dir, name, data, i);
      }
    }

    /** The missing component: its file, then its entry in the directory. */
    method Create(dir: u32, name: seq<u8>, data: u32, i: nat) returns (fb: u32)
      requires Mounted() && |name| < FILE_NAME_SIZE && Lacks(disk[..], lists, tree, dir, data, i, Hash(name))
      modifies this`lists, this`tree, disk, buf
      ensures Mounted()
      ensures Stepped(old(disk[..]), old(lists), old(tree), disk[..], lists, tree, dir, name, fb)
    {
      hide FsOk, CreatedDisk, CreatedLists, Hash, Good, MallocBase, Lacks, Linkable, Stepped;
      ghost var d, ls, t := disk[..], lists, tree;
      FsGood(d, ls, t);
      var hash := StringHash(name);
      ghost var db := CreateLinkable(d, ls, t, dir, data, i, name);
      fb := CreateFileBlock(name);
      ghost var e, ms := disk[..], lists;
      LinkFile(dir, name, data, i, fb, hash, db);
      CreatedSteps(d, ls, t, e, ms, dir, data, i, name, fb, db);
    }

    /** The directory block is read again, since the buffer is not what it was. */
    method LinkFile(dir: u32, name: seq<u8>, data: u32, i: nat, fb: u32, hash: u32, ghost db: u32)
      requires Shape() && tree.root == root && Linkable(disk[..], lists, tree, dir, data, i, name, fb, db)
      modifies this`tree, disk, buf
      ensures Mounted() && dir in old(tree).dirs && tree == Added(old(tree), dir, hash, fb, db)
      ensures IsBlock(old(disk[..]), data) && i < DIR_FILE_PTRS
      ensures disk[..] == WriteBlock(old(disk[..]), data, WithEntry(At(old(disk[..]), data), i, Entry(fb, hash)))
    {
      hide FsOk, At, WriteBlock, WithEntry, Linkable;
      ghost var d := disk[..];
      LinkDone(d, lists, tree, dir, data, i, name, fb, db, hash);
      ReadBlock(data);
      SetEntry(i, fb, hash);
      WriteBack(data);
      tree := Added(tree, dir, hash, fb, db);
    }

    /** `filePtr->address=fb; filePtr->hash=hash;` */
    method SetEntry(i: nat, address: u32, hash: u32)
      requires Shape() && i < DIR_FILE_PTRS
      modifies buf
      ensures buf[..] == WithEntry(old(buf[..]), i, Entry(address, hash))
    {
      ghost var four := buf[..];
      buf[i / 64] := buf[i / 64][2 * (i % 64) := address];
      buf[i / 64] := buf[i / 64][2 * (i % 64) + 1 := hash];
      assert buf[..] == WithEntry(four, i, Entry(address, hash));
    }

    /** HD_OPEN of a path, as the driver gets it: None is a request that it drops. */
    method Open(data: seq<u8>) returns (handle: Option<u32>)
      requires Mounted() && (forall i :: 0 <= i < |data| ==> data[i] != 0)
      requires data != [] && data[0] == SLASH ==>
                 ShortNames(NamesOf(data)) && Ready(lists, tree, tree.root, Hashes(NamesOf(data)))
      modifies this`lists, this`tree, disk, buf
      ensures Mounted() && (handle.None? <==> data == [] || data[0] != SLASH)
      ensures handle.None? ==> disk[..] == old(disk[..]) && lists == old(lists) && tree == old(tree)
      ensures handle.Some? ==>
                && Walked(old(disk[..]), old(lists), old(tree), disk[..], lists, tree, NamesOf(data), handle.value)
                && IsBlock(disk[..], handle.value) && buf[..] == At(disk[..], handle.value)
    {
      hide FsOk, Walked, Walking, Ready, Components, Hashes, At;
      if data == [] || data[0] != SLASH {
        return None;
      }
      ghost var d, ls, t, cs := disk[..], lists, tree, NamesOf(data);
      FsRoot(d, ls, t);
      WalkStart(d, ls, t, cs);
      var dirAddr := root;
      if |data| > 1 {
        dirAddr := WalkAll(data, d, ls, t);
      }
      WalkFile(d, ls, t, disk[..], lists, tree, dirAddr, cs);
      WalkEnd(d, ls, t, disk[..], lists, tree, dirAddr, cs);
      ReadBlock(dirAddr);
      handle := Some(dirAddr);
    }

    /** The loop over the characters: a slash or the end of the string closes a
        component. */
    method WalkAll(data: seq<u8>, ghost d: Disk, ghost ls: Lists, ghost t: Tree) returns (dirAddr: u32)
      requires Mounted() && FsOk(d, ls, t) && |data| > 1 && ShortNames(NamesOf(data))
      requires forall i :: 0 <= i < |data| ==> data[i] != 0
      requires Walking(d, ls, t, disk[..], lists, tree, root, [], NamesOf(data))
      modifies this`lists, this`tree, disk, buf
      ensures Mounted()
      ensures Walking(d, ls, t, disk[..], lists, tree, dirAddr, NamesOf(data), [])
    {
      hide FsOk, Walking, Hash, Hashes, Components, Stepped, Room;
      dirAddr := root;
      var str, ptr := 1, 1;
      ghost var done, left := [], NamesOf(data);
      assert data[1..1] == [];
      while true
        invariant Mounted() && 1 <= str <= ptr <= |data| && left != []
        invariant left == Components(data[str..ptr], data[ptr..]) && ShortNames(left)
        invariant done + left == NamesOf(data)
        invariant Walking(d, ls, t, disk[..], lists, tree, dirAddr, done, left)
        decreases |data| - ptr
      {
        ComponentNext(data[str..ptr], data[ptr..]);
        var c := if ptr < |data| then data[ptr] else 0;
        if c == SLASH || c == 0 {
          dirAddr := WalkOne(d, ls, t, dirAddr, done, left, data[str..ptr]);
          done, left := done + [left[0]], left[1..];
          if c == 0 {
            assert left == [] && done + [] == done;
            return;
          }
          str := ptr + 1;
          assert data[str..ptr + 1] == [];
        } else {
          assert data[str..ptr + 1] == data[str..ptr] + [data[ptr]];
        }
        assert data[ptr..][1..] == data[ptr + 1..];
        ptr := ptr + 1;
      }
    }

    /** The next component. */
    method WalkOne(ghost d: Disk, ghost ls: Lists, ghost t: Tree, dir: u32, ghost done: seq<seq<u8>>, ghost left: seq<seq<u8>>,
                   name: seq<u8>) returns (next: u32)
      requires Mounted() && FsOk(d, ls, t) && Walking(d, ls, t, disk[..], lists, tree, dir, done, left)
      requires left != [] && name == left[0] && |name| < FILE_NAME_SIZE
      modifies this`lists, this`tree, disk, buf
      ensures Mounted() && Walking(d, ls, t, disk[..], lists, tree, next, done + [left[0]], left[1..])
    {
      hide FsOk, Walking, Hash, Stepped, Room;
      ghost var e, ms, u := disk[..], lists, tree;
      WalkRoom(d, ls, t, e, ms, u, dir, done, left);
      next := Step(dir, name);
      WalkStep(d, ls, t, e, ms, u, dir, done, left, disk[..], lists, tree, next);
    }

    /** The same path twice: the same file, and the second time nothing is written. */
    method OpenTwice(data: seq<u8>) returns (first: Option<u32>, second: Option<u32>, ghost between: Disk)
      requires Mounted() && (forall i :: 0 <= i < |data| ==> data[i] != 0)
      requires data != [] && data[0] == SLASH ==>
                 ShortNames(NamesOf(data)) && Ready(lists, tree, tree.root, Hashes(NamesOf(data)))
      modifies this`lists, this`tree, disk, buf
      ensures Mounted() && second == first && disk[..] == between
      ensures first.Some? ==>
                Walked(old(disk[..]), old(lists), old(tree), disk[..], lists, tree, NamesOf(data), first.value)
    {
      hide FsOk, Walked, Ready, Components, NamesOf, Hashes;
      first := Open(data);
      between := disk[..];
      ghost var ls, t := lists, tree;
      if first.Some? {
        WalkedAgain(old(disk[..]), old(lists), old(tree), between, ls, t, NamesOf(data), first.value);
      }
      second := Open(data);
      if first.Some? {
        WalkedLeads(old(disk[..]), old(lists), old(tree), between, ls, t, NamesOf(data), first.value);
        WalkedBefore(between, ls, t, disk[..], lists, tree, NamesOf(data), second.value);
      }
    }

    /** HD_READ of a block. */
    method ReadContents(file: u32, offset: u32)
      requires Mounted() && file in tree.data
      modifies buf
      ensures var b := if offset == 0 then tree.data[file] else 0;
              4 * (b + 1) <= disk.Length && buf[..] == disk[4 * b..4 * b + 4]
    {
      hide FsOk, At, Seek, Extents;
      FileBlocks(disk[..], lists, tree, file);
      SeekFile(disk[..], lists, tree, file, offset);
      var cls := SeekDataBlock(file, offset);
      ReadBlock(cls);
    }

    /** HD_WRITE of a block. Whatever the contents, the volume stays mounted, with a file
        that no longer counts as a directory. But for an offset past the end of the file
        seekDataBlock returns 0, and the contents go over the superblock. */
    method WriteContents(file: u32, offset: u32, contents: Four)
      requires Mounted() && file in tree.data
      modifies this`tree, disk, buf
      ensures offset == 0 ==>
                && Mounted() && tree == old(tree).(dirs := old(tree).dirs - {file})
                && IsBlock(old(disk[..]), tree.data[file])
                && disk[..] == WriteBlock(old(disk[..]), tree.data[file], contents)
      ensures offset > 0 ==> tree == old(tree) && disk[..] == contents + old(disk[..])[4..]
    {
      hide FsOk, At, Seek, Extents, WriteBlock;
      ghost var d := disk[..];
      FileBlocks(d, lists, tree, file);
      SeekFile(d, lists, tree, file, offset);
      var cls := SeekDataBlock(file, offset);
      buf[0], buf[1], buf[2], buf[3] := contents[0], contents[1], contents[2], contents[3];
      assert buf[..] == contents;
      WriteBack(cls);
      if offset == 0 {
        OverwrittenOk(d, lists, tree, file, contents);
        tree := tree.(dirs := tree.dirs - {file});
      } else {
        WrittenFirst(d, contents);
      }
    }

    // ------------------------------------------------------------------- mkfs

    /** freeBlock of a run none of which is free. */
    method Release(base: u32, len: nat)
      requires Valid() && len < ORDERS && Fits(disk[..], base, len)
      requires forall x: nat :: InRun(base, len, x) ==> !Free(lists, x)
      modifies this`lists, disk, buf
      ensures Valid() && lists == Pushed(old(lists), len, base) && SameSuper(old(disk[..]), disk[..])
    {
      hide Good, Free, ClearOf, Freed, Pow2;
      GoodShape(disk[..], lists);
      ClearFromFree(lists, base, len);
      FreedGood(disk[..], lists, base, len);
      FreedSuper(disk[..], base, len);
      FreeBlock(base, len);
      lists := Pushed(lists, len, base);
    }

    /** One end of what is left to cut. */
    method Cut(base: u32, len: nat, ghost lo: nat, ghost hi: nat, ghost a: nat, ghost s: nat, ghost a2: nat)
      requires Valid() && len < ORDERS && 0 < lo && 4 * hi <= disk.Length && Cutting(lists, lo, hi, a, s)
      requires Pow2(len) <= s && ((base == a && a2 == a + Pow2(len)) || (base == a + s - Pow2(len) && a2 == a))
      modifies this`lists, disk, buf
      ensures Valid() && Cutting(lists, lo, hi, a2, s - Pow2(len)) && SameSuper(old(disk[..]), disk[..])
      ensures |lists| == |old(lists)| == ORDERS
      ensures Total(lists, ORDERS) == Total(old(lists), ORDERS) + Pow2(len)
    {
      hide Good, Free, Pow2, Total;
      ghost var ls := lists;
      GoodShape(disk[..], ls);
      PushedTotal(ls, len, base);
      Release(base, len);
      forall x: nat
        ensures Free(lists, x) <==> Free(ls, x) || InRun(base, len, x)
      {
        PushedFree(ls, len, base, x);
      }
    }

    /** The loop of mkfs over the orders. Nothing is lost of the partition exactly when
        no aligned run of 2^20 blocks lies in it. */
    method CutPartition(address: u32, size: u32) returns (ghost at: nat, ghost lost: nat)
      requires Valid() && 0 < address && 4 * (address + size) <= disk.Length
      requires forall x: nat :: !Free(lists, x)
      modifies this`lists, disk, buf
      ensures Valid() && Cutting(lists, address, address + size, at, lost) && SameSuper(old(disk[..]), disk[..])
      ensures Total(lists, ORDERS) == Total(old(lists), ORDERS) + size - lost
      ensures lost == 0 <==> NoChunk(address, address + size)
    {
      hide Good, Free, Pow2, Total, NoChunk, Aligned, BitSet;
      var a: nat, s: nat := address, size;
      var len := 0;
      GoodShape(disk[..], lists);
      CutStart(lists, a, s);
      AlignedBase(a, s);
      while len < ORDERS && s >= Pow2(len)
        invariant Valid() && len <= ORDERS && Aligned(a, len) && Aligned(s, len) && SameSuper(old(disk[..]), disk[..])
        invariant Cutting(lists, address, address + size, a, s) && ChunksLeft(address, address + size, a, s)
        invariant |lists| == ORDERS && Total(lists, ORDERS) == Total(old(lists), ORDERS) + size - s
        decreases ORDERS - len
      {
        BitFlip(a, len);
        if BitSet(a, len) {
          CutLow(address, address + size, a, s, len);
          Cut(a, len, address, address + size, a, s, a + Pow2(len));
          AlignedLess(s, len);
          a, s := a + Pow2(len), s - Pow2(len);
        }
        BitFlip(s, len);
        if BitSet(s, len) {
          AlignedAtLeast(s, len);
          CutHigh(address, address + size, a, s, len);
          Cut(a + s - Pow2(len), len, address, address + size, a, s, a);
          s := s - Pow2(len);
        }
        len := len + 1;
      }
      at, lost := a, s;
      if len < ORDERS { NothingLeft(s, len); }
      LeftOver(address, address + size, a, s);
    }

    /** The superblock as mkfs begins it: freeSize is whatever was in the buffer. */
    method NewSuper(size: u32)
      requires Shape()
      modifies this`lists, disk, buf
      ensures Valid() && lists == NoLists() && disk[1][SIZE] == size
      ensures disk[1][0] == 0x6C72_6F4E && disk[1][1] == 0x5346_7469
      ensures forall x: nat :: !Free(lists, x)
    {
      buf[0] := buf[0][0 := 0x6C72_6F4E];
      buf[0] := buf[0][1 := 0x5346_7469];
      buf[0] := buf[0][SIZE := size];
      var i := 0;
      while i < ORDERS
        invariant i <= ORDERS && buf[0][SIZE] == size && buf[0][0] == 0x6C72_6F4E && buf[0][1] == 0x5346_7469
        invariant forall j :: FREE_BLOCK <= j < FREE_BLOCK + i ==> buf[0][j] == 0
      {
        buf[0] := buf[0][FREE_BLOCK + i := 0];
        i := i + 1;
      }
      FileWrite(1, 1);
      lists := NoLists();
      NoListsGood(disk[..]);
    }

    /** `sb->root=rootBlock;` */
    method SetRoot(rootBlock: u32)
      requires Shape()
      modifies disk, buf
      ensures disk[..] == WithRoot(old(disk[..]), rootBlock)
    {
      ghost var d := disk[..];
      FileRead(1, 1);
      buf[0] := buf[0][ROOT := rootBlock];
      FileWrite(1, 1);
      assert disk[..] == WithRoot(d, rootBlock);
    }

    /** mkfs on a partition of size blocks, of which the first start hold the boot
        records and the kernel: an empty file system, if two blocks came free. */
    method Mkfs(start: u32, size: u32) returns (ghost lost: nat)
      requires Shape() && 0 < start <= size && 4 * size <= disk.Length
      modifies this`lists, this`tree, this`root, disk, buf
      ensures lost == 0 <==> NoChunk(start, size)
      ensures lost + start + 2 <= size ==>
                Mounted() && (forall f :: f in tree.data <==> f == root) && tree.dirs == map[root := []]
                && Total(lists, ORDERS) == size - start - lost - 2
                && disk[1][0] == 0x6C72_6F4E && disk[1][1] == 0x5346_7469  // "NorlitFS"
                && disk[1][SIZE] == size && disk[1][ROOT] == root != 0
    {
      hide Good, Free, Total, NoChunk, CreatedDisk, CreatedLists, MallocBase, WithRoot, FsOk, Pow2;
      NewSuper(size);
      ghost var d0 := disk[..];
      NoTotal();
      ghost var at;
      at, lost := CutPartition(start, size - start);
      ghost var d1 := disk[..];
      if lost + start + 2 <= size {
        CreateFirst(d1, lists, [36, 82, 111, 111, 116]);
        FirstTotal(d1, lists);
        CreateKeepsSuper(d1, lists, [36, 82, 111, 111, 116]);
      }
      var rootBlock := CreateFileBlock([36, 82, 111, 111, 116]);
      ghost var e := disk[..];
      SetRoot(rootBlock);
      root := rootBlock;
      if lost + start + 2 <= size {
        ghost var db: u32 :| db != rootBlock && db != 0 && Holds(e, lists, rootBlock, db, Some([]));
        RootHolds(e, lists, rootBlock, db);
        SuperWords(d0, d1, e, rootBlock);
        tree := RootTree(rootBlock, db);
      }
    }
  }

  /** The words of the superblock, after all that mkfs does. */
  lemma SuperWords(d0: Disk, d1: Disk, e: Disk, rootBlock: u32)
    requires |d0| > 1 && |d1| > 1 && |e| > 1 && SameSuper(d0, d1) && SameSuper(d1, e)
    ensures var d := WithRoot(e, rootBlock);
            d[1][0] == d0[1][0] && d[1][1] == d0[1][1] && d[1][SIZE] == d0[1][SIZE] && d[1][ROOT] == rootBlock
  {
    assert forall i :: 0 <= i < FREE_SIZE ==> d1[1][i] == d0[1][i] && e[1][i] == d1[1][i];
  }

  /** Where mkfs begins to cut: behind the boot records and the 20 blocks of the kernel. */
  const FIRST_BLOCK: nat := 22

  /** A run that blanks the superblock: a partition with three blocks behind the kernel is
      formatted, and one more file made. */
  method LastBlockLost(v: Volume, name: seq<u8>)
    requires v.Shape() && v.disk.Length == 4 * (FIRST_BLOCK + 3) && |name| < FILE_NAME_SIZE
    modifies v, v.disk, v.buf
    ensures v.disk[1] == Zero()
  {
    hide Good, MallocBase, CreatedDisk, CreatedLists, FsOk, Zero, Total, Free;
    SmallNoChunk(FIRST_BLOCK, FIRST_BLOCK + 3);
    ghost var lost := v.Mkfs(FIRST_BLOCK, FIRST_BLOCK + 3);
    ghost var d, ls := v.disk[..], v.lists;
    FsGood(d, ls, v.tree);
    var blk := v.CreateFileBlock(name);
    CreateKeepsSuper(d, ls, name);
    assert v.disk[..][1] == v.disk[1];
  }

  lemma SmallNoChunk(lo: nat, hi: nat)
    requires hi < 0x10_0000
    ensures NoChunk(lo, hi)
  {
    Pow2Of29();
  }

  lemma FileBlocks(d: Disk, ls: Lists, t: Tree, f: nat)
    requires FsOk(d, ls, t) && f in t.data
    ensures IsBlock(d, f) && IsBlock(d, t.data[f])
  {
    assert Holds(d, ls, f, t.data[f], Listing(t, f));
  }

  lemma SeekFile(d: Disk, ls: Lists, t: Tree, f: nat, offset: nat)
    requires FsOk(d, ls, t) && f in t.data && IsBlock(d, f)
    ensures Seek(Extents(At(d, f), 0), offset) == if offset == 0 then t.data[f] else 0
  {
    assert Holds(d, ls, f, t.data[f], Listing(t, f));
    hide Extents, At, IsDir, Free;
    assert Extents(At(d, f), 0)[1..] == [];
  }

  lemma WrittenFirst(d: Disk, four: Four)
    requires |d| >= 4
    ensures WriteBlock(d, 0, four) == four + d[4..]
  {
  }

  function NoLists(): Lists { seq(ORDERS, _ => []) }

  lemma NoListsGood(d: Disk)
    requires |d| > 1 && forall j :: FREE_BLOCK <= j < FREE_BLOCK + ORDERS ==> d[1][j] == 0
    ensures Good(d, NoLists()) && forall x: nat :: !Free(NoLists(), x)
  {
    forall k | 0 <= k < ORDERS
      ensures Head(d, k) == 0
    {
    }
  }

  lemma NoTotal()
    ensures Total(NoLists(), ORDERS) == 0
  {
    TotalZero(NoLists(), ORDERS);
  }

  lemma FirstTotal(d: Disk, ls: Lists)
    requires Good(d, ls) && Total(ls, ORDERS) >= 2
    ensures |CreatedLists(d, ls)| == ORDERS && Total(CreatedLists(d, ls), ORDERS) == Total(ls, ORDERS) - 2
  {
    MallocHas(d, ls);
    MallocGood(d, ls, 0);
    var d1, ls1 := MallocDisk(d, ls, 0), MallocLists(d, ls, 0);
    MallocHas(d1, ls1);
    MallocGood(d1, ls1, 0);
  }

  lemma AlignedBase(a: int, s: int)
    ensures Aligned(a, 0) && Aligned(s, 0)
  {
  }

  lemma AlignedLess(s: int, len: nat)
    requires Aligned(s, len)
    ensures Aligned(s - Pow2(len), len)
  {
    BitFlip(s, len);
  }

  lemma AlignedAtLeast(s: nat, len: nat)
    requires Aligned(s, len) && BitSet(s, len)
    ensures Pow2(len) <= s
  {
    AlignedZero(len);
    AlignedPositive(s, len);
  }

  lemma NothingLeft(s: nat, len: nat)
    requires Aligned(s, len) && s < Pow2(len)
    ensures s == 0
  {
    if s > 0 { AlignedPositive(s, len); }
  }

  lemma FsRoot(d: Disk, ls: Lists, t: Tree)
    requires FsOk(d, ls, t)
    ensures t.root in t.data
  {
  }

  /** Where the walk stands there is a file. */
  lemma WalkFile(d: Disk, ls: Lists, t: Tree, e: Disk, ms: Lists, u: Tree, dir: nat, done: seq<seq<u8>>)
    requires Walking(d, ls, t, e, ms, u, dir, done, []) && FsOk(e, ms, u)
    ensures IsBlock(e, dir)
  {
    hide Built;
    assert Holds(e, ms, dir, u.data[dir], Listing(u, dir));
  }

  lemma WalkedLeads(d: Disk, ls: Lists, t: Tree, e: Disk, ms: Lists, u: Tree, cs: seq<seq<u8>>, handle: nat)
    requires Walked(d, ls, t, e, ms, u, cs, handle)
    ensures Resolve(u, u.root, Hashes(cs)) == Some(handle)
  {
    hide Built;
  }

  lemma FsGood(d: Disk, ls: Lists, t: Tree)
    requires FsOk(d, ls, t)
    ensures Good(d, ls) && TreeOk(t)
  {
  }

  lemma DirBlocks(d: Disk, ls: Lists, t: Tree, f: nat)
    requires FsOk(d, ls, t) && f in t.dirs
    ensures f in t.data && IsBlock(d, f) && IsBlock(d, t.data[f]) && |ls| == ORDERS
    ensures IsDir(At(d, t.data[f]), t.dirs[f]) && Seek(Extents(At(d, f), 0), 0) == t.data[f]
    ensures forall k :: 0 <= k < |t.dirs[f]| ==> t.dirs[f][k].address != 0
  {
    assert Holds(d, ls, f, t.data[f], Listing(t, f));
    EntriesNonzero(t, f);
  }

  lemma FoundInTree(d: Disk, ls: Lists, t: Tree, f: nat, name: seq<u8>)
    requires FsOk(d, ls, t) && f in t.dirs && Find(t.dirs[f], Hash(name)) != 0
    ensures Find(t.dirs[f], Hash(name)) < WORD && Stepped(d, ls, t, d, ls, t, f, name, Find(t.dirs[f], Hash(name)))
  {
    var i := FindListed(t.dirs[f], Hash(name));
    assert Listed(t, f, i);
  }

  /** Directory dir, in block data, has i entries, none with the hash, and there is room
      for one more and for its file. */
  ghost predicate Lacks(d: Disk, ls: Lists, t: Tree, dir: nat, data: nat, i: nat, hash: u32) {
    && dir in t.data && dir in t.dirs && data == t.data[dir] && i == |t.dirs[dir]|
    && Find(t.dirs[dir], hash) == 0 && Room(ls, t, dir, hash)
  }

  lemma CreatePossible(d: Disk, ls: Lists, t: Tree, dir: nat, hash: u32)
    requires FsOk(d, ls, t) && Room(ls, t, dir, hash) && Find(t.dirs[dir], hash) == 0
    ensures Lacks(d, ls, t, dir, t.data[dir], |t.dirs[dir]|, hash)
  {
  }

  /** File fb, on the disk but in no directory, can go into place i of dir. */
  ghost predicate Linkable(d: Disk, ls: Lists, t: Tree, dir: nat, data: nat, i: nat, name: seq<u8>, fb: u32, db: u32) {
    && FsOk(d, ls, t) && dir in t.data && dir in t.dirs && data == t.data[dir] && i == |t.dirs[dir]|
    && i < DIR_FILE_PTRS && NewFile(d, ls, t, name, fb, db)
  }

  lemma CreateLinkable(d: Disk, ls: Lists, t: Tree, dir: nat, data: nat, i: nat, name: seq<u8>) returns (db: u32)
    requires FsOk(d, ls, t) && |name| < FILE_NAME_SIZE && Lacks(d, ls, t, dir, data, i, Hash(name))
    ensures Good(d, ls) && MallocBase(d, 0) < WORD
    ensures Linkable(CreatedDisk(d, ls, name), CreatedLists(d, ls), t, dir, data, i, name, MallocBase(d, 0), db)
    ensures NewBlocks(d, ls, CreatedDisk(d, ls, name), CreatedLists(d, ls), MallocBase(d, 0), db)
  {
    db := CreateHolds(d, ls, t, name);
  }

  /** Blocks blk and db have come out of the free ones, and nothing else has changed. */
  ghost predicate NewBlocks(d: Disk, ls: Lists, e: Disk, ms: Lists, blk: nat, db: nat) {
    && |ls| == |ms| == ORDERS && Total(ms, ORDERS) == Total(ls, ORDERS) - 2
    && Kept(d, ls, e, {}) && Fewer(ls, ms) && Free(ls, blk) && Free(ls, db)
  }

  lemma LinkDone(d: Disk, ls: Lists, t: Tree, dir: nat, data: nat, i: nat, name: seq<u8>, fb: u32, db: u32, hash: u32)
    requires Linkable(d, ls, t, dir, data, i, name, fb, db)
    ensures IsBlock(d, data) && i < DIR_FILE_PTRS && dir in t.dirs
    ensures FsOk(WriteBlock(d, data, WithEntry(At(d, data), i, Entry(fb, hash))), ls, Added(t, dir, hash, fb, db))
  {
    DirBlocks(d, ls, t, dir);
    LinkHolds(d, ls, t, dir, Entry(fb, hash), db);
  }

  /** With the file's entry in place, the component has been created. */
  lemma CreatedSteps(d: Disk, ls: Lists, t: Tree, e: Disk, ms: Lists, dir: nat, data: nat, i: nat, name: seq<u8>, fb: u32, db: u32)
    requires FsOk(d, ls, t) && Lacks(d, ls, t, dir, data, i, Hash(name))
    requires Linkable(e, ms, t, dir, data, i, name, fb, db) && NewBlocks(d, ls, e, ms, fb, db) && IsBlock(e, data)
    ensures Stepped(d, ls, t, WriteBlock(e, data, WithEntry(At(e, data), i, Entry(fb, Hash(name)))), ms,
                    Added(t, dir, Hash(name), fb, db), dir, name, fb)
  {
    hide FsOk, FileBlock, Hash, Good, Total, IsFile, IsDir, WriteBlock, WithEntry, Kept, Free, Fewer, Blank;
    DirBlocks(d, ls, t, dir);
    var four := WithEntry(At(e, data), i, Entry(fb, Hash(name)));
    var g, u := WriteBlock(e, data, four), Added(t, dir, Hash(name), fb, db);
    FindAppend(t.dirs[dir], Entry(fb, Hash(name)), Hash(name));
    assert Grown(t, u, dir, Hash(name), fb);
    assert !Free(ls, data) by { FsTaken(d, ls, t, dir); }
    KeptAt(d, ls, e, {}, data);
    WriteKept(e, ms, data, four);
    WriteOne(e, data, four, data);
    WriteOne(e, data, four, fb);
    WriteOne(e, data, four, db);
    KeptOver(d, ls, e, ms, g, data);
  }

  lemma FsTaken(d: Disk, ls: Lists, t: Tree, f: nat)
    requires FsOk(d, ls, t) && f in t.data
    ensures !Free(ls, t.data[f])
  {
    assert Holds(d, ls, f, t.data[f], Listing(t, f));
  }

  lemma KeptOver(d: Disk, ls: Lists, e: Disk, ms: Lists, g: Disk, b: nat)
    requires Kept(d, ls, e, {}) && Fewer(ls, ms) && Kept(e, ms, g, {b})
    ensures Kept(d, ls, g, {b})
  {
    hide Free;
  }

  lemma MallocBlocks(d: Disk, ls: Lists)
    requires Good(d, ls) && |d| >= 4
    ensures 4 * (MallocBase(d, 0) + 1) <= |d| == |MallocDisk(d, ls, 0)| && Good(MallocDisk(d, ls, 0), MallocLists(d, ls, 0))
  {
    MallocGood(d, ls, 0);
    hide Good, MallocDisk, MallocLists, MallocBase;
    assert MallocBase(d, 0) != 0 ==> Fits(d, MallocBase(d, 0), 0);
  }

  function WithHead(sb: Sector, k: nat, nxt: u32): Sector
    requires k < ORDERS
  {
    var s := sb[FREE_BLOCK + k := nxt];
    s[FREE_SIZE := Wrap(s[FREE_SIZE] - Pow2(k))]
  }

  lemma TakenIs(d: Disk, e: Disk, k: nat)
    requires |d| > 1 && k < ORDERS && 4 * Head(d, k) < |d|
    requires e == d[1 := WithHead(d[1], k, d[4 * Head(d, k)][0])]
    ensures e == Taken(d, k)
  {
    hide Wrap, Pow2;
    assert d[1][FREE_BLOCK + k := d[4 * Head(d, k)][0]][FREE_SIZE] == FreeSize(d);
  }

  /** The next half to go back, and what is left to split. */
  lemma SplitNext(d: Disk, rt: u32, len: nat, l2: nat)
    requires len <= l2 < ORDERS && |d| > 1 && 4 * (rt + Pow2(l2 + 1)) <= |d| <= WORD && 0 < rt
    ensures 4 * (rt + Pow2(l2)) < |d| && rt + Pow2(l2) < WORD
    ensures SplitDown(d, rt, len, l2 + 1) == SplitDown(Freed(d, rt + Pow2(l2), l2), rt, len, l2)
  {
    hide Freed;
  }

  lemma SplitEnds(d: Disk, rt: u32, len: nat, l2: nat)
    requires l2 <= len && l2 <= ORDERS && |d| > 1 && 4 * (rt + Pow2(l2)) <= |d| <= WORD
    ensures SplitDown(d, rt, len, l2) == d
  {
  }

  lemma SplitNone(d: Disk, rt: u32, len: nat)
    requires len <= ORDERS && |d| > 1 && 4 * (rt + Pow2(len)) <= |d| <= WORD
    ensures SplitDown(d, rt, len, len) == d
  {
  }
}
