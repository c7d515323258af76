// The read-only file system: a boot block of directory entries, inodes that
// index 4 KB data blocks, and the reads that present a file, or the directory
// itself, as one sequence of bytes.
module FileSystem {
  import opened Text

  const NAME_LIMIT := 32
  const ENTRY_LIMIT := 63
  const BLOCK_LIMIT := 1023
  const BLOCK_SIZE := 4096
  const FILE_LIMIT := BLOCK_LIMIT * BLOCK_SIZE
  const WORD := 0x1_0000_0000

  datatype Option<T> = None | Some(value: T)

  type uint32 = n: int | 0 <= n < 0x1_0000_0000

  datatype DirEntry = DirEntry(name: seq<byte>, ftype: uint32, inode: uint32)
  datatype Inode = Inode(length: uint32, blocks: seq<uint32>)
  datatype Image = Image(entries: seq<DirEntry>, inodes: seq<Inode>, blocks: seq<seq<byte>>)

  const FTYPE_RTC: uint32 := 0
  const FTYPE_DIR: uint32 := 1
  const FTYPE_FILE: uint32 := 2

  // The shape of the image: field and table sizes, and no file longer than
  // its inode's block table can index.  Block numbers may still be wrong.
  ghost predicate ValidImage(fs: Image) {
    && |fs.entries| <= ENTRY_LIMIT
    && (forall i :: 0 <= i < |fs.entries| ==> |fs.entries[i].name| == NAME_LIMIT)
    && (forall i :: 0 <= i < |fs.inodes| ==> ValidInode(fs.inodes[i]))
    && (forall i :: 0 <= i < |fs.blocks| ==> |fs.blocks[i]| == BLOCK_SIZE)
  }

  predicate ValidInode(node: Inode) {
    |node.blocks| == BLOCK_LIMIT && node.length <= FILE_LIMIT
  }

  // Byte k of the file lies in an existing block.
  ghost predicate GoodAt(fs: Image, inode: nat, k: nat)
    requires ValidImage(fs) && inode < |fs.inodes| && k < fs.inodes[inode].length
  {
    fs.inodes[inode].blocks[k / BLOCK_SIZE] < |fs.blocks|
  }

  ghost function ByteAt(fs: Image, inode: nat, k: nat): byte
    requires ValidImage(fs) && inode < |fs.inodes| && k < fs.inodes[inode].length
    requires GoodAt(fs, inode, k)
  {
    fs.blocks[fs.inodes[inode].blocks[k / BLOCK_SIZE]][k % BLOCK_SIZE]
  }

  ghost predicate GoodBetween(fs: Image, inode: nat, lo: nat, hi: nat)
    requires ValidImage(fs) && inode < |fs.inodes|
  {
    forall k :: lo <= k < hi && k < fs.inodes[inode].length ==> GoodAt(fs, inode, k)
  }

  ghost predicate Readable(fs: Image, inode: nat)
    requires ValidImage(fs)
  {
    inode < |fs.inodes| && GoodBetween(fs, inode, 0, fs.inodes[inode].length)
  }

  // The first n bytes of the file.
  ghost function Prefix(fs: Image, inode: nat, n: nat): (s: seq<byte>)
    requires ValidImage(fs) && inode < |fs.inodes| && n <= fs.inodes[inode].length
    requires GoodBetween(fs, inode, 0, n)
    ensures |s| == n
  {
    if n == 0 then []
    else
      assert GoodAt(fs, inode, n - 1);
      Prefix(fs, inode, n - 1) + [ByteAt(fs, inode, n - 1)]
  }

  // A well-formed file is a sequence of bytes.
  ghost function FileBytes(fs: Image, inode: nat): (s: seq<byte>)
    requires ValidImage(fs) && Readable(fs, inode)
    ensures |s| == fs.inodes[inode].length
  {
    Prefix(fs, inode, fs.inodes[inode].length)
  }

  lemma {:induction false} PrefixAt(fs: Image, inode: nat, n: nat, k: nat)
    requires ValidImage(fs) && inode < |fs.inodes| && k < n <= fs.inodes[inode].length
    requires GoodBetween(fs, inode, 0, n)
    ensures GoodAt(fs, inode, k) && Prefix(fs, inode, n)[k] == ByteAt(fs, inode, k)
  {
    assert GoodAt(fs, inode, k);
    if k < n - 1 {
      PrefixAt(fs, inode, n - 1, k);
    }
  }

  // The first n of the blocks numbered, one after the other.
  ghost function Joined(fs: Image, numbers: seq<uint32>, n: nat): (s: seq<byte>)
    requires ValidImage(fs) && n <= |numbers| && forall i :: 0 <= i < n ==> numbers[i] < |fs.blocks|
    ensures |s| == BLOCK_SIZE * n
  {
    if n == 0 then [] else Joined(fs, numbers, n - 1) + fs.blocks[numbers[n - 1]]
  }

  lemma {:induction false} JoinedAt(fs: Image, numbers: seq<uint32>, n: nat, i: nat, j: nat)
    requires ValidImage(fs) && n <= |numbers| && (forall i :: 0 <= i < n ==> numbers[i] < |fs.blocks|) && i < n && j < BLOCK_SIZE
    ensures Joined(fs, numbers, n)[BLOCK_SIZE * i + j] == fs.blocks[numbers[i]][j]
  {
    if i < n - 1 {
      JoinedAt(fs, numbers, n - 1, i, j);
    }
  }

  // How many blocks a length takes up.
  function BlockCount(length: nat): nat {
    (length + BLOCK_SIZE - 1) / BLOCK_SIZE
  }

  // A file is its blocks in order, cut to its length.
  lemma {:induction false} FileIsItsBlocks(fs: Image, inode: nat)
    requires ValidImage(fs) && Readable(fs, inode)
    ensures var node := fs.inodes[inode];
            && BlockCount(node.length) <= |node.blocks|
            && (forall i :: 0 <= i < BlockCount(node.length) ==> node.blocks[i] < |fs.blocks|)
            && node.length <= BLOCK_SIZE * BlockCount(node.length)
            && FileBytes(fs, inode) == Joined(fs, node.blocks, BlockCount(node.length))[..node.length]
  {
    var node := fs.inodes[inode];
    var n := BlockCount(node.length);
    forall i | 0 <= i < n
      ensures node.blocks[i] < |fs.blocks|
    {
      assert BLOCK_SIZE * i < node.length;
      assert GoodAt(fs, inode, BLOCK_SIZE * i);
    }
    var s := Joined(fs, node.blocks, n)[..node.length];
    forall k | 0 <= k < node.length
      ensures FileBytes(fs, inode)[k] == s[k]
    {
      PrefixAt(fs, inode, node.length, k);
      JoinedAt(fs, node.blocks, n, k / BLOCK_SIZE, k % BLOCK_SIZE);
    }
  }

  lemma {:induction false} SliceOfFile(fs: Image, inode: nat, offset: nat, s: seq<byte>)
    requires ValidImage(fs) && Readable(fs, inode)
    requires offset + |s| <= fs.inodes[inode].length
    requires forall k :: 0 <= k < |s| ==> s[k] == ByteAt(fs, inode, offset + k)
    ensures s == FileBytes(fs, inode)[offset..offset + |s|]
  {
    forall k | 0 <= k < |s|
      ensures s[k] == FileBytes(fs, inode)[offset + k]
    {
      PrefixAt(fs, inode, fs.inodes[inode].length, offset + k);
    }
  }

  // n bytes of the file from offset on.
  ghost function BytesFrom(fs: Image, inode: nat, offset: nat, n: nat): (s: seq<byte>)
    requires ValidImage(fs) && inode < |fs.inodes| && GoodBetween(fs, inode, offset, offset + n)
    requires n > 0 ==> offset + n <= fs.inodes[inode].length
    ensures |s| == n
    ensures forall i :: 0 <= i < n ==> GoodAt(fs, inode, offset + i) && s[i] == ByteAt(fs, inode, offset + i)
  {
    if n == 0 then []
    else
      assert GoodAt(fs, inode, offset + n - 1);
      BytesFrom(fs, inode, offset, n - 1) + [ByteAt(fs, inode, offset + n - 1)]
  }

  // How many of n bytes asked for at offset exist.
  function Avail(length: nat, offset: nat, n: nat): nat {
    if offset >= length then 0 else Min(n, length - offset)
  }

  // Copy up to n bytes of the file, from offset, to buf[at..].  The indices
  // are 32-bit, so their sum wraps.
  method ReadData(fs: Image, inode: uint32, offset: uint32, buf: array<byte>, at: nat, n: uint32) returns (r: int)
    requires ValidImage(fs)
    requires at <= buf.Length
    requires inode < |fs.inodes| ==> at + Avail(fs.inodes[inode].length, offset, n) <= buf.Length
    modifies buf
    ensures r == -1 <==> inode >= |fs.inodes| || !GoodBetween(fs, inode, offset, offset + n)
    ensures r != -1 ==> r == Avail(fs.inodes[inode].length, offset, n)
    ensures r != -1 ==> forall k :: at <= k < at + r ==> buf[k] == ByteAt(fs, inode, offset + (k - at))
    ensures forall k :: 0 <= k < buf.Length && (k < at || k >= at + n) ==> buf[k] == old(buf[k])
    ensures r != -1 ==> forall k :: at + r <= k < buf.Length ==> buf[k] == old(buf[k])
    ensures r == -1 ==> forall k :: at <= k < buf.Length && buf[k] != old(buf[k]) ==>
              inode < |fs.inodes| && offset + (k - at) < fs.inodes[inode].length && GoodAt(fs, inode, offset + (k - at))
  {
    if inode >= |fs.inodes| {
      return -1;
    }
    var node := fs.inodes[inode];
    var i := 0;
    while i < n
      invariant 0 <= i <= n
      invariant i > 0 ==> offset + i <= node.length
      invariant forall k :: offset <= k < offset + i ==> GoodAt(fs, inode, k)
      invariant forall k :: at <= k < at + i ==> buf[k] == ByteAt(fs, inode, offset + (k - at))
      invariant forall k :: 0 <= k < buf.Length && (k < at || k >= at + i) ==> buf[k] == old(buf[k])
    {
      var j := (i + offset) % WORD;
      if j >= node.length {
        return i;
      }
      var block := node.blocks[j / BLOCK_SIZE];
      if block >= |fs.blocks| {
        assert !GoodAt(fs, inode, offset + i);
        return -1;
      }
      buf[at + i] := fs.blocks[block][j % BLOCK_SIZE];
      assert GoodAt(fs, inode, offset + i);
      i := i + 1;
    }
    return i;
  }

  // The directory seen as a file: its name fields one after another.
  function Names(entries: seq<DirEntry>): seq<byte> {
    if entries == [] then [] else entries[0].name + Names(entries[1..])
  }

  ghost function Listing(fs: Image): (s: seq<byte>)
    requires ValidImage(fs)
    ensures |s| == NAME_LIMIT * |fs.entries|
  {
    NamesAll(fs.entries);
    Names(fs.entries)
  }

  lemma {:induction false} NamesAll(entries: seq<DirEntry>)
    requires forall i :: 0 <= i < |entries| ==> |entries[i].name| == NAME_LIMIT
    ensures |Names(entries)| == NAME_LIMIT * |entries|
  {
    if entries != [] {
      NamesAll(entries[1..]);
    }
  }

  lemma {:induction false} NamesAt(entries: seq<DirEntry>, i: nat, k: nat)
    requires forall i :: 0 <= i < |entries| ==> |entries[i].name| == NAME_LIMIT
    requires i < |entries| && k < NAME_LIMIT
    ensures |Names(entries)| == NAME_LIMIT * |entries|
    ensures Names(entries)[NAME_LIMIT * i + k] == entries[i].name[k]
  {
    NamesAll(entries);
    if i > 0 {
      NamesAt(entries[1..], i - 1, k);
    }
  }

  // Offsets are signed here; past the end there is nothing to read.
  method ReadDirFile(fs: Image, offset: nat, buf: array<byte>, at: nat, n: uint32) returns (r: nat)
    requires ValidImage(fs)
    requires offset < 0x8000_0000 && at + Avail(|Listing(fs)|, offset, n) <= buf.Length
    modifies buf
    ensures r == Avail(|Listing(fs)|, offset, n)
    ensures r > 0 ==> buf[at..at + r] == Listing(fs)[offset..offset + r]
    ensures forall k :: 0 <= k < buf.Length && (k < at || k >= at + r) ==> buf[k] == old(buf[k])
  {
    var i := 0;
    while i < n
      invariant 0 <= i <= n && (i > 0 ==> offset + i <= |Listing(fs)|)
      invariant forall k :: at <= k < at + i ==> buf[k] == Listing(fs)[offset + (k - at)]
      invariant forall k :: 0 <= k < buf.Length && (k < at || k >= at + i) ==> buf[k] == old(buf[k])
    {
      var j := i + offset;
      var dir := j / NAME_LIMIT;
      if dir >= |fs.entries| {
        return i;
      }
      NamesAt(fs.entries, dir, j % NAME_LIMIT);
      buf[at + i] := fs.entries[dir].name[j % NAME_LIMIT];
      i := i + 1;
    }
    return i;
  }

  datatype Kind = Rtc | Dir | File

  // The operations a directory entry's type selects; other types cannot be opened.
  function KindOf(ftype: uint32): Option<Kind> {
    if ftype == FTYPE_RTC then Some(Rtc)
    else if ftype == FTYPE_DIR then Some(Dir)
    else if ftype == FTYPE_FILE then Some(File)
    else None
  }

  // An open file descriptor: which operations serve it, its inode and its
  // position.  The real-time clock delivers no bytes.
  class Descriptor {
    const fs: Image
    const kind: Kind
    const inode: uint32
    var pos: nat

    ghost predicate Valid()
      reads this
    {
      ValidImage(fs) && pos <= Length() && GoodUpTo(pos)
    }

    // The file's bytes below n all lie in existing blocks.
    ghost predicate GoodUpTo(n: nat)
      requires ValidImage(fs)
    {
      kind.File? && inode < |fs.inodes| ==> GoodBetween(fs, inode, 0, n)
    }

    // The length of the file; a bad inode has none.
    ghost function Length(): nat {
      match kind
      case Rtc => 0
      case Dir => NAME_LIMIT * |fs.entries|
      case File => if inode < |fs.inodes| then fs.inodes[inode].length else 0
    }

    ghost predicate WellFormed()
      requires ValidImage(fs)
    {
      kind.File? ==> Readable(fs, inode)
    }

    ghost function Content(): (s: seq<byte>)
      requires ValidImage(fs) && WellFormed()
      ensures |s| == Length()
    {
      match kind
      case Rtc => []
      case Dir => Listing(fs)
      case File => FileBytes(fs, inode)
    }

    constructor (fs: Image, kind: Kind, inode: uint32)
      requires ValidImage(fs)
      ensures Valid() && this.fs == fs && this.kind == kind && this.inode == inode && pos == 0
    {
      this.fs, this.kind, this.inode, this.pos := fs, kind, inode, 0;
    }

    // On a well-formed file a read delivers the next slice, short exactly when
    // the file ends; a failing read does not move the position.
    method FsRead(buf: array<byte>, at: nat, n: uint32) returns (r: int)
      requires Valid() && kind.File? && at + n <= buf.Length
      modifies this`pos, buf
      ensures Valid()
      ensures r == -1 <==> inode >= |fs.inodes| || !GoodBetween(fs, inode, old(pos), old(pos) + n)
      ensures r == -1 ==> pos == old(pos) && !WellFormed()
      ensures r != -1 ==> r == Min(n, Length() - old(pos)) && pos == old(pos) + r
      ensures r != -1 && pos == Length() ==> WellFormed()
      ensures WellFormed() ==> buf[at..at + r] == Content()[old(pos)..pos]
      ensures forall k :: 0 <= k < buf.Length && (k < at || k >= at + n) ==> buf[k] == old(buf[k])
      ensures r != -1 ==> forall k :: at + r <= k < buf.Length ==> buf[k] == old(buf[k])
    {
      r := ReadData(fs, inode, pos, buf, at, n);
      if r == -1 {
        return;
      }
      assert GoodBetween(fs, inode, 0, pos + r);
      pos := pos + r;
      if Readable(fs, inode) {
        SliceOfFile(fs, inode, old(pos), buf[at..at + r]);
      }
    }

    method DirectoryRead(buf: array<byte>, at: nat, n: uint32) returns (r: nat)
      requires Valid() && kind.Dir? && at + n <= buf.Length
      modifies this`pos, buf
      ensures Valid()
      ensures r == Min(n, Length() - old(pos)) && pos == old(pos) + r
      ensures buf[at..at + r] == Content()[old(pos)..pos]
      ensures forall k :: 0 <= k < buf.Length && (k < at || k >= at + r) ==> buf[k] == old(buf[k])
    {
      r := ReadDirFile(fs, pos, buf, at, n);
      pos := pos + r;
    }

    // The read operation of the descriptor's kind.
    method Read(buf: array<byte>, at: nat, n: uint32) returns (r: int)
      requires Valid() && at + n <= buf.Length
      modifies this`pos, buf
      ensures Valid()
      ensures r == -1 ==> pos == old(pos) && !WellFormed()
      ensures r != -1 ==> 0 <= r == Min(n, Length() - old(pos)) && pos == old(pos) + r
      ensures r != -1 && pos == Length() ==> WellFormed()
      ensures WellFormed() ==> buf[at..at + r] == Content()[old(pos)..pos]
      ensures r != -1 ==> buf[..at] == old(buf[..at]) && buf[at + r..] == old(buf[at + r..])
    {
      match kind {
        case Rtc => r := 0;
        case Dir => r := DirectoryRead(buf, at, n);
        case File => r := FsRead(buf, at, n);
      }
    }
  }

  // One read of a well-formed file: the bytes delivered at pos.
  function Chunk(content: seq<byte>, pos: nat, n: nat): seq<byte>
    requires pos <= |content|
  {
    content[pos..pos + Min(n, |content| - pos)]
  }

  // Successive reads of the given sizes, each continuing where the last stopped.
  function Chunks(content: seq<byte>, pos: nat, sizes: seq<nat>): seq<seq<byte>>
    requires pos <= |content|
    decreases |sizes|
  {
    if sizes == [] then []
    else
      var c := Chunk(content, pos, sizes[0]);
      [c] + Chunks(content, pos + |c|, sizes[1..])
  }

  function Flatten(ss: seq<seq<byte>>): seq<byte> {
    if ss == [] then [] else ss[0] + Flatten(ss[1..])
  }

  function Sum(ns: seq<nat>): nat {
    if ns == [] then 0 else ns[0] + Sum(ns[1..])
  }

  // However a file is read in chunks, the chunks put together are the next
  // Sum(sizes) bytes of it, or all that is left.
  lemma {:induction false} ChunksRefineFile(content: seq<byte>, pos: nat, sizes: seq<nat>)
    requires pos <= |content|
    ensures Flatten(Chunks(content, pos, sizes)) == content[pos..Min(pos + Sum(sizes), |content|)]
    decreases |sizes|
  {
    if sizes != [] {
      var c := Chunk(content, pos, sizes[0]);
      assert c == content[pos..pos + |c|];
      FirstChunk(content, pos, sizes);
      NextChunk(content, pos, sizes, sizes[1..]);
      hide Flatten, Chunks, Chunk, Sum;
      ChunksRefineFile(content, pos + |c|, sizes[1..]);
      SlicesMeet(content, pos, pos + |c|, Min(pos + Sum(sizes), |content|));
    }
  }

  lemma {:induction false} FirstChunk(content: seq<byte>, pos: nat, sizes: seq<nat>)
    requires pos <= |content| && sizes != []
    ensures var c := Chunk(content, pos, sizes[0]);
            Flatten(Chunks(content, pos, sizes)) == c + Flatten(Chunks(content, pos + |c|, sizes[1..]))
  {
    var c := Chunk(content, pos, sizes[0]);
    assert Chunks(content, pos, sizes)[1..] == Chunks(content, pos + |c|, sizes[1..]);
  }

  lemma {:induction false} SlicesMeet(s: seq<byte>, lo: nat, mid: nat, hi: nat)
    requires lo <= mid <= hi <= |s|
    ensures s[lo..mid] + s[mid..hi] == s[lo..hi]
  {
  }

  // A chunk is short exactly when the reads so far have asked for more than
  // the file holds.
  lemma {:induction false} ShortOnlyAtEnd(content: seq<byte>, pos: nat, sizes: seq<nat>, i: nat)
    requires pos <= |content| && i < |sizes|
    ensures |Chunks(content, pos, sizes)| == |sizes|
    ensures |Chunks(content, pos, sizes)[i]| < sizes[i] <==> pos + Sum(sizes[..i + 1]) > |content| && sizes[i] > 0
    decreases |sizes|
  {
    var c := Chunk(content, pos, sizes[0]);
    assert sizes[..i + 1][1..] == sizes[1..][..i];
    if |sizes| > 1 {
      ShortOnlyAtEnd(content, pos + |c|, sizes[1..], if i > 0 then i - 1 else 0);
      if i > 0 && |c| < sizes[0] {
        SumBound(sizes[1..][..i], i - 1);
      }
    } else {
      assert sizes[..i + 1] == [sizes[0]];
      assert Sum([sizes[0]]) == sizes[0];
    }
  }

  lemma {:induction false} ChunksCount(content: seq<byte>, pos: nat, sizes: seq<nat>)
    requires pos <= |content|
    ensures |Chunks(content, pos, sizes)| == |sizes|
    decreases |sizes|
  {
    if sizes != [] {
      ChunksCount(content, pos + |Chunk(content, pos, sizes[0])|, sizes[1..]);
    }
  }

  // A client that reads again and again: what the calls deliver are
  // consecutive slices of the file, together the next bytes of it, short only
  // when the file ends.
  method ReadChunks(d: Descriptor, sizes: seq<nat>, buf: array<byte>) returns (chunks: seq<seq<byte>>)
    requires d.Valid() && d.WellFormed()
    requires forall i :: 0 <= i < |sizes| ==> sizes[i] < WORD && sizes[i] <= buf.Length
    modifies d`pos, buf
    ensures d.Valid() && chunks == Chunks(d.Content(), old(d.pos), sizes)
    ensures d.pos == Min(old(d.pos) + Sum(sizes), d.Length())
    ensures Flatten(chunks) == d.Content()[old(d.pos)..d.pos]
    ensures |chunks| == |sizes|
    ensures forall i :: 0 <= i < |sizes| ==>
              (|chunks[i]| < sizes[i] <==> old(d.pos) + Sum(sizes[..i + 1]) > d.Length() && sizes[i] > 0)
  {
    ghost var content, pos := d.Content(), d.pos;
    chunks := ReadAll(d, sizes, buf);
    ChunksRefineFile(content, pos, sizes);
    ChunksCount(content, pos, sizes);
    hide Flatten, Chunks, Sum;
    forall k | 0 <= k < |sizes|
      ensures |chunks[k]| < sizes[k] <==> pos + Sum(sizes[..k + 1]) > d.Length() && sizes[k] > 0
    {
      ShortOnlyAtEnd(content, pos, sizes, k);
    }
  }

  method ReadOne(d: Descriptor, n: uint32, buf: array<byte>) returns (chunk: seq<byte>)
    requires d.Valid() && d.WellFormed() && n <= buf.Length
    modifies d`pos, buf
    ensures d.Valid() && chunk == Chunk(d.Content(), old(d.pos), n) && d.pos == old(d.pos) + |chunk|
  {
    var r := d.Read(buf, 0, n);
    chunk := buf[0..r];
  }

  // The first of several reads: with it, what has been read and what the others
  // will read make up the same chunks.
  method ReadFirst(d: Descriptor, sizes: seq<nat>, buf: array<byte>, ghost done: seq<seq<byte>>) returns (c: seq<byte>)
    requires d.Valid() && d.WellFormed() && sizes != [] && sizes[0] < WORD && sizes[0] <= buf.Length
    modifies d`pos, buf
    ensures d.Valid()
    ensures done + [c] + Chunks(d.Content(), d.pos, sizes[1..]) == done + Chunks(d.Content(), old(d.pos), sizes)
    ensures Min(d.pos + Sum(sizes[1..]), d.Length()) == Min(old(d.pos) + Sum(sizes), d.Length())
  {
    NextChunk(d.Content(), d.pos, sizes, sizes[1..]);
    hide Chunk, Chunks, Sum;
    c := ReadOne(d, sizes[0], buf);
    MoveChunk(done, c, Chunks(d.Content(), d.pos, sizes[1..]));
  }

  method ReadAll(d: Descriptor, sizes: seq<nat>, buf: array<byte>) returns (chunks: seq<seq<byte>>)
    requires d.Valid() && d.WellFormed()
    requires forall i :: 0 <= i < |sizes| ==> sizes[i] < WORD && sizes[i] <= buf.Length
    modifies d`pos, buf
    ensures d.Valid() && chunks == Chunks(d.Content(), old(d.pos), sizes)
    ensures d.pos == Min(old(d.pos) + Sum(sizes), d.Length())
  {
    hide Chunk, Readable, GoodBetween, Listing;
    ghost var all, end := Chunks(d.Content(), d.pos, sizes), Min(d.pos + Sum(sizes), d.Length());
    chunks := [];
    var left: seq<nat> := sizes;
    while left != []
      invariant d.Valid() && forall i :: 0 <= i < |left| ==> left[i] < WORD && left[i] <= buf.Length
      invariant chunks + Chunks(d.Content(), d.pos, left) == all && Min(d.pos + Sum(left), d.Length()) == end
      decreases |left|
    {
      var c := ReadFirst(d, left, buf, chunks);
      chunks := chunks + [c];
      left := left[1..];
    }
  }

  lemma {:induction false} NextChunk(content: seq<byte>, pos: nat, sizes: seq<nat>, more: seq<nat>)
    requires pos <= |content| && sizes != [] && more == sizes[1..]
    ensures var c := Chunk(content, pos, sizes[0]);
            && Chunks(content, pos, sizes) == [c] + Chunks(content, pos + |c|, more)
            && Min(pos + Sum(sizes), |content|) == Min(pos + |c| + Sum(more), |content|)
  {
  }

  lemma {:induction false} MoveChunk(done: seq<seq<byte>>, c: seq<byte>, rest: seq<seq<byte>>)
    ensures done + [c] + rest == done + ([c] + rest)
  {
  }

  lemma {:induction false} SumBound(ns: seq<nat>, i: nat)
    requires i < |ns|
    ensures ns[i] <= Sum(ns)
  {
    if i > 0 {
      SumBound(ns[1..], i - 1);
    }
  }
}
