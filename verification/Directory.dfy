// Looking names up in the directory, and loading programs by name.
module Directory {
  import opened Text
  import opened FileSystem

  // A name field holds a name of at most 32 bytes, padded with NULs.
  function NameOf(e: DirEntry): seq<byte> {
    CString(e.name)
  }

  // The first entry with this name.
  function Lookup(entries: seq<DirEntry>, name: seq<byte>): Option<DirEntry> {
    if entries == [] then None
    else if NameOf(entries[0]) == name then Some(entries[0])
    else Lookup(entries[1..], name)
  }

  function Pad(name: seq<byte>): (field: seq<byte>)
    requires |name| <= NAME_LIMIT
    ensures |field| == NAME_LIMIT && name <= field && forall i :: |name| <= i < NAME_LIMIT ==> field[i] == NUL
  {
    name + seq(NAME_LIMIT - |name|, _ => NUL)
  }

  method StrLen(s: seq<byte>) returns (len: nat)
    requires NUL in s
    ensures len == Find(s, NUL) && len < |s|
  {
    len := 0;
    while s[len] != NUL
      invariant len < |s|
      invariant forall i :: 0 <= i < len ==> s[i] != NUL
      decreases |s| - len
    {
      assert len + 1 < |s|;
      len := len + 1;
    }
    FindUnique(s, NUL, len);
  }

  lemma {:induction false} CStringPrefix(s: seq<byte>, n: nat)
    requires Find(s, NUL) <= n <= |s|
    ensures CString(s[..n]) == CString(s)
  {
  }

  // Zero exactly when the strings, each cut at n bytes, are the same.  A
  // string that fills its n bytes needs no terminator.
  method StrNCmp(s1: seq<byte>, s2: seq<byte>, n: nat) returns (r: int)
    requires |s1| >= n
    requires NUL in s2 || |s2| >= n
    ensures r == 0 <==> CString(s1[..n]) == CString(s2[..Min(n, |s2|)])
  {
    var i := 0;
    while i < n
      invariant 0 <= i <= n && i <= |s2|
      invariant s1[..i] == s2[..i]
      invariant forall k :: 0 <= k < i ==> s1[k] != NUL
    {
      assert i < |s2| by {
        assert s2[..i] == s1[..i];
      }
      if s1[i] != s2[i] || s1[i] == NUL {
        assert s1[..n][..i] == s1[..i] && s2[..Min(n, |s2|)][..i] == s2[..i];
        CompareStops(s1[..n], s2[..Min(n, |s2|)], i);
        var c: int := s1[i];
        return c - s2[i];
      }
      i := i + 1;
    }
    assert s1[..n] == s2[..Min(n, |s2|)];
    return 0;
  }

  lemma {:induction false} CompareStops(a: seq<byte>, b: seq<byte>, i: nat)
    requires i < |a| && i < |b| && a[..i] == b[..i]
    requires forall k :: 0 <= k < i ==> a[k] != NUL
    requires a[i] != b[i] || a[i] == NUL
    ensures a[i] == b[i] <==> CString(a) == CString(b)
  {
  }

  method StrNCpy(src: seq<byte>, n: nat) returns (dest: seq<byte>)
    requires NUL in src
    ensures |dest| == n
    ensures var k := Min(n, Find(src, NUL));
            dest == src[..k] + seq(n - k, _ => NUL)
  {
    var i := 0;
    dest := [];
    while src[i] != NUL && i < n
      invariant 0 <= i <= n && i <= Find(src, NUL) < |src|
      invariant dest == src[..i]
      decreases n - i
    {
      dest := dest + [src[i]];
      i := i + 1;
    }
    ghost var k := i;
    while i < n
      invariant k <= i <= n
      invariant dest == src[..k] + seq(i - k, _ => NUL)
    {
      dest := dest + [NUL];
      i := i + 1;
    }
  }

  // Find the directory entry of a name given as a C string; the result holds
  // the name padded, and the entry's type and inode.
  method ReadDentryByName(fs: Image, fname: seq<byte>) returns (r: Option<DirEntry>)
    requires ValidImage(fs) && NUL in fname
    ensures r.None? <==> Lookup(fs.entries, CString(fname)).None?
    ensures r.Some? ==> var e := Lookup(fs.entries, CString(fname)).value;
                        |CString(fname)| <= NAME_LIMIT && r.value == DirEntry(Pad(CString(fname)), e.ftype, e.inode)
  {
    var i := 0;
    while i < |fs.entries|
      invariant 0 <= i <= |fs.entries|
      invariant Lookup(fs.entries, CString(fname)) == Lookup(fs.entries[i..], CString(fname))
    {
      var len := StrLen(fname);
      var cmp := -1;
      if len <= NAME_LIMIT {
        cmp := StrNCmp(fs.entries[i].name, fname, NAME_LIMIT);
        CStringPrefix(fname, Min(NAME_LIMIT, |fname|));
      }
      assert fs.entries[i].name[..NAME_LIMIT] == fs.entries[i].name;
      if cmp == 0 {
        var name := StrNCpy(fname, NAME_LIMIT);
        return Some(DirEntry(name, fs.entries[i].ftype, fs.entries[i].inode));
      }
      i := i + 1;
    }
    return None;
  }

  ghost predicate DistinctNames(entries: seq<DirEntry>) {
    forall i, j :: 0 <= i < j < |entries| ==> NameOf(entries[i]) != NameOf(entries[j])
  }

  lemma {:induction false} LookupFirst(entries: seq<DirEntry>, i: nat)
    requires i < |entries|
    requires forall j :: 0 <= j < i ==> NameOf(entries[j]) != NameOf(entries[i])
    ensures Lookup(entries, NameOf(entries[i])) == Some(entries[i])
  {
    if i > 0 {
      LookupFirst(entries[1..], i - 1);
    }
  }

  lemma {:induction false} LookupSound(entries: seq<DirEntry>, name: seq<byte>)
    ensures var r := Lookup(entries, name);
            if r.None? then forall e :: e in entries ==> NameOf(e) != name
            else r.value in entries && NameOf(r.value) == name
  {
    if entries != [] {
      LookupSound(entries[1..], name);
    }
  }

  // A name longer than the limit is never found.
  lemma {:induction false} LongNameFails(fs: Image, name: seq<byte>)
    requires ValidImage(fs) && |name| > NAME_LIMIT
    ensures Lookup(fs.entries, name).None?
  {
    LookupSound(fs.entries, name);
    assert forall e :: e in fs.entries ==> |NameOf(e)| <= NAME_LIMIT;
  }

  lemma {:induction false} ListingSlice(fs: Image, i: nat)
    requires ValidImage(fs) && i < |fs.entries|
    ensures NAME_LIMIT * i + NAME_LIMIT <= |Listing(fs)|
    ensures Listing(fs)[NAME_LIMIT * i..NAME_LIMIT * i + NAME_LIMIT] == fs.entries[i].name
  {
    var s := Listing(fs)[NAME_LIMIT * i..NAME_LIMIT * i + NAME_LIMIT];
    forall k | 0 <= k < NAME_LIMIT
      ensures s[k] == fs.entries[i].name[k]
    {
      NamesAt(fs.entries, i, k);
    }
  }

  lemma {:induction false} ListingChunk(fs: Image, i: nat)
    requires ValidImage(fs) && i <= |fs.entries|
    ensures Chunk(Listing(fs), NAME_LIMIT * i, NAME_LIMIT) == if i < |fs.entries| then fs.entries[i].name else []
  {
    if i < |fs.entries| {
      ListingSlice(fs, i);
    }
  }

  function NameSizes(n: nat): (sizes: seq<nat>)
    ensures |sizes| == n && forall i :: 0 <= i < n ==> sizes[i] == NAME_LIMIT
  {
    if n == 0 then [] else [NAME_LIMIT] + NameSizes(n - 1)
  }

  function FieldAt(entries: seq<DirEntry>, i: nat): seq<byte> {
    if i < |entries| then entries[i].name else []
  }

  // A content whose 32-byte chunks are the name fields.
  ghost predicate Tiled(content: seq<byte>, entries: seq<DirEntry>) {
    && |content| == NAME_LIMIT * |entries|
    && forall i: nat {:trigger FieldAt(entries, i)} :: i <= |entries| ==>
         Chunk(content, NAME_LIMIT * i, NAME_LIMIT) == FieldAt(entries, i)
  }

  lemma {:induction false} FieldLength(content: seq<byte>, entries: seq<DirEntry>, i: nat)
    requires Tiled(content, entries) && i <= |entries|
    ensures Chunk(content, NAME_LIMIT * i, NAME_LIMIT) == FieldAt(entries, i)
    ensures |FieldAt(entries, i)| == if i < |entries| then NAME_LIMIT else 0
  {
  }

  lemma {:induction false} TilesByName(content: seq<byte>, entries: seq<DirEntry>, i: nat, n: nat, k: nat)
    requires Tiled(content, entries) && i <= |entries| && k < n
    ensures NAME_LIMIT * i <= |content|
    ensures var cs := Chunks(content, NAME_LIMIT * i, NameSizes(n)); |cs| == n && cs[k] == FieldAt(entries, i + k)
    decreases n
  {
    TilesNext(content, entries, i, n);
    hide Chunk, Chunks, Tiled, NameSizes;
    var next := if i < |entries| then i + 1 else i;
    if k > 0 {
      TilesByName(content, entries, next, n - 1, k - 1);
    } else {
      ChunksCount(content, NAME_LIMIT * next, NameSizes(n - 1));
    }
  }

  lemma {:induction false} TilesNext(content: seq<byte>, entries: seq<DirEntry>, i: nat, n: nat)
    requires Tiled(content, entries) && i <= |entries| && n > 0
    ensures var next := if i < |entries| then i + 1 else i;
            && NAME_LIMIT * i <= |content| && NAME_LIMIT * next <= |content|
            && Chunks(content, NAME_LIMIT * i, NameSizes(n)) == [FieldAt(entries, i)] + Chunks(content, NAME_LIMIT * next, NameSizes(n - 1))
  {
    FieldLength(content, entries, i);
    assert NameSizes(n)[1..] == NameSizes(n - 1);
    NextChunk(content, NAME_LIMIT * i, NameSizes(n), NameSizes(n - 1));
    hide Chunk, Chunks, NameSizes;
  }

  // Reading the directory 32 bytes at a time, from entry i on, gives one name
  // field after the other and then nothing, for ever.
  lemma {:induction false} ListingByName(fs: Image, i: nat, n: nat, k: nat)
    requires ValidImage(fs) && i <= |fs.entries| && k < n
    ensures var cs := Chunks(Listing(fs), NAME_LIMIT * i, NameSizes(n));
            |cs| == n && cs[k] == FieldAt(fs.entries, i + k)
  {
    forall j: nat | j <= |fs.entries|
      ensures Chunk(Listing(fs), NAME_LIMIT * j, NAME_LIMIT) == FieldAt(fs.entries, j)
    {
      ListingChunk(fs, j);
    }
    TilesByName(Listing(fs), fs.entries, i, n, k);
  }

  // A client that reads the directory 32 bytes at a time.
  method ReadNames(d: Descriptor, n: nat, buf: array<byte>) returns (names: seq<seq<byte>>)
    requires d.Valid() && d.kind.Dir? && d.pos == 0 && NAME_LIMIT <= buf.Length
    modifies d`pos, buf
    ensures |names| == n
    ensures forall k :: 0 <= k < n ==> names[k] == FieldAt(d.fs.entries, k)
  {
    names := ReadAll(d, NameSizes(n), buf);
    ChunksCount(d.Content(), 0, NameSizes(n));
    forall k | 0 <= k < n
      ensures |names| == n && names[k] == FieldAt(d.fs.entries, k)
    {
      ListingByName(d.fs, 0, n, k);
    }
  }

  // The first entry that has the name of entry i.
  function FirstNamed(entries: seq<DirEntry>, i: nat): (f: nat)
    requires i < |entries|
    ensures f <= i && NameOf(entries[f]) == NameOf(entries[i])
    ensures forall j :: 0 <= j < f ==> NameOf(entries[j]) != NameOf(entries[i])
  {
    if i == 0 || NameOf(entries[0]) == NameOf(entries[i]) then 0 else 1 + FirstNamed(entries[1..], i - 1)
  }

  // What a listing returns can be opened: a name field read back as a C
  // string finds the first entry of that name, which is the listed one when
  // names are distinct.
  lemma {:induction false} ListedNameIsFound(fs: Image, i: nat)
    requires ValidImage(fs) && i < |fs.entries|
    ensures var field := Chunk(Listing(fs), NAME_LIMIT * i, NAME_LIMIT);
            && field == fs.entries[i].name
            && Lookup(fs.entries, CString(field + [NUL])) == Some(fs.entries[FirstNamed(fs.entries, i)])
    ensures DistinctNames(fs.entries) ==> FirstNamed(fs.entries, i) == i
  {
    ListingSlice(fs, i);
    var field := Chunk(Listing(fs), NAME_LIMIT * i, NAME_LIMIT);
    FindUnique(field + [NUL], NUL, Find(field, NUL));
    assert CString(field + [NUL]) == NameOf(fs.entries[i]);
    LookupFirst(fs.entries, FirstNamed(fs.entries, i));
  }

  const ELF_HEADER: seq<byte> := [0x7F, 0x45, 0x4C, 0x46]
  const ENTRY_OFFSET: uint32 := 24
  const LOAD_BUF_SIZE: uint32 := 4096
  // A process page is 4 MB, and a program starts 0x48000 bytes into it.
  const PAGE_BYTES := 0x40_0000
  const LOAD_OFFSET := 0x4_8000

  // A four-byte variable after reading the file over it at offset: bytes past
  // the end of the file keep what the variable held, and a read that fails,
  // for a bad inode or a bad block, leaves all of them.
  ghost function WordOf(fs: Image, inode: nat, offset: nat, held: seq<byte>): (w: seq<byte>)
    requires ValidImage(fs) && |held| == 4
    ensures |w| == 4
  {
    if inode >= |fs.inodes| || !GoodBetween(fs, inode, offset, offset + 4) then held
    else
      var n := Avail(fs.inodes[inode].length, offset, 4);
      BytesFrom(fs, inode, offset, n) + held[n..]
  }

  function LittleEndian(w: seq<byte>): uint32
    requires |w| == 4
  {
    var b0: int, b1: int, b2: int, b3: int := w[0], w[1], w[2], w[3];
    b0 + 0x100 * b1 + 0x1_0000 * b2 + 0x100_0000 * b3
  }

  // Byte k of a 32-bit word, the lowest first.
  function ByteOf(n: nat, k: nat): nat {
    if k == 0 then n % 0x100 else ByteOf(n / 0x100, k - 1)
  }

  lemma {:induction false} LittleEndianBytes(w: seq<byte>, k: nat)
    requires |w| == 4 && k < 4
    ensures ByteOf(LittleEndian(w), k) == w[k]
  {
    var b0: int, b1: int, b2: int, b3: int := w[0], w[1], w[2], w[3];
    var n1, n2 := b1 + 0x100 * b2 + 0x1_0000 * b3, b2 + 0x100 * b3;
    assert LittleEndian(w) == b0 + 0x100 * n1 && n1 == b1 + 0x100 * n2;
    LowByte(b0, n1);
    LowByte(b1, n2);
    LowByte(b2, b3);
    LowByte(b3, 0);
    assert ByteOf(n2, 0) == b2 && ByteOf(n2, 1) == ByteOf(b3, 0) == b3;
    assert ByteOf(n1, 0) == b1 && k >= 2 ==> ByteOf(n1, k - 1) == ByteOf(n2, k - 2);
  }

  lemma {:induction false} LowByte(b: nat, n: nat)
    requires b < 0x100
    ensures (b + 0x100 * n) % 0x100 == b && (b + 0x100 * n) / 0x100 == n
  {
  }

  // The word lies in one block, so a failing read changes none of it.
  method ReadWord(fs: Image, inode: uint32, offset: uint32, held: seq<byte>) returns (w: seq<byte>)
    requires ValidImage(fs) && |held| == 4 && offset + 4 <= BLOCK_SIZE
    ensures w == WordOf(fs, inode, offset, held)
  {
    var word := new byte[4](i requires 0 <= i < 4 => held[i]);
    assert word[..] == held;
    var r := ReadData(fs, inode, offset, word, 0, 4);
    w := word[..];
    if r == -1 {
      if inode < |fs.inodes| {
        OneBlock(fs, inode, offset);
      }
      assert forall k :: 0 <= k < 4 ==> word[k] == held[k];
    }
  }

  lemma {:induction false} OneBlock(fs: Image, inode: nat, offset: nat)
    requires ValidImage(fs) && inode < |fs.inodes|
    requires offset + 4 <= BLOCK_SIZE && !GoodBetween(fs, inode, offset, offset + 4)
    ensures forall k :: offset <= k < offset + 4 && k < fs.inodes[inode].length ==> !GoodAt(fs, inode, k)
  {
  }

  // Whether cmd names an executable file, by what the header variable holds
  // once the file's first bytes are read over what its stack slot held.
  method ProgramValid(fs: Image, cmd: seq<byte>, held: seq<byte>) returns (valid: bool)
    requires ValidImage(fs) && NUL in cmd && |held| == 4
    ensures valid <==> Lookup(fs.entries, CString(cmd)).Some?
                       && WordOf(fs, Lookup(fs.entries, CString(cmd)).value.inode, 0, held) == ELF_HEADER
  {
    var dentry := ReadDentryByName(fs, cmd);
    if dentry.None? {
      return false;
    }
    var header := ReadWord(fs, dentry.value.inode, 0, held);
    for i := 0 to 4
      invariant header[..i] == ELF_HEADER[..i]
    {
      if header[i] != ELF_HEADER[i] {
        return false;
      }
      assert header[..i + 1] == header[..i] + [header[i]] && ELF_HEADER[..i + 1] == ELF_HEADER[..i] + [ELF_HEADER[i]];
    }
    assert header == header[..4] && ELF_HEADER == ELF_HEADER[..4];
    return true;
  }

  // The first bytes of a file, up to four, when they can be read.
  ghost predicate HeadReadable(fs: Image, inode: nat)
    requires ValidImage(fs)
  {
    inode < |fs.inodes| && GoodBetween(fs, inode, 0, 4)
  }

  ghost function Head(fs: Image, inode: nat): (head: seq<byte>)
    requires ValidImage(fs) && HeadReadable(fs, inode)
    ensures |head| <= 4
  {
    BytesFrom(fs, inode, 0, Avail(fs.inodes[inode].length, 0, 4))
  }

  ghost predicate StartsWithMagic(fs: Image, inode: nat)
    requires ValidImage(fs)
  {
    HeadReadable(fs, inode) && Head(fs, inode) == ELF_HEADER
  }

  lemma {:induction false} MagicIsInFile(fs: Image, inode: nat)
    requires ValidImage(fs) && Readable(fs, inode)
    ensures StartsWithMagic(fs, inode) <==> ELF_HEADER <= FileBytes(fs, inode)
  {
    SliceOfFile(fs, inode, 0, Head(fs, inode));
  }

  // The check tells files with the magic bytes from files without, whatever
  // the stack slot held, exactly for the files whose first bytes can be read
  // and are not a proper beginning of the magic bytes: what the slot held
  // stands in for bytes that are not there or cannot be read.
  lemma {:induction false} ValidityIsExactIff(fs: Image, inode: nat)
    requires ValidImage(fs)
    ensures (forall held: seq<byte> :: |held| == 4 ==> (WordOf(fs, inode, 0, held) == ELF_HEADER <==> StartsWithMagic(fs, inode)))
            <==> HeadReadable(fs, inode) && !(|Head(fs, inode)| < 4 && Head(fs, inode) <= ELF_HEADER)
  {
    if !HeadReadable(fs, inode) || (|Head(fs, inode)| < 4 && Head(fs, inode) <= ELF_HEADER) {
      assert WordOf(fs, inode, 0, ELF_HEADER) == ELF_HEADER;
    } else {
      forall held: seq<byte> | |held| == 4
        ensures WordOf(fs, inode, 0, held) == ELF_HEADER <==> StartsWithMagic(fs, inode)
      {
        var head := Head(fs, inode);
        assert WordOf(fs, inode, 0, held)[..|head|] == head;
      }
    }
  }

  // So an empty file is taken for a program when an earlier header is still in
  // the slot,
  lemma {:induction false} EmptyFilePasses(fs: Image, inode: nat)
    requires ValidImage(fs) && inode < |fs.inodes| && fs.inodes[inode].length == 0
    ensures Readable(fs, inode) && !StartsWithMagic(fs, inode) && WordOf(fs, inode, 0, ELF_HEADER) == ELF_HEADER
  {
  }

  // and so is one whose first block, or whose inode, does not exist.
  lemma {:induction false} MissingBlockPasses(fs: Image, inode: nat)
    requires ValidImage(fs)
    requires inode < |fs.inodes| ==> fs.inodes[inode].length > 0 && fs.inodes[inode].blocks[0] >= |fs.blocks|
    ensures !StartsWithMagic(fs, inode) && WordOf(fs, inode, 0, ELF_HEADER) == ELF_HEADER
  {
    if inode < |fs.inodes| {
      assert !GoodAt(fs, inode, 0);
    }
  }

  // Copy a program into the process page, 4096 bytes at a time until a read
  // comes back short, and return its entry point.
  method ProgramLoad(fs: Image, cmd: seq<byte>, page: array<byte>, held: seq<byte>) returns (entry: uint32)
    requires ValidImage(fs) && NUL in cmd && |held| == 4 && page.Length == PAGE_BYTES
    requires Lookup(fs.entries, CString(cmd)).Some?
    requires FitsPage(fs, Lookup(fs.entries, CString(cmd)).value.inode)
    modifies page
    ensures entry == LittleEndian(WordOf(fs, Lookup(fs.entries, CString(cmd)).value.inode, ENTRY_OFFSET, held))
    ensures var inode := Lookup(fs.entries, CString(cmd)).value.inode;
            Readable(fs, inode) && |FileBytes(fs, inode)| >= 28 ==>
              forall k :: 0 <= k < 4 ==> ByteOf(entry, k) == FileBytes(fs, inode)[24 + k]
    ensures var inode := Lookup(fs.entries, CString(cmd)).value.inode;
            Readable(fs, inode) ==>
              var file := FileBytes(fs, inode);
              && page[LOAD_OFFSET..LOAD_OFFSET + |file|] == file
              && page[..LOAD_OFFSET] == old(page[..LOAD_OFFSET])
              && page[LOAD_OFFSET + |file|..] == old(page[LOAD_OFFSET + |file|..])
  {
    var dentry := ReadDentryByName(fs, cmd);
    var word := ReadWord(fs, dentry.value.inode, ENTRY_OFFSET, held);
    entry := LittleEndian(word);
    EntryIsInFile(fs, dentry.value.inode, held);
    LoadImage(fs, dentry.value.inode, page);
    if Readable(fs, dentry.value.inode) {
      LoadedAll(fs, dentry.value.inode, page[..], old(page[..]));
    }
  }

  // The file has room in a process page.
  predicate FitsPage(fs: Image, inode: nat) {
    inode < |fs.inodes| ==> fs.inodes[inode].length <= PAGE_BYTES - LOAD_OFFSET
  }

  // For a file of at least 28 bytes the entry point is its bytes 24 to 27,
  // whatever the variable held.
  lemma {:induction false} EntryIsInFile(fs: Image, inode: nat, held: seq<byte>)
    requires ValidImage(fs) && |held| == 4
    ensures Readable(fs, inode) && fs.inodes[inode].length >= 28 ==>
              && WordOf(fs, inode, ENTRY_OFFSET, held) == FileBytes(fs, inode)[24..28]
              && forall k :: 0 <= k < 4 ==> ByteOf(LittleEndian(WordOf(fs, inode, ENTRY_OFFSET, held)), k) == FileBytes(fs, inode)[24 + k]
  {
    if Readable(fs, inode) && fs.inodes[inode].length >= 28 {
      var w := WordOf(fs, inode, ENTRY_OFFSET, held);
      SliceOfFile(fs, inode, ENTRY_OFFSET, w);
      forall k | 0 <= k < 4
        ensures ByteOf(LittleEndian(w), k) == FileBytes(fs, inode)[24 + k]
      {
        LittleEndianBytes(w, k);
      }
    }
  }

  method LoadImage(fs: Image, inode: uint32, page: array<byte>)
    requires ValidImage(fs) && page.Length == PAGE_BYTES && FitsPage(fs, inode)
    modifies page
    ensures Readable(fs, inode) ==> Loaded(fs, inode, fs.inodes[inode].length, page[..], old(page[..]))
  {
    ghost var before := page[..];
    ghost var length := if inode < |fs.inodes| then fs.inodes[inode].length else 0;
    var addr, offset: uint32 := LOAD_OFFSET, 0;
    var count := ReadData(fs, inode, offset, page, addr, LOAD_BUF_SIZE);
    if Readable(fs, inode) {
      LoadMore(fs, inode, offset, count, before, page[..], before);
    }
    while count == LOAD_BUF_SIZE
      invariant addr == LOAD_OFFSET + offset
      invariant count == -1 ==> !Readable(fs, inode)
      invariant count != -1 ==> inode < |fs.inodes| && count == Avail(length, offset, LOAD_BUF_SIZE)
      invariant offset <= length
      invariant Readable(fs, inode) ==> Loaded(fs, inode, offset + count, page[..], before)
      decreases length - offset
    {
      addr := addr + count;
      offset := offset + count;
      ghost var was := page[..];
      count := ReadData(fs, inode, offset, page, addr, LOAD_BUF_SIZE);
      if Readable(fs, inode) {
        LoadMore(fs, inode, offset, count, was, page[..], before);
      }
    }
  }

  ghost predicate Loaded(fs: Image, inode: nat, n: nat, page: seq<byte>, before: seq<byte>)
    requires ValidImage(fs) && Readable(fs, inode)
  {
    && |page| == |before| && n <= fs.inodes[inode].length && LOAD_OFFSET + n <= |page|
    && (forall k :: LOAD_OFFSET <= k < LOAD_OFFSET + n ==> page[k] == ByteAt(fs, inode, k - LOAD_OFFSET))
    && (forall k :: 0 <= k < |page| && (k < LOAD_OFFSET || k >= LOAD_OFFSET + n) ==> page[k] == before[k])
  }

  lemma {:induction false} LoadMore(fs: Image, inode: nat, n: nat, r: nat, was: seq<byte>, page: seq<byte>, before: seq<byte>)
    requires ValidImage(fs) && Readable(fs, inode) && Loaded(fs, inode, n, was, before)
    requires |page| == |was| && n + r <= fs.inodes[inode].length && LOAD_OFFSET + n + r <= |page|
    requires forall k :: LOAD_OFFSET + n <= k < LOAD_OFFSET + n + r ==> page[k] == ByteAt(fs, inode, n + (k - (LOAD_OFFSET + n)))
    requires forall k :: 0 <= k < |page| && (k < LOAD_OFFSET + n || k >= LOAD_OFFSET + n + r) ==> page[k] == was[k]
    ensures Loaded(fs, inode, n + r, page, before)
  {
  }

  lemma {:induction false} LoadedAll(fs: Image, inode: nat, page: seq<byte>, before: seq<byte>)
    requires ValidImage(fs) && Readable(fs, inode) && Loaded(fs, inode, fs.inodes[inode].length, page, before)
    ensures var n := fs.inodes[inode].length;
            && page[LOAD_OFFSET..LOAD_OFFSET + n] == FileBytes(fs, inode)
            && page[..LOAD_OFFSET] == before[..LOAD_OFFSET]
            && page[LOAD_OFFSET + n..] == before[LOAD_OFFSET + n..]
  {
    SliceOfFile(fs, inode, 0, page[LOAD_OFFSET..LOAD_OFFSET + fs.inodes[inode].length]);
  }
}
