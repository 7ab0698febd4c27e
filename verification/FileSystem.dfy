/** The read-only file system: student-distrib/fs.c over a boot image. */
module FileSystem {
  import opened Machine

  const BLOCK := 4096
  const MAX_BLOCKS := 127
  const ENTRIES := 63
  const NAME_SIZE := 32
  const MAX_FILE := 520192 // MAX_BLOCKS * BLOCK
  const DIRECTORY_TYPE := 1
  const FILE_TYPE := 2

  /** A 64-byte directory entry; the name field is NUL-padded but need not be terminated. */
  datatype Entry = Entry(name: seq<byte>, kind: u32, inode: u32)

  /** An inode block: a byte length and the numbers of the data blocks. */
  datatype Inode = Inode(length: u32, blocks: seq<u32>)

  /** Boot block entries, inode blocks, and the data region behind them. */
  datatype Image = Image(entries: seq<Entry>, inodes: seq<Inode>, data: seq<byte>)

  function BlockCount(length: nat): nat {
    (length + 4095) / BLOCK
  }

  function BlockEnd(block: int): int {
    BLOCK * block + BLOCK
  }

  ghost predicate WellFormedInode(node: Inode, room: nat) {
    && node.length <= MAX_FILE && |node.blocks| == MAX_BLOCKS
    && forall j | 0 <= j < BlockCount(node.length) :: BlockEnd(node.blocks[j]) <= room
  }

  ghost predicate WellFormed(img: Image) {
    && |img.entries| == ENTRIES
    && (forall n | 0 <= n < |img.inodes| :: WellFormedInode(img.inodes[n], |img.data|))
    && |img.inodes| < TWO_TO_THE_32 - 2
    && forall i | 0 <= i < ENTRIES :: WellFormedEntry(img.entries[i], |img.inodes|)
  }

  ghost predicate WellFormedEntry(e: Entry, inodes: nat) {
    && |e.name| == NAME_SIZE
    && (e.kind == DIRECTORY_TYPE || e.kind == FILE_TYPE ==> e.inode < inodes)
  }

  /** Inode numbers that a well-formed image can resolve. */
  ghost predicate HasFile(img: Image, inode: int) {
    0 <= inode < |img.inodes| && WellFormedInode(img.inodes[inode], |img.data|)
  }

  /** Byte k of a file, found through its block number. */
  ghost function FileByte(img: Image, inode: nat, k: nat): byte
    requires HasFile(img, inode) && k < img.inodes[inode].length
  {
    img.data[BLOCK * img.inodes[inode].blocks[k / BLOCK] + k % BLOCK]
  }

  /** The logical bytes of a file. */
  ghost function Contents(img: Image, inode: nat): (r: seq<byte>)
    requires HasFile(img, inode)
    ensures |r| == img.inodes[inode].length <= MAX_FILE
  {
    var n := img.inodes[inode].length;
    seq(n, k requires 0 <= k < n => FileByte(img, inode, k))
  }

  /** Byte 4096 j + i of f is byte i of the inode's j-th 4096-byte block. */
  ghost predicate InDataBlock(img: Image, inode: nat, f: seq<byte>, j: nat, i: nat)
    requires HasFile(img, inode) && |f| == img.inodes[inode].length && 4096 * j + i < |f|
  {
    var at: int := 4096 * img.inodes[inode].blocks[j] as int + i;
    0 <= at < |img.data| && img.data[at] == f[4096 * j + i]
  }

  /** A file's bytes are those of its 4096-byte blocks, one block after the other, up to its length. */
  lemma ContentsAreBlocksIff(img: Image, inode: nat, f: seq<byte>)
    requires HasFile(img, inode)
    ensures f == Contents(img, inode) <==>
      |f| == img.inodes[inode].length && forall j: nat, i: nat | i < 4096 && 4096 * j + i < |f| :: InDataBlock(img, inode, f, j, i)
  {
    if |f| == img.inodes[inode].length {
      forall j: nat, i: nat | i < 4096 && 4096 * j + i < |f|
        ensures InDataBlock(img, inode, f, j, i) <==> f[4096 * j + i] == FileByte(img, inode, 4096 * j + i)
      {
        assert BlockEnd(img.inodes[inode].blocks[j]) <= |img.data|;
        assert (4096 * j + i) / 4096 == j;
      }
      if forall j: nat, i: nat | i < 4096 && 4096 * j + i < |f| :: InDataBlock(img, inode, f, j, i) {
        forall k | 0 <= k < |f| ensures f[k] == FileByte(img, inode, k) { assert InDataBlock(img, inode, f, k / 4096, k % 4096); }
      }
    }
  }

  /** What a read of `length` bytes at `offset` delivers. */
  ghost function Slice(all: seq<byte>, offset: nat, length: nat): (r: seq<byte>)
    ensures offset <= |all| ==> |r| == Min(length, |all| - offset)
    ensures offset >= |all| ==> r == []
  {
    if offset >= |all| then [] else all[offset..Min(offset + length, |all|)]
  }

  lemma SliceIsPiece(all: seq<byte>, offset: nat, length: nat)
    requires offset <= |all|
    ensures var r := Slice(all, offset, length); offset + |r| <= |all| && r == all[offset..offset + |r|]
  {
  }

  /** How much one round copies: up to the end of the block, of the request and of the file. */
  function RunLength(size: nat, left: nat, i: nat, start: nat): (len: nat)
    requires start < BLOCK && i * BLOCK + start < size
    ensures start + len <= BLOCK && len <= left && i * BLOCK + start + len <= size
    ensures start + len == BLOCK || len == left || i * BLOCK + start + len == size
  {
    var len := if BLOCK - start > left then left else BLOCK - start;
    if i * BLOCK + len + start > size then size - (i * BLOCK + start) else len
  }

  /** Where the copy loop stands: `done` bytes delivered of `total`, the next run starting inside block i. */
  ghost predicate Copying(size: nat, offset: nat, total: nat, i: nat, start: nat, left: nat, done: nat) {
    && done <= total && offset + total <= size && start < BLOCK
    && (done == total ==> left == 0 || i * BLOCK >= size)
    && (done < total ==> offset + done == i * BLOCK + start && done + left >= total && left > 0)
    && (done + left == total || offset + total == size)
  }

  lemma CopyingAdvances(size: nat, offset: nat, total: nat, i: nat, start: nat, left: nat, done: nat)
    requires Copying(size, offset, total, i, start, left, done) && i * BLOCK < size && left != 0
    requires done + left >= total
    ensures i * BLOCK + start < size
    ensures var len := RunLength(size, left, i, start);
      done + len <= total && Copying(size, offset, total, i + 1, 0, left - len, done + len)
  {
  }

  /** `now` is `was` with the first `done` bytes of `want` stored from `at` on. */
  ghost predicate Stored(now: seq<byte>, was: seq<byte>, at: nat, want: seq<byte>, done: nat) {
    && |now| == |was| && done <= |want| && at + |want| <= |was|
    && forall k | 0 <= k < |now| :: now[k] == if at <= k < at + done then want[k - at] else was[k]
  }

  lemma StoredAll(now: seq<byte>, was: seq<byte>, at: nat, want: seq<byte>)
    requires Stored(now, was, at, want, |want|)
    ensures now == Overwrite(was, at, want)
  {
  }

  /** read_data: copies block by block into `buf` at `at`. */
  method ReadData(img: Image, inode: u32, offset: u32, buf: array<byte>, at: nat, length: u32)
    returns (bytesRead: nat)
    requires HasFile(img, inode)
    requires at + |Slice(Contents(img, inode), offset, length)| <= buf.Length
    modifies buf
    ensures bytesRead == |Slice(Contents(img, inode), offset, length)|
    ensures buf[..] == Overwrite(old(buf[..]), at, Slice(Contents(img, inode), offset, length))
  {
    var size := img.inodes[inode].length;
    ghost var was, want := buf[..], Slice(Contents(img, inode), offset, length);
    bytesRead := 0;
    if offset >= size {
      assert buf[..] == Overwrite(was, at, []);
      return;
    }
    var i: nat, start: nat, left: nat := offset / BLOCK, offset % BLOCK, length;
    while i < BlockCount(size) && left != 0
      invariant Copying(size, offset, |want|, i, start, left, bytesRead) && bytesRead + left == length
      invariant Stored(buf[..], was, at, want, bytesRead)
    {
      var len := CopyRun(img, inode, i, start, left, buf, at + bytesRead, at, bytesRead, was, offset, want);
      i, start, left, bytesRead := i + 1, 0, left - len, bytesRead + len;
    }
    StoredAll(buf[..], was, at, want);
  }

  /** The wanted bytes of one run lie behind each other in one data block. */
  lemma RunBytes(img: Image, inode: u32, i: nat, start: nat, done: nat, len: nat, offset: nat, want: seq<byte>)
    requires HasFile(img, inode) && i < BlockCount(img.inodes[inode].length) && done + len <= |want| && start + len <= BLOCK
    requires offset + |want| <= |Contents(img, inode)| && want == Contents(img, inode)[offset..offset + |want|]
    requires offset + done == BLOCK * i + start
    ensures var from := BLOCK * img.inodes[inode].blocks[i] + start;
      forall k | done <= k < done + len :: 0 <= from + k - done < |img.data| && want[k] == img.data[from + k - done]
  {
    forall k | done <= k < done + len
      ensures var at := BLOCK * img.inodes[inode].blocks[i] + start + k - done; 0 <= at < |img.data| && want[k] == img.data[at]
    {
      var at := offset + k;
      assert at / BLOCK == i && at % BLOCK == start + k - done;
      assert want[k] == FileByte(img, inode, at);
    }
  }

  /** One round of the copy loop: the next run of bytes lands behind those already delivered. */
  method CopyRun(img: Image, inode: u32, i: nat, start: nat, left: nat, buf: array<byte>, to: nat,
                 ghost at: nat, ghost done: nat, ghost was: seq<byte>, ghost offset: nat, ghost want: seq<byte>)
    returns (len: nat)
    requires HasFile(img, inode) && left != 0 && i < BlockCount(img.inodes[inode].length)
    requires done + left >= |want| && Copying(img.inodes[inode].length, offset, |want|, i, start, left, done)
    requires want == Contents(img, inode)[offset..offset + |want|]
    requires to == at + done && Stored(buf[..], was, at, want, done)
    modifies buf
    ensures len <= left && done + len <= |want|
    ensures Copying(img.inodes[inode].length, offset, |want|, i + 1, 0, left - len, done + len)
    ensures Stored(buf[..], was, at, want, done + len)
  {
    var size := img.inodes[inode].length;
    CopyingAdvances(size, offset, |want|, i, start, left, done);
    len := RunLength(size, left, i, start);
    var from := BLOCK * img.inodes[inode].blocks[i] + start;
    RunBytes(img, inode, i, start, done, len, offset, want);
    CopyIn(img.data, from, buf, to, len);
  }

  /** The memcpy out of the image; source and destination never overlap. */
  method CopyIn(data: seq<byte>, from: nat, buf: array<byte>, at: nat, len: nat)
    requires from + len <= |data| && at + len <= buf.Length
    modifies buf
    ensures forall k | 0 <= k < buf.Length :: buf[k] == if at <= k < at + len then data[from + k - at] else old(buf[k])
  {
    forall k | at <= k < at + len { buf[k] := data[from + k - at]; }
  }

  /** The program loader: 4096-byte reads until one delivers nothing. */
  method LoadFile(img: Image, inode: u32, memory: array<byte>, base: nat)
    requires HasFile(img, inode)
    requires base + |Contents(img, inode)| + 4096 <= memory.Length
    modifies memory
    ensures memory[..] == Overwrite(old(memory[..]), base, Contents(img, inode))
  {
    ghost var was, all := memory[..], Contents(img, inode);
    var pos: nat := 0;
    var count := LoadChunk(img, inode, pos, memory, base, was);
    while count != 0
      invariant pos <= |all| + 4095 && count == |Slice(all, pos, 4096)|
      invariant Stored(memory[..], was, base, all, Min(pos + 4096, |all|))
      decreases |all| + 4096 - pos
    {
      pos := pos + 4096;
      count := LoadChunk(img, inode, pos, memory, base, was);
    }
    StoredAll(memory[..], was, base, all);
  }

  /** One read of the loader, at `pos` in both the file and the program image. */
  method LoadChunk(img: Image, inode: u32, pos: u32, memory: array<byte>, base: nat, ghost was: seq<byte>)
    returns (count: nat)
    requires HasFile(img, inode) && base + pos <= memory.Length
    requires Stored(memory[..], was, base, Contents(img, inode), Min(pos, |Contents(img, inode)|))
    modifies memory
    ensures count == |Slice(Contents(img, inode), pos, 4096)|
    ensures Stored(memory[..], was, base, Contents(img, inode), Min(pos + 4096, |Contents(img, inode)|))
  {
    ghost var all, before := Contents(img, inode), memory[..];
    count := ReadData(img, inode, pos, memory, base + pos, 4096);
    StoredNext(memory[..], before, was, base, all, pos);
  }

  lemma StoredNext(now: seq<byte>, before: seq<byte>, was: seq<byte>, base: nat, all: seq<byte>, pos: nat)
    requires Stored(before, was, base, all, Min(pos, |all|)) && base + pos <= |was|
    requires now == Overwrite(before, base + pos, Slice(all, pos, 4096))
    ensures Stored(now, was, base, all, Min(pos + 4096, |all|))
  {
    var part := Slice(all, pos, 4096);
    forall k | 0 <= k < |now|
      ensures now[k] == if base <= k < base + Min(pos + 4096, |all|) then all[k - base] else was[k]
    {
      if base + pos <= k < base + pos + |part| { assert part[k - base - pos] == all[k - base]; }
    }
  }

  // ----- directory lookup

  /** The name a lookup compares with: file names keep 32 bytes. */
  function Truncated(name: seq<byte>): seq<byte> {
    if |name| > NAME_SIZE then name[..NAME_SIZE] else name
  }

  /** Index of the first entry from i on with this name, or -1. */
  function FindFrom(entries: seq<Entry>, name: seq<byte>, i: nat): (r: int)
    requires i <= |entries|
    ensures r == -1 ==> forall k | i <= k < |entries| :: CString(entries[k].name) != Truncated(name)
    ensures r != -1 ==> i <= r < |entries| && CString(entries[r].name) == Truncated(name)
    ensures r != -1 ==> forall k | i <= k < r :: CString(entries[k].name) != Truncated(name)
    decreases |entries| - i
  {
    if i == |entries| then -1
    else if CString(entries[i].name) == Truncated(name) then i
    else FindFrom(entries, name, i + 1)
  }

  /** strncmp(s, t, n) == 0 for a NUL-terminated s of length at least n. */
  method SamePrefix(s: seq<byte>, t: seq<byte>, n: nat) returns (same: bool)
    requires n <= |s| && n <= |t| && IsText(s)
    ensures same <==> s[..n] == t[..n]
  {
    var i := 0;
    while i < n
      invariant 0 <= i <= n && s[..i] == t[..i]
    {
      if s[i] != t[i] { return false; }
      i := i + 1;
    }
    return true;
  }

  /** Length of a name field that need not be terminated. */
  method NameLength(t: seq<byte>) returns (n: nat)
    ensures n == |CString(t)|
  {
    n := 0;
    while n < |t| && t[n] != NUL
      invariant n <= |t| && NulAt(t, 0) == NulAt(t, n)
    {
      n := n + 1;
    }
  }

  /** A prefix comparison plus a length check decide equality of names. */
  method SameName(name: seq<byte>, raw: seq<byte>) returns (same: bool)
    requires |raw| == NAME_SIZE && IsText(name)
    ensures same <==> CString(raw) == Truncated(name)
  {
    var n := Min(|name|, NAME_SIZE);
    same := SamePrefix(name, raw, n);
    var len := NameLength(raw);
    same := same && len == n;
    assert Truncated(name) == name[..n];
  }

  /** read_dentry_by_name. */
  method ReadDentryByName(img: Image, name: seq<byte>) returns (entry: int)
    requires WellFormed(img) && IsText(name)
    ensures entry == FindFrom(img.entries, name, 0)
  {
    entry := 0;
    while entry < ENTRIES
      invariant 0 <= entry <= ENTRIES
      invariant FindFrom(img.entries, name, 0) == FindFrom(img.entries, name, entry)
    {
      assert WellFormedEntry(img.entries[entry], |img.inodes|);
      var same := SameName(name, img.entries[entry].name);
      if same { return; }
      entry := entry + 1;
    }
    entry := -1;
  }
}
