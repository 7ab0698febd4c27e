/** The string instructions of student-distrib/lib.c on one flat memory. */
module Memory {
  import opened Machine

  /** Byte k after n bytes moved from src to dst, all read before any is written. */
  ghost predicate MovedAt(now: seq<byte>, was: seq<byte>, dst: nat, src: nat, n: nat, k: nat)
    requires |now| == |was| && dst + n <= |was| && src + n <= |was|
  {
    k < |was| ==> now[k] == if dst <= k < dst + n then was[src + k - dst] else was[k]
  }

  ghost predicate Moved(now: seq<byte>, was: seq<byte>, dst: nat, src: nat, n: nat) {
    && |now| == |was| && dst + n <= |was| && src + n <= |was|
    && forall k: nat :: MovedAt(now, was, dst, src, n, k)
  }

  lemma MovedNothing(was: seq<byte>, dst: nat, src: nat)
    requires dst <= |was| && src <= |was|
    ensures Moved(was, was, dst, src, 0)
  {
  }

  lemma MovedUp(now: seq<byte>, mid: seq<byte>, was: seq<byte>, dst: nat, src: nat, done: nat, n: nat)
    requires Moved(mid, was, dst, src, done) && Moved(now, mid, dst + done, src + done, n)
    requires dst <= src || src + done + n <= dst
    ensures Moved(now, was, dst, src, done + n)
  {
    var total := done + n;
    forall k: nat ensures MovedAt(now, was, dst, src, total, k) {
      assert MovedAt(now, mid, dst + done, src + done, n, k) && MovedAt(mid, was, dst, src, done, k);
      if dst + done <= k < dst + done + n { assert MovedAt(mid, was, dst, src, done, src + k - dst); }
    }
  }

  lemma MovedDown(now: seq<byte>, mid: seq<byte>, was: seq<byte>, dst: nat, src: nat, n: nat)
    requires src < dst && Moved(mid, was, dst + 1, src + 1, n) && Moved(now, mid, dst, src, 1)
    ensures Moved(now, was, dst, src, n + 1)
  {
    var total := n + 1;
    forall k: nat ensures MovedAt(now, was, dst, src, total, k) {
      assert MovedAt(now, mid, dst, src, 1, k) && MovedAt(mid, was, dst + 1, src + 1, n, k);
      assert MovedAt(mid, was, dst + 1, src + 1, n, src);
    }
  }

  method MoveByte(mem: array<byte>, dst: nat, src: nat)
    requires dst < mem.Length && src < mem.Length
    modifies mem
    ensures Moved(mem[..], old(mem[..]), dst, src, 1)
  {
    mem[dst] := mem[src];
  }

  /** One 32-bit move: all four bytes are read before any is written. */
  method MoveDword(mem: array<byte>, dst: nat, src: nat)
    requires dst + 4 <= mem.Length && src + 4 <= mem.Length
    modifies mem
    ensures Moved(mem[..], old(mem[..]), dst, src, 4)
  {
    mem[dst], mem[dst + 1], mem[dst + 2], mem[dst + 3] := mem[src], mem[src + 1], mem[src + 2], mem[src + 3];
  }

  /** memmove: one byte at a time, upwards when the source is not below the destination, else downwards. */
  method MemMove(mem: array<byte>, dst: nat, src: nat, n: nat)
    requires dst + n <= mem.Length && src + n <= mem.Length
    modifies mem
    ensures Moved(mem[..], old(mem[..]), dst, src, n)
  {
    ghost var was := mem[..];
    MovedNothing(was, dst + n, src + n);
    MovedNothing(was, dst, src);
    var left := n;
    if src >= dst {
      while left != 0
        invariant 0 <= left <= n && Moved(mem[..], was, dst, src, n - left)
      {
        ghost var mid := mem[..];
        MoveByte(mem, dst + (n - left), src + (n - left));
        MovedUp(mem[..], mid, was, dst, src, n - left, 1);
        left := left - 1;
      }
    } else {
      while left != 0
        invariant 0 <= left <= n && Moved(mem[..], was, dst + left, src + left, n - left)
      {
        ghost var mid := mem[..];
        MoveByte(mem, dst + left - 1, src + left - 1);
        MovedDown(mem[..], mid, was, dst + left - 1, src + left - 1, n - left);
        left := left - 1;
      }
    }
  }

  /** memcpy: bytes up to a 4-byte boundary of the destination, then 32-bit moves, then the last bytes. */
  method MemCpy(mem: array<byte>, dst: nat, src: nat, n: nat)
    requires dst + n <= mem.Length && src + n <= mem.Length
    requires dst <= src || src + n <= dst
    modifies mem
    ensures Moved(mem[..], old(mem[..]), dst, src, n)
  {
    ghost var was := mem[..];
    MovedNothing(was, dst, src);
    var done := 0;
    while done < n && (dst + done) % 4 != 0
      invariant 0 <= done <= n && Moved(mem[..], was, dst, src, done)
    {
      ghost var mid := mem[..];
      MoveByte(mem, dst + done, src + done);
      MovedUp(mem[..], mid, was, dst, src, done, 1);
      done := done + 1;
    }
    var dwords, tail := (n - done) / 4, (n - done) % 4;
    while dwords != 0
      invariant 0 <= done && done + 4 * dwords + tail == n && dwords >= 0 && Moved(mem[..], was, dst, src, done)
    {
      ghost var mid := mem[..];
      MoveDword(mem, dst + done, src + done);
      MovedUp(mem[..], mid, was, dst, src, done, 4);
      done, dwords := done + 4, dwords - 1;
    }
    while tail != 0
      invariant tail >= 0 && 0 <= done && done + tail == n && Moved(mem[..], was, dst, src, done)
    {
      ghost var mid := mem[..];
      MoveByte(mem, dst + done, src + done);
      MovedUp(mem[..], mid, was, dst, src, done, 1);
      done, tail := done + 1, tail - 1;
    }
  }

  /** Where 16-bit word k of a run starts. */
  function WordAt(at: nat, k: nat): nat {
    at + 2 * k
  }

  /** memset_word: n 16-bit stores of the character c with attribute byte 0. */
  method MemSetWord(mem: array<byte>, at: nat, c: byte, n: nat)
    requires at + 2 * n <= mem.Length
    modifies mem
    ensures forall k | 0 <= k < n :: mem[WordAt(at, k)] == c && mem[WordAt(at, k) + 1] == 0
    ensures forall k | 0 <= k < mem.Length && !(at <= k < at + 2 * n) :: mem[k] == old(mem[k])
  {
    for i := 0 to n
      invariant forall k | 0 <= k < i :: mem[WordAt(at, k)] == c && mem[WordAt(at, k) + 1] == 0
      invariant forall k | 0 <= k < mem.Length && !(at <= k < at + 2 * i) :: mem[k] == old(mem[k])
    {
      mem[at + 2 * i], mem[at + 2 * i + 1] := c, 0;
    }
  }
}
