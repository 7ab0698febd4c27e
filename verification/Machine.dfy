/** Machine integers, byte strings and the small option type shared by every module. */
module Machine {

  const TWO_TO_THE_16 := 0x1_0000
  const TWO_TO_THE_32 := 0x1_0000_0000

  type byte = x: int | 0 <= x < 0x100
  type u16 = x: int | 0 <= x < TWO_TO_THE_16
  type u32 = x: int | 0 <= x < TWO_TO_THE_32

  /** Truncation to 32 bits. */
  function Wrap32(x: nat): u32 {
    x % 0x1_0000_0000
  }

  const NUL: byte := 0
  const NEWLINE: byte := 10
  const RETURN: byte := 13
  const SPACE: byte := 32

  datatype Option<+T> = None | Some(value: T)

  function Min(a: int, b: int): int {
    if a < b then a else b
  }

  function Pow2(n: nat): (r: nat)
    ensures r >= 1
  {
    if n == 0 then 1 else 2 * Pow2(n - 1)
  }

  /** The bytes of a message. */
  function Ascii(s: string): seq<byte> {
    seq(|s|, i requires 0 <= i < |s| => s[i] as int % 0x100)
  }

  /** A C string held without its terminator. */
  predicate IsText(s: seq<byte>) {
    NUL !in s
  }

  /** Index of the first NUL at or after i, or the length when there is none. */
  function NulAt(s: seq<byte>, i: nat): (r: nat)
    requires i <= |s|
    ensures i <= r <= |s|
    ensures forall k | i <= k < r :: s[k] != NUL
    ensures r < |s| ==> s[r] == NUL
    decreases |s| - i
  {
    if i == |s| || s[i] == NUL then i else NulAt(s, i + 1)
  }

  /** The part of a fixed-size character array before its first NUL. */
  function CString(s: seq<byte>): (r: seq<byte>)
    ensures IsText(r) && r <= s && (|r| < |s| ==> s[|r|] == 0)
  {
    s[..NulAt(s, 0)]
  }

  /** Memory `s` after `b` is stored from `at` on. */
  function Overwrite(s: seq<byte>, at: nat, b: seq<byte>): (r: seq<byte>)
    requires at + |b| <= |s|
    ensures |r| == |s|
  {
    seq(|s|, k requires 0 <= k < |s| => if at <= k < at + |b| then b[k - at] else s[k])
  }

  lemma OverwriteHolds(s: seq<byte>, at: nat, b: seq<byte>)
    requires at + |b| <= |s|
    ensures Overwrite(s, at, b)[at..at + |b|] == b
  {
  }
}
