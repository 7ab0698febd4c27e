/** Numbers as text: itoa, strrev and the number cases of printf (student-distrib/lib.c). */
module Numbers {
  import opened Machine

  const ZERO: byte := 48
  const MINUS: byte := 45

  /** The lookup table "0123456789ABCDEFGHIJKLMNOPQRSTUVWXYZ". */
  function Digit(d: nat): byte
    requires d < 36
  {
    if d < 10 then 48 + d else 55 + d
  }

  function DigitValue(c: byte): nat {
    if c >= 65 then c - 55 else if c >= 48 then c - 48 else 0
  }

  /** The number a string of digits denotes, most significant first. */
  function Value(s: seq<byte>, radix: nat): nat {
    if s == [] then 0 else Value(s[..|s| - 1], radix) * radix + DigitValue(s[|s| - 1])
  }

  /** The digits the loop of itoa emits, least significant first. */
  function Digits(v: nat, radix: nat): seq<byte>
    requires 2 <= radix <= 36
    decreases v
  {
    if v == 0 then [] else DivShrinks(v, radix); [Digit(v % radix)] + Digits(v / radix, radix)
  }

  lemma DivShrinks(v: nat, radix: nat)
    requires v > 0 && radix >= 2
    ensures v / radix <= v / 2 < v && v == (v / radix) * radix + v % radix
  {
    var q := v / radix;
    assert q * 2 <= q * radix <= v;
  }

  function Reverse(s: seq<byte>): (r: seq<byte>)
    ensures |r| == |s|
  {
    if s == [] then [] else Reverse(s[1..]) + [s[0]]
  }

  lemma {:induction false} ReverseAt(s: seq<byte>, k: nat)
    requires k < |s|
    ensures Reverse(s)[k] == s[|s| - 1 - k]
    decreases |s|
  {
    if k < |s| - 1 { ReverseAt(s[1..], k); }
  }

  /** What itoa leaves in the buffer. */
  function Numeral(v: nat, radix: nat): seq<byte>
    requires 2 <= radix <= 36
  {
    if v == 0 then [ZERO] else Reverse(Digits(v, radix))
  }

  lemma {:induction false} DigitsDenote(v: nat, radix: nat)
    requires 2 <= radix <= 36
    ensures Value(Reverse(Digits(v, radix)), radix) == v
    decreases v
  {
    if v > 0 {
      DivShrinks(v, radix);
      DigitsDenote(v / radix, radix);
      var rest := Digits(v / radix, radix);
      assert ([Digit(v % radix)] + rest)[1..] == rest;
      var r := Reverse(rest) + [Digit(v % radix)];
      assert r[..|r| - 1] == Reverse(rest);
    }
  }

  lemma {:induction false} DigitsEndNonZero(v: nat, radix: nat)
    requires 2 <= radix <= 36 && v > 0
    ensures var d := Digits(v, radix); |d| > 0 && d[|d| - 1] != ZERO
    decreases v
  {
    DivShrinks(v, radix);
    if v / radix > 0 {
      DigitsEndNonZero(v / radix, radix);
    } else {
      assert v % radix == v;
    }
  }

  /** '0' to '9' and 'A' to 'Z', as far as the radix goes. */
  predicate IsDigit(c: byte, radix: nat) {
    (48 <= c <= 57 || 65 <= c <= 90) && DigitValue(c) < radix
  }

  lemma DigitInRange(d: nat, radix: nat)
    requires d < radix <= 36
    ensures IsDigit(Digit(d), radix)
  {
  }

  lemma DigitsInRange(v: nat, radix: nat, k: nat)
    requires 2 <= radix <= 36 && k < |Digits(v, radix)|
    ensures IsDigit(Digits(v, radix)[k], radix)
  {
    QuotientDigit(v, radix, k);
    DigitInRange(Quotient(v, radix, k) % radix, radix);
  }

  lemma NumeralIsDigits(v: nat, radix: nat, k: nat)
    requires 2 <= radix <= 36 && k < |Numeral(v, radix)|
    ensures IsDigit(Numeral(v, radix)[k], radix)
  {
    if v > 0 {
      ReverseAt(Digits(v, radix), k);
      DigitsInRange(v, radix, |Digits(v, radix)| - 1 - k);
    }
  }

  /** Round trip: the text of a number is digits of the radix that denote that number, without a leading zero. */
  lemma NumeralRoundTrip(v: nat, radix: nat)
    requires 2 <= radix <= 36
    ensures Value(Numeral(v, radix), radix) == v && |Numeral(v, radix)| > 0
    ensures v > 0 ==> Numeral(v, radix)[0] != 48
    ensures forall k | 0 <= k < |Numeral(v, radix)| :: IsDigit(Numeral(v, radix)[k], radix)
  {
    forall k | 0 <= k < |Numeral(v, radix)| ensures IsDigit(Numeral(v, radix)[k], radix) { NumeralIsDigits(v, radix, k); }
    if v == 0 {
      assert [ZERO][..0] == [];
    } else {
      DigitsDenote(v, radix);
      DigitsEndNonZero(v, radix);
      ReverseAt(Digits(v, radix), 0);
    }
  }

  function Pow16(n: nat): nat {
    if n == 0 then 1 else 16 * Pow16(n - 1)
  }

  lemma {:induction false} DigitsShort(v: nat, radix: nat, n: nat)
    requires 2 <= radix <= 36 && v < Pow2(n)
    ensures |Digits(v, radix)| <= n
    decreases n
  {
    if v > 0 {
      DivShrinks(v, radix);
      DigitsShort(v / radix, radix, n - 1);
    }
  }

  lemma {:induction false} HexShort(v: nat, n: nat)
    requires v < Pow16(n)
    ensures |Digits(v, 16)| <= n
    decreases n
  {
    if v > 0 { HexShort(v / 16, n - 1); }
  }

  lemma Pow2Is32()
    ensures Pow2(32) == 0x1_0000_0000
  {
    assert Pow2(8) == 256;
    assert Pow2(16) == 256 * Pow2(8);
    assert Pow2(24) == 256 * Pow2(16);
    assert Pow2(32) == 256 * Pow2(24);
  }

  // ----- the routines

  method StrLen(buf: array<byte>, at: nat, ghost n: nat) returns (len: nat)
    requires at + n < buf.Length && buf[at + n] == NUL && forall k | at <= k < at + n :: buf[k] != NUL
    ensures len == n
  {
    len := 0;
    while buf[at + len] != NUL
      invariant 0 <= len <= n
      decreases n - len
    {
      len := len + 1;
    }
  }

  /** strrev: swaps the two ends until they meet. */
  method StrRev(buf: array<byte>, at: nat, ghost n: nat)
    requires at + n < buf.Length && buf[at + n] == NUL && forall k | at <= k < at + n :: buf[k] != NUL
    modifies buf
    ensures forall k | at <= k < at + n :: buf[k] == old(buf[at + n - 1 - (k - at)])
    ensures forall k | 0 <= k < buf.Length && !(at <= k < at + n) :: buf[k] == old(buf[k])
  {
    var len := StrLen(buf, at, n);
    var beg: int, end: int := 0, len as int - 1;
    while beg < end
      invariant 0 <= beg <= n && end == n - 1 - beg && beg <= end + 1 + 1
      invariant forall k | at <= k < at + beg || at + end < k < at + n :: buf[k] == old(buf[at + n - 1 - (k - at)])
      invariant forall k | 0 <= k < buf.Length && !(at <= k < at + beg || at + end < k < at + n) :: buf[k] == old(buf[k])
    {
      var tmp := buf[at + end];
      buf[at + end] := buf[at + beg];
      buf[at + beg] := tmp;
      beg, end := beg + 1, end - 1;
    }
  }

  /** buf[at..] holds the string s and its terminator; everything outside is as before. */
  ghost predicate Holds(now: seq<byte>, was: seq<byte>, at: nat, s: seq<byte>) {
    && |now| == |was| && at + |s| < |now| && now[at..at + |s|] == s && now[at + |s|] == NUL
    && forall k | 0 <= k < |now| && !(at <= k <= at + |s|) :: now[k] == was[k]
  }

  /** What is left of v after n rounds of the digit loop. */
  function Quotient(v: nat, radix: nat, n: nat): nat
    requires radix >= 2
  {
    if n == 0 then v else Quotient(v / radix, radix, n - 1)
  }

  lemma {:induction false} QuotientStep(v: nat, radix: nat, n: nat)
    requires 2 <= radix <= 36
    ensures Quotient(v, radix, n + 1) == Quotient(v, radix, n) / radix
    decreases n
  {
    if n > 0 { QuotientStep(v / radix, radix, n - 1); }
  }

  /** Digit n of the text is the last digit of what is left after n rounds. */
  lemma {:induction false} QuotientDigit(v: nat, radix: nat, n: nat)
    requires 2 <= radix <= 36
    ensures Quotient(v, radix, n) > 0 <==> n < |Digits(v, radix)|
    ensures n < |Digits(v, radix)| ==> Digits(v, radix)[n] == Digit(Quotient(v, radix, n) % radix)
    decreases n
  {
    if v == 0 { QuotientOfZero(radix, n); }
    else if n > 0 { QuotientDigit(v / radix, radix, n - 1); }
  }

  lemma {:induction false} QuotientOfZero(radix: nat, n: nat)
    requires radix >= 2
    ensures Quotient(0, radix, n) == 0
    decreases n
  {
    assert 0 / radix == 0;
    if n > 0 { QuotientOfZero(radix, n - 1); }
  }

  lemma DigitsAreDigits(v: nat, radix: nat, k: nat)
    requires 2 <= radix <= 36 && k < |Digits(v, radix)|
    ensures Digits(v, radix)[k] != NUL
  {
    QuotientDigit(v, radix, k);
  }

  /** The digit loop of itoa. */
  method EmitDigits(value: u32, buf: array<byte>, at: nat, radix: nat) returns (n: nat)
    requires 2 <= radix <= 36 && at + |Digits(value, radix)| < buf.Length
    modifies buf
    ensures Holds(buf[..], old(buf[..]), at, Digits(value, radix)) && n == |Digits(value, radix)|
  {
    ghost var all := Digits(value, radix);
    var newval: nat := value;
    n := 0;
    while newval > 0
      invariant 0 <= n <= |all| && newval == Quotient(value, radix, n)
      invariant forall k | at <= k < at + n :: buf[k] == all[k - at]
      invariant forall k | 0 <= k < buf.Length && !(at <= k < at + n) :: buf[k] == old(buf[k])
      decreases |all| - n
    {
      QuotientStep(value, radix, n);
      QuotientDigit(value, radix, n);
      buf[at + n] := Digit(newval % radix);
      n := n + 1;
      newval := newval / radix;
    }
    QuotientDigit(value, radix, n);
    buf[at + n] := NUL;
    assert buf[at..at + n] == all;
  }

  /** itoa, into a buffer with room for the text and its terminator. */
  method Itoa(value: u32, buf: array<byte>, at: nat, radix: nat)
    requires 2 <= radix <= 36 && at + |Numeral(value, radix)| < buf.Length
    modifies buf
    ensures Holds(buf[..], old(buf[..]), at, Numeral(value, radix))
  {
    if value == 0 {
      buf[at], buf[at + 1] := ZERO, NUL;
      assert buf[at..at + 1] == [ZERO];
      return;
    }
    ghost var was := buf[..];
    var n := EmitDigits(value, buf, at, radix);
    forall k | 0 <= k < n ensures Digits(value, radix)[k] != NUL { DigitsAreDigits(value, radix, k); }
    ReverseHeld(buf, was, at, Digits(value, radix));
  }

  /** strrev of a held string without NULs. */
  method ReverseHeld(buf: array<byte>, ghost was: seq<byte>, at: nat, ghost s: seq<byte>)
    requires |was| == buf.Length && at + |s| < buf.Length && Holds(buf[..], was, at, s) && forall k | 0 <= k < |s| :: s[k] != NUL
    modifies buf
    ensures Holds(buf[..], was, at, Reverse(s))
  {
    ghost var n, mid := |s|, buf[..];
    assert forall k | 0 <= k < n :: mid[at..at + n][k] == s[k] == mid[at + k];
    forall k | at <= k < at + n ensures buf[k] != NUL { assert mid[at..at + n][k - at] == s[k - at]; }
    StrRev(buf, at, n);
    forall k | 0 <= k < n ensures buf[at..at + n][k] == Reverse(s)[k] {
      ReverseAt(s, k);
      assert mid[at..at + n][n - 1 - k] == s[n - 1 - k];
      assert buf[at + k] == mid[at + n - 1 - k];
    }
    assert buf[at..at + n] == Reverse(s);
  }

  /** puts: the characters up to the terminator. */
  method Puts(buf: array<byte>, at: nat, ghost end: nat) returns (out: seq<byte>)
    requires at <= end < buf.Length && buf[end] == NUL && forall k | at <= k < end :: buf[k] != NUL
    ensures out == buf[at..end]
  {
    var i := at;
    while buf[i] != NUL
      invariant at <= i <= end
      decreases end - i
    {
      i := i + 1;
    }
    return buf[at..i];
  }

  lemma NumeralShort(value: u32, radix: nat)
    requires 2 <= radix <= 36
    ensures 1 <= |Numeral(value, radix)| <= 32
  {
    Pow2Is32();
    DigitsShort(value, radix, 32);
    if value > 0 { DigitsEndNonZero(value, radix); }
  }

  /** printf's plain %x and %u: itoa into a local buffer, then puts. */
  method PrintUnsigned(value: u32, radix: nat) returns (out: seq<byte>)
    requires 2 <= radix <= 36
    ensures out == Numeral(value, radix)
  {
    var buf := new byte[36];
    NumeralShort(value, radix);
    Itoa(value, buf, 0, radix);
    ghost var n := |Numeral(value, radix)|;
    forall k | 0 <= k < n ensures buf[k] != NUL {
      NumeralIsDigits(value, radix, k);
      assert buf[0..n][k] == Numeral(value, radix)[k];
    }
    out := Puts(buf, 0, n);
  }

  function Absolute(v: int): nat {
    if v < 0 then -v else v
  }

  /** printf's %d; the magnitude of the least int32 still fits itoa's unsigned argument. */
  method PrintSigned(value: int) returns (out: seq<byte>)
    requires -0x8000_0000 <= value < 0x8000_0000
    ensures out == (if value < 0 then [45] else []) + Numeral(Absolute(value), 10)
  {
    if value < 0 {
      var digits := PrintUnsigned(-value, 10);
      return [MINUS] + digits;
    }
    out := PrintUnsigned(value, 10);
    assert [] + out == out;
  }

  function Zeros(n: nat): (r: seq<byte>)
    ensures |r| == n
  {
    seq(n, _ => ZERO)
  }

  lemma {:induction false} LeadingZeros(n: nat, s: seq<byte>, radix: nat)
    ensures Value(Zeros(n) + s, radix) == Value(s, radix)
    decreases |s| + n
  {
    var all := Zeros(n) + s;
    if s == [] {
      if n > 0 {
        assert all[..|all| - 1] == Zeros(n - 1) + [];
        LeadingZeros(n - 1, [], radix);
      }
    } else {
      assert all[..|all| - 1] == Zeros(n) + s[..|s| - 1];
      LeadingZeros(n, s[..|s| - 1], radix);
    }
  }

  /** printf's %#x: the digits go to conv_buf + 8, zeros fill conv_buf from their count up to 8. */
  method PrintHexPadded(value: u32) returns (out: seq<byte>)
    ensures |out| == 8 && Value(out, 16) == value && forall k | 0 <= k < 8 :: IsDigit(out[k], 16)
    ensures |Numeral(value, 16)| <= 8 && out == Zeros(8 - |Numeral(value, 16)|) + Numeral(value, 16)
  {
    HexLength(value);
    ghost var text := Numeral(value, 16);
    var conv := new byte[64];
    Itoa(value, conv, 8, 16);
    forall k | 8 <= k < 8 + |text| ensures conv[k] != NUL && conv[k] == text[k - 8] {
      NumeralIsDigits(value, 16, k - 8);
      assert conv[8..8 + |text|][k - 8] == text[k - 8];
    }
    var start := StrLen(conv, 8, |text|);
    var i := start;
    while i < 8
      invariant start <= i <= 8 && conv[8 + |text|] == NUL
      invariant forall k | start <= k < i :: conv[k] == ZERO
      invariant forall k | 8 <= k < 8 + |text| :: conv[k] != NUL && conv[k] == text[k - 8]
    {
      conv[i] := ZERO;
      i := i + 1;
    }
    out := Puts(conv, start, 8 + |text|);
    assert out == Zeros(8 - |text|) + text;
    PaddedDenotes(value);
  }

  lemma PaddedDenotes(value: u32)
    ensures |Numeral(value, 16)| <= 8
    ensures var text := Zeros(8 - |Numeral(value, 16)|) + Numeral(value, 16);
      Value(text, 16) == value && forall k | 0 <= k < 8 :: IsDigit(text[k], 16)
  {
    HexLength(value);
    LeadingZeros(8 - |Numeral(value, 16)|, Numeral(value, 16), 16);
    NumeralRoundTrip(value, 16);
  }

  lemma HexLength(value: u32)
    ensures 1 <= |Numeral(value, 16)| <= 8
  {
    if value > 0 {
      assert Pow16(4) == 0x1_0000;
      assert Pow16(8) == 0x1_0000 * Pow16(4);
      HexShort(value, 8);
    }
  }
}
