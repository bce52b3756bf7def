/** Bytes, fixed-width integers and C strings as the network library sees them. */
module Bytes {

  type byte = b: int | 0 <= b < 256
  type u16 = n: int | 0 <= n < 0x1_0000
  type u32 = n: int | 0 <= n < 0x1_0000_0000
  type u64 = n: int | 0 <= n < 0x1_0000_0000_0000_0000

  const TWO_TO_THE_32: int := 0x1_0000_0000

  /** The number of values a field of `width` bytes can hold. */
  function Capacity(width: nat): (n: nat)
    ensures n > 0
  {
    if width == 0 then 1 else 256 * Capacity(width - 1)
  }

  /** The `k`-th base-256 digit of `v`, the least significant digit being the 0th. */
  function Digit(v: nat, k: nat): byte {
    if k == 0 then v % 256 else Digit(v / 256, k - 1)
  }

  /** Network byte order, most significant byte first; higher bytes are cut off. */
  function BE(v: nat, width: nat): (s: seq<byte>)
    ensures |s| == width
  {
    seq(width, i requires 0 <= i < width => Digit(v, width - 1 - i))
  }

  function FromBE(s: seq<byte>): nat {
    if s == [] then 0 else FromBE(s[..|s| - 1]) * 256 + s[|s| - 1]
  }

  lemma BELastDigit(v: nat, width: nat)
    requires width > 0
    ensures BE(v, width) == BE(v / 256, width - 1) + [v % 256]
  {
    var whole, front := BE(v, width), BE(v / 256, width - 1);
    forall i | 0 <= i < width
      ensures whole[i] == (front + [v % 256])[i]
    {
      if i < width - 1 {
        assert whole[i] == Digit(v, width - 1 - i) == Digit(v / 256, width - 2 - i);
        assert front[i] == Digit(v / 256, width - 1 - 1 - i);
      }
    }
  }

  lemma {:induction false} FromBEFits(s: seq<byte>)
    ensures FromBE(s) < Capacity(|s|)
  {
    if s != [] {
      FromBEFits(s[..|s| - 1]);
    }
  }

  lemma {:induction false} FromBEInvertsBE(v: nat, width: nat)
    requires v < Capacity(width)
    ensures FromBE(BE(v, width)) == v
  {
    if width > 0 {
      var s := BE(v, width);
      BELastDigit(v, width);
      FromBEInvertsBE(v / 256, width - 1);
    }
  }

  lemma {:induction false} BEInvertsFromBE(s: seq<byte>)
    ensures BE(FromBE(s), |s|) == s
  {
    if s != [] {
      BEInvertsFromBE(s[..|s| - 1]);
      assert FromBE(s) / 256 == FromBE(s[..|s| - 1]);
      BELastDigit(FromBE(s), |s|);
      assert s == s[..|s| - 1] + [s[|s| - 1]];
    }
  }

  lemma Capacities()
    ensures Capacity(2) == 0x1_0000
    ensures Capacity(4) == 0x1_0000_0000
    ensures Capacity(8) == 0x1_0000_0000_0000_0000
  {
    assert Capacity(2) == 256 * (256 * Capacity(0));
    assert Capacity(4) == 256 * (256 * Capacity(2));
    assert Capacity(6) == 256 * (256 * Capacity(4));
    assert Capacity(8) == 256 * (256 * Capacity(6));
  }

  /** How an integer of `width` bytes lies in the memory of a little-endian host. */
  function LE(v: nat, width: nat): (s: seq<byte>)
    ensures |s| == width
  {
    seq(width, i requires 0 <= i < width => Digit(v, i))
  }

  function FromLE(s: seq<byte>): nat {
    if s == [] then 0 else s[0] + 256 * FromLE(s[1..])
  }

  lemma {:induction false} FromLEFits(s: seq<byte>)
    ensures FromLE(s) < Capacity(|s|)
  {
    if s != [] {
      FromLEFits(s[1..]);
    }
  }

  lemma {:induction false} LEInvertsFromLE(s: seq<byte>)
    ensures LE(FromLE(s), |s|) == s
  {
    if s != [] {
      LEInvertsFromLE(s[1..]);
      assert FromLE(s) / 256 == FromLE(s[1..]);
    }
  }

  /** `htonl` on a little-endian host: the value whose memory image is network order. */
  function Htonl(v: u32): (r: u32)
  {
    Capacities();
    FromLEFits(BE(v, 4));
    FromLE(BE(v, 4))
  }

  /** The 64-bit swap, built from two 32-bit swaps. */
  function Htonll(v: u64): u64
  {
    Htonl(v % TWO_TO_THE_32) * TWO_TO_THE_32 + Htonl(v / TWO_TO_THE_32)
  }

  lemma {:induction false} DigitConcat(low: nat, high: nat, width: nat, k: nat)
    requires low < Capacity(width)
    ensures Digit(low + high * Capacity(width), k) == if k < width then Digit(low, k) else Digit(high, k - width)
  {
    if width == 0 {
      assert high * Capacity(0) == high;
    } else {
      var c := Capacity(width - 1);
      assert high * Capacity(width) == 256 * (high * c);
      if k > 0 {
        DigitConcat(low / 256, high, width - 1, k - 1);
        assert (low + 256 * (high * c)) / 256 == low / 256 + high * c;
      }
    }
  }

  lemma LEConcat(low: nat, high: nat, width: nat, more: nat)
    requires low < Capacity(width)
    ensures LE(low + high * Capacity(width), width + more) == LE(low, width) + LE(high, more)
  {
    forall k | 0 <= k < width + more
      ensures LE(low + high * Capacity(width), width + more)[k] == (LE(low, width) + LE(high, more))[k]
    {
      DigitConcat(low, high, width, k);
    }
  }

  lemma BEConcat(high: nat, low: nat, more: nat, width: nat)
    requires low < Capacity(width)
    ensures BE(low + high * Capacity(width), more + width) == BE(high, more) + BE(low, width)
  {
    forall k | 0 <= k < width + more
      ensures BE(low + high * Capacity(width), more + width)[k] == (BE(high, more) + BE(low, width))[k]
    {
      DigitConcat(low, high, width, more + width - 1 - k);
    }
  }

  /** What `htonll_u64` stores in memory on a little-endian host is the network order of its argument. */
  lemma HtonllIsNetworkOrder(v: u64)
    ensures LE(Htonll(v), 8) == BE(v, 8)
  {
    Capacities();
    var low, high := v % TWO_TO_THE_32, v / TWO_TO_THE_32;
    LEConcat(Htonl(high), Htonl(low), 4, 4);
    BEConcat(high, low, 4, 4);
    LEInvertsFromLE(BE(high, 4));
    LEInvertsFromLE(BE(low, 4));
  }

  /** `strlen`, scanning from position `i`; the end of the sequence counts as the terminator. */
  function StrLen(s: seq<byte>, i: nat := 0): (n: nat)
    requires i <= |s|
    ensures i <= n <= |s|
    ensures forall k :: i <= k < n ==> s[k] != 0
    ensures n < |s| ==> s[n] == 0
    decreases |s| - i
  {
    if i == |s| || s[i] == 0 then i else StrLen(s, i + 1)
  }

  /** A C string: the bytes before the first NUL. */
  function CStr(s: seq<byte>): seq<byte> {
    s[..StrLen(s)]
  }

  predicate NulFree(s: seq<byte>) {
    forall i :: 0 <= i < |s| ==> s[i] != 0
  }

  /** Text followed by a terminator, or by the end of the data, reads back whole. */
  lemma CStrOfNulFree(s: seq<byte>, rest: seq<byte>)
    requires NulFree(s)
    requires rest == [] || rest[0] == 0
    ensures CStr(s + rest) == s
  {
    var t := s + rest;
    assert forall k :: 0 <= k < |s| ==> t[k] == s[k];
    assert rest != [] ==> t[|s|] == 0;
    assert StrLen(t) == |s|;
  }

  /** A buffer that holds a field, its terminator and old contents reads back as the field. */
  lemma CStrTerminated(s: seq<byte>, rest: seq<byte>)
    ensures CStr(s + [0] + rest) == CStr(s)
  {
    var text, tail := CStr(s), s[StrLen(s)..] + [0] + rest;
    assert s + [0] + rest == text + tail;
    assert tail[0] == 0;
    CStrOfNulFree(text, tail);
  }

  lemma CStrFixedPoint(s: seq<byte>)
    ensures CStr(s) == s <==> NulFree(s)
  {
    if NulFree(s) {
      assert StrLen(s) == |s|;
    }
  }
}
