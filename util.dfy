/** M2Crypto's utility routines over byte strings: hex decoding, block
    padding (section 6.3 of RFC 5652 and section 6.1.1 of RFC 8018) and the
    big-endian octet-string-to-integer conversion OS2IP (section 4.2 of
    RFC 8017). */
module Util {
  import opened Py

  // ---------------------------------------------------------------------
  // Arithmetic helpers
  // ---------------------------------------------------------------------

  function Pow(b: nat, e: nat): (r: nat)
    ensures b > 0 ==> r > 0
  {
    if e == 0 then 1 else b * Pow(b, e - 1)
  }

  /** Python's `%`: the remainder takes the sign of the divisor. */
  function PyMod(a: int, b: int): (r: int)
    requires b != 0
    ensures b > 0 ==> r == a % b && 0 <= r < b
    ensures b < 0 ==> b < r <= 0
    ensures (a - r) % b == 0
  {
    RemovingRemainder(a, b);
    var m := a % b;
    if b < 0 && m != 0 then m + b else m
  }

  /** b * k is a multiple of b, for a divisor of either sign. */
  lemma MulIsMultiple(b: int, k: int)
    requires b != 0
    ensures (b * k) % b == 0
  {
    var q, m := (b * k) / b, (b * k) % b;
    assert b * k == b * q + m;
    assert b * (k - q) == m;
    MulAwayFromZero(b, k - q);
  }

  /** A non-zero multiple of b is at least |b| away from zero. */
  lemma MulAwayFromZero(b: int, d: int)
    ensures d != 0 ==> b * d >= Abs(b) || -(b * d) >= Abs(b)
  {
    if d > 0 {
      MulMonotone(1, d, Abs(b));
      assert Abs(b) * d == b * d || Abs(b) * d == -(b * d);
    } else if d < 0 {
      MulMonotone(1, -d, Abs(b));
      assert Abs(b) * (-d) == b * d || Abs(b) * (-d) == -(b * d);
    }
  }

  function Abs(x: int): nat
  {
    if x < 0 then -x else x
  }

  /** What is left after removing a remainder of Python's `%` is a multiple of b. */
  lemma RemovingRemainder(a: int, b: int)
    requires b != 0
    ensures (a - a % b) % b == 0
    ensures (a - (a % b + b)) % b == 0
  {
    var q := a / b;
    assert a - a % b == b * q;
    MulIsMultiple(b, q);
    assert a - (a % b + b) == b * (q - 1);
    MulIsMultiple(b, q - 1);
  }

  /** Adding b - a % b to a reaches a multiple of b. */
  lemma PadReachesMultiple(a: nat, b: int)
    requires b != 0
    ensures b > 0 ==> (a + (b - a % b)) % b == 0
  {
    if b < 0 { return; }
    var q := a / b;
    assert a + (b - a % b) == b * (q + 1);
    MulIsMultiple(b, q + 1);
  }

  lemma MulMonotone(a: nat, b: nat, c: nat)
    requires a <= b
    ensures a * c <= b * c
  {
  }

  /** `chr(b) * n`: n copies of byte b. */
  function Repeat(b: byte, n: nat): (r: seq<byte>)
    ensures |r| == n && forall i :: 0 <= i < n ==> r[i] == b
  {
    seq(n, _ => b)
  }

  // ---------------------------------------------------------------------
  // h2b
  // ---------------------------------------------------------------------

  function HexDigit(c: char): (d: Option<nat>)
    ensures d.Some? ==> d.value < 16
  {
    if '0' <= c <= '9' then Some(c as int - '0' as int)
    else if 'a' <= c <= 'f' then Some(c as int - 'a' as int + 10)
    else if 'A' <= c <= 'F' then Some(c as int - 'A' as int + 10)
    else None
  }

  /** Whitespace as the `int()` of Python 2.6 and 2.7 strips it from a number's end. */
  predicate IsSpace(c: char)
  {
    c == ' ' || c == '\t' || c == '\n' || c == '\r' || c == '\U{0B}' || c == '\U{0C}'
  }

  /** What `string.atoi("0x" + p, 16)` yields for a slice of one or two
      characters: the hexadecimal value of its digits (trailing whitespace is
      accepted by the conversion), or nothing when it raises. */
  function SliceValue(p: string): (r: Option<byte>)
    requires 1 <= |p| <= 2
  {
    if |p| == 1 then
      match HexDigit(p[0])
      case Some(d) => Some(d)
      case None => None
    else
      match (HexDigit(p[0]), HexDigit(p[1]))
      case (Some(h), Some(l)) => Some(16 * h + l)
      case (Some(h), None) => if IsSpace(p[1]) then Some(h) else None
      case (None, _) => None
  }

  /** The slices `int(..., 16)` accepts: a hex digit, followed by nothing,
      by a second hex digit, or by whitespace. Two digits give the byte whose
      high and low nibbles they are; a digit alone or before whitespace
      gives that digit. */
  lemma SliceValueAccepts(p: string)
    requires 1 <= |p| <= 2
    ensures SliceValue(p).Some? <==>
              HexDigit(p[0]).Some? && (|p| == 1 || HexDigit(p[1]).Some? || IsSpace(p[1]))
    ensures SliceValue(p).Some? && |p| == 2 && HexDigit(p[1]).Some? ==>
              SliceValue(p).value / 16 == HexDigit(p[0]).value && SliceValue(p).value % 16 == HexDigit(p[1]).value
    ensures SliceValue(p).Some? && (|p| == 1 || IsSpace(p[1])) ==>
              SliceValue(p).value == HexDigit(p[0]).value
  {
  }

  /** The characters `h2b` decodes: everything after a leading "0x". */
  function HexBody(s: string): string
  {
    if |s| >= 2 && s[..2] == "0x" then s[2..] else s
  }

  /** The k-th two-character slice `t[2k:2k+2]` (the last one may be short). */
  function Chunk(t: string, k: nat): (p: string)
    requires 2 * k < |t|
    ensures 1 <= |p| <= 2
  {
    t[2 * k .. if 2 * k + 2 <= |t| then 2 * k + 2 else |t|]
  }

  /** Decodes successive slices of (at most) two characters; fails as soon
      as one slice is not a hexadecimal number. */
  function HexDecode(t: string): Option<seq<byte>>
    decreases |t|
  {
    if |t| == 0 then Some([])
    else
      var n := if |t| >= 2 then 2 else 1;
      match SliceValue(t[..n])
      case None => None
      case Some(b) =>
        match HexDecode(t[n..])
        case None => None
        case Some(rest) => Some([b] + rest)
  }

  /** `ar + rest`, or failure when the rest failed. */
  function Prepend(ar: seq<byte>, rest: Option<seq<byte>>): Option<seq<byte>>
  {
    match rest
    case None => None
    case Some(r) => Some(ar + r)
  }

  const InvalidHexLiteral := ["invalid literal for int() with base 16"]

  /** h2b(s): the loop over `range(start, len(s), 2)` appending `chr(num)`. */
  method H2b(s: string) returns (r: Result<seq<byte>>)
    ensures match HexDecode(HexBody(s))
            case Some(b) => r == Success(b)
            case None => r == Failure(ValueError(InvalidHexLiteral))
  {
    var ar: seq<byte> := [];
    var start := 0;
    if |s| >= 2 && s[..2] == "0x" {
      start := 2;
    }
    assert HexBody(s) == s[start..];
    assert Prepend([], HexDecode(s[start..])) == HexDecode(s[start..]) by {
      if HexDecode(s[start..]).Some? { assert [] + HexDecode(s[start..]).value == HexDecode(s[start..]).value; }
    }
    var i := start;
    while i < |s|
      invariant start <= i <= |s|
      invariant HexDecode(s[start..]) == Prepend(ar, HexDecode(s[i..]))
      decreases |s| - i
    {
      var j := if i + 2 <= |s| then i + 2 else |s|;
      var t := s[i..];
      assert t[..j - i] == s[i..j];
      assert t[j - i..] == s[j..];
      var num := SliceValue(s[i..j]);
      if num.None? {
        r := Failure(ValueError(InvalidHexLiteral));
        return;
      }
      assert HexDecode(s[i..]) == Prepend([num.value], HexDecode(s[j..]));
      match HexDecode(s[j..]) {
        case None =>
        case Some(rest) => assert ar + ([num.value] + rest) == (ar + [num.value]) + rest;
      }
      ar := ar + [num.value];
      i := j;
    }
    assert s[i..] == [];
    assert ar + [] == ar;
    r := Success(ar);
  }

  lemma {:induction false} ChunkShift(t: string, k: nat)
    requires |t| >= 2 && 0 < k && 2 * k < |t|
    ensures Chunk(t, k) == Chunk(t[2..], k - 1)
  {
  }

  /** The output has one byte per two characters of the decoded text,
      rounded up. */
  lemma {:induction false} HexDecodeLength(t: string)
    requires HexDecode(t).Some?
    ensures |HexDecode(t).value| == (|t| + 1) / 2
    decreases |t|
  {
    if |t| > 0 {
      var n := if |t| >= 2 then 2 else 1;
      HexDecodeLength(t[n..]);
    }
  }

  /** Byte k of the output is the value of the k-th two-character slice. */
  lemma {:induction false} HexDecodeAt(t: string, k: nat)
    requires HexDecode(t).Some? && k < (|t| + 1) / 2
    ensures |HexDecode(t).value| == (|t| + 1) / 2
    ensures Some(HexDecode(t).value[k]) == SliceValue(Chunk(t, k))
    decreases |t|
  {
    HexDecodeLength(t);
    var n := if |t| >= 2 then 2 else 1;
    var out := HexDecode(t).value;
    var rest := HexDecode(t[n..]).value;
    assert out == [out[0]] + rest;
    if k > 0 {
      ChunkShift(t, k);
      HexDecodeAt(t[n..], k - 1);
      assert out[k] == rest[k - 1];
    }
  }

  /** Decoding fails exactly when some slice is not a hexadecimal number. */
  lemma {:induction false} HexDecodeDefined(t: string)
    ensures HexDecode(t).Some? <==> forall k :: 0 <= k < (|t| + 1) / 2 ==> SliceValue(Chunk(t, k)).Some?
    decreases |t|
  {
    if |t| > 0 {
      var n := if |t| >= 2 then 2 else 1;
      HexDecodeDefined(t[n..]);
      assert Chunk(t, 0) == t[..n];
      if n == 2 {
        forall k | 0 < k < (|t| + 1) / 2
          ensures Chunk(t, k) == Chunk(t[2..], k - 1)
        {
          ChunkShift(t, k);
        }
        if forall k :: 0 <= k < (|t| + 1) / 2 ==> SliceValue(Chunk(t, k)).Some? {
          forall k | 0 <= k < (|t[2..]| + 1) / 2
            ensures SliceValue(Chunk(t[2..], k)).Some?
          {
            assert SliceValue(Chunk(t, k + 1)).Some?;
          }
        }
        if HexDecode(t).Some? {
          forall k | 0 <= k < (|t| + 1) / 2
            ensures SliceValue(Chunk(t, k)).Some?
          {
            if k > 0 {
              assert SliceValue(Chunk(t[2..], k - 1)).Some?;
            }
          }
        }
      }
    }
  }

  // ---------------------------------------------------------------------
  // pkcs5_pad / pkcs7_pad
  // ---------------------------------------------------------------------

  /** pkcs5_pad(data, blklen): pads to a multiple of 8 whatever blklen is. */
  function Pkcs5Pad(data: seq<byte>, blklen: int): (r: seq<byte>)
    ensures |r| % 8 == 0 && |data| < |r| <= |data| + 8
    ensures r[..|data|] == data
    ensures forall i :: |data| <= i < |r| ==> r[i] == |r| - |data|
  {
    var pad := 8 - |data| % 8;
    PadReachesMultiple(|data|, 8);
    data + Repeat(pad, pad)
  }

  const IllegalBlockSize := ["illegal block size"]
  const ChrOutOfRange := ["chr() arg not in range(256)"]

  /** pkcs7_pad(data, blklen). The source checks only `blklen > 255`; a zero
      block length divides by zero and a negative one makes `chr` raise. */
  function Pkcs7Pad(data: seq<byte>, blklen: int): (r: Result<seq<byte>>)
    ensures r.Success? <==> 1 <= blklen <= 255
    ensures blklen > 255 ==> r == Failure(ValueError(IllegalBlockSize))
    ensures blklen == 0 ==> r == Failure(ZeroDivisionError)
    ensures blklen < 0 ==> r == Failure(ValueError(ChrOutOfRange))
    ensures r.Success? ==>
              && |r.value| % blklen == 0
              && |data| < |r.value| <= |data| + blklen
              && r.value[..|data|] == data
              && forall i :: |data| <= i < |r.value| ==> r.value[i] == |r.value| - |data|
  {
    if blklen > 255 then Failure(ValueError(IllegalBlockSize))
    else if blklen == 0 then Failure(ZeroDivisionError)
    else
      var pad := blklen - PyMod(|data|, blklen);
      PadReachesMultiple(|data|, blklen);
      if pad < 0 || pad > 255 then Failure(ValueError(ChrOutOfRange))
      else Success(data + Repeat(pad, pad))
  }

  /** Padding removal as section 6.3 of RFC 5652 describes it; the reference
      inverse against which the padding functions are checked. */
  function Pkcs7Unpad(padded: seq<byte>, blklen: int): Option<seq<byte>>
  {
    if |padded| == 0 || blklen <= 0 || |padded| % blklen != 0 then None
    else
      var n := padded[|padded| - 1];
      if n == 0 || n > blklen || n > |padded| then None
      else if forall i :: |padded| - n <= i < |padded| ==> padded[i] == n then Some(padded[..|padded| - n])
      else None
  }

  lemma Pkcs7PadUnpad(data: seq<byte>, blklen: int)
    requires 1 <= blklen <= 255
    ensures Pkcs7Pad(data, blklen).Success?
    ensures Pkcs7Unpad(Pkcs7Pad(data, blklen).value, blklen) == Some(data)
  {
    var p := Pkcs7Pad(data, blklen).value;
    assert p[|p| - 1] == |p| - |data|;
  }

  lemma Pkcs5PadUnpad(data: seq<byte>, blklen: int)
    ensures Pkcs7Unpad(Pkcs5Pad(data, blklen), 8) == Some(data)
  {
    var p := Pkcs5Pad(data, blklen);
    assert p[|p| - 1] == |p| - |data|;
  }

  /** pkcs5_pad ignores its block length: it is pkcs7_pad with 8. */
  lemma Pkcs5IsPkcs7Of8(data: seq<byte>, blklen: int)
    ensures Pkcs7Pad(data, 8) == Success(Pkcs5Pad(data, blklen))
  {
  }

  // ---------------------------------------------------------------------
  // octx_to_num
  // ---------------------------------------------------------------------

  /** OS2IP: x[0]·256^(n-1) + ... + x[n-1]·256^0. */
  function Os2ip(x: seq<byte>): nat
  {
    if |x| == 0 then 0 else x[0] * Pow(256, |x| - 1) + Os2ip(x[1..])
  }

  lemma Os2ipUnfold(x: seq<byte>, i: nat)
    requires i < |x|
    ensures Os2ip(x[i..]) == x[i] * Pow(256, |x| - i - 1) + Os2ip(x[i + 1..])
  {
    assert x[i..][0] == x[i] && x[i..][1..] == x[i + 1..];
  }

  /** octx_to_num(x): the loop accumulating ord(x[i]) * 256 ** (lx-i-1). */
  method OctxToNum(x: seq<byte>) returns (v: nat)
    ensures v == Os2ip(x)
  {
    v := 0;
    var lx := |x|;
    var i := 0;
    while i < lx
      invariant 0 <= i <= lx
      invariant v + Os2ip(x[i..]) == Os2ip(x)
    {
      Os2ipUnfold(x, i);
      v := v + x[i] * Pow(256, lx - i - 1);
      i := i + 1;
    }
    assert x[i..] == [];
  }

  /** Appending byte b to x gives 256·v(x) + b. */
  lemma {:induction false} Os2ipAppend(x: seq<byte>, b: byte)
    ensures Os2ip(x + [b]) == 256 * Os2ip(x) + b
    decreases |x|
  {
    if |x| == 0 {
      assert x + [b] == [b];
      assert [b][1..] == [];
    } else {
      var y := x + [b];
      assert y[0] == x[0] && y[1..] == x[1..] + [b];
      Os2ipAppend(x[1..], b);
      var p := Pow(256, |x| - 1);
      assert Pow(256, |y| - 1) == 256 * p;
      calc {
        Os2ip(y);
        x[0] * (256 * p) + Os2ip(x[1..] + [b]);
        x[0] * (256 * p) + 256 * Os2ip(x[1..]) + b;
        { assert x[0] * (256 * p) == 256 * (x[0] * p); }
        256 * (x[0] * p + Os2ip(x[1..])) + b;
      }
    }
  }

  /** An n-octet string denotes a number below 256^n. */
  lemma {:induction false} Os2ipBound(x: seq<byte>)
    ensures Os2ip(x) < Pow(256, |x|)
    decreases |x|
  {
    if |x| > 0 {
      Os2ipBound(x[1..]);
      var p := Pow(256, |x| - 1);
      MulMonotone(x[0], 255, p);
      assert Pow(256, |x|) == 256 * p;
    }
  }

  // ---------------------------------------------------------------------
  // h2b followed by octx_to_num
  // ---------------------------------------------------------------------

  predicate AllHexDigits(t: string)
  {
    forall i :: 0 <= i < |t| ==> HexDigit(t[i]).Some?
  }

  /** The number a string of hexadecimal digits denotes, most significant first. */
  function HexValue(t: string): nat
    requires AllHexDigits(t)
  {
    if |t| == 0 then 0 else HexDigit(t[0]).value * Pow(16, |t| - 1) + HexValue(t[1..])
  }

  lemma {:induction false} Pow16Even(k: nat)
    ensures Pow(16, 2 * k) == Pow(256, k)
  {
    if k > 0 {
      Pow16Even(k - 1);
      assert Pow(16, 2 * k) == 16 * (16 * Pow(16, 2 * k - 2));
    }
  }

  /** Two leading digits h, l contribute (16·h + l)·16^(n-2). */
  lemma HexValueTwoDigits(t: string)
    requires AllHexDigits(t) && |t| >= 2
    ensures AllHexDigits(t[2..])
    ensures HexValue(t) == (16 * HexDigit(t[0]).value + HexDigit(t[1]).value) * Pow(16, |t| - 2) + HexValue(t[2..])
  {
    var mid, rest := t[1..], t[2..];
    assert AllHexDigits(mid) by {
      forall i | 0 <= i < |mid| ensures HexDigit(mid[i]).Some? { assert mid[i] == t[i + 1]; }
    }
    assert mid[1..] == rest;
    assert AllHexDigits(rest) by {
      forall i | 0 <= i < |rest| ensures HexDigit(rest[i]).Some? { assert rest[i] == mid[i + 1]; }
    }
    var h, l, q := HexDigit(t[0]).value, HexDigit(t[1]).value, Pow(16, |rest|);
    assert HexValue(mid) == l * q + HexValue(rest);
    assert Pow(16, |t| - 1) == 16 * q;
    assert HexValue(t) == h * (16 * q) + HexValue(mid);
    Distribute(h, l, q);
  }

  lemma Distribute(h: nat, l: nat, q: nat)
    ensures h * (16 * q) + l * q == (16 * h + l) * q
  {
  }

  lemma HalfOfEven(n: nat)
    requires n % 2 == 0
    ensures 2 * ((n + 1) / 2) == n
  {
  }

  lemma Os2ipCons(b: byte, tail: seq<byte>)
    ensures Os2ip([b] + tail) == b * Pow(256, |tail|) + Os2ip(tail)
  {
    assert ([b] + tail)[1..] == tail;
  }

  lemma HexDecodeFront(t: string)
    requires |t| >= 2 && SliceValue(t[..2]).Some?
    ensures HexDecode(t) == Prepend([SliceValue(t[..2]).value], HexDecode(t[2..]))
  {
  }

  /** For an even number of hexadecimal digits, decoding and then reading the
      bytes as a big-endian number gives the number the digits denote. */
  lemma {:induction false} HexDecodeValue(t: string)
    requires AllHexDigits(t) && |t| % 2 == 0
    ensures HexDecode(t).Some?
    ensures Os2ip(HexDecode(t).value) == HexValue(t)
    decreases |t|
  {
    if |t| > 0 {
      var rest := t[2..];
      var b: byte := 16 * HexDigit(t[0]).value + HexDigit(t[1]).value;
      assert AllHexDigits(rest) && HexValue(t) == b * Pow(16, |t| - 2) + HexValue(rest) by {
        HexValueTwoDigits(t);
      }
      HexDecodeValue(rest);
      var tail := HexDecode(rest).value;
      assert HexDecode(t) == Some([b] + tail) by {
        assert t[..2] == [t[0], t[1]];
        assert SliceValue(t[..2]) == Some(b);
        HexDecodeFront(t);
      }
      assert Pow(16, |t| - 2) == Pow(256, |tail|) by {
        HexDecodeLength(rest);
        HalfOfEven(|rest|);
        Pow16Even(|tail|);
      }
      assert Os2ip([b] + tail) == b * Pow(256, |tail|) + Os2ip(tail) by {
        Os2ipCons(b, tail);
      }
    }
  }

  /** octx_to_num(h2b(s)) is the number s denotes in base 16, for an even
      number of hexadecimal digits after an optional "0x". */
  lemma H2bThenOctxToNum(s: string)
    requires AllHexDigits(HexBody(s)) && |HexBody(s)| % 2 == 0
    ensures HexDecode(HexBody(s)).Some?
    ensures Os2ip(HexDecode(HexBody(s)).value) == HexValue(HexBody(s))
  {
    HexDecodeValue(HexBody(s));
  }
}
