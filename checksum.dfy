/** The longitudinal redundancy check of Modbus ASCII framing: the two's
    complement, truncated to eight bits, of the sum of the bytes a frame's
    hex digits stand for, the leading ':' excluded. This is `calculateLRC`,
    `find_sum` and the ASCII frame form (':' then hex digit pairs). */
module Checksum {
  import opened Hex

  /** Text `calculateLRC` can decode: the first character (the ':') is
      skipped, and what follows is an even number of uppercase digits. A NUL
      first character is allowed: `calculateLRC` then reads nothing
      (`Decoded`). */
  predicate IsChecksummable(input: string)
  {
    |input| % 2 == 1 && AllUpperHex(input[1..])
  }

  /** The wire form of a frame: ':' then an even number of uppercase digits. */
  predicate IsFrame(f: string)
  {
    IsChecksummable(f) && f[0] == ':'
  }

  /** The byte values after the first character, as `conv` reads them when
      that character is not NUL. */
  function Payload(input: string): (r: seq<int>)
    requires IsChecksummable(input)
    ensures |r| == |input| / 2
  {
    DecodeHex(input[1..])
  }

  /** C's `strlen`: the number of characters before the first NUL. */
  function StrLen(s: string): (n: nat)
    ensures n <= |s|
    ensures forall k :: 0 <= k < n ==> s[k] != '\0'
    ensures n < |s| ==> s[n] == '\0'
  {
    if s == [] || s[0] == '\0' then 0 else 1 + StrLen(s[1..])
  }

  /** Past its first character checksummable text holds only digits, so its
      `strlen` is 0 when that character is NUL and its whole length otherwise. */
  lemma ChecksummableStrLen(input: string)
    requires IsChecksummable(input)
    ensures StrLen(input) == if input[0] == '\0' then 0 else |input|
  {
  }

  /** The byte values `calculateLRC` reads: one per digit pair within the
      C string, so none when the first character is NUL. */
  function Decoded(input: string): (r: seq<int>)
    requires IsChecksummable(input)
    ensures |r| == StrLen(input) / 2
    ensures input[0] != '\0' ==> r == Payload(input)
  {
    ChecksummableStrLen(input);
    if StrLen(input) == 0 then [] else Payload(input)
  }

  /** Integer sum of a run of values. */
  function Sum(s: seq<int>): (r: int)
  {
    if s == [] then 0 else s[0] + Sum(s[1..])
  }

  lemma {:induction false} SumAppend(a: seq<int>, b: seq<int>)
    ensures Sum(a + b) == Sum(a) + Sum(b)
  {
    if a == [] {
      assert a + b == b;
    } else {
      assert (a + b)[1..] == a[1..] + b;
      SumAppend(a[1..], b);
    }
  }

  /** A run of byte values sums to at most 255 per byte. */
  lemma {:induction false} SumOfBytesBound(v: seq<int>)
    requires IsByteValues(v)
    ensures 0 <= Sum(v) <= 255 * |v|
  {
    if v != [] {
      assert IsByteValues(v[1..]) by {
        forall i | 0 <= i < |v[1..]| ensures 0 <= v[1..][i] < 256 { assert v[1..][i] == v[i + 1]; }
      }
      SumOfBytesBound(v[1..]);
    }
  }

  /** C's `~` on a two's-complement `int`. */
  function Complement(v: int): (r: int)
  {
    -v - 1
  }

  /** C's `& 0xff` on a two's-complement `int`: the low eight bits, which for
      a negative value is its Euclidean remainder. */
  function LowByte(v: int): (r: int)
  {
    v % 256
  }

  /** `((~sum) + 1) & 0xff`: the byte that brings the sum to zero modulo 256. */
  function LrcValue(sum: int): (c: int)
    ensures 0 <= c < 256
    ensures (sum + c) % 256 == 0
  {
    LowByte(Complement(sum) + 1)
  }

  /** The LRC byte is the only byte that closes the sum. */
  lemma LrcValueUnique(sum: int, c: int)
    requires 0 <= c < 256
    ensures (sum + c) % 256 == 0 <==> c == LrcValue(sum)
  {
  }

  /** The two digits `calculateLRC` returns for an input whose first
      character is not NUL. */
  function Lrc(input: string): (r: string)
    requires IsChecksummable(input)
    ensures |r| == 2 && AllUpperHex(r)
    ensures (Sum(Payload(input)) + Conv(r[0], r[1])) % 256 == 0
  {
    var c := LrcValue(Sum(Payload(input)));
    ConvOfHex2(c);
    Hex2(c)
  }

  /** `find_sum`: adds up the first `myLength / 2` entries of `val`. */
  method FindSum(val: array<int>, myLength: int) returns (sum: int)
    requires 0 <= myLength && myLength / 2 <= val.Length
    ensures sum == Sum(val[..myLength / 2])
  {
    sum := 0;
    var i := 0;
    while i <= (myLength / 2) - 1
      invariant 0 <= i <= myLength / 2
      invariant sum == Sum(val[..i])
    {
      assert val[..i + 1] == val[..i] + [val[i]];
      SumAppend(val[..i], [val[i]]);
      sum := sum + val[i];
      i := i + 1;
    }
  }

  /** A prefix of checksummable text that ends on a digit pair is itself
      checksummable. */
  lemma PrefixChecksummable(input: string, i: nat)
    requires IsChecksummable(input) && i <= |input| && i % 2 == 1
    ensures IsChecksummable(input[..i])
  {
    assert forall k :: 0 <= k < i - 1 ==> input[..i][1..][k] == input[1..][k];
  }

  /** Appending one digit pair appends one decoded byte. */
  lemma PayloadSnoc(body: string, pair: string)
    requires IsChecksummable(body) && |pair| == 2 && AllUpperHex(pair)
    ensures IsChecksummable(body + pair)
    ensures Payload(body + pair) == Payload(body) + [Conv(pair[0], pair[1])]
    ensures Sum(Payload(body + pair)) == Sum(Payload(body)) + Conv(pair[0], pair[1])
  {
    assert (body + pair)[1..] == body[1..] + pair;
    DecodeHexAppend(body[1..], pair);
    assert pair[2..] == [];
    var t := Conv(pair[0], pair[1]);
    SumAppend(Payload(body), [t]);
    assert [t][1..] == [];
  }

  /** Reading one more digit pair of checksummable text appends its byte. */
  lemma PayloadOfLongerPrefix(input: string, i: nat)
    requires IsChecksummable(input) && i % 2 == 1 && i + 2 <= |input|
    ensures IsChecksummable(input[..i]) && IsChecksummable(input[..i + 2])
    ensures Payload(input[..i + 2]) == Payload(input[..i]) + [Conv(input[i], input[i + 1])]
  {
    PrefixChecksummable(input, i);
    PrefixChecksummable(input, i + 2);
    var pair := input[i..i + 2];
    assert pair[0] == input[1..][i - 1] && pair[1] == input[1..][i];
    assert input[..i + 2] == input[..i] + pair;
    PayloadSnoc(input[..i], pair);
  }

  /** The two digits printed for the bytes `calculateLRC` reads: `Lrc` of
      the input when its first character is not NUL, "00" when it is. */
  lemma DecodedLrc(input: string, r: string)
    requires IsChecksummable(input) && r == Hex2(LrcValue(Sum(Decoded(input))))
    ensures |r| == 2 && AllUpperHex(r)
    ensures (Sum(Decoded(input)) + Conv(r[0], r[1])) % 256 == 0
    ensures input[0] != '\0' ==> r == Lrc(input)
    ensures input[0] == '\0' ==> r == "00"
  {
    ConvOfHex2(LrcValue(Sum(Decoded(input))));
    if input[0] == '\0' {
      assert Decoded(input) == [];
      assert LrcValue(0) == 0;
    }
  }

  /** `calculateLRC`: decodes the digit pairs after the first character and
      before the first NUL (none when the first character is NUL) into
      `val`, sums them with `find_sum`, and prints the two's complement of the
      sum's low byte as two uppercase digits. The `utoa`/`strtol` round trip
      of the source is the identity on a non-negative sum below 0x10000, the
      largest whose hex text fits the five-character buffer it is printed
      into; larger sums are not modelled (every register body sums to at
      most 5100, `Registers.BodySumBound`). */
  method CalculateLRC(input: string) returns (r: string)
    requires IsChecksummable(input)
    ensures |r| == 2 && AllUpperHex(r)
    ensures (Sum(Decoded(input)) + Conv(r[0], r[1])) % 256 == 0
    ensures input[0] != '\0' ==> r == Lrc(input)
    ensures input[0] == '\0' ==> r == "00"
  {
    var myLength := StrLen(input);
    ChecksummableStrLen(input);
    var val := new int[myLength / 2];
    var i, j := 1, 0;
    assert input[..1][1..] == [];
    while i < myLength
      invariant i == 2 * j + 1 && 0 <= j <= myLength / 2
      invariant IsChecksummable(input[..i])
      invariant val[..j] == Payload(input[..i])
    {
      PayloadOfLongerPrefix(input, i);
      val[j] := Conv(input[i], input[i + 1]);
      assert val[..j + 1] == val[..j] + [val[j]];
      i, j := i + 2, j + 1;
    }
    if myLength != 0 {
      assert input[..i] == input;
    }
    assert val[..myLength / 2] == Decoded(input);
    var sum := FindSum(val, myLength);
    var hexVal := sum;
    hexVal := LowByte(Complement(hexVal) + 1);
    assert hexVal == LrcValue(Sum(Decoded(input)));
    r := Hex2(hexVal);
    DecodedLrc(input, r);
  }

  /** Checksummable text stays checksummable when digit pairs are appended. */
  lemma ChecksummableAppend(input: string, digits: string)
    requires IsChecksummable(input) && |digits| % 2 == 0 && AllUpperHex(digits)
    ensures IsChecksummable(input + digits)
  {
    var t := input + digits;
    assert t[1..] == input[1..] + digits;
    forall k | 0 <= k < |t[1..]| ensures IsUpperHex(t[1..][k]) {
      if k < |input| - 1 { assert t[1..][k] == input[1..][k]; } else { assert t[1..][k] == digits[k - |input| + 1]; }
    }
  }

  /** Appending the LRC of a body yields a frame whose bytes, checksum
      included, sum to zero modulo 256: the receiver's test. */
  lemma LrcClosesFrame(body: string)
    requires IsChecksummable(body)
    ensures IsChecksummable(body + Lrc(body))
    ensures Sum(Payload(body + Lrc(body))) % 256 == 0
  {
    PayloadSnoc(body, Lrc(body));
  }

  /** A frame carries a correct checksum when its last two digits are the LRC
      of everything before them. */
  predicate HasValidLrc(f: string)
  {
    IsFrame(f) && |f| >= 3 && AllUpperHex(f[1..]) && f[|f| - 2..] == Lrc(f[..|f| - 2])
  }

  /** A frame followed by its LRC, as the register builders send it, carries
      a correct LRC, and its bytes are the frame's bytes then the LRC byte. */
  lemma AppendedLrcIsValid(body: string)
    requires IsFrame(body)
    ensures HasValidLrc(body + Lrc(body))
    ensures Payload(body + Lrc(body)) == Payload(body) + [LrcValue(Sum(Payload(body)))]
  {
    var r := Lrc(body);
    var f := body + r;
    assert f[..|f| - 2] == body && f[|f| - 2..] == r;
    PayloadSnoc(body, r);
    ConvOfHex2(LrcValue(Sum(Payload(body))));
    assert AllUpperHex(f[1..]) by {
      assert f[1..] == body[1..] + r;
      forall k | 0 <= k < |f[1..]| ensures IsUpperHex(f[1..][k]) {
        if k < |body| - 1 { assert f[1..][k] == body[1..][k]; } else { assert f[1..][k] == r[k - |body| + 1]; }
      }
    }
  }

  /** A frame's last two digits are its LRC exactly when all its bytes sum to
      zero modulo 256. */
  lemma {:induction false} ValidLrcIffSumZero(f: string)
    requires IsFrame(f) && |f| >= 3
    ensures HasValidLrc(f) <==> Sum(Payload(f)) % 256 == 0
  {
    var body, tail := f[..|f| - 2], f[|f| - 2..];
    assert f == body + tail;
    PrefixChecksummable(f, |f| - 2);
    assert tail[0] == f[1..][|f| - 3] && tail[1] == f[1..][|f| - 2];
    PayloadSnoc(body, tail);
    var t, c := Conv(tail[0], tail[1]), LrcValue(Sum(Payload(body)));
    assert tail == Hex2(t) by {
      Hex2OfConv(tail[0], tail[1]);
    }
    assert Lrc(body) == Hex2(c);
    assert HasValidLrc(f) == (tail == Lrc(body));
    Hex2Injective(t, c);
    LrcValueUnique(Sum(Payload(body)), t);
  }

  /** The frame whose digit pairs after the ':' spell the byte values `v`. */
  function FrameOf(v: seq<int>): (f: string)
    requires IsByteValues(v)
    ensures |f| == 2 * |v| + 1 && IsFrame(f) && Payload(f) == v
  {
    var f := ":" + HexEncode(v);
    assert f[1..] == HexEncode(v);
    DecodeHexEncode(v);
    f
  }

  /** Spelling three runs of byte values one after the other spells the
      frame of their concatenation. */
  lemma FrameOfConcat(a: seq<int>, b: seq<int>, c: seq<int>)
    requires IsByteValues(a) && IsByteValues(b) && IsByteValues(c)
    ensures IsByteValues(a + b + c)
    ensures ":" + HexEncode(a) + HexEncode(b) + HexEncode(c) == FrameOf(a + b + c)
  {
    HexEncodeAppend(a, b);
    HexEncodeAppend(a + b, c);
  }

  /** A frame spelled from byte values, its checksum byte last, carries a
      correct LRC exactly when the values sum to zero modulo 256. */
  lemma FrameOfValidIffSumZero(v: seq<int>)
    requires IsByteValues(v) && |v| >= 1
    ensures HasValidLrc(FrameOf(v)) <==> Sum(v) % 256 == 0
  {
    ValidLrcIffSumZero(FrameOf(v));
  }

  /** From index i on, `s` is an even number of uppercase digits. */
  predicate HexFrom(s: string, i: nat)
  {
    i <= |s| && (|s| - i) % 2 == 0 && forall k :: i <= k < |s| ==> IsUpperHex(s[k])
  }

  /** The sum of the digit pairs of `s` from index i on, read by index as the
      `calculateLRC` loop reads them (`conv(a[i], a[i + 1])`, i stepping by 2). */
  function PairSum(s: string, i: nat): (r: int)
    requires HexFrom(s, i)
    decreases |s| - i
  {
    if i == |s| then 0 else Conv(s[i], s[i + 1]) + PairSum(s, i + 2)
  }

  /** Reading the pairs by index agrees with decoding the suffix. */
  lemma {:induction false} PairSumIsSum(s: string, i: nat)
    requires HexFrom(s, i)
    ensures AllUpperHex(s[i..]) && PairSum(s, i) == Sum(DecodeHex(s[i..]))
    decreases |s| - i
  {
    assert AllUpperHex(s[i..]) by {
      forall k | 0 <= k < |s[i..]| ensures IsUpperHex(s[i..][k]) { assert s[i..][k] == s[k + i]; }
    }
    if i < |s| {
      PairSumIsSum(s, i + 2);
      assert s[i..][2..] == s[i + 2..];
      assert s[i..][0] == s[i] && s[i..][1] == s[i + 1];
    }
  }

  /** The pair sum of a concatenation is the sum of the pair sums. */
  lemma {:induction false} PairSumAppend(a: string, b: string, i: nat)
    requires HexFrom(a, i) && HexFrom(b, 0)
    ensures HexFrom(a + b, i) && PairSum(a + b, i) == PairSum(a, i) + PairSum(b, 0)
    decreases |a| - i
  {
    assert forall k :: i <= k < |a + b| ==> (a + b)[k] == if k < |a| then a[k] else b[k - |a|];
    if i == |a| {
      PairSumShift(a, b, 0);
    } else {
      PairSumAppend(a, b, i + 2);
    }
  }

  /** Past the end of `a`, the pairs of `a + b` are the pairs of `b`. */
  lemma {:induction false} PairSumShift(a: string, b: string, j: nat)
    requires HexFrom(b, j) && HexFrom(a + b, |a| + j)
    ensures PairSum(a + b, |a| + j) == PairSum(b, j)
    decreases |b| - j
  {
    if j < |b| {
      assert (a + b)[|a| + j] == b[j] && (a + b)[|a| + j + 1] == b[j + 1];
      PairSumShift(a, b, j + 2);
    }
  }

  /** A frame written out as a literal carries a correct LRC exactly when its
      digit pairs, checksum included, sum to zero modulo 256. */
  lemma PairSumDecidesLrc(f: string)
    requires |f| >= 3 && f[0] == ':' && HexFrom(f, 1)
    ensures IsFrame(f) && (HasValidLrc(f) <==> PairSum(f, 1) % 256 == 0)
  {
    PairSumIsSum(f, 1);
    ValidLrcIffSumZero(f);
  }

  /** The worked example of the LRC: the bytes 01 00 06 06 00 sum to 0x0D,
      whose two's complement is 0xF3. */
  lemma LrcExample()
    ensures Lrc(":0100060600") == "F3"
  {
    assert Payload(":0100060600") == [1, 0, 6, 6, 0];
    assert Sum([1, 0, 6, 6, 0]) == 0x0D;
    assert LrcValue(0x0D) == 0xF3;
    assert Hex2(0xF3) == "F3";
  }
}
