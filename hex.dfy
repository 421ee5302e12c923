/** Uppercase hexadecimal text: the `%0.2X` encoder used for every byte put on
    the wire, and the `toDec`/`conv` decoder used by the checksum routine. */
module Hex {

  /** A digit of the uppercase alphabet printed by `%X`. */
  predicate IsUpperHex(c: char)
  {
    '0' <= c <= '9' || 'A' <= c <= 'F'
  }

  predicate AllUpperHex(s: string)
  {
    forall i :: 0 <= i < |s| ==> IsUpperHex(s[i])
  }

  /** The uppercase digit `%X` prints for a nibble. */
  function HexDigit(v: nat): (c: char)
    requires v < 16
    ensures IsUpperHex(c)
    ensures (c <= '9') == (v < 10)
  {
    if v < 10 then ('0' as int + v) as char else ('A' as int + (v - 10)) as char
  }

  /** `toDec`: the value of one digit. A digit up to '9' is taken relative to
      '0'; any other is taken relative to '0' and moved down past the seven
      characters between '9' and 'A'. */
  function ToDec(c: char): (r: int)
    requires IsUpperHex(c)
    ensures 0 <= r < 16
  {
    if c <= '9' then c as int - '0' as int else c as int - '0' as int - 7
  }

  /** `conv`: a pair of digits, most significant first, as one byte value. */
  function Conv(c1: char, c2: char): (r: int)
    requires IsUpperHex(c1) && IsUpperHex(c2)
    ensures 0 <= r < 256
  {
    ToDec(c1) * 16 + ToDec(c2)
  }

  /** `sprintf(buf, "%0.2X", b)` for a byte value: exactly two uppercase
      digits, zero padded. */
  function Hex2(b: int): (s: string)
    requires 0 <= b < 256
    ensures |s| == 2 && AllUpperHex(s)
  {
    [HexDigit(b / 16), HexDigit(b % 16)]
  }

  /** Every uppercase digit is the encoding of the value `toDec` gives it. */
  lemma HexDigitOfToDec(c: char)
    requires IsUpperHex(c)
    ensures HexDigit(ToDec(c)) == c
  {
  }

  /** Every pair of uppercase digits is the two-digit encoding of the value
      `conv` gives it. */
  lemma Hex2OfConv(c1: char, c2: char)
    requires IsUpperHex(c1) && IsUpperHex(c2)
    ensures Hex2(Conv(c1, c2)) == [c1, c2]
  {
    HexDigitOfToDec(c1);
    HexDigitOfToDec(c2);
    var r := Conv(c1, c2);
    assert r / 16 == ToDec(c1) && r % 16 == ToDec(c2);
  }

  /** `toDec` undoes the digit encoder. */
  lemma ToDecOfHexDigit(v: nat)
    requires v < 16
    ensures ToDec(HexDigit(v)) == v
  {
  }

  /** `conv` applied to the two-digit encoding of a byte gives the byte back. */
  lemma ConvOfHex2(b: int)
    requires 0 <= b < 256
    ensures Conv(Hex2(b)[0], Hex2(b)[1]) == b
  {
    ToDecOfHexDigit(b / 16);
    ToDecOfHexDigit(b % 16);
  }

  /** Two-digit encoding is injective, so a byte is determined by its text. */
  lemma Hex2Injective(a: int, b: int)
    requires 0 <= a < 256 && 0 <= b < 256
    ensures Hex2(a) == Hex2(b) <==> a == b
  {
    if Hex2(a) == Hex2(b) {
      ConvOfHex2(a);
      ConvOfHex2(b);
    }
  }

  /** Integers that each fit in a byte. */
  predicate IsByteValues(v: seq<int>)
  {
    forall i :: 0 <= i < |v| ==> 0 <= v[i] < 256
  }

  /** The byte values of a run of bytes. */
  function Values(bytes: seq<bv8>): (v: seq<int>)
    ensures |v| == |bytes| && IsByteValues(v)
    ensures forall i :: 0 <= i < |bytes| ==> v[i] == bytes[i] as int
  {
    seq(|bytes|, i requires 0 <= i < |bytes| => bytes[i] as int)
  }

  /** The hex text of a run of byte values, two digits per byte in order: what
      the `PrintRegisterN` loops accumulate in `middleData`. */
  function HexEncode(v: seq<int>): (s: string)
    requires IsByteValues(v)
    ensures |s| == 2 * |v| && AllUpperHex(s)
  {
    if v == [] then [] else Hex2(v[0]) + HexEncode(v[1..])
  }

  /** Encoding one more byte of a slice appends that byte's two digits. */
  lemma HexEncodeSliceSnoc(bytes: seq<bv8>, lo: nat, hi: nat)
    requires lo <= hi < |bytes|
    ensures HexEncode(Values(bytes[lo .. hi + 1]))
      == HexEncode(Values(bytes[lo .. hi])) + [Hex2(bytes[hi] as int)[0]] + [Hex2(bytes[hi] as int)[1]]
  {
    var v := Values(bytes[lo .. hi]);
    assert Values(bytes[lo .. hi + 1]) == v + [bytes[hi] as int];
    HexEncodeAppend(v, [bytes[hi] as int]);
    assert [bytes[hi] as int][1..] == [];
  }

  /** The byte values a run of digit pairs stands for, as `conv` reads them. */
  function DecodeHex(s: string): (r: seq<int>)
    requires |s| % 2 == 0 && AllUpperHex(s)
    ensures |r| == |s| / 2 && IsByteValues(r)
  {
    if s == [] then [] else [Conv(s[0], s[1])] + DecodeHex(s[2..])
  }

  lemma {:induction false} HexEncodeAppend(a: seq<int>, b: seq<int>)
    requires IsByteValues(a) && IsByteValues(b)
    ensures IsByteValues(a + b)
    ensures HexEncode(a + b) == HexEncode(a) + HexEncode(b)
  {
    assert IsByteValues(a + b) by {
      forall i | 0 <= i < |a + b| ensures 0 <= (a + b)[i] < 256 {
        if i < |a| { assert (a + b)[i] == a[i]; } else { assert (a + b)[i] == b[i - |a|]; }
      }
    }
    if a == [] {
      assert a + b == b;
    } else {
      assert (a + b)[1..] == a[1..] + b;
      HexEncodeAppend(a[1..], b);
    }
  }

  lemma {:induction false} DecodeHexAppend(a: string, b: string)
    requires |a| % 2 == 0 && AllUpperHex(a)
    requires |b| % 2 == 0 && AllUpperHex(b)
    ensures AllUpperHex(a + b)
    ensures DecodeHex(a + b) == DecodeHex(a) + DecodeHex(b)
  {
    assert AllUpperHex(a + b) by {
      forall i | 0 <= i < |a + b| ensures IsUpperHex((a + b)[i]) {
        if i < |a| { assert (a + b)[i] == a[i]; } else { assert (a + b)[i] == b[i - |a|]; }
      }
    }
    if a == [] {
      assert a + b == b;
    } else {
      assert (a + b)[2..] == a[2..] + b;
      assert (a + b)[0] == a[0] && (a + b)[1] == a[1];
      assert AllUpperHex(a[2..]) by {
        forall i | 0 <= i < |a[2..]| ensures IsUpperHex(a[2..][i]) { assert a[2..][i] == a[i + 2]; }
      }
      DecodeHexAppend(a[2..], b);
    }
  }

  /** Decoding the hex text of a run of byte values gives them back. */
  lemma {:induction false} DecodeHexEncode(v: seq<int>)
    requires IsByteValues(v)
    ensures DecodeHex(HexEncode(v)) == v
  {
    if v != [] {
      var s := HexEncode(v);
      var h := Hex2(v[0]);
      assert s[..2] == h && s[2..] == HexEncode(v[1..]);
      ConvOfHex2(v[0]);
      DecodeHexEncode(v[1..]);
    }
  }

  /** Encoding the values of a run of digit pairs gives the digits back. */
  lemma {:induction false} HexEncodeDecode(s: string)
    requires |s| % 2 == 0 && AllUpperHex(s)
    ensures HexEncode(DecodeHex(s)) == s
  {
    if s != [] {
      var r := DecodeHex(s);
      assert r[1..] == DecodeHex(s[2..]);
      assert AllUpperHex(s[2..]) by {
        forall i | 0 <= i < |s[2..]| ensures IsUpperHex(s[2..][i]) { assert s[2..][i] == s[i + 2]; }
      }
      Hex2OfConv(s[0], s[1]);
      HexEncodeDecode(s[2..]);
      assert s == [s[0], s[1]] + s[2..];
    }
  }
}
