/** The fifteen image registers R0 .. RE the sign is loaded through. Each is
    sent as one line laid out like an Intel HEX type-00 data record: byte count
    0x10, address 0x00N0, record type 0x00, sixteen data bytes, checksum. The
    data bytes are a slice of the packed stream, with fixed zero or control
    filler around it where the slice is shorter than sixteen bytes. */
module Registers {
  import opened Geometry
  import opened Hex
  import opened Checksum
  import opened Seqs

  /** One `PrintRegisterN`: register N's line carries `lead`, then the `count`
      stream bytes from `start`, then `trail` as its sixteen data bytes. */
  datatype RegisterEntry = RegisterEntry(address: nat, lead: seq<int>, start: nat, count: nat, trail: seq<int>)

  /** n zero bytes. */
  function Zeros(n: nat): (z: seq<int>)
    ensures |z| == n && IsByteValues(z)
    ensures forall i :: 0 <= i < n ==> z[i] == 0
  {
    seq(n, _ => 0)
  }

  /** A run of n "00" digit pairs, as the zero filler is written in the
      register literals. */
  function ZeroDigits(n: nat): (z: string)
  {
    if n == 0 then "" else "00" + ZeroDigits(n - 1)
  }

  /** The zero filler text is the encoding of zero bytes. */
  lemma {:induction false} ZeroDigitsEncodeZeros(n: nat)
    ensures ZeroDigits(n) == HexEncode(Zeros(n))
  {
    if n > 0 {
      ZeroDigitsEncodeZeros(n - 1);
      assert Zeros(n)[1..] == Zeros(n - 1);
      assert Hex2(0) == "00";
    }
  }

  /** The row of the register table for register n. R0 opens with the four
      control bytes 01 0A 00 00; R2 carries no stream bytes at all; R3 and
      RE pad their four stream bytes with twelve zero bytes, before and after
      respectively; R1 and R4 .. RD carry sixteen stream bytes each. */
  function Entry(n: nat): (e: RegisterEntry)
    requires n < 15
    ensures e.address == n
  {
    if n == 0 then RegisterEntry(0x0, [0x01, 0x0A, 0x00, 0x00], 0, 12, [])
    else if n == 1 then RegisterEntry(0x1, [], 12, 16, [])
    else if n == 2 then RegisterEntry(0x2, Zeros(16), 28, 0, [])
    else if n == 3 then RegisterEntry(0x3, Zeros(12), 28, 4, [])
    else if n < 14 then RegisterEntry(n, [], 32 + 16 * (n - 4), 16, [])
    else RegisterEntry(0xE, [], 192, 4, Zeros(12))
  }

  /** The register table R0 .. RE, in the order `UpdateSign` sends it. */
  const Table: seq<RegisterEntry> := seq(15, n requires 0 <= n < 15 => Entry(n))

  /** A row that can be sent from a stream of `len` bytes: a one-digit
      address, byte-valued filler and a slice inside the stream. */
  predicate EntryFits(e: RegisterEntry, len: nat)
  {
    e.address < 16 && IsByteValues(e.lead) && IsByteValues(e.trail) && e.start + e.count <= len
  }

  /** The count, address and type bytes of the record for register n. */
  function Header(n: nat): (h: seq<int>)
    requires n < 16
  {
    [0x10, 0x00, 0x10 * n, 0x00]
  }

  /** The header text of register n: byte count "10", address "00N0", type
      "00". */
  lemma HeaderText(n: nat)
    requires n < 16
    ensures IsByteValues(Header(n))
    ensures HexEncode(Header(n)) == "1000" + [HexDigit(n)] + "000"
  {
    var h := Header(n);
    var d := Hex2(0x10 * n);
    assert d == [HexDigit(n), '0'];
    assert HexEncode([0x00]) == "00" by { assert [0x00][1..] == []; }
    assert HexEncode([0x10 * n, 0x00]) == d + "00" by { assert [0x10 * n, 0x00][1..] == [0x00]; }
    assert HexEncode([0x00, 0x10 * n, 0x00]) == "00" + d + "00" by { assert [0x00, 0x10 * n, 0x00][1..] == [0x10 * n, 0x00]; }
    assert h[1..] == [0x00, 0x10 * n, 0x00];
    assert HexEncode(h) == "10" + "00" + d + "00";
  }

  /** `prependData`: the ':' and the data bytes before the stream slice. */
  function Prepend(e: RegisterEntry): (p: string)
    requires e.address < 16 && IsByteValues(e.lead)
  {
    HeaderText(e.address);
    HexEncodeAppend(Header(e.address), e.lead);
    ":" + HexEncode(Header(e.address) + e.lead)
  }

  /** The stream bytes a row sends. */
  function Slice(e: RegisterEntry, s: seq<bv8>): (r: seq<bv8>)
    requires e.start + e.count <= |s|
  {
    s[e.start .. e.start + e.count]
  }

  /** `prependData + middleData`, with the trailing filler of RE appended to
      `middleData`: the text `calculateLRC` is applied to. */
  function Body(e: RegisterEntry, s: seq<bv8>): (b: string)
    requires EntryFits(e, |s|)
    ensures IsFrame(b)
    ensures Payload(b) == Header(e.address) + e.lead + Values(Slice(e, s)) + e.trail
  {
    var h, v := Header(e.address) + e.lead, Values(Slice(e, s));
    FrameOfConcat(h, v, e.trail);
    Prepend(e) + HexEncode(v) + HexEncode(e.trail)
  }

  /** The line a register builder sends: its body followed by the LRC of the
      body. */
  function RegisterLine(e: RegisterEntry, s: seq<bv8>): (f: string)
    requires EntryFits(e, |s|)
    ensures HasValidLrc(f) && f[..|f| - 2] == Body(e, s)
  {
    AppendedLrcIsValid(Body(e, s));
    Body(e, s) + Lrc(Body(e, s))
  }

  /** The text of a row's leading part (header and leading filler) and the
      text of its trailing filler, with the hex text of its slice between
      them, make up the row's body; the leading text is a checksummable
      start of a line and the trailing text whole digit pairs. */
  lemma RegisterLineFromText(e: RegisterEntry, s: seq<bv8>, prependData: string, appendData: string)
    requires EntryFits(e, |s|)
    requires prependData == ":1000" + [HexDigit(e.address)] + "000" + HexEncode(e.lead)
    requires appendData == HexEncode(e.trail)
    ensures IsChecksummable(prependData)
    ensures |appendData| % 2 == 0 && AllUpperHex(appendData)
    ensures Body(e, s) == prependData + HexEncode(Values(s[e.start .. e.start + e.count])) + appendData
  {
    var head := ":1000" + [HexDigit(e.address)] + "000";
    assert IsChecksummable(head) by {
      assert head[1..] == "1000" + [HexDigit(e.address)] + "000";
    }
    ChecksummableAppend(head, HexEncode(e.lead));
    HeaderText(e.address);
    HexEncodeAppend(Header(e.address), e.lead);
    assert Prepend(e) == prependData;
  }

  /** The rows with no filler, R1 and R4 .. RD: sixteen stream bytes each,
      R1 from byte 12 and R4 .. RD from byte 32 on. */
  lemma PlainRowText(n: nat)
    requires n == 1 || 4 <= n < 14
    ensures EntryFits(Entry(n), ByteStreamSize)
    ensures Entry(n).start == (if n == 1 then 12 else 32 + 16 * (n - 4)) && Entry(n).count == 16
    ensures HexEncode(Entry(n).lead) == "" && HexEncode(Entry(n).trail) == ""
  {
  }

  /** The text of R0's leading part: its header, then the control bytes
      01 0A 00 00; its slice is stream bytes 0 .. 11. */
  lemma Row0Text()
    ensures EntryFits(Entry(0), ByteStreamSize) && Entry(0).start == 0 && Entry(0).count == 12
    ensures ":10000000010A0000" == ":1000" + [HexDigit(0)] + "000" + HexEncode(Entry(0).lead)
    ensures "" == HexEncode(Entry(0).trail)
  {
    var v := [0x01, 0x0A, 0x00, 0x00];
    assert v[1..] == [0x0A, 0x00, 0x00] && v[1..][1..] == [0x00, 0x00] && v[1..][1..][1..] == [0x00];
    assert [0x00][1..] == [];
    assert HexEncode(v) == "010A0000";
  }

  /** The text of R3's leading part: its header, then twelve zero bytes;
      its slice is stream bytes 28 .. 31. */
  lemma Row3Text()
    ensures EntryFits(Entry(3), ByteStreamSize) && Entry(3).start == 28 && Entry(3).count == 4
    ensures ":10003000" + "000000000000000000000000" == ":1000" + [HexDigit(3)] + "000" + HexEncode(Entry(3).lead)
    ensures "" == HexEncode(Entry(3).trail)
  {
    ZeroDigitsEncodeZeros(12);
    assert ZeroDigits(12) == "000000000000000000000000";
    assert ":1000" + [HexDigit(3)] + "000" == ":10003000";
  }

  /** The text of RE's leading part, its bare header; its slice is stream
      bytes 192 .. 195. */
  lemma Row14Head()
    ensures EntryFits(Entry(14), ByteStreamSize) && Entry(14).start == 192 && Entry(14).count == 4
    ensures ":1000E000" == ":1000" + [HexDigit(14)] + "000" + HexEncode(Entry(14).lead)
  {
    assert HexEncode(Entry(14).lead) == "";
  }

  /** RE's row: no leading filler, stream bytes 192 .. 195, then twelve
      zero bytes. */
  lemma Row14Fields()
    ensures Entry(14).lead == [] && Entry(14).start == 192 && Entry(14).count == 4
    ensures Entry(14).trail == Zeros(12)
  {
  }

  /** The text of the twelve zero bytes after RE's slice. */
  lemma Row14Trail()
    ensures "000000000000000000000000" == HexEncode(Entry(14).trail)
  {
    ZeroDigitsEncodeZeros(12);
    assert ZeroDigits(12) == "000000000000000000000000";
  }

  /** The table is well formed: row n is register n, every row fits the
      196-byte stream, and every row carries exactly sixteen data bytes. */
  lemma TableRowsAreRecords()
    ensures |Table| == 15
    ensures forall n :: 0 <= n < 15 ==> Table[n].address == n && EntryFits(Table[n], ByteStreamSize)
    ensures forall n :: 0 <= n < 15 ==> |Table[n].lead| + Table[n].count + |Table[n].trail| == 16
  {
  }

  /** The filler: 01 0A 00 00 before R0's stream bytes, twelve zero bytes
      before R3's, twelve zero bytes after RE's, and sixteen zero bytes in R2,
      which carries no stream bytes. */
  lemma TableFiller()
    ensures Table[0].lead == [0x01, 0x0A, 0x00, 0x00] && Table[0].trail == []
    ensures Table[2].lead == Zeros(16) && Table[2].count == 0 && Table[2].trail == []
    ensures Table[3].lead == Zeros(12) && Table[3].trail == []
    ensures Table[14].lead == [] && Table[14].trail == Zeros(12)
    ensures forall n :: (n == 1 || 4 <= n < 14) ==> Table[n].lead == [] && Table[n].trail == [] && Table[n].count == 16
  {
  }

  /** The slices of rows lo..hi-1 follow each other without gap or overlap
      from the first start to the last end. */
  predicate Contiguous(t: seq<RegisterEntry>, lo: nat, hi: nat)
    requires lo <= hi <= |t|
  {
    forall n :: lo <= n < hi - 1 ==> t[n + 1].start == t[n].start + t[n].count
  }

  /** The stream bytes sent by rows lo..hi-1, in row order. */
  function Sent(t: seq<RegisterEntry>, s: seq<bv8>, lo: nat, hi: nat): (r: seq<bv8>)
    requires lo <= hi <= |t|
    requires forall n :: lo <= n < hi ==> (t[n].start + t[n].count <= |s|)
    decreases hi - lo
  {
    if lo == hi then [] else Slice(t[lo], s) + Sent(t, s, lo + 1, hi)
  }

  /** Contiguous slices together send exactly the stream range they span. */
  lemma {:induction false} ContiguousSendsRange(t: seq<RegisterEntry>, s: seq<bv8>, lo: nat, hi: nat)
    requires lo < hi <= |t| && Contiguous(t, lo, hi)
    requires forall n :: lo <= n < hi ==> (t[n].start + t[n].count <= |s|)
    ensures t[lo].start <= t[hi - 1].start + t[hi - 1].count
    ensures Sent(t, s, lo, hi) == s[t[lo].start .. t[hi - 1].start + t[hi - 1].count]
    decreases hi - lo
  {
    if lo + 1 == hi {
      assert Sent(t, s, hi, hi) == [];
    } else {
      var a, b, c := t[lo].start, t[lo + 1].start, t[hi - 1].start + t[hi - 1].count;
      assert Contiguous(t, lo + 1, hi);
      ContiguousSendsRange(t, s, lo + 1, hi);
      assert Sent(t, s, lo, hi) == Slice(t[lo], s) + Sent(t, s, lo + 1, hi);
      assert Slice(t[lo], s) == s[a .. b];
      SliceSplit(s, a, b, c);
    }
  }

  /** The register slices cover the packed stream exactly once and in
      order: R0 starts at byte 0, each row starts where the one before it
      ends, and RE ends at byte 196; so the rows send the whole stream. */
  lemma TableCoversStream(s: seq<bv8>)
    requires |s| == ByteStreamSize
    ensures Table[0].start == 0 && Table[14].start + Table[14].count == ByteStreamSize
    ensures Contiguous(Table, 0, 15)
    ensures Sent(Table, s, 0, 15) == s
  {
    TableIsContiguous();
    TableEnds();
    TableSlicesFit(|s|);
    ContiguousSendsRange(Table, s, 0, 15);
    assert s[0 .. ByteStreamSize] == s;
  }

  /** R0's slice starts at byte 0 and RE's ends at byte 196. */
  lemma TableEnds()
    ensures |Table| == 15 && Table[0].start == 0 && Table[14].start + Table[14].count == ByteStreamSize
  {
    assert Table[0] == Entry(0) && Table[14] == Entry(14);
  }

  /** Every row's slice lies inside the stream. */
  lemma TableSlicesFit(len: nat)
    requires len == ByteStreamSize
    ensures |Table| == 15 && forall n :: 0 <= n < 15 ==> Table[n].start + Table[n].count <= len
  {
    TableRowsAreRecords();
  }

  /** Each row's slice starts where the one before it ends. */
  lemma TableIsContiguous()
    ensures Contiguous(Table, 0, 15)
  {
    forall n | 0 <= n < 14 ensures Table[n + 1].start == Table[n].start + Table[n].count {
      assert Table[n] == Entry(n) && Table[n + 1] == Entry(n + 1);
    }
  }

  /** The text of every register body opens with the header of its
      register: byte count "10", address "00N0", type "00". */
  lemma BodyHeaderText(e: RegisterEntry, s: seq<bv8>)
    requires EntryFits(e, |s|)
    ensures |Body(e, s)| == 9 + 2 * (|e.lead| + e.count + |e.trail|)
    ensures Body(e, s)[..9] == ":1000" + [HexDigit(e.address)] + "000"
  {
    HeaderText(e.address);
    HexEncodeAppend(Header(e.address), e.lead);
    var p := Prepend(e);
    assert p == ":" + ("1000" + [HexDigit(e.address)] + "000") + HexEncode(e.lead);
    assert p[..9] == ":1000" + [HexDigit(e.address)] + "000";
  }

  /** Every register line is a data record for address 0x00N0: the header
      text, sixteen data bytes (filler and slice), then the LRC of all that.
      It is ':' and an even number of uppercase digits, and its last two
      digits are its LRC. */
  lemma RegisterLineIsRecord(n: nat, s: seq<bv8>)
    requires n < 15 && |s| == ByteStreamSize
    ensures EntryFits(Table[n], |s|)
    ensures var f := RegisterLine(Table[n], s);
      |f| == 43 && f[..9] == ":1000" + [HexDigit(n)] + "000" && HasValidLrc(f)
      && Payload(f) == Header(n) + Table[n].lead + Values(Slice(Table[n], s)) + Table[n].trail
                       + [LrcValue(Sum(Payload(Body(Table[n], s))))]
  {
    TableRowsAreRecords();
    var e := Table[n];
    BodyHeaderText(e, s);
    AppendedLrcIsValid(Body(e, s));
    assert RegisterLine(e, s)[..9] == Body(e, s)[..9];
  }

  /** After its header and leading filler, a row's line carries the stream
      bytes of its slice. */
  lemma LineCarriesSlice(e: RegisterEntry, s: seq<bv8>)
    requires EntryFits(e, |s|)
    ensures IsFrame(RegisterLine(e, s))
    ensures var p := Payload(RegisterLine(e, s));
      |p| == 5 + |e.lead| + e.count + |e.trail|
      && p[4 + |e.lead| .. 4 + |e.lead| + e.count] == Values(Slice(e, s))
  {
    var b := Body(e, s);
    AppendedLrcIsValid(b);
    var h, v := Header(e.address) + e.lead, Values(Slice(e, s));
    var p := Payload(RegisterLine(e, s));
    assert p == h + v + e.trail + [LrcValue(Sum(Payload(b)))];
    assert p[|h| .. |h| + |v|] == v;
  }

  /** After its header and leading filler, register n's line carries the
      stream bytes of its slice. */
  lemma RegisterLineCarriesSlice(n: nat, s: seq<bv8>)
    requires n < 15 && |s| == ByteStreamSize
    ensures EntryFits(Table[n], |s|)
    ensures var f, e := RegisterLine(Table[n], s), Table[n];
      IsFrame(f) && |Payload(f)| == 21 && |e.lead| + e.count <= 16
      && Payload(f)[4 + |e.lead| .. 4 + |e.lead| + e.count] == Values(Slice(e, s))
  {
    TableRowsAreRecords();
    LineCarriesSlice(Table[n], s);
  }

  /** The sum `calculateLRC` forms over any register body is at most
      20 * 255 = 5100: the four header bytes and sixteen data bytes. */
  lemma BodySumBound(n: nat, s: seq<bv8>)
    requires n < 15 && |s| == ByteStreamSize
    ensures EntryFits(Table[n], |s|)
    ensures 0 <= Sum(Payload(Body(Table[n], s))) <= 5100
  {
    TableRowsAreRecords();
    SumOfBytesBound(Payload(Body(Table[n], s)));
  }

  lemma {:induction false} SumZeros(n: nat)
    ensures Sum(Zeros(n)) == 0
  {
    if n > 0 {
      assert Zeros(n)[1..] == Zeros(n - 1);
      SumZeros(n - 1);
    }
  }

  /** The fixed line `PrintRegister2` sends: register 2 with sixteen zero
      data bytes and checksum D0, written in its three fields. */
  const Register2Line: string := ":10002000" + "00000000000000000000000000000000" + "D0"

  lemma {:induction false} ZeroDigitsAppend(a: nat, b: nat)
    ensures ZeroDigits(a + b) == ZeroDigits(a) + ZeroDigits(b)
  {
    if a > 0 {
      ZeroDigitsAppend(a - 1, b);
    }
  }

  /** The body of a row that sends no stream bytes, only k zero bytes of
      leading filler. */
  lemma FillerOnlyBody(e: RegisterEntry, s: seq<bv8>, k: nat)
    requires EntryFits(e, |s|) && e.lead == Zeros(k) && e.count == 0 && e.trail == []
    ensures Body(e, s) == ":1000" + [HexDigit(e.address)] + "000" + ZeroDigits(k)
  {
    HeaderText(e.address);
    HexEncodeAppend(Header(e.address), Zeros(k));
    ZeroDigitsEncodeZeros(k);
    assert Slice(e, s) == [] && Values([]) == [] && HexEncode([]) == [];
    assert Body(e, s) == Prepend(e) + [] + [];
    assert Prepend(e) == ":" + HexEncode(Header(e.address)) + HexEncode(Zeros(k));
  }

  /** The bytes of such a body are its header and zeros. */
  lemma FillerOnlyBodySum(e: RegisterEntry, s: seq<bv8>, k: nat)
    requires EntryFits(e, |s|) && e.lead == Zeros(k) && e.count == 0 && e.trail == []
    ensures Sum(Payload(Body(e, s))) == 0x10 + 0x10 * e.address
  {
    assert Slice(e, s) == [] && Values([]) == [];
    assert Payload(Body(e, s)) == Header(e.address) + Zeros(k);
    SumAppend(Header(e.address), Zeros(k));
    SumZeros(k);
    HeaderSum(e.address);
  }

  /** The header bytes of register n add up to 0x10 + 0x10 * n. */
  lemma HeaderSum(n: nat)
    requires n < 16
    ensures Sum(Header(n)) == 0x10 + 0x10 * n
  {
    var h := Header(n);
    assert h[1..] == [0x00, 0x10 * n, 0x00];
    assert Sum([0x00]) == 0 by { assert [0x00][1..] == []; }
    assert Sum([0x10 * n, 0x00]) == 0x10 * n by { assert [0x10 * n, 0x00][1..] == [0x00]; }
    assert Sum([0x00, 0x10 * n, 0x00]) == 0x10 * n by { assert [0x00, 0x10 * n, 0x00][1..] == [0x10 * n, 0x00]; }
  }

  /** The sixteen zero bytes of register 2, as written in its literal. */
  lemma Register2Zeros()
    ensures ZeroDigits(16) == "00000000000000000000000000000000"
  {
    ZeroDigitsAppend(8, 8);
    assert ZeroDigits(8) == "0000000000000000";
  }

  /** The body of register 2: its header and sixteen zero bytes. */
  lemma Register2Body(s: seq<bv8>)
    requires |s| == ByteStreamSize
    ensures EntryFits(Entry(2), |s|) && Body(Entry(2), s) == ":10002000" + ZeroDigits(16)
  {
    FillerOnlyBody(Entry(2), s, 16);
    assert ":1000" + [HexDigit(2)] + "000" == ":10002000";
  }

  /** The LRC of register 2's body is "D0". */
  lemma Register2Lrc(s: seq<bv8>)
    requires |s| == ByteStreamSize
    ensures EntryFits(Entry(2), |s|) && Lrc(Body(Entry(2), s)) == "D0"
  {
    FillerOnlyBodySum(Entry(2), s, 16);
    assert LrcValue(0x30) == 0xD0;
    assert Hex2(0xD0) == "D0";
  }

  /** The fixed register-2 line is exactly what the table row for R2 builds,
      whatever the stream holds: no stream bytes, sixteen zero bytes of
      filler, and "D0" is its LRC. */
  lemma Register2LineIsTableRow(s: seq<bv8>)
    requires |s| == ByteStreamSize
    ensures EntryFits(Table[2], |s|) && RegisterLine(Table[2], s) == Register2Line
  {
    assert Table[2] == Entry(2);
    Register2Body(s);
    Register2Lrc(s);
    Register2Zeros();
  }
}
