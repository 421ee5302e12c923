/** The fixed line sequences of the sign protocol: the six lines of
    `InitSign`, the 21 lines of `UpdateSign` (begin-image line, registers R0
    .. RE, five commit lines) and the five lines of `CloseSign`, with the
    checksum of every hard-coded line. */
module Protocol {
  import opened Geometry
  import opened Hex
  import opened Checksum
  import opened Registers
  import opened Seqs

  // The hard-coded control lines, each named after its digits.

  const Frame01000603A254: string := ":01000603A254"
  const Frame00000F01F0: string := ":00000F01F0"
  const Frame0100060200F7: string := ":0100060200F7"
  const Frame0100060600F3: string := ":0100060600F3"
  const Frame01000603A94D: string := ":01000603A94D"
  const Frame01000502FFF9: string := ":01000502FFF9"
  const Frame01000602FFF8: string := ":01000602FFF8"
  const Frame01000603A155: string := ":01000603A155"
  const Frame00000101FE: string := ":00000101FE"
  const Frame01000603AA4C: string := ":01000603AA4C"
  const Frame01007F02FF7F: string := ":01007F02FF7F"
  const Frame0100060255A2: string := ":0100060255A2"
  const Frame01000603A650: string := ":01000603A650"

  /** The data record `InitSign` sends to address 0000, written in the
      pieces its digits fall into: header, ten digits, ten digits, twelve
      zero digits, checksum. */
  const InitRecord: string := ":10000000" + "0447000F10" + "1C1C1C1C10" + "000000000000" + "06"

  /** The line that tells the sign a new image follows. */
  const BeginImage: string := Frame01000603A254

  /** The five lines after the registers that make the sign show the image. */
  const CommitLines: seq<string> :=
    [Frame00000F01F0, Frame0100060200F7, Frame0100060600F3, Frame0100060200F7, Frame01000603A94D]

  /** The six lines of `InitSign`. */
  const InitLines: seq<string> :=
    [Frame01000502FFF9, Frame01000602FFF8, Frame01000603A155, InitRecord, Frame00000101FE, Frame0100060200F7]

  /** The five lines of `CloseSign`. */
  const CloseLines: seq<string> :=
    [Frame01000603A94D, Frame01000603AA4C, Frame01007F02FF7F, Frame0100060255A2, Frame01000603A650]

  /** The register lines R0 .. RE for a packed stream, each as its table
      row builds it. */
  function RegisterLines(s: seq<bv8>): (r: seq<string>)
    requires |s| == ByteStreamSize
    ensures |r| == 15
  {
    TableRowsAreRecords();
    seq(15, n requires 0 <= n < 15 => RegisterLine(Table[n], s))
  }

  /** Everything `UpdateSign` sends for a packed stream. */
  function UpdateLines(s: seq<bv8>): (u: seq<string>)
    requires |s| == ByteStreamSize
  {
    [BeginImage] + RegisterLines(s) + CommitLines
  }

  // One lemma per hard-coded line: its last two digits are the LRC of the
  // rest of it.

  lemma Valid01000603A254() ensures HasValidLrc(Frame01000603A254)
  {
    assert PairSum(":01000603A254", 1) == 0x100;
    PairSumDecidesLrc(Frame01000603A254);
  }

  lemma Valid00000F01F0() ensures HasValidLrc(Frame00000F01F0)
  {
    assert PairSum(":00000F01F0", 1) == 0x100;
    PairSumDecidesLrc(Frame00000F01F0);
  }

  lemma Valid0100060200F7() ensures HasValidLrc(Frame0100060200F7)
  {
    assert PairSum(":0100060200F7", 1) == 0x100;
    PairSumDecidesLrc(Frame0100060200F7);
  }

  lemma Valid0100060600F3() ensures HasValidLrc(Frame0100060600F3)
  {
    assert PairSum(":0100060600F3", 1) == 0x100;
    PairSumDecidesLrc(Frame0100060600F3);
  }

  lemma Valid01000603A94D() ensures HasValidLrc(Frame01000603A94D)
  {
    assert PairSum(":01000603A94D", 1) == 0x100;
    PairSumDecidesLrc(Frame01000603A94D);
  }

  lemma Valid01000502FFF9() ensures HasValidLrc(Frame01000502FFF9)
  {
    assert PairSum(":01000502FFF9", 1) == 0x200;
    PairSumDecidesLrc(Frame01000502FFF9);
  }

  lemma Valid01000602FFF8() ensures HasValidLrc(Frame01000602FFF8)
  {
    assert PairSum(":01000602FFF8", 1) == 0x200;
    PairSumDecidesLrc(Frame01000602FFF8);
  }

  lemma Valid01000603A155() ensures HasValidLrc(Frame01000603A155)
  {
    assert PairSum(":01000603A155", 1) == 0x100;
    PairSumDecidesLrc(Frame01000603A155);
  }

  lemma Valid00000101FE() ensures HasValidLrc(Frame00000101FE)
  {
    assert PairSum(":00000101FE", 1) == 0x100;
    PairSumDecidesLrc(Frame00000101FE);
  }

  lemma Valid01000603AA4C() ensures HasValidLrc(Frame01000603AA4C)
  {
    assert PairSum(":01000603AA4C", 1) == 0x100;
    PairSumDecidesLrc(Frame01000603AA4C);
  }

  lemma Valid01007F02FF7F() ensures HasValidLrc(Frame01007F02FF7F)
  {
    assert PairSum(":01007F02FF7F", 1) == 0x200;
    PairSumDecidesLrc(Frame01007F02FF7F);
  }

  lemma Valid0100060255A2() ensures HasValidLrc(Frame0100060255A2)
  {
    assert PairSum(":0100060255A2", 1) == 0x100;
    PairSumDecidesLrc(Frame0100060255A2);
  }

  lemma Valid01000603A650() ensures HasValidLrc(Frame01000603A650)
  {
    assert PairSum(":01000603A650", 1) == 0x100;
    PairSumDecidesLrc(Frame01000603A650);
  }

  // The digit pairs of the init record, summed piece by piece: header and
  // first ten digits 0x7A, the next ten 0x80, the zeros 0, the checksum 6.

  lemma InitRecordHead()
    ensures HexFrom(":10000000" + "0447000F10", 1) && PairSum(":10000000" + "0447000F10", 1) == 0x7A
  {
    assert PairSum(":10000000", 1) == 0x10;
    assert PairSum("0447000F10", 0) == 0x6A;
    PairSumAppend(":10000000", "0447000F10", 1);
  }

  lemma InitRecordZeroPairs()
    ensures HexFrom("000000000000", 0) && PairSum("000000000000", 0) == 0
  {
    PairSumOfZeros("000000000000", 0);
  }

  /** Digit pairs that are all "00" sum to zero. */
  lemma {:induction false} PairSumOfZeros(s: string, i: nat)
    requires i <= |s| && (|s| - i) % 2 == 0 && forall k :: i <= k < |s| ==> s[k] == '0'
    ensures HexFrom(s, i) && PairSum(s, i) == 0
    decreases |s| - i
  {
    if i < |s| {
      PairSumOfZeros(s, i + 2);
    }
  }

  lemma InitRecordLastPair()
    ensures HexFrom("06", 0) && PairSum("06", 0) == 6
  {
    assert PairSum("06", 0) == 6;
  }

  lemma InitRecordZeros()
    ensures HexFrom("000000000000" + "06", 0) && PairSum("000000000000" + "06", 0) == 6
  {
    InitRecordZeroPairs();
    InitRecordLastPair();
    PairSumAppend("000000000000", "06", 0);
  }

  lemma InitRecordTail()
    ensures HexFrom("1C1C1C1C10" + ("000000000000" + "06"), 0)
    ensures PairSum("1C1C1C1C10" + ("000000000000" + "06"), 0) == 0x86
  {
    InitRecordZeros();
    assert PairSum("1C1C1C1C10", 0) == 0x80;
    PairSumAppend("1C1C1C1C10", "000000000000" + "06", 0);
  }

  lemma ValidInitRecord() ensures HasValidLrc(InitRecord)
  {
    InitRecordHead();
    InitRecordTail();
    var head, tail := ":10000000" + "0447000F10", "1C1C1C1C10" + ("000000000000" + "06");
    PairSumAppend(head, tail, 1);
    assert InitRecord == head + tail;
    PairSumDecidesLrc(InitRecord);
  }

  /** Every hard-coded line `InitSign` sends ends in its LRC. */
  lemma InitLinesValid()
    ensures |InitLines| == 6
    ensures forall i :: 0 <= i < |InitLines| ==> HasValidLrc(InitLines[i])
  {
    Valid01000502FFF9();
    Valid01000602FFF8();
    Valid01000603A155();
    ValidInitRecord();
    Valid00000101FE();
    Valid0100060200F7();
  }

  /** Every line `CloseSign` sends ends in its LRC. */
  lemma CloseLinesValid()
    ensures |CloseLines| == 5
    ensures forall i :: 0 <= i < |CloseLines| ==> HasValidLrc(CloseLines[i])
  {
    Valid01000603A94D();
    Valid01000603AA4C();
    Valid01007F02FF7F();
    Valid0100060255A2();
    Valid01000603A650();
  }

  /** The begin-image line and the five commit lines end in their LRC. */
  lemma UpdateBracketValid()
    ensures HasValidLrc(BeginImage)
    ensures |CommitLines| == 5
    ensures forall i :: 0 <= i < |CommitLines| ==> HasValidLrc(CommitLines[i])
  {
    Valid01000603A254();
    Valid00000F01F0();
    Valid0100060200F7();
    Valid0100060600F3();
    Valid01000603A94D();
  }

  /** `UpdateSign` sends 21 lines: the begin-image line, the table's line for
      each register R0 .. RE in order (R2's fixed literal being its table
      line), then the five commit lines; every one of them ends in its LRC. */
  lemma UpdateLinesShape(s: seq<bv8>)
    requires |s| == ByteStreamSize
    ensures var u := UpdateLines(s);
      |u| == 21 && u[0] == BeginImage && u[16..] == CommitLines
      && (forall n :: 0 <= n < 15 ==> EntryFits(Table[n], |s|) && u[1 + n] == RegisterLine(Table[n], s))
      && (forall i :: 0 <= i < |u| ==> HasValidLrc(u[i]))
  {
    var u := UpdateLines(s);
    TableRowsAreRecords();
    Register2LineIsTableRow(s);
    UpdateBracketValid();
    assert forall n :: 0 <= n < 15 ==> u[1 + n] == RegisterLines(s)[n];
    forall i | 0 <= i < |u| ensures HasValidLrc(u[i]) {
      if i >= 16 { assert u[i] == CommitLines[i - 16]; }
    }
  }

  /** Register line n is the line table row n builds. */
  lemma RegisterLineAt(s: seq<bv8>, n: nat)
    requires |s| == ByteStreamSize && n < 15
    ensures EntryFits(Entry(n), |s|)
    ensures |RegisterLines(s)| == 15 && RegisterLines(s)[n] == RegisterLine(Entry(n), s)
  {
    TableRowsAreRecords();
    assert Table[n] == Entry(n);
  }

  /** Register line n, built from the text of its leading part, the hex
      text of its slice and the text of its trailing filler, followed by the
      LRC of the three. */
  lemma RegisterLineText(s: seq<bv8>, n: nat, start: nat, count: nat, prependData: string, appendData: string)
    requires |s| == ByteStreamSize && n < 15 && EntryFits(Entry(n), ByteStreamSize)
    requires Entry(n).start == start && Entry(n).count == count
    requires prependData == ":1000" + [HexDigit(n)] + "000" + HexEncode(Entry(n).lead)
    requires appendData == HexEncode(Entry(n).trail)
    ensures start + count <= |s|
    ensures IsChecksummable(prependData) && |appendData| % 2 == 0 && AllUpperHex(appendData)
    ensures var body := prependData + HexEncode(Values(s[start .. start + count])) + appendData;
      IsChecksummable(body) && RegisterLines(s)[n] == body + Lrc(body)
  {
    RegisterLineAt(s, n);
    RegisterLineFromText(Entry(n), s, prependData, appendData);
  }

  /** The line of a row with no filler, R1 or R4 .. RD: its bare header,
      the hex text of its sixteen stream bytes, and their LRC. */
  lemma PlainRegisterLineText(s: seq<bv8>, n: nat, start: nat, prependData: string)
    requires |s| == ByteStreamSize && (n == 1 || 4 <= n < 14)
    requires start == if n == 1 then 12 else 32 + 16 * (n - 4)
    requires prependData == ":1000" + [HexDigit(n)] + "000"
    ensures start + 16 <= |s| && IsChecksummable(prependData)
    ensures var body := prependData + HexEncode(Values(s[start .. start + 16])) + "";
      IsChecksummable(body) && RegisterLines(s)[n] == body + Lrc(body)
  {
    PlainRowText(n);
    RegisterLineText(s, n, start, 16, prependData, "");
  }

  /** The payload of register line n: header, leading filler, the stream
      slice and trailing filler, then the LRC byte; the line ends in its LRC. */
  lemma RegisterPayload(s: seq<bv8>, n: nat)
    requires |s| == ByteStreamSize && n < 15
    ensures EntryFits(Entry(n), |s|)
    ensures var l, e := RegisterLines(s)[n], Entry(n);
      HasValidLrc(l) && |Payload(l)| == 21 && |e.lead| + e.count + |e.trail| == 16
      && Payload(l)[..4] == Header(n)
      && Payload(l)[4 .. 4 + |e.lead|] == e.lead
      && Payload(l)[4 + |e.lead| .. 4 + |e.lead| + e.count] == Values(Slice(e, s))
      && Payload(l)[4 + |e.lead| + e.count .. 20] == e.trail
  {
    TableRowsAreRecords();
    RegisterLineAt(s, n);
    RegisterLineIsRecord(n, s);
    assert Table[n] == Entry(n);
    var e := Entry(n);
    var p := Payload(RegisterLine(e, s));
    var q := Header(n) + e.lead + Values(Slice(e, s)) + e.trail;
    assert p == q + [LrcValue(Sum(Payload(Body(e, s))))];
    assert p[..20] == q;
    Split4(p, Header(n), e.lead, Values(Slice(e, s)), e.trail);
  }

  /** Register 0's line: header, the control bytes 01 0A 00 00, then stream
      bytes 0 .. 11. */
  lemma Register0Payload(s: seq<bv8>)
    requires |s| == ByteStreamSize
    ensures var l := RegisterLines(s)[0];
      HasValidLrc(l) && |Payload(l)| == 21
      && Payload(l)[..4] == [0x10, 0x00, 0x00, 0x00]
      && Payload(l)[4..8] == [0x01, 0x0A, 0x00, 0x00]
      && Payload(l)[8..20] == Values(s[0 .. 12])
  {
    RegisterPayload(s, 0);
    var e := Entry(0);
    assert e.lead == [0x01, 0x0A, 0x00, 0x00] && e.start == 0 && e.count == 12 && e.trail == [];
    assert Slice(e, s) == s[0 .. 12];
  }

  /** Register RE's line: header, stream bytes 192 .. 195, then twelve zero
      bytes. */
  lemma Register14Payload(s: seq<bv8>)
    requires |s| == ByteStreamSize
    ensures var l := RegisterLines(s)[14];
      HasValidLrc(l) && |Payload(l)| == 21
      && Payload(l)[..4] == [0x10, 0x00, 0xE0, 0x00]
      && Payload(l)[4..8] == Values(s[192 .. 196])
      && Payload(l)[8..20] == Zeros(12)
  {
    RegisterPayload(s, 14);
    Row14Fields();
    assert Slice(Entry(14), s) == s[192 .. 196];
  }

  /** Register 0 of a stream that starts 01 00 and has every column from the
      second on dark: after its header and control bytes it carries 0x01 and
      eleven zero bytes, and it ends in its LRC. */
  lemma Register0Of(s: seq<bv8>)
    requires |s| == ByteStreamSize && s[0] == 0x01 && s[1] == 0
    requires forall x :: 1 <= x < XSize - 1 ==> s[2 * x] == 0 && s[2 * x + 1] == 0
    ensures var l := RegisterLines(s)[0];
      HasValidLrc(l) && |Payload(l)| == 21
      && Payload(l)[..4] == [0x10, 0x00, 0x00, 0x00]
      && Payload(l)[4..8] == [0x01, 0x0A, 0x00, 0x00]
      && Payload(l)[8] == 0x01
      && forall i :: 9 <= i < 20 ==> Payload(l)[i] == 0
  {
    Register0Payload(s);
    var p := Payload(RegisterLines(s)[0]);
    assert p[8] == p[8..20][0];
    forall i | 9 <= i < 20 ensures p[i] == 0 {
      var k := i - 8;
      assert p[i] == p[8..20][k] == s[k] as int;
      if k > 1 {
        var x := k / 2;
        assert k == 2 * x || k == 2 * x + 1;
      }
    }
  }

  /** Register RE of a stream that ends 00 00 00 80: after its header it
      carries those four bytes, then its twelve zero bytes of filler, and it
      ends in its LRC. */
  lemma Register14Of(s: seq<bv8>)
    requires |s| == ByteStreamSize && s[192] == 0 && s[193] == 0 && s[194] == 0 && s[195] == 0x80
    ensures var l := RegisterLines(s)[14];
      HasValidLrc(l) && |Payload(l)| == 21
      && Payload(l)[..4] == [0x10, 0x00, 0xE0, 0x00]
      && Payload(l)[7] == 0x80
      && forall i :: 4 <= i < 20 && i != 7 ==> Payload(l)[i] == 0
  {
    Register14Payload(s);
    DataBytes14(Payload(RegisterLines(s)[14]), s[192 .. 196]);
  }

  /** Data bytes 00 00 00 80 then twelve zero bytes, read back one index at
      a time. */
  lemma DataBytes14(p: seq<int>, t: seq<bv8>)
    requires |p| >= 20 && |t| == 4 && p[4..8] == Values(t) && p[8..20] == Zeros(12)
    requires t[0] == 0 && t[1] == 0 && t[2] == 0 && t[3] == 0x80
    ensures p[7] == 0x80 && forall i :: 4 <= i < 20 && i != 7 ==> p[i] == 0
  {
    assert p[7] == p[4..8][3];
    forall i | 4 <= i < 20 && i != 7 ensures p[i] == 0 {
      if i < 8 {
        assert p[i] == p[4..8][i - 4];
      } else {
        assert p[i] == p[8..20][i - 8];
      }
    }
  }
}
