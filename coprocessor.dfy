/** The `mcp` driver object: the dot image it draws into, the packed stream
    it builds from it, and the lines it sends to the sign. The serial port is
    modelled by `log`, the lines sent so far, in order. */
module CoProcessor {
  import opened Geometry
  import opened Hex
  import opened Checksum
  import opened Image
  import opened Packing
  import opened Registers
  import opened Protocol
  import opened Seqs

  /** C `int16_t`, the coordinate type of `drawPixel`. */
  newtype Int16 = v: int | -0x8000 <= v < 0x8000

  /** C `uint16_t`, the colour type of `drawPixel`. */
  newtype UInt16 = v: int | 0 <= v < 0x1_0000

  class Mcp {
    /** `BitmapMatrix[x][y]`: the dot in column x, row y. */
    var matrix: array2<bool>
    /** `Bytestream`: the packed image, two bytes per column. */
    var bytestream: array<bv8>
    /** Every line sent to the sign so far. */
    ghost var log: seq<string>

    /** The two buffers have the fixed geometry of the sign. */
    ghost predicate Valid()
      reads this`matrix, this`bytestream
    {
      matrix.Length0 == XSize && matrix.Length1 == YSize && bytestream.Length == ByteStreamSize
    }

    /** The image the matrix holds. */
    ghost function Grid(): (g: seq<Column>)
      requires Valid()
      reads this`matrix, this`bytestream, matrix
      ensures IsImage(g)
      ensures forall x, y :: 0 <= x < XSize && 0 <= y < YSize ==> g[x][y] == matrix[x, y]
    {
      var m := matrix;
      seq(XSize, x requires 0 <= x < XSize reads m =>
        seq(YSize, y requires 0 <= y < YSize reads m => m[x, y]))
    }

    /** `mcp(baudRate)`: all dots off and every stream byte zero; nothing sent
        yet. Opening the serial port at `baudRate` is not modelled. */
    constructor(baudRate: int)
      ensures Valid() && fresh(matrix) && fresh(bytestream)
      ensures Grid() == Blank
      ensures bytestream[..] == seq(ByteStreamSize, _ => 0)
      ensures log == []
    {
      matrix := new bool[XSize, YSize];
      bytestream := new bv8[ByteStreamSize];
      log := [];
      StreamHoldsTwoBytesPerColumn();
      new;
      DotAllOff();
      var i := 0;
      while i < ByteStreamSize
        modifies bytestream
        invariant 0 <= i <= ByteStreamSize
        invariant forall k :: 0 <= k < i ==> bytestream[k] == 0
      {
        bytestream[i] := 0;
        i := i + 1;
      }
      assert bytestream[..] == seq(ByteStreamSize, _ => 0);
    }

    /** `drawPixel`: a point outside the 98x16 sign is ignored; otherwise
        colour 1 turns the dot on and any other colour turns it off. */
    method DrawPixel(x: Int16, y: Int16, color: UInt16)
      requires Valid()
      modifies matrix
      ensures 0 <= x as int < XSize && 0 <= y as int < YSize ==>
        Grid() == WithDot(old(Grid()), x as int, y as int, color == 1)
      ensures !(0 <= x as int < XSize && 0 <= y as int < YSize) ==> Grid() == old(Grid())
    {
      if x < 0 || x as int >= XSize || y < 0 || y as int >= YSize {
        return;
      }
      if color == 1 {
        DotOn(x as int as Byte, y as int as Byte);
      } else {
        DotOff(x as int as Byte, y as int as Byte);
      }
    }

    /** `dotOn`: turns one dot on. It does no bounds check, so the caller
        must give a point on the sign. */
    method DotOn(x: Byte, y: Byte)
      requires Valid() && (x as int) < XSize && (y as int) < YSize
      modifies matrix
      ensures Grid() == WithDot(old(Grid()), x as int, y as int, true)
    {
      matrix[x as int, y as int] := true;
      ImageExt(Grid(), WithDot(old(Grid()), x as int, y as int, true));
    }

    /** `dotOff`: turns one dot off, with no bounds check. */
    method DotOff(x: Byte, y: Byte)
      requires Valid() && (x as int) < XSize && (y as int) < YSize
      modifies matrix
      ensures Grid() == WithDot(old(Grid()), x as int, y as int, false)
    {
      matrix[x as int, y as int] := false;
      ImageExt(Grid(), WithDot(old(Grid()), x as int, y as int, false));
    }

    /** `dotAllOn`: every dot on. */
    method DotAllOn()
      requires Valid()
      modifies matrix
      ensures Grid() == AllLit
    {
      for x := 0 to XSize
        invariant forall i, j :: 0 <= i < x && 0 <= j < YSize ==> matrix[i, j]
      {
        for y := 0 to YSize
          invariant forall i, j :: 0 <= i < x && 0 <= j < YSize ==> matrix[i, j]
          invariant forall j :: 0 <= j < y ==> matrix[x, j]
        {
          matrix[x, y] := true;
        }
      }
      ImageExt(Grid(), AllLit);
    }

    /** `dotAllOff`: every dot off. */
    method DotAllOff()
      requires Valid()
      modifies matrix
      ensures Grid() == Blank
    {
      for x := 0 to XSize
        invariant forall i, j :: 0 <= i < x && 0 <= j < YSize ==> !matrix[i, j]
      {
        for y := 0 to YSize
          invariant forall i, j :: 0 <= i < x && 0 <= j < YSize ==> !matrix[i, j]
          invariant forall j :: 0 <= j < y ==> !matrix[x, j]
        {
          matrix[x, y] := false;
        }
      }
      assert forall j :: 0 <= j < YSize ==> DarkColumn[j] == false;
      ImageExt(Grid(), Blank);
    }

    /** `invertAll`: every dot flipped. */
    method InvertAll()
      requires Valid()
      modifies matrix
      ensures Grid() == Inverted(old(Grid()))
    {
      ghost var g := Grid();
      for x := 0 to XSize
        invariant forall i, j :: 0 <= i < XSize && 0 <= j < YSize ==>
          matrix[i, j] == (if i < x then !g[i][j] else g[i][j])
      {
        for y := 0 to YSize
          invariant forall i, j :: 0 <= i < XSize && 0 <= j < YSize ==>
            matrix[i, j] == (if i < x || (i == x && j < y) then !g[i][j] else g[i][j])
        {
          if matrix[x, y] == false {
            matrix[x, y] := true;
          } else {
            matrix[x, y] := false;
          }
        }
      }
      InvertedDots(g);
      ImageExt(Grid(), Inverted(g));
    }

    /** `ConvertBitmapToBytestream`: packs each column into two bytes, rows
        0..7 into byte 2x and rows 8..15 into byte 2x+1, bit k holding the
        k-th row of the half. Each byte is built by writing the topmost row
        of its half into bit 0 and shifting left, seven times, then writing
        the bottom row; the seven shifts push out whatever the byte held
        before. The matrix is unchanged. */
    method ConvertBitmapToBytestream()
      requires Valid()
      modifies bytestream
      ensures Grid() == old(Grid())
      ensures forall x, y :: 0 <= x < XSize && 0 <= y < 8 ==> Bit(bytestream[2 * x], y) == matrix[x, y]
      ensures forall x, y :: 0 <= x < XSize && 8 <= y < YSize ==> Bit(bytestream[2 * x + 1], y - 8) == matrix[x, y]
      ensures bytestream[..] == Pack(Grid())
    {
      var counter := 0;
      for x := 0 to XSize
        invariant counter == 2 * x
        invariant forall i, y :: 0 <= i < x && 0 <= y < 8 ==> Bit(bytestream[2 * i], y) == matrix[i, y]
        invariant forall i, y :: 0 <= i < x && 8 <= y < YSize ==> Bit(bytestream[2 * i + 1], y - 8) == matrix[i, y]
      {
        PackHalf(x, counter, 0);
        counter := counter + 1;
        PackHalf(x, counter, 8);
        counter := counter + 1;
      }
      PackUnique(Grid(), bytestream[..]);
    }

    /** One inner loop of `ConvertBitmapToBytestream`: rows base+7 down to
        base of column x into byte c, which afterwards holds row base+k in
        bit k. No other byte changes. */
    method PackHalf(x: int, c: int, base: int)
      requires Valid() && 0 <= x < XSize && 0 <= c < ByteStreamSize && (base == 0 || base == 8)
      modifies bytestream
      ensures forall k :: 0 <= k < 8 ==> Bit(bytestream[c], k) == matrix[x, base + k]
      ensures forall i :: 0 <= i < ByteStreamSize && i != c ==> bytestream[i] == old(bytestream[i])
    {
      var y := base + 7;
      while y > base - 1
        invariant base - 1 <= y <= base + 7
        invariant y >= base ==> forall j :: 0 < j <= base + 7 - y ==> Bit(bytestream[c], j) == matrix[x, y + j]
        invariant y == base - 1 ==> forall k :: 0 <= k < 8 ==> Bit(bytestream[c], k) == matrix[x, base + k]
        invariant forall i :: 0 <= i < ByteStreamSize && i != c ==> bytestream[i] == old(bytestream[i])
      {
        ghost var before := bytestream[c];
        if matrix[x, y] == true {
          bytestream[c] := bytestream[c] | 1;
        } else {
          bytestream[c] := bytestream[c] & 0xFE;
        }
        assert bytestream[c] == WriteBit0(before, matrix[x, y]);
        if y > base {
          ghost var written := bytestream[c];
          bytestream[c] := bytestream[c] << 1;
          assert bytestream[c] == ShiftUp(written);
        }
        y := y - 1;
      }
    }

    /** `PrintString`: sends one line. Draining and discarding whatever the
        sign sends back, the CRLF terminator and the delay after the line are
        not modelled. */
    method PrintString(s: string)
      modifies this`log
      ensures bytestream[..] == old(bytestream[..])
      ensures log == old(log) + [s]
    {
      log := log + [s];
    }

    /** The loop of every `PrintRegisterN`: the two `%0.2X` digits of each
        of the `count` stream bytes from `start`, in order. */
    method StreamDigits(start: int, count: int) returns (middleData: string)
      requires Valid() && 0 <= start && 0 <= count && start + count <= ByteStreamSize
      ensures middleData == HexEncode(Values(bytestream[start .. start + count]))
    {
      StreamHoldsTwoBytesPerColumn();
      middleData := "";
      for i := start to start + count
        invariant middleData == HexEncode(Values(bytestream[..][start .. i]))
      {
        var sBuffer := Hex2(bytestream[i] as int);
        middleData := middleData + [sBuffer[0]];
        middleData := middleData + [sBuffer[1]];
        HexEncodeSliceSnoc(bytestream[..], start, i);
      }
    }

    /** The body of every `PrintRegisterN`: `prependData`, then the stream
        digits (`middleData`), then `appendData` (the filler only RE adds to
        `middleData`), then `calculateLRC` of all that; the whole is sent
        as one line. */
    method PrintRegister(prependData: string, start: int, count: int, appendData: string)
      requires Valid() && IsFrame(prependData)
      requires 0 <= start && 0 <= count && start + count <= ByteStreamSize
      requires |appendData| % 2 == 0 && AllUpperHex(appendData)
      modifies this`log
      ensures bytestream[..] == old(bytestream[..])
      ensures var body := prependData + HexEncode(Values(bytestream[..][start .. start + count])) + appendData;
        IsChecksummable(body) && log == old(log) + [body + Lrc(body)]
    {
      var middleData := StreamDigits(start, count);
      ghost var slice := middleData;
      middleData := middleData + appendData;
      ChecksummableAppend(prependData, slice);
      ChecksummableAppend(prependData + slice, appendData);
      Assoc(prependData, slice, appendData);
      var checksum := CalculateLRC(prependData + middleData);
      PrintString(prependData + middleData + checksum);
    }

    /** `PrintRegister0`: the control bytes 01 0A 00 00, then stream bytes 0..11. */
    method PrintRegister0()
      requires Valid()
      modifies this`log
      ensures bytestream[..] == old(bytestream[..])
      ensures log == old(log) + [RegisterLines(bytestream[..])[0]]
    {
      Row0Text();
      RegisterLineText(bytestream[..], 0, 0, 12, ":10000000010A0000", "");
      PrintRegister(":10000000010A0000", 0, 12, "");
    }

    /** `PrintRegister1`: stream bytes 12..27. */
    method PrintRegister1()
      requires Valid()
      modifies this`log
      ensures bytestream[..] == old(bytestream[..])
      ensures log == old(log) + [RegisterLines(bytestream[..])[1]]
    {
      PlainRegisterLineText(bytestream[..], 1, 12, ":10001000");
      PrintRegister(":10001000", 12, 16, "");
    }

    /** `PrintRegister2`: a fixed line of sixteen zero data bytes, whatever
        the stream holds; it is the line the table row for R2 builds. */
    method PrintRegister2()
      requires Valid()
      modifies this`log
      ensures bytestream[..] == old(bytestream[..])
      ensures log == old(log) + [RegisterLines(bytestream[..])[2]]
    {
      PrintString(":10002000" + "00000000000000000000000000000000" + "D0");
      Register2LineIsTableRow(bytestream[..]);
      RegisterLineAt(bytestream[..], 2);
    }

    /** `PrintRegister3`: twelve zero bytes, then stream bytes 28..31. */
    method PrintRegister3()
      requires Valid()
      modifies this`log
      ensures bytestream[..] == old(bytestream[..])
      ensures log == old(log) + [RegisterLines(bytestream[..])[3]]
    {
      Row3Text();
      RegisterLineText(bytestream[..], 3, 28, 4, ":10003000" + "000000000000000000000000", "");
      PrintRegister(":10003000" + "000000000000000000000000", 28, 4, "");
    }

    /** `PrintRegister4`: stream bytes 32..47. */
    method PrintRegister4()
      requires Valid()
      modifies this`log
      ensures bytestream[..] == old(bytestream[..])
      ensures log == old(log) + [RegisterLines(bytestream[..])[4]]
    {
      PlainRegisterLineText(bytestream[..], 4, 32, ":10004000");
      PrintRegister(":10004000", 32, 16, "");
    }

    /** `PrintRegister5`: stream bytes 48..63. */
    method PrintRegister5()
      requires Valid()
      modifies this`log
      ensures bytestream[..] == old(bytestream[..])
      ensures log == old(log) + [RegisterLines(bytestream[..])[5]]
    {
      PlainRegisterLineText(bytestream[..], 5, 48, ":10005000");
      PrintRegister(":10005000", 48, 16, "");
    }

    /** `PrintRegister6`: stream bytes 64..79. */
    method PrintRegister6()
      requires Valid()
      modifies this`log
      ensures bytestream[..] == old(bytestream[..])
      ensures log == old(log) + [RegisterLines(bytestream[..])[6]]
    {
      PlainRegisterLineText(bytestream[..], 6, 64, ":10006000");
      PrintRegister(":10006000", 64, 16, "");
    }

    /** `PrintRegister7`: stream bytes 80..95. */
    method PrintRegister7()
      requires Valid()
      modifies this`log
      ensures bytestream[..] == old(bytestream[..])
      ensures log == old(log) + [RegisterLines(bytestream[..])[7]]
    {
      PlainRegisterLineText(bytestream[..], 7, 80, ":10007000");
      PrintRegister(":10007000", 80, 16, "");
    }

    /** `PrintRegister8`: stream bytes 96..111. */
    method PrintRegister8()
      requires Valid()
      modifies this`log
      ensures bytestream[..] == old(bytestream[..])
      ensures log == old(log) + [RegisterLines(bytestream[..])[8]]
    {
      PlainRegisterLineText(bytestream[..], 8, 96, ":10008000");
      PrintRegister(":10008000", 96, 16, "");
    }

    /** `PrintRegister9`: stream bytes 112..127. */
    method PrintRegister9()
      requires Valid()
      modifies this`log
      ensures bytestream[..] == old(bytestream[..])
      ensures log == old(log) + [RegisterLines(bytestream[..])[9]]
    {
      PlainRegisterLineText(bytestream[..], 9, 112, ":10009000");
      PrintRegister(":10009000", 112, 16, "");
    }

    /** `PrintRegisterA`: stream bytes 128..143. */
    method PrintRegisterA()
      requires Valid()
      modifies this`log
      ensures bytestream[..] == old(bytestream[..])
      ensures log == old(log) + [RegisterLines(bytestream[..])[10]]
    {
      PlainRegisterLineText(bytestream[..], 10, 128, ":1000A000");
      PrintRegister(":1000A000", 128, 16, "");
    }

    /** `PrintRegisterB`: stream bytes 144..159. */
    method PrintRegisterB()
      requires Valid()
      modifies this`log
      ensures bytestream[..] == old(bytestream[..])
      ensures log == old(log) + [RegisterLines(bytestream[..])[11]]
    {
      PlainRegisterLineText(bytestream[..], 11, 144, ":1000B000");
      PrintRegister(":1000B000", 144, 16, "");
    }

    /** `PrintRegisterC`: stream bytes 160..175. */
    method PrintRegisterC()
      requires Valid()
      modifies this`log
      ensures bytestream[..] == old(bytestream[..])
      ensures log == old(log) + [RegisterLines(bytestream[..])[12]]
    {
      PlainRegisterLineText(bytestream[..], 12, 160, ":1000C000");
      PrintRegister(":1000C000", 160, 16, "");
    }

    /** `PrintRegisterD`: stream bytes 176..191. */
    method PrintRegisterD()
      requires Valid()
      modifies this`log
      ensures bytestream[..] == old(bytestream[..])
      ensures log == old(log) + [RegisterLines(bytestream[..])[13]]
    {
      PlainRegisterLineText(bytestream[..], 13, 176, ":1000D000");
      PrintRegister(":1000D000", 176, 16, "");
    }

    /** `PrintRegisterE`: stream bytes 192..195, then twelve zero bytes appended to `middleData`. */
    method PrintRegisterE()
      requires Valid()
      modifies this`log
      ensures bytestream[..] == old(bytestream[..])
      ensures log == old(log) + [RegisterLines(bytestream[..])[14]]
    {
      Row14Head();
      Row14Trail();
      RegisterLineText(bytestream[..], 14, 192, 4, ":1000E000", "000000000000000000000000");
      PrintRegister(":1000E000", 192, 4, "000000000000000000000000");
    }

    /** `UpdateSign`: packs the image into the stream, then sends the
        begin-image line, registers R0 .. RE in order and the five commit
        lines. The image is unchanged and the stream afterwards is the
        packed image. The delay at the end is not modelled. */
    method UpdateSign()
      requires Valid()
      modifies bytestream, this`log
      ensures Grid() == old(Grid())
      ensures bytestream[..] == Pack(Grid())
      ensures log == old(log) + UpdateLines(bytestream[..])
    {
      ConvertBitmapToBytestream();
      SendUpdate();
    }

    /** Registers R0 .. R4, in order. */
    method SendRegisters0To4()
      requires Valid()
      modifies this`log
      ensures bytestream[..] == old(bytestream[..])
      ensures log == old(log) + RegisterLines(bytestream[..])[..5]
    {
      ghost var r := RegisterLines(bytestream[..]);
      PrintRegister0();
      PrintRegister1();
      PrintRegister2();
      PrintRegister3();
      PrintRegister4();
      Sent5(old(log), r[0], r[1], r[2], r[3], r[4]);
      First5(r);
    }

    /** Registers R5 .. R9, in order. */
    method SendRegisters5To9()
      requires Valid()
      modifies this`log
      ensures bytestream[..] == old(bytestream[..])
      ensures log == old(log) + RegisterLines(bytestream[..])[5 .. 10]
    {
      ghost var r := RegisterLines(bytestream[..]);
      PrintRegister5();
      PrintRegister6();
      PrintRegister7();
      PrintRegister8();
      PrintRegister9();
      Sent5(old(log), r[5], r[6], r[7], r[8], r[9]);
      Run5(r, 5);
    }

    /** Registers RA .. RE, in order. */
    method SendRegistersAToE()
      requires Valid()
      modifies this`log
      ensures bytestream[..] == old(bytestream[..])
      ensures log == old(log) + RegisterLines(bytestream[..])[10 .. 15]
    {
      ghost var r := RegisterLines(bytestream[..]);
      PrintRegisterA();
      PrintRegisterB();
      PrintRegisterC();
      PrintRegisterD();
      PrintRegisterE();
      Sent5(old(log), r[10], r[11], r[12], r[13], r[14]);
      Run5(r, 10);
    }

    /** The sending half of `UpdateSign`, after the stream is packed: the
        begin-image line, R0 .. RE, and the commit lines. */
    method SendUpdate()
      requires Valid()
      modifies this`log
      ensures log == old(log) + UpdateLines(bytestream[..])
    {
      SentInRuns(log, BeginImage, RegisterLines(bytestream[..]), CommitLines);
      PrintString(":01000603A254");
      SendRegisters0To4();
      SendRegisters5To9();
      SendRegistersAToE();
      PrintString(":00000F01F0");
      PrintString(":0100060200F7");
      PrintString(":0100060600F3");
      PrintString(":0100060200F7");
      PrintString(":01000603A94D");
    }

    /** `InitSign`: the six fixed lines that put the sign, hard-wired to
        address 6, into its ready state. */
    method InitSign()
      modifies this`log
      ensures log == old(log) + InitLines
    {
      PrintString(":01000502FFF9");
      PrintString(":01000602FFF8");
      PrintString(":01000603A155");
      PrintString(":10000000" + "0447000F10" + "1C1C1C1C10" + "000000000000" + "06");
      PrintString(":00000101FE");
      PrintString(":0100060200F7");
    }

    /** `CloseSign`: the five fixed lines that make the sign flip every dot
        off and shut down. */
    method CloseSign()
      modifies this`log
      ensures log == old(log) + CloseLines
    {
      PrintString(":01000603A94D");
      PrintString(":01000603AA4C");
      PrintString(":01007F02FF7F");
      PrintString(":0100060255A2");
      PrintString(":01000603A650");
    }
  }
}
