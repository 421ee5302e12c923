/** The packed image format the sign expects: column by column, two bytes per
    16-dot column; in the first byte bit k is the dot in row k, in the second
    bit k is the dot in row k + 8 (bit 0 the least significant). */
module Packing {
  import opened Geometry
  import opened Image

  /** Bit k of a byte, bit 0 the least significant. */
  function Bit(b: bv8, k: nat): bool
    requires k < 8
  {
    (b >> k) & 1 == 1
  }

  /** `bitSet(b, 0)` when `on`, else `bitClear(b, 0)`. */
  function WriteBit0(b: bv8, on: bool): (r: bv8)
    ensures Bit(r, 0) == on
    ensures forall j :: 1 <= j < 8 ==> Bit(r, j) == Bit(b, j)
  {
    if on then b | 1 else b & 0xFE
  }

  /** `b <<= 1` on a byte: every bit moves up one place, bit 7 falls off. */
  function ShiftUp(b: bv8): (r: bv8)
    ensures !Bit(r, 0)
    ensures forall j :: 1 <= j < 8 ==> Bit(r, j) == Bit(b, j - 1)
  {
    b << 1
  }

  /** Two bytes with the same eight bits are the same byte. */
  lemma BitsDetermineByte(a: bv8, b: bv8)
    requires forall k :: 0 <= k < 8 ==> Bit(a, k) == Bit(b, k)
    ensures a == b
  {
    assert Bit(a, 0) == Bit(b, 0) && Bit(a, 1) == Bit(b, 1) && Bit(a, 2) == Bit(b, 2);
    assert Bit(a, 3) == Bit(b, 3) && Bit(a, 4) == Bit(b, 4) && Bit(a, 5) == Bit(b, 5);
    assert Bit(a, 6) == Bit(b, 6) && Bit(a, 7) == Bit(b, 7);
  }

  /** The byte whose bit k is `bits[k]` (at most eight bits, the rest zero). */
  function FromBits(bits: seq<bool>): (b: bv8)
    requires |bits| <= 8
    ensures forall k :: 0 <= k < 8 ==> Bit(b, k) == (k < |bits| && bits[k])
  {
    if bits == [] then 0 else WriteBit0(ShiftUp(FromBits(bits[1..])), bits[0])
  }

  /** The packed stream of an image: byte 2x holds rows 0..7 of column x and
      byte 2x+1 rows 8..15. */
  function Pack(grid: seq<Column>): (s: seq<bv8>)
    requires IsImage(grid)
    ensures |s| == ByteStreamSize
    ensures forall x, y :: 0 <= x < XSize && 0 <= y < 8 ==> Bit(s[2 * x], y) == grid[x][y]
    ensures forall x, y :: 0 <= x < XSize && 8 <= y < YSize ==> Bit(s[2 * x + 1], y - 8) == grid[x][y]
  {
    var s := seq(ByteStreamSize, i requires 0 <= i < ByteStreamSize =>
               FromBits(grid[i / 2][8 * (i % 2) .. 8 * (i % 2) + 8]));
    PackedColumns(grid, s);
    s
  }

  lemma PackedColumns(grid: seq<Column>, s: seq<bv8>)
    requires IsImage(grid) && |s| == ByteStreamSize
    requires forall i :: 0 <= i < ByteStreamSize ==> s[i] == FromBits(grid[i / 2][8 * (i % 2) .. 8 * (i % 2) + 8])
    ensures forall x :: 0 <= x < XSize ==> s[2 * x] == FromBits(grid[x][..8]) && s[2 * x + 1] == FromBits(grid[x][8..])
  {
    forall x | 0 <= x < XSize ensures s[2 * x] == FromBits(grid[x][..8]) && s[2 * x + 1] == FromBits(grid[x][8..]) {
      assert (2 * x) / 2 == x && (2 * x) % 2 == 0;
      assert (2 * x + 1) / 2 == x && (2 * x + 1) % 2 == 1;
      assert grid[x][8..16] == grid[x][8..];
    }
  }

  /** The two bytes of column x are the rows 0..7 and 8..15 of that column,
      read as bits from the least significant up. */
  lemma PackColumn(grid: seq<Column>, x: nat)
    requires IsImage(grid) && x < XSize
    ensures Pack(grid)[2 * x] == FromBits(grid[x][..8])
    ensures Pack(grid)[2 * x + 1] == FromBits(grid[x][8..])
  {
    var s := Pack(grid);
    forall k | 0 <= k < 8 ensures Bit(s[2 * x], k) == Bit(FromBits(grid[x][..8]), k)
      && Bit(s[2 * x + 1], k) == Bit(FromBits(grid[x][8..]), k)
    {
      assert grid[x][8..][k] == grid[x][k + 8];
    }
    BitsDetermineByte(s[2 * x], FromBits(grid[x][..8]));
    BitsDetermineByte(s[2 * x + 1], FromBits(grid[x][8..]));
  }

  /** The bit-level layout determines the stream: any 196 bytes whose bits
      hold the image's dots in the packed layout are its packed stream. */
  lemma PackUnique(grid: seq<Column>, s: seq<bv8>)
    requires IsImage(grid) && |s| == ByteStreamSize
    requires forall x, y :: 0 <= x < XSize && 0 <= y < 8 ==> Bit(s[2 * x], y) == grid[x][y]
    requires forall x, y :: 0 <= x < XSize && 8 <= y < YSize ==> Bit(s[2 * x + 1], y - 8) == grid[x][y]
    ensures s == Pack(grid)
  {
    var p := Pack(grid);
    forall i | 0 <= i < ByteStreamSize ensures s[i] == p[i] {
      var x := i / 2;
      if i % 2 == 0 {
        assert i == 2 * x;
        forall k | 0 <= k < 8 ensures Bit(s[i], k) == Bit(p[i], k) {
          assert Bit(s[2 * x], k) == grid[x][k];
        }
      } else {
        assert i == 2 * x + 1;
        forall k | 0 <= k < 8 ensures Bit(s[i], k) == Bit(p[i], k) {
          assert Bit(s[2 * x + 1], k + 8 - 8) == grid[x][k + 8];
        }
      }
      BitsDetermineByte(s[i], p[i]);
    }
  }

  /** A dot in column x lands in byte 2x or 2x+1 and nowhere else: packing an
      image that differs from another only in column x changes no other byte. */
  lemma PackIsPerColumn(g: seq<Column>, h: seq<Column>, x: nat)
    requires IsImage(g) && IsImage(h) && x < XSize
    requires forall x' :: 0 <= x' < XSize && x' != x ==> g[x'] == h[x']
    ensures forall x' :: 0 <= x' < XSize && x' != x ==>
      Pack(g)[2 * x'] == Pack(h)[2 * x'] && Pack(g)[2 * x' + 1] == Pack(h)[2 * x' + 1]
  {
    forall x' | 0 <= x' < XSize && x' != x
      ensures Pack(g)[2 * x'] == Pack(h)[2 * x'] && Pack(g)[2 * x' + 1] == Pack(h)[2 * x' + 1]
    {
      PackColumn(g, x');
      PackColumn(h, x');
    }
  }

  /** A single dot at (0, 0) gives the byte pair (0x01, 0x00) for column 0. */
  lemma BottomLeftDot()
    ensures var s := Pack(WithDot(Blank, 0, 0, true)); s[0] == 0x01 && s[1] == 0x00
  {
    var g := WithDot(Blank, 0, 0, true);
    PackColumn(g, 0);
    assert g[0] == DarkColumn[0 := true];
    assert g[0][..8] == [true, false, false, false, false, false, false, false];
    assert g[0][8..] == Dark8;
  }

  /** A single dot at (0, 15) gives the byte pair (0x00, 0x80) for column 0. */
  lemma TopLeftDot()
    ensures var s := Pack(WithDot(Blank, 0, 15, true)); s[0] == 0x00 && s[1] == 0x80
  {
    var g := WithDot(Blank, 0, 15, true);
    PackColumn(g, 0);
    assert g[0] == DarkColumn[15 := true];
    assert g[0][..8] == Dark8;
    assert g[0][8..] == [false, false, false, false, false, false, false, true];
  }

  /** The image with dots at (0, 0) and (97, 15) only. */
  const Corners: seq<Column> := WithDot(WithDot(Blank, 0, 0, true), XSize - 1, YSize - 1, true)

  /** Opposite corners of the image: (0, 0) lights bit 0 of the first byte. */
  lemma CornersFirstColumn()
    ensures Pack(Corners)[0] == 0x01 && Pack(Corners)[1] == 0
  {
    var g := Corners;
    assert g[0] == DarkColumn[0 := true];
    PackColumn(g, 0);
    assert g[0][..8] == [true, false, false, false, false, false, false, false];
    assert g[0][8..] == Dark8;
  }

  /** Opposite corners of the image: (97, 15) lights bit 7 of the last byte. */
  lemma CornersLastColumn()
    ensures Pack(Corners)[ByteStreamSize - 2] == 0 && Pack(Corners)[ByteStreamSize - 1] == 0x80
  {
    var g := Corners;
    assert g[XSize - 1] == DarkColumn[15 := true];
    PackColumn(g, XSize - 1);
    assert g[XSize - 1][..8] == Dark8;
    assert g[XSize - 1][8..] == [false, false, false, false, false, false, false, true];
  }

  /** A column with every dot off packs to two zero bytes. */
  lemma DarkColumnPacksToZero(grid: seq<Column>, x: nat)
    requires IsImage(grid) && x < XSize && grid[x] == DarkColumn
    ensures Pack(grid)[2 * x] == 0 && Pack(grid)[2 * x + 1] == 0
  {
    PackColumn(grid, x);
    assert DarkColumn[..8] == Dark8 && DarkColumn[8..] == Dark8;
  }

  /** With only the two corner dots on, every column strictly between them
      packs to two zero bytes. */
  lemma CornersLeaveMiddleDark()
    ensures forall x :: 1 <= x < XSize - 1 ==> Pack(Corners)[2 * x] == 0 && Pack(Corners)[2 * x + 1] == 0
  {
    forall x | 1 <= x < XSize - 1 ensures Pack(Corners)[2 * x] == 0 && Pack(Corners)[2 * x + 1] == 0 {
      assert Corners[x] == DarkColumn;
      DarkColumnPacksToZero(Corners, x);
    }
  }
}
