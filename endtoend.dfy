/** The sign's two-corner test image followed through the whole update
    path: the dots (0, 0) and (97, 15) are packed into the stream, and the
    stream is cut into the register lines `UpdateSign` sends. */
module EndToEnd {
  import opened Checksum
  import opened Image
  import opened Packing
  import opened Protocol

  /** Register 0 of the two-corner image carries the dot at (0, 0) as 0x01
      after its control bytes, zeros after it, and ends in its LRC. */
  lemma CornersRegister0()
    ensures var l := RegisterLines(Pack(Corners))[0];
      HasValidLrc(l) && |Payload(l)| == 21
      && Payload(l)[..4] == [0x10, 0x00, 0x00, 0x00]
      && Payload(l)[4..8] == [0x01, 0x0A, 0x00, 0x00]
      && Payload(l)[8] == 0x01
      && forall i :: 9 <= i < 20 ==> Payload(l)[i] == 0
  {
    CornersFirstColumn();
    CornersLeaveMiddleDark();
    Register0Of(Pack(Corners));
  }

  /** Register RE of the two-corner image carries the dot at (97, 15) as
      0x80 in its fourth data byte, the last stream byte; its other data
      bytes are zero, and it ends in its LRC. */
  lemma CornersRegister14()
    ensures var l := RegisterLines(Pack(Corners))[14];
      HasValidLrc(l) && |Payload(l)| == 21
      && Payload(l)[..4] == [0x10, 0x00, 0xE0, 0x00]
      && Payload(l)[7] == 0x80
      && forall i :: 4 <= i < 20 && i != 7 ==> Payload(l)[i] == 0
  {
    CornersLastColumn();
    assert Corners[96] == DarkColumn;
    DarkColumnPacksToZero(Corners, 96);
    Register14Of(Pack(Corners));
  }
}
