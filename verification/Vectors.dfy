/**
 The committed known answers that every implementation of the wire formats shares,
 for the model's own encoders and decoders.
 */
module Vectors {
  import opened Common
  import opened Cbor
  import opened Text
  import opened Token
  import Line
  import SeFrame

  const DEVICE_ID: Id16 := [0, 1, 2, 3, 4, 5, 6, 7, 8, 9, 10, 11, 12, 13, 14, 15]

  const NONCE: Id16 :=
    [0xa0, 0xa1, 0xa2, 0xa3, 0xa4, 0xa5, 0xa6, 0xa7, 0xa8, 0xa9, 0xaa, 0xab, 0xac, 0xad, 0xae, 0xaf]

  // ---------------------------------------------------------------------------
  // Token payloads
  // ---------------------------------------------------------------------------

  /** What the capability vectors have in common: all but the sequence number. */
  const CAP_FRONT: bytes :=
    [0xa6, 0x00, 0x01, 0x01, 0x50] + DEVICE_ID + [0x02, 0x50] + NONCE
    + [0x03, 0x01] + [0x04, 0x19, 0x03, 0x84]

  lemma CapabilityVectors()
    ensures CapPayload(Capability(1, DEVICE_ID, NONCE, 1, 900, 7)) == CAP_FRONT + [0x05, 0x07]
    ensures CapPayload(Capability(1, DEVICE_ID, NONCE, 1, 900, 4242)) == CAP_FRONT + [0x05, 0x19, 0x10, 0x92]
    ensures CapPayload(Capability(1, DEVICE_ID, NONCE, 1, 900, 72623859790382856))
         == CAP_FRONT + [0x05, 0x1b, 0x01, 0x02, 0x03, 0x04, 0x05, 0x06, 0x07, 0x08]
  {
    hide CapPayload, Head;
    HeadBytes(1);
    HeadBytes(900);
    SequenceVectors();
    CapLayout(Capability(1, DEVICE_ID, NONCE, 1, 900, 7));
    CapLayout(Capability(1, DEVICE_ID, NONCE, 1, 900, 4242));
    CapLayout(Capability(1, DEVICE_ID, NONCE, 1, 900, 72623859790382856));
  }

  const RVK_FRONT: bytes := [0xa4, 0x00, 0x01, 0x01, 0x50] + DEVICE_ID + [0x02, 0x50] + NONCE

  lemma RevocationVectors()
    ensures RvkPayload(Revocation(1, DEVICE_ID, NONCE, 7)) == RVK_FRONT + [0x03, 0x07]
    ensures RvkPayload(Revocation(1, DEVICE_ID, NONCE, 4242)) == RVK_FRONT + [0x03, 0x19, 0x10, 0x92]
    ensures RvkPayload(Revocation(1, DEVICE_ID, NONCE, 72623859790382856))
         == RVK_FRONT + [0x03, 0x1b, 0x01, 0x02, 0x03, 0x04, 0x05, 0x06, 0x07, 0x08]
  {
    hide RvkPayload, Head;
    SequenceVectors();
    RvkLayout(Revocation(1, DEVICE_ID, NONCE, 7));
    RvkLayout(Revocation(1, DEVICE_ID, NONCE, 4242));
    RvkLayout(Revocation(1, DEVICE_ID, NONCE, 72623859790382856));
  }

  lemma SequenceVectors()
    ensures Head(MAJOR_UINT, 7) == [0x07] && Head(MAJOR_UINT, 4242) == [0x19, 0x10, 0x92]
    ensures Head(MAJOR_UINT, 72623859790382856) == [0x1b, 0x01, 0x02, 0x03, 0x04, 0x05, 0x06, 0x07, 0x08]
  {
    hide Head;
    HeadBytes(7);
    HeadBytes(4242);
    HeadBytes(72623859790382856);
    assert 72623859790382856 / U32_LIMIT == 0x01020304 && 72623859790382856 % U32_LIMIT == 0x05060708;
  }

  // ---------------------------------------------------------------------------
  // Secure-element frames
  // ---------------------------------------------------------------------------

  /** The wake response of the part's data sheet, and its checksum. */
  lemma WakeVector()
    ensures SeFrame.Crc([0x04, 0x11]) == 0x4333
    ensures SeFrame.Parse([0x04, 0x11, 0x33, 0x43]) == Some([0x11])
  {
    hide SeFrame.Crc;
    SeFrame.CrcNext([], 0x04);
    SeFrame.CrcNext([0x04], 0x11);
    assert [] + [0x04] == [0x04 as bv8] && [0x04] + [0x11] == [0x04 as bv8, 0x11];
    SeFrame.CrcOfNothing();
    var frame: SeFrame.octets := [0x04, 0x11, 0x33, 0x43];
    assert frame[..2] == [0x04, 0x11] && frame[1..2] == [0x11];
    FourIsFour();
  }

  /** The frame that asks the part for its revision. */
  lemma InfoVector()
    ensures SeFrame.Frame(0x30, 0x00, 0x0000, []) == [0x07, 0x30, 0x00, 0x00, 0x00, 0x03, 0x5d]
  {
    hide SeFrame.Crc, SeFrame.Octet;
    InfoChecksum();
    SevenIsSeven();
    assert SeFrame.FrameHead(0x07, 0x30, 0x00, 0x0000) + [] == [0x07, 0x30, 0x00, 0x00, 0x00];
  }

  lemma InfoChecksum()
    ensures SeFrame.Crc([0x07, 0x30, 0x00, 0x00, 0x00]) == 0x5d03
  {
    hide SeFrame.Crc;
    SeFrame.CrcOfNothing();
    SeFrame.CrcNext([], 0x07);
    assert [] + [0x07] == [0x07 as bv8];
    SeFrame.CrcNext([0x07], 0x30);
    assert [0x07] + [0x30] == [0x07 as bv8, 0x30];
    SeFrame.CrcNext([0x07, 0x30], 0x00);
    assert [0x07, 0x30] + [0x00] == [0x07 as bv8, 0x30, 0x00];
    SeFrame.CrcNext([0x07, 0x30, 0x00], 0x00);
    assert [0x07, 0x30, 0x00] + [0x00] == [0x07 as bv8, 0x30, 0x00, 0x00];
    SeFrame.CrcNext([0x07, 0x30, 0x00, 0x00], 0x00);
    assert [0x07, 0x30, 0x00, 0x00] + [0x00] == [0x07 as bv8, 0x30, 0x00, 0x00, 0x00];
  }

  lemma SevenIsSeven()
    ensures SeFrame.Octet(7) == 0x07
  {
    assert SeFrame.Octet(1) == 1 && SeFrame.Octet(2) == 2 && SeFrame.Octet(3) == 3;
    assert SeFrame.Octet(4) == 4 && SeFrame.Octet(5) == 5 && SeFrame.Octet(6) == 6;
  }

  lemma FourIsFour()
    ensures 0x04 as bv8 as int == 4
  {
  }

  // ---------------------------------------------------------------------------
  // Lines
  // ---------------------------------------------------------------------------

  lemma HexVector()
    ensures Hex([0x09, 0xa0, 0xf1]) == "09a0f1"
  {
    hide Hex;
    HexNothing();
    HexNext([], 0x09);
    HexNext([0x09], 0xa0);
    HexNext([0x09, 0xa0], 0xf1);
    assert [] + [0x09] == [0x09] && [0x09] + [0xa0] == [0x09, 0xa0] && [0x09, 0xa0] + [0xf1] == [0x09, 0xa0, 0xf1];
  }

  lemma DecimalVectors()
    ensures Decimal(7) == "7" && Decimal(42) == "42" && Decimal(900) == "900" && Decimal(887) == "887"
  {
    assert Decimal(90) == Decimal(9) + "0" && Decimal(88) == Decimal(8) + "8";
  }

  /** The pinned lines of the dialect, for every nonce. */
  lemma CommandVectors(token: string)
    ensures Line.CommandText(Line.Token(token)) == ['T', 'O', 'K', ' '] + token
    ensures Line.CommandText(Line.Revoke(token)) == ['R', 'V', 'K', ' '] + token
    ensures Line.CommandText(Line.Status) == ['S', 'T', 'A', 'T']
  {
  }

  lemma AckVector(nonce: Id16)
    ensures Line.ReplyText(Line.AckOpen(nonce, 900)) == "ACK " + Hex(nonce) + " " + "900"
  {
    hide Hex, Decimal;
    DecimalVectors();
  }

  lemma OpenStateVector(nonce: Id16)
    ensures Line.ReplyText(
              Line.State(Line.Report(Some((nonce, 887)), 42, Some(true), Some(Line.Energized), None)))
         == "STATE " + JoinWords(["open", Hex(nonce), "887", "seq=42", "load=on", "fail=energized"])
  {
    hide Hex, Decimal, JoinWords;
    DecimalVectors();
    var report := Line.Report(Some((nonce, 887)), 42, Some(true), Some(Line.Energized), None);
    assert "seq=" + "42" == "seq=42";
    assert Line.OpenWords(report) + Line.Trailers(report)
        == ["open", Hex(nonce), "887", "seq=42", "load=on", "fail=energized"];
  }

  lemma ClosedStateVector()
    ensures Line.ReplyText(Line.State(Line.Report(None, 7, None, None, Some(Line.Boot))))
         == "STATE " + JoinWords(["closed", "seq=7", "reason=boot"])
  {
    hide Decimal, JoinWords;
    DecimalVectors();
    var report := Line.Report(None, 7, None, None, Some(Line.Boot));
    assert "seq=" + "7" == "seq=7";
    assert Line.OpenWords(report) + Line.Trailers(report) == ["closed", "seq=7", "reason=boot"];
  }

  lemma WordVectors()
    ensures Line.LoadWord(false) == "load=off" && Line.FailWord(Line.DeEnergized) == "fail=de-energized"
    ensures Line.ReasonWord(Line.Revert) == "reason=revert" && Line.ReasonWord(Line.Expiry) == "reason=expiry"
  {
  }
}
