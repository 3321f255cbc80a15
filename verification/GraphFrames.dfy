/** Which bytes are a block, coldfmt/block.go: exactly those that frame what they decode to. */
module GraphFrames {
  import opened Bytes
  import opened Format
  import opened GraphBlocks

  /** Raw and stored length, compression, three spare bytes, the payload, and the checksum of all that. */
  ghost predicate IsFrame(b: seq<byte>, raw: seq<byte>, z: Zstd, crc: Checksum) {
    && |b| >= 16 && |raw| <= 0x4000_0000
    && var payload := b[12..|b| - 4];
       && |payload| < 0x1_0000_0000 && b[..4] == LE(4, |raw|) && b[4..8] == LE(4, |payload|)
       && b[|b| - 4..] == LE(4, crc(b[..|b| - 4]))
       && (|| (b[8] == 0 && payload == raw)
           || ((b[8] == 1 || b[8] == 2) && z.decode(payload) == Some(raw)))
  }

  lemma FieldIs(bs: seq<byte>, v: nat)
    requires |bs| == 4 && v < 0x1_0000_0000
    ensures FromLE(bs) == v <==> bs == LE(4, v)
  {
    Widths();
    NumDigits(0x100, 4, v);
    TimesLaws(0, Pow(0x100, 4), 0);
    DigitsNum(0x100, bs, 0);
  }

  lemma FieldFits(bs: seq<byte>)
    requires |bs| == 4
    ensures FromLE(bs) < 0x1_0000_0000
  {
    Widths();
    FromLEBound(bs);
  }

  lemma FrameLaw(b: seq<byte>, raw: seq<byte>, z: Zstd, crc: Checksum)
    ensures Deframed(b, z, crc) == Ok(raw) <==> IsFrame(b, raw, z, crc)
  {
    hide LE, FromLE;
    if |b| >= 16 {
      FieldIs(b[|b| - 4..], crc(b[..|b| - 4]));
      FieldFits(b[4..8]);
      if |raw| <= 0x4000_0000 {
        FieldIs(b[..4], |raw|);
      }
      if |b| - 16 < 0x1_0000_0000 {
        FieldIs(b[4..8], |b| - 16);
      }
    }
  }

  /** A block that is written is such a frame, compressed exactly when that makes it shorter. */
  lemma WrittenFrame(raw: seq<byte>, z: Zstd, crc: Checksum)
    requires Inverse(z) && |raw| <= 0x4000_0000
    ensures IsFrame(Framed(raw, z, crc), raw, z, crc)
    ensures if |z.encode(raw)| < |raw| then Framed(raw, z, crc)[8] == 1 else Framed(raw, z, crc)[8] == 0
  {
    FrameRoundTrip(raw, z, crc);
    FrameLaw(Framed(raw, z, crc), raw, z, crc);
    hide IsFrame, LE, Inverse;
    var (comp, payload) := Payload(raw, z);
    var sum := LE(4, crc(FrameHead(|raw|, comp, payload) + payload));
    FrameSlices(LE(4, |raw| % 0x1_0000_0000), LE(4, |payload| % 0x1_0000_0000), comp, payload, sum);
  }
}
