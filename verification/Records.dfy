/** The chain's record kinds and batches, chain/records.go and chain/format.go, as values. */
module Records {
  import opened Bytes

  type u16 = x: int | 0 <= x < 0x1_0000

  datatype Member = Member(node: u64, plane: byte, incarnation: u32, endpoints: seq<seq<byte>>, version: seq<byte>)
  datatype SourceWatermark = SourceWatermark(partition: u16, seqNo: u64)
  datatype TierAssign = TierAssign(shard: u16, tier: byte)

  datatype Record =
    | MemberRec(member: Member)
    | LeaseGrant(epoch: u32, domain: byte, unit: u32, node: u64, deadlineMS: u64)
    | LeaseRelease(epoch: u32, domain: byte, unit: u32)
    | SegCommit(epoch: u32, family: byte, partition: u16, seqNo: u64, rows: u64, bytes: u64, watermark: u64)
    | ManAdvance(epoch: u32, family: byte, partition: u16, manSeq: u64)
    | GenPublish(epoch: u32, shard: u16, generation: u64, genKind: byte, watermarks: seq<SourceWatermark>)
    | GenRetire(shard: u16, generation: u64)
    | TierMap(version: u64, assign: seq<TierAssign>)
    | Ckpt(ckptSeq: u64)

  /** One chain slot's content; writer, incarnation and batchId name it. */
  datatype Batch = Batch(writer: u64, incarnation: u32, batchId: u64, records: seq<Record>)
}
