/** Keys, entries and their order (db/dbformat.h, db/dbformat.cc). */
module DbFormat {

  type Byte = b: int | 0 <= b < 256
  type Bytes = seq<Byte>

  /** User keys are only ever compared.  Byte strings are countable, so every total order a
      user comparator can define embeds in the reals; module InternalKeys gives the embedding
      for the default comparator. */
  type UserKey = real

  const NUM_LEVELS := 7
  const MAX_MEM_COMPACT_LEVEL := 2
  const MAX_SEQUENCE: nat := 0xFF_FFFF_FFFF_FFFF

  datatype Option<+T> = None | Some(value: T) {
    function GetOr(default: T): T {
      if None? then default else value
    }
  }

  /** What one write does to its key: the value type byte together with the value. */
  datatype Op = Put(value: Bytes) | Del

  datatype Entry = Entry(user: UserKey, num: nat, op: Op)

  /** An internal key: user key plus the packed 64-bit number (sequence << 8) | type. */
  datatype InternalKey = InternalKey(user: UserKey, tag: nat)

  function TypeCode(op: Op): nat {
    if op.Put? then 1 else 0
  }

  function PackSequenceAndType(num: nat, code: nat): nat {
    num * 256 + code
  }

  function KeyOf(e: Entry): InternalKey {
    InternalKey(e.user, PackSequenceAndType(e.num, TypeCode(e.op)))
  }

  /** The key to seek to for reading k at sequence s; kValueTypeForSeek is the Put code. */
  function SeekKey(k: UserKey, s: nat): InternalKey {
    InternalKey(k, PackSequenceAndType(s, 1))
  }

  const MAX_TAG: nat := PackSequenceAndType(MAX_SEQUENCE, 1)

  /** InternalKeyComparator: increasing user key, then decreasing packed number. */
  predicate Less(a: InternalKey, b: InternalKey) {
    a.user < b.user || (a.user == b.user && a.tag > b.tag)
  }

  /** A write group: consecutive sequence numbers starting at first. */
  datatype Batch = Batch(first: nat, ops: seq<(UserKey, Op)>)

  function BatchEntry(b: Batch, i: nat): Entry
    requires i < |b.ops|
  {
    Entry(b.ops[i].0, b.first + i, b.ops[i].1)
  }
}
