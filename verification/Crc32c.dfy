/** The checksum of log records and blocks (util/crc32c.h, util/crc32c.cc).  The lookup table is a
    parameter: what matters is that extending a checksum is checksumming the longer string, and
    that masking can be undone. */
module Crc32c {
  import opened DbFormat
  import opened Coding

  type Word = w: nat | w < 0x1_0000_0000

  /** One byte of the table-driven update. */
  type Step = (Word, Byte) -> Word

  const MASK_DELTA: nat := 0xa282ead8

  function Flip(c: Word): Word {
    0xffff_ffff - c
  }

  function Update(step: Step, c: Word, data: Bytes): Word
    decreases data
  {
    if data == [] then c else Update(step, step(c, data[0]), data[1..])
  }

  function Extend(step: Step, c: Word, data: Bytes): Word {
    Flip(Update(step, Flip(c), data))
  }

  function Value(step: Step, data: Bytes): Word {
    Extend(step, 0, data)
  }

  lemma {:induction false} UpdateConcat(step: Step, c: Word, a: Bytes, b: Bytes)
    ensures Update(step, c, a + b) == Update(step, Update(step, c, a), b)
    decreases a
  {
    if a == [] {
      assert a + b == b;
    } else {
      UpdateConcat(step, step(c, a[0]), a[1..], b);
      assert (a + b)[1..] == a[1..] + b;
    }
  }

  /** The writer extends the checksum of the type byte; the reader checksums type and payload. */
  lemma ExtendIsValue(step: Step, a: Bytes, b: Bytes)
    ensures Extend(step, Value(step, a), b) == Value(step, a + b)
  {
    UpdateConcat(step, Flip(0), a, b);
  }

  /** Rotation right by 15 bits, plus a constant, modulo 2^32. */
  function Mask(c: Word): Word {
    (c / 0x8000 + (c % 0x8000) * 0x2_0000 + MASK_DELTA) % WORD32
  }

  function Unmask(m: Word): Word {
    var rot := (m + WORD32 - MASK_DELTA) % WORD32;
    rot / 0x2_0000 + (rot % 0x2_0000) * 0x8000
  }

  lemma SubtractDelta(rot: Word)
    ensures ((rot + MASK_DELTA) % WORD32 + WORD32 - MASK_DELTA) % WORD32 == rot
  {
    if rot + MASK_DELTA < WORD32 {
      assert (rot + MASK_DELTA) % WORD32 == rot + MASK_DELTA;
    } else {
      assert (rot + MASK_DELTA) % WORD32 == rot + MASK_DELTA - WORD32;
    }
  }

  lemma UnmaskMask(c: Word)
    ensures Unmask(Mask(c)) == c
  {
    var hi, lo := c / 0x8000, c % 0x8000;
    var rot := hi + lo * 0x2_0000;
    SubtractDelta(rot);
    assert rot / 0x2_0000 == lo && rot % 0x2_0000 == hi;
  }
}
