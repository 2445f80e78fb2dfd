/** The circular field iterator and the bit mask of required fields
    (pb_common.c; pb_decode.c:936, 1021-1026, 1039-1079). */
module NanopbFields {
  import opened DbFormat
  import opened Nanopb

  // ---- Iterator ----

  /** Walks a field table round and round; required counts the required fields before pos. */
  class FieldIter {
    const fields: seq<Field>
    var pos: nat
    var required: nat

    ghost predicate Valid()
      reads this
    {
      pos < |fields| && required == RequiredBefore(fields, pos)
    }

    /** pb_field_iter_begin on a message type that has fields. */
    constructor (fields: seq<Field>)
      requires fields != []
      ensures Valid() && pos == 0 && this.fields == fields
    {
      this.fields, pos, required := fields, 0, 0;
    }

    /** pb_field_iter_next: false when it wraps round to the first field. */
    method Next() returns (more: bool)
      requires Valid()
      modifies this
      ensures Valid() && more == (old(pos) + 1 < |fields|) && pos == if more then old(pos) + 1 else 0
    {
      if pos + 1 == |fields| {
        pos, required := 0, 0;
        return false;
      }
      if fields[pos].htype.Required? {
        required := required + 1;
      }
      pos := pos + 1;
      more := true;
    }

    /** pb_field_iter_find: from the current field on, at most once round. */
    method Find(tag: nat) returns (found: bool)
      requires Valid() && ValidFields(fields)
      modifies this
      ensures Valid() && found == FindTag(fields, tag, |fields|).Some?
      ensures found ==> FindTag(fields, tag, |fields|) == Some(pos)
      ensures !found ==> pos == old(pos)
    {
      var start := pos;
      ghost var wrapped := false;
      while true
        invariant Valid()
        invariant if wrapped then pos < start else start <= pos
        invariant forall i :: start <= i < (if wrapped then |fields| else pos) ==> fields[i].tag != tag
        invariant wrapped ==> forall i :: 0 <= i < pos ==> fields[i].tag != tag
        decreases if wrapped then start - pos else start + |fields| - pos
      {
        if fields[pos].tag == tag {
          OneField(fields, tag, pos);
          return true;
        }
        var more := Next();
        wrapped := wrapped || !more;
        if pos == start {
          return false;
        }
      }
    }

    /** Runs to the end of the table and counts the required fields. */
    method CountRequired() returns (count: nat)
      requires Valid()
      modifies this
      ensures Valid() && count == RequiredBefore(fields, |fields|)
    {
      var last, more := false, true;
      count := 0;
      while more
        invariant Valid()
        invariant !more ==> count + (if last then 1 else 0) == RequiredBefore(fields, |fields|)
        decreases more, |fields| - pos
      {
        count, last := required, fields[pos].htype.Required?;
        more := Next();
      }
      if last {
        count := count + 1;
      }
    }
  }

  lemma OneField(fields: seq<Field>, tag: nat, i: nat)
    requires ValidFields(fields) && i < |fields| && fields[i].tag == tag
    ensures FindTag(fields, tag, |fields|) == Some(i)
  {
  }

  // ---- Bits ----

  /** w | (1 << k) */
  function OrBit(w: nat, k: nat): nat {
    if k == 0 then w + (if w % 2 == 0 then 1 else 0) else 2 * OrBit(w / 2, k - 1) + w % 2
  }

  /** The number whose binary digits, lowest first, are the given ones. */
  function Word(bits: seq<bool>): (w: nat)
    ensures w < Pow2(|bits|)
  {
    if bits == [] then 0 else (if bits[0] then 1 else 0) + 2 * Word(bits[1..])
  }

  lemma {:induction false} OrBitSets(bits: seq<bool>, k: nat)
    requires k < |bits|
    ensures OrBit(Word(bits), k) == Word(bits[k := true])
    decreases k
  {
    if k == 0 {
      assert bits[0 := true][1..] == bits[1..];
    } else {
      OrBitSets(bits[1..], k - 1);
      assert bits[k := true][1..] == bits[1..][k - 1 := true];
    }
  }

  /** The word is 2^m - 1 exactly when the lowest m bits are set and no other. */
  lemma {:induction false} LowBits(bits: seq<bool>, m: nat)
    requires m <= |bits|
    ensures Word(bits) == Pow2(m) - 1 <==> forall i :: 0 <= i < |bits| ==> bits[i] == (i < m)
  {
    if bits != [] {
      LowBits(bits[1..], if m == 0 then 0 else m - 1);
      if Word(bits) == Pow2(m) - 1 {
        forall i | 0 <= i < |bits|
          ensures bits[i] == (i < m)
        {
          if i > 0 {
            assert bits[1..][i - 1] == bits[i];
          }
        }
      }
      if forall i :: 0 <= i < |bits| ==> bits[i] == (i < m) {
        assert forall i :: 0 <= i < |bits[1..]| ==> bits[1..][i] == bits[i + 1];
      }
    }
  }

  // ---- The mask of required fields ----

  /** fields_seen: two 32-bit words; bits are their digits. */
  class RequiredMask {
    const words: array<nat>
    ghost var bits: seq<bool>

    ghost predicate Valid()
      reads this, words
    {
      words.Length == 2 && |bits| == 64 && words[0] == Word(bits[..32]) && words[1] == Word(bits[32..])
    }

    constructor ()
      ensures Valid() && fresh(words) && forall i :: 0 <= i < 64 ==> !bits[i]
    {
      words := new nat[2](_ => 0);
      bits := NoBits(64);
      new;
      AllZero(bits[..32]);
      AllZero(bits[32..]);
    }

    /** Sets the bit of required field number index. */
    method Mark(index: nat)
      requires Valid() && index < 64
      modifies this, words
      ensures Valid() && bits == old(bits)[index := true]
    {
      var k := index % 32;
      ghost var low, high := bits[..32], bits[32..];
      if index / 32 == 0 {
        OrBitSets(low, k);
        assert bits[index := true][..32] == low[k := true] && bits[index := true][32..] == high;
      } else {
        OrBitSets(high, k);
        assert bits[index := true][..32] == low && bits[index := true][32..] == high[k := true];
      }
      words[index / 32] := OrBit(words[index / 32], k);
      bits := bits[index := true];
    }

    /** Are the lowest m bits of a word set, none above them being set? */
    function Full(i: nat, m: nat): (full: bool)
      requires Valid() && i < 2 && m <= 32 && forall j {:trigger bits[j]} :: 32 * i + m <= j < 32 * i + 32 ==> !bits[j]
      reads this, words
      ensures full == forall j :: 32 * i <= j < 32 * i + m ==> bits[j]
    {
      assert (words[i] == Pow2(m) - 1) == (forall j :: 32 * i <= j < 32 * i + m ==> bits[j]) by {
        FullMeans(i, m);
      }
      words[i] == Pow2(m) - 1
    }

    lemma FullMeans(i: nat, m: nat)
      requires Valid() && i < 2 && m <= 32 && forall j {:trigger bits[j]} :: 32 * i + m <= j < 32 * i + 32 ==> !bits[j]
      ensures words[i] == Pow2(m) - 1 <==> forall j :: 32 * i <= j < 32 * i + m ==> bits[j]
    {
      var word := if i == 0 then bits[..32] else bits[32..];
      LowBits(word, m);
      assert forall j :: 0 <= j < 32 ==> word[j] == bits[32 * i + j];
      if forall j :: 0 <= j < 32 ==> word[j] == (j < m) {
        forall j | 32 * i <= j < 32 * i + m
          ensures bits[j]
        {
          assert word[j - 32 * i] == bits[j];
        }
      }
    }

    /** The final check: whole words first, then the remaining bits. */
    method AllSet(count: nat) returns (ok: bool)
      requires Valid() && count <= 64 && (count == 0 || forall i {:trigger bits[i]} :: count <= i < 64 ==> !bits[i])
      ensures ok == forall i :: 0 <= i < count ==> bits[i]
    {
      for i := 0 to count / 32
        invariant forall j :: 0 <= j < 32 * i ==> bits[j]
      {
        if !Full(i, 32) {
          return false;
        }
      }
      var m := count % 32;
      ok := m == 0 || Full(count / 32, m);
    }
  }

  ghost function NoBits(n: nat): (b: seq<bool>)
    ensures |b| == n && forall i :: 0 <= i < n ==> !b[i]
  {
    if n == 0 then [] else [false] + NoBits(n - 1)
  }

  lemma {:induction false} AllZero(bits: seq<bool>)
    requires forall i :: 0 <= i < |bits| ==> !bits[i]
    ensures Word(bits) == 0
  {
    if bits != [] {
      AllZero(bits[1..]);
    }
  }

  // ---- What the mask says about the fields seen ----

  /** Bit number n is set just when the n-th required field was seen.  Without fields the terminator of the
      table may have been marked. */
  ghost predicate MaskMatches(fields: seq<Field>, seen: set<nat>, bits: seq<bool>) {
    && |bits| == 64
    && (forall i :: 0 <= i < |fields| && fields[i].htype.Required? && RequiredBefore(fields, i) < 64 ==>
          bits[RequiredBefore(fields, i)] == (i in seen))
    && (fields == [] || forall j :: RequiredBefore(fields, |fields|) <= j < 64 ==> !bits[j])
  }

  lemma {:induction false} RequiredIncreases(fields: seq<Field>, i: nat, j: nat)
    requires i < j <= |fields| && fields[i].htype.Required?
    ensures RequiredBefore(fields, i) < RequiredBefore(fields, j)
    decreases j
  {
    if i < j - 1 {
      RequiredIncreases(fields, i, j - 1);
    }
  }

  lemma MarkMatches(fields: seq<Field>, seen: set<nat>, bits: seq<bool>, i: nat)
    requires MaskMatches(fields, seen, bits) && i < |fields|
    ensures fields[i].htype.Required? && RequiredBefore(fields, i) < 64 ==>
              MaskMatches(fields, seen + {i}, bits[RequiredBefore(fields, i) := true])
    ensures !(fields[i].htype.Required? && RequiredBefore(fields, i) < 64) ==> MaskMatches(fields, seen + {i}, bits)
  {
    forall j | 0 <= j < |fields| && j != i && fields[j].htype.Required? && fields[i].htype.Required?
      ensures RequiredBefore(fields, j) != RequiredBefore(fields, i)
    {
      RequiredIncreases(fields, if i < j then i else j, if i < j then j else i);
    }
    if fields[i].htype.Required? {
      RequiredIncreases(fields, i, |fields|);
    }
  }

  /** The n-th required field exists. */
  lemma {:induction false} NthRequired(fields: seq<Field>, n: nat, j: nat) returns (i: nat)
    requires n <= |fields| && j < RequiredBefore(fields, n)
    ensures i < n && fields[i].htype.Required? && RequiredBefore(fields, i) == j
    decreases n
  {
    if j < RequiredBefore(fields, n - 1) {
      i := NthRequired(fields, n - 1, j);
    } else {
      i := n - 1;
    }
  }

  /** Checking the first bits is checking the first 64 required fields. */
  lemma MaskDecides(fields: seq<Field>, seen: set<nat>, bits: seq<bool>, count: nat)
    requires MaskMatches(fields, seen, bits)
    requires count == if RequiredBefore(fields, |fields|) > 64 then 64 else RequiredBefore(fields, |fields|)
    ensures (forall j :: 0 <= j < count ==> bits[j]) <==> AllRequiredSeen(fields, seen)
  {
    if AllRequiredSeen(fields, seen) {
      forall j | 0 <= j < count
        ensures bits[j]
      {
        var i := NthRequired(fields, |fields|, j);
      }
    }
    if forall j :: 0 <= j < count ==> bits[j] {
      forall i | 0 <= i < |fields| && fields[i].htype.Required? && RequiredBefore(fields, i) < MAX_REQUIRED_FIELDS
        ensures i in seen
      {
        RequiredIncreases(fields, i, |fields|);
      }
    }
  }
}
