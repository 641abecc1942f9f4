/** How the editions store link counts.  No operation tests for the largest: a count that is
    raised past it reads back as another. */
module LinkWidth {

  /** V1 and V6 keep a count in a byte, the other editions in a 16-bit word; in core it is a
      signed 16-bit word everywhere. */
  datatype Width = Byte | Word

  function LinkMax(w: Width): int {
    match w
    case Byte => 255
    case Word => 32767
  }

  function LinkMin(w: Width): int {
    match w
    case Byte => 0
    case Word => -32768
  }

  /** An in-core count: 16 bits, signed. */
  function Int16(k: int): int {
    (k + 32768) % 65536 - 32768
  }

  /** What a count reads back as once it is written. */
  function LinkOf(w: Width, k: int): int {
    match w
    case Byte => k % 256
    case Word => Int16(k)
  }

  lemma LinkRange(w: Width, k: int)
    ensures LinkMin(w) <= LinkOf(w, k) <= LinkMax(w)
  {
  }

  /** A count reads back as itself exactly if it is in range. */
  lemma LinkSame(w: Width, k: int)
    ensures LinkOf(w, k) == k <==> LinkMin(w) <= k <= LinkMax(w)
    ensures LinkMin(w) <= k <= LinkMax(w) ==> Int16(k) == k
  {
  }

  /** One more than the largest count reads back as the smallest; lowered again in core, that is
      the largest in a word, and below 0 in a byte. */
  lemma LinkPast(w: Width)
    ensures LinkOf(w, LinkMax(w) + 1) == LinkMin(w)
    ensures Int16(LinkMin(w) - 1) == if w.Byte? then -1 else LinkMax(w)
  {
  }

  /** A count raised, stored, and lowered again in core: it comes back, unless it was the largest
      of a byte. */
  lemma UpDown(w: Width, k: int)
    requires 1 <= k <= LinkMax(w)
    ensures w.Word? || k < LinkMax(w) ==> Int16(LinkOf(w, k + 1) - 1) == k && LinkOf(w, k) == k
    ensures w.Byte? && k == LinkMax(w) ==> Int16(LinkOf(w, k + 1) - 1) == -1
  {
  }
}
