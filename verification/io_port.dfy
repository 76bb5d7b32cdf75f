/** What every I/O-port device shares: the three access widths of the
    `ioPortRead*` and `ioPortWrite*` methods. */
module IoPort {

  /** Access widths of the port methods. */
  datatype Width = Byte | Word | Long

  /** All ones of an access width: what a read returns when nothing
      answers, and the mask that narrows a value to the width. A byte read
      floats to 0xff, a word read to 0xffff and a dword read to 0xffffffff;
      in each case the set bits are one run starting at bit 0. */
  function Ones(w: Width): (m: bv32)
    ensures w == Byte <==> m == 0xff
    ensures w == Word <==> m == 0xffff
    ensures w == Long <==> m == 0xffff_ffff
    ensures m & (m + 1) == 0 && m != 0
  {
    match w
    case Byte => 0xff
    case Word => 0xffff
    case Long => 0xffff_ffff
  }

  /** Masking with the ones of a width keeps a value exactly when it fits
      the width, and what it keeps always fits. */
  lemma OnesMaskFits(w: Width, v: bv32)
    ensures w == Byte ==> (v & Ones(w) == v <==> v >> 8 == 0) && (v & Ones(w)) >> 8 == 0
    ensures w == Word ==> (v & Ones(w) == v <==> v >> 16 == 0) && (v & Ones(w)) >> 16 == 0
    ensures w == Long ==> v & Ones(w) == v
  {
    ByteMask(w, v);
    WordMask(w, v);
  }

  lemma ByteMask(w: Width, v: bv32)
    ensures w == Byte ==> (v & Ones(w) == v <==> v >> 8 == 0) && (v & Ones(w)) >> 8 == 0
  {
    if w == Byte {
      ByteFits(v);
    }
  }

  lemma WordMask(w: Width, v: bv32)
    ensures w == Word ==> (v & Ones(w) == v <==> v >> 16 == 0) && (v & Ones(w)) >> 16 == 0
  {
    if w == Word {
      WordFits(v);
    }
  }

  lemma ByteFits(v: bv32)
    ensures v & 0xff == v <==> v >> 8 == 0
    ensures (v & 0xff) >> 8 == 0
  {
  }

  lemma WordFits(v: bv32)
    ensures v & 0xffff == v <==> v >> 16 == 0
    ensures (v & 0xffff) >> 16 == 0
  {
  }
}
