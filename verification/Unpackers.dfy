// The 32 unrolled unpackers. Each has one statement per slot of a 32-slot group:
//   output[j+k] = (encode[a] >> b) & mask                             One(a, b)
//   output[j+k] = ((encode[a] >> b) | (encode[c] << d)) & mask        Two(a, b, c, d)
// The tables below hold those statements' constants as the source has them, and are
// proved to read, for every width w, slot k as bits k*w .. (k+1)*w-1 of the word stream.

module Unpackers {
  import opened Bits
  import opened ByteStream

  datatype Line =
    | One(word: nat, shift: nat)
    | Two(word: nat, shift: nat, next: nat, left: nat)

  // The line addresses bits p .. p+w-1 of the group.
  predicate Addresses(line: Line, p: nat, w: nat) {
    && p == 32 * line.word + line.shift
    && line.shift < 32
    && match line
       case One(a, b) => b + w <= 32
       case Two(a, b, c, d) => b + w > 32 && c == a + 1 && d == 32 - b
  }

  // The word an unmasked statement computes, the input words starting at byte q of s
  function Fetch(line: Line, s: seq<u8>, q: nat): u32
    requires q + 4 * line.word + 4 <= |s|
    requires line.Two? ==> q + 4 * line.next + 4 <= |s|
  {
    match line
    case One(a, b) => Shr32(WordAt(s, q + 4 * a), b)
    case Two(a, b, c, d) => Or32(Shr32(WordAt(s, q + 4 * a), b), Shl32(WordAt(s, q + 4 * c), d))
  }

  // What such a statement stores is the field it addresses.
  lemma LineReadsField(line: Line, p: nat, w: nat, mask: u32, s: seq<u8>, q: nat)
    requires 1 <= w <= 32 && mask == Pow2(w) - 1
    requires Addresses(line, p, w)
    requires q + 4 * line.word + 4 <= |s|
    requires line.Two? ==> q + 4 * line.next + 4 <= |s|
    ensures 8 * q + p + w <= 8 * |s|
    ensures And32(Fetch(line, s, q), mask) == Field(s, 8 * q + p, w)
  {
    var f := Fetch(line, s, q);
    forall i | 0 <= i < w ensures StreamBit(s, 8 * q + p + i) == Bit(And32(f, mask), i) {
      BitOfMask(w, i);
      FetchBit(line, p, w, s, q, i);
    }
    AndBound(f, mask, w);
    FieldFromBits(s, 8 * q + p, w, And32(f, mask));
  }

  lemma FetchBit(line: Line, p: nat, w: nat, s: seq<u8>, q: nat, i: nat)
    requires 1 <= w <= 32 && i < w
    requires Addresses(line, p, w)
    requires q + 4 * line.word + 4 <= |s|
    requires line.Two? ==> q + 4 * line.next + 4 <= |s|
    ensures 8 * q + p + i < 8 * |s|
    ensures Bit(Fetch(line, s, q), i) == StreamBit(s, 8 * q + p + i)
  {
    var x := WordAt(s, q + 4 * line.word);
    assert Bit(Shr32(x, line.shift), i) == Bit(x, i + line.shift);
    if i + line.shift < 32 {
      WordBits(s, q + 4 * line.word, i + line.shift);
    } else {
      NoBitAbove31(x, i + line.shift);
    }
    if line.Two? {
      var y := WordAt(s, q + 4 * line.next);
      assert Bit(Shl32(y, line.left), i) == (line.left <= i && Bit(y, i - line.left));
      if line.left <= i { WordBits(s, q + 4 * line.next, i - line.left); }
    }
  }

  // A line of width w touches only the first w words of its group.
  lemma LineInGroup(line: Line, k: nat, w: nat)
    requires 1 <= w <= 32 && k < 32
    requires Addresses(line, k * w, w)
    ensures line.word < w
    ensures line.Two? ==> line.next < w
  {
    GroupBits(k, w);
  }

  lemma GroupBits(k: nat, w: nat)
    requires k < 32
    ensures k * w + w <= 32 * w
  {
    assert (31 - k) * w >= 0;
  }

  function Unpack1(k: nat): (line: Line)
    requires k < 32
    ensures Addresses(line, k * 1, 1)
  {
    match k
    case 0 => One(0, 0) case 1 => One(0, 1) case 2 => One(0, 2) case 3 => One(0, 3)
    case 4 => One(0, 4) case 5 => One(0, 5) case 6 => One(0, 6) case 7 => One(0, 7)
    case 8 => One(0, 8) case 9 => One(0, 9) case 10 => One(0, 10) case 11 => One(0, 11)
    case 12 => One(0, 12) case 13 => One(0, 13) case 14 => One(0, 14) case 15 => One(0, 15)
    case 16 => One(0, 16) case 17 => One(0, 17) case 18 => One(0, 18) case 19 => One(0, 19)
    case 20 => One(0, 20) case 21 => One(0, 21) case 22 => One(0, 22) case 23 => One(0, 23)
    case 24 => One(0, 24) case 25 => One(0, 25) case 26 => One(0, 26) case 27 => One(0, 27)
    case 28 => One(0, 28) case 29 => One(0, 29) case 30 => One(0, 30) case _ => One(0, 31)
  }

  function Unpack2(k: nat): (line: Line)
    requires k < 32
    ensures Addresses(line, k * 2, 2)
  {
    match k
    case 0 => One(0, 0) case 1 => One(0, 2) case 2 => One(0, 4) case 3 => One(0, 6)
    case 4 => One(0, 8) case 5 => One(0, 10) case 6 => One(0, 12) case 7 => One(0, 14)
    case 8 => One(0, 16) case 9 => One(0, 18) case 10 => One(0, 20) case 11 => One(0, 22)
    case 12 => One(0, 24) case 13 => One(0, 26) case 14 => One(0, 28) case 15 => One(0, 30)
    case 16 => One(1, 0) case 17 => One(1, 2) case 18 => One(1, 4) case 19 => One(1, 6)
    case 20 => One(1, 8) case 21 => One(1, 10) case 22 => One(1, 12) case 23 => One(1, 14)
    case 24 => One(1, 16) case 25 => One(1, 18) case 26 => One(1, 20) case 27 => One(1, 22)
    case 28 => One(1, 24) case 29 => One(1, 26) case 30 => One(1, 28) case _ => One(1, 30)
  }

  function Unpack3(k: nat): (line: Line)
    requires k < 32
    ensures Addresses(line, k * 3, 3)
  {
    match k
    case 0 => One(0, 0) case 1 => One(0, 3) case 2 => One(0, 6) case 3 => One(0, 9)
    case 4 => One(0, 12) case 5 => One(0, 15) case 6 => One(0, 18) case 7 => One(0, 21)
    case 8 => One(0, 24) case 9 => One(0, 27) case 10 => Two(0, 30, 1, 2) case 11 => One(1, 1)
    case 12 => One(1, 4) case 13 => One(1, 7) case 14 => One(1, 10) case 15 => One(1, 13)
    case 16 => One(1, 16) case 17 => One(1, 19) case 18 => One(1, 22) case 19 => One(1, 25)
    case 20 => One(1, 28) case 21 => Two(1, 31, 2, 1) case 22 => One(2, 2) case 23 => One(2, 5)
    case 24 => One(2, 8) case 25 => One(2, 11) case 26 => One(2, 14) case 27 => One(2, 17)
    case 28 => One(2, 20) case 29 => One(2, 23) case 30 => One(2, 26) case _ => One(2, 29)
  }

  function Unpack4(k: nat): (line: Line)
    requires k < 32
    ensures Addresses(line, k * 4, 4)
  {
    match k
    case 0 => One(0, 0) case 1 => One(0, 4) case 2 => One(0, 8) case 3 => One(0, 12)
    case 4 => One(0, 16) case 5 => One(0, 20) case 6 => One(0, 24) case 7 => One(0, 28)
    case 8 => One(1, 0) case 9 => One(1, 4) case 10 => One(1, 8) case 11 => One(1, 12)
    case 12 => One(1, 16) case 13 => One(1, 20) case 14 => One(1, 24) case 15 => One(1, 28)
    case 16 => One(2, 0) case 17 => One(2, 4) case 18 => One(2, 8) case 19 => One(2, 12)
    case 20 => One(2, 16) case 21 => One(2, 20) case 22 => One(2, 24) case 23 => One(2, 28)
    case 24 => One(3, 0) case 25 => One(3, 4) case 26 => One(3, 8) case 27 => One(3, 12)
    case 28 => One(3, 16) case 29 => One(3, 20) case 30 => One(3, 24) case _ => One(3, 28)
  }

  function Unpack5(k: nat): (line: Line)
    requires k < 32
    ensures Addresses(line, k * 5, 5)
  {
    match k
    case 0 => One(0, 0) case 1 => One(0, 5) case 2 => One(0, 10) case 3 => One(0, 15)
    case 4 => One(0, 20) case 5 => One(0, 25) case 6 => Two(0, 30, 1, 2) case 7 => One(1, 3)
    case 8 => One(1, 8) case 9 => One(1, 13) case 10 => One(1, 18) case 11 => One(1, 23)
    case 12 => Two(1, 28, 2, 4) case 13 => One(2, 1) case 14 => One(2, 6) case 15 => One(2, 11)
    case 16 => One(2, 16) case 17 => One(2, 21) case 18 => One(2, 26) case 19 => Two(2, 31, 3, 1)
    case 20 => One(3, 4) case 21 => One(3, 9) case 22 => One(3, 14) case 23 => One(3, 19)
    case 24 => One(3, 24) case 25 => Two(3, 29, 4, 3) case 26 => One(4, 2) case 27 => One(4, 7)
    case 28 => One(4, 12) case 29 => One(4, 17) case 30 => One(4, 22) case _ => One(4, 27)
  }

  function Unpack6(k: nat): (line: Line)
    requires k < 32
    ensures Addresses(line, k * 6, 6)
  {
    match k
    case 0 => One(0, 0) case 1 => One(0, 6) case 2 => One(0, 12) case 3 => One(0, 18)
    case 4 => One(0, 24) case 5 => Two(0, 30, 1, 2) case 6 => One(1, 4) case 7 => One(1, 10)
    case 8 => One(1, 16) case 9 => One(1, 22) case 10 => Two(1, 28, 2, 4) case 11 => One(2, 2)
    case 12 => One(2, 8) case 13 => One(2, 14) case 14 => One(2, 20) case 15 => One(2, 26)
    case 16 => One(3, 0) case 17 => One(3, 6) case 18 => One(3, 12) case 19 => One(3, 18)
    case 20 => One(3, 24) case 21 => Two(3, 30, 4, 2) case 22 => One(4, 4) case 23 => One(4, 10)
    case 24 => One(4, 16) case 25 => One(4, 22) case 26 => Two(4, 28, 5, 4) case 27 => One(5, 2)
    case 28 => One(5, 8) case 29 => One(5, 14) case 30 => One(5, 20) case _ => One(5, 26)
  }

  function Unpack7(k: nat): (line: Line)
    requires k < 32
    ensures Addresses(line, k * 7, 7)
  {
    match k
    case 0 => One(0, 0) case 1 => One(0, 7) case 2 => One(0, 14) case 3 => One(0, 21)
    case 4 => Two(0, 28, 1, 4) case 5 => One(1, 3) case 6 => One(1, 10) case 7 => One(1, 17)
    case 8 => One(1, 24) case 9 => Two(1, 31, 2, 1) case 10 => One(2, 6) case 11 => One(2, 13)
    case 12 => One(2, 20) case 13 => Two(2, 27, 3, 5) case 14 => One(3, 2) case 15 => One(3, 9)
    case 16 => One(3, 16) case 17 => One(3, 23) case 18 => Two(3, 30, 4, 2) case 19 => One(4, 5)
    case 20 => One(4, 12) case 21 => One(4, 19) case 22 => Two(4, 26, 5, 6) case 23 => One(5, 1)
    case 24 => One(5, 8) case 25 => One(5, 15) case 26 => One(5, 22) case 27 => Two(5, 29, 6, 3)
    case 28 => One(6, 4) case 29 => One(6, 11) case 30 => One(6, 18) case _ => One(6, 25)
  }

  function Unpack8(k: nat): (line: Line)
    requires k < 32
    ensures Addresses(line, k * 8, 8)
  {
    match k
    case 0 => One(0, 0) case 1 => One(0, 8) case 2 => One(0, 16) case 3 => One(0, 24)
    case 4 => One(1, 0) case 5 => One(1, 8) case 6 => One(1, 16) case 7 => One(1, 24)
    case 8 => One(2, 0) case 9 => One(2, 8) case 10 => One(2, 16) case 11 => One(2, 24)
    case 12 => One(3, 0) case 13 => One(3, 8) case 14 => One(3, 16) case 15 => One(3, 24)
    case 16 => One(4, 0) case 17 => One(4, 8) case 18 => One(4, 16) case 19 => One(4, 24)
    case 20 => One(5, 0) case 21 => One(5, 8) case 22 => One(5, 16) case 23 => One(5, 24)
    case 24 => One(6, 0) case 25 => One(6, 8) case 26 => One(6, 16) case 27 => One(6, 24)
    case 28 => One(7, 0) case 29 => One(7, 8) case 30 => One(7, 16) case _ => One(7, 24)
  }

  function Unpack9(k: nat): (line: Line)
    requires k < 32
    ensures Addresses(line, k * 9, 9)
  {
    match k
    case 0 => One(0, 0) case 1 => One(0, 9) case 2 => One(0, 18) case 3 => Two(0, 27, 1, 5)
    case 4 => One(1, 4) case 5 => One(1, 13) case 6 => One(1, 22) case 7 => Two(1, 31, 2, 1)
    case 8 => One(2, 8) case 9 => One(2, 17) case 10 => Two(2, 26, 3, 6) case 11 => One(3, 3)
    case 12 => One(3, 12) case 13 => One(3, 21) case 14 => Two(3, 30, 4, 2) case 15 => One(4, 7)
    case 16 => One(4, 16) case 17 => Two(4, 25, 5, 7) case 18 => One(5, 2) case 19 => One(5, 11)
    case 20 => One(5, 20) case 21 => Two(5, 29, 6, 3) case 22 => One(6, 6) case 23 => One(6, 15)
    case 24 => Two(6, 24, 7, 8) case 25 => One(7, 1) case 26 => One(7, 10) case 27 => One(7, 19)
    case 28 => Two(7, 28, 8, 4) case 29 => One(8, 5) case 30 => One(8, 14) case _ => One(8, 23)
  }

  function Unpack10(k: nat): (line: Line)
    requires k < 32
    ensures Addresses(line, k * 10, 10)
  {
    match k
    case 0 => One(0, 0) case 1 => One(0, 10) case 2 => One(0, 20) case 3 => Two(0, 30, 1, 2)
    case 4 => One(1, 8) case 5 => One(1, 18) case 6 => Two(1, 28, 2, 4) case 7 => One(2, 6)
    case 8 => One(2, 16) case 9 => Two(2, 26, 3, 6) case 10 => One(3, 4) case 11 => One(3, 14)
    case 12 => Two(3, 24, 4, 8) case 13 => One(4, 2) case 14 => One(4, 12) case 15 => One(4, 22)
    case 16 => One(5, 0) case 17 => One(5, 10) case 18 => One(5, 20) case 19 => Two(5, 30, 6, 2)
    case 20 => One(6, 8) case 21 => One(6, 18) case 22 => Two(6, 28, 7, 4) case 23 => One(7, 6)
    case 24 => One(7, 16) case 25 => Two(7, 26, 8, 6) case 26 => One(8, 4) case 27 => One(8, 14)
    case 28 => Two(8, 24, 9, 8) case 29 => One(9, 2) case 30 => One(9, 12) case _ => One(9, 22)
  }

  function Unpack11(k: nat): (line: Line)
    requires k < 32
    ensures Addresses(line, k * 11, 11)
  {
    match k
    case 0 => One(0, 0) case 1 => One(0, 11) case 2 => Two(0, 22, 1, 10) case 3 => One(1, 1)
    case 4 => One(1, 12) case 5 => Two(1, 23, 2, 9) case 6 => One(2, 2) case 7 => One(2, 13)
    case 8 => Two(2, 24, 3, 8) case 9 => One(3, 3) case 10 => One(3, 14) case 11 => Two(3, 25, 4, 7)
    case 12 => One(4, 4) case 13 => One(4, 15) case 14 => Two(4, 26, 5, 6) case 15 => One(5, 5)
    case 16 => One(5, 16) case 17 => Two(5, 27, 6, 5) case 18 => One(6, 6) case 19 => One(6, 17)
    case 20 => Two(6, 28, 7, 4) case 21 => One(7, 7) case 22 => One(7, 18) case 23 => Two(7, 29, 8, 3)
    case 24 => One(8, 8) case 25 => One(8, 19) case 26 => Two(8, 30, 9, 2) case 27 => One(9, 9)
    case 28 => One(9, 20) case 29 => Two(9, 31, 10, 1) case 30 => One(10, 10) case _ => One(10, 21)
  }

  function Unpack12(k: nat): (line: Line)
    requires k < 32
    ensures Addresses(line, k * 12, 12)
  {
    match k
    case 0 => One(0, 0) case 1 => One(0, 12) case 2 => Two(0, 24, 1, 8) case 3 => One(1, 4)
    case 4 => One(1, 16) case 5 => Two(1, 28, 2, 4) case 6 => One(2, 8) case 7 => One(2, 20)
    case 8 => One(3, 0) case 9 => One(3, 12) case 10 => Two(3, 24, 4, 8) case 11 => One(4, 4)
    case 12 => One(4, 16) case 13 => Two(4, 28, 5, 4) case 14 => One(5, 8) case 15 => One(5, 20)
    case 16 => One(6, 0) case 17 => One(6, 12) case 18 => Two(6, 24, 7, 8) case 19 => One(7, 4)
    case 20 => One(7, 16) case 21 => Two(7, 28, 8, 4) case 22 => One(8, 8) case 23 => One(8, 20)
    case 24 => One(9, 0) case 25 => One(9, 12) case 26 => Two(9, 24, 10, 8) case 27 => One(10, 4)
    case 28 => One(10, 16) case 29 => Two(10, 28, 11, 4) case 30 => One(11, 8) case _ => One(11, 20)
  }

  function Unpack13(k: nat): (line: Line)
    requires k < 32
    ensures Addresses(line, k * 13, 13)
  {
    match k
    case 0 => One(0, 0) case 1 => One(0, 13) case 2 => Two(0, 26, 1, 6) case 3 => One(1, 7)
    case 4 => Two(1, 20, 2, 12) case 5 => One(2, 1) case 6 => One(2, 14) case 7 => Two(2, 27, 3, 5)
    case 8 => One(3, 8) case 9 => Two(3, 21, 4, 11) case 10 => One(4, 2) case 11 => One(4, 15)
    case 12 => Two(4, 28, 5, 4) case 13 => One(5, 9) case 14 => Two(5, 22, 6, 10) case 15 => One(6, 3)
    case 16 => One(6, 16) case 17 => Two(6, 29, 7, 3) case 18 => One(7, 10) case 19 => Two(7, 23, 8, 9)
    case 20 => One(8, 4) case 21 => One(8, 17) case 22 => Two(8, 30, 9, 2) case 23 => One(9, 11)
    case 24 => Two(9, 24, 10, 8) case 25 => One(10, 5) case 26 => One(10, 18) case 27 => Two(10, 31, 11, 1)
    case 28 => One(11, 12) case 29 => Two(11, 25, 12, 7) case 30 => One(12, 6) case _ => One(12, 19)
  }

  function Unpack14(k: nat): (line: Line)
    requires k < 32
    ensures Addresses(line, k * 14, 14)
  {
    match k
    case 0 => One(0, 0) case 1 => One(0, 14) case 2 => Two(0, 28, 1, 4) case 3 => One(1, 10)
    case 4 => Two(1, 24, 2, 8) case 5 => One(2, 6) case 6 => Two(2, 20, 3, 12) case 7 => One(3, 2)
    case 8 => One(3, 16) case 9 => Two(3, 30, 4, 2) case 10 => One(4, 12) case 11 => Two(4, 26, 5, 6)
    case 12 => One(5, 8) case 13 => Two(5, 22, 6, 10) case 14 => One(6, 4) case 15 => One(6, 18)
    case 16 => One(7, 0) case 17 => One(7, 14) case 18 => Two(7, 28, 8, 4) case 19 => One(8, 10)
    case 20 => Two(8, 24, 9, 8) case 21 => One(9, 6) case 22 => Two(9, 20, 10, 12) case 23 => One(10, 2)
    case 24 => One(10, 16) case 25 => Two(10, 30, 11, 2) case 26 => One(11, 12) case 27 => Two(11, 26, 12, 6)
    case 28 => One(12, 8) case 29 => Two(12, 22, 13, 10) case 30 => One(13, 4) case _ => One(13, 18)
  }

  function Unpack15(k: nat): (line: Line)
    requires k < 32
    ensures Addresses(line, k * 15, 15)
  {
    match k
    case 0 => One(0, 0) case 1 => One(0, 15) case 2 => Two(0, 30, 1, 2) case 3 => One(1, 13)
    case 4 => Two(1, 28, 2, 4) case 5 => One(2, 11) case 6 => Two(2, 26, 3, 6) case 7 => One(3, 9)
    case 8 => Two(3, 24, 4, 8) case 9 => One(4, 7) case 10 => Two(4, 22, 5, 10) case 11 => One(5, 5)
    case 12 => Two(5, 20, 6, 12) case 13 => One(6, 3) case 14 => Two(6, 18, 7, 14) case 15 => One(7, 1)
    case 16 => One(7, 16) case 17 => Two(7, 31, 8, 1) case 18 => One(8, 14) case 19 => Two(8, 29, 9, 3)
    case 20 => One(9, 12) case 21 => Two(9, 27, 10, 5) case 22 => One(10, 10) case 23 => Two(10, 25, 11, 7)
    case 24 => One(11, 8) case 25 => Two(11, 23, 12, 9) case 26 => One(12, 6) case 27 => Two(12, 21, 13, 11)
    case 28 => One(13, 4) case 29 => Two(13, 19, 14, 13) case 30 => One(14, 2) case _ => One(14, 17)
  }

  function Unpack16(k: nat): (line: Line)
    requires k < 32
    ensures Addresses(line, k * 16, 16)
  {
    match k
    case 0 => One(0, 0) case 1 => One(0, 16) case 2 => One(1, 0) case 3 => One(1, 16)
    case 4 => One(2, 0) case 5 => One(2, 16) case 6 => One(3, 0) case 7 => One(3, 16)
    case 8 => One(4, 0) case 9 => One(4, 16) case 10 => One(5, 0) case 11 => One(5, 16)
    case 12 => One(6, 0) case 13 => One(6, 16) case 14 => One(7, 0) case 15 => One(7, 16)
    case 16 => One(8, 0) case 17 => One(8, 16) case 18 => One(9, 0) case 19 => One(9, 16)
    case 20 => One(10, 0) case 21 => One(10, 16) case 22 => One(11, 0) case 23 => One(11, 16)
    case 24 => One(12, 0) case 25 => One(12, 16) case 26 => One(13, 0) case 27 => One(13, 16)
    case 28 => One(14, 0) case 29 => One(14, 16) case 30 => One(15, 0) case _ => One(15, 16)
  }

  function Unpack17(k: nat): (line: Line)
    requires k < 32
    ensures Addresses(line, k * 17, 17)
  {
    match k
    case 0 => One(0, 0) case 1 => Two(0, 17, 1, 15) case 2 => One(1, 2) case 3 => Two(1, 19, 2, 13)
    case 4 => One(2, 4) case 5 => Two(2, 21, 3, 11) case 6 => One(3, 6) case 7 => Two(3, 23, 4, 9)
    case 8 => One(4, 8) case 9 => Two(4, 25, 5, 7) case 10 => One(5, 10) case 11 => Two(5, 27, 6, 5)
    case 12 => One(6, 12) case 13 => Two(6, 29, 7, 3) case 14 => One(7, 14) case 15 => Two(7, 31, 8, 1)
    case 16 => Two(8, 16, 9, 16) case 17 => One(9, 1) case 18 => Two(9, 18, 10, 14) case 19 => One(10, 3)
    case 20 => Two(10, 20, 11, 12) case 21 => One(11, 5) case 22 => Two(11, 22, 12, 10) case 23 => One(12, 7)
    case 24 => Two(12, 24, 13, 8) case 25 => One(13, 9) case 26 => Two(13, 26, 14, 6) case 27 => One(14, 11)
    case 28 => Two(14, 28, 15, 4) case 29 => One(15, 13) case 30 => Two(15, 30, 16, 2) case _ => One(16, 15)
  }

  function Unpack18(k: nat): (line: Line)
    requires k < 32
    ensures Addresses(line, k * 18, 18)
  {
    match k
    case 0 => One(0, 0) case 1 => Two(0, 18, 1, 14) case 2 => One(1, 4) case 3 => Two(1, 22, 2, 10)
    case 4 => One(2, 8) case 5 => Two(2, 26, 3, 6) case 6 => One(3, 12) case 7 => Two(3, 30, 4, 2)
    case 8 => Two(4, 16, 5, 16) case 9 => One(5, 2) case 10 => Two(5, 20, 6, 12) case 11 => One(6, 6)
    case 12 => Two(6, 24, 7, 8) case 13 => One(7, 10) case 14 => Two(7, 28, 8, 4) case 15 => One(8, 14)
    case 16 => One(9, 0) case 17 => Two(9, 18, 10, 14) case 18 => One(10, 4) case 19 => Two(10, 22, 11, 10)
    case 20 => One(11, 8) case 21 => Two(11, 26, 12, 6) case 22 => One(12, 12) case 23 => Two(12, 30, 13, 2)
    case 24 => Two(13, 16, 14, 16) case 25 => One(14, 2) case 26 => Two(14, 20, 15, 12) case 27 => One(15, 6)
    case 28 => Two(15, 24, 16, 8) case 29 => One(16, 10) case 30 => Two(16, 28, 17, 4) case _ => One(17, 14)
  }

  function Unpack19(k: nat): (line: Line)
    requires k < 32
    ensures Addresses(line, k * 19, 19)
  {
    match k
    case 0 => One(0, 0) case 1 => Two(0, 19, 1, 13) case 2 => One(1, 6) case 3 => Two(1, 25, 2, 7)
    case 4 => One(2, 12) case 5 => Two(2, 31, 3, 1) case 6 => Two(3, 18, 4, 14) case 7 => One(4, 5)
    case 8 => Two(4, 24, 5, 8) case 9 => One(5, 11) case 10 => Two(5, 30, 6, 2) case 11 => Two(6, 17, 7, 15)
    case 12 => One(7, 4) case 13 => Two(7, 23, 8, 9) case 14 => One(8, 10) case 15 => Two(8, 29, 9, 3)
    case 16 => Two(9, 16, 10, 16) case 17 => One(10, 3) case 18 => Two(10, 22, 11, 10) case 19 => One(11, 9)
    case 20 => Two(11, 28, 12, 4) case 21 => Two(12, 15, 13, 17) case 22 => One(13, 2) case 23 => Two(13, 21, 14, 11)
    case 24 => One(14, 8) case 25 => Two(14, 27, 15, 5) case 26 => Two(15, 14, 16, 18) case 27 => One(16, 1)
    case 28 => Two(16, 20, 17, 12) case 29 => One(17, 7) case 30 => Two(17, 26, 18, 6) case _ => One(18, 13)
  }

  function Unpack20(k: nat): (line: Line)
    requires k < 32
    ensures Addresses(line, k * 20, 20)
  {
    match k
    case 0 => One(0, 0) case 1 => Two(0, 20, 1, 12) case 2 => One(1, 8) case 3 => Two(1, 28, 2, 4)
    case 4 => Two(2, 16, 3, 16) case 5 => One(3, 4) case 6 => Two(3, 24, 4, 8) case 7 => One(4, 12)
    case 8 => One(5, 0) case 9 => Two(5, 20, 6, 12) case 10 => One(6, 8) case 11 => Two(6, 28, 7, 4)
    case 12 => Two(7, 16, 8, 16) case 13 => One(8, 4) case 14 => Two(8, 24, 9, 8) case 15 => One(9, 12)
    case 16 => One(10, 0) case 17 => Two(10, 20, 11, 12) case 18 => One(11, 8) case 19 => Two(11, 28, 12, 4)
    case 20 => Two(12, 16, 13, 16) case 21 => One(13, 4) case 22 => Two(13, 24, 14, 8) case 23 => One(14, 12)
    case 24 => One(15, 0) case 25 => Two(15, 20, 16, 12) case 26 => One(16, 8) case 27 => Two(16, 28, 17, 4)
    case 28 => Two(17, 16, 18, 16) case 29 => One(18, 4) case 30 => Two(18, 24, 19, 8) case _ => One(19, 12)
  }

  function Unpack21(k: nat): (line: Line)
    requires k < 32
    ensures Addresses(line, k * 21, 21)
  {
    match k
    case 0 => One(0, 0) case 1 => Two(0, 21, 1, 11) case 2 => One(1, 10) case 3 => Two(1, 31, 2, 1)
    case 4 => Two(2, 20, 3, 12) case 5 => One(3, 9) case 6 => Two(3, 30, 4, 2) case 7 => Two(4, 19, 5, 13)
    case 8 => One(5, 8) case 9 => Two(5, 29, 6, 3) case 10 => Two(6, 18, 7, 14) case 11 => One(7, 7)
    case 12 => Two(7, 28, 8, 4) case 13 => Two(8, 17, 9, 15) case 14 => One(9, 6) case 15 => Two(9, 27, 10, 5)
    case 16 => Two(10, 16, 11, 16) case 17 => One(11, 5) case 18 => Two(11, 26, 12, 6) case 19 => Two(12, 15, 13, 17)
    case 20 => One(13, 4) case 21 => Two(13, 25, 14, 7) case 22 => Two(14, 14, 15, 18) case 23 => One(15, 3)
    case 24 => Two(15, 24, 16, 8) case 25 => Two(16, 13, 17, 19) case 26 => One(17, 2) case 27 => Two(17, 23, 18, 9)
    case 28 => Two(18, 12, 19, 20) case 29 => One(19, 1) case 30 => Two(19, 22, 20, 10) case _ => One(20, 11)
  }

  function Unpack22(k: nat): (line: Line)
    requires k < 32
    ensures Addresses(line, k * 22, 22)
  {
    match k
    case 0 => One(0, 0) case 1 => Two(0, 22, 1, 10) case 2 => Two(1, 12, 2, 20) case 3 => One(2, 2)
    case 4 => Two(2, 24, 3, 8) case 5 => Two(3, 14, 4, 18) case 6 => One(4, 4) case 7 => Two(4, 26, 5, 6)
    case 8 => Two(5, 16, 6, 16) case 9 => One(6, 6) case 10 => Two(6, 28, 7, 4) case 11 => Two(7, 18, 8, 14)
    case 12 => One(8, 8) case 13 => Two(8, 30, 9, 2) case 14 => Two(9, 20, 10, 12) case 15 => One(10, 10)
    case 16 => One(11, 0) case 17 => Two(11, 22, 12, 10) case 18 => Two(12, 12, 13, 20) case 19 => One(13, 2)
    case 20 => Two(13, 24, 14, 8) case 21 => Two(14, 14, 15, 18) case 22 => One(15, 4) case 23 => Two(15, 26, 16, 6)
    case 24 => Two(16, 16, 17, 16) case 25 => One(17, 6) case 26 => Two(17, 28, 18, 4) case 27 => Two(18, 18, 19, 14)
    case 28 => One(19, 8) case 29 => Two(19, 30, 20, 2) case 30 => Two(20, 20, 21, 12) case _ => One(21, 10)
  }

  function Unpack23(k: nat): (line: Line)
    requires k < 32
    ensures Addresses(line, k * 23, 23)
  {
    match k
    case 0 => One(0, 0) case 1 => Two(0, 23, 1, 9) case 2 => Two(1, 14, 2, 18) case 3 => One(2, 5)
    case 4 => Two(2, 28, 3, 4) case 5 => Two(3, 19, 4, 13) case 6 => Two(4, 10, 5, 22) case 7 => One(5, 1)
    case 8 => Two(5, 24, 6, 8) case 9 => Two(6, 15, 7, 17) case 10 => One(7, 6) case 11 => Two(7, 29, 8, 3)
    case 12 => Two(8, 20, 9, 12) case 13 => Two(9, 11, 10, 21) case 14 => One(10, 2) case 15 => Two(10, 25, 11, 7)
    case 16 => Two(11, 16, 12, 16) case 17 => One(12, 7) case 18 => Two(12, 30, 13, 2) case 19 => Two(13, 21, 14, 11)
    case 20 => Two(14, 12, 15, 20) case 21 => One(15, 3) case 22 => Two(15, 26, 16, 6) case 23 => Two(16, 17, 17, 15)
    case 24 => One(17, 8) case 25 => Two(17, 31, 18, 1) case 26 => Two(18, 22, 19, 10) case 27 => Two(19, 13, 20, 19)
    case 28 => One(20, 4) case 29 => Two(20, 27, 21, 5) case 30 => Two(21, 18, 22, 14) case _ => One(22, 9)
  }

  function Unpack24(k: nat): (line: Line)
    requires k < 32
    ensures Addresses(line, k * 24, 24)
  {
    match k
    case 0 => One(0, 0) case 1 => Two(0, 24, 1, 8) case 2 => Two(1, 16, 2, 16) case 3 => One(2, 8)
    case 4 => One(3, 0) case 5 => Two(3, 24, 4, 8) case 6 => Two(4, 16, 5, 16) case 7 => One(5, 8)
    case 8 => One(6, 0) case 9 => Two(6, 24, 7, 8) case 10 => Two(7, 16, 8, 16) case 11 => One(8, 8)
    case 12 => One(9, 0) case 13 => Two(9, 24, 10, 8) case 14 => Two(10, 16, 11, 16) case 15 => One(11, 8)
    case 16 => One(12, 0) case 17 => Two(12, 24, 13, 8) case 18 => Two(13, 16, 14, 16) case 19 => One(14, 8)
    case 20 => One(15, 0) case 21 => Two(15, 24, 16, 8) case 22 => Two(16, 16, 17, 16) case 23 => One(17, 8)
    case 24 => One(18, 0) case 25 => Two(18, 24, 19, 8) case 26 => Two(19, 16, 20, 16) case 27 => One(20, 8)
    case 28 => One(21, 0) case 29 => Two(21, 24, 22, 8) case 30 => Two(22, 16, 23, 16) case _ => One(23, 8)
  }

  function Unpack25(k: nat): (line: Line)
    requires k < 32
    ensures Addresses(line, k * 25, 25)
  {
    match k
    case 0 => One(0, 0) case 1 => Two(0, 25, 1, 7) case 2 => Two(1, 18, 2, 14) case 3 => Two(2, 11, 3, 21)
    case 4 => One(3, 4) case 5 => Two(3, 29, 4, 3) case 6 => Two(4, 22, 5, 10) case 7 => Two(5, 15, 6, 17)
    case 8 => Two(6, 8, 7, 24) case 9 => One(7, 1) case 10 => Two(7, 26, 8, 6) case 11 => Two(8, 19, 9, 13)
    case 12 => Two(9, 12, 10, 20) case 13 => One(10, 5) case 14 => Two(10, 30, 11, 2) case 15 => Two(11, 23, 12, 9)
    case 16 => Two(12, 16, 13, 16) case 17 => Two(13, 9, 14, 23) case 18 => One(14, 2) case 19 => Two(14, 27, 15, 5)
    case 20 => Two(15, 20, 16, 12) case 21 => Two(16, 13, 17, 19) case 22 => One(17, 6) case 23 => Two(17, 31, 18, 1)
    case 24 => Two(18, 24, 19, 8) case 25 => Two(19, 17, 20, 15) case 26 => Two(20, 10, 21, 22) case 27 => One(21, 3)
    case 28 => Two(21, 28, 22, 4) case 29 => Two(22, 21, 23, 11) case 30 => Two(23, 14, 24, 18) case _ => One(24, 7)
  }

  function Unpack26(k: nat): (line: Line)
    requires k < 32
    ensures Addresses(line, k * 26, 26)
  {
    match k
    case 0 => One(0, 0) case 1 => Two(0, 26, 1, 6) case 2 => Two(1, 20, 2, 12) case 3 => Two(2, 14, 3, 18)
    case 4 => Two(3, 8, 4, 24) case 5 => One(4, 2) case 6 => Two(4, 28, 5, 4) case 7 => Two(5, 22, 6, 10)
    case 8 => Two(6, 16, 7, 16) case 9 => Two(7, 10, 8, 22) case 10 => One(8, 4) case 11 => Two(8, 30, 9, 2)
    case 12 => Two(9, 24, 10, 8) case 13 => Two(10, 18, 11, 14) case 14 => Two(11, 12, 12, 20) case 15 => One(12, 6)
    case 16 => One(13, 0) case 17 => Two(13, 26, 14, 6) case 18 => Two(14, 20, 15, 12) case 19 => Two(15, 14, 16, 18)
    case 20 => Two(16, 8, 17, 24) case 21 => One(17, 2) case 22 => Two(17, 28, 18, 4) case 23 => Two(18, 22, 19, 10)
    case 24 => Two(19, 16, 20, 16) case 25 => Two(20, 10, 21, 22) case 26 => One(21, 4) case 27 => Two(21, 30, 22, 2)
    case 28 => Two(22, 24, 23, 8) case 29 => Two(23, 18, 24, 14) case 30 => Two(24, 12, 25, 20) case _ => One(25, 6)
  }

  function Unpack27(k: nat): (line: Line)
    requires k < 32
    ensures Addresses(line, k * 27, 27)
  {
    match k
    case 0 => One(0, 0) case 1 => Two(0, 27, 1, 5) case 2 => Two(1, 22, 2, 10) case 3 => Two(2, 17, 3, 15)
    case 4 => Two(3, 12, 4, 20) case 5 => Two(4, 7, 5, 25) case 6 => One(5, 2) case 7 => Two(5, 29, 6, 3)
    case 8 => Two(6, 24, 7, 8) case 9 => Two(7, 19, 8, 13) case 10 => Two(8, 14, 9, 18) case 11 => Two(9, 9, 10, 23)
    case 12 => One(10, 4) case 13 => Two(10, 31, 11, 1) case 14 => Two(11, 26, 12, 6) case 15 => Two(12, 21, 13, 11)
    case 16 => Two(13, 16, 14, 16) case 17 => Two(14, 11, 15, 21) case 18 => Two(15, 6, 16, 26) case 19 => One(16, 1)
    case 20 => Two(16, 28, 17, 4) case 21 => Two(17, 23, 18, 9)
    case 22 => Two(18, 18, 19, 14) case 23 => Two(19, 13, 20, 19)
    case 24 => Two(20, 8, 21, 24) case 25 => One(21, 3) case 26 => Two(21, 30, 22, 2) case 27 => Two(22, 25, 23, 7)
    case 28 => Two(23, 20, 24, 12) case 29 => Two(24, 15, 25, 17) case 30 => Two(25, 10, 26, 22) case _ => One(26, 5)
  }

  function Unpack28(k: nat): (line: Line)
    requires k < 32
    ensures Addresses(line, k * 28, 28)
  {
    match k
    case 0 => One(0, 0) case 1 => Two(0, 28, 1, 4) case 2 => Two(1, 24, 2, 8) case 3 => Two(2, 20, 3, 12)
    case 4 => Two(3, 16, 4, 16) case 5 => Two(4, 12, 5, 20) case 6 => Two(5, 8, 6, 24) case 7 => One(6, 4)
    case 8 => One(7, 0) case 9 => Two(7, 28, 8, 4) case 10 => Two(8, 24, 9, 8) case 11 => Two(9, 20, 10, 12)
    case 12 => Two(10, 16, 11, 16) case 13 => Two(11, 12, 12, 20) case 14 => Two(12, 8, 13, 24) case 15 => One(13, 4)
    case 16 => One(14, 0) case 17 => Two(14, 28, 15, 4) case 18 => Two(15, 24, 16, 8) case 19 => Two(16, 20, 17, 12)
    case 20 => Two(17, 16, 18, 16) case 21 => Two(18, 12, 19, 20) case 22 => Two(19, 8, 20, 24) case 23 => One(20, 4)
    case 24 => One(21, 0) case 25 => Two(21, 28, 22, 4) case 26 => Two(22, 24, 23, 8) case 27 => Two(23, 20, 24, 12)
    case 28 => Two(24, 16, 25, 16) case 29 => Two(25, 12, 26, 20) case 30 => Two(26, 8, 27, 24) case _ => One(27, 4)
  }

  function Unpack29(k: nat): (line: Line)
    requires k < 32
    ensures Addresses(line, k * 29, 29)
  {
    match k
    case 0 => One(0, 0) case 1 => Two(0, 29, 1, 3) case 2 => Two(1, 26, 2, 6) case 3 => Two(2, 23, 3, 9)
    case 4 => Two(3, 20, 4, 12) case 5 => Two(4, 17, 5, 15) case 6 => Two(5, 14, 6, 18) case 7 => Two(6, 11, 7, 21)
    case 8 => Two(7, 8, 8, 24) case 9 => Two(8, 5, 9, 27) case 10 => One(9, 2) case 11 => Two(9, 31, 10, 1)
    case 12 => Two(10, 28, 11, 4) case 13 => Two(11, 25, 12, 7)
    case 14 => Two(12, 22, 13, 10) case 15 => Two(13, 19, 14, 13)
    case 16 => Two(14, 16, 15, 16) case 17 => Two(15, 13, 16, 19)
    case 18 => Two(16, 10, 17, 22) case 19 => Two(17, 7, 18, 25)
    case 20 => Two(18, 4, 19, 28) case 21 => One(19, 1) case 22 => Two(19, 30, 20, 2) case 23 => Two(20, 27, 21, 5)
    case 24 => Two(21, 24, 22, 8) case 25 => Two(22, 21, 23, 11)
    case 26 => Two(23, 18, 24, 14) case 27 => Two(24, 15, 25, 17)
    case 28 => Two(25, 12, 26, 20) case 29 => Two(26, 9, 27, 23) case 30 => Two(27, 6, 28, 26) case _ => One(28, 3)
  }

  function Unpack30(k: nat): (line: Line)
    requires k < 32
    ensures Addresses(line, k * 30, 30)
  {
    match k
    case 0 => One(0, 0) case 1 => Two(0, 30, 1, 2) case 2 => Two(1, 28, 2, 4) case 3 => Two(2, 26, 3, 6)
    case 4 => Two(3, 24, 4, 8) case 5 => Two(4, 22, 5, 10) case 6 => Two(5, 20, 6, 12) case 7 => Two(6, 18, 7, 14)
    case 8 => Two(7, 16, 8, 16) case 9 => Two(8, 14, 9, 18) case 10 => Two(9, 12, 10, 20) case 11 => Two(10, 10, 11, 22)
    case 12 => Two(11, 8, 12, 24) case 13 => Two(12, 6, 13, 26) case 14 => Two(13, 4, 14, 28) case 15 => One(14, 2)
    case 16 => One(15, 0) case 17 => Two(15, 30, 16, 2) case 18 => Two(16, 28, 17, 4) case 19 => Two(17, 26, 18, 6)
    case 20 => Two(18, 24, 19, 8) case 21 => Two(19, 22, 20, 10)
    case 22 => Two(20, 20, 21, 12) case 23 => Two(21, 18, 22, 14)
    case 24 => Two(22, 16, 23, 16) case 25 => Two(23, 14, 24, 18)
    case 26 => Two(24, 12, 25, 20) case 27 => Two(25, 10, 26, 22)
    case 28 => Two(26, 8, 27, 24) case 29 => Two(27, 6, 28, 26) case 30 => Two(28, 4, 29, 28) case _ => One(29, 2)
  }

  function Unpack31(k: nat): (line: Line)
    requires k < 32
    ensures Addresses(line, k * 31, 31)
  {
    match k
    case 0 => One(0, 0) case 1 => Two(0, 31, 1, 1) case 2 => Two(1, 30, 2, 2) case 3 => Two(2, 29, 3, 3)
    case 4 => Two(3, 28, 4, 4) case 5 => Two(4, 27, 5, 5) case 6 => Two(5, 26, 6, 6) case 7 => Two(6, 25, 7, 7)
    case 8 => Two(7, 24, 8, 8) case 9 => Two(8, 23, 9, 9) case 10 => Two(9, 22, 10, 10) case 11 => Two(10, 21, 11, 11)
    case 12 => Two(11, 20, 12, 12) case 13 => Two(12, 19, 13, 13)
    case 14 => Two(13, 18, 14, 14) case 15 => Two(14, 17, 15, 15)
    case 16 => Two(15, 16, 16, 16) case 17 => Two(16, 15, 17, 17)
    case 18 => Two(17, 14, 18, 18) case 19 => Two(18, 13, 19, 19)
    case 20 => Two(19, 12, 20, 20) case 21 => Two(20, 11, 21, 21)
    case 22 => Two(21, 10, 22, 22) case 23 => Two(22, 9, 23, 23)
    case 24 => Two(23, 8, 24, 24) case 25 => Two(24, 7, 25, 25)
    case 26 => Two(25, 6, 26, 26) case 27 => Two(26, 5, 27, 27)
    case 28 => Two(27, 4, 28, 28) case 29 => Two(28, 3, 29, 29) case 30 => Two(29, 2, 30, 30) case _ => One(30, 1)
  }

  function Unpack32(k: nat): (line: Line)
    requires k < 32
    ensures Addresses(line, k * 32, 32)
  {
    match k
    case 0 => One(0, 0) case 1 => One(1, 0) case 2 => One(2, 0) case 3 => One(3, 0)
    case 4 => One(4, 0) case 5 => One(5, 0) case 6 => One(6, 0) case 7 => One(7, 0)
    case 8 => One(8, 0) case 9 => One(9, 0) case 10 => One(10, 0) case 11 => One(11, 0)
    case 12 => One(12, 0) case 13 => One(13, 0) case 14 => One(14, 0) case 15 => One(15, 0)
    case 16 => One(16, 0) case 17 => One(17, 0) case 18 => One(18, 0) case 19 => One(19, 0)
    case 20 => One(20, 0) case 21 => One(21, 0) case 22 => One(22, 0) case 23 => One(23, 0)
    case 24 => One(24, 0) case 25 => One(25, 0) case 26 => One(26, 0) case 27 => One(27, 0)
    case 28 => One(28, 0) case 29 => One(29, 0) case 30 => One(30, 0) case _ => One(31, 0)
  }

  // unpacktable[w - 1]
  function UnpackLine(w: nat, k: nat): (line: Line)
    requires 1 <= w <= 32 && k < 32
    ensures Addresses(line, k * w, w)
  {
    match w
    case 1 => Unpack1(k)
    case 2 => Unpack2(k)
    case 3 => Unpack3(k)
    case 4 => Unpack4(k)
    case 5 => Unpack5(k)
    case 6 => Unpack6(k)
    case 7 => Unpack7(k)
    case 8 => Unpack8(k)
    case 9 => Unpack9(k)
    case 10 => Unpack10(k)
    case 11 => Unpack11(k)
    case 12 => Unpack12(k)
    case 13 => Unpack13(k)
    case 14 => Unpack14(k)
    case 15 => Unpack15(k)
    case 16 => Unpack16(k)
    case 17 => Unpack17(k)
    case 18 => Unpack18(k)
    case 19 => Unpack19(k)
    case 20 => Unpack20(k)
    case 21 => Unpack21(k)
    case 22 => Unpack22(k)
    case 23 => Unpack23(k)
    case 24 => Unpack24(k)
    case 25 => Unpack25(k)
    case 26 => Unpack26(k)
    case 27 => Unpack27(k)
    case 28 => Unpack28(k)
    case 29 => Unpack29(k)
    case 30 => Unpack30(k)
    case 31 => Unpack31(k)
    case _ => Unpack32(k)
  }

  // The mask of the width's statements
  function UnpackMask(w: nat): (mask: u32)
    requires 1 <= w <= 32
    ensures mask == Pow2(w) - 1
  {
    Pow2Table();
    match w
    case 1 => 0x1
    case 2 => 0x3
    case 3 => 0x7
    case 4 => 0xF
    case 5 => 0x1F
    case 6 => 0x3F
    case 7 => 0x7F
    case 8 => 0xFF
    case 9 => 0x1FF
    case 10 => 0x3FF
    case 11 => 0x7FF
    case 12 => 0xFFF
    case 13 => 0x1FFF
    case 14 => 0x3FFF
    case 15 => 0x7FFF
    case 16 => 0xFFFF
    case 17 => 0x1FFFF
    case 18 => 0x3FFFF
    case 19 => 0x7FFFF
    case 20 => 0xFFFFF
    case 21 => 0x1FFFFF
    case 22 => 0x3FFFFF
    case 23 => 0x7FFFFF
    case 24 => 0xFFFFFF
    case 25 => 0x1FFFFFF
    case 26 => 0x3FFFFFF
    case 27 => 0x7FFFFFF
    case 28 => 0xFFFFFFF
    case 29 => 0x1FFFFFFF
    case 30 => 0x3FFFFFFF
    case 31 => 0x7FFFFFFF
    case _ => 0xFFFFFFFF
  }

  // One statement of the unpacker for width w, the group's first word at byte q
  function UnpackStatement(w: nat, k: nat, s: seq<u8>, q: nat): (v: u32)
    requires 1 <= w <= 32 && k < 32 && q + 4 * w <= |s|
    ensures v == StreamSlot(s, q, w, k)
  {
    hide StreamSlot, UnpackLine, UnpackMask, Addresses;
    StatementReadsSlot(w, k, s, q);
    And32(Fetch(UnpackLine(w, k), s, q), UnpackMask(w))
  }

  lemma StatementReadsSlot(w: nat, k: nat, s: seq<u8>, q: nat)
    requires 1 <= w <= 32 && k < 32 && q + 4 * w <= |s|
    ensures var line := UnpackLine(w, k);
      && q + 4 * line.word + 4 <= |s|
      && (line.Two? ==> q + 4 * line.next + 4 <= |s|)
      && And32(Fetch(line, s, q), UnpackMask(w)) == StreamSlot(s, q, w, k)
  {
    hide UnpackLine, UnpackMask, Addresses, Fetch, Field, SlotBits, Pow2;
    var line := UnpackLine(w, k);
    SlotBitsProduct(w, k);
    LineInGroup(line, k, w);
    LineReadsField(line, k * w, w, UnpackMask(w), s, q);
  }

  // unpack_w(output, encode, n), the input words starting at byte `entry`: every whole group
  // of 32 slots is read, and nothing else is written.
  method Unpack(output: array<u32>, src: array<u8>, entry: nat, w: nat, n: nat)
    requires 1 <= w <= 32
    requires 32 * (n / 32) <= output.Length && entry + 4 * w * (n / 32) <= src.Length
    modifies output
    ensures forall k :: 0 <= k < 32 * (n / 32) ==> output[k] == StreamSlot(src[..], entry, w, k)
    ensures forall k :: 32 * (n / 32) <= k < output.Length ==> output[k] == old(output[k])
  {
    var encode, j, i := entry, 0, 32;
    hide StreamSlot;
    ghost var g := 0;
    ghost var s := src[..];
    while i <= n
      invariant 0 <= g <= n / 32 && j == 32 * g && i == 32 * g + 32 && encode == entry + 4 * w * g
      invariant forall k :: 0 <= k < j ==> output[k] == StreamSlot(s, entry, w, k)
      invariant forall k :: j <= k < output.Length ==> output[k] == old(output[k])
      decreases n + 32 - i
    {
      GroupInside(4 * w, g, n / 32);
      UnpackGroup(output, j, src, encode, w);
      forall k | j <= k < j + 32 ensures output[k] == StreamSlot(s, entry, w, k) {
        SlotOfGroup(s, entry, w, g, k - j);
      }
      encode := encode + 4 * w;
      j := j + 32;
      i := i + 32;
      g := g + 1;
    }
  }

  lemma GroupInside(c: nat, g: nat, m: nat)
    requires g < m
    ensures c * (g + 1) == c * g + c <= c * m
  {
    var d := m - (g + 1);
    assert c * m == c * (g + 1 + d) == c * (g + 1) + c * d;
  }

  lemma SlotOfGroup(s: seq<u8>, entry: nat, w: nat, g: nat, k: nat)
    requires 1 <= w <= 32
    ensures StreamSlot(s, entry + 4 * w * g, w, k) == StreamSlot(s, entry, w, 32 * g + k)
  {
    SlotBitsProduct(w, k);
    SlotBitsProduct(w, 32 * g + k);
    assert (32 * g + k) * w == 32 * g * w + k * w;
    assert 8 * (entry + 4 * w * g) + k * w == 8 * entry + (32 * g + k) * w;
  }

  // The 32 statements of one group
  method UnpackGroup(output: array<u32>, j: nat, src: array<u8>, q: nat, w: nat)
    requires 1 <= w <= 32
    requires j + 32 <= output.Length && q + 4 * w <= src.Length
    modifies output
    ensures forall m :: j <= m < j + 32 ==> output[m] == StreamSlot(src[..], q, w, m - j)
    ensures forall m :: 0 <= m < output.Length && !(j <= m < j + 32) ==> output[m] == old(output[m])
  {
    hide StreamSlot, UnpackStatement;
    ghost var s := src[..];
    for k := 0 to 32
      invariant forall m :: j <= m < j + k ==> output[m] == StreamSlot(s, q, w, m - j)
      invariant forall m :: 0 <= m < output.Length && !(j <= m < j + k) ==> output[m] == old(output[m])
    {
      output[j + k] := UnpackStatement(w, k, src[..], q);
    }
  }
}
