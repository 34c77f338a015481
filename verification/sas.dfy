/** The short authentication string: three numbers of 13 bits cut from five bytes. */
module Sas {

  datatype Numbers = Numbers(first: bv16, second: bv16, third: bv16)

  function First(a: bv8, b: bv8): bv16 {
    (((a as bv16) << 5) | ((b >> 3) as bv16)) + 1000
  }

  function Second(a: bv8, b: bv8, c: bv8): bv16 {
    ((((a & 7) as bv16) << 10) | ((b as bv16) << 2) | ((c >> 6) as bv16)) + 1000
  }

  function Third(a: bv8, b: bv8): bv16 {
    ((((a & 63) as bv16) << 7) | ((b >> 1) as bv16)) + 1000
  }

  function Decimals(o32: bv8, o33: bv8, o34: bv8, o35: bv8, o36: bv8): Numbers {
    Numbers(First(o32, o33), Second(o33, o34, o35), Third(o35, o36))
  }

  lemma DecimalsInRange(o32: bv8, o33: bv8, o34: bv8, o35: bv8, o36: bv8)
    ensures var n := Decimals(o32, o33, o34, o35, o36);
            1000 <= n.first <= 9191 && 1000 <= n.second <= 9191 && 1000 <= n.third <= 9191
  {
  }

  /** The first number carries byte 32 and the top five bits of byte 33, and nothing else. */
  lemma FirstNumber(a: bv8, b: bv8, c: bv8, d: bv8)
    ensures First(a, b) == First(c, d) <==> a == c && b >> 3 == d >> 3
  {
  }

  /** The second carries the low three bits of byte 33, byte 34, and the top two bits of byte 35. */
  lemma SecondNumber(a: bv8, b: bv8, c: bv8, d: bv8, e: bv8, f: bv8)
    ensures Second(a, b, c) == Second(d, e, f) <==> a & 7 == d & 7 && b == e && c >> 6 == f >> 6
  {
  }

  /** The third carries the low six bits of byte 35 and the top seven bits of byte 36. */
  lemma ThirdNumber(a: bv8, b: bv8, c: bv8, d: bv8)
    ensures Third(a, b) == Third(c, d) <==> a & 63 == c & 63 && b >> 1 == d >> 1
  {
  }

  lemma Halves(a: bv8, b: bv8)
    ensures a == b <==> a >> 3 == b >> 3 && a & 7 == b & 7
    ensures a == b <==> a >> 6 == b >> 6 && a & 63 == b & 63
  {
  }

  /** The three numbers determine exactly the top 39 of the 40 bits used. */
  lemma DecimalsDetermine39Bits(
    o32: bv8, o33: bv8, o34: bv8, o35: bv8, o36: bv8, p32: bv8, p33: bv8, p34: bv8, p35: bv8, p36: bv8)
    ensures Decimals(o32, o33, o34, o35, o36) == Decimals(p32, p33, p34, p35, p36)
       <==> o32 == p32 && o33 == p33 && o34 == p34 && o35 == p35 && o36 >> 1 == p36 >> 1
  {
    FirstNumber(o32, o33, p32, p33);
    SecondNumber(o33, o34, o35, p33, p34, p35);
    ThirdNumber(o35, o36, p35, p36);
    Halves(o33, p33);
    Halves(o35, p35);
  }

  /** Five bytes as one number, high byte first. */
  function Bits(o32: bv8, o33: bv8, o34: bv8, o35: bv8, o36: bv8): bv40 {
    ((o32 as bv40) << 32) | ((o33 as bv40) << 24) | ((o34 as bv40) << 16) | ((o35 as bv40) << 8) | (o36 as bv40)
  }

  /** Put together, the numbers less 1000 are the five bytes without their last bit, 13 bits each. */
  lemma NumbersAreTheBits(o32: bv8, o33: bv8, o34: bv8, o35: bv8, o36: bv8)
    ensures var n := Decimals(o32, o33, o34, o35, o36);
            (((n.first - 1000) as bv40) << 26) | (((n.second - 1000) as bv40) << 13) | ((n.third - 1000) as bv40)
            == Bits(o32, o33, o34, o35, o36) >> 1
  {
  }
}
