/** Arithmetic in GF(2^8), sections 4.1 and 4.2 of FIPS 197, and the identity the inverse
    cipher rests on: InvMixColumns undoes MixColumns.  The identity needs only that
    multiplication by {02} is additive, so it is proved for every additive map `x`;
    `Xtime` is the one FIPS 197 uses. */
module Gf256 {

  function Plus(a: bv8, b: bv8): bv8 { a ^ b }

  /** Multiplication by {02}: a shift, reduced by x^8 + x^4 + x^3 + x + 1. */
  function Xtime(a: bv8): bv8 {
    (a << 1) ^ (if a & 0x80 == 0 then 0 else 0x1b)
  }

  lemma XtimeAdds(a: bv8, b: bv8)
    ensures Xtime(a ^ b) == Xtime(a) ^ Xtime(b)
  {
    if a & 0x80 == 0 {
      if b & 0x80 == 0 {} else {}
    } else {
      if b & 0x80 == 0 {} else {}
    }
  }

  /** The product of `a` and `n`: the sum of the multiples of `a` that the bits of `n` select. */
  function Mul(a: bv8, n: bv8): bv8 {
    var a1 := Xtime(a);
    var a2 := Xtime(a1);
    var a3 := Xtime(a2);
    var a4 := Xtime(a3);
    var a5 := Xtime(a4);
    var a6 := Xtime(a5);
    var a7 := Xtime(a6);
    (if n & 0x01 == 0 then 0 else a) ^ (if n & 0x02 == 0 then 0 else a1) ^
    (if n & 0x04 == 0 then 0 else a2) ^ (if n & 0x08 == 0 then 0 else a3) ^
    (if n & 0x10 == 0 then 0 else a4) ^ (if n & 0x20 == 0 then 0 else a5) ^
    (if n & 0x40 == 0 then 0 else a6) ^ (if n & 0x80 == 0 then 0 else a7)
  }

  /** The shift-and-mask step that aes_keyexpand128 applies to its round constant. */
  function NextRcon(r: bv8): bv8 {
    ((r << 1) & 0xfe) ^ ((r >> 3) & 0x10) ^ ((r >> 4) & 0x08) ^ ((r >> 6) & 0x02) ^ (r >> 7)
  }

  lemma NextRconIsXtime(r: bv8)
    ensures NextRcon(r) == Xtime(r)
  {
  }

  lemma PlusAssociates(a: bv8, b: bv8, c: bv8)
    ensures Plus(Plus(a, b), c) == Plus(a, Plus(b, c))
  {
  }

  lemma PlusZero(a: bv8)
    ensures Plus(a, 0) == a
  {
  }

  ghost predicate IsLinear(x: bv8 -> bv8) {
    forall a, b :: x(Plus(a, b)) == Plus(x(a), x(b))
  }

  type Linear = x: bv8 -> bv8 | IsLinear(x) witness a => a

  lemma XtimeIsLinear()
    ensures IsLinear(Xtime)
  {
    forall a, b {
      XtimeAdds(a, b);
    }
  }

  // Products by the constants of sections 5.1.3 and 5.3.3, from repeated application of x

  function Times3(x: Linear, a: bv8): bv8 { Plus(x(a), a) }
  function Times9(x: Linear, a: bv8): bv8 { Plus(x(x(x(a))), a) }
  function TimesB(x: Linear, a: bv8): bv8 { Plus(Plus(x(x(x(a))), x(a)), a) }
  function TimesD(x: Linear, a: bv8): bv8 { Plus(Plus(x(x(x(a))), x(x(a))), a) }
  function TimesE(x: Linear, a: bv8): bv8 { Plus(Plus(x(x(x(a))), x(x(a))), x(a)) }

  /** One output byte of MixColumns. */
  function Mix(x: Linear, a: bv8, b: bv8, c: bv8, d: bv8): bv8 {
    Plus(Plus(x(a), Times3(x, b)), Plus(c, d))
  }

  /** One output byte of InvMixColumns. */
  function Unmix(x: Linear, a: bv8, b: bv8, c: bv8, d: bv8): bv8 {
    Plus(Plus(TimesE(x, a), TimesB(x, b)), Plus(TimesD(x, c), Times9(x, d)))
  }

  // Rearranging sums

  lemma Commute(a: bv8, b: bv8)
    ensures Plus(a, b) == Plus(b, a)
  {
  }

  lemma Swap(a: bv8, b: bv8, c: bv8, d: bv8)
    ensures Plus(Plus(a, b), Plus(c, d)) == Plus(Plus(a, c), Plus(b, d))
  {
    PlusAssociates(a, b, Plus(c, d));
    PlusAssociates(b, c, d);
    Commute(b, c);
    PlusAssociates(c, b, d);
    PlusAssociates(a, c, Plus(b, d));
  }

  lemma RotateRight(a: bv8, b: bv8, c: bv8, d: bv8)
    ensures Plus(Plus(a, b), Plus(c, d)) == Plus(Plus(d, a), Plus(b, c))
  {
    PlusAssociates(Plus(a, b), c, d);
    Commute(Plus(Plus(a, b), c), d);
    PlusAssociates(a, b, c);
    PlusAssociates(d, a, Plus(b, c));
  }

  lemma RotateLeft(a: bv8, b: bv8, c: bv8, d: bv8)
    ensures Plus(Plus(a, b), Plus(c, d)) == Plus(Plus(b, c), Plus(d, a))
  {
    RotateRight(b, c, d, a);
  }

  lemma RotateTwo(a: bv8, b: bv8, c: bv8, d: bv8)
    ensures Plus(Plus(a, b), Plus(c, d)) == Plus(Plus(c, d), Plus(a, b))
  {
    Commute(Plus(a, b), Plus(c, d));
  }

  lemma Swap3(p: bv8, p': bv8, q: bv8, q': bv8, r: bv8, r': bv8)
    ensures Plus(Plus(Plus(p, p'), Plus(q, q')), Plus(r, r')) == Plus(Plus(Plus(p, q), r), Plus(Plus(p', q'), r'))
  {
    Swap(p, p', q, q');
    Swap(Plus(p, q), Plus(p', q'), r, r');
  }

  lemma Swap4(p: bv8, p': bv8, q: bv8, q': bv8, r: bv8, r': bv8, s: bv8, s': bv8)
    ensures Plus(Plus(Plus(p, p'), Plus(q, q')), Plus(Plus(r, r'), Plus(s, s')))
         == Plus(Plus(Plus(p, q), Plus(r, s)), Plus(Plus(p', q'), Plus(r', s')))
  {
    Swap(p, p', q, q');
    Swap(r, r', s, s');
    Swap(Plus(p, q), Plus(p', q'), Plus(r, s), Plus(r', s'));
  }

  lemma PlusTwice(a: bv8, b: bv8)
    ensures Plus(Plus(a, b), b) == a
  {
  }

  // Unmix is additive in its four arguments together

  lemma Times9Adds(x: Linear, a: bv8, b: bv8)
    ensures Times9(x, Plus(a, b)) == Plus(Times9(x, a), Times9(x, b))
  {
    Swap(x(x(x(a))), x(x(x(b))), a, b);
  }

  lemma TimesBAdds(x: Linear, a: bv8, b: bv8)
    ensures TimesB(x, Plus(a, b)) == Plus(TimesB(x, a), TimesB(x, b))
  {
    Swap3(x(x(x(a))), x(x(x(b))), x(a), x(b), a, b);
  }

  lemma TimesDAdds(x: Linear, a: bv8, b: bv8)
    ensures TimesD(x, Plus(a, b)) == Plus(TimesD(x, a), TimesD(x, b))
  {
    Swap3(x(x(x(a))), x(x(x(b))), x(x(a)), x(x(b)), a, b);
  }

  lemma TimesEAdds(x: Linear, a: bv8, b: bv8)
    ensures TimesE(x, Plus(a, b)) == Plus(TimesE(x, a), TimesE(x, b))
  {
    Swap3(x(x(x(a))), x(x(x(b))), x(x(a)), x(x(b)), x(a), x(b));
  }

  lemma UnmixAdds(x: Linear, a: bv8, b: bv8, c: bv8, d: bv8, a': bv8, b': bv8, c': bv8, d': bv8)
    ensures Unmix(x, Plus(a, a'), Plus(b, b'), Plus(c, c'), Plus(d, d'))
         == Plus(Unmix(x, a, b, c, d), Unmix(x, a', b', c', d'))
  {
    TimesEAdds(x, a, a');
    TimesBAdds(x, b, b');
    TimesDAdds(x, c, c');
    Times9Adds(x, d, d');
    Swap4(TimesE(x, a), TimesE(x, a'), TimesB(x, b), TimesB(x, b'),
          TimesD(x, c), TimesD(x, c'), Times9(x, d), Times9(x, d'));
  }

  // The four columns of the matrix product.  Below, a1 .. a4 stand for x(a) .. x(x(x(x(a)))).

  lemma Sum3(a: bv8, b: bv8, c: bv8)
    ensures Plus(Plus(a, b), c) == a ^ b ^ c
  {
  }

  lemma Sum4(a: bv8, b: bv8, c: bv8, d: bv8)
    ensures Plus(Plus(a, b), Plus(c, d)) == a ^ b ^ c ^ d
  {
  }

  lemma SumPairs(a: bv8, b: bv8, c: bv8, d: bv8)
    ensures Plus(Plus(Plus(a, b), Plus(b, c)), Plus(c, d)) == a ^ d
  {
  }

  lemma SumTriple(a: bv8, b: bv8, c: bv8, d: bv8, e: bv8)
    ensures Plus(Plus(Plus(a, b), Plus(c, d)), Plus(d, e)) == a ^ b ^ c ^ e
  {
  }

  lemma SumTriple'(a: bv8, b: bv8, c: bv8, d: bv8, e: bv8)
    ensures Plus(Plus(Plus(a, b), Plus(b, c)), Plus(d, e)) == a ^ c ^ d ^ e
  {
  }

  lemma Column0Left(a: bv8, a1: bv8, a2: bv8, a3: bv8, a4: bv8)
    ensures Plus(a4 ^ a3 ^ a2, a3 ^ a1 ^ a) == a4 ^ a2 ^ a1 ^ a
  {
  }

  lemma Column0Right(a: bv8, a1: bv8, a2: bv8, a3: bv8, a4: bv8)
    ensures Plus(a3 ^ a2 ^ a, a4 ^ a3 ^ a1 ^ a) == a4 ^ a2 ^ a1
  {
  }

  lemma Column0Total(a: bv8, a1: bv8, a2: bv8, a4: bv8)
    ensures Plus(a4 ^ a2 ^ a1 ^ a, a4 ^ a2 ^ a1) == a
  {
  }

  lemma Column0(x: Linear, a: bv8)
    ensures Unmix(x, x(a), a, a, Times3(x, a)) == a
  {
    var a1 := x(a);
    var a2 := x(a1);
    var a3 := x(a2);
    var a4 := x(a3);
    Sum3(a4, a3, a2);
    Sum3(a3, a1, a);
    Sum3(a3, a2, a);
    Sum4(a4, a3, a1, a);
    Column0Left(a, a1, a2, a3, a4);
    Column0Right(a, a1, a2, a3, a4);
    Column0Total(a, a1, a2, a4);
  }

  lemma Column1Left(a1: bv8, a2: bv8, a4: bv8)
    ensures Plus(a4 ^ a1, a4 ^ a2 ^ a1) == a2
  {
  }

  lemma Column1Right(a: bv8, a2: bv8, a3: bv8)
    ensures Plus(a3 ^ a2 ^ a, Plus(a3, a)) == a2
  {
  }

  lemma SelfSum(a: bv8)
    ensures Plus(a, a) == 0
  {
  }

  lemma Column1(x: Linear, a: bv8)
    ensures Unmix(x, Times3(x, a), x(a), a, a) == 0
  {
    var a1 := x(a);
    var a2 := x(a1);
    var a3 := x(a2);
    var a4 := x(a3);
    SumPairs(a4, a3, a2, a1);
    Sum3(a4, a2, a1);
    Sum3(a3, a2, a);
    Column1Left(a1, a2, a4);
    Column1Right(a, a2, a3);
    SelfSum(a2);
  }

  lemma Column2Left(a: bv8, a1: bv8, a2: bv8, a3: bv8, a4: bv8)
    ensures Plus(a3 ^ a2 ^ a1, a4 ^ a3 ^ a2 ^ a) == a4 ^ a1 ^ a
  {
  }

  lemma Column2Right(a: bv8, a1: bv8, a3: bv8, a4: bv8)
    ensures Plus(a4 ^ a3 ^ a1, Plus(a3, a)) == a4 ^ a1 ^ a
  {
  }

  lemma Column2Total(a: bv8, a1: bv8, a4: bv8)
    ensures Plus(a4 ^ a1 ^ a, a4 ^ a1 ^ a) == 0
  {
  }

  lemma Column2(x: Linear, a: bv8)
    ensures Unmix(x, a, Times3(x, a), x(a), a) == 0
  {
    var a1 := x(a);
    var a2 := x(a1);
    var a3 := x(a2);
    var a4 := x(a3);
    Sum3(a3, a2, a1);
    SumTriple(a4, a3, a2, a1, a);
    Sum3(a4, a3, a1);
    Column2Left(a, a1, a2, a3, a4);
    Column2Right(a, a1, a3, a4);
    Column2Total(a, a1, a4);
  }

  lemma Column3Left(a: bv8, a1: bv8, a2: bv8, a3: bv8)
    ensures Plus(a3 ^ a2 ^ a1, a3 ^ a1 ^ a) == a2 ^ a
  {
  }

  lemma Column3Right(a: bv8, a1: bv8, a2: bv8, a4: bv8)
    ensures Plus(a4 ^ a2 ^ a1 ^ a, Plus(a4, a1)) == a2 ^ a
  {
  }

  lemma Column3Total(a: bv8, a2: bv8)
    ensures Plus(a2 ^ a, a2 ^ a) == 0
  {
  }

  lemma Column3(x: Linear, a: bv8)
    ensures Unmix(x, a, a, Times3(x, a), x(a)) == 0
  {
    var a1 := x(a);
    var a2 := x(a1);
    var a3 := x(a2);
    var a4 := x(a3);
    Sum3(a3, a2, a1);
    Sum3(a3, a1, a);
    SumTriple'(a4, a3, a2, a1, a);
    Column3Left(a, a1, a2, a3);
    Column3Right(a, a1, a2, a4);
    Column3Total(a, a2);
  }

  lemma SumZeros(a: bv8)
    ensures Plus(Plus(a, 0), Plus(0, 0)) == a
  {
  }

  /** The first row of the product of the two matrices of FIPS 197; the other rows are the
      same statement with the four bytes rotated. */
  lemma UnmixMix(x: Linear, a: bv8, b: bv8, c: bv8, d: bv8)
    ensures Unmix(x, Mix(x, a, b, c, d), Mix(x, b, c, d, a), Mix(x, c, d, a, b), Mix(x, d, a, b, c)) == a
  {
    var a2, b2, c2, d2 := x(a), x(b), x(c), x(d);
    var a3, b3, c3, d3 := Times3(x, a), Times3(x, b), Times3(x, c), Times3(x, d);
    RotateRight(b2, c3, d, a);
    RotateTwo(c2, d3, a, b);
    RotateLeft(d2, a3, b, c);
    Column0(x, a);
    Column1(x, b);
    Column2(x, c);
    Column3(x, d);
    UnmixAdds(x, a2, a, a, a3, b3, b2, b, b);
    UnmixAdds(x, c, c3, c2, c, d, d, d3, d2);
    UnmixAdds(x, Plus(a2, b3), Plus(a, b2), Plus(a, b), Plus(a3, b), Plus(c, d), Plus(c3, d), Plus(c2, d3), Plus(c, d2));
    SumZeros(a);
  }
}
