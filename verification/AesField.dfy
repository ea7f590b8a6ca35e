/**
 Arithmetic of FIPS 197: bytes as elements of GF(2^8), multiplication by small
 polynomials in x, and MixColumns with its inverse on one column.

 Facts about single bit operations are proved once, here, for one addition and
 one shift; everything above them is algebra over Add and X.
 */
module AesField {

  // ---- addition ---------------------------------------------------------------

  function Add(a: bv8, b: bv8): bv8 { a ^ b }

  lemma AddComm(a: bv8, b: bv8)
    ensures Add(a, b) == Add(b, a)
  {
  }

  lemma AddAssoc(a: bv8, b: bv8, c: bv8)
    ensures Add(Add(a, b), c) == Add(a, Add(b, c))
  {
  }

  lemma AddZero(a: bv8)
    ensures Add(a, 0) == a && Add(0, a) == a && Add(a, a) == 0
  {
  }

  lemma AddSwap(a: bv8, b: bv8, c: bv8, d: bv8)
    ensures Add(Add(a, b), Add(c, d)) == Add(Add(a, c), Add(b, d))
  {
    hide Add;
    AddAssoc(a, b, Add(c, d));
    AddAssoc(b, c, d);
    AddComm(b, c);
    AddAssoc(c, b, d);
    AddAssoc(a, c, Add(b, d));
  }

  lemma AddCancels(a: bv8, b: bv8)
    ensures Add(Add(a, b), b) == a
  {
    hide Add;
    AddAssoc(a, b, b);
    AddZero(b);
    AddZero(a);
  }

  // ---- multiplication by x ------------------------------------------------------

  predicate High(b: bv8) { b & 0x80 != 0 }

  function Shift(b: bv8): bv8 { b << 1 }

  /** What xtime adds after the shift to stay below x^8. */
  function Reduce(b: bv8): bv8 { if High(b) then 0x1b else 0 }

  /** xtime, section 4.2.1 of FIPS 197. */
  function X(b: bv8): bv8 { Add(Shift(b), Reduce(b)) }

  lemma HighAdd(a: bv8, b: bv8)
    ensures High(a ^ b) == (High(a) != High(b))
  {
  }

  lemma ReduceAdd(a: bv8, b: bv8)
    ensures Reduce(Add(a, b)) == Add(Reduce(a), Reduce(b))
  {
    hide High;
    HighAdd(a, b);
  }

  lemma ShiftAdd(a: bv8, b: bv8)
    ensures Shift(Add(a, b)) == Add(Shift(a), Shift(b))
  {
  }

  lemma XAdd(a: bv8, b: bv8)
    ensures X(Add(a, b)) == Add(X(a), X(b))
  {
    hide Reduce, Shift, Add;
    ReduceAdd(a, b);
    ShiftAdd(a, b);
    AddSwap(Shift(a), Shift(b), Reduce(a), Reduce(b));
  }

  // ---- multiplication by a polynomial of degree at most 4 -------------------------

  /** p0 + p1 x + p2 x^2 + p3 x^3 + p4 x^4 over GF(2). */
  datatype Poly = Poly(p0: Bit, p1: Bit, p2: Bit, p3: Bit, p4: Bit)

  datatype Bit = Zero | One

  function Plus(f: Bit, g: Bit): Bit { if f == g then Zero else One }

  const P0 := Poly(Zero, Zero, Zero, Zero, Zero)
  const P1 := Poly(One, Zero, Zero, Zero, Zero)
  const P2 := Poly(Zero, One, Zero, Zero, Zero)
  const P3 := Poly(One, One, Zero, Zero, Zero)
  const P9 := Poly(One, Zero, Zero, One, Zero)
  const PB := Poly(One, One, Zero, One, Zero)
  const PD := Poly(One, Zero, One, One, Zero)
  const PE := Poly(Zero, One, One, One, Zero)

  function Sum(p: Poly, q: Poly): Poly {
    Poly(Plus(p.p0, q.p0), Plus(p.p1, q.p1), Plus(p.p2, q.p2), Plus(p.p3, q.p3), Plus(p.p4, q.p4))
  }

  /** x times a polynomial of degree at most 3. */
  function ShiftUp(p: Poly): Poly {
    Poly(Zero, p.p0, p.p1, p.p2, p.p3)
  }

  /** p (q0 + q1 x) */
  function Product(p: Poly, q: Poly): Poly {
    Sum(if q.p0.One? then p else P0, if q.p1.One? then ShiftUp(p) else P0)
  }

  function Select(f: Bit, b: bv8): bv8 { if f.One? then b else 0 }

  /** Multiplication of a byte by p: the selected powers x^i b added up. */
  function Times(p: Poly, b: bv8): bv8 {
    Add(Select(p.p0, b),
        Add(Select(p.p1, X(b)),
            Add(Select(p.p2, X(X(b))),
                Add(Select(p.p3, X(X(X(b)))), Select(p.p4, X(X(X(X(b)))))))))
  }

  lemma SelectSum(f: Bit, g: Bit, b: bv8)
    ensures Add(Select(f, b), Select(g, b)) == Select(Plus(f, g), b)
  {
    hide Add;
    AddZero(b);
    AddZero(0);
  }

  lemma SelectAdd(f: Bit, a: bv8, b: bv8)
    ensures Select(f, Add(a, b)) == Add(Select(f, a), Select(f, b))
  {
    hide Add;
    AddZero(0);
  }

  /** (a0 + (a1 + (a2 + (a3 + a4)))) + (b0 + ...) term by term. */
  lemma AddFive(a0: bv8, a1: bv8, a2: bv8, a3: bv8, a4: bv8, b0: bv8, b1: bv8, b2: bv8, b3: bv8, b4: bv8)
    ensures Add(Add(a0, Add(a1, Add(a2, Add(a3, a4)))), Add(b0, Add(b1, Add(b2, Add(b3, b4)))))
         == Add(Add(a0, b0), Add(Add(a1, b1), Add(Add(a2, b2), Add(Add(a3, b3), Add(a4, b4)))))
  {
    hide Add;
    AddSwap(a0, Add(a1, Add(a2, Add(a3, a4))), b0, Add(b1, Add(b2, Add(b3, b4))));
    AddSwap(a1, Add(a2, Add(a3, a4)), b1, Add(b2, Add(b3, b4)));
    AddSwap(a2, Add(a3, a4), b2, Add(b3, b4));
    AddSwap(a3, a4, b3, b4);
  }

  lemma TimesSum(p: Poly, q: Poly, b: bv8)
    ensures Times(Sum(p, q), b) == Add(Times(p, b), Times(q, b))
  {
    hide Add, X, Select, Plus;
    var x1 := X(b);
    var x2 := X(x1);
    var x3 := X(x2);
    var x4 := X(x3);
    SelectSum(p.p0, q.p0, b);
    SelectSum(p.p1, q.p1, x1);
    SelectSum(p.p2, q.p2, x2);
    SelectSum(p.p3, q.p3, x3);
    SelectSum(p.p4, q.p4, x4);
    AddFive(Select(p.p0, b), Select(p.p1, x1), Select(p.p2, x2), Select(p.p3, x3), Select(p.p4, x4),
            Select(q.p0, b), Select(q.p1, x1), Select(q.p2, x2), Select(q.p3, x3), Select(q.p4, x4));
  }

  lemma TimesAdd(p: Poly, a: bv8, b: bv8)
    ensures Times(p, Add(a, b)) == Add(Times(p, a), Times(p, b))
  {
    hide Add, X, Select;
    var a1, b1 := X(a), X(b);
    var a2, b2 := X(a1), X(b1);
    var a3, b3 := X(a2), X(b2);
    XAdd(a, b);
    XAdd(a1, b1);
    XAdd(a2, b2);
    XAdd(a3, b3);
    SelectAdd(p.p0, a, b);
    SelectAdd(p.p1, a1, b1);
    SelectAdd(p.p2, a2, b2);
    SelectAdd(p.p3, a3, b3);
    SelectAdd(p.p4, X(a3), X(b3));
    AddFive(Select(p.p0, a), Select(p.p1, a1), Select(p.p2, a2), Select(p.p3, a3), Select(p.p4, X(a3)),
            Select(p.p0, b), Select(p.p1, b1), Select(p.p2, b2), Select(p.p3, b3), Select(p.p4, X(b3)));
  }

  lemma TimesZero(p: Poly, b: bv8)
    ensures Times(P0, b) == 0 && Times(P1, b) == b && Times(p, 0) == 0
  {
    hide Add;
    AddZero(0);
    AddZero(b);
    XZero();
  }

  lemma XZero()
    ensures X(0) == 0
  {
  }

  lemma TimesShift(p: Poly, b: bv8)
    requires p.p4.Zero?
    ensures Times(ShiftUp(p), b) == Times(p, X(b))
  {
    hide Add, X;
    var tail := Select(p.p3, X(X(X(X(b)))));
    AddZero(tail);
    AddZero(Add(Select(p.p0, X(b)), Add(Select(p.p1, X(X(b))), Add(Select(p.p2, X(X(X(b)))), tail))));
  }

  /** Multiplying by q and then by p is multiplying by their product. */
  lemma TimesProduct(p: Poly, q: Poly, b: bv8)
    requires p.p4.Zero? && q.p2.Zero? && q.p3.Zero? && q.p4.Zero?
    ensures Times(p, Times(q, b)) == Times(Product(p, q), b)
  {
    hide Add, X, Times, Sum, ShiftUp;
    assert Times(q, b) == Add(Select(q.p0, b), Select(q.p1, X(b))) by { TimesLinear(q, b); }
    TimesAdd(p, Select(q.p0, b), Select(q.p1, X(b)));
    TimesSum(if q.p0.One? then p else P0, if q.p1.One? then ShiftUp(p) else P0, b);
    TimesZero(p, b);
    TimesShift(p, b);
  }

  lemma TimesLinear(q: Poly, b: bv8)
    requires q.p2.Zero? && q.p3.Zero? && q.p4.Zero?
    ensures Times(q, b) == Add(Select(q.p0, b), Select(q.p1, X(b)))
  {
    hide Add, X;
    AddZero(0);
    AddZero(Select(q.p1, X(b)));
  }

  // ---- columns -------------------------------------------------------------------

  /** One column of the state, or one 32-bit word: four bytes, row 0 first. */
  datatype Col = Col(b0: bv8, b1: bv8, b2: bv8, b3: bv8)

  function Xor(a: Col, b: Col): Col {
    Col(Add(a.b0, b.b0), Add(a.b1, b.b1), Add(a.b2, b.b2), Add(a.b3, b.b3))
  }

  lemma XorCancels(a: Col, b: Col)
    ensures Xor(Xor(a, b), b) == a
  {
    hide Add;
    AddCancels(a.b0, b.b0);
    AddCancels(a.b1, b.b1);
    AddCancels(a.b2, b.b2);
    AddCancels(a.b3, b.b3);
  }

  /** A row of a matrix of polynomials applied to a column. */
  function Row(p: Poly, q: Poly, r: Poly, s: Poly, c: Col): bv8 {
    Add(Add(Add(Times(p, c.b0), Times(q, c.b1)), Times(r, c.b2)), Times(s, c.b3))
  }

  /** MixColumns on one column, section 5.1.3 of FIPS 197. */
  function Mix(c: Col): Col {
    Col(Row(P2, P3, P1, P1, c), Row(P1, P2, P3, P1, c), Row(P1, P1, P2, P3, c), Row(P3, P1, P1, P2, c))
  }

  /** InvMixColumns on one column, section 5.3.3 of FIPS 197. */
  function InvMix(c: Col): Col {
    Col(Row(PE, PB, PD, P9, c), Row(P9, PE, PB, PD, c), Row(PD, P9, PE, PB, c), Row(PB, PD, P9, PE, c))
  }

  lemma AddFour(a: bv8, b: bv8, c: bv8, d: bv8, a': bv8, b': bv8, c': bv8, d': bv8)
    ensures Add(Add(Add(Add(a, b), c), d), Add(Add(Add(a', b'), c'), d'))
         == Add(Add(Add(Add(a, a'), Add(b, b')), Add(c, c')), Add(d, d'))
  {
    hide Add;
    AddSwap(Add(Add(a, b), c), d, Add(Add(a', b'), c'), d');
    AddSwap(Add(a, b), c, Add(a', b'), c');
    AddSwap(a, b, a', b');
  }

  lemma RowSum(p: Poly, q: Poly, r: Poly, s: Poly, p': Poly, q': Poly, r': Poly, s': Poly, c: Col)
    ensures Add(Row(p, q, r, s, c), Row(p', q', r', s', c))
         == Row(Sum(p, p'), Sum(q, q'), Sum(r, r'), Sum(s, s'), c)
  {
    hide Add, Times, Sum;
    AddFour(Times(p, c.b0), Times(q, c.b1), Times(r, c.b2), Times(s, c.b3),
            Times(p', c.b0), Times(q', c.b1), Times(r', c.b2), Times(s', c.b3));
    TimesSum(p, p', c.b0);
    TimesSum(q, q', c.b1);
    TimesSum(r, r', c.b2);
    TimesSum(s, s', c.b3);
  }

  lemma RowXor(p: Poly, q: Poly, r: Poly, s: Poly, a: Col, b: Col)
    ensures Row(p, q, r, s, Xor(a, b)) == Add(Row(p, q, r, s, a), Row(p, q, r, s, b))
  {
    hide Add, Times;
    TimesAdd(p, a.b0, b.b0);
    TimesAdd(q, a.b1, b.b1);
    TimesAdd(r, a.b2, b.b2);
    TimesAdd(s, a.b3, b.b3);
    AddFour(Times(p, a.b0), Times(q, a.b1), Times(r, a.b2), Times(s, a.b3),
            Times(p, b.b0), Times(q, b.b1), Times(r, b.b2), Times(s, b.b3));
  }

  /** InvMixColumns is linear: it can be moved across AddRoundKey. */
  lemma InvMixXor(a: Col, b: Col)
    ensures InvMix(Xor(a, b)) == Xor(InvMix(a), InvMix(b))
  {
    hide Add, Row;
    RowXor(PE, PB, PD, P9, a, b);
    RowXor(P9, PE, PB, PD, a, b);
    RowXor(PD, P9, PE, PB, a, b);
    RowXor(PB, PD, P9, PE, a, b);
  }

  predicate Small(p: Poly) { p.p2.Zero? && p.p3.Zero? && p.p4.Zero? }

  /** p times a row of MixColumns' matrix. */
  lemma TimesRow(p: Poly, q: Poly, r: Poly, s: Poly, t: Poly, c: Col)
    requires p.p4.Zero? && Small(q) && Small(r) && Small(s) && Small(t)
    ensures Times(p, Row(q, r, s, t, c)) == Row(Product(p, q), Product(p, r), Product(p, s), Product(p, t), c)
  {
    hide Add, Times, Product;
    var x, y, z, w := Times(q, c.b0), Times(r, c.b1), Times(s, c.b2), Times(t, c.b3);
    TimesAdd(p, Add(Add(x, y), z), w);
    TimesAdd(p, Add(x, y), z);
    TimesAdd(p, x, y);
    TimesProduct(p, q, c.b0);
    TimesProduct(p, r, c.b1);
    TimesProduct(p, s, c.b2);
    TimesProduct(p, t, c.b3);
  }

  /** Row 0 of the product of the two matrices is 1, 0, 0, 0. */
  lemma FirstByteBack(c: Col)
    ensures InvMix(Mix(c)).b0 == c.b0
  {
    hide Add, Times, Row;
    TimesRow(PE, P2, P3, P1, P1, c);
    TimesRow(PB, P1, P2, P3, P1, c);
    TimesRow(PD, P1, P1, P2, P3, c);
    TimesRow(P9, P3, P1, P1, P2, c);
    var e := Row(Product(PE, P2), Product(PE, P3), Product(PE, P1), Product(PE, P1), c);
    var b := Row(Product(PB, P1), Product(PB, P2), Product(PB, P3), Product(PB, P1), c);
    var d := Row(Product(PD, P1), Product(PD, P1), Product(PD, P2), Product(PD, P3), c);
    var n := Row(Product(P9, P3), Product(P9, P1), Product(P9, P1), Product(P9, P2), c);
    assert InvMix(Mix(c)).b0 == Add(Add(Add(e, b), d), n) by { RowDef(PE, PB, PD, P9, Mix(c)); }
    RowSum(Product(PE, P2), Product(PE, P3), Product(PE, P1), Product(PE, P1),
           Product(PB, P1), Product(PB, P2), Product(PB, P3), Product(PB, P1), c);
    var eb := Row(Sum(Product(PE, P2), Product(PB, P1)), Sum(Product(PE, P3), Product(PB, P2)),
                  Sum(Product(PE, P1), Product(PB, P3)), Sum(Product(PE, P1), Product(PB, P1)), c);
    assert Add(e, b) == eb;
    RowSum(Sum(Product(PE, P2), Product(PB, P1)), Sum(Product(PE, P3), Product(PB, P2)),
           Sum(Product(PE, P1), Product(PB, P3)), Sum(Product(PE, P1), Product(PB, P1)),
           Product(PD, P1), Product(PD, P1), Product(PD, P2), Product(PD, P3), c);
    var ebd := Row(Product(P9, P3).(p0 := Zero), Product(P9, P1), Product(P9, P1), Product(P9, P2), c);
    assert Add(eb, d) == ebd;
    RowSum(Product(P9, P3).(p0 := Zero), Product(P9, P1), Product(P9, P1), Product(P9, P2),
           Product(P9, P3), Product(P9, P1), Product(P9, P1), Product(P9, P2), c);
    assert Add(ebd, n) == Row(P1, P0, P0, P0, c);
    RowUnit(c);
  }

  lemma RowDef(p: Poly, q: Poly, r: Poly, s: Poly, c: Col)
    ensures Row(p, q, r, s, c)
         == Add(Add(Add(Times(p, c.b0), Times(q, c.b1)), Times(r, c.b2)), Times(s, c.b3))
  {
  }

  lemma RowUnit(c: Col)
    ensures Row(P1, P0, P0, P0, c) == c.b0
  {
    hide Add, Times;
    TimesZero(P0, c.b0);
    TimesZero(P0, c.b1);
    TimesZero(P0, c.b2);
    TimesZero(P0, c.b3);
    AddZero(c.b0);
  }

  function Rotate(c: Col): Col {
    Col(c.b1, c.b2, c.b3, c.b0)
  }

  lemma RowRotate(p: Poly, q: Poly, r: Poly, s: Poly, c: Col)
    ensures Row(p, q, r, s, Rotate(c)) == Row(s, p, q, r, c)
  {
    hide Add, Times;
    var w, x, y, z := Times(s, c.b0), Times(p, c.b1), Times(q, c.b2), Times(r, c.b3);
    AddComm(Add(Add(x, y), z), w);
    AddAssoc(w, Add(x, y), z);
    AddAssoc(w, x, y);
  }

  lemma MixRotate(c: Col)
    ensures Mix(Rotate(c)) == Rotate(Mix(c)) && InvMix(Rotate(c)) == Rotate(InvMix(c))
  {
    hide Row;
    RowRotate(P2, P3, P1, P1, c);
    RowRotate(P1, P2, P3, P1, c);
    RowRotate(P1, P1, P2, P3, c);
    RowRotate(P3, P1, P1, P2, c);
    RowRotate(PE, PB, PD, P9, c);
    RowRotate(P9, PE, PB, PD, c);
    RowRotate(PD, P9, PE, PB, c);
    RowRotate(PB, PD, P9, PE, c);
  }

  /** InvMixColumns undoes MixColumns. */
  lemma InvMixUndoesMix(c: Col)
    ensures InvMix(Mix(c)) == c
  {
    hide Mix, InvMix;
    var c1 := Rotate(c);
    var c2 := Rotate(c1);
    var c3 := Rotate(c2);
    MixRotate(c);
    MixRotate(c1);
    MixRotate(c2);
    MixRotate(Mix(c));
    MixRotate(Mix(c1));
    MixRotate(Mix(c2));
    FirstByteBack(c);
    FirstByteBack(c1);
    FirstByteBack(c2);
    FirstByteBack(c3);
  }

  lemma MixZero()
    ensures Mix(Col(0, 0, 0, 0)) == Col(0, 0, 0, 0)
  {
    hide Times, Add;
    RowZero(P2, P3, P1, P1);
    RowZero(P1, P2, P3, P1);
    RowZero(P1, P1, P2, P3);
    RowZero(P3, P1, P1, P2);
  }

  lemma RowZero(p: Poly, q: Poly, r: Poly, s: Poly)
    ensures Row(p, q, r, s, Col(0, 0, 0, 0)) == 0
  {
    hide Times, Add;
    TimesZero(p, 0);
    TimesZero(q, 0);
    TimesZero(r, 0);
    TimesZero(s, 0);
    AddZero(0);
  }
}
