/**
 The round transformations of AES (section 5 of FIPS 197) on 4-by-4 grids of bytes, and the
 proof that the inverse rounds undo them.
 */
module AesRounds {
  import opened CoreUtils
  import opened GaloisField
  import opened AesTables

  /** Four bytes: a row or a column of a state, or a word of the key schedule. */
  datatype Quad = Quad(a: Byte, b: Byte, c: Byte, d: Byte)

  /** A state: row r and column c hold the byte 4 * c + r of the block. */
  datatype Grid = Grid(row0: Quad, row1: Quad, row2: Quad, row3: Quad)

  predicate InGrid(r: int, c: int) {
    0 <= r < 4 && 0 <= c < 4
  }

  function Nth(q: Quad, i: int): Byte {
    if i == 0 then q.a else if i == 1 then q.b else if i == 2 then q.c else q.d
  }

  function Row(g: Grid, r: int): Quad {
    if r == 0 then g.row0 else if r == 1 then g.row1 else if r == 2 then g.row2 else g.row3
  }

  function Cell(g: Grid, r: int, c: int): Byte {
    Nth(Row(g, r), c)
  }

  function MakeRow(f: (int, int) -> Byte, r: int): (q: Quad)
    ensures forall c :: 0 <= c < 4 ==> Nth(q, c) == f(r, c)
  {
    Quad(f(r, 0), f(r, 1), f(r, 2), f(r, 3))
  }

  function Make(f: (int, int) -> Byte): (g: Grid)
    ensures forall r, c :: InGrid(r, c) ==> Cell(g, r, c) == f(r, c)
  {
    Grid(MakeRow(f, 0), MakeRow(f, 1), MakeRow(f, 2), MakeRow(f, 3))
  }

  lemma SameQuad(p: Quad, q: Quad)
    requires forall i :: 0 <= i < 4 ==> Nth(p, i) == Nth(q, i)
    ensures p == q
  {
    assert Nth(p, 0) == Nth(q, 0) && Nth(p, 1) == Nth(q, 1) && Nth(p, 2) == Nth(q, 2) && Nth(p, 3) == Nth(q, 3);
  }

  lemma SameGrid(g: Grid, h: Grid)
    requires forall r, c :: InGrid(r, c) ==> Cell(g, r, c) == Cell(h, r, c)
    ensures g == h
  {
    forall r | 0 <= r < 4 ensures Row(g, r) == Row(h, r) {
      forall c | 0 <= c < 4 ensures Nth(Row(g, r), c) == Nth(Row(h, r), c) {
        assert InGrid(r, c);
        assert Cell(g, r, c) == Cell(h, r, c);
      }
      SameQuad(Row(g, r), Row(h, r));
    }
    assert Row(g, 0) == Row(h, 0) && Row(g, 1) == Row(h, 1) && Row(g, 2) == Row(h, 2) && Row(g, 3) == Row(h, 3);
  }

  // ---------------------------------------------------------------- the transformations

  function SubBytes(g: Grid): Grid {
    Make((r, c) => SBox(Cell(g, r, c)))
  }

  function InvSubBytes(g: Grid): Grid {
    Make((r, c) => InvSBox(Cell(g, r, c)))
  }

  /** Row r moves r places to the left. */
  function ShiftRows(g: Grid): Grid {
    Grid(g.row0, Quad(g.row1.b, g.row1.c, g.row1.d, g.row1.a),
         Quad(g.row2.c, g.row2.d, g.row2.a, g.row2.b), Quad(g.row3.d, g.row3.a, g.row3.b, g.row3.c))
  }

  function InvShiftRows(g: Grid): Grid {
    Grid(g.row0, Quad(g.row1.d, g.row1.a, g.row1.b, g.row1.c),
         Quad(g.row2.c, g.row2.d, g.row2.a, g.row2.b), Quad(g.row3.b, g.row3.c, g.row3.d, g.row3.a))
  }

  /** The formula of section 5.1.2 of FIPS 197 for all four rotations. */
  lemma ShiftRowsRotates(g: Grid, r: int, c: int)
    requires InGrid(r, c)
    ensures Cell(ShiftRows(g), r, c) == Cell(g, r, (c + r) % 4)
    ensures Cell(InvShiftRows(g), r, (c + r) % 4) == Cell(g, r, c)
  {
    if r == 0 {} else if r == 1 {} else if r == 2 {} else {}
  }

  type RoundKey = b: seq<Byte> | |b| == 16 witness seq(16, _ => 0)

  /** The round key holds its bytes column by column. */
  function AddRoundKey(g: Grid, key: RoundKey): Grid {
    Make((r, c) => if InGrid(r, c) then Xor(Cell(g, r, c), key[4 * c + r]) else 0)
  }

  function Column(g: Grid, c: int): Quad {
    Quad(Cell(g, 0, c), Cell(g, 1, c), Cell(g, 2, c), Cell(g, 3, c))
  }

  function Sum4(p: Byte, q: Byte, r: Byte, s: Byte): Byte {
    Xor(Xor(p, q), Xor(r, s))
  }

  function Dot(x: Quad, k: Quad): Byte {
    Sum4(Times(x.a, k.a), Times(x.b, k.b), Times(x.c, k.c), Times(x.d, k.d))
  }

  /** Row r of the circulant matrix with the given first row. */
  function Circulant(first: Quad, r: int): Quad {
    if r == 0 then first
    else if r == 1 then Quad(first.d, first.a, first.b, first.c)
    else if r == 2 then Quad(first.c, first.d, first.a, first.b)
    else Quad(first.b, first.c, first.d, first.a)
  }

  const MIX := Quad(0x02, 0x03, 0x01, 0x01)
  const INV_MIX := Quad(0x0e, 0x0b, 0x0d, 0x09)

  /** Every column is multiplied by the matrix. */
  function Mixed(g: Grid, first: Quad): Grid {
    Make((r, c) => Dot(Column(g, c), Circulant(first, r)))
  }

  function MixColumns(g: Grid): Grid {
    Mixed(g, MIX)
  }

  function InvMixColumns(g: Grid): Grid {
    Mixed(g, INV_MIX)
  }

  lemma SubCell(g: Grid, r: int, c: int)
    requires InGrid(r, c)
    ensures Cell(SubBytes(g), r, c) == SBox(Cell(g, r, c)) && Cell(InvSubBytes(g), r, c) == InvSBox(Cell(g, r, c))
  {
    hide SBox, InvSBox, Cell;
  }

  lemma AddCell(g: Grid, key: RoundKey, r: int, c: int)
    requires InGrid(r, c)
    ensures Cell(AddRoundKey(g, key), r, c) == Xor(Cell(g, r, c), key[4 * c + r])
  {
    hide Xor, Cell;
  }

  // ---------------------------------------------------------------- each one is undone

  lemma SubBytesInverse(g: Grid)
    ensures InvSubBytes(SubBytes(g)) == g && SubBytes(InvSubBytes(g)) == g
  {
    hide SBox, InvSBox;
    forall r, c | InGrid(r, c)
      ensures Cell(InvSubBytes(SubBytes(g)), r, c) == Cell(g, r, c) == Cell(SubBytes(InvSubBytes(g)), r, c)
    {
      InverseOfSBox(Cell(g, r, c));
      SBoxOfInverse(Cell(g, r, c));
    }
    SameGrid(InvSubBytes(SubBytes(g)), g);
    SameGrid(SubBytes(InvSubBytes(g)), g);
  }

  lemma ShiftRowsInverse(g: Grid)
    ensures InvShiftRows(ShiftRows(g)) == g && ShiftRows(InvShiftRows(g)) == g
  {
  }

  lemma AddRoundKeyInverse(g: Grid, key: RoundKey)
    ensures AddRoundKey(AddRoundKey(g, key), key) == g
  {
    hide Xor;
    forall r, c | InGrid(r, c) ensures Cell(AddRoundKey(AddRoundKey(g, key), key), r, c) == Cell(g, r, c) {
      XorCancels(Cell(g, r, c), key[4 * c + r]);
    }
    SameGrid(AddRoundKey(AddRoundKey(g, key), key), g);
  }

  // ---------------------------------------------------------------- products of matrices over the field

  lemma Sum4Times(p: Byte, q: Byte, r: Byte, s: Byte, k: Byte)
    ensures Times(Sum4(p, q, r, s), k) == Sum4(Times(p, k), Times(q, k), Times(r, k), Times(s, k))
    ensures Times(k, Sum4(p, q, r, s)) == Sum4(Times(k, p), Times(k, q), Times(k, r), Times(k, s))
  {
    hide Xor, Times;
    Distributive(p, q, k);
    Distributive(r, s, k);
    Distributive(Xor(p, q), Xor(r, s), k);
    Distributive(k, p, q);
    Distributive(k, r, s);
    Distributive(k, Xor(p, q), Xor(r, s));
  }

  function SumQuad(x: Quad): Byte {
    Sum4(x.a, x.b, x.c, x.d)
  }

  lemma AddQuads(x: Quad, y: Quad)
    ensures Xor(SumQuad(x), SumQuad(y)) == Sum4(Xor(x.a, y.a), Xor(x.b, y.b), Xor(x.c, y.c), Xor(x.d, y.d))
  {
    hide Xor;
    XorShuffle(Xor(x.a, x.b), Xor(x.c, x.d), Xor(y.a, y.b), Xor(y.c, y.d));
    XorShuffle(x.a, x.b, y.a, y.b);
    XorShuffle(x.c, x.d, y.c, y.d);
  }

  /** Sixteen bytes can be summed by rows or by columns. */
  lemma SumTransposed(x: Quad, y: Quad, z: Quad, w: Quad)
    ensures Sum4(SumQuad(x), SumQuad(y), SumQuad(z), SumQuad(w))
         == Sum4(Sum4(x.a, y.a, z.a, w.a), Sum4(x.b, y.b, z.b, w.b), Sum4(x.c, y.c, z.c, w.c), Sum4(x.d, y.d, z.d, w.d))
  {
    hide Xor;
    AddQuads(x, y);
    AddQuads(z, w);
    AddQuads(Quad(Xor(x.a, y.a), Xor(x.b, y.b), Xor(x.c, y.c), Xor(x.d, y.d)),
             Quad(Xor(z.a, w.a), Xor(z.b, w.b), Xor(z.c, w.c), Xor(z.d, w.d)));
  }

  /** A column multiplied by the matrix. */
  function Apply(x: Quad, first: Quad): Quad {
    Quad(Dot(x, Circulant(first, 0)), Dot(x, Circulant(first, 1)), Dot(x, Circulant(first, 2)), Dot(x, Circulant(first, 3)))
  }

  /** The row k multiplied by the matrix. */
  function RowTimes(k: Quad, first: Quad): Quad {
    var (p, q, r, s) := (Circulant(first, 0), Circulant(first, 1), Circulant(first, 2), Circulant(first, 3));
    Quad(Dot(Quad(p.a, q.a, r.a, s.a), k), Dot(Quad(p.b, q.b, r.b, s.b), k),
         Dot(Quad(p.c, q.c, r.c, s.c), k), Dot(Quad(p.d, q.d, r.d, s.d), k))
  }

  /** One product of the row p with a column x, scaled by k. */
  function ScaledRow(x: Quad, p: Quad, k: Byte): Quad {
    Quad(Times(x.a, Times(p.a, k)), Times(x.b, Times(p.b, k)), Times(x.c, Times(p.c, k)), Times(x.d, Times(p.d, k)))
  }

  lemma DotScaled(x: Quad, p: Quad, k: Byte)
    ensures Times(Dot(x, p), k) == SumQuad(ScaledRow(x, p, k))
  {
    hide Xor, Times, Sum4;
    Sum4Times(Times(x.a, p.a), Times(x.b, p.b), Times(x.c, p.c), Times(x.d, p.d), k);
    Associative(x.a, p.a, k);
    Associative(x.b, p.b, k);
    Associative(x.c, p.c, k);
    Associative(x.d, p.d, k);
  }

  lemma Collect(x: Byte, p: Byte, q: Byte, r: Byte, s: Byte, k: Quad)
    ensures Sum4(Times(x, Times(p, k.a)), Times(x, Times(q, k.b)), Times(x, Times(r, k.c)), Times(x, Times(s, k.d)))
         == Times(x, Dot(Quad(p, q, r, s), k))
  {
    hide Times, Sum4;
    Sum4Times(Times(p, k.a), Times(q, k.b), Times(r, k.c), Times(s, k.d), x);
  }

  /** Multiplication of a column by two matrices is multiplication by their product. */
  lemma DotApply(x: Quad, first: Quad, k: Quad)
    ensures Dot(Apply(x, first), k) == Dot(x, RowTimes(k, first))
  {
    hide Times, Sum4, Circulant;
    var (p, q, r, s) := (Circulant(first, 0), Circulant(first, 1), Circulant(first, 2), Circulant(first, 3));
    DotScaled(x, p, k.a);
    DotScaled(x, q, k.b);
    DotScaled(x, r, k.c);
    DotScaled(x, s, k.d);
    SumTransposed(ScaledRow(x, p, k.a), ScaledRow(x, q, k.b), ScaledRow(x, r, k.c), ScaledRow(x, s, k.d));
    Collect(x.a, p.a, q.a, r.a, s.a, k);
    Collect(x.b, p.b, q.b, r.b, s.b, k);
    Collect(x.c, p.c, q.c, r.c, s.c, k);
    Collect(x.d, p.d, q.d, r.d, s.d, k);
  }

  // ---------------------------------------------------------------- MixColumns and its inverse

  function Unit(r: int): Quad {
    if r == 0 then Quad(1, 0, 0, 0) else if r == 1 then Quad(0, 1, 0, 0)
    else if r == 2 then Quad(0, 0, 1, 0) else Quad(0, 0, 0, 1)
  }

  lemma TimesOneOrZero(x: Byte)
    ensures Times(x, 1) == x && Times(x, 0) == 0
  {
    hide Times;
    OneTimes(x);
    Commutative(x, 1);
    ZeroTimes(x);
  }

  lemma DotUnit(x: Quad, r: int)
    requires 0 <= r < 4
    ensures Dot(x, Unit(r)) == if r == 0 then x.a else if r == 1 then x.b else if r == 2 then x.c else x.d
  {
    hide Times, Xor;
    TimesOneOrZero(x.a);
    TimesOneOrZero(x.b);
    TimesOneOrZero(x.c);
    TimesOneOrZero(x.d);
    XorZero(x.a);
    XorZero(x.b);
    XorZero(x.c);
    XorZero(x.d);
    XorZero(0);
  }

  lemma SmallDoubles()
    ensures Xtime(0x0e) == 0x1c && Xtime(0x0b) == 0x16 && Xtime(0x0d) == 0x1a && Xtime(0x09) == 0x12
    ensures Xor(0x1c, 0x0e) == 0x12 && Xor(0x16, 0x0b) == 0x1d && Xor(0x1a, 0x0d) == 0x17 && Xor(0x12, 0x09) == 0x1b
  {
  }

  lemma SmallProducts()
    ensures Times(0x02, 0x0e) == 0x1c && Times(0x02, 0x0b) == 0x16 && Times(0x02, 0x0d) == 0x1a && Times(0x02, 0x09) == 0x12
    ensures Times(0x03, 0x0e) == 0x12 && Times(0x03, 0x0b) == 0x1d && Times(0x03, 0x0d) == 0x17 && Times(0x03, 0x09) == 0x1b
  {
    hide Times, Xtime, Xor;
    SmallDoubles();
    TwoAndThreeTimes(0x0e);
    TwoAndThreeTimes(0x0b);
    TwoAndThreeTimes(0x0d);
    TwoAndThreeTimes(0x09);
  }

  lemma TwoAndThreeTimes(x: Byte)
    ensures Times(0x02, x) == Xtime(x) && Times(0x03, x) == Xor(Xtime(x), x)
  {
    hide Times, Xtime, Xor;
    TwoAndThree(x);
    Commutative(x, 0x02);
    Commutative(x, 0x03);
  }

  lemma InverseRows(r: int)
    requires 0 <= r < 4
    ensures RowTimes(Circulant(INV_MIX, r), MIX) == Unit(r) == RowTimes(Circulant(MIX, r), INV_MIX)
  {
    hide Times;
    SmallProducts();
    Commutative(0x02, 0x0e);
    Commutative(0x02, 0x0b);
    Commutative(0x02, 0x0d);
    Commutative(0x02, 0x09);
    Commutative(0x03, 0x0e);
    Commutative(0x03, 0x0b);
    Commutative(0x03, 0x0d);
    Commutative(0x03, 0x09);
    OneTimes(0x0e);
    OneTimes(0x0b);
    OneTimes(0x0d);
    OneTimes(0x09);
    TimesOneOrZero(0x0e);
    TimesOneOrZero(0x0b);
    TimesOneOrZero(0x0d);
    TimesOneOrZero(0x09);
    if r == 0 {} else if r == 1 {} else if r == 2 {} else {}
  }

  // The xtime forms in which the code mixes the four bytes of a column.

  function MixFirst(a: Byte, b: Byte, c: Byte, d: Byte): Byte {
    Xtime(a) ^ (Xtime(b) ^ b) ^ c ^ d
  }

  function MixSecond(a: Byte, b: Byte, c: Byte, d: Byte): Byte {
    a ^ Xtime(b) ^ (Xtime(c) ^ c) ^ d
  }

  function MixThird(a: Byte, b: Byte, c: Byte, d: Byte): Byte {
    a ^ b ^ Xtime(c) ^ (Xtime(d) ^ d)
  }

  function MixFourth(a: Byte, b: Byte, c: Byte, d: Byte): Byte {
    (Xtime(a) ^ a) ^ b ^ c ^ Xtime(d)
  }

  function XtimeMix(q: Quad): Quad {
    Quad(MixFirst(q.a, q.b, q.c, q.d), MixSecond(q.a, q.b, q.c, q.d), MixThird(q.a, q.b, q.c, q.d), MixFourth(q.a, q.b, q.c, q.d))
  }

  lemma TwoAndThree(x: Byte)
    ensures Times(x, 0x02) == Xtime(x) && Times(x, 0x03) == Xor(Xtime(x), x)
  {
    hide Xtime, Times, Xor;
    OneTimes(x);
    PowerTimes(1, x, 1);
    assert XtimePower(1, 1) == Xtime(1) && XtimePower(x, 1) == Xtime(x);
    XtimeOfOne();
    Commutative(x, 0x02);
    Distributive(0x02, 0x01, x);
    XorTwoOne();
    Commutative(x, 0x03);
  }

  lemma XtimeOfOne()
    ensures Xtime(1) == 0x02
  {
  }

  lemma XorTwoOne()
    ensures Xor(0x02, 0x01) == 0x03
  {
  }

  lemma ChainIsSum4(p: Byte, q: Byte, r: Byte, s: Byte)
    ensures p ^ q ^ r ^ s == Sum4(p, q, r, s)
  {
  }

  lemma MixFirstSum(a: Byte, b: Byte, c: Byte, d: Byte)
    ensures MixFirst(a, b, c, d) == Sum4(Xtime(a), Xor(Xtime(b), b), c, d)
  {
    hide Xtime;
  }

  lemma MixSecondSum(a: Byte, b: Byte, c: Byte, d: Byte)
    ensures MixSecond(a, b, c, d) == Sum4(a, Xtime(b), Xor(Xtime(c), c), d)
  {
    hide Xtime;
  }

  lemma MixThirdSum(a: Byte, b: Byte, c: Byte, d: Byte)
    ensures MixThird(a, b, c, d) == Sum4(a, b, Xtime(c), Xor(Xtime(d), d))
  {
    hide Xtime;
  }

  lemma MixFourthSum(a: Byte, b: Byte, c: Byte, d: Byte)
    ensures MixFourth(a, b, c, d) == Sum4(Xor(Xtime(a), a), b, c, Xtime(d))
  {
    hide Xtime;
  }

  /** The xtime form equals the product with the matrix of section 5.1.3 of FIPS 197. */
  lemma XtimeMixIsApply(q: Quad)
    ensures XtimeMix(q) == Apply(q, MIX)
  {
    hide Xtime, Times, Xor, Sum4, MixFirst, MixSecond, MixThird, MixFourth;
    MixFirstSum(q.a, q.b, q.c, q.d);
    MixSecondSum(q.a, q.b, q.c, q.d);
    MixThirdSum(q.a, q.b, q.c, q.d);
    MixFourthSum(q.a, q.b, q.c, q.d);
    TwoAndThree(q.a);
    TwoAndThree(q.b);
    TwoAndThree(q.c);
    TwoAndThree(q.d);
    TimesOneOrZero(q.a);
    TimesOneOrZero(q.b);
    TimesOneOrZero(q.c);
    TimesOneOrZero(q.d);
  }

  lemma MixCell(g: Grid, first: Quad, r: int, c: int)
    requires InGrid(r, c)
    ensures Cell(Mixed(g, first), r, c) == Dot(Column(g, c), Circulant(first, r))
  {
    hide Dot, Circulant;
  }

  lemma MixedColumn(g: Grid, first: Quad, c: int)
    requires 0 <= c < 4
    ensures Column(Mixed(g, first), c) == Apply(Column(g, c), first)
  {
    hide Dot, Circulant, Mixed, Cell;
    MixCell(g, first, 0, c);
    MixCell(g, first, 1, c);
    MixCell(g, first, 2, c);
    MixCell(g, first, 3, c);
  }

  lemma ColumnCell(g: Grid, r: int, c: int)
    requires InGrid(r, c)
    ensures Dot(Column(g, c), Unit(r)) == Cell(g, r, c)
  {
    hide Cell, Dot;
    DotUnit(Column(g, c), r);
  }

  lemma MixedTwice(g: Grid, first: Quad, second: Quad, r: int, c: int)
    requires InGrid(r, c) && RowTimes(Circulant(second, r), first) == Unit(r)
    ensures Cell(Mixed(Mixed(g, first), second), r, c) == Cell(g, r, c)
  {
    hide Cell, Dot, Circulant, Mixed, RowTimes, Unit, Apply, Column;
    MixCell(Mixed(g, first), second, r, c);
    MixedColumn(g, first, c);
    DotApply(Column(g, c), first, Circulant(second, r));
    ColumnCell(g, r, c);
  }

  /** Both orders: sections 5.1.3 and 5.3.3 of FIPS 197. */
  lemma MixColumnsInverse(g: Grid)
    ensures InvMixColumns(MixColumns(g)) == g && MixColumns(InvMixColumns(g)) == g
  {
    hide Mixed, RowTimes, Circulant, Cell;
    forall r, c | InGrid(r, c)
      ensures Cell(InvMixColumns(MixColumns(g)), r, c) == Cell(g, r, c) == Cell(MixColumns(InvMixColumns(g)), r, c)
    {
      InverseRows(r);
      MixedTwice(g, MIX, INV_MIX, r, c);
      MixedTwice(g, INV_MIX, MIX, r, c);
    }
    SameGrid(InvMixColumns(MixColumns(g)), g);
    SameGrid(MixColumns(InvMixColumns(g)), g);
  }

  // ---------------------------------------------------------------- whole blocks

  type RoundKeys = seq<RoundKey>

  /** A full round. */
  function Round(g: Grid, key: RoundKey): Grid {
    AddRoundKey(MixColumns(ShiftRows(SubBytes(g))), key)
  }

  /** A full round of decryption, in the order of section 5.3 of FIPS 197. */
  function InverseRound(g: Grid, key: RoundKey): Grid {
    InvMixColumns(AddRoundKey(InvSubBytes(InvShiftRows(g)), key))
  }

  /** The last round, which does not mix the columns. */
  function LastRound(g: Grid, key: RoundKey): Grid {
    AddRoundKey(ShiftRows(SubBytes(g)), key)
  }

  function LastInverseRound(g: Grid, key: RoundKey): Grid {
    AddRoundKey(InvSubBytes(InvShiftRows(g)), key)
  }

  /** The state after the initial key addition and the first r full rounds. */
  function Rounds(g: Grid, keys: RoundKeys, r: nat): Grid
    requires r < |keys|
  {
    if r == 0 then AddRoundKey(g, keys[0]) else Round(Rounds(g, keys, r - 1), keys[r])
  }

  function EncryptGrid(g: Grid, keys: RoundKeys): Grid
    requires |keys| >= 2
  {
    LastRound(Rounds(g, keys, |keys| - 2), keys[|keys| - 1])
  }

  /** The state of decryption before the round with key r - 1, counting down from the last key. */
  function InverseRounds(g: Grid, keys: RoundKeys, r: nat): Grid
    requires 1 <= r < |keys|
    decreases |keys| - r
  {
    if r == |keys| - 1 then AddRoundKey(g, keys[r]) else InverseRound(InverseRounds(g, keys, r + 1), keys[r])
  }

  function DecryptGrid(g: Grid, keys: RoundKeys): Grid
    requires |keys| >= 2
  {
    LastInverseRound(InverseRounds(g, keys, 1), keys[0])
  }

  /** Running decryption on a ciphertext meets the states of encryption, backwards. */
  lemma {:induction false} InverseRoundsMeetRounds(g: Grid, keys: RoundKeys, r: nat)
    requires 1 <= r < |keys|
    ensures InverseRounds(EncryptGrid(g, keys), keys, r) == ShiftRows(SubBytes(Rounds(g, keys, r - 1)))
    decreases |keys| - r
  {
    hide AddRoundKey, SubBytes, InvSubBytes, ShiftRows, InvShiftRows, MixColumns, InvMixColumns;
    if r == |keys| - 1 {
      AddRoundKeyInverse(ShiftRows(SubBytes(Rounds(g, keys, r - 1))), keys[r]);
    } else {
      InverseRoundsMeetRounds(g, keys, r + 1);
      var before := Rounds(g, keys, r);
      ShiftRowsInverse(SubBytes(before));
      SubBytesInverse(before);
      var mixed := ShiftRows(SubBytes(Rounds(g, keys, r - 1)));
      AddRoundKeyInverse(MixColumns(mixed), keys[r]);
      MixColumnsInverse(mixed);
    }
  }

  /** Running encryption on a decrypted block meets the states of decryption. */
  lemma {:induction false} RoundsMeetInverseRounds(g: Grid, keys: RoundKeys, r: nat)
    requires r + 1 < |keys|
    ensures Rounds(DecryptGrid(g, keys), keys, r) == InvSubBytes(InvShiftRows(InverseRounds(g, keys, r + 1)))
  {
    hide AddRoundKey, SubBytes, InvSubBytes, ShiftRows, InvShiftRows, MixColumns, InvMixColumns;
    if r == 0 {
      AddRoundKeyInverse(InvSubBytes(InvShiftRows(InverseRounds(g, keys, 1))), keys[0]);
    } else {
      RoundsMeetInverseRounds(g, keys, r - 1);
      var state := InverseRounds(g, keys, r);
      SubBytesInverse(InvShiftRows(state));
      ShiftRowsInverse(state);
      var inner := AddRoundKey(InvSubBytes(InvShiftRows(InverseRounds(g, keys, r + 1))), keys[r]);
      MixColumnsInverse(inner);
      AddRoundKeyInverse(InvSubBytes(InvShiftRows(InverseRounds(g, keys, r + 1))), keys[r]);
    }
  }

  /** Decryption undoes encryption, and encryption undoes decryption, whatever the round keys are. */
  lemma GridRoundTrips(g: Grid, keys: RoundKeys)
    requires |keys| >= 2
    ensures DecryptGrid(EncryptGrid(g, keys), keys) == g
    ensures EncryptGrid(DecryptGrid(g, keys), keys) == g
  {
    hide AddRoundKey, SubBytes, InvSubBytes, ShiftRows, InvShiftRows, MixColumns, InvMixColumns;
    var last := |keys| - 1;
    InverseRoundsMeetRounds(g, keys, 1);
    ShiftRowsInverse(SubBytes(Rounds(g, keys, 0)));
    SubBytesInverse(Rounds(g, keys, 0));
    AddRoundKeyInverse(g, keys[0]);
    RoundsMeetInverseRounds(g, keys, last - 1);
    SubBytesInverse(InvShiftRows(InverseRounds(g, keys, last)));
    ShiftRowsInverse(InverseRounds(g, keys, last));
    AddRoundKeyInverse(g, keys[last]);
  }
}
