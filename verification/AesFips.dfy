/**
 FIPS 197 and the CBC mode of NIST SP 800-38A written down byte by byte, as the
 reference that the cipher, the key schedule and the chaining of the other AES
 modules are proved equal to. Add is the addition of bytes, their exclusive or.
 */
module AesFips {
  import opened AesField
  import opened AesTables
  import AesCipher
  import AesKeys
  import AesCbc

  type Box = AesCipher.Box
  type State = AesCipher.State

  // ---- rows and columns, section 3.4 -------------------------------------------------

  function Column(t: State, c: int): Col {
    if c == 0 then t.c0 else if c == 1 then t.c1 else if c == 2 then t.c2 else t.c3
  }

  function InRow(w: Col, r: int): bv8 {
    if r == 0 then w.b0 else if r == 1 then w.b1 else if r == 2 then w.b2 else w.b3
  }

  /** The byte in row r and column c. */
  function At(t: State, r: int, c: int): bv8 {
    InRow(Column(t, c), r)
  }

  /** Byte 4c + r of a block is in row r and column c. */
  lemma BlockAt(b: Block, c: int)
    requires 0 <= c < 4
    ensures Column(FromBlock(b), c) == Col(b[4 * c], b[4 * c + 1], b[4 * c + 2], b[4 * c + 3])
  {
  }

  // ---- the cipher, section 5.1 ------------------------------------------------------

  /** Multiplication by x, section 4.2.1. */
  function Double(b: bv8): bv8 {
    if b < 0x80 then b << 1 else (b << 1) ^ 0x1b
  }

  function Triple(b: bv8): bv8 {
    Add(b, Double(b))
  }

  function SubColumn(s: Box, t: State, c: int): Col {
    Col(s(At(t, 0, c)), s(At(t, 1, c)), s(At(t, 2, c)), s(At(t, 3, c)))
  }

  function SubBytes(s: Box, t: State): State {
    AesCipher.State(SubColumn(s, t, 0), SubColumn(s, t, 1), SubColumn(s, t, 2), SubColumn(s, t, 3))
  }

  /** Row r comes from r columns to the right. */
  function ShiftedColumn(t: State, c: int): Col {
    Col(At(t, 0, c), At(t, 1, (c + 1) % 4), At(t, 2, (c + 2) % 4), At(t, 3, (c + 3) % 4))
  }

  function ShiftRows(t: State): State {
    AesCipher.State(ShiftedColumn(t, 0), ShiftedColumn(t, 1), ShiftedColumn(t, 2), ShiftedColumn(t, 3))
  }

  /** Row r of a mixed column: the bytes from row r on times 2, 3, 1 and 1. */
  function MixedByte(t: State, r: int, c: int): bv8 {
    Add(Add(Add(Double(At(t, r, c)), Triple(At(t, (r + 1) % 4, c))), At(t, (r + 2) % 4, c)), At(t, (r + 3) % 4, c))
  }

  function MixedColumn(t: State, c: int): Col {
    Col(MixedByte(t, 0, c), MixedByte(t, 1, c), MixedByte(t, 2, c), MixedByte(t, 3, c))
  }

  function MixColumns(t: State): State {
    AesCipher.State(MixedColumn(t, 0), MixedColumn(t, 1), MixedColumn(t, 2), MixedColumn(t, 3))
  }

  function AddedColumn(t: State, k: State, c: int): Col {
    Col(Add(At(t, 0, c), At(k, 0, c)), Add(At(t, 1, c), At(k, 1, c)),
        Add(At(t, 2, c), At(k, 2, c)), Add(At(t, 3, c), At(k, 3, c)))
  }

  function AddRoundKey(t: State, k: State): State {
    AesCipher.State(AddedColumn(t, k, 0), AddedColumn(t, k, 1), AddedColumn(t, k, 2), AddedColumn(t, k, 3))
  }

  function Rounds(s: Box, t: State, w: seq<State>, n: nat): State
    requires n < |w|
  {
    if n == 0 then AddRoundKey(t, w[0])
    else AddRoundKey(MixColumns(ShiftRows(SubBytes(s, Rounds(s, t, w, n - 1)))), w[n])
  }

  function Cipher(s: Box, t: State, w: seq<State>): State
    requires |w| >= 2
  {
    AddRoundKey(ShiftRows(SubBytes(s, Rounds(s, t, w, |w| - 2))), w[|w| - 1])
  }

  // ---- the inverse cipher, section 5.3 ---------------------------------------------------

  /** Row r comes from r columns to the left. */
  function UnshiftedColumn(t: State, c: int): Col {
    Col(At(t, 0, c), At(t, 1, (c + 3) % 4), At(t, 2, (c + 2) % 4), At(t, 3, (c + 1) % 4))
  }

  function InvShiftRows(t: State): State {
    AesCipher.State(UnshiftedColumn(t, 0), UnshiftedColumn(t, 1), UnshiftedColumn(t, 2), UnshiftedColumn(t, 3))
  }

  /** Multiplication by x^2, x^3 and the bytes of the inverse matrix. */
  function Four(b: bv8): bv8 { Double(Double(b)) }
  function Eight(b: bv8): bv8 { Double(Double(Double(b))) }
  function ByE(b: bv8): bv8 { Add(Double(b), Add(Four(b), Eight(b))) }
  function ByB(b: bv8): bv8 { Add(b, Add(Double(b), Eight(b))) }
  function ByD(b: bv8): bv8 { Add(b, Add(Four(b), Eight(b))) }
  function By9(b: bv8): bv8 { Add(b, Eight(b)) }

  function UnmixedByte(t: State, r: int, c: int): bv8 {
    Add(Add(Add(ByE(At(t, r, c)), ByB(At(t, (r + 1) % 4, c))), ByD(At(t, (r + 2) % 4, c))), By9(At(t, (r + 3) % 4, c)))
  }

  function UnmixedColumn(t: State, c: int): Col {
    Col(UnmixedByte(t, 0, c), UnmixedByte(t, 1, c), UnmixedByte(t, 2, c), UnmixedByte(t, 3, c))
  }

  function InvMixColumns(t: State): State {
    AesCipher.State(UnmixedColumn(t, 0), UnmixedColumn(t, 1), UnmixedColumn(t, 2), UnmixedColumn(t, 3))
  }

  function InvRounds(si: Box, t: State, w: seq<State>, n: nat): State
    requires n < |w|
  {
    if n == 0 then AddRoundKey(t, w[|w| - 1])
    else InvMixColumns(AddRoundKey(SubBytes(si, InvShiftRows(InvRounds(si, t, w, n - 1))), w[|w| - 1 - n]))
  }

  function InvCipher(si: Box, t: State, w: seq<State>): State
    requires |w| >= 2
  {
    AddRoundKey(SubBytes(si, InvShiftRows(InvRounds(si, t, w, |w| - 2))), w[0])
  }

  // ---- the steps agree ----------------------------------------------------------------------

  lemma DoubleIsX(b: bv8)
    ensures Double(b) == X(b)
  {
  }

  /** Multiplications as sums of powers, zero terms dropped. */
  lemma TimesForms(b: bv8)
    ensures Times(P1, b) == b && Times(P2, b) == X(b) && Times(P3, b) == Add(b, X(b))
    ensures Times(PE, b) == Add(X(b), Add(X(X(b)), X(X(X(b)))))
    ensures Times(PB, b) == Add(b, Add(X(b), X(X(X(b)))))
    ensures Times(PD, b) == Add(b, Add(X(X(b)), X(X(X(b)))))
    ensures Times(P9, b) == Add(b, X(X(X(b))))
  {
    hide Add, X;
    forall a ensures Add(a, 0) == a && Add(0, a) == a { AddZero(a); }
  }

  lemma TimesIs(b: bv8)
    ensures Times(P1, b) == b && Times(P2, b) == Double(b) && Times(P3, b) == Triple(b)
    ensures Times(PE, b) == ByE(b) && Times(PB, b) == ByB(b) && Times(PD, b) == ByD(b) && Times(P9, b) == By9(b)
  {
    hide Add, X, Double, Times;
    TimesForms(b);
    DoubleIsX(b);
    DoubleIsX(X(b));
    DoubleIsX(X(X(b)));
  }

  lemma SubBytesIs(s: Box, t: State)
    ensures AesCipher.SubBytes(s, t) == SubBytes(s, t)
  {
  }

  lemma ShiftRowsIs(t: State)
    ensures AesCipher.ShiftRows(t) == ShiftRows(t)
  {
  }

  lemma InvShiftRowsIs(t: State)
    ensures AesCipher.InvShiftRows(t) == InvShiftRows(t)
  {
  }

  lemma AddKeyIs(t: State, k: State)
    ensures AesCipher.AddKey(t, k) == AddRoundKey(t, k)
  {
    hide Add;
  }

  /** Addition in another order. */
  lemma Turned(a: bv8, b: bv8, c: bv8, d: bv8)
    ensures Add(Add(Add(a, b), c), d) == Add(Add(Add(b, c), d), a)
  {
    hide Add;
    AddComm(Add(Add(b, c), d), a);
    AddAssoc(a, Add(b, c), d);
    AddAssoc(a, b, c);
  }

  lemma MixIs(t: State, c: int)
    requires 0 <= c < 4
    ensures Mix(Column(t, c)) == MixedColumn(t, c)
  {
    hide Add, Times, Double, Triple, Column;
    var w := Column(t, c);
    TimesIs(w.b0);
    TimesIs(w.b1);
    TimesIs(w.b2);
    TimesIs(w.b3);
    Turned(w.b0, Double(w.b1), Triple(w.b2), w.b3);
    Turned(w.b0, w.b1, Double(w.b2), Triple(w.b3));
    Turned(w.b1, Double(w.b2), Triple(w.b3), w.b0);
    Turned(Triple(w.b0), w.b1, w.b2, Double(w.b3));
    Turned(w.b1, w.b2, Double(w.b3), Triple(w.b0));
    Turned(w.b2, Double(w.b3), Triple(w.b0), w.b1);
  }

  lemma UnmixIs(t: State, c: int)
    requires 0 <= c < 4
    ensures InvMix(Column(t, c)) == UnmixedColumn(t, c)
  {
    hide Add, Times, ByE, ByB, ByD, By9, Column;
    var w := Column(t, c);
    TimesIs(w.b0);
    TimesIs(w.b1);
    TimesIs(w.b2);
    TimesIs(w.b3);
    Turned(By9(w.b0), ByE(w.b1), ByB(w.b2), ByD(w.b3));
    Turned(ByD(w.b0), By9(w.b1), ByE(w.b2), ByB(w.b3));
    Turned(By9(w.b1), ByE(w.b2), ByB(w.b3), ByD(w.b0));
    Turned(ByB(w.b0), ByD(w.b1), By9(w.b2), ByE(w.b3));
    Turned(ByD(w.b1), By9(w.b2), ByE(w.b3), ByB(w.b0));
    Turned(By9(w.b2), ByE(w.b3), ByB(w.b0), ByD(w.b1));
  }

  lemma MixColumnsIs(t: State)
    ensures AesCipher.MixColumns(t) == MixColumns(t) && AesCipher.InvMixColumns(t) == InvMixColumns(t)
  {
    hide Mix, InvMix, MixedColumn, UnmixedColumn;
    MixIs(t, 0);
    MixIs(t, 1);
    MixIs(t, 2);
    MixIs(t, 3);
    UnmixIs(t, 0);
    UnmixIs(t, 1);
    UnmixIs(t, 2);
    UnmixIs(t, 3);
  }

  // ---- the ciphers agree ---------------------------------------------------------------------

  lemma RoundIs(s: Box, t: State, k: State)
    ensures AesCipher.Round(s, t, k) == AddRoundKey(MixColumns(ShiftRows(SubBytes(s, t))), k)
  {
    hide AesCipher.SubBytes, AesCipher.ShiftRows, AesCipher.MixColumns, AesCipher.AddKey,
         SubBytes, ShiftRows, MixColumns, InvMixColumns, AddRoundKey;
    SubBytesIs(s, t);
    ShiftRowsIs(SubBytes(s, t));
    MixColumnsIs(ShiftRows(SubBytes(s, t)));
    AddKeyIs(MixColumns(ShiftRows(SubBytes(s, t))), k);
  }

  lemma {:induction false} RoundsAre(s: Box, t: State, w: seq<State>, n: nat)
    requires n < |w|
    ensures AesCipher.Rounds(s, t, w, n) == Rounds(s, t, w, n)
  {
    hide AesCipher.Round, AesCipher.AddKey, SubBytes, ShiftRows, MixColumns, AddRoundKey;
    if n == 0 {
      AddKeyIs(t, w[0]);
    } else {
      RoundsAre(s, t, w, n - 1);
      RoundIs(s, Rounds(s, t, w, n - 1), w[n]);
    }
  }

  /** The cipher is that of section 5.1. */
  lemma CipherIs(s: Box, t: State, w: seq<State>)
    requires |w| >= 2
    ensures AesCipher.Cipher(s, t, w) == Cipher(s, t, w)
  {
    hide AesCipher.SubBytes, AesCipher.ShiftRows, AesCipher.AddKey, AesCipher.Rounds,
         SubBytes, ShiftRows, AddRoundKey, Rounds;
    RoundsAre(s, t, w, |w| - 2);
    var u := Rounds(s, t, w, |w| - 2);
    SubBytesIs(s, u);
    ShiftRowsIs(SubBytes(s, u));
    AddKeyIs(ShiftRows(SubBytes(s, u)), w[|w| - 1]);
  }

  /** SubBytes and InvShiftRows may change places. */
  lemma SubShiftSwap(si: Box, t: State)
    ensures AesCipher.InvShiftRows(AesCipher.SubBytes(si, t)) == SubBytes(si, InvShiftRows(t))
  {
    hide AesCipher.InvShiftRows, AesCipher.SubBytes;
    SubBytesIs(si, InvShiftRows(t));
    InvShiftRowsIs(t);
    Commute(si, t);
  }

  lemma Commute(si: Box, t: State)
    ensures AesCipher.InvShiftRows(AesCipher.SubBytes(si, t)) == AesCipher.SubBytes(si, AesCipher.InvShiftRows(t))
  {
  }

  lemma InvRoundIs(si: Box, t: State, k: State)
    ensures AesCipher.InvRound(si, t, AesCipher.InvMixColumns(k)) ==
            InvMixColumns(AddRoundKey(SubBytes(si, InvShiftRows(t)), k))
  {
    hide AesCipher.SubBytes, AesCipher.InvShiftRows, AesCipher.MixColumns, AesCipher.InvMixColumns, AesCipher.AddKey,
         SubBytes, InvShiftRows, MixColumns, InvMixColumns, AddRoundKey;
    SubShiftSwap(si, t);
    var v := SubBytes(si, InvShiftRows(t));
    AesCipher.InvMixAddKey(v, k);
    AddKeyIs(v, k);
    MixColumnsIs(AddRoundKey(v, k));
  }

  lemma {:induction false} InvRoundsAre(si: Box, t: State, w: seq<State>, n: nat)
    requires n + 1 < |w|
    ensures AesCipher.InvRounds(si, t, AesCipher.DecryptKeys(w), n) == InvRounds(si, t, w, n)
  {
    hide AesCipher.InvRound, AesCipher.InvMixColumns, AesCipher.AddKey, SubBytes, InvShiftRows, InvMixColumns, AddRoundKey;
    var d, m := AesCipher.DecryptKeys(w), |w| - 1;
    if n == 0 {
      assert d[0] == w[m];
      AddKeyIs(t, w[m]);
    } else {
      InvRoundsAre(si, t, w, n - 1);
      assert d[n] == AesCipher.InvMixColumns(w[m - n]);
      InvRoundIs(si, InvRounds(si, t, w, n - 1), w[m - n]);
    }
  }

  /** The equivalent inverse cipher with transformed round keys is the inverse
      cipher of section 5.3 with the round keys of the cipher. */
  lemma InvCipherIs(si: Box, t: State, w: seq<State>)
    requires |w| >= 2
    ensures AesCipher.EqInvCipher(si, t, AesCipher.DecryptKeys(w)) == InvCipher(si, t, w)
  {
    hide AesCipher.SubBytes, AesCipher.InvShiftRows, AesCipher.AddKey, AesCipher.InvRounds, AesCipher.InvMixColumns,
         SubBytes, InvShiftRows, AddRoundKey, InvRounds;
    var d, m := AesCipher.DecryptKeys(w), |w| - 1;
    InvRoundsAre(si, t, w, m - 1);
    assert d[m] == w[0];
    var u := InvRounds(si, t, w, m - 1);
    SubShiftSwap(si, u);
    AddKeyIs(SubBytes(si, InvShiftRows(u)), w[0]);
  }

  // ---- key expansion, section 5.2 -----------------------------------------------------------

  predicate KeyBytes(key: seq<bv8>) {
    |key| == 16 || |key| == 24 || |key| == 32
  }

  /** x^n */
  function Power(n: nat): bv8 {
    if n == 0 then 1 else Double(Power(n - 1))
  }

  /** Byte j of the expanded key. */
  function KeyByte(s: Box, key: seq<bv8>, j: nat): bv8
    requires KeyBytes(key)
  {
    var nk, i, r := |key| / 4, j / 4, j % 4;
    if j < |key| then key[j]
    else
      Add(KeyByte(s, key, j - |key|),
          if i % nk == 0 then Add(s(KeyByte(s, key, 4 * (i - 1) + (r + 1) % 4)), if r == 0 then Power(i / nk - 1) else 0)
          else if nk > 6 && i % nk == 4 then s(KeyByte(s, key, j - 4))
          else KeyByte(s, key, j - 4))
  }

  function KeyWord(s: Box, key: seq<bv8>, i: nat): Col
    requires KeyBytes(key)
  {
    Col(KeyByte(s, key, 4 * i), KeyByte(s, key, 4 * i + 1), KeyByte(s, key, 4 * i + 2), KeyByte(s, key, 4 * i + 3))
  }

  /** The round keys: 10, 12 or 14 rounds need one more. */
  function RoundKeys(s: Box, key: seq<bv8>): (w: seq<State>)
    requires KeyBytes(key)
    ensures |w| == |key| / 4 + 7
  {
    seq(|key| / 4 + 7, n requires 0 <= n =>
      AesCipher.State(KeyWord(s, key, 4 * n), KeyWord(s, key, 4 * n + 1), KeyWord(s, key, 4 * n + 2), KeyWord(s, key, 4 * n + 3)))
  }

  lemma {:induction false} PowerIs(n: nat)
    ensures Power(n) == AesKeys.RconByte(n + 1)
  {
    hide X, Double;
    if n > 0 {
      PowerIs(n - 1);
      DoubleIsX(Power(n - 1));
    }
  }

  /** Byte r of word i, for a word behind the key itself. */
  lemma NextByte(s: Box, key: seq<bv8>, i: nat, r: nat)
    requires KeyBytes(key) && i >= |key| / 4 && r < 4
    ensures var nk := |key| / 4;
            KeyByte(s, key, 4 * i + r) ==
            Add(KeyByte(s, key, 4 * (i - nk) + r),
                if i % nk == 0 then Add(s(KeyByte(s, key, 4 * (i - 1) + (r + 1) % 4)), if r == 0 then Power(i / nk - 1) else 0)
                else if nk > 6 && i % nk == 4 then s(KeyByte(s, key, 4 * (i - 1) + r))
                else KeyByte(s, key, 4 * (i - 1) + r))
  {
    hide Add, Power;
    var j := 4 * i + r;
    assert j / 4 == i && j % 4 == r;
    assert 4 * (|key| / 4) == |key|;
    assert j - |key| == 4 * (i - |key| / 4) + r && j - 4 == 4 * (i - 1) + r;
  }

  /** Word i by the word a key length before it and the word before it. */
  function Following(s: Box, nk: nat, i: nat, first: Col, temp: Col): Col
    requires nk > 0
  {
    Xor(first,
        if i % nk == 0 then Xor(AesCipher.SubCol(s, AesKeys.RotWord(temp)), AesKeys.Rcon(i / nk))
        else if nk > 6 && i % nk == 4 then AesCipher.SubCol(s, temp)
        else temp)
  }

  lemma NextWord(s: Box, key: seq<bv8>, nk: nat, i: nat)
    requires KeyBytes(key) && 4 * nk == |key| && i >= nk
    ensures KeyWord(s, key, i) == Following(s, nk, i, KeyWord(s, key, i - nk), KeyWord(s, key, i - 1))
  {
    hide Add, Power, KeyByte, AesKeys.RconByte;
    NextByte(s, key, i, 0);
    NextByte(s, key, i, 1);
    NextByte(s, key, i, 2);
    NextByte(s, key, i, 3);
    if i % nk == 0 {
      PowerIs(i / nk - 1);
    }
  }

  lemma OwnWord(s: Box, key: seq<bv8>, i: nat)
    requires KeyBytes(key) && i < |key| / 4
    ensures KeyWord(s, key, i) == AesKeys.KeyWords(key, |key| / 4)[i]
  {
    assert 4 * i + 3 < |key|;
  }

  /** Every word of the schedule is made of the bytes of section 5.2. */
  lemma {:induction false} ScheduleIs(s: Box, key: seq<bv8>, i: nat)
    requires KeyBytes(key)
    ensures AesKeys.Schedule(s, AesKeys.KeyWords(key, |key| / 4), i) == KeyWord(s, key, i)
  {
    hide Add, Power, Xor, AesCipher.SubCol, AesKeys.RotWord, AesKeys.Rcon, KeyByte, KeyWord;
    var nk := |key| / 4;
    if i < nk {
      OwnWord(s, key, i);
    } else {
      ScheduleIs(s, key, i - 1);
      ScheduleIs(s, key, i - nk);
      NextWord(s, key, nk, i);
    }
  }

  lemma KeysAre(s: Box, key: seq<bv8>)
    requires KeyBytes(key)
    ensures AesCbc.KeysOf(s, key, 8 * |key|) == RoundKeys(s, key)
  {
    hide AesKeys.Schedule, KeyWord;
    forall i: nat ensures AesKeys.Schedule(s, AesKeys.KeyWords(key, |key| / 4), i) == KeyWord(s, key, i) {
      ScheduleIs(s, key, i);
    }
    assert 8 * |key| / 32 == |key| / 4;
  }

  lemma OwnWords(s: Box, k: seq<Col>, i: nat)
    requires i < |k|
    ensures AesKeys.Schedule(s, k, i) == k[i]
  {
  }

  const KEY_128 := [Col(0x2b, 0x7e, 0x15, 0x16), Col(0x28, 0xae, 0xd2, 0xa6), Col(0xab, 0xf7, 0x15, 0x88),
                    Col(0x09, 0xcf, 0x4f, 0x3c)]

  const KEY_192 := [Col(0x8e, 0x73, 0xb0, 0xf7), Col(0xda, 0x0e, 0x64, 0x52), Col(0xc8, 0x10, 0xf3, 0x2b),
                    Col(0x80, 0x90, 0x79, 0xe5), Col(0x62, 0xf8, 0xea, 0xd2), Col(0x52, 0x2c, 0x6b, 0x7b)]

  const KEY_256 := [Col(0x60, 0x3d, 0xeb, 0x10), Col(0x15, 0xca, 0x71, 0xbe), Col(0x2b, 0x73, 0xae, 0xf0),
                    Col(0x85, 0x7d, 0x77, 0x81), Col(0x1f, 0x35, 0x2c, 0x07), Col(0x3b, 0x61, 0x08, 0xd7),
                    Col(0x2d, 0x98, 0x10, 0xa3), Col(0x09, 0x14, 0xdf, 0xf4)]

  /** The first new word of the example in appendix A.1, for any S-box with these values. */
  lemma KnownKey128(s: Box)
    requires s(0xcf) == 0x8a && s(0x4f) == 0x84 && s(0x3c) == 0xeb && s(0x09) == 0x01
    ensures AesKeys.Schedule(s, KEY_128, 4) == Col(0xa0, 0xfa, 0xfe, 0x17)
  {
    hide AesKeys.Schedule;
    AesKeys.ScheduleFirst(s, KEY_128, 1);
    OwnWords(s, KEY_128, 0);
    OwnWords(s, KEY_128, 3);
  }

  /** The same for appendix A.2. */
  lemma KnownKey192(s: Box)
    requires s(0x2c) == 0x71 && s(0x6b) == 0x7f && s(0x7b) == 0x21 && s(0x52) == 0x00
    ensures AesKeys.Schedule(s, KEY_192, 6) == Col(0xfe, 0x0c, 0x91, 0xf7)
  {
    hide AesKeys.Schedule;
    AesKeys.ScheduleFirst(s, KEY_192, 1);
    OwnWords(s, KEY_192, 0);
    OwnWords(s, KEY_192, 5);
  }

  /** The same for appendix A.3. */
  lemma KnownKey256(s: Box)
    requires s(0x14) == 0xfa && s(0xdf) == 0x9e && s(0xf4) == 0xbf && s(0x09) == 0x01
    ensures AesKeys.Schedule(s, KEY_256, 8) == Col(0x9b, 0xa3, 0x54, 0x11)
  {
    hide AesKeys.Schedule;
    AesKeys.ScheduleFirst(s, KEY_256, 1);
    OwnWords(s, KEY_256, 0);
    OwnWords(s, KEY_256, 7);
  }

  lemma PlainKnown(s: Box, o: nat, a: Col, b: Col)
    requires 0 < o < 4 && AesKeys.Schedule(s, KEY_256, 8 + o - 1) == a && b == Xor(KEY_256[o], a)
    ensures AesKeys.Schedule(s, KEY_256, 8 + o) == b
  {
    hide AesKeys.Schedule, Xor;
    AesKeys.SchedulePlain(s, KEY_256, 1, o);
    OwnWords(s, KEY_256, o);
  }

  /** The word in the middle of the group, where a 256-bit key has a substitution of its own. */
  lemma KnownMiddle256(s: Box)
    requires s(0x14) == 0xfa && s(0xdf) == 0x9e && s(0xf4) == 0xbf && s(0x09) == 0x01
    requires s(0x20) == 0xb7 && s(0x67) == 0x85 && s(0xfc) == 0xb0 && s(0xde) == 0x1d
    ensures AesKeys.Schedule(s, KEY_256, 12) == Col(0xa8, 0xb0, 0x9c, 0x1a)
  {
    hide AesKeys.Schedule;
    KnownKey256(s);
    PlainKnown(s, 1, Col(0x9b, 0xa3, 0x54, 0x11), Col(0x8e, 0x69, 0x25, 0xaf));
    PlainKnown(s, 2, Col(0x8e, 0x69, 0x25, 0xaf), Col(0xa5, 0x1a, 0x8b, 0x5f));
    PlainKnown(s, 3, Col(0xa5, 0x1a, 0x8b, 0x5f), Col(0x20, 0x67, 0xfc, 0xde));
    AesKeys.ScheduleMiddle(s, KEY_256, 1);
    OwnWords(s, KEY_256, 4);
  }

  // ---- blocks and chaining ---------------------------------------------------------------------

  function EncryptBlock(s: Box, w: seq<State>, b: Block): Block
    requires |w| >= 2
  {
    ToBlock(Cipher(s, FromBlock(b), w))
  }

  function DecryptBlock(si: Box, w: seq<State>, b: Block): Block
    requires |w| >= 2
  {
    ToBlock(InvCipher(si, FromBlock(b), w))
  }

  /** Block i of the data, filled up with zeros, added to the block before it. */
  function CbcInput(data: seq<bv8>, i: nat, before: Block): Block {
    seq(16, j requires 0 <= j < 16 => Add(if 16 * i + j < |data| then data[16 * i + j] else 0, before[j]))
  }

  /** Block i of the ciphertext, section 6.2 of SP 800-38A. */
  function CbcBlock(s: Box, w: seq<State>, data: seq<bv8>, iv: Block, i: nat): Block
    requires |w| >= 2
  {
    EncryptBlock(s, w, CbcInput(data, i, if i == 0 then iv else CbcBlock(s, w, data, iv, i - 1)))
  }

  lemma EncryptBlockIs(s: Box, w: seq<State>, b: Block)
    requires |w| >= 2
    ensures AesCbc.EncryptBlock(s, w, b) == EncryptBlock(s, w, b)
  {
    hide Cipher, AesCipher.Cipher, ToBlock, FromBlock;
    CipherIs(s, FromBlock(b), w);
  }

  lemma DecryptBlockIs(si: Box, w: seq<State>, b: Block)
    requires |w| >= 2
    ensures AesCbc.DecryptBlock(si, AesCipher.DecryptKeys(w), b) == DecryptBlock(si, w, b)
  {
    hide InvCipher, AesCipher.EqInvCipher, AesCipher.DecryptKeys, ToBlock, FromBlock;
    InvCipherIs(si, FromBlock(b), w);
  }

  lemma FirstInput(data: seq<bv8>, iv: Block)
    requires data != []
    ensures CbcInput(data, 0, iv) == AesCbc.Chain(data[..if |data| < 16 then |data| else 16], iv)
  {
    hide Add;
    forall j | 0 <= j < 16 ensures Add(0, iv[j]) == iv[j] {
      AddZero(iv[j]);
    }
  }

  lemma InputShift(data: seq<bv8>, i: nat, before: Block)
    requires |data| >= 16
    ensures CbcInput(data, i + 1, before) == CbcInput(data[16..], i, before)
  {
    hide Add;
  }

  lemma {:induction false} CbcShift(s: Box, w: seq<State>, data: seq<bv8>, iv: Block, i: nat)
    requires |w| >= 2 && |data| >= 16
    ensures CbcBlock(s, w, data, iv, i + 1) == CbcBlock(s, w, data[16..], CbcBlock(s, w, data, iv, 0), i)
  {
    hide CbcInput, EncryptBlock;
    InputShift(data, i, CbcBlock(s, w, data, iv, i));
    if i > 0 {
      CbcShift(s, w, data, iv, i - 1);
    }
  }

  lemma FirstIs(s: Box, w: seq<State>, data: seq<bv8>, iv: Block)
    requires |w| >= 2 && data != []
    ensures var c, first := AesCbc.Encrypted(s, w, data, iv), CbcBlock(s, w, data, iv, 0);
            c == first + (if |data| < 16 then [] else AesCbc.Encrypted(s, w, data[16..], first))
  {
    hide CbcInput, EncryptBlock, AesCbc.EncryptBlock, AesCbc.Chain;
    FirstInput(data, iv);
    if |data| < 16 {
      EncryptBlockIs(s, w, AesCbc.Chain(data, iv));
      assert data[..|data|] == data;
    } else {
      EncryptBlockIs(s, w, AesCbc.Chain(data[..16], iv));
    }
  }

  /** Block i of what encryption puts is block i of CBC mode. */
  lemma {:induction false} CbcIs(s: Box, w: seq<State>, data: seq<bv8>, iv: Block, i: nat)
    requires |w| >= 2 && 16 * i < |data|
    ensures var c := AesCbc.Encrypted(s, w, data, iv);
            16 * i + 16 <= |c| && c[16 * i..16 * i + 16] == CbcBlock(s, w, data, iv, i)
    decreases i
  {
    hide CbcBlock, AesCbc.Encrypted;
    FirstIs(s, w, data, iv);
    if i > 0 {
      var first := CbcBlock(s, w, data, iv, 0);
      CbcIs(s, w, data[16..], first, i - 1);
      CbcShift(s, w, data, iv, i - 1);
      var c, d := AesCbc.Encrypted(s, w, data, iv), AesCbc.Encrypted(s, w, data[16..], first);
      assert c[16 * i..16 * i + 16] == d[16 * (i - 1)..16 * (i - 1) + 16];
    }
  }

  /** AES in CBC mode from the user key on: the blocks that encryption puts are those
      of the standards, for every key size, data and ivec. */
  lemma EncryptsByTheStandard(s: Box, key: seq<bv8>, data: seq<bv8>, iv: Block, i: nat)
    requires KeyBytes(key) && 16 * i < |data|
    ensures var c := AesCbc.Encrypted(s, AesCbc.KeysOf(s, key, 8 * |key|), data, iv);
            16 * i + 16 <= |c| && c[16 * i..16 * i + 16] == CbcBlock(s, RoundKeys(s, key), data, iv, i)
  {
    hide AesCbc.Encrypted, AesCbc.KeysOf, RoundKeys, CbcBlock;
    KeysAre(s, key);
    CbcIs(s, RoundKeys(s, key), data, iv, i);
  }

  /** Block i of the plaintext, section 6.2 of SP 800-38A. */
  function CbcPlain(si: Box, w: seq<State>, c: seq<bv8>, iv: Block, i: nat): Block
    requires |w| >= 2 && 16 * i + 16 <= |c|
  {
    var d: Block := DecryptBlock(si, w, c[16 * i..16 * i + 16]);
    seq(16, j requires 0 <= j < 16 => Add(d[j], if i == 0 then iv[j] else c[16 * i - 16 + j]))
  }

  /** Block i of what decryption of n bytes puts is block i of CBC mode, cut at n,
      under the inverse cipher with the cipher's own round keys. */
  lemma {:induction false} DecryptsByTheStandard(si: Box, w: seq<State>, c: seq<bv8>, n: nat, iv: Block, i: nat)
    requires |w| >= 2 && 16 * i < n && AesCbc.RoundUp(n) <= |c|
    ensures 16 * i + 16 <= |c|
    ensures var d, e := AesCbc.Decrypted(si, AesCipher.DecryptKeys(w), c, n, iv), if n < 16 * i + 16 then n else 16 * i + 16;
            e <= |d| && d[16 * i..e] == CbcPlain(si, w, c, iv, i)[..e - 16 * i]
    decreases i
  {
    hide CbcPlain, AesCbc.DecryptBlock, AesCbc.Decrypted, AesCbc.DecryptedIv, AesCbc.Chain, AesCipher.DecryptKeys, AesCbc.RoundUp;
    AesCbc.RoundUpLess(n);
    AesCbc.DecryptedStep(si, AesCipher.DecryptKeys(w), c, n, iv);
    FirstPlain(si, w, c, iv);
    var d, e := AesCbc.Decrypted(si, AesCipher.DecryptKeys(w), c, n, iv), if n < 16 * i + 16 then n else 16 * i + 16;
    var first := CbcPlain(si, w, c, iv, 0);
    if i == 0 {
      assert d[..e] == first[..e];
    } else {
      DecryptsByTheStandard(si, w, c[16..], n - 16, c[..16], i - 1);
      PlainShift(si, w, c, iv, i);
      var d' := AesCbc.Decrypted(si, AesCipher.DecryptKeys(w), c[16..], n - 16, c[..16]);
      assert d == first + d';
      assert d[16 * i..e] == d'[16 * (i - 1)..e - 16];
    }
  }

  lemma FirstPlain(si: Box, w: seq<State>, c: seq<bv8>, iv: Block)
    requires |w| >= 2 && |c| >= 16
    ensures AesCbc.Chain(AesCbc.DecryptBlock(si, AesCipher.DecryptKeys(w), c[..16]), iv) == CbcPlain(si, w, c, iv, 0)
  {
    hide Add, DecryptBlock, AesCbc.DecryptBlock, AesCipher.DecryptKeys;
    DecryptBlockIs(si, w, c[..16]);
  }

  lemma PlainShift(si: Box, w: seq<State>, c: seq<bv8>, iv: Block, i: nat)
    requires |w| >= 2 && i > 0 && 16 * i + 16 <= |c|
    ensures CbcPlain(si, w, c, iv, i) == CbcPlain(si, w, c[16..], c[..16], i - 1)
  {
    hide Add, DecryptBlock;
    assert c[16..][16 * (i - 1)..16 * (i - 1) + 16] == c[16 * i..16 * i + 16];
  }
}
