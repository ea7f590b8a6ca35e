/**
 The table-driven code: AES_encrypt and AES_decrypt (the loop form), refined to
 the ciphers of FIPS 197. A 32-bit word is kept as its four bytes, most
 significant first: w >> 24 is b0, w & 0xff is b3.
 */
module AesTables {
  import opened AesField
  import opened AesCipher

  // ---- 32-bit words are columns -------------------------------------------------

  /** GETU32 */
  function Pack(c: Col): bv32 {
    ((c.b0 as bv32) << 24) ^ ((c.b1 as bv32) << 16) ^ ((c.b2 as bv32) << 8) ^ (c.b3 as bv32)
  }

  /** PUTU32, and the selections w >> 24, (w >> 16) & 0xff, (w >> 8) & 0xff, w & 0xff. */
  function Unpack(w: bv32): Col {
    Col((w >> 24) as bv8, ((w >> 16) & 0xff) as bv8, ((w >> 8) & 0xff) as bv8, (w & 0xff) as bv8)
  }

  /** Words and columns correspond one to one, and ^ on words is Xor on columns. */
  lemma WordsAreColumns(c: Col, w: bv32)
    ensures Unpack(Pack(c)) == c && Pack(Unpack(w)) == w
  {
  }

  lemma WordXor(a: Col, b: Col)
    ensures Pack(a) ^ Pack(b) == Pack(Xor(a, b))
  {
  }

  // ---- the tables, by the formulas in front of them --------------------------------

  function Te0(s: Box, x: bv8): Col { Col(Times(P2, s(x)), Times(P1, s(x)), Times(P1, s(x)), Times(P3, s(x))) }
  function Te1(s: Box, x: bv8): Col { Col(Times(P3, s(x)), Times(P2, s(x)), Times(P1, s(x)), Times(P1, s(x))) }
  function Te2(s: Box, x: bv8): Col { Col(Times(P1, s(x)), Times(P3, s(x)), Times(P2, s(x)), Times(P1, s(x))) }
  function Te3(s: Box, x: bv8): Col { Col(Times(P1, s(x)), Times(P1, s(x)), Times(P3, s(x)), Times(P2, s(x))) }
  function Te4(s: Box, x: bv8): Col { Col(s(x), s(x), s(x), s(x)) }

  function Td0(si: Box, x: bv8): Col { Col(Times(PE, si(x)), Times(P9, si(x)), Times(PD, si(x)), Times(PB, si(x))) }
  function Td1(si: Box, x: bv8): Col { Col(Times(PB, si(x)), Times(PE, si(x)), Times(P9, si(x)), Times(PD, si(x))) }
  function Td2(si: Box, x: bv8): Col { Col(Times(PD, si(x)), Times(PB, si(x)), Times(PE, si(x)), Times(P9, si(x))) }
  function Td3(si: Box, x: bv8): Col { Col(Times(P9, si(x)), Times(PD, si(x)), Times(PB, si(x)), Times(PE, si(x))) }

  // the masks 0xff000000, 0x00ff0000, 0x0000ff00, 0x000000ff
  function Mask0(c: Col): Col { Col(c.b0, 0, 0, 0) }
  function Mask1(c: Col): Col { Col(0, c.b1, 0, 0) }
  function Mask2(c: Col): Col { Col(0, 0, c.b2, 0) }
  function Mask3(c: Col): Col { Col(0, 0, 0, c.b3) }

  function Xor5(a: Col, b: Col, c: Col, d: Col, e: Col): Col {
    Xor(Xor(Xor(Xor(a, b), c), d), e)
  }

  /** One new word of a full round. */
  function TeWord(s: Box, w: bv8, x: bv8, y: bv8, z: bv8, k: Col): Col {
    Xor5(Te0(s, w), Te1(s, x), Te2(s, y), Te3(s, z), k)
  }

  function TdWord(si: Box, w: bv8, x: bv8, y: bv8, z: bv8, k: Col): Col {
    Xor5(Td0(si, w), Td1(si, x), Td2(si, y), Td3(si, z), k)
  }

  /** One new word of the last round. */
  function Te4Word(s: Box, w: bv8, x: bv8, y: bv8, z: bv8, k: Col): Col {
    Xor5(Mask0(Te4(s, w)), Mask1(Te4(s, x)), Mask2(Te4(s, y)), Mask3(Te4(s, z)), k)
  }

  /** The tables do SubBytes and MixColumns in one step. */
  lemma TeWordMixes(s: Box, w: bv8, x: bv8, y: bv8, z: bv8, k: Col)
    ensures TeWord(s, w, x, y, z, k) == Xor(Mix(Col(s(w), s(x), s(y), s(z))), k)
  {
    hide Add, Times;
  }

  lemma TdWordMixes(si: Box, w: bv8, x: bv8, y: bv8, z: bv8, k: Col)
    ensures TdWord(si, w, x, y, z, k) == Xor(InvMix(Col(si(w), si(x), si(y), si(z))), k)
  {
    hide Add, Times;
  }

  lemma Te4WordSubstitutes(s: Box, w: bv8, x: bv8, y: bv8, z: bv8, k: Col)
    ensures Te4Word(s, w, x, y, z, k) == Xor(Col(s(w), s(x), s(y), s(z)), k)
  {
    hide Add;
    AddZero(s(w));
    AddZero(s(x));
    AddZero(s(y));
    AddZero(s(z));
    AddZero(0);
  }

  function TeRound(s: Box, t: State, k: State): State {
    State(TeWord(s, t.c0.b0, t.c1.b1, t.c2.b2, t.c3.b3, k.c0),
          TeWord(s, t.c1.b0, t.c2.b1, t.c3.b2, t.c0.b3, k.c1),
          TeWord(s, t.c2.b0, t.c3.b1, t.c0.b2, t.c1.b3, k.c2),
          TeWord(s, t.c3.b0, t.c0.b1, t.c1.b2, t.c2.b3, k.c3))
  }

  function TdRound(si: Box, t: State, k: State): State {
    State(TdWord(si, t.c0.b0, t.c3.b1, t.c2.b2, t.c1.b3, k.c0),
          TdWord(si, t.c1.b0, t.c0.b1, t.c3.b2, t.c2.b3, k.c1),
          TdWord(si, t.c2.b0, t.c1.b1, t.c0.b2, t.c3.b3, k.c2),
          TdWord(si, t.c3.b0, t.c2.b1, t.c1.b2, t.c0.b3, k.c3))
  }

  lemma TeRoundIsRound(s: Box, t: State, k: State)
    ensures TeRound(s, t, k) == Round(s, t, k)
  {
    hide Xor, Mix, TeWord;
    TeWordMixes(s, t.c0.b0, t.c1.b1, t.c2.b2, t.c3.b3, k.c0);
    TeWordMixes(s, t.c1.b0, t.c2.b1, t.c3.b2, t.c0.b3, k.c1);
    TeWordMixes(s, t.c2.b0, t.c3.b1, t.c0.b2, t.c1.b3, k.c2);
    TeWordMixes(s, t.c3.b0, t.c0.b1, t.c1.b2, t.c2.b3, k.c3);
  }

  lemma TdRoundIsInvRound(si: Box, t: State, k: State)
    ensures TdRound(si, t, k) == InvRound(si, t, k)
  {
    hide Xor, InvMix, TdWord;
    TdWordMixes(si, t.c0.b0, t.c3.b1, t.c2.b2, t.c1.b3, k.c0);
    TdWordMixes(si, t.c1.b0, t.c0.b1, t.c3.b2, t.c2.b3, k.c1);
    TdWordMixes(si, t.c2.b0, t.c1.b1, t.c0.b2, t.c3.b3, k.c2);
    TdWordMixes(si, t.c3.b0, t.c2.b1, t.c1.b2, t.c0.b3, k.c3);
  }

  function Te4Round(s: Box, t: State, k: State): State {
    State(Te4Word(s, t.c0.b0, t.c1.b1, t.c2.b2, t.c3.b3, k.c0),
          Te4Word(s, t.c1.b0, t.c2.b1, t.c3.b2, t.c0.b3, k.c1),
          Te4Word(s, t.c2.b0, t.c3.b1, t.c0.b2, t.c1.b3, k.c2),
          Te4Word(s, t.c3.b0, t.c0.b1, t.c1.b2, t.c2.b3, k.c3))
  }

  /** Td4 has the shape of Te4 with the inverse S-box, so Te4Word serves both. */
  function Td4Round(si: Box, t: State, k: State): State {
    State(Te4Word(si, t.c0.b0, t.c3.b1, t.c2.b2, t.c1.b3, k.c0),
          Te4Word(si, t.c1.b0, t.c0.b1, t.c3.b2, t.c2.b3, k.c1),
          Te4Word(si, t.c2.b0, t.c1.b1, t.c0.b2, t.c3.b3, k.c2),
          Te4Word(si, t.c3.b0, t.c2.b1, t.c1.b2, t.c0.b3, k.c3))
  }

  lemma Te4RoundIsLast(s: Box, t: State, k: State)
    ensures Te4Round(s, t, k) == LastRound(s, t, k)
  {
    hide Xor, Te4Word;
    Te4WordSubstitutes(s, t.c0.b0, t.c1.b1, t.c2.b2, t.c3.b3, k.c0);
    Te4WordSubstitutes(s, t.c1.b0, t.c2.b1, t.c3.b2, t.c0.b3, k.c1);
    Te4WordSubstitutes(s, t.c2.b0, t.c3.b1, t.c0.b2, t.c1.b3, k.c2);
    Te4WordSubstitutes(s, t.c3.b0, t.c0.b1, t.c1.b2, t.c2.b3, k.c3);
  }

  lemma Td4RoundIsLast(si: Box, t: State, k: State)
    ensures Td4Round(si, t, k) == InvLastRound(si, t, k)
  {
    hide Xor, Te4Word;
    Te4WordSubstitutes(si, t.c0.b0, t.c3.b1, t.c2.b2, t.c1.b3, k.c0);
    Te4WordSubstitutes(si, t.c1.b0, t.c0.b1, t.c3.b2, t.c2.b3, k.c1);
    Te4WordSubstitutes(si, t.c2.b0, t.c1.b1, t.c0.b2, t.c3.b3, k.c2);
    Te4WordSubstitutes(si, t.c3.b0, t.c2.b1, t.c1.b2, t.c0.b3, k.c3);
  }

  // ---- blocks and round keys ---------------------------------------------------------

  type Block = s: seq<bv8> | |s| == 16 witness seq(16, i => 0)

  function GetWord(b: seq<bv8>, i: nat): Col
    requires i + 4 <= |b|
  {
    Col(b[i], b[i + 1], b[i + 2], b[i + 3])
  }

  function FromBlock(b: Block): State {
    State(GetWord(b, 0), GetWord(b, 4), GetWord(b, 8), GetWord(b, 12))
  }

  function PutWord(c: Col): seq<bv8> {
    [c.b0, c.b1, c.b2, c.b3]
  }

  function ToBlock(t: State): Block {
    PutWord(t.c0) + PutWord(t.c1) + PutWord(t.c2) + PutWord(t.c3)
  }

  lemma BlockRoundTrip(b: Block, t: State)
    ensures ToBlock(FromBlock(b)) == b && FromBlock(ToBlock(t)) == t
  {
  }

  function KeyAt(rk: seq<Col>, i: nat): State
    requires 4 * i + 4 <= |rk|
  {
    State(rk[4 * i], rk[4 * i + 1], rk[4 * i + 2], rk[4 * i + 3])
  }

  /** The round keys in an expanded key of the given number of rounds. */
  function KeyStates(rk: seq<Col>, rounds: nat): (keys: seq<State>)
    requires 4 * rounds + 4 <= |rk|
    ensures |keys| == rounds + 1
    ensures forall i :: 0 <= i <= rounds ==> keys[i] == KeyAt(rk, i)
  {
    seq(rounds + 1, i requires 0 <= i <= rounds => KeyAt(rk, i))
  }

  /** Two full rounds per turn need an even number of rounds (10, 12 or 14). */
  predicate EvenRounds(rounds: nat) {
    rounds >= 2 && rounds % 2 == 0
  }

  /** AES_encrypt: table look-ups, two rounds per turn of the loop. */
  method Encrypt(s: Box, input: Block, rk: array<Col>, rounds: nat) returns (output: Block)
    requires EvenRounds(rounds) && 4 * rounds + 4 <= rk.Length
    ensures output == ToBlock(Cipher(s, FromBlock(input), KeyStates(rk[..], rounds)))
  {
    hide Xor, Round, LastRound, TeWord, Te4Word;
    ghost var keys := KeyStates(rk[..], rounds);
    ghost var t0 := FromBlock(input);
    var st := AddKey(FromBlock(input), KeyAt(rk[..], 0));
    var k, r := 0, rounds / 2;
    var t: State;
    while true
      invariant 1 <= r <= rounds / 2 && k == rounds / 2 - r
      invariant st == Rounds(s, t0, keys, 2 * k)
      decreases r
    {
      t := TeRound(s, st, KeyAt(rk[..], 2 * k + 1));
      TeRoundIsRound(s, st, keys[2 * k + 1]);
      k := k + 1;
      r := r - 1;
      if r == 0 {
        break;
      }
      st := TeRound(s, t, KeyAt(rk[..], 2 * k));
      TeRoundIsRound(s, t, keys[2 * k]);
    }
    st := Te4Round(s, t, KeyAt(rk[..], 2 * k));
    Te4RoundIsLast(s, t, keys[2 * k]);
    output := ToBlock(st);
  }

  /** AES_decrypt, with the round keys AES_set_decrypt_key leaves. */
  method Decrypt(si: Box, input: Block, rk: array<Col>, rounds: nat) returns (output: Block)
    requires EvenRounds(rounds) && 4 * rounds + 4 <= rk.Length
    ensures output == ToBlock(EqInvCipher(si, FromBlock(input), KeyStates(rk[..], rounds)))
  {
    hide Xor, InvRound, InvLastRound, TdWord, Te4Word;
    ghost var keys := KeyStates(rk[..], rounds);
    ghost var t0 := FromBlock(input);
    var st := AddKey(FromBlock(input), KeyAt(rk[..], 0));
    var k, r := 0, rounds / 2;
    var t: State;
    while true
      invariant 1 <= r <= rounds / 2 && k == rounds / 2 - r
      invariant st == InvRounds(si, t0, keys, 2 * k)
      decreases r
    {
      t := TdRound(si, st, KeyAt(rk[..], 2 * k + 1));
      TdRoundIsInvRound(si, st, keys[2 * k + 1]);
      k := k + 1;
      r := r - 1;
      if r == 0 {
        break;
      }
      st := TdRound(si, t, KeyAt(rk[..], 2 * k));
      TdRoundIsInvRound(si, t, keys[2 * k]);
    }
    st := Td4Round(si, t, KeyAt(rk[..], 2 * k));
    Td4RoundIsLast(si, t, keys[2 * k]);
    output := ToBlock(st);
  }
}
