/**
 The cipher of section 5.1 of FIPS 197 and the equivalent inverse cipher of its
 section 5.3.5, over any S-box that has an inverse and any number of rounds.
 */
module AesCipher {
  import opened AesField

  /** The state: four columns. A round key has the same shape. */
  datatype State = State(c0: Col, c1: Col, c2: Col, c3: Col)

  type Box = bv8 -> bv8

  ghost predicate Inverse(s: Box, si: Box) {
    forall x :: si(s(x)) == x
  }

  function SubCol(s: Box, c: Col): Col {
    Col(s(c.b0), s(c.b1), s(c.b2), s(c.b3))
  }

  function SubBytes(s: Box, t: State): State {
    State(SubCol(s, t.c0), SubCol(s, t.c1), SubCol(s, t.c2), SubCol(s, t.c3))
  }

  /** Row r moves r columns to the left. */
  function ShiftRows(t: State): State {
    State(Col(t.c0.b0, t.c1.b1, t.c2.b2, t.c3.b3), Col(t.c1.b0, t.c2.b1, t.c3.b2, t.c0.b3),
          Col(t.c2.b0, t.c3.b1, t.c0.b2, t.c1.b3), Col(t.c3.b0, t.c0.b1, t.c1.b2, t.c2.b3))
  }

  /** Row r moves r columns to the right. */
  function InvShiftRows(t: State): State {
    State(Col(t.c0.b0, t.c3.b1, t.c2.b2, t.c1.b3), Col(t.c1.b0, t.c0.b1, t.c3.b2, t.c2.b3),
          Col(t.c2.b0, t.c1.b1, t.c0.b2, t.c3.b3), Col(t.c3.b0, t.c2.b1, t.c1.b2, t.c0.b3))
  }

  function MixColumns(t: State): State {
    State(Mix(t.c0), Mix(t.c1), Mix(t.c2), Mix(t.c3))
  }

  function InvMixColumns(t: State): State {
    State(InvMix(t.c0), InvMix(t.c1), InvMix(t.c2), InvMix(t.c3))
  }

  function AddKey(t: State, k: State): State {
    State(Xor(t.c0, k.c0), Xor(t.c1, k.c1), Xor(t.c2, k.c2), Xor(t.c3, k.c3))
  }

  /** One full round, and the last one without MixColumns. */
  function Round(s: Box, t: State, k: State): State {
    AddKey(MixColumns(ShiftRows(SubBytes(s, t))), k)
  }

  function LastRound(s: Box, t: State, k: State): State {
    AddKey(ShiftRows(SubBytes(s, t)), k)
  }

  /** The state after the initial AddRoundKey and n full rounds. */
  function Rounds(s: Box, t: State, keys: seq<State>, n: nat): State
    requires n < |keys|
  {
    if n == 0 then AddKey(t, keys[0]) else Round(s, Rounds(s, t, keys, n - 1), keys[n])
  }

  /** Cipher of section 5.1 with |keys| - 1 rounds. */
  function Cipher(s: Box, t: State, keys: seq<State>): State
    requires |keys| >= 2
  {
    LastRound(s, Rounds(s, t, keys, |keys| - 2), keys[|keys| - 1])
  }

  /** A full round of the equivalent inverse cipher, and its last one. */
  function InvRound(si: Box, t: State, k: State): State {
    AddKey(InvMixColumns(InvShiftRows(SubBytes(si, t))), k)
  }

  function InvLastRound(si: Box, t: State, k: State): State {
    AddKey(InvShiftRows(SubBytes(si, t)), k)
  }

  function InvRounds(si: Box, t: State, keys: seq<State>, n: nat): State
    requires n < |keys|
  {
    if n == 0 then AddKey(t, keys[0]) else InvRound(si, InvRounds(si, t, keys, n - 1), keys[n])
  }

  /** EqInvCipher of section 5.3.5. */
  function EqInvCipher(si: Box, t: State, keys: seq<State>): State
    requires |keys| >= 2
  {
    InvLastRound(si, InvRounds(si, t, keys, |keys| - 2), keys[|keys| - 1])
  }

  /** Round keys for decryption: reversed, all but the outer two transformed. */
  function DecryptKeys(keys: seq<State>): (d: seq<State>)
    ensures |d| == |keys|
    ensures forall i :: 0 <= i < |d| ==>
              d[i] == if 0 < i < |d| - 1 then InvMixColumns(keys[|d| - 1 - i]) else keys[|d| - 1 - i]
  {
    seq(|keys|, i requires 0 <= i < |keys| =>
      if 0 < i < |keys| - 1 then InvMixColumns(keys[|keys| - 1 - i]) else keys[|keys| - 1 - i])
  }

  // ---- the steps undo each other ----------------------------------------------

  lemma SubUndone(s: Box, si: Box, t: State)
    requires Inverse(s, si)
    ensures SubBytes(si, SubBytes(s, t)) == t
  {
  }

  /** InvShiftRows and InvSubBytes together undo SubBytes and ShiftRows. */
  lemma ShiftSubUndone(s: Box, si: Box, t: State)
    requires Inverse(s, si)
    ensures InvShiftRows(SubBytes(si, ShiftRows(SubBytes(s, t)))) == t
  {
    var u := SubBytes(s, t);
    assert SubBytes(si, ShiftRows(u)) == ShiftRows(SubBytes(si, u));
    SubUndone(s, si, t);
  }

  lemma KeyUndone(t: State, k: State)
    ensures AddKey(AddKey(t, k), k) == t
  {
    hide Xor;
    XorCancels(t.c0, k.c0);
    XorCancels(t.c1, k.c1);
    XorCancels(t.c2, k.c2);
    XorCancels(t.c3, k.c3);
  }

  lemma MixUndone(t: State)
    ensures InvMixColumns(MixColumns(t)) == t
  {
    hide Mix, InvMix;
    InvMixUndoesMix(t.c0);
    InvMixUndoesMix(t.c1);
    InvMixUndoesMix(t.c2);
    InvMixUndoesMix(t.c3);
  }

  lemma InvMixAddKey(t: State, k: State)
    ensures InvMixColumns(AddKey(t, k)) == AddKey(InvMixColumns(t), InvMixColumns(k))
  {
    hide InvMix, Xor;
    InvMixXor(t.c0, k.c0);
    InvMixXor(t.c1, k.c1);
    InvMixXor(t.c2, k.c2);
    InvMixXor(t.c3, k.c3);
  }

  /** One inverse round takes the image of round r's state back to that of the
      round before: t is the state before the round, u after it. */
  lemma InvRoundBack(s: Box, si: Box, t: State, k: State)
    requires Inverse(s, si)
    ensures var u := Round(s, t, k);
            InvRound(si, ShiftRows(SubBytes(s, u)), InvMixColumns(k)) == ShiftRows(SubBytes(s, t))
  {
    hide SubBytes, ShiftRows, InvShiftRows, MixColumns, InvMixColumns, AddKey;
    var v := ShiftRows(SubBytes(s, t));
    var u := AddKey(MixColumns(v), k);
    ShiftSubUndone(s, si, u);
    InvMixAddKey(u, k);
    KeyUndone(MixColumns(v), k);
    MixUndone(v);
  }

  /** After j inverse rounds the decryptor is where the encryptor was after
      SubBytes and ShiftRows of round n - j. */
  lemma {:induction false} InvRoundsBack(s: Box, si: Box, t: State, keys: seq<State>, j: nat)
    requires Inverse(s, si) && j + 2 <= |keys|
    ensures InvRounds(si, Cipher(s, t, keys), DecryptKeys(keys), j)
         == ShiftRows(SubBytes(s, Rounds(s, t, keys, |keys| - 2 - j)))
  {
    hide SubBytes, ShiftRows, AddKey, Round, InvRound, InvMixColumns;
    var n := |keys| - 1;
    var d := DecryptKeys(keys);
    if j == 0 {
      assert d[0] == keys[n];
      KeyUndone(ShiftRows(SubBytes(s, Rounds(s, t, keys, n - 1))), keys[n]);
    } else {
      InvRoundsBack(s, si, t, keys, j - 1);
      assert d[j] == InvMixColumns(keys[n - j]);
      InvRoundBack(s, si, Rounds(s, t, keys, n - 1 - j), keys[n - j]);
    }
  }

  /** The equivalent inverse cipher inverts the cipher: for every block, every
      sequence of round keys and every S-box with an inverse. */
  lemma DecryptUndoesEncrypt(s: Box, si: Box, t: State, keys: seq<State>)
    requires Inverse(s, si) && |keys| >= 2
    ensures EqInvCipher(si, Cipher(s, t, keys), DecryptKeys(keys)) == t
  {
    hide SubBytes, ShiftRows, InvShiftRows, AddKey, Cipher, InvRounds;
    var n := |keys| - 1;
    InvRoundsBack(s, si, t, keys, n - 1);
    assert DecryptKeys(keys)[n] == keys[0];
    assert Rounds(s, t, keys, 0) == AddKey(t, keys[0]);
    ShiftSubUndone(s, si, AddKey(t, keys[0]));
    KeyUndone(t, keys[0]);
  }
}
