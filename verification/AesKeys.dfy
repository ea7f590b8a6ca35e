/**
 Key set-up: AES_set_encrypt_key fills rd_key with the key expansion of
 section 5.2 of FIPS 197, AES_set_decrypt_key turns it, in place, into the round
 keys of the equivalent inverse cipher.
 */
module AesKeys {
  import opened AesField
  import opened AesCipher
  import opened AesTables

  function RotWord(w: Col): Col {
    Col(w.b1, w.b2, w.b3, w.b0)
  }

  /** x^(i-1), the byte of the i-th round constant. */
  function RconByte(i: nat): bv8 {
    if i <= 1 then 1 else X(RconByte(i - 1))
  }

  function Rcon(i: nat): Col {
    Col(RconByte(i), 0, 0, 0)
  }

  /** KeyExpansion of section 5.2: word i of the schedule of the key words k. */
  function Schedule(s: Box, k: seq<Col>, i: nat): Col
    requires |k| > 0
  {
    var nk := |k|;
    if i < nk then k[i]
    else
      var temp := Schedule(s, k, i - 1);
      Xor(Schedule(s, k, i - nk),
          if i % nk == 0 then Xor(SubCol(s, RotWord(temp)), Rcon(i / nk))
          else if nk > 6 && i % nk == 4 then SubCol(s, temp)
          else temp)
  }

  /** The code's expression for the first word of a group: four masked table
      words and the round constant added to the old word one after the other. */
  function RotSubRcon(s: Box, w: Col, temp: Col, rcon: Col): Col {
    Xor(Xor5(w, Mask0(Te4(s, temp.b1)), Mask1(Te4(s, temp.b2)), Mask2(Te4(s, temp.b3)), Mask3(Te4(s, temp.b0))), rcon)
  }

  /** The expression in the middle of a group of the 256-bit schedule. */
  function SubOnly(s: Box, w: Col, temp: Col): Col {
    Xor5(w, Mask0(Te4(s, temp.b0)), Mask1(Te4(s, temp.b1)), Mask2(Te4(s, temp.b2)), Mask3(Te4(s, temp.b3)))
  }

  lemma SubOnlyIs(s: Box, w: Col, temp: Col)
    ensures SubOnly(s, w, temp) == Xor(w, SubCol(s, temp))
  {
    hide Add;
    forall b ensures Add(b, 0) == b && Add(0, b) == b { AddZero(b); }
  }

  lemma RotSubRconIs(s: Box, w: Col, temp: Col, i: nat)
    ensures RotSubRcon(s, w, temp, Rcon(i)) == Xor(w, Xor(SubCol(s, RotWord(temp)), Rcon(i)))
  {
    hide Add, RconByte;
    var r := RotWord(temp);
    assert RotSubRcon(s, w, temp, Rcon(i)) == Xor(SubOnly(s, w, r), Rcon(i));
    SubOnlyIs(s, w, r);
    var u := SubCol(s, r);
    AddAssoc(w.b0, u.b0, RconByte(i));
    AddAssoc(w.b1, u.b1, 0);
    AddAssoc(w.b2, u.b2, 0);
    AddAssoc(w.b3, u.b3, 0);
  }

  lemma ScheduleFirst(s: Box, k: seq<Col>, m: nat)
    requires KeyLength(|k|) && m >= 1
    ensures var i := |k| * m;
            && i >= |k|
            && Schedule(s, k, i) ==
                 Xor(Schedule(s, k, i - |k|), Xor(SubCol(s, RotWord(Schedule(s, k, i - 1))), Rcon(m)))
  {
    hide Xor, SubCol, RotWord, Rcon;
    GroupIndex(|k|, m, 0);
  }

  lemma SchedulePlain(s: Box, k: seq<Col>, m: nat, o: nat)
    requires KeyLength(|k|) && m >= 1 && 0 < o < |k| && !(|k| > 6 && o == 4)
    ensures var i := |k| * m + o;
            i >= |k| && Schedule(s, k, i) == Xor(Schedule(s, k, i - |k|), Schedule(s, k, i - 1))
  {
    hide Xor, SubCol, RotWord, Rcon;
    GroupIndex(|k|, m, o);
  }

  lemma ScheduleMiddle(s: Box, k: seq<Col>, m: nat)
    requires |k| == 8 && m >= 1
    ensures var i := |k| * m + 4;
            i >= |k| && Schedule(s, k, i) == Xor(Schedule(s, k, i - |k|), SubCol(s, Schedule(s, k, i - 1)))
  {
    hide Xor, SubCol, RotWord, Rcon;
    GroupIndex(|k|, m, 4);
  }

  lemma GroupIndex(n: nat, m: nat, o: nat)
    requires KeyLength(n) && m >= 1 && o < n
    ensures n * m + o >= n && (n * m + o) % n == o && (n * m + o) / n == m
  {
    if n == 4 {
      assert (4 * m + o) % 4 == o && (4 * m + o) / 4 == m;
    } else if n == 6 {
      assert (6 * m + o) % 6 == o && (6 * m + o) / 6 == m;
    } else {
      assert (8 * m + o) % 8 == o && (8 * m + o) / 8 == m;
    }
  }

  /** Nk: 4, 6 or 8 words. */
  predicate KeyLength(n: nat) {
    n == 4 || n == 6 || n == 8
  }

  /** The table rcon, as its leading bytes. */
  const RCON: seq<bv8> := [0x01, 0x02, 0x04, 0x08, 0x10, 0x20, 0x40, 0x80, 0x1b, 0x36]

  /** The table holds the powers of x. */
  lemma RconTable(i: nat)
    requires i < 10
    ensures RCON[i] == RconByte(i + 1)
  {
    if i > 0 {
      RconTable(i - 1);
    }
  }

  function KeyWords(userKey: seq<bv8>, n: nat): (k: seq<Col>)
    requires 4 * n <= |userKey|
    ensures |k| == n
  {
    seq(n, i requires 0 <= i < n => GetWord(userKey, 4 * i))
  }

  /** The first n words of rk are those of the key expansion. */
  ghost predicate Expanded(s: Box, k: seq<Col>, rk: seq<Col>, n: nat)
    requires |k| > 0
  {
    n <= |rk| && forall i :: 0 <= i < n ==> rk[i] == Schedule(s, k, i)
  }

  /** rk[j] = w, where w is the next word of the expansion. */
  method Store(s: Box, k: seq<Col>, rk: array<Col>, j: nat, w: Col)
    requires |k| > 0 && j < rk.Length && Expanded(s, k, rk[..], j) && w == Schedule(s, k, j)
    modifies rk
    ensures Expanded(s, k, rk[..], j + 1)
  {
    hide Schedule;
    rk[j] := w;
  }

  lemma At(s: Box, k: seq<Col>, rk: seq<Col>, n: nat, i: nat)
    requires |k| > 0 && Expanded(s, k, rk, n) && i < n
    ensures i < |rk| && rk[i] == Schedule(s, k, i)
  {
  }

  /** First word of group m: RotWord, SubWord and the round constant. */
  method StoreFirst(s: Box, k: seq<Col>, rk: array<Col>, m: nat)
    requires KeyLength(|k|) && 1 <= m <= 10 && |k| * m < rk.Length && Expanded(s, k, rk[..], |k| * m)
    modifies rk
    ensures Expanded(s, k, rk[..], |k| * m + 1)
  {
    hide Schedule, Xor, RotSubRcon, RconByte, SubCol, RotWord, Expanded;
    var j := |k| * m;
    ScheduleFirst(s, k, m);
    At(s, k, rk[..], j, j - 1);
    At(s, k, rk[..], j, j - |k|);
    RconTable(m - 1);
    RotSubRconIs(s, rk[j - |k|], rk[j - 1], m);
    Store(s, k, rk, j, RotSubRcon(s, rk[j - |k|], rk[j - 1], Col(RCON[m - 1], 0, 0, 0)));
  }

  /** A plain word: the one before added to the one a group before. */
  method StorePlain(s: Box, k: seq<Col>, rk: array<Col>, m: nat, o: nat)
    requires KeyLength(|k|) && m >= 1 && 0 < o < |k| && !(|k| > 6 && o == 4)
    requires |k| * m + o < rk.Length && Expanded(s, k, rk[..], |k| * m + o)
    modifies rk
    ensures Expanded(s, k, rk[..], |k| * m + o + 1)
  {
    hide Schedule, Xor, Expanded;
    var j := |k| * m + o;
    SchedulePlain(s, k, m, o);
    At(s, k, rk[..], j, j - 1);
    At(s, k, rk[..], j, j - |k|);
    Store(s, k, rk, j, Xor(rk[j - |k|], rk[j - 1]));
  }

  /** Word 4 of a group of the 256-bit schedule: SubWord only. */
  method StoreMiddle(s: Box, k: seq<Col>, rk: array<Col>, m: nat)
    requires |k| == 8 && m >= 1
    requires |k| * m + 4 < rk.Length && Expanded(s, k, rk[..], |k| * m + 4)
    modifies rk
    ensures Expanded(s, k, rk[..], |k| * m + 5)
  {
    hide Schedule, Xor, Expanded, SubCol, SubOnly;
    var j := |k| * m + 4;
    ScheduleMiddle(s, k, m);
    At(s, k, rk[..], j, j - 1);
    At(s, k, rk[..], j, j - |k|);
    SubOnlyIs(s, rk[j - |k|], rk[j - 1]);
    Store(s, k, rk, j, SubOnly(s, rk[j - |k|], rk[j - 1]));
  }

  method Expand128(s: Box, k: seq<Col>, rk: array<Col>)
    requires |k| == 4 && rk.Length == 60 && Expanded(s, k, rk[..], 4)
    modifies rk
    ensures Expanded(s, k, rk[..], 44)
  {
    hide Expanded;
    var i := 0;
    while true
      invariant 0 <= i < 10 && Expanded(s, k, rk[..], 4 * (i + 1))
      decreases 10 - i
    {
      StoreFirst(s, k, rk, i + 1);
      StorePlain(s, k, rk, i + 1, 1);
      StorePlain(s, k, rk, i + 1, 2);
      StorePlain(s, k, rk, i + 1, 3);
      i := i + 1;
      if i == 10 {
        return;
      }
    }
  }

  method Expand192(s: Box, k: seq<Col>, rk: array<Col>)
    requires |k| == 6 && rk.Length == 60 && Expanded(s, k, rk[..], 6)
    modifies rk
    ensures Expanded(s, k, rk[..], 52)
  {
    hide Expanded;
    var i := 0;
    while true
      invariant 0 <= i < 8 && Expanded(s, k, rk[..], 6 * (i + 1))
      decreases 8 - i
    {
      StoreFirst(s, k, rk, i + 1);
      StorePlain(s, k, rk, i + 1, 1);
      StorePlain(s, k, rk, i + 1, 2);
      StorePlain(s, k, rk, i + 1, 3);
      i := i + 1;
      if i == 8 {
        return;
      }
      StorePlain(s, k, rk, i, 4);
      StorePlain(s, k, rk, i, 5);
    }
  }

  method Expand256(s: Box, k: seq<Col>, rk: array<Col>)
    requires |k| == 8 && rk.Length == 60 && Expanded(s, k, rk[..], 8)
    modifies rk
    ensures Expanded(s, k, rk[..], 60)
  {
    hide Expanded;
    var i := 0;
    while true
      invariant 0 <= i < 7 && Expanded(s, k, rk[..], 8 * (i + 1))
      decreases 7 - i
    {
      StoreFirst(s, k, rk, i + 1);
      StorePlain(s, k, rk, i + 1, 1);
      StorePlain(s, k, rk, i + 1, 2);
      StorePlain(s, k, rk, i + 1, 3);
      i := i + 1;
      if i == 7 {
        return;
      }
      StoreMiddle(s, k, rk, i);
      StorePlain(s, k, rk, i, 5);
      StorePlain(s, k, rk, i, 6);
      StorePlain(s, k, rk, i, 7);
    }
  }

  /** AES_KEY */
  class AesKey {
    const rdKey: array<Col>
    var rounds: nat

    ghost predicate Valid() {
      rdKey.Length == 60
    }

    /** AES_set_encrypt_key */
    method SetEncryptKey(s: Box, userKey: seq<bv8>, bits: int) returns (status: int)
      requires Valid()
      requires bits == 128 || bits == 192 || bits == 256 ==> 8 * |userKey| == bits
      modifies this`rounds, rdKey
      ensures status == if bits == 128 || bits == 192 || bits == 256 then 0 else -2
      ensures status == 0 ==>
                && rounds == bits / 32 + 6
                && Expanded(s, KeyWords(userKey, bits / 32), rdKey[..], 4 * rounds + 4)
      ensures status != 0 ==> rounds == old(rounds) && rdKey[..] == old(rdKey[..])
    {
      hide Schedule, GetWord;
      if bits != 128 && bits != 192 && bits != 256 {
        return -2;
      }
      rounds := if bits == 128 then 10 else if bits == 192 then 12 else 14;
      var n, j := bits / 32, 0;
      ghost var k := KeyWords(userKey, n);
      while j < n
        invariant 0 <= j <= n && forall i :: 0 <= i < j ==> rdKey[i] == k[i]
        invariant rounds == n + 6
      {
        rdKey[j] := GetWord(userKey, 4 * j);
        j := j + 1;
      }
      assert Expanded(s, k, rdKey[..], n) by { ScheduleOfKey(s, k); }
      var words := KeyWords(userKey, n);
      if bits == 128 {
        Expand128(s, words, rdKey);
      } else if bits == 192 {
        Expand192(s, words, rdKey);
      } else {
        Expand256(s, words, rdKey);
      }
      return 0;
    }

    /** AES_set_decrypt_key: the key expansion, then turned around in place. */
    method SetDecryptKey(s: Box, si: Box, userKey: seq<bv8>, bits: int) returns (status: int)
      requires Valid() && Inverse(s, si)
      requires bits == 128 || bits == 192 || bits == 256 ==> 8 * |userKey| == bits
      modifies this`rounds, rdKey
      ensures status == if bits == 128 || bits == 192 || bits == 256 then 0 else -2
      ensures status == 0 ==>
                && rounds == bits / 32 + 6
                && exists rk: seq<Col> ::
                     && |rk| == 60 && Expanded(s, KeyWords(userKey, bits / 32), rk, 4 * rounds + 4)
                     && KeyStates(rdKey[..], rounds) == DecryptKeys(KeyStates(rk, rounds))
      ensures status != 0 ==> rounds == old(rounds) && rdKey[..] == old(rdKey[..])
    {
      hide Expanded, DecryptKeys, KeyStates, KeyWords, Inverse, KeyAt, InvMixColumns;
      status := SetEncryptKey(s, userKey, bits);
      if status < 0 {
        return;
      }
      ghost var rk := rdKey[..];
      TurnKeys(s, si, rdKey, rounds);
    }
  }

  /** From encryption to decryption round keys, in place. */
  method TurnKeys(s: Box, si: Box, rk: array<Col>, rounds: nat)
    requires Inverse(s, si) && rk.Length == 60 && 1 <= rounds <= 14
    modifies rk
    ensures KeyStates(rk[..], rounds) == DecryptKeys(KeyStates(old(rk[..]), rounds))
  {
    hide Inverse, KeyAt, InvMixColumns, DecryptKeys, KeyStates;
    ReverseKeys(rk, rounds);
    ghost var mid := rk[..];
    TransformKeys(s, si, rk, rounds);
    DecryptKeysAre(old(rk[..]), mid, rk[..], rounds);
  }

  lemma DecryptKeysAre(x: seq<Col>, y: seq<Col>, z: seq<Col>, rounds: nat)
    requires |x| == |y| == |z| == 60 && 1 <= rounds <= 14
    requires forall g :: 0 <= g <= rounds ==> KeyAt(y, g) == KeyAt(x, rounds - g)
    requires forall g :: 0 <= g <= rounds ==>
               KeyAt(z, g) == if 0 < g < rounds then InvMixColumns(KeyAt(y, g)) else KeyAt(y, g)
    ensures KeyStates(z, rounds) == DecryptKeys(KeyStates(x, rounds))
  {
    hide InvMixColumns, KeyAt;
  }

  method SwapWords(rk: array<Col>, a: nat, b: nat)
    requires a < b < rk.Length
    modifies rk
    ensures rk[..] == old(rk[..])[a := old(rk[b])][b := old(rk[a])]
  {
    var temp := rk[a];
    rk[a] := rk[b];
    rk[b] := temp;
  }

  /** Round keys i and j of x exchanged. */
  ghost predicate Swapped(x: seq<Col>, y: seq<Col>, i: nat, j: nat)
    requires |x| == |y| == 60 && i < j <= 14
  {
    && KeyAt(y, i) == KeyAt(x, j) && KeyAt(y, j) == KeyAt(x, i)
    && forall g :: 0 <= g <= 14 && g != i && g != j ==> KeyAt(y, g) == KeyAt(x, g)
  }

  lemma SwappedWords(x: seq<Col>, y: seq<Col>, i: nat, j: nat)
    requires |x| == |y| == 60 && i < j <= 14
    requires y[4 * i] == x[4 * j] && y[4 * i + 1] == x[4 * j + 1] && y[4 * i + 2] == x[4 * j + 2] && y[4 * i + 3] == x[4 * j + 3]
    requires y[4 * j] == x[4 * i] && y[4 * j + 1] == x[4 * i + 1] && y[4 * j + 2] == x[4 * i + 2] && y[4 * j + 3] == x[4 * i + 3]
    requires forall w :: 0 <= w < 60 && !(4 * i <= w < 4 * i + 4) && !(4 * j <= w < 4 * j + 4) ==> y[w] == x[w]
    ensures Swapped(x, y, i, j)
  {
    forall g | 0 <= g <= 14 && g != i && g != j ensures KeyAt(y, g) == KeyAt(x, g) {
      assert y[4 * g] == x[4 * g] && y[4 * g + 1] == x[4 * g + 1];
      assert y[4 * g + 2] == x[4 * g + 2] && y[4 * g + 3] == x[4 * g + 3];
    }
  }

  method SwapGroups(rk: array<Col>, i: nat, j: nat)
    requires i < j <= 14 && rk.Length == 60
    modifies rk
    ensures Swapped(old(rk[..]), rk[..], i, j)
  {
    hide Swapped;
    SwapWords(rk, 4 * i, 4 * j);
    SwapWords(rk, 4 * i + 1, 4 * j + 1);
    SwapWords(rk, 4 * i + 2, 4 * j + 2);
    SwapWords(rk, 4 * i + 3, 4 * j + 3);
    SwappedWords(old(rk[..]), rk[..], i, j);
  }

  /** The round keys outside [i, j] reversed. */
  ghost predicate Turned(x: seq<Col>, y: seq<Col>, rounds: nat, i: int, j: int)
    requires |x| == |y| == 60 && rounds <= 14
  {
    forall g :: 0 <= g <= rounds ==> KeyAt(y, g) == KeyAt(x, if i <= g <= j then g else rounds - g)
  }

  lemma TurnMore(x: seq<Col>, y: seq<Col>, z: seq<Col>, rounds: nat, i: nat, j: nat)
    requires |x| == |y| == |z| == 60 && rounds <= 14 && i < j && j == rounds - i
    requires Turned(x, y, rounds, i, j) && Swapped(y, z, i, j)
    ensures Turned(x, z, rounds, i + 1, j - 1)
  {
    hide KeyAt;
  }

  lemma TurnNothing(x: seq<Col>, rounds: nat)
    requires |x| == 60 && rounds <= 14
    ensures Turned(x, x, rounds, 0, rounds)
  {
  }

  lemma TurnAll(x: seq<Col>, y: seq<Col>, rounds: nat, i: int, j: int)
    requires |x| == |y| == 60 && rounds <= 14 && Turned(x, y, rounds, i, j) && j == rounds - i && i >= j
    ensures forall g :: 0 <= g <= rounds ==> KeyAt(y, g) == KeyAt(x, rounds - g)
  {
    hide KeyAt;
  }

  /** Invert the order of the round keys. */
  method ReverseKeys(rk: array<Col>, rounds: nat)
    requires rk.Length == 60 && 1 <= rounds <= 14
    modifies rk
    ensures forall g :: 0 <= g <= rounds ==> KeyAt(rk[..], g) == KeyAt(old(rk[..]), rounds - g)
  {
    hide KeyAt, Swapped, Turned;
    var i: int, j: int := 0, rounds;
    TurnNothing(rk[..], rounds);
    while i < j
      invariant 0 <= i && j == rounds - i && i <= j + 1
      invariant Turned(old(rk[..]), rk[..], rounds, i, j)
      decreases j - i
    {
      ghost var y := rk[..];
      SwapGroups(rk, i, j);
      TurnMore(old(rk[..]), y, rk[..], rounds, i, j);
      i, j := i + 1, j - 1;
    }
    TurnAll(old(rk[..]), rk[..], rounds, i, j);
  }

  /** The code's expression for InvMixColumns of a word: Td undoes what Te4 substitutes. */
  function TdTe4(s: Box, si: Box, w: Col): Col {
    Xor(Xor(Xor(Td0(si, Te4(s, w.b0).b3), Td1(si, Te4(s, w.b1).b3)), Td2(si, Te4(s, w.b2).b3)), Td3(si, Te4(s, w.b3).b3))
  }

  lemma TdTe4IsInvMix(s: Box, si: Box, w: Col)
    requires Inverse(s, si)
    ensures TdTe4(s, si, w) == InvMix(w)
  {
    hide Add, Times;
  }

  method TransformGroup(s: Box, si: Box, rk: array<Col>, g: nat)
    requires Inverse(s, si) && 4 * g + 4 <= rk.Length
    modifies rk
    ensures KeyAt(rk[..], g) == InvMixColumns(old(KeyAt(rk[..], g)))
    ensures forall h :: 0 <= h && 4 * h + 4 <= rk.Length && h != g ==> KeyAt(rk[..], h) == old(KeyAt(rk[..], h))
  {
    hide TdTe4, InvMix, Inverse;
    TdTe4IsInvMix(s, si, rk[4 * g]);
    rk[4 * g] := TdTe4(s, si, rk[4 * g]);
    TdTe4IsInvMix(s, si, rk[4 * g + 1]);
    rk[4 * g + 1] := TdTe4(s, si, rk[4 * g + 1]);
    TdTe4IsInvMix(s, si, rk[4 * g + 2]);
    rk[4 * g + 2] := TdTe4(s, si, rk[4 * g + 2]);
    TdTe4IsInvMix(s, si, rk[4 * g + 3]);
    rk[4 * g + 3] := TdTe4(s, si, rk[4 * g + 3]);
  }

  /** Apply the inverse MixColumn transform to all round keys but the first and the last. */
  method TransformKeys(s: Box, si: Box, rk: array<Col>, rounds: nat)
    requires Inverse(s, si) && rk.Length == 60 && 1 <= rounds <= 14
    modifies rk
    ensures forall g :: 0 <= g <= rounds ==>
              KeyAt(rk[..], g) == if 0 < g < rounds then InvMixColumns(old(KeyAt(rk[..], g))) else old(KeyAt(rk[..], g))
  {
    hide KeyAt, InvMixColumns, Inverse;
    var i := 1;
    while i < rounds
      invariant 1 <= i <= rounds
      invariant forall g :: 0 <= g <= rounds ==>
                  KeyAt(rk[..], g) == if 0 < g < i then InvMixColumns(old(KeyAt(rk[..], g))) else old(KeyAt(rk[..], g))
    {
      TransformGroup(s, si, rk, i);
      i := i + 1;
    }
  }

  lemma ScheduleOfKey(s: Box, k: seq<Col>)
    requires |k| > 0
    ensures forall i :: 0 <= i < |k| ==> Schedule(s, k, i) == k[i]
  {
  }

  /** The round keys of the key expansion, as states. */
  function RoundKeys(s: Box, k: seq<Col>, rounds: nat): (keys: seq<State>)
    requires |k| > 0
    ensures |keys| == rounds + 1
  {
    seq(rounds + 1, i requires 0 <= i =>
      State(Schedule(s, k, 4 * i), Schedule(s, k, 4 * i + 1), Schedule(s, k, 4 * i + 2), Schedule(s, k, 4 * i + 3)))
  }

  lemma ExpandedKeys(s: Box, k: seq<Col>, rk: seq<Col>, rounds: nat)
    requires |k| > 0 && Expanded(s, k, rk, 4 * rounds + 4)
    ensures 4 * rounds + 4 <= |rk| && KeyStates(rk, rounds) == RoundKeys(s, k, rounds)
  {
    hide Schedule;
    forall i | 0 <= i <= rounds ensures KeyStates(rk, rounds)[i] == RoundKeys(s, k, rounds)[i] {
      assert rk[4 * i] == Schedule(s, k, 4 * i) && rk[4 * i + 1] == Schedule(s, k, 4 * i + 1);
      assert rk[4 * i + 2] == Schedule(s, k, 4 * i + 2) && rk[4 * i + 3] == Schedule(s, k, 4 * i + 3);
    }
  }
}
