/**
 AES_cbc_encrypt: cipher block chaining (section 6.2 of NIST SP 800-38A) for data
 of any length, on buffers that may be the same.
 */
module AesCbc {
  import opened AesField
  import opened AesCipher
  import opened AesTables
  import AesKeys

  const BLOCK := 16

  function EncryptBlock(s: Box, keys: seq<State>, b: Block): Block
    requires |keys| >= 2
  {
    ToBlock(Cipher(s, FromBlock(b), keys))
  }

  function DecryptBlock(si: Box, keys: seq<State>, b: Block): Block
    requires |keys| >= 2
  {
    ToBlock(EqInvCipher(si, FromBlock(b), keys))
  }

  lemma BlockUndone(s: Box, si: Box, keys: seq<State>, b: Block)
    requires Inverse(s, si) && |keys| >= 2
    ensures DecryptBlock(si, DecryptKeys(keys), EncryptBlock(s, keys, b)) == b
  {
    hide Cipher, EqInvCipher, ToBlock, FromBlock, DecryptKeys;
    BlockRoundTrip(b, Cipher(s, FromBlock(b), keys));
    DecryptUndoesEncrypt(s, si, FromBlock(b), keys);
  }

  /** data ^ iv where there is data, iv alone behind it. */
  function Chain(data: seq<bv8>, iv: Block): (t: Block)
    requires |data| <= BLOCK
    ensures forall i :: 0 <= i < BLOCK ==> t[i] == if i < |data| then Add(data[i], iv[i]) else iv[i]
  {
    seq(BLOCK, i requires 0 <= i < BLOCK => if i < |data| then Add(data[i], iv[i]) else iv[i])
  }

  /** n rounded up to whole blocks. */
  function RoundUp(n: nat): (r: nat)
    ensures n <= r < n + BLOCK
  {
    if n == 0 then 0 else if n < BLOCK then BLOCK else BLOCK + RoundUp(n - BLOCK)
  }

  /** What encryption puts: every block chained to the one before; a partial last
      block is padded with the bytes it is chained to. */
  function Encrypted(s: Box, keys: seq<State>, data: seq<bv8>, iv: Block): (c: seq<bv8>)
    requires |keys| >= 2
    decreases |data|
  {
    if data == [] then []
    else if |data| < BLOCK then EncryptBlock(s, keys, Chain(data, iv))
    else
      var c := EncryptBlock(s, keys, Chain(data[..BLOCK], iv));
      c + Encrypted(s, keys, data[BLOCK..], c)
  }

  /** The ivec encryption leaves. */
  function EncryptedIv(s: Box, keys: seq<State>, data: seq<bv8>, iv: Block): Block
    requires |keys| >= 2
    decreases |data|
  {
    if data == [] then iv
    else if |data| < BLOCK then EncryptBlock(s, keys, Chain(data, iv))
    else EncryptedIv(s, keys, data[BLOCK..], EncryptBlock(s, keys, Chain(data[..BLOCK], iv)))
  }

  /** What decryption of n bytes puts, as far as there is ciphertext. */
  function Decrypted(si: Box, keys: seq<State>, c: seq<bv8>, n: nat, iv: Block): (data: seq<bv8>)
    requires |keys| >= 2
    decreases n
  {
    if n == 0 || |c| < BLOCK then []
    else if n < BLOCK then Chain(DecryptBlock(si, keys, c[..BLOCK]), iv)[..n]
    else Chain(DecryptBlock(si, keys, c[..BLOCK]), iv) + Decrypted(si, keys, c[BLOCK..], n - BLOCK, c[..BLOCK])
  }

  /** The ivec decryption leaves: behind a partial block it is the decrypted
      block, not the last block of the ciphertext. */
  function DecryptedIv(si: Box, keys: seq<State>, c: seq<bv8>, n: nat, iv: Block): Block
    requires |keys| >= 2
    decreases n
  {
    if n == 0 || |c| < BLOCK then iv
    else if n < BLOCK then DecryptBlock(si, keys, c[..BLOCK])
    else DecryptedIv(si, keys, c[BLOCK..], n - BLOCK, c[..BLOCK])
  }

  lemma ChainTwice(data: seq<bv8>, iv: Block)
    requires |data| <= BLOCK
    ensures Chain(Chain(data, iv), iv)[..|data|] == data
  {
    hide Add;
    var t := Chain(Chain(data, iv), iv);
    forall i | 0 <= i < |data| ensures t[i] == data[i] {
      AddCancels(data[i], iv[i]);
    }
  }

  lemma {:induction false} EncryptedLength(s: Box, keys: seq<State>, data: seq<bv8>, iv: Block)
    requires |keys| >= 2
    ensures |Encrypted(s, keys, data, iv)| == RoundUp(|data|)
    decreases |data|
  {
    hide EncryptBlock, Chain;
    if |data| >= BLOCK {
      EncryptedLength(s, keys, data[BLOCK..], EncryptBlock(s, keys, Chain(data[..BLOCK], iv)));
    }
  }

  /** Round trip for data of every length. */
  lemma {:induction false} CbcRoundTrip(s: Box, si: Box, keys: seq<State>, data: seq<bv8>, iv: Block)
    requires Inverse(s, si) && |keys| >= 2
    ensures Decrypted(si, DecryptKeys(keys), Encrypted(s, keys, data, iv), |data|, iv) == data
    decreases |data|
  {
    hide EncryptBlock, DecryptBlock, Chain, DecryptKeys, Inverse;
    EncryptedLength(s, keys, data, iv);
    var c := Encrypted(s, keys, data, iv);
    if data != [] && |data| < BLOCK {
      BlockUndone(s, si, keys, Chain(data, iv));
      assert c[..BLOCK] == c;
      ChainTwice(data, iv);
    } else if data != [] {
      var first := data[..BLOCK];
      var head := EncryptBlock(s, keys, Chain(first, iv));
      var tail := Encrypted(s, keys, data[BLOCK..], head);
      assert c[..BLOCK] == head && c[BLOCK..] == tail;
      BlockUndone(s, si, keys, Chain(first, iv));
      ChainTwice(first, iv);
      assert Chain(Chain(first, iv), iv)[..BLOCK] == Chain(Chain(first, iv), iv);
      CbcRoundTrip(s, si, keys, data[BLOCK..], head);
    }
  }

  /** The block the encryptor makes of a partial last block, before encrypting it. */
  function LastInput(s: Box, keys: seq<State>, data: seq<bv8>, iv: Block): Block
    requires |keys| >= 2
    decreases |data|
  {
    if |data| < BLOCK then Chain(data, iv)
    else LastInput(s, keys, data[BLOCK..], EncryptBlock(s, keys, Chain(data[..BLOCK], iv)))
  }

  /** Both directions leave the same ivec exactly when the length is a whole
      number of blocks, or the cipher happens to leave the last block alone. */
  lemma {:induction false} SameIvExactly(s: Box, si: Box, keys: seq<State>, data: seq<bv8>, iv: Block)
    requires Inverse(s, si) && |keys| >= 2
    ensures var last := LastInput(s, keys, data, iv);
            DecryptedIv(si, DecryptKeys(keys), Encrypted(s, keys, data, iv), |data|, iv) == EncryptedIv(s, keys, data, iv)
            <==> |data| % BLOCK == 0 || EncryptBlock(s, keys, last) == last
    decreases |data|
  {
    hide EncryptBlock, DecryptBlock, Chain, DecryptKeys, Inverse, Decrypted, DecryptedIv;
    EncryptedLength(s, keys, data, iv);
    var c := Encrypted(s, keys, data, iv);
    DecryptedStep(si, DecryptKeys(keys), c, |data|, iv);
    if |data| < BLOCK {
      if data != [] {
        BlockUndone(s, si, keys, Chain(data, iv));
        assert c[..BLOCK] == c;
      }
    } else {
      var head := EncryptBlock(s, keys, Chain(data[..BLOCK], iv));
      assert c[..BLOCK] == head && c[BLOCK..] == Encrypted(s, keys, data[BLOCK..], head);
      SameIvExactly(s, si, keys, data[BLOCK..], head);
    }
  }

  const NOUGHT := Col(0, 0, 0, 0)
  const BLANK := State(NOUGHT, NOUGHT, NOUGHT, NOUGHT)

  /** Ten rounds whose keys are all zero but the last. */
  function PlainKeys(): seq<State> {
    seq(10, i => BLANK) + [State(Col(1, 0, 0, 0), NOUGHT, NOUGHT, NOUGHT)]
  }

  lemma {:induction false} PlainRounds(n: nat)
    requires n < 10
    ensures Rounds(x => x, BLANK, PlainKeys(), n) == BLANK
  {
    hide Mix, Add;
    AddZero(0);
    if n > 0 {
      PlainRounds(n - 1);
      MixZero();
    }
  }

  lemma PlainBlock(b: Block)
    requires forall i :: 0 <= i < BLOCK ==> b[i] == 0
    ensures EncryptBlock(x => x, PlainKeys(), b)[0] == 1
  {
    hide Rounds, Add;
    PlainRounds(9);
    assert FromBlock(b) == BLANK;
    AddZero(1);
  }

  /** One zero byte, with the identity as S-box and ten rounds: encryption leaves
      another ivec than decryption. */
  lemma OtherIvExample(iv: Block)
    requires forall i :: 0 <= i < BLOCK ==> iv[i] == 0
    ensures DecryptedIv(x => x, DecryptKeys(PlainKeys()), Encrypted(x => x, PlainKeys(), [0], iv), 1, iv)
            != EncryptedIv(x => x, PlainKeys(), [0], iv)
  {
    hide EncryptBlock, DecryptKeys, PlainKeys, Encrypted, EncryptedIv, DecryptedIv, Add;
    var last := Chain([0], iv);
    AddZero(0);
    PlainBlock(last);
    assert last[0] == 0;
    SameIvExactly(x => x, x => x, PlainKeys(), [0], iv);
  }

  /** Encrypting a concatenation is encrypting the parts one after the other,
      if the first is a whole number of blocks. */
  lemma {:induction false} EncryptedConcat(s: Box, keys: seq<State>, a: seq<bv8>, b: seq<bv8>, iv: Block)
    requires |keys| >= 2 && |a| % BLOCK == 0
    ensures Encrypted(s, keys, a + b, iv) == Encrypted(s, keys, a, iv) + Encrypted(s, keys, b, EncryptedIv(s, keys, a, iv))
    ensures EncryptedIv(s, keys, a + b, iv) == EncryptedIv(s, keys, b, EncryptedIv(s, keys, a, iv))
    decreases |a|
  {
    hide EncryptBlock, Chain;
    if a == [] {
      assert a + b == b;
    } else {
      var head := EncryptBlock(s, keys, Chain(a[..BLOCK], iv));
      assert (a + b)[..BLOCK] == a[..BLOCK] && (a + b)[BLOCK..] == a[BLOCK..] + b;
      EncryptedConcat(s, keys, a[BLOCK..], b, head);
    }
  }

  /** The same for decryption: the ciphertext a of whole blocks, then n bytes from b. */
  lemma {:induction false} DecryptedConcat(si: Box, keys: seq<State>, a: seq<bv8>, b: seq<bv8>, n: nat, iv: Block)
    requires |keys| >= 2 && |a| % BLOCK == 0
    ensures var mid := DecryptedIv(si, keys, a, |a|, iv);
            && Decrypted(si, keys, a + b, |a| + n, iv) == Decrypted(si, keys, a, |a|, iv) + Decrypted(si, keys, b, n, mid)
            && DecryptedIv(si, keys, a + b, |a| + n, iv) == DecryptedIv(si, keys, b, n, mid)
    decreases |a|
  {
    hide DecryptBlock, Chain, Decrypted, DecryptedIv;
    DecryptedStep(si, keys, a, |a|, iv);
    if a == [] {
      assert a + b == b;
    } else {
      var tail := a[BLOCK..];
      assert (a + b)[..BLOCK] == a[..BLOCK] && (a + b)[BLOCK..] == tail + b;
      DecryptedStep(si, keys, a + b, |a| + n, iv);
      DecryptedConcat(si, keys, tail, b, n, a[..BLOCK]);
    }
  }

  lemma DecryptedStep(si: Box, keys: seq<State>, c: seq<bv8>, n: nat, iv: Block)
    requires |keys| >= 2
    ensures n == 0 || |c| < BLOCK ==> Decrypted(si, keys, c, n, iv) == [] && DecryptedIv(si, keys, c, n, iv) == iv
    ensures 0 < n < BLOCK <= |c| ==>
              && Decrypted(si, keys, c, n, iv) == Chain(DecryptBlock(si, keys, c[..BLOCK]), iv)[..n]
              && DecryptedIv(si, keys, c, n, iv) == DecryptBlock(si, keys, c[..BLOCK])
    ensures n >= BLOCK && |c| >= BLOCK ==>
              && Decrypted(si, keys, c, n, iv) ==
                 Chain(DecryptBlock(si, keys, c[..BLOCK]), iv) + Decrypted(si, keys, c[BLOCK..], n - BLOCK, c[..BLOCK])
              && DecryptedIv(si, keys, c, n, iv) == DecryptedIv(si, keys, c[BLOCK..], n - BLOCK, c[..BLOCK])
  {
    hide DecryptBlock, Chain;
  }

  // ---- the code -----------------------------------------------------------------

  /** tmp[n] = in[n] ^ ivec[n] for the bytes there are, ivec[n] behind them. */
  method ChainBlock(input: array<bv8>, at: nat, len: nat, ivec: array<bv8>) returns (tmp: Block)
    requires len <= BLOCK && at + len <= input.Length && ivec.Length == BLOCK
    ensures tmp == Chain(input[at..at + len], ivec[..])
  {
    hide Add;
    var t: seq<bv8> := [];
    var n := 0;
    while n < len
      invariant 0 <= n <= len && |t| == n
      invariant forall i :: 0 <= i < n ==> t[i] == Add(input[at + i], ivec[i])
    {
      t := t + [Add(input[at + n], ivec[n])];
      n := n + 1;
    }
    while n < BLOCK
      invariant len <= n <= BLOCK && |t| == n
      invariant forall i :: 0 <= i < n ==> t[i] == if i < len then Add(input[at + i], ivec[i]) else ivec[i]
    {
      t := t + [ivec[n]];
      n := n + 1;
    }
    tmp := t;
  }

  /** memcpy(to + at, from, |from|) */
  method Copy(to: array<bv8>, at: nat, from: seq<bv8>)
    requires at + |from| <= to.Length
    modifies to
    ensures to[..at] == old(to[..at]) && to[at..at + |from|] == from
    ensures to[at + |from|..] == old(to[at + |from|..])
  {
    forall i | 0 <= i < |from| { to[at + i] := from[i]; }
  }

  /** One block, whole or partial: chained, encrypted, put out, kept as ivec. */
  method EncryptStep(s: Box, input: array<bv8>, output: array<bv8>, at: nat, len: nat,
                     rk: array<Col>, rounds: nat, ghost keys: seq<State>, ivec: array<bv8>)
    requires EvenRounds(rounds) && 4 * rounds + 4 <= rk.Length && KeyStates(rk[..], rounds) == keys
    requires len <= BLOCK && at + len <= input.Length && at + BLOCK <= output.Length
    requires ivec.Length == BLOCK && ivec != input && ivec != output
    requires rk as object != output && rk as object != ivec
    modifies output, ivec
    ensures ivec[..] == EncryptBlock(s, keys, Chain(old(input[at..at + len]), old(ivec[..])))
    ensures output[..at + BLOCK] == old(output[..at]) + ivec[..] && output[at + BLOCK..] == old(output[at + BLOCK..])
    ensures at + BLOCK <= input.Length ==> input[at + BLOCK..] == old(input[at + BLOCK..])
  {
    hide Chain, KeyStates, Cipher, FromBlock, ToBlock;
    var tmp := ChainBlock(input, at, len, ivec);
    var c := Encrypt(s, tmp, rk, rounds);
    Copy(output, at, c);
    Copy(ivec, 0, c);
    assert ivec[..] == c;
    assert output[..at + BLOCK] == output[..at] + output[at..at + BLOCK];
  }

  /** The ciphertext so far, and what is still to come from data[at..] and iv. */
  ghost predicate Encrypting(s: Box, keys: seq<State>, data: seq<bv8>, iv0: Block, done: seq<bv8>, at: nat, iv: Block)
    requires |keys| >= 2
  {
    && at <= |data|
    && Encrypted(s, keys, data, iv0) == done + Encrypted(s, keys, data[at..], iv)
    && EncryptedIv(s, keys, data, iv0) == EncryptedIv(s, keys, data[at..], iv)
  }

  lemma EncryptingStep(s: Box, keys: seq<State>, data: seq<bv8>, iv0: Block, done: seq<bv8>, at: nat, iv: Block)
    requires |keys| >= 2 && at + BLOCK <= |data| && Encrypting(s, keys, data, iv0, done, at, iv)
    ensures var c := EncryptBlock(s, keys, Chain(data[at..at + BLOCK], iv));
            Encrypting(s, keys, data, iv0, done + c, at + BLOCK, c)
  {
    hide Chain, EncryptBlock;
    var rest := data[at..];
    assert rest[..BLOCK] == data[at..at + BLOCK] && rest[BLOCK..] == data[at + BLOCK..];
    var c := EncryptBlock(s, keys, Chain(data[at..at + BLOCK], iv));
    assert done + (c + Encrypted(s, keys, rest[BLOCK..], c)) == (done + c) + Encrypted(s, keys, rest[BLOCK..], c);
  }

  lemma EncryptingEnd(s: Box, keys: seq<State>, data: seq<bv8>, iv0: Block, done: seq<bv8>, at: nat, iv: Block)
    requires |keys| >= 2 && Encrypting(s, keys, data, iv0, done, at, iv) && |data| - at < BLOCK
    ensures var c := EncryptBlock(s, keys, Chain(data[at..], iv));
            && Encrypted(s, keys, data, iv0) == (if at == |data| then done else done + c)
            && EncryptedIv(s, keys, data, iv0) == (if at == |data| then iv else c)
  {
    hide Chain, EncryptBlock;
  }

  /** The encrypting half of AES_cbc_encrypt. input and output may be one buffer. */
  method CbcEncrypt(s: Box, input: array<bv8>, output: array<bv8>, length: nat,
                    rk: array<Col>, rounds: nat, ivec: array<bv8>)
    requires EvenRounds(rounds) && 4 * rounds + 4 <= rk.Length
    requires length <= input.Length && RoundUp(length) <= output.Length && ivec.Length == BLOCK
    requires ivec != input && ivec != output && rk as object != output && rk as object != ivec
    modifies output, ivec
    ensures output[..RoundUp(length)] == Encrypted(s, old(KeyStates(rk[..], rounds)), old(input[..length]), old(ivec[..]))
    ensures output[RoundUp(length)..] == old(output[RoundUp(length)..])
    ensures ivec[..] == EncryptedIv(s, old(KeyStates(rk[..], rounds)), old(input[..length]), old(ivec[..]))
  {
    hide Chain, RoundUp, KeyStates, Encrypting, Encrypted, EncryptedIv, EncryptBlock;
    ghost var keys, data, iv0 := KeyStates(rk[..], rounds), input[..length], ivec[..];
    var at: nat, len: nat := 0, length;
    EncryptingStart(s, keys, data, iv0);
    assert output[..0] == [];
    while len >= BLOCK
      invariant at + len == length && RoundUp(length) == at + RoundUp(len)
      invariant output[at..] == old(output[at..])
      invariant input[at..] == old(input[at..])
      invariant Encrypting(s, keys, data, iv0, output[..at], at, ivec[..])
      decreases len
    {
      RoundUpLess(len);
      Window(input[..], old(input[..]), at, BLOCK, length);
      EncryptingStep(s, keys, data, iv0, output[..at], at, ivec[..]);
      SameTail(output[..], old(output[..]), at, BLOCK);
      SameTail(input[..], old(input[..]), at, BLOCK);
      EncryptStep(s, input, output, at, BLOCK, rk, rounds, keys, ivec);
      at, len := at + BLOCK, len - BLOCK;
    }
    RoundUpLess(len);
    EncryptingEnd(s, keys, data, iv0, output[..at], at, ivec[..]);
    if len > 0 {
      Window(input[..], old(input[..]), at, len, length);
      SameTail(output[..], old(output[..]), at, BLOCK);
      EncryptStep(s, input, output, at, len, rk, rounds, keys, ivec);
    }
  }

  lemma SameTail(a: seq<bv8>, b: seq<bv8>, at: nat, n: nat)
    requires |a| == |b| && at + n <= |a| && a[at..] == b[at..]
    ensures a[at + n..] == b[at + n..]
  {
    assert a[at..][n..] == a[at + n..] && b[at..][n..] == b[at + n..];
  }

  lemma Window(a: seq<bv8>, b: seq<bv8>, at: nat, n: nat, length: nat)
    requires |a| == |b| && at + n <= length <= |a| && a[at..] == b[at..]
    ensures a[at..at + n] == b[at..at + n] == b[..length][at..at + n]
    ensures at + n == length ==> b[..length][at..at + n] == b[..length][at..]
  {
    var x, y := a[at..at + n], b[..length][at..at + n];
    forall i | 0 <= i < n ensures x[i] == y[i] {
      assert a[at + i] == a[at..][i] == b[at..][i] == b[at + i];
    }
  }

  lemma RoundUpLess(n: nat)
    ensures RoundUp(n) == if n == 0 then 0 else if n < BLOCK then BLOCK else BLOCK + RoundUp(n - BLOCK)
  {
  }

  lemma EncryptingStart(s: Box, keys: seq<State>, data: seq<bv8>, iv: Block)
    requires |keys| >= 2
    ensures Encrypting(s, keys, data, iv, [], 0, iv)
  {
    hide Encrypted, EncryptedIv;
    assert data[0..] == data;
    assert [] + Encrypted(s, keys, data, iv) == Encrypted(s, keys, data, iv);
  }

  /** One block decrypted to len bytes: what is put out and what is chained on. */
  method DecryptStep(si: Box, input: array<bv8>, output: array<bv8>, at: nat, len: nat,
                     rk: array<Col>, rounds: nat, ghost keys: seq<State>, ivec: array<bv8>)
    returns (ghost d: Block)
    requires EvenRounds(rounds) && 4 * rounds + 4 <= rk.Length && KeyStates(rk[..], rounds) == keys
    requires 0 < len <= BLOCK && at + BLOCK <= input.Length && at + len <= output.Length
    requires ivec.Length == BLOCK && ivec != input && ivec != output
    requires rk as object != output && rk as object != ivec
    modifies output, ivec
    ensures output[at..at + len] == Chain(d, old(ivec[..]))[..len]
    ensures ivec[..] == if len == BLOCK then old(input[at..at + BLOCK]) else d
    ensures output[..at] == old(output[..at]) && output[at + len..] == old(output[at + len..])
    ensures d == DecryptBlock(si, keys, old(input[at..at + BLOCK]))
  {
    hide KeyStates, EqInvCipher, FromBlock, ToBlock;
    var tmp: Block := input[at..at + BLOCK];
    var plain := Decrypt(si, tmp, rk, rounds);
    d := plain;
    ghost var mixed := Chain(d, ivec[..]);
    ghost var before, after := output[..at], output[at + len..];
    var n := 0;
    while n < len
      invariant 0 <= n <= len
      invariant forall i :: 0 <= i < n ==> output[at + i] == mixed[i]
      invariant output[..at] == before && output[at + len..] == after && ivec[..] == old(ivec[..])
    {
      output[at + n] := Add(plain[n], ivec[n]);
      n := n + 1;
    }
    assert output[at..at + len] == mixed[..len];
    Copy(ivec, 0, if len == BLOCK then tmp else plain);
    assert ivec[..] == if len == BLOCK then tmp else d;
  }

  /** The plaintext so far, and what is still to come: m bytes from rest. */
  ghost predicate Decrypting(si: Box, keys: seq<State>, c: seq<bv8>, n: nat, iv0: Block,
                             done: seq<bv8>, rest: seq<bv8>, m: nat, iv: Block)
    requires |keys| >= 2
  {
    && Decrypted(si, keys, c, n, iv0) == done + Decrypted(si, keys, rest, m, iv)
    && DecryptedIv(si, keys, c, n, iv0) == DecryptedIv(si, keys, rest, m, iv)
  }

  lemma DecryptingStart(si: Box, keys: seq<State>, c: seq<bv8>, n: nat, iv: Block)
    requires |keys| >= 2
    ensures Decrypting(si, keys, c, n, iv, [], c, n, iv)
  {
    hide Decrypted, DecryptedIv;
    assert [] + Decrypted(si, keys, c, n, iv) == Decrypted(si, keys, c, n, iv);
  }

  lemma DecryptingStep(si: Box, keys: seq<State>, c: seq<bv8>, n: nat, iv0: Block,
                       done: seq<bv8>, head: Block, tail: seq<bv8>, m: nat, iv: Block)
    requires |keys| >= 2
    requires Decrypting(si, keys, c, n, iv0, done, head + tail, m + BLOCK, iv)
    ensures Decrypting(si, keys, c, n, iv0, done + Chain(DecryptBlock(si, keys, head), iv), tail, m, head)
  {
    hide Chain, DecryptBlock, Decrypted, DecryptedIv;
    DecryptedStep(si, keys, head + tail, m + BLOCK, iv);
    assert (head + tail)[..BLOCK] == head && (head + tail)[BLOCK..] == tail;
    var p := Chain(DecryptBlock(si, keys, head), iv);
    var rest := Decrypted(si, keys, tail, m, head);
    assert done + (p + rest) == (done + p) + rest;
  }

  lemma DecryptingEnd(si: Box, keys: seq<State>, c: seq<bv8>, n: nat, iv0: Block,
                      done: seq<bv8>, rest: seq<bv8>, m: nat, iv: Block)
    requires |keys| >= 2 && m < BLOCK && (m > 0 ==> |rest| >= BLOCK)
    requires Decrypting(si, keys, c, n, iv0, done, rest, m, iv)
    ensures m == 0 ==> Decrypted(si, keys, c, n, iv0) == done && DecryptedIv(si, keys, c, n, iv0) == iv
    ensures m > 0 ==>
              && Decrypted(si, keys, c, n, iv0) == done + Chain(DecryptBlock(si, keys, rest[..BLOCK]), iv)[..m]
              && DecryptedIv(si, keys, c, n, iv0) == DecryptBlock(si, keys, rest[..BLOCK])
  {
    hide Chain, DecryptBlock, Decrypted, DecryptedIv;
    DecryptedStep(si, keys, rest, m, iv);
  }

  /** The decrypting half of AES_cbc_encrypt. */
  method CbcDecrypt(si: Box, input: array<bv8>, output: array<bv8>, length: nat,
                    rk: array<Col>, rounds: nat, ivec: array<bv8>)
    requires EvenRounds(rounds) && 4 * rounds + 4 <= rk.Length
    requires RoundUp(length) <= input.Length && length <= output.Length && ivec.Length == BLOCK
    requires ivec != input && ivec != output && rk as object != output && rk as object != ivec
    modifies output, ivec
    ensures output[..length] == Decrypted(si, old(KeyStates(rk[..], rounds)), old(input[..]), length, old(ivec[..]))
    ensures output[length..] == old(output[length..])
    ensures ivec[..] == DecryptedIv(si, old(KeyStates(rk[..], rounds)), old(input[..]), length, old(ivec[..]))
  {
    hide Chain, RoundUp, KeyStates, Decrypting, Decrypted, DecryptedIv, DecryptBlock;
    ghost var keys, c, iv0 := KeyStates(rk[..], rounds), input[..], ivec[..];
    var at: nat, len: nat := 0, length;
    DecryptingStart(si, keys, c, length, iv0);
    assert output[..0] == [] && c[0..] == c;
    while len >= BLOCK
      invariant at + len == length && at + RoundUp(len) <= |c|
      invariant output[at..] == old(output[at..]) && input[at..] == c[at..]
      invariant Decrypting(si, keys, c, length, iv0, output[..at], c[at..], len, ivec[..])
      decreases len
    {
      RoundUpLess(len);
      FirstBlock(input[..], c, at);
      ghost var before, head := output[..at], c[at..at + BLOCK];
      DecryptingStep(si, keys, c, length, iv0, before, head, c[at + BLOCK..], len - BLOCK, ivec[..]);
      ghost var p := Chain(DecryptBlock(si, keys, head), ivec[..]);
      assert p[..BLOCK] == p;
      ghost var d := DecryptStep(si, input, output, at, BLOCK, rk, rounds, keys, ivec);
      assert output[..at + BLOCK] == before + output[at..at + BLOCK];
      at, len := at + BLOCK, len - BLOCK;
    }
    RoundUpLess(len);
    DecryptingEnd(si, keys, c, length, iv0, output[..at], c[at..], len, ivec[..]);
    if len > 0 {
      FirstBlock(input[..], c, at);
      ghost var before := output[..at];
      ghost var d := DecryptStep(si, input, output, at, len, rk, rounds, keys, ivec);
      assert output[..length] == before + output[at..length];
    }
  }

  lemma FirstBlock(a: seq<bv8>, c: seq<bv8>, at: nat)
    requires |a| == |c| && at + BLOCK <= |c| && a[at..] == c[at..]
    ensures a[at..at + BLOCK] == c[at..at + BLOCK] == c[at..][..BLOCK]
    ensures c[at..] == c[at..at + BLOCK] + c[at + BLOCK..] && a[at + BLOCK..] == c[at + BLOCK..]
  {
    assert a[at..][..BLOCK] == a[at..at + BLOCK];
    assert a[at..][BLOCK..] == a[at + BLOCK..];
    assert c[at..][BLOCK..] == c[at + BLOCK..];
  }

  // ---- from a user key to the data and back -----------------------------------------

  lemma {:induction false} DecryptedFront(si: Box, keys: seq<State>, c: seq<bv8>, d: seq<bv8>, n: nat, iv: Block)
    requires |keys| >= 2 && RoundUp(n) == |c| && |c| <= |d| && d[..|c|] == c
    ensures Decrypted(si, keys, d, n, iv) == Decrypted(si, keys, c, n, iv)
    decreases n
  {
    hide DecryptBlock, Chain, Decrypted, DecryptedIv, RoundUp;
    RoundUpLess(n);
    DecryptedStep(si, keys, c, n, iv);
    DecryptedStep(si, keys, d, n, iv);
    if n > 0 {
      assert c[..BLOCK] == d[..|c|][..BLOCK] == d[..BLOCK];
      if n >= BLOCK {
        assert d[BLOCK..][..|c| - BLOCK] == d[..|c|][BLOCK..] == c[BLOCK..];
        DecryptedFront(si, keys, c[BLOCK..], d[BLOCK..], n - BLOCK, c[..BLOCK]);
      }
    }
  }

  /** A key size AES accepts. */
  predicate KeySize(bits: int) {
    bits == 128 || bits == 192 || bits == 256
  }

  /** The round keys of a user key. */
  function KeysOf(s: Box, userKey: seq<bv8>, bits: int): (keys: seq<State>)
    requires KeySize(bits) && 8 * |userKey| == bits
    ensures |keys| == bits / 32 + 7
  {
    AesKeys.RoundKeys(s, AesKeys.KeyWords(userKey, bits / 32), bits / 32 + 6)
  }

  /** AES_set_encrypt_key and AES_set_decrypt_key on one user key: the key's schedule,
      and that schedule turned round for the equivalent inverse cipher. */
  method SetKeys(s: Box, si: Box, userKey: seq<bv8>, bits: int, enc: AesKeys.AesKey, dec: AesKeys.AesKey)
    returns (status: int)
    requires Inverse(s, si) && enc.Valid() && dec.Valid() && (KeySize(bits) ==> 8 * |userKey| == bits)
    requires enc != dec && enc.rdKey != dec.rdKey
    modifies enc, enc.rdKey, dec, dec.rdKey
    ensures status == if KeySize(bits) then 0 else -2
    ensures status == 0 ==>
              && enc.rounds == dec.rounds == bits / 32 + 6
              && KeyStates(enc.rdKey[..], enc.rounds) == KeysOf(s, userKey, bits)
              && KeyStates(dec.rdKey[..], dec.rounds) == DecryptKeys(KeysOf(s, userKey, bits))
    ensures status != 0 ==> enc.rounds == old(enc.rounds) && enc.rdKey[..] == old(enc.rdKey[..])
    ensures status != 0 ==> dec.rounds == old(dec.rounds) && dec.rdKey[..] == old(dec.rdKey[..])
  {
    hide Inverse, KeyStates, DecryptKeys;
    status := enc.SetEncryptKey(s, userKey, bits);
    if status != 0 {
      return;
    }
    ghost var k := AesKeys.KeyWords(userKey, bits / 32);
    AesKeys.ExpandedKeys(s, k, enc.rdKey[..], enc.rounds);
    status := dec.SetDecryptKey(s, si, userKey, bits);
    ghost var rk: seq<Col> :| |rk| == 60 && AesKeys.Expanded(s, k, rk, 4 * dec.rounds + 4) &&
                              KeyStates(dec.rdKey[..], dec.rounds) == DecryptKeys(KeyStates(rk, dec.rounds));
    AesKeys.ExpandedKeys(s, k, rk, dec.rounds);
  }

  /** The key's words share no memory with the buffer. */
  predicate Apart(key: AesKeys.AesKey, a: array<bv8>) {
    key.rdKey as object != a
  }

  /** Both key set-ups on one user key, CBC encryption of a buffer in place and CBC
      decryption of it with the same ivec: in between the buffer holds the
      ciphertext under the key's schedule, in the end its data again, for every key
      size and length; any other key size is refused with the buffers as they were. */
  method EncryptAndBack(s: Box, si: Box, userKey: seq<bv8>, bits: int, enc: AesKeys.AesKey, dec: AesKeys.AesKey,
                        buf: array<bv8>, length: nat, ivec: array<bv8>, ivec2: array<bv8>)
    returns (status: int, cipher: seq<bv8>)
    requires Inverse(s, si) && enc.Valid() && dec.Valid() && (KeySize(bits) ==> 8 * |userKey| == bits)
    requires enc != dec && enc.rdKey != dec.rdKey && length <= buf.Length && RoundUp(length) <= buf.Length
    requires ivec.Length == BLOCK && ivec2.Length == BLOCK && ivec[..] == ivec2[..]
    requires ivec != ivec2 && ivec != buf && ivec2 != buf
    requires Apart(enc, buf) && Apart(enc, ivec) && Apart(enc, ivec2)
    requires Apart(dec, buf) && Apart(dec, ivec) && Apart(dec, ivec2)
    modifies enc, enc.rdKey, dec, dec.rdKey, buf, ivec, ivec2
    ensures status == if KeySize(bits) then 0 else -2
    ensures status == 0 ==> cipher == Encrypted(s, KeysOf(s, userKey, bits), old(buf[..length]), old(ivec[..]))
    ensures status == 0 ==> buf[..length] == old(buf[..length]) && buf[RoundUp(length)..] == old(buf[RoundUp(length)..])
    ensures status != 0 ==> buf[..] == old(buf[..]) && ivec[..] == old(ivec[..]) && ivec2[..] == old(ivec2[..])
  {
    hide Inverse, Encrypted, EncryptedIv, Decrypted, DecryptedIv, RoundUp, KeyStates, DecryptKeys, KeysOf;
    ghost var data, iv := buf[..length], ivec[..];
    cipher := [];
    status := SetKeys(s, si, userKey, bits, enc, dec);
    if status != 0 {
      return;
    }
    ghost var keys := KeysOf(s, userKey, bits);
    CbcEncrypt(s, buf, buf, length, enc.rdKey, enc.rounds, ivec);
    cipher := buf[..RoundUp(length)];
    ghost var whole := buf[..];
    CbcDecrypt(si, buf, buf, length, dec.rdKey, dec.rounds, ivec2);
    EncryptedLength(s, keys, data, iv);
    DecryptedFront(si, DecryptKeys(keys), cipher, whole, length, iv);
    CbcRoundTrip(s, si, keys, data, iv);
  }
}
