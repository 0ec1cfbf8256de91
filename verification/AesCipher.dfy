/** The AES-128 cipher, its inverse and cipher block chaining, on values. */
module AesCipher {
  import opened Aes

  /** The sixteen bytes of a state, column by column. */
  type Block = b: seq<bv8> | |b| == 16 witness [0, 0, 0, 0, 0, 0, 0, 0, 0, 0, 0, 0, 0, 0, 0, 0]

  type Schedule = k: seq<bv8> | |k| == ROUND_KEY_BYTES witness seq(ROUND_KEY_BYTES, _ => 0)

  function KeyOf(rk: Schedule, round: nat): Block
    requires round <= NR
  {
    rk[16 * round..16 * round + 16]
  }

  function AddKey(b: Block, k: Block): (r: Block)
    ensures forall i :: 0 <= i < 16 ==> r[i] == b[i] ^ k[i]
  {
    seq(16, i requires 0 <= i < 16 => b[i] ^ k[i])
  }

  function SubBytes(b: Block): (r: Block)
    ensures forall i :: 0 <= i < 16 ==> r[i] == Sbox(b[i])
  {
    seq(16, i requires 0 <= i < 16 => Sbox(b[i]))
  }

  function InvSubBytes(b: Block): (r: Block)
    ensures forall i :: 0 <= i < 16 ==> r[i] == Rsbox(b[i])
  {
    seq(16, i requires 0 <= i < 16 => Rsbox(b[i]))
  }

  /** Row r moves r columns to the left: byte i comes from 5 i modulo 16. */
  function ShiftRows(b: Block): (r: Block)
    ensures forall i :: 0 <= i < 16 ==> r[i] == b[(5 * i) % 16]
  {
    seq(16, i requires 0 <= i < 16 => b[(5 * i) % 16])
  }

  function InvShiftRows(b: Block): (r: Block)
    ensures forall i :: 0 <= i < 16 ==> r[i] == b[(13 * i) % 16]
  {
    seq(16, i requires 0 <= i < 16 => b[(13 * i) % 16])
  }

  function ColumnOf(b: Block, i: nat): Column
    requires i < 4
  {
    Column(b[4 * i], b[4 * i + 1], b[4 * i + 2], b[4 * i + 3])
  }

  function Bytes(c: Column): (r: seq<bv8>)
    ensures |r| == 4 && Column(r[0], r[1], r[2], r[3]) == c
  {
    [c.a, c.b, c.c, c.d]
  }

  function FromColumns(p: Column, q: Column, r: Column, s: Column): (b: Block)
    ensures b[0..4] == Bytes(p) && b[4..8] == Bytes(q) && b[8..12] == Bytes(r) && b[12..16] == Bytes(s)
  {
    Bytes(p) + Bytes(q) + Bytes(r) + Bytes(s)
  }

  lemma Columns(p: Column, q: Column, r: Column, s: Column)
    ensures var b := FromColumns(p, q, r, s);
            ColumnOf(b, 0) == p && ColumnOf(b, 1) == q && ColumnOf(b, 2) == r && ColumnOf(b, 3) == s
  {
    var b := FromColumns(p, q, r, s);
    hide FromColumns;
    assert b[0] == b[0..4][0] && b[1] == b[0..4][1] && b[2] == b[0..4][2] && b[3] == b[0..4][3];
    assert b[4] == b[4..8][0] && b[5] == b[4..8][1] && b[6] == b[4..8][2] && b[7] == b[4..8][3];
    assert b[8] == b[8..12][0] && b[9] == b[8..12][1] && b[10] == b[8..12][2] && b[11] == b[8..12][3];
    assert b[12] == b[12..16][0] && b[13] == b[12..16][1] && b[14] == b[12..16][2] && b[15] == b[12..16][3];
  }

  lemma SameColumns(a: Block, b: Block)
    requires ColumnOf(a, 0) == ColumnOf(b, 0) && ColumnOf(a, 1) == ColumnOf(b, 1)
    requires ColumnOf(a, 2) == ColumnOf(b, 2) && ColumnOf(a, 3) == ColumnOf(b, 3)
    ensures a == b
  {
    assert forall i :: 0 <= i < 4 ==> a[i] == b[i];
    assert forall i :: 4 <= i < 8 ==> a[i] == b[i];
    assert forall i :: 8 <= i < 12 ==> a[i] == b[i];
    assert forall i :: 12 <= i < 16 ==> a[i] == b[i];
  }

  function MixColumns(b: Block): Block {
    FromColumns(MixColumn(ColumnOf(b, 0)), MixColumn(ColumnOf(b, 1)),
                MixColumn(ColumnOf(b, 2)), MixColumn(ColumnOf(b, 3)))
  }

  function InvMixColumns(b: Block): Block {
    FromColumns(InvMixColumn(ColumnOf(b, 0)), InvMixColumn(ColumnOf(b, 1)),
                InvMixColumn(ColumnOf(b, 2)), InvMixColumn(ColumnOf(b, 3)))
  }

  lemma AddKeyInverse(b: Block, k: Block)
    ensures AddKey(AddKey(b, k), k) == b
  {
    var r := AddKey(AddKey(b, k), k);
    forall i | 0 <= i < 16 ensures r[i] == b[i] {
      XorTwice(b[i], k[i]);
      assert r[i] == AddKey(b, k)[i] ^ k[i];
    }
  }

  lemma XorTwice(x: bv8, y: bv8)
    ensures (x ^ y) ^ y == x
  {
  }

  lemma SubBytesInverse(b: Block)
    ensures InvSubBytes(SubBytes(b)) == b
  {
    hide Sbox, Rsbox;
    forall i | 0 <= i < 16 ensures InvSubBytes(SubBytes(b))[i] == b[i] { SboxInverse(b[i]); }
  }

  lemma ShiftRowsInverse(b: Block)
    ensures InvShiftRows(ShiftRows(b)) == b
  {
    var s := ShiftRows(b);
    forall i | 0 <= i < 16 ensures InvShiftRows(s)[i] == b[i] {
      ShiftBack(i);
      assert InvShiftRows(s)[i] == s[(13 * i) % 16] == b[(5 * ((13 * i) % 16)) % 16];
    }
  }

  lemma ShiftBack(i: nat)
    requires i < 16
    ensures (5 * ((13 * i) % 16)) % 16 == i
  {
    assert 5 * ((13 * i) % 16) == i + 16 * (4 * i - 5 * ((13 * i) / 16));
  }

  lemma MixColumnsInverse(b: Block)
    ensures InvMixColumns(MixColumns(b)) == b
  {
    hide MixColumn, InvMixColumn, FromColumns, ColumnOf;
    Columns(MixColumn(ColumnOf(b, 0)), MixColumn(ColumnOf(b, 1)), MixColumn(ColumnOf(b, 2)), MixColumn(ColumnOf(b, 3)));
    Columns(ColumnOf(b, 0), ColumnOf(b, 1), ColumnOf(b, 2), ColumnOf(b, 3));
    MixInverse(ColumnOf(b, 0));
    MixInverse(ColumnOf(b, 1));
    MixInverse(ColumnOf(b, 2));
    MixInverse(ColumnOf(b, 3));
    SameColumns(InvMixColumns(MixColumns(b)), b);
  }

  /** The state after the first `r` rounds, the last one excepted. */
  function Rounds(b: Block, rk: Schedule, r: nat): Block
    requires r < NR
  {
    if r == 0 then AddKey(b, KeyOf(rk, 0))
    else AddKey(MixColumns(ShiftRows(SubBytes(Rounds(b, rk, r - 1)))), KeyOf(rk, r))
  }

  function Cipher(b: Block, rk: Schedule): Block {
    AddKey(ShiftRows(SubBytes(Rounds(b, rk, NR - 1))), KeyOf(rk, NR))
  }

  /** The state of the inverse cipher after the rounds from NR - 1 down to `r`. */
  function InvRounds(b: Block, rk: Schedule, r: nat): Block
    requires 0 < r <= NR
    decreases NR - r
  {
    if r == NR then AddKey(b, KeyOf(rk, NR))
    else InvMixColumns(AddKey(InvSubBytes(InvShiftRows(InvRounds(b, rk, r + 1))), KeyOf(rk, r)))
  }

  function InvCipher(b: Block, rk: Schedule): Block {
    AddKey(InvSubBytes(InvShiftRows(InvRounds(b, rk, 1))), KeyOf(rk, 0))
  }

  /** Going down, the inverse cipher meets the states of the cipher. */
  lemma {:induction false} RoundsMeet(b: Block, rk: Schedule, r: nat)
    requires 0 < r <= NR
    ensures InvRounds(Cipher(b, rk), rk, r) == ShiftRows(SubBytes(Rounds(b, rk, r - 1)))
    decreases NR - r
  {
    hide AddKey, SubBytes, ShiftRows, MixColumns, InvMixColumns, InvSubBytes, InvShiftRows, KeyOf;
    if r == NR {
      AddKeyInverse(ShiftRows(SubBytes(Rounds(b, rk, NR - 1))), KeyOf(rk, NR));
    } else {
      var s := ShiftRows(SubBytes(Rounds(b, rk, r - 1)));
      RoundsMeet(b, rk, r + 1);
      ShiftRowsInverse(SubBytes(Rounds(b, rk, r)));
      SubBytesInverse(Rounds(b, rk, r));
      AddKeyInverse(MixColumns(s), KeyOf(rk, r));
      MixColumnsInverse(s);
    }
  }

  /** For every key schedule. */
  lemma CipherInverse(b: Block, rk: Schedule)
    ensures InvCipher(Cipher(b, rk), rk) == b
  {
    hide AddKey, SubBytes, ShiftRows, InvSubBytes, InvShiftRows, KeyOf;
    RoundsMeet(b, rk, 1);
    assert Rounds(b, rk, 0) == AddKey(b, KeyOf(rk, 0));
    hide Rounds, InvRounds, Cipher;
    ShiftRowsInverse(SubBytes(Rounds(b, rk, 0)));
    SubBytesInverse(Rounds(b, rk, 0));
    AddKeyInverse(b, KeyOf(rk, 0));
  }

  // Cipher block chaining, NIST SP 800-38A section 6.2.

  predicate Blocks(m: seq<bv8>) {
    |m| % 16 == 0
  }

  function Butlast(m: seq<bv8>): (r: seq<bv8>)
    requires Blocks(m) && m != []
    ensures Blocks(r) && |r| == |m| - 16
  {
    m[..|m| - 16]
  }

  function LastBlock(m: seq<bv8>): Block
    requires Blocks(m) && m != []
  {
    m[|m| - 16..]
  }

  /** What the block after `c` is chained to. */
  function Chain(iv: Block, c: seq<bv8>): Block
    requires Blocks(c)
  {
    if c == [] then iv else LastBlock(c)
  }

  function CbcEncrypt(rk: Schedule, iv: Block, m: seq<bv8>): (c: seq<bv8>)
    requires Blocks(m)
    ensures |c| == |m|
    decreases |m|
  {
    if m == [] then []
    else
      var c := CbcEncrypt(rk, iv, Butlast(m));
      c + Cipher(AddKey(LastBlock(m), Chain(iv, c)), rk)
  }

  function CbcDecrypt(rk: Schedule, iv: Block, c: seq<bv8>): (m: seq<bv8>)
    requires Blocks(c)
    ensures |m| == |c|
    decreases |c|
  {
    if c == [] then []
    else CbcDecrypt(rk, iv, Butlast(c)) + AddKey(InvCipher(LastBlock(c), rk), Chain(iv, Butlast(c)))
  }

  /** What comes out when the message is decrypted in the buffer that holds it: each block is chained to the one
      before as it has been decrypted. */
  function SelfDecrypt(rk: Schedule, iv: Block, c: seq<bv8>): (m: seq<bv8>)
    requires Blocks(c)
    ensures |m| == |c|
    decreases |c|
  {
    if c == [] then []
    else
      var m := SelfDecrypt(rk, iv, Butlast(c));
      m + AddKey(InvCipher(LastBlock(c), rk), Chain(iv, m))
  }

  lemma AddKeyInjective(x: Block, k: Block, l: Block)
    ensures AddKey(x, k) == AddKey(x, l) <==> k == l
  {
    if AddKey(x, k) == AddKey(x, l) {
      forall i | 0 <= i < 16
        ensures k[i] == l[i]
      {
        assert AddKey(x, k)[i] == x[i] ^ k[i] && AddKey(x, l)[i] == x[i] ^ l[i];
      }
    }
  }

  lemma AppendEqual(a: seq<bv8>, b: seq<bv8>, c: seq<bv8>, d: seq<bv8>)
    requires |a| == |c|
    ensures a + b == c + d <==> a == c && b == d
  {
    assert (a + b)[..|a|] == a && (c + d)[..|c|] == c && (a + b)[|a|..] == b && (c + d)[|c|..] == d;
  }

  lemma BlockwiseEqual(a: seq<bv8>, b: seq<bv8>)
    requires Blocks(a) && Blocks(b) && |a| == |b| > 0
    ensures a == b <==> Butlast(a) == Butlast(b) && LastBlock(a) == LastBlock(b)
  {
    assert a == Butlast(a) + LastBlock(a) && b == Butlast(b) + LastBlock(b);
  }

  lemma LastDecrypted(rk: Schedule, iv: Block, c: seq<bv8>)
    requires Blocks(c) && c != []
    ensures Butlast(CbcDecrypt(rk, iv, c)) == CbcDecrypt(rk, iv, Butlast(c))
  {
  }

  /** It is the message exactly if all cipher blocks but the last are their own decryption; in particular if there is
      only one. */
  lemma {:induction false} SelfDecryptIff(rk: Schedule, iv: Block, c: seq<bv8>)
    requires Blocks(c) && c != []
    ensures SelfDecrypt(rk, iv, c) == CbcDecrypt(rk, iv, c) <==> Butlast(c) == CbcDecrypt(rk, iv, Butlast(c))
    decreases |c|
  {
    var c', x := Butlast(c), InvCipher(LastBlock(c), rk);
    var m, p := SelfDecrypt(rk, iv, c'), CbcDecrypt(rk, iv, c');
    assert SelfDecrypt(rk, iv, c) == m + AddKey(x, Chain(iv, m));
    assert CbcDecrypt(rk, iv, c) == p + AddKey(x, Chain(iv, c'));
    hide InvCipher, AddKey, SelfDecrypt, Butlast, LastBlock;
    AppendEqual(m, AddKey(x, Chain(iv, m)), p, AddKey(x, Chain(iv, c')));
    AddKeyInjective(x, Chain(iv, m), Chain(iv, c'));
    if c' == [] {
      assert m == p == [];
    } else {
      hide CbcDecrypt;
      SelfDecryptIff(rk, iv, c');
      BlockwiseEqual(p, c');
      LastDecrypted(rk, iv, c');
    }
  }

  function FirstBlock(m: seq<bv8>): Block
    requires Blocks(m) && m != []
  {
    m[..16]
  }

  lemma {:induction false} FirstDecrypted(rk: Schedule, iv: Block, c: seq<bv8>)
    requires Blocks(c) && c != []
    ensures FirstBlock(CbcDecrypt(rk, iv, c)) == AddKey(InvCipher(FirstBlock(c), rk), iv)
    decreases |c|
  {
    hide InvCipher, AddKey;
    if |c| == 16 {
      assert Butlast(c) == [] && FirstBlock(c) == LastBlock(c);
    } else {
      FirstDecrypted(rk, iv, Butlast(c));
      assert FirstBlock(Butlast(c)) == FirstBlock(c);
      assert FirstBlock(CbcDecrypt(rk, iv, c)) == FirstBlock(CbcDecrypt(rk, iv, Butlast(c)));
    }
  }

  /** Decrypting in place gives the message. */
  ghost predicate RightInPlace(rk: Schedule, iv: Block, c: seq<bv8>)
    requires Blocks(c)
  {
    SelfDecrypt(rk, iv, c) == CbcDecrypt(rk, iv, c)
  }

  lemma AddKeyCommutes(b: Block, k: Block)
    ensures AddKey(b, k) == AddKey(k, b)
  {
  }

  /** With more than one block it does so for no more than one vector. */
  lemma OnlyVector(rk: Schedule, iv: Block, c: seq<bv8>)
    requires Blocks(c) && |c| > 16 && RightInPlace(rk, iv, c)
    ensures iv == AddKey(InvCipher(FirstBlock(c), rk), FirstBlock(c))
  {
    hide InvCipher, SelfDecrypt, CbcDecrypt, AddKey;
    var x := InvCipher(FirstBlock(c), rk);
    SelfDecryptIff(rk, iv, c);
    FirstDecrypted(rk, iv, Butlast(c));
    assert FirstBlock(Butlast(c)) == FirstBlock(c) == AddKey(x, iv);
    AddKeyCommutes(x, iv);
    AddKeyInverse(iv, x);
    AddKeyCommutes(x, FirstBlock(c));
  }

  /** For every schedule and every cipher text of more than one block there is a vector for which it does not. */
  lemma WrongInPlace(rk: Schedule, c: seq<bv8>) returns (iv: Block)
    requires Blocks(c) && |c| > 16
    ensures !RightInPlace(rk, iv, c)
  {
    hide *;
    var only := AddKey(InvCipher(FirstBlock(c), rk), FirstBlock(c));
    iv := only[0 := only[0] ^ 1];
    assert iv[0] == only[0] ^ 1 != only[0];
    if RightInPlace(rk, iv, c) { OnlyVector(rk, iv, c); }
  }

  /** So it is right for all vectors and all cipher texts of a length exactly if this is one block at most. */
  lemma RightInPlaceIff(rk: Schedule, n: nat)
    requires n % 16 == 0
    ensures n <= 16 <==> forall iv: Block, c: seq<bv8> :: |c| == n && Blocks(c) ==> RightInPlace(rk, iv, c)
  {
    if n <= 16 {
      forall iv: Block, c: seq<bv8> | |c| == n && Blocks(c) ensures RightInPlace(rk, iv, c) {
        hide InvCipher, AddKey;
        if c != [] { SelfDecryptIff(rk, iv, c); }
      }
    } else {
      var c: seq<bv8> := seq(n, _ => 0);
      var iv := WrongInPlace(rk, c);
    }
  }

  /** For every key, initial vector and message of whole blocks. */
  lemma {:induction false} CbcRoundTrip(rk: Schedule, iv: Block, m: seq<bv8>)
    requires Blocks(m)
    ensures CbcDecrypt(rk, iv, CbcEncrypt(rk, iv, m)) == m
    decreases |m|
  {
    hide Cipher, InvCipher, AddKey;
    if m != [] {
      var c := CbcEncrypt(rk, iv, Butlast(m));
      var x := AddKey(LastBlock(m), Chain(iv, c));
      var all := c + Cipher(x, rk);
      assert Butlast(all) == c && LastBlock(all) == Cipher(x, rk);
      CbcRoundTrip(rk, iv, Butlast(m));
      CipherInverse(x, rk);
      AddKeyInverse(LastBlock(m), Chain(iv, c));
    }
  }

  /** A message can be encrypted in several calls, each going on from the last block of the one before. */
  lemma {:induction false} CbcInParts(rk: Schedule, iv: Block, m: seq<bv8>, n: seq<bv8>)
    requires Blocks(m) && Blocks(n)
    ensures Blocks(m + n)
    ensures CbcEncrypt(rk, iv, m + n) ==
            CbcEncrypt(rk, iv, m) + CbcEncrypt(rk, Chain(iv, CbcEncrypt(rk, iv, m)), n)
    decreases |n|
  {
    hide Cipher, AddKey, Chain, LastBlock, Butlast;
    var c := CbcEncrypt(rk, iv, m);
    if n == [] {
      assert m + n == m;
    } else {
      CbcInParts(rk, iv, m, Butlast(n));
      AppendBlocks(m, n);
      ChainOn(iv, c, CbcEncrypt(rk, Chain(iv, c), Butlast(n)));
    }
  }

  lemma AppendBlocks(m: seq<bv8>, n: seq<bv8>)
    requires Blocks(m) && Blocks(n) && n != []
    ensures Blocks(m + n) && Butlast(m + n) == m + Butlast(n) && LastBlock(m + n) == LastBlock(n)
  {
  }

  lemma ChainOn(iv: Block, c: seq<bv8>, d: seq<bv8>)
    requires Blocks(c) && Blocks(d)
    ensures Blocks(c + d) && Chain(iv, c + d) == Chain(Chain(iv, c), d)
  {
    if d == [] { assert c + d == c; }
  }
}
