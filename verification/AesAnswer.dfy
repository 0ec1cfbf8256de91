/** The example of FIPS 197, appendix B: the key schedule and every round of the cipher on one block. */
module AesAnswer {
  import opened Aes
  import opened AesCipher
  import opened AesCode

  /** A state or a round key as its columns. */
  datatype Square = Square(p: Column, q: Column, r: Column, s: Column)

  ghost predicate Shows(b: Block, x: Square) {
    ColumnOf(b, 0) == x.p && ColumnOf(b, 1) == x.q && ColumnOf(b, 2) == x.r && ColumnOf(b, 3) == x.s
  }

  function SubColumn(a: bv8, b: bv8, c: bv8, d: bv8): Column {
    Column(Sbox(a), Sbox(b), Sbox(c), Sbox(d))
  }

  /** SubBytes and ShiftRows */
  function Shifted(x: Square): Square {
    Square(SubColumn(x.p.a, x.q.b, x.r.c, x.s.d), SubColumn(x.q.a, x.r.b, x.s.c, x.p.d),
           SubColumn(x.r.a, x.s.b, x.p.c, x.q.d), SubColumn(x.s.a, x.p.b, x.q.c, x.r.d))
  }

  function Mixed(x: Square): Square {
    Square(MixColumn(x.p), MixColumn(x.q), MixColumn(x.r), MixColumn(x.s))
  }

  function Keyed(x: Square, k: Square): Square {
    Square(Sum(x.p, k.p), Sum(x.q, k.q), Sum(x.r, k.r), Sum(x.s, k.s))
  }

  /** The next round key. */
  function NextKey(k: Square, c: bv8): Square {
    var t := SubColumn(k.s.b, k.s.c, k.s.d, k.s.a);
    var p := Sum(k.p, Column(Xor(t.a, c), t.b, t.c, t.d));
    var q := Sum(k.q, p);
    var r := Sum(k.r, q);
    Square(p, q, r, Sum(k.s, r))
  }

  lemma ShiftedByte(b: Block, i: nat, k: nat)
    requires i < 16 && k == (5 * i) % 16
    ensures ShiftRows(SubBytes(b))[i] == Sbox(b[k])
  {
    hide Sbox;
  }

  lemma ShiftedShows(b: Block, x: Square)
    requires Shows(b, x)
    ensures Shows(ShiftRows(SubBytes(b)), Shifted(x))
  {
    hide Sbox, SubBytes, ShiftRows;
    ShiftedByte(b, 0, 0); ShiftedByte(b, 1, 5); ShiftedByte(b, 2, 10); ShiftedByte(b, 3, 15);
    ShiftedByte(b, 4, 4); ShiftedByte(b, 5, 9); ShiftedByte(b, 6, 14); ShiftedByte(b, 7, 3);
    ShiftedByte(b, 8, 8); ShiftedByte(b, 9, 13); ShiftedByte(b, 10, 2); ShiftedByte(b, 11, 7);
    ShiftedByte(b, 12, 12); ShiftedByte(b, 13, 1); ShiftedByte(b, 14, 6); ShiftedByte(b, 15, 11);
  }

  lemma MixedShows(b: Block, x: Square)
    requires Shows(b, x)
    ensures Shows(MixColumns(b), Mixed(x))
  {
    hide MixColumn;
    Columns(MixColumn(x.p), MixColumn(x.q), MixColumn(x.r), MixColumn(x.s));
  }

  lemma KeyedColumn(b: Block, k: Block, j: nat)
    requires j < 4
    ensures ColumnOf(AddKey(b, k), j) == Sum(ColumnOf(b, j), ColumnOf(k, j))
  {
    var r := AddKey(b, k);
    hide AddKey;
    assert r[4 * j] == Xor(b[4 * j], k[4 * j]);
    assert r[4 * j + 1] == Xor(b[4 * j + 1], k[4 * j + 1]);
    assert r[4 * j + 2] == Xor(b[4 * j + 2], k[4 * j + 2]);
    assert r[4 * j + 3] == Xor(b[4 * j + 3], k[4 * j + 3]);
  }

  lemma KeyedShows(b: Block, k: Block, x: Square, y: Square)
    requires Shows(b, x) && Shows(k, y)
    ensures Shows(AddKey(b, k), Keyed(x, y))
  {
    hide ColumnOf, Sum, AddKey;
    KeyedColumn(b, k, 0);
    KeyedColumn(b, k, 1);
    KeyedColumn(b, k, 2);
    KeyedColumn(b, k, 3);
  }

  /** The words of a round key. */
  ghost predicate KeyIs(key: Block, r: nat, k: Square)
    requires r <= NR
  {
    && Word(key, 4 * r) == Bytes(k.p) && Word(key, 4 * r + 1) == Bytes(k.q)
    && Word(key, 4 * r + 2) == Bytes(k.r) && Word(key, 4 * r + 3) == Bytes(k.s)
  }

  lemma XorBytes(a: Column, b: Column)
    ensures XorWords(Bytes(a), Bytes(b)) == Bytes(Sum(a, b))
  {
  }

  lemma KernelBytes(s: Column, c: bv8)
    ensures var t := SubColumn(s.b, s.c, s.d, s.a);
            AddRcon(SubWord(RotWord(Bytes(s))), c) == Bytes(Column(Xor(t.a, c), t.b, t.c, t.d))
  {
    hide Sbox;
  }

  lemma FirstWord(key: Block, r: nat)
    requires 1 <= r <= NR
    ensures Word(key, 4 * r) == XorWords(Word(key, 4 * (r - 1)),
                                         AddRcon(SubWord(RotWord(Word(key, 4 * (r - 1) + 3))), RCON[r]))
  {
    hide XorWords, AddRcon, SubWord, RotWord;
    var i := 4 * r;
    assert i % NK == 0 && i / NK == r && i - 1 == 4 * (r - 1) + 3;
  }

  lemma OtherWord(key: Block, r: nat, j: nat)
    requires 1 <= r <= NR && 1 <= j < 4
    ensures Word(key, 4 * r + j) == XorWords(Word(key, 4 * (r - 1) + j), Word(key, 4 * r + j - 1))
  {
    hide XorWords, AddRcon, SubWord, RotWord;
  }

  lemma NextKeyIs(key: Block, r: nat, k: Square)
    requires r < NR && KeyIs(key, r, k)
    ensures KeyIs(key, r + 1, NextKey(k, RCON[r + 1]))
  {
    hide Word, XorWords, AddRcon, SubWord, RotWord, Bytes, Sum, Sbox, Xor;
    var n := NextKey(k, RCON[r + 1]);
    FirstWord(key, r + 1);
    OtherWord(key, r + 1, 1);
    OtherWord(key, r + 1, 2);
    OtherWord(key, r + 1, 3);
    KernelBytes(k.s, RCON[r + 1]);
    XorBytes(k.p, Column(Xor(Sbox(k.s.b), RCON[r + 1]), Sbox(k.s.c), Sbox(k.s.d), Sbox(k.s.a)));
    XorBytes(k.q, n.p);
    XorBytes(k.r, n.q);
    XorBytes(k.s, n.r);
  }

  lemma WordShows(s: Schedule, r: nat, j: nat, c: Column)
    requires r <= NR && j < 4 && WordAt(s, 4 * r + j) == Bytes(c)
    ensures ColumnOf(KeyOf(s, r), j) == c
  {
    var w, b := WordAt(s, 4 * r + j), KeyOf(s, r);
    assert b[4 * j] == w[0] && b[4 * j + 1] == w[1] && b[4 * j + 2] == w[2] && b[4 * j + 3] == w[3];
  }

  lemma KeyShows(key: Block, r: nat, k: Square)
    requires r <= NR && KeyIs(key, r, k)
    ensures Shows(KeyOf(Expand(key), r), k)
  {
    hide Word, Words, WordAt, Bytes, ColumnOf, KeyOf;
    WordsAt(key, 44, 4 * r);
    WordsAt(key, 44, 4 * r + 1);
    WordsAt(key, 44, 4 * r + 2);
    WordsAt(key, 44, 4 * r + 3);
    WordShows(Expand(key), r, 0, k.p);
    WordShows(Expand(key), r, 1, k.q);
    WordShows(Expand(key), r, 2, k.r);
    WordShows(Expand(key), r, 3, k.s);
  }

  const K0 := Square(
    Column(0x2b, 0x7e, 0x15, 0x16), Column(0x28, 0xae, 0xd2, 0xa6),
    Column(0xab, 0xf7, 0x15, 0x88), Column(0x09, 0xcf, 0x4f, 0x3c))
  const K1 := Square(
    Column(0xa0, 0xfa, 0xfe, 0x17), Column(0x88, 0x54, 0x2c, 0xb1),
    Column(0x23, 0xa3, 0x39, 0x39), Column(0x2a, 0x6c, 0x76, 0x05))
  const K2 := Square(
    Column(0xf2, 0xc2, 0x95, 0xf2), Column(0x7a, 0x96, 0xb9, 0x43),
    Column(0x59, 0x35, 0x80, 0x7a), Column(0x73, 0x59, 0xf6, 0x7f))
  const K3 := Square(
    Column(0x3d, 0x80, 0x47, 0x7d), Column(0x47, 0x16, 0xfe, 0x3e),
    Column(0x1e, 0x23, 0x7e, 0x44), Column(0x6d, 0x7a, 0x88, 0x3b))
  const K4 := Square(
    Column(0xef, 0x44, 0xa5, 0x41), Column(0xa8, 0x52, 0x5b, 0x7f),
    Column(0xb6, 0x71, 0x25, 0x3b), Column(0xdb, 0x0b, 0xad, 0x00))
  const K5 := Square(
    Column(0xd4, 0xd1, 0xc6, 0xf8), Column(0x7c, 0x83, 0x9d, 0x87),
    Column(0xca, 0xf2, 0xb8, 0xbc), Column(0x11, 0xf9, 0x15, 0xbc))
  const K6 := Square(
    Column(0x6d, 0x88, 0xa3, 0x7a), Column(0x11, 0x0b, 0x3e, 0xfd),
    Column(0xdb, 0xf9, 0x86, 0x41), Column(0xca, 0x00, 0x93, 0xfd))
  const K7 := Square(
    Column(0x4e, 0x54, 0xf7, 0x0e), Column(0x5f, 0x5f, 0xc9, 0xf3),
    Column(0x84, 0xa6, 0x4f, 0xb2), Column(0x4e, 0xa6, 0xdc, 0x4f))
  const K8 := Square(
    Column(0xea, 0xd2, 0x73, 0x21), Column(0xb5, 0x8d, 0xba, 0xd2),
    Column(0x31, 0x2b, 0xf5, 0x60), Column(0x7f, 0x8d, 0x29, 0x2f))
  const K9 := Square(
    Column(0xac, 0x77, 0x66, 0xf3), Column(0x19, 0xfa, 0xdc, 0x21),
    Column(0x28, 0xd1, 0x29, 0x41), Column(0x57, 0x5c, 0x00, 0x6e))
  const K10 := Square(
    Column(0xd0, 0x14, 0xf9, 0xa8), Column(0xc9, 0xee, 0x25, 0x89),
    Column(0xe1, 0x3f, 0x0c, 0xc8), Column(0xb6, 0x63, 0x0c, 0xa6))

  const S0 := Square(
    Column(0x19, 0x3d, 0xe3, 0xbe), Column(0xa0, 0xf4, 0xe2, 0x2b),
    Column(0x9a, 0xc6, 0x8d, 0x2a), Column(0xe9, 0xf8, 0x48, 0x08))
  const S1 := Square(
    Column(0xa4, 0x9c, 0x7f, 0xf2), Column(0x68, 0x9f, 0x35, 0x2b),
    Column(0x6b, 0x5b, 0xea, 0x43), Column(0x02, 0x6a, 0x50, 0x49))
  const S2 := Square(
    Column(0xaa, 0x8f, 0x5f, 0x03), Column(0x61, 0xdd, 0xe3, 0xef),
    Column(0x82, 0xd2, 0x4a, 0xd2), Column(0x68, 0x32, 0x46, 0x9a))
  const S3 := Square(
    Column(0x48, 0x6c, 0x4e, 0xee), Column(0x67, 0x1d, 0x9d, 0x0d),
    Column(0x4d, 0xe3, 0xb1, 0x38), Column(0xd6, 0x5f, 0x58, 0xe7))
  const S4 := Square(
    Column(0xe0, 0x92, 0x7f, 0xe8), Column(0xc8, 0x63, 0x63, 0xc0),
    Column(0xd9, 0xb1, 0x35, 0x50), Column(0x85, 0xb8, 0xbe, 0x01))
  const S5 := Square(
    Column(0xf1, 0x00, 0x6f, 0x55), Column(0xc1, 0x92, 0x4c, 0xef),
    Column(0x7c, 0xc8, 0x8b, 0x32), Column(0x5d, 0xb5, 0xd5, 0x0c))
  const S6 := Square(
    Column(0x26, 0x0e, 0x2e, 0x17), Column(0x3d, 0x41, 0xb7, 0x7d),
    Column(0xe8, 0x64, 0x72, 0xa9), Column(0xfd, 0xd2, 0x8b, 0x25))
  const S7 := Square(
    Column(0x5a, 0x41, 0x42, 0xb1), Column(0x19, 0x49, 0xdc, 0x1f),
    Column(0xa3, 0xe0, 0x19, 0x65), Column(0x7a, 0x8c, 0x04, 0x0c))
  const S8 := Square(
    Column(0xea, 0x83, 0x5c, 0xf0), Column(0x04, 0x45, 0x33, 0x2d),
    Column(0x65, 0x5d, 0x98, 0xad), Column(0x85, 0x96, 0xb0, 0xc5))
  const S9 := Square(
    Column(0xeb, 0x40, 0xf2, 0x1e), Column(0x59, 0x2e, 0x38, 0x84),
    Column(0x8b, 0xa1, 0x13, 0xe7), Column(0x1b, 0xc3, 0x42, 0xd2))
  const ANSWER := Square(
    Column(0x39, 0x25, 0x84, 0x1d), Column(0x02, 0xdc, 0x09, 0xfb),
    Column(0xdc, 0x11, 0x85, 0x97), Column(0x19, 0x6a, 0x0b, 0x32))

  const KEY: Block := [
    0x2b, 0x7e, 0x15, 0x16, 0x28, 0xae, 0xd2, 0xa6,
    0xab, 0xf7, 0x15, 0x88, 0x09, 0xcf, 0x4f, 0x3c]
  const PLAIN: Block := [
    0x32, 0x43, 0xf6, 0xa8, 0x88, 0x5a, 0x30, 0x8d,
    0x31, 0x31, 0x98, 0xa2, 0xe0, 0x37, 0x07, 0x34]

  lemma Key1()
    ensures NextKey(K0, RCON[1]) == K1
  {
  }

  lemma Key2()
    ensures NextKey(K1, RCON[2]) == K2
  {
  }

  lemma Key3()
    ensures NextKey(K2, RCON[3]) == K3
  {
  }

  lemma Key4()
    ensures NextKey(K3, RCON[4]) == K4
  {
  }

  lemma Key5()
    ensures NextKey(K4, RCON[5]) == K5
  {
  }

  lemma Key6()
    ensures NextKey(K5, RCON[6]) == K6
  {
  }

  lemma Key7()
    ensures NextKey(K6, RCON[7]) == K7
  {
  }

  lemma Key8()
    ensures NextKey(K7, RCON[8]) == K8
  {
  }

  lemma Key9()
    ensures NextKey(K8, RCON[9]) == K9
  {
  }

  lemma Key10()
    ensures NextKey(K9, RCON[10]) == K10
  {
  }

  lemma Round1()
    ensures Keyed(Mixed(Shifted(S0)), K1) == S1
  {
  }

  lemma Round2()
    ensures Keyed(Mixed(Shifted(S1)), K2) == S2
  {
  }

  lemma Round3()
    ensures Keyed(Mixed(Shifted(S2)), K3) == S3
  {
  }

  lemma Round4()
    ensures Keyed(Mixed(Shifted(S3)), K4) == S4
  {
  }

  lemma Round5()
    ensures Keyed(Mixed(Shifted(S4)), K5) == S5
  {
  }

  lemma Round6()
    ensures Keyed(Mixed(Shifted(S5)), K6) == S6
  {
  }

  lemma Round7()
    ensures Keyed(Mixed(Shifted(S6)), K7) == S7
  {
  }

  lemma Round8()
    ensures Keyed(Mixed(Shifted(S7)), K8) == S8
  {
  }

  lemma Round9()
    ensures Keyed(Mixed(Shifted(S8)), K9) == S9
  {
  }

  lemma LastRound()
    ensures Keyed(Shifted(S9), K10) == ANSWER
  {
  }

  /** Round key `r` of the example. */
  ghost predicate RoundKey(r: nat, k: Square)
    requires r <= NR
  {
    KeyIs(KEY, r, k)
  }

  lemma FirstKey()
    ensures RoundKey(0, K0)
  {
    assert KEY[0..4] == Bytes(K0.p) && KEY[4..8] == Bytes(K0.q) && KEY[8..12] == Bytes(K0.r);
    assert KEY[12..16] == Bytes(K0.s);
  }

  lemma NextKeyAs(r: nat, k: Square, l: Square)
    requires r < NR && RoundKey(r, k) && NextKey(k, RCON[r + 1]) == l
    ensures RoundKey(r + 1, l)
  {
    hide KeyIs, NextKey, KEY;
    NextKeyIs(KEY, r, k);
  }

  lemma EarlyKeys()
    ensures RoundKey(0, K0) && RoundKey(1, K1) && RoundKey(2, K2) && RoundKey(3, K3) && RoundKey(4, K4)
    ensures RoundKey(5, K5)
  {
    hide RoundKey, NextKey, KEY;
    FirstKey();
    Key1();
    NextKeyAs(0, K0, K1);
    Key2();
    NextKeyAs(1, K1, K2);
    Key3();
    NextKeyAs(2, K2, K3);
    Key4();
    NextKeyAs(3, K3, K4);
    Key5();
    NextKeyAs(4, K4, K5);
  }

  lemma LateKeys()
    requires RoundKey(5, K5)
    ensures RoundKey(6, K6) && RoundKey(7, K7) && RoundKey(8, K8) && RoundKey(9, K9) && RoundKey(10, K10)
  {
    hide RoundKey, NextKey, KEY;
    Key6();
    NextKeyAs(5, K5, K6);
    Key7();
    NextKeyAs(6, K6, K7);
    Key8();
    NextKeyAs(7, K7, K8);
    Key9();
    NextKeyAs(8, K8, K9);
    Key10();
    NextKeyAs(9, K9, K10);
  }

  lemma RoundAs(r: nat, x: Square, k: Square, y: Square)
    requires 1 <= r < NR && Shows(Rounds(PLAIN, Expand(KEY), r - 1), x) && RoundKey(r, k)
    requires Keyed(Mixed(Shifted(x)), k) == y
    ensures Shows(Rounds(PLAIN, Expand(KEY), r), y)
  {
    var rk := Expand(KEY);
    assert Rounds(PLAIN, rk, r) ==
           AddKey(MixColumns(ShiftRows(SubBytes(Rounds(PLAIN, rk, r - 1)))), KeyOf(rk, r));
    hide KeyIs, Shows, Keyed, Mixed, Shifted, Rounds, Expand, AddKey, MixColumns, ShiftRows, SubBytes, KeyOf;
    hide KEY, PLAIN;
    var b := Rounds(PLAIN, rk, r - 1);
    KeyShows(KEY, r, k);
    ShiftedShows(b, x);
    MixedShows(ShiftRows(SubBytes(b)), Shifted(x));
    KeyedShows(MixColumns(ShiftRows(SubBytes(b))), KeyOf(rk, r), Mixed(Shifted(x)), k);
  }

  lemma FirstState()
    requires RoundKey(0, K0)
    ensures Shows(Rounds(PLAIN, Expand(KEY), 0), S0)
  {
    var plain := Square(
      Column(0x32, 0x43, 0xf6, 0xa8), Column(0x88, 0x5a, 0x30, 0x8d),
      Column(0x31, 0x31, 0x98, 0xa2), Column(0xe0, 0x37, 0x07, 0x34));
    assert Shows(PLAIN, plain) && Keyed(plain, K0) == S0;
    assert Rounds(PLAIN, Expand(KEY), 0) == AddKey(PLAIN, KeyOf(Expand(KEY), 0));
    hide KeyIs, Shows, Keyed, Mixed, Shifted, Rounds, Expand, AddKey, MixColumns, ShiftRows, SubBytes, KeyOf;
    hide KEY, PLAIN;
    KeyShows(KEY, 0, K0);
    KeyedShows(PLAIN, KeyOf(Expand(KEY), 0), plain, K0);
  }

  lemma NineRounds()
    ensures Shows(Rounds(PLAIN, Expand(KEY), 9), S9) && RoundKey(10, K10)
  {
    hide RoundKey, Shows, Keyed, Mixed, Shifted, Rounds, Expand, KEY, PLAIN;
    EarlyKeys();
    LateKeys();
    FirstState();
    Round1();
    RoundAs(1, S0, K1, S1);
    Round2();
    RoundAs(2, S1, K2, S2);
    Round3();
    RoundAs(3, S2, K3, S3);
    Round4();
    RoundAs(4, S3, K4, S4);
    Round5();
    RoundAs(5, S4, K5, S5);
    Round6();
    RoundAs(6, S5, K6, S6);
    Round7();
    RoundAs(7, S6, K7, S7);
    Round8();
    RoundAs(8, S7, K8, S8);
    Round9();
    RoundAs(9, S8, K9, S9);
  }

  /** The cipher text of the example is the published one; and the inverse cipher gives the plain text back. */
  lemma PublishedAnswer()
    ensures Shows(Cipher(PLAIN, Expand(KEY)), ANSWER) && InvCipher(Cipher(PLAIN, Expand(KEY)), Expand(KEY)) == PLAIN
  {
    var rk := Expand(KEY);
    CipherInverse(PLAIN, rk);
    assert Cipher(PLAIN, rk) == AddKey(ShiftRows(SubBytes(Rounds(PLAIN, rk, 9))), KeyOf(rk, 10));
    hide KeyIs, Shows, Keyed, Mixed, Shifted, Rounds, Expand, AddKey, MixColumns, ShiftRows, SubBytes, KeyOf;
    hide KEY, PLAIN;
    NineRounds();
    LastRound();
    var b := Rounds(PLAIN, rk, 9);
    KeyShows(KEY, 10, K10);
    ShiftedShows(b, S9);
    KeyedShows(ShiftRows(SubBytes(b)), KeyOf(rk, 10), Shifted(S9), K10);
  }
}
