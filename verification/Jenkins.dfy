/** The hash of a key on a little-endian machine: three ways to read it, one value. Words are numbers below 2^32, and
    wrapping around is spelled out. */
module Jenkins {
  import opened Bytes

  const MODULUS := 0x1_0000_0000

  type Word = x: nat | x < MODULUS

  datatype State = State(a: Word, b: Word, c: Word)

  function Plus(x: Word, y: Word): Word {
    (x + y) % MODULUS
  }

  function Minus(x: Word, y: Word): Word {
    (x - y) % MODULUS
  }

  function Pow2(k: nat): (p: nat)
    ensures p > 0
  {
    if k == 0 then 1 else 2 * Pow2(k - 1)
  }

  /** Exclusive or, bit by bit. */
  function XorBits(x: nat, y: nat): nat {
    if x == 0 && y == 0 then 0 else 2 * XorBits(x / 2, y / 2) + (if x % 2 == y % 2 then 0 else 1)
  }

  lemma {:induction false} XorBound(x: nat, y: nat, n: nat)
    requires x < Pow2(n) && y < Pow2(n)
    ensures XorBits(x, y) < Pow2(n)
    decreases n
  {
    if n > 0 && !(x == 0 && y == 0) { XorBound(x / 2, y / 2, n - 1); }
  }

  lemma {:induction false} XorBitsTwice(x: nat, y: nat)
    ensures XorBits(XorBits(x, y), y) == x
    decreases x + y
  {
    if !(x == 0 && y == 0) {
      var z := XorBits(x, y);
      assert z / 2 == XorBits(x / 2, y / 2) && z % 2 == if x % 2 == y % 2 then 0 else 1;
      XorBitsTwice(x / 2, y / 2);
    }
  }

  lemma Pow32()
    ensures Pow2(32) == MODULUS
  {
    assert Pow2(8) == 256;
    assert Pow2(16) == 65536;
    assert Pow2(24) == 16777216;
  }

  function Xor(x: Word, y: Word): Word {
    Pow32();
    XorBound(x, y, 32);
    XorBits(x, y)
  }

  /** x >> k */
  function ShiftRight(x: Word, k: nat): (r: Word)
    ensures r <= x
  {
    if k == 0 then x else ShiftRight(x / 2, k - 1)
  }

  /** x << k */
  function ShiftLeft(x: Word, k: nat): Word {
    (x * Pow2(k)) % MODULUS
  }

  /** rot(x, k) */
  function Rot(x: Word, k: nat): Word
    requires k <= 32
  {
    Xor(ShiftLeft(x, k), ShiftRight(x, 32 - k))
  }

  lemma {:induction false} XorNone(a: nat)
    ensures XorBits(a, 0) == a
  {
    if a > 0 { XorNone(a / 2); }
  }

  /** Numbers that share no bit are added. */
  lemma {:induction false} XorDisjoint(a: nat, b: nat, k: nat)
    requires b < Pow2(k)
    ensures XorBits(a * Pow2(k), b) == a * Pow2(k) + b
    decreases k
  {
    if k == 0 {
      XorNone(a);
    } else {
      var h := a * Pow2(k - 1);
      assert a * Pow2(k) == 2 * h;
      XorDisjoint(a, b / 2, k - 1);
    }
  }

  lemma {:induction false} PowSum(i: nat, j: nat)
    ensures Pow2(i + j) == Pow2(i) * Pow2(j)
  {
    if i > 0 { PowSum(i - 1, j); }
  }

  lemma NoMultiple(t: int, p: int)
    requires p > 0 && -p < t * p < p
    ensures t == 0
  {
    assert t >= 1 ==> t * p >= p;
    assert t <= -1 ==> t * p <= -p;
  }

  lemma DivIs(q: nat, p: nat, r: nat)
    requires r < p
    ensures (q * p + r) / p == q && (q * p + r) % p == r
  {
    var n := q * p + r;
    var d, m := n / p, n % p;
    assert n == p * d + m && 0 <= m < p;
    assert (q - d) * p == q * p - p * d;
    NoMultiple(q - d, p);
  }

  lemma Doubled(a: nat, q: nat, p: nat, r: nat, b: nat)
    requires a == q * p + r && r < p && b < 2
    ensures (2 * a + b) / (2 * p) == q
  {
    calc {
      2 * a + b;
      2 * (q * p) + (2 * r + b);
      q * (2 * p) + (2 * r + b);
    }
    DivIs(q, 2 * p, 2 * r + b);
  }

  lemma {:induction false} ShiftRightIs(x: Word, k: nat)
    ensures ShiftRight(x, k) == x / Pow2(k)
  {
    if k > 0 {
      var p := Pow2(k - 1);
      ShiftRightIs(x / 2, k - 1);
      assert x / 2 == (x / 2 / p) * p + x / 2 % p;
      Doubled(x / 2, x / 2 / p, p, x / 2 % p, x % 2);
    }
  }

  lemma Cut(x: nat, p: nat, q: nat)
    requires p > 0 && q > 0
    ensures (x * p) % (p * q) == (x % q) * p
  {
    var d, m := x / q, x % q;
    assert x == d * q + m;
    assert x * p == d * (p * q) + m * p;
    assert m * p < q * p;
    DivIs(d, p * q, m * p);
  }

  lemma HighBits(x: nat, p: nat, q: nat)
    requires q > 0 && x < p * q
    ensures x / q < p
  {
    var d := x / q;
    assert x == d * q + x % q;
    assert d >= p ==> d * q >= p * q;
  }

  /** rot: the low bits move up by k places, and the k high bits come in below. */
  lemma RotIs(x: Word, k: nat)
    requires k <= 32
    ensures Rot(x, k) == (x % Pow2(32 - k)) * Pow2(k) + x / Pow2(32 - k)
  {
    var p, q := Pow2(k), Pow2(32 - k);
    PowSum(k, 32 - k);
    Pow32();
    hide Pow2;
    Cut(x, p, q);
    ShiftRightIs(x, 32 - k);
    HighBits(x, p, q);
    XorDisjoint(x % q, x / q, k);
  }

  /** One line of mix: x -= z; x ^= rot(z, k); z += y. */
  function Line(s: State, k: nat): State
    requires k <= 32
  {
    State(Xor(Minus(s.a, s.c), Rot(s.c, k)), s.b, Plus(s.c, s.b))
  }

  function Unline(s: State, k: nat): State
    requires k <= 32
  {
    var c := Minus(s.c, s.b);
    State(Plus(Xor(s.a, Rot(c, k)), c), s.b, c)
  }

  /** The lines of mix take the variables in turn. */
  function Turn(s: State): State {
    State(s.b, s.c, s.a)
  }

  function Unturn(s: State): State {
    State(s.c, s.a, s.b)
  }

  function Mix(s: State): State {
    Turn(Line(Turn(Line(Turn(Line(Turn(Line(Turn(Line(Turn(Line(s, 4)), 6)), 8)), 16)), 19)), 4))
  }

  function Unmix(s: State): State {
    Unline(Unturn(Unline(Unturn(Unline(Unturn(
      Unline(Unturn(Unline(Unturn(Unline(Unturn(s), 4)), 19)), 16)), 8)), 6)), 4)
  }

  lemma AddSub(x: Word, y: Word)
    ensures Plus(Minus(x, y), y) == x && Minus(Plus(x, y), y) == x
  {
  }

  lemma XorTwice(x: Word, y: Word)
    ensures Xor(Xor(x, y), y) == x
  {
    XorBitsTwice(x, y);
  }

  lemma LineInverse(s: State, k: nat)
    requires k <= 32
    ensures Unline(Line(s, k), k) == s && Line(Unline(s, k), k) == s
  {
    hide Rot, Plus, Minus, Xor;
    AddSub(s.c, s.b);
    XorTwice(Minus(s.a, s.c), Rot(s.c, k));
    AddSub(s.a, s.c);
    var c := Minus(s.c, s.b);
    AddSub(Xor(s.a, Rot(c, k)), c);
    XorTwice(s.a, Rot(c, k));
  }

  lemma StepInverse(s: State, k: nat)
    requires k <= 32
    ensures Unline(Unturn(Turn(Line(s, k))), k) == s && Turn(Line(Unline(Unturn(s), k), k)) == s
  {
    hide Line, Unline;
    LineInverse(s, k);
    LineInverse(Unturn(s), k);
  }

  /** mix loses no information: it is a bijection on triples of words. */
  lemma MixBijective(s: State)
    ensures Unmix(Mix(s)) == s && Mix(Unmix(s)) == s
  {
    hide Line, Unline, Turn, Unturn;
    var s1 := Turn(Line(s, 4));
    var s2 := Turn(Line(s1, 6));
    var s3 := Turn(Line(s2, 8));
    var s4 := Turn(Line(s3, 16));
    var s5 := Turn(Line(s4, 19));
    StepInverse(s, 4);
    StepInverse(s1, 6);
    StepInverse(s2, 8);
    StepInverse(s3, 16);
    StepInverse(s4, 19);
    StepInverse(s5, 4);
    var t1 := Unline(Unturn(s), 4);
    var t2 := Unline(Unturn(t1), 19);
    var t3 := Unline(Unturn(t2), 16);
    var t4 := Unline(Unturn(t3), 8);
    var t5 := Unline(Unturn(t4), 6);
    StepInverse(t1, 19);
    StepInverse(t2, 16);
    StepInverse(t3, 8);
    StepInverse(t4, 6);
    StepInverse(t5, 4);
  }

  /** One step of final: x ^= y; x -= rot(y, k). */
  function FinalLine(x: Word, y: Word, k: nat): Word
    requires k <= 32
  {
    Minus(Xor(x, y), Rot(y, k))
  }

  function Final(s: State): Word {
    var c := FinalLine(s.c, s.b, 14);
    var a := FinalLine(s.a, c, 11);
    var b := FinalLine(s.b, a, 25);
    var c1 := FinalLine(c, b, 16);
    var a1 := FinalLine(a, c1, 4);
    var b1 := FinalLine(b, a1, 14);
    FinalLine(c1, b1, 24)
  }

  /** A 32-bit word of memory. */
  function WordAt(b0: byte, b1: byte, b2: byte, b3: byte): Word {
    b0 as nat + 256 * b1 as nat + 0x10000 * b2 as nat + 0x1000000 * b3 as nat
  }

  /** Byte `i` of a block, zero past its end. */
  function ByteOf(key: seq<byte>, i: nat): byte {
    if i < |key| then key[i] else 0
  }

  function WordOf(key: seq<byte>, j: nat): Word {
    WordAt(ByteOf(key, 4 * j), ByteOf(key, 4 * j + 1), ByteOf(key, 4 * j + 2), ByteOf(key, 4 * j + 3))
  }

  /** The state after a block of at most twelve bytes has been added. */
  function Absorb(s: State, block: seq<byte>): State {
    State(Plus(s.a, WordOf(block, 0)), Plus(s.b, WordOf(block, 1)), Plus(s.c, WordOf(block, 2)))
  }

  function Start(length: nat): State {
    var x := Plus(0xdeadbeef, length % MODULUS);
    State(x, x, x)
  }

  /** The rest of the computation, given the bytes that are left. */
  function Rest(s: State, key: seq<byte>): Word
    decreases |key|
  {
    if key == [] then s.c
    else if |key| <= 12 then Final(Absorb(s, key))
    else Rest(Mix(Absorb(s, key[..12])), key[12..])
  }

  /** The value of a key: a function of its bytes alone. */
  function Hash(key: seq<byte>): Word {
    Rest(Start(|key|), key)
  }

  function Load32(mem: seq<byte>, q: nat): Word
    requires q + 4 <= |mem|
  {
    WordAt(mem[q], mem[q + 1], mem[q + 2], mem[q + 3])
  }

  function Load16(mem: seq<byte>, q: nat): Word
    requires q + 2 <= |mem|
  {
    mem[q] as nat + 256 * mem[q + 1] as nat
  }

  function Load8(mem: seq<byte>, q: nat): Word
    requires q < |mem|
  {
    mem[q] as nat
  }

  /** The part of the last block from byte 4 j on, as far as it reaches. */
  lemma WordIs(mem: seq<byte>, k: nat, n: nat, j: nat)
    requires k + n <= |mem|
    ensures var w := WordOf(mem[k..k + n], j);
            && (n <= 4 * j ==> w == 0)
            && (n == 4 * j + 1 ==> w == Load8(mem, k + 4 * j))
            && (n == 4 * j + 2 ==> w == Load16(mem, k + 4 * j))
            && (n == 4 * j + 3 ==> w == Load16(mem, k + 4 * j) + 0x10000 * Load8(mem, k + 4 * j + 2))
            && (n >= 4 * j + 4 ==> w == Load32(mem, k + 4 * j))
  {
  }

  /** Masking a word keeps its low bytes. */
  lemma Masked(mem: seq<byte>, q: nat)
    requires q + 4 <= |mem|
    ensures Load32(mem, q) % 0x100 == Load8(mem, q)
    ensures Load32(mem, q) % 0x10000 == Load16(mem, q)
    ensures Load32(mem, q) % 0x1000000 == Load16(mem, q) + 0x10000 * Load8(mem, q + 2)
    ensures Load32(mem, q) == Load16(mem, q) + 0x10000 * Load16(mem, q + 2)
  {
  }

  lemma PlusAssoc(x: Word, y: nat, z: nat)
    requires y + z < MODULUS
    ensures Plus(Plus(x, y), z) == Plus(x, y + z)
  {
  }

  lemma PlusNone(x: Word)
    ensures Plus(x, 0) == x
  {
  }

  function Added(s: State, x: Word, y: Word, z: Word): State {
    State(Plus(s.a, x), Plus(s.b, y), Plus(s.c, z))
  }

  lemma NextBlock(s: State, mem: seq<byte>, k: nat, n: nat)
    requires 12 < n && k + n <= |mem|
    ensures Rest(s, mem[k..k + n]) ==
            Rest(Mix(Added(s, Load32(mem, k), Load32(mem, k + 4), Load32(mem, k + 8))), mem[k + 12..k + n])
  {
    hide Mix, Plus;
    var key := mem[k..k + n];
    assert key[..12] == mem[k..k + 12] && key[12..] == mem[k + 12..k + n];
    WordIs(mem, k, 12, 0);
    WordIs(mem, k, 12, 1);
    WordIs(mem, k, 12, 2);
  }

  lemma LastBlock(s: State, mem: seq<byte>, k: nat, n: nat, t: State)
    requires 0 < n <= 12 && k + n <= |mem| && t == Absorb(s, mem[k..k + n])
    ensures Rest(s, mem[k..k + n]) == Final(t)
  {
  }

  /** The last block, read in words: what lies beyond the key is masked off. */
  method LastWords(s: State, mem: seq<byte>, k: nat, n: nat) returns (t: State)
    requires 0 < n <= 12 && k + (n + 3) / 4 * 4 <= |mem|
    ensures t == Absorb(s, mem[k..k + n])
  {
    hide Plus, Load8, Load16, Load32, WordOf;
    WordIs(mem, k, n, 0);
    WordIs(mem, k, n, 1);
    WordIs(mem, k, n, 2);
    Masked(mem, k);
    if n > 4 { Masked(mem, k + 4); }
    if n > 8 { Masked(mem, k + 8); }
    match n
    case 12 => t := Added(s, Load32(mem, k), Load32(mem, k + 4), Load32(mem, k + 8));
    case 11 => t := Added(s, Load32(mem, k), Load32(mem, k + 4), Load32(mem, k + 8) % 0x1000000);
    case 10 => t := Added(s, Load32(mem, k), Load32(mem, k + 4), Load32(mem, k + 8) % 0x10000);
    case 9 => t := Added(s, Load32(mem, k), Load32(mem, k + 4), Load32(mem, k + 8) % 0x100);
    case 8 => t := Added(s, Load32(mem, k), Load32(mem, k + 4), 0);
    case 7 => t := Added(s, Load32(mem, k), Load32(mem, k + 4) % 0x1000000, 0);
    case 6 => t := Added(s, Load32(mem, k), Load32(mem, k + 4) % 0x10000, 0);
    case 5 => t := Added(s, Load32(mem, k), Load32(mem, k + 4) % 0x100, 0);
    case 4 => t := Added(s, Load32(mem, k), 0, 0);
    case 3 => t := Added(s, Load32(mem, k) % 0x1000000, 0, 0);
    case 2 => t := Added(s, Load32(mem, k) % 0x10000, 0, 0);
    case _ => t := Added(s, Load32(mem, k) % 0x100, 0, 0);
  }

  /** Two half-words as a word. */
  function Halves(mem: seq<byte>, q: nat): Word
    requires q + 4 <= |mem|
  {
    Load16(mem, q) + 0x10000 * Load16(mem, q + 2)
  }

  /** The last block, read in half-words and bytes, nothing beyond the key; an odd byte is added first. */
  method LastHalves(s: State, mem: seq<byte>, k: nat, n: nat) returns (t: State)
    requires 0 < n <= 12 && k + n <= |mem|
    ensures t == Absorb(s, mem[k..k + n])
  {
    hide Plus, Load8, Load16, Load32, WordOf;
    WordIs(mem, k, n, 0);
    WordIs(mem, k, n, 1);
    WordIs(mem, k, n, 2);
    if n >= 4 { Masked(mem, k); }
    if n >= 8 { Masked(mem, k + 4); }
    if n >= 12 { Masked(mem, k + 8); }
    PlusNone(s.a);
    PlusNone(s.b);
    PlusNone(s.c);
    match n
    case 12 => t := Added(s, Halves(mem, k), Halves(mem, k + 4), Halves(mem, k + 8));
    case 11 =>
      LoadBound(mem, k + 8);
      PlusAssoc(s.c, 0x10000 * Load8(mem, k + 10), Load16(mem, k + 8));
      t := s.(c := Plus(s.c, 0x10000 * Load8(mem, k + 10)));
      t := Added(t, Halves(mem, k), Halves(mem, k + 4), Load16(mem, k + 8));
    case 10 => t := Added(s, Halves(mem, k), Halves(mem, k + 4), Load16(mem, k + 8));
    case 9 => t := Added(s, Halves(mem, k), Halves(mem, k + 4), Load8(mem, k + 8));
    case 8 => t := Added(s, Halves(mem, k), Halves(mem, k + 4), 0);
    case 7 =>
      LoadBound(mem, k + 4);
      PlusAssoc(s.b, 0x10000 * Load8(mem, k + 6), Load16(mem, k + 4));
      t := s.(b := Plus(s.b, 0x10000 * Load8(mem, k + 6)));
      t := Added(t, Halves(mem, k), Load16(mem, k + 4), 0);
    case 6 => t := Added(s, Halves(mem, k), Load16(mem, k + 4), 0);
    case 5 => t := Added(s, Halves(mem, k), Load8(mem, k + 4), 0);
    case 4 => t := Added(s, Halves(mem, k), 0, 0);
    case 3 =>
      LoadBound(mem, k);
      PlusAssoc(s.a, 0x10000 * Load8(mem, k + 2), Load16(mem, k));
      t := s.(a := Plus(s.a, 0x10000 * Load8(mem, k + 2)));
      t := Added(t, Load16(mem, k), 0, 0);
    case 2 => t := Added(s, Load16(mem, k), 0, 0);
    case _ => t := Added(s, Load8(mem, k), 0, 0);
  }

  lemma LoadBound(mem: seq<byte>, q: nat)
    requires q + 3 <= |mem|
    ensures 0x10000 * Load8(mem, q + 2) + Load16(mem, q) < 0x1000000
  {
  }

  /** One word of the last block, read byte by byte from its end: the cases that fall through. */
  method AddBytes(x: Word, mem: seq<byte>, q: nat, m: nat) returns (y: Word)
    requires m <= 4 && q + m <= |mem|
    ensures y == Plus(x, WordOf(mem[q..q + m], 0))
  {
    ghost var w := WordOf(mem[q..q + m], 0);
    WordIs(mem, q, m, 0);
    assert w == BytesFrom(mem, q, m, 0);
    hide Plus, WordOf;
    PlusNone(x);
    y := x;
    if m >= 4 { y := AddByte(x, y, mem, q, m, 3); }
    if m >= 3 { y := AddByte(x, y, mem, q, m, 2); }
    if m >= 2 { y := AddByte(x, y, mem, q, m, 1); }
    if m >= 1 { y := AddByte(x, y, mem, q, m, 0); }
  }

  /** The bytes of a word from the i-th on, of which there are `m`, at their places. */
  function BytesFrom(mem: seq<byte>, q: nat, m: nat, i: nat): nat
    requires m <= 4 && q + m <= |mem|
    decreases 4 - i
  {
    if i >= 4 then 0
    else (if i < m then Place(i) * Load8(mem, q + i) else 0) + BytesFrom(mem, q, m, i + 1)
  }

  /** 1 << 8 i */
  function Place(i: nat): nat {
    if i == 0 then 1 else if i == 1 then 0x100 else if i == 2 then 0x10000 else 0x1000000
  }

  method AddByte(ghost x: Word, y: Word, mem: seq<byte>, q: nat, ghost m: nat, i: nat) returns (z: Word)
    requires i < m <= 4 && q + m <= |mem|
    requires BytesFrom(mem, q, m, i + 1) < MODULUS && y == Plus(x, BytesFrom(mem, q, m, i + 1))
    ensures BytesFrom(mem, q, m, i) < MODULUS && z == Plus(x, BytesFrom(mem, q, m, i))
  {
    hide Plus;
    z := Plus(y, Place(i) * Load8(mem, q + i));
    PlusAssoc(x, BytesFrom(mem, q, m, i + 1), Place(i) * Load8(mem, q + i));
  }

  /** A word of the last block does not depend on the words before it. */
  lemma WordAlone(mem: seq<byte>, k: nat, n: nat, j: nat)
    requires k + n <= |mem| && 4 * j < n
    ensures WordOf(mem[k..k + n], j) == WordOf(mem[k + 4 * j..k + 4 * j + (if n - 4 * j > 4 then 4 else n - 4 * j)], 0)
  {
    hide WordOf;
    WordIs(mem, k, n, j);
    WordIs(mem, k + 4 * j, if n - 4 * j > 4 then 4 else n - 4 * j, 0);
  }

  method LastBytes(s: State, mem: seq<byte>, k: nat, n: nat) returns (t: State)
    requires 0 < n <= 12 && k + n <= |mem|
    ensures t == Absorb(s, mem[k..k + n])
  {
    hide Plus, WordOf;
    WordIs(mem, k, n, 1);
    WordIs(mem, k, n, 2);
    PlusNone(s.b);
    PlusNone(s.c);
    var c := s.c;
    if n > 8 {
      WordAlone(mem, k, n, 2);
      c := AddBytes(s.c, mem, k + 8, n - 8);
    }
    var b := s.b;
    if n > 4 {
      WordAlone(mem, k, n, 1);
      b := AddBytes(s.b, mem, k + 4, if n - 4 > 4 then 4 else n - 4);
    }
    WordAlone(mem, k, n, 0);
    var a := AddBytes(s.a, mem, k, if n > 4 then 4 else n);
    t := State(a, b, c);
  }

  /** Four bytes, one after the other. */
  method AddWord(x: Word, mem: seq<byte>, q: nat) returns (y: Word)
    requires q + 4 <= |mem|
    ensures y == Plus(x, Load32(mem, q))
  {
    hide Plus;
    var b0, b1 := Load8(mem, q), 0x100 * Load8(mem, q + 1);
    var b2, b3 := 0x10000 * Load8(mem, q + 2), 0x1000000 * Load8(mem, q + 3);
    PlusAssoc(x, b0, b1);
    PlusAssoc(x, b0 + b1, b2);
    PlusAssoc(x, b0 + b1 + b2, b3);
    y := Plus(x, b0);
    y := Plus(y, b1);
    y := Plus(y, b2);
    y := Plus(y, b3);
  }

  /** Aligned to four bytes; memory reaches up to the end of the last word. */
  method HashWords(mem: seq<byte>, p: nat, length: nat) returns (r: Word)
    requires p % 4 == 0 && p + (length + 3) / 4 * 4 <= |mem|
    ensures r == Hash(mem[p..p + length])
  {
    hide Plus, Mix, Final, Absorb, Rest;
    var s, k, n := Start(length), p, length;
    while n > 12
      invariant k + (n + 3) / 4 * 4 == p + (length + 3) / 4 * 4
      invariant k + n == p + length && 0 <= n && Hash(mem[p..p + length]) == Rest(s, mem[k..k + n])
    {
      NextBlock(s, mem, k, n);
      s := Mix(Added(s, Load32(mem, k), Load32(mem, k + 4), Load32(mem, k + 8)));
      n, k := n - 12, k + 12;
    }
    if n == 0 {
      NothingLeft(s, mem[k..k + n]);
      return s.c;
    }
    var t := LastWords(s, mem, k, n);
    LastBlock(s, mem, k, n, t);
    r := Final(t);
  }

  lemma NothingLeft(s: State, key: seq<byte>)
    requires |key| == 0
    ensures Rest(s, key) == s.c
  {
  }

  /** Aligned to two bytes. */
  method HashHalves(mem: seq<byte>, p: nat, length: nat) returns (r: Word)
    requires p % 2 == 0 && p + length <= |mem|
    ensures r == Hash(mem[p..p + length])
  {
    hide Plus, Mix, Final, Absorb, Rest;
    var s, k, n := Start(length), p, length;
    while n > 12
      invariant k + n == p + length && 0 <= n && Hash(mem[p..p + length]) == Rest(s, mem[k..k + n])
    {
      NextBlock(s, mem, k, n);
      Masked(mem, k);
      Masked(mem, k + 4);
      Masked(mem, k + 8);
      s := Mix(Added(s, Halves(mem, k), Halves(mem, k + 4), Halves(mem, k + 8)));
      n, k := n - 12, k + 12;
    }
    if n == 0 {
      NothingLeft(s, mem[k..k + n]);
      return s.c;
    }
    var t := LastHalves(s, mem, k, n);
    LastBlock(s, mem, k, n, t);
    r := Final(t);
  }

  /** Anywhere. */
  method HashBytes(mem: seq<byte>, p: nat, length: nat) returns (r: Word)
    requires p + length <= |mem|
    ensures r == Hash(mem[p..p + length])
  {
    hide Plus, Mix, Final, Absorb, Rest;
    var s, k, n := Start(length), p, length;
    while n > 12
      invariant k + n == p + length && 0 <= n && Hash(mem[p..p + length]) == Rest(s, mem[k..k + n])
    {
      NextBlock(s, mem, k, n);
      var a := AddWord(s.a, mem, k);
      var b := AddWord(s.b, mem, k + 4);
      var c := AddWord(s.c, mem, k + 8);
      s := Mix(State(a, b, c));
      n, k := n - 12, k + 12;
    }
    if n == 0 {
      NothingLeft(s, mem[k..k + n]);
      return s.c;
    }
    var t := LastBytes(s, mem, k, n);
    LastBlock(s, mem, k, n, t);
    r := Final(t);
  }

  /** jenkins_hash: the value depends on the bytes of the key alone, neither on its address nor on what follows it. */
  method JenkinsHash(mem: seq<byte>, p: nat, length: nat) returns (r: Word)
    requires p + length <= |mem| && (p % 4 == 0 ==> p + (length + 3) / 4 * 4 <= |mem|)
    ensures r == Hash(mem[p..p + length])
  {
    if p % 4 == 0 {
      r := HashWords(mem, p, length);
    } else if p % 2 == 0 {
      r := HashHalves(mem, p, length);
    } else {
      r := HashBytes(mem, p, length);
    }
  }
}
