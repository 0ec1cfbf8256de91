/** Triple-DES as the program runs it: bit arrays overwritten round by round, and byte buffers. */
module DesCode {
  import opened Des

  function Mask(k: nat): bv8 {
    if k == 0 then 0x80 else if k == 1 then 0x40 else if k == 2 then 0x20 else if k == 3 then 0x10
    else if k == 4 then 0x08 else if k == 5 then 0x04 else if k == 6 then 0x02 else 0x01
  }

  /** Bit `k` of a byte, the highest first. */
  predicate BitAt(x: bv8, k: nat) {
    x & Mask(k) != 0
  }

  function SetBit(x: bv8, b: bool, k: nat): bv8 {
    if b then x | Mask(k) else x & !Mask(k)
  }

  /** A byte after its first `k` bits have been set or cleared. */
  function Packed(bits: Bits, k: nat): bv8
    requires k <= 8 <= |bits|
  {
    if k == 0 then 0 else SetBit(Packed(bits, k - 1), bits[k - 1], k - 1)
  }

  /** The 64 bits of eight bytes. */
  function Unpack(s: seq<bv8>): (w: Word)
    requires |s| == 8
    ensures forall i :: 0 <= i < 64 ==> w[i] == BitAt(s[i / 8], i % 8)
  {
    seq(64, i requires 0 <= i < 64 => BitAt(s[i / 8], i % 8))
  }

  function Pack(w: Word): (s: seq<bv8>)
    ensures |s| == 8 && forall j :: 0 <= j < 8 ==> s[j] == Packed(w[8 * j..8 * j + 8], 8)
  {
    seq(8, j requires 0 <= j < 8 => Packed(w[8 * j..8 * j + 8], 8))
  }

  function Byte(b0: bool, b1: bool, b2: bool, b3: bool, b4: bool, b5: bool, b6: bool, b7: bool): bv8 {
    var low := SetBit(SetBit(SetBit(SetBit(0, b0, 0), b1, 1), b2, 2), b3, 3);
    SetBit(SetBit(SetBit(SetBit(low, b4, 4), b5, 5), b6, 6), b7, 7)
  }

  lemma PackedIs(b: Bits)
    requires |b| == 8
    ensures Packed(b, 8) == Byte(b[0], b[1], b[2], b[3], b[4], b[5], b[6], b[7])
  {
    hide SetBit;
    assert Packed(b, 1) == SetBit(0, b[0], 0);
    assert Packed(b, 3) == SetBit(SetBit(Packed(b, 1), b[1], 1), b[2], 2);
    assert Packed(b, 5) == SetBit(SetBit(Packed(b, 3), b[3], 3), b[4], 4);
    assert Packed(b, 7) == SetBit(SetBit(Packed(b, 5), b[5], 5), b[6], 6);
  }

  lemma ByteOfBits(x: bv8)
    ensures Byte(BitAt(x, 0), BitAt(x, 1), BitAt(x, 2), BitAt(x, 3),
                 BitAt(x, 4), BitAt(x, 5), BitAt(x, 6), BitAt(x, 7)) == x
  {
  }

  lemma BitsOfByte(b0: bool, b1: bool, b2: bool, b3: bool, b4: bool, b5: bool, b6: bool, b7: bool)
    ensures var x := Byte(b0, b1, b2, b3, b4, b5, b6, b7);
            && BitAt(x, 0) == b0 && BitAt(x, 1) == b1 && BitAt(x, 2) == b2 && BitAt(x, 3) == b3
            && BitAt(x, 4) == b4 && BitAt(x, 5) == b5 && BitAt(x, 6) == b6 && BitAt(x, 7) == b7
  {
  }

  lemma PackedBits(x: bv8, bits: Bits)
    requires |bits| == 8 && forall k :: 0 <= k < 8 ==> bits[k] == BitAt(x, k)
    ensures Packed(bits, 8) == x
  {
    hide Byte, BitAt;
    PackedIs(bits);
    ByteOfBits(x);
  }

  lemma PackUnpack(s: seq<bv8>)
    requires |s| == 8
    ensures Pack(Unpack(s)) == s
  {
    hide Packed, BitAt;
    var w := Unpack(s);
    forall j | 0 <= j < 8 ensures Pack(w)[j] == s[j] {
      PackedBits(s[j], w[8 * j..8 * j + 8]);
    }
  }

  lemma BitOfPacked(b: Bits, k: nat)
    requires |b| == 8 && k < 8
    ensures BitAt(Packed(b, 8), k) == b[k]
  {
    hide Byte, BitAt;
    PackedIs(b);
    BitsOfByte(b[0], b[1], b[2], b[3], b[4], b[5], b[6], b[7]);
  }

  lemma UnpackPack(w: Word)
    ensures Unpack(Pack(w)) == w
  {
    hide Packed, BitAt;
    forall i | 0 <= i < 64 ensures Unpack(Pack(w))[i] == w[i] {
      BitOfPacked(w[8 * (i / 8)..8 * (i / 8) + 8], i % 8);
    }
  }

  method PermuteInitial(src: array<bool>, dst: array<bool>)
    requires src.Length == dst.Length == 64 && src != dst
    modifies dst
    ensures dst[..] == Initial(src[..])
  {
    hide Ip;
    for i := 0 to 64
      invariant forall k :: 0 <= k < i ==> dst[k] == src[Ip(k) - 1]
    {
      dst[i] := src[Ip(i) - 1];
    }
  }

  method PermuteFinal(src: array<bool>, dst: array<bool>)
    requires src.Length == dst.Length == 64 && src != dst
    modifies dst
    ensures dst[..] == Final(src[..])
  {
    hide IpInv;
    for i := 0 to 64
      invariant forall k :: 0 <= k < i ==> dst[k] == src[IpInv(k) - 1]
    {
      dst[i] := src[IpInv(i) - 1];
    }
  }

  method Copy(src: array<bool>, dst: array<bool>)
    requires src.Length == dst.Length && src != dst
    modifies dst
    ensures dst[..] == src[..]
  {
    for i := 0 to src.Length
      invariant forall k :: 0 <= k < i ==> dst[k] == src[k]
    {
      dst[i] := src[i];
    }
  }

  method SplitInto(src: array<bool>, a: array<bool>, b: array<bool>)
    requires src.Length == 64 && a.Length == b.Length == 32 && a != b && a != src && b != src
    modifies a, b
    ensures Halves(a[..], b[..]) == Split(src[..])
  {
    for i := 0 to 32
      invariant forall k :: 0 <= k < i ==> a[k] == src[k] && b[k] == src[k + 32]
    {
      a[i], b[i] := src[i], src[i + 32];
    }
  }

  method Join(a: array<bool>, b: array<bool>, dst: array<bool>)
    requires dst.Length == 64 && a.Length == b.Length == 32 && a != dst && b != dst
    modifies dst
    ensures dst[..] == a[..] + b[..]
  {
    for i := 0 to 32
      invariant forall k :: 0 <= k < i ==> dst[k] == a[k] && dst[k + 32] == b[k]
    {
      dst[i], dst[i + 32] := a[i], b[i];
    }
  }

  /** Expansion, key addition, S-boxes and permutation. */
  method RoundFunction(half: array<bool>, key: SubKey) returns (f: Half)
    requires half.Length == 32
    ensures f == F(half[..], key)
  {
    hide E, P, Substitute, BitOf;
    var b, s, g := new bool[48], new bool[32], new bool[32];
    for j := 0 to 48
      invariant forall k :: 0 <= k < j ==> b[k] == (half[E(k) - 1] != key[k])
    {
      b[j] := half[E(j) - 1] != key[j];
    }
    ghost var x := Xor(Expand(half[..]), key);
    assert b[..] == x;
    for j := 0 to 8
      invariant b[..] == x
      invariant forall k :: 0 <= k < 4 * j ==> s[k] == BitOf(Substitute(x, k / 4), k % 4)
    {
      assert (4 * j + 1) / 4 == j && (4 * j + 1) % 4 == 1 && (4 * j + 2) % 4 == 2 && (4 * j + 3) % 4 == 3;
      var element := Substitute(b[..], j);
      s[4 * j], s[4 * j + 1] := BitOf(element, 0), BitOf(element, 1);
      s[4 * j + 2], s[4 * j + 3] := BitOf(element, 2), BitOf(element, 3);
    }
    assert s[..] == Substituted(x);
    for j := 0 to 32
      invariant s[..] == Substituted(x) && forall k :: 0 <= k < j ==> g[k] == s[P(k) - 1]
    {
      g[j] := s[P(j) - 1];
    }
    assert g[..] == Permuted(s[..]);
    f := g[..];
  }

  /** The last loop of a round: the first half takes over the second, which takes the sum. */
  method Exchange(a: array<bool>, b: array<bool>, f: Half)
    requires a.Length == b.Length == 32 && a != b
    modifies a, b
    ensures a[..] == old(b[..]) && b[..] == Xor(old(a[..]), f)
  {
    for j := 0 to 32
      invariant forall k :: 0 <= k < j ==> a[k] == old(b[k]) && b[k] == (old(a[k]) != f[k])
      invariant forall k :: j <= k < 32 ==> a[k] == old(a[k]) && b[k] == old(b[k])
    {
      var temp := b[j];
      b[j] := a[j] != f[j];
      a[j] := temp;
    }
  }

  /** The program's global arrays. */
  class Coder {
    const pt: array<bool>
    const et: array<bool>
    const perm: array<bool>
    const pre: array<bool>
    const l: array<bool>
    const r: array<bool>
    const keys: seq<Keys>

    constructor (keys: seq<Keys>)
      requires |keys| == 3
      ensures Valid() && this.keys == keys && fresh(Repr())
    {
      pt, et, perm, pre := new bool[64], new bool[64], new bool[64], new bool[64];
      l, r := new bool[32], new bool[32];
      this.keys := keys;
    }

    ghost function Repr(): set<object> {
      {pt, et, perm, pre, l, r}
    }

    predicate Valid() {
      && |keys| == 3 && pt.Length == et.Length == perm.Length == pre.Length == 64 && l.Length == r.Length == 32
      && pt != et && pt != perm && pt != pre && et != perm && et != pre && perm != pre && l != r
    }

    /** des_encrypt, stages counted from 0 */
    method DesEncrypt(stage: nat)
      requires Valid() && stage < 3
      modifies et, perm, pre, l, r
      ensures et[..] == Encipher(F, old(pt[..]), keys[stage])
    {
      hide F, Initial, Final, Split;
      ghost var w, ks := pt[..], keys[stage];
      Copy(pt, et);
      PermuteInitial(et, perm);
      SplitInto(perm, l, r);
      ghost var h := Split(Initial(w));
      for i := 0 to 16
        invariant Halves(l[..], r[..]) == Rounds(F, h, ks, i)
      {
        var f := RoundFunction(r, keys[stage][i]);
        Exchange(l, r, f);
      }
      Join(r, l, pre);
      PermuteFinal(pre, et);
    }

    /** des_decrypt */
    method DesDecrypt(stage: nat)
      requires Valid() && stage < 3
      modifies pt, perm, pre, l, r
      ensures pt[..] == Decipher(F, old(et[..]), keys[stage])
    {
      hide F, Initial, Final, Split;
      ghost var w, ks := et[..], keys[stage];
      Copy(et, pt);
      PermuteInitial(pt, perm);
      SplitInto(perm, r, l);
      ghost var s := Split(Initial(w));
      ghost var h := Halves(s.r, s.l);
      var i := 16;
      while i > 0
        invariant 0 <= i <= 16 && Halves(l[..], r[..]) == Unrounds(F, h, ks, i)
      {
        var f := RoundFunction(l, keys[stage][i - 1]);
        Exchange(r, l, f);
        i := i - 1;
      }
      Join(l, r, pre);
      PermuteFinal(pre, pt);
    }

    /** The three stages on one block, its bits in `pt` before and in `et` after. */
    method EncryptBlock(block: seq<bv8>)
      requires Valid() && |block| == 8
      modifies Repr()
      ensures et[..] == TripleEncrypt(F, Unpack(block), keys[0], keys[1], keys[2])
    {
      hide F, Unpack;
      LoadBits(block, pt);
      DesEncrypt(0);
      DesDecrypt(1);
      DesEncrypt(2);
    }

    method DecryptBlock(block: seq<bv8>)
      requires Valid() && |block| == 8
      modifies Repr()
      ensures pt[..] == TripleDecrypt(F, Unpack(block), keys[0], keys[1], keys[2])
    {
      hide F, Unpack;
      LoadBits(block, et);
      DesDecrypt(2);
      DesEncrypt(1);
      DesDecrypt(0);
    }

    /** tdes_encrypt. The input buffer has room for the zeros that fill up its last block; the output may be the same
        buffer. */
    method TdesEncrypt(n: nat, input: array<bv8>, output: array<bv8>)
      requires Valid() && input !in Repr() && output !in Repr()
      requires Rounded(n) <= input.Length && Rounded(n) <= output.Length
      modifies Repr(), input, output
      ensures input != output ==> input[..] == Padded(old(input[..]), n)
      ensures output[..] == CodeBlocks(true, keys, Padded(old(input[..]), n)[..Rounded(n)]) + old(output[Rounded(n)..])
    {
      hide F, TripleEncrypt, Pack, Unpack, Padded, CodeBlocks, SoFar, InRange;
      ghost var padded := Padded(input[..], n);
      PaddedTail(input[..], n);
      FillUp(input, n);
      var cnt := if n % 8 != 0 then 8 * (n / 8) + 8 else n;
      RoundedIs(n);
      assert cnt == Rounded(n);
      hide Rounded;
      ghost var was := output[..];
      var i := 0;
      Begun(true, keys, padded, was);
      while i < cnt
        invariant InRange(i, cnt) && |padded| == input.Length && |was| == output.Length
        invariant SoFar(true, keys, padded, was, input[..], output[..], i) && (input != output ==> input[..] == padded)
      {
        ghost var input1, output1 := input[..], output[..];
        NextFits(i, cnt);
        EncryptBlock(input[i..i + 8]);
        StoreBytes(et[..], output, i);
        Continued(true, keys, padded, was, input1, output1, i, input[..], output[..]);
        i := i + 8;
      }
      NextFits(i, cnt);
      Finished(true, keys, padded, was, input[..], output[..], i);
    }

    /** tdes_decrypt */
    method TdesDecrypt(n: nat, input: array<bv8>, output: array<bv8>)
      requires Valid() && input !in Repr() && output !in Repr()
      requires Rounded(n) <= input.Length && Rounded(n) <= output.Length
      modifies Repr(), output
      ensures output[..] == CodeBlocks(false, keys, old(input[..Rounded(n)])) + old(output[Rounded(n)..])
    {
      hide F, TripleDecrypt, Pack, Unpack, CodeBlocks, SoFar, InRange;
      var cnt := if n % 8 != 0 then 8 * (n / 8) + 8 else n;
      RoundedIs(n);
      assert cnt == Rounded(n);
      hide Rounded;
      ghost var c, was := input[..], output[..];
      var i := 0;
      Begun(false, keys, c, was);
      while i < cnt
        invariant InRange(i, cnt) && |c| == input.Length && |was| == output.Length
        invariant SoFar(false, keys, c, was, input[..], output[..], i)
      {
        ghost var input1, output1 := input[..], output[..];
        NextFits(i, cnt);
        DecryptBlock(input[i..i + 8]);
        StoreBytes(pt[..], output, i);
        Continued(false, keys, c, was, input1, output1, i, input[..], output[..]);
        i := i + 8;
      }
      NextFits(i, cnt);
      Finished(false, keys, c, was, input[..], output[..], i);
    }
  }

  /** The first `i` bytes are done; the rest of both buffers is as it was. */
  ghost predicate SoFar(enc: bool, keys: seq<Keys>, source: seq<bv8>, was: seq<bv8>, input: seq<bv8>, output: seq<bv8>,
                        i: nat) {
    && |keys| == 3 && i <= |source| == |input| && i <= |was| == |output| && i % 8 == 0
    && input[i..] == source[i..] && output == CodeBlocks(enc, keys, source[..i]) + was[i..]
  }

  lemma Begun(enc: bool, keys: seq<Keys>, source: seq<bv8>, was: seq<bv8>)
    requires |keys| == 3
    ensures SoFar(enc, keys, source, was, source, was, 0)
  {
  }

  lemma Finished(enc: bool, keys: seq<Keys>, source: seq<bv8>, was: seq<bv8>, input: seq<bv8>, output: seq<bv8>, i: nat)
    requires SoFar(enc, keys, source, was, input, output, i)
    ensures |keys| == 3 && i <= |source| && i <= |was| && i % 8 == 0
    ensures output == CodeBlocks(enc, keys, source[..i]) + was[i..]
  {
  }

  lemma Continued(enc: bool, keys: seq<Keys>, source: seq<bv8>, was: seq<bv8>, input: seq<bv8>, output: seq<bv8>,
                  i: nat,
                  input': seq<bv8>, output': seq<bv8>)
    requires SoFar(enc, keys, source, was, input, output, i) && i + 8 <= |input| && i + 8 <= |output|
    requires output' == output[..i] + Pack(Triple(enc, Unpack(input[i..i + 8]), keys)) + output[i + 8..]
    requires input' == input || (input == output && input' == output')
    ensures SoFar(enc, keys, source, was, input', output', i + 8)
  {
    hide F, Triple, Pack, Unpack;
    var t, b := source[..i + 8], Pack(Triple(enc, Unpack(input[i..i + 8]), keys));
    assert t[..|t| - 8] == source[..i] && t[|t| - 8..] == source[i..][..8] == input[i..][..8] == input[i..i + 8];
    assert output[i + 8..] == was[i..][8..] == was[i + 8..];
    assert input[i + 8..] == source[i..][8..] == source[i + 8..];
    assert output'[i + 8..] == output[i + 8..];
  }

  /** The first loop of tdes_encrypt. */
  method FillUp(input: array<bv8>, n: nat)
    requires Rounded(n) <= input.Length
    modifies input
    ensures input[..] == Padded(old(input[..]), n)
  {
    RoundedIs(n);
    var end := if n % 8 != 0 then 8 * (n / 8) + 8 else n;
    assert end == Rounded(n);
    hide Rounded;
    var cnt := n;
    while cnt < end
      invariant n <= cnt <= end
      invariant forall k :: 0 <= k < input.Length ==> input[k] == if n <= k < cnt then 0 else old(input[k])
    {
      input[cnt] := 0;
      cnt := cnt + 1;
    }
    assert input[..] == old(input[..n]) + Zeros(cnt - n) + old(input[cnt..]);
  }

  function Rounded(n: nat): nat {
    (n + 7) / 8 * 8
  }

  function Zeros(n: nat): (z: seq<bv8>)
    ensures |z| == n
  {
    seq(n, _ => 0)
  }

  /** The buffer with its last block filled up. */
  function Padded(s: seq<bv8>, n: nat): (r: seq<bv8>)
    requires Rounded(n) <= |s|
    ensures |r| == |s|
  {
    s[..n] + Zeros(Rounded(n) - n) + s[Rounded(n)..]
  }

  lemma RoundedIs(n: nat)
    ensures n <= Rounded(n) == if n % 8 != 0 then 8 * (n / 8) + 8 else n
    ensures InRange(0, Rounded(n))
  {
  }

  /** A block boundary of a buffer of whole blocks. */
  predicate InRange(i: int, cnt: nat) {
    0 <= i <= cnt && i % 8 == 0 && cnt % 8 == 0
  }

  lemma NextFits(i: int, cnt: nat)
    requires InRange(i, cnt)
    ensures 0 <= i <= cnt && i % 8 == 0
    ensures i < cnt ==> i + 8 <= cnt && InRange(i + 8, cnt)
  {
  }

  lemma PaddedTail(s: seq<bv8>, n: nat)
    requires Rounded(n) <= |s|
    ensures Padded(s, n)[Rounded(n)..] == s[Rounded(n)..]
    ensures Padded(s, n)[..Rounded(n)] == s[..n] + Zeros(Rounded(n) - n)
  {
  }

  function Triple(enc: bool, w: Word, keys: seq<Keys>): Word
    requires |keys| == 3
  {
    if enc then TripleEncrypt(F, w, keys[0], keys[1], keys[2]) else TripleDecrypt(F, w, keys[0], keys[1], keys[2])
  }

  /** Every block encrypted, or every block decrypted. */
  function CodeBlocks(enc: bool, keys: seq<Keys>, s: seq<bv8>): (c: seq<bv8>)
    requires |keys| == 3 && |s| % 8 == 0
    ensures |c| == |s|
    decreases |s|
  {
    if s == [] then []
    else CodeBlocks(enc, keys, s[..|s| - 8]) + Pack(Triple(enc, Unpack(s[|s| - 8..]), keys))
  }

  /** For every key triple and every message of whole blocks, in both directions. */
  lemma {:induction false} BlocksInverse(enc: bool, keys: seq<Keys>, s: seq<bv8>)
    requires |keys| == 3 && |s| % 8 == 0
    ensures CodeBlocks(!enc, keys, CodeBlocks(enc, keys, s)) == s
    decreases |s|
  {
    hide F, TripleEncrypt, TripleDecrypt, Pack, Unpack;
    if s != [] {
      var m, b := s[..|s| - 8], s[|s| - 8..];
      var w := Triple(enc, Unpack(b), keys);
      var c := CodeBlocks(enc, keys, m) + Pack(w);
      assert c[..|c| - 8] == CodeBlocks(enc, keys, m) && c[|c| - 8..] == Pack(w);
      BlocksInverse(enc, keys, m);
      UnpackPack(w);
      TripleInverse(F, Unpack(b), keys[0], keys[1], keys[2]);
      PackUnpack(b);
    }
  }

  /** A message of any length comes back with its last block filled up with zeros. */
  lemma MessageInverse(keys: seq<Keys>, s: seq<bv8>, n: nat)
    requires |keys| == 3 && Rounded(n) <= |s|
    ensures CodeBlocks(false, keys, CodeBlocks(true, keys, Padded(s, n)[..Rounded(n)])) ==
            s[..n] + Zeros(Rounded(n) - n)
  {
    hide CodeBlocks;
    PaddedTail(s, n);
    BlocksInverse(true, keys, Padded(s, n)[..Rounded(n)]);
  }

  /** The bits of a block. */
  method LoadBits(s: seq<bv8>, dst: array<bool>)
    requires |s| == 8 && dst.Length == 64
    modifies dst
    ensures dst[..] == Unpack(s)
  {
    hide BitAt;
    for j := 0 to 8
      invariant forall n :: 0 <= n < 8 * j ==> dst[n] == BitAt(s[n / 8], n % 8)
    {
      for k := 0 to 8
        invariant forall n :: 0 <= n < 8 * j + k ==> dst[n] == BitAt(s[n / 8], n % 8)
      {
        assert (8 * j + k) / 8 == j && (8 * j + k) % 8 == k;
        dst[8 * j + k] := BitAt(s[j], k);
      }
    }
  }

  /** The bytes of a block, built bit by bit. */
  method StoreBytes(w: Word, buf: array<bv8>, i: nat)
    requires i + 8 <= buf.Length
    modifies buf
    ensures buf[..] == old(buf[..i]) + Pack(w) + old(buf[i + 8..])
  {
    hide SetBit;
    for j := 0 to 8
      invariant forall n :: 0 <= n < j ==> buf[i..][n] == Packed(w[8 * n..8 * n + 8], 8)
      invariant forall n :: 0 <= n < buf.Length && !(i <= n < i + j) ==> buf[n] == old(buf[n])
    {
      var x: bv8 := 0;
      ghost var bits := w[8 * j..8 * j + 8];
      for k := 0 to 8
        invariant x == Packed(bits, k)
      {
        assert bits[k] == w[8 * j + k];
        x := SetBit(x, w[8 * j + k], k);
      }
      buf[i + j] := x;
    }
    assert buf[i..i + 8] == Pack(w);
    assert buf[..] == buf[..i] + buf[i..i + 8] + buf[i + 8..];
  }
}
