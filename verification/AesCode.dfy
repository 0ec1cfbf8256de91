/** AES on byte buffers, in place, and cipher block chaining over them. */
module AesCode {
  import opened Aes
  import opened AesCipher

  /** The block at `at`. */
  function Get(s: seq<bv8>, at: nat): Block
    requires at + 16 <= |s|
  {
    s[at..at + 16]
  }

  /** The bytes with the block at `at` replaced. */
  function Put(s: seq<bv8>, at: nat, b: Block): (r: seq<bv8>)
    requires at + 16 <= |s|
    ensures |r| == |s| && Get(r, at) == b
  {
    var r := s[..at] + b + s[at + 16..];
    assert r[at..at + 16] == b;
    r
  }

  lemma PutIs(s: seq<bv8>, r: seq<bv8>, at: nat, b: Block)
    requires at + 16 <= |s| && |r| == |s|
    requires forall k :: at <= k < at + 16 ==> r[k] == b[k - at]
    requires forall k :: 0 <= k < |s| && !(at <= k < at + 16) ==> r[k] == s[k]
    ensures r == Put(s, at, b)
  {
    var t := Put(s, at, b);
    assert |t| == |s|;
    assert forall k :: 0 <= k < |s| ==> r[k] == t[k];
  }

  lemma PutPut(s: seq<bv8>, at: nat, b: Block, c: Block)
    requires at + 16 <= |s|
    ensures Put(Put(s, at, b), at, c) == Put(s, at, c)
  {
  }

  lemma ShiftedBlock(b: Block, t: Block)
    requires t[0] == b[0] && t[1] == b[5] && t[2] == b[10] && t[3] == b[15]
    requires t[4] == b[4] && t[5] == b[9] && t[6] == b[14] && t[7] == b[3]
    requires t[8] == b[8] && t[9] == b[13] && t[10] == b[2] && t[11] == b[7]
    requires t[12] == b[12] && t[13] == b[1] && t[14] == b[6] && t[15] == b[11]
    ensures t == ShiftRows(b)
  {
    var u := ShiftRows(b);
    assert u[0] == b[0] && u[1] == b[5] && u[2] == b[10] && u[3] == b[15];
    assert u[4] == b[4] && u[5] == b[9] && u[6] == b[14] && u[7] == b[3];
    assert u[8] == b[8] && u[9] == b[13] && u[10] == b[2] && u[11] == b[7];
    assert u[12] == b[12] && u[13] == b[1] && u[14] == b[6] && u[15] == b[11];
  }

  lemma Shifted(s: seq<bv8>, r: seq<bv8>, at: nat)
    requires at + 16 <= |s| == |r|
    requires forall k :: 0 <= k < |s| && !(at <= k < at + 16) ==> r[k] == s[k]
    requires r[at + 0] == s[at + 0] && r[at + 1] == s[at + 5] && r[at + 2] == s[at + 10] && r[at + 3] == s[at + 15]
    requires r[at + 4] == s[at + 4] && r[at + 5] == s[at + 9] && r[at + 6] == s[at + 14] && r[at + 7] == s[at + 3]
    requires r[at + 8] == s[at + 8] && r[at + 9] == s[at + 13] && r[at + 10] == s[at + 2] && r[at + 11] == s[at + 7]
    requires r[at + 12] == s[at + 12] && r[at + 13] == s[at + 1] && r[at + 14] == s[at + 6] && r[at + 15] == s[at + 11]
    ensures r == Put(s, at, ShiftRows(Get(s, at)))
  {
    hide ShiftRows;
    var b, t := Get(s, at), Get(r, at);
    ShiftedBlock(b, t);
    PutIs(s, r, at, t);
  }

  lemma UnshiftedBlock(b: Block, t: Block)
    requires t[0] == b[0] && t[1] == b[13] && t[2] == b[10] && t[3] == b[7]
    requires t[4] == b[4] && t[5] == b[1] && t[6] == b[14] && t[7] == b[11]
    requires t[8] == b[8] && t[9] == b[5] && t[10] == b[2] && t[11] == b[15]
    requires t[12] == b[12] && t[13] == b[9] && t[14] == b[6] && t[15] == b[3]
    ensures t == InvShiftRows(b)
  {
    var u := InvShiftRows(b);
    assert u[0] == b[0] && u[1] == b[13] && u[2] == b[10] && u[3] == b[7];
    assert u[4] == b[4] && u[5] == b[1] && u[6] == b[14] && u[7] == b[11];
    assert u[8] == b[8] && u[9] == b[5] && u[10] == b[2] && u[11] == b[15];
    assert u[12] == b[12] && u[13] == b[9] && u[14] == b[6] && u[15] == b[3];
  }

  lemma Unshifted(s: seq<bv8>, r: seq<bv8>, at: nat)
    requires at + 16 <= |s| == |r|
    requires forall k :: 0 <= k < |s| && !(at <= k < at + 16) ==> r[k] == s[k]
    requires r[at + 0] == s[at + 0] && r[at + 1] == s[at + 13] && r[at + 2] == s[at + 10] && r[at + 3] == s[at + 7]
    requires r[at + 4] == s[at + 4] && r[at + 5] == s[at + 1] && r[at + 6] == s[at + 14] && r[at + 7] == s[at + 11]
    requires r[at + 8] == s[at + 8] && r[at + 9] == s[at + 5] && r[at + 10] == s[at + 2] && r[at + 11] == s[at + 15]
    requires r[at + 12] == s[at + 12] && r[at + 13] == s[at + 9] && r[at + 14] == s[at + 6] && r[at + 15] == s[at + 3]
    ensures r == Put(s, at, InvShiftRows(Get(s, at)))
  {
    hide InvShiftRows;
    var b, t := Get(s, at), Get(r, at);
    UnshiftedBlock(b, t);
    PutIs(s, r, at, t);
  }

  /** The round keys and the pointer to the initial vector: the file's static variables. */
  class Cipherer {
    const roundKey: array<bv8>
    var iv: array<bv8>
    var ivAt: nat

    constructor (iv: array<bv8>)
      requires iv.Length == 16
      ensures fresh(roundKey) && roundKey.Length == ROUND_KEY_BYTES && this.iv == iv && ivAt == 0
    {
      roundKey := new bv8[ROUND_KEY_BYTES](_ => 0);
      this.iv, ivAt := iv, 0;
    }

    ghost predicate Valid()
      reads this
    {
      roundKey.Length == ROUND_KEY_BYTES
    }

    ghost function Keys(): Schedule
      reads this, roundKey
      requires Valid()
    {
      roundKey[..]
    }

    method AddRoundKey(buf: array<bv8>, at: nat, round: nat)
      requires Valid() && at + 16 <= buf.Length && round <= NR && buf != roundKey
      modifies buf
      ensures buf[..] == Put(old(buf[..]), at, AddKey(Get(old(buf[..]), at), KeyOf(Keys(), round)))
    {
      ghost var was, key := buf[..], KeyOf(Keys(), round);
      assert forall k :: 0 <= k < 16 ==> key[k] == roundKey[16 * round + k];
      hide KeyOf;
      for i := 0 to 16
        invariant forall k :: at <= k < at + i ==> buf[k] == was[k] ^ key[k - at]
        invariant forall k :: 0 <= k < buf.Length && !(at <= k < at + i) ==> buf[k] == was[k]
      {
        assert key[i] == roundKey[16 * round + i];
        buf[at + i] := buf[at + i] ^ roundKey[16 * round + i];
      }
      PutIs(was, buf[..], at, AddKey(Get(was, at), key));
    }

    method SubBytesAt(buf: array<bv8>, at: nat)
      requires at + 16 <= buf.Length
      modifies buf
      ensures buf[..] == Put(old(buf[..]), at, SubBytes(Get(old(buf[..]), at)))
    {
      hide Sbox;
      ghost var was := buf[..];
      for i := 0 to 16
        invariant forall k :: at <= k < at + i ==> buf[k] == Sbox(was[k])
        invariant forall k :: 0 <= k < buf.Length && !(at <= k < at + i) ==> buf[k] == was[k]
      {
        buf[at + i] := Sbox(buf[at + i]);
      }
      PutIs(was, buf[..], at, SubBytes(Get(was, at)));
    }

    method InvSubBytesAt(buf: array<bv8>, at: nat)
      requires at + 16 <= buf.Length
      modifies buf
      ensures buf[..] == Put(old(buf[..]), at, InvSubBytes(Get(old(buf[..]), at)))
    {
      hide Rsbox;
      ghost var was := buf[..];
      for i := 0 to 16
        invariant forall k :: at <= k < at + i ==> buf[k] == Rsbox(was[k])
        invariant forall k :: 0 <= k < buf.Length && !(at <= k < at + i) ==> buf[k] == was[k]
      {
        buf[at + i] := Rsbox(buf[at + i]);
      }
      PutIs(was, buf[..], at, InvSubBytes(Get(was, at)));
    }

    /** Rotates the four bytes of row `r`, one place towards the front or the back. */
    method RotateLeft(buf: array<bv8>, at: nat, r: nat)
      requires at + 16 <= buf.Length && r < 4
      modifies buf
      ensures buf[..] == old(buf[..])[at + r := old(buf[at + 4 + r])][at + 4 + r := old(buf[at + 8 + r])]
                                     [at + 8 + r := old(buf[at + 12 + r])][at + 12 + r := old(buf[at + r])]
    {
      var temp := buf[at + r];
      buf[at + r] := buf[at + 4 + r];
      buf[at + 4 + r] := buf[at + 8 + r];
      buf[at + 8 + r] := buf[at + 12 + r];
      buf[at + 12 + r] := temp;
    }

    method RotateRight(buf: array<bv8>, at: nat, r: nat)
      requires at + 16 <= buf.Length && r < 4
      modifies buf
      ensures buf[..] == old(buf[..])[at + 12 + r := old(buf[at + 8 + r])][at + 8 + r := old(buf[at + 4 + r])]
                                     [at + 4 + r := old(buf[at + r])][at + r := old(buf[at + 12 + r])]
    {
      var temp := buf[at + 12 + r];
      buf[at + 12 + r] := buf[at + 8 + r];
      buf[at + 8 + r] := buf[at + 4 + r];
      buf[at + 4 + r] := buf[at + r];
      buf[at + r] := temp;
    }

    method SwapHalves(buf: array<bv8>, at: nat)
      requires at + 16 <= buf.Length
      modifies buf
      ensures buf[..] == old(buf[..])[at + 2 := old(buf[at + 10])][at + 10 := old(buf[at + 2])]
                                     [at + 6 := old(buf[at + 14])][at + 14 := old(buf[at + 6])]
    {
      var temp := buf[at + 2];
      buf[at + 2] := buf[at + 10];
      buf[at + 10] := temp;
      temp := buf[at + 6];
      buf[at + 6] := buf[at + 14];
      buf[at + 14] := temp;
    }

    /** ShiftRows: row 1 to the left, row 2 by two, row 3 three places to the left, which is one to the right. */
    method ShiftRowsAt(buf: array<bv8>, at: nat)
      requires at + 16 <= buf.Length
      modifies buf
      ensures buf[..] == Put(old(buf[..]), at, ShiftRows(Get(old(buf[..]), at)))
    {
      RotateLeft(buf, at, 1);
      SwapHalves(buf, at);
      RotateRight(buf, at, 3);
      Shifted(old(buf[..]), buf[..], at);
    }

    method InvShiftRowsAt(buf: array<bv8>, at: nat)
      requires at + 16 <= buf.Length
      modifies buf
      ensures buf[..] == Put(old(buf[..]), at, InvShiftRows(Get(old(buf[..]), at)))
    {
      RotateRight(buf, at, 1);
      SwapHalves(buf, at);
      RotateLeft(buf, at, 3);
      Unshifted(old(buf[..]), buf[..], at);
    }

    /** One column of MixColumns, with the temporaries of the C code. */
    method MixColumnAt(buf: array<bv8>, at: nat)
      requires at + 4 <= buf.Length
      modifies buf
      ensures Column(buf[at], buf[at + 1], buf[at + 2], buf[at + 3]) ==
              MixColumn(Column(old(buf[at]), old(buf[at + 1]), old(buf[at + 2]), old(buf[at + 3])))
      ensures forall k :: 0 <= k < buf.Length && !(at <= k < at + 4) ==> buf[k] == old(buf[k])
    {
      hide Xtime, Xor;
      var t := buf[at];
      var tmp := Xor(Xor(Xor(buf[at], buf[at + 1]), buf[at + 2]), buf[at + 3]);
      var tm := Xtime(Xor(buf[at], buf[at + 1]));
      buf[at] := Xor(buf[at], Xor(tm, tmp));
      tm := Xtime(Xor(buf[at + 1], buf[at + 2]));
      buf[at + 1] := Xor(buf[at + 1], Xor(tm, tmp));
      tm := Xtime(Xor(buf[at + 2], buf[at + 3]));
      buf[at + 2] := Xor(buf[at + 2], Xor(tm, tmp));
      tm := Xtime(Xor(buf[at + 3], t));
      buf[at + 3] := Xor(buf[at + 3], Xor(tm, tmp));
    }

    method InvMixColumnAt(buf: array<bv8>, at: nat)
      requires at + 4 <= buf.Length
      modifies buf
      ensures Column(buf[at], buf[at + 1], buf[at + 2], buf[at + 3]) ==
              InvMixColumn(Column(old(buf[at]), old(buf[at + 1]), old(buf[at + 2]), old(buf[at + 3])))
      ensures forall k :: 0 <= k < buf.Length && !(at <= k < at + 4) ==> buf[k] == old(buf[k])
    {
      hide Multiply, Xor;
      var a, b, c, d := buf[at], buf[at + 1], buf[at + 2], buf[at + 3];
      buf[at] := Four(Multiply(a, 0x0e), Multiply(b, 0x0b), Multiply(c, 0x0d), Multiply(d, 0x09));
      buf[at + 1] := Four(Multiply(a, 0x09), Multiply(b, 0x0e), Multiply(c, 0x0b), Multiply(d, 0x0d));
      buf[at + 2] := Four(Multiply(a, 0x0d), Multiply(b, 0x09), Multiply(c, 0x0e), Multiply(d, 0x0b));
      buf[at + 3] := Four(Multiply(a, 0x0b), Multiply(b, 0x0d), Multiply(c, 0x09), Multiply(d, 0x0e));
    }

    method MixColumnsAt(buf: array<bv8>, at: nat)
      requires at + 16 <= buf.Length
      modifies buf
      ensures buf[..] == Put(old(buf[..]), at, MixColumns(Get(old(buf[..]), at)))
    {
      hide MixColumn;
      ghost var was := buf[..];
      for i := 0 to 4
        invariant forall j :: 0 <= j < i ==> ColumnAt(buf[..], at + 4 * j) == MixColumn(ColumnAt(was, at + 4 * j))
        invariant forall k :: 0 <= k < buf.Length && !(at <= k < at + 4 * i) ==> buf[k] == was[k]
      {
        MixColumnAt(buf, at + 4 * i);
      }
      MixedIs(was, buf[..], at);
    }

    method InvMixColumnsAt(buf: array<bv8>, at: nat)
      requires at + 16 <= buf.Length
      modifies buf
      ensures buf[..] == Put(old(buf[..]), at, InvMixColumns(Get(old(buf[..]), at)))
    {
      hide InvMixColumn;
      ghost var was := buf[..];
      for i := 0 to 4
        invariant forall j :: 0 <= j < i ==> ColumnAt(buf[..], at + 4 * j) == InvMixColumn(ColumnAt(was, at + 4 * j))
        invariant forall k :: 0 <= k < buf.Length && !(at <= k < at + 4 * i) ==> buf[k] == was[k]
      {
        InvMixColumnAt(buf, at + 4 * i);
      }
      InvMixedIs(was, buf[..], at);
    }

    /** The block at `at` of the buffer, encrypted in place. */
    method CipherAt(buf: array<bv8>, at: nat)
      requires Valid() && at + 16 <= buf.Length && buf != roundKey
      modifies buf
      ensures buf[..] == Put(old(buf[..]), at, Cipher(Get(old(buf[..]), at), Keys()))
    {
      hide Put, AddKey, SubBytes, ShiftRows, MixColumns, KeyOf;
      ghost var was, rk := buf[..], Keys();
      ghost var b := Get(was, at);
      AddRoundKey(buf, at, 0);
      for round := 1 to NR
        invariant Keys() == rk && buf[..] == Put(was, at, Rounds(b, rk, round - 1))
      {
        ghost var s := Rounds(b, rk, round - 1);
        SubBytesAt(buf, at);
        PutPut(was, at, s, SubBytes(s));
        ShiftRowsAt(buf, at);
        PutPut(was, at, SubBytes(s), ShiftRows(SubBytes(s)));
        MixColumnsAt(buf, at);
        PutPut(was, at, ShiftRows(SubBytes(s)), MixColumns(ShiftRows(SubBytes(s))));
        AddRoundKey(buf, at, round);
        PutPut(was, at, MixColumns(ShiftRows(SubBytes(s))), Rounds(b, rk, round));
      }
      ghost var s := Rounds(b, rk, NR - 1);
      SubBytesAt(buf, at);
      PutPut(was, at, s, SubBytes(s));
      ShiftRowsAt(buf, at);
      PutPut(was, at, SubBytes(s), ShiftRows(SubBytes(s)));
      AddRoundKey(buf, at, NR);
      PutPut(was, at, ShiftRows(SubBytes(s)), Cipher(b, rk));
    }

    method InvCipherAt(buf: array<bv8>, at: nat)
      requires Valid() && at + 16 <= buf.Length && buf != roundKey
      modifies buf
      ensures buf[..] == Put(old(buf[..]), at, InvCipher(Get(old(buf[..]), at), Keys()))
    {
      hide Put, AddKey, InvSubBytes, InvShiftRows, InvMixColumns, KeyOf;
      ghost var was, rk := buf[..], Keys();
      ghost var b := Get(was, at);
      AddRoundKey(buf, at, NR);
      var round := NR - 1;
      while round > 0
        invariant 0 <= round < NR && Keys() == rk && buf[..] == Put(was, at, InvRounds(b, rk, round + 1))
      {
        ghost var s := InvRounds(b, rk, round + 1);
        InvShiftRowsAt(buf, at);
        PutPut(was, at, s, InvShiftRows(s));
        InvSubBytesAt(buf, at);
        PutPut(was, at, InvShiftRows(s), InvSubBytes(InvShiftRows(s)));
        AddRoundKey(buf, at, round);
        ghost var t := AddKey(InvSubBytes(InvShiftRows(s)), KeyOf(rk, round));
        PutPut(was, at, InvSubBytes(InvShiftRows(s)), t);
        InvMixColumnsAt(buf, at);
        PutPut(was, at, t, InvRounds(b, rk, round));
        round := round - 1;
      }
      ghost var s := InvRounds(b, rk, 1);
      InvShiftRowsAt(buf, at);
      PutPut(was, at, s, InvShiftRows(s));
      InvSubBytesAt(buf, at);
      PutPut(was, at, InvShiftRows(s), InvSubBytes(InvShiftRows(s)));
      AddRoundKey(buf, at, 0);
      PutPut(was, at, InvSubBytes(InvShiftRows(s)), InvCipher(b, rk));
    }

    method StoreWord(i: nat, w: seq<bv8>)
      requires Valid() && i < 4 * (NR + 1) && |w| == 4
      modifies roundKey
      ensures roundKey[..4 * (i + 1)] == old(roundKey[..4 * i]) + w
    {
      roundKey[4 * i], roundKey[4 * i + 1] := w[0], w[1];
      roundKey[4 * i + 2], roundKey[4 * i + 3] := w[2], w[3];
    }

    /** KeyExpansion, section 5.2 of FIPS 197 */
    method KeyExpansion(key: array<bv8>)
      requires Valid() && key.Length == 16 && key != roundKey
      modifies roundKey
      ensures Keys() == Expand(key[..])
    {
      hide XorWords, AddRcon, SubWord, RotWord;
      var i := 0;
      while i < NK
        invariant i <= NK && roundKey[..4 * i] == Words(key[..], i)
      {
        assert key[4 * i..4 * i + 4] == Word(key[..], i);
        StoreWord(i, key[4 * i..4 * i + 4]);
        i := i + 1;
      }
      while i < 4 * (NR + 1)
        invariant NK <= i <= 4 * (NR + 1) && roundKey[..4 * i] == Words(key[..], i)
      {
        NextWord(key[..], i);
        hide Word, WordAt;
        var temp := WordAt(roundKey[..4 * i], i - 1);
        if i % NK == 0 { temp := AddRcon(SubWord(RotWord(temp)), RCON[i / NK]); }
        StoreWord(i, XorWords(WordAt(roundKey[..4 * i], i - NK), temp));
        i := i + 1;
      }
      assert roundKey[..] == roundKey[..4 * i];
    }

    method XorWithIv(buf: array<bv8>, at: nat)
      requires ivAt + 16 <= iv.Length && at + 16 <= buf.Length && (iv != buf || ivAt + 16 <= at)
      modifies buf
      ensures buf[..] == Put(old(buf[..]), at, AddKey(Get(old(buf[..]), at), Get(old(iv[..]), ivAt)))
    {
      ghost var was, key := buf[..], Get(iv[..], ivAt);
      for i := 0 to 16
        invariant forall k :: at <= k < at + i ==> buf[k] == was[k] ^ key[k - at]
        invariant forall k :: 0 <= k < buf.Length && !(at <= k < at + i) ==> buf[k] == was[k]
        invariant Get(iv[..], ivAt) == key
      {
        assert key[i] == iv[ivAt + i];
        buf[at + i] := buf[at + i] ^ iv[ivAt + i];
      }
      PutIs(was, buf[..], at, AddKey(Get(was, at), key));
    }

    /** Key expansion, unless the caller relies on the one before, and the initial vector, unless the last block of the
        previous call is to go on. */
    method Start(key: array?<bv8>, ivp: array?<bv8>)
      requires Valid() && (key != null ==> key.Length == 16 && key != roundKey)
      requires if ivp != null then ivp.Length >= 16 && ivp != roundKey else ivAt + 16 <= iv.Length && iv != roundKey
      modifies this, roundKey
      ensures Valid() && Keys() == if key != null then Expand(old(key[..])) else old(Keys())
      ensures if ivp != null then iv == ivp && ivAt == 0 else iv == old(iv) && ivAt == old(ivAt)
    {
      if key != null { KeyExpansion(key); }
      if ivp != null { iv, ivAt := ivp, 0; }
    }

    /** The initial vector of a call. */
    ghost function First(ivp: array?<bv8>): Block
      reads this, ivp, iv
      requires if ivp != null then ivp.Length >= 16 else ivAt + 16 <= iv.Length
    {
      if ivp != null then Get(ivp[..], 0) else Get(iv[..], ivAt)
    }

    /** AES_CBC_encrypt_buffer */
    method Encrypt(output: array<bv8>, length: nat, key: array?<bv8>, ivp: array?<bv8>)
      requires Valid() && length % 16 == 0 && length <= output.Length && output != roundKey
      requires key != null ==> key.Length == 16 && key != roundKey
      requires if ivp != null then ivp.Length >= 16 && ivp != roundKey && ivp != output
               else ivAt + 16 <= iv.Length && iv != roundKey && iv != output
      modifies this, roundKey, output
      ensures Valid() && Keys() == if key != null then Expand(old(key[..])) else old(Keys())
      ensures Encrypted(Keys(), old(First(ivp)), old(output[..]), output[..], length)
      ensures length > 0 ==> iv == output && ivAt == length - 16
    {
      hide Put, Get, Encrypted, Decrypted, Chain, Cipher, InvCipher, AddKey, Expand, Blocks;
      ghost var first, was := First(ivp), output[..];
      Start(key, ivp);
      ghost var rk := Keys();
      var i := 0;
      EncryptedNone(rk, first, was);
      while i < length
        invariant i % 16 == 0 && 0 <= i <= length && Valid() && Keys() == rk && |was| == output.Length
        invariant if i == 0 then iv != output && ivAt + 16 <= iv.Length && Get(iv[..], ivAt) == first
                  else iv == output && ivAt == i - 16
        invariant Encrypted(rk, first, was, output[..], i)
      {
        ghost var mid := output[..];
        ghost var chain := Get(iv[..], ivAt);
        ChainAt(first, mid, i);
        XorWithIv(output, i);
        CipherAt(output, i);
        PutPut(mid, i, AddKey(Get(mid, i), chain), Cipher(AddKey(Get(mid, i), chain), rk));
        EncryptedNext(rk, first, was, mid, i);
        iv, ivAt := output, i;
        i := i + 16;
      }
    }

    /** AES_CBC_decrypt_buffer */
    method Decrypt(output: array<bv8>, input: array<bv8>, length: nat, key: array?<bv8>, ivp: array?<bv8>)
      requires Valid() && length % 16 == 0 && length <= output.Length && length <= input.Length
      requires output != roundKey && input != roundKey
      requires key != null ==> key.Length == 16 && key != roundKey
      requires if ivp != null then ivp.Length >= 16 && ivp != roundKey && ivp != output
               else ivAt + 16 <= iv.Length && iv != roundKey && iv != output
      modifies this, roundKey, output
      ensures Valid() && Keys() == if key != null then Expand(old(key[..])) else old(Keys())
      ensures if output != input then Decrypted(Keys(), old(First(ivp)), input[..], old(output[..]), output[..], length)
              else SelfDecrypted(Keys(), old(First(ivp)), old(output[..]), output[..], length)
      ensures length > 0 ==> iv == input && ivAt == length - 16
    {
      hide Put, Get, Encrypted, Decrypted, Chain, Cipher, InvCipher, AddKey, Expand, Blocks;
      ghost var first, was := First(ivp), output[..];
      Start(key, ivp);
      ghost var rk := Keys();
      var i := 0;
      DecryptedNone(rk, first, input[..], was);
      while i < length
        invariant i % 16 == 0 && 0 <= i <= length && Valid() && Keys() == rk && |was| == output.Length
        invariant if i == 0 then iv != output && ivAt + 16 <= iv.Length && Get(iv[..], ivAt) == first
                  else iv == input && ivAt == i - 16
        invariant output != input ==> Decrypted(rk, first, input[..], was, output[..], i)
        invariant output == input ==> SelfDecrypted(rk, first, was, output[..], i)
      {
        ghost var mid := output[..];
        ChainAt(first, input[..], i);
        DecryptBlock(output, input, i);
        if output != input {
          DecryptedNext(rk, first, input[..], was, mid, i);
        } else {
          SelfDecryptedNext(rk, first, was, mid, i);
        }
        iv, ivAt := input, i;
        i := i + 16;
      }
    }

    /** AES_CBC_decrypt_buffer, for one block */
    method DecryptBlock(output: array<bv8>, input: array<bv8>, i: nat)
      requires Valid() && i + 16 <= output.Length && i + 16 <= input.Length && output != roundKey
      requires ivAt + 16 <= iv.Length && (iv != output || ivAt + 16 <= i)
      modifies output
      ensures Valid() && Keys() == old(Keys())
      ensures output[..] ==
              Put(old(output[..]), i, AddKey(InvCipher(Get(old(input[..]), i), Keys()), Get(old(iv[..]), ivAt)))
    {
      hide Put, Get, Cipher, InvCipher, AddKey, Expand;
      ghost var mid, chain, c, rk := output[..], Get(iv[..], ivAt), Get(input[..], i), Keys();
      CopyBlock(output, input, i);
      if ivAt + 16 <= i { PutElsewhere(mid, i, c, ivAt); }
      InvCipherAt(output, i);
      PutPut(mid, i, c, InvCipher(c, rk));
      if ivAt + 16 <= i { PutElsewhere(mid, i, InvCipher(c, rk), ivAt); }
      XorWithIv(output, i);
      PutPut(mid, i, InvCipher(c, rk), AddKey(InvCipher(c, rk), chain));
    }

    /** memcpy */
    method CopyBlock(output: array<bv8>, input: array<bv8>, at: nat)
      requires at + 16 <= output.Length && at + 16 <= input.Length
      modifies output
      ensures output[..] == Put(old(output[..]), at, Get(old(input[..]), at))
    {
      ghost var was, from := output[..], input[..];
      for i := 0 to 16
        invariant input[..] == from || output == input
        invariant forall k :: at <= k < at + 16 ==> input[k] == from[k]
        invariant forall k :: at <= k < at + i ==> output[k] == from[k]
        invariant forall k :: 0 <= k < output.Length && !(at <= k < at + i) ==> output[k] == was[k]
      {
        output[at + i] := input[at + i];
      }
      PutIs(was, output[..], at, Get(from, at));
    }
  }

  /** What is encrypted under a key and an initial vector comes back when it is decrypted under the same. */
  method ThereAndBack(c: Cipherer, buf: array<bv8>, plain: array<bv8>, key: array<bv8>, iv: array<bv8>)
    requires c.Valid() && buf.Length % 16 == 0 && plain.Length == buf.Length && key.Length == 16 && iv.Length == 16
    requires buf != plain && buf != iv && buf != key && plain != iv && plain != key
    requires c.roundKey != buf && c.roundKey != plain && c.roundKey != key && c.roundKey != iv
    modifies c, c.roundKey, buf, plain
    ensures plain[..] == old(buf[..])
  {
    hide Encrypted, Decrypted, Expand, Get, Blocks;
    ghost var rk, first, was := Expand(key[..]), Get(iv[..], 0), buf[..];
    c.Encrypt(buf, buf.Length, key, iv);
    ghost var sent, before := buf[..], plain[..];
    assert Encrypted(rk, first, was, sent, |was|);
    c.Decrypt(plain, buf, buf.Length, key, iv);
    Returned(rk, first, was, sent, before, plain[..]);
  }

  lemma Returned(rk: Schedule, first: Block, was: seq<bv8>, sent: seq<bv8>, before: seq<bv8>, got: seq<bv8>)
    requires |was| == |before| && Encrypted(rk, first, was, sent, |was|)
    requires Decrypted(rk, first, sent, before, got, |was|)
    ensures got == was
  {
    hide CbcEncrypt, CbcDecrypt;
    assert was[..|was|] == was && sent[..|was|] == sent && got[..|was|] == got;
    CbcRoundTrip(rk, first, was);
  }

  /** The first `i` bytes of a buffer have been encrypted, the others are as before. */
  ghost predicate Encrypted(rk: Schedule, first: Block, was: seq<bv8>, now: seq<bv8>, i: nat) {
    && |now| == |was| && i <= |was| && Blocks(was[..i])
    && now[..i] == CbcEncrypt(rk, first, was[..i]) && now[i..] == was[i..]
  }

  ghost predicate Decrypted(rk: Schedule, first: Block, input: seq<bv8>, was: seq<bv8>, now: seq<bv8>, i: nat) {
    && |now| == |was| && i <= |was| && i <= |input| && Blocks(input[..i])
    && now[..i] == CbcDecrypt(rk, first, input[..i]) && now[i..] == was[i..]
  }

  ghost predicate SelfDecrypted(rk: Schedule, first: Block, was: seq<bv8>, now: seq<bv8>, i: nat) {
    && |now| == |was| && i <= |was| && Blocks(was[..i])
    && now[..i] == SelfDecrypt(rk, first, was[..i]) && now[i..] == was[i..]
  }

  lemma SelfDecryptedNext(rk: Schedule, first: Block, was: seq<bv8>, mid: seq<bv8>, i: nat)
    requires i % 16 == 0 && i + 16 <= |was| && SelfDecrypted(rk, first, was, mid, i) && Blocks(mid[..i])
    ensures SelfDecrypted(rk, first, was,
                          Put(mid, i, AddKey(InvCipher(Get(mid, i), rk), Chain(first, mid[..i]))), i + 16)
  {
    hide InvCipher, AddKey, Chain;
    var p := AddKey(InvCipher(Get(mid, i), rk), Chain(first, mid[..i]));
    var c := was[..i + 16];
    assert Butlast(c) == was[..i];
    assert LastBlock(c) == was[i..][..16] == mid[i..][..16] == Get(mid, i);
    assert Put(mid, i, p)[..i + 16] == mid[..i] + p;
    assert Put(mid, i, p)[i + 16..] == mid[i + 16..] == mid[i..][16..] == was[i..][16..] == was[i + 16..];
  }

  lemma PutElsewhere(s: seq<bv8>, at: nat, b: Block, other: nat)
    requires at + 16 <= |s| && other + 16 <= at
    ensures Get(Put(s, at, b), other) == Get(s, other)
  {
  }

  lemma EncryptedNone(rk: Schedule, first: Block, was: seq<bv8>)
    ensures Encrypted(rk, first, was, was, 0)
  {
  }

  lemma DecryptedNone(rk: Schedule, first: Block, input: seq<bv8>, was: seq<bv8>)
    ensures Decrypted(rk, first, input, was, was, 0) && SelfDecrypted(rk, first, was, was, 0)
  {
  }

  lemma ChainAt(first: Block, s: seq<bv8>, i: nat)
    requires i <= |s| && i % 16 == 0
    ensures Blocks(s[..i]) && Chain(first, s[..i]) == if i == 0 then first else Get(s, i - 16)
  {
  }

  lemma EncryptedNext(rk: Schedule, first: Block, was: seq<bv8>, mid: seq<bv8>, i: nat)
    requires i % 16 == 0 && i + 16 <= |was| && Encrypted(rk, first, was, mid, i) && Blocks(mid[..i])
    ensures Encrypted(rk, first, was, Put(mid, i, Cipher(AddKey(Get(mid, i), Chain(first, mid[..i])), rk)), i + 16)
  {
    hide Cipher, AddKey, Chain;
    var c := Cipher(AddKey(Get(mid, i), Chain(first, mid[..i])), rk);
    var m := was[..i + 16];
    assert Butlast(m) == was[..i];
    assert LastBlock(m) == was[i..][..16] == mid[i..][..16] == Get(mid, i);
    assert Put(mid, i, c)[..i + 16] == mid[..i] + c;
    assert Put(mid, i, c)[i + 16..] == mid[i + 16..] == mid[i..][16..] == was[i..][16..] == was[i + 16..];
  }

  lemma DecryptedNext(rk: Schedule, first: Block, input: seq<bv8>, was: seq<bv8>, mid: seq<bv8>, i: nat)
    requires i % 16 == 0 && i + 16 <= |was| && i + 16 <= |input| && Decrypted(rk, first, input, was, mid, i)
    requires Blocks(input[..i])
    ensures Decrypted(rk, first, input, was,
                      Put(mid, i, AddKey(InvCipher(Get(input, i), rk), Chain(first, input[..i]))), i + 16)
  {
    hide InvCipher, AddKey, Chain;
    var p := AddKey(InvCipher(Get(input, i), rk), Chain(first, input[..i]));
    var c := input[..i + 16];
    assert Butlast(c) == input[..i];
    assert LastBlock(c) == Get(input, i);
    assert Put(mid, i, p)[..i + 16] == mid[..i] + p;
    assert Put(mid, i, p)[i + 16..] == mid[i + 16..] == mid[i..][16..] == was[i..][16..] == was[i + 16..];
  }

  function ColumnAt(s: seq<bv8>, at: nat): Column
    requires at + 4 <= |s|
  {
    Column(s[at], s[at + 1], s[at + 2], s[at + 3])
  }

  lemma MixedIs(s: seq<bv8>, r: seq<bv8>, at: nat)
    requires at + 16 <= |s| == |r|
    requires forall j :: 0 <= j < 4 ==> ColumnAt(r, at + 4 * j) == MixColumn(ColumnAt(s, at + 4 * j))
    requires forall k :: 0 <= k < |s| && !(at <= k < at + 16) ==> r[k] == s[k]
    ensures r == Put(s, at, MixColumns(Get(s, at)))
  {
    hide MixColumn, FromColumns;
    var b, t := Get(s, at), Get(r, at);
    forall j | 0 <= j < 4
      ensures ColumnOf(b, j) == ColumnAt(s, at + 4 * j) && ColumnOf(t, j) == ColumnAt(r, at + 4 * j)
    {
    }
    Columns(MixColumn(ColumnOf(b, 0)), MixColumn(ColumnOf(b, 1)), MixColumn(ColumnOf(b, 2)), MixColumn(ColumnOf(b, 3)));
    SameColumns(t, MixColumns(b));
    PutIs(s, r, at, t);
  }

  lemma InvMixedIs(s: seq<bv8>, r: seq<bv8>, at: nat)
    requires at + 16 <= |s| == |r|
    requires forall j :: 0 <= j < 4 ==> ColumnAt(r, at + 4 * j) == InvMixColumn(ColumnAt(s, at + 4 * j))
    requires forall k :: 0 <= k < |s| && !(at <= k < at + 16) ==> r[k] == s[k]
    ensures r == Put(s, at, InvMixColumns(Get(s, at)))
  {
    hide InvMixColumn, FromColumns;
    var b, t := Get(s, at), Get(r, at);
    forall j | 0 <= j < 4
      ensures ColumnOf(b, j) == ColumnAt(s, at + 4 * j) && ColumnOf(t, j) == ColumnAt(r, at + 4 * j)
    {
    }
    Columns(InvMixColumn(ColumnOf(b, 0)), InvMixColumn(ColumnOf(b, 1)), InvMixColumn(ColumnOf(b, 2)),
            InvMixColumn(ColumnOf(b, 3)));
    SameColumns(t, InvMixColumns(b));
    PutIs(s, r, at, t);
  }

  const RCON: seq<bv8> := [0x8d, 0x01, 0x02, 0x04, 0x08, 0x10, 0x20, 0x40, 0x80, 0x1b, 0x36]

  function RotWord(w: seq<bv8>): (r: seq<bv8>)
    requires |w| == 4
    ensures |r| == 4
  {
    [w[1], w[2], w[3], w[0]]
  }

  function SubWord(w: seq<bv8>): (r: seq<bv8>)
    requires |w| == 4
    ensures |r| == 4
  {
    [Sbox(w[0]), Sbox(w[1]), Sbox(w[2]), Sbox(w[3])]
  }

  function AddRcon(w: seq<bv8>, c: bv8): (r: seq<bv8>)
    requires |w| == 4
    ensures |r| == 4
  {
    [w[0] ^ c, w[1], w[2], w[3]]
  }

  function XorWords(v: seq<bv8>, w: seq<bv8>): (r: seq<bv8>)
    requires |v| == |w| == 4
    ensures |r| == 4
  {
    [v[0] ^ w[0], v[1] ^ w[1], v[2] ^ w[2], v[3] ^ w[3]]
  }

  /** Word `i` of the key schedule. */
  function Word(key: seq<bv8>, i: nat): (w: seq<bv8>)
    requires |key| == 16 && i < 4 * (NR + 1)
    ensures |w| == 4
  {
    if i < NK then key[4 * i..4 * i + 4]
    else
      var t := Word(key, i - 1);
      XorWords(Word(key, i - NK), if i % NK == 0 then AddRcon(SubWord(RotWord(t)), RCON[i / NK]) else t)
  }

  function Words(key: seq<bv8>, n: nat): (s: seq<bv8>)
    requires |key| == 16 && n <= 4 * (NR + 1)
    ensures |s| == 4 * n
  {
    if n == 0 then [] else Words(key, n - 1) + Word(key, n - 1)
  }

  function Expand(key: seq<bv8>): Schedule
    requires |key| == 16
  {
    Words(key, 4 * (NR + 1))
  }

  function WordAt(s: seq<bv8>, i: nat): (w: seq<bv8>)
    requires 4 * i + 4 <= |s|
    ensures |w| == 4
  {
    s[4 * i..4 * i + 4]
  }

  lemma NextWord(key: seq<bv8>, i: nat)
    requires |key| == 16 && NK <= i < 4 * (NR + 1)
    ensures var s := Words(key, i);
            var t := WordAt(s, i - 1);
            Word(key, i) ==
            XorWords(WordAt(s, i - NK), if i % NK == 0 then AddRcon(SubWord(RotWord(t)), RCON[i / NK]) else t)
  {
    hide XorWords, AddRcon, SubWord, RotWord;
    WordsAt(key, i, i - 1);
    WordsAt(key, i, i - NK);
  }

  lemma {:induction false} WordsAt(key: seq<bv8>, n: nat, i: nat)
    requires |key| == 16 && i < n <= 4 * (NR + 1)
    ensures WordAt(Words(key, n), i) == Word(key, i)
  {
    if i < n - 1 { WordsAt(key, n - 1, i); }
  }
}
