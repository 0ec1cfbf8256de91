/** The Internet checksum (RFC 1071) over packet headers. */
module Checksum {
  import opened Bytes

  const ETHER_HEADER_LEN := 14
  const IP_CHKSUM_POS := 24
  const IP_SRC_POS := 26
  const IP_DES_POS := 30
  const IP_HEADER_LEN := 20
  const IP_ADDRESS_LEN := 4

  /** A 16-bit word as the processor loads it. */
  function WordOf(b0: byte, b1: byte): nat {
    b0 as nat + 256 * b1 as nat
  }

  /** The sum of the words; an odd byte counts as the low byte of one more word. */
  function Sum(s: seq<byte>): nat {
    if |s| == 0 then 0
    else if |s| == 1 then s[0] as nat
    else WordOf(s[0], s[1]) + Sum(s[2..])
  }

  /** The two lines that add the carries back, and the complement. */
  function Fold(sum: nat): nat {
    var once := sum / 0x10000 + sum % 0x10000;
    (once + once / 0x10000) % 0x10000
  }

  function Answer(sum: nat): nat {
    0xffff - Fold(sum)
  }

  lemma {:induction false} SumBound(s: seq<byte>)
    ensures Sum(s) <= 0xffff * ((|s| + 1) / 2)
  {
    if |s| >= 2 { SumBound(s[2..]); }
  }

  /** Two folds suffice: they leave the ones' complement sum. */
  lemma FoldIs(sum: nat)
    requires sum < 0x8000_0000
    ensures Fold(sum) <= 0xffff && Fold(sum) % 0xffff == sum % 0xffff && (Fold(sum) == 0 <==> sum == 0)
  {
    var h, l := sum / 0x10000, sum % 0x10000;
    var once := h + l;
    assert sum == 0xffff * h + once;
    if once >= 0x10000 {
      assert once / 0x10000 == 1;
      assert Fold(sum) == once - 0xffff;
      assert sum == 0xffff * (h + 1) + Fold(sum);
    } else {
      assert Fold(sum) == once;
    }
  }

  lemma ComplementFolds(sum: nat, f: nat)
    requires f <= 0xffff && f % 0xffff == sum % 0xffff
    ensures (sum + (0xffff - f)) % 0xffff == 0
  {
  }

  /** Together with the sum the checksum is a multiple of 0xffff; it is all ones only for no bits at all. */
  lemma AnswerIs(sum: nat)
    requires sum < 0x8000_0000
    ensures 0 <= Answer(sum) <= 0xffff && (Answer(sum) + sum) % 0xffff == 0
    ensures Answer(sum) == 0xffff <==> sum == 0
  {
    hide Fold;
    FoldIs(sum);
    ComplementFolds(sum, Fold(sum));
  }

  /** in_chksum. Up to 65536 bytes the sum fits the 32-bit signed integer that holds it. */
  method InChksum(buf: array<byte>, at: nat, len: nat) returns (answer: nat)
    requires at + len <= buf.Length && len <= 0x10000
    ensures answer == Answer(Sum(buf[at..at + len])) && answer <= 0xffff
    ensures (answer + Sum(buf[at..at + len])) % 0xffff == 0
    ensures answer == 0xffff <==> Sum(buf[at..at + len]) == 0
  {
    var sum, w, nleft := 0, at, len;
    ghost var s := buf[at..at + len];
    SumBound(s);
    while nleft > 1
      invariant 0 <= nleft && w + nleft == at + len && at <= w
      invariant sum + Sum(buf[w..at + len]) == Sum(s)
    {
      assert buf[w..at + len][2..] == buf[w + 2..at + len];
      sum := sum + WordOf(buf[w], buf[w + 1]);
      w, nleft := w + 2, nleft - 2;
    }
    if nleft == 1 { sum := sum + buf[w] as nat; }
    assert sum == Sum(s) < 0x8000_0000;
    sum := sum / 0x10000 + sum % 0x10000;
    sum := sum + sum / 0x10000;
    answer := 0xffff - sum % 0x10000;
    AnswerIs(Sum(s));
  }

  /** The bytes with the word at `p` replaced. */
  function Put(s: seq<byte>, p: nat, b0: byte, b1: byte): seq<byte>
    requires p + 2 <= |s|
  {
    s[p := b0][p + 1 := b1]
  }

  lemma {:induction false} SumPut(s: seq<byte>, p: nat, b0: byte, b1: byte)
    requires p % 2 == 0 && p + 2 <= |s|
    ensures Sum(Put(s, p, b0, b1)) == Sum(s) - WordOf(s[p], s[p + 1]) + WordOf(b0, b1)
    ensures WordOf(s[p], s[p + 1]) <= Sum(s)
  {
    var t := Put(s, p, b0, b1);
    if p == 0 {
      assert t[2..] == s[2..];
    } else {
      SumPut(s[2..], p - 2, b0, b1);
      assert t[2..] == Put(s[2..], p - 2, b0, b1);
    }
  }

  function Low(x: nat): byte {
    (x % 256) as byte
  }

  function High(x: nat): byte {
    (x / 256 % 256) as byte
  }

  lemma LowHigh(c: nat)
    requires c <= 0xffff
    ensures WordOf(Low(c), High(c)) == c
  {
  }

  /** Numbers up to 0xffff that agree modulo 0xffff, none of them zero. */
  lemma SameResidue(x: nat, y: nat)
    requires x <= 0xffff && y <= 0xffff && x % 0xffff == y % 0xffff && (x == 0 <==> y == 0)
    ensures x == y
  {
  }

  lemma PutTwice(s: seq<byte>, p: nat, b0: byte, b1: byte)
    requires p + 2 <= |s|
    ensures |Put(s, p, 0, 0)| == |s| && Put(Put(s, p, 0, 0), p, b0, b1) == Put(s, p, b0, b1)
    ensures WordOf(Put(s, p, 0, 0)[p], Put(s, p, 0, 0)[p + 1]) == 0
    ensures |Put(s, p, b0, b1)| == |s|
  {
  }

  /** The receiver's test of RFC 1071: the ones' complement sum of all words is all ones. */
  ghost predicate Checks(s: seq<byte>) {
    Sum(s) > 0 && Sum(s) % 0xffff == 0
  }

  /** Filling the zeroed checksum field with the checksum makes the whole check, and its own checksum zero; no other
      word does, except that all ones and all zeros are the same where not all other bits are zero. */
  lemma FilledChecks(s: seq<byte>, p: nat)
    requires p % 2 == 0 && p + 2 <= |s| <= 0x10000
    ensures var c := Answer(Sum(Put(s, p, 0, 0)));
            && 0 <= c <= 0xffff && Checks(Put(s, p, Low(c), High(c))) && Answer(Sum(Put(s, p, Low(c), High(c)))) == 0
            && forall w: nat :: w <= 0xffff && Checks(Put(s, p, Low(w), High(w))) ==> w == c || {w, c} == {0, 0xffff}
  {
    hide Fold, Sum, Low, High, WordOf, Put, Answer;
    var z := Put(s, p, 0, 0);
    PutTwice(s, p, 0, 0);
    SumBound(z);
    AnswerIs(Sum(z));
    var c := Answer(Sum(z));
    FilledSum(s, p, c);
    AnswerOfMultiple(Sum(z) + c);
    forall w: nat | w <= 0xffff && Checks(Put(s, p, Low(w), High(w))) ensures w == c || {w, c} == {0, 0xffff} {
      FilledSum(s, p, w);
      SameComplement(Sum(z), w, c);
    }
  }

  lemma FilledSum(s: seq<byte>, p: nat, c: nat)
    requires p % 2 == 0 && p + 2 <= |s| <= 0x10000 && c <= 0xffff
    ensures Sum(Put(s, p, Low(c), High(c))) == Sum(Put(s, p, 0, 0)) + c < 0x8000_0000
  {
    hide Sum, Low, High, WordOf, Put;
    PutTwice(s, p, 0, 0);
    LowHigh(c);
    PutTwice(s, p, Low(c), High(c));
    SumPut(Put(s, p, 0, 0), p, Low(c), High(c));
    SumBound(Put(s, p, Low(c), High(c)));
  }

  lemma AnswerOfMultiple(total: nat)
    requires 0 < total < 0x8000_0000 && total % 0xffff == 0
    ensures Answer(total) == 0
  {
    FoldIs(total);
    hide Fold;
    SameResidue(Fold(total), 0xffff);
  }

  lemma SameComplement(sum: nat, w: nat, c: nat)
    requires w <= 0xffff && c <= 0xffff && (sum + w) % 0xffff == 0 && (c + sum) % 0xffff == 0
    ensures w == c || {w, c} == {0, 0xffff}
  {
    var a, b := (sum + w) / 0xffff, (sum + c) / 0xffff;
    assert w - c == 0xffff * (a - b);
  }

  lemma {:induction false} SumAppend(s: seq<byte>, t: seq<byte>)
    requires |s| % 2 == 0
    ensures Sum(s + t) == Sum(s) + Sum(t)
  {
    if |s| == 0 {
      assert s + t == t;
    } else {
      assert (s + t)[2..] == s[2..] + t;
      SumAppend(s[2..], t);
    }
  }

  /** The packet with its IP addresses exchanged. */
  function Swapped(s: seq<byte>): (r: seq<byte>)
    requires IP_DES_POS + IP_ADDRESS_LEN <= |s|
    ensures |r| == |s|
  {
    s[..IP_SRC_POS] + s[IP_DES_POS..IP_DES_POS + IP_ADDRESS_LEN]
    + s[IP_SRC_POS..IP_DES_POS] + s[IP_DES_POS + IP_ADDRESS_LEN..]
  }

  function Header(s: seq<byte>): (h: seq<byte>)
    requires ETHER_HEADER_LEN + IP_HEADER_LEN <= |s|
    ensures |h| == IP_HEADER_LEN
  {
    s[ETHER_HEADER_LEN..ETHER_HEADER_LEN + IP_HEADER_LEN]
  }

  /** Exchanging the addresses does not change the checksum. */
  lemma SwapKeepsSum(s: seq<byte>)
    requires ETHER_HEADER_LEN + IP_HEADER_LEN <= |s|
    ensures Sum(Header(Swapped(s))) == Sum(Header(s))
  {
    hide Sum;
    var h, src := s[ETHER_HEADER_LEN..IP_SRC_POS], s[IP_SRC_POS..IP_DES_POS];
    var dst := s[IP_DES_POS..IP_DES_POS + IP_ADDRESS_LEN];
    assert Header(s) == h + (src + dst);
    assert Header(Swapped(s)) == h + (dst + src);
    SumAppend(h, src + dst);
    SumAppend(h, dst + src);
    SumAppend(src, dst);
    SumAppend(dst, src);
  }

  /** memcpy within the packet */
  method CopyFour(pkt: array<byte>, from: nat, to: nat)
    requires from + 4 <= pkt.Length && to + 4 <= pkt.Length && (from + 4 <= to || to + 4 <= from)
    modifies pkt
    ensures pkt[..] == old(pkt[..to]) + old(pkt[from..from + 4]) + old(pkt[to + 4..])
  {
    for i := 0 to 4
      invariant forall k :: 0 <= k < pkt.Length ==>
                  pkt[k] == if to <= k < to + i then old(pkt[k - to + from]) else old(pkt[k])
    {
      pkt[to + i] := pkt[from + i];
    }
  }

  /** swap_ip_header */
  method SwapIpHeader(pkt: array<byte>)
    requires ETHER_HEADER_LEN + IP_HEADER_LEN <= pkt.Length
    modifies pkt
    ensures pkt[..] == Swapped(old(pkt[..]))
    ensures Sum(Header(pkt[..])) == Sum(Header(old(pkt[..])))
  {
    hide Sum;
    SwapKeepsSum(pkt[..]);
    var tmp := pkt[IP_SRC_POS..IP_SRC_POS + IP_ADDRESS_LEN];
    CopyFour(pkt, IP_DES_POS, IP_SRC_POS);
    ghost var mid := pkt[..];
    for i := 0 to IP_ADDRESS_LEN
      invariant forall k :: 0 <= k < pkt.Length ==>
                  pkt[k] == if IP_DES_POS <= k < IP_DES_POS + i then tmp[k - IP_DES_POS] else mid[k]
    {
      pkt[IP_DES_POS + i] := tmp[i];
    }
    assert pkt[..] == Swapped(old(pkt[..]));
  }

  /** recalculate_ip_chksum: afterwards the header checks. */
  method RecalculateIpChksum(pkt: array<byte>)
    requires ETHER_HEADER_LEN + IP_HEADER_LEN <= pkt.Length
    modifies pkt
    ensures Checks(Header(pkt[..])) && Answer(Sum(Header(pkt[..]))) == 0
    ensures forall k :: 0 <= k < pkt.Length && !(IP_CHKSUM_POS <= k < IP_CHKSUM_POS + 2) ==> pkt[k] == old(pkt[k])
  {
    hide Sum, Answer, Low, High, Checks;
    ghost var h, p := Header(pkt[..]), IP_CHKSUM_POS - ETHER_HEADER_LEN;
    pkt[IP_CHKSUM_POS], pkt[IP_CHKSUM_POS + 1] := 0, 0;
    assert Header(pkt[..]) == Put(h, p, 0, 0);
    var c := InChksum(pkt, ETHER_HEADER_LEN, IP_HEADER_LEN);
    pkt[IP_CHKSUM_POS], pkt[IP_CHKSUM_POS + 1] := Low(c), High(c);
    assert Header(pkt[..]) == Put(h, p, Low(c), High(c));
    FilledChecks(h, p);
  }

  /** A word with its bytes exchanged. */
  function SwapWord(x: nat): nat {
    x % 256 * 256 + x / 256
  }

  /** Every word as a processor of the other byte order loads it. */
  function SwapBytes(s: seq<byte>): (r: seq<byte>)
    requires |s| % 2 == 0
    ensures |r| == |s|
  {
    if |s| == 0 then [] else [s[1], s[0]] + SwapBytes(s[2..])
  }

  lemma {:induction false} Multiples(a: nat, q: nat)
    ensures (a + 0xffff * q) % 0xffff == a % 0xffff
  {
    if q > 0 { Multiples(a, q - 1); }
  }

  lemma WordTurns(b0: byte, b1: byte, x: nat, y: nat)
    requires x % 0xffff == (256 * y) % 0xffff
    ensures (WordOf(b1, b0) + x) % 0xffff == (256 * (WordOf(b0, b1) + y)) % 0xffff
  {
    assert 256 * (WordOf(b0, b1) + y) == WordOf(b1, b0) + 256 * y + 0xffff * b1 as nat;
    Multiples(WordOf(b1, b0) + 256 * y, b1 as nat);
    AddResidue(WordOf(b1, b0), x, 256 * y);
  }

  lemma AddResidue(w: nat, x: nat, y: nat)
    requires x % 0xffff == y % 0xffff
    ensures (w + x) % 0xffff == (w + y) % 0xffff
  {
    Multiples(w + x % 0xffff, x / 0xffff);
    Multiples(w + y % 0xffff, y / 0xffff);
    assert x == x % 0xffff + 0xffff * (x / 0xffff) && y == y % 0xffff + 0xffff * (y / 0xffff);
  }

  lemma {:induction false} SwappedSum(s: seq<byte>)
    requires |s| % 2 == 0
    ensures Sum(SwapBytes(s)) % 0xffff == (256 * Sum(s)) % 0xffff
    ensures Sum(SwapBytes(s)) == 0 <==> Sum(s) == 0
  {
    if |s| > 0 {
      SwappedSum(s[2..]);
      assert SwapBytes(s)[2..] == SwapBytes(s[2..]);
      WordTurns(s[0], s[1], Sum(SwapBytes(s[2..])), Sum(s[2..]));
    }
  }

  lemma SwapWordIs(f: nat)
    requires f <= 0xffff
    ensures SwapWord(f) <= 0xffff && SwapWord(f) % 0xffff == (256 * f) % 0xffff && (SwapWord(f) == 0 <==> f == 0)
    ensures SwapWord(0xffff - f) == 0xffff - SwapWord(f)
  {
    assert 256 * f == SwapWord(f) + 0xffff * (f / 256);
    Multiples(SwapWord(f), f / 256);
  }

  lemma TimesResidue(x: nat, y: nat)
    requires x % 0xffff == y % 0xffff
    ensures (256 * x) % 0xffff == (256 * y) % 0xffff
  {
    Multiples(256 * (x % 0xffff), 256 * (x / 0xffff));
    Multiples(256 * (y % 0xffff), 256 * (y / 0xffff));
    assert 256 * x == 256 * (x % 0xffff) + 0xffff * (256 * (x / 0xffff));
    assert 256 * y == 256 * (y % 0xffff) + 0xffff * (256 * (y / 0xffff));
  }

  /** The byte order of the processor does not matter: loading every word the other way round exchanges the bytes of
      the checksum, which are stored the other way round too. */
  lemma ByteOrderIndependent(s: seq<byte>)
    requires |s| % 2 == 0 && |s| <= 0x10000
    ensures Fold(Sum(s)) <= 0xffff && Answer(Sum(SwapBytes(s))) == SwapWord(Answer(Sum(s)))
  {
    hide Sum, Fold, SwapWord, SwapBytes;
    var t := SwapBytes(s);
    SumBound(s);
    SumBound(t);
    FoldIs(Sum(s));
    FoldIs(Sum(t));
    SwappedSum(s);
    SwapWordIs(Fold(Sum(s)));
    TimesResidue(Sum(s), Fold(Sum(s)));
    SameResidue(Fold(Sum(t)), SwapWord(Fold(Sum(s))));
  }

  lemma SumFrom(s: seq<byte>, k: nat)
    requires k + 2 <= |s|
    ensures Sum(s[k..]) == WordOf(s[k], s[k + 1]) + Sum(s[k + 2..])
  {
    assert s[k..][2..] == s[k + 2..];
  }

  lemma SumNone(s: seq<byte>)
    requires s == []
    ensures Sum(s) == 0
  {
  }

  /** Five words. */
  lemma SumFive(s: seq<byte>)
    requires |s| == 10
    ensures Sum(s) == WordOf(s[0], s[1]) + WordOf(s[2], s[3]) + WordOf(s[4], s[5])
                      + WordOf(s[6], s[7]) + WordOf(s[8], s[9])
  {
    hide Sum, WordOf;
    assert s[0..] == s;
    SumFrom(s, 0);
    SumFrom(s, 2);
    SumFrom(s, 4);
    SumFrom(s, 6);
    SumFrom(s, 8);
    SumNone(s[10..]);
  }

  /** A header with its checksum field empty, and the checksum as it is written to the field: b8 61. */
  lemma KnownHeader(first: seq<byte>, second: seq<byte>)
    requires first == [0x45, 0x00, 0x00, 0x73, 0x00, 0x00, 0x40, 0x00, 0x40, 0x11]
    requires second == [0x00, 0x00, 0xc0, 0xa8, 0x00, 0x01, 0xc0, 0xa8, 0x00, 0xc7]
    ensures var c := Answer(Sum(first + second)); 0 <= c && Low(c) == 0xb8 && High(c) == 0x61
  {
    hide Sum;
    SumAppend(first, second);
    SumFive(first);
    SumFive(second);
    assert Sum(first + second) == 0x29e45;
  }
}
