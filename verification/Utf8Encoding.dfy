/** The encoding of section 2 of RFC 2279, the inverse of the reader. */
module Utf8Encoding {
  import opened Utf8

  type codepoint = x: int | 0 < x < 0x8000_0000 witness 1

  /** Octets section 2 of RFC 2279 gives a code point. */
  function EncodedLength(c: codepoint): (n: nat)
    ensures 1 <= n <= 6
  {
    if c < 0x80 then 1
    else if c < 0x800 then 2
    else if c < 0x1_0000 then 3
    else if c < 0x20_0000 then 4
    else if c < 0x400_0000 then 5
    else 6
  }

  /** A lead octet with an empty payload: `n` 1 bits and then 0 bits. */
  function LeadBase(n: nat): byte
    requires 2 <= n <= 6
  {
    256 - 2 * LeadRange(n)
  }

  /** Section 2 of RFC 2279: a lead octet with the high bits, and then six bits
      in each further octet. */
  function Encode(c: codepoint): (s: seq<byte>)
    ensures |s| == EncodedLength(c)
  {
    var n := EncodedLength(c);
    if n == 1 then [c]
    else
      HighFits(c);
      [LeadBase(n) + High(c, n - 1)] + Tail(c, n - 1)
  }

  /** The `k` continuation octets that carry the low `6 * k` bits of `c`. */
  function Tail(c: nat, k: nat): (s: seq<byte>)
    ensures |s| == k
    ensures forall i :: 0 <= i < k ==> IsContinuation(s[i])
  {
    if k == 0 then [] else Tail(c / 64, k - 1) + [0x80 + c % 64]
  }

  /** `c` without its low `6 * k` bits. */
  function High(c: nat, k: nat): nat {
    if k == 0 then c else High(c / 64, k - 1)
  }

  lemma {:induction false} FoldAppend(value: int, s: seq<byte>, b: byte)
    ensures Fold(value, s + [b]) == 64 * Fold(value, s) + b % 64
    decreases |s|
  {
    if s == [] {
      assert Fold(value, s + [b]) == Fold(64 * value + b % 64, (s + [b])[1..]);
    } else {
      assert (s + [b])[1..] == s[1..] + [b];
      FoldAppend(64 * value + s[0] % 64, s[1..], b);
    }
  }

  /** The continuation octets give back the bits they carry. */
  lemma {:induction false} FoldTail(c: nat, k: nat)
    ensures Fold(High(c, k), Tail(c, k)) == c
  {
    if k > 0 {
      FoldTail(c / 64, k - 1);
      FoldAppend(High(c, k), Tail(c / 64, k - 1), 0x80 + c % 64);
    }
  }

  lemma {:induction false} HighFits(c: codepoint)
    ensures EncodedLength(c) > 1 ==> High(c, EncodedLength(c) - 1) < LeadRange(EncodedLength(c))
  {
    var c1 := c / 64;
    var c2 := c1 / 64;
    var c3 := c2 / 64;
    var c4 := c3 / 64;
    assert High(c, 2) == High(c1, 1) == c2;
    assert High(c, 3) == High(c1, 2) == High(c2, 1) == c3;
    assert High(c, 4) == High(c1, 3) == High(c2, 2) == High(c3, 1) == c4;
    assert High(c, 5) == High(c1, 4) == High(c2, 3) == High(c3, 2) == High(c4, 1) == c4 / 64;
  }

  lemma {:induction false} LeadOctet(n: nat, h: nat)
    requires 2 <= n <= 6
    requires h < LeadRange(n)
    ensures LeadBase(n) + h < 256
    ensures LeadingOnes(LeadBase(n) + h) == n
    ensures (LeadBase(n) + h) % LeadRange(n) == h
  {
  }

  /** Every code point is read back from its encoding, whatever follows it, and
      exactly the octets of the encoding are consumed. */
  lemma {:induction false} DecodeEncode(c: codepoint, rest: seq<byte>)
    ensures Width(Encode(c) + rest) == |Encode(c)|
    ensures Decode(Encode(c) + rest) == c
  {
    var n := EncodedLength(c);
    var s := Encode(c) + rest;
    if n > 1 {
      HighFits(c);
      LeadOctet(n, High(c, n - 1));
      assert s[1..n] == Tail(c, n - 1);
      assert forall i :: 1 <= i < n ==> s[i] == Tail(c, n - 1)[i - 1];
      assert StartsSequence(s, n);
      FoldTail(c, n - 1);
    }
  }

  function EncodeAll(cs: seq<codepoint>): (s: seq<byte>)
    ensures s == [] <==> cs == []
  {
    if cs == [] then [] else Encode(cs[0]) + EncodeAll(cs[1..])
  }

  /** Reading a text one character at a time. */
  function DecodeAll(s: seq<byte>): seq<int> {
    if s == [] then [] else [Decode(s)] + DecodeAll(s[Width(s)..])
  }

  /** Repeated decoding recovers every sequence of code points. */
  lemma {:induction false} DecodeAllEncodeAll(cs: seq<codepoint>)
    ensures DecodeAll(EncodeAll(cs)) == cs
  {
    if cs != [] {
      var rest := EncodeAll(cs[1..]);
      DecodeEncode(cs[0], rest);
      assert EncodeAll(cs)[|Encode(cs[0])|..] == rest;
      DecodeAllEncodeAll(cs[1..]);
    }
  }

  // ----- what is a sequence

  /** The lead octets of section 2 of RFC 2279, by the length of their sequence. */
  predicate Leads(b: byte, n: nat) {
    || (n == 2 && 0xC0 <= b <= 0xDF)
    || (n == 3 && 0xE0 <= b <= 0xEF)
    || (n == 4 && 0xF0 <= b <= 0xF7)
    || (n == 5 && 0xF8 <= b <= 0xFB)
    || (n == 6 && 0xFC <= b <= 0xFD)
  }

  /** A character is wider than one octet exactly if its lead octet says so and all the
      continuation octets are there; everything else counts as a single octet that stands
      for itself. */
  lemma {:induction false} WidthExactly(s: seq<byte>, n: nat)
    requires s != [] && n > 1
    ensures Width(s) == n <==> n <= |s| && Leads(s[0], n) && forall i :: 1 <= i < n ==> 0x80 <= s[i] <= 0xBF
    ensures Width(s) == 1 ==> Decode(s) == s[0]
  {
  }
}
