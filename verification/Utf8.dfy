/** The UTF-8 reader of the wildmat matcher: how many octets the next character
    takes, and which code point it is.  Malformed sequences count as one
    eight-bit character.  Octets are integers, so a mask or a shift of the source
    is written as a division or a remainder by a power of two. */
module Utf8 {
  import opened Wrappers

  type byte = x: int | 0 <= x < 256

  /** The number of 1 bits an octet starts with. */
  function LeadingOnes(b: byte): nat {
    if b < 0x80 then 0
    else if b < 0xC0 then 1
    else if b < 0xE0 then 2
    else if b < 0xF0 then 3
    else if b < 0xF8 then 4
    else if b < 0xFC then 5
    else if b < 0xFE then 6
    else if b < 0xFF then 7
    else 8
  }

  predicate IsContinuation(b: byte) {
    0x80 <= b < 0xC0
  }

  /** `s` starts with a complete sequence of `n` octets. */
  predicate StartsSequence(s: seq<byte>, n: nat) {
    && 2 <= n <= 6
    && n <= |s|
    && LeadingOnes(s[0]) == n
    && forall i :: 1 <= i < n ==> IsContinuation(s[i])
  }

  /** Octets of the first character of `s`. */
  function Width(s: seq<byte>): (n: nat)
    requires s != []
    ensures 1 <= n <= |s|
  {
    if StartsSequence(s, LeadingOnes(s[0])) then LeadingOnes(s[0]) else 1
  }

  /** The six low bits of each octet of `s`, appended to `value`. */
  function Fold(value: int, s: seq<byte>): int
    decreases |s|
  {
    if s == [] then value else Fold(64 * value + s[0] % 64, s[1..])
  }

  /** Two to the power `7 - n`: the size of the payload of a lead octet. */
  function LeadRange(n: nat): nat
    requires 2 <= n <= 6
  {
    if n == 2 then 32 else if n == 3 then 16 else if n == 4 then 8 else if n == 5 then 4 else 2
  }

  /** The code point at the start of `s`. */
  function Decode(s: seq<byte>): int
    requires s != []
  {
    var n := Width(s);
    if n < 2 then s[0] else Fold(s[0] % LeadRange(n), s[1..n])
  }

  /** `end` is the last octet of the buffer, or None for a buffer that a NUL
      octet ends at index `|buf|`. */
  function Stop(buf: seq<byte>, end: Option<nat>): nat {
    match end
    case Some(e) => e + 1
    case None => |buf|
  }

  /** The octets from `start` on that may belong to the next character. */
  function View(buf: seq<byte>, start: nat, end: Option<nat>): seq<byte>
    requires start <= Stop(buf, end) <= |buf|
  {
    match end
    case Some(e) => buf[start..e + 1]
    case None => buf[start..]
  }

  method Utf8Length(buf: seq<byte>, start: nat, end: Option<nat>) returns (n: nat)
    requires start < Stop(buf, end) <= |buf|
    ensures n == Width(View(buf, start, end))
  {
    ghost var s := View(buf, start, end);
    var mask := 0x80;
    var length := 0;
    while mask > 0 && buf[start] / mask % 2 == 1
      invariant 0 <= length <= 8
      invariant mask == [0x80, 0x40, 0x20, 0x10, 8, 4, 2, 1, 0][length]
      invariant buf[start] >= [0, 0x80, 0xC0, 0xE0, 0xF0, 0xF8, 0xFC, 0xFE, 0xFF][length]
      decreases mask
    {
      length := length + 1;
      mask := mask / 2;
    }
    assert length == LeadingOnes(buf[start]) == LeadingOnes(s[0]);
    if length < 2 || length > 6 {
      return 1;
    }
    if end.Some? && end.value - start + 1 < length {
      return 1;
    }
    var left := length - 1;
    var p := start + 1;
    while left > 0 && p < |buf| && IsContinuation(buf[p])
      invariant 0 <= left < length
      invariant p == start + length - left
      invariant p <= |buf|
      invariant end.Some? ==> start + length <= Stop(buf, end)
      invariant forall i :: 1 <= i < p - start ==> i < |s| && IsContinuation(s[i])
    {
      assert buf[p] == s[p - start];
      left := left - 1;
      p := p + 1;
    }
    if left == 0 {
      assert StartsSequence(s, length);
    } else {
      assert length <= |s| ==> s[p - start] == buf[p];
    }
    return if left == 0 then length else 1;
  }

  method Utf8Decode(buf: seq<byte>, start: nat, end: Option<nat>) returns (length: nat, result: int)
    requires start < Stop(buf, end) <= |buf|
    ensures length == Width(View(buf, start, end))
    ensures result == Decode(View(buf, start, end))
  {
    ghost var s := View(buf, start, end);
    length := Utf8Length(buf, start, end);
    if length < 2 {
      return 1, buf[start];
    }
    var value := buf[start] % LeadRange(length);
    var p := start + 1;
    var i := length - 1;
    while i > 0
      invariant 0 <= i < length
      invariant p == start + length - i
      invariant Decode(s) == Fold(value, s[length - i..length])
    {
      assert s[length - i..length][0] == buf[p];
      assert s[length - i..length][1..] == s[length - i + 1..length];
      value := 64 * value + buf[p] % 64;
      p := p + 1;
      i := i - 1;
    }
    return length, value;
  }
}
