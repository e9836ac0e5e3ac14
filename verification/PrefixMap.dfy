/** The prefix map: one bit for each /24 network of the IPv4 address space. */
module PrefixMaps {
  import opened Wrappers

  /** The octets of a map; 2^21 of them hold a bit for each of the 2^24 networks. */
  const PFX_MAPSIZE := 0x3F_FFFF
  const NETWORKS := 0x100_0000

  type Address = x: int | 0 <= x < 0x1_0000_0000

  /** A prefix of the file. The shifts of the source have a value for the lengths
      from 2 to 32. */
  datatype Prefix = Prefix(addr: Address, len: nat) {
    predicate Valid() {
      2 <= len <= 32
    }
  }

  function Pow2(n: nat): (p: nat)
    ensures p > 0
  {
    if n == 0 then 1 else 2 * Pow2(n - 1)
  }

  /** The address lies in the block of the prefix. */
  predicate InBlock(a: Address, p: Prefix)
    requires p.Valid()
  {
    a / Pow2(32 - p.len) == p.addr / Pow2(32 - p.len)
  }

  // ----- the bits set

  function First(p: Prefix): nat {
    p.addr / 256
  }

  /** How many bits: the size of the block, shifted right by 8. */
  function Size(p: Prefix): nat
    requires p.Valid()
  {
    Pow2(32 - p.len) / 256
  }

  predicate Covered(network: nat, p: Prefix)
    requires p.Valid()
  {
    First(p) <= network < First(p) + Size(p)
  }

  /** The bits are those of networks: they lie in the first 2^21 octets. */
  predicate Fits(p: Prefix)
    requires p.Valid()
  {
    First(p) + Size(p) <= NETWORKS
  }

  /** The address of the prefix is a multiple of the size of its block, as far as
      whole networks go. */
  predicate Aligned(p: Prefix)
    requires p.Valid()
  {
    p.len <= 24 ==> First(p) % Pow2(24 - p.len) == 0
  }

  lemma {:induction false} Pow2Plus8(n: nat)
    ensures Pow2(n + 8) == 256 * Pow2(n)
  {
    assert Pow2(n + 8) == 2 * Pow2(n + 7);
    assert Pow2(n + 7) == 2 * Pow2(n + 6);
    assert Pow2(n + 6) == 2 * Pow2(n + 5);
    assert Pow2(n + 5) == 2 * Pow2(n + 4);
    assert Pow2(n + 4) == 2 * Pow2(n + 3);
    assert Pow2(n + 3) == 2 * Pow2(n + 2);
    assert Pow2(n + 2) == 2 * Pow2(n + 1);
  }

  lemma {:induction false} Pow2Grows(m: nat, n: nat)
    requires m < n
    ensures Pow2(m) < Pow2(n)
  {
    if m < n - 1 {
      Pow2Grows(m, n - 1);
    }
  }

  lemma {:induction false} DivExactly(k: nat, m: nat, q: nat)
    requires m > 0
    ensures k / m == q <==> q * m <= k < q * m + m
  {
    var d := k / m;
    assert k == d * m + k % m;
    if d < q {
      assert d * m + m <= q * m by {
        assert (d + 1) * m <= q * m;
      }
    } else if q < d {
      assert q * m + m <= d * m by {
        assert (q + 1) * m <= d * m;
      }
    }
  }

  lemma {:induction false} DivTwice(a: nat, m: nat)
    requires m > 0
    ensures a / (256 * m) == a / 256 / m
  {
    var k := a / 256;
    var q := k / m;
    DivExactly(k, m, q);
    DivExactly(a, 256, k);
    assert q * (256 * m) == 256 * (q * m);
    DivExactly(a, 256 * m, q);
  }

  /** In networks: the block of a prefix up to /24 is those with its quotient. */
  lemma {:induction false} BlockInNetworks(a: Address, p: Prefix)
    requires p.Valid() && p.len <= 24
    ensures Size(p) == Pow2(24 - p.len)
    ensures InBlock(a, p) <==> a / 256 / Pow2(24 - p.len) == First(p) / Pow2(24 - p.len)
  {
    hide Pow2;
    Pow2Plus8(24 - p.len);
    DivTwice(a, Pow2(24 - p.len));
    DivTwice(p.addr, Pow2(24 - p.len));
  }

  lemma {:induction false} NothingCovered(p: Prefix)
    requires p.Valid() && p.len > 24
    ensures Size(p) == 0
  {
    Pow2Grows(32 - p.len, 8);
    assert Pow2(8) == 256;
  }

  /** The bits of a prefix are its block if and only if its length is at most 24 and its
      address is aligned. */
  lemma {:induction false} CoversBlockExactly(p: Prefix)
    requires p.Valid()
    ensures (forall a: Address :: Covered(a / 256, p) <==> InBlock(a, p)) <==> p.len <= 24 && Aligned(p)
  {
    hide Pow2;
    if p.len > 24 {
      NothingCovered(p);
      assert InBlock(p.addr, p) && !Covered(p.addr / 256, p);
    } else {
      var m, f := Pow2(24 - p.len), First(p);
      var q := f / m;
      DivExactly(f, m, q);
      if f % m == 0 {
        assert f == q * m;
        forall a: Address ensures Covered(a / 256, p) <==> InBlock(a, p) {
          BlockInNetworks(a, p);
          DivExactly(a / 256, m, q);
        }
      } else {
        // the first network of the block stays out
        assert q * m <= f && q * m != f;
        var a: Address := 256 * (q * m);
        BlockInNetworks(a, p);
        DivExactly(q * m, m, q);
        assert a / 256 == q * m;
        assert InBlock(a, p) && !Covered(a / 256, p);
      }
    }
  }

  /** Aligned prefixes set bits of networks only. */
  lemma {:induction false} AlignedFits(p: Prefix)
    requires p.Valid() && Aligned(p)
    ensures Fits(p)
  {
    hide Pow2;
    if p.len > 24 {
      NothingCovered(p);
    } else {
      var m, f := Pow2(24 - p.len), First(p);
      BlockInNetworks(p.addr, p);
      var r := 24 - p.len;
      Pow2Splits(p.len, r);
      NETWORKSIsPow2();
      var q, n := f / m, Pow2(p.len);
      assert f == q * m && n * m == NETWORKS;
      MulOrder(q, n, m);
    }
  }

  lemma {:induction false} MulLe(a: nat, b: nat, m: nat)
    ensures a <= b ==> a * m <= b * m
  {
    if a <= b {
      assert (b - a) * m >= 0;
      assert b * m == a * m + (b - a) * m;
    }
  }

  lemma {:induction false} MulOrder(q: nat, n: nat, m: nat)
    requires q * m < n * m
    ensures q * m + m <= n * m
  {
    MulLe(n, q, m);
    MulLe(q + 1, n, m);
    assert (q + 1) * m == q * m + m;
  }

  lemma {:induction false} Pow2Splits(a: nat, b: nat)
    ensures Pow2(a) * Pow2(b) == Pow2(a + b)
  {
    if a > 0 {
      Pow2Splits(a - 1, b);
      assert Pow2(a) * Pow2(b) == 2 * (Pow2(a - 1) * Pow2(b));
    }
  }

  lemma {:induction false} NETWORKSIsPow2()
    ensures Pow2(24) == NETWORKS
  {
    Pow2Plus8(16);
    Pow2Plus8(8);
    Pow2Plus8(0);
  }

  lemma {:induction false} Pow2Of30()
    ensures Pow2(30) == 64 * NETWORKS
  {
    NETWORKSIsPow2();
    Pow2Splits(24, 6);
    assert Pow2(6) == 64;
  }

  /** And no prefix sets a bit outside the map. */
  lemma {:induction false} AllWithinMap(p: Prefix)
    requires p.Valid()
    ensures First(p) + Size(p) <= 8 * PFX_MAPSIZE
  {
    Pow2Of30();
    hide Pow2;
    if p.len > 2 {
      Pow2Grows(32 - p.len, 30);
    }
  }

  // ----- octets

  function Mask(i: nat): bv8
    requires i < 8
  {
    1 << i
  }

  predicate BitAt(octets: seq<bv8>, network: nat)
    requires network < 8 * |octets|
  {
    octets[network / 8] & Mask(network % 8) != 0
  }

  lemma {:induction false} SetOne(b: bv8, i: nat, j: nat)
    requires i < 8 && j < 8
    ensures (b | Mask(i)) & Mask(j) != 0 <==> i == j || b & Mask(j) != 0
  {
  }

  /** A line of the file; None where the scan finds no prefix. */
  type Line = Option<Prefix>

  predicate Readable(lines: seq<Line>) {
    forall i :: 0 <= i < |lines| && lines[i].Some? ==> lines[i].value.Valid()
  }

  /** Some line covers the network. */
  predicate Marked(network: nat, lines: seq<Line>)
    requires Readable(lines)
  {
    exists i :: 0 <= i < |lines| && lines[i].Some? && Covered(network, lines[i].value)
  }

  /** Some listed block contains the address. */
  predicate Listed(a: Address, lines: seq<Line>)
    requires Readable(lines)
  {
    exists i :: 0 <= i < |lines| && lines[i].Some? && InBlock(a, lines[i].value)
  }

  predicate AllAligned(lines: seq<Line>)
    requires Readable(lines)
  {
    forall i :: 0 <= i < |lines| && lines[i].Some? ==> lines[i].value.len <= 24 && Aligned(lines[i].value)
  }

  /** Of a file of aligned prefixes up to /24 the bits are the listed blocks. */
  lemma {:induction false} MarkedIsListed(a: Address, lines: seq<Line>)
    requires Readable(lines) && AllAligned(lines)
    ensures Marked(a / 256, lines) <==> Listed(a, lines)
  {
    hide Covered, InBlock, Aligned;
    forall i | 0 <= i < |lines| && lines[i].Some?
      ensures Covered(a / 256, lines[i].value) <==> InBlock(a, lines[i].value)
    {
      CoversBlockExactly(lines[i].value);
    }
  }

  class PrefixMap {
    const octets: array<bv8>

    ghost predicate Valid() {
      octets.Length == PFX_MAPSIZE
    }

    /** The map holds the networks that a file covers. */
    ghost predicate Holds(lines: seq<Line>)
      reads octets
    {
      && Valid() && Readable(lines)
      && forall k :: 0 <= k < 8 * PFX_MAPSIZE ==> (BitAt(octets[..], k) <==> Marked(k, lines))
    }

    constructor ()
      ensures Valid() && fresh(octets)
    {
      octets := new bv8[PFX_MAPSIZE](i => 0);
    }

    /** Setting the bits of a prefix, and no others. */
    method ParsePrefix(p: Prefix)
      requires Valid() && p.Valid()
      modifies octets
      ensures forall k :: 0 <= k < 8 * PFX_MAPSIZE ==>
                (BitAt(octets[..], k) <==> BitAt(old(octets[..]), k) || Covered(k, p))
    {
      AllWithinMap(p);
      var ipstart := p.addr / 256;
      var size := Pow2(32 - p.len) / 256;
      var i := 0;
      while i < size
        invariant i <= size
        invariant forall k :: 0 <= k < 8 * PFX_MAPSIZE ==>
                    (BitAt(octets[..], k) <==> BitAt(old(octets[..]), k) || ipstart <= k < ipstart + i)
      {
        ghost var before := octets[..];
        var offset := (ipstart + i) / 8;
        var bit := (ipstart + i) % 8;
        octets[offset] := octets[offset] | Mask(bit);
        SetBit(before, octets[..], ipstart + i);
        i := i + 1;
      }
    }

    method Clear()
      requires Valid()
      modifies octets
      ensures forall k :: 0 <= k < 8 * PFX_MAPSIZE ==> !BitAt(octets[..], k)
    {
      var i := 0;
      while i < octets.Length
        invariant i <= octets.Length
        invariant forall k :: 0 <= k < i ==> octets[k] == 0
      {
        octets[i] := 0;
        i := i + 1;
      }
    }

    /** Loading a file: the bits are those its lines cover. */
    method LoadPrefixmap(lines: seq<Line>) returns (line: nat)
      requires Valid() && Readable(lines)
      modifies octets
      ensures line == |lines| && Holds(lines)
    {
      hide BitAt, Covered;
      Clear();
      line := 0;
      while line < |lines|
        invariant line <= |lines|
        invariant forall k :: 0 <= k < 8 * PFX_MAPSIZE ==> (BitAt(octets[..], k) <==> Marked(k, lines[..line]))
      {
        MarkedStep(lines, line);
        match lines[line] {
          case None =>
          case Some(p) => ParsePrefix(p);
        }
        line := line + 1;
      }
      assert lines[..line] == lines;
    }

    /** The bit of the network of an address. */
    method Lookup(a: Address) returns (found: bool)
      requires Valid()
      ensures found == BitAt(octets[..], a / 256)
    {
      var offset := a / 2048;
      var bit := Mask(a / 256 % 8);
      return octets[offset] & bit != 0;
    }
  }

  /** The profile an address falls back to: none where the profile has no map, or a map
      with a line that covers the network; of aligned prefixes up to /24 that is a line
      that lists the address. */
  method ProfIplookup<T>(map_: PrefixMap?, failProfile: T, a: Address, ghost lines: seq<Line>) returns (r: Option<T>)
    requires map_ != null ==> map_.Holds(lines)
    ensures r == if map_ == null || Marked(a / 256, lines) then None else Some(failProfile)
    ensures map_ != null && AllAligned(lines) ==> r == if Listed(a, lines) then None else Some(failProfile)
  {
    if map_ == null {
      return None;
    }
    if AllAligned(lines) {
      MarkedIsListed(a, lines);
    }
    var found := map_.Lookup(a);
    if found {
      return None;
    }
    return Some(failProfile);
  }

  lemma {:induction false} SetBit(before: seq<bv8>, now: seq<bv8>, network: nat)
    requires network < 8 * |before| && now == before[network / 8 := before[network / 8] | Mask(network % 8)]
    ensures forall k :: 0 <= k < 8 * |before| ==> (BitAt(now, k) <==> BitAt(before, k) || k == network)
  {
    hide Mask;
    forall k | 0 <= k < 8 * |before| ensures BitAt(now, k) <==> BitAt(before, k) || k == network {
      if k / 8 == network / 8 {
        SetOne(before[k / 8], network % 8, k % 8);
      }
    }
  }

  lemma {:induction false} MarkedStep(lines: seq<Line>, i: nat)
    requires Readable(lines) && i < |lines|
    ensures forall k: nat :: Marked(k, lines[..i + 1])
                        <==> Marked(k, lines[..i]) || (lines[i].Some? && Covered(k, lines[i].value))
  {
    hide Covered;
    forall k: nat
      ensures Marked(k, lines[..i + 1]) <==> Marked(k, lines[..i]) || (lines[i].Some? && Covered(k, lines[i].value))
    {
      if Marked(k, lines[..i]) {
        var j :| 0 <= j < i && lines[..i][j].Some? && Covered(k, lines[..i][j].value);
        assert lines[..i + 1][j] == lines[..i][j];
      }
      if lines[i].Some? && Covered(k, lines[i].value) {
        assert lines[..i + 1][i] == lines[i];
      }
      if Marked(k, lines[..i + 1]) {
        var j :| 0 <= j < i + 1 && lines[..i + 1][j].Some? && Covered(k, lines[..i + 1][j].value);
        if j < i {
          assert lines[..i][j] == lines[..i + 1][j];
        }
      }
    }
  }
}
