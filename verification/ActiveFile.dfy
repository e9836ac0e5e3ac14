/** The active file: the updater prints the group table, the server scans it back
    and searches it. Printing and scanning are modelled character by character. */
module ActiveFile {
  import opened Wrappers
  import opened Sorting
  import opened Groups
  import opened GroupMerge

  const MAX_SERVER := 32

  // ----- decimal numbers

  predicate IsDigit(c: char) {
    '0' <= c <= '9'
  }

  function DigitValue(c: char): (d: nat)
    requires IsDigit(c)
    ensures d < 10
  {
    c as int - '0' as int
  }

  function Digit(d: nat): (c: char)
    requires d < 10
    ensures IsDigit(c) && DigitValue(c) == d
  {
    '0' + d as char
  }

  /** The digits of a number, no leading zeros. */
  function Decimal(n: nat): (s: string)
    ensures |s| > 0 && forall c :: c in s ==> IsDigit(c)
  {
    if n < 10 then [Digit(n)] else Decimal(n / 10) + [Digit(n % 10)]
  }

  /** The value of a string of digits. */
  function Value(s: string): nat
    requires forall c :: c in s ==> IsDigit(c)
  {
    if s == [] then 0
    else
      assert s[|s| - 1] in s;
      10 * Value(s[..|s| - 1]) + DigitValue(s[|s| - 1])
  }

  lemma {:induction false} ValueOfDecimal(n: nat)
    ensures Value(Decimal(n)) == n
  {
    if n >= 10 {
      ValueOfDecimal(n / 10);
      assert Decimal(n)[..|Decimal(n)| - 1] == Decimal(n / 10);
    }
  }

  function Pow10(k: nat): (p: nat)
    ensures p > 0
  {
    if k == 0 then 1 else 10 * Pow10(k - 1)
  }

  lemma {:induction false} ValueBound(s: string)
    requires forall c :: c in s ==> IsDigit(c)
    ensures Value(s) < Pow10(|s|)
  {
    if s != [] {
      ValueBound(s[..|s| - 1]);
      assert s[|s| - 1] in s;
    }
  }

  /** A number has more than `k` digits if and only if it is at least 10 to the `k`. */
  lemma {:induction false} DecimalLength(n: nat, k: nat)
    requires k > 0
    ensures |Decimal(n)| > k <==> n >= Pow10(k)
    decreases k
  {
    if n >= 10 {
      if k > 1 {
        DecimalLength(n / 10, k - 1);
      }
    } else {
      assert Pow10(k) == 10 * Pow10(k - 1);
    }
  }

  function Zeros(k: nat): (s: string)
    ensures |s| == k && forall c :: c in s ==> c == '0'
  {
    if k == 0 then [] else Zeros(k - 1) + ['0']
  }

  /** At least `width` digits. */
  function Padded(n: nat, width: nat): (s: string)
    ensures |s| >= width && |s| > 0 && forall c :: c in s ==> IsDigit(c)
  {
    var d := Decimal(n);
    if |d| >= width then d else Zeros(width - |d|) + d
  }

  lemma {:induction false} ValueOfPadded(z: nat, s: string)
    requires forall c :: c in s ==> IsDigit(c)
    ensures Value(Zeros(z) + s) == Value(s)
    decreases z + |s|
  {
    if s != [] {
      ValueOfPadded(z, s[..|s| - 1]);
      assert (Zeros(z) + s)[..z + |s| - 1] == Zeros(z) + s[..|s| - 1];
    } else if z > 0 {
      ValueOfPadded(z - 1, s);
      assert Zeros(z) + s == Zeros(z);
      assert Zeros(z)[..z - 1] == Zeros(z - 1) == Zeros(z - 1) + s;
    }
  }

  /** printf of a long: `%.10ld` for width 10, `%ld` for width 1. */
  function Print(x: int, width: nat): (s: string)
    ensures |s| > 0 && NoSpace(s)
  {
    if x < 0 then ['-'] + Padded(-x, width) else Padded(x, width)
  }

  // ----- scanning

  predicate IsSpace(c: char) {
    c == ' ' || c == '\t' || c == '\n' || c == '\r' || c as int == 11 || c as int == 12
  }

  predicate NoSpace(s: string) {
    forall c :: c in s ==> !IsSpace(c)
  }

  function SkipSpace(text: string): (r: string)
    ensures |r| <= |text| && (r == [] || !IsSpace(r[0]))
  {
    if text != [] && IsSpace(text[0]) then SkipSpace(text[1..]) else text
  }

  /** How many characters that are no space lead, `max` at most. */
  function Run(text: string, max: nat): (k: nat)
    ensures k <= |text| && k <= max
    ensures forall i :: 0 <= i < k ==> !IsSpace(text[i])
    ensures k == max || k == |text| || IsSpace(text[k])
  {
    if max == 0 || text == [] || IsSpace(text[0]) then 0 else 1 + Run(text[1..], max - 1)
  }

  /** `%<max>s`: the word and the text behind it; None at the end of the text. */
  function Word(text: string, max: nat): (r: Option<(string, string)>)
    requires max > 0
    ensures r.Some? ==> 0 < |r.value.0| <= max && NoSpace(r.value.0) && |r.value.1| < |text|
  {
    var t := SkipSpace(text);
    if t == [] then None
    else
      var k := Run(t, max);
      Some((t[..k], t[k..]))
  }

  function DigitsAt(text: string): (k: nat)
    ensures k <= |text| && forall c :: c in text[..k] ==> IsDigit(c)
    ensures k < |text| ==> !IsDigit(text[k])
  {
    if text == [] || !IsDigit(text[0]) then 0
    else
      assert text[..1 + DigitsAt(text[1..])] == [text[0]] + text[1..][..DigitsAt(text[1..])];
      1 + DigitsAt(text[1..])
  }

  /** atol of a word. */
  function Atol(s: string): int {
    if s != [] && s[0] == '-' then -(Value(s[1..][..DigitsAt(s[1..])]) as int)
    else if s != [] && s[0] == '+' then Value(s[1..][..DigitsAt(s[1..])])
    else Value(s[..DigitsAt(s)])
  }

  /** A signed number, cut off at the ends of a 64-bit long. */
  function AsLong(negative: bool, v: int): int {
    if negative then (if v > 0x8000_0000_0000_0000 then -0x8000_0000_0000_0000 else -v)
    else if v > 0x7fff_ffff_ffff_ffff then 0x7fff_ffff_ffff_ffff
    else v
  }

  /** `%d` into an unsigned int: the low 32 bits of the long; None where
      no number stands. */
  function Number(text: string): (r: Option<(int, string)>)
    ensures r.Some? ==> 0 <= r.value.0 < 0x1_0000_0000
  {
    var t := SkipSpace(text);
    var signed := t != [] && (t[0] == '-' || t[0] == '+');
    var digits := if signed then t[1..] else t;
    var k := DigitsAt(digits);
    if k == 0 then None
    else
      Some((AsLong(signed && t[0] == '-', Value(digits[..k])) % 0x1_0000_0000, digits[k..]))
  }

  datatype Scan = AtEnd | Partial(rest: string) | Full(group: Group, rest: string)

  /** One call of fscanf: six fields, fewer, or the end of the file. */
  function ScanEntry(text: string): (r: Scan)
    ensures !r.AtEnd? ==> |r.rest| < |text|
  {
    match Word(text, MAX_GROUP - 1)
    case None => AtEnd
    case Some((name, t1)) =>
      match Word(t1, 10)
      case None => Partial(SkipSpace(t1))
      case Some((hi, t2)) => ScanBehindHi(name, hi, t2)
  }

  function ScanBehindHi(name: string, hi: string, t2: string): (r: Scan)
    ensures !r.AtEnd? && |r.rest| <= |t2|
    ensures r.Full? ==> r.group.hi == Atol(hi)
  {
    match Word(t2, 10)
    case None => Partial(SkipSpace(t2))
    case Some((lo, t3)) => ScanBehindLo(name, hi, lo, t3)
  }

  function ScanBehindLo(name: string, hi: string, lo: string, t3: string): (r: Scan)
    ensures !r.AtEnd? && |r.rest| <= |t3|
    ensures r.Full? ==> r.group.hi == Atol(hi) && r.group.lo == Atol(lo)
  {
    match Word(t3, 1)
    case None => Partial(SkipSpace(t3))
    case Some((mode, t4)) =>
      match Word(t4, MAX_SERVER - 1)
      case None => Partial(SkipSpace(t4))
      case Some((server, t5)) =>
        match Number(t5)
        case None => Partial(AfterFailure(t5))
        case Some((times, t6)) => Full(Group(name, server, Atol(hi), Atol(lo), mode[0], times), t6)
  }

  /** Where `%d` stops without a number: behind the spaces and a sign. */
  function AfterFailure(text: string): (r: string)
    ensures |r| <= |text|
  {
    var t := SkipSpace(text);
    if t != [] && (t[0] == '-' || t[0] == '+') then t[1..] else t
  }

  // ----- one row

  const TEN_DIGITS := 10_000_000_000

  /** The line of a group. */
  function Row(g: Group): string {
    g.name + " " + Print(g.hi, 10) + " " + Print(g.lo, 10) + " " + [g.mode] + " " + g.server + " " + Print(g.times, 1)
    + "\n"
  }

  /** Fields that are words, within the sizes of the table. */
  predicate Clean(g: Group) {
    && g.name != [] && |g.name| < MAX_GROUP && NoSpace(g.name)
    && g.server != [] && |g.server| < MAX_SERVER && NoSpace(g.server)
    && !IsSpace(g.mode)
  }

  predicate InRange(g: Group) {
    0 <= g.hi < TEN_DIGITS && 0 <= g.lo < TEN_DIGITS && 0 <= g.times < 0x1_0000_0000
  }

  predicate IsLong(x: int) {
    -0x8000_0000_0000_0000 <= x < 0x8000_0000_0000_0000
  }

  lemma {:induction false} RunOfWord(w: string, rest: string, max: nat)
    requires NoSpace(w) && (rest == [] || IsSpace(rest[0]) || |w| >= max)
    ensures Run(w + rest, max) == if |w| <= max then |w| else max
    decreases max
  {
    if max > 0 {
      if w == [] {
        assert w + rest == rest;
      } else {
        assert (w + rest)[1..] == w[1..] + rest;
        assert w[0] in w;
        assert (w + rest)[0] == w[0];
        RunOfWord(w[1..], rest, max - 1);
      }
    }
  }

  /** A word with a space before it and behind it is read whole if it fits, else its
      first `max` characters. */
  lemma {:induction false} WordRead(w: string, rest: string, max: nat, space: string)
    requires w != [] && NoSpace(w) && (rest == [] || IsSpace(rest[0])) && max > 0
    requires space == "" || space == " " || space == "\n"
    ensures Word(space + w + rest, max)
         == Some(if |w| <= max then (w, rest) else (w[..max], w[max..] + rest))
  {
    assert w[0] in w;
    assert (w + rest)[0] == w[0];
    assert SkipSpace(w + rest) == w + rest;
    if space == "" {
      assert space + w + rest == w + rest;
    } else {
      assert (space + w + rest)[1..] == w + rest;
    }
    assert SkipSpace(space + w + rest) == w + rest;
    RunOfWord(w, rest, max);
    if |w| <= max {
      assert (w + rest)[..|w|] == w && (w + rest)[|w|..] == rest;
    } else {
      assert (w + rest)[..max] == w[..max] && (w + rest)[max..] == w[max..] + rest;
    }
  }

  lemma {:induction false} DigitsOf(d: string, rest: string)
    requires (forall c :: c in d ==> IsDigit(c)) && (rest == [] || !IsDigit(rest[0]))
    ensures DigitsAt(d + rest) == |d|
    decreases |d|
  {
    if d == [] {
      assert d + rest == rest;
    } else {
      assert (d + rest)[1..] == d[1..] + rest && d[0] in d;
      DigitsOf(d[1..], rest);
    }
  }

  /** atol reads the digits of a printed number. */
  lemma {:induction false} AtolOfDigits(d: string)
    requires forall c :: c in d ==> IsDigit(c)
    ensures Atol(d) == Value(d)
    ensures Atol(['-'] + d) == -(Value(d) as int)
  {
    DigitsOf(d, []);
    assert d + [] == d;
    assert d[..|d|] == d;
    if d != [] {
      assert d[0] in d;
    }
    assert (['-'] + d)[1..] == d;
  }

  /** Cutting digits off a number other than 0 changes it. */
  lemma {:induction false} ValueCut(d: string, k: nat)
    requires (forall c :: c in d ==> IsDigit(c)) && k < |d| && Value(d) > 0
    ensures Value(d[..k]) < Value(d)
    decreases |d|
  {
    var init := d[..|d| - 1];
    assert d[|d| - 1] in d;
    if k == |d| - 1 {
    } else if Value(init) > 0 {
      ValueCut(init, k);
      assert init[..k] == d[..k];
    } else {
      ValueMonotone(init, k);
      assert init[..k] == d[..k];
    }
  }

  lemma {:induction false} ValueMonotone(d: string, k: nat)
    requires (forall c :: c in d ==> IsDigit(c)) && k <= |d|
    ensures Value(d[..k]) <= Value(d)
    decreases |d|
  {
    if k == |d| {
      assert d[..k] == d;
    } else {
      assert d[|d| - 1] in d;
      ValueMonotone(d[..|d| - 1], k);
      assert d[..|d| - 1][..k] == d[..k];
    }
  }

  lemma {:induction false} ValueOfPrint(n: nat, width: nat)
    ensures Value(Padded(n, width)) == n
  {
    hide Value, Decimal, Zeros;
    ValueOfDecimal(n);
    if |Decimal(n)| < width {
      ValueOfPadded(width - |Decimal(n)|, Decimal(n));
    }
  }

  /** A number printed with ten digits comes back through a field of ten characters if
      and only if it is not negative and has no more than ten digits. */
  lemma {:induction false} TenCharacters(x: int)
    ensures var p := Print(x, 10);
            Atol(if |p| <= 10 then p else p[..10]) == x <==> 0 <= x < TEN_DIGITS
    ensures |Print(x, 10)| <= 10 <==> 0 <= x < TEN_DIGITS
  {
    var n: nat := if x < 0 then -x else x;
    var d := Padded(n, 10);
    ValueOfPrint(n, 10);
    DecimalLength(n, 10);
    assert Pow10(10) == TEN_DIGITS by {
      assert Pow10(5) == 100_000;
      assert Pow10(10) == 100_000 * Pow10(5);
    }
    if x < 0 {
      assert (['-'] + d)[..10] == ['-'] + d[..9];
      AtolOfDigits(d[..9]);
      ValueCut(d, 9);
    } else if |d| > 10 {
      AtolOfDigits(d[..10]);
      ValueCut(d, 10);
    } else {
      AtolOfDigits(d);
    }
  }

  // what follows each field of a row

  function BehindServer(g: Group, tail: string): string {
    " " + Print(g.times, 1) + ("\n" + tail)
  }

  function BehindMode(g: Group, tail: string): string {
    " " + g.server + BehindServer(g, tail)
  }

  function BehindLo(g: Group, tail: string): string {
    " " + [g.mode] + BehindMode(g, tail)
  }

  function BehindHi(g: Group, tail: string): string {
    " " + Print(g.lo, 10) + BehindLo(g, tail)
  }

  function BehindName(g: Group, tail: string): string {
    " " + Print(g.hi, 10) + BehindHi(g, tail)
  }

  lemma {:induction false} RowSplit(g: Group, lead: string, tail: string)
    ensures lead + Row(g) + tail == lead + g.name + BehindName(g, tail)
  {
    hide Print;
    var toHi := g.name + " " + Print(g.hi, 10);
    var toLo := toHi + " " + Print(g.lo, 10);
    var toMode := toLo + " " + [g.mode];
    var toServer := toMode + " " + g.server;
    assert Row(g) + tail == toServer + BehindServer(g, tail);
    assert toServer + BehindServer(g, tail) == toMode + BehindMode(g, tail);
    assert toMode + BehindMode(g, tail) == toLo + BehindLo(g, tail);
    assert toLo + BehindLo(g, tail) == toHi + BehindHi(g, tail);
    assert toHi + BehindHi(g, tail) == g.name + BehindName(g, tail);
    assert lead + Row(g) + tail == lead + (Row(g) + tail);
  }

  lemma {:induction false} NumberReads(text: string, negative: bool, d: string, rest: string)
    requires d != [] && (forall c :: c in d ==> IsDigit(c)) && (rest == [] || !IsDigit(rest[0]))
    requires SkipSpace(text) == if negative then ['-'] + (d + rest) else d + rest
    ensures Number(text) == Some((AsLong(negative, Value(d)) % 0x1_0000_0000, rest))
  {
    hide Value, AsLong, SkipSpace, DigitsAt;
    var t := SkipSpace(text);
    DigitsOf(d, rest);
    assert d[0] in d;
    if negative {
      assert t[0] == '-' && t[1..] == d + rest;
    } else {
      assert t[0] == d[0];
    }
    assert (d + rest)[..|d|] == d && (d + rest)[|d|..] == rest;
  }

  lemma {:induction false} TimesRead(x: int, tail: string)
    requires IsLong(x)
    ensures Number(" " + Print(x, 1) + ("\n" + tail)) == Some((x % 0x1_0000_0000, "\n" + tail))
  {
    hide Padded, Value, IsSpace, Number, SkipSpace;
    var n: nat := if x < 0 then -x else x;
    var d := Padded(n, 1);
    var p := Print(x, 1);
    var rest := "\n" + tail;
    ValueOfPrint(n, 1);
    SpaceSkipped(p, rest);
    assert x < 0 ==> p + rest == ['-'] + (d + rest);
    NumberReads(" " + p + rest, x < 0, d, rest);
  }

  lemma {:induction false} SpaceSkipped(p: string, rest: string)
    requires p != [] && NoSpace(p)
    ensures SkipSpace(" " + p + rest) == p + rest
  {
    assert p[0] in p;
    assert (" " + p + rest)[1..] == p + rest;
  }

  /** The fields behind the low-water mark come back whole. */
  lemma {:induction false} ModeOnwards(g: Group, tail: string, name: string, hi: string, lo: string)
    requires Clean(g) && IsLong(g.times)
    ensures ScanBehindLo(name, hi, lo, BehindLo(g, tail))
         == Full(Group(name, g.server, Atol(hi), Atol(lo), g.mode, g.times % 0x1_0000_0000), "\n" + tail)
  {
    hide Word, Number, Print, Atol;
    WordRead([g.mode], BehindMode(g, tail), 1, " ");
    WordRead(g.server, BehindServer(g, tail), MAX_SERVER - 1, " ");
    TimesRead(g.times, tail);
  }

  lemma {:induction false} LoOnwards(g: Group, tail: string, name: string, hi: string)
    requires Clean(g) && IsLong(g.times)
    ensures var r := ScanBehindHi(name, hi, BehindHi(g, tail));
            if 0 <= g.lo < TEN_DIGITS
            then r == Full(Group(name, g.server, Atol(hi), g.lo, g.mode, g.times % 0x1_0000_0000), "\n" + tail)
            else !r.Full? || r.group.lo != g.lo
  {
    hide Word, Number, Print, Atol, ScanBehindLo;
    WordRead(Print(g.lo, 10), BehindLo(g, tail), 10, " ");
    TenCharacters(g.lo);
    ModeOnwards(g, tail, name, hi, Print(g.lo, 10));
  }

  /** A row is scanned back as its group if and only if both water marks are at least 0
      and have at most ten digits and the time fits 32 bits. */
  lemma {:induction false} RowReadsBackExactly(g: Group, lead: string, tail: string)
    requires Clean(g) && IsLong(g.times) && (lead == "" || lead == "\n")
    ensures ScanEntry(lead + Row(g) + tail) == Full(g, "\n" + tail) <==> InRange(g)
  {
    hide Word, Number, Print, Atol, ScanBehindHi, Row;
    RowSplit(g, lead, tail);
    WordRead(g.name, BehindName(g, tail), MAX_GROUP - 1, lead);
    WordRead(Print(g.hi, 10), BehindHi(g, tail), 10, " ");
    TenCharacters(g.hi);
    LoOnwards(g, tail, g.name, Print(g.hi, 10));
  }

  // ----- the whole file

  function File(groups: seq<Group>): string {
    if groups == [] then "" else Row(groups[0]) + File(groups[1..])
  }

  /** Scanning entry after entry; None where the program stops: a server it does not
      know, or a full table. */
  function LoadFrom(acc: seq<Group>, text: string, servers: seq<string>): Option<seq<Group>>
    decreases |text|
  {
    match ScanEntry(text)
    case AtEnd => Some(acc)
    case Partial(rest) => LoadFrom(acc, rest, servers)
    case Full(g, rest) =>
      if g.server !in servers || |acc| + 1 >= MAX_GROUPS then None
      else LoadFrom(acc + [g], rest, servers)
  }

  lemma {:induction false} NothingLeft(lead: string)
    requires lead == "" || lead == "\n"
    ensures ScanEntry(lead) == AtEnd
  {
    if lead != "" {
      assert lead[1..] == "";
    }
  }

  lemma {:induction false} LoadStep(acc: seq<Group>, text: string, servers: seq<string>)
    ensures var r := ScanEntry(text);
            LoadFrom(acc, text, servers) ==
            if r.AtEnd? then Some(acc)
            else if r.Partial? then LoadFrom(acc, r.rest, servers)
            else if r.group.server !in servers || |acc| + 1 >= MAX_GROUPS then None
            else LoadFrom(acc + [r.group], r.rest, servers)
  {
    hide ScanEntry;
  }

  lemma {:induction false} FileReads(acc: seq<Group>, groups: seq<Group>, servers: seq<string>, lead: string)
    requires forall g :: g in groups ==> Clean(g) && InRange(g)
    requires lead == "" || lead == "\n"
    ensures LoadFrom(acc, lead + File(groups), servers)
         == if (forall g :: g in groups ==> g.server in servers) && (|acc| + |groups| < MAX_GROUPS || groups == [])
            then Some(acc + groups) else None
    decreases |groups|
  {
    hide ScanEntry, Row, Clean, InRange, LoadFrom;
    LoadStep(acc, lead + File(groups), servers);
    if groups == [] {
      NothingLeft(lead);
      assert lead + File(groups) == lead;
      assert acc + groups == acc;
    } else {
      var g := groups[0];
      InRangeIsLong(g);
      RowReadsBackExactly(g, lead, File(groups[1..]));
      assert lead + File(groups) == lead + Row(g) + File(groups[1..]);
      FileReads(acc + [g], groups[1..], servers, "\n");
      assert acc + groups == acc + [g] + groups[1..];
      assert groups == [g] + groups[1..];
    }
  }

  lemma {:induction false} InRangeIsLong(g: Group)
    ensures InRange(g) ==> IsLong(g.times)
  {
  }

  /** Loading what was written gives the table back if and only if there is room behind
      it and every server is known. */
  lemma {:induction false} LoadWrittenExactly(groups: seq<Group>, servers: seq<string>)
    requires forall g :: g in groups ==> Clean(g) && InRange(g)
    ensures LoadFrom([], File(groups), servers) == Some(groups)
       <==> groups == [] || (|groups| < MAX_GROUPS && forall g :: g in groups ==> g.server in servers)
  {
    hide LoadFrom, Clean, InRange, File;
    FileReads([], groups, servers, "");
    assert "" + File(groups) == File(groups);
    assert [] + groups == groups;
  }

  // ----- from the listings to the loaded table

  /** A line whose fields survive the file. */
  predicate GoodLine(line: Line) {
    line.Entry? ==>
      && line.group != [] && NoSpace(line.group) && !IsSpace(line.mode)
      && 0 <= line.end < TEN_DIGITS && 0 <= line.begin < TEN_DIGITS
  }

  predicate GoodListing(l: Listing, servers: seq<string>) {
    && l.server != [] && |l.server| < MAX_SERVER && NoSpace(l.server) && l.server in servers
    && forall i :: 0 <= i < |l.lines| ==> GoodLine(l.lines[i])
  }

  lemma {:induction false} OffersGood(l: Listing, servers: seq<string>, g: Group)
    requires GoodListing(l, servers) && g in Offers(l.server, l.lines)
    ensures Clean(g) && InRange(g) && g.server in servers
    decreases |l.lines|
  {
    var n := |l.lines| - 1;
    if g in Offers(l.server, l.lines[..n]) {
      OffersGood(Listing(l.server, l.lines[..n]), servers, g);
    } else {
      assert g in Listed(l.server, l.lines[n]) && GoodLine(l.lines[n]);
    }
  }

  lemma {:induction false} FirstListedGood(listings: seq<Listing>, servers: seq<string>, name: string)
    requires (forall l :: l in listings ==> GoodListing(l, servers)) && FirstListed(listings, name).Some?
    ensures var g := FirstListed(listings, name).value;
            Clean(g) && InRange(g) && g.server in servers
    decreases |listings|
  {
    hide Clean, InRange, GoodListing;
    var n := |listings| - 1;
    if FirstListed(listings[..n], name).Some? {
      FirstListedGood(listings[..n], servers, name);
    } else {
      assert listings[n] in listings;
      OffersGood(listings[n], servers, FirstListed(listings, name).value);
    }
  }

  /** What the updater merged from good listings is, once written and loaded, the
      server's table again: in order, every name listed, from its first listing. */
  lemma {:induction false} MergedReadsBack(listings: seq<Listing>, groups: seq<Group>, servers: seq<string>)
    requires Merged(groups, listings) && |groups| < MAX_GROUPS
    requires forall l :: l in listings ==> GoodListing(l, servers)
    ensures LoadFrom([], File(groups), servers) == Some(groups)
    ensures Sorted(groups, NameLe) && forall g :: g in groups ==> |g.name| < MAX_GROUP
  {
    hide LoadFrom, File, InRange, GoodListing, FirstListed;
    AscendingIsSortedDistinct(groups);
    forall g | g in groups ensures Clean(g) && InRange(g) && g.server in servers {
      assert FirstListed(listings, g.name) == Some(g);
      FirstListedGood(listings, servers, g.name);
    }
    LoadWrittenExactly(groups, servers);
  }

  // ----- the code

  /** Writing the table: in order, a row a group. */
  method WriteActive(groups: seq<Group>) returns (sorted: seq<Group>, text: string)
    ensures Sorted(sorted, NameLe) && multiset(sorted) == multiset(groups)
    ensures Ascending(groups) ==> sorted == groups
    ensures text == File(sorted)
  {
    hide Row, File;
    NamesOrdered();
    sorted := Qsort(groups, NameLe);
    SortedAlready(groups, sorted);
    text := "";
    var i := 0;
    FileEnds(sorted);
    assert sorted[0..] == sorted;
    while i < |sorted|
      invariant i <= |sorted|
      invariant text + File(sorted[i..]) == File(sorted)
    {
      FileStep(sorted, i);
      assert text + Row(sorted[i]) + File(sorted[i + 1..]) == text + (Row(sorted[i]) + File(sorted[i + 1..]));
      text := text + Row(sorted[i]);
      i := i + 1;
    }
    assert text + "" == text;
  }

  lemma {:induction false} FileStep(groups: seq<Group>, i: nat)
    requires i < |groups|
    ensures File(groups[i..]) == Row(groups[i]) + File(groups[i + 1..])
  {
    hide Row;
    assert groups[i..][1..] == groups[i + 1..];
  }

  lemma {:induction false} FileEnds(groups: seq<Group>)
    ensures File(groups[|groups|..]) == ""
  {
  }

  lemma {:induction false} SortedAlready(groups: seq<Group>, sorted: seq<Group>)
    requires Sorted(sorted, NameLe) && multiset(sorted) == multiset(groups)
    ensures Ascending(groups) ==> sorted == groups
  {
    if Ascending(groups) {
      AscendingIsSortedDistinct(groups);
      DistinctPermuted(groups, sorted);
      AscendingIsSortedDistinct(sorted);
      forall g ensures g in sorted <==> g in groups {
        assert g in multiset(sorted) <==> g in multiset(groups);
      }
      AscendingUnique(sorted, groups);
    }
  }

  class ActiveTable {
    var newsgroups: seq<Group>

    constructor ()
      ensures newsgroups == []
    {
      newsgroups := [];
    }

    /** Loading the file into an empty table. */
    method LoadActive(file: string, servers: seq<string>) returns (ok: bool)
      modifies this
      ensures LoadFrom([], file, servers) == if ok then Some(newsgroups) else None
    {
      newsgroups := [];
      var text := file;
      while true
        invariant LoadFrom(newsgroups, text, servers) == LoadFrom([], file, servers)
        decreases |text|
      {
        match ScanEntry(text) {
          case AtEnd =>
            return true;
          case Partial(rest) =>
            text := rest;
          case Full(g, rest) =>
            if g.server !in servers {
              return false;
            }
            if |newsgroups| + 1 >= MAX_GROUPS {
              return false;
            }
            newsgroups := newsgroups + [g];
            text := rest;
        }
      }
    }

    /** Looking up a group: the key holds at most the size of the name field. */
    method GetGroup(name: string) returns (r: Option<nat>)
      requires Sorted(newsgroups, NameLe) && forall g :: g in newsgroups ==> |g.name| < MAX_GROUP
      ensures r.Some? <==> Known(newsgroups, name)
      ensures r.Some? ==> r.value < |newsgroups| && newsgroups[r.value].name == name
    {
      var key := if |name| > MAX_GROUP then name[..MAX_GROUP] else name;
      assert newsgroups[..|newsgroups|] == newsgroups;
      r := Bsearch(newsgroups, key, |newsgroups|);
      if |name| >= MAX_GROUP {
        LongUnknown(newsgroups, name);
        LongUnknown(newsgroups, key);
      }
    }
  }

  lemma {:induction false} LongUnknown(groups: seq<Group>, name: string)
    requires (forall g :: g in groups ==> |g.name| < MAX_GROUP) && |name| >= MAX_GROUP
    ensures !Known(groups, name)
  {
    forall i | 0 <= i < |groups| ensures groups[i].name != name {
      assert groups[i] in groups;
    }
  }

  // ----- the format

  /** A row as it stands in the file. */
  lemma {:induction false} SampleRow()
    ensures Row(Group("alt.test", "news", 1204, 17, 'y', 0)) == "alt.test 0000001204 0000000017 y news 0\n"
  {
    hide Print;
    FourDigits();
    TwoDigits();
    OneDigit();
  }

  lemma {:induction false} FourDigits()
    ensures Print(1204, 10) == "0000001204"
  {
    assert Decimal(1204) == "1204" by {
      assert Decimal(120) == "120";
    }
    SixZeros();
  }

  lemma {:induction false} TwoDigits()
    ensures Print(17, 10) == "0000000017"
  {
    assert Decimal(17) == "17";
    SixZeros();
    assert Zeros(8) == "00000000";
  }

  lemma {:induction false} OneDigit()
    ensures Print(0, 1) == "0"
  {
  }

  lemma {:induction false} SixZeros()
    ensures Zeros(6) == "000000"
  {
    assert Zeros(3) == "000";
  }

  /** `%d` takes a number that a long holds not as the end of the long nearest to it, and
      then the low 32 bits. */
  lemma {:induction false} NumberIsCutOff(n: nat, negative: bool, rest: string)
    requires rest == [] || !IsDigit(rest[0])
    ensures var max := if negative then 0x8000_0000_0000_0000 else 0x7fff_ffff_ffff_ffff;
            var v := if n <= max then n else max;
            Number((if negative then "-" else "") + Decimal(n) + rest)
            == Some(((if negative then -v else v) % 0x1_0000_0000, rest))
  {
    hide Decimal, Value, Number;
    ValueOfDecimal(n);
    var d := Decimal(n);
    assert d[0] in d;
    var text := (if negative then "-" else "") + d + rest;
    assert text == if negative then ['-'] + (d + rest) else d + rest;
    NumberReads(text, negative, d, rest);
  }

  /** Without a number `%d` stops in front of what is none, behind spaces and one sign. */
  lemma {:induction false} NoNumber(lead: string, sign: string, rest: string)
    requires (forall c :: c in lead ==> IsSpace(c)) && sign in {"", "-", "+"}
    requires rest != [] && !IsDigit(rest[0]) && !IsSpace(rest[0]) && (sign == "" ==> rest[0] !in {'-', '+'})
    ensures Number(lead + sign + rest) == None && AfterFailure(lead + sign + rest) == rest
  {
    var t := sign + rest;
    assert lead + sign + rest == lead + t;
    LeadSkipped(lead, t);
  }

  lemma {:induction false} LeadSkipped(lead: string, t: string)
    requires (forall c :: c in lead ==> IsSpace(c)) && t != [] && !IsSpace(t[0])
    ensures SkipSpace(lead + t) == t
    decreases |lead|
  {
    if lead == [] {
      assert lead + t == t;
    } else {
      assert (lead + t)[1..] == lead[1..] + t;
      LeadSkipped(lead[1..], t);
    }
  }

  /** The characters of `isspace`. */
  lemma {:induction false} SpacesAre(c: char)
    ensures IsSpace(c) <==> 9 <= c as int <= 13 || c as int == 32
  {
  }
}
