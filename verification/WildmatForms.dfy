/** What patterns in their usual forms match, told of the octets one writes and the code
    points of the text, without the matcher's own terms. */
module WildmatForms {
  import opened Wrappers
  import opened Utf8
  import opened Utf8Encoding
  import opened Wildmat
  import opened WildmatSemantics
  import opened WildmatExpression

  // ----- classes

  /** One item of a class: a code point or a span of them. */
  datatype Item = One(c: codepoint) | Span(lo: codepoint, hi: codepoint) {
    function First(): codepoint {
      if One? then c else lo
    }

    function Text(): seq<byte> {
      match this
      case One(c) => Encode(c)
      case Span(lo, hi) => Encode(lo) + ([MINUS] + Encode(hi))
    }

    /** A span that runs backwards still holds its first code point. */
    predicate Holds(x: int) {
      match this
      case One(c) => x == c
      case Span(lo, hi) => x == lo || lo <= x <= hi
    }
  }

  function ClassText(items: seq<Item>): seq<byte> {
    if items == [] then [] else items[0].Text() + ClassText(items[1..])
  }

  predicate Named(items: seq<Item>, x: int) {
    exists i :: 0 <= i < |items| && items[i].Holds(x)
  }

  /** A `-` behind a single code point makes a span of it, unless it ends the class. */
  predicate Spelled(items: seq<Item>, behindOne: bool) {
    items == []
    || (!(behindOne && items[0].First() == MINUS && !(items[0].One? && |items| == 1))
        && Spelled(items[1..], items[0].One?))
  }

  lemma {:induction false} NamedFirst(items: seq<Item>, x: int)
    requires items != []
    ensures Named(items, x) <==> items[0].Holds(x) || Named(items[1..], x)
  {
    if i :| 0 < i < |items| && items[i].Holds(x) {
      assert items[1..][i - 1] == items[i];
    }
    if i :| 0 <= i < |items[1..]| && items[1..][i].Holds(x) {
      assert items[i + 1].Holds(x);
    }
  }

  /** An ASCII octet starts an encoding exactly if it is the code point itself. */
  lemma {:induction false} AsciiFirst(c: codepoint, b: byte)
    requires 0 < b < 0x80
    ensures Encode(c)[0] == b <==> c == b
    ensures c == b ==> Encode(c) == [b]
  {
    var n := EncodedLength(c);
    if n > 1 {
      HighFits(c);
      LeadOctet(n, High(c, n - 1));
    }
  }

  /** A code point is scanned as one item. */
  lemma {:induction false} ScanOne(d: codepoint, rest: seq<byte>, first: Option<int>, x: int)
    requires !(first.Some? && d == MINUS && rest != [])
    ensures Scan(Encode(d) + rest, first, x) <==> x == d || Scan(rest, Some(d), x)
  {
    var body := Encode(d) + rest;
    AsciiFirst(d, MINUS);
    DecodeEncode(d, rest);
    assert body[|Encode(d)|..] == rest;
    assert body[0] == Encode(d)[0];
    hide Encode, Decode, Width;
  }

  /** What stands behind the first code point of a span. */
  lemma {:induction false} ScanSpan(lo: int, hi: codepoint, rest: seq<byte>, x: int)
    ensures Scan([MINUS] + Encode(hi) + rest, Some(lo), x) <==> lo <= x <= hi || Scan(rest, None, x)
  {
    var body := [MINUS] + Encode(hi) + rest;
    DecodeEncode(hi, rest);
    assert body[1..] == Encode(hi) + rest;
    assert body[1..][|Encode(hi)|..] == rest;
    hide Encode, Decode, Width;
  }

  lemma {:induction false} ClassTextEmpty(items: seq<Item>)
    ensures ClassText(items) == [] <==> items == []
  {
  }

  lemma {:induction false} ScanItems(items: seq<Item>, first: Option<int>, x: int)
    requires Spelled(items, first.Some?)
    ensures Scan(ClassText(items), first, x) <==> Named(items, x)
    decreases |items|
  {
    if items != [] {
      hide Scan, Encode, Named;
      NamedFirst(items, x);
      var rest := ClassText(items[1..]);
      ClassTextEmpty(items[1..]);
      match items[0]
      case One(c) =>
        ScanOne(c, rest, first, x);
        ScanItems(items[1..], Some(c), x);
      case Span(lo, hi) =>
        var tail := [MINUS] + Encode(hi) + rest;
        assert Encode(lo) + ([MINUS] + Encode(hi)) + rest == Encode(lo) + tail;
        ScanOne(lo, tail, first, x);
        ScanSpan(lo, hi, rest, x);
        ScanItems(items[1..], None, x);
    }
    else {
      assert !Named(items, x);
    }
  }

  lemma {:induction false} FirstOctet(items: seq<Item>, b: byte)
    requires items != [] && 0 < b < 0x80
    ensures ClassText(items) != [] && (ClassText(items)[0] == b <==> items[0].First() == b)
  {
    AsciiFirst(items[0].First(), b);
  }

  /** A class written from items reads one code point, and goes on exactly if some item
      holds it. */
  lemma {:induction false} ClassNames(items: seq<Item>, es: seq<Element>, c: codepoint, rest: seq<byte>)
    requires Spelled(items, false) && (items != [] ==> items[0].First() != CARET)
    ensures Run([Set(ClassText(items))] + es, Encode(c) + rest) == if Named(items, c) then Run(es, rest) else No
  {
    hide Run, ClassText, Scan, Ranges, Covers, Encode, Spelled, Named, Item.First;
    var body := ClassText(items);
    ClassTextEmpty(items);
    if items != [] {
      FirstOctet(items, CARET);
    }
    ScanItems(items, None, c);
    ScanIsCovers(body, None, c);
    ClassReadsCodePoint(body, es, c, rest);
  }

  /** With `^` in front it goes on exactly if none does. */
  lemma {:induction false} CaretClassNames(items: seq<Item>, es: seq<Element>, c: codepoint, rest: seq<byte>)
    requires Spelled(items, false)
    ensures Run([Set([CARET] + ClassText(items))] + es, Encode(c) + rest)
         == if Named(items, c) then No else Run(es, rest)
  {
    hide Run, ClassText, Scan, Ranges, Covers, Encode, Spelled, Named;
    var body := [CARET] + ClassText(items);
    assert body[1..] == ClassText(items);
    ScanItems(items, None, c);
    ScanIsCovers(ClassText(items), None, c);
    ClassReadsCodePoint(body, es, c, rest);
  }

  /** Whatever stands in a class, malformed or not, `^` negates it, in front of any
      text. */
  lemma {:induction false} CaretNegates(body: seq<byte>, c: codepoint)
    requires body != [] && body[0] != CARET
    ensures Run([Set([CARET] + body)], Encode(c)) == Yes <==> Run([Set(body)], Encode(c)) != Yes
  {
    hide Encode;
    ClassReadsCodePoint([CARET] + body, [], c, []);
    ClassReadsCodePoint(body, [], c, []);
    assert [Set(body)] + [] == [Set(body)] && [Set([CARET] + body)] + [] == [Set([CARET] + body)];
    assert Encode(c) + [] == Encode(c);
    assert ([CARET] + body)[1..] == body;
  }

  lemma {:induction false} LongOctets(c: codepoint, i: nat)
    requires i < |Encode(c)| && EncodedLength(c) > 1
    ensures Encode(c)[i] >= 0x80
  {
    var n := EncodedLength(c);
    HighFits(c);
    LeadOctet(n, High(c, n - 1));
    if i > 0 {
      assert Encode(c)[i] == Tail(c, n - 1)[i - 1];
    }
  }

  /** Octets below 0x80 stand for themselves only. */
  lemma {:induction false} AsciiNowhereElse(c: codepoint, b: byte, i: nat)
    requires b < 0x80 && i < |Encode(c)| && Encode(c)[i] == b
    ensures c == b
  {
    if EncodedLength(c) > 1 {
      LongOctets(c, i);
    }
  }

  /** No item but the first begins with `]`, and none ends with it. */
  predicate Enclosable(items: seq<Item>) {
    && (forall i :: 0 < i < |items| ==> items[i].First() != CLOSE)
    && (forall i :: 0 <= i < |items| && items[i].Span? ==> items[i].hi != CLOSE)
  }

  lemma {:induction false} ItemOctets(item: Item, b: byte, i: nat)
    requires b < 0x80 && b != MINUS && i < |item.Text()| && item.Text()[i] == b
    ensures (i == 0 && item.First() == b) || (item.Span? && item.hi == b)
  {
    hide Encode;
    match item
    case One(c) =>
      AsciiNowhereElse(c, b, i);
      OneOctet(c);
    case Span(lo, hi) =>
      if i < |Encode(lo)| {
        AsciiNowhereElse(lo, b, i);
        OneOctet(lo);
      } else {
        assert i != |Encode(lo)|;
        AsciiNowhereElse(hi, b, i - |Encode(lo)| - 1);
      }
  }

  lemma {:induction false} OneOctet(c: codepoint)
    ensures c < 0x80 ==> |Encode(c)| == 1
  {
  }

  lemma {:induction false} ItemsOctets(items: seq<Item>, b: byte, i: nat) returns (k: nat)
    requires b < 0x80 && b != MINUS && i < |ClassText(items)| && ClassText(items)[i] == b
    ensures k < |items|
    ensures (items[k].First() == b && (k == 0 ==> i == 0)) || (items[k].Span? && items[k].hi == b)
    decreases |items|
  {
    var w := items[0].Text();
    if i < |w| {
      k := 0;
      ItemOctets(items[0], b, i);
    } else {
      k := ItemsOctets(items[1..], b, i - |w|);
      k := k + 1;
    }
  }

  lemma {:induction false} ClassToken(items: seq<Item>, caret: bool)
    requires items != [] && Enclosable(items) && (!caret ==> items[0].First() != CARET)
    ensures Token.Class((if caret then [CARET] else []) + ClassText(items)).Valid()
  {
    hide ClassText, Item.Text, Item.First;
    var text := ClassText(items);
    var body := (if caret then [CARET] else []) + text;
    FirstOctet(items, CARET);
    forall i | 0 <= i < |text| ensures text[i] != 0 && (i > 0 ==> text[i] != CLOSE) {
      if text[i] == 0 {
        var k := ItemsOctets(items, 0, i);
      }
      if text[i] == CLOSE && i > 0 {
        var k := ItemsOctets(items, CLOSE, i);
      }
    }
    var first := if caret then 1 else 0;
    forall i | 0 <= i < |body| ensures body[i] != 0 && (i > first ==> body[i] != CLOSE) {
      assert i >= first ==> body[i] == text[i - first];
    }
  }

  /** So a class in brackets admits one code point, named or, with `^`, not. */
  lemma {:induction false} ClassAdmitsNamed(items: seq<Item>, caret: bool, c: codepoint)
    requires items != [] && Spelled(items, false) && Enclosable(items) && (!caret ==> items[0].First() != CARET)
    ensures Admits([OPEN] + ((if caret then [CARET] else []) + ClassText(items)) + [CLOSE], Encode(c))
       <==> Named(items, c) != caret
  {
    hide Run, Parse, ClassText, Named, Spelled, Encode, Enclosable, Item.First, Token.Valid;
    var body := (if caret then [CARET] else []) + ClassText(items);
    var pat := [OPEN] + body + [CLOSE];
    ClassToken(items, caret);
    OneToken(Token.Class(body));
    PatternStep(pat, 0, [Token.Class(body)]);
    assert [Set(body)] + [] == [Set(body)] && Encode(c) + [] == Encode(c);
    NothingMatchesNothing();
    if caret {
      CaretClassNames(items, [], c, []);
    } else {
      assert body == ClassText(items);
      ClassNames(items, [], c, []);
    }
  }

  lemma {:induction false} NothingMatchesNothing()
    ensures Run([], []) == Yes
  {
  }

  // ----- whole patterns

  /** What `match_pattern` says of a whole pattern. */
  predicate Admits(pat: seq<byte>, text: seq<byte>) {
    Run(Parse(pat, 0, |pat|), text) == Yes
  }

  /** `*` alone admits every text. */
  lemma {:induction false} StarAdmitsAll(text: seq<byte>)
    ensures Admits([STAR], text)
  {
    assert Parse([STAR], 1, 1) == [];
    assert Parse([STAR], 0, 1) == [Star];
  }

  /** A text with a backslash in front of every octet admits itself only. */
  lemma {:induction false} EscapeAdmitsItself(a: seq<byte>, text: seq<byte>)
    requires NulFree(a)
    ensures Admits(Escape(a), text) <==> text == a
  {
    hide Parse, Escape;
    ParseEscape([], a, []);
    ParseEnd(Escape(a));
    assert [] + Escape(a) + [] == Escape(a) && Literals(a) + [] == Literals(a);
    LiteralsExactly(a, text);
  }

  lemma {:induction false} LiteralsExactly(a: seq<byte>, text: seq<byte>)
    ensures Run(Literals(a), text) == Yes <==> text == a
    decreases |a|
  {
    if a != [] {
      LiteralsSplit(a);
      assert ([Lit(a[0])] + Literals(a[1..]))[1..] == Literals(a[1..]);
      if text != [] {
        LiteralsExactly(a[1..], text[1..]);
        assert text == [text[0]] + text[1..] && a == [a[0]] + a[1..];
      }
    }
  }

  /** A star between two texts admits what starts with the one and ends with the
      other behind it. */
  lemma {:induction false} StarBetween(a: seq<byte>, b: seq<byte>, text: seq<byte>)
    requires NulFree(a) && NulFree(b)
    ensures Admits(Escape(a) + [STAR] + Escape(b), text) <==>
            |a| + |b| <= |text| && text[..|a|] == a && text[|text| - |b|..] == b
  {
    hide Parse, Escape, Run, Matches;
    var pat := Escape(a) + [STAR] + Escape(b);
    var x := Escape(a);
    assert pat == [] + x + ([STAR] + Escape(b));
    ParseEscape([], a, [STAR] + Escape(b));
    assert pat == (x + [STAR]) + Escape(b) + [];
    ParseEscape(x + [STAR], b, []);
    ParseEnd(pat);
    assert pat[|x|] == STAR;
    ParseMeta(pat, |x|);
    assert Literals(b) + [] == Literals(b);
    var es := Literals(a) + ([Star] + Literals(b));
    assert Parse(pat, 0, |pat|) == es;
    OctetsAround(a, b);
    PatternDecides(es, text);
    AroundMatches(a, b, text);
  }

  lemma {:induction false} OctetsAround(a: seq<byte>, b: seq<byte>)
    ensures OctetsBehindStar(Literals(a) + ([Star] + Literals(b)))
  {
  }

  lemma {:induction false} LiteralsMatch(a: seq<byte>, es: seq<Element>, text: seq<byte>)
    ensures Matches(Literals(a) + es, text) <==>
            |a| <= |text| && text[..|a|] == a && Matches(es, text[|a|..])
    decreases |a|
  {
    if a == [] {
      assert Literals(a) + es == es && text[0..] == text;
    } else {
      LiteralsSplit(a);
      assert (Literals(a) + es)[1..] == Literals(a[1..]) + es;
      if text != [] {
        LiteralsMatch(a[1..], es, text[1..]);
        PrefixStep(a, text);
      }
    }
  }

  lemma {:induction false} PrefixStep(a: seq<byte>, text: seq<byte>)
    requires a != [] && text != []
    ensures |a| <= |text| && text[..|a|] == a <==>
            text[0] == a[0] && |a[1..]| <= |text[1..]| && text[1..][..|a[1..]|] == a[1..]
    ensures |a| <= |text| ==> text[1..][|a[1..]|..] == text[|a|..]
  {
    if |a| <= |text| {
      assert text[..|a|] == [text[0]] + text[1..][..|a| - 1];
      assert a == [a[0]] + a[1..];
    }
  }

  lemma {:induction false} AroundMatches(a: seq<byte>, b: seq<byte>, text: seq<byte>)
    ensures Matches(Literals(a) + ([Star] + Literals(b)), text) <==>
            |a| + |b| <= |text| && text[..|a|] == a && text[|text| - |b|..] == b
  {
    LiteralsMatch(a, [Star] + Literals(b), text);
    if |a| <= |text| && text[..|a|] == a {
      StarMatches(b, text[|a|..]);
      assert |b| <= |text| - |a| ==> text[|a|..][|text| - |a| - |b|..] == text[|text| - |b|..];
    }
  }

  lemma {:induction false} StarMatches(b: seq<byte>, text: seq<byte>)
    ensures Matches([Star] + Literals(b), text) <==> |b| <= |text| && text[|text| - |b|..] == b
  {
    var es := [Star] + Literals(b);
    assert es[1..] == Literals(b);
    assert Literals(b) + [] == Literals(b);
    forall k | 0 <= k <= |text|
      ensures Matches(Literals(b), text[k..]) <==> |text| - k == |b| && text[k..] == b
    {
      LiteralsMatch(b, [], text[k..]);
      if |text| - k == |b| {
        assert text[k..][..|b|] == text[k..];
      }
    }
  }

  function Marks(n: nat): (pat: seq<byte>)
    ensures |pat| == n
  {
    seq(n, i => QUESTION)
  }

  /** `n` question marks admit the encoded texts of `n` code points. */
  lemma {:induction false} MarksCountCharacters(n: nat, cs: seq<codepoint>)
    ensures Admits(Marks(n), EncodeAll(cs)) <==> |cs| == n
  {
    hide Parse, Run, EncodeAll, Marks, Questions;
    MarksParsed(Marks(n), n, 0);
    QuestionsCountCharacters(n, cs);
  }

  lemma {:induction false} MarksParsed(pat: seq<byte>, n: nat, p: nat)
    requires p <= n && pat == Marks(n)
    ensures Parse(pat, p, n) == Questions(n - p)
    decreases n - p
  {
    if p < n {
      MarksParsed(pat, n, p + 1);
    }
  }

  // ----- expressions

  predicate Accepted(seg: Segment, text: seq<byte>) {
    Run(Meanings(seg.toks), text) == Yes
  }

  /** The last pattern that is accepted, None without one. */
  lemma {:induction false} LastAccepted(segs: seq<Segment>, text: seq<byte>) returns (i: Option<nat>)
    ensures i.Some? ==> i.value < |segs| && Accepted(segs[i.value], text)
    ensures forall j :: (if i.Some? then i.value else -1) < j < |segs| ==> !Accepted(segs[j], text)
    ensures LastVerdict(segs, text) == if i.Some? then segs[i.value].Verdict() else Fail
    decreases |segs|
  {
    hide Run, Meanings;
    if segs == [] {
      i := None;
    } else {
      var n := |segs| - 1;
      if Accepted(segs[n], text) {
        i := Some(n);
      } else {
        i := LastAccepted(segs[..n], text);
        forall j | (if i.Some? then i.value else -1) < j < |segs| ensures !Accepted(segs[j], text) {
          assert j < n ==> segs[j] == segs[..n][j];
        }
      }
    }
  }

  /** The pattern behind which no other is accepted decides by its mark: a match without
      one, none behind `!`, a poisoned one behind `@`. */
  lemma {:induction false} MarkDecides(segs: seq<Segment>, text: seq<byte>, allowpoison: bool, i: nat)
    requires AllSegmentsValid(segs, allowpoison) && Separable(segs)
    requires i < |segs| && Accepted(segs[i], text) && forall j :: i < j < |segs| ==> !Accepted(segs[j], text)
    ensures var r := Evaluate(text, ExpressionText(segs), 0, allowpoison, Fail);
            && (r == Match <==> segs[i].mark == Unmarked)
            && (r == Fail <==> segs[i].mark == Not)
            && (r == Poison <==> segs[i].mark == At)
  {
    hide Accepted, AllSegmentsValid, Separable, ExpressionText, Evaluate;
    ExpressionDecides(segs, text, allowpoison);
    var last := LastAccepted(segs, text);
  }

  /** An expression of which no pattern is accepted does not match. */
  lemma {:induction false} NoneDecides(segs: seq<Segment>, text: seq<byte>, allowpoison: bool)
    requires segs != [] && AllSegmentsValid(segs, allowpoison) && Separable(segs)
    requires forall j :: 0 <= j < |segs| ==> !Accepted(segs[j], text)
    ensures Evaluate(text, ExpressionText(segs), 0, allowpoison, Fail) == Fail
  {
    hide Accepted, AllSegmentsValid, Separable, ExpressionText, Evaluate;
    ExpressionDecides(segs, text, allowpoison);
    var last := LastAccepted(segs, text);
  }

  /** Everything but what the pattern admits: `*,!pattern` and, poisoned, `*,@pattern`. */
  lemma {:induction false} AllBut(toks: seq<Token>, text: seq<byte>, poison: bool)
    requires AllValid(toks) && RunsThrough(PatternText(toks), true)
    ensures Evaluate(text, [STAR, COMMA, if poison then AT else BANG] + PatternText(toks), 0, true, Fail)
         == if Run(Meanings(toks), text) != Yes then Match else if poison then Poison else Fail
  {
    hide Run, PatternText, Evaluate, RunsThrough, Meanings, Split;
    var a, b := Segment(Unmarked, [Plain(STAR)]), Segment(if poison then At else Not, toks);
    var segs := [a, b];
    OneToken(Plain(STAR));
    AlikeRunsThrough([Plain(STAR)], false);
    StarMeans(text);
    assert segs[1..] == [b];
    assert ExpressionText(segs) == [STAR] + [COMMA] + ([if poison then AT else BANG] + PatternText(toks));
    assert ExpressionText(segs) == [STAR, COMMA, if poison then AT else BANG] + PatternText(toks);
    if Accepted(b, text) {
      MarkDecides(segs, text, true, 1);
    } else {
      MarkDecides(segs, text, true, 0);
    }
  }

  lemma {:induction false} StarMeans(text: seq<byte>)
    ensures Run([Star], text) == Yes
  {
  }

  /** Where poison is not asked for, `@` is an octet like any other. */
  lemma {:induction false} AtIsPlain(toks: seq<Token>, text: seq<byte>)
    requires AllValid(toks) && RunsThrough([AT] + PatternText(toks), true)
    ensures Evaluate(text, [AT] + PatternText(toks), 0, false, Fail)
         == if Run([Lit(AT)] + Meanings(toks), text) == Yes then Match else Fail
  {
    hide Run, PatternText, Evaluate, RunsThrough, Meanings, Split;
    var all := [Plain(AT)] + toks;
    var seg := Segment(Unmarked, all);
    TextFirst(all);
    MeaningsFirst(all);
    assert all[1..] == toks;
    assert ExpressionText([seg]) == [AT] + PatternText(toks);
    if Accepted(seg, text) {
      MarkDecides([seg], text, false, 0);
    } else {
      NoneDecides([seg], text, false);
    }
  }

  lemma {:induction false} MeaningsFirst(toks: seq<Token>)
    requires toks != []
    ensures Meanings(toks) == [toks[0].Meaning()] + Meanings(toks[1..])
  {
  }
}
