/** The wildmat matcher itself: the in-place scanner of `match_pattern` and
    `match_class`, each proved equal to a short function over the elements of
    the pattern. */
module Wildmat {
  import opened Wrappers
  import opened Utf8

  const STAR: byte := 42
  const QUESTION: byte := 63
  const BACKSLASH: byte := 92
  const OPEN: byte := 91
  const CLOSE: byte := 93
  const CARET: byte := 94
  const MINUS: byte := 45
  const COMMA: byte := 44
  const BANG: byte := 33
  const AT: byte := 64

  /** The source's true (1), false (0) and ABORT (-1). */
  datatype Verdict = Yes | No | Abort

  /** What a pattern is made of; `Bad` is an unclosed class or a backslash with
      nothing behind it. */
  datatype Element = Star | Any | Lit(b: byte) | Set(body: seq<byte>) | Bad

  // ----- character classes

  /** A run of code points, both ends included. */
  datatype Range = Range(lo: int, hi: int)

  /** The runs a class body lists. `first` is the character a `-` would extend. */
  function Ranges(body: seq<byte>, first: Option<int>): seq<Range>
    decreases |body|
  {
    if body == [] then []
    else if first.Some? && body[0] == MINUS && |body| > 1 then
      var rest := body[1..];
      [Range(first.value, Decode(rest))] + Ranges(rest[Width(rest)..], None)
    else
      var c := Decode(body);
      [Range(c, c)] + Ranges(body[Width(body)..], Some(c))
  }

  predicate Covers(ranges: seq<Range>, c: int) {
    exists i :: 0 <= i < |ranges| && ranges[i].lo <= c <= ranges[i].hi
  }

  /** The meaning of a class: the code points listed, or with `^` all others. */
  predicate ClassAdmits(body: seq<byte>, c: int) {
    if body != [] && body[0] == CARET then !Covers(Ranges(body[1..], None), c)
    else Covers(Ranges(body, None), c)
  }

  lemma {:induction false} CoversCons(r: Range, rs: seq<Range>, c: int)
    ensures Covers([r] + rs, c) <==> r.lo <= c <= r.hi || Covers(rs, c)
  {
    if r.lo <= c <= r.hi {
      assert ([r] + rs)[0] == r;
    }
    if i :| 0 <= i < |rs| && rs[i].lo <= c <= rs[i].hi {
      assert ([r] + rs)[i + 1] == rs[i];
    }
  }

  /** The scan of a class body, one item at a time. */
  predicate Scan(body: seq<byte>, first: Option<int>, c: int)
    decreases |body|
  {
    if body == [] then false
    else if first.Some? && body[0] == MINUS && |body| > 1 then
      var rest := body[1..];
      first.value <= c <= Decode(rest) || Scan(rest[Width(rest)..], None, c)
    else
      c == Decode(body) || Scan(body[Width(body)..], Some(Decode(body)), c)
  }

  lemma {:induction false} ScanIsCovers(body: seq<byte>, first: Option<int>, c: int)
    ensures Scan(body, first, c) <==> Covers(Ranges(body, first), c)
    decreases |body|
  {
    if body == [] {
    } else if first.Some? && body[0] == MINUS && |body| > 1 {
      var rest := body[1..];
      ScanIsCovers(rest[Width(rest)..], None, c);
      CoversCons(Range(first.value, Decode(rest)), Ranges(rest[Width(rest)..], None), c);
    } else {
      var d := Decode(body);
      ScanIsCovers(body[Width(body)..], Some(d), c);
      CoversCons(Range(d, d), Ranges(body[Width(body)..], Some(d)), c);
    }
  }

  method MatchClass(c: int, pat: seq<byte>, start: nat, stop: nat) returns (r: bool)
    requires start < stop <= |pat|
    ensures r == ClassAdmits(pat[start..stop], c)
  {
    var p := start;
    var reversed := pat[p] == CARET;
    if reversed {
      p := p + 1;
    }
    ghost var body := pat[p..stop];
    assert reversed ==> pat[start..stop][1..] == body;
    ScanIsCovers(body, None, c);
    r := ScanClass(c, pat, p, stop, reversed);
  }

  /** One turn of the scan over `pat[p..stop]`. */
  lemma {:induction false} ScanStep(pat: seq<byte>, p: nat, stop: nat, first: Option<int>, c: int)
    requires p <= stop <= |pat|
    ensures p == stop ==> !Scan(pat[p..stop], first, c)
    ensures p < stop && first.Some? && pat[p] == MINUS && p < stop - 1 ==>
              (Scan(pat[p..stop], first, c) <==>
                 || first.value <= c <= Decode(pat[p + 1..stop])
                 || Scan(pat[p + 1 + Width(pat[p + 1..stop])..stop], None, c))
    ensures p < stop && !(first.Some? && pat[p] == MINUS && p < stop - 1) ==>
              (Scan(pat[p..stop], first, c) <==>
                 || c == Decode(pat[p..stop])
                 || Scan(pat[p + Width(pat[p..stop])..stop], Some(Decode(pat[p..stop])), c))
  {
    var here := pat[p..stop];
    if p == stop {
    } else if first.Some? && pat[p] == MINUS && p < stop - 1 {
      var rest := pat[p + 1..stop];
      assert here[1..] == rest;
      assert rest[Width(rest)..] == pat[p + 1 + Width(rest)..stop];
    } else {
      assert here[Width(here)..] == pat[p + Width(here)..stop];
    }
  }

  /** `first` is None where the source has `allowrange` cleared. */
  method ScanClass(c: int, pat: seq<byte>, start: nat, stop: nat, reversed: bool) returns (r: bool)
    requires start <= stop <= |pat|
    ensures r == (Scan(pat[start..stop], None, c) != reversed)
  {
    var p: nat := start;
    var first: Option<int> := None;
    hide Scan, Decode, Width;
    ghost var answer := Scan(pat[start..stop], None, c);
    while p < stop
      invariant start <= p <= stop
      invariant answer == Scan(pat[p..stop], first, c)
    {
      ScanStep(pat, p, stop, first, c);
      if first.Some? && pat[p] == MINUS && p < stop - 1 {
        p := p + 1;
        var n, last := Utf8Decode(pat, p, Some(stop - 1));
        p := p + n;
        if first.value <= c <= last {
          return !reversed;
        }
        first := None;
      } else {
        var n, single := Utf8Decode(pat, p, Some(stop - 1));
        p := p + n;
        if c == single {
          return !reversed;
        }
        first := Some(single);
      }
    }
    ScanStep(pat, stop, stop, first, c);
    return reversed;
  }

  // ----- patterns

  /** Octet `i` of a C string; the terminating NUL stands at its length. */
  function Octet(pat: seq<byte>, i: nat): byte {
    if i < |pat| then pat[i] else 0
  }

  /** memchr: the first `]` in `[i, e)`, or `e`. */
  function FindClose(pat: seq<byte>, i: nat, e: nat): (j: nat)
    ensures j <= e
    ensures j < e ==> i <= j < |pat| && pat[j] == CLOSE
    ensures forall k :: i <= k < j && k < e ==> Octet(pat, k) != CLOSE
    decreases e - i
  {
    if i >= e || Octet(pat, i) == CLOSE then (if i >= e then e else i) else FindClose(pat, i + 1, e)
  }

  /** Where the search for the end of a class starts that opens at `p`: one
      octet further on than the `[` or the `[^`, so that a `]` there is a member. */
  function ClassSearch(pat: seq<byte>, p: nat): nat {
    p + 1 + (if Octet(pat, p + 1) == CARET then 1 else 0) + 1
  }

  /** The elements between `p` and `e` (exclusive). */
  function Parse(pat: seq<byte>, p: nat, e: nat): seq<Element>
    decreases if p < e then e - p else 0
  {
    if p >= e then []
    else if Octet(pat, p) == BACKSLASH then
      if Octet(pat, p + 1) == 0 then [Bad]
      else [Lit(Octet(pat, p + 1))] + Parse(pat, p + 2, e)
    else if Octet(pat, p) == QUESTION then [Any] + Parse(pat, p + 1, e)
    else if Octet(pat, p) == STAR then [Star] + Parse(pat, p + 1, e)
    else if Octet(pat, p) == OPEN then
      var q := ClassSearch(pat, p);
      var close := FindClose(pat, q, e);
      if q >= e || close == e then [Bad]
      else [Set(pat[p + 1..close])] + Parse(pat, close + 1, e)
    else [Lit(Octet(pat, p))] + Parse(pat, p + 1, e)
  }

  function SkipStars(es: seq<Element>): (r: seq<Element>)
    ensures |r| <= |es|
    ensures r != [] ==> !r[0].Star?
  {
    if es != [] && es[0].Star? then SkipStars(es[1..]) else es
  }

  /** An element other than a star takes the first character of a text. */
  predicate Accepts(el: Element, t: seq<byte>)
    requires t != []
  {
    match el
    case Lit(b) => t[0] == b
    case Any => true
    case Set(body) => ClassAdmits(body, Decode(t))
    case _ => false
  }

  /** How many octets it takes then. */
  function Taken(el: Element, t: seq<byte>): (n: nat)
    requires t != []
    ensures 1 <= n <= |t|
  {
    if el.Lit? then 1 else Width(t)
  }

  /** The verdict on a text: star loops without the look-ahead for a literal. */
  function Run(es: seq<Element>, t: seq<byte>): Verdict
    decreases |es|, |t|, 0
  {
    if es == [] then (if t == [] then Yes else No)
    else if es[0].Star? then
      var rest := SkipStars(es[1..]);
      if rest == [] then Yes else StarLoop(rest, t)
    else if t == [] || es[0].Bad? then Abort
    else if Accepts(es[0], t) then Run(es[1..], t[Taken(es[0], t)..])
    else No
  }

  /** Try `rest` at each octet of the text until it matches or aborts. */
  function StarLoop(rest: seq<Element>, t: seq<byte>): Verdict
    decreases |rest|, |t|, 1
  {
    if t == [] then Abort
    else
      var m := Run(rest, t);
      if m != No then m else StarLoop(rest, t[1..])
  }

  /** One element against the text from `t` on. */
  lemma {:induction false} RunCons(el: Element, rest: seq<Element>, text: seq<byte>, t: nat)
    requires t <= |text|
    requires !el.Star?
    ensures t == |text| || el.Bad? ==> Run([el] + rest, text[t..]) == Abort
    ensures t < |text| && !el.Bad? && !Accepts(el, text[t..]) ==> Run([el] + rest, text[t..]) == No
    ensures t < |text| && !el.Bad? && Accepts(el, text[t..]) ==>
              Run([el] + rest, text[t..]) == Run(rest, text[t + Taken(el, text[t..])..])
  {
    assert ([el] + rest)[1..] == rest;
    if t < |text| {
      assert text[t..][Taken(el, text[t..])..] == text[t + Taken(el, text[t..])..];
    }
  }

  /** The verdict from pattern octet `p` and text octet `t` on. */
  function RunAt(text: seq<byte>, t: nat, pat: seq<byte>, p: nat, e: nat): Verdict
    requires t <= |text|
  {
    Run(Parse(pat, p, e), text[t..])
  }

  // What each case of the switch may do.

  lemma {:induction false} AtEnds(text: seq<byte>, t: nat, pat: seq<byte>, p: nat, e: nat)
    requires t <= |text|
    ensures p >= e ==> RunAt(text, t, pat, p, e) == if t == |text| then Yes else No
    ensures p < e && t == |text| && Octet(pat, p) != STAR ==> RunAt(text, t, pat, p, e) == Abort
  {
  }

  lemma {:induction false} AtQuestion(text: seq<byte>, t: nat, pat: seq<byte>, p: nat, e: nat)
    requires t < |text| && p < e && Octet(pat, p) == QUESTION
    ensures RunAt(text, t, pat, p, e) == RunAt(text, t + Width(text[t..]), pat, p + 1, e)
  {
    RunCons(Any, Parse(pat, p + 1, e), text, t);
  }

  lemma {:induction false} AtLiteral(text: seq<byte>, t: nat, pat: seq<byte>, p: nat, e: nat)
    requires t < |text| && p < e && Octet(pat, p) !in {QUESTION, STAR, OPEN}
    ensures var i := if Octet(pat, p) == BACKSLASH then p + 1 else p;
            RunAt(text, t, pat, p, e) ==
              if i > p && Octet(pat, i) == 0 then Abort
              else if text[t] != Octet(pat, i) then No
              else RunAt(text, t + 1, pat, i + 1, e)
  {
    var i := if Octet(pat, p) == BACKSLASH then p + 1 else p;
    if i > p && Octet(pat, i) == 0 {
      RunCons(Bad, [], text, t);
      assert Parse(pat, p, e) == [Bad] + [];
    } else {
      RunCons(Lit(Octet(pat, i)), Parse(pat, i + 1, e), text, t);
    }
  }

  lemma {:induction false} AtClass(text: seq<byte>, t: nat, pat: seq<byte>, p: nat, e: nat)
    requires t < |text| && p < e && Octet(pat, p) == OPEN
    ensures var q := ClassSearch(pat, p);
            var close := FindClose(pat, q, e);
            RunAt(text, t, pat, p, e) ==
              if q >= e || close == e then Abort
              else if ClassAdmits(pat[p + 1..close], Decode(text[t..]))
              then RunAt(text, t + Width(text[t..]), pat, close + 1, e)
              else No
  {
    hide Run, StarLoop, ClassAdmits, Decode, Width;
    var q := ClassSearch(pat, p);
    var close := FindClose(pat, q, e);
    if q >= e || close == e {
      RunCons(Bad, [], text, t);
      assert Parse(pat, p, e) == [Bad] + [];
    } else {
      RunCons(Set(pat[p + 1..close]), Parse(pat, close + 1, e), text, t);
    }
  }

  lemma {:induction false} AtStar(text: seq<byte>, t: nat, pat: seq<byte>, p: nat, e: nat, rest: seq<Element>)
    requires t <= |text| && p < e && Octet(pat, p) == STAR
    requires rest == SkipStars(Parse(pat, p + 1, e))
    ensures RunAt(text, t, pat, p, e) == if rest == [] then Yes else StarLoop(rest, text[t..])
  {
    assert Parse(pat, p, e)[1..] == Parse(pat, p + 1, e);
  }

  /** The matcher on the pattern between `start` and `e` (exclusive) and the text
      from `t0`; the text is the contents of a C string. */
  method MatchPattern(text: seq<byte>, t0: nat, pat: seq<byte>, start: nat, e: nat)
    returns (r: Verdict)
    requires t0 <= |text|
    ensures r == Run(Parse(pat, start, e), text[t0..])
    decreases if start < e then e - start else 0, 1
  {
    assert RunAt(text, t0, pat, start, e) == Run(Parse(pat, start, e), text[t0..]);
    ghost var run := RunAt(text, t0, pat, start, e);
    hide *;
    var t: nat, p: nat := t0, start;
    while p < e
      invariant t <= |text|
      invariant start <= p
      invariant run == RunAt(text, t, pat, p, e)
      decreases e - p
    {
      AtEnds(text, t, pat, p, e);
      if t == |text| && Octet(pat, p) != STAR {
        return Abort;
      }
      if Octet(pat, p) == QUESTION {
        AtQuestion(text, t, pat, p, e);
        var n := Utf8Length(text, t, None);
        t := t + n;
      } else if Octet(pat, p) == STAR {
        r := MatchFromStar(text, t, pat, p, e);
        return;
      } else if Octet(pat, p) == OPEN {
        r, t, p := MatchBracket(text, t, pat, p, e);
        if r != Yes {
          return;
        }
      } else {
        r, t, p := MatchLiteral(text, t, pat, p, e);
        if r != Yes {
          return;
        }
      }
      p := p + 1;
    }
    AtEnds(text, t, pat, p, e);
    return if t == |text| then Yes else No;
  }

  /** The `*` case: what is left of the pattern decides. */
  method MatchFromStar(text: seq<byte>, t: nat, pat: seq<byte>, p0: nat, e: nat) returns (r: Verdict)
    requires t <= |text| && p0 < e && Octet(pat, p0) == STAR
    ensures r == RunAt(text, t, pat, p0, e)
    decreases e - p0, 0
  {
    hide *;
    AtStar(text, t, pat, p0, e, SkipStars(Parse(pat, p0 + 1, e)));
    var p := SkipStarOctets(pat, p0 + 1, e);
    if p >= e {
      return Yes;
    }
    r := MatchStar(text, t, pat, p, e);
  }

  /** An octet that stands for itself, perhaps behind a backslash: `Yes` goes on with
      text octet `t` behind the one at `p`. */
  method MatchLiteral(text: seq<byte>, t0: nat, pat: seq<byte>, p0: nat, e: nat)
    returns (r: Verdict, t: nat, p: nat)
    requires t0 < |text| && p0 < e && Octet(pat, p0) !in {QUESTION, STAR, OPEN}
    ensures r == Yes ==> t <= |text| && p0 <= p
                         && RunAt(text, t0, pat, p0, e) == RunAt(text, t, pat, p + 1, e)
    ensures r != Yes ==> RunAt(text, t0, pat, p0, e) == r
  {
    AtLiteral(text, t0, pat, p0, e);
    hide *;
    t, p := t0, p0;
    if Octet(pat, p) == BACKSLASH {
      p := p + 1;
      if Octet(pat, p) == 0 {
        return Abort, t, p;
      }
    }
    t := t + 1;
    if text[t - 1] != Octet(pat, p) {
      return No, t, p;
    }
    return Yes, t, p;
  }

  lemma {:induction false} ClassSearchIs(pat: seq<byte>, p: nat)
    ensures ClassSearch(pat, p) == p + 1 + (if Octet(pat, p + 1) == CARET then 1 else 0) + 1
  {
  }

  /** The `[` case: `Yes` goes on with text octet `t` behind the `]` at `p`. */
  method MatchBracket(text: seq<byte>, t0: nat, pat: seq<byte>, p0: nat, e: nat)
    returns (r: Verdict, t: nat, p: nat)
    requires t0 < |text| && p0 < e && Octet(pat, p0) == OPEN
    ensures r == Yes ==> t <= |text| && p0 < p < e
                         && RunAt(text, t0, pat, p0, e) == RunAt(text, t, pat, p + 1, e)
    ensures r != Yes ==> RunAt(text, t0, pat, p0, e) == r
  {
    hide Run, Parse, StarLoop, RunAt, ClassAdmits, Decode, Width, ClassSearch, FindClose;
    AtClass(text, t0, pat, p0, e);
    ClassSearchIs(pat, p0);
    t, p := t0, p0 + 1;
    var q := p + (if Octet(pat, p) == CARET then 1 else 0) + 1;
    assert q == ClassSearch(pat, p0);
    if q >= e {
      return Abort, t, p;
    }
    var endclass := FindClose(pat, q, e);
    if endclass == e {
      return Abort, t, p;
    }
    var n, c := Utf8Decode(text, t, None);
    t := t + n;
    var ok := MatchClass(c, pat, p, endclass);
    if !ok {
      return No, t, p;
    }
    return Yes, t, endclass;
  }

  /** Consecutive stars are one star. */
  method SkipStarOctets(pat: seq<byte>, p0: nat, e: nat) returns (p: nat)
    ensures p >= p0 && Octet(pat, p) != STAR
    ensures SkipStars(Parse(pat, p0, e)) == Parse(pat, p, e)
    ensures p < e <==> Parse(pat, p, e) != []
  {
    p := p0;
    while Octet(pat, p) == STAR
      invariant p >= p0
      invariant SkipStars(Parse(pat, p0, e)) == SkipStars(Parse(pat, p, e))
      decreases |pat| - p
    {
      assert p < e ==> Parse(pat, p, e)[1..] == Parse(pat, p + 1, e);
      p := p + 1;
    }
  }

  /** The loop behind a star; the element at `p` is not a star. */
  method MatchStar(text: seq<byte>, t0: nat, pat: seq<byte>, p: nat, e: nat) returns (r: Verdict)
    requires t0 <= |text|
    requires p < e && Octet(pat, p) != STAR
    ensures r == StarLoop(Parse(pat, p, e), text[t0..])
    decreases e - p, 2
  {
    ghost var rest := Parse(pat, p, e);
    var ismeta := Octet(pat, p) == OPEN || Octet(pat, p) == QUESTION || Octet(pat, p) == BACKSLASH;
    assert !ismeta ==> rest == [Lit(Octet(pat, p))] + Parse(pat, p + 1, e);
    var t: nat := t0;
    while t < |text|
      invariant t <= |text|
      invariant StarLoop(rest, text[t0..]) == StarLoop(rest, text[t..])
    {
      var matched;
      if ismeta {
        matched := MatchPattern(text, t, pat, p, e);
        assert text[t..][1..] == text[t + 1..];
        t := t + 1;
      } else {
        while t < |text| && text[t] != Octet(pat, p)
          invariant t <= |text|
          invariant StarLoop(rest, text[t0..]) == StarLoop(rest, text[t..])
        {
          assert text[t..][1..] == text[t + 1..];
          t := t + 1;
        }
        if t == |text| {
          return Abort;
        }
        assert text[t..][1..] == text[t + 1..];
        t := t + 1;
        matched := MatchPattern(text, t, pat, p + 1, e);
      }
      if matched != No {
        return matched;
      }
    }
    return Abort;
  }

  /** `uwildmat_simple`: neither commas nor marks are special. */
  method MatchSimple(text: seq<byte>, pat: seq<byte>) returns (r: bool)
    ensures r <==> Run(Parse(pat, 0, |pat|), text) == Yes
  {
    assert text[0..] == text;
    if pat == [STAR] {
      assert Parse(pat, 0, 1) == [Star] + Parse(pat, 1, 1);
      return true;
    }
    var v := MatchPattern(text, 0, pat, 0, |pat|);
    return v == Yes;
  }
}
