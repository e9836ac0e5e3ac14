/** What a wildmat means, and exactly when the matcher computes it.

    The reference is the naive reading: a star stands for any run of octets, every
    other element for one character. The matcher cuts its search short with
    ABORT, and the main results say when that loses nothing. */
module WildmatSemantics {
  import opened Utf8
  import opened Utf8Encoding
  import opened Wildmat

  ghost predicate Matches(es: seq<Element>, t: seq<byte>)
    decreases |es|
  {
    if es == [] then t == []
    else if es[0].Star? then exists k :: 0 <= k <= |t| && Matches(es[1..], t[k..])
    else t != [] && Accepts(es[0], t) && Matches(es[1..], t[Taken(es[0], t)..])
  }

  /** `Yes` is always right. */
  lemma {:induction false} YesIsRight(es: seq<Element>, t: seq<byte>)
    requires Run(es, t) == Yes
    ensures Matches(es, t)
    decreases |es|, |t|, 0
  {
    if es == [] {
    } else if es[0].Star? {
      var rest := SkipStars(es[1..]);
      if rest == [] {
        StarsMatchAll(es[1..], t[|t|..]);
      } else {
        var k := StarLoopFinds(rest, t);
        StarsMatchMore(es[1..], t[k..]);
      }
    } else {
      YesIsRight(es[1..], t[Taken(es[0], t)..]);
    }
  }

  lemma {:induction false} StarLoopFinds(rest: seq<Element>, t: seq<byte>) returns (k: nat)
    requires StarLoop(rest, t) == Yes
    ensures k <= |t| && Matches(rest, t[k..])
    decreases |rest|, |t|, 1
  {
    if Run(rest, t) == Yes {
      YesIsRight(rest, t);
      k := 0;
      assert t[0..] == t;
    } else {
      var j := StarLoopFinds(rest, t[1..]);
      k := j + 1;
      assert t[1..][j..] == t[k..];
    }
  }

  /** Leading stars may be dropped: they match the empty run. */
  lemma {:induction false} StarsMatchMore(es: seq<Element>, t: seq<byte>)
    requires Matches(SkipStars(es), t)
    ensures Matches(es, t)
    decreases |es|
  {
    if es != [] && es[0].Star? {
      StarsMatchMore(es[1..], t);
      assert t[0..] == t;
    }
  }

  lemma {:induction false} StarsMatchAll(es: seq<Element>, t: seq<byte>)
    requires SkipStars(es) == [] && t == []
    ensures Matches(es, t)
  {
    StarsMatchMore(es, t);
  }

  lemma {:induction false} StarMatch(es: seq<Element>, t: seq<byte>) returns (i: nat)
    requires es != [] && es[0].Star? && Matches(es, t)
    ensures i <= |t| && Matches(es[1..], t[i..])
  {
    i :| i <= |t| && Matches(es[1..], t[i..]);
  }

  lemma {:induction false} DropTwice(t: seq<byte>, i: nat, j: nat)
    requires i + j <= |t|
    ensures t[i..][j..] == t[i + j..]
  {
  }

  /** ... and what they match, the rest matches at some later place. */
  lemma {:induction false} StarsMatchLater(es: seq<Element>, t: seq<byte>) returns (k: nat)
    requires Matches(es, t)
    ensures k <= |t| && Matches(SkipStars(es), t[k..])
    decreases |es|
  {
    hide Matches;
    if es != [] && es[0].Star? {
      var i := StarMatch(es, t);
      var j := StarsMatchLater(es[1..], t[i..]);
      k := i + j;
      DropTwice(t, i, j);
    } else {
      k := 0;
      assert t[0..] == t;
    }
  }

  /** Once a star loop is entered the answer is `Yes` or `Abort`. */
  lemma {:induction false} StarLoopNeverNo(rest: seq<Element>, t: seq<byte>)
    ensures StarLoop(rest, t) != No
    decreases |t|
  {
    if t != [] {
      StarLoopNeverNo(rest, t[1..]);
    }
  }

  /** `No` is always right: it comes from before the first star. */
  lemma {:induction false} NoIsRight(es: seq<Element>, t: seq<byte>)
    requires Run(es, t) == No
    ensures !Matches(es, t)
    decreases |es|
  {
    if es != [] {
      if es[0].Star? {
        StarLoopNeverNo(SkipStars(es[1..]), t);
        assert false;
      } else if Accepts(es[0], t) {
        NoIsRight(es[1..], t[Taken(es[0], t)..]);
      }
    }
  }

  // ----- where ABORT is right

  /** Starting a character later never ends it earlier. */
  ghost predicate Monotone(t: seq<byte>) {
    forall i, j :: 0 <= i <= j < |t| ==> i + Width(t[i..]) <= j + Width(t[j..])
  }

  /** No `?` and no class. */
  ghost predicate OctetsOnly(es: seq<Element>) {
    forall i :: 0 <= i < |es| ==> !es[i].Any? && !es[i].Set?
  }

  /** ABORT at one place: no match at that place or at any later one. */
  ghost predicate NoSuffixMatches(es: seq<Element>, t: seq<byte>) {
    forall k :: 0 <= k <= |t| ==> !Matches(es, t[k..])
  }

  lemma {:induction false} MonotoneSuffix(t: seq<byte>, n: nat)
    requires Monotone(t) && n <= |t|
    ensures Monotone(t[n..])
  {
    var s := t[n..];
    forall i, j | 0 <= i <= j < |s| ensures i + Width(s[i..]) <= j + Width(s[j..]) {
      assert s[i..] == t[n + i..] && s[j..] == t[n + j..];
    }
  }

  /** Taking an element at a later place ends no earlier. */
  lemma {:induction false} TakenMonotone(el: Element, t: seq<byte>, k: nat)
    requires k < |t|
    requires Monotone(t) || OctetsOnly([el])
    requires Accepts(el, t)
    requires Accepts(el, t[k..])
    ensures Taken(el, t) <= k + Taken(el, t[k..])
  {
    assert [el][0] == el;
    assert t[0..] == t;
  }

  lemma {:induction false} SuffixBehindStar(es: seq<Element>, t: seq<byte>)
    requires es != [] && es[0].Star?
    ensures !NoSuffixMatches(es, t) ==> !NoSuffixMatches(SkipStars(es[1..]), t)
  {
    if k :| 0 <= k <= |t| && Matches(es, t[k..]) {
      var i :| 0 <= i <= |t[k..]| && Matches(es[1..], t[k..][i..]);
      var j := StarsMatchLater(es[1..], t[k..][i..]);
      assert t[k..][i..][j..] == t[k + i + j..];
    }
  }

  lemma {:induction false} SuffixBehindElement(es: seq<Element>, t: seq<byte>)
    requires es != [] && !es[0].Star? && t != [] && Accepts(es[0], t)
    requires Monotone(t) || OctetsOnly(es)
    ensures !NoSuffixMatches(es, t) ==> !NoSuffixMatches(es[1..], t[Taken(es[0], t)..])
  {
    if k :| 0 <= k <= |t| && Matches(es, t[k..]) {
      var n, m := Taken(es[0], t), Taken(es[0], t[k..]);
      assert OctetsOnly(es) ==> OctetsOnly([es[0]]);
      TakenMonotone(es[0], t, k);
      assert t[k..][m..] == t[n..][k + m - n..];
    }
  }

  /** The central fact of the ABORT code. */
  lemma {:induction false} AbortIsRight(es: seq<Element>, t: seq<byte>)
    requires Monotone(t) || OctetsOnly(es)
    requires Run(es, t) == Abort
    ensures NoSuffixMatches(es, t)
    decreases |es|, |t|, 0
  {
    if es[0].Star? {
      SkippedOctetsOnly(es[1..]);
      StarAbortIsRight(SkipStars(es[1..]), t);
      SuffixBehindStar(es, t);
    } else if t != [] && !es[0].Bad? {
      var n := Taken(es[0], t);
      if Monotone(t) {
        MonotoneSuffix(t, n);
      }
      AbortIsRight(es[1..], t[n..]);
      SuffixBehindElement(es, t);
    }
  }

  lemma {:induction false} SkippedOctetsOnly(es: seq<Element>)
    ensures OctetsOnly(es) ==> OctetsOnly(SkipStars(es))
    decreases |es|
  {
    if es != [] && es[0].Star? {
      assert OctetsOnly(es) ==> OctetsOnly(es[1..]);
      SkippedOctetsOnly(es[1..]);
    }
  }

  lemma {:induction false} StarAbortIsRight(rest: seq<Element>, t: seq<byte>)
    requires rest != [] && !rest[0].Star?
    requires Monotone(t) || OctetsOnly(rest)
    requires StarLoop(rest, t) == Abort
    ensures NoSuffixMatches(rest, t)
    decreases |rest|, |t|, 1
  {
    if t != [] {
      if Run(rest, t) == Abort {
        AbortIsRight(rest, t);
      } else {
        NoIsRight(rest, t);
        if Monotone(t) {
          MonotoneSuffix(t, 1);
        }
        StarAbortIsRight(rest, t[1..]);
        forall k | 0 <= k <= |t| ensures !Matches(rest, t[k..]) {
          if k > 0 {
            assert t[1..][k - 1..] == t[k..];
          } else {
            assert t[0..] == t;
          }
        }
      }
    }
  }

  // ----- the patterns that never lose a match

  /** Neither `?` nor a class behind the first star. */
  ghost predicate OctetsBehindStar(es: seq<Element>) {
    forall i :: 0 <= i < |es| && es[i].Star? ==> OctetsOnly(es[i..])
  }

  /** ABORT before or behind a first star with only octets behind it. */
  lemma {:induction false} AbortIsRightHere(es: seq<Element>, t: seq<byte>)
    requires OctetsBehindStar(es)
    requires Run(es, t) == Abort
    ensures !Matches(es, t)
    decreases |es|
  {
    if es[0].Star? {
      assert es[0..] == es;
      AbortIsRight(es, t);
      assert t[0..] == t;
    } else if t != [] && Accepts(es[0], t) {
      forall i | 0 <= i < |es[1..]| && es[1..][i].Star? ensures OctetsOnly(es[1..][i..]) {
        assert es[1..][i..] == es[i + 1..];
      }
      AbortIsRightHere(es[1..], t[Taken(es[0], t)..]);
    }
  }

  /** Such a pattern is matched exactly, on every text. */
  lemma {:induction false} PatternDecides(es: seq<Element>, t: seq<byte>)
    requires OctetsBehindStar(es)
    ensures Run(es, t) == Yes <==> Matches(es, t)
  {
    match Run(es, t)
    case Yes => YesIsRight(es, t);
    case No => NoIsRight(es, t);
    case Abort => AbortIsRightHere(es, t);
  }

  // ----- the texts on which no pattern loses a match

  /** No complete sequence of three or more octets: no octet from 0xE0 on that
      its continuation octets follow. */
  ghost predicate NoLongSequence(t: seq<byte>) {
    forall i :: 0 <= i < |t| ==> Width(t[i..]) <= 2
  }

  lemma {:induction false} NoLongSequenceMonotone(t: seq<byte>)
    requires NoLongSequence(t)
    ensures Monotone(t)
  {
  }

  /** The matcher and the reference agree on this pattern string and text. */
  ghost predicate Agree(pat: seq<byte>, t: seq<byte>) {
    Run(Parse(pat, 0, |pat|), t) == Yes <==> Matches(Parse(pat, 0, |pat|), t)
  }

  lemma {:induction false} ElementsAgree(es: seq<Element>, t: seq<byte>)
    requires NoLongSequence(t)
    ensures Run(es, t) == Yes <==> Matches(es, t)
  {
    match Run(es, t)
    case Yes => YesIsRight(es, t);
    case No => NoIsRight(es, t);
    case Abort =>
      NoLongSequenceMonotone(t);
      AbortIsRight(es, t);
      assert t[0..] == t;
  }

  /** The pattern that matches a text literally. */
  function Escape(t: seq<byte>): seq<byte> {
    if t == [] then [] else [BACKSLASH, t[0]] + Escape(t[1..])
  }

  lemma {:induction false} EscapeNulFree(t: seq<byte>)
    requires NulFree(t)
    ensures NulFree(Escape(t))
    decreases |t|
  {
    if t != [] {
      EscapeNulFree(t[1..]);
    }
  }

  function Literals(t: seq<byte>): (es: seq<Element>)
    ensures |es| == |t|
    ensures forall i :: 0 <= i < |t| ==> es[i] == Lit(t[i])
  {
    seq(|t|, i requires 0 <= i < |t| => Lit(t[i]))
  }

  ghost predicate NulFree(t: seq<byte>) {
    forall i :: 0 <= i < |t| ==> t[i] != 0
  }

  lemma {:induction false} ParseEscaped(pat: seq<byte>, p: nat, b: byte)
    requires p + 1 < |pat| && pat[p] == BACKSLASH && pat[p + 1] == b && b != 0
    ensures Parse(pat, p, |pat|) == [Lit(b)] + Parse(pat, p + 2, |pat|)
  {
  }

  lemma {:induction false} EscapeSplit(pre: seq<byte>, t: seq<byte>, post: seq<byte>)
    requires t != []
    ensures pre + Escape(t) + post == (pre + [BACKSLASH, t[0]]) + Escape(t[1..]) + post
  {
    var b, c := [BACKSLASH, t[0]], Escape(t[1..]);
    assert Escape(t) == b + c;
    hide Escape;
    assert pre + (b + c) == (pre + b) + c;
  }

  lemma {:induction false} LiteralsSplit(t: seq<byte>)
    requires t != []
    ensures Literals(t) == [Lit(t[0])] + Literals(t[1..])
  {
  }

  /** Parsing an escaped text in front of anything gives its literals. */
  lemma {:induction false} ParseEscape(pre: seq<byte>, t: seq<byte>, post: seq<byte>)
    requires NulFree(t)
    ensures var pat := pre + Escape(t) + post;
            Parse(pat, |pre|, |pat|) == Literals(t) + Parse(pat, |pat| - |post|, |pat|)
    decreases |t|
  {
    hide Parse;
    var pat := pre + Escape(t) + post;
    if t == [] {
      assert Literals(t) == [] && Escape(t) == [];
    } else {
      hide Escape, Literals;
      EscapeSplit(pre, t, post);
      LiteralsSplit(t);
      var pre' := pre + [BACKSLASH, t[0]];
      ParseEscape(pre', t[1..], post);
      assert pat == pre' + (Escape(t[1..]) + post);
      ParseEscaped(pat, |pre|, t[0]);
      assert [Lit(t[0])] + (Literals(t[1..]) + Parse(pat, |pat| - |post|, |pat|))
          == ([Lit(t[0])] + Literals(t[1..])) + Parse(pat, |pat| - |post|, |pat|);
    }
  }

  /** Literals in front of a pattern are stripped against the same octets. */
  lemma {:induction false} RunLiterals(a: seq<byte>, es: seq<Element>, t: seq<byte>)
    ensures Run(Literals(a) + es, a + t) == Run(es, t)
    ensures Matches(Literals(a) + es, a + t) <==> Matches(es, t)
    decreases |a|
  {
    if a == [] {
      assert Literals(a) + es == es && a + t == t;
    } else {
      RunLiterals(a[1..], es, t);
      assert (Literals(a) + es)[1..] == Literals(a[1..]) + es;
      assert (a + t)[1..] == a[1..] + t;
    }
  }

  /** Literals longer than the text abort the star loop in front of them. */
  lemma {:induction false} StarTooLong(b: seq<byte>, t: seq<byte>)
    requires |b| > |t|
    ensures StarLoop(Literals(b), t) == Abort
    decreases |t|
  {
    if t != [] {
      LiteralsTooLong(b, t);
      StarTooLong(b, t[1..]);
    }
  }

  lemma {:induction false} LiteralsTooLong(b: seq<byte>, t: seq<byte>)
    requires |b| > |t|
    ensures Run(Literals(b), t) != Yes
    decreases |t|
  {
    if t != [] {
      LiteralsTooLong(b[1..], t[1..]);
      assert Literals(b)[1..] == Literals(b[1..]);
    }
  }

  /** The pattern that a long sequence at `i` of `t` makes the matcher lose:
      the text before it, `*?*`, and the text from its third octet on. */
  function LosingPattern(t: seq<byte>, i: nat): seq<byte>
    requires i + 2 <= |t|
  {
    Escape(t[..i]) + [STAR, QUESTION, STAR] + Escape(t[i + 2..])
  }

  lemma {:induction false} LosingElements(t: seq<byte>, i: nat)
    requires NulFree(t) && i + 2 <= |t|
    ensures var pat := LosingPattern(t, i);
            Parse(pat, 0, |pat|) == Literals(t[..i]) + ([Star, Any, Star] + Literals(t[i + 2..]))
  {
    hide Parse, Escape, Literals;
    var pat := LosingPattern(t, i);
    var a, b := Escape(t[..i]), Escape(t[i + 2..]);
    var mid := [STAR, QUESTION, STAR];
    assert pat == [] + a + (mid + b);
    ParseEscape([], t[..i], mid + b);
    assert pat == (a + mid) + b + [];
    ParseEscape(a + mid, t[i + 2..], []);
    ParseEnd(pat);
    assert Literals(t[i + 2..]) + [] == Literals(t[i + 2..]);
    assert pat[|a|] == STAR && pat[|a| + 1] == QUESTION && pat[|a| + 2] == STAR;
    ParseMeta(pat, |a| + 2);
    ParseMeta(pat, |a| + 1);
    ParseMeta(pat, |a|);
    assert [Star, Any, Star] + Literals(t[i + 2..]) == [Star] + ([Any] + ([Star] + Literals(t[i + 2..])));
  }

  lemma {:induction false} ParseEnd(pat: seq<byte>)
    ensures Parse(pat, |pat|, |pat|) == []
  {
  }

  lemma {:induction false} ParseMeta(pat: seq<byte>, p: nat)
    requires p < |pat| && (pat[p] == STAR || pat[p] == QUESTION)
    ensures Parse(pat, p, |pat|) == [if pat[p] == STAR then Star else Any] + Parse(pat, p + 1, |pat|)
  {
  }

  /** `*?*` and then the third octet on: the reference matches from the second
      octet of the sequence, the matcher aborts at the first. */
  lemma {:induction false} LosesBehindStar(u: seq<byte>)
    requires u != [] && Width(u) > 2
    ensures var es := [Star, Any, Star] + Literals(u[2..]);
            Run(es, u) == Abort && Matches(es, u)
  {
    var b := Literals(u[2..]);
    var es := [Star, Any, Star] + b;
    assert es[1..] == [Any, Star] + b && es[1..][1..] == [Star] + b && es[1..][1..][1..] == b;
    assert SkipStars(es[1..]) == es[1..] && SkipStars(b) == b;
    StarTooLong(u[2..], u[Width(u)..]);
    assert Run([Star] + b, u[Width(u)..]) == Abort;
    assert Run(es[1..], u) == Abort;

    assert IsContinuation(u[1]);
    assert u[1..][1..] == u[2..];
    RunLiterals(u[2..], [], []);
    assert Literals(u[2..]) + [] == b && u[2..] + [] == u[2..];
    assert Matches(b, u[2..]);
    assert u[2..][0..] == u[2..];
    assert Matches([Star] + b, u[2..]);
    assert Width(u[1..]) == 1;
    assert Matches([Any, Star] + b, u[1..]);
  }

  lemma {:induction false} LongSequenceLoses(t: seq<byte>, i: nat)
    requires NulFree(t)
    requires i < |t| && Width(t[i..]) > 2
    ensures !Agree(LosingPattern(t, i), t)
  {
    LosingElements(t, i);
    LosesBehindStar(t[i..]);
    assert t[i..][2..] == t[i + 2..];
    RunLiterals(t[..i], [Star, Any, Star] + Literals(t[i + 2..]), t[i..]);
    assert t[..i] + t[i..] == t;
  }

  /** The exact condition. On a text every pattern is matched as the reference
      says if and only if the text holds no complete UTF-8 sequence of three or
      more octets. */
  lemma {:induction false} TextDecidesExactly(t: seq<byte>)
    requires NulFree(t)
    ensures (forall pat | NulFree(pat) :: Agree(pat, t)) <==> NoLongSequence(t)
  {
    if NoLongSequence(t) {
      forall pat ensures Agree(pat, t) {
        ElementsAgree(Parse(pat, 0, |pat|), t);
      }
    } else {
      var i :| 0 <= i < |t| && Width(t[i..]) > 2;
      LongSequenceLoses(t, i);
      EscapeNulFree(t[..i]);
      EscapeNulFree(t[i + 2..]);
      assert NulFree(LosingPattern(t, i));
    }
  }

  /** A pattern that is not well formed matches nothing. */
  lemma {:induction false} MalformedMatchesNothing(es: seq<Element>, t: seq<byte>)
    requires Bad in es
    ensures Run(es, t) != Yes
  {
    if Run(es, t) == Yes {
      YesIsRight(es, t);
      BadNeverMatches(es, t);
    }
  }

  lemma {:induction false} BadNeverMatches(es: seq<Element>, t: seq<byte>)
    requires Bad in es
    ensures !Matches(es, t)
    decreases |es|
  {
    if es[0] != Bad {
      assert Bad in es[1..];
      if es[0].Star? {
        forall k | 0 <= k <= |t| ensures !Matches(es[1..], t[k..]) {
          BadNeverMatches(es[1..], t[k..]);
        }
      } else if t != [] {
        BadNeverMatches(es[1..], t[Taken(es[0], t)..]);
      }
    }
  }

  // ----- characters

  function Questions(n: nat): seq<Element> {
    if n == 0 then [] else [Any] + Questions(n - 1)
  }

  /** A pattern of `n` question marks matches the encoded texts of `n` code
      points and no other encoded text. */
  lemma {:induction false} QuestionsCountCharacters(n: nat, cs: seq<codepoint>)
    ensures Run(Questions(n), EncodeAll(cs)) == Yes <==> |cs| == n
  {
    hide Encode, Width, Decode;
    if n > 0 && cs != [] {
      var rest := EncodeAll(cs[1..]);
      DecodeEncode(cs[0], rest);
      RunQuestion(Questions(n - 1), Encode(cs[0]), rest);
      QuestionsCountCharacters(n - 1, cs[1..]);
    }
  }

  lemma {:induction false} RunQuestion(es: seq<Element>, c: seq<byte>, rest: seq<byte>)
    requires c != [] && Width(c + rest) == |c|
    ensures Run([Any] + es, c + rest) == Run(es, rest)
  {
    assert ([Any] + es)[1..] == es;
    assert (c + rest)[|c|..] == rest;
  }

  /** A class in front of an encoded code point reads that code point. */
  lemma {:induction false} ClassReadsCodePoint(body: seq<byte>, es: seq<Element>, c: codepoint, rest: seq<byte>)
    ensures Run([Set(body)] + es, Encode(c) + rest) ==
              if ClassAdmits(body, c) then Run(es, rest) else No
  {
    DecodeEncode(c, rest);
    assert (Encode(c) + rest)[|Encode(c)|..] == rest;
    assert ([Set(body)] + es)[1..] == es;
  }
}
