/** Wildmat expressions: comma-separated patterns, each with an optional `!` or
    `@`, of which the last one that matches decides (section 4.2 of RFC 3977). */
module WildmatExpression {
  import opened Utf8
  import opened Wildmat
  import opened WildmatSemantics

  /** UWILDMAT_FAIL, UWILDMAT_MATCH and UWILDMAT_POISON. */
  datatype Outcome = Fail | Match | Poison

  // ----- what the scanner does with the octets

  /** The comma that ends the pattern at `i`, or a place behind the string. */
  function Split(pat: seq<byte>, i: nat, escaped: bool): (j: nat)
    ensures j >= i
    decreases |pat| - i
  {
    if i >= |pat| then i
    else
      var k := if pat[i] == OPEN then Skip(pat, i) else i;
      if Octet(pat, k) == COMMA && !escaped then k
      else Split(pat, k + 1, Octet(pat, k) == BACKSLASH && !escaped)
  }

  /** The close of the class at `i`, or the place the search gave up. */
  function Skip(pat: seq<byte>, i: nat): (k: nat)
    requires i < |pat|
    ensures i < k <= |pat|
  {
    var from := if Octet(pat, i + 1) == CLOSE then i + 2 else i + 1;
    FindClose(pat, from, |pat|)
  }

  /** The answer from the pattern at `p` on, given the answer so far. */
  function Evaluate(text: seq<byte>, pat: seq<byte>, p: nat, allowpoison: bool, sofar: Outcome): Outcome
    decreases |pat| + 1 - p
  {
    if p > |pat| then sofar
    else
      var poison := allowpoison && Octet(pat, p) == AT;
      var reverse := Octet(pat, p) == BANG || poison;
      var q := if reverse then p + 1 else p;
      var split := Split(pat, q, false);
      var verdict := if poison then Poison else if reverse then Fail else Match;
      Evaluate(text, pat, split + 1, allowpoison,
               if Run(Parse(pat, q, split), text) == Yes then verdict else sofar)
  }

  lemma {:induction false} SplitEnds(pat: seq<byte>, i: nat, escaped: bool)
    ensures i >= |pat| ==> Split(pat, i, escaped) == i
  {
  }

  /** One place of the scan for a comma. */
  lemma {:induction false} SplitStep(pat: seq<byte>, i: nat, escaped: bool)
    requires i < |pat|
    ensures var k := if pat[i] == OPEN then Skip(pat, i) else i;
            Split(pat, i, escaped) ==
            if Octet(pat, k) == COMMA && !escaped then k
            else Split(pat, k + 1, if Octet(pat, k) == BACKSLASH then !escaped else false)
  {
    hide Skip;
  }

  method FindSplit(pat: seq<byte>, p: nat) returns (split: nat)
    ensures split == Split(pat, p, false)
  {
    hide Split;
    split := p;
    var escaped := false;
    SplitEnds(pat, p, false);
    while split < |pat|
      invariant split >= p
      invariant Split(pat, p, false) == Split(pat, split, escaped)
      invariant split >= |pat| ==> split == Split(pat, split, escaped)
      decreases |pat| - split
    {
      ghost var i := split;
      SplitStep(pat, i, escaped);
      if pat[split] == OPEN {
        split := split + 1;
        if Octet(pat, split) == CLOSE {
          split := split + 1;
        }
        ghost var from := split;
        while split < |pat| && pat[split] != CLOSE
          invariant from <= split <= |pat|
          invariant FindClose(pat, from, |pat|) == FindClose(pat, split, |pat|)
        {
          split := split + 1;
        }
        assert split == Skip(pat, i);
      }
      if Octet(pat, split) == COMMA && !escaped {
        return;
      }
      escaped := if Octet(pat, split) == BACKSLASH then !escaped else false;
      split := split + 1;
      SplitEnds(pat, split, escaped);
    }
  }

  /** The loop over the patterns; one that could not change the answer is not
      tried. */
  method MatchExpression(text: seq<byte>, pat: seq<byte>, allowpoison: bool) returns (r: Outcome)
    ensures r == Evaluate(text, pat, 0, allowpoison, Fail)
  {
    hide Run, Parse, Split;
    assert text[0..] == text;
    if pat == [] {
      EmptyExpression(text, allowpoison);
      return if text == [] then Match else Fail;
    }
    var match_, poison, poisoned := false, false, false;
    var p: nat := 0;
    while p <= |pat|
      invariant !allowpoison ==> !poison
      invariant match_ ==> !poisoned
      invariant Evaluate(text, pat, 0, allowpoison, Fail)
             == Evaluate(text, pat, p, allowpoison,
                         if poisoned then Poison else if match_ then Match else Fail)
      decreases |pat| + 1 - p
    {
      if allowpoison {
        poison := Octet(pat, p) == AT;
      }
      var reverse := Octet(pat, p) == BANG || poison;
      if reverse {
        p := p + 1;
      }
      var split := FindSplit(pat, p);
      if !(match_ == !reverse && poison == poisoned) {
        var v := MatchPattern(text, 0, pat, p, split);
        if v == Yes {
          poisoned := poison;
          match_ := !reverse;
        }
      }
      p := split + 1;
    }
    return if poisoned then Poison else if match_ then Match else Fail;
  }

  lemma {:induction false} EmptyExpression(text: seq<byte>, allowpoison: bool)
    ensures Evaluate(text, [], 0, allowpoison, Fail) == if text == [] then Match else Fail
  {
    assert Split([], 0, false) == 0;
    assert Parse([], 0, 0) == [];
    assert Evaluate(text, [], 1, allowpoison, Match) == Match;
    assert Evaluate(text, [], 1, allowpoison, Fail) == Fail;
  }

  // ----- what an expression means

  /** A well-formed piece of a pattern, as the matcher reads it. */
  datatype Token = Plain(b: byte) | Escaped(b: byte) | Class(body: seq<byte>) {
    ghost predicate Valid() {
      match this
      case Plain(b) => b !in {0, BACKSLASH, OPEN, COMMA}
      case Escaped(b) => b != 0
      case Class(body) =>
        var first := if body != [] && body[0] == CARET then 1 else 0;
        first < |body| && NulFree(body) && forall i :: first < i < |body| ==> body[i] != CLOSE
    }

    /** The search for commas reads it as the matcher does. It does not see that a
        backslash escapes a bracket, nor that a `]` behind `[^` is a member. */
    ghost predicate ReadAlike() {
      match this
      case Plain(_) => true
      case Escaped(b) => b != OPEN
      case Class(body) => !(|body| > 1 && body[0] == CARET && body[1] == CLOSE)
    }

    function Text(): seq<byte> {
      match this
      case Plain(b) => [b]
      case Escaped(b) => [BACKSLASH, b]
      case Class(body) => [OPEN] + body + [CLOSE]
    }

    function Meaning(): Element {
      match this
      case Plain(b) => if b == STAR then Star else if b == QUESTION then Any else Lit(b)
      case Escaped(b) => Lit(b)
      case Class(body) => Set(body)
    }
  }

  function PatternText(toks: seq<Token>): seq<byte> {
    if toks == [] then [] else toks[0].Text() + PatternText(toks[1..])
  }

  function Meanings(toks: seq<Token>): seq<Element> {
    if toks == [] then [] else [toks[0].Meaning()] + Meanings(toks[1..])
  }

  ghost predicate AllValid(toks: seq<Token>) {
    forall i :: 0 <= i < |toks| ==> toks[i].Valid()
  }

  ghost predicate AllReadAlike(toks: seq<Token>) {
    forall i :: 0 <= i < |toks| ==> toks[i].ReadAlike()
  }

  /** `w` stands at `p` in `pat`. */
  ghost predicate StandsAt(pat: seq<byte>, p: nat, w: seq<byte>) {
    p + |w| <= |pat| && forall j :: p <= j < p + |w| ==> pat[j] == w[j - p]
  }

  lemma {:induction false} StandsAtParts(pat: seq<byte>, p: nat, v: seq<byte>, w: seq<byte>)
    requires StandsAt(pat, p, v + w)
    ensures StandsAt(pat, p, v) && StandsAt(pat, p + |v|, w)
  {
    assert |v + w| == |v| + |w|;
  }

  /** memchr finds the `]` that closes a well-formed class. */
  lemma {:induction false} FindCloseAt(pat: seq<byte>, i: nat, j: nat, e: nat)
    requires i <= j < e && j < |pat| && pat[j] == CLOSE
    requires forall k :: i <= k < j ==> pat[k] != CLOSE
    ensures FindClose(pat, i, e) == j
    decreases j - i
  {
    if i < j {
      FindCloseAt(pat, i + 1, j, e);
    }
  }

  // Reading one token off a pattern, and stepping over it when commas are
  // looked for.

  lemma {:induction false} PlainStep(pat: seq<byte>, p: nat, b: byte, e: nat)
    requires Plain(b).Valid() && StandsAt(pat, p, [b]) && p < e
    ensures Parse(pat, p, e) == [Plain(b).Meaning()] + Parse(pat, p + 1, e)
    ensures Split(pat, p, false) == Split(pat, p + 1, false)
  {
    assert pat[p] == b;
  }

  lemma {:induction false} EscapedStep(pat: seq<byte>, p: nat, b: byte, e: nat)
    requires Escaped(b).Valid() && StandsAt(pat, p, [BACKSLASH, b]) && p + 1 < e
    ensures Parse(pat, p, e) == [Lit(b)] + Parse(pat, p + 2, e)
    ensures b != OPEN ==> Split(pat, p, false) == Split(pat, p + 2, false)
  {
    hide Split;
    assert pat[p] == BACKSLASH && pat[p + 1] == b;
    SplitOther(pat, p, false);
    if b != OPEN {
      SplitOther(pat, p + 1, true);
    }
  }

  lemma {:induction false} ClassStands(pat: seq<byte>, p: nat, body: seq<byte>)
    requires Class(body).Valid() && StandsAt(pat, p, [OPEN] + body + [CLOSE])
    ensures p + 1 + |body| < |pat|
    ensures pat[p] == OPEN && pat[p + 1] == body[0] && pat[p + 1 + |body|] == CLOSE
    ensures pat[p + 1..p + 1 + |body|] == body
  {
    StandsAtParts(pat, p, [OPEN] + body, [CLOSE]);
    StandsAtParts(pat, p, [OPEN], body);
  }

  lemma {:induction false} ClassParsed(pat: seq<byte>, p: nat, body: seq<byte>, e: nat)
    requires Class(body).Valid() && StandsAt(pat, p, [OPEN] + body + [CLOSE])
    requires p + |body| + 1 < e
    ensures Parse(pat, p, e) == [Set(body)] + Parse(pat, p + |body| + 2, e)
  {
    ClassStands(pat, p, body);
    FindCloseAt(pat, ClassSearch(pat, p), p + 1 + |body|, e);
  }

  lemma {:induction false} ClassSkipped(pat: seq<byte>, p: nat, body: seq<byte>)
    requires Class(body).Valid() && Class(body).ReadAlike() && StandsAt(pat, p, [OPEN] + body + [CLOSE])
    ensures Split(pat, p, false) == Split(pat, p + |body| + 2, false)
  {
    var close := p + 1 + |body|;
    ClassStands(pat, p, body);
    FindCloseAt(pat, if pat[p + 1] == CLOSE then p + 2 else p + 1, close, |pat|);
    assert Skip(pat, p) == close;
  }

  lemma {:induction false} ClassStep(pat: seq<byte>, p: nat, body: seq<byte>, e: nat)
    requires Class(body).Valid() && StandsAt(pat, p, [OPEN] + body + [CLOSE])
    requires p + |body| + 1 < e
    ensures Parse(pat, p, e) == [Set(body)] + Parse(pat, p + |body| + 2, e)
    ensures Class(body).ReadAlike() ==> Split(pat, p, false) == Split(pat, p + |body| + 2, false)
  {
    hide *;
    ClassParsed(pat, p, body, e);
    if Class(body).ReadAlike() {
      ClassSkipped(pat, p, body);
    }
  }

  lemma {:induction false} TokenStep(pat: seq<byte>, p: nat, tok: Token, e: nat)
    requires tok.Valid()
    requires StandsAt(pat, p, tok.Text())
    requires p + |tok.Text()| <= e
    ensures Parse(pat, p, e) == [tok.Meaning()] + Parse(pat, p + |tok.Text()|, e)
    ensures tok.ReadAlike() ==> Split(pat, p, false) == Split(pat, p + |tok.Text()|, false)
  {
    hide Parse, Split;
    match tok
    case Plain(b) => PlainStep(pat, p, b, e);
    case Escaped(b) => EscapedStep(pat, p, b, e);
    case Class(body) => ClassStep(pat, p, body, e);
  }

  lemma {:induction false} ParseNothing(pat: seq<byte>, p: nat)
    ensures Parse(pat, p, p) == []
  {
  }

  /** A whole pattern: it parses to its tokens, and the search for a comma runs to its
      end if it reads them alike. */
  lemma {:induction false} PatternStep(pat: seq<byte>, p: nat, toks: seq<Token>)
    requires AllValid(toks)
    requires StandsAt(pat, p, PatternText(toks))
    ensures Parse(pat, p, p + |PatternText(toks)|) == Meanings(toks)
    ensures AllReadAlike(toks) ==> Split(pat, p, false) == Split(pat, p + |PatternText(toks)|, false)
    decreases |toks|
  {
    hide Parse, Split, Token.Text, Token.Meaning, Token.Valid, Token.ReadAlike;
    ParseNothing(pat, p);
    if toks != [] {
      var w, rest := toks[0].Text(), PatternText(toks[1..]);
      StandsAtParts(pat, p, w, rest);
      TokenStep(pat, p, toks[0], p + |w + rest|);
      PatternStep(pat, p + |w|, toks[1..]);
    }
  }

  /** How the search for a comma reads a piece on its own: it comes to the end exactly
      if it meets no comma outside brackets, and every bracket is closed in the piece.
      A bracket opens even behind a backslash; a backslash at the end takes the comma
      behind the piece with it, if there is one. */
  predicate RunsThrough(w: seq<byte>, last: bool) {
    if w == [] then true
    else if w[0] == OPEN then Skip(w, 0) < |w| && RunsThrough(w[Skip(w, 0) + 1..], last)
    else if w[0] == COMMA then false
    else if w[0] != BACKSLASH then RunsThrough(w[1..], last)
    else if |w| == 1 then last
    else RunsThrough(w[if w[1] == OPEN then 1 else 2..], last)
  }

  lemma {:induction false} StandsAtRest(pat: seq<byte>, p: nat, w: seq<byte>, k: nat)
    requires StandsAt(pat, p, w) && k <= |w|
    ensures StandsAt(pat, p + k, w[k..])
  {
  }

  /** The close of a bracket is found alike in the piece and in the expression, or in
      the expression only behind the piece. */
  lemma {:induction false} SkipInPiece(pat: seq<byte>, p: nat, w: seq<byte>)
    requires StandsAt(pat, p, w) && w != [] && w[0] == OPEN
    requires p + |w| == |pat| || pat[p + |w|] == COMMA
    ensures if Skip(w, 0) < |w| then Skip(pat, p) == p + Skip(w, 0) && w[Skip(w, 0)] == CLOSE
            else Skip(pat, p) >= p + |w| && Octet(pat, Skip(pat, p)) in {0, CLOSE}
  {
    hide FindClose;
    assert Octet(w, 1) == CLOSE <==> Octet(pat, p + 1) == CLOSE;
    var from := if Octet(w, 1) == CLOSE then 2 else 1;
    var k, l := Skip(w, 0), Skip(pat, p);
    CloseFound(w, from);
    CloseFound(pat, p + from);
    if k < |w| {
      assert pat[p + k] == CLOSE;
    }
  }

  lemma {:induction false} CloseFound(pat: seq<byte>, i: nat)
    requires i <= |pat|
    ensures var k := FindClose(pat, i, |pat|);
            && i <= k <= |pat| && (k < |pat| ==> pat[k] == CLOSE) && forall j :: i <= j < k ==> pat[j] != CLOSE
    decreases |pat| - i
  {
    if i < |pat| && pat[i] != CLOSE {
      CloseFound(pat, i + 1);
    }
  }

  /** A bracket: the search goes on behind its close, escaped or not. */
  lemma {:induction false} SplitBracket(pat: seq<byte>, p: nat, w: seq<byte>, escaped: bool)
    requires StandsAt(pat, p, w) && w != [] && w[0] == OPEN
    requires p + |w| == |pat| || pat[p + |w|] == COMMA
    ensures if Skip(w, 0) < |w| then Split(pat, p, escaped) == Split(pat, p + Skip(w, 0) + 1, false)
            else Split(pat, p, escaped) > p + |w|
  {
    hide Skip;
    SkipInPiece(pat, p, w);
    assert pat[p] == w[0];
    SplitStep(pat, p, escaped);
  }

  lemma {:induction false} SplitOther(pat: seq<byte>, p: nat, escaped: bool)
    requires p < |pat| && pat[p] != OPEN
    ensures Split(pat, p, escaped) == if pat[p] == COMMA && !escaped then p
                                      else Split(pat, p + 1, pat[p] == BACKSLASH && !escaped)
  {
  }

  lemma {:induction false} SplitFarther(pat: seq<byte>, p: nat, escaped: bool)
    ensures Split(pat, p, escaped) >= p
  {
  }

  /** A piece is cut where it ends if and only if it is read through on its own. */
  lemma {:induction false} CutExactly(pat: seq<byte>, p: nat, w: seq<byte>)
    requires StandsAt(pat, p, w)
    requires p + |w| == |pat| || pat[p + |w|] == COMMA
    ensures Split(pat, p, false) == p + |w| <==> RunsThrough(w, p + |w| == |pat|)
    decreases |w|
  {
    hide Skip, Split;
    if w == [] {
      SplitHere(pat, p);
    } else if w[0] == OPEN {
      SplitBracket(pat, p, w, false);
      if Skip(w, 0) < |w| {
        StandsAtRest(pat, p, w, Skip(w, 0) + 1);
        CutExactly(pat, p + Skip(w, 0) + 1, w[Skip(w, 0) + 1..]);
      }
    } else {
      assert pat[p] == w[0];
      SplitOther(pat, p, false);
      if w[0] == BACKSLASH {
        CutEscape(pat, p, w);
      }
      if w[0] != COMMA && !(w[0] == BACKSLASH && |w| == 1) {
        var k := if w[0] == BACKSLASH && w[1] != OPEN then 2 else 1;
        StandsAtRest(pat, p, w, k);
        CutExactly(pat, p + k, w[k..]);
      }
    }
  }

  /** Behind a backslash. */
  lemma {:induction false} CutEscape(pat: seq<byte>, p: nat, w: seq<byte>)
    requires StandsAt(pat, p, w) && w != [] && w[0] == BACKSLASH
    requires p + |w| == |pat| || pat[p + |w|] == COMMA
    ensures if |w| == 1 then Split(pat, p + 1, true) == p + 1 <==> p + 1 == |pat|
            else Split(pat, p + 1, true) == Split(pat, p + (if w[1] == OPEN then 1 else 2), false)
                 || (w[1] == OPEN && Split(pat, p + 1, true) > p + |w| && Split(pat, p + 1, false) > p + |w|)
  {
    hide Skip, Split;
    if p + 1 == |pat| {
      SplitEnds(pat, p + 1, true);
    } else if |w| > 1 && w[1] == OPEN {
      StandsAtRest(pat, p, w, 1);
      SplitBracket(pat, p + 1, w[1..], true);
      SplitBracket(pat, p + 1, w[1..], false);
    } else {
      assert |w| > 1 ==> pat[p + 1] == w[1];
      SplitOther(pat, p + 1, true);
      SplitFarther(pat, p + 2, false);
    }
  }

  /** A piece that is read alike is. */
  lemma {:induction false} AlikeRunsThrough(toks: seq<Token>, last: bool)
    requires AllValid(toks) && AllReadAlike(toks)
    ensures RunsThrough(PatternText(toks), last)
  {
    hide PatternText, RunsThrough, Split, Parse;
    var w := PatternText(toks);
    var pat := if last then w else w + [COMMA];
    PatternStep(pat, 0, toks);
    SplitHere(pat, |w|);
    CutExactly(pat, 0, w);
  }

  datatype Mark = Unmarked | Not | At

  datatype Segment = Segment(mark: Mark, toks: seq<Token>) {
    function Text(): seq<byte> {
      (match mark case Unmarked => [] case Not => [BANG] case At => [AT]) + PatternText(toks)
    }

    /** An unmarked pattern does not itself start with what would be a mark; `@`
        is a mark only where poison is allowed. */
    ghost predicate Valid(allowpoison: bool) {
      && AllValid(toks)
      && (mark == At ==> allowpoison)
      && (mark == Unmarked && toks != [] ==>
            toks[0] != Plain(BANG) && (allowpoison ==> toks[0] != Plain(AT)))
    }

    function Verdict(): Outcome {
      match mark case Unmarked => Match case Not => Fail case At => Poison
    }
  }

  function ExpressionText(segs: seq<Segment>): seq<byte> {
    if segs == [] then []
    else if |segs| == 1 then segs[0].Text()
    else segs[0].Text() + [COMMA] + ExpressionText(segs[1..])
  }

  ghost predicate AllSegmentsValid(segs: seq<Segment>, allowpoison: bool) {
    forall i :: 0 <= i < |segs| ==> segs[i].Valid(allowpoison)
  }

  /** The rightmost pattern that matches decides. */
  function LastVerdict(segs: seq<Segment>, text: seq<byte>): Outcome {
    if segs == [] then Fail
    else
      var last := segs[|segs| - 1];
      if Run(Meanings(last.toks), text) == Yes then last.Verdict()
      else LastVerdict(segs[..|segs| - 1], text)
  }

  /** The same, reading from the left. */
  function Running(segs: seq<Segment>, text: seq<byte>, sofar: Outcome): Outcome
    decreases |segs|
  {
    if segs == [] then sofar
    else Running(segs[1..], text,
                 if Run(Meanings(segs[0].toks), text) == Yes then segs[0].Verdict() else sofar)
  }

  lemma {:induction false} RunningAppend(segs: seq<Segment>, s: Segment, text: seq<byte>, sofar: Outcome)
    ensures Running(segs + [s], text, sofar) ==
              if Run(Meanings(s.toks), text) == Yes then s.Verdict() else Running(segs, text, sofar)
    decreases |segs|
  {
    if segs == [] {
      assert ([s] + [])[1..] == [];
      assert segs + [s] == [s];
    } else {
      assert (segs + [s])[1..] == segs[1..] + [s];
      RunningAppend(segs[1..], s, text,
        if Run(Meanings(segs[0].toks), text) == Yes then segs[0].Verdict() else sofar);
    }
  }

  lemma {:induction false} RunningIsLast(segs: seq<Segment>, text: seq<byte>)
    ensures Running(segs, text, Fail) == LastVerdict(segs, text)
    decreases |segs|
  {
    if segs != [] {
      var n := |segs| - 1;
      RunningIsLast(segs[..n], text);
      RunningAppend(segs[..n], segs[n], text, Fail);
      assert segs[..n] + [segs[n]] == segs;
    }
  }

  lemma {:induction false} TextFirst(toks: seq<Token>)
    ensures toks == [] ==> PatternText(toks) == []
    ensures toks != [] ==> PatternText(toks) == toks[0].Text() + PatternText(toks[1..])
  {
  }

  lemma {:induction false} FirstOctet(seg: Segment, pat: seq<byte>, p: nat, allowpoison: bool)
    requires seg.Valid(allowpoison) && StandsAt(pat, p, seg.Text())
    requires p + |seg.Text()| == |pat| || Octet(pat, p + |seg.Text()|) == COMMA
    ensures Octet(pat, p) == BANG <==> seg.mark == Not
    ensures allowpoison && Octet(pat, p) == AT <==> seg.mark == At
    ensures |seg.Text()| == (if seg.mark == Unmarked then 0 else 1) + |PatternText(seg.toks)|
    ensures AllValid(seg.toks)
    ensures StandsAt(pat, if seg.mark == Unmarked then p else p + 1, PatternText(seg.toks))
  {
    hide PatternText;
    var pre := match seg.mark case Unmarked => [] case Not => [BANG] case At => [AT];
    StandsAtParts(pat, p, pre, PatternText(seg.toks));
    TextFirst(seg.toks);
    if seg.mark == Unmarked && seg.toks != [] {
      StandsAtParts(pat, p, seg.toks[0].Text(), PatternText(seg.toks[1..]));
    }
  }

  /** One pattern of the expression, up to its comma. */
  lemma {:induction false} EvaluateStep(text: seq<byte>, pat: seq<byte>, p: nat, seg: Segment, allowpoison: bool,
        sofar: Outcome)
    requires seg.Valid(allowpoison) && StandsAt(pat, p, seg.Text())
    requires p + |seg.Text()| == |pat| || Octet(pat, p + |seg.Text()|) == COMMA
    requires RunsThrough(PatternText(seg.toks), p + |seg.Text()| == |pat|)
    ensures Evaluate(text, pat, p, allowpoison, sofar)
         == Evaluate(text, pat, p + |seg.Text()| + 1, allowpoison,
                     if Run(Meanings(seg.toks), text) == Yes then seg.Verdict() else sofar)
  {
    hide Parse, Split, Run, PatternText, Meanings, Segment.Text, Segment.Valid, RunsThrough;
    FirstOctet(seg, pat, p, allowpoison);
    var q := if seg.mark == Unmarked then p else p + 1;
    PatternStep(pat, q, seg.toks);
    CutExactly(pat, q, PatternText(seg.toks));
  }

  lemma {:induction false} SplitHere(pat: seq<byte>, end: nat)
    requires end == |pat| || Octet(pat, end) == COMMA
    ensures Split(pat, end, false) == end
  {
  }

  /** Every pattern is read through on its own. */
  predicate Separable(segs: seq<Segment>) {
    forall i :: 0 <= i < |segs| ==> RunsThrough(PatternText(segs[i].toks), i == |segs| - 1)
  }

  lemma {:induction false} SeparableParts(segs: seq<Segment>)
    requires segs != []
    ensures Separable(segs) <==>
            RunsThrough(PatternText(segs[0].toks), |segs| == 1) && (|segs| > 1 ==> Separable(segs[1..]))
  {
    hide RunsThrough, PatternText;
    var rest := segs[1..];
    forall i | 0 < i < |segs| ensures segs[i] == rest[i - 1] {
    }
    if Separable(segs) {
      forall i | 0 <= i < |rest| ensures RunsThrough(PatternText(rest[i].toks), i == |rest| - 1) {
        assert rest[i] == segs[i + 1];
      }
    }
  }

  /** The cuts from `p` on are the commas between the patterns. */
  ghost predicate CutAsWritten(pat: seq<byte>, p: nat, segs: seq<Segment>)
    decreases |segs|
  {
    segs == [] ||
    var seg := segs[0];
    var q := if seg.mark == Unmarked then p else p + 1;
    var e := p + |seg.Text()|;
    Split(pat, q, false) == e && (|segs| > 1 ==> CutAsWritten(pat, e + 1, segs[1..]))
  }

  /** They are if and only if every pattern is read through on its own. */
  lemma {:induction false} CutsExactly(pat: seq<byte>, p: nat, segs: seq<Segment>, allowpoison: bool)
    requires segs != [] && AllSegmentsValid(segs, allowpoison)
    requires StandsAt(pat, p, ExpressionText(segs)) && p + |ExpressionText(segs)| == |pat|
    ensures CutAsWritten(pat, p, segs) <==> Separable(segs)
    decreases |segs|
  {
    hide Split, Segment.Valid, Segment.Text, RunsThrough, PatternText, Separable;
    var seg := segs[0];
    var w := seg.Text();
    SeparableParts(segs);
    if |segs| > 1 {
      var rest := ExpressionText(segs[1..]);
      StandsAtParts(pat, p, w + [COMMA], rest);
      StandsAtParts(pat, p, w, [COMMA]);
      CutsExactly(pat, p + |w| + 1, segs[1..], allowpoison);
    }
    FirstOctet(seg, pat, p, allowpoison);
    CutExactly(pat, if seg.mark == Unmarked then p else p + 1, PatternText(seg.toks));
  }

  /** From any pattern boundary on, the scanner evaluates the patterns that
      were written. */
  lemma {:induction false} EvaluateRunning(text: seq<byte>, pat: seq<byte>, p: nat,
                                           segs: seq<Segment>, allowpoison: bool, sofar: Outcome)
    requires segs != [] && AllSegmentsValid(segs, allowpoison) && Separable(segs)
    requires StandsAt(pat, p, ExpressionText(segs))
    requires p + |ExpressionText(segs)| == |pat|
    ensures Evaluate(text, pat, p, allowpoison, sofar) == Running(segs, text, sofar)
    decreases |segs|
  {
    hide Parse, Split, Run, Segment.Valid, Segment.Text, Segment.Verdict, Separable, RunsThrough, PatternText;
    SeparableParts(segs);
    var seg := segs[0];
    var w := seg.Text();
    var now := if Run(Meanings(seg.toks), text) == Yes then seg.Verdict() else sofar;
    if |segs| == 1 {
      EvaluateStep(text, pat, p, seg, allowpoison, sofar);
    } else {
      var rest := ExpressionText(segs[1..]);
      StandsAtParts(pat, p, w + [COMMA], rest);
      StandsAtParts(pat, p, w, [COMMA]);
      EvaluateStep(text, pat, p, seg, allowpoison, sofar);
      EvaluateRunning(text, pat, p + |w| + 1, segs[1..], allowpoison, now);
    }
  }

  /** An expression whose patterns are read through is cut at the commas between them,
      and its answer is that of the rightmost pattern that matches. */
  lemma {:induction false} ExpressionDecides(segs: seq<Segment>, text: seq<byte>, allowpoison: bool)
    requires segs != [] && AllSegmentsValid(segs, allowpoison) && Separable(segs)
    ensures Evaluate(text, ExpressionText(segs), 0, allowpoison, Fail) == LastVerdict(segs, text)
  {
    var pat := ExpressionText(segs);
    assert pat[0..|pat|] == pat;
    EvaluateRunning(text, pat, 0, segs, allowpoison, Fail);
    RunningIsLast(segs, text);
  }

  /** All that are read alike are. */
  lemma {:induction false} AlikeIsSeparable(segs: seq<Segment>, allowpoison: bool)
    requires AllSegmentsValid(segs, allowpoison)
    requires forall i :: 0 <= i < |segs| ==> AllReadAlike(segs[i].toks)
    ensures Separable(segs)
  {
    hide RunsThrough, PatternText;
    forall i | 0 <= i < |segs| ensures RunsThrough(PatternText(segs[i].toks), i == |segs| - 1) {
      assert segs[i].Valid(allowpoison);
      AlikeRunsThrough(segs[i].toks, i == |segs| - 1);
    }
  }

  const EX := 120

  /** `\[,x`: the scanner takes the rest for a class that is never closed, and `x` is not
      matched. */
  lemma {:induction false} EscapedBracketLost()
    ensures var segs := [Segment(Unmarked, [Escaped(OPEN)]), Segment(Unmarked, [Plain(EX)])];
            && AllSegmentsValid(segs, false) && ExpressionText(segs) == [BACKSLASH, OPEN, COMMA, EX]
            && !Separable(segs)
            && LastVerdict(segs, [EX]) == Match && Evaluate([EX], ExpressionText(segs), 0, false, Fail) == Fail
  {
    hide Split, Parse, Run, RunsThrough, PatternText, Meanings, Segment.Text;
    var a, x := Segment(Unmarked, [Escaped(OPEN)]), Segment(Unmarked, [Plain(EX)]);
    var segs, pat := [a, x], [BACKSLASH, OPEN, COMMA, EX];
    OneToken(Escaped(OPEN));
    OneToken(Plain(EX));
    assert segs[1..] == [x] && segs[..1] == [a];
    assert ExpressionText(segs) == pat;
    BracketSplit();
    CutsExactly(pat, 0, segs, false);
    assert Evaluate([EX], pat, 6, false, Fail) == Fail;
    BracketRuns();
  }

  lemma {:induction false} BracketSplit()
    ensures Split([BACKSLASH, OPEN, COMMA, EX], 0, false) == 5
  {
    hide Split;
    var pat := [BACKSLASH, OPEN, COMMA, EX];
    CloseFound(pat, 2);
    assert Skip(pat, 1) == 4;
    SplitOther(pat, 0, false);
    SplitStep(pat, 1, true);
    SplitEnds(pat, 5, false);
  }

  lemma {:induction false} BracketRuns()
    ensures Run(Parse([BACKSLASH, OPEN, COMMA, EX], 0, 5), [EX]) != Yes
    ensures Run([Lit(EX)], [EX]) == Yes
  {
    var pat := [BACKSLASH, OPEN, COMMA, EX];
    assert Parse(pat, 0, 5)[0] == Lit(OPEN);
  }

  lemma {:induction false} OneToken(tok: Token)
    ensures PatternText([tok]) == tok.Text() && Meanings([tok]) == [tok.Meaning()]
    ensures Segment(Unmarked, [tok]).Text() == tok.Text()
  {
    assert [tok][1..] == [];
  }

  /** The reference for a whole expression: naive matching, rightmost match. */
  ghost function Reference(segs: seq<Segment>, text: seq<byte>): Outcome {
    if segs == [] then Fail
    else
      var last := segs[|segs| - 1];
      if Matches(Meanings(last.toks), text) then last.Verdict()
      else Reference(segs[..|segs| - 1], text)
  }

  /** The matcher reads every piece of the expression right on the text: the text has no
      long sequence, or the piece neither `?` nor a class behind its first star. */
  ghost predicate PiecesReadRight(segs: seq<Segment>, text: seq<byte>) {
    NoLongSequence(text) || forall i :: 0 <= i < |segs| ==> OctetsBehindStar(Meanings(segs[i].toks))
  }

  /** Then the expression means what the reference says. */
  lemma {:induction false} ExpressionMeansReference(segs: seq<Segment>, text: seq<byte>, allowpoison: bool)
    requires segs != [] && AllSegmentsValid(segs, allowpoison) && Separable(segs)
    requires PiecesReadRight(segs, text)
    ensures Evaluate(text, ExpressionText(segs), 0, allowpoison, Fail) == Reference(segs, text)
  {
    ExpressionDecides(segs, text, allowpoison);
    LastIsReference(segs, text);
  }

  lemma {:induction false} LastIsReference(segs: seq<Segment>, text: seq<byte>)
    requires PiecesReadRight(segs, text)
    ensures LastVerdict(segs, text) == Reference(segs, text)
    decreases |segs|
  {
    hide NoLongSequence, OctetsBehindStar, Run, Matches;
    if segs != [] {
      var es := Meanings(segs[|segs| - 1].toks);
      if NoLongSequence(text) {
        ElementsAgree(es, text);
      } else {
        PatternDecides(es, text);
      }
      LastIsReference(segs[..|segs| - 1], text);
    }
  }
}
