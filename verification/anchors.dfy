/**
 * `extractLines`: a forward scan over the PHP token stream of the target file
 * that finds three line numbers:
 *  - line1, the line of the first doc comment carrying the annotation
 *    `@setbased.abc.obfuscator`;
 *  - line2, the line of the last whitespace token after that doc comment and
 *    before the next token that is neither whitespace nor a single character;
 *  - line3, the line of the whitespace token in the first `]` `;` whitespace
 *    sequence after that.
 * The tokenizer (`token_get_all`) is not modelled: the scan takes its output.
 */
module AnchorScan {
  import opened Wrappers
  import PhpString

  const Annotation: string := "@setbased.abc.obfuscator"

  /** A token as `token_get_all` returns it: an array `[kind, text, line]`
   *  for doc comments, whitespace and every other kind, or a plain
   *  one-character string (which carries no line number). */
  datatype Token =
    | DocComment(text: string, line: nat)
    | Whitespace(text: string, line: nat)
    | Other(text: string, line: nat)
    | Char(c: char)

  /** The three line numbers `extractLines` returns; `None` is PHP's null. */
  datatype Anchors = Anchors(line1: Option<nat>, line2: Option<nat>, line3: Option<nat>)

  /** The `$step` variable of the scan. */
  datatype Step = FindAnnotation | FindDocBlockEnd | FindArrayEnd | Finished

  datatype ScanState = ScanState(step: Step, anchors: Anchors)

  const NoAnchors: Anchors := Anchors(None, None, None)

  const Start: ScanState := ScanState(FindAnnotation, NoAnchors)

  /** The position of a step in the order the scan goes through them. */
  function Rank(step: Step): nat {
    match step
    case FindAnnotation => 0
    case FindDocBlockEnd => 1
    case FindArrayEnd => 2
    case Finished => 3
  }

  /** A doc comment that contains the annotation: a doc comment starting
   *  with it qualifies, one shorter than it does not. */
  predicate Annotated(t: Token): (r: bool)
    ensures r ==> t.DocComment? && |Annotation| <= |t.text|
    ensures t.DocComment? && Annotation <= t.text ==> r
  {
    t.DocComment? && PhpString.Contains(t.text, Annotation)
  }

  /** A token that ends the doc block phase: an array token other than
   *  whitespace. */
  predicate EndsDocBlock(t: Token) {
    !t.Char? && !t.Whitespace?
  }

  /** Tokens `k`, `k + 1`, `k + 2` are `]`, `;` and whitespace. A lookahead
   *  past the end of the token array reads null, which matches nothing, and
   *  two such sequences never overlap. */
  predicate ArrayEndAt(tokens: seq<Token>, k: int): (r: bool)
    ensures r ==> 0 <= k && k + 2 < |tokens|
    ensures r ==> tokens[k + 1] != Char(']') && tokens[k + 2] != Char(']')
  {
    && 0 <= k
    && k + 2 < |tokens|
    && tokens[k] == Char(']')
    && tokens[k + 1] == Char(';')
    && tokens[k + 2].Whitespace?
  }

  /** One iteration of the `foreach` loop, on token `k`. The step only moves
   *  forward, a finished scan stays as it is, and each line number changes
   *  only to the line of the token that the step looks for. */
  function Advance(tokens: seq<Token>, k: nat, s: ScanState): (r: ScanState)
    requires k < |tokens|
    ensures Rank(s.step) <= Rank(r.step)
    ensures s.step == Finished ==> r == s
    ensures r.anchors.line1 != s.anchors.line1 ==>
      s.step == FindAnnotation && Annotated(tokens[k]) && r.anchors.line1 == Some(tokens[k].line)
    ensures r.anchors.line2 != s.anchors.line2 ==>
      s.step == FindDocBlockEnd && tokens[k].Whitespace? && r.anchors.line2 == Some(tokens[k].line)
    ensures r.anchors.line3 != s.anchors.line3 ==>
      r.step == Finished && ArrayEndAt(tokens, k) && r.anchors.line3 == Some(tokens[k + 2].line)
  {
    var t := tokens[k];
    match s.step
    case FindAnnotation =>
      if Annotated(t) then ScanState(FindDocBlockEnd, s.anchors.(line1 := Some(t.line))) else s
    case FindDocBlockEnd =>
      if t.Whitespace? then s.(anchors := s.anchors.(line2 := Some(t.line)))
      else if t.Char? then s
      else s.(step := FindArrayEnd)
    case FindArrayEnd =>
      if ArrayEndAt(tokens, k) then ScanState(Finished, s.anchors.(line3 := Some(tokens[k + 2].line)))
      else s
    case Finished =>
      s
  }

  /** The state of the scan after the first `j` tokens; every state it
   *  reaches is `Consistent`. */
  function Run(tokens: seq<Token>, j: nat): (r: ScanState)
    requires j <= |tokens|
    ensures Consistent(r)
  {
    if j == 0 then Start else Advance(tokens, j - 1, Run(tokens, j - 1))
  }

  /** `extractLines`: the anchors after the whole token stream. line2 and
   *  line3 are only set once line1 is, and each comes from a token of the
   *  right kind. */
  function ExtractLines(tokens: seq<Token>): (r: Anchors)
    ensures r.line2.Some? || r.line3.Some? ==> r.line1.Some?
    ensures r.line1.Some? ==>
      exists q :: 0 <= q < |tokens| && Annotated(tokens[q]) && r.line1.value == tokens[q].line
    ensures r.line3.Some? ==>
      exists q :: 0 <= q < |tokens| && ArrayEndAt(tokens, q) && r.line3.value == tokens[q + 2].line
  {
    RunProvenance(tokens, |tokens|);
    Run(tokens, |tokens|).anchors
  }

  /** `i` is the first annotated doc comment. */
  predicate IsFirstAnnotated(tokens: seq<Token>, i: int) {
    && 0 <= i < |tokens|
    && Annotated(tokens[i])
    && forall q :: 0 <= q < i ==> !Annotated(tokens[q])
  }

  /** The doc block phase after the annotated comment at `i` stops at `e`:
   *  the first token after `i` that ends it, or the end of the stream. */
  predicate DocBlockEndsAt(tokens: seq<Token>, i: int, e: int) {
    && 0 <= i < e <= |tokens|
    && (e < |tokens| ==> EndsDocBlock(tokens[e]))
    && forall q :: i < q < e ==> !EndsDocBlock(tokens[q])
  }

  /** The line of the last whitespace token of `ts`, if it has one. */
  function LastWhitespaceLine(ts: seq<Token>): (r: Option<nat>)
    ensures r.None? <==> forall q :: 0 <= q < |ts| ==> !ts[q].Whitespace?
    ensures r.Some? ==> exists q :: 0 <= q < |ts| && ts[q].Whitespace? && r.value == ts[q].line
                                    && forall p :: q < p < |ts| ==> !ts[p].Whitespace?
  {
    if |ts| == 0 then None
    else if ts[|ts| - 1].Whitespace? then Some(ts[|ts| - 1].line)
    else
      var r := LastWhitespaceLine(ts[..|ts| - 1]);
      LastWhitespaceSkips(ts, r);
      r
  }

  /** A last token that is not whitespace does not change the answer. */
  lemma LastWhitespaceSkips(ts: seq<Token>, r: Option<nat>)
    requires |ts| > 0 && !ts[|ts| - 1].Whitespace?
    requires var init := ts[..|ts| - 1];
      && (r.None? <==> forall q :: 0 <= q < |init| ==> !init[q].Whitespace?)
      && (r.Some? ==> exists q :: 0 <= q < |init| && init[q].Whitespace? && r.value == init[q].line
                                  && forall p :: q < p < |init| ==> !init[p].Whitespace?)
    ensures r.None? <==> forall q :: 0 <= q < |ts| ==> !ts[q].Whitespace?
    ensures r.Some? ==> exists q :: 0 <= q < |ts| && ts[q].Whitespace? && r.value == ts[q].line
                                    && forall p :: q < p < |ts| ==> !ts[p].Whitespace?
  {
    var init := ts[..|ts| - 1];
    assert forall q :: 0 <= q < |init| ==> init[q] == ts[q];
    if r.Some? {
      var q :| 0 <= q < |init| && init[q].Whitespace? && r.value == init[q].line
               && forall p :: q < p < |init| ==> !init[p].Whitespace?;
      assert forall p :: q < p < |ts| ==> !ts[p].Whitespace?;
    }
  }

  // ---------------------------------------------------------------------------
  // Facts about the scan.

  /** Shape of every reachable state: line1 is set exactly when the
   *  annotation was found, line3 exactly when the scan finished, and before
   *  the annotation nothing is set. */
  predicate Consistent(s: ScanState) {
    && (s.step == FindAnnotation <==> s.anchors.line1.None?)
    && (s.step == FindAnnotation ==> s.anchors == NoAnchors)
    && (s.step == Finished <==> s.anchors.line3.Some?)
  }

  /** Every line number the scan holds after `j` tokens is the line of one
   *  of those tokens of the kind looked for: an annotated doc comment, a
   *  whitespace token, the whitespace token of a `]` `;` whitespace
   *  sequence. */
  lemma {:induction false} RunProvenance(tokens: seq<Token>, j: nat)
    requires j <= |tokens|
    ensures var a := Run(tokens, j).anchors;
      a.line1.Some? ==> exists q :: 0 <= q < j && Annotated(tokens[q]) && a.line1.value == tokens[q].line
    ensures var a := Run(tokens, j).anchors;
      a.line2.Some? ==> exists q :: 0 <= q < j && tokens[q].Whitespace? && a.line2.value == tokens[q].line
    ensures var a := Run(tokens, j).anchors;
      a.line3.Some? ==> exists q :: 0 <= q < j && ArrayEndAt(tokens, q) && a.line3.value == tokens[q + 2].line
  {
    if j > 0 {
      RunProvenance(tokens, j - 1);
    }
  }

  /** The scan is still looking for the annotation exactly when none of the
   *  tokens read so far is an annotated doc comment. */
  lemma {:induction false} StillSeeking(tokens: seq<Token>, j: nat)
    requires j <= |tokens|
    ensures Run(tokens, j).step == FindAnnotation <==> forall q :: 0 <= q < j ==> !Annotated(tokens[q])
    ensures Run(tokens, j).step == FindAnnotation ==> Run(tokens, j) == Start
  {
    if j > 0 {
      StillSeeking(tokens, j - 1);
    }
  }

  /** Without an annotated doc comment the three line numbers are null; and
   *  line2 and line3 are only ever set together with line1. */
  lemma NoAnnotationNoAnchors(tokens: seq<Token>)
    ensures ExtractLines(tokens).line1.Some? <==> exists q :: 0 <= q < |tokens| && Annotated(tokens[q])
    ensures ExtractLines(tokens).line1.None? ==> ExtractLines(tokens) == NoAnchors
  {
    StillSeeking(tokens, |tokens|);
  }

  /** Once the annotation is found, line1 never changes again. */
  lemma {:induction false} Line1Stable(tokens: seq<Token>, j: nat, n: nat)
    requires j <= n <= |tokens|
    requires Run(tokens, j).step != FindAnnotation
    ensures Run(tokens, n).step != FindAnnotation
    ensures Run(tokens, n).anchors.line1 == Run(tokens, j).anchors.line1
    decreases n
  {
    if n > j {
      Line1Stable(tokens, j, n - 1);
    }
  }

  /** Once the doc block phase is over, line1 and line2 never change again. */
  lemma {:induction false} Line2Stable(tokens: seq<Token>, j: nat, n: nat)
    requires j <= n <= |tokens|
    requires Run(tokens, j).step == FindArrayEnd || Run(tokens, j).step == Finished
    ensures Run(tokens, n).step == FindArrayEnd || Run(tokens, n).step == Finished
    ensures Run(tokens, n).anchors.line1 == Run(tokens, j).anchors.line1
    ensures Run(tokens, n).anchors.line2 == Run(tokens, j).anchors.line2
    decreases n
  {
    if n > j {
      Line2Stable(tokens, j, n - 1);
    }
  }

  /** Once the scan has finished, no later token changes anything. */
  lemma {:induction false} FinishedStays(tokens: seq<Token>, j: nat, n: nat)
    requires j <= n <= |tokens|
    requires Run(tokens, j).step == Finished
    ensures Run(tokens, n) == Run(tokens, j)
    decreases n
  {
    if n > j {
      FinishedStays(tokens, j, n - 1);
    }
  }

  /** line1 is the line of the first annotated doc comment. */
  lemma Line1IsFirstAnnotation(tokens: seq<Token>, i: nat)
    requires IsFirstAnnotated(tokens, i)
    ensures ExtractLines(tokens).line1 == Some(tokens[i].line)
  {
    StillSeeking(tokens, i);
    Line1Stable(tokens, i + 1, |tokens|);
  }

  /** During the doc block phase the state records the last whitespace line
   *  seen since the annotation. */
  lemma {:induction false} DocBlockPhase(tokens: seq<Token>, i: nat, e: nat, j: nat)
    requires IsFirstAnnotated(tokens, i)
    requires DocBlockEndsAt(tokens, i, e)
    requires i < j <= e
    ensures Run(tokens, j) ==
      ScanState(FindDocBlockEnd, Anchors(Some(tokens[i].line), LastWhitespaceLine(tokens[i + 1..j]), None))
    decreases j
  {
    if j == i + 1 {
      StillSeeking(tokens, i);
      assert tokens[i + 1..j] == [];
    } else {
      DocBlockPhase(tokens, i, e, j - 1);
      LastWhitespaceStep(tokens, i + 1, j);
      var s := Run(tokens, j - 1);
      assert s.step == FindDocBlockEnd;
      assert !EndsDocBlock(tokens[j - 1]);
      assert Run(tokens, j) == Advance(tokens, j - 1, s);
    }
  }

  /** Extending the window by one token changes the last whitespace line only
   *  when that token is whitespace. */
  lemma LastWhitespaceStep(tokens: seq<Token>, lo: nat, j: nat)
    requires lo < j <= |tokens|
    ensures LastWhitespaceLine(tokens[lo..j]) ==
      if tokens[j - 1].Whitespace? then Some(tokens[j - 1].line) else LastWhitespaceLine(tokens[lo..j - 1])
  {
    assert tokens[lo..j][..j - 1 - lo] == tokens[lo..j - 1];
  }

  /** line2 is the line of the last whitespace token between the annotated
   *  doc comment and the end of the doc block phase, null if there is none;
   *  single-character tokens in between do not end the phase. */
  lemma Line2IsLastWhitespace(tokens: seq<Token>, i: nat, e: nat)
    requires IsFirstAnnotated(tokens, i)
    requires DocBlockEndsAt(tokens, i, e)
    ensures ExtractLines(tokens).line2 == LastWhitespaceLine(tokens[i + 1..e])
  {
    DocBlockPhase(tokens, i, e, e);
    if e < |tokens| {
      Line2Stable(tokens, e + 1, |tokens|);
    }
  }

  /** In the array phase the state does not change until the first `]` `;`
   *  whitespace sequence. */
  lemma {:induction false} ArrayPhase(tokens: seq<Token>, e: nat, j: nat)
    requires e < j <= |tokens|
    requires Run(tokens, e + 1).step == FindArrayEnd
    requires forall q :: e < q < j ==> !ArrayEndAt(tokens, q)
    ensures Run(tokens, j) == Run(tokens, e + 1)
    decreases j
  {
    if j > e + 1 {
      ArrayPhase(tokens, e, j - 1);
    }
  }

  /** line3 is the line of the whitespace token of the first `]` `;`
   *  whitespace sequence after the doc block. */
  lemma Line3IsFirstArrayEnd(tokens: seq<Token>, i: nat, e: nat, m: nat)
    requires IsFirstAnnotated(tokens, i)
    requires DocBlockEndsAt(tokens, i, e)
    requires e < m && ArrayEndAt(tokens, m)
    requires forall q :: e < q < m ==> !ArrayEndAt(tokens, q)
    ensures ExtractLines(tokens).line3 == Some(tokens[m + 2].line)
  {
    DocBlockPhase(tokens, i, e, e);
    ArrayPhase(tokens, e, m);
    FinishedStays(tokens, m + 1, |tokens|);
  }

  /** Without a `]` `;` whitespace sequence after the doc block, line3 stays
   *  null. */
  lemma Line3AbsentWithoutArrayEnd(tokens: seq<Token>, i: nat, e: nat)
    requires IsFirstAnnotated(tokens, i)
    requires DocBlockEndsAt(tokens, i, e)
    requires forall q :: e < q < |tokens| ==> !ArrayEndAt(tokens, q)
    ensures ExtractLines(tokens).line3 == None
  {
    DocBlockPhase(tokens, i, e, e);
    if e < |tokens| {
      ArrayPhase(tokens, e, |tokens|);
    }
  }

  /** If the scan finishes within the first `n` tokens, it passed a complete
   *  `]` `;` whitespace sequence at some position from `j` on. */
  lemma {:induction false} FinishNeedsArrayEnd(tokens: seq<Token>, j: nat, n: nat)
    requires j <= n <= |tokens|
    requires Run(tokens, j).step != Finished && Run(tokens, n).step == Finished
    ensures exists q :: j <= q < n && ArrayEndAt(tokens, q)
    decreases n
  {
    if Run(tokens, n - 1).step == Finished {
      FinishNeedsArrayEnd(tokens, j, n - 1);
    }
  }

  /** The scan of a longer stream agrees with the scan of the stream itself
   *  up to `j`, as long as the shorter scan finishes. */
  lemma {:induction false} PrefixRun(tokens: seq<Token>, more: seq<Token>, j: nat)
    requires j <= |tokens|
    requires Run(tokens, |tokens|).step == Finished
    ensures Run(tokens + more, j) == Run(tokens, j)
    decreases j
  {
    if j > 0 {
      PrefixRun(tokens, more, j - 1);
      var s := Run(tokens, j - 1);
      var k := j - 1;
      assert (tokens + more)[k] == tokens[k];
      if s.step == FindArrayEnd {
        FinishNeedsArrayEnd(tokens, k, |tokens|);
        var q :| k <= q < |tokens| && ArrayEndAt(tokens, q);
        assert k + 2 < |tokens|;
        assert (tokens + more)[k + 1] == tokens[k + 1] && (tokens + more)[k + 2] == tokens[k + 2];
      }
    }
  }

  /** Once line3 is set, the tokens after it change none of the three line
   *  numbers. */
  lemma LaterTokensIgnored(tokens: seq<Token>, more: seq<Token>)
    requires ExtractLines(tokens).line3.Some?
    ensures ExtractLines(tokens + more) == ExtractLines(tokens)
  {
    PrefixRun(tokens, more, |tokens|);
    FinishedStays(tokens + more, |tokens|, |tokens + more|);
  }
}
