/**
 * `writeConstant`: splits the target file into lines, locates the anchors,
 * and replaces the lines of the previous statement (if any) after the
 * annotated doc block with the freshly rendered statement.
 *
 * Reading and writing the file are not modelled: the file's text (or the
 * failure to read it) and its token stream are parameters, and the result is
 * the text that would be written.
 */
module Patch {
  import opened Wrappers
  import opened Types
  import opened AnchorScan
  import opened TextLines
  import opened Render

  /** Where `array_splice` starts on an array of `size` elements: a negative
   *  offset counts from the end, and the result is clamped to the array. */
  function SpliceOffset(offset: int, size: nat): (r: nat)
    ensures r <= size
    ensures var start := if offset < 0 then size + offset else offset;
      r == if start < 0 then 0 else if start > size then size else start
  {
    if offset < 0 then (if size + offset < 0 then 0 else size + offset)
    else if offset > size then size
    else offset
  }

  /** The two `array_splice` calls and the `array_merge` of `writeConstant`:
   *  keep the first line2 lines, drop the next `line3 - line2` lines (none
   *  when line3 is null), insert `statements`, keep the rest. A null line2
   *  counts as 0, as PHP converts null to 0 for an integer argument and in
   *  arithmetic. */
  function Splice(lines: seq<string>, anchors: Anchors, statements: seq<string>): (r: seq<string>)
    ensures var keep := SpliceOffset(anchors.line2.GetOr(0), |lines|);
      && keep + |statements| <= |r| <= |lines| + |statements|
      && r[..keep] == lines[..keep]
      && r[keep..keep + |statements|] == statements
      && IsSuffix(r[keep + |statements|..], lines)
  {
    var keep := SpliceOffset(anchors.line2.GetOr(0), |lines|);
    var head := lines[..keep];
    var rest := lines[keep..];
    var drop := if anchors.line3.Some? then SpliceOffset(anchors.line3.value - anchors.line2.GetOr(0), |rest|) else 0;
    var r := head + statements + rest[drop..];
    assert r[keep + |statements|..] == rest[drop..] == lines[keep + drop..];
    r
  }

  /** `suffix` is what is left of `s` after dropping some leading elements. */
  predicate IsSuffix<T(==)>(suffix: seq<T>, s: seq<T>) {
    |suffix| <= |s| && suffix == s[|s| - |suffix|..]
  }

  /** `writeConstant`: the new text of the target file, or the exception it
   *  raises when the file cannot be read or holds no annotation. */
  function WriteConstant(config: Config, source: Option<string>, tokens: seq<Token>): (r: Result<string, RuntimeException>)
    ensures source.None? ==> r == Failure(RuntimeException("Unable the open file '%s'.", [config.file]))
    ensures source.Some? ==>
      (r.Failure? <==> ExtractLines(tokens).line1.None?)
    ensures source.Some? && r.Failure? ==>
      r.error == RuntimeException("Annotation not found in '%s'.", [config.file])
  {
    match source
    case None => Failure(RuntimeException("Unable the open file '%s'.", [config.file]))
    case Some(text) =>
      var anchors := ExtractLines(tokens);
      if anchors.line1.None? then Failure(RuntimeException("Annotation not found in '%s'.", [config.file]))
      else
        var statements := MakeVariableStatements(config.variable, config.constants);
        Success(Unlines(Splice(Lines(text), anchors, statements)))
  }

  // ---------------------------------------------------------------------------
  // Facts.

  /** Anchors that lie within the file and in order. */
  predicate AnchorsWithin(anchors: Anchors, size: nat) {
    && anchors.line2.Some?
    && anchors.line2.value <= size
    && (anchors.line3.Some? ==> anchors.line2.value <= anchors.line3.value <= size)
  }

  /** The first line after the region the splice replaces. */
  function ResumeAt(anchors: Anchors): nat
    requires anchors.line2.Some?
  {
    if anchors.line3.Some? then anchors.line3.value else anchors.line2.value
  }

  /** With anchors inside the file, the splice is exactly: the lines before
   *  line2, the statements, and the lines from line3 on (from line2 on when
   *  there is no line3). */
  lemma SpliceReplacesRegion(lines: seq<string>, anchors: Anchors, statements: seq<string>)
    requires AnchorsWithin(anchors, |lines|)
    ensures Splice(lines, anchors, statements) ==
      lines[..anchors.line2.value] + statements + lines[ResumeAt(anchors)..]
    ensures |Splice(lines, anchors, statements)| ==
      |lines| - (ResumeAt(anchors) - anchors.line2.value) + |statements|
  {
    var keep := anchors.line2.value;
    var rest := lines[keep..];
    if anchors.line3.Some? {
      assert rest[anchors.line3.value - keep..] == lines[anchors.line3.value..];
    }
  }

  /** A file without an annotated doc comment is rejected, whatever else it
   *  holds. */
  lemma NoAnnotationRejected(config: Config, text: string, tokens: seq<Token>)
    requires forall q :: 0 <= q < |tokens| ==> !Annotated(tokens[q])
    ensures WriteConstant(config, Some(text), tokens) ==
      Failure(RuntimeException("Annotation not found in '%s'.", [config.file]))
  {
    NoAnnotationNoAnchors(tokens);
  }

  /** Split into lines again, the written file is the old lines before line2,
   *  the lines of the statement, and the old lines from line3 on. */
  lemma WrittenFileLines(config: Config, text: string, tokens: seq<Token>)
    requires ExtractLines(tokens).line1.Some?
    requires AnchorsWithin(ExtractLines(tokens), |Lines(text)|)
    ensures var anchors := ExtractLines(tokens);
      var written := WriteConstant(config, Some(text), tokens);
      written.Success? &&
      Lines(written.value) ==
        Lines(text)[..anchors.line2.value]
        + Lines(MakeVariableStatements(config.variable, config.constants)[0])
        + Lines(text)[ResumeAt(anchors)..]
  {
    var anchors := ExtractLines(tokens);
    var lines := Lines(text);
    var statements := MakeVariableStatements(config.variable, config.constants);
    SpliceReplacesRegion(lines, anchors, statements);
    LinesAroundBlock(lines[..anchors.line2.value], statements[0], lines[ResumeAt(anchors)..]);
  }

  /** Separator-free lines around a block keep their place when the whole is
   *  joined and split again; only the block is split into its own lines. */
  lemma LinesAroundBlock(before: seq<string>, block: string, after: seq<string>)
    requires forall k :: 0 <= k < |before| ==> '\n' !in before[k]
    requires forall k :: 0 <= k < |after| ==> '\n' !in after[k]
    ensures Lines(Unlines(before + [block] + after)) == before + Lines(block) + after
  {
    var tail := [block] + after;
    LinesBlockThenAfter(block, after);
    assert before + [block] + after == before + tail;
    LinesBeforeThen(before, tail);
  }

  lemma LinesBlockThenAfter(block: string, after: seq<string>)
    requires forall k :: 0 <= k < |after| ==> '\n' !in after[k]
    ensures Lines(Unlines([block] + after)) == Lines(block) + after
  {
    if |after| > 0 {
      JoinAppend([block], after, '\n');
      SplitAppend(block, Unlines(after), '\n');
      SplitJoin(after, '\n');
    } else {
      assert [block] + after == [block];
    }
  }

  lemma LinesBeforeThen(before: seq<string>, tail: seq<string>)
    requires forall k :: 0 <= k < |before| ==> '\n' !in before[k]
    requires |tail| > 0
    ensures Lines(Unlines(before + tail)) == before + Lines(Unlines(tail))
  {
    if |before| > 0 {
      JoinAppend(before, tail, '\n');
      SplitAppend(Unlines(before), Unlines(tail), '\n');
      SplitJoin(before, '\n');
    } else {
      assert before + tail == tail;
    }
  }

  /** Running the generation again replaces exactly the statement the first
   *  run inserted: if the first run spliced a statement of `n` entries into
   *  the file at line2, and the tokenizer then reports the same line2 and the
   *  statement's closing line as line3, the second run's output is the
   *  original file with the second statement in place of the old region. */
  lemma RerunReplacesPreviousStatement(
    config1: Config, config2: Config, text: string, tokens: seq<Token>, tokens2: seq<Token>)
    requires ExtractLines(tokens).line1.Some?
    requires AnchorsWithin(ExtractLines(tokens), |Lines(text)|)
    requires '\n' !in config1.variable && PlainLabels(config1.constants)
    requires WriteConstant(config1, Some(text), tokens).Success?
    requires var line2 := ExtractLines(tokens).line2.value;
      && ExtractLines(tokens2).line1.Some?
      && ExtractLines(tokens2).line2 == Some(line2)
      && ExtractLines(tokens2).line3 == Some(line2 + |config1.constants| + 2)
    ensures var anchors := ExtractLines(tokens);
      var lines := Lines(text);
      WriteConstant(config2, Some(WriteConstant(config1, Some(text), tokens).value), tokens2) ==
        Success(Unlines(lines[..anchors.line2.value]
                        + MakeVariableStatements(config2.variable, config2.constants)
                        + lines[ResumeAt(anchors)..]))
  {
    var anchors := ExtractLines(tokens);
    var lines := Lines(text);
    var line2 := anchors.line2.value;
    var text1 := WriteConstant(config1, Some(text), tokens).value;
    WrittenFileLines(config1, text, tokens);
    StatementLines(config1.variable, config1.constants);
    var lines1 := Lines(text1);
    var block := Lines(MakeVariableStatements(config1.variable, config1.constants)[0]);
    assert lines1 == lines[..line2] + block + lines[ResumeAt(anchors)..];
    var anchors2 := ExtractLines(tokens2);
    assert AnchorsWithin(anchors2, |lines1|);
    SpliceReplacesRegion(lines1, anchors2, MakeVariableStatements(config2.variable, config2.constants));
    ThreeParts(lines[..line2], block, lines[ResumeAt(anchors)..]);
  }

  lemma ThreeParts<T>(a: seq<T>, b: seq<T>, c: seq<T>)
    ensures (a + b + c)[..|a|] == a && (a + b + c)[|a| + |b|..] == c
  {
  }
}
