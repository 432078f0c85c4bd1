/**
 * `makeVariableStatements`: the constants array rendered as one PHP
 * assignment statement,
 *
 *     $variable = [
 *       "label" => [size, key, mask],
 *       ...
 *     ];
 *
 * one entry line per label, in the array's order. The reading back
 * (`ParseStatement`) shows that the text determines the variable name and
 * every entry.
 */
module Render {
  import opened Wrappers
  import opened Types
  import opened Decimal
  import opened TextLines

  /** The line of one entry, without its newline:
   *  `  "label" => [size, key, mask],`. */
  function EntryLine(e: Entry): (r: string)
    ensures '\n' !in e.name ==> '\n' !in r
  {
    IntToStringPlain(e.value.size);
    IntToStringPlain(e.value.key);
    IntToStringPlain(e.value.mask);
    "  \"" + e.name + "\" => ["
      + IntToString(e.value.size) + ", " + IntToString(e.value.key) + ", " + IntToString(e.value.mask)
      + "],"
  }

  /** The entry lines of `cs`, each with its newline: empty exactly when
   *  there are no entries, and otherwise ending with a line break. */
  function EntriesText(cs: seq<Entry>): (r: string)
    ensures |cs| > 0 <==> |r| > 0
    ensures |cs| > 0 ==> r[|r| - 1] == '\n'
  {
    if |cs| == 0 then "" else EntryLine(cs[0]) + "\n" + EntriesText(cs[1..])
  }

  /** `makeVariableStatements`: a list holding the single statement. */
  function MakeVariableStatements(variable: string, cs: seq<Entry>): (r: seq<string>)
    ensures |r| == 1
    ensures |r[0]| >= |variable| + 6 && r[0][..|variable|] == variable
    ensures r[0][|r[0]| - 2..] == "];"
  {
    var arrayText := "[\n" + EntriesText(cs) + "]";
    [variable + " = " + arrayText + ";"]
  }

  /** No label contains a line break or a double quote, so each entry stays
   *  on its own line and its label between its quotes. */
  predicate PlainLabels(cs: seq<Entry>) {
    forall k :: 0 <= k < |cs| ==> '\n' !in cs[k].name && '"' !in cs[k].name
  }

  // ---------------------------------------------------------------------------
  // Reading the statement back.

  /** The position of the first `c` in `s`. */
  function IndexOf(s: string, c: char): (r: Option<nat>)
    ensures r.Some? ==> r.value < |s| && s[r.value] == c && c !in s[..r.value]
    ensures r.None? ==> c !in s
  {
    if |s| == 0 then None
    else if s[0] == c then Some(0)
    else match IndexOf(s[1..], c)
      case Some(i) =>
        assert s[..i + 1] == [s[0]] + s[1..][..i];
        Some(i + 1)
      case None => None
  }

  /** Reads `size, key, mask` back. */
  function ParseTriple(text: string): Option<Constant> {
    var fields := SplitOn(text, ',');
    if |fields| != 3 || |fields[1]| == 0 || fields[1][0] != ' ' || |fields[2]| == 0 || fields[2][0] != ' ' then None
    else
      match (ParseInt(fields[0]), ParseInt(fields[1][1..]), ParseInt(fields[2][1..]))
      case (Some(size), Some(key), Some(mask)) => Some(Constant(size, key, mask))
      case _ => None
  }

  /** Reads one entry line back. */
  function ParseEntryLine(line: string): Option<Entry> {
    if !(|line| >= 3 && line[..3] == "  \"") then None
    else
      var rest := line[3..];
      match IndexOf(rest, '"')
      case None => None
      case Some(q) =>
        var tail := rest[q..];
        if !(|tail| >= 8 && tail[..6] == "\" => [" && tail[|tail| - 2..] == "],") then None
        else
          match ParseTriple(tail[6..|tail| - 2])
          case Some(c) => Some(Entry(rest[..q], c))
          case None => None
  }

  /** Reads a list of entry lines back. */
  function ParseEntryLines(lines: seq<string>): Option<seq<Entry>> {
    if |lines| == 0 then Some([])
    else
      match (ParseEntryLine(lines[0]), ParseEntryLines(lines[1..]))
      case (Some(e), Some(es)) => Some([e] + es)
      case _ => None
  }

  /** Reads a statement back: the variable name and the entries. */
  function ParseStatement(text: string): Option<(string, seq<Entry>)> {
    var lines := Lines(text);
    var header := lines[0];
    if |lines| < 2 || !(|header| >= 4 && header[|header| - 4..] == " = [") || lines[|lines| - 1] != "];" then None
    else
      match ParseEntryLines(lines[1..|lines| - 1])
      case Some(es) => Some((header[..|header| - 4], es))
      case None => None
  }

  // ---------------------------------------------------------------------------
  // Facts.

  /** The decimal text of an integer holds no separator the reader relies on. */
  lemma IntToStringPlain(i: int)
    ensures var s := IntToString(i); ',' !in s && '\n' !in s && '"' !in s && ' ' !in s
  {
    var s := IntToString(i);
    forall k | 0 <= k < |s|
      ensures s[k] != ',' && s[k] != '\n' && s[k] != '"' && s[k] != ' '
    {
    }
  }

  /** The three numbers of an entry line read back as written. */
  lemma TripleRoundTrip(c: Constant)
    ensures ParseTriple(IntToString(c.size) + ", " + IntToString(c.key) + ", " + IntToString(c.mask)) == Some(c)
  {
    var a, b, m := IntToString(c.size), IntToString(c.key), IntToString(c.mask);
    IntToStringPlain(c.size);
    IntToStringPlain(c.key);
    IntToStringPlain(c.mask);
    var middle := a + ", " + b + ", " + m;
    CommaParts(a, b, m);
    SplitAppend(a, (" " + b) + [','] + (" " + m), ',');
    SplitAppend(" " + b, " " + m, ',');
    SplitWithoutSeparator(a, ',');
    SplitWithoutSeparator(" " + b, ',');
    SplitWithoutSeparator(" " + m, ',');
    var fields := SplitOn(middle, ',');
    assert fields == [a, " " + b, " " + m];
    DropSpace(b);
    DropSpace(m);
    IntToStringRoundTrip(c.size);
    IntToStringRoundTrip(c.key);
    IntToStringRoundTrip(c.mask);
  }

  lemma CommaParts(a: string, b: string, m: string)
    ensures a + ", " + b + ", " + m == a + [','] + ((" " + b) + [','] + (" " + m))
  {
  }

  lemma DropSpace(b: string)
    ensures (" " + b)[1..] == b && |" " + b| > 0 && (" " + b)[0] == ' '
  {
  }

  /** The first double quote after a quote-free prefix is where the prefix
   *  ends. */
  lemma {:induction false} IndexAfterPrefix(prefix: string, tail: string)
    requires '"' !in prefix
    requires |tail| > 0 && tail[0] == '"'
    ensures IndexOf(prefix + tail, '"') == Some(|prefix|)
    decreases |prefix|
  {
    if |prefix| > 0 {
      assert (prefix + tail)[1..] == prefix[1..] + tail;
      assert prefix[0] in prefix;
      IndexAfterPrefix(prefix[1..], tail);
    }
  }

  /** The closing part of an entry line, after the label, splits back into
   *  its fixed pieces and the text of the numbers. */
  lemma BracketSlices(middle: string)
    ensures var tail := "\" => [" + middle + "],";
      && |tail| >= 8 && tail[..6] == "\" => [" && tail[|tail| - 2..] == "],"
      && tail[6..|tail| - 2] == middle
  {
  }

  /** An entry line with label `name` and closing part `tail` reads back as
   *  `name` and `tail`. */
  lemma LabelSlices(name: string, tail: string)
    requires '"' !in name
    requires |tail| > 0 && tail[0] == '"'
    ensures var line := "  \"" + name + tail;
      && |line| >= 3 && line[..3] == "  \""
      && IndexOf(line[3..], '"') == Some(|name|)
      && line[3..][..|name|] == name && line[3..][|name|..] == tail
  {
    var line := "  \"" + name + tail;
    assert line[3..] == name + tail;
    IndexAfterPrefix(name, tail);
  }

  /** An entry line is the quoted label followed by its closing part. */
  lemma EntryLineParts(name: string, a: string, b: string, m: string)
    ensures "  \"" + name + "\" => [" + a + ", " + b + ", " + m + "],"
         == "  \"" + name + ("\" => [" + (a + ", " + b + ", " + m) + "],")
  {
  }

  /** Reading an entry line back gives the entry, for a label free of double
   *  quotes. */
  lemma EntryLineRoundTrip(e: Entry)
    requires '"' !in e.name
    ensures ParseEntryLine(EntryLine(e)) == Some(e)
  {
    var a, b, m := IntToString(e.value.size), IntToString(e.value.key), IntToString(e.value.mask);
    var middle := a + ", " + b + ", " + m;
    var tail := "\" => [" + middle + "],";
    EntryLineParts(e.name, a, b, m);
    LabelSlices(e.name, tail);
    BracketSlices(middle);
    TripleRoundTrip(e.value);
  }

  /** The entry lines of `cs`, in order. */
  function EntryLines(cs: seq<Entry>): (r: seq<string>)
    ensures |r| == |cs|
    ensures forall k :: 0 <= k < |cs| ==> r[k] == EntryLine(cs[k])
  {
    if |cs| == 0 then []
    else
      [EntryLine(cs[0])] + EntryLines(cs[1..])
  }

  lemma {:induction false} EntriesTextLines(cs: seq<Entry>)
    requires PlainLabels(cs)
    ensures Lines(EntriesText(cs) + "];") == EntryLines(cs) + ["];"]
    decreases |cs|
  {
    if |cs| == 0 {
      assert EntriesText(cs) + "];" == "];";
      SplitWithoutSeparator("];", '\n');
      assert EntryLines(cs) == [];
    } else {
      var rest := cs[1..];
      var first := EntryLine(cs[0]);
      var tail := EntriesText(rest) + "];";
      PlainTail(cs);
      EntriesTextLines(rest);
      assert '\n' !in first;
      EntriesTextCons(cs);
      LinesCons(first, tail);
      assert EntryLines(cs) == [first] + EntryLines(rest);
      assert [first] + (EntryLines(rest) + ["];"]) == ([first] + EntryLines(rest)) + ["];"];
    }
  }

  lemma PlainTail(cs: seq<Entry>)
    requires |cs| > 0 && PlainLabels(cs)
    ensures PlainLabels(cs[1..])
  {
    var rest := cs[1..];
    forall k | 0 <= k < |rest|
      ensures '\n' !in rest[k].name && '"' !in rest[k].name
    {
      assert rest[k] == cs[k + 1];
    }
  }

  lemma EntriesTextCons(cs: seq<Entry>)
    requires |cs| > 0
    ensures EntriesText(cs) + "];" == EntryLine(cs[0]) + ['\n'] + (EntriesText(cs[1..]) + "];")
  {
    var first := EntryLine(cs[0]);
    var more := EntriesText(cs[1..]);
    assert EntriesText(cs) == first + "\n" + more;
    NewlineAssoc(first, more, "];");
  }

  lemma NewlineAssoc(a: string, b: string, c: string)
    ensures (a + "\n" + b) + c == a + ['\n'] + (b + c)
  {
  }

  /** A line without a break, followed by a break, comes out as one line. */
  lemma LinesCons(line: string, more: string)
    requires '\n' !in line
    ensures Lines(line + ['\n'] + more) == [line] + Lines(more)
  {
    SplitWithoutSeparator(line, '\n');
    SplitAppend(line, more, '\n');
  }

  lemma StatementText(variable: string, cs: seq<Entry>)
    ensures MakeVariableStatements(variable, cs)[0] == (variable + " = [") + ['\n'] + (EntriesText(cs) + "];")
  {
  }

  /** Split into lines, the statement is the header line `$variable = [`,
   *  one line per entry in the array's order, and the closing `];`. */
  lemma StatementLines(variable: string, cs: seq<Entry>)
    requires '\n' !in variable
    requires PlainLabels(cs)
    ensures Lines(MakeVariableStatements(variable, cs)[0]) == [variable + " = ["] + EntryLines(cs) + ["];"]
    ensures |Lines(MakeVariableStatements(variable, cs)[0])| == |cs| + 2
  {
    var header := variable + " = [";
    assert '\n' !in header;
    StatementText(variable, cs);
    LinesCons(header, EntriesText(cs) + "];");
    EntriesTextLines(cs);
  }

  lemma {:induction false} EntryLinesRoundTrip(cs: seq<Entry>)
    requires PlainLabels(cs)
    ensures ParseEntryLines(EntryLines(cs)) == Some(cs)
    decreases |cs|
  {
    if |cs| > 0 {
      var rest := cs[1..];
      PlainTail(cs);
      EntryLinesRoundTrip(rest);
      EntryLineRoundTrip(cs[0]);
      ParseEntryLinesCons(EntryLine(cs[0]), EntryLines(rest), cs[0], rest);
      assert cs == [cs[0]] + rest;
    }
  }

  lemma ParseEntryLinesCons(line: string, lines: seq<string>, e: Entry, es: seq<Entry>)
    requires ParseEntryLine(line) == Some(e) && ParseEntryLines(lines) == Some(es)
    ensures ParseEntryLines([line] + lines) == Some([e] + es)
  {
    assert ([line] + lines)[1..] == lines;
  }

  /** Reading the rendered statement back yields the variable name and every
   *  entry, in order: the rendering loses nothing. */
  lemma StatementRoundTrip(variable: string, cs: seq<Entry>)
    requires '\n' !in variable
    requires PlainLabels(cs)
    ensures ParseStatement(MakeVariableStatements(variable, cs)[0]) == Some((variable, cs))
  {
    var stmt := MakeVariableStatements(variable, cs)[0];
    StatementLines(variable, cs);
    var lines := Lines(stmt);
    var header := variable + " = [";
    assert lines[0] == header;
    assert header[|header| - 4..] == " = [";
    assert header[..|header| - 4] == variable;
    assert lines[1..|lines| - 1] == EntryLines(cs);
    EntryLinesRoundTrip(cs);
  }
}
