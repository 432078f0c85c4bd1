/**
 * `ReferenceObfuscatorAutomator`: the run that generates the missing
 * constants, sorts them by label, saves the configuration, and writes the
 * rendered statement into the target file.
 *
 * `rand` is modelled as a nondeterministic choice within the range it is
 * given; the values chosen are returned as a ghost record (`draws`) so that
 * the outcome can be related to the pure model in `Generation`.
 */
module Automator {
  import opened Wrappers
  import opened Types
  import opened Generation
  import opened KeySort
  import LexOrder
  import opened AnchorScan
  import opened Patch

  /** The two `rand` calls for a new constant of `size` bytes:
   *  `rand(1, pow(2, 16) - 1)` and
   *  `rand(pow(2, 8 * size - 1), pow(2, 8 * size) - 1)`. */
  method DrawKeyAndMask(size: int) returns (key: int, mask: int)
    requires size >= 1
    ensures 1 <= key <= MaxKey
    ensures MaskMin(size) <= mask <= MaskMax(size)
  {
    key :| 1 <= key <= MaxKey;
    mask :| MaskMin(size) <= mask <= MaskMax(size);
  }

  /** A stand-in draw for a table that gets no new constant; its values are
   *  never used. */
  function UnusedDraw(t: Table): (d: Draw)
    ensures t.dataType in IntegerTypeSizes ==>
      var size := IntegerTypeSizes[t.dataType];
      1 <= d.key <= MaxKey && MaskMin(size) <= d.mask <= MaskMax(size)
  {
    if t.dataType in IntegerTypeSizes then Draw(1, MaskMin(IntegerTypeSizes[t.dataType])) else Draw(0, 0)
  }

  lemma DrawsFitAppend(tables: seq<Table>, draws: seq<Draw>, t: Table, d: Draw)
    requires DrawsFit(tables, draws)
    requires t.dataType in IntegerTypeSizes ==>
      var size := IntegerTypeSizes[t.dataType];
      1 <= d.key <= MaxKey && MaskMin(size) <= d.mask <= MaskMax(size)
    ensures DrawsFit(tables + [t], draws + [d])
  {
  }

  /** The `foreach` loop of `generateConstants`: passes over ignored tables
   *  and labels that already have a constant, and appends a fresh constant
   *  for every other table. */
  method MergeTables(constants: seq<Entry>, ignore: seq<string>, tables: seq<Table>)
    returns (cs: seq<Entry>, ghost draws: seq<Draw>)
    requires TypesResolvable(Labels(constants), ignore, tables)
    ensures DrawsFit(tables, draws)
    ensures cs == Merge(constants, ignore, tables, draws)
    ensures constants <= cs
    ensures Labels(cs) == Labels(constants) + CandidateLabels(ignore, tables)
    ensures forall k :: |constants| <= k < |cs| ==> WellFormed(cs[k].value)
    ensures UniqueLabels(constants) ==> UniqueLabels(cs)
  {
    cs := constants;
    draws := [];
    for i := 0 to |tables|
      invariant |draws| == i
      invariant DrawsFit(tables[..i], draws)
      invariant TypesResolvable(Labels(constants), ignore, tables[..i]) &&
        cs == Merge(constants, ignore, tables[..i], draws)
    {
      var t := tables[i];
      NextTypeKnown(constants, ignore, tables, i, draws);
      ghost var d := UnusedDraw(t);
      if t.tableName !in ignore {
        var name := Label(t.columnName);
        if name !in Labels(cs) {
          var size := IntegerTypeSizes[t.dataType];
          var key, mask := DrawKeyAndMask(size);
          cs := cs + [Entry(name, Constant(size, key, mask))];
          d := Draw(key, mask);
        }
      }
      MergeNext(constants, ignore, tables, i, draws, d);
      DrawsFitAppend(tables[..i], draws, t, d);
      assert tables[..i + 1] == tables[..i] + [t];
      draws := draws + [d];
    }
    assert tables[..|tables|] == tables;
    MergeFacts(constants, ignore, tables, draws);
  }

  lemma MergeFacts(constants: seq<Entry>, ignore: seq<string>, tables: seq<Table>, draws: seq<Draw>)
    requires TypesResolvable(Labels(constants), ignore, tables)
    requires DrawsFit(tables, draws)
    ensures var cs := Merge(constants, ignore, tables, draws);
      && Labels(cs) == Labels(constants) + CandidateLabels(ignore, tables)
      && (forall k :: |constants| <= k < |cs| ==> WellFormed(cs[k].value))
      && (UniqueLabels(constants) ==> UniqueLabels(cs))
  {
    MergeLabels(constants, ignore, tables, draws);
    MergeNewEntriesWellFormed(constants, ignore, tables, draws);
    if UniqueLabels(constants) {
      MergeKeepsUnique(constants, ignore, tables, draws);
    }
  }

  /** One more table: the merge of the first `i + 1` tables is the merge of
   *  the first `i`, extended by table `i` unless it is passed over. */
  lemma MergeNext(constants: seq<Entry>, ignore: seq<string>, tables: seq<Table>, i: nat, draws: seq<Draw>, d: Draw)
    requires i < |tables| && |draws| == i
    requires TypesResolvable(Labels(constants), ignore, tables)
    ensures TypesResolvable(Labels(constants), ignore, tables[..i])
    ensures TypesResolvable(Labels(constants), ignore, tables[..i + 1])
    ensures var m := Merge(constants, ignore, tables[..i], draws);
      && (!Skipped(Labels(m), ignore, tables[i]) ==> tables[i].dataType in IntegerTypeSizes)
      && Merge(constants, ignore, tables[..i + 1], draws + [d]) ==
           if Skipped(Labels(m), ignore, tables[i]) then m else m + [NewEntry(tables[i], d)]
  {
    var t := tables[i];
    assert tables[..i + 1] == tables[..i] + [t];
    assert tables == tables[..i + 1] + tables[i + 1..];
    ResolvableSplit(Labels(constants), ignore, tables[..i + 1], tables[i + 1..]);
    MergeAppend(constants, ignore, tables[..i], [t], draws, [d]);
    var m := Merge(constants, ignore, tables[..i], draws);
    if !Skipped(Labels(m), ignore, t) {
      LabelsAppend(m, NewEntry(t, d));
      assert Merge(m, ignore, [t], [d]) == Merge(m + [NewEntry(t, d)], ignore, [], []);
    }
  }

  /** The next table that needs a new entry has a known type. */
  lemma NextTypeKnown(constants: seq<Entry>, ignore: seq<string>, tables: seq<Table>, i: nat, draws: seq<Draw>)
    requires i < |tables| && |draws| == i
    requires TypesResolvable(Labels(constants), ignore, tables)
    ensures TypesResolvable(Labels(constants), ignore, tables[..i])
    ensures !Skipped(Labels(Merge(constants, ignore, tables[..i], draws)), ignore, tables[i]) ==>
      tables[i].dataType in IntegerTypeSizes
  {
    MergeNext(constants, ignore, tables, i, draws, UnusedDraw(tables[i]));
  }

  /** What the saved constants array holds: labels in ascending order, the
   *  old labels plus those of the tables not ignored, every old entry
   *  untouched, every new entry well formed, and no label twice. */
  lemma SavedConstants(constants: seq<Entry>, ignore: seq<string>, tables: seq<Table>, draws: seq<Draw>)
    requires TypesResolvable(Labels(constants), ignore, tables)
    requires DrawsFit(tables, draws)
    ensures var saved := KSort(Merge(constants, ignore, tables, draws));
      && SortedByLabel(saved)
      && Labels(saved) == Labels(constants) + CandidateLabels(ignore, tables)
      && (forall e :: e in constants ==> e in saved)
      && (forall e :: e in saved && e.name !in Labels(constants) ==> WellFormed(e.value))
      && (UniqueLabels(constants) ==> UniqueLabels(saved))
  {
    var cs := Merge(constants, ignore, tables, draws);
    MergeLabels(constants, ignore, tables, draws);
    KSortKeepsLabels(cs);
    MergeNewEntriesWellFormed(constants, ignore, tables, draws);
    SortKeepsEntries(constants, cs);
    SortKeepsNewEntries(constants, cs);
    if UniqueLabels(constants) {
      MergeKeepsUnique(constants, ignore, tables, draws);
    }
  }

  lemma SortKeepsEntries(constants: seq<Entry>, cs: seq<Entry>)
    requires constants <= cs
    ensures forall e :: e in constants ==> e in KSort(cs)
  {
    KSortMembers(cs);
    forall e | e in constants
      ensures e in cs
    {
      var k :| 0 <= k < |constants| && constants[k] == e;
      assert cs[k] == e;
    }
  }

  lemma SortKeepsNewEntries(constants: seq<Entry>, cs: seq<Entry>)
    requires constants <= cs
    requires forall k :: |constants| <= k < |cs| ==> WellFormed(cs[k].value)
    ensures forall e :: e in KSort(cs) && e.name !in Labels(constants) ==> WellFormed(e.value)
  {
    KSortMembers(cs);
    forall k | 0 <= k < |constants|
      ensures cs[k].name in Labels(constants)
    {
      assert cs[k] == constants[k] && constants[k] in constants;
    }
    forall e | e in cs && e.name !in Labels(constants)
      ensures WellFormed(e.value)
    {
      var k :| 0 <= k < |cs| && cs[k] == e;
    }
  }

  /** Two tables and an empty configuration: `usr_id` (tinyint) and `ord_id`
   *  (smallint) get the labels `usr` and `ord`, one and two bytes, and the
   *  saved array lists `ord` first. */
  lemma TwoTables(d1: Draw, d2: Draw)
    ensures var tables := [Table("usr", "usr_id", "tinyint"), Table("ord", "ord_id", "smallint")];
      && TypesResolvable(Labels([]), [], tables)
      && KSort(Merge([], [], tables, [d1, d2]))
         == [Entry("ord", Constant(2, d2.key, d2.mask)), Entry("usr", Constant(1, d1.key, d1.mask))]
  {
    TwoTablesMerged(d1, d2);
    assert !LexOrder.LexLeq("usr", "ord");
    KSortPair(Entry("usr", Constant(1, d1.key, d1.mask)), Entry("ord", Constant(2, d2.key, d2.mask)));
  }

  /** Before sorting, the entries follow the order of the tables. */
  lemma TwoTablesMerged(d1: Draw, d2: Draw)
    ensures var tables := [Table("usr", "usr_id", "tinyint"), Table("ord", "ord_id", "smallint")];
      && TypesResolvable(Labels([]), [], tables)
      && Merge([], [], tables, [d1, d2])
         == [Entry("usr", Constant(1, d1.key, d1.mask)), Entry("ord", Constant(2, d2.key, d2.mask))]
  {
    var tables := [Table("usr", "usr_id", "tinyint"), Table("ord", "ord_id", "smallint")];
    assert Label("usr_id") == "usr" && Label("ord_id") == "ord";
    var usr := Entry("usr", Constant(1, d1.key, d1.mask));
    var ord := Entry("ord", Constant(2, d2.key, d2.mask));
    assert Labels([usr]) == {"usr"};
    assert TypesResolvable(Labels([]), [], tables);
    assert Merge([usr], [], tables[1..], [d2]) == [usr, ord];
  }

  /** Running the generator again on the same tables, with a third table for
   *  an ignored name, adds nothing: every label already has a constant. */
  lemma SecondRunKeepsConstants(cs: seq<Entry>, d1: Draw, d2: Draw, d3: Draw)
    requires Labels(cs) == {"ord", "usr"}
    ensures var tables := [Table("usr", "usr_id", "tinyint"), Table("log", "log_id", "text"),
                           Table("ord", "ord_id", "smallint")];
      && TypesResolvable(Labels(cs), ["log"], tables)
      && Merge(cs, ["log"], tables, [d1, d2, d3]) == cs
  {
    var tables := [Table("usr", "usr_id", "tinyint"), Table("log", "log_id", "text"),
                   Table("ord", "ord_id", "smallint")];
    assert Label("usr_id") == "usr" && Label("ord_id") == "ord";
    forall x | x in CandidateLabels(["log"], tables)
      ensures x in Labels(cs)
    {
      var t :| t in tables && t.tableName !in ["log"] && x == Label(t.columnName);
    }
    MergeSkipsKnownLabels(cs, ["log"], tables, [d1, d2, d3]);
  }

  /** `generateConstants` followed by `rewriteConfig`'s `ksort`: the
   *  configuration as it is saved. */
  method GenerateConstants(config: Config, tables: seq<Table>) returns (r: Config, ghost draws: seq<Draw>)
    requires TypesResolvable(Labels(config.constants), config.ignore, tables)
    ensures DrawsFit(tables, draws)
    ensures r == config.(constants := KSort(Merge(config.constants, config.ignore, tables, draws)))
    ensures SortedByLabel(r.constants)
    ensures Labels(r.constants) == Labels(config.constants) + CandidateLabels(config.ignore, tables)
    ensures forall e :: e in config.constants ==> e in r.constants
    ensures forall e :: e in r.constants && e.name !in Labels(config.constants) ==> WellFormed(e.value)
    ensures UniqueLabels(config.constants) ==> UniqueLabels(r.constants)
  {
    var cs;
    cs, draws := MergeTables(config.constants, config.ignore, tables);
    r := config.(constants := KSort(cs));
    SavedConstants(config.constants, config.ignore, tables, draws);
  }

  /** `main`: generate and save the constants, then write the statement into
   *  the target file. The configuration has already been read and the
   *  schema rows fetched; the target file's text and tokens are given. */
  method RunAutomator(config: Config, tables: seq<Table>, source: Option<string>, tokens: seq<Token>)
    returns (saved: Config, written: Result<string, RuntimeException>, ghost draws: seq<Draw>)
    requires TypesResolvable(Labels(config.constants), config.ignore, tables)
    ensures DrawsFit(tables, draws)
    ensures saved == config.(constants := KSort(Merge(config.constants, config.ignore, tables, draws)))
    ensures SortedByLabel(saved.constants)
    ensures Labels(saved.constants) == Labels(config.constants) + CandidateLabels(config.ignore, tables)
    ensures forall e :: e in config.constants ==> e in saved.constants
    ensures forall e :: e in saved.constants && e.name !in Labels(config.constants) ==> WellFormed(e.value)
    ensures UniqueLabels(config.constants) ==> UniqueLabels(saved.constants)
    ensures written == WriteConstant(saved, source, tokens)
    ensures source.Some? ==> (written.Failure? <==> ExtractLines(tokens).line1.None?)
  {
    saved, draws := GenerateConstants(config, tables);
    written := WriteConstant(saved, source, tokens);
  }
}
