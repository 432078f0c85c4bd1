/**
 * `generateConstants`: for every table with an auto-increment column that is
 * not ignored, derive a label from the column name and, when the constants
 * array has no entry for that label yet, add `[length, key, mask]` with a
 * random key and a random mask as wide as the column.
 *
 * The values `rand` returns are a parameter here: `draws[i]` is the key and
 * the mask drawn if `tables[i]` gets a new entry.
 */
module Generation {
  import opened Wrappers
  import opened Types
  import PhpString
  import SetBasedMangler
  import ObfuscatorMangler

  /** `$myIntegerTypeSizes`: bytes per MySQL integer type. */
  const IntegerTypeSizes: map<string, int> :=
    map["tinyint" := 1, "smallint" := 2, "mediumint" := 3, "int" := 4, "bigint" := 8]

  /** 2 to the power `n`. */
  function Pow2(n: nat): (r: nat)
    ensures r >= 1
  {
    if n == 0 then 1 else 2 * Pow2(n - 1)
  }

  /** Largest key: `pow(2, 16) - 1`. */
  const MaxKey: int := 65535

  /** 256 to the power `k`: the value of a one followed by `k` zero bytes. */
  function Pow256(k: nat): nat {
    if k == 0 then 1 else 256 * Pow256(k - 1)
  }

  /** Smallest mask for a column of `size` bytes, `pow(2, 8 * size - 1)`:
   *  only the top bit set, that is the byte 0x80 followed by `size - 1`
   *  zero bytes. */
  function MaskMin(size: nat): (r: nat)
    requires size >= 1
    ensures r == 0x80 * Pow256(size - 1)
  {
    TopBitBytes(size - 1);
    Pow2(8 * size - 1)
  }

  /** 2^(8k + 7) is the byte 0x80 followed by `k` zero bytes. */
  lemma {:induction false} TopBitBytes(k: nat)
    ensures Pow2(8 * k + 7) == 0x80 * Pow256(k)
  {
    if k == 0 {
      Pow2Byte(0);
    } else {
      TopBitBytes(k - 1);
      Pow2Byte(8 * (k - 1) + 7);
      assert 8 * (k - 1) + 7 + 8 == 8 * k + 7;
    }
  }

  /** 2^7 is 128, and eight more bits multiply by 256. */
  lemma Pow2Byte(n: nat)
    ensures Pow2(7) == 128
    ensures Pow2(n + 8) == 256 * Pow2(n)
  {
    assert Pow2(4) == 16;
    Pow2Add(4, 3);
    Pow2Add(4, 4);
    Pow2Add(8, n);
  }

  /** Largest mask for a column of `size` bytes, `pow(2, 8 * size) - 1`:
   *  all bits set, one less than twice the smallest mask, so the range is
   *  never empty. */
  function MaskMax(size: nat): (r: int)
    requires size >= 1
    ensures r + 1 == 2 * MaskMin(size)
    ensures MaskMin(size) <= r
  {
    Pow2(8 * size) - 1
  }

  /** The label derived inline from a column name:
   *  `substr($column_name, 0, strlen($column_name) - 3)`. */
  function Label(columnName: string): (r: string)
    ensures |columnName| >= 3 ==> r + columnName[|columnName| - 3..] == columnName
    ensures |columnName| >= 3 ==> |r| == |columnName| - 3
    ensures |columnName| < 3 ==> |r| < 2
  {
    PhpString.Prefix(columnName, |columnName| - 3)
  }

  /** On a column ending in `_id` the inline label is the label both
   *  strategies derive. */
  lemma LabelAgreesWithStrategies(table: Table)
    requires SetBasedMangler.EndsWithId(table.columnName)
    ensures SetBasedMangler.GetLabel(table) == Success(Label(table.columnName))
    ensures ObfuscatorMangler.GetLabel(table) == Success(Label(table.columnName))
  {
    var c := table.columnName;
    assert Label(c) + c[|c| - 3..] == c;
    assert SetBasedMangler.GetLabel(table).value + SetBasedMangler.IdSuffix == c;
  }

  /** The inline label does not insist on `_id`: any column of three or more
   *  characters loses its last three, where both strategies raise an
   *  exception. */
  lemma LabelWithoutIdSuffix()
    ensures Label("usr_key") == "usr_"
    ensures SetBasedMangler.GetLabel(Table("usr", "usr_key", "int")).Failure?
    ensures ObfuscatorMangler.GetLabel(Table("usr", "usr_key", "int")).Failure?
    ensures Label("id") == "i" && Label("d") == ""
  {
    assert "usr_key"[4..] == "key";
  }

  /** The values two calls of `rand` returned for one table. */
  datatype Draw = Draw(key: int, mask: int)

  /** A constant as the code generates it: a known byte size, a key in
   *  [1, 65535] and a mask that fills `size` bytes with the top bit set. */
  predicate WellFormed(c: Constant) {
    && c.size in IntegerTypeSizes.Values
    && 1 <= c.key <= MaxKey
    && MaskMin(c.size) <= c.mask <= MaskMax(c.size)
  }

  /** The draws honour the ranges passed to `rand` for every table whose
   *  type is known. */
  predicate DrawsFit(tables: seq<Table>, draws: seq<Draw>) {
    && |draws| == |tables|
    && forall i :: 0 <= i < |tables| && tables[i].dataType in IntegerTypeSizes ==>
         var size := IntegerTypeSizes[tables[i].dataType];
         1 <= draws[i].key <= MaxKey && MaskMin(size) <= draws[i].mask <= MaskMax(size)
  }

  /** The table is passed over: it is ignored, or its label already has a
   *  constant. */
  predicate Skipped(known: set<string>, ignore: seq<string>, t: Table) {
    t.tableName in ignore || Label(t.columnName) in known
  }

  /** The membership test on labels is the `isset` of the constant stored
   *  under the table's label. */
  lemma SkippedIsIsset(cs: seq<Entry>, ignore: seq<string>, t: Table)
    ensures Skipped(Labels(cs), ignore, t) <==>
      (t.tableName in ignore || Lookup(cs, Label(t.columnName)).Some?)
  {
  }

  /** Every table that will get a new entry has a known integer type, given
   *  that the labels in `known` already have one. */
  predicate TypesResolvable(known: set<string>, ignore: seq<string>, tables: seq<Table>)
    decreases |tables|
  {
    || |tables| == 0
    || (if Skipped(known, ignore, tables[0]) then TypesResolvable(known, ignore, tables[1..])
        else tables[0].dataType in IntegerTypeSizes
             && TypesResolvable(known + {Label(tables[0].columnName)}, ignore, tables[1..]))
  }

  /** The labels of the tables that are not ignored. */
  function CandidateLabels(ignore: seq<string>, tables: seq<Table>): set<string> {
    set t | t in tables && t.tableName !in ignore :: Label(t.columnName)
  }

  /** The loop of `generateConstants` over `tables`: entries already present
   *  stay where they are, new ones are appended in table order. */
  function Merge(cs: seq<Entry>, ignore: seq<string>, tables: seq<Table>, draws: seq<Draw>): (r: seq<Entry>)
    requires |draws| == |tables|
    requires TypesResolvable(Labels(cs), ignore, tables)
    ensures cs <= r
    decreases |tables|
  {
    if |tables| == 0 then cs
    else
      var t := tables[0];
      if Skipped(Labels(cs), ignore, t) then
        Merge(cs, ignore, tables[1..], draws[1..])
      else
        var entry := NewEntry(t, draws[0]);
        LabelsAppend(cs, entry);
        Merge(cs + [entry], ignore, tables[1..], draws[1..])
  }

  /** The entry generated for table `t` from the values `d` that `rand`
   *  returned: stored under the table's label, as long as the column's
   *  integer type, and well formed exactly when both values lie in the
   *  ranges passed to `rand` for that type. */
  function NewEntry(t: Table, d: Draw): (e: Entry)
    requires t.dataType in IntegerTypeSizes
    ensures e.name == Label(t.columnName)
    ensures e.value.size == IntegerTypeSizes[t.dataType]
    ensures var size := IntegerTypeSizes[t.dataType];
      WellFormed(e.value) <==> 1 <= d.key <= MaxKey && MaskMin(size) <= d.mask <= MaskMax(size)
  {
    ValuesOfSizes(t.dataType);
    Entry(Label(t.columnName), Constant(IntegerTypeSizes[t.dataType], d.key, d.mask))
  }

  lemma LabelsAppend(cs: seq<Entry>, e: Entry)
    ensures Labels(cs + [e]) == Labels(cs) + {e.name}
  {
    assert forall x :: x in cs + [e] <==> x in cs || x == e;
  }

  /** After the merge the labels are the old labels plus the label of every
   *  table that is not ignored. */
  lemma {:induction false} MergeLabels(cs: seq<Entry>, ignore: seq<string>, tables: seq<Table>, draws: seq<Draw>)
    requires |draws| == |tables|
    requires TypesResolvable(Labels(cs), ignore, tables)
    ensures Labels(Merge(cs, ignore, tables, draws)) == Labels(cs) + CandidateLabels(ignore, tables)
    decreases |tables|
  {
    if |tables| > 0 {
      var t := tables[0];
      var r := Merge(cs, ignore, tables, draws);
      if Skipped(Labels(cs), ignore, t) {
        MergeLabels(cs, ignore, tables[1..], draws[1..]);
        MergeLabelsStep(cs, ignore, tables, cs, r);
      } else {
        var grown := cs + [NewEntry(t, draws[0])];
        LabelsAppend(cs, NewEntry(t, draws[0]));
        MergeLabels(grown, ignore, tables[1..], draws[1..]);
        MergeLabelsStep(cs, ignore, tables, grown, r);
      }
    }
  }

  /** The merge adds no label twice: a map stays a map. */
  lemma {:induction false} MergeKeepsUnique(cs: seq<Entry>, ignore: seq<string>, tables: seq<Table>, draws: seq<Draw>)
    requires |draws| == |tables|
    requires TypesResolvable(Labels(cs), ignore, tables)
    requires UniqueLabels(cs)
    ensures UniqueLabels(Merge(cs, ignore, tables, draws))
    decreases |tables|
  {
    if |tables| > 0 {
      var t := tables[0];
      if Skipped(Labels(cs), ignore, t) {
        MergeKeepsUnique(cs, ignore, tables[1..], draws[1..]);
      } else {
        var e := NewEntry(t, draws[0]);
        UniqueAppend(cs, e);
        LabelsAppend(cs, e);
        MergeKeepsUnique(cs + [e], ignore, tables[1..], draws[1..]);
      }
    }
  }

  /** Every entry the merge adds has a known size, a key in [1, 65535] and a
   *  mask of exactly `size` bytes with the top bit set, provided `rand`
   *  honoured its ranges. */
  lemma {:induction false} MergeNewEntriesWellFormed(cs: seq<Entry>, ignore: seq<string>, tables: seq<Table>, draws: seq<Draw>)
    requires TypesResolvable(Labels(cs), ignore, tables)
    requires DrawsFit(tables, draws)
    ensures var r := Merge(cs, ignore, tables, draws);
      forall k :: |cs| <= k < |r| ==> WellFormed(r[k].value)
    decreases |tables|
  {
    if |tables| > 0 {
      DrawsFitTail(tables, draws);
      var next := MergeFirstStep(cs, ignore, tables, draws);
      MergeNewEntriesWellFormed(next, ignore, tables[1..], draws[1..]);
      var r := Merge(cs, ignore, tables, draws);
      assert next <= r;
      forall k | |cs| <= k < |next|
        ensures WellFormed(r[k].value)
      {
        assert r[k] == next[k] == NewEntry(tables[0], draws[0]);
      }
    }
  }

  /** The draws for all tables but the first fit those tables. */
  lemma DrawsFitTail(tables: seq<Table>, draws: seq<Draw>)
    requires |tables| > 0 && DrawsFit(tables, draws)
    ensures DrawsFit(tables[1..], draws[1..])
  {
    forall i | 0 <= i < |tables[1..]| && tables[1..][i].dataType in IntegerTypeSizes
      ensures var size := IntegerTypeSizes[tables[1..][i].dataType];
        1 <= draws[1..][i].key <= MaxKey && MaskMin(size) <= draws[1..][i].mask <= MaskMax(size)
    {
      assert tables[1..][i] == tables[i + 1];
    }
  }

  /** Tables that are all ignored or whose labels all have a constant leave
   *  the constants array exactly as it was. */
  lemma {:induction false} MergeSkipsKnownLabels(cs: seq<Entry>, ignore: seq<string>, tables: seq<Table>, draws: seq<Draw>)
    requires |draws| == |tables|
    requires CandidateLabels(ignore, tables) <= Labels(cs)
    ensures TypesResolvable(Labels(cs), ignore, tables)
    ensures Merge(cs, ignore, tables, draws) == cs
    decreases |tables|
  {
    if |tables| > 0 {
      var t := tables[0];
      assert CandidateLabels(ignore, tables[1..]) <= CandidateLabels(ignore, tables) by {
        forall x | x in CandidateLabels(ignore, tables[1..])
          ensures x in CandidateLabels(ignore, tables)
        {
          var u :| u in tables[1..] && u.tableName !in ignore && x == Label(u.columnName);
          assert u in tables;
        }
      }
      assert Skipped(Labels(cs), ignore, t) by {
        if t.tableName !in ignore {
          assert t in tables;
          assert Label(t.columnName) in CandidateLabels(ignore, tables);
        }
      }
      MergeSkipsKnownLabels(cs, ignore, tables[1..], draws[1..]);
    }
  }

  /** Running the generation a second time on the same tables adds nothing
   *  and changes nothing, whatever `rand` returns the second time. */
  lemma MergeTwiceAddsNothing(cs: seq<Entry>, ignore: seq<string>, tables: seq<Table>, draws: seq<Draw>, redraws: seq<Draw>)
    requires |draws| == |tables| && |redraws| == |tables|
    requires TypesResolvable(Labels(cs), ignore, tables)
    ensures var once := Merge(cs, ignore, tables, draws);
      TypesResolvable(Labels(once), ignore, tables) && Merge(once, ignore, tables, redraws) == once
  {
    var once := Merge(cs, ignore, tables, draws);
    MergeLabels(cs, ignore, tables, draws);
    MergeSkipsKnownLabels(once, ignore, tables, redraws);
  }

  /** The first table that is not ignored and carries a label without a
   *  constant gets the entry for that label, built from its own type and its
   *  own draws; later tables with the same label are passed over. */
  lemma {:induction false} MergeFirstTableWins(cs: seq<Entry>, ignore: seq<string>, tables: seq<Table>, draws: seq<Draw>, i: nat)
    requires |draws| == |tables|
    requires TypesResolvable(Labels(cs), ignore, tables)
    requires i < |tables|
    requires tables[i].tableName !in ignore && Label(tables[i].columnName) !in Labels(cs)
    requires forall j :: 0 <= j < i ==>
               tables[j].tableName in ignore || Label(tables[j].columnName) != Label(tables[i].columnName)
    ensures tables[i].dataType in IntegerTypeSizes
    ensures NewEntry(tables[i], draws[i]) in Merge(cs, ignore, tables, draws)[|cs|..]
    decreases i
  {
    var r := Merge(cs, ignore, tables, draws);
    if i == 0 {
      MergeHeadEntry(cs, ignore, tables, draws);
      assert r[|cs|..][0] == NewEntry(tables[0], draws[0]);
    } else {
      var next := MergeFirstStep(cs, ignore, tables, draws);
      EarlierTablesShift(ignore, tables, draws, i);
      assert Label(tables[i].columnName) !in Labels(next);
      MergeFirstTableWins(next, ignore, tables[1..], draws[1..], i - 1);
      InLaterSlice(r, NewEntry(tables[i], draws[i]), |cs|, |next|);
    }
  }

  /** The first iteration of the loop: the array it leaves, from which the
   *  loop over the remaining tables goes on. */
  lemma MergeFirstStep(cs: seq<Entry>, ignore: seq<string>, tables: seq<Table>, draws: seq<Draw>) returns (next: seq<Entry>)
    requires |draws| == |tables| > 0
    requires TypesResolvable(Labels(cs), ignore, tables)
    ensures Skipped(Labels(cs), ignore, tables[0]) ==> next == cs
    ensures !Skipped(Labels(cs), ignore, tables[0]) ==>
      tables[0].dataType in IntegerTypeSizes && next == cs + [NewEntry(tables[0], draws[0])]
    ensures cs <= next
    ensures Labels(next) == if Skipped(Labels(cs), ignore, tables[0]) then Labels(cs)
                            else Labels(cs) + {Label(tables[0].columnName)}
    ensures TypesResolvable(Labels(next), ignore, tables[1..])
    ensures Merge(cs, ignore, tables, draws) == Merge(next, ignore, tables[1..], draws[1..])
  {
    if Skipped(Labels(cs), ignore, tables[0]) {
      next := cs;
    } else {
      var e := NewEntry(tables[0], draws[0]);
      LabelsAppend(cs, e);
      next := cs + [e];
    }
  }

  /** The tables before `i` seen from the second table on. */
  lemma EarlierTablesShift(ignore: seq<string>, tables: seq<Table>, draws: seq<Draw>, i: nat)
    requires |draws| == |tables|
    requires 0 < i < |tables|
    requires forall j :: 0 <= j < i ==>
               tables[j].tableName in ignore || Label(tables[j].columnName) != Label(tables[i].columnName)
    ensures tables[1..][i - 1] == tables[i] && draws[1..][i - 1] == draws[i]
    ensures forall j :: 0 <= j < i - 1 ==>
              tables[1..][j].tableName in ignore || Label(tables[1..][j].columnName) != Label(tables[i].columnName)
  {
    var rest := tables[1..];
    forall j | 0 <= j < i - 1
      ensures rest[j].tableName in ignore || Label(rest[j].columnName) != Label(tables[i].columnName)
    {
      assert rest[j] == tables[j + 1];
    }
  }

  /** A first table that is not passed over puts its entry right after the
   *  constants already present. */
  lemma MergeHeadEntry(cs: seq<Entry>, ignore: seq<string>, tables: seq<Table>, draws: seq<Draw>)
    requires |draws| == |tables| > 0
    requires TypesResolvable(Labels(cs), ignore, tables)
    requires !Skipped(Labels(cs), ignore, tables[0])
    ensures tables[0].dataType in IntegerTypeSizes
    ensures |Merge(cs, ignore, tables, draws)| > |cs|
    ensures Merge(cs, ignore, tables, draws)[|cs|] == NewEntry(tables[0], draws[0])
  {
    var e := NewEntry(tables[0], draws[0]);
    LabelsAppend(cs, e);
    var r := Merge(cs + [e], ignore, tables[1..], draws[1..]);
    assert Merge(cs, ignore, tables, draws) == r;
    assert cs + [e] <= r;
    assert (cs + [e])[|cs|] == e;
  }

  /** An element of a later slice is in every earlier one. */
  lemma InLaterSlice(r: seq<Entry>, e: Entry, n: nat, m: nat)
    requires n <= m <= |r| && e in r[m..]
    ensures e in r[n..]
  {
    var k :| m <= k < |r| && r[k] == e;
    assert r[n..][k - n] == e;
  }

  /** Whether a sequence of tables can be merged splits at any point: the
   *  first part against the known labels, the second against those plus the
   *  labels the first part contributes. */
  lemma {:induction false} ResolvableSplit(known: set<string>, ignore: seq<string>, ts: seq<Table>, us: seq<Table>)
    ensures TypesResolvable(known, ignore, ts + us) <==>
      TypesResolvable(known, ignore, ts) && TypesResolvable(known + CandidateLabels(ignore, ts), ignore, us)
    decreases |ts|
  {
    if |ts| == 0 {
      assert ts + us == us;
      assert CandidateLabels(ignore, ts) == {};
      assert known + CandidateLabels(ignore, ts) == known;
    } else {
      var t := ts[0];
      var tail := ts[1..];
      assert (ts + us)[1..] == tail + us;
      CandidateLabelsCons(ignore, ts);
      if Skipped(known, ignore, t) {
        ResolvableSplit(known, ignore, tail, us);
        assert known + CandidateLabels(ignore, ts) == known + CandidateLabels(ignore, tail);
      } else {
        var grown := known + {Label(t.columnName)};
        ResolvableSplit(grown, ignore, tail, us);
        assert known + CandidateLabels(ignore, ts) == grown + CandidateLabels(ignore, tail);
      }
    }
  }

  lemma CandidateLabelsCons(ignore: seq<string>, ts: seq<Table>)
    requires |ts| > 0
    ensures CandidateLabels(ignore, ts) ==
      CandidateLabels(ignore, ts[1..]) + (if ts[0].tableName in ignore then {} else {Label(ts[0].columnName)})
  {
    var t := ts[0];
    assert ts == [t] + ts[1..];
    forall x
      ensures x in CandidateLabels(ignore, ts) <==>
        x in CandidateLabels(ignore, ts[1..]) || (t.tableName !in ignore && x == Label(t.columnName))
    {
      if x in CandidateLabels(ignore, ts) {
        var u :| u in ts && u.tableName !in ignore && x == Label(u.columnName);
        if u != t {
          assert u in ts[1..];
        }
      }
    }
  }

  /** Merging two runs of tables one after the other is merging them all at
   *  once: the loop's state after a prefix is the merge of that prefix. */
  lemma {:induction false} MergeAppend(cs: seq<Entry>, ignore: seq<string>, ts: seq<Table>, us: seq<Table>,
                                       ds: seq<Draw>, es: seq<Draw>)
    requires |ds| == |ts| && |es| == |us|
    requires TypesResolvable(Labels(cs), ignore, ts + us)
    ensures TypesResolvable(Labels(cs), ignore, ts)
    ensures TypesResolvable(Labels(Merge(cs, ignore, ts, ds)), ignore, us)
    ensures Merge(cs, ignore, ts + us, ds + es) == Merge(Merge(cs, ignore, ts, ds), ignore, us, es)
    decreases |ts|
  {
    ResolvableSplit(Labels(cs), ignore, ts, us);
    MergeLabels(cs, ignore, ts, ds);
    if |ts| == 0 {
      assert ts + us == us && ds + es == es;
    } else {
      var t := ts[0];
      assert (ts + us)[1..] == ts[1..] + us;
      assert (ds + es)[1..] == ds[1..] + es;
      if Skipped(Labels(cs), ignore, t) {
        MergeAppend(cs, ignore, ts[1..], us, ds[1..], es);
      } else {
        var e := NewEntry(t, ds[0]);
        LabelsAppend(cs, e);
        MergeAppend(cs + [e], ignore, ts[1..], us, ds[1..], es);
      }
    }
  }

  /** A mask in the generated range occupies exactly `size` bytes and has
   *  its top bit set: dividing by the top bit's weight leaves 1. */
  lemma MaskHasTopBit(size: nat, mask: int)
    requires size >= 1
    requires MaskMin(size) <= mask <= MaskMax(size)
    ensures mask / Pow2(8 * size - 1) == 1
    ensures 0 < mask < Pow2(8 * size)
  {
    var p := Pow2(8 * size - 1);
    assert Pow2(8 * size) == 2 * p;
    QuotientOne(mask, p);
  }

  lemma QuotientOne(m: int, p: int)
    requires 0 < p <= m < 2 * p
    ensures m / p == 1
  {
  }

  lemma {:induction false} Pow2Add(a: nat, b: nat)
    ensures Pow2(a + b) == Pow2(a) * Pow2(b)
    decreases a
  {
    if a > 0 {
      Pow2Add(a - 1, b);
    }
  }

  /** The mask ranges of the five integer types, written out. */
  lemma MaskRanges()
    ensures MaskMin(1) == 0x80 && MaskMax(1) == 0xFF
    ensures MaskMin(2) == 0x8000 && MaskMax(2) == 0xFFFF
    ensures MaskMin(3) == 0x80_0000 && MaskMax(3) == 0xFF_FFFF
    ensures MaskMin(4) == 0x8000_0000 && MaskMax(4) == 0xFFFF_FFFF
    ensures MaskMin(8) == 0x8000_0000_0000_0000 && MaskMax(8) == 0xFFFF_FFFF_FFFF_FFFF
    ensures MaxKey == Pow2(16) - 1
  {
    assert Pow2(4) == 16;
    Pow2Add(4, 3);
    Pow2Add(4, 4);
    Pow2Add(8, 7);
    Pow2Add(8, 8);
    Pow2Add(16, 7);
    Pow2Add(16, 8);
    Pow2Add(16, 15);
    Pow2Add(16, 16);
    Pow2Add(32, 31);
    Pow2Add(32, 32);
  }

  lemma ValuesOfSizes(dataType: string)
    requires dataType in IntegerTypeSizes
    ensures IntegerTypeSizes[dataType] in IntegerTypeSizes.Values
  {
  }

  lemma MergeLabelsStep(cs: seq<Entry>, ignore: seq<string>, tables: seq<Table>, grown: seq<Entry>, r: seq<Entry>)
    requires |tables| > 0
    requires Labels(grown) == Labels(cs) + (if Skipped(Labels(cs), ignore, tables[0]) then {} else {Label(tables[0].columnName)})
    requires Labels(r) == Labels(grown) + CandidateLabels(ignore, tables[1..])
    ensures Labels(r) == Labels(cs) + CandidateLabels(ignore, tables)
  {
    var t := tables[0];
    assert tables == [t] + tables[1..];
    assert CandidateLabels(ignore, tables) ==
      CandidateLabels(ignore, tables[1..]) + (if t.tableName in ignore then {} else {Label(t.columnName)}) by {
      forall x
        ensures x in CandidateLabels(ignore, tables) <==>
          x in CandidateLabels(ignore, tables[1..]) || (t.tableName !in ignore && x == Label(t.columnName))
      {
        if x in CandidateLabels(ignore, tables) {
          var u :| u in tables && u.tableName !in ignore && x == Label(u.columnName);
          if u != t {
            assert u in tables[1..];
          }
        }
      }
    }
  }

  lemma UniqueAppend(cs: seq<Entry>, e: Entry)
    requires e.name !in Labels(cs)
    ensures UniqueLabels(cs) ==> UniqueLabels(cs + [e])
  {
    var r := cs + [e];
    if UniqueLabels(cs) {
      forall i, j | 0 <= i < j < |r|
        ensures r[i].name != r[j].name
      {
        if j == |cs| {
          assert r[i] in cs;
        }
      }
    }
  }
}
