/**
 * The label strategy of the `SetBased` namespace: a table's label is the name
 * of its auto-increment column without the mandatory trailing `_id`.
 */
module SetBasedMangler {
  import opened Wrappers
  import opened Types
  import PhpString

  const IdSuffix: string := "_id"

  /** The column name ends in `_id` (reference definition, independent of
   *  how the strategies test it). */
  predicate EndsWithId(columnName: string) {
    |columnName| >= 3 && columnName[|columnName| - 3..] == IdSuffix
  }

  /** `getLabel`: strips the trailing `_id` from the column name, or raises a
   *  RuntimeException naming the column and the table. */
  function GetLabel(table: Table): (r: Result<string, RuntimeException>)
    ensures r.Success? <==> EndsWithId(table.columnName)
    ensures r.Success? ==> r.value + IdSuffix == table.columnName
    ensures r.Success? ==> |r.value| == |table.columnName| - 3
    ensures r.Failure? ==> r.error.args == [table.columnName, table.tableName]
  {
    var id := PhpString.Tail(table.columnName, |IdSuffix|);
    if id != IdSuffix then
      Failure(RuntimeException("Trailing '_id' not found in column '%s' of table '%s'.",
                               [table.columnName, table.tableName]))
    else
      Success(PhpString.Prefix(table.columnName, -|IdSuffix|))
  }

  /** Appending `_id` to any string and deriving the label back yields the
   *  label again, whatever the table is called. */
  lemma LabelRoundTrip(stem: string, tableName: string, dataType: string)
    ensures GetLabel(Table(tableName, stem + IdSuffix, dataType)) == Success(stem)
  {
    var c := stem + IdSuffix;
    assert c[|c| - 3..] == IdSuffix;
    assert c[..|c| - 3] == stem;
  }

  /** The outcome depends on the column name only: the table name appears in
   *  the error message and nowhere else. */
  lemma OnlyColumnNameMatters(t1: Table, t2: Table)
    requires t1.columnName == t2.columnName
    ensures GetLabel(t1).Success? <==> GetLabel(t2).Success?
    ensures GetLabel(t1).Success? ==> GetLabel(t1).value == GetLabel(t2).value
  {
  }
}
