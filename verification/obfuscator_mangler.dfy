/**
 * The second label strategy, `SetBasedObfuscatorMangler`: the same rule as
 * the `SetBased` namespace's strategy, written with the branches swapped and
 * a slightly different error message.
 */
module ObfuscatorMangler {
  import opened Wrappers
  import opened Types
  import PhpString
  import SetBasedMangler

  /** `getLabel`: the column name without its trailing `_id`, or a
   *  RuntimeException naming the column and the table. */
  function GetLabel(table: Table): (r: Result<string, RuntimeException>)
    ensures r.Success? <==> SetBasedMangler.EndsWithId(table.columnName)
    ensures r.Success? ==> r.value + SetBasedMangler.IdSuffix == table.columnName
    ensures r.Success? ==> |r.value| == |table.columnName| - 3
    ensures r.Failure? ==> r.error.args == [table.columnName, table.tableName]
  {
    var id := PhpString.Tail(table.columnName, 3);
    if id == "_id" then
      Success(PhpString.Prefix(table.columnName, -3))
    else
      Failure(RuntimeException("Trailing '_id' not found in column '%s' in table '%s'.",
                               [table.columnName, table.tableName]))
  }

  /** The two implementations of the `ReferenceObfuscatorMangler`
   *  interface. */
  const Strategies: seq<LabelStrategy> := [SetBasedMangler.GetLabel, GetLabel]

  /** Both strategies return the same label on every table, and fail on the
   *  same tables with the same column and table named in the message. */
  lemma AgreesWithSetBased(table: Table)
    ensures GetLabel(table).Success? <==> SetBasedMangler.GetLabel(table).Success?
    ensures GetLabel(table).Success? ==> GetLabel(table).value == SetBasedMangler.GetLabel(table).value
    ensures GetLabel(table).Failure? ==> GetLabel(table).error.args == SetBasedMangler.GetLabel(table).error.args
  {
  }
}
