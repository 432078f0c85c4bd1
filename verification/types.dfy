/**
 * The data the reference obfuscator automator works on: the metadata rows of
 * the tables with an auto-increment column, the generated constants, and the
 * configuration document that holds them.
 */
module Types {
  import opened Wrappers

  /** One row of the schema query: a table and its auto-increment column. */
  datatype Table = Table(tableName: string, columnName: string, dataType: string)

  /** The triple `[length, key, mask]` stored for one label. */
  datatype Constant = Constant(size: int, key: int, mask: int)

  /** One `label => [length, key, mask]` pair of the constants array; `name` is the label. */
  datatype Entry = Entry(name: string, value: Constant)

  /** The parts of the configuration document the automator reads or writes.
   *  `constants` is a PHP array: an ordered map from label to constant,
   *  written here as an association list whose order is the array's order. */
  datatype Config = Config(ignore: seq<string>, constants: seq<Entry>, variable: string, file: string)

  /** `RuntimeException($format, ...$args)`: the message format and its arguments. */
  datatype RuntimeException = RuntimeException(format: string, args: seq<string>)

  /** A strategy deriving a label from the metadata of a table (the
   *  `ReferenceObfuscatorMangler` interface). */
  type LabelStrategy = Table -> Result<string, RuntimeException>

  /** The labels (keys) of a constants array. */
  function Labels(cs: seq<Entry>): set<string> {
    set e | e in cs :: e.name
  }

  /** No label occurs twice: the constants array is a map. */
  predicate UniqueLabels(cs: seq<Entry>) {
    forall i, j :: 0 <= i < j < |cs| ==> cs[i].name != cs[j].name
  }

  /** The constant stored under `label`, if any (`$constants[$label]`). */
  function Lookup(cs: seq<Entry>, name: string): (r: Option<Constant>)
    ensures r.Some? <==> name in Labels(cs)
    ensures r.Some? ==> Entry(name, r.value) in cs
  {
    if |cs| == 0 then None
    else if cs[0].name == name then Some(cs[0].value)
    else Lookup(cs[1..], name)
  }

}
