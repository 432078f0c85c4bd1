# Reference obfuscator automator, modelled in Dafny

The automator prepares the parameters of the reference obfuscator of a
PHP project. Each auto-increment ID column of the database gets a *label*:
the column name without its trailing `_id`. Each label gets a constant
`[length, key, mask]`:
- `length` is the byte size of the column's integer type;
- `key` is a random 16-bit value;
- `mask` is a random value that fills `length` bytes and has its top bit set.

The automator then does three things:
- it adds constants for new labels only;
- it sorts the constants array by label and saves it in the configuration;
- it writes the array into the target PHP file as one assignment statement
  `$variable = [ "label" => [length, key, mask], ... ];`. The statement
  goes right after the doc block annotated `@setbased.abc.obfuscator`, and
  it replaces the declaration written by an earlier run.

The project models this core:
- `Types`: the schema rows, the constants array and the configuration.
  The constants array is an ordered association list, because PHP arrays
  keep insertion order.
- `SetBasedMangler` and `ObfuscatorMangler`: the two `getLabel` strategies.
- `Generation`: the loop of `generateConstants`, the type-size table,
  and the ranges passed to `rand`.
- `LexOrder` and `KeySort`: the `ksort` of `rewriteConfig`, as a
  functional insertion sort on labels.
- `Decimal`, `TextLines` and `Render`: `makeVariableStatements`, with
  `explode` and `implode`. `Render` also reads a statement back.
- `AnchorScan`: the token scan of `extractLines`, as a state machine over
  the token stream.
- `Patch`: the `array_splice` / `array_merge` of `writeConstant` and its two
  exceptions.
- `Automator`: the whole run. `rand` is a nondeterministic choice within
  its range, and the chosen values are recorded as ghost "draws".

PHP semantics that matter here are written out:
- `substr` with a negative length gives `""` when the length is more
  negative than the string is long.
- `array_splice` normalises negative and too-large offsets.
- a null line number counts as 0 in `array_splice` and in arithmetic.
- the lookahead `$tokens[$key + 1]` past the end of the token array reads
  null, so it matches nothing.

Facts about the code that the model keeps:
- the constants array is keyed by the label; the table name only decides
  whether a table is ignored;
- `generateConstants` derives the label inline with
  `substr(column, 0, strlen(column) - 3)` and calls no `getLabel` strategy. So a column that does not end in `_id`
  still gets a label; `Generation.LabelWithoutIdSuffix` shows one;
- nothing checks whether two tables yield the same label: the first table
  wins, and later ones are passed over;
- an unknown data type raises no exception of its own. See `TypesResolvable`
  under "Left out".

## Model

| member | source | states |
|---|---|---|
| SetBasedMangler.GetLabel | src/Obfuscator/SetBased/ReferenceObfuscatorMangler.php:28-39 | succeeds exactly when the column name ends in `_id`; the label followed by `_id` is the column name; otherwise the exception names the column and then the table |
| SetBasedMangler.LabelRoundTrip | src/Obfuscator/SetBased/ReferenceObfuscatorMangler.php:28-39 | appending `_id` to any stem and deriving the label gives the stem back |
| SetBasedMangler.OnlyColumnNameMatters | src/Obfuscator/SetBased/ReferenceObfuscatorMangler.php:30-38 | the outcome and the label depend on the column name alone |
| ObfuscatorMangler.GetLabel | src/Obfuscator/SetBasedObfuscatorMangler.php:26-33 | the same promise as the first strategy, for the branches written the other way round and the other message wording |
| ObfuscatorMangler.AgreesWithSetBased | src/Obfuscator/SetBasedObfuscatorMangler.php:26-33 | on every table both strategies agree: both succeed or both fail, with the same label or the same message arguments |
| PhpString.Prefix | src/Obfuscator/SetBased/ReferenceObfuscatorMangler.php:38 | `substr(s, 0, n)` is a prefix of `s`: `n` characters for `0 <= n <= |s|`, all but the last `-n` for a negative `n`, and empty when more would be dropped than there are |
| PhpString.Tail | src/Obfuscator/SetBased/ReferenceObfuscatorMangler.php:30 | for `n >= 1`, `substr(s, -n)` is the last `n` characters, or all of `s` when it is shorter; `substr(s, -0)` is all of `s`; and `s` is the rest followed by the result |
| PhpString.Contains | src/Obfuscator/ReferenceObfuscatorAutomator.php:119 | `strpos(...) !== false` holds exactly when the needle is a prefix of some suffix; a prefix always occurs, and a needle longer than the text never does |
| Types.Lookup | src/Obfuscator/ReferenceObfuscatorAutomator.php:184 | a constant is found exactly for the labels present in the array, and it is the one stored under that label |
| Generation.Label | src/Obfuscator/ReferenceObfuscatorAutomator.php:183 | a column of three or more characters loses exactly its last three; a shorter one gives a label shorter than two characters |
| Generation.LabelAgreesWithStrategies | src/Obfuscator/ReferenceObfuscatorAutomator.php:183 | on a column ending in `_id`, the inline label equals the label of both `getLabel` strategies |
| Generation.LabelWithoutIdSuffix | src/Obfuscator/ReferenceObfuscatorAutomator.php:183 | `usr_key` gets the label `usr_`, where both strategies raise an exception; `id` and `d` give `i` and the empty label |
| Generation.NewEntry | src/Obfuscator/ReferenceObfuscatorAutomator.php:189-192 | the new entry is stored under the table's label with the byte size of the column's type, and it is well formed exactly when the key and mask lie in the ranges passed to `rand` for that size |
| Generation.MergeFirstStep | src/Obfuscator/ReferenceObfuscatorAutomator.php:178-192 | one iteration leaves the array unchanged for a passed-over table and otherwise appends that table's new entry; the loop then goes on from there over the remaining tables |
| Generation.SkippedIsIsset | src/Obfuscator/ReferenceObfuscatorAutomator.php:181-184 | a table is passed over exactly when its name is in the ignore list or `isset` finds a constant under its label |
| Generation.Merge | src/Obfuscator/ReferenceObfuscatorAutomator.php:176-195 | the loop only appends: the old array is a prefix of the result |
| Generation.MergeLabels | src/Obfuscator/ReferenceObfuscatorAutomator.php:178-192 | the labels afterwards are the old labels plus the labels of every table not ignored |
| Generation.MergeKeepsUnique | src/Obfuscator/ReferenceObfuscatorAutomator.php:184-192 | a label is never added twice, so the array stays a map |
| Generation.MergeNewEntriesWellFormed | src/Obfuscator/ReferenceObfuscatorAutomator.php:189-192 | each new constant has a known byte size, a key in [1, 65535], and a mask in [2^(8·size-1), 2^(8·size)-1] |
| Generation.MergeSkipsKnownLabels | src/Obfuscator/ReferenceObfuscatorAutomator.php:181-184 | when every candidate label already has a constant, nothing changes, whatever `rand` returns |
| Generation.MergeTwiceAddsNothing | src/Obfuscator/ReferenceObfuscatorAutomator.php:176-195 | a second run over the same tables adds nothing (idempotence) |
| Generation.MergeFirstTableWins | src/Obfuscator/ReferenceObfuscatorAutomator.php:181-192 | a new label gets its entry from the first table that yields it; later tables with the same label are passed over |
| Generation.MergeHeadEntry | src/Obfuscator/ReferenceObfuscatorAutomator.php:181-192 | a first table that is not passed over has a known type and puts its entry right after the existing constants |
| Generation.ResolvableSplit | src/Obfuscator/ReferenceObfuscatorAutomator.php:178-195 | the type requirement on a sequence of tables splits into the two halves, where the second half counts the labels the first half adds |
| Generation.MergeAppend | src/Obfuscator/ReferenceObfuscatorAutomator.php:178-195 | the loop over two sequences of tables is the loop over the first, followed by the loop over the second |
| Generation.MaskMin | src/Obfuscator/ReferenceObfuscatorAutomator.php:191 | the lower bound `pow(2, 8 * size - 1)` is the byte 0x80 followed by `size - 1` zero bytes |
| Generation.MaskMax | src/Obfuscator/ReferenceObfuscatorAutomator.php:191 | the upper bound `pow(2, 8 * size) - 1` is one less than twice the lower bound, so the range is never empty |
| Generation.MaskHasTopBit | src/Obfuscator/ReferenceObfuscatorAutomator.php:191 | every mask in the range fits in `size` bytes and has its top bit set |
| Generation.MaskRanges | src/Obfuscator/ReferenceObfuscatorAutomator.php:42-46 | the mask ranges for 1, 2, 3, 4 and 8 bytes in hexadecimal, and the key bound 2^16-1 |
| LexOrder.Reflexive | src/Obfuscator/ReferenceObfuscatorAutomator.php:251 | the label order is reflexive |
| LexOrder.AntiSymmetric | src/Obfuscator/ReferenceObfuscatorAutomator.php:251 | labels that sort both ways are equal |
| LexOrder.Transitive | src/Obfuscator/ReferenceObfuscatorAutomator.php:251 | the label order is transitive |
| LexOrder.Total | src/Obfuscator/ReferenceObfuscatorAutomator.php:251 | any two labels are comparable |
| KeySort.Insert | src/Obfuscator/ReferenceObfuscatorAutomator.php:251 | inserting into a sorted array keeps it sorted, adds exactly the entry, and keeps labels unique when the label is new |
| KeySort.KSort | src/Obfuscator/ReferenceObfuscatorAutomator.php:251 | the result is sorted by label and is a permutation of the input |
| KeySort.KSortKeepsLabels | src/Obfuscator/ReferenceObfuscatorAutomator.php:251 | sorting keeps the set of labels, and keeps them unique |
| KeySort.KSortMembers | src/Obfuscator/ReferenceObfuscatorAutomator.php:251 | an entry is in the sorted array exactly when it is in the input |
| KeySort.KSortPair | src/Obfuscator/ReferenceObfuscatorAutomator.php:251 | two entries whose labels are out of order are swapped |
| KeySort.KSortUnique | src/Obfuscator/ReferenceObfuscatorAutomator.php:251 | a map stays a map after sorting |
| Decimal.IntToString | src/Obfuscator/ReferenceObfuscatorAutomator.php:236 | the `%s` text of an integer is non-empty and holds only digits, with a minus sign allowed only in front |
| Decimal.NatToString | src/Obfuscator/ReferenceObfuscatorAutomator.php:236 | the decimal text of a number is digits only, with no leading zero |
| Decimal.NatToStringRoundTrip | src/Obfuscator/ReferenceObfuscatorAutomator.php:236 | the digits of a number denote that number |
| Decimal.IntToStringRoundTrip | src/Obfuscator/ReferenceObfuscatorAutomator.php:236 | reading back the `%s` text of any integer gives the integer |
| TextLines.SplitOn | src/Obfuscator/ReferenceObfuscatorAutomator.php:267 | `explode` gives at least one piece, and no piece holds the separator |
| TextLines.JoinOn | src/Obfuscator/ReferenceObfuscatorAutomator.php:285 | `implode` of no pieces is empty, and otherwise starts with the first piece; `JoinSplit` and `SplitJoin` make it the inverse of `explode` |
| TextLines.JoinSplit | src/Obfuscator/ReferenceObfuscatorAutomator.php:267 | `implode` after `explode` restores the text |
| TextLines.SplitJoin | src/Obfuscator/ReferenceObfuscatorAutomator.php:285 | `explode` after `implode` of separator-free pieces restores the pieces |
| TextLines.SplitAppend | src/Obfuscator/ReferenceObfuscatorAutomator.php:267 | splitting at a separator splits the pieces |
| TextLines.JoinAppend | src/Obfuscator/ReferenceObfuscatorAutomator.php:285 | joining two lists puts one separator between their joins |
| TextLines.SplitWithoutSeparator | src/Obfuscator/ReferenceObfuscatorAutomator.php:267 | text without a separator is one piece |
| Render.EntryLine | src/Obfuscator/ReferenceObfuscatorAutomator.php:236 | an entry line holds no line break when its label holds none |
| Render.EntriesText | src/Obfuscator/ReferenceObfuscatorAutomator.php:234-237 | the entry text is empty exactly when there are no entries, and otherwise ends with a line break |
| Render.MakeVariableStatements | src/Obfuscator/ReferenceObfuscatorAutomator.php:231-242 | one statement, which starts with the variable name and ends with `];` |
| Render.EntryLines | src/Obfuscator/ReferenceObfuscatorAutomator.php:234-237 | one line per entry, in the array's order |
| Render.EntryLineRoundTrip | src/Obfuscator/ReferenceObfuscatorAutomator.php:236 | an entry line determines its label, length, key and mask |
| Render.EntriesTextLines | src/Obfuscator/ReferenceObfuscatorAutomator.php:233-238 | split into lines, the entries are one line each, followed by the closing `];` |
| Render.StatementLines | src/Obfuscator/ReferenceObfuscatorAutomator.php:231-242 | the statement spans `n + 2` lines: the header `$variable = [`, one line per entry, and `];` |
| Render.EntryLinesRoundTrip | src/Obfuscator/ReferenceObfuscatorAutomator.php:234-237 | reading the entry lines back gives the constants array, in order |
| Render.StatementRoundTrip | src/Obfuscator/ReferenceObfuscatorAutomator.php:231-242 | reading the statement back gives the variable name and the whole constants array |
| AnchorScan.Annotated | src/Obfuscator/ReferenceObfuscatorAutomator.php:117-119 | only doc comments at least as long as the annotation qualify, and every doc comment that starts with it does |
| AnchorScan.ArrayEndAt | src/Obfuscator/ReferenceObfuscatorAutomator.php:150-152 | a match lies wholly inside the token stream (a lookahead past the end matches nothing), and two matches never overlap |
| AnchorScan.Advance | src/Obfuscator/ReferenceObfuscatorAutomator.php:112-164 | one step of the loop: the step never goes back, step 4 changes nothing, and each line number changes only to the line of the token its step looks for |
| AnchorScan.Run | src/Obfuscator/ReferenceObfuscatorAutomator.php:111-165 | in every state the scan reaches, line1 is set exactly after the annotation is found, line3 exactly when the scan has finished, and nothing is set before the annotation |
| AnchorScan.RunProvenance | src/Obfuscator/ReferenceObfuscatorAutomator.php:111-165 | every line number held after some tokens is the line of one of them, of the kind its step looks for |
| AnchorScan.ExtractLines | src/Obfuscator/ReferenceObfuscatorAutomator.php:101-170 | line2 and line3 are only set together with line1; line1 is the line of an annotated doc comment and line3 that of the whitespace token of a `]` `;` whitespace sequence |
| AnchorScan.LastWhitespaceLine | src/Obfuscator/ReferenceObfuscatorAutomator.php:131-134 | none exactly when no token is whitespace; otherwise the line of a whitespace token |
| AnchorScan.StillSeeking | src/Obfuscator/ReferenceObfuscatorAutomator.php:115-125 | the scan is in step 1 exactly when no token read so far is an annotated doc comment |
| AnchorScan.NoAnnotationNoAnchors | src/Obfuscator/ReferenceObfuscatorAutomator.php:101-170 | line1 is set exactly when an annotated doc comment exists; without one, all three line numbers are null |
| AnchorScan.Line1Stable | src/Obfuscator/ReferenceObfuscatorAutomator.php:119-122 | once found, line1 never changes |
| AnchorScan.Line2Stable | src/Obfuscator/ReferenceObfuscatorAutomator.php:139-142 | once the doc block phase is over, line1 and line2 never change |
| AnchorScan.FinishedStays | src/Obfuscator/ReferenceObfuscatorAutomator.php:161-163 | after step 4, no later token changes anything |
| AnchorScan.Line1IsFirstAnnotation | src/Obfuscator/ReferenceObfuscatorAutomator.php:115-125 | line1 is the line of the first annotated doc comment |
| AnchorScan.DocBlockPhase | src/Obfuscator/ReferenceObfuscatorAutomator.php:127-144 | during step 2, the state holds the line of the last whitespace token since the annotation |
| AnchorScan.Line2IsLastWhitespace | src/Obfuscator/ReferenceObfuscatorAutomator.php:127-144 | line2 is the line of the last whitespace token between the annotated comment and the first array token that is not whitespace; single-character tokens do not end the phase |
| AnchorScan.ArrayPhase | src/Obfuscator/ReferenceObfuscatorAutomator.php:146-159 | during step 3, nothing changes until a `]` `;` whitespace sequence |
| AnchorScan.Line3IsFirstArrayEnd | src/Obfuscator/ReferenceObfuscatorAutomator.php:146-159 | line3 is the line of the whitespace token in the first `]` `;` whitespace sequence after the doc block |
| AnchorScan.Line3AbsentWithoutArrayEnd | src/Obfuscator/ReferenceObfuscatorAutomator.php:146-159 | without such a sequence, line3 stays null |
| AnchorScan.FinishNeedsArrayEnd | src/Obfuscator/ReferenceObfuscatorAutomator.php:150-156 | the scan only finishes by passing a complete `]` `;` whitespace sequence |
| AnchorScan.PrefixRun | src/Obfuscator/ReferenceObfuscatorAutomator.php:111-165 | once the scan of a stream has finished, tokens appended later do not change any of its states |
| AnchorScan.LaterTokensIgnored | src/Obfuscator/ReferenceObfuscatorAutomator.php:161-163 | once line3 is set, later tokens change none of the three line numbers |
| Patch.SpliceOffset | src/Obfuscator/ReferenceObfuscatorAutomator.php:280-281 | the `array_splice` offset stays within the array; negative offsets count from the end, and offsets past the end clamp |
| Patch.Splice | src/Obfuscator/ReferenceObfuscatorAutomator.php:280-282 | the lines before line2 are kept, the statements follow, and the rest is a suffix of the original lines |
| Patch.SpliceReplacesRegion | src/Obfuscator/ReferenceObfuscatorAutomator.php:280-282 | with anchors inside the file, the result is the lines before line2, the statements, then the lines from line3 on (from line2 on without line3) |
| Patch.WriteConstant | src/Obfuscator/ReferenceObfuscatorAutomator.php:260-286 | an unreadable file raises "Unable the open file"; a readable one fails exactly when no annotation is found, with "Annotation not found" |
| Patch.NoAnnotationRejected | src/Obfuscator/ReferenceObfuscatorAutomator.php:270-274 | a file without an annotated doc comment is rejected, whatever else it holds |
| Patch.WrittenFileLines | src/Obfuscator/ReferenceObfuscatorAutomator.php:267-285 | split into lines, the written file is the old lines before line2, the lines of the statement, then the old lines from line3 on |
| Patch.LinesAroundBlock | src/Obfuscator/ReferenceObfuscatorAutomator.php:282-285 | single-line pieces around a block keep their place when the whole is joined and split again |
| Patch.RerunReplacesPreviousStatement | src/Obfuscator/ReferenceObfuscatorAutomator.php:260-286 | if the next run finds the same line2 and the closing line of the statement as line3, it replaces exactly the statement the first run inserted |
| Automator.DrawKeyAndMask | src/Obfuscator/ReferenceObfuscatorAutomator.php:190-191 | the key and mask lie in the ranges passed to `rand` |
| Automator.MergeTables | src/Obfuscator/ReferenceObfuscatorAutomator.php:178-195 | the loop keeps the old array as a prefix, adds exactly the labels of the tables not ignored, gives each new entry values in the ranges passed to `rand`, and keeps labels unique; it equals the pure merge for the values `rand` returned |
| Automator.SavedConstants | src/Obfuscator/ReferenceObfuscatorAutomator.php:176-199 | the saved array is sorted by label; its labels are the old ones plus those of the tables not ignored; old entries are untouched; new entries are well formed; labels stay unique |
| Automator.TwoTables | src/Obfuscator/ReferenceObfuscatorAutomator.php:176-199 | for tables with `usr_id` (tinyint) and `ord_id` (smallint) and no constants yet, the saved array is `ord` (2 bytes) then `usr` (1 byte) |
| Automator.TwoTablesMerged | src/Obfuscator/ReferenceObfuscatorAutomator.php:178-195 | before the sort, the two new entries follow the order of the tables |
| Automator.SecondRunKeepsConstants | src/Obfuscator/ReferenceObfuscatorAutomator.php:181-184 | with `usr` and `ord` already present and the table `log` ignored, a rerun adds nothing, even though `log` has a non-integer type |
| Automator.GenerateConstants | src/Obfuscator/ReferenceObfuscatorAutomator.php:176-199 | `generateConstants` with its `ksort`: the configuration as saved, with the same guarantees as `SavedConstants` |
| Automator.RunAutomator | src/Obfuscator/ReferenceObfuscatorAutomator.php:56-69 | a run changes only the constants of the configuration, which become the sorted merge for the values `rand` returned within its ranges; it saves a sorted array holding all old entries and one well-formed entry per new label, keeps labels unique, then writes the file, failing exactly when no annotation is found |

## Left out

- Reading and decoding the JSON configuration (`readConfigFile`), writing it
  back (`Util::writeTwoPhases`, `json_encode`), and reading and writing the
  target file are I/O. The model takes the configuration as a value and the
  file as `Option<string>`, where `None` is an unreadable file. The model
  returns the new file text.
- `getDatabaseIds` queries MySQL. The model takes its rows as a parameter.
- `token_get_all` is PHP's tokenizer. The model takes the token stream as a
  parameter. It does not relate token line numbers to the text.
- `rand` is a choice within its range, given as a parameter.
- Generation.MergeNewEntriesWellFormed: for `bigint` the program cannot
  produce the stated 8-byte mask. `pow(2, 63)` and `pow(2, 64) - 1` are
  floats outside PHP's integer range. `rand` then warns and returns null
  (PHP 7), throws a `TypeError` (PHP 8), or wraps the bounds (PHP 5). The
  model states the intended range over exact integers.
- `ksort` compares numeric-string keys as numbers, and `in_array`
  compares loosely. The model compares labels as plain strings and
  ignores table names by exact match.
- The `echo` progress message, and the `substr_count` test whose branch
  is empty, have no effect on the result and are not modelled.
- Generation.Merge: a table with an unknown data type that needs a new
  entry makes PHP read an undefined index (a warning and a null length).
  The model requires `TypesResolvable` instead, so that input is out of scope.
- Patch.Splice: when line2 is null, the first `array_splice` gets a null
  length. PHP 8 reads that as "to the end". The model reads it as 0, the
  PHP 5/7 behaviour the code was written for.
- Generation.Label: `strlen` and `substr` count bytes, the model counts
  characters. They agree when the last three characters are ASCII, as in
  every `_id` column. Otherwise they differ: for `caté` (5 bytes in UTF-8)
  PHP gives `ca`, the model `c`.
- Generation.Label: `substr` is modelled as in PHP 8, where over-truncation
  gives `""`. PHP 5/7 return `false` instead, and `false` used as an array
  key becomes the key 0. So under PHP 5/7 an empty or one-character column is
  stored under the label `0`, which is written as `"0"`. The model mixes
  the two versions: PHP 8 `substr`, PHP 5/7 `array_splice`.
- src/Obfuscator/ReferenceObfuscatorMangler.php is the interface of the
  two strategies. It appears only as the function type
  `Types.LabelStrategy`; `ObfuscatorMangler.Strategies` lists both
  implementations as values of that type.
- Patch.WrittenFileLines: the relation between line numbers, which start at
  1, and array indexes, which start at 0, is taken literally from the code.
  The model does not claim that the statement lands after the doc
  comment's closing line.
