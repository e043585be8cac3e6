# Dynamic PHP PDO helpers, modelled in Dafny

`php_data_objects.php` is a small procedural wrapper over PDO/MySQL. This
project models its three pieces of original logic:

- **`handlePdoExceptions`**, the error classifier. It echoes the driver's
  message. For a duplicate-entry error (`SQLSTATE[23000]`) it echoes
  `duplicate entry`, and if the message names the `'subject'` column it also
  echoes `Error: that username already exists.`. It returns the message
  unchanged. Echo output is modelled as the sequence of strings written
  (`ErrorClassifier`). PHP's `strpos(...) !== false` is modelled as "the needle
  occurs at some index, 0 included" (`PhpStrings`).
- **`insertIntoDatabase` / `deleteFromDatabase`** (`Statements`). Each builds
  its statement text from a fixed template, binds every field-map entry
  `k => v` to placeholder `:k`, and executes. A driver error is echoed by the
  classifier and then swallowed.
- **`selectFromDatabase`** (`Select`). It builds `SELECT <fields>FROM <table>`
  with no space before `FROM` and no WHERE clause. Each fetched row is
  projected onto the field map's keys, in fetch order, until the driver has no
  more rows or hands back an empty one. A reported row count of zero gives
  `false`, modelled as `NoRows`.

The field map is a PHP array: ordered, with each key at most once. It is
modelled as `FieldMaps.FieldMap`, a sequence of (key, value) entries with
distinct keys. `getFields` and `getBindFields` depend on a file that is not
part of this model. They are passed in as two uninterpreted functions
(`FieldMaps.ListBuilders`).

Points where the code does less than its names suggest, kept as written:

- In the classifier, the `SQLSTATE[28000]`, `SQLSTATE[42000]` and `'id'`
  branches are empty placeholders, and no branch handles other errors.
  `ErrorClassifier.FiredBranches` records which branch runs, and
  `ErrorClassifier.SilentBranchesEchoNothing` proves those branches write
  nothing.
- The insert text writes `Values`, and the select text puts no space before
  `FROM`.
- The delete's WHERE clause is a single `(<fields> = <binds>)` equality,
  and the select has no WHERE clause.
- The select answers `false` only when the driver reports zero rows. If it
  reports rows but the first fetch yields nothing, the answer is an empty list.

The select loop never resets its inner array between rows; it only overwrites
that array key by key. `Select.ProjectRow` models PHP's ordered-array
assignment (`Select.Assign`) and proves that every row's projection is exactly
that row's values, with nothing left over from the previous row.

## Model

| member | source | states |
|---|---|---|
| `PhpStrings.StrPosFrom` | php_data_objects.php:276 | `strpos` answers the first index at or after the start where the needle occurs; a `false` answer means it occurs nowhere from there on |
| `PhpStrings.Contains` | php_data_objects.php:276 | `strpos(...) !== false` holds exactly when the needle occurs somewhere, a match at index 0 included |
| `ErrorClassifier.FiredBranches` | php_data_objects.php:276-295 | the duplicate-entry branch runs iff the message contains `SQLSTATE[23000]`; the `'subject'` branch iff it also contains `'subject'`; the `'id'` branch iff it contains `SQLSTATE[23000]` and `'id'` but not `'subject'`; the access-denied and syntax-error branches iff `SQLSTATE[28000]` / `SQLSTATE[42000]` occur; branches run in source order, each at most once |
| `ErrorClassifier.SilentBranchesEchoNothing` | php_data_objects.php:276-295 | all the branches together write `duplicate entry` when `SQLSTATE[23000]` occurs, followed by the username message when `'subject'` also occurs, and nothing else: the `'id'`, `SQLSTATE[28000]` and `SQLSTATE[42000]` branches are silent |
| `ErrorClassifier.HandlePdoExceptions` | php_data_objects.php:274-297 | returns exactly its input; the first string written is the raw message; one to three strings are written; `duplicate entry` is written iff the message contains `SQLSTATE[23000]`, and then it comes second; the username message is written iff the message contains both `SQLSTATE[23000]` and `'subject'`; nothing else is ever written, so the `'id'`, `SQLSTATE[28000]` and `SQLSTATE[42000]` paths add no output |
| `Statements.BindingsOnePerKey` | php_data_objects.php:133-135 | the binding loop makes one `bindValue` call per entry, in map order, binding `":" + k` to that entry's value |
| `Statements.BindValues` | php_data_objects.php:132-135 | the loop as written produces exactly those calls: as many as there are entries, the i-th binding `":" + key_i` to `value_i` |
| `Statements.BoundAfterBindings` | php_data_objects.php:133-135 | with distinct keys, binding a map on top of any parameter table adds exactly the placeholders `":" + k`, each holding its key's value, and leaves every other parameter as it was |
| `Statements.ParameterTable` | php_data_objects.php:133-135 | the parameter table the binding loop is meant to leave: its keys are exactly `":" + k` for the map's keys, and `":" + k` holds k's value |
| `Statements.BoundParameters` | php_data_objects.php:133-135 | after the loop, the statement's parameter table equals `ParameterTable(m)`: exactly the placeholders `":" + k` for the map's keys, each holding k's value; nothing else is bound |
| `Statements.Execute` | php_data_objects.php:131-143 | the prepared text is used as given; every entry is bound once, in order; a statement that executes writes nothing; a driver error writes exactly what the classifier writes for its message |
| `Statements.InsertIntoDatabase` | php_data_objects.php:123-144 | the text is `INSERT INTO t (F(m)) Values (B(m))` with the field and bind lists in the holes; one binding per key in map order; error output as for `Execute` |
| `Statements.DeleteFromDatabase` | php_data_objects.php:168-189 | the text is `DELETE FROM t WHERE (F(m) = B(m))`, a single equality between the whole lists whatever the number of keys; one binding per key in map order; error output as for `Execute` |
| `Select.AssignAppends` | php_data_objects.php:227 | assigning a key the inner array does not hold yet appends it at the end |
| `Select.AssignOverwrites` | php_data_objects.php:227 | assigning a key the inner array already holds replaces its value in place and keeps the order |
| `Select.ProjectRow` | php_data_objects.php:225-228 | starting from an empty inner array, or from the one the previous row left, the loop leaves exactly the map's keys in map order, each with this row's value (null if the row lacks it) |
| `Select.RunLength` | php_data_objects.php:224 | the fetch loop takes the longest run of non-empty rows from the start: every row before the stopping point is non-empty, and the stopping point is either the end of the rows or an empty row |
| `Select.SelectFromDatabase` | php_data_objects.php:199-246 | the text is `SELECT F(m)FROM t`, with no WHERE clause; the answer is `NoRows` exactly when the driver reports zero rows; otherwise there is one entry per row the fetch loop takes, in fetch order (none if the first fetch yields nothing), each with exactly the map's keys in map order, holding `row[k]`, or null when the row lacks `k` |
| `Select.ProjectIgnoresValues` | php_data_objects.php:225-228 | the field map's values are never read: two maps with the same keys project every row the same way |

## Left out

- `connectDatabase` (php_data_objects.php:59-80): it only builds a PDO connection over the network from credentials. The model has no logic to take from it.
- `getLastInsertID` (php_data_objects.php:92-94): a one-line call into the driver.
- `getFields` / `getBindFields` (php_data_objects.php:253-268): their implementation is in a file that is not part of this model. They stay uninterpreted, so nothing is claimed about how the lists are joined.
- Driver calls (`prepare`, `bindValue`, `execute`, `query`, `fetch_assoc`) are foreign behaviour. The driver's answer to `execute` is an input (`Statements.DriverReply`). The select's fetched rows are an input sequence; the source mixes PDO and mysqli calls there.
- Statements.Execute: an exception raised by `prepare` or `bindValue`, before all values are bound, is not distinguished from one raised by `execute`. The model always records the full set of bindings.
- Select.SelectFromDatabase: a failing `query` is not modelled. The source does not catch it, so it never reaches the classifier.
- The PHP notice raised when a row lacks a requested key is not modelled; the null value that PHP reads in its place is.
- Values are PHP null, booleans, integers and strings; floating-point values are left out. PHP's conversion of integer-like string keys to integer keys is not modelled, so keys are strings.
- `PhpStrings.StrPos` answers 0 for an empty needle, as PHP 8 does. Older PHP versions answer `false` with a warning. The classifier only uses non-empty needles, so this does not matter here.
- PhpStrings.StrPosFrom: PHP strings are bytes and `strpos` answers a byte offset, while the model's strings are sequences of characters. For a haystack with multi-byte characters before the match, the index answered differs. Whether the needle occurs, which is all the classifier uses, is the same for its ASCII needles.
- Select.SelectFromDatabase: only the rows' independence from the field map's values is proved (`Select.ProjectIgnoresValues`). The text gets the whole map through `getFields`, which is uninterpreted, so nothing is claimed about whether the map's values affect the text.
- Select.SelectFromDatabase: the reported row count and the fetched rows are independent inputs; nothing ties the count to the number of rows fetched.
- The TODO placeholders (account-recovery link, developer-console logging) have no behaviour; they are modelled as branches that write nothing.
