# MagicCorner storage core in Dafny

MagicCorner is a book-catalogue web service. Its server keeps book records in MySQL through a small
dictionary-like wrapper:

- `MySQL` is a server handle. It maps database names to `DataBase` objects.
- `DataBase` maps table names to `Table` objects.
- `Table` builds the SQL text for selects, inserts, updates, deletes and column changes.

All three share one connection discipline (`BaseDB` with `@_sync_opr` / `@_async_opr`). Column types are
written with the `MySQLDataType` templates of `types.py` or the `DType` classes of `dtype.py`. On top of
this sit three more pieces:

- The book record (`model/v1/book.py`). It flattens the catalogue API's JSON and quotes every text field
  before the record becomes SQL.
- The crawler's data preparation (`crawler/store.py`). It folds CSV tag rows into one tag text per book
  and splits the result into balanced parts.
- The two singleton helpers of `utils/singleton.py`.

This project models that core as pure functions over immutable data and proves what each operation
promises:

- **The server.** It is a list of names, one per database or table. The model keeps it in creation
  order and lists it in that order; this is a modelling choice, since MySQL lists names sorted (see
  "## Left out"). The contracts hold for any listing order. Every statement a handle sends is recorded, so the
  contracts can say which statements an operation sends and in which order.
- **Statements and their readers.** Every statement builder is paired with a reader that parses the
  text back. Round-trip lemmas show that nothing the caller gave is lost or reordered.
- **The caches.** The name caches of `DataBase` and `MySQL` are insertion-ordered dictionaries. Their
  refresh (`setdefault` of each listed name) is proved to only ever add.
- **Connections.** A connection is a `Guard`: a root flag, the configuration and the two link slots.
  Closing is final, and a table borrows its owner's links.

Modules, one per file:

| module | models |
|---|---|
| `Wrappers`, `Strings`, `Py`, `OrderedDict`, `Kinds` | results; joining and splitting text; Python `str()` and `int()`; `dict` with insertion order; the 25 column kinds |
| `DType` | `server/src/db/dtype.py` |
| `SqlTypes` | `server/src/db/types.py` |
| `Sql`, `Schema` | the statement texts of `table.py`, `database.py` and `mysql.py`, with their readers |
| `Connection` | `server/src/db/_base.py` |
| `Catalog` | the name caches, and the server's name list |
| `Tables`, `Databases`, `MySql` | `table.py`, `database.py`, `mysql.py` |
| `Book` | `server/src/model/v1/book.py` |
| `Store` | `split_dict` and the tag fold of `server/src/crawler/store.py` |
| `Singletons` | `server/src/utils/singleton.py` |

Each database operation takes the server's current name list as a parameter. It returns a `Step`
holding four things:
- the handle's new state;
- the server's new name list;
- the statements sent;
- a `Result` that either carries the value or names the exception.

A table operation takes the server as a function from statement text to reply.

## Model

| member | source | states |
|---|---|---|
| DType.UpperAll | server/src/db/dtype.py:40 | every extra is upper-cased (ASCII letters), in its given order, none dropped |
| DType.RenderOptionEmpty | server/src/db/dtype.py:42-53 | an option renders as "" exactly when no flag is set, the default is None and the extras are empty (or one empty string) |
| DType.OptionRoundTrip | server/src/db/dtype.py:42-53 | the words of a rendered option read back as every flag, the default text and the extras |
| DType.DefaultAlwaysRendered | server/src/db/dtype.py:46-47 | any default other than None, including falsy ones, appears in the rendering as its `str()` |
| DType.ExtrasUpperCased | server/src/db/dtype.py:18-53 | extras given at construction come back from the rendering upper-cased (ASCII letters) and in order |
| DType.FirstNonInt | server/src/db/dtype.py:151-156 | the index found is the first argument that is not an int instance; none is found exactly when all are ints |
| DType.ValidateArgs | server/src/db/dtype.py:130-157 | accepts exactly the arguments the kind allows; a count mismatch is reported first, then the first argument of the wrong type by its index |
| DType.Define | server/src/db/dtype.py:80-100 | a kind with parameters constructs exactly when its arguments are accepted, keeping arguments and option; its error is a ValueError exactly for a wrong count or a range rule. A kind without parameters constructs exactly with no positional, or one positional and no `option` keyword, which is then the stored option (None meaning none); two or more positionals, or one together with the keyword, are TypeErrors |
| DType.DefineNoArgs | server/src/db/dtype.py:176-187 | a kind without parameters always constructs, with no arguments |
| DType.StrayRendered | server/src/db/dtype.py:110-119 | a positional value taken as the option of a kind without parameters is dropped from the rendering when falsy, and rendered as its `str()` after the type name otherwise |
| DType.DecimalAcceptance | server/src/db/dtype.py:227-240 | Decimal(p, s) is accepted iff 1 <= p <= 65, 0 <= s <= 30 and p >= s; the error names the first rule broken, in source order |
| DType.LengthAcceptance | server/src/db/dtype.py:259-306 | Char/Binary accept a length in [1, 255], VarChar/VarBinary one in [1, 65535]; otherwise the error carries the length |
| DType.ArgsTextRoundTrip | server/src/db/dtype.py:111-114 | the argument text has no space, and reads back behind the type name as every argument's `str()` |
| DType.HeadRoundTrip | server/src/db/dtype.py:69-72 | the head `NAME(args)` is one word starting with an upper-case letter, and reads back as the SQL name and the argument texts |
| DType.RenderBare | server/src/db/dtype.py:115-119 | with no option text the trailing space is stripped and the rendering is the head alone |
| DType.RenderWithOption | server/src/db/dtype.py:110-119 | with option text the rendering's words are the head followed by the option's words |
| DType.RenderRoundTrip | server/src/db/dtype.py:110-119 | a constructed type's rendering reads back as its SQL name, its argument texts and every attribute of a plain option |
| DType.ValidateValue | server/src/db/dtype.py:159-171 | None fails exactly under a NOT NULL option (and under a stray positional option, which has no `not_null`); any other value passes exactly when the kind holds it, and fails with the type error otherwise |
| DType.RealTypeHolds | server/src/db/dtype.py:165 | `isinstance` of the kind's Python class holds exactly for a bool or int in an integer column, a float in FLOAT/DOUBLE/DECIMAL, a str in a text or temporal column and bytes in a binary one |
| SqlTypes.MakeType | server/src/db/types.py:17-36 | a template starts with no flags and its text is the bare name |
| SqlTypes.Call | server/src/db/types.py:54-79 | over integer parameters, a call succeeds exactly when a parameterless type gets no arguments, or a parameterised type gets as many as its validator takes and they pass. Extra arguments to a parameterless type are a ValueError. A missing validator or a wrong count is a TypeError. The new instance carries exactly the flags of this call |
| SqlTypes.CallForgets | server/src/db/types.py:74-79 | calling a called instance is the same as calling the template: no flag or argument of the first call survives |
| SqlTypes.Get | server/src/db/types.py:119-135 | lookup finds a template exactly when some kind has that SQL name, and then it is that kind's template |
| SqlTypes.GetIsCaseSensitive | server/src/db/types.py:126-135 | a name starting with a lower-case letter finds nothing |
| SqlTypes.SameAcceptance | server/src/db/types.py:93-108 | a template accepts exactly the integer parameters the matching `DType` class accepts |
| SqlTypes.FlagSuffixIsOption | server/src/db/types.py:68-73 | the flag suffix is the rendering of the same flags as a `DTypeOption`, after one space |
| SqlTypes.CallText | server/src/db/types.py:61-78 | an instance's text is the type name, the parenthesised parameters, then the flag suffix |
| SqlTypes.CallAgreesWithRender | server/src/db/types.py:54-82 | a successful call's text equals the `dtype.py` rendering of the same kind, parameters and flags |
| SqlTypes.CallRoundTrip | server/src/db/types.py:61-82 | an instance's text, for integer parameters, reads back as its SQL name, its parameters (each parsing back to the integer) and its flags |
| Connection.MakeConfig | server/src/db/_base.py:16-21 | a configuration keeps the four fields given and has autocommit on |
| Connection.Dump | server/src/db/_base.py:16-21 | `model_dump()` has exactly the five configuration keys |
| Connection.DriverArgsMerge | server/src/db/_base.py:51-57 | the driver gets the caller's keys plus the configuration's. The configuration wins every shared key, the caller keeps the rest, and autocommit is always the configuration's |
| Connection.Root | server/src/db/_base.py:27-41 | a fresh root holds no link on either surface |
| Connection.Borrowed | server/src/db/table.py:26-33 | a table's guard is not a root and holds its owner's link objects |
| Connection.ConnectOpens | server/src/db/_base.py:51-65 | with a driver that connects, `connect` changes the slot exactly when the handle is a root with no link there. It opens it with the bound, caller and configuration arguments, and leaves the other surface alone |
| Connection.ConnectIdempotent | server/src/db/_base.py:51-57 | a second `connect` does nothing, whatever its arguments |
| Connection.CloseIsFinal | server/src/db/_base.py:72-83 | after `close` the link stays in its slot but closed, so `connect` is a no-op and the surface is never usable again |
| Connection.CloseOnlyRoot | server/src/db/_base.py:67-91 | the driver is called exactly for a root holding a link; `__del__` touches only the synchronous link |
| Connection.GuardedReach | server/src/db/_base.py:120-135 | a decorated operation reaches the server exactly when, after its `connect`, the link on its surface is there and open |
| Connection.PrepareOrder | server/src/db/_base.py:93-107 | a statement is formatted and handed over exactly when the link is there and open and the text formats, and then it is the formatted text; the synchronous cursor formats before it finds the connection closed, the asynchronous pool refuses a closed pool before formatting |
| Sql.SelectRoundTrip | server/src/db/table.py:90-107 | a select statement reads back as its table, columns, DISTINCT flag, and exactly the WHERE, LIMIT and OFFSET given (a limit of 0 included), for any WHERE text in which LIMIT and OFFSET are not words |
| Sql.WhereIsVerbatim | server/src/db/table.py:100-105 | the WHERE text is pasted unchecked: any condition followed by `LIMIT n` gives the same statement as that condition with a limit argument of n, so a condition with the word LIMIT cannot be read back |
| Sql.InsertRoundTrip | server/src/db/table.py:137-140 | an insert statement reads back as its table, the column names and the values' `str()` texts, in record order; a value may be a quoted literal holding spaces, commas and escaped apostrophes |
| Sql.ReadValuesJoin | server/src/db/table.py:137-140 | value texts joined with commas read back as the same list, where each is a complete quoted literal or a text without a comma |
| Sql.FormatSelect | server/src/db/_base.py:93-96 | the driver's formatting of a select changes only the WHERE text, as formatting it alone does, and fails exactly when that does |
| Sql.FormatInsert | server/src/db/_base.py:93-96 | formatting an insert formats each value text and keeps the table and the column names; it fails exactly when some value's formatting does |
| Sql.UpdateRoundTrip | server/src/db/table.py:181-187 | an update statement reads back as its table, every (column, value text) pair in order, and any WHERE text exactly when one was given |
| Sql.FormatUpdate | server/src/db/_base.py:93-96 | formatting an update formats each value text and the WHERE text and keeps the rest; it fails exactly when one of those does |
| Sql.DeleteRoundTrip | server/src/db/table.py:209-215 | a delete statement reads back as its table and any WHERE text exactly when one was given |
| Sql.FormatDelete | server/src/db/_base.py:93-96 | formatting a delete formats only the WHERE text and fails exactly when that does |
| Schema.FieldsRoundTrip | server/src/db/database.py:51 | a column definition list reads back as every (name, type text) pair in order |
| Schema.CallTextTopFree | server/src/db/types.py:61-78 | no instance text holds a comma outside parentheses, so a definition list of them can be cut back apart |
| Schema.CreateTableRoundTrip | server/src/db/database.py:49-52 | CREATE TABLE IF NOT EXISTS reads back as the table name and every definition in order |
| Schema.AddColumnsRoundTrip | server/src/db/table.py:242-245 | ALTER TABLE ... ADD reads back as the table and every definition in order |
| Schema.ModifyColumnsRoundTrip | server/src/db/table.py:266-269 | ALTER TABLE ... MODIFY reads back as the table and every definition in order |
| Schema.DropColumnsRoundTrip | server/src/db/table.py:290 | ALTER TABLE ... DROP reads back as the table and every column in order |
| Schema.ClassifyCreateTable | server/src/db/database.py:52 | the create-table statement is recognised as that table with those definitions |
| Schema.ClassifyCreateDatabase | server/src/db/mysql.py:153 | the create-database statement is recognised as creating that database |
| Schema.ClassifyDropDatabase | server/src/db/mysql.py:178 | the drop-database statement is recognised as dropping that database |
| Schema.ClassifyDropTable | server/src/db/database.py:91 | the drop-table statement is recognised as dropping that table |
| Catalog.RefreshKeeps | server/src/db/database.py:35-37 | a refresh never removes a name and never overwrites an entry |
| Catalog.RefreshKeepsOrder | server/src/db/mysql.py:85-87 | names already cached keep their positions at the front |
| Catalog.RefreshCovers | server/src/db/database.py:35-37 | after a refresh every listed name is cached |
| Catalog.RefreshNew | server/src/db/mysql.py:85-87 | a refresh adds only listed names, each as a placeholder (`None`) |
| Catalog.RefreshKnown | server/src/db/database.py:35-37 | listing only known names leaves the cache unchanged |
| Catalog.Evict | server/src/db/database.py:93-94 | forgetting a name removes exactly that name from the cache; every other entry stays as it was |
| Tables.View | server/src/db/table.py:26-33 | a table is never a root and sees its owner's link exactly on the surfaces that existed when it was built |
| Tables.Exec | server/src/db/_base.py:93-96 | a statement is sent, as the driver's `% ()` formatting leaves it, exactly when the link is usable and the text formats, and succeeds exactly when the server returns rows, which are the result; a text that does not format fails with the format error |
| Tables.TableBorrows | server/src/db/table.py:26-33 | a table built before its owner connected on a surface can never reach the server there; otherwise it can while the owner's link is open |
| Tables.NRowReadsFirstCell | server/src/db/table.py:35-39 | `nrow` sends one count statement and succeeds exactly when the reply has a first cell, which it returns (IndexError otherwise); a table name without `%` is sent as built |
| Tables.SizeIsRowsThenColumns | server/src/db/table.py:59-63 | `size` succeeds exactly when `nrow` and then `ncol` do, with both values, and sends the count first |
| Tables.SelectSends | server/src/db/table.py:109-121 | what `select` sends reads back as exactly its request, with the WHERE text as formatting leaves it |
| Tables.InsertSends | server/src/db/table.py:142-150 | what `insert` sends reads back as the table, the column names and the formatted value texts, in record order |
| Tables.UpdateSends | server/src/db/table.py:189-197 | what `update` sends reads back as the table, the record's assignments with formatted values, and the formatted condition |
| Tables.DeleteSends | server/src/db/table.py:217-224 | what `delete` sends reads back as the table and the formatted condition |
| Tables.AddColumnsSends | server/src/db/table.py:235-245 | what `add_columns` sends reads back as the table and the definitions |
| Tables.ModifyColumnsSends | server/src/db/table.py:259-269 | what `modify_columns` sends reads back as the table and the definitions |
| Tables.DropColumnsSends | server/src/db/table.py:283-290 | what `drop_columns` sends reads back as the table and the columns |
| Tables.DropSends | server/src/db/table.py:70-73 | `drop` sends only a DROP TABLE of the table's own name |
| Tables.TruncateSends | server/src/db/table.py:80-83 | `truncate` sends only a TRUNCATE TABLE of the table's own name |
| Tables.InsertMany | server/src/db/table.py:161-169 | one insert per record, in order. It succeeds exactly when every insert does; otherwise it stops at the first failure with that error, sending nothing after it |
| Tables.GetItemIsColumn | server/src/db/table.py:17-18 | `t[k]` selects column k of every row; the key is never a condition |
| Tables.KeyIsCondition | server/src/db/table.py:11-15 | `t[w] = cols` and `del t[w]` use the key, formatted, as the WHERE condition; None reaches every row |
| Tables.IterSelectsAll | server/src/db/table.py:23-24 | iteration selects every column of every row |
| Tables.LenCounts | server/src/db/table.py:20-21 | `len` sends the count statement and is the count's first cell |
| Databases.Open | server/src/db/database.py:28-32 | a database handle carries its name and the configuration, is a root with no link on either surface and an empty cache, and has `db=name` bound for its `connect` |
| Databases.OpenConnectsToItself | server/src/db/database.py:28-32 | its first operation opens a link with `db` set to its own name and the configuration's credentials |
| Databases.Exec | server/src/db/_base.py:93-96 | a statement is sent, formatted, exactly when the link is usable and the text formats; otherwise the server is unchanged and the call fails |
| Databases.UpdateTableOnlyAdds | server/src/db/database.py:34-37 | `_update_table` keeps every entry and position, adds missing server names as placeholders only, and leaves every server table cached |
| Databases.CreateSucceeds | server/src/db/database.py:54-67 | with a usable link and a non-empty definition list `create` succeeds and the table is on the server; creating an existing table leaves the server as it was |
| Databases.CreateReplaces | server/src/db/database.py:44-47 | a successful `create` files a brand-new table object under the name, replacing any earlier one; the object holds the link it was created on |
| Databases.SetItemRefused | server/src/db/database.py:11-12 | `d[name] = v` sends a create with no columns, which the server refuses; the cache is unchanged |
| Databases.DropSucceeds | server/src/db/database.py:84-94 | `drop` succeeds exactly when the link is usable and the server has the table |
| Databases.DropEvicts | server/src/db/database.py:84-94 | a successful `drop` removes the name from the server and the cache and leaves every other entry alone |
| Databases.DropFailsCleanly | server/src/db/database.py:84-94 | a failed `drop` changes neither cache nor server; dropping a missing table fails with error 1051 |
| Databases.ExistsRemembers | server/src/db/database.py:108-112 | `exists` is true exactly when the name was cached before or is on the server now |
| Databases.ExistsAfterTableDrop | server/src/db/database.py:108-112 | after a table object drops itself, its database still reports it as existing |
| Databases.GetItemReadsCache | server/src/db/database.py:17-18 | `d[name]` returns the cached table without any statement; placeholders and unknown names give None |
| Databases.IterCoversServer | server/src/db/database.py:20-26 | iteration lists the cached names first, in order, then every other server table, each once; `len` is that count |
| Databases.MappingWrites | server/src/db/database.py:11-15 | assignment ignores the value, never succeeds and never changes the cache; a successful deletion evicts the name from the cache |
| MySql.InitPrefersConfig | server/src/db/mysql.py:49-76 | a given configuration wins over the separate fields; without one all four fields are needed (ValidationError otherwise) and autocommit is on |
| MySql.Exec | server/src/db/_base.py:93-96 | a statement is sent, formatted, exactly when the link is usable and the text formats; otherwise the server is unchanged and the call fails |
| MySql.CreateValue | server/src/db/mysql.py:94-97 | a new database object, opened with this handle's configuration, is filed under its name |
| MySql.DatabaseIsOwnRoot | server/src/db/mysql.py:94-97 | a database object is a root of its own, with no link and an empty cache, sharing nothing with the server handle |
| MySql.UseCached | server/src/db/mysql.py:110-113 | `use` of a materialised name returns the cached object without a statement or a cache change |
| MySql.UsePlaceholder | server/src/db/mysql.py:110-113 | `use` of a placeholder builds and caches a new object without a statement |
| MySql.UseUnknown | server/src/db/mysql.py:115-119 | `use` of an unknown name lists the databases once; it materialises the name if the server has it and raises otherwise, keeping the names it learned |
| MySql.CreateIdempotentOnServer | server/src/db/mysql.py:143-155 | `create` succeeds whenever the link is usable, the server then has the name, and creating it again leaves the server as it was |
| MySql.CreateReplaces | server/src/db/mysql.py:143-155 | a successful `create` files a new object under the name, replacing any object handed out before |
| MySql.DropSucceeds | server/src/db/mysql.py:171-181 | `drop` succeeds exactly when the link is usable and the server has the database |
| MySql.DropEvicts | server/src/db/mysql.py:171-181 | a successful `drop` removes the name from the server and the cache and leaves every other entry alone |
| MySql.DropFailsCleanly | server/src/db/mysql.py:171-181 | a failed `drop` changes neither cache nor server; dropping a missing database fails with error 1008 |
| MySql.ExistsRemembers | server/src/db/mysql.py:195-206 | `exists` is true exactly when the name was cached before or is on the server now |
| MySql.DatabaseNamesListing | server/src/db/mysql.py:78-82 | `database_names` lists the cached names first, in order, then the server's other names, each once, and nothing else |
| MySql.GetItemYieldsNothing | server/src/db/mysql.py:40-41 | as written, `m[name]` has every effect of `use` but its value is always None |
| MySql.GetItemReturnsDatabase | server/src/db/mysql.py:30-41 | corrected, `m[name]` has every effect of `use` and yields the database object exactly when `use` succeeds, the one then cached under the name |
| MySql.MappingIsCatalog | server/src/db/mysql.py:28-47 | assignment ignores the value and leaves the handle as `create` does; `len` succeeds exactly when the listing does and is its length |
| Book.Lift | server/src/model/v1/book.py:74-78 | the field becomes the sub-entry of an object holding it, and the default otherwise; every other key is unchanged |
| Book.JoinAllSucceeds | server/src/model/v1/book.py:83-87 | joining the list fields succeeds exactly when each original value is a list of strings, a string or an object (TypeError otherwise) |
| Book.JoinAllValues | server/src/model/v1/book.py:83-87 | after joining, each field holds the comma-joined text of its original value and every other key is unchanged |
| Book.RewriteSucceeds | server/src/model/v1/book.py:80-90 | the rewrite of an object succeeds exactly when every joined field is a list of strings, a string, an object or absent |
| Book.RewriteLifts | server/src/model/v1/book.py:81-89 | when the joined fields can be joined, the rewrite succeeds; rating and pic are lifted out of their objects (defaults 0.0 and ""), and tag becomes "" only when it is absent |
| Book.RewriteJoins | server/src/model/v1/book.py:83-87 | author, price, translator, press and pages hold their comma-joined text ("" when absent) |
| Book.RewriteKeepsOthers | server/src/model/v1/book.py:80-90 | every key the rewrite does not name keeps its presence and value |
| Book.RewriteKeepsNonObjects | server/src/model/v1/book.py:80-90 | data that is not an object passes through unchanged |
| Book.AddQuotes | server/src/model/v1/book.py:99-103 | every field keeps its name and place; id and rating are untouched, all others become strings |
| Book.AddQuotesFormats | server/src/model/v1/book.py:99-103 | after the driver's formatting every quoted field is its `str()` between apostrophes |
| Strings.FormatDoubled | server/src/db/_base.py:93-96 | the driver's `query % ()` turns doubled `%` back into the original text and fails exactly where the rest fails |
| Strings.FormatNoPercent | server/src/db/_base.py:93-96 | a text without `%` reaches the server as it is |
| Strings.FormatAppend | server/src/db/_base.py:93-96 | formatting a concatenation formats each part, unless a lone `%` at the end of the first is completed by the second |
| Strings.FormatJoin | server/src/db/_base.py:93-96 | formatting texts joined by a `%`-free separator formats each text, and fails exactly when one of them fails |
| Book.QuoteSurvivesFormatting | server/src/model/v1/book.py:102 | a quoted field reaches the server as its own text between apostrophes, `%` included; an undoubled `%` makes formatting fail |
| Book.QuoteLeaksApostrophe | server/src/model/v1/book.py:102 | as written, the value "a'b" reaches the server as `'a'b'`, whose literal is "a" with `b'` left over |
| Book.EscapeRead | server/src/model/v1/book.py:97-102 | escaped text followed by a closing apostrophe reads back as the text itself |
| Book.QuoteEscapedReadsBack | server/src/model/v1/book.py:102 | with the value escaped, every text reads back exactly and nothing spills past the literal |
| Book.TableColumnsShape | server/src/model/v1/book.py:28-46 | the declaration lists the 15 book fields in order, every type is accepted, id is the only primary key (an INT), and no column is AUTO_INCREMENT or NOT NULL |
| Store.SplitDict | server/src/crawler/store.py:11-31 | n = 0 raises ZeroDivisionError and a negative n gives no parts. Otherwise there are n parts: part i holds len//n keys plus one for i < len%n, the parts' keys in order are the dictionary's keys, and the values are kept |
| Store.PartsBalanced | server/src/crawler/store.py:13-19 | part sizes never grow along the list and differ by at most one; with more parts than keys the trailing parts are empty |
| Store.ParseRows | server/src/crawler/store.py:39-40 | every row parses to (int of the first cell, second cell), or the error is the first failing row's |
| Store.GroupJoinsTags | server/src/crawler/store.py:38-44 | a book is present exactly when some row names it, and its text is all its tags in row order joined with "," |
| Store.GroupOrder | server/src/crawler/store.py:38-44 | books appear once each, in the order of their first row |
| Store.LoadEdges | server/src/crawler/store.py:35-37 | an empty file fails on its missing header; a header alone gives no books |
| Singletons.Decorate | server/src/utils/singleton.py:11-13 | a fresh wrapper holds no instance and has built nothing |
| Singletons.Call | server/src/utils/singleton.py:15-18 | the constructor runs only when no instance is cached; otherwise the cached one comes back and nothing changes. A constructor that raises leaves the wrapper empty and unchanged, and the call fails |
| Singletons.CallAll | server/src/utils/singleton.py:15-18 | over any run of calls, a call fails exactly when its construction and every earlier one raised. The first call whose construction succeeds builds the one instance, with its own arguments, and it and every later call return that instance |
| Singletons.Lookup | server/src/utils/singleton.py:33 | `hasattr` along the method resolution order finds the first class in it that holds an instance |
| Singletons.MetaCall | server/src/utils/singleton.py:32-35 | as written: a found instance, even a base class's, is returned unchanged. Otherwise the class's constructor runs and the instance is stored on the class; if the constructor raises, nothing is stored |
| Singletons.MetaSharesWithSubclass | server/src/utils/singleton.py:32-35 | with B a subclass of A, when A() builds, a later B() returns A's instance, built from A's arguments, and B never gets its own; when A() raises, B() runs B's constructor |
| Singletons.MetaCallOwn | server/src/utils/singleton.py:32-35 | corrected: only the class's own instance counts, and no other class's entry changes. A constructor that raises stores nothing |
| Singletons.MetaCallAll | server/src/utils/singleton.py:32-35 | corrected, over any run of calls: a call fails exactly when no call to its class so far built an instance. Each class's instance is built by its first call whose construction succeeds, and every later call to that class returns it. Only classes that built hold an instance |

## Left out

- Real SQL execution. The server is a list of names (databases or tables). Only the statements the
  handles themselves send are interpreted. A table's server is an arbitrary function from statement
  text to reply.
- The `_async` twins of every operation. They send the same statements through the asynchronous pool
  (`Surface.Async`), and their awaiting is not modelled.
- `executemany`, `executemany_async` and `_create_value` of `Table`. Nothing in the core calls them.
- The descriptor protocol of `DType` (`__set_name__`, `__get__`, `__set__`). It only stores a value;
  `_validate_value` is modelled.
- `real_type` and `_validate_args` read the generic base classes (`__orig_bases__`). Here a per-kind
  table in `Kinds` gives the Python class and the parameter count.
- Floating-point values. A float is opaque text (`Py.PyFloat`, `Book.JNum`), and its `str()` is that
  text.
- `Store.ParseRows`: it reads `int()` of a cell as optional `-` and digits only. Python also accepts
  surrounding white space, `+` and `_` separators.
- The CSV reader, file I/O, threads and the network parts of `store.py` (`process`, the crawler). The
  rows are a parameter.
- `Connection.CloseOnlyRoot`: it does not model the driver's reply to a second `close` (pymysql raises
  on an already closed connection). The model only records that the driver was called.
- `__del__` timing is not modelled. Garbage collection is not modelled; `Teardown` is the call itself.
- A constructor's outcome is either an object or a raised exception. The exception itself is not
  modelled, only that it reaches the caller with nothing cached. A class whose constructor returns
  `None` is not modelled: `Singleton` would treat the `None` as nothing cached.
- pydantic validation of the book record between the two validators is not modelled. The model covers
  what the validators do to the data.
- DType.UpperAll: upper-cases ASCII letters only. Python's `str.upper` maps every cased Unicode
  letter, some to two characters (`ß` to `SS`).
- DType.ExtrasUpperCased: extras are upper-cased as `DType.UpperAll` does, ASCII letters only.
- DType.Define: an explicit `option=None` is not told apart from an absent keyword. One positional
  argument with `option=None` constructs here; Python raises a TypeError (multiple values for `option`).
- SqlTypes.Call: parameters are integers only. The validators of `types.py` are duck-typed lambdas,
  so a float such as `DECIMAL(10.5, 2)` passes them and is rendered; the model has no case for it.
- SqlTypes.SameAcceptance: compares acceptance over integer parameters only. On a float parameter
  the template accepts what `dtype.py` refuses with a TypeError, so the two differ there.
- SqlTypes.CallRoundTrip: holds for integer parameters only, as `SqlTypes.Call` takes.
- Connection.Connect: the driver's `pymysql.connect` / `aiomysql.create_pool` always succeeds here.
  A refused login or an unreachable server raises, and the slot stays empty; that failure is not
  modelled.
- Connection.ConnectOpens: states the slot after a successful driver call only, as `Connection.Connect`
  cannot fail.
- Sql.SelectRoundTrip: needs table and column names without spaces, commas or `%`, and no column
  named `*` or DISTINCT. The WHERE text must not have LIMIT or OFFSET as a word; `Sql.WhereIsVerbatim`
  shows why no reader can do better.
- Sql.InsertRoundTrip: needs table and column names without spaces, commas or `%`; value texts must be
  complete quoted literals or comma-free.
- Sql.UpdateRoundTrip: needs column names without spaces, `%`, `=` or commas, and an assignment list in
  which WHERE is not a word.
- Sql.DeleteRoundTrip: needs a table name without spaces or `%`.
- Sql.FormatSelect: stated for names and columns without `%`; `%` in a name is formatted like any text
  but is not described.
- Catalog.AddName: a new name goes to the end of the server's list. MySQL's `SHOW DATABASES` and
  `SHOW TABLES` list names sorted, so names a refresh brings into a cache come out here in creation
  order and in Python in sorted order (tables `b` then `a` created elsewhere: `["b", "a"]` here,
  `["a", "b"]` in Python).
- MySql.DbHandle: a cached database object is the `DataBase` value as it was built, identified by
  `id`. In Python a second `use` returns the same shared object, with whatever links and table cache
  it has gained since; the model does not carry those changes back into the server handle's cache.
- `utils/async_functools`, the API routes, `server.py` and `res.py` are not part of this model.

## Findings

| source | as written | input that shows it | evidently intended | confidence | as-written member | corrected member |
|---|---|---|---|---|---|---|
| server/src/model/v1/book.py:102 | `escape_string` is applied to the field name passed to `getattr`, not to the value, so the value is quoted unescaped | a text field holding `a'b`: the statement carries `'a'b'`, whose literal ends after `a` | escape the value, then double `%` and quote it | not executed | Book.QuoteLeaksApostrophe | Book.QuoteEscapedReadsBack |
| server/src/db/mysql.py:40-41 | `__getitem__` calls `self.use(key)` without `return`, though the class documentation (mysql.py:30-33) uses `database = mysql["database_name"]` | `m["db"]` for a database the server has: the object is built and cached, yet the value is None | `return self.use(key)` | not executed | MySql.GetItemYieldsNothing | MySql.GetItemReturnsDatabase |
| server/src/utils/singleton.py:33 | `hasattr(cls, "_instance")` also sees the attribute a base class stored | `class B(A)` using the metaclass; calling `A(x)`, which builds, then `B(y)` returns A's instance | each class keeps its own instance (check `"_instance" in cls.__dict__`) | not executed; latent, since no class using the metaclass has a subclass in the repository | Singletons.MetaSharesWithSubclass | Singletons.MetaCallAll |
