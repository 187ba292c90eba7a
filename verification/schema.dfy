/** The schema statements: column definitions (`name type` pairs, as `_create_sql`,
    `add_columns` and `modify_columns` join them), CREATE TABLE, ALTER TABLE, the
    database-level statements of database.py and mysql.py, and a classifier that tells
    them apart. */
module Schema {
  import opened Wrappers
  import opened Strings
  import opened Kinds
  import Sql
  import SqlTypes

  // ---------------------------------------------------------------------------
  // Commas outside parentheses

  /** Parenthesis depth after reading `c` at depth `d`. */
  function Step(d: int, c: char): int {
    if c == '(' then d + 1 else if c == ')' then d - 1 else d
  }

  /** Parenthesis depth after reading `s` from depth `d`. */
  function Depth(s: string, d: int): int
    decreases |s|
  {
    if |s| == 0 then d else Depth(s[1..], Step(d, s[0]))
  }

  /** No comma of `s`, read from depth `d`, lies outside parentheses. */
  predicate NoTopComma(s: string, d: int)
    decreases |s|
  {
    |s| == 0 || ((s[0] != ',' || d != 0) && NoTopComma(s[1..], Step(d, s[0])))
  }

  /** A balanced text whose commas all lie inside parentheses, such as `DECIMAL(10,2) NOT NULL`. */
  predicate TopFree(s: string) {
    NoTopComma(s, 0) && Depth(s, 0) == 0
  }

  /** Splits at the commas that lie outside parentheses, reading from depth `d`. */
  function SplitTopAt(s: string, d: int): (r: seq<string>)
    ensures |r| >= 1
    decreases |s|
  {
    if |s| == 0 then [""]
    else if s[0] == ',' && d == 0 then [""] + SplitTopAt(s[1..], 0)
    else
      var r := SplitTopAt(s[1..], Step(d, s[0]));
      [[s[0]] + r[0]] + r[1..]
  }

  function SplitTop(s: string): seq<string> {
    SplitTopAt(s, 0)
  }

  lemma {:induction false} SplitTopAppend(p: string, rest: string, d: int)
    requires NoTopComma(p, d)
    ensures var r := SplitTopAt(rest, Depth(p, d));
      SplitTopAt(p + rest, d) == [p + r[0]] + r[1..]
    decreases |p|
  {
    if |p| == 0 {
      assert p + rest == rest;
      var r := SplitTopAt(rest, d);
      assert p + r[0] == r[0];
      assert r == [r[0]] + r[1..];
    } else {
      var s := p + rest;
      assert s[0] == p[0];
      assert s[1..] == p[1..] + rest;
      SplitTopAppend(p[1..], rest, Step(d, p[0]));
      var r := SplitTopAt(rest, Depth(p, d));
      assert [p[0]] + (p[1..] + r[0]) == p + r[0];
    }
  }

  /** Splitting a comma-joined list of top-free items gives back the items. */
  lemma {:induction false} SplitTopJoin(parts: seq<string>)
    requires |parts| >= 1
    requires forall i :: 0 <= i < |parts| ==> TopFree(parts[i])
    ensures SplitTop(Join(",", parts)) == parts
    decreases |parts|
  {
    if |parts| == 1 {
      SplitTopAppend(parts[0], "", 0);
      assert parts[0] + "" == parts[0];
    } else {
      var more := Join(",", parts[1..]);
      assert Join(",", parts) == parts[0] + ("," + more);
      assert TopFree(parts[0]);
      SplitTopAppend(parts[0], "," + more, 0);
      assert ("," + more)[0] == ',';
      assert ("," + more)[1..] == more;
      assert SplitTopAt("," + more, 0) == [""] + SplitTopAt(more, 0);
      SplitTopJoin(parts[1..]);
      assert parts[0] + "" == parts[0];
      assert parts == [parts[0]] + parts[1..];
    }
  }

  lemma {:induction false} DepthAppend(a: string, b: string, d: int)
    ensures Depth(a + b, d) == Depth(b, Depth(a, d))
    decreases |a|
  {
    if |a| > 0 {
      assert (a + b)[1..] == a[1..] + b;
      DepthAppend(a[1..], b, Step(d, a[0]));
    } else {
      assert a + b == b;
    }
  }

  lemma {:induction false} NoTopCommaAppend(a: string, b: string, d: int)
    requires NoTopComma(a, d) && NoTopComma(b, Depth(a, d))
    ensures NoTopComma(a + b, d)
    decreases |a|
  {
    if |a| > 0 {
      assert (a + b)[1..] == a[1..] + b;
      NoTopCommaAppend(a[1..], b, Step(d, a[0]));
    } else {
      assert a + b == b;
    }
  }

  /** A text without parentheses. */
  predicate Flat(s: string) {
    '(' !in s && ')' !in s
  }

  lemma {:induction false} FlatDepth(s: string, d: int)
    requires Flat(s)
    ensures Depth(s, d) == d
    ensures d != 0 || ',' !in s ==> NoTopComma(s, d)
    decreases |s|
  {
    if |s| > 0 {
      assert s[0] != '(' && s[0] != ')';
      assert Flat(s[1..]) by {
        assert forall c :: c in s[1..] ==> c in s;
      }
      assert ',' !in s ==> ',' !in s[1..] by {
        assert forall c :: c in s[1..] ==> c in s;
      }
      FlatDepth(s[1..], d);
    }
  }

  /** A flat text without commas is top-free. */
  lemma FlatTopFree(s: string)
    requires Flat(s) && ',' !in s
    ensures TopFree(s)
  {
    FlatDepth(s, 0);
  }

  /** `a(b)c` is top-free when the three parts are flat and the outer ones hold no comma. */
  lemma GroupTopFree(a: string, b: string, c: string)
    requires Flat(a) && Flat(b) && Flat(c) && ',' !in a && ',' !in c
    ensures TopFree(a + "(" + b + ")" + c)
  {
    FlatDepth(a, 0);
    FlatDepth(b, 1);
    FlatDepth(c, 0);
    var open := a + "(";
    DepthAppend(a, "(", 0);
    NoTopCommaAppend(a, "(", 0);
    DepthAppend(open, b, 0);
    NoTopCommaAppend(open, b, 0);
    DepthAppend(open + b, ")", 0);
    NoTopCommaAppend(open + b, ")", 0);
    DepthAppend(open + b + ")", c, 0);
    NoTopCommaAppend(open + b + ")", c, 0);
  }

  // ---------------------------------------------------------------------------
  // Column definitions

  /** A column definition `name type`. */
  type Field = (string, string)

  function FieldItems(fields: seq<Field>): (r: seq<string>)
    ensures |r| == |fields|
    ensures forall i :: 0 <= i < |fields| ==> r[i] == fields[i].0 + " " + fields[i].1
  {
    seq(|fields|, i requires 0 <= i < |fields| => fields[i].0 + " " + fields[i].1)
  }

  /** `','.join(f'{f} {t}' for f, t in field.items())`. */
  function FieldList(fields: seq<Field>): string {
    Join(",", FieldItems(fields))
  }

  function SplitFields(items: seq<string>): Option<seq<Field>>
    decreases |items|
  {
    if |items| == 0 then Some([])
    else
      match (SplitFirst(' ', items[0]), SplitFields(items[1..]))
      case (Some(f), Some(rest)) => Some([f] + rest)
      case _ => None
  }

  /** The column definitions of a definition list; the empty text holds none. */
  function DecodeFields(s: string): Option<seq<Field>> {
    if s == "" then Some([]) else SplitFields(SplitTop(s))
  }

  /** A column name that is one flat word without commas, and a top-free type text; neither
      holds a `%`, which the driver's formatting pass would consume. */
  predicate PlainField(f: Field) {
    Sql.IsName(f.0) && ',' !in f.0 && Flat(f.0) && TopFree(f.1) && '%' !in f.1
  }

  /** A definition list of such fields holds no `%`. */
  lemma FieldListPercentFree(fields: seq<Field>)
    requires forall i :: 0 <= i < |fields| ==> PlainField(fields[i])
    ensures '%' !in FieldList(fields)
  {
    var items := FieldItems(fields);
    forall p | p in items
      ensures '%' !in p
    {
      var i :| 0 <= i < |items| && items[i] == p;
      assert PlainField(fields[i]);
    }
    JoinChars(",", items, '%');
  }

  /** The fixed texts of the schema statements hold no `%`. */
  lemma CreateLiteralsPercentFree()
    ensures '%' !in "CREATE TABLE IF NOT EXISTS " && '%' !in " (" && '%' !in ");"
  {
  }

  lemma AlterLiteralsPercentFree()
    ensures '%' !in "ALTER TABLE " && '%' !in " " && '%' !in ";"
    ensures '%' !in "ADD " && '%' !in "MODIFY " && '%' !in " DROP "
  {
  }

  lemma {:induction false} SplitFieldsBack(fields: seq<Field>)
    requires forall i :: 0 <= i < |fields| ==> ' ' !in fields[i].0
    ensures SplitFields(FieldItems(fields)) == Some(fields)
    decreases |fields|
  {
    if |fields| > 0 {
      SplitFieldsBack(fields[1..]);
      assert FieldItems(fields)[1..] == FieldItems(fields[1..]);
      SplitFirstAt(' ', fields[0].0, fields[0].1);
      assert FieldItems(fields)[0] == fields[0].0 + [' '] + fields[0].1;
      assert fields == [fields[0]] + fields[1..];
    }
  }

  lemma FieldItemTopFree(f: Field)
    requires PlainField(f)
    ensures TopFree(f.0 + " " + f.1)
  {
    FlatDepth(f.0 + " ", 0) by {
      assert forall c :: c in f.0 + " " ==> c in f.0 || c == ' ';
    }
    assert ',' !in f.0 + " " by {
      assert forall c :: c in f.0 + " " ==> c in f.0 || c == ' ';
    }
    DepthAppend(f.0 + " ", f.1, 0);
    NoTopCommaAppend(f.0 + " ", f.1, 0);
    assert f.0 + " " + f.1 == (f.0 + " ") + f.1;
  }

  /** Reading a definition list gives back every `(name, type)` pair in order. */
  lemma FieldsRoundTrip(fields: seq<Field>)
    requires forall i :: 0 <= i < |fields| ==> PlainField(fields[i])
    ensures DecodeFields(FieldList(fields)) == Some(fields)
  {
    var items := FieldItems(fields);
    SplitFieldsBack(fields);
    if |fields| > 0 {
      forall i | 0 <= i < |items|
        ensures TopFree(items[i])
      {
        FieldItemTopFree(fields[i]);
      }
      SplitTopJoin(items);
      JoinEmpty(",", items);
      assert items[0] != "" by {
        assert items[0][|fields[0].0|] == ' ';
      }
    }
  }

  /** Every instance text a type of types.py produces is top-free, so a definition list of
      them reads back. */
  lemma CallTextTopFree(k: Kind, args: seq<int>, ai: bool, nn: bool, pk: bool)
    requires SqlTypes.Call(SqlTypes.Template(k), args, ai, nn, pk).Ok?
    ensures TopFree(SqlTypes.Call(SqlTypes.Template(k), args, ai, nn, pk).value.text)
  {
    SqlTypes.TemplateShape(k);
    ClassNameUpper(k);
    SqlTypes.CallTextOf(SqlTypes.Template(k), args, ai, nn, pk);
    InstanceTextTopFree(SqlName(k), SqlTypes.Template(k).required != 0, args, ai, nn, pk);
  }

  /** An upper-case name, with or without a parenthesised list of integers, followed by
      flags, is top-free. */
  lemma InstanceTextTopFree(name: string, paren: bool, args: seq<int>, ai: bool, nn: bool, pk: bool)
    requires IsUpperWord(name)
    ensures TopFree((if paren then name + "(" + Join(",", SqlTypes.IntTexts(args)) + ")" else name)
                    + SqlTypes.FlagSuffix(ai, nn, pk))
  {
    var suffix := SqlTypes.FlagSuffix(ai, nn, pk);
    assert Flat(name) && ',' !in name by {
      assert forall i :: 0 <= i < |name| ==> 'A' <= name[i] <= 'Z';
    }
    SuffixFlat(ai, nn, pk);
    if paren {
      var texts := SqlTypes.IntTexts(args);
      forall i | 0 <= i < |texts|
        ensures '(' !in texts[i] && ')' !in texts[i]
      {
        IntToStringChars(args[i]);
      }
      JoinChars(",", texts, '(');
      JoinChars(",", texts, ')');
      GroupTopFree(name, Join(",", texts), suffix);
    } else {
      FlatTopFree(name + suffix) by {
        assert forall c :: c in name + suffix ==> c in name || c in suffix;
      }
    }
  }

  /** Upper-case letters, `_` and spaces only. */
  predicate KeywordText(s: string) {
    forall i :: 0 <= i < |s| ==> s[i] == ' ' || s[i] == '_' || 'A' <= s[i] <= 'Z'
  }

  lemma KeywordTextFlat(s: string)
    requires KeywordText(s)
    ensures Flat(s) && ',' !in s
  {
  }

  lemma KeywordTextAppend(a: string, b: string)
    requires KeywordText(a) && KeywordText(b)
    ensures KeywordText(a + b)
  {
  }

  lemma FlagWordsText()
    ensures KeywordText(" AUTO_INCREMENT") && KeywordText(" NOT NULL") && KeywordText(" PRIMARY KEY")
  {
  }

  lemma SuffixFlat(ai: bool, nn: bool, pk: bool)
    ensures Flat(SqlTypes.FlagSuffix(ai, nn, pk)) && ',' !in SqlTypes.FlagSuffix(ai, nn, pk)
  {
    var a: string := if ai then " AUTO_INCREMENT" else "";
    var n: string := if nn then " NOT NULL" else "";
    var p: string := if pk then " PRIMARY KEY" else "";
    FlagWordsText();
    KeywordTextAppend(n, p);
    KeywordTextAppend(a, n + p);
    KeywordTextFlat(a + (n + p));
  }

  // ---------------------------------------------------------------------------
  // CREATE TABLE and ALTER TABLE

  /** `p` taken off the front of `s`. */
  function DropPrefix(p: string, s: string): Option<string> {
    if |p| <= |s| && s[..|p|] == p then Some(s[|p|..]) else None
  }

  /** `q` taken off the end of `s`. */
  function DropSuffix(q: string, s: string): Option<string> {
    if |q| <= |s| && s[|s| - |q|..] == q then Some(s[..|s| - |q|]) else None
  }

  lemma DropAround(p: string, m: string, q: string)
    ensures DropPrefix(p, p + m + q) == Some(m + q)
    ensures DropSuffix(q, m + q) == Some(m)
  {
    assert (p + m + q)[..|p|] == p;
    assert (p + m + q)[|p|..] == m + q;
    assert (m + q)[|m + q| - |q|..] == q;
    assert (m + q)[..|m + q| - |q|] == m;
  }

  /** `_create_sql`. */
  function CreateTableSql(name: string, fields: seq<Field>): string {
    "CREATE TABLE IF NOT EXISTS " + name + " (" + FieldList(fields) + ");"
  }

  /** The table name and the definition list of a CREATE TABLE statement. */
  function DecodeCreateTable(sql: string): Option<(string, seq<Field>)> {
    match DropPrefix("CREATE TABLE IF NOT EXISTS ", sql)
    case None => None
    case Some(rest) =>
      match DropSuffix(");", rest)
      case None => None
      case Some(body) =>
        match SplitFirst(' ', body)
        case None => None
        case Some(nf) =>
          if |nf.1| == 0 || nf.1[0] != '(' then None
          else
            match DecodeFields(nf.1[1..])
            case None => None
            case Some(fs) => Some((nf.0, fs))
  }

  /** Reading a CREATE TABLE statement gives back the table name and every column
      definition in order, an empty list included. */
  lemma CreateTableRoundTrip(name: string, fields: seq<Field>)
    requires Sql.IsName(name)
    requires forall i :: 0 <= i < |fields| ==> PlainField(fields[i])
    ensures DecodeCreateTable(CreateTableSql(name, fields)) == Some((name, fields))
  {
    var fl := FieldList(fields);
    var m := name + " (" + fl;
    assert CreateTableSql(name, fields) == "CREATE TABLE IF NOT EXISTS " + m + ");";
    DropAround("CREATE TABLE IF NOT EXISTS ", m, ");");
    assert m == name + [' '] + ("(" + fl);
    SplitFirstAt(' ', name, "(" + fl);
    assert ("(" + fl)[1..] == fl;
    FieldsRoundTrip(fields);
  }

  /** `add_columns`. */
  function AddColumnsSql(table: string, fields: seq<Field>): string {
    "ALTER TABLE " + table + " " + "ADD " + FieldList(fields) + ";"
  }

  /** `modify_columns`. */
  function ModifyColumnsSql(table: string, fields: seq<Field>): string {
    "ALTER TABLE " + table + " " + "MODIFY " + FieldList(fields) + ";"
  }

  /** The driver's formatting leaves every CREATE TABLE and ALTER TABLE statement of plain
      fields and names as it is. */
  lemma CreateTableUnformatted(name: string, fields: seq<Field>)
    requires Sql.IsName(name)
    requires forall i :: 0 <= i < |fields| ==> PlainField(fields[i])
    ensures Format(CreateTableSql(name, fields)) == Some(CreateTableSql(name, fields))
  {
    FieldListPercentFree(fields);
    CreateLiteralsPercentFree();
    FormatNoPercent(CreateTableSql(name, fields));
  }

  lemma AlterUnformatted(table: string, fields: seq<Field>)
    requires Sql.IsName(table)
    requires forall i :: 0 <= i < |fields| ==> PlainField(fields[i])
    ensures Format(AddColumnsSql(table, fields)) == Some(AddColumnsSql(table, fields))
    ensures Format(ModifyColumnsSql(table, fields)) == Some(ModifyColumnsSql(table, fields))
  {
    FieldListPercentFree(fields);
    AlterLiteralsPercentFree();
    FormatNoPercent(AddColumnsSql(table, fields));
    FormatNoPercent(ModifyColumnsSql(table, fields));
  }

  lemma DropColumnsUnformatted(table: string, columns: seq<string>)
    requires Sql.IsName(table) && Sql.PlainList(columns)
    ensures Format(DropColumnsSql(table, columns)) == Some(DropColumnsSql(table, columns))
  {
    JoinChars(",", columns, '%');
    AlterLiteralsPercentFree();
    FormatNoPercent(DropColumnsSql(table, columns));
  }

  /** `drop_columns`. */
  function DropColumnsSql(table: string, columns: seq<string>): string {
    "ALTER TABLE " + table + " DROP " + Join(",", columns) + ";"
  }

  datatype Alteration =
    | AddColumns(table: string, fields: seq<Field>)
    | ModifyColumns(table: string, fields: seq<Field>)
    | DropColumns(table: string, columns: seq<string>)

  function DecodeAlteration(table: string, verb: string, list: string): Option<Alteration> {
    if verb == "DROP" then Some(DropColumns(table, Sql.ListOf(list)))
    else if verb == "ADD" || verb == "MODIFY" then
      match DecodeFields(list)
      case None => None
      case Some(fs) => Some(if verb == "ADD" then AddColumns(table, fs) else ModifyColumns(table, fs))
    else None
  }

  function DecodeAlter(sql: string): Option<Alteration> {
    match DropPrefix("ALTER TABLE ", sql)
    case None => None
    case Some(rest) =>
      match DropSuffix(";", rest)
      case None => None
      case Some(body) =>
        match SplitFirst(' ', body)
        case None => None
        case Some(tv) =>
          match SplitFirst(' ', tv.1)
          case None => None
          case Some(vl) => DecodeAlteration(tv.0, vl.0, vl.1)
  }

  /** The three ALTER statements share one layout: table, verb, list. */
  lemma AlterLayout(table: string, verb: string, list: string)
    requires Sql.IsName(table) && ' ' !in verb
    ensures DecodeAlter("ALTER TABLE " + table + " " + (verb + " ") + list + ";")
         == DecodeAlteration(table, verb, list)
  {
    var m := table + [' '] + (verb + [' '] + list);
    assert "ALTER TABLE " + table + " " + (verb + " ") + list + ";" == "ALTER TABLE " + m + ";";
    DropAround("ALTER TABLE ", m, ";");
    SplitFirstAt(' ', table, verb + [' '] + list);
    SplitFirstAt(' ', verb, list);
  }

  /** Reading `add_columns`' statement gives back the table and every definition in order. */
  lemma AddColumnsRoundTrip(table: string, fields: seq<Field>)
    requires Sql.IsName(table)
    requires forall i :: 0 <= i < |fields| ==> PlainField(fields[i])
    ensures DecodeAlter(AddColumnsSql(table, fields)) == Some(AddColumns(table, fields))
  {
    assert "ADD " == "ADD" + " ";
    AlterLayout(table, "ADD", FieldList(fields));
    FieldsRoundTrip(fields);
  }

  /** Reading `modify_columns`' statement gives back the table and every definition in
      order. */
  lemma ModifyColumnsRoundTrip(table: string, fields: seq<Field>)
    requires Sql.IsName(table)
    requires forall i :: 0 <= i < |fields| ==> PlainField(fields[i])
    ensures DecodeAlter(ModifyColumnsSql(table, fields)) == Some(ModifyColumns(table, fields))
  {
    assert "MODIFY " == "MODIFY" + " ";
    AlterLayout(table, "MODIFY", FieldList(fields));
    FieldsRoundTrip(fields);
  }

  lemma DropLayout(table: string, list: string)
    ensures "ALTER TABLE " + table + " DROP " + list + ";" == "ALTER TABLE " + table + " " + ("DROP" + " ") + list + ";"
  {
    assert " DROP " == " " + ("DROP" + " ");
  }

  /** Reading `drop_columns`' statement gives back the table and every column in order. */
  lemma DropColumnsRoundTrip(table: string, columns: seq<string>)
    requires Sql.IsName(table) && Sql.PlainList(columns)
    ensures DecodeAlter(DropColumnsSql(table, columns)) == Some(DropColumns(table, columns))
  {
    DropLayout(table, Join(",", columns));
    AlterLayout(table, "DROP", Join(",", columns));
    Sql.ListOfJoin(columns);
  }

  // ---------------------------------------------------------------------------
  // Statements about one name

  const ShowDatabasesSql := "SHOW DATABASES;"
  const ShowTablesSql := "SHOW TABLES;"

  /** mysql.py `create`. */
  function CreateDatabaseSql(name: string): string {
    "CREATE DATABASE IF NOT EXISTS " + name + ";"
  }

  /** mysql.py `drop`. */
  function DropDatabaseSql(name: string): string {
    "DROP DATABASE " + name + ";"
  }

  /** database.py `drop` and table.py `drop`. */
  function DropTableSql(name: string): string {
    "DROP TABLE " + name + ";"
  }

  /** table.py `nrow`. */
  function CountRowsSql(name: string): string {
    "SELECT COUNT(*) FROM " + name + ";"
  }

  /** table.py `ncol`. */
  function ShowColumnsSql(name: string): string {
    "SHOW COLUMNS FROM " + name + ";"
  }

  /** table.py `truncate`. */
  function TruncateSql(name: string): string {
    "TRUNCATE TABLE " + name + ";"
  }

  /** The name in `p + name + ";"`. */
  function DecodeNamed(p: string, sql: string): Option<string> {
    match DropPrefix(p, sql)
    case None => None
    case Some(rest) =>
      match DropSuffix(";", rest)
      case None => None
      case Some(name) => if ' ' in name then None else Some(name)
  }

  /** A one-name statement reads back as its name; when its fixed text holds no `%`, the
      driver's formatting leaves it as it is. */
  lemma NamedRoundTrip(p: string, name: string)
    requires Sql.IsName(name)
    ensures DecodeNamed(p, p + name + ";") == Some(name)
    ensures '%' !in p ==> Format(p + name + ";") == Some(p + name + ";")
  {
    DropAround(p, name, ";");
    if '%' !in p {
      FormatNoPercent(p + name + ";");
    }
  }

  /** A text that differs from `p` at position `i` does not start with `p`. */
  lemma NotPrefixed(p: string, s: string, i: nat)
    requires i < |p| && i < |s| && s[i] != p[i]
    ensures DropPrefix(p, s) == None
  {
    if |p| <= |s| {
      assert s[..|p|][i] == s[i];
    }
  }

  lemma NotNamed(p: string, s: string, i: nat)
    requires i < |p| && i < |s| && s[i] != p[i]
    ensures DecodeNamed(p, s) == None
  {
    NotPrefixed(p, s, i);
  }

  lemma NotCreateTable(s: string, i: nat)
    requires i < 27 && i < |s| && s[i] != "CREATE TABLE IF NOT EXISTS "[i]
    ensures DecodeCreateTable(s) == None
  {
    NotPrefixed("CREATE TABLE IF NOT EXISTS ", s, i);
  }

  /** The database-level statements the server model understands. */
  datatype Statement =
    | ShowDatabases
    | CreateDatabase(name: string)
    | DropDatabase(name: string)
    | ShowTables
    | CreateTable(name: string, fields: seq<Field>)
    | DropTable(name: string)
    | Unrecognised

  function Classify(sql: string): Statement {
    if sql == ShowDatabasesSql then ShowDatabases
    else if sql == ShowTablesSql then ShowTables
    else
      match DecodeCreateTable(sql)
      case Some(c) => CreateTable(c.0, c.1)
      case None =>
        match DecodeNamed("CREATE DATABASE IF NOT EXISTS ", sql)
        case Some(n) => CreateDatabase(n)
        case None =>
          match DecodeNamed("DROP DATABASE ", sql)
          case Some(n) => DropDatabase(n)
          case None =>
            match DecodeNamed("DROP TABLE ", sql)
            case Some(n) => DropTable(n)
            case None => Unrecognised
  }

  /** The two listing statements are classified as what they are, and formatting leaves
      them as they are. */
  lemma ClassifyShowDatabases()
    ensures Classify(ShowDatabasesSql) == ShowDatabases
    ensures Format(ShowDatabasesSql) == Some(ShowDatabasesSql)
  {
    FormatNoPercent(ShowDatabasesSql);
  }

  lemma ClassifyShowTables()
    ensures Classify(ShowTablesSql) == ShowTables
    ensures Format(ShowTablesSql) == Some(ShowTablesSql)
  {
    assert ShowTablesSql[5] != ShowDatabasesSql[5];
    FormatNoPercent(ShowTablesSql);
  }

  /** Every builder's statement is classified as what it builds, and formatting leaves it
      as it is. */
  lemma ClassifyCreateTable(name: string, fields: seq<Field>)
    requires Sql.IsName(name)
    requires forall i :: 0 <= i < |fields| ==> PlainField(fields[i])
    ensures Classify(CreateTableSql(name, fields)) == CreateTable(name, fields)
    ensures Format(CreateTableSql(name, fields)) == Some(CreateTableSql(name, fields))
  {
    var s := CreateTableSql(name, fields);
    assert s[0] == 'C';
    CreateTableRoundTrip(name, fields);
    CreateTableUnformatted(name, fields);
  }

  lemma ClassifyCreateDatabase(name: string)
    requires Sql.IsName(name)
    ensures Classify(CreateDatabaseSql(name)) == CreateDatabase(name)
    ensures Format(CreateDatabaseSql(name)) == Some(CreateDatabaseSql(name))
  {
    var s := CreateDatabaseSql(name);
    assert s[0] == 'C' && s[7] == 'D';
    NotCreateTable(s, 7);
    NamedRoundTrip("CREATE DATABASE IF NOT EXISTS ", name);
  }

  lemma ClassifyDropDatabase(name: string)
    requires Sql.IsName(name)
    ensures Classify(DropDatabaseSql(name)) == DropDatabase(name)
    ensures Format(DropDatabaseSql(name)) == Some(DropDatabaseSql(name))
  {
    var s := DropDatabaseSql(name);
    assert s[0] == 'D';
    NotCreateTable(s, 0);
    NotNamed("CREATE DATABASE IF NOT EXISTS ", s, 0);
    NamedRoundTrip("DROP DATABASE ", name);
  }

  lemma ClassifyDropTable(name: string)
    requires Sql.IsName(name)
    ensures Classify(DropTableSql(name)) == DropTable(name)
    ensures Format(DropTableSql(name)) == Some(DropTableSql(name))
  {
    var s := DropTableSql(name);
    assert s[0] == 'D' && s[5] == 'T';
    NotCreateTable(s, 0);
    NotNamed("CREATE DATABASE IF NOT EXISTS ", s, 0);
    NotNamed("DROP DATABASE ", s, 5);
    NamedRoundTrip("DROP TABLE ", name);
  }
}
