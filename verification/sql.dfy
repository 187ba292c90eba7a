/** The statements the wrapper sends to the server, built exactly as server/src/db/table.py,
    database.py and mysql.py concatenate them, together with a reader for each that
    recovers the builder's arguments from the text, and what the driver's formatting pass
    does to each. */
module Sql {
  import opened Wrappers
  import opened Strings
  import opened Py

  // ---------------------------------------------------------------------------
  // Statements as words

  /** Words joined by single spaces and closed by `;`. */
  function Stmt(words: seq<string>): string {
    Join(" ", words) + ";"
  }

  /** The words of a statement closed by `;`. */
  function StmtWords(sql: string): Option<seq<string>> {
    if |sql| > 0 && sql[|sql| - 1] == ';' then Some(Split(' ', sql[..|sql| - 1])) else None
  }

  predicate AllSpaceless(ws: seq<string>) {
    forall w :: w in ws ==> ' ' !in w
  }

  /** A reader sees every item's own words: an item holding spaces falls apart into them. */
  lemma StmtReads(words: seq<string>)
    requires |words| > 0
    ensures StmtWords(Stmt(words)) == Some(SplitAll(' ', words))
  {
    var j := Join(" ", words);
    assert (j + ";")[..|j + ";"| - 1] == j;
    SplitOfJoin(' ', words);
  }

  /** A name as MySQL reads it unquoted: one word, and free of `%`, which the driver's
      formatting pass would consume. */
  predicate IsName(s: string) {
    ' ' !in s && '%' !in s
  }

  /** A statement whose first word is `head`. */
  lemma StmtHead(head: string, rest: seq<string>)
    ensures Stmt([head] + rest) == head + Prefixed(rest) + ";"
  {
    JoinPrefixed(head, rest);
  }

  lemma SpacelessAppend(a: seq<string>, b: seq<string>)
    requires AllSpaceless(a) && AllSpaceless(b)
    ensures AllSpaceless(a + b)
  {
  }

  /** Upper-case keywords, possibly with `_`, `(`, `*` and `)`, hold no space. */
  predicate KeywordChar(c: char) {
    'A' <= c <= 'Z' || c == '_' || c == '(' || c == ')' || c == '*'
  }

  lemma KeywordsSpaceless(ws: seq<string>)
    requires forall j, i :: 0 <= j < |ws| && 0 <= i < |ws[j]| ==> KeywordChar(ws[j][i])
    ensures AllSpaceless(ws)
  {
    forall w | w in ws
      ensures ' ' !in w
    {
      var j :| 0 <= j < |ws| && ws[j] == w;
      assert forall i :: 0 <= i < |w| ==> KeywordChar(w[i]);
    }
  }

  lemma KeyedSpaceless(kw: string, v: Option<string>)
    requires ' ' !in kw
    requires v.Some? ==> ' ' !in v.value
    ensures AllSpaceless(Keyed(kw, v))
  {
  }

  lemma PrefixedKeyed(kw: string, v: Option<string>)
    ensures Prefixed(Keyed(kw, v)) == if v.Some? then " " + kw + " " + v.value else ""
  {
    if v.Some? {
      var x := v.value;
      assert [kw, x][1..] == [x];
      assert [x][1..] == [];
      assert Prefixed([x]) == " " + x;
      assert Prefixed([kw, x]) == " " + kw + (" " + x);
    }
  }

  lemma PrefixedFixed(a: string, b: string, c: string)
    ensures Prefixed([a, b, c]) == " " + a + " " + b + " " + c
  {
    assert [a, b, c][1..] == [b, c];
    assert [b, c][1..] == [c];
    assert [c][1..] == [];
    assert Prefixed([c]) == " " + c;
    assert Prefixed([b, c]) == " " + b + (" " + c);
    assert Prefixed([a, b, c]) == " " + a + (" " + b + (" " + c));
  }

  /** `"(" + s + ")"`. */
  function Parens(s: string): string {
    "(" + s + ")"
  }

  /** The inside of a parenthesised word. */
  function Unparen(s: string): Option<string> {
    if |s| >= 2 && s[0] == '(' && s[|s| - 1] == ')' then Some(s[1..|s| - 1]) else None
  }

  lemma UnparenParens(s: string)
    ensures Unparen(Parens(s)) == Some(s)
  {
    assert Parens(s)[1..|Parens(s)| - 1] == s;
  }

  /** The items of a comma-joined list; the empty text holds none. */
  function ListOf(s: string): seq<string> {
    if s == "" then [] else Split(',', s)
  }

  /** Names that read back from a comma-joined word: none empty, none holding a comma. */
  predicate PlainList(parts: seq<string>) {
    forall p :: p in parts ==> |p| > 0 && ',' !in p && IsName(p)
  }

  lemma ListOfJoin(parts: seq<string>)
    requires PlainList(parts)
    ensures ListOf(Join(",", parts)) == parts
    ensures ' ' !in Join(",", parts)
  {
    JoinChars(",", parts, ' ');
    if |parts| > 0 {
      assert parts[0] in parts;
      JoinEmpty(",", parts);
      SplitJoin(',', parts);
    }
  }

  /** Two or more items joined by commas hold a comma. */
  lemma JoinHasComma(parts: seq<string>)
    requires |parts| >= 2
    ensures ',' in Join(",", parts)
  {
    var j := Join(",", parts);
    assert j == parts[0] + "," + Join(",", parts[1..]);
    assert j[|parts[0]|] == ',';
  }

  lemma JoinSpaceless(sep: string, parts: seq<string>)
    requires ' ' !in sep && AllSpaceless(parts)
    ensures ' ' !in Join(sep, parts)
  {
    JoinChars(sep, parts, ' ');
  }

  // ---------------------------------------------------------------------------
  // Conditions

  /** How many words come before the first one in `stops`. */
  function Before(ws: seq<string>, stops: set<string>): (n: nat)
    ensures n <= |ws|
    decreases |ws|
  {
    if |ws| == 0 || ws[0] in stops then 0 else 1 + Before(ws[1..], stops)
  }

  /** Takes `WHERE` and the words of its condition off the front of `ws`. The condition runs
      to the first stop word, and is those words joined by single spaces. */
  function TakeCondition(ws: seq<string>, stops: set<string>): (Option<string>, seq<string>) {
    if |ws| >= 1 && ws[0] == "WHERE" then
      var n := Before(ws[1..], stops);
      (Some(Join(" ", ws[1..][..n])), ws[1..][n..])
    else (None, ws)
  }

  /** A condition none of whose words is a stop word, so that a reader finds where it ends. */
  predicate Unstopped(w: string, stops: set<string>) {
    forall p :: p in Split(' ', w) ==> p !in stops
  }

  lemma {:induction false} BeforeAppend(a: seq<string>, b: seq<string>, stops: set<string>)
    requires forall p :: p in a ==> p !in stops
    requires |b| > 0 ==> b[0] in stops
    ensures Before(a + b, stops) == |a|
    decreases |a|
  {
    if |a| == 0 {
      assert a + b == b;
    } else {
      assert (a + b)[0] == a[0] && a[0] in a;
      assert (a + b)[1..] == a[1..] + b;
      assert forall p :: p in a[1..] ==> p in a;
      BeforeAppend(a[1..], b, stops);
    }
  }

  /** The words a reader sees for an optional `WHERE` clause. */
  lemma ConditionWords(where: Option<string>)
    ensures SplitAll(' ', Keyed("WHERE", where)) == if where.Some? then ["WHERE"] + Split(' ', where.value) else []
  {
    if where.Some? {
      var k := ["WHERE", where.value];
      assert Keyed("WHERE", where) == k;
      KeywordsSpaceless(["WHERE"]);
      SplitNoSeparator(' ', "WHERE");
      assert SplitAll(' ', k) == Split(' ', "WHERE") + SplitAll(' ', k[1..]);
      assert SplitAll(' ', k[1..]) == Split(' ', where.value) + SplitAll(' ', k[1..][1..]);
      assert k[1..][1..] == [];
      assert Split(' ', where.value) + [] == Split(' ', where.value);
    }
  }

  /** A condition without stop words reads back whole, and what follows it is left over. */
  lemma TakeConditionBack(where: Option<string>, rest: seq<string>, stops: set<string>)
    requires where.Some? ==> Unstopped(where.value, stops)
    requires |rest| > 0 ==> rest[0] in stops && rest[0] != "WHERE"
    ensures TakeCondition(SplitAll(' ', Keyed("WHERE", where)) + rest, stops) == (where, rest)
  {
    ConditionWords(where);
    if where.Some? {
      var parts := Split(' ', where.value);
      var ws := ["WHERE"] + parts + rest;
      assert SplitAll(' ', Keyed("WHERE", where)) + rest == ws;
      assert ws[1..] == parts + rest;
      BeforeAppend(parts, rest, stops);
      assert (parts + rest)[..|parts|] == parts;
      assert (parts + rest)[|parts|..] == rest;
      JoinSplit(' ', where.value);
    } else {
      assert [] + rest == rest;
    }
  }

  /** An optional condition after the driver's formatting: `Some(None)` when there is none,
      `None` when formatting it fails. */
  function FormatOpt(v: Option<string>): Option<Option<string>> {
    match v
    case None => Some(None)
    case Some(x) => if Format(x).Some? then Some(Some(Format(x).value)) else None
  }

  // ---------------------------------------------------------------------------
  // Values as the server delimits them

  /** What a backslash and the character `c` after it stand for in a MySQL string literal:
      `\0`, `\b`, `\n`, `\r`, `\t` and `\Z` are control characters, `\%` and `\_` keep their
      backslash, and before any other character the backslash is dropped. */
  function Unescaped(c: char): string {
    match c
    case '0' => "\0"
    case 'b' => "\U{8}"
    case 'n' => "\n"
    case 'r' => "\r"
    case 't' => "\t"
    case 'Z' => "\U{1A}"
    case '%' => "\\%"
    case '_' => "\\_"
    case _ => [c]
  }

  /** The rest of a MySQL string literal after its opening apostrophe: a backslash and the
      next character read as `Unescaped` says, `''` stands for one apostrophe, and a lone apostrophe ends the literal.
      The result is the literal's value and the text after it. */
  function ReadBody(u: string): (r: Option<(string, string)>)
    ensures r.Some? ==> |r.value.1| < |u| && r.value.1 == u[|u| - |r.value.1|..]
    decreases |u|
  {
    if |u| == 0 then None
    else if u[0] == '\\' then
      if |u| < 2 then None
      else
        match ReadBody(u[2..])
        case None => None
        case Some(p) =>
          assert u[2..][|u[2..]| - |p.1|..] == u[|u| - |p.1|..];
          Some((Unescaped(u[1]) + p.0, p.1))
    else if u[0] == '\'' then
      if |u| >= 2 && u[1] == '\'' then
        match ReadBody(u[2..])
        case None => None
        case Some(p) =>
          assert u[2..][|u[2..]| - |p.1|..] == u[|u| - |p.1|..];
          Some(("'" + p.0, p.1))
      else Some(("", u[1..]))
    else
      match ReadBody(u[1..])
      case None => None
      case Some(p) =>
        assert u[1..][|u[1..]| - |p.1|..] == u[|u| - |p.1|..];
        Some(([u[0]] + p.0, p.1))
  }

  /** A string literal: its value and the text after it. */
  function ReadLiteral(t: string): Option<(string, string)> {
    if |t| > 0 && t[0] == '\'' then ReadBody(t[1..]) else None
  }

  /** A character other than a backslash or an apostrophe stands for itself. */
  lemma ReadPlain(c: char, t: string)
    requires c != '\\' && c != '\''
    ensures ReadBody([c] + t) == (match ReadBody(t) case None => None case Some(p) => Some(([c] + p.0, p.1)))
  {
    assert ([c] + t)[1..] == t;
  }

  /** A lone apostrophe ends the literal. */
  lemma ReadEnd(t: string)
    requires |t| == 0 || t[0] != '\''
    ensures ReadBody("'" + t) == Some(("", t))
  {
    assert ("'" + t)[1..] == t;
  }

  /** A literal that ends exactly at the end of `u` still ends there when text follows that
      does not start with an apostrophe. */
  lemma {:induction false} ReadBodyThen(u: string, y: string)
    requires ReadBody(u).Some? && ReadBody(u).value.1 == ""
    requires |y| == 0 || y[0] != '\''
    ensures ReadBody(u + y) == Some((ReadBody(u).value.0, y))
    decreases |u|
  {
    var s := u + y;
    assert s[0] == u[0];
    if u[0] == '\\' {
      assert s[1] == u[1];
      assert s[2..] == u[2..] + y;
      ReadBodyThen(u[2..], y);
    } else if u[0] == '\'' {
      if |u| >= 2 && u[1] == '\'' {
        assert s[1] == u[1];
        assert s[2..] == u[2..] + y;
        ReadBodyThen(u[2..], y);
      } else {
        assert |u| == 1;
        assert s[1..] == y;
      }
    } else {
      assert s[1..] == u[1..] + y;
      ReadBodyThen(u[1..], y);
    }
  }

  /** One value of a `VALUES` list or a `SET` item as the server delimits it: a string
      literal runs to its closing apostrophe, anything else to the next comma. The result is
      the value's text as written and the text after it. */
  function ReadValue(t: string): (r: Option<(string, string)>)
    ensures r.Some? ==> r.value.0 + r.value.1 == t
  {
    if |t| > 0 && t[0] == '\'' then
      match ReadBody(t[1..])
      case None => None
      case Some(p) =>
        var n := |t| - |p.1|;
        assert t[n..] == p.1;
        assert t[..n] + t[n..] == t;
        Some((t[..n], p.1))
    else
      match SplitFirst(',', t)
      case None => Some((t, ""))
      case Some(p) =>
        assert p.0 + ("," + p.1) == p.0 + [','] + p.1;
        Some((p.0, "," + p.1))
  }

  /** A value text the reader delimits exactly: a complete string literal, or a non-empty
      text without commas that does not open one. */
  predicate ValueText(x: string) {
    if |x| > 0 && x[0] == '\'' then ReadBody(x[1..]).Some? && ReadBody(x[1..]).value.1 == ""
    else |x| > 0 && ',' !in x
  }

  predicate Readable(texts: seq<string>) {
    forall i :: 0 <= i < |texts| ==> ValueText(texts[i])
  }

  /** A value text followed by nothing, or by a comma and more, is read as itself. */
  lemma ReadValueText(x: string, rest: string)
    requires ValueText(x)
    requires rest == "" || rest[0] == ','
    ensures ReadValue(x + rest) == Some((x, rest))
  {
    var t := x + rest;
    assert t[0] == x[0];
    if x[0] == '\'' {
      assert t[1..] == x[1..] + rest;
      ReadBodyThen(x[1..], rest);
      assert t[..|t| - |rest|] == x;
    } else if rest == "" {
      assert t == x;
      SplitFirstAbsent(',', x);
    } else {
      assert t == x + [','] + rest[1..];
      SplitFirstAt(',', x, rest[1..]);
      assert "," + rest[1..] == rest;
    }
  }

  /** The values of a non-empty comma-separated list. */
  function ReadItems(t: string): Option<seq<string>>
    decreases |t|
  {
    match ReadValue(t)
    case None => None
    case Some(p) =>
      if p.1 == "" then Some([p.0])
      else if p.1[0] == ',' then
        match ReadItems(p.1[1..])
        case None => None
        case Some(vs) => Some([p.0] + vs)
      else None
  }

  /** The values between the parentheses of `VALUES (...)`; none when it is empty. */
  function ReadValues(t: string): Option<seq<string>> {
    if t == "" then Some([]) else ReadItems(t)
  }

  lemma {:induction false} ReadItemsJoin(texts: seq<string>)
    requires |texts| >= 1 && Readable(texts)
    ensures ReadItems(Join(",", texts)) == Some(texts)
    decreases |texts|
  {
    if |texts| == 1 {
      assert Join(",", texts) == texts[0];
      ReadValueText(texts[0], "");
      assert texts[0] + "" == texts[0];
      assert texts == [texts[0]];
    } else {
      var more := Join(",", texts[1..]);
      ReadableTail(texts);
      ReadItemsJoin(texts[1..]);
      assert Join(",", texts) == texts[0] + ("," + more);
      ReadItemsCons(texts[0], more);
      assert texts == [texts[0]] + texts[1..];
    }
  }

  lemma ReadableTail(texts: seq<string>)
    requires |texts| >= 1 && Readable(texts)
    ensures Readable(texts[1..])
  {
    forall i | 0 <= i < |texts| - 1
      ensures ValueText(texts[1..][i])
    {
      assert texts[1..][i] == texts[i + 1];
    }
  }

  /** A value text, a comma and more text: the value is read, then the rest. */
  lemma ReadItemsCons(x: string, more: string)
    requires ValueText(x)
    ensures ReadItems(x + ("," + more)) ==
      match ReadItems(more)
      case None => None
      case Some(vs) => Some([x] + vs)
  {
    ReadValueText(x, "," + more);
    assert ("," + more)[1..] == more;
  }

  /** Reading a comma-joined list of value texts gives back every text, in order, whatever
      commas, spaces or parentheses the string literals among them hold. */
  lemma ReadValuesJoin(texts: seq<string>)
    requires Readable(texts)
    ensures ReadValues(Join(",", texts)) == Some(texts)
  {
    if |texts| > 0 {
      ReadItemsJoin(texts);
      JoinEmpty(",", texts);
      assert ValueText(texts[0]);
    }
  }

  // ---------------------------------------------------------------------------
  // SELECT

  /** `",".join(column) or "*"`. */
  function ColumnList(cols: seq<string>): string {
    var j := Join(",", cols);
    if j == "" then "*" else j
  }

  function IntText(v: Option<int>): Option<string> {
    match v
    case None => None
    case Some(n) => Some(IntToString(n))
  }

  /** `_select_sql`: each optional clause is appended exactly when its argument is not `None`. */
  function SelectSql(table: string, cols: seq<string>, distinct: bool, where: Option<string>,
                     limit: Option<int>, offset: Option<int>): string {
    var sql := "SELECT " + (if distinct then "DISTINCT " else "") + ColumnList(cols) + " FROM " + table;
    var sql := if where.Some? then sql + " WHERE " + where.value else sql;
    var sql := if limit.Some? then sql + " LIMIT " + IntToString(limit.value) else sql;
    var sql := if offset.Some? then sql + " OFFSET " + IntToString(offset.value) else sql;
    sql + ";"
  }

  /** The words of a select statement, the condition as one item. */
  function SelectWords(table: string, columnList: string, distinct: bool, where: Option<string>,
                       limit: Option<int>, offset: Option<int>): seq<string> {
    ["SELECT"] + (if distinct then ["DISTINCT"] else []) + [columnList, "FROM", table]
    + (Keyed("WHERE", where) + (Keyed("LIMIT", IntText(limit)) + Keyed("OFFSET", IntText(offset))))
  }

  lemma SelectClauses(where: Option<string>, limit: Option<int>, offset: Option<int>)
    ensures Prefixed(Keyed("WHERE", where) + (Keyed("LIMIT", IntText(limit)) + Keyed("OFFSET", IntText(offset))))
      == (if where.Some? then " WHERE " + where.value else "")
       + (if limit.Some? then " LIMIT " + IntToString(limit.value) else "")
       + (if offset.Some? then " OFFSET " + IntToString(offset.value) else "")
  {
    var kw := Keyed("WHERE", where);
    var kl := Keyed("LIMIT", IntText(limit));
    var ko := Keyed("OFFSET", IntText(offset));
    PrefixedAppend(kl, ko);
    PrefixedAppend(kw, kl + ko);
    ClauseWords();
    KeyedClause("WHERE", " WHERE ", where);
    KeyedClause("LIMIT", " LIMIT ", IntText(limit));
    KeyedClause("OFFSET", " OFFSET ", IntText(offset));
    Regroup(Prefixed(kw), Prefixed(kl), Prefixed(ko));
  }

  lemma Regroup(a: string, b: string, c: string)
    ensures a + (b + c) == a + b + c
  {
  }

  lemma ClauseWords()
    ensures " " + "WHERE" + " " == " WHERE "
    ensures " " + "LIMIT" + " " == " LIMIT "
    ensures " " + "OFFSET" + " " == " OFFSET "
  {
  }

  /** One optional clause, with its keyword written out as `lit`. */
  lemma KeyedClause(kw: string, lit: string, v: Option<string>)
    requires lit == " " + kw + " "
    ensures Prefixed(Keyed(kw, v)) == if v.Some? then lit + v.value else ""
  {
    PrefixedKeyed(kw, v);
  }

  /** `_select_sql` as one concatenation. */
  lemma SelectSqlShape(table: string, cols: seq<string>, distinct: bool, where: Option<string>,
                       limit: Option<int>, offset: Option<int>)
    ensures SelectSql(table, cols, distinct, where, limit, offset)
      == "SELECT " + (if distinct then "DISTINCT " else "") + ColumnList(cols) + " FROM " + table
       + ((if where.Some? then " WHERE " + where.value else "")
       + (if limit.Some? then " LIMIT " + IntToString(limit.value) else "")
       + (if offset.Some? then " OFFSET " + IntToString(offset.value) else "")) + ";"
  {
    var h := "SELECT " + (if distinct then "DISTINCT " else "") + ColumnList(cols) + " FROM " + table;
    var s1 := if where.Some? then h + " WHERE " + where.value else h;
    var s2 := if limit.Some? then s1 + " LIMIT " + IntToString(limit.value) else s1;
    AppendOpt(h, where, " WHERE ");
    AppendOpt(s1, IntText(limit), " LIMIT ");
    AppendOpt(s2, IntText(offset), " OFFSET ");
    Regroup3(h, if where.Some? then " WHERE " + where.value else "",
      if limit.Some? then " LIMIT " + IntToString(limit.value) else "",
      if offset.Some? then " OFFSET " + IntToString(offset.value) else "");
  }

  /** An optional clause appended to `s` is `s` followed by the clause or by nothing. */
  lemma AppendOpt(s: string, v: Option<string>, lit: string)
    ensures (if v.Some? then s + lit + v.value else s) == s + (if v.Some? then lit + v.value else "")
  {
  }

  lemma Regroup3(h: string, a: string, b: string, c: string)
    ensures h + a + b + c == h + (a + b + c)
  {
  }

  lemma SelectHead(distinct: bool, cols: string, table: string)
    ensures "SELECT" + Prefixed((if distinct then ["DISTINCT"] else []) + [cols, "FROM", table])
         == "SELECT " + (if distinct then "DISTINCT " else "") + cols + " FROM " + table
  {
    var d: seq<string> := if distinct then ["DISTINCT"] else [];
    PrefixedAppend(d, [cols, "FROM", table]);
    PrefixedFixed(cols, "FROM", table);
    if distinct {
      assert Prefixed(d) == " DISTINCT" by {
        assert d[1..] == [];
      }
      assert "SELECT" + " DISTINCT" + " " == "SELECT " + "DISTINCT ";
    } else {
      assert "SELECT" + "" + " " == "SELECT " + "";
    }
    assert " " + "FROM" + " " == " FROM ";
  }

  /** The select statement is its clause words joined by single spaces. */
  lemma SelectSqlWords(table: string, cols: seq<string>, distinct: bool, where: Option<string>,
                       limit: Option<int>, offset: Option<int>)
    ensures SelectSql(table, cols, distinct, where, limit, offset) == Stmt(SelectWords(table, ColumnList(cols), distinct, where, limit, offset))
  {
    var d: seq<string> := if distinct then ["DISTINCT"] else [];
    var fixed := [ColumnList(cols), "FROM", table];
    var clauses := Keyed("WHERE", where) + (Keyed("LIMIT", IntText(limit)) + Keyed("OFFSET", IntText(offset)));
    assert SelectWords(table, ColumnList(cols), distinct, where, limit, offset) == ["SELECT"] + ((d + fixed) + clauses);
    StmtHead("SELECT", (d + fixed) + clauses);
    PrefixedAppend(d + fixed, clauses);
    SelectHead(distinct, ColumnList(cols), table);
    SelectClauses(where, limit, offset);
    SelectSqlShape(table, cols, distinct, where, limit, offset);
    Glue("SELECT", Prefixed(d + fixed), Prefixed(clauses));
  }

  lemma Glue(x: string, p: string, c: string)
    ensures x + (p + c) + ";" == (x + p) + c + ";"
  {
  }

  /** What a reader of a select statement can tell about it. */
  datatype Query = Query(
    table: string,
    columns: seq<string>,
    distinct: bool,
    where: Option<string>,
    limit: Option<int>,
    offset: Option<int>)

  function ParseOptInt(v: Option<string>): Option<Option<int>> {
    match v
    case None => Some(None)
    case Some(t) =>
      match ParseInt(t)
      case None => None
      case Some(n) => Some(Some(n))
  }

  /** The words that stop a select's condition. */
  const SelectStops: set<string> := {"LIMIT", "OFFSET"}

  /** The WHERE text, limit and offset of the words after the table name. The condition runs
      to the first LIMIT or OFFSET word. */
  function DecodeClauses(ws: seq<string>): Option<(Option<string>, Option<int>, Option<int>)> {
    var wh := TakeCondition(ws, SelectStops);
    var li := TakeKeyed(wh.1, "LIMIT");
    var of := TakeKeyed(li.1, "OFFSET");
    match (ParseOptInt(li.0), ParseOptInt(of.0))
    case (Some(l), Some(o)) => if of.1 != [] then None else Some((wh.0, l, o))
    case _ => None
  }

  /** The column names of a select's column list; `*` stands for none. */
  function DecodeColumns(s: string): seq<string> {
    if s == "*" then [] else Split(',', s)
  }

  /** The words after `SELECT` and the DISTINCT flag. */
  function DecodeSelectBody(distinct: bool, r: seq<string>): Option<Query> {
    if |r| < 3 || r[1] != "FROM" then None
    else
      match DecodeClauses(r[3..])
      case None => None
      case Some(c) => Some(Query(r[2], DecodeColumns(r[0]), distinct, c.0, c.1, c.2))
  }

  function SelectOfWords(w: seq<string>): Option<Query> {
    if |w| < 4 || w[0] != "SELECT" then None
    else
      var d := TakeWord(w[1..], "DISTINCT");
      DecodeSelectBody(d.0, d.1)
  }

  function DecodeSelect(sql: string): Option<Query> {
    match StmtWords(sql)
    case None => None
    case Some(w) => SelectOfWords(w)
  }

  /** Column names that read back from a select's column list. */
  predicate PlainColumns(cols: seq<string>) {
    PlainList(cols) && "*" !in cols && "DISTINCT" !in cols
  }

  lemma IntTextSpaceless(n: int)
    ensures ' ' !in IntToString(n)
  {
    IntToStringChars(n);
  }

  lemma ColumnListWord(cols: seq<string>)
    requires PlainColumns(cols)
    ensures ' ' !in ColumnList(cols)
    ensures ColumnList(cols) != "DISTINCT"
    ensures DecodeColumns(ColumnList(cols)) == cols
  {
    ListOfJoin(cols);
    JoinEmpty(",", cols);
    if |cols| == 1 {
      assert Join(",", cols) == cols[0];
      assert cols[0] in cols;
    } else if |cols| >= 2 {
      JoinHasComma(cols);
    }
  }

  lemma ParseOptIntText(v: Option<int>)
    ensures ParseOptInt(IntText(v)) == Some(v)
    ensures v.Some? ==> ' ' !in IntText(v).value
  {
    if v.Some? {
      ParseIntToString(v.value);
      IntTextSpaceless(v.value);
    }
  }

  lemma SelectKeywordsSpaceless()
    ensures ' ' !in "SELECT" && ' ' !in "DISTINCT" && ' ' !in "FROM"
    ensures ' ' !in "WHERE" && ' ' !in "LIMIT" && ' ' !in "OFFSET"
  {
    KeywordsSpaceless(["SELECT", "DISTINCT", "FROM", "WHERE", "LIMIT", "OFFSET"]);
  }

  lemma TakeDistinct(distinct: bool, r: seq<string>)
    requires |r| > 0 && r[0] != "DISTINCT"
    ensures TakeWord((if distinct then ["DISTINCT"] else []) + r, "DISTINCT") == (distinct, r)
  {
    if distinct {
      assert (["DISTINCT"] + r)[1..] == r;
    } else {
      assert [] + r == r;
    }
  }

  /** The tail of a select's words as a reader sees them: the condition falls apart into its
      words, the limit and offset do not. */
  lemma SelectTailReads(where: Option<string>, limit: Option<int>, offset: Option<int>)
    ensures SplitAll(' ', Keyed("WHERE", where) + (Keyed("LIMIT", IntText(limit)) + Keyed("OFFSET", IntText(offset))))
         == SplitAll(' ', Keyed("WHERE", where)) + (Keyed("LIMIT", IntText(limit)) + Keyed("OFFSET", IntText(offset)))
  {
    var tail := Keyed("LIMIT", IntText(limit)) + Keyed("OFFSET", IntText(offset));
    SelectKeywordsSpaceless();
    ParseOptIntText(limit);
    ParseOptIntText(offset);
    KeyedSpaceless("LIMIT", IntText(limit));
    KeyedSpaceless("OFFSET", IntText(offset));
    SpacelessAppend(Keyed("LIMIT", IntText(limit)), Keyed("OFFSET", IntText(offset)));
    SplitAllAppend(' ', Keyed("WHERE", where), tail);
    SplitAllWhole(' ', tail);
  }

  /** A select's words as a reader sees them. */
  lemma SelectReads(table: string, columnList: string, distinct: bool, where: Option<string>,
                    limit: Option<int>, offset: Option<int>)
    requires IsName(table) && ' ' !in columnList
    ensures SplitAll(' ', SelectWords(table, columnList, distinct, where, limit, offset))
         == ["SELECT"] + (if distinct then ["DISTINCT"] else []) + [columnList, "FROM", table]
          + (SplitAll(' ', Keyed("WHERE", where)) + (Keyed("LIMIT", IntText(limit)) + Keyed("OFFSET", IntText(offset))))
  {
    var head := ["SELECT"] + (if distinct then ["DISTINCT"] else []) + [columnList, "FROM", table];
    var clauses := Keyed("WHERE", where) + (Keyed("LIMIT", IntText(limit)) + Keyed("OFFSET", IntText(offset)));
    assert SelectWords(table, columnList, distinct, where, limit, offset) == head + clauses;
    SelectKeywordsSpaceless();
    assert AllSpaceless(head);
    SplitAllAppend(' ', head, clauses);
    SplitAllWhole(' ', head);
    SelectTailReads(where, limit, offset);
  }

  /** The WHERE, LIMIT and OFFSET clauses read back in that order. */
  lemma TakeClauses(where: Option<string>, limit: Option<int>, offset: Option<int>)
    requires where.Some? ==> Unstopped(where.value, SelectStops)
    ensures DecodeClauses(SplitAll(' ', Keyed("WHERE", where)) + (Keyed("LIMIT", IntText(limit)) + Keyed("OFFSET", IntText(offset))))
         == Some((where, limit, offset))
  {
    var c3 := Keyed("OFFSET", IntText(offset));
    var c2 := Keyed("LIMIT", IntText(limit)) + c3;
    TakeConditionBack(where, c2, SelectStops);
    TakeKeyedBack("OFFSET", IntText(offset), []);
    assert c3 + [] == c3;
    TakeKeyedBack("LIMIT", IntText(limit), c3);
    ParseOptIntText(limit);
    ParseOptIntText(offset);
  }

  lemma DecodeSelectWords(table: string, columnList: string, distinct: bool,
                          where: Option<string>, limit: Option<int>, offset: Option<int>)
    requires columnList != "DISTINCT"
    requires where.Some? ==> Unstopped(where.value, SelectStops)
    ensures SelectOfWords(["SELECT"] + (if distinct then ["DISTINCT"] else []) + [columnList, "FROM", table]
              + (SplitAll(' ', Keyed("WHERE", where)) + (Keyed("LIMIT", IntText(limit)) + Keyed("OFFSET", IntText(offset)))))
         == Some(Query(table, DecodeColumns(columnList), distinct, where, limit, offset))
  {
    var d: seq<string> := if distinct then ["DISTINCT"] else [];
    var c1 := SplitAll(' ', Keyed("WHERE", where)) + (Keyed("LIMIT", IntText(limit)) + Keyed("OFFSET", IntText(offset)));
    var r := [columnList, "FROM", table] + c1;
    var w := ["SELECT"] + d + [columnList, "FROM", table] + c1;
    assert w == ["SELECT"] + (d + r);
    assert w[1..] == d + r;
    TakeDistinct(distinct, r);
    assert r[3..] == c1;
    TakeClauses(where, limit, offset);
  }

  /** Reading a select statement gives back the table, the columns (none for `*`), the
      DISTINCT flag, and exactly the WHERE, LIMIT and OFFSET arguments that were given, a
      limit of 0 included, whatever spaces the condition holds, as long as no word of it is
      LIMIT or OFFSET. */
  lemma SelectRoundTrip(table: string, cols: seq<string>, distinct: bool, where: Option<string>,
                        limit: Option<int>, offset: Option<int>)
    requires IsName(table) && PlainColumns(cols)
    requires where.Some? ==> Unstopped(where.value, SelectStops)
    ensures DecodeSelect(SelectSql(table, cols, distinct, where, limit, offset)) ==
      Some(Query(table, cols, distinct, where, limit, offset))
  {
    var cl := ColumnList(cols);
    var w := SelectWords(table, cl, distinct, where, limit, offset);
    ColumnListWord(cols);
    SelectSqlWords(table, cols, distinct, where, limit, offset);
    StmtReads(w);
    SelectReads(table, cl, distinct, where, limit, offset);
    DecodeSelectWords(table, cl, distinct, where, limit, offset);
  }

  /** The WHERE text is pasted as it is: a condition ending in its own LIMIT clause yields the
      same statement as the bare condition with a limit argument, so no reader can tell the
      two calls apart, and such a condition is exactly one the round trip above excludes. */
  lemma WhereIsVerbatim(table: string, cols: seq<string>, distinct: bool, w: string, n: int)
    ensures SelectSql(table, cols, distinct, Some(w + " LIMIT " + IntToString(n)), None, None)
         == SelectSql(table, cols, distinct, Some(w), Some(n), None)
    ensures !Unstopped(w + " LIMIT " + IntToString(n), SelectStops)
  {
    var h := "SELECT " + (if distinct then "DISTINCT " else "") + ColumnList(cols) + " FROM " + table;
    assert h + " WHERE " + (w + " LIMIT " + IntToString(n)) == h + " WHERE " + w + " LIMIT " + IntToString(n);
    var num := IntToString(n);
    assert w + " LIMIT " + num == w + [' '] + ("LIMIT" + [' '] + num);
    SplitConcat(' ', w, "LIMIT" + [' '] + num);
    SplitConcat(' ', "LIMIT", num);
    KeywordsSpaceless(["LIMIT"]);
    SplitNoSeparator(' ', "LIMIT");
    assert "LIMIT" in Split(' ', w + " LIMIT " + num);
  }

  /** An optional WHERE clause between texts without `%`: only the condition is formatted. */
  lemma FormatClause(h: string, where: Option<string>, t: string)
    requires '%' !in h && '%' !in t
    ensures Format(h + (if where.Some? then " WHERE " + where.value else "") + t) ==
      match FormatOpt(where)
      case None => None
      case Some(w) => Some(h + (if w.Some? then " WHERE " + w.value else "") + t)
  {
    if where.Some? {
      FormatCondition(h, where.value, t);
    } else {
      assert h + "" == h;
      FormatNoPercent(h + t);
    }
  }

  lemma FormatCondition(h: string, x: string, t: string)
    requires '%' !in h && '%' !in t
    ensures Format(h + (" WHERE " + x) + t) == if Format(x).Some? then Some(h + (" WHERE " + Format(x).value) + t) else None
  {
    LiteralsPercentFree();
    FormatAround(h + " WHERE ", x, t);
    Regroup(h, " WHERE ", x);
    if Format(x).Some? {
      Regroup(h, " WHERE ", Format(x).value);
    }
  }

  /** The driver's formatting pass touches only the condition of a select: the names and
      numbers around it hold no `%`. */
  lemma FormatSelect(table: string, cols: seq<string>, distinct: bool, where: Option<string>,
                     limit: Option<int>, offset: Option<int>)
    requires IsName(table) && PlainColumns(cols)
    ensures Format(SelectSql(table, cols, distinct, where, limit, offset)) ==
      match FormatOpt(where)
      case None => None
      case Some(w) => Some(SelectSql(table, cols, distinct, w, limit, offset))
  {
    var h := "SELECT " + (if distinct then "DISTINCT " else "") + ColumnList(cols) + " FROM " + table;
    var t := (if limit.Some? then " LIMIT " + IntToString(limit.value) else "")
           + (if offset.Some? then " OFFSET " + IntToString(offset.value) else "") + ";";
    SelectPercentFree(table, cols, distinct, limit, offset);
    FormatClause(h, where, t);
    SelectSqlParts(table, cols, distinct, where, limit, offset);
    if FormatOpt(where).Some? {
      SelectSqlParts(table, cols, distinct, FormatOpt(where).value, limit, offset);
    }
  }

  /** `_select_sql` as its head, its condition and its tail. */
  lemma SelectSqlParts(table: string, cols: seq<string>, distinct: bool, where: Option<string>,
                       limit: Option<int>, offset: Option<int>)
    ensures SelectSql(table, cols, distinct, where, limit, offset)
      == ("SELECT " + (if distinct then "DISTINCT " else "") + ColumnList(cols) + " FROM " + table)
       + (if where.Some? then " WHERE " + where.value else "")
       + ((if limit.Some? then " LIMIT " + IntToString(limit.value) else "")
       + (if offset.Some? then " OFFSET " + IntToString(offset.value) else "") + ";")
  {
    SelectSqlShape(table, cols, distinct, where, limit, offset);
  }

  /** The parts of a select around its condition hold no `%`. */
  lemma SelectPercentFree(table: string, cols: seq<string>, distinct: bool, limit: Option<int>, offset: Option<int>)
    requires IsName(table) && PlainList(cols)
    ensures '%' !in "SELECT " + (if distinct then "DISTINCT " else "") + ColumnList(cols) + " FROM " + table
    ensures '%' !in (if limit.Some? then " LIMIT " + IntToString(limit.value) else "")
           + (if offset.Some? then " OFFSET " + IntToString(offset.value) else "") + ";"
  {
    LiteralsPercentFree();
    ColumnListPercentFree(cols);
    OptNumberPercentFree(" LIMIT ", limit);
    OptNumberPercentFree(" OFFSET ", offset);
  }

  /** The fixed texts of the statements hold no `%`. */
  lemma LiteralsPercentFree()
    ensures '%' !in "SELECT " && '%' !in "DISTINCT " && '%' !in " FROM " && '%' !in " WHERE "
    ensures '%' !in " LIMIT " && '%' !in " OFFSET " && '%' !in ";" && '%' !in ");"
    ensures '%' !in "INSERT INTO " && '%' !in " (" && '%' !in ") VALUES ("
    ensures '%' !in "UPDATE " && '%' !in " SET " && '%' !in "DELETE FROM " && '%' !in "="
  {
  }

  lemma ColumnListPercentFree(cols: seq<string>)
    requires PlainList(cols)
    ensures '%' !in ColumnList(cols)
  {
    JoinChars(",", cols, '%');
  }

  /** A number clause holds no `%`. */
  lemma OptNumberPercentFree(lit: string, v: Option<int>)
    requires '%' !in lit
    ensures '%' !in (if v.Some? then lit + IntToString(v.value) else "")
  {
    if v.Some? {
      IntToStringChars(v.value);
    }
  }

  // ---------------------------------------------------------------------------
  // INSERT

  /** The keyword arguments of a call, in call order. */
  type Record = seq<(string, Value)>

  function RecordKeys(r: Record): (ks: seq<string>)
    ensures |ks| == |r|
    ensures forall i :: 0 <= i < |r| ==> ks[i] == r[i].0
  {
    seq(|r|, i requires 0 <= i < |r| => r[i].0)
  }

  function RecordTexts(r: Record): (ts: seq<string>)
    ensures |ts| == |r|
    ensures forall i :: 0 <= i < |r| ==> ts[i] == Str(r[i].1)
  {
    seq(|r|, i requires 0 <= i < |r| => Str(r[i].1))
  }

  /** `_insert_sql`'s text for given column names and value texts. */
  function InsertText(table: string, keys: seq<string>, texts: seq<string>): string {
    "INSERT INTO " + table + " (" + Join(",", keys) + ") VALUES (" + Join(",", texts) + ");"
  }

  /** `_insert_sql`: column names and `str()` of the values, in the same order, unquoted. */
  function InsertSql(table: string, record: Record): string {
    InsertText(table, RecordKeys(record), RecordTexts(record))
  }

  function InsertWords(table: string, keys: string, values: string): seq<string> {
    ["INSERT", "INTO", table, Parens(keys), "VALUES", Parens(values)]
  }

  lemma InsertTextWords(table: string, k: string, v: string)
    ensures Stmt(InsertWords(table, k, v)) == "INSERT INTO " + table + " (" + k + ") VALUES (" + v + ");"
  {
    var head := ["INTO", table];
    var tail := [Parens(k), "VALUES", Parens(v)];
    assert InsertWords(table, k, v) == ["INSERT"] + (head + tail);
    StmtHead("INSERT", head + tail);
    PrefixedAppend(head, tail);
    assert Prefixed(head) == " " + "INTO" + (" " + table) by {
      assert head[1..] == [table];
      assert [table][1..] == [];
    }
    PrefixedFixed(Parens(k), "VALUES", Parens(v));
    InsertGlue("INSERT", "INTO", " ", "(", ")", "VALUES", ";", table, k, v);
    assert "INSERT" + " " + "INTO" + " " == "INSERT INTO ";
    assert " " + "(" == " (";
    assert ")" + " " + "VALUES" + " " + "(" == ") VALUES (";
    assert ")" + ";" == ");";
  }

  /** The regrouping behind `InsertText`, over abstract pieces. */
  lemma InsertGlue(ins: string, into: string, sp: string, op: string, cl: string, vals: string, semi: string,
                   table: string, k: string, v: string)
    ensures ins + (sp + into + (sp + table) + (sp + (op + k + cl) + sp + vals + sp + (op + v + cl))) + semi
         == (ins + sp + into + sp) + table + (sp + op) + k + (cl + sp + vals + sp + op) + v + (cl + semi)
  {
  }

  /** What a reader of an insert statement can tell about it. */
  datatype Insertion = Insertion(table: string, columns: seq<string>, values: seq<string>)

  /** The value list is everything after `VALUES`, spaces included, read value by value. */
  function InsertOfWords(w: seq<string>): Option<Insertion> {
    if |w| < 6 || w[0] != "INSERT" || w[1] != "INTO" || w[4] != "VALUES" then None
    else
      match (Unparen(w[3]), Unparen(Join(" ", w[5..])))
      case (Some(k), Some(v)) =>
        (match ReadValues(v)
         case None => None
         case Some(vs) => Some(Insertion(w[2], ListOf(k), vs)))
      case _ => None
  }

  function DecodeInsert(sql: string): Option<Insertion> {
    match StmtWords(sql)
    case None => None
    case Some(w) => InsertOfWords(w)
  }

  /** Column names that read back from a comma-joined word and value texts the server
      delimits exactly. */
  predicate PlainRecord(record: Record) {
    PlainList(RecordKeys(record)) && Readable(RecordTexts(record))
  }

  /** An insert's words as a reader sees them: the value list falls apart at its spaces. */
  lemma InsertReads(table: string, k: string, v: string)
    requires IsName(table) && ' ' !in k
    ensures SplitAll(' ', InsertWords(table, k, v)) == ["INSERT", "INTO", table, Parens(k), "VALUES"] + Split(' ', Parens(v))
  {
    var head := ["INSERT", "INTO", table, Parens(k), "VALUES"];
    assert InsertWords(table, k, v) == head + [Parens(v)];
    KeywordsSpaceless(["INSERT", "INTO", "VALUES"]);
    assert ' ' !in Parens(k);
    assert AllSpaceless(head);
    SplitAllAppend(' ', head, [Parens(v)]);
    SplitAllWhole(' ', head);
    assert [Parens(v)][1..] == [];
    assert Split(' ', Parens(v)) + [] == Split(' ', Parens(v));
  }

  lemma InsertOfWordsRead(table: string, k: string, v: string)
    ensures InsertOfWords(["INSERT", "INTO", table, Parens(k), "VALUES"] + Split(' ', Parens(v))) ==
      match ReadValues(v)
      case None => None
      case Some(vs) => Some(Insertion(table, ListOf(k), vs))
  {
    var w := ["INSERT", "INTO", table, Parens(k), "VALUES"] + Split(' ', Parens(v));
    assert w[5..] == Split(' ', Parens(v));
    JoinSplit(' ', Parens(v));
    UnparenParens(k);
    UnparenParens(v);
  }

  /** Reading an insert statement gives back the table, the column names and the value
      texts, in order and with equal counts. */
  lemma InsertTextRoundTrip(table: string, keys: seq<string>, texts: seq<string>)
    requires IsName(table) && PlainList(keys) && Readable(texts)
    ensures DecodeInsert(InsertText(table, keys, texts)) == Some(Insertion(table, keys, texts))
  {
    var k := Join(",", keys);
    var v := Join(",", texts);
    InsertTextWords(table, k, v);
    ListOfJoin(keys);
    StmtReads(InsertWords(table, k, v));
    InsertReads(table, k, v);
    InsertOfWordsRead(table, k, v);
    ReadValuesJoin(texts);
  }

  /** Reading an insert statement gives back the table, the column names and the value
      texts, in the record's order and with equal counts. */
  lemma InsertRoundTrip(table: string, record: Record)
    requires IsName(table) && PlainRecord(record)
    ensures DecodeInsert(InsertSql(table, record)) ==
      Some(Insertion(table, RecordKeys(record), RecordTexts(record)))
  {
    InsertTextRoundTrip(table, RecordKeys(record), RecordTexts(record));
  }

  /** The record as the server receives it: every value's text passed through the driver's
      formatting, or nothing when that fails for any value. */
  function FormatRecord(r: Record): (f: Option<Record>)
    ensures f.Some? <==> FormatAll(RecordTexts(r)).Some?
    ensures f.Some? ==> RecordKeys(f.value) == RecordKeys(r)
    ensures f.Some? ==> RecordTexts(f.value) == FormatAll(RecordTexts(r)).value
  {
    match FormatAll(RecordTexts(r))
    case None => None
    case Some(ts) =>
      var g: Record := seq(|r|, i requires 0 <= i < |r| => (r[i].0, PyStr(ts[i])));
      assert RecordKeys(g) == RecordKeys(r);
      assert forall i :: 0 <= i < |g| ==> Str(g[i].1) == ts[i];
      assert RecordTexts(g) == ts;
      Some(g)
  }

  /** The driver's formatting pass touches only the value texts of an insert. */
  lemma FormatInsert(table: string, record: Record)
    requires IsName(table) && PlainList(RecordKeys(record))
    ensures Format(InsertSql(table, record)) ==
      if FormatRecord(record).Some? then Some(InsertSql(table, FormatRecord(record).value)) else None
  {
    var keys, texts := RecordKeys(record), RecordTexts(record);
    var h := "INSERT INTO " + table + " (" + Join(",", keys) + ") VALUES (";
    InsertHeadPercentFree(table, keys);
    FormatAround(h, Join(",", texts), ");");
    FormatJoin(",", texts);
  }

  lemma InsertHeadPercentFree(table: string, keys: seq<string>)
    requires IsName(table) && PlainList(keys)
    ensures '%' !in "INSERT INTO " + table + " (" + Join(",", keys) + ") VALUES ("
  {
    JoinChars(",", keys, '%');
    LiteralsPercentFree();
  }

  // ---------------------------------------------------------------------------
  // UPDATE

  function Assignments(columns: Record): (r: seq<string>)
    ensures |r| == |columns|
    ensures forall i :: 0 <= i < |columns| ==> r[i] == columns[i].0 + "=" + Str(columns[i].1)
  {
    seq(|columns|, i requires 0 <= i < |columns| => columns[i].0 + "=" + Str(columns[i].1))
  }

  /** `_update_sql`: `SET k=v,...` in the record's order; no WHERE means every row. */
  function UpdateSql(table: string, where: Option<string>, columns: Record): string {
    var sql := "UPDATE " + table + " SET " + Join(",", Assignments(columns));
    var sql := if where.Some? then sql + " WHERE " + where.value else sql;
    sql + ";"
  }

  function UpdateWords(table: string, where: Option<string>, assignments: string): seq<string> {
    ["UPDATE", table, "SET", assignments] + Keyed("WHERE", where)
  }

  lemma UpdateText(table: string, where: Option<string>, a: string)
    ensures Stmt(UpdateWords(table, where, a)) ==
      "UPDATE " + table + " SET " + a + (if where.Some? then " WHERE " + where.value else "") + ";"
  {
    var k := Keyed("WHERE", where);
    assert UpdateWords(table, where, a) == ["UPDATE"] + ([table, "SET", a] + k);
    StmtHead("UPDATE", [table, "SET", a] + k);
    UpdateTail(table, a, where);
  }

  lemma UpdateTail(table: string, a: string, where: Option<string>)
    ensures Prefixed([table, "SET", a] + Keyed("WHERE", where)) ==
      " " + table + " SET " + a + (if where.Some? then " WHERE " + where.value else "")
  {
    PrefixedAppend([table, "SET", a], Keyed("WHERE", where));
    PrefixedFixed(table, "SET", a);
    PrefixedKeyed("WHERE", where);
  }

  lemma UpdateSqlWords(table: string, where: Option<string>, columns: Record)
    ensures UpdateSql(table, where, columns) == Stmt(UpdateWords(table, where, Join(",", Assignments(columns))))
  {
    UpdateText(table, where, Join(",", Assignments(columns)));
  }

  /** What a reader of an update statement can tell about it. */
  datatype Change = Change(table: string, assignments: seq<(string, string)>, where: Option<string>)

  /** The `(column, value text)` pairs of a non-empty `SET` list: a column runs to its `=`,
      its value as the server delimits it. */
  function ReadPairItems(t: string): Option<seq<(string, string)>>
    decreases |t|
  {
    match SplitFirst('=', t)
    case None => None
    case Some(kv) =>
      match ReadValue(kv.1)
      case None => None
      case Some(p) =>
        if p.1 == "" then Some([(kv.0, p.0)])
        else if p.1[0] == ',' then
          match ReadPairItems(p.1[1..])
          case None => None
          case Some(rest) => Some([(kv.0, p.0)] + rest)
        else None
  }

  function ReadPairs(t: string): Option<seq<(string, string)>> {
    if t == "" then Some([]) else ReadPairItems(t)
  }

  /** The words that stop a `SET` list. */
  const UpdateStops: set<string> := {"WHERE"}

  /** The `SET` list is every word up to `WHERE`, rejoined by spaces. */
  function UpdateOfWords(w: seq<string>): Option<Change> {
    if |w| < 4 || w[0] != "UPDATE" || w[2] != "SET" then None
    else
      var r := w[3..];
      var n := Before(r, UpdateStops);
      var wh := TakeCondition(r[n..], {});
      if wh.1 != [] then None
      else
        match ReadPairs(Join(" ", r[..n]))
        case None => None
        case Some(a) => Some(Change(w[1], a, wh.0))
  }

  function DecodeUpdate(sql: string): Option<Change> {
    match StmtWords(sql)
    case None => None
    case Some(w) => UpdateOfWords(w)
  }

  function AssignedPairs(columns: Record): (r: seq<(string, string)>)
    ensures |r| == |columns|
    ensures forall i :: 0 <= i < |columns| ==> r[i] == (columns[i].0, Str(columns[i].1))
  {
    seq(|columns|, i requires 0 <= i < |columns| => (columns[i].0, Str(columns[i].1)))
  }

  /** A column name a `SET` list reads back: a name without `=` or commas. */
  predicate AssignableKey(k: string) {
    IsName(k) && '=' !in k && ',' !in k
  }

  /** Columns and values an update statement reads back from: names without `=` or commas,
      value texts the server delimits exactly, and no word `WHERE` in the `SET` list. */
  predicate PlainAssignments(columns: Record) {
    && (forall i :: 0 <= i < |columns| ==> AssignableKey(columns[i].0) && ValueText(Str(columns[i].1)))
    && Unstopped(Join(",", Assignments(columns)), UpdateStops)
  }

  lemma {:induction false} ReadPairItemsJoin(columns: Record)
    requires |columns| >= 1
    requires forall i :: 0 <= i < |columns| ==> AssignableKey(columns[i].0) && ValueText(Str(columns[i].1))
    ensures ReadPairItems(Join(",", Assignments(columns))) == Some(AssignedPairs(columns))
    decreases |columns|
  {
    var a := Assignments(columns);
    var k, v := columns[0].0, Str(columns[0].1);
    var rest := if |columns| == 1 then "" else "," + Join(",", a[1..]);
    assert Join(",", a) == a[0] + rest;
    ReadPairItemsCons(k, v, rest);
    if |columns| > 1 {
      var tail := columns[1..];
      assert forall i :: 0 <= i < |tail| ==> tail[i] == columns[i + 1];
      ReadPairItemsJoin(tail);
      assert a[1..] == Assignments(tail);
      assert AssignedPairs(columns) == [(k, v)] + AssignedPairs(tail);
    } else {
      assert AssignedPairs(columns) == [(k, v)];
    }
  }

  /** One assignment, then nothing or a comma and more. */
  lemma ReadPairItemsCons(k: string, v: string, rest: string)
    requires AssignableKey(k) && ValueText(v)
    requires rest == "" || rest[0] == ','
    ensures ReadPairItems(k + "=" + v + rest) ==
      if rest == "" then Some([(k, v)])
      else match ReadPairItems(rest[1..])
        case None => None
        case Some(ps) => Some([(k, v)] + ps)
  {
    assert k + "=" + v + rest == k + ['='] + (v + rest);
    SplitFirstAt('=', k, v + rest);
    ReadValueText(v, rest);
  }

  lemma ReadPairsJoin(columns: Record)
    requires forall i :: 0 <= i < |columns| ==> AssignableKey(columns[i].0) && ValueText(Str(columns[i].1))
    ensures ReadPairs(Join(",", Assignments(columns))) == Some(AssignedPairs(columns))
  {
    if |columns| > 0 {
      ReadPairItemsJoin(columns);
      var a := Assignments(columns);
      JoinEmpty(",", a);
      assert a[0] == columns[0].0 + "=" + Str(columns[0].1);
      assert |a[0]| > 0;
    }
  }

  /** An update's words as a reader sees them. */
  lemma UpdateReads(table: string, where: Option<string>, a: string)
    requires IsName(table)
    ensures SplitAll(' ', UpdateWords(table, where, a))
         == ["UPDATE", table, "SET"] + (Split(' ', a) + SplitAll(' ', Keyed("WHERE", where)))
  {
    var head := ["UPDATE", table, "SET"];
    var kw := Keyed("WHERE", where);
    assert UpdateWords(table, where, a) == head + ([a] + kw);
    KeywordsSpaceless(["UPDATE", "SET"]);
    assert AllSpaceless(head);
    SplitAllAppend(' ', head, [a] + kw);
    SplitAllWhole(' ', head);
    SplitAllAppend(' ', [a], kw);
    assert [a][1..] == [];
    assert Split(' ', a) + [] == Split(' ', a);
  }

  lemma UpdateWordsRead(table: string, where: Option<string>, a: string)
    requires IsName(table) && Unstopped(a, UpdateStops)
    ensures UpdateOfWords(SplitAll(' ', UpdateWords(table, where, a))) ==
      match ReadPairs(a)
      case None => None
      case Some(ps) => Some(Change(table, ps, where))
  {
    var parts := Split(' ', a);
    var kw := SplitAll(' ', Keyed("WHERE", where));
    UpdateReads(table, where, a);
    var w := ["UPDATE", table, "SET"] + (parts + kw);
    var r := w[3..];
    assert r == parts + kw;
    assert |w| >= 4 && w[0] == "UPDATE" && w[1] == table && w[2] == "SET";
    UpdateBodyRead(parts, where);
    var n := Before(r, UpdateStops);
    assert r[..n] == parts && TakeCondition(r[n..], {}) == (where, []);
    JoinSplit(' ', a);
    assert UpdateOfWords(w) == match ReadPairs(Join(" ", parts)) case None => None case Some(ps) => Some(Change(table, ps, where));
  }

  /** After `SET`, the assignment words run to `WHERE`, and the condition to the end. */
  lemma UpdateBodyRead(parts: seq<string>, where: Option<string>)
    requires forall p :: p in parts ==> p !in UpdateStops
    ensures var kw := SplitAll(' ', Keyed("WHERE", where)); var r := parts + kw;
      && Before(r, UpdateStops) == |parts| && r[..|parts|] == parts
      && TakeCondition(r[|parts|..], {}) == (where, [])
  {
    var kw := SplitAll(' ', Keyed("WHERE", where));
    ConditionWords(where);
    BeforeAppend(parts, kw, UpdateStops);
    assert (parts + kw)[..|parts|] == parts;
    assert (parts + kw)[|parts|..] == kw + [];
    TakeConditionBack(where, [], {});
  }

  /** Reading an update statement gives back the table, every `(column, value text)` pair
      in the record's order, and the WHERE text exactly when one was given, whatever spaces
      it holds. */
  lemma UpdateRoundTrip(table: string, where: Option<string>, columns: Record)
    requires IsName(table) && PlainAssignments(columns)
    ensures DecodeUpdate(UpdateSql(table, where, columns)) ==
      Some(Change(table, AssignedPairs(columns), where))
  {
    var a := Join(",", Assignments(columns));
    UpdateSqlWords(table, where, columns);
    StmtReads(UpdateWords(table, where, a));
    UpdateWordsRead(table, where, a);
    ReadPairsJoin(columns);
  }

  /** Formatting each assignment formats its value text. */
  lemma FormatAssignments(columns: Record)
    requires forall i :: 0 <= i < |columns| ==> AssignableKey(columns[i].0)
    ensures FormatAll(Assignments(columns)) ==
      if FormatRecord(columns).Some? then Some(Assignments(FormatRecord(columns).value)) else None
  {
    var a := Assignments(columns);
    forall i | 0 <= i < |columns|
      ensures Format(a[i]) == if Format(Str(columns[i].1)).Some?
        then Some(columns[i].0 + "=" + Format(Str(columns[i].1)).value) else None
    {
      FormatAround(columns[i].0 + "=", Str(columns[i].1), "");
      assert a[i] == columns[i].0 + "=" + Str(columns[i].1) + "";
      if Format(Str(columns[i].1)).Some? {
        assert columns[i].0 + "=" + Format(Str(columns[i].1)).value + "" == columns[i].0 + "=" + Format(Str(columns[i].1)).value;
      }
    }
    if FormatRecord(columns).Some? {
      var g := FormatRecord(columns).value;
      var fa := Assignments(g);
      forall i | 0 <= i < |a|
        ensures Format(a[i]) == Some(fa[i])
      {
        assert RecordKeys(g)[i] == RecordKeys(columns)[i];
        assert RecordTexts(g)[i] == FormatAll(RecordTexts(columns)).value[i];
      }
      FormatAllEach(a, fa);
    } else {
      var j :| 0 <= j < |columns| && Format(RecordTexts(columns)[j]).None?;
      assert Format(a[j]).None?;
    }
  }

  /** The driver's formatting pass touches only the value texts and the condition of an
      update. */
  lemma FormatUpdate(table: string, where: Option<string>, columns: Record)
    requires IsName(table)
    requires forall i :: 0 <= i < |columns| ==> AssignableKey(columns[i].0)
    ensures Format(UpdateSql(table, where, columns)) ==
      if FormatRecord(columns).Some? && FormatOpt(where).Some?
      then Some(UpdateSql(table, FormatOpt(where).value, FormatRecord(columns).value))
      else None
  {
    var h := "UPDATE " + table + " SET ";
    var a := Join(",", Assignments(columns));
    var wt := (if where.Some? then " WHERE " + where.value else "") + ";";
    UpdateSqlParts(table, where, columns);
    LiteralsPercentFree();
    FormatThree(h, a, wt);
    FormatJoin(",", Assignments(columns));
    FormatAssignments(columns);
    FormatClause("", where, ";");
    assert "" + (if where.Some? then " WHERE " + where.value else "") == (if where.Some? then " WHERE " + where.value else "");
    if FormatRecord(columns).Some? && FormatOpt(where).Some? {
      var g := FormatRecord(columns).value;
      var fw := FormatOpt(where).value;
      assert "" + (if fw.Some? then " WHERE " + fw.value else "") == (if fw.Some? then " WHERE " + fw.value else "");
      UpdateSqlParts(table, fw, g);
    }
  }

  /** `_update_sql` as its head, its `SET` list and its tail. */
  lemma UpdateSqlParts(table: string, where: Option<string>, columns: Record)
    ensures UpdateSql(table, where, columns) == ("UPDATE " + table + " SET ")
      + (Join(",", Assignments(columns)) + ((if where.Some? then " WHERE " + where.value else "") + ";"))
  {
  }

  /** A text without `%`, a formatted part, and a tail that does not open with `%`. */
  lemma FormatThree(h: string, a: string, t: string)
    requires '%' !in h
    requires |t| == 0 || t[0] != '%'
    ensures Format(h + (a + t)) == Then(Some(h), Then(Format(a), Format(t)))
  {
    FormatNoPercent(h);
    FormatAppend(a, t);
    FormatAppend(h, a + t);
  }

  // ---------------------------------------------------------------------------
  // DELETE

  /** `_delete_sql`: no WHERE means every row. */
  function DeleteSql(table: string, where: Option<string>): string {
    var sql := "DELETE FROM " + table;
    var sql := if where.Some? then sql + " WHERE " + where.value else sql;
    sql + ";"
  }

  function DeleteWords(table: string, where: Option<string>): seq<string> {
    ["DELETE", "FROM", table] + Keyed("WHERE", where)
  }

  lemma DeleteSqlWords(table: string, where: Option<string>)
    ensures DeleteSql(table, where) == Stmt(DeleteWords(table, where))
  {
    var k := Keyed("WHERE", where);
    var c := if where.Some? then " WHERE " + where.value else "";
    assert DeleteWords(table, where) == ["DELETE"] + (["FROM", table] + k);
    StmtHead("DELETE", ["FROM", table] + k);
    PrefixedAppend(["FROM", table], k);
    PrefixedPair("FROM", table);
    ClauseWords();
    KeyedClause("WHERE", " WHERE ", where);
    DeleteWord();
    assert Stmt(DeleteWords(table, where)) == "DELETE" + (" " + "FROM" + " " + table + c) + ";";
    DeleteGlue("DELETE", " " + "FROM" + " ", table, c);
    assert Stmt(DeleteWords(table, where)) == "DELETE FROM " + table + c + ";";
    AppendOpt("DELETE FROM " + table, where, " WHERE ");
  }

  lemma DeleteWord()
    ensures "DELETE" + (" " + "FROM" + " ") == "DELETE FROM "
  {
  }

  lemma PrefixedPair(a: string, b: string)
    ensures Prefixed([a, b]) == " " + a + " " + b
  {
    assert [a, b][1..] == [b];
    assert [b][1..] == [];
    assert Prefixed([b]) == " " + b;
    assert Prefixed([a, b]) == " " + a + (" " + b);
  }

  lemma DeleteGlue(kw: string, from: string, table: string, c: string)
    ensures kw + (from + table + c) + ";" == kw + from + table + c + ";"
  {
  }

  function DeleteOfWords(w: seq<string>): Option<(string, Option<string>)> {
    if |w| < 3 || w[0] != "DELETE" || w[1] != "FROM" then None
    else
      var wh := TakeCondition(w[3..], {});
      if wh.1 != [] then None else Some((w[2], wh.0))
  }

  function DecodeDelete(sql: string): Option<(string, Option<string>)> {
    match StmtWords(sql)
    case None => None
    case Some(w) => DeleteOfWords(w)
  }

  /** Reading a delete statement gives back the table and the WHERE text exactly when one
      was given, whatever spaces it holds. */
  lemma DeleteRoundTrip(table: string, where: Option<string>)
    requires IsName(table)
    ensures DecodeDelete(DeleteSql(table, where)) == Some((table, where))
  {
    var w := DeleteWords(table, where);
    DeleteSqlWords(table, where);
    StmtReads(w);
    DeleteReads(table, where);
    var r := ["DELETE", "FROM", table] + SplitAll(' ', Keyed("WHERE", where));
    assert r[3..] == SplitAll(' ', Keyed("WHERE", where)) + [];
    TakeConditionBack(where, [], {});
  }

  /** A delete's words as a reader sees them. */
  lemma DeleteReads(table: string, where: Option<string>)
    requires IsName(table)
    ensures SplitAll(' ', DeleteWords(table, where)) == ["DELETE", "FROM", table] + SplitAll(' ', Keyed("WHERE", where))
  {
    var head := ["DELETE", "FROM", table];
    KeywordsSpaceless(["DELETE", "FROM"]);
    assert AllSpaceless(head);
    SplitAllAppend(' ', head, Keyed("WHERE", where));
    SplitAllWhole(' ', head);
  }

  /** The driver's formatting pass touches only the condition of a delete. */
  lemma FormatDelete(table: string, where: Option<string>)
    requires IsName(table)
    ensures Format(DeleteSql(table, where)) ==
      match FormatOpt(where)
      case None => None
      case Some(w) => Some(DeleteSql(table, w))
  {
    var h := "DELETE FROM " + table;
    LiteralsPercentFree();
    FormatClause(h, where, ";");
    AppendOpt(h, where, " WHERE ");
    if FormatOpt(where).Some? {
      AppendOpt(h, FormatOpt(where).value, " WHERE ");
    }
  }
}
