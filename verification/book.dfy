/** The book record of server/src/model/v1/book.py: the rewrite that flattens the catalogue
    API's JSON into the record's shape before validation, the quoting every text field
    receives after validation, and the table's column declaration. */
module Book {
  import opened Wrappers
  import opened Strings
  import opened OrderedDict
  import opened Py
  import opened Kinds
  import SqlTypes
  import Schema
  import opened Sql

  // ---------------------------------------------------------------------------
  // The rewrite before validation

  /** A decoded JSON value; numbers keep their text. Objects remember key order. */
  datatype Json =
    | JNull
    | JBool(b: bool)
    | JNum(repr: string)
    | JStr(s: string)
    | JList(items: seq<Json>)
    | JObject(fields: Dict<string, Json>)

  /** `",".join(...)` of a value that is not an iterable of strings. */
  datatype RewriteError = TypeError

  /** The fields whose lists are joined, in the order they are rewritten. */
  const JoinedFields: seq<string> := ["author", "price", "translator", "press", "pages"]

  /** The fields the rewrite touches. */
  const RewrittenFields: set<string> := {"rating", "pic", "author", "price", "translator", "press", "pages", "tag"}

  /** What the rating or picture field becomes: the object's sub-entry when the field is an
      object holding it, the default otherwise. */
  function Lifted(d: Dict<string, Json>, field: string, sub: string, default: Json): Json {
    if field in d.items && d.items[field].JObject? && sub in d.items[field].fields.items
    then d.items[field].fields.items[sub] else default
  }

  /** `convert_field_to_sub_field(field, sub_field, default)`: an object is replaced by its
      `sub_field` entry (or the default when that is missing); anything else, or nothing,
      by the default. The field keeps its place, or is added last. */
  function Lift(d: Dict<string, Json>, field: string, sub: string, default: Json): (r: Dict<string, Json>)
    requires Valid(d)
    ensures Valid(r)
    ensures r.items == d.items[field := Lifted(d, field, sub, default)]
  {
    if field in d.items && d.items[field].JObject? then
      Put(d, field, Get(d.items[field].fields, sub).GetOr(default))
    else Put(d, field, default)
  }

  /** `",".join(v)`: a list of strings joins its elements, a string its characters and an
      object its keys; anything else raises TypeError. */
  function JoinText(v: Json): Option<string> {
    match v
    case JList(items) =>
      if forall i :: 0 <= i < |items| ==> items[i].JStr? then
        Some(Join(",", seq(|items|, i requires 0 <= i < |items| && items[i].JStr? => items[i].s)))
      else None
    case JStr(s) => Some(Join(",", seq(|s|, i requires 0 <= i < |s| => [s[i]])))
    case JObject(o) => Some(Join(",", o.keys))
    case _ => None
  }

  /** `data.get(field, [])`. */
  function FieldOr(d: Dict<string, Json>, field: string): Json {
    if field in d.items then d.items[field] else JList([])
  }

  /** `data[field] = ",".join(data.get(field, []))` for each field in turn. */
  function JoinAll(d: Dict<string, Json>, fs: seq<string>): (r: Result<Dict<string, Json>, RewriteError>)
    requires Valid(d)
    ensures r.Ok? ==> Valid(r.value)
    decreases |fs|
  {
    if |fs| == 0 then Ok(d)
    else
      match JoinText(FieldOr(d, fs[0]))
      case None => Err(TypeError)
      case Some(t) => JoinAll(Put(d, fs[0], JStr(t)), fs[1..])
  }

  /** Joining distinct fields succeeds exactly when each original value is joinable. */
  lemma {:induction false} JoinAllSucceeds(d: Dict<string, Json>, fs: seq<string>)
    requires Valid(d) && Distinct(fs)
    ensures JoinAll(d, fs).Ok? <==> forall k :: k in fs ==> JoinText(FieldOr(d, k)).Some?
    decreases |fs|
  {
    if |fs| > 0 {
      var t := JoinText(FieldOr(d, fs[0]));
      if t.Some? {
        var d1 := Put(d, fs[0], JStr(t.value));
        JoinAllSucceeds(d1, fs[1..]);
        forall k | k in fs[1..]
          ensures FieldOr(d1, k) == FieldOr(d, k)
        {
          assert fs[0] !in fs[1..];
        }
        assert forall k :: k in fs <==> k == fs[0] || k in fs[1..];
      }
    }
  }

  /** After a successful join each field holds its joined text and every other key is left
      as it was. */
  lemma {:induction false} JoinAllValues(d: Dict<string, Json>, fs: seq<string>)
    requires Valid(d) && Distinct(fs) && JoinAll(d, fs).Ok?
    ensures var r := JoinAll(d, fs).value;
      && (forall k :: k in fs ==> k in r.items && JoinText(FieldOr(d, k)).Some?
                                  && r.items[k] == JStr(JoinText(FieldOr(d, k)).value))
      && (forall k :: k !in fs ==> (k in r.items <==> k in d.items))
      && (forall k :: k !in fs && k in d.items ==> r.items[k] == d.items[k])
    decreases |fs|
  {
    if |fs| > 0 {
      var t := JoinText(FieldOr(d, fs[0]));
      var d1 := Put(d, fs[0], JStr(t.value));
      JoinAllValues(d1, fs[1..]);
      var r := JoinAll(d, fs).value;
      assert r == JoinAll(d1, fs[1..]).value;
      assert fs[0] !in fs[1..];
      forall k | k in fs
        ensures k in r.items && JoinText(FieldOr(d, k)).Some? && r.items[k] == JStr(JoinText(FieldOr(d, k)).value)
      {
        if k != fs[0] {
          assert k in fs[1..];
          assert FieldOr(d1, k) == FieldOr(d, k);
        }
      }
      forall k | k !in fs
        ensures (k in r.items <==> k in d.items) && (k in d.items ==> r.items[k] == d.items[k])
      {
        assert k !in fs[1..] && k != fs[0];
      }
    }
  }

  /** The dictionary the joins start from: the rating and the picture lifted. */
  function Lifted2(d: Dict<string, Json>): (r: Dict<string, Json>)
    requires Valid(d)
    ensures Valid(r)
    ensures r.items == d.items["rating" := Lifted(d, "rating", "value", JNum("0.0"))]
                               ["pic" := Lifted(d, "pic", "normal", JStr(""))]
  {
    Lift(Lift(d, "rating", "value", JNum("0.0")), "pic", "normal", JStr(""))
  }

  /** `if "tag" not in data: data["tag"] = ""`. */
  function Tagged(d: Dict<string, Json>): (r: Dict<string, Json>)
    requires Valid(d)
    ensures Valid(r)
    ensures r.items == if "tag" in d.items then d.items else d.items["tag" := JStr("")]
  {
    if "tag" in d.items then d else Put(d, "tag", JStr(""))
  }

  /** `__convert_rating_and_pic`: a non-object passes through unchanged. */
  function Rewrite(data: Json): (r: Result<Json, RewriteError>)
    requires data.JObject? ==> Valid(data.fields)
    ensures r.Ok? && r.value.JObject? ==> Valid(r.value.fields)
  {
    if !data.JObject? then Ok(data)
    else
      match JoinAll(Lifted2(data.fields), JoinedFields)
      case Err(e) => Err(e)
      case Ok(d3) => Ok(JObject(Tagged(d3)))
  }

  /** One key after the joins. */
  lemma JoinAllAt(d: Dict<string, Json>, fs: seq<string>, k: string)
    requires Valid(d) && Distinct(fs) && JoinAll(d, fs).Ok?
    ensures k in fs ==> JoinText(FieldOr(d, k)).Some? && Get(JoinAll(d, fs).value, k) == Some(JStr(JoinText(FieldOr(d, k)).value))
    ensures k !in fs ==> Get(JoinAll(d, fs).value, k) == Get(d, k)
  {
    JoinAllValues(d, fs);
  }

  /** One key after the lifts. */
  lemma Lifted2At(d: Dict<string, Json>, k: string)
    requires Valid(d)
    ensures Get(Lifted2(d), k) ==
      if k == "pic" then Some(Lifted(d, "pic", "normal", JStr("")))
      else if k == "rating" then Some(Lifted(d, "rating", "value", JNum("0.0")))
      else Get(d, k)
  {
  }

  /** The joined fields are neither the rating, the picture nor the tag. */
  lemma JoinedFieldsApart()
    ensures Distinct(JoinedFields)
    ensures "rating" !in JoinedFields && "pic" !in JoinedFields && "tag" !in JoinedFields
    ensures forall k :: k in JoinedFields ==> k in RewrittenFields
  {
  }

  /** Every joined field is a list of strings, a string, an object or absent. */
  predicate Joinable(d: Dict<string, Json>) {
    forall k :: k in JoinedFields ==> JoinText(FieldOr(d, k)).Some?
  }

  /** The rewrite fails only on a joined field that is not joinable. */
  lemma RewriteSucceeds(d: Dict<string, Json>)
    requires Valid(d)
    ensures Rewrite(JObject(d)).Ok? <==> Joinable(d)
  {
    JoinedFieldsApart();
    JoinAllSucceeds(Lifted2(d), JoinedFields);
    forall k | k in JoinedFields
      ensures FieldOr(Lifted2(d), k) == FieldOr(d, k)
    {
      Lifted2At(d, k);
    }
  }

  /** When every joined field is joinable the rewrite succeeds: the rating and the picture
      are lifted out of their objects (with 0.0 and "" as defaults) and the tag is "" only
      when absent. */
  lemma RewriteLifts(d: Dict<string, Json>)
    requires Valid(d) && Joinable(d)
    ensures Rewrite(JObject(d)).Ok?
    ensures var r := Rewrite(JObject(d)).value;
      && r.JObject?
      && Get(r.fields, "rating") == Some(Lifted(d, "rating", "value", JNum("0.0")))
      && Get(r.fields, "pic") == Some(Lifted(d, "pic", "normal", JStr("")))
      && Get(r.fields, "tag") == Some(if "tag" in d.items then d.items["tag"] else JStr(""))
  {
    RewriteSucceeds(d);
    JoinedFieldsApart();
    var d3 := JoinAll(Lifted2(d), JoinedFields).value;
    assert Rewrite(JObject(d)).value.fields == Tagged(d3);
    JoinAllAt(Lifted2(d), JoinedFields, "rating");
    JoinAllAt(Lifted2(d), JoinedFields, "pic");
    JoinAllAt(Lifted2(d), JoinedFields, "tag");
    Lifted2At(d, "rating");
    Lifted2At(d, "pic");
    Lifted2At(d, "tag");
  }

  /** On success each joined field holds its `,`-joined text ("" when it was absent). */
  lemma RewriteJoins(d: Dict<string, Json>, k: string)
    requires Valid(d) && Joinable(d) && k in JoinedFields
    ensures Rewrite(JObject(d)).Ok?
    ensures var r := Rewrite(JObject(d)).value;
      && r.JObject?
      && JoinText(FieldOr(d, k)).Some?
      && Get(r.fields, k) == Some(JStr(JoinText(FieldOr(d, k)).value))
  {
    RewriteSucceeds(d);
    JoinedFieldsApart();
    var d3 := JoinAll(Lifted2(d), JoinedFields).value;
    assert Rewrite(JObject(d)).value.fields == Tagged(d3);
    JoinAllAt(Lifted2(d), JoinedFields, k);
    Lifted2At(d, k);
  }

  /** Every key the rewrite does not touch keeps its presence and its value. */
  lemma RewriteKeepsOthers(d: Dict<string, Json>, k: string)
    requires Valid(d) && Joinable(d) && k !in RewrittenFields
    ensures Rewrite(JObject(d)).Ok?
    ensures var r := Rewrite(JObject(d)).value;
      && r.JObject?
      && Get(r.fields, k) == Get(d, k)
  {
    RewriteSucceeds(d);
    JoinedFieldsApart();
    var d3 := JoinAll(Lifted2(d), JoinedFields).value;
    assert Rewrite(JObject(d)).value.fields == Tagged(d3);
    JoinAllAt(Lifted2(d), JoinedFields, k);
    Lifted2At(d, k);
  }

  lemma RewriteKeepsNonObjects(data: Json)
    requires !data.JObject?
    ensures Rewrite(data) == Ok(data)
  {
  }

  // ---------------------------------------------------------------------------
  // Quoting after validation

  /** The validator's rendering of one text field: `'` + the text with every `%` doubled + `'`.
      The apostrophes inside are left alone: `escape_string` is applied to the field's name,
      not to its value. */
  function Quote(s: string): string {
    "'" + DoublePercent(s) + "'"
  }

  /** The fields a book declares, in order. */
  const BookFields: seq<string> := ["rating", "pic", "intro", "author_intro", "card_subtitle", "id",
    "buylinks_url", "author", "price", "translator", "catalog", "press", "pages", "title", "tag"]

  /** `add_single_quote_to_str`: every field but `id` and `rating` becomes its quoted `str()`. */
  function AddQuotes(fields: seq<(string, Value)>): (r: seq<(string, Value)>)
    ensures |r| == |fields|
    ensures forall i :: 0 <= i < |fields| ==> r[i].0 == fields[i].0
    ensures forall i :: 0 <= i < |fields| && fields[i].0 in {"id", "rating"} ==> r[i] == fields[i]
    ensures forall i :: 0 <= i < |fields| && fields[i].0 !in {"id", "rating"} ==> r[i].1.PyStr?
  {
    seq(|fields|, i requires 0 <= i < |fields| =>
      if fields[i].0 in {"id", "rating"} then fields[i] else (fields[i].0, PyStr(Quote(Str(fields[i].1)))))
  }

  /** What reaches the server for a quoted field is the field's own text between apostrophes,
      `%` signs included; without the doubling a lone `%` would make the driver fail. */
  lemma QuoteSurvivesFormatting(s: string)
    ensures Format(Quote(s)) == Some("'" + s + "'")
    ensures Format("%") == None
  {
    var tail := DoublePercent(s) + "'";
    assert Format("'") == Some("'") by {
      FormatPlain('\'', "");
      assert ['\''] + "" == "'";
    }
    FormatDoubled(s, "'");
    assert Quote(s) == ['\''] + tail;
    FormatPlain('\'', tail);
    assert ['\''] + (s + "'") == "'" + s + "'";
  }

  // ---------------------------------------------------------------------------
  // How the server reads a quoted literal (the reader is the one in module Sql), and the
  // escaped quoting

  /** A text with an apostrophe, quoted as written, does not read back as itself: the literal
      ends at the apostrophe and the rest spills into the statement. */
  lemma QuoteLeaksApostrophe()
    ensures Format(Quote("a'b")) == Some("'a'b'")
    ensures ReadLiteral("'a'b'") == Some(("a", "b'"))
  {
    QuoteSurvivesFormatting("a'b");
    assert "'" + "a'b" + "'" == "'a'b'";
    assert "'a'b'"[1..] == ['a'] + "'b'";
    ReadEnd("b'");
    assert "'" + "b'" == "'b'";
    ReadPlain('a', "'b'");
    assert ['a'] + "" == "a";
  }

  /** `pymysql.converters.escape_string` of one character. */
  function EscapeChar(c: char): string {
    match c
    case '\0' => "\\0"
    case '\\' => "\\\\"
    case '\n' => "\\n"
    case '\r' => "\\r"
    case '\U{1A}' => "\\Z"
    case '"' => "\\\""
    case '\'' => "\\'"
    case _ => [c]
  }

  function Escape(s: string): string
    decreases |s|
  {
    if |s| == 0 then "" else EscapeChar(s[0]) + Escape(s[1..])
  }

  /** After quoting, every text field reaches the server as its `str()` between apostrophes;
      `id` and `rating` reach it unchanged. */
  lemma AddQuotesFormats(fields: seq<(string, Value)>, i: int)
    requires 0 <= i < |fields|
    ensures fields[i].0 !in {"id", "rating"} ==>
      Format(AddQuotes(fields)[i].1.s) == Some("'" + Str(fields[i].1) + "'")
    ensures fields[i].0 in {"id", "rating"} ==> AddQuotes(fields)[i].1 == fields[i].1
  {
    QuoteSurvivesFormatting(Str(fields[i].1));
  }

  /** The evidently intended quoting: the value escaped, then `%` doubled. */
  function QuoteEscaped(s: string): string {
    Quote(Escape(s))
  }

  /** Each escaped character reads back as itself. */
  lemma EscapeCharRead(c: char, rest: string)
    ensures ReadBody(EscapeChar(c) + rest) == (match ReadBody(rest) case None => None case Some(p) => Some(([c] + p.0, p.1)))
  {
    if |EscapeChar(c)| == 2 {
      var d := EscapeChar(c)[1];
      assert EscapeChar(c) == ['\\', d];
      assert Unescaped(d) == [c];
      ReadBackslash(d, rest);
    } else {
      ReadPlain(c, rest);
    }
  }

  /** A backslash and the character after it stand for that character unescaped. */
  lemma ReadBackslash(d: char, rest: string)
    ensures ReadBody(['\\', d] + rest) == (match ReadBody(rest) case None => None case Some(p) => Some((Unescaped(d) + p.0, p.1)))
  {
    assert (['\\', d] + rest)[2..] == rest;
  }

  /** Escaping works character by character, whatever follows. */
  lemma EscapeCons(s: string, u: string)
    requires |s| > 0
    ensures Escape(s) + u == EscapeChar(s[0]) + (Escape(s[1..]) + u)
  {
  }

  /** Escaped text followed by anything readable reads back as the text, then what that
      reads as. */
  lemma {:induction false} EscapeReadThen(s: string, u: string, p: (string, string))
    requires ReadBody(u) == Some(p)
    ensures ReadBody(Escape(s) + u) == Some((s + p.0, p.1))
    decreases |s|
  {
    if |s| == 0 {
      assert Escape(s) + u == u;
      assert s + p.0 == p.0;
    } else {
      var v := Escape(s[1..]) + u;
      EscapeReadThen(s[1..], u, p);
      EscapeCharRead(s[0], v);
      EscapeCons(s, u);
      ConsAppend(s, p.0);
    }
  }

  /** Escaped text followed by an apostrophe reads back as the text, and what follows the
      apostrophe is left over. */
  lemma EscapeRead(s: string, rest: string)
    requires |rest| == 0 || rest[0] != '\''
    ensures ReadBody(Escape(s) + "'" + rest) == Some((s, rest))
  {
    ReadEnd(rest);
    EscapeReadThen(s, "'" + rest, ("", rest));
    assert Escape(s) + "'" + rest == Escape(s) + ("'" + rest);
    assert s + "" == s;
  }

  /** With the value escaped, the server reads every field back exactly, apostrophes and
      backslashes included, and nothing of it spills past the literal. */
  lemma QuoteEscapedReadsBack(s: string)
    ensures Format(QuoteEscaped(s)) == Some("'" + Escape(s) + "'")
    ensures ReadLiteral("'" + Escape(s) + "'") == Some((s, ""))
  {
    QuoteSurvivesFormatting(Escape(s));
    EscapeRead(s, "");
    assert ("'" + Escape(s) + "'")[1..] == Escape(s) + "'" + "";
  }

  // ---------------------------------------------------------------------------
  // The table declaration

  /** A column type: the kind's template called with its arguments and the key flag. */
  function ColumnType(k: Kind, args: seq<int>, primaryKey: bool): Result<SqlTypes.DataType, SqlTypes.CallError> {
    SqlTypes.Call(SqlTypes.Template(k), args, false, false, primaryKey)
  }

  /** One declared column: its name and its type. */
  function Column(name: string, k: Kind, args: seq<int>, primaryKey: bool): (string, Result<SqlTypes.DataType, SqlTypes.CallError>) {
    (name, ColumnType(k, args, primaryKey))
  }

  /** A declared column's type, or why the call was refused. */
  type ColumnResult = Result<SqlTypes.DataType, SqlTypes.CallError>

  /** `table_columns`. */
  function TableColumns(): seq<(string, ColumnResult)> {
    [ Column("rating", Float, [], false), Column("pic", VarChar, [255], false),
      Column("intro", Text, [], false), Column("author_intro", Text, [], false),
      Column("card_subtitle", Text, [], false), Column("id", Int, [], true),
      Column("buylinks_url", VarChar, [255], false), Column("author", TinyText, [], false),
      Column("price", TinyText, [], false), Column("translator", TinyText, [], false),
      Column("catalog", Text, [], false), Column("press", TinyText, [], false),
      Column("pages", TinyText, [], false), Column("title", TinyText, [], false),
      Column("tag", TinyText, [], false) ]
  }

  /** A kind without parameters accepts an empty call. */
  lemma PlainColumnOk(k: Kind, pk: bool)
    requires Arity(k) == 0
    ensures ColumnType(k, [], pk).Ok? && ColumnType(k, [], pk).value.name == SqlName(k)
    ensures ColumnType(k, [], pk).value.primaryKey == pk
    ensures !ColumnType(k, [], pk).value.autoIncrement && !ColumnType(k, [], pk).value.notNull
  {
    SqlTypes.TemplateShape(k);
  }

  /** The declaration names the book's fields in order; every type is accepted, `id` is an
      INT column and the only primary key, and no column is AUTO_INCREMENT or NOT NULL. */
  lemma TableColumnsShape()
    ensures |TableColumns()| == |BookFields|
    ensures forall i :: 0 <= i < |BookFields| ==> TableColumns()[i].0 == BookFields[i] && TableColumns()[i].1.Ok?
    ensures forall i :: 0 <= i < |BookFields| ==>
      var t := TableColumns()[i].1.value;
      && (t.primaryKey <==> BookFields[i] == "id")
      && !t.autoIncrement && !t.notNull
    ensures TableColumns()[5].1.value.name == "INT"
  {
    ColumnsAccepted();
    OnlyIdIsId();
  }

  /** Every declared column is accepted, names the field at its place, and only the sixth
      carries the key flag. */
  lemma ColumnsAccepted()
    ensures |TableColumns()| == |BookFields|
    ensures forall i :: 0 <= i < |BookFields| ==> TableColumns()[i].0 == BookFields[i] && TableColumns()[i].1.Ok?
    ensures forall i :: 0 <= i < |BookFields| ==>
      var t := TableColumns()[i].1.value;
      && (t.primaryKey <==> i == 5)
      && !t.autoIncrement && !t.notNull
    ensures TableColumns()[5].1.value.name == "INT"
  {
    PlainColumnOk(Float, false);
    PlainColumnOk(Text, false);
    PlainColumnOk(TinyText, false);
    PlainColumnOk(Int, true);
    VarCharColumnOk();
    DeclarationShape(ColumnType(Float, [], false), ColumnType(VarChar, [255], false),
      ColumnType(Text, [], false), ColumnType(TinyText, [], false), ColumnType(Int, [], true));
  }

  /** The declaration's layout, over its five column types: only the sixth column (`id`)
      uses the keyed type. */
  lemma DeclarationShape(f: ColumnResult, v: ColumnResult, x: ColumnResult, y: ColumnResult, n: ColumnResult)
    requires f.Ok? && v.Ok? && x.Ok? && y.Ok? && n.Ok?
    requires !f.value.primaryKey && !v.value.primaryKey && !x.value.primaryKey && !y.value.primaryKey && n.value.primaryKey
    requires forall t :: t in [f, v, x, y, n] ==> !t.value.autoIncrement && !t.value.notNull
    ensures var cols := [ ("rating", f), ("pic", v), ("intro", x), ("author_intro", x), ("card_subtitle", x),
        ("id", n), ("buylinks_url", v), ("author", y), ("price", y), ("translator", y),
        ("catalog", x), ("press", y), ("pages", y), ("title", y), ("tag", y) ];
      && |cols| == |BookFields|
      && (forall i :: 0 <= i < |BookFields| ==> cols[i].0 == BookFields[i] && cols[i].1.Ok?)
      && (forall i :: 0 <= i < |BookFields| ==>
            && (cols[i].1.value.primaryKey <==> i == 5)
            && !cols[i].1.value.autoIncrement && !cols[i].1.value.notNull)
  {
  }

  /** `VarChar(255)` is accepted. */
  lemma VarCharColumnOk()
    ensures ColumnType(VarChar, [255], false).Ok?
    ensures var t := ColumnType(VarChar, [255], false).value;
      !t.primaryKey && !t.autoIncrement && !t.notNull
  {
    SqlTypes.TemplateShape(VarChar);
  }

  /** `id` is the sixth field and no other. */
  lemma OnlyIdIsId()
    ensures forall i :: 0 <= i < |BookFields| ==> (BookFields[i] == "id" <==> i == 5)
  {
  }
}
