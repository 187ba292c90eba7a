/** The MySQL column kinds. Both column-type systems (server/src/db/dtype.py and
    server/src/db/types.py) offer the same 25 kinds under the same SQL names. */
module Kinds {
  import opened Py
  import opened Strings

  datatype Kind =
    | TinyInt | SmallInt | MediumInt | Int | BigInt | Float | Double | Decimal
    | Date | Time | DateTime | TimeStamp | Year
    | Char | VarChar | TinyText | Text | MediumText | LongText
    | Binary | VarBinary | TinyBlob | Blob | MediumBlob | LongBlob

  /** The class name under `DTypes` in dtype.py. */
  function ClassName(k: Kind): string {
    match k
    case TinyInt => "TinyInt"
    case SmallInt => "SmallInt"
    case MediumInt => "MediumInt"
    case Int => "Int"
    case BigInt => "BigInt"
    case Float => "Float"
    case Double => "Double"
    case Decimal => "Decimal"
    case Date => "Date"
    case Time => "Time"
    case DateTime => "DateTime"
    case TimeStamp => "TimeStamp"
    case Year => "Year"
    case Char => "Char"
    case VarChar => "VarChar"
    case TinyText => "TinyText"
    case Text => "Text"
    case MediumText => "MediumText"
    case LongText => "LongText"
    case Binary => "Binary"
    case VarBinary => "VarBinary"
    case TinyBlob => "TinyBlob"
    case Blob => "Blob"
    case MediumBlob => "MediumBlob"
    case LongBlob => "LongBlob"
  }

  /** The SQL type name: the module-level constant's name in types.py. */
  function SqlName(k: Kind): string {
    match k
    case TinyInt => "TINYINT"
    case SmallInt => "SMALLINT"
    case MediumInt => "MEDIUMINT"
    case Int => "INT"
    case BigInt => "BIGINT"
    case Float => "FLOAT"
    case Double => "DOUBLE"
    case Decimal => "DECIMAL"
    case Date => "DATE"
    case Time => "TIME"
    case DateTime => "DATETIME"
    case TimeStamp => "TIMESTAMP"
    case Year => "YEAR"
    case Char => "CHAR"
    case VarChar => "VARCHAR"
    case TinyText => "TINYTEXT"
    case Text => "TEXT"
    case MediumText => "MEDIUMTEXT"
    case LongText => "LONGTEXT"
    case Binary => "BINARY"
    case VarBinary => "VARBINARY"
    case TinyBlob => "TINYBLOB"
    case Blob => "BLOB"
    case MediumBlob => "MEDIUMBLOB"
    case LongBlob => "LONGBLOB"
  }

  /** Every kind, in the order types.py declares its constants. */
  const AllKinds: seq<Kind> := [
    TinyInt, SmallInt, MediumInt, Int, BigInt, Float, Double, Decimal,
    Date, DateTime, TimeStamp, Time, Year,
    Char, VarChar, Binary, VarBinary, TinyBlob, Blob, MediumBlob, LongBlob,
    TinyText, Text, MediumText, LongText]

  /** The number of length/precision parameters a kind takes. */
  function Arity(k: Kind): nat {
    match k
    case Decimal => 2
    case Char | VarChar | Binary | VarBinary => 1
    case _ => 0
  }

  /** The Python class of the values a column of this kind holds. */
  function RealType(k: Kind): PyType {
    match k
    case TinyInt | SmallInt | MediumInt | Int | BigInt => IntType
    case Float | Double | Decimal => FloatType
    case Date | Time | DateTime | TimeStamp | Year => StrType
    case Char | VarChar | TinyText | Text | MediumText | LongText => StrType
    case Binary | VarBinary | TinyBlob | Blob | MediumBlob | LongBlob => BytesType
  }

  /** A non-empty run of upper-case ASCII letters. */
  predicate IsUpperWord(s: string) {
    |s| > 0 && forall i :: 0 <= i < |s| ==> 'A' <= s[i] <= 'Z'
  }

  /** dtype.py names a kind by upper-casing its class name; this is exactly
      the name types.py gives the same kind, and it is a plain upper-case word. */
  lemma ClassNameUpper(k: Kind)
    ensures Upper(ClassName(k)) == SqlName(k)
    ensures IsUpperWord(SqlName(k))
  {
    match k
    case TinyInt | SmallInt => SmallIntegerNameUpper(k);
    case MediumInt | Int => IntegerNameUpper(k);
    case BigInt | Float | Double | Decimal => NumericNameUpper(k);
    case Date | Time | DateTime | TimeStamp | Year => TemporalNameUpper(k);
    case Char | VarChar | TinyText => CharNameUpper(k);
    case Text | MediumText | LongText => TextualNameUpper(k);
    case Binary | VarBinary | TinyBlob => BinaryNameUpper(k);
    case Blob | MediumBlob | LongBlob => BlobNameUpper(k);
  }

  lemma SmallIntegerNameUpper(k: Kind)
    requires k.TinyInt? || k.SmallInt?
    ensures Upper(ClassName(k)) == SqlName(k)
    ensures IsUpperWord(SqlName(k))
  {
    match k
    case TinyInt =>
      UpperWord("TinyInt", "TINYINT");
    case SmallInt =>
      UpperWord("SmallInt", "SMALLINT");
    case _ =>
  }

  lemma IntegerNameUpper(k: Kind)
    requires k.MediumInt? || k.Int?
    ensures Upper(ClassName(k)) == SqlName(k)
    ensures IsUpperWord(SqlName(k))
  {
    match k
    case MediumInt =>
      UpperWord("MediumInt", "MEDIUMINT");
    case Int =>
      UpperWord("Int", "INT");
    case _ =>
  }

  lemma NumericNameUpper(k: Kind)
    requires k.BigInt? || k.Float? || k.Double? || k.Decimal?
    ensures Upper(ClassName(k)) == SqlName(k)
    ensures IsUpperWord(SqlName(k))
  {
    match k
    case BigInt =>
      UpperWord("BigInt", "BIGINT");
    case Float =>
      UpperWord("Float", "FLOAT");
    case Double =>
      UpperWord("Double", "DOUBLE");
    case Decimal =>
      UpperWord("Decimal", "DECIMAL");
    case _ =>
  }

  lemma TemporalNameUpper(k: Kind)
    requires k.Date? || k.Time? || k.DateTime? || k.TimeStamp? || k.Year?
    ensures Upper(ClassName(k)) == SqlName(k)
    ensures IsUpperWord(SqlName(k))
  {
    match k
    case Date =>
      UpperWord("Date", "DATE");
    case Time =>
      UpperWord("Time", "TIME");
    case DateTime =>
      UpperWord("DateTime", "DATETIME");
    case TimeStamp =>
      UpperWord("TimeStamp", "TIMESTAMP");
    case Year =>
      UpperWord("Year", "YEAR");
    case _ =>
  }

  lemma CharNameUpper(k: Kind)
    requires k.Char? || k.VarChar? || k.TinyText?
    ensures Upper(ClassName(k)) == SqlName(k)
    ensures IsUpperWord(SqlName(k))
  {
    match k
    case Char =>
      UpperWord("Char", "CHAR");
    case VarChar =>
      UpperWord("VarChar", "VARCHAR");
    case TinyText =>
      UpperWord("TinyText", "TINYTEXT");
    case _ =>
  }

  lemma TextualNameUpper(k: Kind)
    requires k.Text? || k.MediumText? || k.LongText?
    ensures Upper(ClassName(k)) == SqlName(k)
    ensures IsUpperWord(SqlName(k))
  {
    match k
    case Text =>
      UpperWord("Text", "TEXT");
    case MediumText =>
      UpperWord("MediumText", "MEDIUMTEXT");
    case LongText =>
      UpperWord("LongText", "LONGTEXT");
    case _ =>
  }

  lemma BinaryNameUpper(k: Kind)
    requires k.Binary? || k.VarBinary? || k.TinyBlob?
    ensures Upper(ClassName(k)) == SqlName(k)
    ensures IsUpperWord(SqlName(k))
  {
    match k
    case Binary =>
      UpperWord("Binary", "BINARY");
    case VarBinary =>
      UpperWord("VarBinary", "VARBINARY");
    case TinyBlob =>
      UpperWord("TinyBlob", "TINYBLOB");
    case _ =>
  }

  lemma BlobNameUpper(k: Kind)
    requires k.Blob? || k.MediumBlob? || k.LongBlob?
    ensures Upper(ClassName(k)) == SqlName(k)
    ensures IsUpperWord(SqlName(k))
  {
    match k
    case Blob =>
      UpperWord("Blob", "BLOB");
    case MediumBlob =>
      UpperWord("MediumBlob", "MEDIUMBLOB");
    case LongBlob =>
      UpperWord("LongBlob", "LONGBLOB");
    case _ =>
  }

  /** A word whose every character upper-cases to the matching upper-case letter of `t`. */
  lemma UpperWord(s: string, t: string)
    requires |s| == |t| > 0
    requires forall i :: 0 <= i < |s| ==> UpperChar(s[i]) == t[i] && 'A' <= t[i] <= 'Z'
    ensures Upper(s) == t && IsUpperWord(t)
  {
  }

  /** `AllKinds` lists each kind once, and no two kinds share an SQL name. */
  lemma SqlNameInjective(k1: Kind, k2: Kind)
    ensures SqlName(k1) == SqlName(k2) ==> k1 == k2
    ensures k1 in AllKinds
  {
  }
}
