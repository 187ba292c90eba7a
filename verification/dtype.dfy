/** The class-based column-type system of server/src/db/dtype.py: column options
    (`DTypeOption`), argument validation per kind, the value check, and rendering of a
    column type into its schema-definition fragment. The Python reflection over
    generic parameters is replaced by the per-kind table in module Kinds. */
module DType {
  import opened Wrappers
  import opened Strings
  import opened Py
  import opened Kinds

  // ---------------------------------------------------------------------------
  // DTypeOption

  /** Column attributes; `default` is `PyNone` when no default is given. */
  datatype ColumnOption = ColumnOption(
    autoIncrement: bool,
    default: Value,
    notNull: bool,
    primaryKey: bool,
    extras: seq<string>)

  function UpperAll(ss: seq<string>): (r: seq<string>)
    ensures |r| == |ss|
    ensures forall i :: 0 <= i < |ss| ==> r[i] == Upper(ss[i])
  {
    seq(|ss|, i requires 0 <= i < |ss| => Upper(ss[i]))
  }

  /** `DTypeOption(*extras, auto_increment=, default=, not_null=, primary_key=)`:
      the extras are upper-cased once, at construction. */
  function MakeOption(extras: seq<string>, autoIncrement: bool, default: Value, notNull: bool, primaryKey: bool): ColumnOption {
    ColumnOption(autoIncrement, default, notNull, primaryKey, UpperAll(extras))
  }

  /** `ws` when `c` holds, nothing otherwise. */
  function Flag(c: bool, ws: seq<string>): seq<string> {
    if c then ws else []
  }

  /** The list `DTypeOption.__str__` builds before joining it with single spaces. */
  function OptionItems(o: ColumnOption): seq<string> {
    Flag(o.autoIncrement, ["AUTO_INCREMENT"])
    + (Flag(!o.default.PyNone?, ["DEFAULT " + Str(o.default)])
    + (Flag(o.notNull, ["NOT NULL"])
    + (Flag(o.primaryKey, ["PRIMARY KEY"])
    + o.extras)))
  }

  /** `str(option)`. */
  function RenderOption(o: ColumnOption): string {
    Join(" ", OptionItems(o))
  }

  /** The same text cut at every space: multi-word attributes contribute each word. */
  function OptionWords(o: ColumnOption): seq<string> {
    Flag(o.autoIncrement, ["AUTO_INCREMENT"])
    + (Flag(!o.default.PyNone?, ["DEFAULT", Str(o.default)])
    + (Flag(o.notNull, ["NOT", "NULL"])
    + (Flag(o.primaryKey, ["PRIMARY", "KEY"])
    + o.extras)))
  }

  /** What a reader of the rendered option can tell about it. */
  datatype OptionText = OptionText(
    autoIncrement: bool,
    default: Option<string>,
    notNull: bool,
    primaryKey: bool,
    extras: seq<string>)

  const NoOptionText := OptionText(false, None, false, false, [])

  function TextOf(o: ColumnOption): OptionText {
    OptionText(o.autoIncrement, if o.default.PyNone? then None else Some(Str(o.default)),
               o.notNull, o.primaryKey, o.extras)
  }

  /** Takes the two-word keyword `a b` off the front of `w` when it is there. */
  function TakePair(w: seq<string>, a: string, b: string): (bool, seq<string>) {
    if |w| >= 2 && w[0] == a && w[1] == b then (true, w[2..]) else (false, w)
  }

  /** Reads the attributes back from the words of a rendered option, in the fixed order. */
  function DecodeOption(w: seq<string>): OptionText {
    var ai := TakeWord(w, "AUTO_INCREMENT");
    var df := TakeKeyed(ai.1, "DEFAULT");
    var nn := TakePair(df.1, "NOT", "NULL");
    var pk := TakePair(nn.1, "PRIMARY", "KEY");
    OptionText(ai.0, df.0, nn.0, pk.0, pk.1)
  }

  /** The words of a string: none for the empty string. */
  function Words(s: string): seq<string> {
    if s == "" then [] else Split(' ', s)
  }

  predicate NoSpace(s: string) {
    forall i :: 0 <= i < |s| ==> !IsSpace(s[i])
  }

  /** A word: non-empty and free of white space. */
  predicate IsWord(s: string) {
    |s| > 0 && NoSpace(s)
  }

  /** An option whose default and extras are single words that are not attribute keywords,
      so that its rendering can be read back. */
  predicate PlainOption(o: ColumnOption) {
    && (!o.default.PyNone? ==> IsWord(Str(o.default)))
    && forall e :: e in o.extras ==>
         IsWord(e) && e != "AUTO_INCREMENT" && e != "DEFAULT" && e != "NOT" && e != "PRIMARY"
  }

  lemma JoinCons(sep: string, x: string, a: seq<string>)
    ensures Join(sep, [x] + a) == if |a| == 0 then x else x + sep + Join(sep, a)
  {
    assert ([x] + a)[1..] == a;
  }

  /** Joining a group's join in front of `a` is joining the group itself in front of `b`,
      when `a` and `b` join to the same text. */
  lemma JoinLayer(c: bool, g: seq<string>, a: seq<string>, b: seq<string>)
    requires |g| > 0
    requires Join(" ", a) == Join(" ", b)
    requires |a| == 0 <==> |b| == 0
    ensures Join(" ", Flag(c, [Join(" ", g)]) + a) == Join(" ", Flag(c, g) + b)
    ensures |Flag(c, [Join(" ", g)]) + a| == 0 <==> |Flag(c, g) + b| == 0
  {
    if c {
      JoinCons(" ", Join(" ", g), a);
      if |b| == 0 {
        assert g + b == g;
      } else {
        JoinAppend(" ", g, b);
      }
    } else {
      assert Flag(c, [Join(" ", g)]) + a == a;
      assert Flag(c, g) + b == b;
    }
  }

  lemma JoinKeywords(d: string)
    ensures Join(" ", ["AUTO_INCREMENT"]) == "AUTO_INCREMENT"
    ensures Join(" ", ["DEFAULT", d]) == "DEFAULT " + d
    ensures Join(" ", ["NOT", "NULL"]) == "NOT NULL"
    ensures Join(" ", ["PRIMARY", "KEY"]) == "PRIMARY KEY"
  {
    JoinCons(" ", "DEFAULT", [d]);
    JoinCons(" ", "NOT", ["NULL"]);
    JoinCons(" ", "PRIMARY", ["KEY"]);
  }

  /** Rendering the items is rendering the words. */
  lemma OptionItemsWords(o: ColumnOption)
    ensures RenderOption(o) == Join(" ", OptionWords(o))
  {
    var d := Str(o.default);
    JoinKeywords(d);
    var e := o.extras;
    JoinLayer(o.primaryKey, ["PRIMARY", "KEY"], e, e);
    var i4 := Flag(o.primaryKey, ["PRIMARY KEY"]) + e;
    var w4 := Flag(o.primaryKey, ["PRIMARY", "KEY"]) + e;
    JoinLayer(o.notNull, ["NOT", "NULL"], i4, w4);
    var i3 := Flag(o.notNull, ["NOT NULL"]) + i4;
    var w3 := Flag(o.notNull, ["NOT", "NULL"]) + w4;
    JoinLayer(!o.default.PyNone?, ["DEFAULT", d], i3, w3);
    var i2 := Flag(!o.default.PyNone?, ["DEFAULT " + d]) + i3;
    var w2 := Flag(!o.default.PyNone?, ["DEFAULT", d]) + w3;
    JoinLayer(o.autoIncrement, ["AUTO_INCREMENT"], i2, w2);
  }

  lemma TakeWordFlag(c: bool, kw: string, rest: seq<string>)
    requires |rest| > 0 ==> rest[0] != kw
    ensures TakeWord(Flag(c, [kw]) + rest, kw) == (c, rest)
  {
    if c {
      assert ([kw] + rest)[1..] == rest;
    } else {
      assert Flag(c, [kw]) + rest == rest;
    }
  }

  lemma TakePairFlag(c: bool, a: string, b: string, rest: seq<string>)
    requires |rest| > 0 ==> rest[0] != a
    ensures TakePair(Flag(c, [a, b]) + rest, a, b) == (c, rest)
  {
    if c {
      assert ([a, b] + rest)[2..] == rest;
    } else {
      assert Flag(c, [a, b]) + rest == rest;
    }
  }

  lemma DecodeOptionWords(o: ColumnOption)
    requires PlainOption(o)
    ensures DecodeOption(OptionWords(o)) == TextOf(o)
  {
    var e := o.extras;
    if |e| > 0 {
      assert e[0] in e;
    }
    TakePairFlag(o.primaryKey, "PRIMARY", "KEY", e);
    var w4 := Flag(o.primaryKey, ["PRIMARY", "KEY"]) + e;
    assert |w4| > 0 ==> w4[0] != "NOT" && w4[0] != "DEFAULT" && w4[0] != "AUTO_INCREMENT";
    TakePairFlag(o.notNull, "NOT", "NULL", w4);
    var w3 := Flag(o.notNull, ["NOT", "NULL"]) + w4;
    assert |w3| > 0 ==> w3[0] != "DEFAULT" && w3[0] != "AUTO_INCREMENT";
    var dv := if o.default.PyNone? then None else Some(Str(o.default));
    TakeKeyedBack("DEFAULT", dv, w3);
    var w2 := Flag(!o.default.PyNone?, ["DEFAULT", Str(o.default)]) + w3;
    assert w2 == Keyed("DEFAULT", dv) + w3;
    assert |w2| > 0 ==> w2[0] != "AUTO_INCREMENT";
    TakeWordFlag(o.autoIncrement, "AUTO_INCREMENT", w2);
  }

  predicate AllWords(ws: seq<string>) {
    forall w :: w in ws ==> IsWord(w)
  }

  lemma AllWordsAppend(a: seq<string>, b: seq<string>)
    requires AllWords(a) && AllWords(b)
    ensures AllWords(a + b)
  {
  }

  lemma KeywordsAreWords()
    ensures AllWords(["AUTO_INCREMENT"])
    ensures AllWords(["NOT", "NULL"])
    ensures AllWords(["PRIMARY", "KEY"])
  {
    var ai := "AUTO_INCREMENT";
    assert forall i :: 0 <= i < |ai| ==> 'A' <= ai[i] <= 'Z' || ai[i] == '_';
    var k := ["NOT", "NULL", "PRIMARY", "KEY"];
    assert forall j, i :: 0 <= j < |k| && 0 <= i < |k[j]| ==> 'A' <= k[j][i] <= 'Z';
  }

  /** The words of a plain option are single non-empty words. */
  lemma OptionWordsAreWords(o: ColumnOption)
    requires PlainOption(o)
    ensures AllWords(OptionWords(o))
  {
    KeywordsAreWords();
    var d := Str(o.default);
    assert AllWords(Flag(!o.default.PyNone?, ["DEFAULT", d])) by {
      if !o.default.PyNone? {
        var kw := "DEFAULT";
        assert forall i :: 0 <= i < |kw| ==> 'A' <= kw[i] <= 'Z';
      }
    }
    var e := o.extras;
    AllWordsAppend(Flag(o.primaryKey, ["PRIMARY", "KEY"]), e);
    var w4 := Flag(o.primaryKey, ["PRIMARY", "KEY"]) + e;
    AllWordsAppend(Flag(o.notNull, ["NOT", "NULL"]), w4);
    var w3 := Flag(o.notNull, ["NOT", "NULL"]) + w4;
    AllWordsAppend(Flag(!o.default.PyNone?, ["DEFAULT", d]), w3);
    var w2 := Flag(!o.default.PyNone?, ["DEFAULT", d]) + w3;
    AllWordsAppend(Flag(o.autoIncrement, ["AUTO_INCREMENT"]), w2);
  }

  /** Rendering a plain option loses nothing: the flags, the default and the
      (upper-cased) extras are read back in the fixed order AUTO_INCREMENT, DEFAULT,
      NOT NULL, PRIMARY KEY, extras. */
  lemma OptionRoundTrip(o: ColumnOption)
    requires PlainOption(o)
    ensures DecodeOption(Words(RenderOption(o))) == TextOf(o)
  {
    OptionItemsWords(o);
    OptionWordsAreWords(o);
    DecodeOptionWords(o);
    var ws := OptionWords(o);
    if |ws| == 0 {
      assert RenderOption(o) == "";
    } else {
      JoinEmpty(" ", ws);
      assert ws[0] in ws;
      assert ws != [""];
      forall w | w in ws
        ensures ' ' !in w
      {
        assert IsWord(w);
      }
      SplitJoin(' ', ws);
    }
  }

  /** The option renders as the empty string exactly when no attribute is set
      (an extras list holding one empty string also renders empty). */
  lemma RenderOptionEmpty(o: ColumnOption)
    ensures RenderOption(o) == "" <==>
      && !o.autoIncrement && o.default.PyNone? && !o.notNull && !o.primaryKey
      && (o.extras == [] || o.extras == [""])
  {
    var items := OptionItems(o);
    JoinEmpty(" ", items);
    if o.autoIncrement || !o.default.PyNone? || o.notNull || o.primaryKey {
      assert |items[0]| > 0;
      assert items != [""];
    } else {
      assert items == o.extras;
    }
  }

  lemma PlainExtrasNonEmpty(o: ColumnOption)
    requires PlainOption(o)
    ensures o.extras != [""]
  {
    if |o.extras| > 0 {
      assert o.extras[0] in o.extras;
    }
  }

  /** A default is rendered whenever it is not `None`, falsy ones such as 0 and "" included:
      the text starts with `DEFAULT ` and the default's `str()`, after `AUTO_INCREMENT ` when
      that flag is set, and anything rendered after it follows a space. */
  lemma DefaultAlwaysRendered(o: ColumnOption)
    requires !o.default.PyNone?
    ensures var pre := (if o.autoIncrement then "AUTO_INCREMENT " else "") + "DEFAULT " + Str(o.default);
      var r := RenderOption(o);
      && |pre| <= |r| && r[..|pre|] == pre
      && (|r| > |pre| ==> r[|pre|] == ' ')
  {
    var d := "DEFAULT " + Str(o.default);
    var rest := Flag(o.notNull, ["NOT NULL"]) + (Flag(o.primaryKey, ["PRIMARY KEY"]) + o.extras);
    assert OptionItems(o) == Flag(o.autoIncrement, ["AUTO_INCREMENT"]) + ([d] + rest);
    JoinLeads(o.autoIncrement, d, rest);
  }

  /** The join of an optional leading word, then `d`, then more items starts with those two
      and continues after a space. */
  lemma JoinLeads(c: bool, d: string, rest: seq<string>)
    ensures var pre := (if c then "AUTO_INCREMENT " else "") + d;
      var r := Join(" ", Flag(c, ["AUTO_INCREMENT"]) + ([d] + rest));
      && |pre| <= |r| && r[..|pre|] == pre
      && (|r| > |pre| ==> r[|pre|] == ' ')
  {
    var tail := if |rest| == 0 then "" else " " + Join(" ", rest);
    JoinCons(" ", d, rest);
    var pre := (if c then "AUTO_INCREMENT " else "") + d;
    JoinFlagged(c, [d] + rest);
    assert Join(" ", Flag(c, ["AUTO_INCREMENT"]) + ([d] + rest)) == pre + tail;
    PrefixThen(pre, tail);
  }

  /** A leading `AUTO_INCREMENT`, when present, is joined in front with one space. */
  lemma JoinFlagged(c: bool, items: seq<string>)
    requires |items| > 0
    ensures Join(" ", Flag(c, ["AUTO_INCREMENT"]) + items) == (if c then "AUTO_INCREMENT " else "") + Join(" ", items)
  {
    if c {
      JoinCons(" ", "AUTO_INCREMENT", items);
      assert Flag(c, ["AUTO_INCREMENT"]) + items == ["AUTO_INCREMENT"] + items;
    } else {
      assert Flag(c, ["AUTO_INCREMENT"]) + items == items;
    }
  }

  /** Concatenation keeps the front part as a prefix. */
  lemma PrefixThen(pre: string, tail: string)
    ensures |pre| <= |pre + tail| && (pre + tail)[..|pre|] == pre
    ensures |tail| > 0 ==> (pre + tail)[|pre|] == tail[0]
  {
  }

  /** Extras given at construction come back upper-cased and in their given order. */
  lemma ExtrasUpperCased(extras: seq<string>, ai: bool, default: Value, nn: bool, pk: bool)
    requires PlainOption(MakeOption(extras, ai, default, nn, pk))
    ensures DecodeOption(Words(RenderOption(MakeOption(extras, ai, default, nn, pk)))).extras == UpperAll(extras)
  {
    OptionRoundTrip(MakeOption(extras, ai, default, nn, pk));
  }

  // ---------------------------------------------------------------------------
  // DType: argument validation

  /** A column type as constructed: kind, positional arguments and option. */
  /** A constructed column type. `StrayOption` is what a kind without parameters holds
      after one positional argument that is not an option: `NoArgsDType.__init__` binds it
      to its `option` parameter unchecked, so `Int(5)` keeps 5 where an option belongs. */
  datatype Descriptor =
    | Descriptor(kind: Kind, args: seq<Value>, option: Option<ColumnOption>)
    | StrayOption(kind: Kind, stray: Value)

  /** The exceptions construction raises: those of `_validate_args`, and the two
      `TypeError`s of calling `NoArgsDType.__init__` with too many positional arguments or
      with `option` given both positionally and by keyword. */
  datatype ArgError =
    | ArityMismatch(expected: nat, got: nat)
    | ArgTypeMismatch(index: nat)
    | PrecisionOutOfRange(precision: int)
    | ScaleOutOfRange(scale: int)
    | PrecisionBelowScale(p: int, s: int)
    | LengthOutOfRange(length: int)
    | TooManyPositional(got: nat)
    | OptionGivenTwice
  {
    /** The `ValueError`s; the rest are `TypeError`s. */
    predicate IsValueError() {
      !ArgTypeMismatch? && !TooManyPositional? && !OptionGivenTwice?
    }
  }

  predicate AllInts(args: seq<Value>) {
    forall j :: 0 <= j < |args| ==> IsInstance(args[j], IntType)
  }

  /** The index of the first argument that is not an `int`. */
  function FirstNonInt(args: seq<Value>): (r: Option<nat>)
    ensures r.Some? ==> r.value < |args| && !IsInstance(args[r.value], IntType)
    ensures r.Some? ==> forall j :: 0 <= j < r.value ==> IsInstance(args[j], IntType)
    ensures r.None? <==> AllInts(args)
    decreases |args|
  {
    if |args| == 0 then None
    else if !IsInstance(args[0], IntType) then Some(0)
    else
      match FirstNonInt(args[1..])
      case None => None
      case Some(i) => Some(i + 1)
  }

  /** The per-kind range rules of the `_validate_args` overrides. */
  predicate InBounds(k: Kind, args: seq<Value>)
    requires |args| == Arity(k) && AllInts(args)
  {
    match k
    case Decimal =>
      && 1 <= AsInt(args[0]) <= 65
      && 0 <= AsInt(args[1]) <= 30
      && AsInt(args[0]) >= AsInt(args[1])
    case Char | Binary => 1 <= AsInt(args[0]) <= 255
    case VarChar | VarBinary => 1 <= AsInt(args[0]) <= 65535
    case _ => true
  }

  /** The arguments a kind's constructor accepts. */
  predicate Accepts(k: Kind, args: seq<Value>) {
    |args| == Arity(k) && AllInts(args) && InBounds(k, args)
  }

  function CheckRange(k: Kind, args: seq<Value>): Result<(), ArgError>
    requires |args| == Arity(k) && AllInts(args)
  {
    match k
    case Decimal =>
      var p := AsInt(args[0]);
      var s := AsInt(args[1]);
      if p <= 0 || p > 65 then Err(PrecisionOutOfRange(p))
      else if s < 0 || s > 30 then Err(ScaleOutOfRange(s))
      else if p < s then Err(PrecisionBelowScale(p, s))
      else Ok(())
    case Char | Binary =>
      var n := AsInt(args[0]);
      if n <= 0 || n > 255 then Err(LengthOutOfRange(n)) else Ok(())
    case VarChar | VarBinary =>
      var n := AsInt(args[0]);
      if n <= 0 || n > 65535 then Err(LengthOutOfRange(n)) else Ok(())
    case _ => Ok(())
  }

  /** `_validate_args`: the count first (ValueError), then each argument's type in order
      (TypeError), then the kind's ranges (ValueError). */
  function ValidateArgs(k: Kind, args: seq<Value>): (r: Result<(), ArgError>)
    ensures r.Ok? <==> Accepts(k, args)
    ensures r.Err? && r.error.ArityMismatch? <==> |args| != Arity(k)
    ensures r.Err? && r.error.ArgTypeMismatch? <==> |args| == Arity(k) && !AllInts(args)
    ensures r.Err? && r.error.ArgTypeMismatch? ==>
      && r.error.index < |args| && !IsInstance(args[r.error.index], IntType)
      && forall j :: 0 <= j < r.error.index ==> IsInstance(args[j], IntType)
  {
    if |args| != Arity(k) then Err(ArityMismatch(Arity(k), |args|))
    else
      match FirstNonInt(args)
      case Some(i) => Err(ArgTypeMismatch(i))
      case None => CheckRange(k, args)
  }

  /** `DTypes.K(*args, option=...)`, where `option` is `None` when the keyword is not
      passed. A kind with parameters checks its arguments with `_validate_args`. A kind
      without them is a `NoArgsDType`, whose `__init__` has the single parameter `option`:
      one positional argument is bound to it, `None` meaning no option and anything else
      stored as it is, while two or more positionals, or one together with the keyword, make
      Python raise a `TypeError` before `_validate_args` runs. */
  function Define(k: Kind, args: seq<Value>, option: Option<ColumnOption>): (r: Result<Descriptor, ArgError>)
    ensures Accepts(k, args) ==> r == Ok(Descriptor(k, args, option))
    ensures Arity(k) > 0 ==> (r.Ok? <==> Accepts(k, args))
    ensures Arity(k) > 0 && r.Err? ==> (r.error.IsValueError() <==> |args| != Arity(k) || AllInts(args))
    ensures Arity(k) == 0 ==> (r.Ok? <==> |args| == 0 || (|args| == 1 && option.None?))
    ensures Arity(k) == 0 && |args| == 1 && option.None? ==>
      r.value == (if args[0].PyNone? then Descriptor(k, [], None) else StrayOption(k, args[0]))
    ensures Arity(k) == 0 && |args| >= 2 ==> r == Err(TooManyPositional(|args|))
    ensures Arity(k) == 0 && |args| == 1 && option.Some? ==> r == Err(OptionGivenTwice)
  {
    if Arity(k) == 0 && |args| > 0 then
      if |args| > 1 then Err(TooManyPositional(|args|))
      else if option.Some? then Err(OptionGivenTwice)
      else if args[0].PyNone? then Ok(Descriptor(k, [], None))
      else Ok(StrayOption(k, args[0]))
    else
      match ValidateArgs(k, args)
      case Err(e) => Err(e)
      case Ok(_) => Ok(Descriptor(k, args, option))
  }

  /** `NoArgsDType.__init__(option)`: a kind without parameters always constructs, whether
      the option is passed by keyword or as the one positional argument. */
  function DefineNoArgs(k: Kind, option: Option<ColumnOption>): (r: Result<Descriptor, ArgError>)
    requires Arity(k) == 0
    ensures r == Ok(Descriptor(k, [], option))
  {
    Define(k, [], option)
  }

  /** Decimal(p, s) is accepted iff 1 <= p <= 65, 0 <= s <= 30 and p >= s; the checks run
      in that order, so the error names the first rule broken. */
  lemma DecimalAcceptance(p: int, s: int)
    ensures ValidateArgs(Decimal, [PyInt(p), PyInt(s)]).Ok? <==> 1 <= p <= 65 && 0 <= s <= 30 && p >= s
    ensures !(1 <= p <= 65) ==> ValidateArgs(Decimal, [PyInt(p), PyInt(s)]) == Err(PrecisionOutOfRange(p))
    ensures 1 <= p <= 65 && !(0 <= s <= 30) ==> ValidateArgs(Decimal, [PyInt(p), PyInt(s)]) == Err(ScaleOutOfRange(s))
    ensures 1 <= p <= 65 && 0 <= s <= 30 && p < s ==> ValidateArgs(Decimal, [PyInt(p), PyInt(s)]) == Err(PrecisionBelowScale(p, s))
  {
    assert AllInts([PyInt(p), PyInt(s)]);
  }

  /** Char and Binary take a length in [1, 255]; VarChar and VarBinary one in [1, 65535]. */
  lemma LengthAcceptance(k: Kind, n: int)
    requires k.Char? || k.Binary? || k.VarChar? || k.VarBinary?
    ensures ValidateArgs(k, [PyInt(n)]).Ok? <==> 1 <= n <= (if k.Char? || k.Binary? then 255 else 65535)
    ensures !ValidateArgs(k, [PyInt(n)]).Ok? ==> ValidateArgs(k, [PyInt(n)]) == Err(LengthOutOfRange(n))
  {
    assert AllInts([PyInt(n)]);
  }

  // ---------------------------------------------------------------------------
  // DType: rendering

  /** `DType.dtype()`: the upper-cased class name. */
  function TypeName(k: Kind): string {
    Upper(ClassName(k))
  }

  function StrAll(args: seq<Value>): (r: seq<string>)
    ensures |r| == |args|
    ensures forall i :: 0 <= i < |args| ==> r[i] == Str(args[i])
  {
    seq(|args|, i requires 0 <= i < |args| => Str(args[i]))
  }

  /** `(a,b)` with no spaces, or nothing when there are no arguments. */
  function ArgsText(args: seq<Value>): string {
    if |args| > 0 then "(" + Join(",", StrAll(args)) + ")" else ""
  }

  /** `str(option)` when an option is present; `DTypeOption` objects are always truthy. */
  function OptionTextOf(o: Option<ColumnOption>): string {
    match o
    case None => ""
    case Some(x) => RenderOption(x)
  }

  /** `DType.__str__`. A stray option is rendered through `str()` when it is truthy. */
  function Render(d: Descriptor): string {
    match d
    case Descriptor(k, args, option) => Strip(TypeName(k) + ArgsText(args) + " " + OptionTextOf(option))
    case StrayOption(k, v) => Strip(TypeName(k) + " " + (if Truthy(v) then Str(v) else ""))
  }

  /** `Int(5)` constructs and renders as `INT 5`: the positional argument becomes the option,
      shown after the name when truthy and dropped when falsy. */
  lemma StrayRendered(k: Kind, v: Value)
    requires Arity(k) == 0 && !v.PyNone?
    ensures Define(k, [v], None) == Ok(StrayOption(k, v))
    ensures !Truthy(v) ==> Render(StrayOption(k, v)) == TypeName(k)
    ensures Truthy(v) && IsWord(Str(v)) ==> Render(StrayOption(k, v)) == TypeName(k) + " " + Str(v)
  {
    TypeNameWord(k);
    if !Truthy(v) {
      StripAfterWord(TypeName(k), "");
    } else if IsWord(Str(v)) {
      StripAfterWord(TypeName(k), Str(v));
    }
  }

  lemma TypeNameWord(k: Kind)
    ensures IsWord(TypeName(k))
  {
    ClassNameUpper(k);
    var name := SqlName(k);
    assert NoSpace(name) by {
      assert forall i :: 0 <= i < |name| ==> 'A' <= name[i] <= 'Z';
    }
  }

  /** A word, a space and then nothing or a word strips to itself. */
  lemma StripAfterWord(name: string, t: string)
    requires IsWord(name)
    requires t == "" || IsWord(t)
    ensures Strip(name + " " + t) == if t == "" then name else name + " " + t
  {
    if t == "" {
      StripBounded(name, " ");
      assert name + " " + t == name + " ";
    } else {
      var a := name + " " + t;
      assert a[0] == name[0];
      assert a[|a| - 1] == t[|t| - 1];
      StripBounded(a, "");
      assert a + "" == a;
    }
  }

  /** What a reader of a rendered column type can tell about it. */
  datatype RenderedType = RenderedType(name: string, args: seq<string>, option: OptionText)

  /** Splits `NAME(a,b)` into the name and the argument texts. */
  function DecodeHead(head: string): Option<(string, seq<string>)> {
    match SplitFirst('(', head)
    case None => Some((head, []))
    case Some(p) =>
      if |p.1| > 0 && p.1[|p.1| - 1] == ')' then Some((p.0, Split(',', p.1[..|p.1| - 1])))
      else None
  }

  function DecodeRender(s: string): Option<RenderedType> {
    var w := Words(s);
    if |w| == 0 then None
    else
      match DecodeHead(w[0])
      case None => None
      case Some(h) => Some(RenderedType(h.0, h.1, DecodeOption(w[1..])))
  }

  function TextOfOpt(o: Option<ColumnOption>): OptionText {
    match o
    case None => NoOptionText
    case Some(x) => TextOf(x)
  }

  /** `str()` of an `int` argument is a word with no comma or parenthesis. */
  lemma StrOfInt(v: Value)
    requires IsInstance(v, IntType)
    ensures |Str(v)| > 0
    ensures forall c :: c in Str(v) ==> !IsSpace(c) && c != ',' && c != '(' && c != ')'
  {
    if v.PyInt? {
      IntToStringChars(v.i);
    }
  }

  lemma StrAllClean(args: seq<Value>)
    requires AllInts(args)
    ensures forall p :: p in StrAll(args) ==> ',' !in p
    ensures forall c :: c in Join(",", StrAll(args)) ==> !IsSpace(c) && c != '(' && c != ')'
  {
    var ss := StrAll(args);
    forall p | p in ss
      ensures ',' !in p
      ensures forall c :: c in p ==> !IsSpace(c) && c != '(' && c != ')'
    {
      var i :| 0 <= i < |ss| && ss[i] == p;
      StrOfInt(args[i]);
    }
    forall c | !(!IsSpace(c) && c != '(' && c != ')')
      ensures c !in Join(",", ss)
    {
      JoinChars(",", ss, c);
    }
  }

  lemma LastOfJoin(sep: string, parts: seq<string>)
    requires |parts| > 0 && |parts[|parts| - 1]| > 0
    ensures |Join(sep, parts)| > 0
    ensures Join(sep, parts)[|Join(sep, parts)| - 1] == parts[|parts| - 1][|parts[|parts| - 1]| - 1]
  {
    if |parts| > 1 {
      var init := parts[..|parts| - 1];
      JoinAppend(sep, init, [parts[|parts| - 1]]);
      assert init + [parts[|parts| - 1]] == parts;
    }
  }

  /** The argument list renders without white space and reads back by `DecodeHead`
      behind any name without a parenthesis. */
  lemma ArgsTextRoundTrip(name: string, args: seq<Value>)
    requires '(' !in name
    requires AllInts(args)
    ensures NoSpace(ArgsText(args))
    ensures DecodeHead(name + ArgsText(args)) == Some((name, StrAll(args)))
  {
    if |args| == 0 {
      assert name + ArgsText(args) == name;
      SplitFirstAbsent('(', name);
    } else {
      StrAllClean(args);
      var j := Join(",", StrAll(args));
      var t := ArgsText(args);
      assert t == ['('] + j + [')'];
      assert name + t == name + ['('] + (j + ")");
      SplitFirstAt('(', name, j + ")");
      assert (j + ")")[..|j + ")"| - 1] == j;
      SplitJoin(',', StrAll(args));
      forall i | 0 <= i < |t|
        ensures !IsSpace(t[i])
      {
        if 0 < i < |t| - 1 {
          assert t[i] == j[i - 1];
          assert t[i] in j;
        }
      }
    }
  }

  /** The head `NAME(args)` of a rendering: a word starting with a letter, read back by `DecodeHead`. */
  lemma HeadRoundTrip(k: Kind, args: seq<Value>)
    requires Accepts(k, args)
    ensures var head := TypeName(k) + ArgsText(args);
      && IsWord(head) && 'A' <= head[0] <= 'Z' && ' ' !in head
      && DecodeHead(head) == Some((SqlName(k), StrAll(args)))
  {
    ClassNameUpper(k);
    NamedHeadRoundTrip(SqlName(k), args);
  }

  /** An upper-case name followed by the argument list reads back as both. */
  lemma NamedHeadRoundTrip(name: string, args: seq<Value>)
    requires IsUpperWord(name) && AllInts(args)
    ensures var head := name + ArgsText(args);
      && IsWord(head) && 'A' <= head[0] <= 'Z' && ' ' !in head
      && DecodeHead(head) == Some((name, StrAll(args)))
  {
    assert '(' !in name by {
      assert forall i :: 0 <= i < |name| ==> 'A' <= name[i] <= 'Z';
    }
    ArgsTextRoundTrip(name, args);
    var t := ArgsText(args);
    var head := name + t;
    assert NoSpace(head) by {
      forall i | 0 <= i < |head|
        ensures !IsSpace(head[i])
      {
        if i >= |name| {
          assert head[i] == t[i - |name|];
        }
      }
    }
  }

  /** Without option text the rendering is the head alone: the trailing space is stripped. */
  lemma RenderBare(k: Kind, args: seq<Value>, option: Option<ColumnOption>)
    requires Accepts(k, args)
    requires OptionTextOf(option) == ""
    ensures Render(Descriptor(k, args, option)) == TypeName(k) + ArgsText(args)
  {
    HeadRoundTrip(k, args);
    var head := TypeName(k) + ArgsText(args);
    StripBounded(head, " ");
    assert TypeName(k) + ArgsText(args) + " " + OptionTextOf(option) == head + " ";
  }

  /** With option text the rendering is the head and the option's words, space-separated. */
  lemma RenderWithOption(k: Kind, args: seq<Value>, o: ColumnOption)
    requires Accepts(k, args)
    requires PlainOption(o)
    requires RenderOption(o) != ""
    ensures Words(Render(Descriptor(k, args, Some(o)))) == [TypeName(k) + ArgsText(args)] + OptionWords(o)
  {
    var head := TypeName(k) + ArgsText(args);
    RenderWithOptionText(k, args, o);
    OptionItemsWords(o);
    OptionWordsAreWords(o);
    var ws := OptionWords(o);
    JoinCons(" ", head, ws);
    HeadRoundTrip(k, args);
    forall w | w in [head] + ws
      ensures ' ' !in w
    {
      if w != head {
        assert w in ws;
        assert IsWord(w);
      }
    }
    SplitJoin(' ', [head] + ws);
  }

  /** With option text the rendering is the head, a space and the option text: nothing is
      stripped. */
  lemma RenderWithOptionText(k: Kind, args: seq<Value>, o: ColumnOption)
    requires Accepts(k, args)
    requires PlainOption(o)
    requires RenderOption(o) != ""
    ensures Render(Descriptor(k, args, Some(o))) == TypeName(k) + ArgsText(args) + " " + RenderOption(o)
  {
    var head := TypeName(k) + ArgsText(args);
    HeadRoundTrip(k, args);
    var opt := RenderOption(o);
    OptionItemsWords(o);
    OptionWordsAreWords(o);
    var ws := OptionWords(o);
    assert |ws| > 0;
    assert ws[|ws| - 1] in ws;
    LastOfJoin(" ", ws);
    var full := head + " " + opt;
    assert full[|full| - 1] == opt[|opt| - 1];
    StripBounded(full, "");
    assert full + "" == full;
  }

  /** A successfully constructed column type renders to text from which its SQL name,
      its argument texts and (for a plain option) every attribute can be read back. */
  lemma RenderRoundTrip(k: Kind, args: seq<Value>, option: Option<ColumnOption>)
    requires Accepts(k, args)
    requires option.Some? ==> PlainOption(option.value)
    ensures DecodeRender(Render(Define(k, args, option).value)) ==
      Some(RenderedType(SqlName(k), StrAll(args), TextOfOpt(option)))
  {
    if OptionTextOf(option) == "" {
      RenderRoundTripBare(k, args, option);
    } else {
      RenderRoundTripOption(k, args, option.value);
    }
  }

  lemma RenderRoundTripBare(k: Kind, args: seq<Value>, option: Option<ColumnOption>)
    requires Accepts(k, args)
    requires option.Some? ==> PlainOption(option.value)
    requires OptionTextOf(option) == ""
    ensures DecodeRender(Render(Define(k, args, option).value)) ==
      Some(RenderedType(SqlName(k), StrAll(args), TextOfOpt(option)))
  {
    var head := TypeName(k) + ArgsText(args);
    HeadRoundTrip(k, args);
    BareOptionText(option);
    RenderBare(k, args, option);
    SplitNoSeparator(' ', head);
  }

  /** An option that renders to nothing reads back as no words at all. */
  lemma BareOptionText(option: Option<ColumnOption>)
    requires option.Some? ==> PlainOption(option.value)
    requires OptionTextOf(option) == ""
    ensures TextOfOpt(option) == DecodeOption([])
  {
    if option.Some? {
      RenderOptionEmpty(option.value);
      PlainExtrasNonEmpty(option.value);
    }
  }

  lemma RenderRoundTripOption(k: Kind, args: seq<Value>, o: ColumnOption)
    requires Accepts(k, args)
    requires PlainOption(o)
    requires OptionTextOf(Some(o)) != ""
    ensures DecodeRender(Render(Define(k, args, Some(o)).value)) ==
      Some(RenderedType(SqlName(k), StrAll(args), TextOfOpt(Some(o))))
  {
    var head := TypeName(k) + ArgsText(args);
    HeadRoundTrip(k, args);
    RenderWithOption(k, args, o);
    DecodeOptionWords(o);
    assert ([head] + OptionWords(o))[1..] == OptionWords(o);
  }

  // ---------------------------------------------------------------------------
  // DType: value check

  /** The exceptions `_validate_value` raises. `OptionLacksNotNull` is the `AttributeError`
      of reading `not_null` from a stray option. */
  datatype ValueError = NullNotAllowed | WrongValueType | OptionLacksNotNull

  /** The values a column holds, by the class of the value, as the `DTypes` classes declare
      them: `int` (and so `bool`) for the five integer kinds, `float` for FLOAT, DOUBLE and
      DECIMAL, `str` for the temporal and text kinds, `bytes` for the binary kinds. */
  predicate Holds(k: Kind, v: Value) {
    match v
    case PyNone => true
    case PyBool(_) => k in {TinyInt, SmallInt, MediumInt, Int, BigInt}
    case PyInt(_) => k in {TinyInt, SmallInt, MediumInt, Int, BigInt}
    case PyFloat(_) => k in {Float, Double, Decimal}
    case PyStr(_) => k in {Date, Time, DateTime, TimeStamp, Year, Char, VarChar, TinyText, Text, MediumText, LongText}
    case PyBytes(_) => k in {Binary, VarBinary, TinyBlob, Blob, MediumBlob, LongBlob}
  }

  /** The `isinstance` test against a kind's class admits exactly the values the kind holds. */
  lemma RealTypeHolds(k: Kind, v: Value)
    ensures !v.PyNone? ==> (IsInstance(v, RealType(k)) <==> Holds(k, v))
  {
  }

  /** `_validate_value`: `None` is refused under a NOT NULL option (and fails on a stray
      option, which has no `not_null`); any other value must be one the kind holds. */
  function ValidateValue(d: Descriptor, v: Value): (r: Result<(), ValueError>)
    ensures !v.PyNone? ==> (r.Ok? <==> Holds(d.kind, v))
    ensures !v.PyNone? && r.Err? ==> r.error == WrongValueType
    ensures v.PyNone? && d.Descriptor? ==> (r.Ok? <==> d.option.None? || !d.option.value.notNull)
    ensures v.PyNone? && d.Descriptor? && r.Err? ==> r.error == NullNotAllowed
    ensures v.PyNone? && d.StrayOption? ==> (r.Ok? <==> d.stray.PyNone?)
    ensures v.PyNone? && d.StrayOption? && r.Err? ==> r.error == OptionLacksNotNull
  {
    RealTypeHolds(d.kind, v);
    if v.PyNone? then
      match d
      case Descriptor(_, _, option) =>
        if option.Some? && option.value.notNull then Err(NullNotAllowed) else Ok(())
      case StrayOption(_, stray) =>
        if stray.PyNone? then Ok(()) else Err(OptionLacksNotNull)
    else if !IsInstance(v, RealType(d.kind)) then Err(WrongValueType)
    else Ok(())
  }
}
