/** The instance-based column-type system of server/src/db/types.py: one registered
    template per SQL type name, called with its parameters and the column flags to
    obtain a fresh instance whose text is the column's type definition. */
module SqlTypes {
  import opened Wrappers
  import opened Strings
  import opened Py
  import opened Kinds
  import DType

  /** The validation callable a template carries. */
  datatype Rule =
    | NoRule                  // no callable: calling a template that needs one fails
    | DecimalRule             // lambda p, d: p >= d and 0 < p <= 65 and 0 <= d < 31
    | LengthRule(max: int)    // lambda l: 0 < l <= max

  /** The number of positional parameters the callable takes. */
  function RuleArity(r: Rule): nat
    requires !r.NoRule?
  {
    match r
    case DecimalRule => 2
    case LengthRule(_) => 1
  }

  predicate RuleHolds(r: Rule, args: seq<int>)
    requires !r.NoRule? && |args| == RuleArity(r)
  {
    match r
    case DecimalRule => args[0] >= args[1] && 0 < args[0] <= 65 && 0 <= args[1] < 31
    case LengthRule(m) => 0 < args[0] <= m
  }

  /** A `MySQLDataType` instance. */
  datatype DataType = DataType(
    name: string,
    required: nat,
    rule: Rule,
    autoIncrement: bool,
    notNull: bool,
    primaryKey: bool,
    text: string)

  /** `MySQLDataType(name, required, validation)`: no flags, and the text is the bare name. */
  function MakeType(name: string, required: nat, rule: Rule): (t: DataType)
    ensures t.name == name && t.text == name
    ensures !t.autoIncrement && !t.notNull && !t.primaryKey
  {
    DataType(name, required, rule, false, false, false, name)
  }

  /** The exceptions a call raises: a missing callable or a parameter count the callable
      does not take are `TypeError`s; the rest are `ValueError`s. */
  datatype CallError =
    | NotCallable
    | ArgCountMismatch(expected: nat, got: nat)
    | InvalidArguments
    | UnexpectedArguments
  {
    predicate IsTypeError() {
      NotCallable? || ArgCountMismatch?
    }
  }

  function IntTexts(args: seq<int>): (r: seq<string>)
    ensures |r| == |args|
    ensures forall i :: 0 <= i < |args| ==> r[i] == IntToString(args[i])
  {
    seq(|args|, i requires 0 <= i < |args| => IntToString(args[i]))
  }

  function FlagSuffix(autoIncrement: bool, notNull: bool, primaryKey: bool): string {
    (if autoIncrement then " AUTO_INCREMENT" else "")
    + ((if notNull then " NOT NULL" else "")
    + (if primaryKey then " PRIMARY KEY" else ""))
  }

  /** The parameter checks of `__call__`, in their order. */
  function CheckCall(t: DataType, args: seq<int>): Result<(), CallError> {
    if t.required != 0 then
      if t.rule.NoRule? then Err(NotCallable)
      else if |args| != RuleArity(t.rule) then Err(ArgCountMismatch(RuleArity(t.rule), |args|))
      else if !RuleHolds(t.rule, args) then Err(InvalidArguments)
      else Ok(())
    else if |args| > 0 then Err(UnexpectedArguments)
    else Ok(())
  }

  /** `t(*args, auto_increment=, not_null=, primary_key=)`: a fresh instance built from the
      name alone, so flags of an earlier call do not carry over. */
  function Call(t: DataType, args: seq<int>, autoIncrement: bool, notNull: bool, primaryKey: bool): (r: Result<DataType, CallError>)
    ensures r.Ok? <==>
      || (t.required == 0 && |args| == 0)
      || (t.required != 0 && !t.rule.NoRule? && |args| == RuleArity(t.rule) && RuleHolds(t.rule, args))
    ensures r == Err(UnexpectedArguments) <==> t.required == 0 && |args| > 0
    ensures r.Err? && r.error.IsTypeError() <==>
      t.required != 0 && (t.rule.NoRule? || |args| != RuleArity(t.rule))
    ensures r.Ok? ==>
      && r.value.name == t.name && r.value.required == t.required && r.value.rule == t.rule
      && r.value.autoIncrement == autoIncrement && r.value.notNull == notNull
      && r.value.primaryKey == primaryKey
  {
    match CheckCall(t, args)
    case Err(e) => Err(e)
    case Ok(_) =>
      var base := if t.required != 0 then t.name + "(" + Join(",", IntTexts(args)) + ")" else t.name;
      var inst := MakeType(t.name, t.required, t.rule);
      Ok(inst.(autoIncrement := autoIncrement, notNull := notNull, primaryKey := primaryKey,
               text := base + FlagSuffix(autoIncrement, notNull, primaryKey)))
  }

  /** Calling a called instance is calling its template: nothing of the first call survives. */
  lemma CallForgets(t: DataType, a1: seq<int>, ai1: bool, nn1: bool, pk1: bool,
                    a2: seq<int>, ai2: bool, nn2: bool, pk2: bool)
    requires Call(t, a1, ai1, nn1, pk1).Ok?
    ensures Call(Call(t, a1, ai1, nn1, pk1).value, a2, ai2, nn2, pk2) == Call(t, a2, ai2, nn2, pk2)
  {
  }

  // ---------------------------------------------------------------------------
  // The registry

  function RuleOf(k: Kind): Rule {
    match k
    case Decimal => DecimalRule
    case Char | Binary => LengthRule(255)
    case VarChar | VarBinary => LengthRule(65535)
    case _ => NoRule
  }

  /** The module-level constant for a kind. */
  function Template(k: Kind): DataType {
    MakeType(SqlName(k), Arity(k), RuleOf(k))
  }

  /** The first kind in `ks` with this SQL name. */
  function FindKind(ks: seq<Kind>, name: string): (r: Option<Kind>)
    ensures r.Some? ==> r.value in ks && SqlName(r.value) == name
    ensures r.None? ==> forall k :: k in ks ==> SqlName(k) != name
    decreases |ks|
  {
    if |ks| == 0 then None
    else if SqlName(ks[0]) == name then Some(ks[0])
    else FindKind(ks[1..], name)
  }

  /** `get(name)`: the registered template under exactly this name, if any. */
  function Get(name: string): (r: Option<DataType>)
    ensures r.Some? <==> exists k :: SqlName(k) == name
    ensures forall k :: SqlName(k) == name ==> r == Some(Template(k))
  {
    var found := FindKind(AllKinds, name);
    forall k | SqlName(k) == name
      ensures found == Some(k)
    {
      SqlNameInjective(k, k);
      if found.Some? {
        SqlNameInjective(found.value, k);
      }
    }
    match found
    case None => None
    case Some(k) => Some(Template(k))
  }

  /** Lookup is by exact name: every registered name is upper case, so a name starting
      with a lower-case letter finds nothing. */
  lemma GetIsCaseSensitive(name: string)
    requires |name| > 0 && 'a' <= name[0] <= 'z'
    ensures Get(name).None?
  {
    forall k | true
      ensures SqlName(k) != name
    {
      ClassNameUpper(k);
      assert 'A' <= SqlName(k)[0] <= 'Z';
    }
  }

  // ---------------------------------------------------------------------------
  // Agreement with the class-based system

  function IntValues(args: seq<int>): (r: seq<Value>)
    ensures |r| == |args|
    ensures forall i :: 0 <= i < |args| ==> r[i] == PyInt(args[i])
  {
    seq(|args|, i requires 0 <= i < |args| => PyInt(args[i]))
  }

  /** The flags as a dtype.py option without default or extras. */
  function FlagOption(autoIncrement: bool, notNull: bool, primaryKey: bool): DType.ColumnOption {
    DType.MakeOption([], autoIncrement, PyNone, notNull, primaryKey)
  }

  /** Both systems accept exactly the same integer parameters for a kind. */
  lemma SameAcceptance(k: Kind, args: seq<int>, ai: bool, nn: bool, pk: bool)
    ensures Call(Template(k), args, ai, nn, pk).Ok? <==> DType.Accepts(k, IntValues(args))
  {
    var vs := IntValues(args);
    assert DType.AllInts(vs);
    if |args| == Arity(k) && Arity(k) > 0 {
      assert AsInt(vs[0]) == args[0];
      if Arity(k) == 2 {
        assert AsInt(vs[1]) == args[1];
      }
    }
  }

  lemma PrefixedFlag(c: bool, x: string, rest: seq<string>)
    ensures Prefixed(DType.Flag(c, [x]) + rest) == (if c then " " + x else "") + Prefixed(rest)
  {
    if c {
      assert ([x] + rest)[1..] == rest;
    } else {
      assert DType.Flag(c, [x]) + rest == rest;
    }
  }

  /** Appending `" " + w` per set flag is joining the set flags' words with spaces. */
  lemma SpacedFlags(ai: bool, nn: bool, pk: bool, a: string, n: string, p: string, sa: string, sn: string, sp: string)
    requires |a| > 0 && |n| > 0 && |p| > 0
    requires sa == " " + a && sn == " " + n && sp == " " + p
    ensures var items := DType.Flag(ai, [a]) + (DType.Flag(nn, [n]) + DType.Flag(pk, [p]));
      var text := Join(" ", items);
      (if ai then sa else "") + ((if nn then sn else "") + (if pk then sp else ""))
        == if text == "" then "" else " " + text
  {
    var i3 := DType.Flag(pk, [p]);
    var i2 := DType.Flag(nn, [n]) + i3;
    var items := DType.Flag(ai, [a]) + i2;
    PrefixedFlag(pk, p, []);
    assert DType.Flag(pk, [p]) + [] == i3;
    PrefixedFlag(nn, n, i3);
    PrefixedFlag(ai, a, i2);
    JoinEmpty(" ", items);
    if |items| > 0 {
      PrefixedJoin(items);
      assert |items[0]| > 0;
    }
  }

  lemma ItemsOfFlags(ai: bool, nn: bool, pk: bool)
    ensures DType.OptionItems(FlagOption(ai, nn, pk)) ==
      DType.Flag(ai, ["AUTO_INCREMENT"]) + (DType.Flag(nn, ["NOT NULL"]) + DType.Flag(pk, ["PRIMARY KEY"]))
  {
    var o := FlagOption(ai, nn, pk);
    assert o == DType.ColumnOption(ai, PyNone, nn, pk, []);
    var i3 := DType.Flag(nn, ["NOT NULL"]) + DType.Flag(pk, ["PRIMARY KEY"]);
    assert DType.Flag(false, ["DEFAULT " + Str(PyNone)]) + i3 == i3;
    assert DType.Flag(pk, ["PRIMARY KEY"]) + [] == DType.Flag(pk, ["PRIMARY KEY"]);
  }

  lemma FlagWords()
    ensures " " + "AUTO_INCREMENT" == " AUTO_INCREMENT"
    ensures " " + "NOT NULL" == " NOT NULL"
    ensures " " + "PRIMARY KEY" == " PRIMARY KEY"
  {
  }

  /** The flag suffix of a call is the rendering of the same flags as a dtype.py option,
      after a separating space. */
  lemma FlagSuffixIsOption(ai: bool, nn: bool, pk: bool)
    ensures var text := DType.RenderOption(FlagOption(ai, nn, pk));
      FlagSuffix(ai, nn, pk) == if text == "" then "" else " " + text
  {
    ItemsOfFlags(ai, nn, pk);
    FlagWords();
    SpacedFlags(ai, nn, pk, "AUTO_INCREMENT", "NOT NULL", "PRIMARY KEY", " AUTO_INCREMENT", " NOT NULL", " PRIMARY KEY");
  }

  lemma TemplateShape(k: Kind)
    ensures Template(k).name == SqlName(k) && Template(k).required == Arity(k)
    ensures Arity(k) != 0 ==> !RuleOf(k).NoRule? && RuleArity(RuleOf(k)) == Arity(k)
  {
  }

  /** The text of a successful call: the name, the parameters in parentheses when the type
      takes any, then the flag suffix. */
  lemma CallTextOf(t: DataType, args: seq<int>, ai: bool, nn: bool, pk: bool)
    requires Call(t, args, ai, nn, pk).Ok?
    ensures Call(t, args, ai, nn, pk).value.text ==
      (if t.required != 0 then t.name + "(" + Join(",", IntTexts(args)) + ")" else t.name) + FlagSuffix(ai, nn, pk)
  {
    assert CheckCall(t, args).Ok?;
  }

  /** The text of a call is the dtype.py head followed by the flag suffix. */
  lemma CallText(k: Kind, args: seq<int>, ai: bool, nn: bool, pk: bool)
    requires Call(Template(k), args, ai, nn, pk).Ok?
    ensures Call(Template(k), args, ai, nn, pk).value.text ==
      DType.TypeName(k) + DType.ArgsText(IntValues(args)) + FlagSuffix(ai, nn, pk)
  {
    TemplateShape(k);
    ClassNameUpper(k);
    CallTextNamed(Template(k), SqlName(k), Arity(k), args, ai, nn, pk);
  }

  /** `CallText` for any type with a given name and parameter count. */
  lemma CallTextNamed(t: DataType, name: string, arity: nat, args: seq<int>, ai: bool, nn: bool, pk: bool)
    requires t.name == name && t.required == arity
    requires Call(t, args, ai, nn, pk).Ok?
    requires arity != 0 ==> !t.rule.NoRule? && RuleArity(t.rule) == arity
    ensures Call(t, args, ai, nn, pk).value.text == name + DType.ArgsText(IntValues(args)) + FlagSuffix(ai, nn, pk)
  {
    CallTextOf(t, args, ai, nn, pk);
    StrAllInts(args);
    var j := Join(",", IntTexts(args));
    if arity != 0 {
      assert |IntValues(args)| > 0;
      assert DType.ArgsText(IntValues(args)) == "(" + j + ")";
      assert name + "(" + j + ")" == name + ("(" + j + ")");
    } else {
      assert |IntValues(args)| == 0;
      assert DType.ArgsText(IntValues(args)) == "";
      assert name + "" == name;
    }
  }

  /** `str()` of each integer parameter is its decimal text. */
  lemma StrAllInts(args: seq<int>)
    ensures DType.StrAll(IntValues(args)) == IntTexts(args)
  {
  }

  lemma SuffixEnd(ai: bool, nn: bool, pk: bool)
    requires ai || nn || pk
    ensures var suffix := FlagSuffix(ai, nn, pk);
      |suffix| > 0 && !IsSpace(suffix[|suffix| - 1])
  {
    var suffix := FlagSuffix(ai, nn, pk);
    if pk {
      assert suffix[|suffix| - 1] == 'Y';
    } else if nn {
      assert suffix[|suffix| - 1] == 'L';
    } else {
      assert suffix[|suffix| - 1] == 'T';
    }
  }

  lemma StripKept(head: string, text: string)
    requires |head| > 0 && !IsSpace(head[0])
    requires |text| > 0 && !IsSpace(text[|text| - 1])
    ensures Strip(head + " " + text) == head + (" " + text)
  {
    var f := head + (" " + text);
    assert f[|f| - 1] == text[|text| - 1];
    StripBounded(f, "");
    assert f + "" == f;
    assert head + " " + text == f;
  }

  lemma CallAgreesWithRenderFlagged(k: Kind, args: seq<int>, ai: bool, nn: bool, pk: bool)
    requires Call(Template(k), args, ai, nn, pk).Ok?
    requires DType.Accepts(k, IntValues(args))
    requires ai || nn || pk
    ensures Call(Template(k), args, ai, nn, pk).value.text ==
      DType.Render(DType.Descriptor(k, IntValues(args), Some(FlagOption(ai, nn, pk))))
  {
    var vs := IntValues(args);
    var head := DType.TypeName(k) + DType.ArgsText(vs);
    var o := FlagOption(ai, nn, pk);
    var text := DType.RenderOption(o);
    CallText(k, args, ai, nn, pk);
    FlagSuffixIsOption(ai, nn, pk);
    SuffixEnd(ai, nn, pk);
    DType.HeadRoundTrip(k, vs);
    assert DType.Render(DType.Descriptor(k, vs, Some(o))) == Strip(head + " " + text);
    FlaggedText(head, text, FlagSuffix(ai, nn, pk));
  }

  /** A head followed by a non-empty spaced suffix is what stripping `head + " " + text` gives. */
  lemma FlaggedText(head: string, text: string, suffix: string)
    requires |head| > 0 && !IsSpace(head[0])
    requires suffix == (if text == "" then "" else " " + text)
    requires |suffix| > 0 && !IsSpace(suffix[|suffix| - 1])
    ensures head + suffix == Strip(head + " " + text)
  {
    assert text != "";
    assert text[|text| - 1] == suffix[|suffix| - 1];
    StripKept(head, text);
  }

  /** The text of a successful call on a registered template is the dtype.py rendering of
      the same kind, parameters and flags. */
  lemma CallAgreesWithRender(k: Kind, args: seq<int>, ai: bool, nn: bool, pk: bool)
    requires Call(Template(k), args, ai, nn, pk).Ok?
    ensures DType.Define(k, IntValues(args), Some(FlagOption(ai, nn, pk))).Ok?
    ensures Call(Template(k), args, ai, nn, pk).value.text ==
      DType.Render(DType.Descriptor(k, IntValues(args), Some(FlagOption(ai, nn, pk))))
  {
    SameAcceptance(k, args, ai, nn, pk);
    if ai || nn || pk {
      CallAgreesWithRenderFlagged(k, args, ai, nn, pk);
    } else {
      CallText(k, args, ai, nn, pk);
      FlagSuffixIsOption(ai, nn, pk);
      DType.RenderBare(k, IntValues(args), Some(FlagOption(ai, nn, pk)));
    }
  }

  /** From the text of a successful call one reads back the SQL name, the parameters and
      the flags. */
  lemma CallRoundTrip(k: Kind, args: seq<int>, ai: bool, nn: bool, pk: bool)
    requires Call(Template(k), args, ai, nn, pk).Ok?
    ensures DType.DecodeRender(Call(Template(k), args, ai, nn, pk).value.text) ==
      Some(DType.RenderedType(SqlName(k), IntTexts(args), DType.OptionText(ai, None, nn, pk, [])))
    ensures forall i :: 0 <= i < |args| ==> ParseInt(IntTexts(args)[i]) == Some(args[i])
  {
    CallAgreesWithRender(k, args, ai, nn, pk);
    var o := FlagOption(ai, nn, pk);
    FlagOptionPlain(ai, nn, pk);
    DType.RenderRoundTrip(k, IntValues(args), Some(o));
    StrAllInts(args);
    forall i | 0 <= i < |args|
      ensures ParseInt(IntTexts(args)[i]) == Some(args[i])
    {
      ParseIntToString(args[i]);
    }
  }

  /** The option made of the flags alone is plain, and reads back as just the flags. */
  lemma FlagOptionPlain(ai: bool, nn: bool, pk: bool)
    ensures DType.PlainOption(FlagOption(ai, nn, pk))
    ensures DType.TextOfOpt(Some(FlagOption(ai, nn, pk))) == DType.OptionText(ai, None, nn, pk, [])
  {
  }
}
