/** String helpers with Python's meaning: `sep.join`, `s.split(c)`, `str(int)`,
    `s.upper()`, `s.strip()`, `s.replace('%', '%%')` and `s % ()`, each with the inverse or
    characterisation the statement builders rely on. */
module Strings {
  import opened Wrappers

  // ---------------------------------------------------------------------------
  // join / split

  /** Python's `sep.join(parts)`. */
  function Join(sep: string, parts: seq<string>): string
    decreases |parts|
  {
    if |parts| == 0 then ""
    else if |parts| == 1 then parts[0]
    else parts[0] + sep + Join(sep, parts[1..])
  }

  /** Python's `s.split(c)` for a one-character separator; `"".split(c)` is `[""]`. */
  function Split(c: char, s: string): (r: seq<string>)
    ensures |r| >= 1
    decreases |s|
  {
    if |s| == 0 then [""]
    else
      var rest := Split(c, s[1..]);
      if s[0] == c then [""] + rest
      else [[s[0]] + rest[0]] + rest[1..]
  }

  /** No piece that `Split` returns contains the separator. */
  lemma {:induction false} SplitPartsFree(c: char, s: string)
    ensures forall p :: p in Split(c, s) ==> c !in p
    decreases |s|
  {
    if |s| > 0 {
      SplitPartsFree(c, s[1..]);
      var rest := Split(c, s[1..]);
      if s[0] != c {
        assert c !in rest[0];
        assert c !in [s[0]] + rest[0];
        forall p | p in [[s[0]] + rest[0]] + rest[1..]
          ensures c !in p
        {
          if p != [s[0]] + rest[0] {
            assert p in rest;
          }
        }
      }
    }
  }

  lemma {:induction false} SplitNoSeparator(c: char, a: string)
    requires c !in a
    ensures Split(c, a) == [a]
    decreases |a|
  {
    if |a| > 0 {
      SplitNoSeparator(c, a[1..]);
      assert [a[0]] + a[1..] == a;
    }
  }

  lemma {:induction false} SplitAtSeparator(c: char, a: string, b: string)
    requires c !in a
    ensures Split(c, a + [c] + b) == [a] + Split(c, b)
    decreases |a|
  {
    var s := a + [c] + b;
    if |a| == 0 {
      assert s == [c] + b;
      assert s[1..] == b;
    } else {
      assert s[0] == a[0];
      assert s[1..] == a[1..] + [c] + b;
      SplitAtSeparator(c, a[1..], b);
      assert [a[0]] + a[1..] == a;
    }
  }

  /** Splitting undoes joining, as long as no piece contains the separator. */
  lemma {:induction false} SplitJoin(c: char, parts: seq<string>)
    requires |parts| >= 1
    requires forall p :: p in parts ==> c !in p
    ensures Split(c, Join([c], parts)) == parts
    decreases |parts|
  {
    if |parts| == 1 {
      SplitNoSeparator(c, parts[0]);
    } else {
      assert forall p :: p in parts[1..] ==> p in parts;
      SplitJoin(c, parts[1..]);
      SplitAtSeparator(c, parts[0], Join([c], parts[1..]));
      assert [parts[0]] + parts[1..] == parts;
    }
  }

  /** Splitting at a separator splits the two sides independently. */
  lemma {:induction false} SplitConcat(c: char, a: string, b: string)
    ensures Split(c, a + [c] + b) == Split(c, a) + Split(c, b)
    decreases |a|
  {
    var s := a + [c] + b;
    if |a| == 0 {
      assert s == [c] + b;
      assert s[1..] == b;
    } else {
      assert s[0] == a[0];
      assert s[1..] == a[1..] + [c] + b;
      SplitConcat(c, a[1..], b);
      var ra := Split(c, a[1..]);
      if a[0] != c {
        assert (ra + Split(c, b))[0] == ra[0];
        assert (ra + Split(c, b))[1..] == ra[1..] + Split(c, b);
      }
    }
  }

  /** Each text split, the pieces concatenated in order. */
  function SplitAll(c: char, ws: seq<string>): seq<string>
    decreases |ws|
  {
    if |ws| == 0 then [] else Split(c, ws[0]) + SplitAll(c, ws[1..])
  }

  /** Splitting a joined list splits every item, so items holding the separator fall apart
      into their pieces and the others stay whole. */
  lemma {:induction false} SplitOfJoin(c: char, ws: seq<string>)
    requires |ws| >= 1
    ensures Split(c, Join([c], ws)) == SplitAll(c, ws)
    decreases |ws|
  {
    if |ws| == 1 {
      assert SplitAll(c, ws[1..]) == [];
      assert Split(c, ws[0]) + [] == Split(c, ws[0]);
    } else {
      SplitOfJoin(c, ws[1..]);
      SplitConcat(c, ws[0], Join([c], ws[1..]));
    }
  }

  lemma {:induction false} SplitAllAppend(c: char, a: seq<string>, b: seq<string>)
    ensures SplitAll(c, a + b) == SplitAll(c, a) + SplitAll(c, b)
    decreases |a|
  {
    if |a| == 0 {
      assert a + b == b;
    } else {
      assert (a + b)[0] == a[0];
      assert (a + b)[1..] == a[1..] + b;
      SplitAllAppend(c, a[1..], b);
    }
  }

  /** Items without the separator are left whole. */
  lemma {:induction false} SplitAllWhole(c: char, ws: seq<string>)
    requires forall w :: w in ws ==> c !in w
    ensures SplitAll(c, ws) == ws
    decreases |ws|
  {
    if |ws| > 0 {
      assert ws[0] in ws;
      assert forall w :: w in ws[1..] ==> w in ws;
      SplitAllWhole(c, ws[1..]);
      SplitNoSeparator(c, ws[0]);
    }
  }

  lemma JoinConsHead(sep: string, x: char, parts: seq<string>)
    requires |parts| >= 1
    ensures Join(sep, [[x] + parts[0]] + parts[1..]) == [x] + Join(sep, parts)
  {
    var q := [[x] + parts[0]] + parts[1..];
    if |parts| > 1 {
      assert q[1..] == parts[1..];
    }
  }

  /** Joining undoes splitting, for every string. */
  lemma {:induction false} JoinSplit(c: char, s: string)
    ensures Join([c], Split(c, s)) == s
    decreases |s|
  {
    if |s| > 0 {
      JoinSplit(c, s[1..]);
      var rest := Split(c, s[1..]);
      if s[0] == c {
        assert ([""] + rest)[1..] == rest;
        assert s == [c] + s[1..];
      } else {
        JoinConsHead([c], s[0], rest);
        assert s == [s[0]] + s[1..];
      }
    }
  }

  /** Joining two non-empty lists is joining their two joins. */
  lemma {:induction false} JoinAppend(sep: string, a: seq<string>, b: seq<string>)
    requires |a| > 0 && |b| > 0
    ensures Join(sep, a + b) == Join(sep, a) + sep + Join(sep, b)
    decreases |a|
  {
    if |a| == 1 {
      assert (a + b)[0] == a[0];
      assert (a + b)[1..] == b;
    } else {
      assert (a + b)[0] == a[0];
      assert (a + b)[1..] == a[1..] + b;
      JoinAppend(sep, a[1..], b);
    }
  }

  /** The join is empty exactly for `[]` and `[""]` when the separator is non-empty. */
  lemma JoinEmpty(sep: string, parts: seq<string>)
    requires |sep| > 0
    ensures Join(sep, parts) == "" <==> (parts == [] || parts == [""])
  {
    if |parts| > 1 {
      assert |Join(sep, parts)| >= |sep|;
    }
  }

  /** A character occurs in a join only if it occurs in a piece or in the separator. */
  lemma {:induction false} JoinChars(sep: string, parts: seq<string>, c: char)
    requires c !in sep
    requires forall p :: p in parts ==> c !in p
    ensures c !in Join(sep, parts)
    decreases |parts|
  {
    if |parts| > 1 {
      assert forall p :: p in parts[1..] ==> p in parts;
      JoinChars(sep, parts[1..], c);
      assert parts[0] in parts;
    } else if |parts| == 1 {
      assert parts[0] in parts;
    }
  }

  /** `" " + p` for each part, concatenated: what a run of `s += " " + p` appends. */
  function Prefixed(parts: seq<string>): string
    decreases |parts|
  {
    if |parts| == 0 then "" else " " + parts[0] + Prefixed(parts[1..])
  }

  lemma {:induction false} PrefixedJoin(parts: seq<string>)
    requires |parts| > 0
    ensures " " + Join(" ", parts) == Prefixed(parts)
    decreases |parts|
  {
    if |parts| > 1 {
      PrefixedJoin(parts[1..]);
      assert Join(" ", parts) == parts[0] + " " + Join(" ", parts[1..]);
      assert " " + Join(" ", parts) == " " + parts[0] + (" " + Join(" ", parts[1..]));
    }
  }

  lemma {:induction false} PrefixedAppend(a: seq<string>, b: seq<string>)
    ensures Prefixed(a + b) == Prefixed(a) + Prefixed(b)
    decreases |a|
  {
    if |a| == 0 {
      assert a + b == b;
    } else {
      assert (a + b)[1..] == a[1..] + b;
      PrefixedAppend(a[1..], b);
    }
  }

  /** A space-joined list is its first word followed by the others, each after a space. */
  lemma JoinPrefixed(x: string, rest: seq<string>)
    ensures Join(" ", [x] + rest) == x + Prefixed(rest)
  {
    assert ([x] + rest)[1..] == rest;
    if |rest| > 0 {
      PrefixedJoin(rest);
    }
  }

  /** Takes the word `kw` off the front of `w` when it is there. */
  function TakeWord(w: seq<string>, kw: string): (bool, seq<string>) {
    if |w| >= 1 && w[0] == kw then (true, w[1..]) else (false, w)
  }

  /** Takes `kw v` off the front of `w` when `kw` is there, returning `v`. */
  function TakeKeyed(w: seq<string>, kw: string): (Option<string>, seq<string>) {
    if |w| >= 2 && w[0] == kw then (Some(w[1]), w[2..]) else (None, w)
  }

  /** The words `kw v` when a value is present, nothing otherwise. */
  function Keyed(kw: string, v: Option<string>): seq<string> {
    match v
    case None => []
    case Some(x) => [kw, x]
  }

  lemma TakeKeyedBack(kw: string, v: Option<string>, rest: seq<string>)
    requires |rest| > 0 ==> rest[0] != kw
    ensures TakeKeyed(Keyed(kw, v) + rest, kw) == (v, rest)
  {
    if v.Some? {
      assert ([kw, v.value] + rest)[2..] == rest;
    } else {
      assert Keyed(kw, v) + rest == rest;
    }
  }

  /** Python's `s.partition(c)` when `c` occurs: the text before the first `c` and after it. */
  function SplitFirst(c: char, s: string): (r: Option<(string, string)>)
    ensures r.Some? ==> r.value.0 + [c] + r.value.1 == s
    decreases |s|
  {
    if |s| == 0 then None
    else if s[0] == c then
      assert s == "" + [c] + s[1..];
      Some(("", s[1..]))
    else
      match SplitFirst(c, s[1..])
      case None => None
      case Some(p) =>
        assert [s[0]] + p.0 + [c] + p.1 == [s[0]] + (p.0 + [c] + p.1);
        Some(([s[0]] + p.0, p.1))
  }

  lemma {:induction false} SplitFirstAbsent(c: char, s: string)
    requires c !in s
    ensures SplitFirst(c, s).None?
    decreases |s|
  {
    if |s| > 0 {
      SplitFirstAbsent(c, s[1..]);
    }
  }

  lemma {:induction false} SplitFirstAt(c: char, a: string, b: string)
    requires c !in a
    ensures SplitFirst(c, a + [c] + b) == Some((a, b))
    decreases |a|
  {
    var s := a + [c] + b;
    if |a| == 0 {
      assert s == [c] + b;
      assert s[1..] == b;
    } else {
      assert s[0] == a[0];
      assert s[1..] == a[1..] + [c] + b;
      SplitFirstAt(c, a[1..], b);
      assert [a[0]] + a[1..] == a;
    }
  }

  // ---------------------------------------------------------------------------
  // str(int)

  predicate IsDigit(c: char) {
    '0' <= c <= '9'
  }

  predicate AllDigits(s: string) {
    forall i :: 0 <= i < |s| ==> IsDigit(s[i])
  }

  function DigitChar(d: nat): (c: char)
    requires d < 10
    ensures IsDigit(c)
  {
    ('0' as int + d) as char
  }

  function DigitValue(c: char): nat
    requires IsDigit(c)
  {
    c as int - '0' as int
  }

  /** Decimal digits of a natural number, without leading zeros. */
  function NatToString(n: nat): (r: string)
    ensures |r| >= 1 && AllDigits(r)
    decreases n
  {
    if n < 10 then [DigitChar(n)] else NatToString(n / 10) + [DigitChar(n % 10)]
  }

  /** Python's `str(n)` for an `int`. */
  function IntToString(n: int): string {
    if n < 0 then "-" + NatToString(-n) else NatToString(n)
  }

  /** The value of a non-empty run of decimal digits. */
  function ParseNat(s: string): nat
    requires |s| >= 1 && AllDigits(s)
    decreases |s|
  {
    if |s| == 1 then DigitValue(s[0])
    else ParseNat(s[..|s| - 1]) * 10 + DigitValue(s[|s| - 1])
  }

  /** Reads back an optionally negative run of decimal digits. */
  function ParseInt(s: string): Option<int> {
    if |s| >= 1 && AllDigits(s) then Some(ParseNat(s))
    else if |s| >= 2 && s[0] == '-' && AllDigits(s[1..]) then Some(-(ParseNat(s[1..]) as int))
    else None
  }

  lemma {:induction false} ParseNatToString(n: nat)
    ensures ParseNat(NatToString(n)) == n
    decreases n
  {
    if n >= 10 {
      var s := NatToString(n);
      ParseNatToString(n / 10);
      assert s[..|s| - 1] == NatToString(n / 10);
      assert s[|s| - 1] == DigitChar(n % 10);
    }
  }

  /** `str(n)` can be read back: the rendering of an int is injective. */
  lemma ParseIntToString(n: int)
    ensures ParseInt(IntToString(n)) == Some(n)
  {
    var s := IntToString(n);
    if n < 0 {
      assert s[1..] == NatToString(-n);
      assert !IsDigit(s[0]);
      ParseNatToString(-n);
    } else {
      ParseNatToString(n);
    }
  }

  /** `str(n)` holds only digits and a leading minus sign. */
  lemma IntToStringChars(n: int)
    ensures |IntToString(n)| >= 1
    ensures forall c :: c in IntToString(n) ==> IsDigit(c) || c == '-'
  {
  }

  // ---------------------------------------------------------------------------
  // upper / strip / replace

  function UpperChar(c: char): char {
    if 'a' <= c <= 'z' then (c as int - 32) as char else c
  }

  /** Python's `s.upper()` on ASCII letters. */
  function Upper(s: string): (r: string)
    ensures |r| == |s|
  {
    seq(|s|, i requires 0 <= i < |s| => UpperChar(s[i]))
  }

  /** The characters for which Python's `str.isspace()` holds. */
  predicate IsSpace(c: char) {
    || ('\t' <= c <= '\r')
    || ('\U{1C}' <= c <= ' ')
    || c == '\U{85}' || c == '\U{A0}' || c == '\U{1680}'
    || ('\U{2000}' <= c <= '\U{200A}')
    || c == '\U{2028}' || c == '\U{2029}' || c == '\U{202F}' || c == '\U{205F}' || c == '\U{3000}'
  }

  function LStrip(s: string): string
    decreases |s|
  {
    if |s| > 0 && IsSpace(s[0]) then LStrip(s[1..]) else s
  }

  function RStrip(s: string): string
    decreases |s|
  {
    if |s| > 0 && IsSpace(s[|s| - 1]) then RStrip(s[..|s| - 1]) else s
  }

  /** Python's `s.strip()`. */
  function Strip(s: string): string {
    RStrip(LStrip(s))
  }

  /** Stripping removes trailing white space and leaves a word-bounded string alone. */
  lemma {:induction false} RStripTrailing(a: string, b: string)
    requires |a| == 0 || !IsSpace(a[|a| - 1])
    requires forall i :: 0 <= i < |b| ==> IsSpace(b[i])
    ensures RStrip(a + b) == a
    decreases |b|
  {
    if |b| > 0 {
      var s := a + b;
      assert s[..|s| - 1] == a + b[..|b| - 1];
      RStripTrailing(a, b[..|b| - 1]);
    } else {
      assert a + b == a;
    }
  }

  lemma StripBounded(a: string, b: string)
    requires |a| > 0 && !IsSpace(a[0]) && !IsSpace(a[|a| - 1])
    requires forall i :: 0 <= i < |b| ==> IsSpace(b[i])
    ensures Strip(a + b) == a
  {
    assert (a + b)[0] == a[0];
    RStripTrailing(a, b);
  }

  /** Python's `s.replace('%', '%%')`. */
  function DoublePercent(s: string): string
    decreases |s|
  {
    if |s| == 0 then ""
    else (if s[0] == '%' then "%%" else [s[0]]) + DoublePercent(s[1..])
  }

  /** The inverse of `DoublePercent`: what a `%`-formatting pass reads back. */
  function UndoublePercent(s: string): string
    decreases |s|
  {
    if |s| == 0 then ""
    else if |s| >= 2 && s[0] == '%' && s[1] == '%' then "%" + UndoublePercent(s[2..])
    else [s[0]] + UndoublePercent(s[1..])
  }

  lemma {:induction false} UndoubleDouble(s: string)
    ensures UndoublePercent(DoublePercent(s)) == s
    decreases |s|
  {
    if |s| > 0 {
      UndoubleDouble(s[1..]);
      var d := DoublePercent(s);
      if s[0] == '%' {
        assert d[2..] == DoublePercent(s[1..]);
      } else {
        assert d[1..] == DoublePercent(s[1..]);
      }
      assert s == [s[0]] + s[1..];
    }
  }

  /** Doubling keeps every non-`%` character and only adds `%` signs. */
  lemma {:induction false} DoublePercentChars(s: string, c: char)
    requires c != '%'
    ensures c in DoublePercent(s) <==> c in s
    decreases |s|
  {
    if |s| > 0 {
      DoublePercentChars(s[1..], c);
      assert s == [s[0]] + s[1..];
    }
  }

  // ---------------------------------------------------------------------------
  // `%`-formatting with no arguments

  /** Python's `text % ()`, which the MySQL drivers apply to every statement they are given
      with an argument tuple, even an empty one: `%%` reads as `%`, and any other `%` is an
      error (an incomplete format, or a conversion with no argument left). */
  function Format(q: string): Option<string>
    decreases |q|
  {
    if |q| == 0 then Some("")
    else if q[0] == '%' then
      if |q| >= 2 && q[1] == '%' then
        match Format(q[2..])
        case None => None
        case Some(u) => Some("%" + u)
      else None
    else
      match Format(q[1..])
      case None => None
      case Some(u) => Some([q[0]] + u)
  }

  /** A character other than `%` is copied through. */
  lemma FormatPlain(c: char, t: string)
    requires c != '%'
    ensures Format([c] + t) == (match Format(t) case None => None case Some(u) => Some([c] + u))
  {
    assert ([c] + t)[1..] == t;
  }

  /** Splitting off the first character of a concatenation. */
  lemma ConsAppend(s: string, u: string)
    requires |s| > 0
    ensures s + u == [s[0]] + (s[1..] + u)
  {
    assert s == [s[0]] + s[1..];
  }

  /** A doubled `%` reads as one. */
  lemma FormatPercent(t: string)
    ensures Format("%%" + t) == (match Format(t) case None => None case Some(u) => Some("%" + u))
  {
    assert ("%%" + t)[2..] == t;
  }

  /** One character, doubled if it is a `%`, reads back as itself. */
  lemma FormatHead(c: char, rest: string)
    ensures var h := if c == '%' then "%%" else [c];
      && (Format(rest).None? ==> Format(h + rest).None?)
      && (Format(rest).Some? ==> Format(h + rest) == Some([c] + Format(rest).value))
  {
    if c == '%' {
      FormatPercent(rest);
    } else {
      FormatPlain(c, rest);
    }
  }

  /** Doubling works character by character. */
  lemma DoubledCons(s: string, t: string)
    requires |s| > 0
    ensures DoublePercent(s) + t == (if s[0] == '%' then "%%" else [s[0]]) + (DoublePercent(s[1..]) + t)
  {
  }

  /** Formatting reads doubled text back to the original and leaves what follows to be read
      on its own. */
  lemma {:induction false} FormatDoubled(s: string, t: string)
    ensures Format(t).None? ==> Format(DoublePercent(s) + t).None?
    ensures Format(t).Some? ==> Format(DoublePercent(s) + t) == Some(s + Format(t).value)
    decreases |s|
  {
    if |s| == 0 {
      assert DoublePercent(s) + t == t;
      if Format(t).Some? {
        assert s + Format(t).value == Format(t).value;
      }
    } else {
      FormatDoubled(s[1..], t);
      var rest := DoublePercent(s[1..]) + t;
      DoubledCons(s, t);
      FormatHead(s[0], rest);
      if Format(t).Some? {
        ConsAppend(s, Format(t).value);
      }
    }
  }


  /** Text without `%` is left as it is. */
  lemma {:induction false} FormatNoPercent(s: string)
    requires '%' !in s
    ensures Format(s) == Some(s)
    decreases |s|
  {
    if |s| > 0 {
      assert '%' !in s[1..] by {
        assert forall c :: c in s[1..] ==> c in s;
      }
      FormatNoPercent(s[1..]);
      FormatPlain(s[0], s[1..]);
      assert s == [s[0]] + s[1..];
    }
  }

  /** Two formatted texts concatenated; `None` when either failed. */
  function Then(a: Option<string>, b: Option<string>): (r: Option<string>)
    ensures r.Some? <==> a.Some? && b.Some?
  {
    if a.Some? && b.Some? then Some(a.value + b.value) else None
  }

  /** Formatting a concatenation formats each part on its own, provided a lone `%` at the end
      of the first part cannot pair with a `%` opening the second. */
  lemma {:induction false} FormatAppend(a: string, b: string)
    requires Format(a).Some? || |b| == 0 || b[0] != '%'
    ensures Format(a + b) == Then(Format(a), Format(b))
    decreases |a|
  {
    if |a| == 0 {
      assert a + b == b;
      if Format(b).Some? {
        assert "" + Format(b).value == Format(b).value;
      }
    } else if a[0] != '%' {
      ConsAppend(a, b);
      FormatPlain(a[0], a[1..]);
      assert a == [a[0]] + a[1..];
      FormatAppend(a[1..], b);
      FormatPlain(a[0], a[1..] + b);
      if Format(a[1..]).Some? && Format(b).Some? {
        assert [a[0]] + (Format(a[1..]).value + Format(b).value) == ([a[0]] + Format(a[1..]).value) + Format(b).value;
      }
    } else if |a| >= 2 && a[1] == '%' {
      assert a == "%%" + a[2..];
      assert a + b == "%%" + (a[2..] + b);
      FormatPercent(a[2..]);
      FormatAppend(a[2..], b);
      FormatPercent(a[2..] + b);
      if Format(a[2..]).Some? && Format(b).Some? {
        assert "%" + (Format(a[2..]).value + Format(b).value) == ("%" + Format(a[2..]).value) + Format(b).value;
      }
    } else {
      assert (a + b)[0] == '%';
      if |a| >= 2 {
        assert (a + b)[1] == a[1];
      }
    }
  }

  /** Each text formatted on its own; `None` when any one fails. */
  function FormatAll(ps: seq<string>): (r: Option<seq<string>>)
    ensures r.Some? ==> |r.value| == |ps|
    ensures r.Some? ==> forall i :: 0 <= i < |ps| ==> Format(ps[i]) == Some(r.value[i])
    ensures r.None? ==> exists i :: 0 <= i < |ps| && Format(ps[i]).None?
    decreases |ps|
  {
    if |ps| == 0 then Some([])
    else
      match (Format(ps[0]), FormatAll(ps[1..]))
      case (Some(x), Some(xs)) =>
        assert forall i :: 1 <= i < |ps| ==> ps[i] == ps[1..][i - 1];
        Some([x] + xs)
      case (None, _) => None
      case (_, None) =>
        assert forall i :: 0 <= i < |ps| - 1 ==> ps[1..][i] == ps[i + 1];
        None
  }

  /** Formatting a list joined by a separator without `%` formats each item. */
  lemma {:induction false} FormatJoin(sep: string, ps: seq<string>)
    requires |sep| > 0 && '%' !in sep
    ensures Format(Join(sep, ps)) == (if FormatAll(ps).Some? then Some(Join(sep, FormatAll(ps).value)) else None)
    decreases |ps|
  {
    if |ps| == 0 {
      FormatNoPercent("");
    } else if |ps| == 1 {
      if FormatAll(ps).Some? {
        var xs := FormatAll(ps).value;
        assert |xs| == 1;
      }
    } else {
      FormatJoin(sep, ps[1..]);
      FormatSeparated(ps[0], sep, Join(sep, ps[1..]));
      assert Join(sep, ps) == ps[0] + (sep + Join(sep, ps[1..]));
      FormatAllCons(sep, ps);
    }
  }

  /** A text, a separator without `%` and another text format part by part. */
  lemma FormatSeparated(p: string, sep: string, j: string)
    requires |sep| > 0 && '%' !in sep
    ensures Format(p + (sep + j)) == Then(Format(p), Then(Some(sep), Format(j)))
  {
    FormatNoPercent(sep);
    FormatAppend(sep, j);
    FormatAppend(p, sep + j);
  }

  lemma FormatAllCons(sep: string, ps: seq<string>)
    requires |ps| >= 2
    ensures FormatAll(ps).Some? <==> Format(ps[0]).Some? && FormatAll(ps[1..]).Some?
    ensures FormatAll(ps).Some? ==>
      Join(sep, FormatAll(ps).value) == Format(ps[0]).value + (sep + Join(sep, FormatAll(ps[1..]).value))
  {
    if FormatAll(ps).Some? {
      var xs := FormatAll(ps).value;
      assert xs[1..] == FormatAll(ps[1..]).value;
    }
  }

  /** A formatted part between texts without `%`. */
  lemma FormatAround(h: string, m: string, t: string)
    requires '%' !in h && '%' !in t
    ensures Format(h + m + t) == (if Format(m).Some? then Some(h + Format(m).value + t) else None)
  {
    FormatNoPercent(h);
    FormatNoPercent(t);
    assert |t| == 0 || t[0] != '%' by {
      if |t| > 0 {
        assert t[0] in t;
      }
    }
    FormatAppend(m, t);
    var mt := m + t;
    FormatAppend(h, mt);
    assert h + m + t == h + mt;
    if Format(m).Some? {
      var fm := Format(m).value;
      assert Format(mt) == Some(fm + t);
      assert h + (fm + t) == h + fm + t;
    }
  }

  /** Formatting each text to its counterpart is formatting the list. */
  lemma {:induction false} FormatAllEach(ps: seq<string>, xs: seq<string>)
    requires |ps| == |xs|
    requires forall i :: 0 <= i < |ps| ==> Format(ps[i]) == Some(xs[i])
    ensures FormatAll(ps) == Some(xs)
    decreases |ps|
  {
    if |ps| > 0 {
      FormatAllEach(ps[1..], xs[1..]);
      assert xs == [xs[0]] + xs[1..];
    }
  }
}
