/** The crawler's data preparation in server/src/crawler/store.py: the CSV rows of
    (book id, tag) folded into one comma-joined tag text per book, and `split_dict`,
    which cuts that dictionary into `n` consecutive, nearly equal parts. */
module Store {
  import opened Wrappers
  import opened Strings
  import opened OrderedDict

  // ---------------------------------------------------------------------------
  // split_dict

  /** `dictionary // 0` and `% 0`. */
  datatype SplitError = ZeroDivision

  /** The size of part `i`: the quotient, plus one for the first `len % n` parts. */
  function PartSize(len: nat, n: nat, i: nat): nat
    requires n > 0
  {
    len / n + (if i < len % n then 1 else 0)
  }

  /** Where part `i` starts: the sizes of the parts before it. */
  function PartStart(len: nat, n: nat, i: nat): nat
    requires n > 0
  {
    i * (len / n) + (if i < len % n then i else len % n)
  }

  lemma PartStartNext(len: nat, n: nat, i: nat)
    requires n > 0
    ensures PartStart(len, n, i + 1) == PartStart(len, n, i) + PartSize(len, n, i)
  {
    assert (i + 1) * (len / n) == i * (len / n) + len / n;
  }

  lemma MulMonotone(a: nat, b: nat, c: nat)
    requires a <= b
    ensures a * c <= b * c
  {
    assert b * c == a * c + (b - a) * c;
  }

  /** The parts before `i <= n` hold at most `len` keys, and all `n` parts hold all of them. */
  lemma PartStartBound(len: nat, n: nat, i: nat)
    requires n > 0 && i <= n
    ensures PartStart(len, n, i) <= PartStart(len, n, n) == len
  {
    var q, m := len / n, len % n;
    assert len == n * q + m;
    MulMonotone(i, n, q);
  }

  /** The keys of the parts, in order. */
  function AllKeys<K, V>(parts: seq<Dict<K, V>>): seq<K>
    decreases |parts|
  {
    if |parts| == 0 then [] else AllKeys(parts[..|parts| - 1]) + parts[|parts| - 1].keys
  }

  /** `p` is a well-formed dictionary whose every entry is an entry of `d`. */
  ghost predicate SubDict<K, V>(p: Dict<K, V>, d: Dict<K, V>) {
    Valid(p) && forall k :: k in p.items ==> k in d.items && p.items[k] == d.items[k]
  }

  /** The sub-dictionary of the keys in `[a, b)`. */
  function Slice<K, V>(d: Dict<K, V>, a: nat, b: nat): (r: Dict<K, V>)
    requires Valid(d) && a <= b <= |d.keys|
    ensures SubDict(r, d) && r.keys == d.keys[a..b]
  {
    var ks := d.keys[a..b];
    var r := Dict(ks, map k | k in ks :: d.items[k]);
    assert forall i, j :: 0 <= i < j < |ks| ==> ks[i] == d.keys[a + i] && ks[j] == d.keys[a + j];
    r
  }

  /** `split_dict(dictionary, n)`: `n` parts (none when `n` is negative, as `range(n)` is
      then empty, and ZeroDivisionError when `n` is 0). Part `i` holds `len // n` keys, one
      more for the first `len % n` parts; the parts' keys in order are the dictionary's keys,
      and each part keeps the dictionary's values. */
  method SplitDict<K, V>(d: Dict<K, V>, n: int) returns (r: Result<seq<Dict<K, V>>, SplitError>)
    requires Valid(d)
    ensures r.Err? <==> n == 0
    ensures n < 0 ==> r == Ok([])
    ensures n > 0 ==> r.Ok? && |r.value| == n
    ensures n > 0 ==> AllKeys(r.value) == d.keys
    ensures n > 0 ==> forall i :: 0 <= i < n ==> |r.value[i].keys| == PartSize(|d.keys|, n, i)
    ensures r.Ok? ==> forall i :: 0 <= i < |r.value| ==> SubDict(r.value[i], d)
  {
    if n == 0 {
      return Err(ZeroDivision);
    }
    if n < 0 {
      return Ok([]);
    }
    var len := |d.keys|;
    var parts: seq<Dict<K, V>> := [];
    var start := 0;
    var i := 0;
    while i < n
      invariant 0 <= i <= n && |parts| == i
      invariant start == PartStart(len, n, i) <= len
      invariant AllKeys(parts) == d.keys[..start]
      invariant forall j :: 0 <= j < i ==> |parts[j].keys| == PartSize(len, n, j)
      invariant forall j :: 0 <= j < i ==> SubDict(parts[j], d)
    {
      var size := PartSize(len, n, i);
      PartStartNext(len, n, i);
      PartStartBound(len, n, i + 1);
      var part := Slice(d, start, start + size);
      AllKeysAppend(parts, part, d.keys, start, start + size);
      parts := parts + [part];
      start := start + size;
      i := i + 1;
    }
    PartStartBound(len, n, n);
    assert d.keys[..len] == d.keys;
    return Ok(parts);
  }

  /** Appending the part of `[a, b)` to parts that cover `[0, a)` covers `[0, b)`. */
  lemma AllKeysAppend<K, V>(parts: seq<Dict<K, V>>, part: Dict<K, V>, keys: seq<K>, a: nat, b: nat)
    requires a <= b <= |keys|
    requires AllKeys(parts) == keys[..a] && part.keys == keys[a..b]
    ensures AllKeys(parts + [part]) == keys[..b]
  {
    assert (parts + [part])[..|parts|] == parts;
    assert keys[..a] + keys[a..b] == keys[..b];
  }

  /** The parts are balanced: sizes never grow along the list and differ by at most one,
      and when there are more parts than keys every part past the last key is empty. */
  lemma PartsBalanced(len: nat, n: nat, i: nat, j: nat)
    requires n > 0 && i <= j < n
    ensures PartSize(len, n, j) <= PartSize(len, n, i) <= PartSize(len, n, j) + 1
    ensures n > len && j >= len ==> PartSize(len, n, j) == 0
  {
    if n > len {
      assert len / n == 0 && len % n == len;
    }
  }

  // ---------------------------------------------------------------------------
  // The tag fold of main()

  /** What reading the CSV can raise: no header line (`next(reader)`), a short row
      (`row[0]`, `row[1]`), or a first cell `int()` rejects. */
  datatype LoadError = NoHeader | IndexError(row: nat) | ValueError(row: nat)

  /** One data row as `(int(row[0]), row[1])`; `line` numbers the row among the data rows. */
  function ParseRow(row: seq<string>, line: nat): Result<(int, string), LoadError> {
    if |row| == 0 then Err(IndexError(line))
    else
      match ParseInt(row[0])
      case None => Err(ValueError(line))
      case Some(bid) => if |row| < 2 then Err(IndexError(line)) else Ok((bid, row[1]))
  }

  /** The data rows, parsed, or the first failing row's error. */
  function ParseRows(rows: seq<seq<string>>, line: nat): (r: Result<seq<(int, string)>, LoadError>)
    ensures r.Ok? ==> |r.value| == |rows|
    ensures r.Ok? ==> forall i :: 0 <= i < |rows| ==> ParseRow(rows[i], line + i) == Ok(r.value[i])
    ensures r.Err? ==> exists i :: 0 <= i < |rows| && ParseRow(rows[i], line + i) == Err(r.error)
                                 && forall j :: 0 <= j < i ==> ParseRow(rows[j], line + j).Ok?
    decreases |rows|
  {
    if |rows| == 0 then Ok([])
    else
      match ParseRow(rows[0], line)
      case Err(e) => Err(e)
      case Ok(rec) =>
        match ParseRows(rows[1..], line + 1)
        case Err(e) => Err(e)
        case Ok(rest) => Ok([rec] + rest)
  }

  /** The loop body: a known book gets `,` and the tag appended, a new one is added last. */
  function Absorb(books: Dict<int, string>, rec: (int, string)): (r: Dict<int, string>)
    requires Valid(books)
    ensures Valid(r)
  {
    if rec.0 in books.items then Put(books, rec.0, books.items[rec.0] + "," + rec.1)
    else Put(books, rec.0, rec.1)
  }

  /** The loop over the data rows. */
  function Group(recs: seq<(int, string)>): (r: Dict<int, string>)
    ensures Valid(r)
    decreases |recs|
  {
    if |recs| == 0 then Empty() else Absorb(Group(recs[..|recs| - 1]), recs[|recs| - 1])
  }

  /** `main`'s reading: the header line skipped, then every data row folded in. */
  function Load(rows: seq<seq<string>>): Result<Dict<int, string>, LoadError> {
    if |rows| == 0 then Err(NoHeader)
    else
      match ParseRows(rows[1..], 0)
      case Err(e) => Err(e)
      case Ok(recs) => Ok(Group(recs))
  }

  // ---------------------------------------------------------------------------
  // The reference reading of the fold

  /** The tags given for `bid`, in row order. */
  function TagsOf(recs: seq<(int, string)>, bid: int): (r: seq<string>)
    decreases |recs|
  {
    if |recs| == 0 then []
    else
      var rest := TagsOf(recs[..|recs| - 1], bid);
      if recs[|recs| - 1].0 == bid then rest + [recs[|recs| - 1].1] else rest
  }

  lemma {:induction false} TagsOfEmpty(recs: seq<(int, string)>, bid: int)
    ensures TagsOf(recs, bid) == [] <==> forall i :: 0 <= i < |recs| ==> recs[i].0 != bid
    decreases |recs|
  {
    if |recs| > 0 {
      var p := recs[..|recs| - 1];
      TagsOfEmpty(p, bid);
      assert forall i :: 0 <= i < |p| ==> p[i] == recs[i];
    }
  }

  /** A book is in the result exactly when some row names it, and its text is all of its
      tags, in row order, joined with `,`. */
  lemma {:induction false} GroupJoinsTags(recs: seq<(int, string)>, bid: int)
    ensures bid in Group(recs).items <==> TagsOf(recs, bid) != []
    ensures bid in Group(recs).items ==> Group(recs).items[bid] == Join(",", TagsOf(recs, bid))
    decreases |recs|
  {
    if |recs| > 0 {
      var p := recs[..|recs| - 1];
      var last := recs[|recs| - 1];
      GroupJoinsTags(p, bid);
      if last.0 == bid && TagsOf(p, bid) != [] {
        JoinAppend(",", TagsOf(p, bid), [last.1]);
      }
    }
  }

  /** The book ids in the order they first appear. */
  function FirstSeen(recs: seq<(int, string)>): seq<int>
    decreases |recs|
  {
    if |recs| == 0 then []
    else
      var p := FirstSeen(recs[..|recs| - 1]);
      if recs[|recs| - 1].0 in p then p else p + [recs[|recs| - 1].0]
  }

  /** The result lists each book once, in the order of its first row. */
  lemma {:induction false} GroupOrder(recs: seq<(int, string)>)
    ensures Group(recs).keys == FirstSeen(recs)
    ensures forall bid :: bid in FirstSeen(recs) <==> bid in Group(recs).items
    decreases |recs|
  {
    if |recs| > 0 {
      GroupOrder(recs[..|recs| - 1]);
    }
  }

  /** An empty file raises on its missing header, and a file of only a header yields no
      books. */
  lemma LoadEdges(header: seq<string>)
    ensures Load([]) == Err(NoHeader)
    ensures Load([header]) == Ok(Empty())
  {
    assert [header][1..] == [];
  }
}
