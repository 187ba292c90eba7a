/** The name caches of server/src/db/database.py and mysql.py, and the server side they
    mirror. A cache maps each name it has seen to a placeholder (`None`) or to a
    materialised handle; the server holds a set of names, kept here in creation order
    (MySQL itself lists them sorted). */
module Catalog {
  import opened Wrappers
  import opened OrderedDict

  /** A cache entry: `None` until the name is materialised. */
  datatype Entry<H> = Placeholder | Handle(handle: H)

  type Cache<H> = Dict<string, Entry<H>>

  /** The cache after `for name in rows: self._data.setdefault(name[0])`. */
  function Refresh<H>(c: Cache<H>, names: seq<string>): (r: Cache<H>)
    requires Valid(c)
    ensures Valid(r)
    decreases |names|
  {
    if |names| == 0 then c else Refresh(SetDefault(c, names[0], Placeholder), names[1..])
  }

  /** Refreshing never removes a name and never overwrites an entry. */
  lemma {:induction false} RefreshKeeps<H>(c: Cache<H>, names: seq<string>)
    requires Valid(c)
    ensures forall k :: k in c.items ==> k in Refresh(c, names).items && Refresh(c, names).items[k] == c.items[k]
    decreases |names|
  {
    if |names| > 0 {
      RefreshKeeps(SetDefault(c, names[0], Placeholder), names[1..]);
    }
  }

  /** The names already cached keep their order at the front. */
  lemma {:induction false} RefreshKeepsOrder<H>(c: Cache<H>, names: seq<string>)
    requires Valid(c)
    ensures |c.keys| <= |Refresh(c, names).keys|
    ensures forall i :: 0 <= i < |c.keys| ==> Refresh(c, names).keys[i] == c.keys[i]
    decreases |names|
  {
    if |names| > 0 {
      var c1 := SetDefault(c, names[0], Placeholder);
      RefreshKeepsOrder(c1, names[1..]);
      assert forall i :: 0 <= i < |c.keys| ==> c1.keys[i] == c.keys[i];
    }
  }

  /** After a refresh every listed name is cached. */
  lemma {:induction false} RefreshCovers<H>(c: Cache<H>, names: seq<string>)
    requires Valid(c)
    ensures forall i :: 0 <= i < |names| ==> names[i] in Refresh(c, names).items
    decreases |names|
  {
    if |names| > 0 {
      var c1 := SetDefault(c, names[0], Placeholder);
      RefreshCovers(c1, names[1..]);
      RefreshKeeps(c1, names[1..]);
      forall i | 0 <= i < |names|
        ensures names[i] in Refresh(c, names).items
      {
        if i > 0 {
          assert names[i] == names[1..][i - 1];
        }
      }
    }
  }

  /** A refresh adds nothing but listed names, each as a placeholder. */
  lemma {:induction false} RefreshNew<H>(c: Cache<H>, names: seq<string>)
    requires Valid(c)
    ensures var r := Refresh(c, names);
      forall k :: k in r.items && k !in c.items ==> k in names && r.items[k] == Placeholder
    decreases |names|
  {
    if |names| > 0 {
      var c1 := SetDefault(c, names[0], Placeholder);
      RefreshNew(c1, names[1..]);
      RefreshKeeps(c1, names[1..]);
      var r := Refresh(c1, names[1..]);
      forall k | k in r.items && k !in c.items
        ensures k in names && r.items[k] == Placeholder
      {
        if k !in c1.items {
          assert k in names[1..];
        }
      }
    }
  }

  /** The three facts together. */
  lemma RefreshOnlyAdds<H>(c: Cache<H>, names: seq<string>)
    requires Valid(c)
    ensures var r := Refresh(c, names);
      && (forall k :: k in c.items ==> k in r.items && r.items[k] == c.items[k])
      && (forall i :: 0 <= i < |names| ==> names[i] in r.items)
      && (forall k :: k in r.items && k !in c.items ==> k in names && r.items[k] == Placeholder)
      && |c.keys| <= |r.keys| && r.keys[..|c.keys|] == c.keys
  {
    RefreshKeeps(c, names);
    RefreshKeepsOrder(c, names);
    RefreshCovers(c, names);
    RefreshNew(c, names);
  }

  /** A refresh that lists only names the cache already holds changes nothing. */
  lemma {:induction false} RefreshKnown<H>(c: Cache<H>, names: seq<string>)
    requires Valid(c)
    requires forall i :: 0 <= i < |names| ==> names[i] in c.items
    ensures Refresh(c, names) == c
    decreases |names|
  {
    if |names| > 0 {
      assert SetDefault(c, names[0], Placeholder) == c;
      RefreshKnown(c, names[1..]);
    }
  }

  /** `if name in self._data: del self._data[name]`: the name goes, every other entry stays. */
  function Evict<H>(c: Cache<H>, name: string): (r: Cache<H>)
    requires Valid(c)
    ensures Valid(r) && name !in r.items
    ensures forall k :: k in r.items <==> k in c.items && k != name
    ensures forall k :: k in r.items ==> r.items[k] == c.items[k]
  {
    if name in c.items then Remove(c, name) else c
  }

  // ---------------------------------------------------------------------------
  // The server

  /** `CREATE ... IF NOT EXISTS`: a name already there is left alone. */
  function AddName(ns: seq<string>, n: string): (r: seq<string>)
    requires Distinct(ns)
    ensures Distinct(r) && n in r
    ensures forall x :: x in r <==> x in ns || x == n
  {
    if n in ns then ns else ns + [n]
  }

  /** `DROP`: the name goes away. */
  function RemoveName(ns: seq<string>, n: string): (r: seq<string>)
    requires Distinct(ns)
    ensures Distinct(r) && n !in r
    ensures forall x :: x in r <==> x in ns && x != n
  {
    RemoveFrom(ns, n)
  }
}
