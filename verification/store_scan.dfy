/** `modifySkinPrices`: one pass over a string-to-string store that decodes every value,
    walks the decoded containers, and writes back exactly the entries whose walk changed
    something. */
module StoreScan {
  import opened Wrappers
  import opened JsonTree
  import opened PriceWalk

  /** The two host functions the scan relies on: `JSON.parse` (None where it throws) and
      `JSON.stringify`. Their text syntax is not modelled. */
  datatype Codec = Codec(parse: string -> Option<Json>, stringify: Json -> string)

  /** Decoding what the scan writes gives back the tree it encoded: for every tree `parse`
      can produce, the walked tree survives `stringify` then `parse`. JavaScript's pair has
      this property only for trees whose numbers are all finite: a literal beyond the double
      range parses to `Infinity`, which `stringify` writes as `null`. */
  ghost predicate RoundTripsWalked(c: Codec) {
    forall v, j :: c.parse(v) == Some(j) ==> c.parse(c.stringify(Walk(j).0)) == Some(Walk(j).0)
  }

  /** The body of the per-key callback: the value to write back for an entry holding `value`,
      or None when the entry is left alone (undecodable, not a container, or unchanged). */
  function RewriteEntry(c: Codec, value: string): Option<string> {
    match c.parse(value)
    case None => None
    case Some(data) =>
      if !IsContainer(data) then None
      else
        var (data', changed) := Walk(data);
        if changed then Some(c.stringify(data')) else None
  }

  /** `after` and `written` are what one scan of `before` produces: the same keys, the
      entries `RewriteEntry` rewrites replaced and recorded, every other entry kept. */
  ghost predicate Scanned(c: Codec, before: map<string, string>, after: map<string, string>,
                          written: set<string>)
  {
    && after.Keys == before.Keys
    && written <= before.Keys
    && (forall k :: k in before ==> (k in written <==> RewriteEntry(c, before[k]).Some?))
    && (forall k :: k in written ==> after[k] == RewriteEntry(c, before[k]).value)
    && (forall k :: k in before && k !in written ==> after[k] == before[k])
  }

  /** Partway through a scan of `store`: the keys still in `keys` are untouched, the others
      have been handled as one scan handles them. */
  ghost predicate ScannedExcept(c: Codec, store: map<string, string>, keys: set<string>,
                                after: map<string, string>, written: set<string>)
  {
    && keys <= store.Keys
    && after.Keys == store.Keys
    && written <= store.Keys - keys
    && (forall k :: k in store && k !in keys ==> (k in written <==> RewriteEntry(c, store[k]).Some?))
    && (forall k :: k in written ==> after[k] == RewriteEntry(c, store[k]).value)
    && (forall k :: k in store && k !in written ==> after[k] == store[k])
  }

  /** Handling one more key keeps the scan on track. */
  lemma ScanStep(c: Codec, store: map<string, string>, keys: set<string>,
                 after: map<string, string>, written: set<string>, key: string)
    requires ScannedExcept(c, store, keys, after, written)
    requires key in keys
    ensures after[key] == store[key]
    ensures var update := RewriteEntry(c, store[key]);
            ScannedExcept(c, store, keys - {key},
                          if update.Some? then after[key := update.value] else after,
                          if update.Some? then written + {key} else written)
  {
  }

  /** One run over the store, visiting its keys in an arbitrary order. Returns the new store,
      the keys written back, and the `modified` flag. */
  method ModifySkinPrices(store: map<string, string>, c: Codec)
    returns (after: map<string, string>, written: set<string>, modified: bool)
    ensures Scanned(c, store, after, written)
    ensures modified <==> written != {}
  {
    after := store;
    written := {};
    modified := false;
    var keys := store.Keys;
    while keys != {}
      invariant ScannedExcept(c, store, keys, after, written)
      invariant modified <==> written != {}
      decreases |keys|
    {
      var key :| key in keys;
      ScanStep(c, store, keys, after, written, key);
      var update := RewriteEntry(c, after[key]);
      if update.Some? {
        after := after[key := update.value];
        written := written + {key};
        modified := true;
      }
      keys := keys - {key};
    }
  }

  /** Write iff changed: an entry is written back exactly when it decodes to a container
      holding a number other than the target under a price-like name. */
  lemma RewriteIffPending(c: Codec, value: string)
    ensures RewriteEntry(c, value).Some? <==>
              c.parse(value).Some? && IsContainer(c.parse(value).value) && HasPending(c.parse(value).value)
  {
    if c.parse(value).Some? {
      WalkChangedIffPending(c.parse(value).value);
    }
  }

  /** What is written back decodes to the same skeleton with every price settled, and a
      second visit leaves it alone. */
  lemma RewrittenEntrySettled(c: Codec, value: string)
    requires RoundTripsWalked(c)
    requires RewriteEntry(c, value).Some?
    ensures c.parse(value).Some?
    ensures c.parse(RewriteEntry(c, value).value) == Some(Walk(c.parse(value).value).0)
    ensures SameShape(c.parse(value).value, c.parse(RewriteEntry(c, value).value).value)
    ensures !HasPending(c.parse(RewriteEntry(c, value).value).value)
    ensures RewriteEntry(c, RewriteEntry(c, value).value).None?
  {
    var data := c.parse(value).value;
    var r := Walk(data).0;
    assert c.parse(c.stringify(r)) == Some(r) by {
      assert c.parse(value) == Some(data);
    }
    WalkPreservesShape(data);
    WalkSettlesAll(data);
    WalkChangedIffPending(r);
  }

  /** Entries that do not decode, or decode to null or a scalar, are never written and stay
      exactly as they were. */
  lemma SkippedEntryUntouched(c: Codec, before: map<string, string>, after: map<string, string>,
                              written: set<string>, k: string)
    requires Scanned(c, before, after, written)
    requires k in before
    requires c.parse(before[k]).None? || !IsContainer(c.parse(before[k]).value)
    ensures k !in written && after[k] == before[k]
  {
  }

  /** Store-level idempotence: a second scan writes nothing and leaves the store as the first
      scan left it. */
  lemma ScanIdempotent(c: Codec, s0: map<string, string>, s1: map<string, string>, w1: set<string>,
                       s2: map<string, string>, w2: set<string>)
    requires RoundTripsWalked(c)
    requires Scanned(c, s0, s1, w1)
    requires Scanned(c, s1, s2, w2)
    ensures w2 == {}
    ensures s2 == s1
  {
    forall k | k in s1
      ensures RewriteEntry(c, s1[k]).None?
    {
      if k in w1 {
        RewrittenEntrySettled(c, s0[k]);
      }
    }
  }
}
