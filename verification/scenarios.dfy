/** Worked examples of the walk on small saved records. */
module Scenarios {
  import opened Wrappers
  import opened PriceKeys
  import opened JsonTree
  import opened PriceWalk
  import opened StoreScan

  /** `{"coins": 50, "name": "hero"}` becomes `{"coins": 500, "name": "hero"}`. */
  lemma CoinsAreRaised()
    ensures Walk(JObj([("coins", JNum(50.0)), ("name", JStr("hero"))]))
         == (JObj([("coins", JNum(500.0)), ("name", JStr("hero"))]), true)
  {
    MatchingExamples();
    var fs := [("coins", JNum(50.0)), ("name", JStr("hero"))];
    var r := Walk(JObj(fs)).0;
    assert Visit(fs[0].0, fs[0].1) == (JNum(500.0), true);
    assert Visit(fs[1].0, fs[1].1) == (JStr("hero"), false);
    assert r.fields == [("coins", JNum(500.0)), ("name", JStr("hero"))];
  }

  /** `{"items":[{"unlockCost":10},{"unlockCost":500}]}`: the first price is raised, the
      second is already the target, and the record counts as changed. */
  lemma NestedUnlockCosts()
    ensures Walk(JObj([("items", JArr([JObj([("unlockCost", JNum(10.0))]), JObj([("unlockCost", JNum(500.0))])]))]))
         == (JObj([("items", JArr([JObj([("unlockCost", JNum(500.0))]), JObj([("unlockCost", JNum(500.0))])]))]), true)
  {
    MatchingExamples();
    var first := JObj([("unlockCost", JNum(10.0))]);
    var second := JObj([("unlockCost", JNum(500.0))]);
    assert Walk(first) == (JObj([("unlockCost", JNum(500.0))]), true) by {
      assert Visit(first.fields[0].0, first.fields[0].1) == (JNum(500.0), true);
      assert Walk(first).0.fields == [("unlockCost", JNum(500.0))];
    }
    assert Walk(second) == (second, false) by {
      assert Visit(second.fields[0].0, second.fields[0].1) == (JNum(500.0), false);
      assert Walk(second).0.fields == second.fields;
    }
    var items := JArr([first, second]);
    assert Visit(DecimalKey(0), first) == (JObj([("unlockCost", JNum(500.0))]), true);
    assert Visit(DecimalKey(1), second) == (second, false);
    assert Walk(items).0.elems == [JObj([("unlockCost", JNum(500.0))]), second];
    assert Walk(items).1;
    var top := [("items", items)];
    assert Visit(top[0].0, top[0].1) == Walk(items);
    assert Walk(JObj(top)).0.fields == [("items", Walk(items).0)];
  }

  /** `{"volume": 80}` has no price-like name and is left alone. */
  lemma VolumeIsLeftAlone()
    ensures Walk(JObj([("volume", JNum(80.0))])) == (JObj([("volume", JNum(80.0))]), false)
  {
    MatchingExamples();
    var j := JObj([("volume", JNum(80.0))]);
    assert Walk(j).0.fields == j.fields;
  }

  /** `{"price": "free"}`: a matching name holding a string is left alone. */
  lemma StringPriceIsLeftAlone()
    ensures Walk(JObj([("price", JStr("free"))])) == (JObj([("price", JStr("free"))]), false)
  {
    var j := JObj([("price", JStr("free"))]);
    assert Walk(j).0.fields == j.fields;
  }

  /** A stored record holding the coins example is written back as the raised record. */
  lemma CoinsEntryIsWritten(c: Codec, raw: string)
    requires c.parse(raw) == Some(JObj([("coins", JNum(50.0)), ("name", JStr("hero"))]))
    ensures RewriteEntry(c, raw) == Some(c.stringify(JObj([("coins", JNum(500.0)), ("name", JStr("hero"))])))
  {
    CoinsAreRaised();
  }

  /** A two-text codec: "a" decodes to `{"coins": 50}`, "b" to `{"coins": 500}`, and the
      latter encodes as "b". */
  function SampleCodec(): Codec {
    Codec(
      v => if v == "a" then Some(JObj([("coins", JNum(50.0))]))
           else if v == "b" then Some(JObj([("coins", JNum(500.0))]))
           else None,
      j => if j == JObj([("coins", JNum(500.0))]) then "b" else "")
  }

  /** The round-trip law the store lemmas assume is met by a codec under which an entry is
      actually rewritten; the entry is then settled. */
  lemma SampleCodecRoundTrips()
    ensures RoundTripsWalked(SampleCodec())
    ensures RewriteEntry(SampleCodec(), "a") == Some("b")
    ensures RewriteEntry(SampleCodec(), "b") == None
  {
    MatchingExamples();
    var raised := JObj([("coins", JNum(500.0))]);
    var low := JObj([("coins", JNum(50.0))]);
    assert Walk(low) == (raised, true) by {
      assert Visit(low.fields[0].0, low.fields[0].1) == (JNum(500.0), true);
      assert Walk(low).0.fields == raised.fields;
    }
    assert Walk(raised) == (raised, false) by {
      assert Visit(raised.fields[0].0, raised.fields[0].1) == (JNum(500.0), false);
      assert Walk(raised).0.fields == raised.fields;
    }
  }
}
