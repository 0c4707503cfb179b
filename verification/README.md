# Skin price rewriter: a Dafny model

This project models the storage price rewriter of a browser-extension game mod: the function
`modifySkinPrices` in `game-source/skin-price-mod.js` and its nested recursive walk `modifyPrices`.

The rewriter takes a snapshot of the keys of the page's string-to-string `localStorage`. It
decodes each value with `JSON.parse`. Values that throw, or that decode to `null` or a scalar,
are skipped. Any other value is a decoded object or array, and the rewriter walks it with
`for..in` at every depth. A number becomes `500` when it sits under a property whose name,
lower-cased, contains `price`, `cost`, `unlock`, `gold` or `coins`, and is not already `500`.
An entry is re-encoded with `JSON.stringify` and written back only when its walk changed
something. A `modified` flag records whether any entry was written.

Files:

- `wrappers.dfy`: `Option`.
- `price_keys.dfy` (`PriceKeys`): the vocabulary and ASCII lower-casing. `Contains` models
  `includes` and `IsPriceKey` models the `some` test. `DecimalKey` is the property name
  `for..in` hands out for an array position.
- `json_tree.dfy` (`JsonTree`): the `Json` datatype and `Members`, the (key, value) pairs a
  `for..in` loop visits. Arrays give decimal index names; objects give their own properties
  in order. It also holds `Member`, which follows a path of member positions, and
  `SameShape`, which means the same skeleton with only numbers free to differ.
- `price_walk.dfy` (`PriceWalk`): `Visit` (one loop iteration) and `Walk` (`modifyPrices`).
  The walk returns the rewritten tree together with the per-entry `changed` flag. The file
  also holds the walk's properties.
- `store_scan.dfy` (`StoreScan`): the per-entry callback and the scan over a
  `map<string, string>`, plus the store-level properties.
- `scenarios.dfy` (`Scenarios`): worked examples on small records.

`JSON.parse` and `JSON.stringify` are not modelled as text. They are the two fields of a
`Codec` value passed to the scan. `parse` yields `None` where the host function throws. The
only law assumed of them is `RoundTripsWalked`: for any tree `parse` can produce, encoding
the walked tree and decoding it again gives back the walked tree. It appears as a
precondition of the lemmas that need it. `Scenarios.SampleCodecRoundTrips` shows a codec
that meets this law and under which an entry is actually rewritten. The store is passed in and returned
rather than read from a global. Keys are visited in an arbitrary order, picked by
nondeterministic choice, because the source relies on no particular order.

## Model

| member | source | states |
|---|---|---|
| `PriceKeys.Lower` | game-source/skin-price-mod.js:31 | lower-casing keeps the length, leaves no upper-case ASCII letter, changes no other character, and maps each upper-case letter to its lower-case letter |
| `PriceKeys.LowerIdempotent` | game-source/skin-price-mod.js:31 | lower-casing an already lower-cased name changes nothing |
| `PriceKeys.DecimalKey` | game-source/skin-price-mod.js:28 | the name `for..in` gives an array position is a non-empty string of decimal digits |
| `PriceKeys.DecimalKeyIsNotPriceKey` | game-source/skin-price-mod.js:25-31 | no array index name matches the price vocabulary |
| `PriceKeys.IsPriceKeyIgnoresCase` | game-source/skin-price-mod.js:31 | a name matches the vocabulary exactly when its lower-cased form does |
| `PriceKeys.DecimalKeyInjective` | game-source/skin-price-mod.js:28 | distinct array positions get distinct names |
| `PriceKeys.MatchingExamples` | game-source/skin-price-mod.js:25-31 | `Gold_Cost`, `goldCost`, `unlockCost` and `coins` match; `metadata`, `volume` and `name` do not |
| `JsonTree.ArrayMemberNamesDistinct` | game-source/skin-price-mod.js:28 | `for..in` over an array visits every position once, each under a name no other position has |
| `PriceWalk.WalkPreservesShape` | game-source/skin-price-mod.js:27-39 | the walk adds, removes and reorders no property or element; only numbers may differ |
| `PriceWalk.WalkMemberAt` | game-source/skin-price-mod.js:28-37 | a path reaches a member after the walk iff it did before, under the same name and with the same shape. A non-container value becomes 500 iff it is a number under a price-like name; a string, boolean or null, or any value under another name, is unchanged. A container under a price-like name is walked, not overwritten |
| `PriceWalk.ArrayNumbersUntouched` | game-source/skin-price-mod.js:28-32 | a number held directly in an array is never changed |
| `PriceWalk.WalkChangedIffPending` | game-source/skin-price-mod.js:22-35 | the change flag is true iff the input holds, at some path, a number other than 500 under a price-like name |
| `PriceWalk.WalkSettlesAll` | game-source/skin-price-mod.js:31-34 | after the walk, every number under a price-like name, at any depth, equals 500 |
| `PriceWalk.WalkUnchangedIsIdentity` | game-source/skin-price-mod.js:29-37 | when the walk reports no change, the tree is exactly as it was |
| `PriceWalk.WalkIdempotent` | game-source/skin-price-mod.js:27-41 | walking an already walked tree reports no change and returns that tree |
| `StoreScan.ModifySkinPrices` | game-source/skin-price-mod.js:9-57 | the scan creates and deletes no key, writes back exactly the entries the per-entry rule rewrites, leaves every other entry byte-identical, and sets `modified` iff it wrote some entry |
| `StoreScan.RewriteIffPending` | game-source/skin-price-mod.js:18-44 | an entry is written iff it decodes to an object or array holding a number other than 500 under a price-like name |
| `StoreScan.RewrittenEntrySettled` | game-source/skin-price-mod.js:41-44 | when the codec round-trips walked trees, a written value decodes to the walked tree. That tree has the original's skeleton and no unsettled price, and visiting the written value again writes nothing |
| `StoreScan.SkippedEntryUntouched` | game-source/skin-price-mod.js:17-51 | a value that does not decode, or decodes to null or a scalar, is not written and stays byte-identical |
| `StoreScan.ScanIdempotent` | game-source/skin-price-mod.js:9-52 | when the codec round-trips walked trees, a second scan writes nothing and leaves the store exactly as the first scan left it |
| `Scenarios.CoinsAreRaised` | game-source/skin-price-mod.js:27-39 | `{"coins": 50, "name": "hero"}` becomes `{"coins": 500, "name": "hero"}` and is reported changed |
| `Scenarios.NestedUnlockCosts` | game-source/skin-price-mod.js:27-39 | in `{"items":[{"unlockCost":10},{"unlockCost":500}]}` both costs end at 500 and the record is reported changed |
| `Scenarios.VolumeIsLeftAlone` | game-source/skin-price-mod.js:31 | `{"volume": 80}` is unchanged and reported unchanged |
| `Scenarios.StringPriceIsLeftAlone` | game-source/skin-price-mod.js:32 | `{"price": "free"}` is unchanged and reported unchanged |
| `Scenarios.SampleCodecRoundTrips` | game-source/skin-price-mod.js:41-44 | the round-trip law assumed by the store lemmas is met by a codec under which `{"coins": 50}` is written back as `{"coins": 500}`, and the written text is then left alone |
| `Scenarios.CoinsEntryIsWritten` | game-source/skin-price-mod.js:41-44 | a stored value decoding to the coins record is written back as the encoded raised record |

## Left out

- `PriceKeys.Lower`: lower-cases ASCII letters only. JavaScript's `toLowerCase` follows
  Unicode. For example, the Kelvin sign becomes `k`, so `UNLOC` followed by a Kelvin sign
  matches in the source but not in the model.
- JSON text syntax: `JSON.parse` and `JSON.stringify` are abstract (`Codec`). Only their
  round-trip law is assumed, so the model says nothing about how the written text is
  formatted.
- `StoreScan.RewrittenEntrySettled`: its round-trip assumption fails for JavaScript's own
  pair when a stored value holds a number literal beyond the double range. For example,
  `{"a":1e400,"price":1}` parses `a` to `Infinity`. The walk changes `price`, and the entry
  is written back as `{"a":null,"price":500}`. So a member outside the vocabulary turns
  into `null`, and the written text no longer decodes to the walked tree. The same holds for
  `StoreScan.ScanIdempotent`, which rests on the same assumption.
- Strings are sequences of Unicode scalar values, while stored keys and values, and the
  strings `JSON.parse` returns, are UTF-16 code-unit sequences. A name holding a lone
  surrogate cannot be represented. Matching is unaffected, because the vocabulary is ASCII.
- JavaScript number corner cases are not modelled: NaN, signed zero, overflow to Infinity
  and float precision. Numbers are exact reals compared with 500.
- Scheduling and output are not modelled: the three `setTimeout` calls, the
  `window.modifySkinPrices` export and every `console.log`, including the final message that
  the `modified` flag selects. The flag itself is modelled.
- The outer `try/catch` around store access is not modelled. In the source it catches and
  logs any failure and rethrows nothing, so the store model cannot fail.
- A `setItem` that throws (for example, storage quota exceeded) is not modelled. The source's
  inner `catch` swallows it, and the entry and `modified` stay unwritten. The model assumes
  every write succeeds.
- Exhausting the call stack on very deeply nested values is not modelled.
- `for..in` over a string primitive is not modelled. `Members` of a primitive is empty. The
  walk never descends into strings anyway, and their characters are never numbers.
- `StoreScan.ModifySkinPrices`: visits every stored key. `Object.keys(localStorage)` lists
  only the keys the host exposes as own enumerable properties. A stored key that shares its
  name with a property of `Storage.prototype` or `Object.prototype` (`length`, `key`,
  `getItem`, `toString`, ...) may be hidden from it, and the source then leaves that entry
  alone while the model rewrites it.
- Inherited enumerable properties are not modelled. `for..in` also visits enumerable
  properties a page adds to `Object.prototype` or `Array.prototype`, and parsed values inherit
  them. The model sees only the decoded tree's own members.
- `js/background.js`, `js/browser-polyfill.js` and `game-source/c3-loader.js` are not part
  of this model. They hold extension event wiring, API aliasing and a dynamic import, with no
  rewriting logic.
