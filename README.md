# csgo-stocks backend core in Dafny

This project models the request logic of the csgo-stocks Tauri backend, which tracks the
market value of a Steam inventory of CS:GO containers. It also proves properties of that
model. It covers the parts of `state.rs` and `requests.rs` that compute something:

- **`send_request` status check.** Any reply other than 200 becomes `StateError::Other`
  before the body is read.
- **`dedup_assets`.** This is a fold over a `HashMap` accumulator, followed by `into_values`.
  There is one asset per class: the first asset of the class, with its amount raised by one
  for every further asset of that class. The output order is unspecified.
- **Hydration in `fetch_user_items`.** The descriptions are indexed by class, and the last
  description of a class wins. Each asset then `remove`s its class's description and
  `unwrap`s it, so a missing class or a repeated class panics.
- **The two container filters.**
  - `fetch_user_containers` keeps `Base Grade Container` items and panics on an item without
    a type.
  - `get_all_csgo_containers` keeps catalog items typed `Container`, re-keyed by class.
- **The price fan-out of `get_asset_prices` and `get_asset_price_histories`.**
  - Fixed default options are overlaid by the caller's options.
  - There is one task per `(key, market_hash_name)` pair, and the joined results are
    collected into a map. The last task with a key wins, and a panicking task panics the
    call.
  - Histories are cut to their last 500 points. A shorter history panics the call.
- **The field decoders of `MarketPrice`.**
  - `deserialize_euro` drops the last character, rewrites `,` to `.` and `-` to `0`, then
    parses an `f32`.
  - `deserialize_comma_separated` removes every `,`, then parses a `usize`.
  - Both decoders `unwrap` the parse.
  - The derived deserializer reads the reply's members in order and calls a decoder as soon
    as it meets its field. A price or volume that does not decode therefore panics even
    when a field is missing or the JSON breaks further on.

Rust panics are modelled as `Outcome.Panicked`, kept apart from the `Result` errors that a
caller can inspect. The network is a parameter. A `Response` is either a failed `execute`
or a status plus a body. The price functions take `net`, a function from the merged options
and a market hash name to the reply. The iteration order of a `HashMap` is either a
nondeterministic choice (`:|` in `IntoValues`) or a parameter (the catalog's entry order in
`CatalogContainers`).

Files:

- `wrappers.dfy`: `Option`, `Result` and `Outcome`.
- `numbers.dfy`: decimal digits, plus `str::parse::<usize>` and `str::parse::<f32>`. The
  float parser keeps the exact decimal the text denotes.
- `requests.dfy`: the record types and the two decoders, with their round trips and
  rejections, and the member-by-member deserialization of a `MarketPrice` reply.
- `state.dfy`: the logic of `state.rs`.

Behaviour of the code that the model keeps as written:

- A history shorter than 500 points panics the call: `len() - 500` underflows or the slice
  start is out of range (src-tauri/src/state.rs:197). The history is not kept whole.
- An asset whose class has no description panics at the `unwrap` of `remove`
  (src-tauri/src/state.rs:108). There is no per-item error.
- The `success` field of the inventory reply is never checked by `fetch_user_items`.

## Model

| member | source | states |
|---|---|---|
| State.SendRequest | src-tauri/src/state.rs:60-75 | the result is `Ok` exactly for a 200 reply whose body decodes, and then holds the decoded body; a failed `execute` gives `ReqwestMiddleware`, any other status gives `Other(status)`, and on a 200 reply an unreadable body gives `Reqwest` and a body that does not decode gives `Serde` |
| State.StatusCheckedBeforeBody | src-tauri/src/state.rs:66-72 | under a non-200 status the body is never looked at: two such replies give the same error whatever their bodies |
| State.DedupEntryAppendSeen | src-tauri/src/state.rs:231-234 | a further asset of a class already seen adds exactly 1 to that class's entry and adds no class |
| State.DedupEntryAppendNew | src-tauri/src/state.rs:235-237 | the first asset of a class becomes that class's entry unchanged (the template) |
| State.DedupEntryAppendOther | src-tauri/src/state.rs:230-238 | an asset leaves the entries of all other classes as they are |
| State.FoldEntryIsDedupEntry | src-tauri/src/state.rs:228-240 | the fold's entry for a class equals the first asset of the class with amount `first.amount + occurrences - 1` |
| State.FoldStep | src-tauri/src/state.rs:230-239 | both branches of the fold's `match` (`get_mut` then `+= 1`, or `insert` of a clone) keep the accumulator equal to the fold of the assets seen so far |
| State.FoldAssets | src-tauri/src/state.rs:228-240 | the accumulator holds exactly the input's classes, and each class maps to its first asset with the amount raised by one per repeat |
| State.IntoValues | src-tauri/src/state.rs:241-242 | `into_values().collect()` yields every value of the map once, in any order, so no class repeats |
| State.DedupAssets | src-tauri/src/state.rs:227-243 | the output has one asset per class and exactly the input's classes; each output asset is that class's first asset with its amount raised by the number of repeats |
| State.DedupTotal | src-tauri/src/state.rs:231-233 | when every input amount is 1, the output amounts add up to the input length |
| State.DedupOfDistinct | src-tauri/src/state.rs:227-243 | a list without repeated classes is a valid deduplication of itself, and every deduplication of it is a permutation of it, so deduplicating is idempotent up to order |
| State.SameAssetsPermutation | src-tauri/src/state.rs:241-242 | two lists without repeated classes that hold the same assets are permutations of each other, so the order of `into_values` is the only freedom |
| State.DescriptionIndex | src-tauri/src/state.rs:95-99 | the class-to-description map holds exactly the classes of the descriptions, each mapped to a description of that class |
| State.DescriptionIndexLastWins | src-tauri/src/state.rs:95-99 | for a class described twice, the later description is the one kept |
| State.Hydrate | src-tauri/src/state.rs:105-111 | hydration returns exactly when every asset's class has a description and no two assets share a class, and otherwise panics; on success item `i` is asset `i` paired with its class's description |
| State.FailedRemove | src-tauri/src/state.rs:108 | a failed `remove` means a class without a description or a repeated class |
| State.FetchUserItems | src-tauri/src/state.rs:78-112 | request errors pass through; it panics exactly when a class lacks a description or (without `dedup`) a class repeats; the items are the deduplicated assets (with `dedup`) or the assets in order (without), each with its class's description |
| State.BaseGradeContainers | src-tauri/src/state.rs:122-125 | the filter panics exactly when some item has no type; otherwise it keeps exactly the items typed `Base Grade Container` |
| State.BaseGradeContainersCounts | src-tauri/src/state.rs:122-125 | each base grade container is kept as many times as it occurs in the input, and no other item is kept |
| State.BaseGradeContainersAppend | src-tauri/src/state.rs:122-125 | filtering a concatenation concatenates the filtered parts, so the kept items keep their relative order |
| State.BaseGradeContainersDistinct | src-tauri/src/state.rs:122-125 | filtering items without repeated classes leaves items without repeated classes |
| State.HydratedContainers | src-tauri/src/state.rs:121-125 | on hydrated items the filter panics exactly when a description of one of their classes has no type; otherwise every class described as a base grade container is kept |
| State.FetchUserContainers | src-tauri/src/state.rs:116-127 | errors pass through; it panics exactly when a class lacks a description or has an untyped description; every kept item is a base grade container carrying its class's deduplicated asset and description, every such class of the inventory is kept, and no class is kept twice |
| State.CatalogContainers | src-tauri/src/state.rs:210-220 | the map's keys are exactly the classes of the catalog entries typed `Container`; each value is such an entry of that class, so untyped entries and other types are dropped |
| State.CatalogContainersLastWins | src-tauri/src/state.rs:210-220 | of two containers sharing a class, the one later in iteration order is kept |
| State.CatalogContainersDistinct | src-tauri/src/state.rs:210-220 | when no two containers share a class, each container is found under its own class, whatever the iteration order |
| State.Extend | src-tauri/src/state.rs:141 | the merged options hold every default and every caller option; a caller option replaces the default of the same name |
| State.PriceOptions | src-tauri/src/state.rs:137-141 | price requests use `appid=730` and `currency=3` unless the caller sets those keys, plus every caller option |
| State.HistoryOptions | src-tauri/src/state.rs:171-176 | history requests additionally use `country=DE`, each default giving way to a caller value |
| State.CollectedPanics | src-tauri/src/state.rs:158-159 | collecting the joined tasks panics exactly when one task panicked |
| State.Collected | src-tauri/src/state.rs:159 | when no task panicked, the collected map's key set is exactly the set of task keys |
| State.CollectedLastWins | src-tauri/src/state.rs:159 | under a key that occurs several times, the map holds the result of the key's last task |
| State.CollectedIsolation | src-tauri/src/state.rs:152-159 | giving one task another non-panicking result (an error instead of a price) changes no other key's entry and no key |
| State.Collect | src-tauri/src/state.rs:158-160 | the loop over the joined tasks, which stops at the first panic, computes the collected map |
| State.FanOut | src-tauri/src/state.rs:143-160 | one task per input pair, in order: it panics exactly when a task panics; the map's keys are the input keys; each key holds the result of the key's last pair |
| State.PriceSlot | src-tauri/src/state.rs:152-154 | a price task passes every `send_request` error through; on a 200 reply it panics exactly when deserializing the `MarketPrice` panics, gives `Ok` exactly when the deserialization yields a price (and then that price), and gives `Err(Serde)` when the deserialization reports a serde error |
| State.PriceSlotDecodes | src-tauri/src/state.rs:152-154 | a 200 reply carrying the market's price texts, in the market's member order, becomes `Ok` of the prices in cents and the volume |
| State.GetAssetPrices | src-tauri/src/state.rs:131-161 | under the merged price options, it panics exactly when a task panics (a decoder `unwrap`); otherwise the map's keys are the input keys and each holds the result of its last pair's task (`send_request` plus decoding) |
| State.LastHistoryPoints | src-tauri/src/state.rs:197 | truncation succeeds exactly when there are at least 500 points, and then yields a 500-point suffix of the history |
| State.HistorySlot | src-tauri/src/state.rs:187-197 | a history task's request error passes through unchanged; an `Ok` history panics exactly when it has fewer than 500 points, and otherwise becomes `Ok` of exactly 500 points that are the end of the history |
| State.GetAssetPriceHistories | src-tauri/src/state.rs:165-200 | under the merged history options, it panics exactly when a history is too short; otherwise the map's keys are the input keys and each holds its last pair's truncated result |
| Requests.NormalizeEuro | src-tauri/src/requests.rs:124-126 | exactly the last character is dropped (an empty text stays empty); every remaining `,` becomes `.` and every `-` becomes `0`; all other characters are unchanged |
| Requests.Pop | src-tauri/src/requests.rs:125 | `pop` drops exactly the last character, and leaves an empty text empty |
| Requests.ReplaceChar | src-tauri/src/requests.rs:126 | a single-character `replace` keeps the length of the text |
| Requests.DeserializeEuro | src-tauri/src/requests.rs:118-128 | an accepted text is number text once normalised, and the decoded price is never negative because every dash is rewritten |
| Requests.ReplaceCharAt | src-tauri/src/requests.rs:126 | a single-character `replace` keeps the length and changes exactly the occurrences of the replaced character |
| Requests.EuroLastCharDropped | src-tauri/src/requests.rs:124-127 | digits, a comma, digits and any last character decode to the fixed-point number before that character |
| Requests.EuroCentsRoundTrip | src-tauri/src/requests.rs:118-128 | the market's text for any number of cents (`12,34€`) decodes back to that many cents |
| Requests.EuroWholeUnits | src-tauri/src/requests.rs:124-127 | the whole-euro text `N,--€` decodes to `N` euros |
| Requests.EuroDashIsZero | src-tauri/src/requests.rs:124-127 | `-€` decodes to zero |
| Requests.EuroDecimalComma | src-tauri/src/requests.rs:124-127 | `12,34€` decodes to 12.34 |
| Requests.ReplaceCharCountTarget | src-tauri/src/requests.rs:126 | after a replace, the count of the target character is its old count plus the count of the replaced character |
| Requests.ReplaceCharCountOther | src-tauri/src/requests.rs:126 | a replace leaves the count of every other character unchanged |
| Requests.EuroRejectsTwoSeparators | src-tauri/src/requests.rs:126-127 | two separators (points or commas) before the last character make the parse fail, so the decoder panics |
| Requests.EuroRejectsGroupedThousands | src-tauri/src/requests.rs:126-127 | a thousands point together with a decimal comma (`1.234,56€`) makes the parse fail |
| Requests.RemoveCommas | src-tauri/src/requests.rs:137 | no comma remains and the text never grows |
| Requests.DeserializeCommaSeparated | src-tauri/src/requests.rs:130-138 | a decoded volume is below `2^64`, and plain digits below `2^64` decode to their value |
| Requests.RemoveCommasAppend | src-tauri/src/requests.rs:137 | comma removal works piece by piece, keeping the other characters in order |
| Requests.CommaDropped | src-tauri/src/requests.rs:137 | a comma between two texts is removed as if it were absent |
| Requests.RemoveCommasNone | src-tauri/src/requests.rs:137 | text without commas is unchanged |
| Requests.GroupThousandsUngroups | src-tauri/src/requests.rs:137 | removing commas from digits grouped in threes gives back the digits |
| Requests.CommaSeparatedAnyCommas | src-tauri/src/requests.rs:137 | the digits of any `usize` with commas inserted anywhere decode to that number |
| Requests.CommaSeparatedRoundTrip | src-tauri/src/requests.rs:130-138 | every `usize` written with digit groups (`1,234,567`) decodes back to itself |
| Requests.CommaSeparatedOverflow | src-tauri/src/requests.rs:137 | a grouped number of `2^64` or more fails to parse, so the decoder panics |
| Requests.CommaSeparatedIgnoresComma | src-tauri/src/requests.rs:137 | comma positions are not validated: `a,b` decodes like `ab` |
| Requests.DecodeMembers | src-tauri/src/requests.rs:106-116 | decoding the reply's members in order succeeds exactly when every member is taken after the ones before it (no repeated field, a boolean `success`, prices and volume that decode), and then holds each field's decoded value; it panics exactly when a price or volume member fails to decode after members that were all taken |
| Requests.DecodeMemberStep | src-tauri/src/requests.rs:106-138 | after members that were all taken, the next member panics exactly when it is the first price or volume member and does not decode, is taken exactly when it is not a field or is the first of its field with a value that field accepts, and is a serde error otherwise |
| Requests.DecodeMarketPrice | src-tauri/src/requests.rs:106-138 | deserializing a `MarketPrice` panics exactly when a price or volume member fails to decode after members that were all taken, whatever follows it; it yields a price exactly when the object ends cleanly, every member is taken and every field is present, and then each field is the decoded value of its member; in every other case it is a serde error |
| Requests.MarketOrderDecodes | src-tauri/src/requests.rs:106-116 | a closed object with `success`, `lowest_price`, `volume` and `median_price` in that order, each accepted by its field, decodes to those members' values |
| Requests.MarketPriceRoundTrip | src-tauri/src/requests.rs:106-138 | a reply in the market's formats and member order decodes to its prices in cents and its volume |
| Requests.MarketPriceVolumeOverflow | src-tauri/src/requests.rs:112-113 | a volume beyond `usize`, met after members that were all taken, makes the whole deserialization panic whatever members, missing fields or syntax errors follow |
| Requests.MarketPricePanicsBeforeMissingField | src-tauri/src/requests.rs:114-127 | a reply holding only `success` and a lowest price with a thousands point (`1.234,56€`) panics instead of reporting the missing fields |
| Numbers.ParseUsize | src-tauri/src/requests.rs:137 | `parse::<usize>` accepts only an optional `+` followed by one or more digits (so not `+` alone), yields the value of those digits and never `2^64` or more; plain digits below `2^64` parse to their value |
| Numbers.ParseUsizeRoundTrip | src-tauri/src/requests.rs:137 | every `usize` written in decimal parses back to itself |
| Numbers.ParseUsizeOverflow | src-tauri/src/requests.rs:137 | the decimal text of a number of `2^64` or more does not parse |
| Numbers.FixedPointParses | src-tauri/src/requests.rs:127 | `parse::<f32>` of `ip.fp` gives the decimal with digits `ip fp` scaled by `10^-len(fp)` |
| Numbers.IntegerParses | src-tauri/src/requests.rs:127 | plain digits parse as an integer |
| Numbers.ParseFloat | src-tauri/src/requests.rs:127 | `parse::<f32>` rejects the empty text, and every text it accepts consists of number characters (sign, digits, point, exponent marker, the letters of `inf` and `nan`) with at most one point |
| Numbers.ParseFloatRejects | src-tauri/src/requests.rs:127 | a text with two points, or with a character foreign to numbers, does not parse |

## Left out

- `State::new` (src-tauri/src/state.rs:43-58) is left out. It builds the HTTP client and the disk cache, which are configuration and I/O.
- Request construction is left out: URLs, query strings, cookies and headers. The `build()?` error (src-tauri/src/state.rs:91, 150, 185) is left out too. So the outer `Result` of `fetch_user_items` is `Err` only when `send_request` fails (its `?` at src-tauri/src/state.rs:93), and the price functions, whose only outer error is `build()?`, return the map directly.
- `tokio::spawn` and `join_all` are modelled as a sequential loop over the tasks in input order. A `JoinError` other than a task's panic (cancellation) is not modelled.
- The truncation runs after the join in the main task, but the model applies it inside each history task's result. Since any panic panics the whole call, the outcome is the same.
- serde decoding of a body is reduced to `Body`: unreadable (the `reqwest` error of `text()`), malformed (a `serde_json` error), or the decoded record. The `MarketPrice` reply is the exception: its record is the JSON object itself, as `JsonObject`. That object holds its members in reply order, each name already identified as one of the four fields or as ignored, and a flag for whether the text after them ends the object cleanly. `DecodeMarketPrice` then does what the derived deserializer does with it, and `Malformed` there stands only for a body that does not open an object. serde_json also accepts a JSON array for a struct and fills its fields in declaration order; such array-shaped replies are not modelled, and the model treats them as `Malformed`, that is `Err(Serde)`. The resolution of escapes in member names is not modelled. The `str_to_num` coercion of the id and amount fields is not modelled, so the records hold natural numbers directly.
- `parse::<f32>` keeps the exact decimal the text denotes instead of rounding it to the nearest `f32`. Overflow to infinity and subnormal rounding are not modelled.
- `DedupAssets` does not model the `usize` overflow of `amount += 1`, because amounts are unbounded naturals in the model.
- `get_all_csgo_items` is not modelled: it is a network call with a `println` and an `unwrap` of serde. `CatalogContainers` takes the catalog's `(name, item)` entries, in the `HashMap`'s iteration order, as a parameter.
- The `_get_all_csgo_items` and `_get_item_price` functions and the `ItemPriceResponse` record are network helpers the core does not use.
- `ItemPrice` is not part of this model. It is modelled as the list of history points that the truncation produces.
- `FullAsset` and `Asset::hydrate` are not part of this model. A hydrated item is the pair of an asset and its description.
- src-tauri/src/main.rs, uno.config.ts and src/stores/user.ts are left out. They are Tauri command wrappers, UI styling and a frontend store.
