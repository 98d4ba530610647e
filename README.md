# Stock and price reconciliation for the marketplace sync script

This project models, in Dafny, the reconciliation core of `market.py`: the
code that turns an inventory snapshot (records with a code, a raw quantity and
a raw price) and the list of offer ids registered for one campaign into the two
update payloads sent to the marketplace.

- `create_stocks` is modelled as the method `Market.CreateStocks`. It works
  over an `OfferIdList` object that stands for the caller's Python list, and
  it consumes that list in place as the source does with `list.remove`. The
  method is proved against the pure specification `Market.Stocks`. That
  specification is built on `Market.MatchPass`, a fold over the inventory that
  follows the loop one record at a time, and on the trailing zero-count pass.
- `Market.Selected` is an independent reference definition of which records
  get matched. A record is matched exactly when fewer earlier records carry its
  code than the original list holds copies of it. The lemmas tie the loop to
  this reference. From it follow the counting invariant, the order of the
  payload, what the caller's list holds afterwards, and how repeated codes are
  handled.
- The quantity mapping is `Market.NormalizeQuantity`: `">10"` gives 100,
  `"1"` gives 0, and anything else goes through Python's `int`. That parser
  is modelled in `PyInt.ParseInt`, with an optional sign, underscores between
  digits and surrounding whitespace. When `int` fails, the whole call fails
  with `InvalidQuantity`.
- `create_prices` is modelled as the method `Market.CreatePrices`. Its loop
  is proved against `Market.KnownRecords`, an order-preserving filter. A price
  that cannot be converted aborts the call with `InvalidPrice`.
- The `not_empty` filter of `upload_stocks` is `Market.NotEmpty`.
- Modules: `Seqs` holds subsequences, Python's `filter` and `list.remove`.
  `PyInt` holds Python's `int` on text. `Market` holds the records, the payloads
  and the three operations.

Inputs the core gets from outside are parameters. These are the update
timestamp (`date`, computed once per call by `datetime.utcnow()` in the
source) and the price conversion (`convert`, standing for
`int(price_conversion(...))` from the `seller` module, which is not part of
this model). `convert` returns `None` where that expression raises ValueError.

Three behaviours of the code are worth stating:

- Stock counts can be negative. `int("-3")` is `-3` and nothing clamps it.
- Offer ids are a list, not a set. An id listed twice gets two entries.
- The caller's list is mutated, not copied. After the call it holds exactly
  the ids of the trailing zero-count entries, in order; a matched record
  whose quantity maps to 0 (`"1"`, `"0"`) also gets a zero-count entry, but
  its id has left the list. For a repeated id, `list.remove`
  always takes the first copy still present, so which copies are left is
  fixed (`Market.Leftover`).

## Model

| member | source | states |
|---|---|---|
| `PyInt.ParseInt` | market.py:203 | definition of `int` on text: strip space, `\t`, `\n`, `\v`, `\f` and `\r` (not the separators 0x1C to 0x1F), optional sign, digits with single underscores between them; `None` wherever Python raises ValueError |
| `PyInt.ParseIntShow` | market.py:203 | `int` reads back the decimal text `str(n)` of an integer n, negative ones included (the model has no digit limit, see below) |
| `PyInt.ParseIntRejectsForeignChar` | market.py:203 | `int` fails on text that holds a character that is not a digit, sign, underscore or whitespace |
| `Market.NormalizeQuantity` | market.py:197-203 | definition of the quantity mapping: `">10"` is 100, `"1"` is 0, any other text is `int` of it, and a failing `int` is `InvalidQuantity` of that text |
| `Market.NormalizeDecimal` | market.py:197-203 | the decimal text of an integer n maps to n, except that 1 maps to 0; negative counts pass through |
| `Market.NormalizeRejectsForeignChar` | market.py:197-203 | any text other than `">10"` that holds a non-numeric character fails with `InvalidQuantity` carrying that text |
| `Market.QuantityTokens` | market.py:198-201 | `">10"` gives 100 and `"1"` gives 0; `int` alone would reject `">10"` |
| `Market.QuantityNumbers` | market.py:202-203 | `"15"` gives 15, `"-3"` gives -3, and `" 1"` gives 1 because only the exact text `"1"` is zeroed |
| `Market.QuantityRejected` | market.py:202-203 | `"abc"`, `">5"` and `"\x1c5"` make the call fail instead of being skipped |
| `Seqs.RemoveFirst` | market.py:217 | definition of `list.remove(x)` on the contents: the first `x` goes; its contract states the list shrinks by one exactly when `x` is present |
| `Seqs.RemoveFirstAt` | market.py:217 | closed form: when `i` is the first position holding `x`, `list.remove(x)` leaves the list with just position `i` cut out |
| `Seqs.RemoveFirstMultiset` | market.py:217 | `list.remove(x)` takes away exactly one copy of `x` when present and changes nothing otherwise |
| `Seqs.RemoveFirstSubseq` | market.py:217 | `list.remove` keeps the order of the remaining ids |
| `Seqs.DropFirsts` | market.py:195-217 | definition of the list after repeated `list.remove` calls: scanning from the front, the first `m[x]` copies of each `x` are dropped, the rest kept in order |
| `Seqs.DropFirstsEmpty` | market.py:195-217 | with no removals the list is unchanged |
| `Seqs.DropFirstsRemove` | market.py:217 | one more removal of an `x` still present is exactly `list.remove(x)` on what was left |
| `Seqs.DropFirstsExhausted` | market.py:196 | once every copy of `x` is gone, a further record with code `x` leaves the list unchanged |
| `Market.OfferIdList.Remove` | market.py:217 | the caller's list loses its first `x`; `found` tells whether Python would have raised |
| `Market.StockEntryFor` | market.py:204-216 | definition of one payload entry: the sku, the warehouse id, and a single `"FIT"` item with the count and the call's timestamp |
| `Market.ZeroEntries` | market.py:218-232 | definition of the trailing pass: a zero-count entry for each id, in list order |
| `Market.SelectedCount` | market.py:195-217 | per code, the number of matched records is the smaller of its number of inventory records and its number of copies in `offer_ids`, so a repeated code is matched only as often as it is registered |
| `Market.SelectedSubseq` | market.py:195-196 | matched records keep inventory order |
| `Market.Visit` | market.py:196-217 | definition of one loop iteration: a record whose code is in the list gets an entry with its normalized count and its code removed from the list; an unreadable quantity stops the loop with the list as it stands |
| `Market.MatchPass` | market.py:195-217 | definition of the whole first loop as a fold of `Visit` over the inventory |
| `Market.Stocks` | market.py:168-233 | definition of `create_stocks` as a value: the loop's entries followed by the trailing pass over what is left, or the error |
| `Market.MatchPassLength` | market.py:195-217 | the list only shrinks, and until an error entries emitted plus ids left equal the original list's length |
| `Market.StocksLength` | market.py:168-233 | a successful payload has exactly as many entries as the original `offer_ids` |
| `Market.FailedPersists` | market.py:197-203 | once `int` has raised, the records after it change neither the result nor the list |
| `Market.MatchPassRemaining` | market.py:195-217 | the list left by the loop keeps the original order, and until an error it is the original list minus one copy of each matched code |
| `Market.MatchedIffUnderCount` | market.py:196 | a record's code is still in the list exactly when fewer earlier records carried it than the original list held copies of it |
| `Market.Leftover` | market.py:195-217 | reference definition of the list the loop leaves: for each code, its first copies are gone, as many as the inventory has records with that code |
| `Market.MatchPassLeftover` | market.py:195-217 | until an error, the list the loop leaves is exactly `Leftover`, so which copy of a repeated id goes is pinned down: always the first still present |
| `Market.MatchPassEntries` | market.py:195-216 | the loop fails exactly when a matched record's quantity cannot be read, and then with the first such quantity in inventory order; otherwise it emits one entry per matched record, in inventory order, with that record's normalized count |
| `Market.MatchPassCount` | market.py:195-216 | until an error, one entry has been emitted per matched record |
| `Market.MatchPassSkus` | market.py:206 | until an error, the skus emitted are the codes of the matched records, in order |
| `Market.StocksCoverOfferIds` | market.py:195-232 | the skus of the payload, as a multiset, equal the original `offer_ids`; no other code appears |
| `Market.StocksMatchedEntries` | market.py:195-216 | the payload opens with the matched records' entries in inventory order, with their normalized counts |
| `Market.StocksTrailingEntries` | market.py:217-232 | after them comes exactly the trailing pass over the ids left in the caller's list, in that list's order, and nothing else |
| `Market.StocksShape` | market.py:194-231 | every entry has the given warehouse id and exactly one `"FIT"` item stamped with the single timestamp of the call |
| `Market.StocksFailure` | market.py:196-203 | the call fails exactly when some matched record's quantity is unreadable, reporting the first such quantity in inventory order, the one Python raises on; unmatched records are never parsed |
| `Market.CreateStocks` | market.py:168-233 | the payload equals `Stocks` of the original list; the caller's list ends as the loop's leftover, which on success is `Leftover` and exactly the skus of the payload's tail; the skus cover the original list as a multiset |
| `Market.StocksDocExample` | market.py:181-187 | the docstring example gives `sku1`/15 then `sku3`/0 and leaves `["sku3"]` in the list |
| `Market.NotEmpty` | market.py:289-291 | `not_empty` is the order-preserving subsequence of the entries whose item count is not 0, with every such entry kept as often as it occurs |
| `Market.NotEmptyOfStocks` | market.py:286-291 | on a `create_stocks` payload, `not_empty` keeps only matched entries with a non-zero count and never a trailing zero-count entry |
| `Seqs.Filter` | market.py:289-291 | definition of `list(filter(p, s))`; its contract states the result is no longer than the input |
| `Seqs.FilterSpec` | market.py:289-291 | a filter keeps every element that passes as often as it occurs, drops every other, and keeps the order |
| `Market.KnownRecords` | market.py:258-259 | definition of the records `create_prices` prices: the inventory filtered on "code is in `offer_ids`" |
| `Market.KnownRecordsSpec` | market.py:258-259 | the records priced are every record whose code is in `offer_ids`, duplicates kept, in inventory order, and no other |
| `Market.KnownRecordsPrefix` | market.py:258-259 | the records registered in a prefix of the inventory open the records registered in the whole |
| `Market.CreatePrices` | market.py:236-273 | the call succeeds exactly when every registered record's price converts; then one entry per registered record, in order, with `id` the code, `value` the converted price and currency `"RUR"`, every id in `offer_ids`; otherwise it fails with `InvalidPrice` of the first registered price that does not convert, as the ValueError of lines 254-255 and 264 |
| `Market.PricesDocExample` | market.py:247-252 | the docstring example prices `sku1` alone, at 1500 roubles, and never converts `sku2`'s price |

## Left out

- `get_product_list`, `update_stocks` and `update_price` (market.py:16-130) are HTTP calls through `requests`. They are not modelled.
- `get_offer_ids` (market.py:133-165) follows network pagination. The model starts from the list it returns.
- `divide` and `price_conversion` come from the `seller` module, which is not part of this model. Batching is not modelled. The price conversion, with the `int` around it, is the parameter `convert`, which returns `None` where either raises; which prices fail is therefore not modelled, only what a failure does.
- `download_stock` is not modelled. The inventory snapshot is a parameter.
- `datetime.utcnow()` and its ISO formatting (market.py:194) are not modelled. The timestamp is the parameter `date`.
- `upload_prices`, `upload_stocks` and `main` (market.py:276-327) are not modelled. They are `async` orchestration, batching, environment loading and exception handlers, and `upload_prices` is called without `await`. That is scheduling behaviour, not reconciliation logic.
- `PyInt.ParseInt` has no limit on the number of digits. CPython 3.11 and later (and the 3.7 to 3.10 security releases) raise ValueError on a numeral longer than `sys.get_int_max_str_digits()`, 4300 digits by default; the model reads such a numeral. `PyInt.ParseIntShow` and `Market.NormalizeDecimal` are stated for integers of any length and so go beyond what that interpreter accepts.
- `PyInt.ParseInt` covers ASCII text only. Python's `int` also accepts non-ASCII decimal digits and Unicode whitespace, and the model reports those texts as failures.
- Inventory fields are modelled as the text `str(...)` gives for them. Missing keys (`str(None)`), non-string field values passed straight to `int`, and a `None` `shopSku` in the offer list are not modelled.
- `Market.NotEmpty` requires every entry to have an item. Python raises IndexError on an entry without items, and every entry `create_stocks` builds has one.
- `Market.CreatePrices` receives the offer ids as a value. The source passes the same list object and never mutates it.
- `Market.CreateStocks` models the caller's list as one object. Other aliases of that list are not modelled.
