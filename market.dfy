/**
 * The reconciliation core of the marketplace sync script: from an inventory
 * snapshot and the offer ids registered under one campaign it builds the
 * stock-update payload (create_stocks), the price-update payload
 * (create_prices) and the in-stock view of the stock payload (the
 * `not_empty` filter of upload_stocks).
 */
module Market {
  import opened Seqs
  import opened PyInt

  /** One inventory row: its "Код", "Количество" and "Цена" fields as text. */
  datatype InventoryRecord = InventoryRecord(code: string, quantity: string, price: string)

  /** The single element of a stock entry's "items": "count", "type", "updatedAt". */
  datatype StockItem = StockItem(count: int, itemType: string, updatedAt: string)

  /** One element of the stock-update payload: "sku", "warehouseId", "items". */
  datatype StockEntry = StockEntry(sku: string, warehouseId: string, items: seq<StockItem>)

  /** The "price" object of a price entry: "value" and "currencyId". */
  datatype Price = Price(value: int, currencyId: string)

  /** One element of the price-update payload: "id" and "price". */
  datatype PriceEntry = PriceEntry(id: string, price: Price)

  /**
   * The ValueError that aborts a call: `int` could not read a quantity, or
   * the price conversion could not read a price.
   */
  datatype Error = InvalidQuantity(raw: string) | InvalidPrice(raw: string)

  datatype Result<T> = Ok(value: T) | Err(error: Error)

  function Min(a: int, b: int): int {
    if a <= b then a else b
  }

  // ---------------------------------------------------------------------
  // Quantity mapping
  // ---------------------------------------------------------------------

  /**
   * The stock count for a raw "Количество": ">10" means 100, "1" means 0,
   * and any other text is read by `int`, whose failure aborts the call.
   */
  function NormalizeQuantity(raw: string): Result<int> {
    if raw == ">10" then Ok(100)
    else if raw == "1" then Ok(0)
    else match ParseInt(raw)
      case Some(n) => Ok(n)
      case None => Err(InvalidQuantity(raw))
  }

  /**
   * On the decimal text of any integer the mapping gives that integer back,
   * except for 1, which is held back as 0; negative counts pass through.
   */
  lemma NormalizeDecimal(n: int)
    ensures NormalizeQuantity(Show(n)) == Ok(if n == 1 then 0 else n)
  {
    ParseIntShow(n);
    DecimalDigitsNumeral(if n < 0 then -n else n);
    var s := Show(n);
    assert s[0] == '-' || IsDigit(s[0]);
    assert s != ">10";
    if s == "1" {
      ParseIntShow(1);
      assert Show(1) == "1";
    }
  }

  /**
   * Text holding a character that cannot be part of an integer is rejected,
   * unless it is exactly ">10".
   */
  lemma NormalizeRejectsForeignChar(raw: string, i: nat)
    requires raw != ">10"
    requires i < |raw|
    requires !IsDigit(raw[i]) && !IsSpace(raw[i]) && raw[i] != '+' && raw[i] != '-' && raw[i] != '_'
    ensures NormalizeQuantity(raw) == Err(InvalidQuantity(raw))
  {
    ParseIntRejectsForeignChar(raw, i);
    assert raw != "1";
  }

  // ---------------------------------------------------------------------
  // The caller's offer-id list
  // ---------------------------------------------------------------------

  /** The caller's Python list of offer ids, which create_stocks consumes in place. */
  class OfferIdList {
    var items: seq<string>

    constructor (ids: seq<string>)
      ensures items == ids
    {
      items := ids;
    }

    /**
     * `list.remove(x)`: drops the first `x`. Where Python raises ValueError
     * (no `x` in the list) `found` is false and the list is unchanged.
     */
    method Remove(x: string) returns (found: bool)
      modifies this
      ensures found == (x in old(items))
      ensures items == RemoveFirst(old(items), x)
      ensures !found ==> items == old(items)
      ensures found ==> multiset(items) == multiset(old(items)) - multiset{x}
    {
      found := x in items;
      RemoveFirstMultiset(items, x);
      items := RemoveFirst(items, x);
    }
  }

  // ---------------------------------------------------------------------
  // Stock reconciliation (create_stocks)
  // ---------------------------------------------------------------------

  function StockEntryFor(sku: string, count: int, warehouseId: string, date: string): StockEntry {
    StockEntry(sku, warehouseId, [StockItem(count, "FIT", date)])
  }

  function Codes(inventory: seq<InventoryRecord>): seq<string> {
    seq(|inventory|, k requires 0 <= k < |inventory| => inventory[k].code)
  }

  function Skus(stocks: seq<StockEntry>): seq<string> {
    seq(|stocks|, k requires 0 <= k < |stocks| => stocks[k].sku)
  }

  /** The trailing pass: a zero-count entry for each id, in list order. */
  function ZeroEntries(ids: seq<string>, warehouseId: string, date: string): seq<StockEntry> {
    seq(|ids|, k requires 0 <= k < |ids| => StockEntryFor(ids[k], 0, warehouseId, date))
  }

  /**
   * Reference definition of which inventory records create_stocks matches,
   * independent of the list it consumes: a record is matched exactly when
   * fewer earlier records carry its code than `offerIds` holds copies of it.
   */
  function Selected(inventory: seq<InventoryRecord>, offerIds: seq<string>): seq<InventoryRecord>
    decreases |inventory|
  {
    if inventory == [] then []
    else
      var init, last := inventory[..|inventory| - 1], inventory[|inventory| - 1];
      Selected(init, offerIds) +
      (if multiset(Codes(init))[last.code] < multiset(offerIds)[last.code] then [last] else [])
  }

  /**
   * Per code, the number of matched records is the smaller of its number of
   * inventory records and its number of copies in `offerIds`: a repeated
   * code is matched only as often as it is registered.
   */
  lemma {:induction false} SelectedCount(inventory: seq<InventoryRecord>, offerIds: seq<string>)
    ensures forall c :: multiset(Codes(Selected(inventory, offerIds)))[c] ==
                        Min(multiset(Codes(inventory))[c], multiset(offerIds)[c])
    decreases |inventory|
  {
    if inventory != [] {
      var init, last := inventory[..|inventory| - 1], inventory[|inventory| - 1];
      SelectedCount(init, offerIds);
      var sel0 := Selected(init, offerIds);
      var chosen := multiset(Codes(init))[last.code] < multiset(offerIds)[last.code];
      assert Codes(inventory) == Codes(init) + [last.code];
      if chosen {
        assert Codes(Selected(inventory, offerIds)) == Codes(sel0) + [last.code];
      } else {
        assert Selected(inventory, offerIds) == sel0;
      }
    }
  }

  /** Matched records keep their inventory order. */
  lemma {:induction false} SelectedSubseq(inventory: seq<InventoryRecord>, offerIds: seq<string>)
    ensures Subseq(Selected(inventory, offerIds), inventory)
    decreases |inventory|
  {
    if inventory != [] {
      var init, last := inventory[..|inventory| - 1], inventory[|inventory| - 1];
      SelectedSubseq(init, offerIds);
      var sel := Selected(inventory, offerIds);
      var sel0 := Selected(init, offerIds);
      if multiset(Codes(init))[last.code] < multiset(offerIds)[last.code] {
        assert sel == sel0 + [last];
        assert sel[..|sel| - 1] == sel0;
      } else {
        assert sel == sel0;
      }
    }
  }

  /**
   * The state of the matching loop: the entries appended so far and the
   * caller's list, or, once `int` has raised, the error and the list as the
   * exception left it.
   */
  datatype Pass =
    | Done(stocks: seq<StockEntry>, remaining: seq<string>)
    | Failed(error: Error, remaining: seq<string>)

  /** One iteration of the matching loop. */
  function Visit(p: Pass, watch: InventoryRecord, warehouseId: string, date: string): Pass {
    match p
    case Failed(_, _) => p
    case Done(stocks, remaining) =>
      if watch.code !in remaining then p
      else match NormalizeQuantity(watch.quantity)
        case Err(e) => Failed(e, remaining)
        case Ok(count) =>
          Done(stocks + [StockEntryFor(watch.code, count, warehouseId, date)],
               RemoveFirst(remaining, watch.code))
  }

  /** The matching loop run over `inventory`, starting from the caller's list `offerIds`. */
  function MatchPass(inventory: seq<InventoryRecord>, offerIds: seq<string>, warehouseId: string, date: string): Pass
    decreases |inventory|
  {
    if inventory == [] then Done([], offerIds)
    else Visit(MatchPass(inventory[..|inventory| - 1], offerIds, warehouseId, date),
               inventory[|inventory| - 1], warehouseId, date)
  }

  /** create_stocks as a value: the payload, or the error `int` raised. */
  function Stocks(inventory: seq<InventoryRecord>, offerIds: seq<string>, warehouseId: string, date: string): Result<seq<StockEntry>> {
    match MatchPass(inventory, offerIds, warehouseId, date)
    case Failed(e, _) => Err(e)
    case Done(matched, remaining) => Ok(matched + ZeroEntries(remaining, warehouseId, date))
  }

  /**
   * The list only shrinks, and until an error every entry emitted took one
   * id off the list: entries and remaining ids add up to the original list.
   */
  lemma {:induction false} MatchPassLength(inventory: seq<InventoryRecord>, offerIds: seq<string>, warehouseId: string, date: string)
    ensures var p := MatchPass(inventory, offerIds, warehouseId, date);
            |p.remaining| <= |offerIds| &&
            (p.Done? ==> |p.stocks| + |p.remaining| == |offerIds|)
    decreases |inventory|
  {
    if inventory != [] {
      MatchPassLength(inventory[..|inventory| - 1], offerIds, warehouseId, date);
    }
  }

  /** A successful payload has exactly one entry per original offer id. */
  lemma StocksLength(inventory: seq<InventoryRecord>, offerIds: seq<string>, warehouseId: string, date: string)
    ensures var r := Stocks(inventory, offerIds, warehouseId, date);
            r.Ok? ==> |r.value| == |offerIds|
  {
    MatchPassLength(inventory, offerIds, warehouseId, date);
  }

  /** Once `int` has raised, the rest of the inventory changes nothing. */
  lemma {:induction false} FailedPersists(inventory: seq<InventoryRecord>, k: nat, offerIds: seq<string>, warehouseId: string, date: string)
    requires k <= |inventory|
    requires MatchPass(inventory[..k], offerIds, warehouseId, date).Failed?
    ensures MatchPass(inventory, offerIds, warehouseId, date) == MatchPass(inventory[..k], offerIds, warehouseId, date)
    decreases |inventory| - k
  {
    if k < |inventory| {
      var init := inventory[..|inventory| - 1];
      assert init[..k] == inventory[..k];
      FailedPersists(init, k, offerIds, warehouseId, date);
    } else {
      assert inventory[..k] == inventory;
    }
  }

  /**
   * The list the loop leaves keeps the original order, and while no error
   * has occurred it is the original list minus one copy of each matched code.
   */
  lemma {:induction false} MatchPassRemaining(inventory: seq<InventoryRecord>, offerIds: seq<string>, warehouseId: string, date: string)
    ensures Subseq(MatchPass(inventory, offerIds, warehouseId, date).remaining, offerIds)
    ensures MatchPass(inventory, offerIds, warehouseId, date).Done? ==>
              multiset(MatchPass(inventory, offerIds, warehouseId, date).remaining) +
              multiset(Codes(Selected(inventory, offerIds))) == multiset(offerIds)
    decreases |inventory|, 0
  {
    if inventory == [] {
      SubseqRefl(offerIds);
    } else {
      var init, last := inventory[..|inventory| - 1], inventory[|inventory| - 1];
      MatchPassRemaining(init, offerIds, warehouseId, date);
      var p0 := MatchPass(init, offerIds, warehouseId, date);
      var p := MatchPass(inventory, offerIds, warehouseId, date);
      assert p == Visit(p0, last, warehouseId, date);
      if p0.Done? && last.code in p0.remaining {
        var c := last.code;
        MatchedIffUnderCount(init, offerIds, warehouseId, date, c);
        RemoveStep(init, last, offerIds, p0.remaining);
        if p.Done? {
          assert p.remaining == RemoveFirst(p0.remaining, c);
        } else {
          assert p.remaining == p0.remaining;
        }
      } else if p0.Done? {
        MatchedIffUnderCount(init, offerIds, warehouseId, date, last.code);
        assert p == p0;
        assert Selected(inventory, offerIds) == Selected(init, offerIds);
      } else {
        assert p == p0;
      }
    }
  }

  /** Removing a matched code keeps the bookkeeping of MatchPassRemaining. */
  lemma RemoveStep(init: seq<InventoryRecord>, last: InventoryRecord, offerIds: seq<string>, remaining: seq<string>)
    requires last.code in remaining
    requires multiset(Codes(init))[last.code] < multiset(offerIds)[last.code]
    requires Subseq(remaining, offerIds)
    requires multiset(remaining) + multiset(Codes(Selected(init, offerIds))) == multiset(offerIds)
    ensures Subseq(RemoveFirst(remaining, last.code), offerIds)
    ensures multiset(RemoveFirst(remaining, last.code)) + multiset(Codes(Selected(init + [last], offerIds))) == multiset(offerIds)
  {
    var c := last.code;
    assert Subseq(RemoveFirst(remaining, c), offerIds) by {
      RemoveFirstSubseq(remaining, c);
      SubseqTrans(RemoveFirst(remaining, c), remaining, offerIds);
    }
    var inventory := init + [last];
    var sel0 := Selected(init, offerIds);
    assert Codes(Selected(inventory, offerIds)) == Codes(sel0) + [c] by {
      assert inventory[..|inventory| - 1] == init;
      assert Selected(inventory, offerIds) == sel0 + [last];
    }
    assert multiset(RemoveFirst(remaining, c)) == multiset(remaining) - multiset{c} by {
      RemoveFirstMultiset(remaining, c);
    }
  }

  /**
   * While no error has occurred, a code is still in the list exactly when
   * fewer records have carried it than the original list held copies of it.
   */
  lemma MatchedIffUnderCount(inventory: seq<InventoryRecord>, offerIds: seq<string>, warehouseId: string, date: string, c: string)
    requires MatchPass(inventory, offerIds, warehouseId, date).Done?
    ensures c in MatchPass(inventory, offerIds, warehouseId, date).remaining <==>
            multiset(Codes(inventory))[c] < multiset(offerIds)[c]
    decreases |inventory|, 1
  {
    MatchPassRemaining(inventory, offerIds, warehouseId, date);
    SelectedCount(inventory, offerIds);
    var rem := MatchPass(inventory, offerIds, warehouseId, date).remaining;
    assert c in rem <==> multiset(rem)[c] > 0;
  }

  /**
   * Reference definition of the list the loop leaves, independent of the
   * loop: for every code, as many of its first copies are gone as the
   * inventory holds records with that code, the rest stay in their order.
   */
  function Leftover(inventory: seq<InventoryRecord>, offerIds: seq<string>): seq<string> {
    DropFirsts(offerIds, multiset(Codes(inventory)))
  }

  /**
   * Until an error, the list the loop leaves is `Leftover`: which copy of a
   * repeated id goes is fixed, namely always the first one still present.
   */
  lemma {:induction false} MatchPassLeftover(inventory: seq<InventoryRecord>, offerIds: seq<string>, warehouseId: string, date: string)
    ensures MatchPass(inventory, offerIds, warehouseId, date).Done? ==>
              MatchPass(inventory, offerIds, warehouseId, date).remaining == Leftover(inventory, offerIds)
    decreases |inventory|
  {
    if inventory == [] {
      assert Codes(inventory) == [];
      DropFirstsEmpty(offerIds);
    } else {
      var init, last := inventory[..|inventory| - 1], inventory[|inventory| - 1];
      var p0 := MatchPass(init, offerIds, warehouseId, date);
      var p := MatchPass(inventory, offerIds, warehouseId, date);
      assert p == Visit(p0, last, warehouseId, date);
      if p.Done? {
        MatchPassLeftover(init, offerIds, warehouseId, date);
        var m := multiset(Codes(init));
        assert Codes(inventory) == Codes(init) + [last.code];
        assert multiset(Codes(inventory)) == m + multiset{last.code};
        MatchedIffUnderCount(init, offerIds, warehouseId, date, last.code);
        if last.code in p0.remaining {
          DropFirstsRemove(offerIds, m, last.code);
        } else {
          DropFirstsExhausted(offerIds, m, last.code);
        }
      }
    }
  }

  /**
   * The loop fails exactly when some matched record's quantity cannot be
   * read, and then with the first such quantity; otherwise it emits one entry per matched record, in inventory
   * order, carrying that record's normalized count.
   */
  lemma {:induction false} MatchPassEntries(inventory: seq<InventoryRecord>, offerIds: seq<string>, warehouseId: string, date: string)
    ensures var p := MatchPass(inventory, offerIds, warehouseId, date);
            var sel := Selected(inventory, offerIds);
            (p.Done? <==> forall k :: 0 <= k < |sel| ==> NormalizeQuantity(sel[k].quantity).Ok?) &&
            (p.Failed? ==>
               exists k :: 0 <= k < |sel| && NormalizeQuantity(sel[k].quantity) == Err(p.error) &&
                 forall j :: 0 <= j < k ==> NormalizeQuantity(sel[j].quantity).Ok?) &&
            (p.Done? ==>
               |p.stocks| == |sel| &&
               forall k :: 0 <= k < |sel| ==>
                 p.stocks[k] == StockEntryFor(sel[k].code, NormalizeQuantity(sel[k].quantity).value, warehouseId, date))
    decreases |inventory|
  {
    if inventory != [] {
      var init, last := inventory[..|inventory| - 1], inventory[|inventory| - 1];
      MatchPassEntries(init, offerIds, warehouseId, date);
      var p0 := MatchPass(init, offerIds, warehouseId, date);
      var p := MatchPass(inventory, offerIds, warehouseId, date);
      assert p == Visit(p0, last, warehouseId, date);
      var sel0 := Selected(init, offerIds);
      var sel := Selected(inventory, offerIds);
      if p0.Done? {
        MatchedIffUnderCount(init, offerIds, warehouseId, date, last.code);
        if last.code in p0.remaining {
          assert sel == sel0 + [last];
          assert sel[|sel0|] == last;
          assert forall k :: 0 <= k < |sel0| ==> sel[k] == sel0[k];
          match NormalizeQuantity(last.quantity)
          case Err(e) => {
            assert p == Failed(e, p0.remaining);
          }
          case Ok(count) => {
            assert p.stocks == p0.stocks + [StockEntryFor(last.code, count, warehouseId, date)];
          }
        } else {
          assert p == p0;
          assert sel == sel0;
          assert forall k :: 0 <= k < |sel| ==> NormalizeQuantity(sel[k].quantity).Ok?;
        }
      } else {
        assert p == p0;
        var tail := if multiset(Codes(init))[last.code] < multiset(offerIds)[last.code] then [last] else [];
        assert sel == sel0 + tail;
        var k :| 0 <= k < |sel0| && NormalizeQuantity(sel0[k].quantity) == Err(p0.error) &&
                 forall j :: 0 <= j < k ==> NormalizeQuantity(sel0[j].quantity).Ok?;
        assert forall j :: 0 <= j <= k ==> sel[j] == sel0[j];
        assert !NormalizeQuantity(sel[k].quantity).Ok?;
        assert MatchPass(inventory, offerIds, warehouseId, date).Done? <==>
               forall j :: 0 <= j < |Selected(inventory, offerIds)| ==> NormalizeQuantity(Selected(inventory, offerIds)[j].quantity).Ok?;
      }
    }
  }

  /** Until an error, the skus emitted are the codes of the matched records. */
  lemma MatchPassSkus(inventory: seq<InventoryRecord>, offerIds: seq<string>, warehouseId: string, date: string)
    ensures var p := MatchPass(inventory, offerIds, warehouseId, date);
            p.Done? ==> Skus(p.stocks) == Codes(Selected(inventory, offerIds))
  {
    MatchPassEntries(inventory, offerIds, warehouseId, date);
  }

  /**
   * The counting invariant: the skus of the payload are exactly the original
   * offer ids, each as often as the list held it; no other code appears.
   */
  lemma StocksCoverOfferIds(inventory: seq<InventoryRecord>, offerIds: seq<string>, warehouseId: string, date: string)
    ensures Stocks(inventory, offerIds, warehouseId, date).Ok? ==>
              multiset(Skus(Stocks(inventory, offerIds, warehouseId, date).value)) == multiset(offerIds)
  {
    var p := MatchPass(inventory, offerIds, warehouseId, date);
    if p.Done? {
      var matched := Codes(Selected(inventory, offerIds));
      assert multiset(p.remaining) + multiset(matched) == multiset(offerIds) by {
        MatchPassRemaining(inventory, offerIds, warehouseId, date);
      }
      assert Skus(p.stocks) == matched by {
        MatchPassSkus(inventory, offerIds, warehouseId, date);
      }
      var zeros := ZeroEntries(p.remaining, warehouseId, date);
      var r := p.stocks + zeros;
      assert Stocks(inventory, offerIds, warehouseId, date) == Ok(r);
      assert Skus(r) == matched + p.remaining by {
        assert Skus(zeros) == p.remaining;
        assert Skus(r) == Skus(p.stocks) + Skus(zeros);
      }
      assert multiset(Skus(r)) == multiset(matched) + multiset(p.remaining);
    }
  }

  /**
   * The payload opens with one entry per matched record, in inventory order,
   * carrying that record's normalized count.
   */
  lemma StocksMatchedEntries(inventory: seq<InventoryRecord>, offerIds: seq<string>, warehouseId: string, date: string)
    ensures var r := Stocks(inventory, offerIds, warehouseId, date);
            var sel := Selected(inventory, offerIds);
            r.Ok? ==>
              (forall k :: 0 <= k < |sel| ==> NormalizeQuantity(sel[k].quantity).Ok?) &&
              |sel| <= |r.value| &&
              forall k :: 0 <= k < |sel| ==>
                r.value[k] == StockEntryFor(sel[k].code, NormalizeQuantity(sel[k].quantity).value, warehouseId, date)
  {
    var p := MatchPass(inventory, offerIds, warehouseId, date);
    if p.Done? {
      MatchPassEntries(inventory, offerIds, warehouseId, date);
      var r := p.stocks + ZeroEntries(p.remaining, warehouseId, date);
      assert Stocks(inventory, offerIds, warehouseId, date) == Ok(r);
      assert forall k :: 0 <= k < |p.stocks| ==> r[k] == p.stocks[k];
    }
  }

  /** Until an error, the loop has emitted one entry per matched record. */
  lemma MatchPassCount(inventory: seq<InventoryRecord>, offerIds: seq<string>, warehouseId: string, date: string)
    ensures MatchPass(inventory, offerIds, warehouseId, date).Done? ==>
              |MatchPass(inventory, offerIds, warehouseId, date).stocks| == |Selected(inventory, offerIds)|
  {
    MatchPassEntries(inventory, offerIds, warehouseId, date);
  }

  /**
   * After the matched entries the payload holds a zero-count entry for each
   * id left in the list, in list order, and nothing else.
   */
  lemma StocksTrailingEntries(inventory: seq<InventoryRecord>, offerIds: seq<string>, warehouseId: string, date: string)
    ensures var r := Stocks(inventory, offerIds, warehouseId, date);
            var sel := Selected(inventory, offerIds);
            var left := MatchPass(inventory, offerIds, warehouseId, date).remaining;
            r.Ok? ==>
              |r.value| == |sel| + |left| &&
              r.value[|sel|..] == ZeroEntries(left, warehouseId, date)
  {
    var p := MatchPass(inventory, offerIds, warehouseId, date);
    if p.Done? {
      var sel := Selected(inventory, offerIds);
      assert |p.stocks| == |sel| by {
        MatchPassCount(inventory, offerIds, warehouseId, date);
      }
      var zeros := ZeroEntries(p.remaining, warehouseId, date);
      assert Stocks(inventory, offerIds, warehouseId, date) == Ok(p.stocks + zeros);
      assert (p.stocks + zeros)[|p.stocks|..] == zeros;
    }
  }

  /**
   * Every entry is for the given warehouse and holds one "FIT" item stamped
   * with the call's single timestamp.
   */
  lemma StocksShape(inventory: seq<InventoryRecord>, offerIds: seq<string>, warehouseId: string, date: string)
    ensures Stocks(inventory, offerIds, warehouseId, date).Ok? ==>
              forall e :: e in Stocks(inventory, offerIds, warehouseId, date).value ==>
                e.warehouseId == warehouseId && |e.items| == 1 &&
                e.items[0].itemType == "FIT" && e.items[0].updatedAt == date
  {
    StocksMatchedEntries(inventory, offerIds, warehouseId, date);
    StocksTrailingEntries(inventory, offerIds, warehouseId, date);
  }

  /**
   * The call fails exactly when a matched record's quantity cannot be read,
   * and then reports the first such quantity in inventory order; unmatched
   * records are never parsed.
   */
  lemma StocksFailure(inventory: seq<InventoryRecord>, offerIds: seq<string>, warehouseId: string, date: string)
    ensures var r := Stocks(inventory, offerIds, warehouseId, date);
            var sel := Selected(inventory, offerIds);
            (r.Err? <==> exists k :: 0 <= k < |sel| && NormalizeQuantity(sel[k].quantity).Err?) &&
            (r.Err? ==>
               exists k :: 0 <= k < |sel| && r.error == InvalidQuantity(sel[k].quantity) &&
                 NormalizeQuantity(sel[k].quantity).Err? &&
                 forall j :: 0 <= j < k ==> NormalizeQuantity(sel[j].quantity).Ok?)
  {
    MatchPassEntries(inventory, offerIds, warehouseId, date);
    var p := MatchPass(inventory, offerIds, warehouseId, date);
    var sel := Selected(inventory, offerIds);
    if p.Failed? {
      var k :| 0 <= k < |sel| && NormalizeQuantity(sel[k].quantity) == Err(p.error) &&
               forall j :: 0 <= j < k ==> NormalizeQuantity(sel[j].quantity).Ok?;
      assert p.error == InvalidQuantity(sel[k].quantity);
    }
  }

  /**
   * create_stocks: appends an entry for each inventory record whose code is
   * still in the caller's list and removes that code from it, then appends a
   * zero-count entry for each id left. The list is consumed in place; on an
   * unreadable quantity the call stops with the list as far as it got.
   */
  method CreateStocks(inventory: seq<InventoryRecord>, offerIds: OfferIdList, warehouseId: string, date: string)
    returns (r: Result<seq<StockEntry>>)
    modifies offerIds
    ensures r == Stocks(inventory, old(offerIds.items), warehouseId, date)
    ensures offerIds.items == MatchPass(inventory, old(offerIds.items), warehouseId, date).remaining
    ensures r.Ok? ==> offerIds.items == Leftover(inventory, old(offerIds.items))
    ensures r.Ok? ==> multiset(Skus(r.value)) == multiset(old(offerIds.items))
    ensures r.Ok? ==> |offerIds.items| <= |r.value| &&
                      Skus(r.value)[|r.value| - |offerIds.items|..] == offerIds.items
  {
    ghost var ids := offerIds.items;
    var stocks: seq<StockEntry> := [];
    var i := 0;
    while i < |inventory|
      invariant 0 <= i <= |inventory|
      invariant MatchPass(inventory[..i], ids, warehouseId, date) == Done(stocks, offerIds.items)
    {
      var watch := inventory[i];
      assert inventory[..i + 1][..i] == inventory[..i];
      if watch.code in offerIds.items {
        var count := NormalizeQuantity(watch.quantity);
        if count.Err? {
          FailedPersists(inventory, i + 1, ids, warehouseId, date);
          return Err(count.error);
        }
        stocks := stocks + [StockEntryFor(watch.code, count.value, warehouseId, date)];
        var found := offerIds.Remove(watch.code);
      }
      i := i + 1;
    }
    assert inventory[..i] == inventory;
    ghost var matched := stocks;
    for j := 0 to |offerIds.items|
      invariant stocks == matched + ZeroEntries(offerIds.items[..j], warehouseId, date)
    {
      assert ZeroEntries(offerIds.items[..j + 1], warehouseId, date) ==
             ZeroEntries(offerIds.items[..j], warehouseId, date) + [StockEntryFor(offerIds.items[j], 0, warehouseId, date)];
      stocks := stocks + [StockEntryFor(offerIds.items[j], 0, warehouseId, date)];
    }
    assert offerIds.items[..|offerIds.items|] == offerIds.items;
    r := Ok(stocks);
    assert multiset(Skus(stocks)) == multiset(ids) by {
      StocksCoverOfferIds(inventory, ids, warehouseId, date);
    }
    assert offerIds.items == Leftover(inventory, ids) by {
      MatchPassLeftover(inventory, ids, warehouseId, date);
    }
    assert Skus(stocks)[|stocks| - |offerIds.items|..] == Skus(ZeroEntries(offerIds.items, warehouseId, date));
  }

  // ---------------------------------------------------------------------
  // The in-stock view (the `not_empty` filter of upload_stocks)
  // ---------------------------------------------------------------------

  predicate InStock(e: StockEntry) {
    e.items != [] && e.items[0].count != 0
  }

  /**
   * `not_empty`: the entries whose first item has a count other than 0, in
   * their order and with their multiplicity. Reading `items[0]` of an entry
   * without items is an IndexError in Python, so such entries are excluded.
   */
  function NotEmpty(stocks: seq<StockEntry>): (r: seq<StockEntry>)
    requires forall e :: e in stocks ==> e.items != []
    ensures Subseq(r, stocks)
    ensures forall e :: multiset(r)[e] == if e.items != [] && e.items[0].count != 0 then multiset(stocks)[e] else 0
  {
    FilterSpec(InStock, stocks);
    Filter(InStock, stocks)
  }

  /**
   * On a create_stocks payload the in-stock view keeps only matched entries
   * with a non-zero count: the trailing zero-count entries never survive.
   */
  lemma NotEmptyOfStocks(inventory: seq<InventoryRecord>, offerIds: seq<string>, warehouseId: string, date: string)
    ensures var r := Stocks(inventory, offerIds, warehouseId, date);
            r.Ok? ==>
              (forall e :: e in r.value ==> e.items != []) &&
              NotEmpty(r.value) == Filter(InStock, MatchPass(inventory, offerIds, warehouseId, date).stocks)
  {
    var p := MatchPass(inventory, offerIds, warehouseId, date);
    if p.Done? {
      StocksShape(inventory, offerIds, warehouseId, date);
      var zeros := ZeroEntries(p.remaining, warehouseId, date);
      FilterConcat(InStock, p.stocks, zeros);
      FilterNone(InStock, zeros);
      assert p.stocks + zeros == Stocks(inventory, offerIds, warehouseId, date).value;
    }
  }

  // ---------------------------------------------------------------------
  // Price reconciliation (create_prices)
  // ---------------------------------------------------------------------

  function PriceEntryFor(code: string, value: int): PriceEntry {
    PriceEntry(code, Price(value, "RUR"))
  }

  /** The inventory records whose code is registered. */
  function KnownRecords(inventory: seq<InventoryRecord>, offerIds: seq<string>): seq<InventoryRecord> {
    Filter((watch: InventoryRecord) => watch.code in offerIds, inventory)
  }

  /**
   * The registered records are every inventory record whose code is in
   * `offerIds`, as often as it occurs and in inventory order, and no other.
   */
  lemma KnownRecordsSpec(inventory: seq<InventoryRecord>, offerIds: seq<string>)
    ensures Subseq(KnownRecords(inventory, offerIds), inventory)
    ensures forall watch :: multiset(KnownRecords(inventory, offerIds))[watch] ==
                            if watch.code in offerIds then multiset(inventory)[watch] else 0
  {
    FilterSpec((watch: InventoryRecord) => watch.code in offerIds, inventory);
  }

  /** The registered records of a prefix open the registered records of the whole. */
  lemma KnownRecordsPrefix(inventory: seq<InventoryRecord>, offerIds: seq<string>, i: nat)
    requires i <= |inventory|
    ensures var known := KnownRecords(inventory, offerIds);
            var prefix := KnownRecords(inventory[..i], offerIds);
            |prefix| <= |known| && known[..|prefix|] == prefix
  {
    assert inventory == inventory[..i] + inventory[i..];
    FilterConcat((watch: InventoryRecord) => watch.code in offerIds, inventory[..i], inventory[i..]);
  }

  /**
   * create_prices: one entry per inventory record whose code is registered,
   * in inventory order and keeping repeated codes, priced in roubles through
   * the external `convert` (price_conversion followed by `int`, `None` where
   * either raises). The first registered record whose price cannot be
   * converted aborts the call. The offer-id list is only read.
   */
  method CreatePrices(inventory: seq<InventoryRecord>, offerIds: seq<string>, convert: string -> Option<int>)
    returns (r: Result<seq<PriceEntry>>)
    ensures var known := KnownRecords(inventory, offerIds);
            r.Ok? <==> forall k :: 0 <= k < |known| ==> convert(known[k].price).Some?
    ensures var known := KnownRecords(inventory, offerIds);
            r.Ok? ==>
              |r.value| == |known| &&
              forall k :: 0 <= k < |known| ==> r.value[k] == PriceEntryFor(known[k].code, convert(known[k].price).value)
    ensures r.Ok? ==> forall e :: e in r.value ==> e.id in offerIds && e.price.currencyId == "RUR"
    ensures var known := KnownRecords(inventory, offerIds);
            r.Err? ==>
              exists k :: 0 <= k < |known| && convert(known[k].price).None? && r.error == InvalidPrice(known[k].price) &&
                forall j :: 0 <= j < k ==> convert(known[j].price).Some?
  {
    var prices := [];
    for i := 0 to |inventory|
      invariant var known := KnownRecords(inventory[..i], offerIds);
                |prices| == |known| &&
                (forall k :: 0 <= k < |known| ==> convert(known[k].price).Some?) &&
                forall k :: 0 <= k < |known| ==> prices[k] == PriceEntryFor(known[k].code, convert(known[k].price).value)
      invariant forall e :: e in prices ==> e.id in offerIds && e.price.currencyId == "RUR"
    {
      var watch := inventory[i];
      assert inventory[..i + 1][..i] == inventory[..i];
      if watch.code in offerIds {
        match convert(watch.price)
        case None => {
          KnownRecordsPrefix(inventory, offerIds, i + 1);
          var known := KnownRecords(inventory, offerIds);
          assert known[|prices|] == watch;
          return Err(InvalidPrice(watch.price));
        }
        case Some(value) => {
          prices := prices + [PriceEntryFor(watch.code, value)];
        }
      }
    }
    assert inventory[..|inventory|] == inventory;
    r := Ok(prices);
  }

  // ---------------------------------------------------------------------
  // The documented examples
  // ---------------------------------------------------------------------

  /** The two tokens the feed uses instead of numbers. */
  lemma QuantityTokens()
    ensures NormalizeQuantity(">10") == Ok(100)
    ensures NormalizeQuantity("1") == Ok(0)
    ensures ParseInt(">10") == None
  {
    ParseIntRejectsForeignChar(">10", 0);
  }

  /** Plain, signed and padded numbers go through `int`; only the exact text "1" is zeroed. */
  lemma QuantityNumbers()
    ensures NormalizeQuantity("15") == Ok(15)
    ensures NormalizeQuantity("-3") == Ok(-3)
    ensures NormalizeQuantity(" 1") == Ok(1)
  {
    assert NormalizeQuantity("15") == Ok(15) by {
      NormalizeDecimal(15);
      assert Show(15) == "15";
    }
    assert NormalizeQuantity("-3") == Ok(-3) by {
      NormalizeDecimal(-3);
      assert Show(-3) == "-3";
    }
    var t := " 1";
    assert TrimStart(t) == "1";
    assert Strip(t) == "1";
    assert IsNumeral("1");
    assert NumeralValue("1") == 1 by {
      assert "1"[..0] == [];
    }
  }

  /**
   * Text that is no number fails the whole call, and so does a number after
   * a file separator (0x1C), which `int` does not strip.
   */
  lemma QuantityRejected()
    ensures NormalizeQuantity("abc") == Err(InvalidQuantity("abc"))
    ensures NormalizeQuantity(">5") == Err(InvalidQuantity(">5"))
    ensures NormalizeQuantity("\U{1C}5") == Err(InvalidQuantity("\U{1C}5"))
  {
    NormalizeRejectsForeignChar("abc", 0);
    NormalizeRejectsForeignChar(">5", 0);
    NormalizeRejectsForeignChar("\U{1C}5", 0);
  }

  /** The create_stocks docstring example: sku1 with 15, then sku3 with 0; sku2 is not registered. */
  lemma StocksDocExample()
    ensures var inventory := [InventoryRecord("sku1", "15", ""), InventoryRecord("sku2", "1", "")];
            var date := "2023-10-10T12:34:56Z";
            Stocks(inventory, ["sku1", "sku3"], "warehouse_123", date) ==
              Ok([StockEntryFor("sku1", 15, "warehouse_123", date), StockEntryFor("sku3", 0, "warehouse_123", date)]) &&
            MatchPass(inventory, ["sku1", "sku3"], "warehouse_123", date).remaining == ["sku3"]
  {
    var r1, r2 := InventoryRecord("sku1", "15", ""), InventoryRecord("sku2", "1", "");
    var inventory := [r1, r2];
    var ids, wh, date := ["sku1", "sku3"], "warehouse_123", "2023-10-10T12:34:56Z";
    QuantityNumbers();
    assert inventory[..1] == [r1];
    assert [r1][..0] == [];
    assert RemoveFirst(ids, "sku1") == ["sku3"];
    var e1 := StockEntryFor("sku1", 15, wh, date);
    assert MatchPass([r1], ids, wh, date) == Done([e1], ["sku3"]);
    assert MatchPass(inventory, ids, wh, date) == Done([e1], ["sku3"]);
    var z3 := StockEntryFor("sku3", 0, wh, date);
    assert ZeroEntries(["sku3"], wh, date) == [z3];
    assert Stocks(inventory, ids, wh, date) == Ok([e1] + [z3]);
    assert [e1] + [z3] == [e1, z3];
  }

  /**
   * The create_prices docstring example: only sku1 is registered, so its
   * record alone is priced, at whatever price_conversion makes of "1500",
   * and sku2's price is never converted.
   */
  lemma PricesDocExample(convert: string -> Option<int>)
    requires convert("1500") == Some(1500)
    ensures var inventory := [InventoryRecord("sku1", "", "1500"), InventoryRecord("sku2", "", "2500")];
            var known := KnownRecords(inventory, ["sku1", "sku3"]);
            |known| == 1 && convert(known[0].price).Some? &&
            PriceEntryFor(known[0].code, convert(known[0].price).value) == PriceEntry("sku1", Price(1500, "RUR"))
  {
    var r1, r2 := InventoryRecord("sku1", "", "1500"), InventoryRecord("sku2", "", "2500");
    var inventory := [r1, r2];
    assert inventory[..1] == [r1];
    assert [r1][..0] == [];
    assert KnownRecords([r1], ["sku1", "sku3"]) == [r1];
    assert KnownRecords(inventory, ["sku1", "sku3"]) == [r1];
  }
}
