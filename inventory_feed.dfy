/**
 * The inventory-only feed: a header and one row per SKU carrying the same
 * on-hand quantity and fulfillment latency (handling time in days), written
 * as tab-separated text.
 */
module InventoryFeed {
  import opened Strings
  import opened Tsv

  const HeaderNames: seq<string> := ["sku", "quantity", "fulfillment_latency"]

  /** The header row: it renders as the three column names. */
  function Header(): (h: Row)
    ensures Rendered(h) == HeaderNames
  {
    [Text(HeaderNames[0]), Text(HeaderNames[1]), Text(HeaderNames[2])]
  }

  /** One SKU's row: the SKU as it is, then quantity and latency as text that never needs quoting. */
  function SkuRow(sku: string, quantity: int, latency: int): (r: Row)
    ensures |r| == 3 && Render(r[0]) == sku
    ensures Clean(Render(r[1])) && Clean(Render(r[2]))
  {
    [Text(sku), Int(quantity), Int(latency)]
  }

  /** The rows `generate_inventory_feed` writes, in order. */
  function InventoryRows(skus: seq<string>, quantity: int, latency: int): (rows: seq<Row>)
    ensures |rows| == |skus| + 1
  {
    [Header()] + seq(|skus|, i requires 0 <= i < |skus| => SkuRow(skus[i], quantity, latency))
  }

  /** The header comes first, then one three-field row per SKU in input order. */
  lemma InventoryLayout(skus: seq<string>, quantity: int, latency: int)
    ensures var rows := InventoryRows(skus, quantity, latency);
      |rows| == |skus| + 1 &&
      Rendered(rows[0]) == HeaderNames &&
      (forall k :: 0 <= k < |rows| ==> |rows[k]| == 3) &&
      (forall i :: 0 <= i < |skus| ==>
        rows[i + 1][0] == Text(skus[i]) && rows[i + 1][1] == Int(quantity) && rows[i + 1][2] == Int(latency))
  {
  }

  lemma HeaderUnquoted()
    ensures Unquoted(Header()) && Rendered(Header()) == HeaderNames
  {
    assert Clean(HeaderNames[0]) && Clean(HeaderNames[1]) && Clean(HeaderNames[2]);
  }

  lemma HeaderLine()
    ensures FormatRow(Header()) == "sku" + "\t" + "quantity" + "\t" + "fulfillment_latency" + "\r\n"
  {
    HeaderUnquoted();
    PlainRowFormat(Header());
    assert HeaderNames[1..][1..] == ["fulfillment_latency"];
  }

  /** With no SKUs the feed is the header line alone. */
  lemma EmptyInventoryFeed(quantity: int, latency: int)
    ensures Serialize(InventoryRows([], quantity, latency))
         == "sku" + "\t" + "quantity" + "\t" + "fulfillment_latency" + "\r\n"
  {
    var rows := InventoryRows([], quantity, latency);
    assert rows == [Header()];
    HeaderLine();
    assert Serialize(rows) == FormatRow(Header()) + Serialize([]);
  }

  /** One more SKU adds its row at the end. */
  lemma InventoryStep(skus: seq<string>, quantity: int, latency: int, i: nat)
    requires i < |skus|
    ensures InventoryRows(skus[..i + 1], quantity, latency)
         == InventoryRows(skus[..i], quantity, latency) + [SkuRow(skus[i], quantity, latency)]
  {
    var prefix := skus[..i + 1];
    assert prefix[..i] == skus[..i] && prefix[i] == skus[i];
  }

  /**
   * `generate_inventory_feed(skus, quantity, latency)`: the header, then one
   * row per SKU, written through the tab-delimited writer.
   */
  method GenerateInventoryFeed(skus: seq<string>, quantity: int := 999, latency: int := 2)
    returns (feed: string)
    ensures feed == Serialize(InventoryRows(skus, quantity, latency))
  {
    var writer := new TsvWriter();
    writer.WriteRow(Header());
    for i := 0 to |skus|
      invariant writer.Valid()
      invariant writer.rows == InventoryRows(skus[..i], quantity, latency)
    {
      InventoryStep(skus, quantity, latency, i);
      writer.WriteRow(SkuRow(skus[i], quantity, latency));
    }
    assert skus[..|skus|] == skus;
    feed := writer.GetValue();
  }

  lemma SkuRowRendered(sku: string, quantity: int, latency: int)
    requires Clean(sku)
    ensures Unquoted(SkuRow(sku, quantity, latency))
    ensures Rendered(SkuRow(sku, quantity, latency)) == [sku, IntToString(quantity), IntToString(latency)]
  {
  }

  /**
   * When no SKU holds a tab, `"`, CR or LF, reading the feed back line by line
   * and field by field gives the header and, per SKU, the SKU with the decimal
   * quantity and latency.
   */
  lemma InventoryReadBack(skus: seq<string>, quantity: int, latency: int)
    requires forall i :: 0 <= i < |skus| ==> Clean(skus[i])
    ensures ReadFeed(Serialize(InventoryRows(skus, quantity, latency)))
         == [HeaderNames] + seq(|skus|, i requires 0 <= i < |skus| =>
              [skus[i], IntToString(quantity), IntToString(latency)])
  {
    var rows := InventoryRows(skus, quantity, latency);
    InventoryRowsRendered(skus, quantity, latency);
    ReadSerialized(rows);
  }

  lemma InventoryRowsRendered(skus: seq<string>, quantity: int, latency: int)
    requires forall i :: 0 <= i < |skus| ==> Clean(skus[i])
    ensures var rows := InventoryRows(skus, quantity, latency);
      (forall k :: 0 <= k < |rows| ==> Unquoted(rows[k])) &&
      seq(|rows|, k requires 0 <= k < |rows| => Rendered(rows[k]))
        == [HeaderNames] + seq(|skus|, i requires 0 <= i < |skus| =>
             [skus[i], IntToString(quantity), IntToString(latency)])
  {
    var rows := InventoryRows(skus, quantity, latency);
    HeaderUnquoted();
    forall k | 1 <= k < |rows|
      ensures Unquoted(rows[k])
      ensures Rendered(rows[k]) == [skus[k - 1], IntToString(quantity), IntToString(latency)]
    {
      assert rows[k] == SkuRow(skus[k - 1], quantity, latency);
      SkuRowRendered(skus[k - 1], quantity, latency);
    }
  }
}
