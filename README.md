# Listing and inventory feeds for a baby-bodysuit storefront

This project models the feed-building core of a small tool that lists one
product design on a storefront and on a marketplace. The tool takes an
uploaded file's name and derives two things from it:

- a storefront **handle**: the stem lowered, spaces and underscores turned
  into hyphens, and a fixed suffix added;
- the first image URL the store returns after the product is created.

It then builds a tab-separated **flat-file listing feed**. The feed is a
23-column header, a parent row and one child row for each of 27 size ×
color × sleeve variations. Each child row carries:

- a SKU derived from the title and the variation label;
- a price cycling through three tiers (21.99, 22.99, 27.99);
- a fixed quantity of 999;
- a back-reference to the parent's SKU.

A second builder writes an **inventory-only feed**: a header plus one
`sku / quantity / fulfillment_latency` row per SKU.

Python's `csv.writer` is modelled as `Tsv.TsvWriter`. It is a class whose
`text` field is the buffer's contents and whose ghost `rows` field records
what was written. Its invariant `Valid()` says `text` is exactly
`Serialize(rows)`: the default dialect with a tab delimiter, minimal quoting
and `\r\n` after every row. Both generators are methods that drive this
writer in a loop, and each is proved to return `Serialize` of a row list
given as a function. The lemmas then state what that row list contains.
For rows that the writer leaves unquoted, `Tsv.ReadSerialized` proves
that the text reads back, line by line and cell by cell, as the rendered
cells. Those are the rows of two or more cells, or of one non-empty cell,
in which no cell holds a tab, `"`, CR or LF. A row whose only cell is empty
is written as `""` (`Tsv.LoneEmptyCell`) and so reads back as the two
quotes (`Tsv.LoneEmptyCellReadBack`).

Modules:

- `Wrappers`: `Option` and `Result`.
- `Strings`: the Python string operations the code relies on, each with its
  inverse or a pointwise characterisation.
- `Tsv`: cells, rendering, quoting, the writer and the read-back.
- `InventoryFeed`
- `ListingFeed`
- `Storefront`: the handle and image extraction.

Notes on reading the source:

- Typed in Python 3 as written, `generate_amazon_feed`
  (streamlit_app.py:103-104) hands a `BytesIO` to `csv.writer`, and the
  first `writerow` would fail because that buffer takes bytes, not text.
  The model gives the text the function evidently means to produce: the
  same writer over a text buffer, as `generate_inventory_feed` uses.
  `seek(0)` and returning the stream are modelled as returning that text.
- A SKU is supposed to come from a normalised title, with whitespace and
  punctuation stripped or collapsed. The code only removes space characters
  (streamlit_app.py:123). The model follows the code: tabs, hyphens and
  other punctuation in the title stay in the SKU.
  `ListingFeed.ChildSkusDistinct` and `ListingFeed.UniqueSkus` hold for
  every title all the same.
- Prices are meant to be keyed by label. The code indexes a list that
  repeats the three tiers nine times (streamlit_app.py:102, 128), so child
  `i` gets tier `i mod 3`. The model follows the code.
- The listing feed is called with the file stem as its title
  (streamlit_app.py:174). The model takes the title as a parameter.
- The 27 variation labels are written as their words
  (`ListingFeed.VariationWords`), and `ListingFeed.VariationsAsWritten`
  proves they are the labels of the variant matrix joined by single spaces.
  It is this matrix the SKUs are proved distinct over.
- The rows of the listing are defined over a `Copy`: accessory images,
  bullets and description. `GenerateAmazonFeed` passes the store's own copy
  (`StoreCopy`, streamlit_app.py:64-78). The layout and SKU lemmas hold
  for any copy with five images and five bullets. `ListingFeed.ListingReadBack`
  also needs the copy, the title and the image URL to be free of tab, `"`,
  CR and LF. `ListingFeed.StoreCopyClean` proves this of the store's own
  copy, and `ListingFeed.AmazonFeedReadBack` states the read-back for the
  feed `GenerateAmazonFeed` returns, given a clean title and image URL.
  The long store texts are written as concatenations of short literals;
  they spell the same text as the source.

## Model

| member | source | states |
|---|---|---|
| Strings.Words | streamlit_app.py:121 | `str.split()`: every piece it returns is a non-empty run of non-whitespace characters |
| Strings.WordsOfJoin | streamlit_app.py:121 | splitting words that were joined by single spaces gives the same words back, in order |
| Strings.SplitOn | inventory_feed_submitter.py:10 | `s.split(sep)`, with which the feed is read back on its tab delimiter: at least one piece, and the pieces joined by `sep` give `s` back |
| Strings.JoinOn | inventory_feed_submitter.py:10 | `sep.join(parts)`: the result starts with the first part |
| Strings.SplitOnJoin | inventory_feed_submitter.py:10 | `s.split(sep)` undoes `sep.join(parts)` when no part shares a character with the separator |
| Strings.RemoveChar | streamlit_app.py:123 | `replace(" ", "")`: the result has no occurrence of the character, and every other character occurs as often as before |
| Strings.RemoveCharAppend | streamlit_app.py:123 | removing a character distributes over concatenation |
| Strings.ReplaceChar | streamlit_app.py:163 | one-character `replace`: same length, each position replaced exactly when it held the old character |
| Strings.Lower | streamlit_app.py:163 | `lower()`: same length, each ASCII capital mapped to its small letter and every other character kept |
| Strings.NatToString | inventory_feed_submitter.py:13 | decimal text of a natural number: non-empty, digits only, no leading zero |
| Strings.IntToString | inventory_feed_submitter.py:13 | `str(i)`: non-empty, made of digits and the minus sign only |
| Strings.NatToStringLeading | inventory_feed_submitter.py:13 | the decimal text of a positive number does not start with `0` |
| Strings.IntToStringShape | inventory_feed_submitter.py:13 | `str(i)` is canonical: a leading minus sign exactly for negatives, digits everywhere else, no leading `0` unless `i` is `0`, and `0` is written `0` |
| Strings.IntToStringRoundTrip | inventory_feed_submitter.py:13 | `int(str(i)) == i` for every integer |
| Tsv.FractionDigits | streamlit_app.py:102 | the digits after the point in a two-decimal price: one or two digits |
| Tsv.PriceString | streamlit_app.py:128 | a price is written as digits and decimal points only |
| Tsv.PriceRoundTrip | streamlit_app.py:128 | a price held in cents is written so that reading it back gives the same cents |
| Tsv.PriceClean | streamlit_app.py:128 | a written price never needs quoting |
| Tsv.Render | streamlit_app.py:125-129 | a string cell is written as it is; an integer or price cell never needs quoting |
| Tsv.RenderRoundTrip | inventory_feed_submitter.py:13 | integer and price cells read back as the values they were written from |
| Tsv.QuoteField | inventory_feed_submitter.py:10 | minimal quoting: a field without tab, `"`, CR or LF is written unchanged, any other field is wrapped in quotes |
| Tsv.DoubleQuotesLength | inventory_feed_submitter.py:10 | doubling makes the text one character longer per `"` |
| Tsv.QuotedLength | inventory_feed_submitter.py:10 | a quoted field is the field plus two wrapping quotes plus one character per `"`: with the round trip, every `"` inside is written twice |
| Tsv.QuoteRoundTrip | inventory_feed_submitter.py:10 | stripping the quotes and undoubling `""` recovers every field exactly |
| Tsv.FormatRow | inventory_feed_submitter.py:11 | every `writerow` line ends in `\r\n` |
| Tsv.LoneEmptyCell | inventory_feed_submitter.py:11 | a row whose only cell renders empty is written as `""` and `\r\n` |
| Tsv.EmptyRowFormat | inventory_feed_submitter.py:11 | a row with no cells is written as `\r\n` alone |
| Tsv.LoneEmptyCellReadBack | inventory_feed_submitter.py:11 | that row reads back as one cell holding two quotes, not as an empty cell |
| Tsv.Serialize | inventory_feed_submitter.py:9-14 | the buffer is empty exactly when no row was written, and otherwise ends in `\r\n` |
| Tsv.SerializeAppend | inventory_feed_submitter.py:11-13 | writing one more row appends exactly that row's line to the text |
| Tsv.TsvWriter.constructor | inventory_feed_submitter.py:9-10 | a fresh writer holds no rows and empty text |
| Tsv.TsvWriter.WriteRow | inventory_feed_submitter.py:11 | `writerow` appends the row's line to the text and the row to the record, keeping the text equal to the serialized rows |
| Tsv.TsvWriter.GetValue | inventory_feed_submitter.py:14 | `getvalue()` is the serialization of every row written so far |
| Tsv.PlainRowFormat | inventory_feed_submitter.py:10 | a row needing no quotes is its rendered cells joined by tabs, then `\r\n` |
| Tsv.ReadSerialized | inventory_feed_submitter.py:9-14 | splitting the written text on `\r\n` and then on tabs gives back every row's rendered cells, in order |
| InventoryFeed.Header | inventory_feed_submitter.py:11 | the header row renders as the three column names |
| InventoryFeed.SkuRow | inventory_feed_submitter.py:13 | a SKU row has three cells: the SKU as it is, then quantity and latency as text that never needs quoting |
| InventoryFeed.SkuRowRendered | inventory_feed_submitter.py:13 | for a SKU without tab, quote or line break, the row is left unquoted and renders as the SKU and the decimal quantity and latency |
| InventoryFeed.InventoryRows | inventory_feed_submitter.py:11-13 | one row more than there are SKUs |
| InventoryFeed.InventoryStep | inventory_feed_submitter.py:12-13 | one more SKU appends exactly its row |
| InventoryFeed.GenerateInventoryFeed | inventory_feed_submitter.py:5-14 | the returned text is the header row followed by one row per SKU, written through the tab-delimited writer |
| InventoryFeed.InventoryLayout | inventory_feed_submitter.py:11-13 | one row more than there are SKUs; the header's column names first; then, per SKU in input order, the SKU, the quantity and the latency |
| InventoryFeed.HeaderLine | inventory_feed_submitter.py:11 | the header line is `sku`, `quantity`, `fulfillment_latency` separated by tabs and ended by `\r\n` |
| InventoryFeed.EmptyInventoryFeed | inventory_feed_submitter.py:11-14 | with no SKUs the feed is the header line alone |
| InventoryFeed.InventoryRowsRendered | inventory_feed_submitter.py:11-13 | for SKUs without tab, quote or line break, every row is left unquoted and renders as the column names, then each SKU with the decimal quantity and latency |
| InventoryFeed.InventoryReadBack | inventory_feed_submitter.py:9-14 | for SKUs without tab, quote or line break, the feed reads back as the column names and, per SKU, the SKU with the decimal quantity and latency |
| ListingFeed.ColumnPositions | streamlit_app.py:105-113 | 23 columns, with `item_sku`, `parent_child`, `parent_sku`, `relationship_type`, `standard_price`, `quantity`, `main_image_url` and `other_image_url1` at the positions the rows use |
| ListingFeed.MatrixSpellsLabels | streamlit_app.py:93-101 | the 27 labels, word by word, are the size, color and sleeve of the matching variant, followed by `Sleeve` |
| ListingFeed.VariationsAsWritten | streamlit_app.py:93-101 | the labels the model uses are exactly the listed ones, joined by single spaces |
| ListingFeed.MatrixDistinct | streamlit_app.py:93-101 | no variation is listed twice |
| ListingFeed.Abbreviation | streamlit_app.py:122 | the sleeve code is `SS` exactly when `Short` is among the last two words, `LS` otherwise |
| ListingFeed.SkuFor | streamlit_app.py:121-123 | a child SKU contains no space |
| ListingFeed.SkuShape | streamlit_app.py:121-123 | the SKU is the title without spaces, then size, color and sleeve code, each after a hyphen: only the title loses characters |
| ListingFeed.LabelWordsOf | streamlit_app.py:121 | each label splits into exactly its variant's four words |
| ListingFeed.LabelSku | streamlit_app.py:121-123 | each label splits into four words, and its SKU is the SKU read off its variant |
| ListingFeed.VariantSku | streamlit_app.py:123 | a variant's SKU starts with the title stripped of spaces and holds no space |
| ListingFeed.VariantSkuInjective | streamlit_app.py:123 | under one title, equal SKUs mean equal size, color and sleeve |
| ListingFeed.ChildSkusDistinct | streamlit_app.py:120-123 | for every title, the 27 child SKUs are pairwise different |
| ListingFeed.ParentSkuDiffers | streamlit_app.py:115-123 | no child SKU equals the parent's SKU `title-Parent` |
| ListingFeed.Repeat | streamlit_app.py:102 | a list repeated `n` times has `n` times its length |
| ListingFeed.RepeatIndex | streamlit_app.py:102 | entry `r` of copy `q` of a repeated list is entry `r` of the list |
| ListingFeed.PricesByTier | streamlit_app.py:102 | one price per variation, and price `i` is tier `i mod 3` |
| ListingFeed.TierPrices | streamlit_app.py:102 | the tiers are written `21.99`, `22.99`, `27.99` |
| ListingFeed.QuantityText | streamlit_app.py:128 | the child quantity is written `999` |
| ListingFeed.StoreCopyFits | streamlit_app.py:64-78 | the store's copy has five accessory images and five bullets |
| ListingFeed.HeaderRow | streamlit_app.py:105-113 | the header row renders as the 23 column names |
| ListingFeed.ParentRow | streamlit_app.py:114-119 | the parent row has the twelve fixed cells and then the copy's cells, and is marked `parent` |
| ListingFeed.ChildRow | streamlit_app.py:124-130 | a child row is as long as the parent row, is marked `child`, and names the parent row's SKU as its parent SKU |
| ListingFeed.Child | streamlit_app.py:120-130 | child `i` is the child row with the `i`-th variant's SKU and price tier `i mod 3` |
| ListingFeed.ListingRows | streamlit_app.py:105-130 | two rows more than there are variations: header, parent, then the children |
| ListingFeed.GenerateAmazonFeed | streamlit_app.py:92-132 | the returned text is the header, the parent row and the 27 child rows in list order, written through the tab-delimited writer |
| ListingFeed.WriteListing | streamlit_app.py:103-131 | the writer loop over any catalog copy returns the serialization of the header, the parent and every child, in order |
| ListingFeed.ParentCells | streamlit_app.py:114-119 | the parent row's 23 cells: its SKU, item name, brand, type, `Update`, `parent`, empty parent SKU and relationship, `Size`, empty price and quantity, the main image, then the copy |
| ListingFeed.ChildCells | streamlit_app.py:120-130 | child `i`'s 23 cells: its variant's SKU, item name, brand, type, `Update`, `child`, the parent's SKU, `variation`, `Size`, tier `i mod 3`, quantity 999, the main image, then the copy |
| ListingFeed.ListingLayout | streamlit_app.py:105-130 | 29 rows, the header's cells are the column names, and every row has 23 cells |
| ListingFeed.SingleParent | streamlit_app.py:114-130 | exactly one row, the second, is marked `parent`; it has no parent SKU, relationship, price or quantity of its own |
| ListingFeed.ChildContents | streamlit_app.py:120-130 | every child is a `variation` whose parent SKU equals the parent row's SKU, with its variant's SKU, its tier price and quantity 999 |
| ListingFeed.SharedCells | streamlit_app.py:114-130 | every data row has the same item name, brand, product type, operation, theme, main image and trailing copy |
| ListingFeed.UniqueSkus | streamlit_app.py:114-130 | no two data rows of the feed share an `item_sku` |
| ListingFeed.ListingReadBack | streamlit_app.py:103-132 | for a copy of five images and five bullets, and a title, image URL and copy without tab, quote or line break, the feed reads back as the column names and every row's rendered cells, in order |
| ListingFeed.StoreCopyClean | streamlit_app.py:64-78 | no image URL, bullet or description of the store's copy holds a tab, `"`, CR or LF |
| ListingFeed.AmazonFeedReadBack | streamlit_app.py:92-132 | for a title and image URL without tab, quote or line break, the returned feed reads back as the column names and every row's rendered cells |
| Storefront.HandleChar | streamlit_app.py:163 | a stem character becomes no space, underscore or capital: spaces and underscores become hyphens, ASCII capitals their small letters, and other characters stay |
| Storefront.NormalizeStem | streamlit_app.py:163 | same length as the stem; each space or underscore becomes a hyphen, each ASCII capital its small letter, everything else is kept |
| Storefront.Handle | streamlit_app.py:163 | the normalised stem, position by position, followed by the fixed suffix |
| Storefront.HandleStemShape | streamlit_app.py:163 | the stem part of a handle holds no space, no underscore and no ASCII capital |
| Storefront.NormalizeIdempotent | streamlit_app.py:163 | normalising an already normalised stem changes nothing |
| Storefront.NormalizeOrder | streamlit_app.py:163 | lowering before or after the two replacements gives the same stem |
| Storefront.FirstImageSrc | streamlit_app.py:40-43 | fails with the upload-failed error exactly when the image list is missing or empty, and with a missing-key error exactly when the first image has no `src`; otherwise returns that `src` |
| Storefront.Message | streamlit_app.py:40-43 | the text of each failure is non-empty, and it is the key `'src'` exactly for the missing-key error |
| Storefront.FailureMessages | streamlit_app.py:40-43 | an absent or empty image list gives the upload-failed message; a first image without `src` gives `'src'` |
| Storefront.FirstImageOfUpload | streamlit_app.py:32-43 | for a product returned with the given image URLs, the extracted URL is the first of them, and with none the upload fails |

## Left out

- The network calls are not modelled. This covers the image-host upload, the storefront product creation, the marketplace token, the three-step feed submission and the inventory submission (streamlit_app.py:2-38, 83-90, 134-150; the rest of inventory_feed_submitter.py). They are I/O against services whose code is not part of this model.
- The interactive page is not modelled: file upload, image preview, buttons and messages (streamlit_app.py:153-183). Neither are the secrets it reads (streamlit_app.py:46-61).
- The display title (streamlit_app.py:162) is left out because it relies on `str.title()`, whose word and case rules are not modelled. It reaches the storefront payload and the preview caption (streamlit_app.py:164), never a feed.
- Strings.Lower: lowers ASCII capitals only; Python's `lower()` also folds other Unicode capitals.
- Storefront.Handle: inherits the ASCII-only lowering of `Strings.Lower`.
- Tsv.PriceString: writes numbers held as whole cents with at most two decimals, as the source's prices are; Python's `repr` of other floats is not modelled.
- Cells are strings, integers or cent amounts. The source would accept any Python object for `quantity` and `latency`; the model takes integers.
- The feed is modelled as text made of Unicode scalar values; its UTF-8 encoding on upload is not modelled.
- Tsv.ReadFeed: only splits on `\r\n` and tabs, so it is not a reader for quoted fields. The read-back lemmas cover rows that need no quoting.
- InventoryFeed.InventoryReadBack: requires SKUs free of tab, `"`, CR and LF, the rows for which `Tsv.ReadFeed` is a faithful reader.
- ListingFeed.ListingReadBack: requires the catalog copy, the title and the image URL to be free of tab, `"`, CR and LF, the rows for which `Tsv.ReadFeed` is a faithful reader. `ListingFeed.StoreCopyClean` discharges the copy's part for the store's own copy.
- ListingFeed.AmazonFeedReadBack: requires the title and the image URL to be free of tab, `"`, CR and LF, for the same reason.
- `feed.seek(0)` and returning the stream are modelled as returning the text the stream holds.
- Feed polling, batching several designs into one feed, and the structured-record encoding are not part of these files and not modelled.
