/**
 * The multi-variant flat-file listing feed: a header of 23 positional
 * columns, one parent row that groups the variations, and one child row per
 * entry of the fixed variation list, each with a SKU derived from the title
 * and the variation label, a price tier and a fixed quantity.
 */
module ListingFeed {
  import opened Strings
  import opened Tsv

  // ---------------------------------------------------------------------------
  // Fixed catalog copy
  // ---------------------------------------------------------------------------

  // The long texts below are written as concatenations of short literals,
  // which is the same text and keeps the proofs about their characters small.

  const ImageHost: string := "https://m.media-amazon.com" + "/images/I/"
  const ImageSuffix: string := "._AC_SX569_.jpg"

  /** The URL of a marketplace-hosted image, by its identifier. */
  function ImageUrl(id: string): string
  {
    ImageHost + id + ImageSuffix
  }

  const AccessoryImages: seq<string> := [
    ImageUrl("71gy1ba4WmL"),
    ImageUrl("71DUS9nCUjL"),
    ImageUrl("81UU9p0A4aL"),
    ImageUrl("81qLAI2RmBL"),
    ImageUrl("71HvcLmnGkL")
  ]

  const Bullets: seq<string> := [
    "🎨 High-Quality Ink Printing",
    "🎖️ Proudly Veteran-Owned",
    "👶 Comfort and Convenience",
    "🎁 Perfect Baby Shower Gift",
    "📏 Versatile Sizing & Colors"
  ]

  const DescriptionParts: seq<string> := [
    "<p>Celebrate the arrival ", "of your little one with a ", "beautifully printed baby ",
    "bodysuit from NOFO VIBES. ", "Crafted for comfort and ", "made with love!</p>"
  ]

  const Description: string :=
    DescriptionParts[0] + DescriptionParts[1] + DescriptionParts[2] +
    DescriptionParts[3] + DescriptionParts[4] + DescriptionParts[5]

  const Brand: string := "NOFO VIBES"
  const ProductType: string := "infant-and-toddler-bodysuits"
  const ItemNameSuffix: string := " - Baby Boy Girl Clothes Bodysuit Funny Cute"
  const ChildQuantity: int := 999

  /** The 23 positional columns of the flat file, in order. */
  const Columns: seq<string> := [
    "item_sku", "item_name", "brand_name", "feed_product_type", "update_delete",
    "parent_child", "parent_sku", "relationship_type", "variation_theme",
    "standard_price", "quantity", "main_image_url",
    "other_image_url1", "other_image_url2", "other_image_url3",
    "other_image_url4", "other_image_url5",
    "bullet_point1", "bullet_point2", "bullet_point3",
    "bullet_point4", "bullet_point5", "product_description"
  ]

  const ItemSku: nat := 0
  const ParentChild: nat := 5
  const ParentSku: nat := 6
  const RelationshipType: nat := 7
  const StandardPrice: nat := 9
  const Quantity: nat := 10
  const MainImageUrl: nat := 11
  const FirstCopyColumn: nat := 12

  lemma ColumnPositions()
    ensures |Columns| == 23
    ensures Columns[ItemSku] == "item_sku" && Columns[ParentChild] == "parent_child"
    ensures Columns[ParentSku] == "parent_sku" && Columns[RelationshipType] == "relationship_type"
    ensures Columns[StandardPrice] == "standard_price" && Columns[Quantity] == "quantity"
    ensures Columns[MainImageUrl] == "main_image_url" && Columns[FirstCopyColumn] == "other_image_url1"
  {
  }

  // ---------------------------------------------------------------------------
  // The variation matrix
  // ---------------------------------------------------------------------------

  datatype Size = Newborn | Months0To3 | Months3To6 | Months6 | Months6To9 | Months12 | Months18 | Months24
  datatype Color = White | Natural | Pink | Blue
  datatype Sleeve = ShortSleeve | LongSleeve
  datatype Variant = Variant(size: Size, color: Color, sleeve: Sleeve)

  function SizeName(s: Size): string
  {
    match s
    case Newborn => "Newborn"
    case Months0To3 => "0-3M"
    case Months3To6 => "3-6M"
    case Months6 => "6M"
    case Months6To9 => "6-9M"
    case Months12 => "12M"
    case Months18 => "18M"
    case Months24 => "24M"
  }

  function ColorName(c: Color): string
  {
    match c
    case White => "White"
    case Natural => "Natural"
    case Pink => "Pink"
    case Blue => "Blue"
  }

  function SleeveName(s: Sleeve): string
  {
    match s
    case ShortSleeve => "Short"
    case LongSleeve => "Long"
  }

  /** The words of a variant's label: size, color, sleeve length, "Sleeve". */
  function LabelWords(v: Variant): seq<string>
  {
    [SizeName(v.size), ColorName(v.color), SleeveName(v.sleeve), "Sleeve"]
  }

  /**
   * The variation labels of the listing, in the order the children are
   * written, each given as its words; the label is those words joined by
   * single spaces.
   */
  const VariationWords: seq<seq<string>> := [
    ["Newborn", "White", "Short", "Sleeve"], ["Newborn", "White", "Long", "Sleeve"], ["Newborn", "Natural", "Short", "Sleeve"],
    ["0-3M", "White", "Short", "Sleeve"], ["0-3M", "White", "Long", "Sleeve"], ["0-3M", "Pink", "Short", "Sleeve"],
    ["0-3M", "Blue", "Short", "Sleeve"], ["3-6M", "White", "Short", "Sleeve"], ["3-6M", "White", "Long", "Sleeve"],
    ["3-6M", "Blue", "Short", "Sleeve"], ["3-6M", "Pink", "Short", "Sleeve"], ["6M", "Natural", "Short", "Sleeve"],
    ["6-9M", "White", "Short", "Sleeve"], ["6-9M", "White", "Long", "Sleeve"], ["6-9M", "Pink", "Short", "Sleeve"],
    ["6-9M", "Blue", "Short", "Sleeve"], ["12M", "White", "Short", "Sleeve"], ["12M", "White", "Long", "Sleeve"],
    ["12M", "Natural", "Short", "Sleeve"], ["12M", "Pink", "Short", "Sleeve"], ["12M", "Blue", "Short", "Sleeve"],
    ["18M", "White", "Short", "Sleeve"], ["18M", "White", "Long", "Sleeve"], ["18M", "Natural", "Short", "Sleeve"],
    ["24M", "White", "Short", "Sleeve"], ["24M", "White", "Long", "Sleeve"], ["24M", "Natural", "Short", "Sleeve"]
  ]

  /** The same list, one variant per label. */
  const Matrix: seq<Variant> := [
    Variant(Newborn, White, ShortSleeve), Variant(Newborn, White, LongSleeve), Variant(Newborn, Natural, ShortSleeve),
    Variant(Months0To3, White, ShortSleeve), Variant(Months0To3, White, LongSleeve),
    Variant(Months0To3, Pink, ShortSleeve), Variant(Months0To3, Blue, ShortSleeve),
    Variant(Months3To6, White, ShortSleeve), Variant(Months3To6, White, LongSleeve),
    Variant(Months3To6, Blue, ShortSleeve), Variant(Months3To6, Pink, ShortSleeve),
    Variant(Months6, Natural, ShortSleeve), Variant(Months6To9, White, ShortSleeve),
    Variant(Months6To9, White, LongSleeve), Variant(Months6To9, Pink, ShortSleeve),
    Variant(Months6To9, Blue, ShortSleeve), Variant(Months12, White, ShortSleeve),
    Variant(Months12, White, LongSleeve), Variant(Months12, Natural, ShortSleeve),
    Variant(Months12, Pink, ShortSleeve), Variant(Months12, Blue, ShortSleeve),
    Variant(Months18, White, ShortSleeve), Variant(Months18, White, LongSleeve),
    Variant(Months18, Natural, ShortSleeve), Variant(Months24, White, ShortSleeve),
    Variant(Months24, White, LongSleeve), Variant(Months24, Natural, ShortSleeve)
  ]

  // The word lists and the matrix agree entry by entry, a few entries per
  // lemma to keep each proof small.

  lemma MatrixSpells0()
    ensures VariationWords[0] == LabelWords(Matrix[0])
    ensures VariationWords[1] == LabelWords(Matrix[1])
    ensures VariationWords[2] == LabelWords(Matrix[2])
    ensures VariationWords[3] == LabelWords(Matrix[3])
    ensures VariationWords[4] == LabelWords(Matrix[4])
  {
  }

  lemma MatrixSpells5()
    ensures VariationWords[5] == LabelWords(Matrix[5])
    ensures VariationWords[6] == LabelWords(Matrix[6])
    ensures VariationWords[7] == LabelWords(Matrix[7])
    ensures VariationWords[8] == LabelWords(Matrix[8])
    ensures VariationWords[9] == LabelWords(Matrix[9])
    ensures VariationWords[10] == LabelWords(Matrix[10])
  {
  }

  lemma MatrixSpells11()
    ensures VariationWords[11] == LabelWords(Matrix[11])
    ensures VariationWords[12] == LabelWords(Matrix[12])
    ensures VariationWords[13] == LabelWords(Matrix[13])
    ensures VariationWords[14] == LabelWords(Matrix[14])
    ensures VariationWords[15] == LabelWords(Matrix[15])
    ensures VariationWords[16] == LabelWords(Matrix[16])
    ensures VariationWords[17] == LabelWords(Matrix[17])
  {
  }

  lemma MatrixSpells18()
    ensures VariationWords[18] == LabelWords(Matrix[18])
    ensures VariationWords[19] == LabelWords(Matrix[19])
    ensures VariationWords[20] == LabelWords(Matrix[20])
    ensures VariationWords[21] == LabelWords(Matrix[21])
    ensures VariationWords[22] == LabelWords(Matrix[22])
    ensures VariationWords[23] == LabelWords(Matrix[23])
    ensures VariationWords[24] == LabelWords(Matrix[24])
    ensures VariationWords[25] == LabelWords(Matrix[25])
    ensures VariationWords[26] == LabelWords(Matrix[26])
  {
  }

  /** The variation list is exactly the labels of the variant matrix, in order. */
  lemma MatrixSpellsLabels()
    ensures |VariationWords| == |Matrix| == 27
    ensures forall i :: 0 <= i < |Matrix| ==> VariationWords[i] == LabelWords(Matrix[i])
  {
    MatrixSpells0();
    MatrixSpells5();
    MatrixSpells11();
    MatrixSpells18();
  }

  /** The variation labels, in the order the children are written. */
  function VariationLabels(): seq<string>
  {
    seq(|Matrix|, i requires 0 <= i < |Matrix| => JoinOn(LabelWords(Matrix[i]), " "))
  }

  /** They are the labels as the listing spells them, one by one. */
  lemma VariationsAsWritten()
    ensures |VariationLabels()| == |VariationWords| == 27
    ensures forall i :: 0 <= i < |VariationWords| ==> VariationLabels()[i] == JoinOn(VariationWords[i], " ")
  {
    MatrixSpellsLabels();
  }

  /** No two entries of the variant matrix are the same variant. */
  lemma MatrixDistinct()
    ensures forall i, j :: 0 <= i < j < |Matrix| ==> Matrix[i] != Matrix[j]
  {
  }

  // ---------------------------------------------------------------------------
  // Child SKUs
  // ---------------------------------------------------------------------------

  /** `"SS" if "Short" in sleeve else "LS"`, where `sleeve` is the label's last two words. */
  function Abbreviation(sleeve: seq<string>): (abbr: string)
    ensures abbr == "SS" || abbr == "LS"
    ensures abbr == "SS" <==> "Short" in sleeve
  {
    if "Short" in sleeve then "SS" else "LS"
  }

  /**
   * The child SKU of a variation label: the title, the label's first two
   * words and the sleeve abbreviation joined by `-`, with every space
   * removed.
   */
  function SkuFor(title: string, variation: string): (sku: string)
    requires |Words(variation)| >= 2
    ensures ' ' !in sku
  {
    var w := Words(variation);
    var size, color, sleeve := w[0], w[1], w[|w| - 2..];
    RemoveChar(title + "-" + size + "-" + color + "-" + Abbreviation(sleeve), ' ')
  }

  /** Only the title can hold spaces, so removing them touches nothing else. */
  lemma SkuShape(title: string, variation: string)
    requires |Words(variation)| >= 2
    ensures var w := Words(variation);
      SkuFor(title, variation)
        == RemoveChar(title, ' ') + "-" + w[0] + "-" + w[1] + "-" + Abbreviation(w[|w| - 2..])
  {
    var w := Words(variation);
    var size, color, abbr := w[0], w[1], Abbreviation(w[|w| - 2..]);
    WordHasNoBlank(size);
    WordHasNoBlank(color);
    RemoveCharAppend(title + "-" + size + "-" + color + "-", abbr, ' ');
    RemoveCharAppend(title + "-" + size + "-" + color, "-", ' ');
    RemoveCharAppend(title + "-" + size + "-", color, ' ');
    RemoveCharAppend(title + "-" + size, "-", ' ');
    RemoveCharAppend(title + "-", size, ' ');
    RemoveCharAppend(title, "-", ' ');
    RemoveCharAbsent("-", ' ');
    RemoveCharAbsent(size, ' ');
    RemoveCharAbsent(color, ' ');
    RemoveCharAbsent(abbr, ' ');
  }

  function SleeveAbbr(s: Sleeve): string
  {
    match s
    case ShortSleeve => "SS"
    case LongSleeve => "LS"
  }

  /**
   * The SKU of a variant, read off the variant itself: it starts with the
   * title stripped of spaces and holds no space.
   */
  function VariantSku(title: string, v: Variant): (sku: string)
    ensures RemoveChar(title, ' ') <= sku
    ensures ' ' !in sku
  {
    RemoveChar(title, ' ') + "-" + SizeName(v.size) + "-" + ColorName(v.color) + "-" + SleeveAbbr(v.sleeve)
  }

  lemma NamesAreWords(v: Variant)
    ensures forall k :: 0 <= k < |LabelWords(v)| ==> IsWord(LabelWords(v)[k])
  {
    var ws := LabelWords(v);
    forall k | 0 <= k < |ws| ensures IsWord(ws[k]) {
      var w := ws[k];
      forall i | 0 <= i < |w| ensures !IsSpace(w[i]) {
        assert w[i] != ' ' && '!' <= w[i] <= '~';
      }
    }
  }

  /** Each variation splits into its variant's four words. */
  lemma LabelWordsOf(i: nat)
    requires i < |VariationLabels()|
    ensures Words(VariationLabels()[i]) == LabelWords(Matrix[i])
    ensures |Words(VariationLabels()[i])| == 4
  {
    NamesAreWords(Matrix[i]);
    WordsOfJoin(LabelWords(Matrix[i]));
  }

  /** Each variation's SKU is the SKU read off its variant. */
  lemma LabelSku(title: string, i: nat)
    requires i < |VariationLabels()|
    ensures |Words(VariationLabels()[i])| == 4
    ensures SkuFor(title, VariationLabels()[i]) == VariantSku(title, Matrix[i])
  {
    var v := Matrix[i];
    LabelWordsOf(i);
    var w := LabelWords(v);
    assert w[|w| - 2..] == [SleeveName(v.sleeve), "Sleeve"];
    SkuShape(title, VariationLabels()[i]);
  }

  lemma LabelsHaveWords()
    ensures forall i :: 0 <= i < |VariationLabels()| ==> |Words(VariationLabels()[i])| == 4
  {
    forall i | 0 <= i < |VariationLabels()| ensures |Words(VariationLabels()[i])| == 4 {
      LabelWordsOf(i);
    }
  }


  /** Different variants have different SKUs under the same title. */
  lemma VariantSkuInjective(title: string, v1: Variant, v2: Variant)
    requires VariantSku(title, v1) == VariantSku(title, v2)
    ensures v1 == v2
  {
    var t := RemoveChar(title, ' ');
    var s1, c1, a1 := SizeName(v1.size), ColorName(v1.color), SleeveAbbr(v1.sleeve);
    var s2, c2, a2 := SizeName(v2.size), ColorName(v2.color), SleeveAbbr(v2.sleeve);
    assert '-' !in a1 && '-' !in a2;
    LastSegment(t + "-" + s1 + "-" + c1, a1, t + "-" + s2 + "-" + c2, a2, '-');
    assert '-' !in c1 && '-' !in c2;
    LastSegment(t + "-" + s1, c1, t + "-" + s2, c2, '-');
    assert (t + "-" + s1)[|t| + 1..] == s1;
    assert (t + "-" + s2)[|t| + 1..] == s2;
    SizeNameInjective(v1.size, v2.size);
  }

  lemma SizeNameInjective(a: Size, b: Size)
    requires SizeName(a) == SizeName(b)
    ensures a == b
  {
  }

  /** No two children of the listing share a SKU. */
  lemma ChildSkusDistinct(title: string)
    ensures forall i :: 0 <= i < |VariationLabels()| ==> |Words(VariationLabels()[i])| == 4
    ensures forall i, j :: 0 <= i < j < |VariationLabels()| ==>
      SkuFor(title, VariationLabels()[i]) != SkuFor(title, VariationLabels()[j])
  {
    LabelsHaveWords();
    VariantSkusDistinct(title);
    forall i, j | 0 <= i < j < |VariationLabels()|
      ensures SkuFor(title, VariationLabels()[i]) != SkuFor(title, VariationLabels()[j])
    {
      LabelSku(title, i);
      LabelSku(title, j);
    }
  }

  lemma VariantSkusDistinct(title: string)
    ensures forall i, j :: 0 <= i < j < |Matrix| ==> VariantSku(title, Matrix[i]) != VariantSku(title, Matrix[j])
  {
    MatrixDistinct();
    forall i, j | 0 <= i < j < |Matrix| ensures VariantSku(title, Matrix[i]) != VariantSku(title, Matrix[j]) {
      if VariantSku(title, Matrix[i]) == VariantSku(title, Matrix[j]) {
        VariantSkuInjective(title, Matrix[i], Matrix[j]);
      }
    }
  }

  /** The parent's SKU ends in `Parent`, every child's in `SS` or `LS`. */
  lemma ParentNotVariant(title: string, v: Variant)
    ensures VariantSku(title, v) != title + "-Parent"
  {
    var sku := VariantSku(title, v);
    var p := title + "-Parent";
    assert sku[|sku| - 1] == 'S';
    assert p[|p| - 1] == 't';
  }

  lemma ParentSkuDiffers(title: string)
    ensures forall i :: 0 <= i < |VariationLabels()| ==> |Words(VariationLabels()[i])| == 4
    ensures forall i :: 0 <= i < |VariationLabels()| ==>
      SkuFor(title, VariationLabels()[i]) != title + "-Parent"
  {
    LabelsHaveWords();
    forall i | 0 <= i < |VariationLabels()| ensures SkuFor(title, VariationLabels()[i]) != title + "-Parent" {
      LabelSku(title, i);
      ParentNotVariant(title, Matrix[i]);
    }
  }

  // ---------------------------------------------------------------------------
  // Price tiers
  // ---------------------------------------------------------------------------

  /** Python's `s * n` on a list: `n` copies of `s`, one after another. */
  function Repeat<T>(s: seq<T>, n: nat): (r: seq<T>)
    ensures |r| == |s| * n
  {
    if n == 0 then [] else s + Repeat(s, n - 1)
  }

  /** Entry `r` of copy `q` is entry `r` of the original. */
  lemma {:induction false} RepeatIndex<T>(s: seq<T>, n: nat, q: nat, r: nat)
    requires r < |s| && q < n
    ensures q * |s| + r < |Repeat(s, n)|
    ensures Repeat(s, n)[q * |s| + r] == s[r]
  {
    var m := |s|;
    assert m * n == m * (n - 1) + m;
    if q > 0 {
      assert q * m == (q - 1) * m + m;
      RepeatIndex(s, n - 1, q - 1, r);
    }
  }

  /** 21.99, 22.99 and 27.99, held in cents. */
  const PriceTiers: seq<nat> := [2199, 2299, 2799]

  const Prices: seq<nat> := Repeat(PriceTiers, 9)

  /** One price per variation, cycling through the three tiers. */
  lemma PricesByTier()
    ensures |Prices| == |VariationLabels()| == 27
    ensures forall i :: 0 <= i < |Prices| ==> Prices[i] == PriceTiers[i % 3]
  {
    forall i | 0 <= i < |Prices| ensures Prices[i] == PriceTiers[i % 3] {
      RepeatIndex(PriceTiers, 9, i / 3, i % 3);
    }
  }

  /** The tiers as the feed writes them. */
  lemma TierPrices()
    ensures Render(Cents(PriceTiers[0])) == "21.99"
    ensures Render(Cents(PriceTiers[1])) == "22.99"
    ensures Render(Cents(PriceTiers[2])) == "27.99"
  {
  }

  lemma QuantityText()
    ensures Render(Int(ChildQuantity)) == "999"
  {
  }

  // ---------------------------------------------------------------------------
  // Rows
  // ---------------------------------------------------------------------------

  function Texts(ss: seq<string>): (r: Row)
    ensures |r| == |ss| && forall i :: 0 <= i < |ss| ==> r[i] == Text(ss[i])
  {
    seq(|ss|, i requires 0 <= i < |ss| => Text(ss[i]))
  }

  /** The header row: it renders as the 23 column names. */
  function HeaderRow(): (h: Row)
    ensures Rendered(h) == Columns
  {
    Texts(Columns)
  }

  /**
   * The catalog copy every data row ends with: accessory image URLs, bullet
   * points and the HTML description. The rows are defined over any copy and
   * the feed uses the store's own, which keeps the long literals out of the
   * proofs that do not read them.
   */
  datatype Copy = Copy(images: seq<string>, bullets: seq<string>, description: string)

  const StoreCopy: Copy := Copy(AccessoryImages, Bullets, Description)

  /** Five images and five bullets, so that a data row fills the 23 columns. */
  predicate Fits(copy: Copy)
  {
    |copy.images| == 5 && |copy.bullets| == 5
  }

  lemma StoreCopyFits()
    ensures Fits(StoreCopy)
  {
  }

  /** The trailing cells of a data row: images, bullets, description. */
  function CopyCells(copy: Copy): (cells: Row)
    ensures |cells| == |copy.images| + |copy.bullets| + 1
  {
    Texts(copy.images) + Texts(copy.bullets) + [Text(copy.description)]
  }

  function ItemName(title: string): string
  {
    title + ItemNameSuffix
  }

  function ParentSkuOf(title: string): string
  {
    title + "-Parent"
  }

  /** The parent row: the copy's cells after the first twelve, marked `parent`. */
  function ParentRow(title: string, imageUrl: string, copy: Copy): (r: Row)
    ensures |r| == FirstCopyColumn + |CopyCells(copy)|
    ensures r[ParentChild] == Text("parent")
  {
    [Text(ParentSkuOf(title)), Text(ItemName(title)), Text(Brand), Text(ProductType), Text("Update"),
     Text("parent"), Text(""), Text(""), Text("Size"), Text(""), Text(""), Text(imageUrl)]
    + CopyCells(copy)
  }

  /**
   * A child row: as long as the parent row, marked `child`, and naming as
   * its parent SKU the parent row's own SKU.
   */
  function ChildRow(title: string, imageUrl: string, copy: Copy, sku: string, price: nat): (r: Row)
    ensures |r| == |ParentRow(title, imageUrl, copy)|
    ensures r[ParentChild] == Text("child")
    ensures r[ParentSku] == ParentRow(title, imageUrl, copy)[ItemSku]
  {
    [Text(sku), Text(ItemName(title)), Text(Brand), Text(ProductType), Text("Update"),
     Text("child"), Text(ParentSkuOf(title)), Text("variation"), Text("Size"),
     Cents(price), Int(ChildQuantity), Text(imageUrl)]
    + CopyCells(copy)
  }

  /**
   * The child row of the `i`-th variation: the SKU of the `i`-th variant
   * and price tier `i mod 3`.
   */
  function Child(title: string, imageUrl: string, copy: Copy, i: nat): (r: Row)
    requires i < |VariationLabels()|
    ensures r == ChildRow(title, imageUrl, copy, VariantSku(title, Matrix[i]), PriceTiers[i % 3])
  {
    LabelSku(title, i);
    PricesByTier();
    ChildRow(title, imageUrl, copy, SkuFor(title, VariationLabels()[i]), Prices[i])
  }

  /** One child row per variation, in list order. */
  function ChildRows(title: string, imageUrl: string, copy: Copy): (rows: seq<Row>)
    ensures |rows| == |VariationLabels()|
  {
    seq(|VariationLabels()|, i requires 0 <= i < |VariationLabels()| => Child(title, imageUrl, copy, i))
  }

  /** The rows `generate_amazon_feed` writes, in order. */
  function ListingRows(title: string, imageUrl: string, copy: Copy): (rows: seq<Row>)
    ensures |rows| == |VariationLabels()| + 2
  {
    [HeaderRow(), ParentRow(title, imageUrl, copy)] + ChildRows(title, imageUrl, copy)
  }

  // How far the writer has got: the header and the parent first, then one
  // child per step.

  lemma ListingStart(title: string, imageUrl: string, copy: Copy)
    ensures ListingRows(title, imageUrl, copy)[..2] == [HeaderRow(), ParentRow(title, imageUrl, copy)]
  {
  }

  lemma ListingStep(title: string, imageUrl: string, copy: Copy, i: nat)
    requires i < |VariationLabels()|
    ensures ListingRows(title, imageUrl, copy)[..i + 3]
         == ListingRows(title, imageUrl, copy)[..i + 2] + [Child(title, imageUrl, copy, i)]
  {
    var rows := ListingRows(title, imageUrl, copy);
    assert rows[i + 2] == ChildRows(title, imageUrl, copy)[i];
    PrefixStep(rows, i + 2);
  }

  lemma PrefixStep<T>(s: seq<T>, n: nat)
    requires n < |s|
    ensures s[..n + 1] == s[..n] + [s[n]]
  {
  }

  /**
   * `generate_amazon_feed(title, image_url)`: the header, the parent, then
   * one child per variation, written through the tab-delimited writer, with
   * the store's own copy.
   */
  method GenerateAmazonFeed(title: string, imageUrl: string) returns (feed: string)
    ensures feed == Serialize(ListingRows(title, imageUrl, StoreCopy))
  {
    feed := WriteListing(title, imageUrl, StoreCopy);
  }

  /** The body of `generate_amazon_feed`, over the catalog copy it writes into every data row. */
  method WriteListing(title: string, imageUrl: string, copy: Copy) returns (feed: string)
    ensures feed == Serialize(ListingRows(title, imageUrl, copy))
  {
    var writer := new TsvWriter();
    writer.WriteRow(HeaderRow());
    writer.WriteRow(ParentRow(title, imageUrl, copy));
    ListingStart(title, imageUrl, copy);
    LabelsHaveWords();
    PricesByTier();
    for i := 0 to |VariationLabels()|
      invariant writer.Valid()
      invariant writer.rows == ListingRows(title, imageUrl, copy)[..i + 2]
    {
      var sku := SkuFor(title, VariationLabels()[i]);
      var row := ChildRow(title, imageUrl, copy, sku, Prices[i]);
      assert row == Child(title, imageUrl, copy, i);
      ListingStep(title, imageUrl, copy, i);
      writer.WriteRow(row);
    }
    assert ListingRows(title, imageUrl, copy)[..|VariationLabels()| + 2] == ListingRows(title, imageUrl, copy);
    feed := writer.GetValue();
  }

  // ---------------------------------------------------------------------------
  // What the feed promises
  // ---------------------------------------------------------------------------

  lemma ChildRowCells(title: string, imageUrl: string, copy: Copy, sku: string, price: nat)
    requires Fits(copy)
    ensures var r := ChildRow(title, imageUrl, copy, sku, price);
      |r| == 23 &&
      r[ItemSku] == Text(sku) && r[1] == Text(ItemName(title)) &&
      r[2] == Text(Brand) && r[3] == Text(ProductType) && r[4] == Text("Update") &&
      r[ParentChild] == Text("child") && r[ParentSku] == Text(ParentSkuOf(title)) &&
      r[RelationshipType] == Text("variation") && r[8] == Text("Size") &&
      r[StandardPrice] == Cents(price) && r[Quantity] == Int(ChildQuantity) &&
      r[MainImageUrl] == Text(imageUrl) && r[FirstCopyColumn..] == CopyCells(copy)
  {
    var r := ChildRow(title, imageUrl, copy, sku, price);
    assert r[FirstCopyColumn..] == CopyCells(copy);
  }

  /** The cells of child `i`, read off the row. */
  lemma ChildCells(title: string, imageUrl: string, copy: Copy, i: nat)
    requires Fits(copy) && i < |VariationLabels()|
    ensures var r := Child(title, imageUrl, copy, i);
      |r| == 23 &&
      r[ItemSku] == Text(VariantSku(title, Matrix[i])) && r[1] == Text(ItemName(title)) &&
      r[2] == Text(Brand) && r[3] == Text(ProductType) && r[4] == Text("Update") &&
      r[ParentChild] == Text("child") && r[ParentSku] == Text(ParentSkuOf(title)) &&
      r[RelationshipType] == Text("variation") && r[8] == Text("Size") &&
      r[StandardPrice] == Cents(PriceTiers[i % 3]) && r[Quantity] == Int(ChildQuantity) &&
      r[MainImageUrl] == Text(imageUrl) && r[FirstCopyColumn..] == CopyCells(copy)
  {
    LabelSku(title, i);
    PricesByTier();
    var sku, price := SkuFor(title, VariationLabels()[i]), Prices[i];
    assert Child(title, imageUrl, copy, i) == ChildRow(title, imageUrl, copy, sku, price);
    ChildRowCells(title, imageUrl, copy, sku, price);
  }

  /** The cells of the parent, read off the row. */
  lemma ParentCells(title: string, imageUrl: string, copy: Copy)
    requires Fits(copy)
    ensures var r := ParentRow(title, imageUrl, copy);
      |r| == 23 &&
      r[ItemSku] == Text(ParentSkuOf(title)) && r[1] == Text(ItemName(title)) &&
      r[2] == Text(Brand) && r[3] == Text(ProductType) && r[4] == Text("Update") &&
      r[ParentChild] == Text("parent") && r[ParentSku] == Text("") &&
      r[RelationshipType] == Text("") && r[8] == Text("Size") &&
      r[StandardPrice] == Text("") && r[Quantity] == Text("") &&
      r[MainImageUrl] == Text(imageUrl) && r[FirstCopyColumn..] == CopyCells(copy)
  {
    var r := ParentRow(title, imageUrl, copy);
    assert r[FirstCopyColumn..] == CopyCells(copy);
  }

  /** A header, a parent and 27 children, every row as wide as the header. */
  lemma ListingLayout(title: string, imageUrl: string, copy: Copy)
    requires Fits(copy)
    ensures var rows := ListingRows(title, imageUrl, copy);
      |rows| == 29 && Rendered(rows[0]) == Columns &&
      forall k :: 0 <= k < |rows| ==> |rows[k]| == |Columns| == 23
  {
    var rows := ListingRows(title, imageUrl, copy);
    assert Rendered(rows[0]) == Columns;
    ParentCells(title, imageUrl, copy);
    forall k | 2 <= k < |rows| ensures |rows[k]| == 23 {
      ChildCells(title, imageUrl, copy, k - 2);
    }
  }

  /** Row 1 is the one parent: no parent SKU, relationship, price or quantity of its own. */
  lemma SingleParent(title: string, imageUrl: string, copy: Copy)
    requires Fits(copy)
    ensures var rows := ListingRows(title, imageUrl, copy);
      |rows| == 29 && (forall k :: 0 <= k < |rows| ==> |rows[k]| == 23) &&
      (forall k :: 0 <= k < |rows| ==> (rows[k][ParentChild] == Text("parent") <==> k == 1)) &&
      rows[1][ItemSku] == Text(ParentSkuOf(title)) && rows[1][ParentSku] == Text("") &&
      rows[1][RelationshipType] == Text("") && rows[1][StandardPrice] == Text("") &&
      rows[1][Quantity] == Text("")
  {
    var rows := ListingRows(title, imageUrl, copy);
    ListingLayout(title, imageUrl, copy);
    ParentCells(title, imageUrl, copy);
    assert rows[0][ParentChild] == Text(Columns[ParentChild]);
    forall k | 2 <= k < |rows| ensures rows[k][ParentChild] == Text("child") {
      ChildCells(title, imageUrl, copy, k - 2);
    }
  }

  /**
   * Child `i` (row `i + 2`) is a variation of the parent, carries the SKU of
   * the `i`-th variant, the price tier `i mod 3` and the fixed quantity.
   */
  lemma ChildContents(title: string, imageUrl: string, copy: Copy)
    requires Fits(copy)
    ensures var rows := ListingRows(title, imageUrl, copy);
      |rows| == |Matrix| + 2 == 29 && (forall k :: 0 <= k < |rows| ==> |rows[k]| == 23) &&
      forall i :: 0 <= i < |Matrix| ==>
        rows[i + 2][ItemSku] == Text(VariantSku(title, Matrix[i])) &&
        rows[i + 2][ParentChild] == Text("child") &&
        rows[i + 2][ParentSku] == rows[1][ItemSku] &&
        rows[i + 2][RelationshipType] == Text("variation") &&
        rows[i + 2][StandardPrice] == Cents(PriceTiers[i % 3]) &&
        rows[i + 2][Quantity] == Int(ChildQuantity)
  {
    var rows := ListingRows(title, imageUrl, copy);
    ListingLayout(title, imageUrl, copy);
    ParentCells(title, imageUrl, copy);
    forall i | 0 <= i < |Matrix|
      ensures rows[i + 2][ItemSku] == Text(VariantSku(title, Matrix[i]))
      ensures rows[i + 2][ParentChild] == Text("child")
      ensures rows[i + 2][ParentSku] == rows[1][ItemSku]
      ensures rows[i + 2][RelationshipType] == Text("variation")
      ensures rows[i + 2][StandardPrice] == Cents(PriceTiers[i % 3])
      ensures rows[i + 2][Quantity] == Int(ChildQuantity)
    {
      ChildCells(title, imageUrl, copy, i);
    }
  }

  /** Every data row carries the item name, brand, type, main image and catalog copy. */
  lemma SharedCells(title: string, imageUrl: string, copy: Copy)
    requires Fits(copy)
    ensures var rows := ListingRows(title, imageUrl, copy);
      |rows| == 29 && (forall k :: 0 <= k < |rows| ==> |rows[k]| == 23) &&
      forall k :: 1 <= k < |rows| ==>
        rows[k][1] == Text(ItemName(title)) && rows[k][2] == Text(Brand) &&
        rows[k][3] == Text(ProductType) && rows[k][4] == Text("Update") &&
        rows[k][8] == Text("Size") && rows[k][MainImageUrl] == Text(imageUrl) &&
        rows[k][FirstCopyColumn..] == CopyCells(copy)
  {
    var rows := ListingRows(title, imageUrl, copy);
    ListingLayout(title, imageUrl, copy);
    ParentCells(title, imageUrl, copy);
    forall k | 2 <= k < |rows|
      ensures rows[k][1] == Text(ItemName(title)) && rows[k][2] == Text(Brand)
      ensures rows[k][3] == Text(ProductType) && rows[k][4] == Text("Update")
      ensures rows[k][8] == Text("Size") && rows[k][MainImageUrl] == Text(imageUrl)
      ensures rows[k][FirstCopyColumn..] == CopyCells(copy)
    {
      ChildCells(title, imageUrl, copy, k - 2);
    }
  }

  lemma SkuColumn(title: string, imageUrl: string, copy: Copy)
    requires Fits(copy)
    ensures var rows := ListingRows(title, imageUrl, copy);
      |rows| == |Matrix| + 2 && (forall k :: 0 <= k < |rows| ==> |rows[k]| == 23) &&
      rows[1][ItemSku] == Text(ParentSkuOf(title)) &&
      forall i :: 0 <= i < |Matrix| ==> rows[i + 2][ItemSku] == Text(VariantSku(title, Matrix[i]))
  {
    var rows := ListingRows(title, imageUrl, copy);
    ListingLayout(title, imageUrl, copy);
    ParentCells(title, imageUrl, copy);
    forall i | 0 <= i < |Matrix| ensures rows[i + 2][ItemSku] == Text(VariantSku(title, Matrix[i])) {
      ChildCells(title, imageUrl, copy, i);
    }
  }

  /** No two data rows share an `item_sku`. */
  lemma UniqueSkus(title: string, imageUrl: string, copy: Copy)
    requires Fits(copy)
    ensures var rows := ListingRows(title, imageUrl, copy);
      |rows| == 29 && (forall k :: 0 <= k < |rows| ==> |rows[k]| == 23) &&
      forall j, k :: 1 <= j < k < |rows| ==> rows[j][ItemSku] != rows[k][ItemSku]
  {
    var rows := ListingRows(title, imageUrl, copy);
    SkuColumn(title, imageUrl, copy);
    VariantSkusDistinct(title);
    forall j, k | 1 <= j < k < |rows| ensures rows[j][ItemSku] != rows[k][ItemSku] {
      var later := VariantSku(title, Matrix[k - 2]);
      assert rows[k][ItemSku] == Text(later);
      if j == 1 {
        ParentNotVariant(title, Matrix[k - 2]);
      } else {
        assert rows[j][ItemSku] == Text(VariantSku(title, Matrix[j - 2]));
        assert VariantSku(title, Matrix[j - 2]) != later;
      }
    }
  }

  // ---------------------------------------------------------------------------
  // Reading the feed back
  // ---------------------------------------------------------------------------

  /** No copy text holds a tab, `"`, CR or LF. */
  predicate CopyClean(copy: Copy)
  {
    (forall i :: 0 <= i < |copy.images| ==> Clean(copy.images[i])) &&
    (forall i :: 0 <= i < |copy.bullets| ==> Clean(copy.bullets[i])) &&
    Clean(copy.description)
  }

  lemma ColumnsClean0()
    ensures forall k :: 0 <= k < 5 ==> Clean(Columns[k])
  {
    assert Clean(Columns[0]) && Clean(Columns[1]) && Clean(Columns[2]) && Clean(Columns[3]) && Clean(Columns[4]);
  }

  lemma ColumnsClean5()
    ensures forall k :: 5 <= k < 10 ==> Clean(Columns[k])
  {
    assert Clean(Columns[5]) && Clean(Columns[6]) && Clean(Columns[7]) && Clean(Columns[8]) && Clean(Columns[9]);
  }

  lemma ColumnsClean10()
    ensures forall k :: 10 <= k < 14 ==> Clean(Columns[k])
  {
    assert Clean(Columns[10]) && Clean(Columns[11]) && Clean(Columns[12]) && Clean(Columns[13]);
  }

  lemma ColumnsClean14()
    ensures forall k :: 14 <= k < 18 ==> Clean(Columns[k])
  {
    assert Clean(Columns[14]) && Clean(Columns[15]) && Clean(Columns[16]) && Clean(Columns[17]);
  }

  lemma ColumnsClean18()
    ensures forall k :: 18 <= k < 23 ==> Clean(Columns[k])
  {
    assert Clean(Columns[18]) && Clean(Columns[19]) && Clean(Columns[20]) && Clean(Columns[21]) && Clean(Columns[22]);
  }

  lemma HeaderUnquoted()
    ensures Unquoted(HeaderRow()) && Rendered(HeaderRow()) == Columns
  {
    ColumnsClean0();
    ColumnsClean5();
    ColumnsClean10();
    ColumnsClean14();
    ColumnsClean18();
    assert Rendered(HeaderRow()) == Columns;
  }

  lemma FixedTextClean()
    ensures Clean(Brand) && Clean(ProductType) && Clean("-Parent") && Clean("Update")
    ensures Clean("parent") && Clean("child") && Clean("variation") && Clean("Size") && Clean("")
  {
  }

  lemma ItemNameClean(title: string)
    requires Clean(title)
    ensures Clean(ItemName(title)) && Clean(ParentSkuOf(title))
  {
    assert Clean(ItemNameSuffix);
    FixedTextClean();
    CleanConcat(title, ItemNameSuffix);
    CleanConcat(title, "-Parent");
  }

  lemma VariantSkuClean(title: string, v: Variant)
    requires Clean(title)
    ensures Clean(VariantSku(title, v))
  {
    var t := RemoveChar(title, ' ');
    var size, color, abbr := SizeName(v.size), ColorName(v.color), SleeveAbbr(v.sleeve);
    assert Clean("-") && Clean(size) && Clean(color) && Clean(abbr);
    CleanRemoveChar(title, ' ');
    CleanConcat(t, "-");
    CleanConcat(t + "-", size);
    CleanConcat(t + "-" + size, "-");
    CleanConcat(t + "-" + size + "-", color);
    CleanConcat(t + "-" + size + "-" + color, "-");
    CleanConcat(t + "-" + size + "-" + color + "-", abbr);
  }

  lemma CopyCellsClean(copy: Copy)
    requires CopyClean(copy)
    ensures forall j :: 0 <= j < |CopyCells(copy)| ==> Clean(Render(CopyCells(copy)[j]))
  {
    var cells := CopyCells(copy);
    forall j | 0 <= j < |cells| ensures Clean(Render(cells[j])) {
      if j < |copy.images| {
        assert cells[j] == Text(copy.images[j]);
      } else if j < |copy.images| + |copy.bullets| {
        assert cells[j] == Text(copy.bullets[j - |copy.images|]);
      } else {
        assert cells[j] == Text(copy.description);
      }
    }
  }

  /** Rendered cells of a data row, given its first twelve are clean. */
  lemma DataRowUnquoted(r: Row, copy: Copy)
    requires Fits(copy) && CopyClean(copy)
    requires |r| == 23 && r[FirstCopyColumn..] == CopyCells(copy)
    requires forall j :: 0 <= j < FirstCopyColumn ==> Clean(Render(r[j]))
    ensures Unquoted(r)
  {
    CopyCellsClean(copy);
    forall j | FirstCopyColumn <= j < |r| ensures Clean(Render(r[j])) {
      assert r[j] == CopyCells(copy)[j - FirstCopyColumn];
    }
  }

  lemma ParentUnquoted(title: string, imageUrl: string, copy: Copy)
    requires Fits(copy) && CopyClean(copy) && Clean(title) && Clean(imageUrl)
    ensures Unquoted(ParentRow(title, imageUrl, copy))
  {
    ParentCells(title, imageUrl, copy);
    ItemNameClean(title);
    FixedTextClean();
    DataRowUnquoted(ParentRow(title, imageUrl, copy), copy);
  }

  lemma ChildRowUnquoted(title: string, imageUrl: string, copy: Copy, sku: string, price: nat)
    requires Fits(copy) && CopyClean(copy) && Clean(title) && Clean(imageUrl) && Clean(sku)
    ensures Unquoted(ChildRow(title, imageUrl, copy, sku, price))
  {
    ChildRowCells(title, imageUrl, copy, sku, price);
    ItemNameClean(title);
    FixedTextClean();
    PriceClean(price);
    IntClean(ChildQuantity);
    DataRowUnquoted(ChildRow(title, imageUrl, copy, sku, price), copy);
  }

  lemma ChildUnquoted(title: string, imageUrl: string, copy: Copy, i: nat)
    requires Fits(copy) && CopyClean(copy) && Clean(title) && Clean(imageUrl)
    requires i < |VariationLabels()|
    ensures Unquoted(Child(title, imageUrl, copy, i))
  {
    LabelSku(title, i);
    VariantSkuClean(title, Matrix[i]);
    PricesByTier();
    var sku, price := SkuFor(title, VariationLabels()[i]), Prices[i];
    assert Child(title, imageUrl, copy, i) == ChildRow(title, imageUrl, copy, sku, price);
    ChildRowUnquoted(title, imageUrl, copy, sku, price);
  }

  lemma ImageUrlClean(id: string)
    requires Clean(id)
    ensures Clean(ImageUrl(id))
  {
    assert Clean("https://m.media-amazon.com") && Clean("/images/I/");
    CleanConcat("https://m.media-amazon.com", "/images/I/");
    assert Clean(ImageSuffix);
    CleanConcat(ImageHost, id);
    CleanConcat(ImageHost + id, ImageSuffix);
  }

  lemma AccessoryImagesClean()
    ensures forall i :: 0 <= i < |AccessoryImages| ==> Clean(AccessoryImages[i])
  {
    assert Clean("71gy1ba4WmL") && Clean("71DUS9nCUjL") && Clean("81UU9p0A4aL");
    assert Clean("81qLAI2RmBL") && Clean("71HvcLmnGkL");
    ImageUrlClean("71gy1ba4WmL");
    ImageUrlClean("71DUS9nCUjL");
    ImageUrlClean("81UU9p0A4aL");
    ImageUrlClean("81qLAI2RmBL");
    ImageUrlClean("71HvcLmnGkL");
  }

  lemma BulletsClean0()
    ensures Clean(Bullets[0]) && Clean(Bullets[1]) && Clean(Bullets[2])
  {
  }

  lemma BulletsClean()
    ensures forall i :: 0 <= i < |Bullets| ==> Clean(Bullets[i])
  {
    BulletsClean0();
    assert Clean(Bullets[3]) && Clean(Bullets[4]);
  }

  lemma DescriptionPartsClean0()
    ensures Clean(DescriptionParts[0]) && Clean(DescriptionParts[1]) && Clean(DescriptionParts[2])
  {
  }

  lemma DescriptionPartsClean3()
    ensures Clean(DescriptionParts[3]) && Clean(DescriptionParts[4]) && Clean(DescriptionParts[5])
  {
  }

  lemma DescriptionClean()
    ensures Clean(Description)
  {
    var d := DescriptionParts;
    DescriptionPartsClean0();
    DescriptionPartsClean3();
    CleanConcat(d[0], d[1]);
    CleanConcat(d[0] + d[1], d[2]);
    CleanConcat(d[0] + d[1] + d[2], d[3]);
    CleanConcat(d[0] + d[1] + d[2] + d[3], d[4]);
    CleanConcat(d[0] + d[1] + d[2] + d[3] + d[4], d[5]);
  }

  /** The store's own copy holds no tab, `"`, CR or LF. */
  lemma StoreCopyClean()
    ensures CopyClean(StoreCopy)
  {
    AccessoryImagesClean();
    BulletsClean();
    DescriptionClean();
  }

  /**
   * With a title, an image URL and copy free of tabs, quotes and line
   * breaks, reading the feed back line by line and cell by cell gives the
   * header's column names and each row's rendered cells, in order.
   */
  lemma ListingReadBack(title: string, imageUrl: string, copy: Copy)
    requires Fits(copy) && CopyClean(copy) && Clean(title) && Clean(imageUrl)
    ensures var rows := ListingRows(title, imageUrl, copy);
      ReadFeed(Serialize(rows)) == seq(|rows|, k requires 0 <= k < |rows| => Rendered(rows[k])) &&
      Rendered(rows[0]) == Columns
  {
    var rows := ListingRows(title, imageUrl, copy);
    HeaderUnquoted();
    ParentUnquoted(title, imageUrl, copy);
    forall k | 0 <= k < |rows| ensures Unquoted(rows[k]) {
      if k >= 2 {
        ChildUnquoted(title, imageUrl, copy, k - 2);
      }
    }
    ReadSerialized(rows);
  }

  /**
   * The feed `GenerateAmazonFeed` returns, for a title and an image URL free
   * of tabs, quotes and line breaks, reads back as the column names and
   * every row's rendered cells, in order.
   */
  lemma AmazonFeedReadBack(title: string, imageUrl: string)
    requires Clean(title) && Clean(imageUrl)
    ensures var rows := ListingRows(title, imageUrl, StoreCopy);
      ReadFeed(Serialize(rows)) == seq(|rows|, k requires 0 <= k < |rows| => Rendered(rows[k])) &&
      Rendered(rows[0]) == Columns
  {
    StoreCopyFits();
    StoreCopyClean();
    ListingReadBack(title, imageUrl, StoreCopy);
  }
}
