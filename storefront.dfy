/**
 * The storefront side of a listing: the URL handle derived from the
 * uploaded file's name, and the image URL read out of the product the
 * store returns after the upload.
 */
module Storefront {
  import opened Wrappers
  import opened Strings

  // ---------------------------------------------------------------------------
  // Handle
  // ---------------------------------------------------------------------------

  const HandleSuffix: string := "-baby-boy-girl-clothes-bodysuit-funny-cute"

  /**
   * What one character of the file stem becomes in the handle: spaces and
   * underscores become hyphens, ASCII capitals their small letters, and
   * every other character stays.
   */
  function HandleChar(c: char): (h: char)
    ensures h != ' ' && h != '_' && !('A' <= h <= 'Z')
    ensures c == ' ' || c == '_' ==> h == '-'
    ensures 'A' <= c <= 'Z' ==> h as int == c as int + 32
    ensures c != ' ' && c != '_' && !('A' <= c <= 'Z') ==> h == c
  {
    if c == ' ' || c == '_' then '-' else LowerChar(c)
  }

  /** The stem lowered, then spaces and then underscores replaced by hyphens. */
  function NormalizeStem(stem: string): (n: string)
    ensures |n| == |stem|
    ensures forall i :: 0 <= i < |stem| ==> n[i] == HandleChar(stem[i])
  {
    ReplaceChar(ReplaceChar(Lower(stem), ' ', '-'), '_', '-')
  }

  /** The product handle for a file stem. */
  function Handle(stem: string): (h: string)
    ensures |h| == |stem| + |HandleSuffix|
    ensures h[|stem|..] == HandleSuffix
    ensures forall i :: 0 <= i < |stem| ==> h[i] == HandleChar(stem[i])
  {
    NormalizeStem(stem) + HandleSuffix
  }

  /** The stem part of a handle has no space, no underscore and no ASCII capital. */
  lemma HandleStemShape(stem: string)
    ensures var h := Handle(stem);
      forall i :: 0 <= i < |stem| ==> h[i] != ' ' && h[i] != '_' && !('A' <= h[i] <= 'Z')
  {
    var h := Handle(stem);
    forall i | 0 <= i < |stem| ensures h[i] != ' ' && h[i] != '_' && !('A' <= h[i] <= 'Z') {
      var c := stem[i];
      if 'A' <= c <= 'Z' {
        assert LowerChar(c) as int == c as int + 32;
      }
    }
  }

  /** A stem that is already a normalised handle stem is kept as it is. */
  lemma NormalizeIdempotent(stem: string)
    ensures NormalizeStem(NormalizeStem(stem)) == NormalizeStem(stem)
  {
    var n := NormalizeStem(stem);
    forall i | 0 <= i < |n| ensures HandleChar(n[i]) == n[i] {
      var c := stem[i];
      if 'A' <= c <= 'Z' {
        assert LowerChar(c) as int == c as int + 32;
      }
    }
  }

  /** Lowering first or replacing first gives the same stem: neither touches what the other changes. */
  lemma NormalizeOrder(stem: string)
    ensures NormalizeStem(stem) == Lower(ReplaceChar(ReplaceChar(stem, ' ', '-'), '_', '-'))
  {
  }

  // ---------------------------------------------------------------------------
  // The uploaded image's URL
  // ---------------------------------------------------------------------------

  /** One entry of the product's `images` list; `src` may be absent. */
  datatype ImageRecord = ImageRecord(src: Option<string>)

  /** The `product` object the store returns; `images` may be absent. */
  datatype Product = Product(images: Option<seq<ImageRecord>>)

  datatype ExtractError =
    | NoImageReturned   // the exception raised when `images` is missing or empty
    | SrcMissing        // the first image has no `src` key

  const NoImageMessage: string := "Image upload failed — Shopify didn't return an image."

  /** `str` of the exception: the raised message, or the missing key as a `KeyError` shows it. */
  function Message(e: ExtractError): (m: string)
    ensures |m| > 0
    ensures e == SrcMissing <==> m == "'src'"
  {
    match e
    case NoImageReturned => NoImageMessage
    case SrcMissing => "'src'"
  }

  /** `product["images"][0]["src"]`, failing when the list is absent or empty. */
  function FirstImageSrc(p: Product): (r: Result<string, ExtractError>)
    ensures r.Err? && r.error == NoImageReturned <==> p.images.None? || |p.images.value| == 0
    ensures r.Err? && r.error == SrcMissing <==>
      p.images.Some? && |p.images.value| > 0 && p.images.value[0].src.None?
    ensures r.Ok? ==> p.images.Some? && |p.images.value| > 0 && p.images.value[0].src == Some(r.value)
  {
    if p.images.None? || |p.images.value| == 0 then Err(NoImageReturned)
    else if p.images.value[0].src.None? then Err(SrcMissing)
    else Ok(p.images.value[0].src.value)
  }

  /** A product whose images carry the given URLs, in order. */
  function ProductWithImages(srcs: seq<string>): (p: Product)
    ensures p.images.Some? && |p.images.value| == |srcs|
  {
    Product(Some(seq(|srcs|, i requires 0 <= i < |srcs| => ImageRecord(Some(srcs[i])))))
  }

  /** The URL read back is the first one the store put there; with none, the upload fails. */
  lemma FirstImageOfUpload(srcs: seq<string>)
    ensures FirstImageSrc(ProductWithImages(srcs)) ==
      if srcs == [] then Err(NoImageReturned) else Ok(srcs[0])
  {
  }

  /**
   * What the caller sees for each failure: the upload-failed message when
   * `images` is absent or empty, the key `'src'` when the first image lacks it.
   */
  lemma FailureMessages(rest: seq<ImageRecord>)
    ensures Message(FirstImageSrc(Product(None)).error) == NoImageMessage
    ensures Message(FirstImageSrc(Product(Some([]))).error) == NoImageMessage
    ensures Message(FirstImageSrc(Product(Some([ImageRecord(None)] + rest))).error) == "'src'"
  {
  }
}
