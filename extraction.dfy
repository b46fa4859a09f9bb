/**
 * `extractProductData` (server.js): one product list item, already parsed, becomes a
 * product record. The parsed fragment is the set of attribute values and texts the
 * extractor asks its selector queries for.
 */
module Extraction {

  import opened Wrappers
  import opened Text

  /** What the selector queries of the extractor see in one list-item fragment. */
  datatype Fragment = Fragment(
    listItemId: Option<string>,              // data-product-id of the list item
    nameText: string,                        // text of `.js-item-name` ("" when absent)
    linkHref: Option<string>,                // href of `.item-link`
    srcset: Option<string>,                  // srcset of the featured image
    dataSrcset: Option<string>,              // data-srcset of the featured image
    priceText: string,                       // text of `.js-price-display`
    promoLabels: nat,                        // number of `.js-promotion-label-private` elements
    promoSpanText: string,                   // text of the spans inside those labels
    variantOptions: seq<Option<string>>)     // data-option of each `.js-insta-variant`, in document order

  /** The record the extractor returns. */
  datatype Product = Product(
    productId: Option<string>,
    productName: string,
    productUrl: Option<string>,
    imageSrc: string,
    price: string,
    hasPromo: bool,
    promoText: string,
    variants: seq<Option<string>>)

  /** JavaScript truthiness of an attribute value: present and non-empty. */
  predicate Truthy(a: Option<string>) {
    a.Some? && a.value != ""
  }

  /** The image attribute used: `srcset` unless it is missing, empty or holds inline base64 data. */
  function ChosenImageAttribute(srcset: Option<string>, dataSrcset: Option<string>): Option<string> {
    if !Truthy(srcset) || Includes(srcset.value, "base64") then dataSrcset else srcset
  }

  /** The first URL candidate of a responsive source list, with its first `//` made `https://`. */
  function ImageUrl(chosen: Option<string>): string {
    if Truthy(chosen) then ReplaceFirst(FirstCandidate(chosen.value), "//", "https://") else ""
  }

  predicate IsPriceChar(c: char) {
    IsDigit(c) || c == ','
  }

  /** `text.replace(/[^0-9,]/g, '')`: every character but digits and commas removed. */
  function KeepPriceChars(s: string): (r: string)
    ensures |r| <= |s|
    ensures forall i :: 0 <= i < |r| ==> IsPriceChar(r[i])
  {
    if s == [] then []
    else (if IsPriceChar(s[0]) then [s[0]] else []) + KeepPriceChars(s[1..])
  }

  /** The price text as handed to `parseFloat`: trimmed, cleaned, first comma turned into a dot. */
  function CleanPrice(priceText: string): string {
    ReplaceFirst(KeepPriceChars(Trim(priceText)), ",", ".")
  }

  /** The promotion text: the trimmed label text when a label exists, otherwise empty. */
  function PromoText(f: Fragment): string {
    if f.promoLabels > 0 then Trim(f.promoSpanText) else ""
  }

  /**
   * The record extracted from a fragment. `markup` stands for the number formatting
   * `parseFloat`, `* 1.35` and `toLocaleString('es-AR', …)` applied to the cleaned price.
   */
  function ProductOf(f: Fragment, markup: string -> string): Product {
    Product(
      f.listItemId,
      Trim(f.nameText),
      f.linkHref,
      ImageUrl(ChosenImageAttribute(f.srcset, f.dataSrcset)),
      "$" + markup(CleanPrice(f.priceText)),
      f.promoLabels > 0,
      PromoText(f),
      f.variantOptions)
  }

  /**
   * What every extracted record satisfies: the name is trimmed, the price carries the
   * currency sign, there is no promotion text without a promotion label, the image is
   * empty only when no usable source was found, and there is one variant per element.
   */
  lemma ProductInvariants(f: Fragment, markup: string -> string)
    ensures var p := ProductOf(f, markup);
            && (p.productName == [] || (!IsWhitespace(p.productName[0]) && !IsWhitespace(p.productName[|p.productName| - 1])))
            && |p.price| >= 1 && p.price[0] == '$'
            && (p.hasPromo <==> f.promoLabels > 0)
            && (!p.hasPromo ==> p.promoText == "")
            && (p.imageSrc == "" <==> var a := ChosenImageAttribute(f.srcset, f.dataSrcset); !Truthy(a) || a.value[0] == ' ')
            && p.variants == f.variantOptions
  {
    ImageUrlEmpty(ChosenImageAttribute(f.srcset, f.dataSrcset));
    TrimmedEnds(f.nameText);
  }

  /** The `.each` loop: one `data-option` value pushed per variant element, in document order. */
  method CollectVariants(options: seq<Option<string>>) returns (variants: seq<Option<string>>)
    ensures variants == options
  {
    variants := [];
    var i := 0;
    while i < |options|
      invariant 0 <= i <= |options|
      invariant variants == options[..i]
    {
      variants := variants + [options[i]];
      i := i + 1;
    }
  }

  /**
   * The extractor's statements in their own order: the `srcset` fallback is the
   * reassignment of `imgSrc` and the promotion text the conditional, as the source writes
   * them; the functions above state the same choices as values.
   */
  method ExtractProductData(f: Fragment, markup: string -> string) returns (p: Product)
    ensures p == ProductOf(f, markup)
  {
    var productId := f.listItemId;
    var productName := Trim(f.nameText);
    var productUrl := f.linkHref;
    var imgSrc := f.srcset;
    if !Truthy(imgSrc) || Includes(imgSrc.value, "base64") {
      imgSrc := f.dataSrcset;
    }
    var imageSrc := ImageUrl(imgSrc);
    var price := "$" + markup(CleanPrice(f.priceText));
    var hasPromo := f.promoLabels > 0;
    var promoText := if hasPromo then Trim(f.promoSpanText) else "";
    var variants := CollectVariants(f.variantOptions);
    p := Product(productId, productName, productUrl, imageSrc, price, hasPromo, promoText, variants);
  }

  // ---------------------------------------------------------------------------
  // Image source

  /** The image URL is empty exactly when no usable attribute was found or its first candidate is empty. */
  lemma ImageUrlEmpty(chosen: Option<string>)
    ensures ImageUrl(chosen) == "" <==> !Truthy(chosen) || chosen.value[0] == ' '
  {
    if Truthy(chosen) {
      var w := FirstCandidate(chosen.value);
      assert w == [] <==> chosen.value[0] == ' ';
      match IndexOf(w, "//")
      case None =>
      case Some(i) => assert |ReplaceFirst(w, "//", "https://")| >= 8;
    }
  }

  /** A protocol-relative candidate `//host/path` becomes `https://host/path`. */
  lemma ProtocolRelativeSecured(chosen: Option<string>)
    requires Truthy(chosen)
    requires |FirstCandidate(chosen.value)| >= 2 && FirstCandidate(chosen.value)[..2] == "//"
    ensures ImageUrl(chosen) == "https://" + FirstCandidate(chosen.value)[2..]
  {
    var w := FirstCandidate(chosen.value);
    assert OccursAt(w, "//", 0);
  }

  /** A candidate without `//` is used unchanged. */
  lemma CandidateWithoutSlashesKept(chosen: Option<string>)
    requires Truthy(chosen)
    requires !Includes(FirstCandidate(chosen.value), "//")
    ensures ImageUrl(chosen) == FirstCandidate(chosen.value)
  {
  }

  /**
   * The replacement is not anchored at the start: a candidate that is already an absolute
   * `https://` URL gets a second scheme inserted after `https:`.
   */
  lemma AbsoluteUrlGetsSecondScheme(chosen: Option<string>, rest: string)
    requires Truthy(chosen) && FirstCandidate(chosen.value) == "https://" + rest
    ensures ImageUrl(chosen) == "https:https://" + rest
  {
    var w := FirstCandidate(chosen.value);
    assert OccursAt(w, "//", 6);
    forall j | 0 <= j < 6 ensures !OccursAt(w, "//", j) {
      assert w[j] != '/';
      assert w[j..j + 2][0] == w[j];
    }
    assert IndexOf(w, "//") == Some(6);
  }

  /** With neither image attribute present the record has no image. */
  lemma NoImageAttributes(f: Fragment, markup: string -> string)
    requires f.srcset.None? && f.dataSrcset.None?
    ensures ProductOf(f, markup).imageSrc == ""
  {
  }

  /** A missing, empty or base64-embedding `srcset` falls back to `data-srcset`; any other is used. */
  lemma ImageFallback(f: Fragment, markup: string -> string)
    ensures !Truthy(f.srcset) || Includes(f.srcset.value, "base64") ==>
      ProductOf(f, markup).imageSrc == ImageUrl(f.dataSrcset)
    ensures Truthy(f.srcset) && !Includes(f.srcset.value, "base64") ==>
      ProductOf(f, markup).imageSrc == ImageUrl(f.srcset) &&
      (f.srcset.value[0] != ' ' ==> ProductOf(f, markup).imageSrc != "")
  {
    ImageUrlEmpty(f.srcset);
  }

  // ---------------------------------------------------------------------------
  // Price text

  lemma {:induction false} KeepPriceCharsAppend(a: string, b: string)
    ensures KeepPriceChars(a + b) == KeepPriceChars(a) + KeepPriceChars(b)
  {
    if a == [] {
      assert a + b == b;
    } else {
      assert (a + b)[0] == a[0] && (a + b)[1..] == a[1..] + b;
      KeepPriceCharsAppend(a[1..], b);
    }
  }

  /** Every digit and comma of the text is kept, as often as it occurs, and nothing else. */
  lemma {:induction false} KeepPriceCharsCounts(s: string)
    ensures forall c :: multiset(KeepPriceChars(s))[c] == if IsPriceChar(c) then multiset(s)[c] else 0
  {
    if s != [] {
      KeepPriceCharsCounts(s[1..]);
      assert s == [s[0]] + s[1..];
    }
  }

  lemma {:induction false} KeepPriceCharsOfWhitespace(s: string)
    requires forall i :: 0 <= i < |s| ==> IsWhitespace(s[i])
    ensures KeepPriceChars(s) == []
  {
    if s != [] {
      assert !IsPriceChar(s[0]);
      KeepPriceCharsOfWhitespace(s[1..]);
    }
  }

  /** Trimming before cleaning changes nothing: whitespace is never a price character. */
  lemma KeepPriceCharsIgnoresTrim(s: string)
    ensures KeepPriceChars(Trim(s)) == KeepPriceChars(s)
  {
    var r := Trim(s);
    var lead := |s| - |TrimStart(s)|;
    TrimShape(s);
    var front, back := s[..lead], s[lead + |r|..];
    assert s == front + r + back;
    assert KeepPriceChars(front) == [] by {
      forall i | 0 <= i < |front| ensures IsWhitespace(front[i]) {
        assert front[i] == s[i];
      }
      KeepPriceCharsOfWhitespace(front);
    }
    assert KeepPriceChars(back) == [] by {
      forall i | 0 <= i < |back| ensures IsWhitespace(back[i]) {
        assert back[i] == s[lead + |r| + i];
      }
      KeepPriceCharsOfWhitespace(back);
    }
    KeepPriceCharsAppend(front, r);
    KeepPriceCharsAppend(front + r, back);
  }

  /**
   * The cleaned price: digits and commas of the text, with the first comma (if any)
   * turned into a dot and every later comma left in place; so it holds at most one dot.
   */
  lemma CleanPriceShape(priceText: string)
    ensures var k := KeepPriceChars(priceText);
            var r := CleanPrice(priceText);
            && |r| == |k|
            && (forall i :: 0 <= i < |r| ==> IsDigit(r[i]) || r[i] == ',' || r[i] == '.')
            && multiset(r)['.'] == (if ',' in k then 1 else 0)
            && multiset(r)[','] == (if ',' in k then multiset(k)[','] - 1 else 0)
            && match IndexOf(k, ",")
               case None => r == k
               case Some(i) => r == k[i := '.'] && forall j :: 0 <= j < i ==> k[j] != ','
  {
    var k := KeepPriceChars(priceText);
    var r := CleanPrice(priceText);
    assert r == ReplaceFirst(k, ",", ".") by {
      KeepPriceCharsIgnoresTrim(priceText);
    }
    DotForFirstComma(k);
    LaterCommasKept(k);
    forall i | 0 <= i < |r| ensures IsDigit(r[i]) || r[i] == ',' || r[i] == '.' {
      assert IsPriceChar(k[i]);
    }
  }

  lemma LaterCommasKept(k: string)
    requires forall i :: 0 <= i < |k| ==> IsPriceChar(k[i])
    ensures multiset(ReplaceFirst(k, ",", "."))[','] == if ',' in k then multiset(k)[','] - 1 else 0
  {
    DotForFirstComma(k);
    match IndexOf(k, ",")
    case None =>
      assert multiset(k)[','] == 0;
    case Some(i) =>
      assert ',' in k;
      CommaBecomesDot(k, i);
  }

  /** Writing a dot over one comma of a text without dots: one dot, one comma fewer. */
  lemma CommaBecomesDot(k: string, i: nat)
    requires i < |k| && k[i] == ',' && '.' !in k
    ensures multiset(k[i := '.'])['.'] == 1
    ensures multiset(k[i := '.'])[','] == multiset(k)[','] - 1
  {
    var front, back := k[..i], k[i + 1..];
    assert k == front + [','] + back;
    assert k[i := '.'] == front + ['.'] + back;
    assert multiset(k) == multiset(front) + multiset{','} + multiset(back);
    assert multiset(k[i := '.']) == multiset(front) + multiset{'.'} + multiset(back);
  }

  lemma DotForFirstComma(k: string)
    requires forall i :: 0 <= i < |k| ==> IsPriceChar(k[i])
    ensures |ReplaceFirst(k, ",", ".")| == |k|
    ensures multiset(ReplaceFirst(k, ",", "."))['.'] == if ',' in k then 1 else 0
    ensures IndexOf(k, ",").None? ==> ReplaceFirst(k, ",", ".") == k && ',' !in k
    ensures IndexOf(k, ",").Some? ==>
      var i := IndexOf(k, ",").value;
      && i < |k| && k[i] == ','
      && ReplaceFirst(k, ",", ".") == k[i := '.'] && forall j :: 0 <= j < i ==> k[j] != ','
  {
    var r := ReplaceFirst(k, ",", ".");
    assert '.' !in k;
    match IndexOf(k, ",")
    case None =>
      CommaFree(k, |k|);
      assert ',' !in k && multiset(k)['.'] == 0;
    case Some(i) =>
      CommaFree(k, i);
      assert k[i] == ',' by { assert k[i..i + 1] == ","; }
      assert r == k[i := '.'] by {
        assert k == k[..i] + [','] + k[i + 1..];
      }
      CommaBecomesDot(k, i);
  }

  /** No comma in the first `n` characters when no occurrence of "," starts there. */
  lemma CommaFree(k: string, n: nat)
    requires n <= |k|
    requires forall j :: 0 <= j < n ==> !OccursAt(k, ",", j)
    ensures forall j :: 0 <= j < n ==> k[j] != ','
  {
    forall j | 0 <= j < n ensures k[j] != ',' {
      assert !OccursAt(k, ",", j);
      assert k[j..j + 1] == [k[j]];
    }
  }

  // ---------------------------------------------------------------------------
  // Promotion

  /** A promotion label whose span is blank yields a promotion with an empty text. */
  lemma PromoMayHaveEmptyText(f: Fragment, markup: string -> string)
    requires f.promoLabels > 0 && f.promoSpanText == " "
    ensures ProductOf(f, markup).hasPromo && ProductOf(f, markup).promoText == ""
  {
    assert IsWhitespace(' ') && TrimStart(" ") == "";
  }
}
