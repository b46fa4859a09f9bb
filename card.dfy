/**
 * `generateProductCard` (server.js): one product record becomes one catalog card. The
 * card's fixed markup is left out; what it shows is written as a sequence of segments,
 * in the order the template emits them.
 */
module Card {

  import opened Wrappers
  import opened Extraction

  datatype Segment =
    | Picture(src: string, alt: string)              // the product image
    | PromoBadge(text: string)                       // the red overlay badge
    | VariantChips(chips: seq<string>)               // the row of variant chips
    | PriceTag(price: string)                        // the large price
    | AddToCartAction(name: string, price: string)   // calls addToCart(name, price)
    | BuyAction(url: string)                         // the direct-purchase chat link
    | Title(name: string)                            // the product name below the buttons

  /** The chat link every purchase message goes to. */
  const ChatLink := "https://wa.me/5491165756608?text="

  /** `${v}` for a variant value: a missing attribute prints as "undefined". */
  function VariantLabel(v: Option<string>): string {
    match v
    case Some(s) => s
    case None => "undefined"
  }

  /** One chip per variant, in the variants' order. */
  function Chips(variants: seq<Option<string>>): (chips: seq<string>)
    ensures |chips| == |variants|
    ensures forall k :: 0 <= k < |chips| ==> chips[k] == VariantLabel(variants[k])
  {
    if variants == [] then []
    else Chips(variants[..|variants| - 1]) + [VariantLabel(variants[|variants| - 1])]
  }

  /** The pre-filled text of the direct-purchase link. */
  const BuyGreeting := "Hola! Quisiera comprar el producto "
  const BuyClosing := ". ¿Puede enviarme información, formas de pago y precio de envío? Gracias"

  function BuyMessage(p: Product): string {
    BuyGreeting + p.productName + " " + p.price + BuyClosing
  }

  /** `encode` stands for `encodeURIComponent`. */
  function BuyUrl(p: Product, encode: string -> string): string {
    ChatLink + encode(BuyMessage(p))
  }

  /** The card: picture, optional promotion badge, optional chip row, price, the two actions, the name. */
  function ProductCard(p: Product, encode: string -> string): (c: seq<Segment>)
    ensures |c| == 5 + (if p.hasPromo then 1 else 0) + (if |p.variants| > 0 then 1 else 0)
    ensures c[0] == Picture(p.imageSrc, p.productName)
    ensures c[|c| - 4] == PriceTag(p.price)
    ensures c[|c| - 3] == AddToCartAction(p.productName, p.price)
    ensures c[|c| - 2] == BuyAction(BuyUrl(p, encode))
    ensures c[|c| - 1] == Title(p.productName)
  {
    var badge := if p.hasPromo then [PromoBadge(p.promoText)] else [];
    var chipRow := if |p.variants| > 0 then [VariantChips(Chips(p.variants))] else [];
    var head := [Picture(p.imageSrc, p.productName)] + badge + chipRow;
    var tail := [PriceTag(p.price), AddToCartAction(p.productName, p.price), BuyAction(BuyUrl(p, encode)), Title(p.productName)];
    head + tail
  }

  /** The promotion badge is emitted exactly when the product has a promotion, and shows its text. */
  lemma PromoBadgeIffPromo(p: Product, encode: string -> string)
    ensures var c := ProductCard(p, encode);
            && ((exists i :: 0 <= i < |c| && c[i].PromoBadge?) <==> p.hasPromo)
            && (forall i :: 0 <= i < |c| && c[i].PromoBadge? ==> c[i].text == p.promoText)
  {
    var c := ProductCard(p, encode);
    if p.hasPromo {
      assert c[1].PromoBadge?;
    }
  }

  /** The chip row is emitted exactly when there are variants, with one chip per variant in order. */
  lemma ChipRowIffVariants(p: Product, encode: string -> string)
    ensures var c := ProductCard(p, encode);
            && ((exists i :: 0 <= i < |c| && c[i].VariantChips?) <==> |p.variants| > 0)
            && (forall i :: 0 <= i < |c| && c[i].VariantChips? ==>
                  |c[i].chips| == |p.variants| &&
                  forall k :: 0 <= k < |p.variants| ==> c[i].chips[k] == VariantLabel(p.variants[k]))
  {
    var c := ProductCard(p, encode);
    var first := if p.hasPromo then 2 else 1;
    if |p.variants| > 0 {
      assert c[first].VariantChips?;
    }
  }

  /** Price and name are shown on the card and handed to the cart and to the purchase link. */
  lemma CardShowsPriceAndName(p: Product, encode: string -> string)
    ensures var c := ProductCard(p, encode);
            && PriceTag(p.price) in c && Title(p.productName) in c
            && AddToCartAction(p.productName, p.price) in c
            && BuyAction(ChatLink + encode(BuyMessage(p))) in c
  {
    var c := ProductCard(p, encode);
    assert c[|c| - 4] == PriceTag(p.price);
    assert c[|c| - 3] == AddToCartAction(p.productName, p.price);
    assert c[|c| - 2] == BuyAction(BuyUrl(p, encode));
    assert c[|c| - 1] == Title(p.productName);
  }
}
