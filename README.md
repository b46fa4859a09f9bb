# Product catalog server: verified model

The server is a small Express application (`server.js`). Its `/productos` route loads
listing pages 1 to 10 of an online shop in a headless browser. From each page it takes the
list-item fragments and turns every fragment into a product record (`extractProductData`).
It keeps the records that have a name and renders each one as a card
(`generateProductCard`). The catalog page it returns also carries a small client-side
shopping cart script. That script adds items from the cards, removes items from a panel,
and turns the cart into one pre-filled chat message.

The model has these modules:

- `Wrappers` (wrappers.dfy): the `Option` type, which stands for values that may be
  `undefined`.
- `Text` (text.dfy): the JavaScript string operations the server uses, over `seq<char>`.
  - `trim`, using the ECMAScript whitespace and line-terminator set.
  - `indexOf` and `includes`.
  - `replace` with a string pattern, which replaces the first occurrence only.
  - `split(' ')[0]` and `join`.
  - `Split`, a helper that reads a joined text back; the server itself never splits on a separator other than the space above.
  - The decimal rendering of a count in a template literal.
- `Extraction` (extraction.dfy): `extractProductData`.
  - The parsed HTML fragment is a `Fragment` record. It holds the values the selector
    queries return.
  - The result is a `Product` record.
  - The record is given as a function, `ProductOf`. The method `ExtractProductData`
    follows the source's statements, including the `.each` loop over variants, and is
    proved equal to that function.
- `Card` (card.dfy): `generateProductCard`. The card is the sequence of things it shows,
  in template order: picture, optional promotion badge, optional chip row, price,
  add-to-cart action, buy link and name.
- `Catalog` (catalog.dfy): the `/productos` handler.
  - The outer loop runs over pages 1 to 10, and the inner loop over a page's fragments.
  - A page whose fetch fails is skipped.
  - At the end come the count line and one card per kept record.
  - The method `Productos` is proved equal to the function `CatalogOf`. Lemmas about that
    function state what the catalog holds.
- `CartScript` (cart.dfy): the embedded cart script.
  - The `cart` array and the rendered panel are the fields of a `Cart` class.
  - `addToCart`, `removeFromCart` and the checkout click handler are its methods.
  - `splice(index, 1)` follows JavaScript's rules for negative and out-of-range indexes.

Several pieces of the program are not modelled in Dafny and enter as function parameters:

- `fetch: string -> PageResult` stands for the headless-browser page load. It returns an
  error or the page's fragments.
- `markup: string -> string` stands for `parseFloat`, the `* 1.35` markup and
  `toLocaleString('es-AR', …)` applied to the cleaned price text.
- `encode: string -> string` stands for `encodeURIComponent`.

## Model

| member | source | states |
|---|---|---|
| Text.TrimStartShape | server.js:27 | trimming the start removes exactly the leading whitespace: the result is a suffix of the input, everything cut off is whitespace, and the result does not start with whitespace |
| Text.TrimEndShape | server.js:27 | trimming the end removes exactly the trailing whitespace: the result is a prefix of the input, everything cut off is whitespace, and the result does not end with whitespace |
| Text.TrimmedEnds | server.js:27 | a trimmed text is empty or has non-whitespace characters at both ends |
| Text.TrimShape | server.js:36 | a trimmed text is a contiguous stretch of the input, with only whitespace removed on either side |
| Text.FindFrom | server.js:31 | the search returns the first position at or after `from` where the pattern occurs, or nothing when it occurs nowhere there |
| Text.FirstCandidate | server.js:34 | `split(' ')[0]` is a space-free prefix of the input that ends at the first space or at the end of the text |
| Text.SplitJoin | server.js:240-242 | splitting a newline-joined list on newlines gives the list back when no element holds a newline |
| Text.DecimalString | server.js:186 | a count renders as at least one decimal digit, and with a leading zero only when the count is 0 |
| Text.DecimalRoundTrip | server.js:186 | reading the rendered digits back gives the count |
| Text.DecimalStringInjective | server.js:186 | different counts render differently |
| Extraction.KeepPriceChars | server.js:37 | removing non-price characters never lengthens the text and leaves only digits and commas |
| Extraction.KeepPriceCharsCounts | server.js:37 | every digit and comma is kept as often as it occurs, and every other character is removed |
| Extraction.KeepPriceCharsIgnoresTrim | server.js:36-37 | trimming the price text before cleaning it does not change the cleaned text |
| Extraction.DotForFirstComma | server.js:37 | in a text of digits and commas, `replace(',', '.')` keeps the length, turns the first comma (if any) into the only dot, and changes nothing else |
| Extraction.LaterCommasKept | server.js:37 | after that replacement, every comma but the first is still there |
| Extraction.CommaBecomesDot | server.js:37 | writing a dot over one comma of a dot-free text gives one dot and one comma fewer |
| Extraction.CleanPriceShape | server.js:36-37 | the text handed to `parseFloat` has the same length as the digits and commas of the price text. Its first comma became a dot, later commas stay, it holds at most one dot, and no other character occurs |
| Extraction.ImageUrlEmpty | server.js:34 | the image URL is empty exactly when no truthy attribute was chosen or the chosen attribute starts with a space |
| Extraction.ProtocolRelativeSecured | server.js:34 | a protocol-relative first candidate `//host/…` becomes `https://host/…` |
| Extraction.CandidateWithoutSlashesKept | server.js:34 | a first candidate without `//` is used unchanged |
| Extraction.AbsoluteUrlGetsSecondScheme | server.js:34 | the replacement is not anchored: a candidate `https://rest` becomes `https:https://rest` |
| Extraction.NoImageAttributes | server.js:30-34 | with neither `srcset` nor `data-srcset` present, the image URL is empty |
| Extraction.ImageFallback | server.js:30-34 | a missing, empty or base64 `srcset` falls back to `data-srcset`. Any other `srcset` is used, and gives a non-empty URL unless it starts with a space |
| Extraction.ProductInvariants | server.js:23-58 | every record has a trimmed name and a `$`-prefixed price. It has a promotion exactly when a label exists and no promotion text without one. Its image is empty only in the cases above, and it has one variant per variant element |
| Extraction.CollectVariants | server.js:44-47 | the `.each` loop collects every `data-option` value, in document order |
| Extraction.ExtractProductData | server.js:23-58 | the extractor's statements compute exactly the record `ProductOf` describes |
| Extraction.PromoMayHaveEmptyText | server.js:41-42 | a label whose span text is blank gives a promotion with an empty text |
| Card.Chips | server.js:62-64 | one chip per variant, in order, and a missing value shows as `undefined` |
| Card.ProductCard | server.js:61-116 | a card has five parts, plus one for a promotion and one for variants. It starts with the picture and ends with the price, the add-to-cart action, the buy link and the name |
| Card.PromoBadgeIffPromo | server.js:76-80 | the card has a promotion badge exactly when the product has a promotion, and the badge shows the promotion text |
| Card.ChipRowIffVariants | server.js:84-88 | the card has a chip row exactly when the product has variants, and the row has one chip per variant, in order |
| Card.CardShowsPriceAndName | server.js:67-112 | the card shows the price and the name, passes both to `addToCart`, and links to the chat with the encoded purchase message |
| Catalog.RenderCatalog | server.js:139 | the catalog page has one card per kept record, in order, each the record's own card |
| Catalog.PushIfNamed | server.js:129-132 | one inner step pushes the fragment's record exactly when its name is non-empty |
| Catalog.PushNamed | server.js:128-133 | the inner loop appends the named records of the page's fragments, in fragment order |
| Catalog.Productos | server.js:118-139 | the handler gathers exactly `CatalogOf`: pages 1 to 10 in order, failed pages contributing nothing. The page it renders is that list's cards |
| Catalog.NamedAppend | server.js:128-133 | keeping named records distributes over concatenating fragment lists, so order is kept |
| Catalog.NamedMembership | server.js:128-133 | a record is kept from a page exactly when it has a name and was extracted from one of the page's fragments |
| Catalog.CatalogAroundPage | server.js:121-137 | page `k`'s records sit between those of pages `1..k-1` and those of pages `k+1..10`, whatever those pages fetched |
| Catalog.FailedPageSkipped | server.js:134-136 | a page whose fetch fails contributes nothing, and the later pages are still gathered |
| Catalog.GatheredMembership | server.js:121-137 | for any extractor, a record is gathered exactly when it has a name and comes from a fragment of a successfully fetched page |
| Catalog.CatalogMembership | server.js:121-137 | a product is in the catalog exactly when it has a name and was extracted from a fragment of a fetched page |
| Catalog.PageUrlInjective | server.js:122 | distinct page numbers give distinct listing URLs |
| Catalog.CountLineShowsCards | server.js:186 | the count line reads "Encontramos N productos", where N is the number of cards on the page |
| CartScript.SpliceStart | server.js:215 | `splice` starts at the index when it is in range. A negative index counts from the end and stops at 0, and an index past the end stops at the length |
| CartScript.SpliceOne | server.js:215 | `splice(index, 1)` removes the element at the start position, if there is one, and keeps the others in order |
| CartScript.SpliceRemovesExactlyOne | server.js:215 | a valid index removes exactly that item: the rest stays in order, and the multiset loses just that item |
| CartScript.SpliceFromEnd | server.js:215 | a negative index removes the item counted from the end |
| CartScript.SpliceOutOfRange | server.js:215 | an index at or past the end, or any index into an empty cart, removes nothing |
| CartScript.SpliceUndoesPush | server.js:209-215 | removing the last item (index `length` before the push, or -1) undoes a push |
| CartScript.RenderCart | server.js:219-235 | the panel is hidden exactly when the cart is empty. Otherwise it has one row per item showing `name - price`, whose remove button passes the item's index |
| CartScript.RemoveButtonRemovesItsRow | server.js:229-232 | the remove button of a row removes the item that row shows, and only that item |
| CartScript.CheckoutListsCart | server.js:240-242 | the checkout message is the greeting, then the cart lines, then the closing. The text between them splits on newlines into exactly the panel's lines, in order, when no name or price holds a newline |
| CartScript.Cart.constructor | server.js:207 | the cart starts empty with the panel hidden |
| CartScript.Cart.AddToCart | server.js:209-212 | the item is appended at the end, and the panel is shown and re-rendered for the new cart |
| CartScript.Cart.RemoveFromCart | server.js:214-217 | the cart becomes `splice(index, 1)` of the old cart, and the panel is re-rendered |
| CartScript.Cart.Checkout | server.js:237-245 | an empty cart opens nothing. Otherwise the link is the chat link followed by the encoded checkout message |
| CartScript.AddThenRemove | server.js:209-217 | adding an item and then pressing its row's remove button leaves the cart as it was, with the panel in step |

## Left out

- The headless-browser load in `getProductListHtml` (server.js:7-21) is replaced by the `fetch` parameter. Browser start-up, navigation, waiting for the network, and `outerHTML` are outside the model.
- HTML parsing with cheerio is replaced by the `Fragment` record. It holds the values the selector queries return for one fragment.
- `parseFloat`, the floating-point `* 1.35` and `toLocaleString('es-AR', …)` (server.js:37-39) are the `markup` parameter. The model proves what text reaches `parseFloat`, not the resulting number or its formatting.
- `encodeURIComponent` is the `encode` parameter. `window.open` and the new tab it opens are left out, and `Checkout` returns the URL it would open.
- `renderCart`'s DOM work (`classList`, `innerHTML`) is the `Panel` value. The fixed HTML, CSS and page shell around the cards, the count and the cart are left out.
- An exception thrown while a page's fragments are extracted is not modelled. The source's `try` would then keep the records pushed before the exception. In the model only the fetch can fail, and it fails for the whole page.
- Names and prices are inserted into the card's `onclick="addToCart('…', '…')"` attribute without quoting. A quote in a name would break that call. The model passes name and price to `AddToCart` as they are.
- The promotion text is not guaranteed to be non-empty when `hasPromo` holds. A label with a blank span gives an empty text (`PromoMayHaveEmptyText`).
- The `srcset` fallback also applies to an empty `srcset`, because `!imgSrc` holds for `""`. This is what the code does, and the model follows it.
- `replace('//', 'https://')` is not anchored at the start, and the model keeps that (`AbsoluteUrlGetsSecondScheme`).
- Express set-up, the static-file middleware (server.js:141), the listening port and the console logging are left out.
