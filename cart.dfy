/**
 * The client-side cart script embedded in the catalog page (server.js): an in-memory
 * list of `{name, price}` items that the card buttons append to, that the cart panel's
 * remove buttons splice from, and that checkout turns into one chat message.
 */
module CartScript {

  import opened Wrappers
  import opened Text
  import opened Card

  /** One cart line, `{ name, price }`. */
  datatype Item = Item(name: string, price: string)

  // ---------------------------------------------------------------------------
  // Array.prototype.splice(index, 1)

  /**
   * Where `splice` starts for an integer `index` on a list of `len` items: a negative
   * index counts from the end (and stops at 0), an index past the end stops at `len`.
   */
  function SpliceStart(len: nat, index: int): (start: nat)
    ensures start <= len
    ensures 0 <= index <= len ==> start == index
    ensures index < 0 && 0 <= len + index ==> start == len + index
    ensures len + index < 0 ==> start == 0
    ensures index > len ==> start == len
  {
    if index < 0 then (if len + index < 0 then 0 else len + index)
    else if index > len then len
    else index
  }

  /** `s.splice(index, 1)`: the list that remains after removing one item at `index`, if there is one there. */
  function SpliceOne<T>(s: seq<T>, index: int): (r: seq<T>)
    ensures var k := SpliceStart(|s|, index);
            && |r| == (if k < |s| then |s| - 1 else |s|)
            && (forall i :: 0 <= i < k && i < |r| ==> r[i] == s[i])
            && (forall i :: k <= i < |r| ==> r[i] == s[i + 1])
  {
    var k := SpliceStart(|s|, index);
    if k < |s| then s[..k] + s[k + 1..] else s
  }

  /** A valid index removes exactly that item: the others stay, in order, and nothing else goes. */
  lemma SpliceRemovesExactlyOne<T>(s: seq<T>, index: int)
    requires 0 <= index < |s|
    ensures SpliceOne(s, index) == s[..index] + s[index + 1..]
    ensures multiset(SpliceOne(s, index)) + multiset{s[index]} == multiset(s)
  {
    assert s == s[..index] + [s[index]] + s[index + 1..];
  }

  /** A negative index counts from the end of the list. */
  lemma SpliceFromEnd<T>(s: seq<T>, index: int)
    requires index < 0 && 0 <= |s| + index
    ensures SpliceOne(s, index) == SpliceOne(s, |s| + index)
    ensures SpliceOne(s, index) == s[..|s| + index] + s[|s| + index + 1..]
  {
  }

  /** An index at or past the end, or any index into an empty list, removes nothing. */
  lemma SpliceOutOfRange<T>(s: seq<T>, index: int)
    requires index >= |s| || s == []
    ensures SpliceOne(s, index) == s
  {
  }

  /** Removing the item just appended gives the list back. */
  lemma SpliceUndoesPush<T>(s: seq<T>, x: T)
    ensures SpliceOne(s + [x], |s|) == s
    ensures SpliceOne(s + [x], -1) == s
  {
    assert (s + [x])[..|s|] == s;
  }

  // ---------------------------------------------------------------------------
  // The cart panel and the checkout message

  /** The text a cart line shows, in the panel and in the checkout message. */
  function ItemLine(it: Item): string {
    it.name + " - " + it.price
  }

  function Lines(items: seq<Item>): seq<string> {
    seq(|items|, i requires 0 <= i < |items| => ItemLine(items[i]))
  }

  /** One panel row: the line's text and the index its remove button passes back. */
  datatype Row = Row(caption: string, removeIndex: nat)

  /** The cart panel: hidden while the cart is empty, otherwise one row per item. */
  datatype Panel = Hidden | Shown(rows: seq<Row>)

  /** What `renderCart` puts on screen for the current items. */
  function RenderCart(items: seq<Item>): (panel: Panel)
    ensures panel.Hidden? <==> items == []
    ensures panel.Shown? ==>
      && |panel.rows| == |items|
      && forall i :: 0 <= i < |items| ==> panel.rows[i].caption == ItemLine(items[i]) && panel.rows[i].removeIndex == i
  {
    if items == [] then Hidden
    else Shown(seq(|items|, i requires 0 <= i < |items| => Row(ItemLine(items[i]), i)))
  }

  /** The remove button of row `i` removes the item that row shows, and only it. */
  lemma RemoveButtonRemovesItsRow(items: seq<Item>, i: nat)
    requires RenderCart(items).Shown? && i < |RenderCart(items).rows|
    ensures var row := RenderCart(items).rows[i];
            && row.caption == ItemLine(items[i])
            && SpliceOne(items, row.removeIndex) == items[..i] + items[i + 1..]
  {
    SpliceRemovesExactlyOne(items, i);
  }

  const CheckoutGreeting := "Hola! Quisiera comprar los siguientes productos:\n\n"
  const CheckoutClosing := "\n\nGracias!"

  /** The checkout message: a fixed greeting, the cart lines joined by newlines, a fixed closing. */
  function CheckoutMessage(items: seq<Item>): string {
    CheckoutGreeting + Join(Lines(items), "\n") + CheckoutClosing
  }

  /**
   * The message lists the cart, in order: between the greeting and the closing, the text
   * splits on newlines into exactly the lines the panel shows, when no name or price
   * holds a newline of its own.
   */
  lemma CheckoutListsCart(items: seq<Item>)
    requires items != []
    requires forall i :: 0 <= i < |items| ==> '\n' !in items[i].name && '\n' !in items[i].price
    ensures var m := CheckoutMessage(items);
            var body := m[|CheckoutGreeting|..|m| - |CheckoutClosing|];
            && m[..|CheckoutGreeting|] == CheckoutGreeting
            && m[|m| - |CheckoutClosing|..] == CheckoutClosing
            && Split(body, '\n') == Lines(items)
            && forall i :: 0 <= i < |items| ==> RenderCart(items).rows[i].caption == Split(body, '\n')[i]
  {
    var m := CheckoutMessage(items);
    var lines := Lines(items);
    var joined := Join(lines, "\n");
    assert m == CheckoutGreeting + joined + CheckoutClosing;
    assert m[|CheckoutGreeting|..|m| - |CheckoutClosing|] == joined;
    forall i | 0 <= i < |lines| ensures '\n' !in lines[i] {
      assert lines[i] == items[i].name + " - " + items[i].price;
    }
    SplitJoin(lines, '\n');
  }

  /** The cart the page's script holds, with the panel it last rendered. */
  class Cart {
    var items: seq<Item>
    var panel: Panel

    /** The panel always shows the current items. */
    predicate Valid()
      reads this
    {
      panel == RenderCart(items)
    }

    /** `const cart = []`, with the panel starting hidden. */
    constructor()
      ensures items == [] && panel == Hidden
      ensures Valid()
    {
      items := [];
      panel := Hidden;
    }

    /** `addToCart(name, price)`: push the item at the end, then re-render. */
    method AddToCart(name: string, price: string)
      modifies this
      ensures items == old(items) + [Item(name, price)]
      ensures Valid() && panel.Shown?
    {
      items := items + [Item(name, price)];
      panel := RenderCart(items);
    }

    /** `removeFromCart(index)`: splice one item at `index`, then re-render. */
    method RemoveFromCart(index: int)
      modifies this
      ensures items == SpliceOne(old(items), index)
      ensures Valid()
    {
      items := SpliceOne(items, index);
      panel := RenderCart(items);
    }

    /**
     * The checkout button: nothing on an empty cart; otherwise the chat link that
     * carries the checkout message (`encode` stands for `encodeURIComponent`).
     */
    method Checkout(encode: string -> string) returns (url: Option<string>)
      ensures url.None? <==> items == []
      ensures url.Some? ==> url.value == ChatLink + encode(CheckoutMessage(items))
    {
      if |items| == 0 {
        return None;
      }
      var message := CheckoutMessage(items);
      url := Some(ChatLink + encode(message));
    }
  }

  /** Adding an item and then pressing the remove button of its row leaves the cart as it was. */
  method AddThenRemove(cart: Cart, name: string, price: string)
    modifies cart
    ensures cart.items == old(cart.items)
    ensures cart.Valid()
  {
    var n := |cart.items|;
    cart.AddToCart(name, price);
    // the new item's row is the last one, and its button passes the item's index
    assert cart.panel.rows[n].caption == ItemLine(Item(name, price));
    var index := cart.panel.rows[n].removeIndex;
    cart.RemoveFromCart(index);
    SpliceUndoesPush(old(cart.items), Item(name, price));
  }
}
