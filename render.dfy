/**
 * `render_all_cards`: the contents of the card zone, one element per card in the order
 * the cards were first added, or a single placeholder line when there is no card. Each
 * element is reduced to what the page shows of it: its id, the title heading, the
 * quantity line and the background class.
 */
module CardView {
  import opened Ascii
  import opened Cards

  /** The line shown when the store is empty. */
  const NoCards := "No cards yet. Try adding one!"

  datatype Element =
    | Placeholder(text: string)
    | CardBox(id: string, title: string, quantityLabel: string, color: string)

  /** One character of an id: lower-cased, with a space turned into '-'. */
  function Slug(c: char): (d: char)
    ensures d != ' ' && !IsUpper(d)
    ensures c == ' ' ==> d == '-'
    ensures c != ' ' ==> d == Lower(c)
  {
    if c == ' ' then '-' else Lower(c)
  }

  /** `"card-" + title.lower().replace(' ', '-')`. */
  function CardId(title: string): (id: string)
    ensures |id| == |title| + 5 && id[..5] == "card-"
    ensures forall i :: 5 <= i < |id| ==> id[i] != ' ' && !IsUpper(id[i])
    ensures forall i :: 0 <= i < |title| ==> id[5 + i] == Slug(title[i])
  {
    "card-" + seq(|title|, i requires 0 <= i < |title| => Slug(title[i]))
  }

  /** Titles that differ only in the case of their letters get the same id. */
  lemma CardIdIgnoresCase(a: string, b: string)
    requires EqIgnoreCase(a, b)
    ensures CardId(a) == CardId(b)
  {
    forall i | 0 <= i < |a| ensures Slug(a[i]) == Slug(b[i]) {
      assert Lower(a[i]) == Lower(b[i]);
      if a[i] == ' ' || b[i] == ' ' {
        assert a[i] == b[i];
      }
    }
    SameSlugs(a, b);
  }

  /** Titles whose characters give the same id characters, one for one, get the same id. */
  lemma SameSlugs(a: string, b: string)
    requires |a| == |b| && forall i :: 0 <= i < |a| ==> Slug(a[i]) == Slug(b[i])
    ensures CardId(a) == CardId(b)
  {
    assert CardId(a)[5..] == CardId(b)[5..];
  }

  /** A title with no space and no upper-case letter is used in its id as it is. */
  lemma CardIdPlain(title: string)
    requires forall i :: 0 <= i < |title| ==> title[i] != ' ' && !IsUpper(title[i])
    ensures CardId(title) == "card-" + title
  {
    assert CardId(title)[5..] == title;
  }

  /** Spaces become '-' and upper-case letters their lower-case ones, one for one: the
      id of a title is that of the title already lower-cased with its spaces replaced. */
  lemma CardIdOfSlug(title: string)
    ensures CardId(seq(|title|, i requires 0 <= i < |title| => Slug(title[i]))) == CardId(title)
  {
    var slug := seq(|title|, i requires 0 <= i < |title| => Slug(title[i]));
    CardIdPlain(slug);
    assert CardId(title)[5..] == slug;
  }

  /** Two distinct titles can share an id: "Red Apple" and "red-apple" are both filed as
      `card-red-apple`, so the page can hold two elements with one id. */
  lemma CardIdCollides()
    ensures "Red Apple" != "red-apple"
    ensures CardId("Red Apple") == CardId("red-apple") == "card-red-apple"
  {
    var a, b := "Red Apple", "red-apple";
    assert a[0] != b[0];
    forall i | 0 <= i < |b| ensures b[i] != ' ' && !IsUpper(b[i]) {
    }
    CardIdPlain(b);
    forall i | 0 <= i < |a| ensures Slug(a[i]) == Slug(b[i]) {
    }
    SameSlugs(a, b);
  }

  /** `f"Quantity: {card.quantity}"`. */
  function QuantityLabel(q: int): (line: string)
    ensures |line| > 10 && line[..10] == "Quantity: "
  {
    "Quantity: " + IntText(q)
  }

  /** The quantity line of a card loses nothing: the number can be read back from it. */
  lemma QuantityLabelRoundTrip(q: int)
    ensures q >= 0 ==> var digits := QuantityLabel(q)[10..]; IsDigits(digits) && DigitsValue(digits) == q
  {
    if q >= 0 {
      assert QuantityLabel(q)[10..] == Decimal(q);
      DecimalRoundTrip(q);
    }
  }

  /** The element for the entry `title -> c`: the id is made from the key, the heading
      from the card's own title, and the quantity line is the one the quantity reads back
      from (`QuantityLabelRoundTrip`). */
  function CardElement(title: string, c: Card): (e: Element)
    ensures e.CardBox? && e.id == CardId(title) && e.title == c.title && e.color == c.color
    ensures e.quantityLabel == QuantityLabel(c.quantity)
  {
    CardBox(CardId(title), c.title, QuantityLabel(c.quantity), c.color)
  }

  /** The elements of the cards listed in `order`, one per title, in that order. */
  function RenderList(order: seq<string>, cards: map<string, Card>): (r: seq<Element>)
    requires forall i :: 0 <= i < |order| ==> order[i] in cards
    ensures |r| == |order|
  {
    seq(|order|, i requires 0 <= i < |order| => CardElement(order[i], cards[order[i]]))
  }

  /** At position `i` the list holds the element of the card listed there. */
  lemma RenderListAt(order: seq<string>, cards: map<string, Card>, i: nat)
    requires forall j :: 0 <= j < |order| ==> order[j] in cards
    requires i < |order|
    ensures RenderList(order, cards)[i] == CardElement(order[i], cards[order[i]])
  {
  }

  /** The card zone of a store. */
  function RenderCards(s: Store): (r: seq<Element>)
    requires Inv(s)
    ensures r != []
  {
    if |s.cards| == 0 then [Placeholder(NoCards)] else RenderList(s.order, s.cards)
  }

  /** The keys of a store with the invariant are empty exactly when the list is. */
  lemma EmptyStoreEmptyList(s: Store)
    requires Inv(s)
    ensures |s.cards| == 0 <==> s.order == []
  {
    if s.order != [] {
      assert s.order[0] in s.cards;
    }
    if |s.cards| != 0 {
      var t :| t in s.cards;
      assert t in s.order;
    }
  }

  /** The placeholder is shown exactly when there is no card, and then alone. */
  lemma PlaceholderIffEmpty(s: Store)
    requires Inv(s)
    ensures Placeholder(NoCards) in RenderCards(s) <==> |s.cards| == 0
    ensures |s.cards| == 0 ==> RenderCards(s) == [Placeholder(NoCards)]
  {
    EmptyStoreEmptyList(s);
    forall i | 0 <= i < |s.order| ensures RenderList(s.order, s.cards)[i].CardBox? {
      RenderListAt(s.order, s.cards, i);
    }
  }

  /** With cards present, the zone holds one element per card in insertion order, each
      showing that card's title, quantity and colour under the id made from its title. */
  lemma RenderedInOrder(s: Store)
    requires Inv(s) && |s.cards| > 0
    ensures var r := RenderCards(s);
            && |r| == |s.order| == |s.cards|
            && forall i :: 0 <= i < |r| ==>
                 var c := s.cards[s.order[i]];
                 r[i] == CardBox(CardId(s.order[i]), s.order[i], QuantityLabel(c.quantity), c.color)
  {
    EmptyStoreEmptyList(s);
    DistinctCount(s.order, s.cards.Keys);
    forall i | 0 <= i < |s.order| ensures RenderCards(s)[i] == CardElement(s.order[i], s.cards[s.order[i]]) {
      RenderListAt(s.order, s.cards, i);
    }
  }

  /** A list without repeats that holds exactly the members of a set is as long as the
      set is large. */
  lemma {:induction false} DistinctCount(xs: seq<string>, keys: set<string>)
    requires Distinct(xs)
    requires forall t :: t in keys ==> t in xs
    requires forall i :: 0 <= i < |xs| ==> xs[i] in keys
    ensures |xs| == |keys|
  {
    if xs != [] {
      var n := |xs| - 1;
      var ys := xs[..n];
      assert Distinct(ys);
      assert xs[n] !in ys;
      forall t | t in keys - {xs[n]} ensures t in ys {
        var i :| 0 <= i < |xs| && xs[i] == t;
        assert i != n;
      }
      DistinctCount(ys, keys - {xs[n]});
    }
  }
}
