/**
 * The card store `all_cards` and what one card action does to it.
 *
 * The store is an insertion-ordered dictionary from titles to cards. It is modelled
 * as the list of its keys in insertion order together with the map of its entries;
 * `Next` is the effect of one parsed action. The agent's answer to the colour question
 * is passed in as `colorReply`, a function from the title to the answer the agent gives
 * when asked `ColorPrompt(title)`, or `None` when that request raises. The class in
 * module `App` performs the same steps on fields it updates in place, and is proved to
 * agree with `Next`.
 */
module Cards {
  import opened Options
  import opened Ascii
  import opened CardTag

  /** `Card(title, color, quantity)`. */
  datatype Card = Card(title: string, color: string, quantity: int)

  /** The dictionary: its keys in insertion order, and its entries. */
  datatype Store = Store(order: seq<string>, cards: map<string, Card>)

  /** The store when the program starts. */
  const EmptyStore := Store([], map[])

  /** The colour used when the agent's answer is not a background class. */
  const DefaultColor := "bg-blue-500"

  predicate Distinct(xs: seq<string>) {
    forall i, j :: 0 <= i < j < |xs| ==> xs[i] != xs[j]
  }

  /** What holds of the store between requests: each title is listed once, the list and
      the keys agree, every card is filed under its own title, no quantity is negative
      and every colour is a background class. */
  predicate Inv(s: Store) {
    && Distinct(s.order)
    && (forall t :: t in s.cards ==> t in s.order)
    && (forall i :: 0 <= i < |s.order| ==> s.order[i] in s.cards)
    && (forall t :: t in s.cards ==> s.cards[t].title == t)
    && (forall t :: t in s.cards ==> s.cards[t].quantity >= 0)
    && (forall t :: t in s.cards ==> StartsWith(s.cards[t].color, "bg-"))
  }

  /** The text of the colour question before the quoted title. */
  const ColorQuestion := "What Tailwind CSS background color class (like bg-yellow-400, bg-red-500, bg-blue-600, etc.) best represents '"

  /** The text of the colour question after the quoted title. */
  const ColorAnswerFormat := "'? Reply with ONLY the class name (e.g., bg-yellow-400)."

  /** The question put to the agent for the colour of a new card: the title is quoted
      in it as it is, between the two fixed parts. */
  function ColorPrompt(title: string): (p: string)
    ensures |p| == |ColorQuestion| + |title| + |ColorAnswerFormat|
    ensures p[..|ColorQuestion|] == ColorQuestion
    ensures p[|ColorQuestion|..|ColorQuestion| + |title|] == title
    ensures p[|ColorQuestion| + |title|..] == ColorAnswerFormat
  {
    ColorQuestion + title + ColorAnswerFormat
  }

  /** The title can be read back from its colour question, so distinct titles are asked
      distinct questions and an agent answering per question can answer each title on
      its own. */
  lemma ColorPromptInjective(a: string, b: string)
    ensures ColorPrompt(a)[|ColorQuestion|..|ColorPrompt(a)| - |ColorAnswerFormat|] == a
    ensures ColorPrompt(a) == ColorPrompt(b) ==> a == b
  {
    var p, q := ColorPrompt(a), ColorPrompt(b);
    assert |p| - |ColorAnswerFormat| == |ColorQuestion| + |a|;
    if p == q {
      assert |a| == |b|;
      assert a == p[|ColorQuestion|..|ColorQuestion| + |a|] == q[|ColorQuestion|..|ColorQuestion| + |b|] == b;
    }
  }

  /** The colour kept from the agent's answer: the trimmed answer when it passes the
      two tests of the handler, otherwise the default. The second test, that the answer
      holds a '-', never rejects anything the first accepts. */
  function CheckColor(reply: string): (color: string)
    ensures StartsWith(color, "bg-")
    ensures StartsWith(Strip(reply), "bg-") ==> color == Strip(reply)
    ensures !StartsWith(Strip(reply), "bg-") ==> color == DefaultColor
  {
    var answer := Strip(reply);
    DashTestRedundant(answer);
    if StartsWith(answer, "bg-") && '-' in answer then
      answer
    else
      assert DefaultColor[..3] == "bg-";
      DefaultColor
  }

  /** `int(quantity_str)`, falling back to 1 when it raises: for the literals the tag
      admits, the value of a digit string and 1 for any spelling of ALL. */
  function AddAmount(quantity: string): (n: int)
    requires IsQuantity(quantity)
    ensures n >= 0
  {
    if IsDigits(quantity) then DigitsValue(quantity) else 1
  }

  /** `xs` without `t`, the others in their order: the keys once `t` is deleted. */
  function Without(xs: seq<string>, t: string): (r: seq<string>)
    ensures t !in r && |r| <= |xs|
    ensures forall x :: x != t ==> (x in r <==> x in xs)
  {
    if xs == [] then []
    else if xs[0] == t then Without(xs[1..], t)
    else [xs[0]] + Without(xs[1..], t)
  }

  /** The quantity of card `t` set to `q`; the card keeps its place and colour. */
  function SetQuantity(s: Store, t: string, q: int): Store
    requires t in s.cards
  {
    Store(s.order, s.cards[t := s.cards[t].(quantity := q)])
  }

  /** `del all_cards[t]`. */
  function Delete(s: Store, t: string): Store {
    Store(Without(s.order, t), s.cards - {t})
  }

  /** `all_cards[c.title] = c` for a title not yet present: the card goes last. */
  function Insert(s: Store, c: Card): Store {
    Store(s.order + [c.title], s.cards[c.title := c])
  }

  /** What an action leads to: a new store, or an exception that fails the request
      before the store is touched: the `ValueError` that `int()` raises on a spelling of
      ALL other than "ALL", or whatever the colour request for a new card raises. */
  datatype Outcome = Done(store: Store) | Raised

  /** ADD: an existing card grows by `n`; otherwise the agent is asked for a colour and
      a card with quantity `n` is put last, unless that request raises. */
  function Add(s: Store, title: string, n: int, colorReply: string -> Option<string>): (r: Outcome)
    ensures r.Raised? <==> title !in s.cards && colorReply(title).None?
    ensures r.Done? ==> title in r.store.cards
    ensures r.Done? ==>
              r.store.cards[title].quantity == (if title in s.cards then s.cards[title].quantity else 0) + n
    ensures r.Done? ==> r.store.cards.Keys == s.cards.Keys + {title}
  {
    if title in s.cards then
      Done(SetQuantity(s, title, s.cards[title].quantity + n))
    else
      match colorReply(title)
      case None => Raised
      case Some(answer) => Done(Insert(s, Card(title, CheckColor(answer), n)))
  }

  /** REMOVE on a present title: ALL deletes it; a number deletes it unless the card
      holds more than that, in which case it is decreased. */
  function Remove(s: Store, title: string, quantity: string): (r: Outcome)
    requires title in s.cards && IsQuantity(quantity)
    ensures r.Raised? <==> quantity != "ALL" && !IsDigits(quantity)
    ensures r.Done? ==> r.store.cards.Keys <= s.cards.Keys
    ensures r.Done? && title in r.store.cards ==>
              0 < r.store.cards[title].quantity <= s.cards[title].quantity
  {
    if quantity == "ALL" then Done(Delete(s, title))
    else if !IsDigits(quantity) then Raised
    else
      var n := DigitsValue(quantity);
      if s.cards[title].quantity > n then Done(SetQuantity(s, title, s.cards[title].quantity - n))
      else Done(Delete(s, title))
  }

  /** The effect of one action. The verb is compared with "ADD" and "REMOVE" as written,
      so a verb the tag matched in another case changes nothing. */
  function Next(s: Store, a: Action, colorReply: string -> Option<string>): (r: Outcome)
    requires IsQuantity(a.quantity)
    ensures r.Raised? ==>
              || (a.verb == "REMOVE" && a.title in s.cards && !IsDigits(a.quantity))
              || (a.verb == "ADD" && a.title !in s.cards && colorReply(a.title).None?)
    ensures r.Done? ==> r.store.cards.Keys <= s.cards.Keys + {a.title}
    ensures a.verb != "ADD" && a.verb != "REMOVE" ==> r == Done(s)
  {
    if a.verb == "ADD" then Add(s, a.title, AddAmount(a.quantity), colorReply)
    else if a.verb == "REMOVE" then
      if a.title in s.cards then Remove(s, a.title, a.quantity) else Done(s)
    else Done(s)
  }

  // ---------------------------------------------------------------------------
  // Deleting a key

  /** Deleting the key at position `i` of a list without repeats leaves the keys before
      and after it, in their order. */
  lemma {:induction false} WithoutAt(xs: seq<string>, i: nat)
    requires Distinct(xs) && i < |xs|
    ensures Without(xs, xs[i]) == xs[..i] + xs[i + 1..]
  {
    var t := xs[i];
    if i == 0 {
      WithoutAbsent(xs[1..], t);
      assert xs[..0] + xs[1..] == xs[1..];
    } else {
      var ys := xs[1..];
      assert ys[i - 1] == t;
      assert Distinct(ys);
      WithoutAt(ys, i - 1);
      assert xs[0] != t;
      assert [xs[0]] + (ys[..i - 1] + ys[i..]) == xs[..i] + xs[i + 1..];
    }
  }

  /** Deleting an absent key changes nothing. */
  lemma {:induction false} WithoutAbsent(xs: seq<string>, t: string)
    requires t !in xs
    ensures Without(xs, t) == xs
  {
    if xs != [] {
      assert t !in xs[1..];
      WithoutAbsent(xs[1..], t);
      assert [xs[0]] + xs[1..] == xs;
    }
  }

  /** Deleting keeps a list free of repeats. */
  lemma {:induction false} WithoutDistinct(xs: seq<string>, t: string)
    requires Distinct(xs)
    ensures Distinct(Without(xs, t))
  {
    if xs != [] {
      var ys := xs[1..];
      assert Distinct(ys);
      WithoutDistinct(ys, t);
      if xs[0] != t {
        assert xs[0] !in ys;
        assert xs[0] !in Without(ys, t);
      }
    }
  }

  /** Deleting a key just appended is deleting it from the list before. */
  lemma {:induction false} WithoutAppend(xs: seq<string>, t: string)
    ensures Without(xs + [t], t) == Without(xs, t)
  {
    if xs == [] {
      assert [] + [t] == [t];
      assert [t][1..] == [];
    } else {
      assert (xs + [t])[1..] == xs[1..] + [t];
      WithoutAppend(xs[1..], t);
    }
  }

  /** Deleting a key twice is deleting it once. */
  lemma WithoutTwice(xs: seq<string>, t: string)
    ensures Without(Without(xs, t), t) == Without(xs, t)
  {
    WithoutAbsent(Without(xs, t), t);
  }

  // ---------------------------------------------------------------------------
  // What one action does

  lemma SetQuantityInv(s: Store, t: string, q: int)
    requires Inv(s) && t in s.cards && q >= 0
    ensures Inv(SetQuantity(s, t, q))
  {
  }

  lemma DeleteInv(s: Store, t: string)
    requires Inv(s)
    ensures Inv(Delete(s, t))
  {
    var r := Delete(s, t);
    WithoutDistinct(s.order, t);
    forall i | 0 <= i < |r.order| ensures r.order[i] in r.cards {
      var x := r.order[i];
      assert x in r.order && x != t;
      assert x in s.order;
    }
  }

  lemma InsertInv(s: Store, c: Card)
    requires Inv(s) && c.title !in s.cards && c.quantity >= 0 && StartsWith(c.color, "bg-")
    ensures Inv(Insert(s, c))
  {
    var r := Insert(s, c);
    assert c.title !in s.order;
    forall i, j | 0 <= i < j < |r.order| ensures r.order[i] != r.order[j] {
      if j == |s.order| {
        assert r.order[i] == s.order[i];
      }
    }
  }

  /** No action breaks the invariant: every title listed once and filed under itself,
      no negative quantity, every colour a background class. */
  lemma NextKeepsInv(s: Store, a: Action, colorReply: string -> Option<string>)
    requires Inv(s) && IsQuantity(a.quantity)
    ensures Next(s, a, colorReply).Done? ==> Inv(Next(s, a, colorReply).store)
  {
    if a.verb == "ADD" {
      var n := AddAmount(a.quantity);
      if a.title in s.cards {
        SetQuantityInv(s, a.title, s.cards[a.title].quantity + n);
      } else if colorReply(a.title).Some? {
        InsertInv(s, Card(a.title, CheckColor(colorReply(a.title).value), n));
      }
    } else if a.verb == "REMOVE" && a.title in s.cards {
      if a.quantity == "ALL" || (IsDigits(a.quantity) && s.cards[a.title].quantity <= DigitsValue(a.quantity)) {
        DeleteInv(s, a.title);
      } else if IsDigits(a.quantity) {
        SetQuantityInv(s, a.title, s.cards[a.title].quantity - DigitsValue(a.quantity));
      }
    }
  }

  /** ADD on a title already present: the card grows by the amount and keeps its colour
      and place, no other card changes, and the agent is not asked for a colour. */
  lemma AddExisting(s: Store, a: Action, colorReply: string -> Option<string>)
    requires IsQuantity(a.quantity) && a.verb == "ADD" && a.title in s.cards
    ensures var r := Next(s, a, colorReply);
            && r.Done?
            && r.store.order == s.order
            && r.store.cards.Keys == s.cards.Keys
            && r.store.cards[a.title].quantity == s.cards[a.title].quantity + AddAmount(a.quantity)
            && r.store.cards[a.title].color == s.cards[a.title].color
            && r.store.cards[a.title].title == s.cards[a.title].title
            && (forall t :: t in s.cards && t != a.title ==> r.store.cards[t] == s.cards[t])
            && (forall other: string -> Option<string> :: Next(s, a, other) == r)
  {
  }

  /** ADD on a new title: the agent is asked for the colour once. When it answers, the
      card, holding the amount and the colour kept from the answer, comes after every
      other card; when the request raises, so does the action. */
  lemma AddNew(s: Store, a: Action, colorReply: string -> Option<string>)
    requires IsQuantity(a.quantity) && a.verb == "ADD" && a.title !in s.cards
    ensures Next(s, a, colorReply).Raised? <==> colorReply(a.title).None?
    ensures colorReply(a.title).Some? ==>
            var r := Next(s, a, colorReply);
            && r.Done?
            && r.store.order == s.order + [a.title]
            && r.store.cards.Keys == s.cards.Keys + {a.title}
            && r.store.cards[a.title]
               == Card(a.title, CheckColor(colorReply(a.title).value), AddAmount(a.quantity))
            && (forall t :: t in s.cards ==> r.store.cards[t] == s.cards[t])
  {
  }

  /** The amount ADD uses for a number: the number written. */
  lemma AddAmountOfNumber(n: nat)
    ensures IsQuantity(Decimal(n)) && AddAmount(Decimal(n)) == n
  {
    DecimalRoundTrip(n);
  }

  /** The amount ADD uses for any spelling of ALL: 1, the fallback when `int()` raises. */
  lemma AddAmountOfAll(q: string)
    requires EqIgnoreCase(q, "ALL")
    ensures IsQuantity(q) && AddAmount(q) == 1
  {
    AllNotDigits(q);
  }

  /** A spelling of ALL is not a number. */
  lemma AllNotDigits(q: string)
    requires EqIgnoreCase(q, "ALL")
    ensures !IsDigits(q)
  {
    assert Lower(q[0]) == 'a';
  }

  /** REMOVE ALL on a present title deletes that card and only it; the others keep
      their order. */
  lemma RemoveAll(s: Store, a: Action, colorReply: string -> Option<string>, i: nat)
    requires Inv(s) && a == Action("REMOVE", a.title, "ALL")
    requires i < |s.order| && s.order[i] == a.title
    ensures var r := Next(s, a, colorReply);
            && r.Done?
            && r.store.order == s.order[..i] + s.order[i + 1..]
            && r.store.cards == s.cards - {a.title}
  {
    WithoutAt(s.order, i);
  }

  /** REMOVE n on a present title: a card holding more than n is decreased by n and
      keeps a positive quantity; any other card is deleted, so no quantity goes below
      zero. */
  lemma RemoveNumber(s: Store, a: Action, colorReply: string -> Option<string>)
    requires Inv(s) && a.verb == "REMOVE" && a.title in s.cards && IsDigits(a.quantity)
    ensures var r := Next(s, a, colorReply);
            var q := s.cards[a.title].quantity;
            var n := DigitsValue(a.quantity);
            && r.Done?
            && (q > n ==> r.store.order == s.order
                          && r.store.cards == s.cards[a.title := s.cards[a.title].(quantity := q - n)]
                          && r.store.cards[a.title].quantity > 0)
            && (q <= n ==> a.title !in r.store.cards && r.store.cards == s.cards - {a.title}
                           && r.store.order == Without(s.order, a.title)
                           && |r.store.order| == |s.order| - 1)
  {
    assert IsQuantity(a.quantity);
    if s.cards[a.title].quantity <= DigitsValue(a.quantity) {
      var i :| 0 <= i < |s.order| && s.order[i] == a.title;
      WithoutAt(s.order, i);
    }
  }

  /** REMOVE on an absent title, and any verb other than ADD and REMOVE as written (a
      lower-case one among them), leave the store as it was. */
  lemma NoChange(s: Store, a: Action, colorReply: string -> Option<string>)
    requires IsQuantity(a.quantity)
    requires (a.verb == "REMOVE" && a.title !in s.cards) || (a.verb != "ADD" && a.verb != "REMOVE")
    ensures Next(s, a, colorReply) == Done(s)
  {
  }

  /** An action fails exactly when REMOVE names a present card with ALL spelled in
      another case, so that `int()` is reached with a word, or when ADD names a new
      title and the colour request raises. */
  lemma RaisesExactly(s: Store, a: Action, colorReply: string -> Option<string>)
    requires IsQuantity(a.quantity)
    ensures Next(s, a, colorReply).Raised?
            <==> || (a.verb == "REMOVE" && a.title in s.cards
                     && EqIgnoreCase(a.quantity, "ALL") && a.quantity != "ALL")
                 || (a.verb == "ADD" && a.title !in s.cards && colorReply(a.title).None?)
  {
    if EqIgnoreCase(a.quantity, "ALL") {
      AllNotDigits(a.quantity);
    }
  }

  /** Whatever the action, the cards under other titles, their colours included, are
      untouched, and the other titles keep their relative order. */
  lemma OthersUntouched(s: Store, a: Action, colorReply: string -> Option<string>, t: string)
    requires IsQuantity(a.quantity) && Next(s, a, colorReply).Done? && t != a.title
    ensures var r := Next(s, a, colorReply).store;
            && (t in r.cards <==> t in s.cards)
            && (t in s.cards ==> r.cards[t] == s.cards[t])
            && Without(r.order, a.title) == Without(s.order, a.title)
  {
    var r := Next(s, a, colorReply).store;
    if r.order != s.order {
      if a.verb == "ADD" {
        WithoutAppend(s.order, a.title);
      } else {
        WithoutTwice(s.order, a.title);
      }
    }
  }

  /** A card keeps the colour it was given for as long as it stays in the store. */
  lemma ColorKept(s: Store, a: Action, colorReply: string -> Option<string>, t: string)
    requires IsQuantity(a.quantity) && Next(s, a, colorReply).Done?
    requires t in s.cards && t in Next(s, a, colorReply).store.cards
    ensures Next(s, a, colorReply).store.cards[t].color == s.cards[t].color
    ensures Next(s, a, colorReply).store.cards[t].title == s.cards[t].title
  {
  }

  /** Adding a new card and then removing ALL of it gives the store back (when the
      colour request raises, the ADD fails and the store is not touched at all). */
  lemma AddThenRemoveAll(s: Store, title: string, quantity: string, colorReply: string -> Option<string>)
    requires Inv(s) && title !in s.cards && IsQuantity(quantity)
    ensures var r := Next(s, Action("ADD", title, quantity), colorReply);
            && (r.Done? <==> colorReply(title).Some?)
            && (r.Done? ==> Next(r.store, Action("REMOVE", title, "ALL"), colorReply) == Done(s))
  {
    if colorReply(title).Some? {
      assert title !in s.order;
      WithoutAppend(s.order, title);
      WithoutAbsent(s.order, title);
      var c := Card(title, CheckColor(colorReply(title).value), AddAmount(quantity));
      assert s.cards[title := c] - {title} == s.cards;
    }
  }

  /** Two ADDs of the same title add up, and the second does not ask for a colour, so
      once the first has gone through the second cannot fail. */
  lemma AddTwice(s: Store, title: string, q1: string, q2: string, colorReply: string -> Option<string>)
    requires IsQuantity(q1) && IsQuantity(q2)
    ensures var r1 := Next(s, Action("ADD", title, q1), colorReply);
            r1.Done? <==> title in s.cards || colorReply(title).Some?
    ensures var r1 := Next(s, Action("ADD", title, q1), colorReply);
            r1.Done? ==>
            var r2 := Next(r1.store, Action("ADD", title, q2), colorReply);
            && r2.Done?
            && r2.store.order == r1.store.order
            && r2.store.cards[title].color == r1.store.cards[title].color
            && r2.store.cards[title].quantity
               == (if title in s.cards then s.cards[title].quantity else 0) + AddAmount(q1) + AddAmount(q2)
  {
  }

  /** ADD with quantity 0 on a new title files a card holding 0: the handler does not
      refuse it, although a REMOVE never leaves a card at 0. */
  lemma AddZero(s: Store, title: string, colorReply: string -> Option<string>)
    requires title !in s.cards
    ensures var r := Next(s, Action("ADD", title, "0"), colorReply);
            && (r.Done? <==> colorReply(title).Some?)
            && (r.Done? ==> title in r.store.cards && r.store.cards[title].quantity == 0)
  {
    assert IsDigits("0");
  }

  /** The second test of the colour check, that the answer holds a '-', is implied by
      the first, that it starts with "bg-". */
  lemma DashTestRedundant(answer: string)
    ensures StartsWith(answer, "bg-") ==> '-' in answer
  {
    if StartsWith(answer, "bg-") {
      assert answer[2] == "bg-"[2];
    }
  }
}
