/**
 * The `/echo` handler `post` and the global card store it updates.
 *
 * `CardStore` holds `all_cards` as fields updated in place: the titles in insertion
 * order and the map from titles to cards. `Apply` performs one parsed card action and
 * `Render` builds the card zone with the loop of `render_all_cards`; both are proved to
 * agree with `Cards.Next` and `CardView.RenderCards`. `Post` is one request: the user's
 * message, the agent's reply and the agent's answers to colour questions come in as
 * parameters, since they are produced by the language model; a colour request that
 * raises is an answer of `None`. `Turn` states what a request returns and leaves
 * behind.
 */
module App {
  import opened Options
  import opened Ascii
  import opened Html
  import opened CardTag
  import opened Cards
  import opened CardView

  /** `msg.strip() or "(empty)"`: the message shown in the user's bubble. */
  function UserMessage(msg: string): (m: string)
    ensures m != [] && NoOuterSpace(m)
    ensures Strip(msg) != [] ==> m == Strip(msg)
  {
    var t := Strip(msg);
    if t == [] then "(empty)" else t
  }

  /** A message of whitespace alone is shown as "(empty)", and a message already shown
      is shown unchanged. */
  lemma UserMessageOf(msg: string)
    ensures AllSpace(msg) ==> UserMessage(msg) == "(empty)"
    ensures UserMessage(UserMessage(msg)) == UserMessage(msg)
  {
    var t := Strip(msg);
    if AllSpace(msg) {
      assert msg == msg + [] + [];
      StripPadded(msg, [], []);
    }
    if t == [] {
      assert "(empty)" == [] + "(empty)" + [];
      StripPadded([], "(empty)", []);
    } else {
      StripIdempotent(msg);
    }
  }

  /** What one request returns: the failure of the handler, the two chat bubbles, or
      the two bubbles and the re-rendered card zone. */
  datatype Response =
    | Failed
    | Bubbles(user: string, agent: string)
    | WithCardZone(user: string, agent: string, cardZone: seq<Element>)

  /** From the agent's answer to any prompt to its answer to the colour question about
      a title. */
  function ColorReplies(answer: string -> Option<string>): string -> Option<string> {
    (title: string) => answer(ColorPrompt(title))
  }

  /** One request on store `s`: the response and the store it leaves. The card zone is
      sent back whenever the reply holds a tag, whatever the tag's verb. */
  function Turn(s: Store, msg: string, reply: string, answer: string -> Option<string>): (r: (Response, Store))
    requires Inv(s)
    ensures Inv(r.1)
    ensures r.0.Failed? ==> r.1 == s
  {
    var user := UserMessage(msg);
    var agentText := Escape(DisplayText(reply));
    ParsedActionValid(reply);
    match ParseAction(reply)
    case None => (Bubbles(user, agentText), s)
    case Some(a) =>
      NextKeepsInv(s, a, ColorReplies(answer));
      match Next(s, a, ColorReplies(answer))
      case Raised => (Failed, s)
      case Done(next) => (WithCardZone(user, agentText, RenderCards(next)), next)
  }

  /** The global `all_cards`. */
  class CardStore {
    var order: seq<string>
    var cards: map<string, Card>

    ghost predicate Valid()
      reads this
    {
      Inv(Store(order, cards))
    }

    function Contents(): Store
      reads this
    {
      Store(order, cards)
    }

    /** The store is empty when the program starts. */
    constructor ()
      ensures Valid() && Contents() == EmptyStore
    {
      order := [];
      cards := map[];
    }

    /** Performs one parsed action on the store. `raised` is the `ValueError` of
        `int()` or the failure of the colour request; the store is then left as it was. */
    method Apply(a: Action, colorReply: string -> Option<string>) returns (raised: bool)
      requires Valid() && IsQuantity(a.quantity)
      modifies this
      ensures Valid()
      ensures raised == Next(old(Contents()), a, colorReply).Raised?
      ensures raised ==> Contents() == old(Contents())
      ensures !raised ==> Contents() == Next(old(Contents()), a, colorReply).store
    {
      NextKeepsInv(Contents(), a, colorReply);
      raised := false;
      if a.verb == "ADD" {
        raised := AddCard(a.title, AddAmount(a.quantity), colorReply);
      } else if a.verb == "REMOVE" && a.title in cards {
        raised := RemoveCard(a.title, a.quantity);
      }
    }

    /** The ADD branch: `+=` on a present card, otherwise a new card put last once the
        agent has answered the colour question; `raised` when that request raises. */
    method AddCard(title: string, quantity: int, colorReply: string -> Option<string>) returns (raised: bool)
      modifies this
      ensures raised == Add(old(Contents()), title, quantity, colorReply).Raised?
      ensures raised ==> Contents() == old(Contents())
      ensures !raised ==> Contents() == Add(old(Contents()), title, quantity, colorReply).store
    {
      raised := false;
      if title in cards {
        var card := cards[title];
        cards := cards[title := card.(quantity := card.quantity + quantity)];
      } else {
        var reply := colorReply(title);
        if reply.None? {
          return true;
        }
        var color := CheckColor(reply.value);
        cards := cards[title := Card(title, color, quantity)];
        order := order + [title];
      }
    }

    /** The REMOVE branch on a present card. */
    method RemoveCard(title: string, quantityText: string) returns (raised: bool)
      requires title in cards && IsQuantity(quantityText)
      modifies this
      ensures raised == Remove(old(Contents()), title, quantityText).Raised?
      ensures raised ==> Contents() == old(Contents())
      ensures !raised ==> Contents() == Remove(old(Contents()), title, quantityText).store
    {
      raised := false;
      if quantityText == "ALL" {
        Forget(title);
      } else if !IsDigits(quantityText) {
        raised := true;
      } else {
        var quantity := DigitsValue(quantityText);
        var card := cards[title];
        if card.quantity > quantity {
          cards := cards[title := card.(quantity := card.quantity - quantity)];
        } else {
          Forget(title);
        }
      }
    }

    /** `del all_cards[title]`. */
    method Forget(title: string)
      modifies this
      ensures Contents() == Delete(old(Contents()), title)
    {
      cards := cards - {title};
      order := Without(order, title);
    }

    /** `render_all_cards()`: the placeholder, or one element per card appended in
        insertion order. */
    method Render() returns (elements: seq<Element>)
      requires Valid()
      ensures elements == RenderCards(Contents())
    {
      if |cards| == 0 {
        return [Placeholder(NoCards)];
      }
      elements := [];
      var i := 0;
      while i < |order|
        invariant 0 <= i <= |order|
        invariant forall j :: 0 <= j < |order| ==> order[j] in cards
        invariant elements == RenderList(order[..i], cards)
      {
        var title := order[i];
        RenderStep(order, cards, i);
        elements := elements + [CardElement(title, cards[title])];
        i := i + 1;
      }
      assert order[..i] == order;
    }

    /** One request to `/echo`: `msg` is the form field, `reply` the agent's answer to
        it and `answer` what the agent answers to a colour question. */
    method Post(msg: string, reply: string, answer: string -> Option<string>) returns (response: Response)
      requires Valid()
      modifies this
      ensures Valid()
      ensures (response, Contents()) == Turn(old(Contents()), msg, reply, answer)
    {
      var user := UserMessage(msg);
      var parsed := Parse(reply);
      var agentText := Escape(parsed.0);
      ParsedActionValid(reply);
      if parsed.1.None? {
        return Bubbles(user, agentText);
      }
      var raised := Apply(parsed.1.value, ColorReplies(answer));
      if raised {
        return Failed;
      }
      var zone := Render();
      response := WithCardZone(user, agentText, zone);
    }
  }

  /** Rendering one more card of the list appends its element. */
  lemma RenderStep(order: seq<string>, cards: map<string, Card>, i: nat)
    requires i < |order| && forall j :: 0 <= j < |order| ==> order[j] in cards
    ensures RenderList(order[..i + 1], cards)
            == RenderList(order[..i], cards) + [CardElement(order[i], cards[order[i]])]
  {
    var longer, shorter := order[..i + 1], order[..i];
    var e := CardElement(order[i], cards[order[i]]);
    forall k | 0 <= k < i + 1
      ensures RenderList(longer, cards)[k] == (RenderList(shorter, cards) + [e])[k]
    {
      if k < i {
        assert longer[k] == shorter[k];
      }
    }
  }

  // ---------------------------------------------------------------------------
  // Properties of a request

  /** A reply without '[' holds no tag: it is shown only trimmed, and neither the store
      nor the card zone is touched. */
  lemma NoTagNoCards(s: Store, msg: string, reply: string, answer: string -> Option<string>)
    requires Inv(s) && '[' !in reply
    ensures Turn(s, msg, reply, answer) == (Bubbles(UserMessage(msg), Escape(Strip(reply))), s)
  {
    NoBracketNoAction(reply);
    PlainNoRun(reply);
  }

  /** The text in the agent's bubble holds no markup character, and decodes to the
      cleaned reply. */
  lemma AgentTextSafe(s: Store, msg: string, reply: string, answer: string -> Option<string>)
    requires Inv(s) && !Turn(s, msg, reply, answer).0.Failed?
    ensures var text := Turn(s, msg, reply, answer).0.agent;
            && (forall i :: 0 <= i < |text| ==> !IsMarkup(text[i]))
            && Unescape(text) == DisplayText(reply)
  {
    EscapeRoundTrip(DisplayText(reply));
  }

  /** A request fails exactly when its first tag asks to REMOVE a present card with ALL
      written in another case than "ALL", or to ADD a new card and the agent's colour
      request raises. */
  lemma FailsExactly(s: Store, msg: string, reply: string, answer: string -> Option<string>)
    requires Inv(s)
    ensures Turn(s, msg, reply, answer).0.Failed?
            <==> ParseAction(reply).Some?
                 && var a := ParseAction(reply).value;
                    || (a.verb == "REMOVE" && a.title in s.cards
                        && EqIgnoreCase(a.quantity, "ALL") && a.quantity != "ALL")
                    || (a.verb == "ADD" && a.title !in s.cards && answer(ColorPrompt(a.title)).None?)
  {
    ParsedActionValid(reply);
    if ParseAction(reply).Some? {
      RaisesExactly(s, ParseAction(reply).value, ColorReplies(answer));
    }
  }

  /** A tag whose verb is not written "ADD" or "REMOVE" leaves the store as it was, yet
      the card zone is sent back. */
  lemma OtherVerbRerenders(s: Store, msg: string, reply: string, answer: string -> Option<string>)
    requires Inv(s) && ParseAction(reply).Some?
    requires ParseAction(reply).value.verb != "ADD" && ParseAction(reply).value.verb != "REMOVE"
    ensures Turn(s, msg, reply, answer)
            == (WithCardZone(UserMessage(msg), Escape(DisplayText(reply)), RenderCards(s)), s)
  {
    ParsedActionValid(reply);
  }

  /** "[CARD_ACTION:add|...]": the lower-case verb is matched and the card zone sent
      back, but no card is added. */
  lemma LowerCaseAdd(s: Store, msg: string, title: string, rest: string, answer: string -> Option<string>)
    requires Inv(s) && title != [] && NoOuterSpace(title) && '|' !in title
    ensures Turn(s, msg, TagOf("add", title, "3") + rest, answer).1 == s
    ensures Turn(s, msg, TagOf("add", title, "3") + rest, answer).0.WithCardZone?
  {
    assert IsVerb("add") && IsDigits("3");
    PlainTag("add", title, "3", rest);
    OtherVerbRerenders(s, msg, TagOf("add", title, "3") + rest, answer);
  }

  /** "[CARD_ACTION:REMOVE|TITLE:t|QUANTITY:all]" on a card in the store: the request
      fails and the card stays. */
  lemma LowerCaseAllFails(s: Store, msg: string, title: string, rest: string, answer: string -> Option<string>)
    requires Inv(s) && title != [] && NoOuterSpace(title) && '|' !in title && title in s.cards
    ensures Turn(s, msg, TagOf("REMOVE", title, "all") + rest, answer) == (Failed, s)
  {
    assert IsVerb("REMOVE") && EqIgnoreCase("all", "ALL");
    PlainTag("REMOVE", title, "all", rest);
    FailsExactly(s, msg, TagOf("REMOVE", title, "all") + rest, answer);
  }
}
