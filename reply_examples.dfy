/**
 * Whole replies worked through the parser and the cleaner: the corners where the
 * handler's behaviour is easy to get wrong (a blank title, a ']' in a title, a run that
 * only appears once another one is removed).
 */
module ReplyExamples {
  import opened Options
  import opened Ascii
  import opened CardTag

  /** A title of nothing but whitespace still matches: the group takes the last
      whitespace character, and the handler strips it to the empty title. */
  lemma BlankTitle(verb: string, blank: string, quantity: string, rest: string)
    requires IsVerb(verb) && IsQuantity(quantity)
    requires blank != [] && AllSpace(blank)
    ensures ParseAction(TagOf(verb, blank, quantity) + rest) == Some(Action(verb, [], quantity))
  {
    var n := |blank| - 1;
    var tag := TreeOf(verb, blank[..n], blank[n..], quantity);
    TreeWritten(verb, blank[..n], blank[n..], quantity, rest);
    assert blank[..n] + blank[n..] == blank;
    assert [] + Written(tag, rest) == TagOf(verb, blank, quantity) + rest;
    FirstTagAfterPlainText([], tag, rest);
    ActionTitle(tag);
  }

  /** A tag whose title holds no ']' vanishes from the text shown, together with the
      whitespace after it; plain text around it is only trimmed. */
  lemma TagVanishes(before: string, verb: string, title: string, quantity: string, after: string)
    requires '[' !in before && '[' !in after
    requires IsVerb(verb) && IsQuantity(quantity)
    requires title != [] && NoOuterSpace(title) && '|' !in title && ']' !in title
    ensures DisplayText(before + TagOf(verb, title, quantity) + after) == Strip(before + TrimStart(after))
  {
    var tag := TreeOf(verb, [], title, quantity);
    TreeWritten(verb, [], title, quantity, after);
    assert [] + title == title;
    var reply := before + TagOf(verb, title, quantity) + after;
    assert reply == before + Written(tag, after);
    StripTagsPlainPrefix(before, Written(tag, after));
    TagRemoved(tag, after);
    PlainNoRun(TrimStart(after));
  }

  /** A ']' inside the title ends the cleaner's run early: the tag is acted on with the
      whole title, but what follows that ']' stays in the text shown. */
  lemma CloseBracketInTitle(verb: string, a: string, b: string, quantity: string)
    requires IsVerb(verb) && IsQuantity(quantity)
    requires ']' !in a && '[' !in b && b != [] && !IsSpace(b[0])
    requires NoOuterSpace(a + "]" + b) && '|' !in a + "]" + b
    ensures Parse(TagOf(verb, a + "]" + b, quantity))
            == (Strip(b + "|QUANTITY:" + quantity + "]"), Some(Action(verb, a + "]" + b, quantity)))
  {
    CloseBracketPieces(verb, a, b, quantity);
    PlainTag(verb, a + "]" + b, quantity, []);
    CloseBracketShown(verb, a, b, quantity);
  }

  lemma CloseBracketShown(verb: string, a: string, b: string, quantity: string)
    requires IsVerb(verb) && IsQuantity(quantity)
    requires ']' !in a && '[' !in b && b != [] && !IsSpace(b[0])
    ensures StripTags(TagOf(verb, a + "]" + b, quantity)) == b + "|QUANTITY:" + quantity + "]"
  {
    var x := ":" + verb + "|TITLE:" + a;
    var rest := b + "|QUANTITY:" + quantity + "]";
    CloseBracketPieces(verb, a, b, quantity);
    NoCloseInVerb(verb);
    NoOpenInQuantity(quantity);
    InnerRunDropped(x, rest);
  }

  lemma CloseBracketPieces(verb: string, a: string, b: string, quantity: string)
    ensures TagOf(verb, a + "]" + b, quantity) + [] == TagOf(verb, a + "]" + b, quantity)
    ensures TagOf(verb, a + "]" + b, quantity)
            == RunText(":" + verb + "|TITLE:" + a) + (b + "|QUANTITY:" + quantity + "]")
  {
    assert "[CARD_ACTION:" == "[" + "CARD_ACTION" + ":";
  }

  lemma NoOpenInQuantity(quantity: string)
    requires IsQuantity(quantity)
    ensures '[' !in quantity
  {
    if EqIgnoreCase(quantity, "ALL") {
      CharNotInWord(quantity, "ALL", '[');
    }
  }

  lemma NoCloseInVerb(verb: string)
    requires IsVerb(verb)
    ensures ']' !in verb
  {
    if EqIgnoreCase(verb, "ADD") {
      CharNotInWord(verb, "ADD", ']');
    } else {
      CharNotInWord(verb, "REMOVE", ']');
    }
  }

  /** `[CARD_ACTION` + x + `]`: a run when x is non-empty and holds no ']'. */
  function RunText(x: string): string {
    "[" + "CARD_ACTION" + x + "]"
  }

  /** The cleaner makes one pass: removing a run can join the text around it into a new
      run, which is then shown. */
  lemma OnePassLeavesRun(x: string, y: string)
    requires x != [] && ']' !in x && y != [] && ']' !in y && '[' !in y
    ensures StripTags("[" + RunText(x) + "CARD_ACTION" + y + "]") == RunText(y)
    ensures !NoRun(RunText(y))
  {
    var rest := "CARD_ACTION" + y + "]";
    OnePassPieces(x, y);
    KeptBracket(x, rest);
    InnerRunDropped(x, rest);
    NewRun(y);
  }

  lemma OnePassPieces(x: string, y: string)
    requires '[' !in y
    ensures var rest := "CARD_ACTION" + y + "]";
            && "[" + (RunText(x) + rest) == "[" + RunText(x) + "CARD_ACTION" + y + "]"
            && "[" + rest == RunText(y)
            && '[' !in rest && rest != [] && !IsSpace(rest[0])
  {
  }

  lemma KeptBracket(x: string, rest: string)
    ensures StripTags("[" + (RunText(x) + rest)) == "[" + StripTags(RunText(x) + rest)
  {
    var u := RunText(x) + rest;
    var t := "[" + u;
    NoRunAtDoubleBracket(t);
    KeepStep(t);
    assert t[1..] == u;
  }

  lemma InnerRunDropped(x: string, rest: string)
    requires x != [] && ']' !in x && '[' !in rest && rest != [] && !IsSpace(rest[0])
    ensures StripTags(RunText(x) + rest) == rest
  {
    RunDropped("CARD_ACTION", x, rest);
    NoLeadingSpaces(rest);
    assert TrimStart(rest) == rest;
    PlainNoRun(rest);
  }

  lemma NewRun(y: string)
    requires y != [] && ']' !in y
    ensures !NoRun(RunText(y))
  {
    var r := RunText(y) + [];
    assert r == RunText(y);
    RunOf("CARD_ACTION", y, []);
    assert r[0..] == r;
  }
}
