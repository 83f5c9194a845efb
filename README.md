# Card actions of the chat UI

This project models the card-action side channel of the `/echo` handler in `ui.py`.
The chat agent can embed a tag such as `[CARD_ACTION:ADD|TITLE:Milk|QUANTITY:2]` in its
reply. The handler then does four things:

- finds the first such tag with a case-insensitive, whitespace-tolerant pattern;
- removes every `[CARD_ACTION…]` run from the text shown, trims it and HTML-escapes it;
- applies the action to the insertion-ordered dictionary `all_cards` of cards
  (title, colour, quantity), asking the agent for a colour when a card is new;
- re-renders the card zone.

Modules, one file each:

- `Options` (options.dfy): the `Option` type.
- `Ascii` (ascii.dfy): Python's `str.strip()`, `\s`, `\d`, ASCII case folding, `int()` and `str()` on digit strings.
- `Html` (html.dfy): `html.escape` and a decoder that inverts it.
- `CardTag` (card_tag.dfy): the tag grammar as a parse tree (`TagText`). It has a printer (`Written`), a matcher (`Match`) proved to read back exactly what the printer writes, the `re.search` scan (`ParseAction`) and the single-pass `re.sub` cleaner (`StripTags`, `DisplayText`). `TagOf` is the tag in the form the agent is told to write it.
- `ReplyExamples` (reply_examples.dfy): whole replies worked through the parser and cleaner.
- `Cards` (cards.dfy): the store as a value (`Store`: keys in insertion order plus the map of entries) and `Next`, the effect of one action.
- `CardView` (render.dfy): `render_all_cards` as a list of (id, title, quantity line, colour) records.
- `App` (app.dfy): the class `CardStore`, holding the fields of `all_cards`. `Apply` and `Post` update them in place and `Render` reads them. Each is proved equal to its specification function (`Next`, `Turn`, `RenderCards`).

### Behaviour the proofs make explicit

- Only the first tag is acted on (`CardTag.FirstTagWins`).
- The verb and `ALL` are matched in any case but compared as written:
  - a lower-case verb changes nothing, yet the card zone is still re-rendered (`App.OtherVerbRerenders`, `App.LowerCaseAdd`);
  - `REMOVE … all` on a present card makes `int("all")` raise, so the request fails (`App.LowerCaseAllFails`).
- A title of only whitespace is matched and becomes the empty title (`ReplyExamples.BlankTitle`).
- The cleaner makes one pass, so a `]` inside a title leaves part of the tag visible (`ReplyExamples.CloseBracketInTitle`). Removing one run can also join the text around it into a new run (`ReplyExamples.OnePassLeavesRun`).
- `ADD … 0` on a new title stores a card holding 0 (`Cards.AddZero`); the handler does not refuse it.
- Two distinct titles can share a card id (`CardView.CardIdCollides`).
- An ADD of a new title fails the whole request when the colour request to the agent raises, since only `int()` is guarded (`Cards.RaisesExactly`, `App.FailsExactly`).
- The `"-" in` test of the colour check never rejects anything the `startswith("bg-")` test accepts (`Cards.DashTestRedundant`).

## Model

| member | source | states |
|---|---|---|
| Ascii.Strip | ui.py:280 | `str.strip()`: the result is a slice of the input with only whitespace cut at both ends, and has no outer whitespace |
| Ascii.StripPadded | ui.py:280 | stripping any whitespace off a string without outer whitespace gives that string back |
| Ascii.StripIdempotent | ui.py:280 | stripping the already stripped title group again changes nothing |
| Ascii.DecimalRoundTrip | ui.py:285 | `int(str(n)) == n` for every natural number |
| Ascii.DigitsRoundTrip | ui.py:285 | `str(int(s)) == s` for every digit string without a leading zero |
| Ascii.DigitsValue | ui.py:321 | `int()` on a digit string is zero exactly when every digit is `0` (leading zeros allowed); `Ascii.DecimalRoundTrip` and `Ascii.DigitsRoundTrip` tie it to `str()` |
| Html.Escape | ui.py:255 | `html.escape` output holds no `<`, `>`, `"` or `'` and is never shorter than its input |
| Html.EscapeRoundTrip | ui.py:255 | escaping loses nothing: decoding the escaped text gives the original back |
| Html.EscapePlain | ui.py:255 | text without markup characters or `&` is not changed by escaping |
| CardTag.Match | ui.py:244-248 | a match at the start of a text is a valid tag (keywords in any case, verb ADD/REMOVE, quantity ALL or digits, padding whitespace), and the text is that tag written out, followed by the rest |
| CardTag.MatchWritten | ui.py:244-248 | every valid tag, written out before any text, is matched and read back exactly, with the rest as what follows |
| CardTag.HeadRoundTrip | ui.py:245 | the part `\[CARD_ACTION\s*:\s*(ADD\|REMOVE)\s*\|\s*TITLE\s*:` reads back exactly what was written |
| CardTag.FieldRoundTrip | ui.py:245 | the lazy title group `\s*([^\|]+?)\s*\|` reads back exactly the lead, title and trail written, including the whitespace-only title |
| CardTag.TailRoundTrip | ui.py:245 | the part `QUANTITY\s*:\s*(ALL\|\d+)\s*\]` reads back exactly what was written |
| CardTag.SplitField | ui.py:245 | the title group splits the text before the first `\|` into whitespace, title and whitespace, and fails only on empty text |
| CardTag.FindFirst | ui.py:244 | `re.search`: the position returned is the first at which the pattern matches, and no match means no position matches |
| CardTag.ActionOf | ui.py:279-281 | the action keeps the verb and quantity groups as written, and the title group stripped; on a matched tag that title holds no `\|` and is the group itself, or empty when the group is one whitespace character |
| CardTag.ParseAction | ui.py:244-248 | `re.search` finds no tag exactly when the pattern matches at no position of the reply; `CardTag.FirstTagWins`, `CardTag.ParsedActionValid` and `CardTag.NoBracketNoAction` state which action is found |
| CardTag.Parse | ui.py:244-255 | the text shown has no outer whitespace and is never longer than the reply; a parsed action has a verb and quantity the pattern admits and a stripped title without `\|`; a reply without `[` is only stripped and yields no action |
| CardTag.FirstTagWins | ui.py:244-248 | when the pattern matches at no position of the text before it, the first valid tag gives the action, whatever follows, later tags included |
| CardTag.FirstTagAfterPlainText | ui.py:244-248 | after text without `[`, the first valid tag gives the action, whatever follows |
| CardTag.PlainTag | ui.py:244-281 | the everyday tag yields its verb, title and quantity in the case they were written |
| CardTag.NoBracketNoAction | ui.py:244-248 | a reply without `[` yields no action |
| CardTag.MatchNeedsBracket | ui.py:245 | the pattern only matches where a `[` stands |
| CardTag.ParsedActionValid | ui.py:278-281 | a parsed action has a verb and a quantity the pattern admits, and a stripped title without `\|` |
| CardTag.ActionTitle | ui.py:280 | the title used is the group itself, or empty when the group is a single whitespace character |
| CardTag.RunAt | ui.py:251 | a run `\[CARD_ACTION[^\]]+\]\s*` is at least 14 characters long and lies within the text |
| CardTag.RunAtSound | ui.py:251 | a run found at the start of a text is `[`, the keyword in any case, a non-empty stretch without `]`, then `]`; its length counts exactly those and the whitespace after them |
| CardTag.RunOf | ui.py:251 | `[`, the keyword in any case, a non-empty stretch without `]`, and `]` make a run that also takes the whitespace after it |
| CardTag.StripTags | ui.py:251 | the single `re.sub` pass never lengthens the text |
| CardTag.StripTagsUnchanged | ui.py:251 | the cleaner leaves a text unchanged exactly when no run starts anywhere in it |
| CardTag.StripTagsPlainPrefix | ui.py:251 | text without `[` passes the cleaner untouched, in front of whatever follows |
| CardTag.RunDropped | ui.py:251 | a run is removed together with the whitespace after it, and the pass resumes behind it |
| CardTag.TagRemoved | ui.py:251 | a valid tag whose title holds no `]` is removed entirely, with the whitespace after it |
| CardTag.DisplayText | ui.py:251 | the text shown has no outer whitespace, is never longer than the reply, and is the reply only stripped when the reply holds no run |
| ReplyExamples.BlankTitle | ui.py:244-280 | a whitespace-only title is matched and becomes the empty title |
| ReplyExamples.TagVanishes | ui.py:251 | a tag between plain texts disappears from the text shown, with the whitespace after it |
| ReplyExamples.CloseBracketInTitle | ui.py:244-251 | a `]` inside the title: the action uses the whole title, but the text after that `]` stays in the text shown |
| ReplyExamples.OnePassLeavesRun | ui.py:251 | removing one run can join the text around it into a new run, which stays in the text shown |
| Cards.ColorPrompt | ui.py:296 | the colour question is the fixed question, the card's title, and the fixed answer format, in that order |
| Cards.ColorPromptInjective | ui.py:296 | the title reads back from its colour question, so distinct titles are asked distinct questions |
| Cards.CheckColor | ui.py:298-305 | the colour kept is always a `bg-` class: the stripped answer when it starts with `bg-`, otherwise `bg-blue-500` |
| Cards.DashTestRedundant | ui.py:301 | every string starting with `bg-` contains `-`, so the second test never rejects |
| Cards.AddAmount | ui.py:284-287 | the amount added is never negative |
| Cards.AddAmountOfNumber | ui.py:284-285 | the amount ADD uses for a number is the number written |
| Cards.AddAmountOfAll | ui.py:284-287 | the amount ADD uses for every spelling of ALL is 1, the fallback when `int()` raises |
| Cards.AllNotDigits | ui.py:285 | a spelling of ALL is not a digit string, so `int()` raises on it |
| Cards.Without | ui.py:318 | deleting a key leaves every other key and drops that one |
| Cards.WithoutAt | ui.py:318 | deleting the key at position i leaves the keys before and after it in their order |
| Cards.WithoutDistinct | ui.py:318 | deleting keeps the keys free of repeats |
| Cards.Add | ui.py:283-310 | ADD raises exactly when the title is new and the colour request raises; otherwise the title is a key, its quantity is the old one (0 for a new title) plus the amount, and no other key is added or dropped |
| Cards.Remove | ui.py:314-329 | REMOVE on a present title raises exactly when the quantity is neither "ALL" nor digits; otherwise no key is added and the card, if kept, holds a positive quantity no larger than before |
| Cards.Next | ui.py:277-331 | an action raises only for REMOVE of a present title with a non-digit quantity or for ADD of a new title whose colour request raises, adds no key but its own title, and leaves the store unchanged for any verb not written "ADD" or "REMOVE"; `Cards.NextKeepsInv`, `Cards.AddExisting`, `Cards.AddNew`, `Cards.RemoveAll`, `Cards.RemoveNumber`, `Cards.NoChange`, `Cards.RaisesExactly` and `Cards.OthersUntouched` state the rest |
| Cards.NextKeepsInv | ui.py:277-331 | no action breaks the store invariant: each title listed once and filed under itself, quantities never negative, every colour a `bg-` class |
| Cards.AddExisting | ui.py:289-291 | ADD on a present title adds the amount to its quantity; colour, position and every other card are unchanged; the colour answer is not used |
| Cards.AddNew | ui.py:293-309 | ADD on a new title raises exactly when the colour request does; otherwise it puts one card last, with the amount and the checked colour from the agent's answer, and no other card changes |
| Cards.RemoveAll | ui.py:316-318 | REMOVE ALL on a present title deletes exactly that card; the others keep their order |
| Cards.RemoveNumber | ui.py:320-328 | REMOVE n subtracts n from a card holding more than n, leaving it positive and in place; any other card is deleted, its key dropped from the order and the others kept in order |
| Cards.NoChange | ui.py:283-331 | REMOVE on an absent title, and any verb not written "ADD" or "REMOVE", leave the store unchanged |
| Cards.RaisesExactly | ui.py:283-321 | an action fails exactly when it is REMOVE on a present title with ALL spelled in another case, or ADD on a new title whose colour request raises |
| Cards.OthersUntouched | ui.py:277-331 | cards under other titles are untouched, and the other titles keep their relative order |
| Cards.ColorKept | ui.py:289-328 | a card keeps its title and colour as long as it stays in the store |
| Cards.AddThenRemoveAll | ui.py:293-318 | adding a new card succeeds exactly when the colour request does, and removing ALL of it then gives the store back |
| Cards.AddTwice | ui.py:289-309 | the first ADD fails only on a new title whose colour request raises; once it succeeds, the second cannot fail, the two add up and the second keeps the colour of the first |
| Cards.AddZero | ui.py:284-309 | ADD 0 on a new title stores a card holding 0 whenever the colour request answers |
| CardView.Slug | ui.py:222 | a space becomes `-` and any other character its lower-case form, so an id character is never a space nor an upper-case letter |
| CardView.CardId | ui.py:222 | the id is `card-` followed by the title with each character lower-cased and each space replaced by `-`, one for one |
| CardView.SameSlugs | ui.py:222 | titles whose characters map to the same id characters one for one get the same id |
| CardView.CardIdPlain | ui.py:222 | a title without spaces or upper-case letters appears in its id unchanged after `card-` |
| CardView.CardIdOfSlug | ui.py:222 | lowering the title and replacing its spaces first does not change the id |
| CardView.CardIdIgnoresCase | ui.py:222 | titles that differ only in letter case get the same id |
| CardView.CardIdCollides | ui.py:222 | "Red Apple" and "red-apple" are distinct titles with the same id |
| CardView.QuantityLabel | ui.py:220 | the quantity line starts with `Quantity: ` |
| CardView.QuantityLabelRoundTrip | ui.py:220 | the quantity can be read back from its line |
| CardView.CardElement | ui.py:218-223 | a card's element carries the id made from its key, the card's title and colour, and the quantity line of its quantity, from which `CardView.QuantityLabelRoundTrip` reads the quantity back |
| CardView.RenderList | ui.py:216-225 | one element per title listed |
| CardView.RenderListAt | ui.py:217-224 | the element at position i is that of the i-th card in insertion order |
| CardView.RenderCards | ui.py:207-225 | the card zone is never empty |
| CardView.PlaceholderIffEmpty | ui.py:209-214 | the placeholder appears exactly when there is no card, and then alone |
| CardView.RenderedInOrder | ui.py:215-225 | with cards present, one element per card in insertion order, showing its title, quantity and colour under the id made from its key |
| CardView.DistinctCount | ui.py:217 | a repeat-free list of exactly the keys is as long as the dictionary |
| App.UserMessage | ui.py:231 | the message shown is never empty, has no outer whitespace, and is the stripped message when that is not empty |
| App.UserMessageOf | ui.py:231 | a whitespace-only message is shown as "(empty)", and a shown message is shown unchanged |
| App.Turn | ui.py:228-344 | a request keeps the store invariant, and a failed request leaves the store as it was |
| App.CardStore.constructor | ui.py:28 | the store starts empty and valid |
| App.CardStore.Apply | ui.py:277-331 | performing an action in place keeps the store valid and leaves exactly the store `Next` gives, or the old store when `int()` or the colour request raises |
| App.CardStore.AddCard | ui.py:283-310 | the ADD branch in place gives the store `Add` describes, or raises before inserting and leaves the store |
| App.CardStore.RemoveCard | ui.py:314-329 | the REMOVE branch in place gives the store `Remove` describes, or fails leaving the store |
| App.CardStore.Forget | ui.py:318 | `del` in place drops the key from the order and the map |
| App.CardStore.Render | ui.py:207-225 | the loop that appends one element per card builds exactly `RenderCards` of the store |
| App.CardStore.Post | ui.py:228-344 | one request returns and leaves exactly what `Turn` states |
| App.RenderStep | ui.py:224 | appending the next card's element extends the rendered list by one card |
| App.NoTagNoCards | ui.py:343-344 | a reply without `[` gives the two bubbles with the reply only stripped and escaped, and the store unchanged |
| App.AgentTextSafe | ui.py:251-255 | the agent's bubble holds no markup character and decodes to the cleaned reply |
| App.FailsExactly | ui.py:283-321 | a request fails exactly when its first tag is REMOVE of a present card with ALL spelled in another case, or ADD of a new card whose colour question the agent fails to answer |
| App.OtherVerbRerenders | ui.py:333-341 | a tag whose verb is not written "ADD" or "REMOVE" leaves the store unchanged but the card zone is sent back |
| App.LowerCaseAdd | ui.py:283 | `[CARD_ACTION:add\|…]` adds nothing, yet the card zone is sent back |
| App.LowerCaseAllFails | ui.py:316-321 | `REMOVE` with quantity `all` on a present card makes the request fail and keeps the card |

## Left out

- The calls to the language model (`agent.run`) and the conversation history `all_messages` are left out. The reply to the user's message is a parameter of `Post`. The agent's answer to the colour question is a function from the prompt (`ColorPrompt`) to the answer, or to `None` when that request raises.
- The chat page markup, the client-side JavaScript, the fasthtml element classes, CSS classes other than the card colour, the HTMX out-of-band swap attributes and `serve` are left out. A rendered card is only its id, title, quantity line and colour.
- `print` logging and the logfire and dotenv setup are left out.
- Concurrency between requests on the globals is left out. Requests are modelled one after another.
- Python treats non-ASCII digits, whitespace and letter cases as such in `\d`, `\s`, `str.strip()`, `str.lower()`, `int()` and `re.IGNORECASE`. The model handles ASCII only.
- Cards.AddAmount, Cards.Remove: `int()` is modelled only on the literals the pattern admits (digit strings and spellings of ALL). Python's limit on the number of digits `int()` converts is not modelled.
- Cards.Store: the dictionary is modelled as its key order plus a map of values. The in-place `+=`/`-=` on a `Card` object is modelled as replacing the map entry. No other reference to a card exists, so no aliasing is lost.
- The `Card` model's default quantity of 1 is not modelled, because the handler always passes a quantity.
- When a request fails, the response is only `Failed`. The web framework's error page is not modelled.
- App.Turn, App.FailsExactly: an exception from the agent call for the reply itself (ui.py:234) fails the request in the source before the tag is looked at; the model takes the reply as given, so it covers only requests whose reply arrived.
- App.Turn, App.FailsExactly: the model covers only quantities below 10^4300. Python refuses to turn a larger integer into text, so once ADDs at ui.py:291 have pushed a quantity past 4300 digits, `f"Quantity: {card.quantity}"` at ui.py:220 raises while the card zone is rendered, after the store has changed; the model's unbounded integers render it instead.
- my-agent-app/main.py (the agent's tools, file access, clock and console loop) is not part of this model.
