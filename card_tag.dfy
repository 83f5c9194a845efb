/**
 * The card-action side channel in the agent's reply.
 *
 * An action is written as a tag
 *     [CARD_ACTION:<ADD|REMOVE>|TITLE:<name>|QUANTITY:<ALL|digits>]
 * whose literal words match without regard to case and which tolerates whitespace
 * around every ':' and '|'. The handler searches the reply for the first tag (the
 * pattern `\[CARD_ACTION\s*:\s*(ADD|REMOVE)\s*\|\s*TITLE\s*:\s*([^|]+?)\s*\|\s*QUANTITY\s*:\s*(ALL|\d+)\s*\]`
 * under `re.I`), acts on that one only, and separately removes every looser bracket run
 * `\[CARD_ACTION[^\]]+\]\s*` from the text it shows.
 *
 * The pattern is modelled by a hand-written matcher that returns a parse tree,
 * `TagText`, holding every piece of the matched text; `Written` prints a tree back, and
 * the matcher and the printer are proved to be inverse to each other.
 */
module CardTag {
  import opened Options
  import opened Ascii

  /** What the handler takes from the first tag: the verb and the quantity literal in
      the case they were written, and the title with its outer whitespace removed. */
  datatype Action = Action(verb: string, title: string, quantity: string)

  /** `[` actionWord sp0 `:` sp1 verb sp2 `|` sp3 titleWord sp4 `:` */
  datatype Head = Head(actionWord: string, sp0: string, sp1: string, verb: string,
                       sp2: string, sp3: string, titleWord: string, sp4: string)

  /** lead title trail `|` -- the part `\s*([^|]+?)\s*\|` of the pattern */
  datatype TitleField = TitleField(lead: string, title: string, trail: string)

  /** sp5 quantityWord sp6 `:` sp7 quantity sp8 `]` */
  datatype Tail = Tail(sp5: string, quantityWord: string, sp6: string, sp7: string,
                       quantity: string, sp8: string)

  /** One tag as it stands in the reply; its three groups are `head.verb`,
      `field.title` and `tail.quantity`. */
  datatype TagText = TagText(head: Head, field: TitleField, tail: Tail)

  predicate IsVerb(v: string) {
    EqIgnoreCase(v, "ADD") || EqIgnoreCase(v, "REMOVE")
  }

  predicate IsQuantity(q: string) {
    EqIgnoreCase(q, "ALL") || IsDigits(q)
  }

  predicate ValidHead(h: Head) {
    && EqIgnoreCase(h.actionWord, "CARD_ACTION")
    && AllSpace(h.sp0) && AllSpace(h.sp1)
    && IsVerb(h.verb)
    && AllSpace(h.sp2) && AllSpace(h.sp3)
    && EqIgnoreCase(h.titleWord, "TITLE")
    && AllSpace(h.sp4)
  }

  /** The title group never holds '|'. It is either trimmed text, or -- when only
      whitespace stands between ':' and '|' -- the last whitespace character, which the
      lazy group takes after the `\s*` before it gives one character back. */
  predicate ValidField(f: TitleField) {
    && AllSpace(f.lead) && AllSpace(f.trail)
    && '|' !in f.title
    && ((f.title != [] && NoOuterSpace(f.title))
        || (|f.title| == 1 && IsSpace(f.title[0]) && f.trail == []))
  }

  predicate ValidTail(t: Tail) {
    && AllSpace(t.sp5)
    && EqIgnoreCase(t.quantityWord, "QUANTITY")
    && AllSpace(t.sp6) && AllSpace(t.sp7)
    && IsQuantity(t.quantity)
    && AllSpace(t.sp8)
  }

  predicate Valid(tag: TagText) {
    ValidHead(tag.head) && ValidField(tag.field) && ValidTail(tag.tail)
  }

  // ---------------------------------------------------------------------------
  // Printing a tag, followed by the text `k` that comes after it

  function HeadText(h: Head, k: string): string {
    "[" + (h.actionWord + (h.sp0 + (":" + (h.sp1 + (h.verb + (h.sp2 + ("|" + (h.sp3
      + (h.titleWord + (h.sp4 + (":" + k)))))))))))
  }

  function FieldText(f: TitleField, k: string): string {
    f.lead + (f.title + (f.trail + ("|" + k)))
  }

  function TailText(t: Tail, k: string): string {
    t.sp5 + (t.quantityWord + (t.sp6 + (":" + (t.sp7 + (t.quantity + (t.sp8 + ("]" + k)))))))
  }

  /** The tag as written, followed by `rest`. */
  function Written(tag: TagText, rest: string): string {
    HeadText(tag.head, FieldText(tag.field, TailText(tag.tail, rest)))
  }

  // ---------------------------------------------------------------------------
  // The matcher: each step consumes a prefix and returns what it matched and the rest

  /** A literal character. */
  function Lit(t: string, c: char): (r: Option<string>)
    ensures r.Some? <==> |t| > 0 && t[0] == c
    ensures r.Some? ==> t == [c] + r.value
  {
    if |t| > 0 && t[0] == c then Some(t[1..]) else None
  }

  /** A literal word, matched without regard to case; returns the word as written. */
  function Word(t: string, w: string): (r: Option<(string, string)>)
    ensures r.Some? <==> |w| <= |t| && EqIgnoreCase(t[..|w|], w)
    ensures r.Some? ==> EqIgnoreCase(r.value.0, w) && t == r.value.0 + r.value.1
  {
    if |w| <= |t| && EqIgnoreCase(t[..|w|], w) then Some((t[..|w|], t[|w|..])) else None
  }

  /** `\s*`: all the whitespace at the start of `t`. */
  function Pad(t: string): (r: (string, string))
    ensures AllSpace(r.0) && t == r.0 + r.1
    ensures r.1 == [] || !IsSpace(r.1[0])
  {
    var n := LeadingSpaces(t);
    (t[..n], t[n..])
  }

  /** `(ADD|REMOVE)`; the two alternatives never both match at one place. */
  function VerbWord(t: string): (r: Option<(string, string)>)
    ensures r.Some? ==> IsVerb(r.value.0) && t == r.value.0 + r.value.1
  {
    match Word(t, "ADD")
    case Some(p) => Some(p)
    case None => Word(t, "REMOVE")
  }

  /** `(ALL|\d+)`; the digit run is taken whole, as the greedy `\d+` followed by
      `\s*\]` can only succeed that way. */
  function QuantityWord(t: string): (r: Option<(string, string)>)
    ensures r.Some? ==> IsQuantity(r.value.0) && t == r.value.0 + r.value.1
    ensures r.Some? && IsDigits(r.value.0) ==> r.value.1 == [] || !IsDigit(r.value.1[0])
  {
    match Word(t, "ALL")
    case Some(p) => Some(p)
    case None =>
      var n := LeadingDigits(t);
      if n == 0 then None else Some((t[..n], t[n..]))
  }

  /** `\s*` followed by the separator `c`: the whitespace and the text after `c`. */
  function Sep(t: string, c: char): (r: Option<(string, string)>)
    ensures r.Some? ==> AllSpace(r.value.0) && t == r.value.0 + ([c] + r.value.1)
  {
    var p := Pad(t);
    var rest :- Lit(p.1, c);
    Some((p.0, rest))
  }

  /** `\s*` followed by the word `w`: the whitespace, the word as written and the rest. */
  function PaddedWord(t: string, w: string): (r: Option<(string, string, string)>)
    ensures r.Some? ==> AllSpace(r.value.0) && EqIgnoreCase(r.value.1, w)
                        && t == r.value.0 + (r.value.1 + r.value.2)
  {
    var p := Pad(t);
    var x :- Word(p.1, w);
    Some((p.0, x.0, x.1))
  }

  /** `\s*w\s*:` -- a key of the tag with the whitespace around it. */
  function KeyWord(t: string, w: string): (r: Option<((string, string, string), string)>)
    ensures r.Some? ==> var (sp, word, sp') := r.value.0;
                        AllSpace(sp) && EqIgnoreCase(word, w) && AllSpace(sp')
                        && t == sp + (word + (sp' + (":" + r.value.1)))
  {
    var x :- PaddedWord(t, w);
    var s :- Sep(x.2, ':');
    Some(((x.0, x.1, s.0), s.1))
  }

  /** `\[CARD_ACTION\s*:\s*(ADD|REMOVE)\s*\|`: the keyword, the verb and the whitespace
      around them. */
  function MatchOpening(t: string): (r: Option<((string, string, string, string, string), string)>)
    ensures r.Some? ==> var (aw, sp0, sp1, verb, sp2) := r.value.0;
                        && EqIgnoreCase(aw, "CARD_ACTION") && AllSpace(sp0) && AllSpace(sp1)
                        && IsVerb(verb) && AllSpace(sp2)
                        && t == "[" + (aw + (sp0 + (":" + (sp1 + (verb + (sp2 + ("|" + r.value.1)))))))
  {
    var t1 :- Lit(t, '[');
    var aw :- Word(t1, "CARD_ACTION");
    var s0 :- Sep(aw.1, ':');
    var p1 := Pad(s0.1);
    var v :- VerbWord(p1.1);
    var s2 :- Sep(v.1, '|');
    Some(((aw.0, s0.0, p1.0, v.0, s2.0), s2.1))
  }

  /** Everything up to the ':' after `TITLE`. */
  function MatchHead(t: string): (r: Option<(Head, string)>)
    ensures r.Some? ==> ValidHead(r.value.0) && t == HeadText(r.value.0, r.value.1)
  {
    var o :- MatchOpening(t);
    var w :- KeyWord(o.1, "TITLE");
    Some((Head(o.0.0, o.0.1, o.0.2, o.0.3, o.0.4, w.0.0, w.0.1, w.0.2), w.1))
  }

  /** `\s*([^|]+?)\s*\|`. No '|' can stand inside the field, so the field ends at the
      first '|' ahead, and what comes before that '|' is cut into lead, title and trail
      by `SplitField`. */
  function MatchField(t: string): (r: Option<(TitleField, string)>)
    ensures r.Some? ==> ValidField(r.value.0) && t == FieldText(r.value.0, r.value.1)
  {
    var q := IndexOf(t, '|');
    if q == |t| then None
    else
      BarSplit(t, q);
      match SplitField(t[..q])
      case None => None
      case Some(f) =>
        FieldTextSplit(f, t[q + 1..]);
        Some((f, t[q + 1..]))
  }

  /** The text before the field's '|'. */
  function FieldBody(f: TitleField): string {
    f.lead + f.title + f.trail
  }

  /** How the field's part of the pattern cuts the text before the '|'. The greedy
      `\s*` takes the whitespace at the start and the lazy group ends where only
      whitespace is left; if the text is whitespace only, the `\s*` gives back its last
      character and the group is that one character. Only an empty text fails, as the
      group needs at least one character. */
  function SplitField(body: string): (r: Option<TitleField>)
    requires '|' !in body
    ensures r.None? <==> body == []
    ensures r.Some? ==> ValidField(r.value) && FieldBody(r.value) == body
  {
    var n := LeadingSpaces(body);
    if n < |body| then
      var e := |body| - TrailingSpaces(body);
      TrimmedSplit(body, n, e);
      Some(TitleField(body[..n], body[n..e], body[e..]))
    else if n == 0 then None
    else
      BlankSplit(body, n);
      Some(TitleField(body[..n - 1], body[n - 1..], []))
  }

  /** Text that holds something besides whitespace is cut around that something. */
  lemma TrimmedSplit(body: string, n: nat, e: nat)
    requires '|' !in body && n == LeadingSpaces(body) && n < |body|
    requires e == |body| - TrailingSpaces(body)
    ensures n < e
    ensures ValidField(TitleField(body[..n], body[n..e], body[e..]))
    ensures FieldBody(TitleField(body[..n], body[n..e], body[e..])) == body
  {
    TrailingSpacesAfter(body, n);
    TitleCut(body, n, e);
    Rejoin(body, n, e);
  }

  lemma TitleCut(body: string, n: nat, e: nat)
    requires '|' !in body && n < e <= |body| && !IsSpace(body[n]) && !IsSpace(body[e - 1])
    ensures body[n..e] != [] && NoOuterSpace(body[n..e]) && '|' !in body[n..e]
  {
    var m := body[n..e];
    assert m[0] == body[n] && m[|m| - 1] == body[e - 1];
    assert forall i :: 0 <= i < |m| ==> m[i] == body[n + i];
  }

  lemma Rejoin(s: string, i: nat, j: nat)
    requires i <= j <= |s|
    ensures s[..i] + s[i..j] + s[j..] == s
  {
  }

  /** Text of whitespace only: its last character is the title. */
  lemma BlankSplit(body: string, n: nat)
    requires '|' !in body && n == LeadingSpaces(body) && 0 < n == |body|
    ensures ValidField(TitleField(body[..n - 1], body[n - 1..], []))
    ensures FieldBody(TitleField(body[..n - 1], body[n - 1..], [])) == body
  {
    assert body[..n] == body;
    assert body[..n - 1] + body[n - 1..] + [] == body;
  }

  /** The text up to the first '|' holds no '|', and the '|' joins it to the rest. */
  lemma BarSplit(t: string, q: nat)
    requires q == IndexOf(t, '|') && q < |t|
    ensures '|' !in t[..q] && t == t[..q] + ("|" + t[q + 1..])
  {
    assert forall i :: 0 <= i < q ==> t[..q][i] == t[i];
    assert t[q..] == "|" + t[q + 1..];
    assert t == t[..q] + t[q..];
  }

  lemma FieldTextSplit(f: TitleField, k: string)
    ensures FieldText(f, k) == FieldBody(f) + ("|" + k)
  {
  }

  /** `\s*QUANTITY\s*:\s*(ALL|\d+)\s*\]` */
  function MatchTail(t: string): (r: Option<(Tail, string)>)
    ensures r.Some? ==> ValidTail(r.value.0) && t == TailText(r.value.0, r.value.1)
  {
    var kw :- KeyWord(t, "QUANTITY");
    var p7 := Pad(kw.1);
    var q :- QuantityWord(p7.1);
    var s8 :- Sep(q.1, ']');
    Some((Tail(kw.0.0, kw.0.1, kw.0.2, p7.0, q.0, s8.0), s8.1))
  }

  /** The action pattern anchored at the start of `t`: the tag and the text after it.
      Whatever it matches is a valid tag written out exactly (see `MatchWritten` for
      the converse). */
  function Match(t: string): (r: Option<(TagText, string)>)
    ensures r.Some? ==> Valid(r.value.0) && t == Written(r.value.0, r.value.1)
  {
    var h :- MatchHead(t);
    var f :- MatchField(h.1);
    var tl :- MatchTail(f.1);
    Some((TagText(h.0, f.0, tl.0), tl.1))
  }

  // ---------------------------------------------------------------------------
  // Completeness: every valid tag, written out, is matched and read back exactly

  lemma LitOf(c: char, k: string)
    ensures Lit([c] + k, c) == Some(k)
  {
  }

  lemma WordOf(v: string, w: string, k: string)
    requires EqIgnoreCase(v, w)
    ensures Word(v + k, w) == Some((v, k))
  {
    assert (v + k)[..|w|] == v;
  }

  lemma PadOf(p: string, k: string)
    requires AllSpace(p) && (k == [] || !IsSpace(k[0]))
    ensures Pad(p + k) == (p, k)
  {
    var t := p + k;
    var n := LeadingSpaces(t);
    assert forall i :: 0 <= i < |p| ==> t[i] == p[i];
    assert forall j :: |p| < j <= |t| ==> t[..j][|p|] == k[0];
  }

  /** A word equal, up to case, to one that starts with an upper-case letter starts with a letter. */
  lemma LetterFirst(v: string, w: string)
    requires EqIgnoreCase(v, w) && |w| > 0 && IsUpper(w[0])
    ensures !IsSpace(v[0]) && !IsDigit(v[0])
  {
    assert Lower(v[0]) == Lower(w[0]);
  }

  lemma VerbOf(v: string, k: string)
    requires IsVerb(v)
    ensures VerbWord(v + k) == Some((v, k))
  {
    if EqIgnoreCase(v, "ADD") {
      WordOf(v, "ADD", k);
    } else {
      assert Lower(v[0]) == 'r';
      WordOf(v, "REMOVE", k);
    }
  }

  lemma QuantityOf(q: string, k: string)
    requires IsQuantity(q) && (k == [] || !IsDigit(k[0]))
    ensures QuantityWord(q + k) == Some((q, k))
  {
    var t := q + k;
    if EqIgnoreCase(q, "ALL") {
      WordOf(q, "ALL", k);
    } else {
      assert IsDigit(t[0]) && !IsUpper(t[0]);
      assert Word(t, "ALL").None?;
      var n := LeadingDigits(t);
      assert forall i :: 0 <= i < |q| ==> t[i] == q[i];
      assert forall j :: |q| < j <= |t| ==> t[..j][|q|] == k[0];
    }
  }

  lemma SepOf(sp: string, c: char, k: string)
    requires AllSpace(sp) && !IsSpace(c)
    ensures Sep(sp + ([c] + k), c) == Some((sp, k))
  {
    PadOf(sp, [c] + k);
    LitOf(c, k);
  }

  lemma PaddedWordOf(sp: string, v: string, w: string, k: string)
    requires AllSpace(sp) && EqIgnoreCase(v, w) && |w| > 0 && IsUpper(w[0])
    ensures PaddedWord(sp + (v + k), w) == Some((sp, v, k))
  {
    LetterFirst(v, w);
    PadOf(sp, v + k);
    WordOf(v, w, k);
  }

  lemma KeyWordOf(sp: string, v: string, sp': string, w: string, k: string)
    requires AllSpace(sp) && EqIgnoreCase(v, w) && |w| > 0 && IsUpper(w[0]) && AllSpace(sp')
    ensures KeyWord(sp + (v + (sp' + (":" + k))), w) == Some(((sp, v, sp'), k))
  {
    PaddedWordOf(sp, v, w, sp' + (":" + k));
    SepOf(sp', ':', k);
  }

  lemma OpeningOf(h: Head, k: string)
    requires ValidHead(h)
    ensures MatchOpening("[" + (h.actionWord + (h.sp0 + (":" + (h.sp1 + (h.verb + (h.sp2 + ("|" + k))))))))
            == Some(((h.actionWord, h.sp0, h.sp1, h.verb, h.sp2), k))
  {
    var t1 := h.sp1 + (h.verb + (h.sp2 + ("|" + k)));
    LitOf('[', h.actionWord + (h.sp0 + (":" + t1)));
    WordOf(h.actionWord, "CARD_ACTION", h.sp0 + (":" + t1));
    SepOf(h.sp0, ':', t1);
    LetterFirst(h.verb, if EqIgnoreCase(h.verb, "ADD") then "ADD" else "REMOVE");
    PadOf(h.sp1, h.verb + (h.sp2 + ("|" + k)));
    VerbOf(h.verb, h.sp2 + ("|" + k));
    SepOf(h.sp2, '|', k);
  }

  lemma HeadRoundTrip(h: Head, k: string)
    requires ValidHead(h)
    ensures MatchHead(HeadText(h, k)) == Some((h, k))
  {
    var rest := h.sp3 + (h.titleWord + (h.sp4 + (":" + k)));
    OpeningOf(h, rest);
    KeyWordOf(h.sp3, h.titleWord, h.sp4, "TITLE", k);
  }

  lemma TailRoundTrip(tl: Tail, k: string)
    requires ValidTail(tl)
    ensures MatchTail(TailText(tl, k)) == Some((tl, k))
  {
    var t1 := tl.sp7 + (tl.quantity + (tl.sp8 + ("]" + k)));
    KeyWordOf(tl.sp5, tl.quantityWord, tl.sp6, "QUANTITY", t1);
    QuantityValueOf(tl, k);
  }

  lemma QuantityValueOf(tl: Tail, k: string)
    requires ValidTail(tl)
    ensures var t := tl.quantity + (tl.sp8 + ("]" + k));
            && Pad(tl.sp7 + t) == (tl.sp7, t)
            && QuantityWord(t) == Some((tl.quantity, tl.sp8 + ("]" + k)))
            && Sep(tl.sp8 + ("]" + k), ']') == Some((tl.sp8, k))
  {
    if EqIgnoreCase(tl.quantity, "ALL") {
      LetterFirst(tl.quantity, "ALL");
    }
    PadOf(tl.sp7, tl.quantity + (tl.sp8 + ("]" + k)));
    QuantityOf(tl.quantity, tl.sp8 + ("]" + k));
    SepOf(tl.sp8, ']', k);
  }

  lemma FieldRoundTrip(f: TitleField, k: string)
    requires ValidField(f)
    ensures MatchField(FieldText(f, k)) == Some((f, k))
  {
    var body := FieldBody(f);
    var t := FieldText(f, k);
    FieldTextSplit(f, k);
    NoBarIn(f.lead, f.title, f.trail);
    FirstAfter(body, '|', k);
    assert t[..|body|] == body && t[|body| + 1..] == k;
    SplitFieldOf(f);
  }

  /** The text before the '|' of a valid field is cut back into that field. */
  lemma SplitFieldOf(f: TitleField)
    requires ValidField(f)
    ensures '|' !in FieldBody(f) && SplitField(FieldBody(f)) == Some(f)
  {
    NoBarIn(f.lead, f.title, f.trail);
    if f.title != [] && NoOuterSpace(f.title) {
      TrimmedSplitOf(f);
    } else {
      BlankSplitOf(f);
    }
  }

  lemma TrimmedSplitOf(f: TitleField)
    requires ValidField(f) && f.title != [] && NoOuterSpace(f.title)
    ensures var body := FieldBody(f);
            && LeadingSpaces(body) == |f.lead| < |body|
            && TrailingSpaces(body) == |f.trail|
            && body[..|f.lead|] == f.lead
            && body[|f.lead|..|f.lead| + |f.title|] == f.title
            && body[|f.lead| + |f.title|..] == f.trail
  {
    var body := FieldBody(f);
    var m := f.lead + f.title;
    PadOf(f.lead, f.title + f.trail);
    assert body == f.lead + (f.title + f.trail) == m + f.trail;
    assert m[|m| - 1] == f.title[|f.title| - 1];
    TrailOf(m, f.trail);
    assert body[..|f.lead|] == f.lead && body[|m|..] == f.trail;
    assert body[|f.lead|..|m|] == f.title;
  }

  lemma BlankSplitOf(f: TitleField)
    requires ValidField(f) && !(f.title != [] && NoOuterSpace(f.title))
    ensures var body := FieldBody(f);
            && LeadingSpaces(body) == |body| == |f.lead| + 1
            && body[..|f.lead|] == f.lead && body[|f.lead|..] == f.title && f.trail == []
  {
    var body := FieldBody(f);
    assert forall i :: 0 <= i < |body| ==> body[i] == if i < |f.lead| then f.lead[i] else f.title[0];
    assert body[..|f.lead|] == f.lead && body[|f.lead|..] == f.title;
  }

  lemma NoBarIn(lead: string, title: string, trail: string)
    requires AllSpace(lead) && AllSpace(trail) && '|' !in title
    ensures '|' !in lead + title + trail
  {
    var s := lead + title + trail;
    forall i | 0 <= i < |s| ensures s[i] != '|' {
      if i < |lead| {
        assert s[i] == lead[i];
      } else if i < |lead| + |title| {
        assert s[i] == title[i - |lead|];
      } else {
        assert s[i] == trail[i - |lead| - |title|];
      }
    }
  }

  /** The first `c` in `a + [c] + k` is the one after `a` when `a` holds none. */
  lemma FirstAfter(a: string, c: char, k: string)
    requires c !in a
    ensures IndexOf(a + ([c] + k), c) == |a|
  {
    var t := a + ([c] + k);
    assert t[|a|] == c;
  }

  lemma TrailOf(m: string, tr: string)
    requires m != [] && !IsSpace(m[|m| - 1]) && AllSpace(tr)
    ensures TrailingSpaces(m + tr) == |tr|
  {
    var s := m + tr;
    assert s[|m| - 1] == m[|m| - 1];
    assert forall i :: |m| <= i < |s| ==> s[i] == tr[i - |m|];
    RunStartFrom(s, |m|, |s|);
  }

  lemma {:induction false} RunStartFrom(s: string, b: nat, j: nat)
    requires 0 < b <= j <= |s| && !IsSpace(s[b - 1])
    requires forall k :: b <= k < |s| ==> IsSpace(s[k])
    ensures SpaceRunStart(s, j) == b
    decreases j
  {
    if j > b {
      RunStartFrom(s, b, j - 1);
    }
  }

  /** The matcher reads back exactly the tag that was written, whatever follows it. */
  lemma {:induction false} MatchWritten(tag: TagText, rest: string)
    requires Valid(tag)
    ensures Match(Written(tag, rest)) == Some((tag, rest))
  {
    var tailText := TailText(tag.tail, rest);
    var fieldText := FieldText(tag.field, tailText);
    HeadRoundTrip(tag.head, fieldText);
    FieldRoundTrip(tag.field, tailText);
    TailRoundTrip(tag.tail, rest);
  }

  /** The tag the pattern matches at the start of `t`, if any. */
  function TagAt(t: string): Option<TagText> {
    match Match(t)
    case None => None
    case Some(m) => Some(m.0)
  }

  /** What the pattern yields at each position of `s`, the end included. */
  function Attempts(s: string): (r: seq<Option<TagText>>)
    ensures |r| == |s| + 1
  {
    seq(|s| + 1, (k: int) requires 0 <= k <= |s| => TagAt(s[k..]))
  }

  /** The first success among `attempts` from `from` on: `re.search` when the attempts
      are those of every position of a text. */
  function FindFirst<T>(attempts: seq<Option<T>>, from: nat): (r: Option<(nat, T)>)
    requires from <= |attempts|
    ensures r.Some? ==> from <= r.value.0 < |attempts| && attempts[r.value.0] == Some(r.value.1)
                        && forall k :: from <= k < r.value.0 ==> attempts[k].None?
    ensures r.None? ==> forall k :: from <= k < |attempts| ==> attempts[k].None?
    decreases |attempts| - from
  {
    if from == |attempts| then None
    else
      match attempts[from]
      case Some(x) => Some((from, x))
      case None => FindFirst(attempts, from + 1)
  }

  /** The groups of a tag as the handler uses them; the title is stripped once more,
      which on a matched tag changes only a title of one whitespace character. */
  function ActionOf(tag: TagText): (a: Action)
    ensures a.verb == tag.head.verb && a.quantity == tag.tail.quantity
    ensures NoOuterSpace(a.title) && |a.title| <= |tag.field.title|
    ensures Valid(tag) ==>
              '|' !in a.title
              && a.title == if IsSpace(tag.field.title[0]) then [] else tag.field.title
  {
    ActionTitle(tag);
    Action(tag.head.verb, Strip(tag.field.title), tag.tail.quantity)
  }

  /** The action the reply asks for: that of its first tag, if it has one. There is
      none exactly when the pattern matches at no position of the reply. */
  function ParseAction(reply: string): (r: Option<Action>)
    ensures r.None? <==> forall k :: 0 <= k <= |reply| ==> TagAt(reply[k..]).None?
  {
    var attempts := Attempts(reply);
    assert forall k :: 0 <= k <= |reply| ==> attempts[k] == TagAt(reply[k..]);
    match FindFirst(attempts, 0)
    case None => None
    case Some(found) => Some(ActionOf(found.1))
  }

  /** What a parsed action can hold: a verb and a quantity the pattern admits, in any
      case, and a title that is stripped and holds no '|'. */
  lemma ParsedActionValid(reply: string)
    ensures ParseAction(reply).Some? ==>
              var a := ParseAction(reply).value;
              IsVerb(a.verb) && IsQuantity(a.quantity) && '|' !in a.title && NoOuterSpace(a.title)
  {
    var attempts := Attempts(reply);
    var found := FindFirst(attempts, 0);
    if found.Some? {
      var k := found.value.0;
      assert attempts[k] == TagAt(reply[k..]);
      ActionTitle(found.value.1);
    }
  }

  // ---------------------------------------------------------------------------
  // The display cleaner: `re.sub(r'\[CARD_ACTION[^\]]+\]\s*', '', reply, flags=re.I).strip()`

  /** Length of the run `\[CARD_ACTION[^\]]+\]\s*` at the start of `t`, if one starts
      there: the keyword, at least one character up to the first ']', that ']', and
      the whitespace after it. */
  function RunAt(t: string): (r: Option<nat>)
    ensures r.Some? ==> 14 <= r.value <= |t|
  {
    if |t| < 12 || t[0] != '[' || !EqIgnoreCase(t[1..12], "CARD_ACTION") then None
    else
      var k := IndexOf(t[12..], ']');
      if k == 0 || 12 + k == |t| then None
      else Some(13 + k + LeadingSpaces(t[13 + k..]))
  }

  /** The run that a '[', a spelling of the keyword, a stretch without ']' and a ']' make. */
  lemma RunOf(w: string, x: string, rest: string)
    requires EqIgnoreCase(w, "CARD_ACTION") && x != [] && ']' !in x
    ensures RunAt("[" + w + x + "]" + rest) == Some(|x| + 13 + LeadingSpaces(rest))
  {
    var t := "[" + w + x + "]" + rest;
    assert t[1..12] == w;
    assert t[12..] == x + ("]" + rest);
    FirstAfter(x, ']', rest);
    assert t[13 + |x|..] == rest;
  }

  /** Conversely, `RunAt` finds a run only where '[', a spelling of the keyword, a
      non-empty stretch without ']' and a ']' stand, and gives the length of all that
      and of the whitespace after it. */
  lemma RunAtSound(t: string) returns (w: string, x: string, rest: string)
    requires RunAt(t).Some?
    ensures t == "[" + w + x + "]" + rest
    ensures EqIgnoreCase(w, "CARD_ACTION") && x != [] && ']' !in x
    ensures RunAt(t) == Some(|x| + 13 + LeadingSpaces(rest))
  {
    var k := IndexOf(t[12..], ']');
    w, x, rest := t[1..12], t[12..12 + k], t[13 + k..];
    assert t[12..][k] == ']';
    assert t == [t[0]] + w + x + [t[12 + k]] + rest;
    forall i | 0 <= i < |x| ensures x[i] != ']' {
      assert x[i] == t[12..][i];
    }
  }

  /** "[[" never starts a run: the keyword cannot begin with '['. */
  lemma NoRunAtDoubleBracket(t: string)
    requires |t| >= 2 && t[0] == '[' && t[1] == '['
    ensures RunAt(t).None?
  {
    assert Lower(t[1]) != Lower('C');
  }

  predicate NoRun(t: string) {
    forall k {:trigger RunAt(t[k..])} :: 0 <= k < |t| ==> RunAt(t[k..]).None?
  }

  /** One left-to-right pass of `re.sub`: every run found is dropped, scanning resumes
      after it, and every other character is kept. The result is never longer. */
  function StripTags(t: string): (r: string)
    ensures |r| <= |t|
    decreases |t|
  {
    if t == [] then []
    else
      match RunAt(t)
      case Some(n) => StripTags(t[n..])
      case None => [t[0]] + StripTags(t[1..])
  }

  /** The cleaner leaves a text unchanged exactly when no run starts anywhere in it. */
  lemma {:induction false} StripTagsUnchanged(t: string)
    ensures StripTags(t) == t <==> NoRun(t)
    decreases |t|
  {
    if t != [] {
      assert t[0..] == t;
      if RunAt(t).None? {
        StripTagsUnchanged(t[1..]);
        assert forall k :: 1 <= k < |t| ==> t[k..] == t[1..][k - 1..];
        if StripTags(t) == t {
          assert StripTags(t[1..]) == t[1..];
        }
      }
    }
  }

  /** The text shown to the user, before HTML escaping: no outer whitespace, and a
      reply in which no run starts comes back only trimmed. */
  function DisplayText(reply: string): (r: string)
    ensures NoOuterSpace(r) && |r| <= |reply|
    ensures NoRun(reply) ==> r == Strip(reply)
  {
    StripTagsUnchanged(reply);
    Strip(StripTags(reply))
  }

  /** What the handler takes from one reply: the text to show and the action to apply.
      The text has no outer whitespace, the action's verb, title and quantity are of the
      forms the pattern admits, and a reply without '[' is only trimmed and asks for
      nothing. */
  function Parse(reply: string): (r: (string, Option<Action>))
    ensures NoOuterSpace(r.0) && |r.0| <= |reply|
    ensures r.1.Some? ==>
              IsVerb(r.1.value.verb) && IsQuantity(r.1.value.quantity)
              && '|' !in r.1.value.title && NoOuterSpace(r.1.value.title)
    ensures '[' !in reply ==> r == (Strip(reply), None)
  {
    ParsedActionValid(reply);
    NoBracketNoAction(reply);
    PlainNoRun(reply);
    (DisplayText(reply), ParseAction(reply))
  }

  // ---------------------------------------------------------------------------
  // Properties of the parser

  /** A tag is matched only where a '[' stands. */
  lemma MatchNeedsBracket(t: string)
    requires |t| == 0 || t[0] != '['
    ensures Match(t).None?
  {
  }

  /** Only the first tag counts: when no tag starts at any position of the text `p`
      before it, the action is that of the tag written after `p`, whatever comes after
      it (further tags included). */
  lemma FirstTagWins(p: string, tag: TagText, rest: string)
    requires Valid(tag)
    requires forall k :: 0 <= k < |p| ==> TagAt((p + Written(tag, rest))[k..]).None?
    ensures ParseAction(p + Written(tag, rest)) == Some(ActionOf(tag))
  {
    var w := Written(tag, rest);
    var u := p + w;
    MatchWritten(tag, rest);
    assert u[|p|..] == w;
    assert Attempts(u)[|p|] == Some(tag);
    forall k | 0 <= k < |p| ensures Attempts(u)[k].None? {
      assert Attempts(u)[k] == TagAt(u[k..]);
    }
    FirstSuccess(Attempts(u), |p|);
  }

  /** In particular, text without '[' before a tag never hides it. */
  lemma FirstTagAfterPlainText(p: string, tag: TagText, rest: string)
    requires '[' !in p && Valid(tag)
    ensures ParseAction(p + Written(tag, rest)) == Some(ActionOf(tag))
  {
    var u := p + Written(tag, rest);
    PlainAttempts(p, Written(tag, rest));
    forall k | 0 <= k < |p| ensures TagAt(u[k..]).None? {
      assert Attempts(u)[k] == TagAt(u[k..]);
    }
    FirstTagWins(p, tag, rest);
  }

  /** Where no tag can start, every attempt fails, and the text after that is tried
      as it stands. */
  lemma PlainAttempts(p: string, w: string)
    requires '[' !in p
    ensures forall k :: 0 <= k < |p| ==> Attempts(p + w)[k].None?
    ensures Attempts(p + w)[|p|] == TagAt(w)
  {
    var s := p + w;
    assert s[|p|..] == w;
    forall k | 0 <= k < |p| ensures Attempts(s)[k].None? {
      assert s[k..][0] == p[k];
      MatchNeedsBracket(s[k..]);
    }
  }

  /** The search returns the first success. */
  lemma FirstSuccess<T>(attempts: seq<Option<T>>, i: nat)
    requires i < |attempts| && attempts[i].Some?
    requires forall k :: 0 <= k < i ==> attempts[k].None?
    ensures FindFirst(attempts, 0) == Some((i, attempts[i].value))
  {
  }

  /** A reply without '[' asks for no action. */
  lemma NoBracketNoAction(reply: string)
    ensures '[' !in reply ==> ParseAction(reply).None?
  {
    if '[' !in reply {
      var attempts := Attempts(reply);
      forall k | 0 <= k < |attempts| ensures attempts[k].None? {
        if k < |reply| {
          assert reply[k..][0] == reply[k];
        }
        MatchNeedsBracket(reply[k..]);
      }
    }
  }

  /** The title the handler uses: the captured one, which is already trimmed, or ""
      when the captured one is a single whitespace character. */
  lemma ActionTitle(tag: TagText)
    ensures Valid(tag) ==>
              && Strip(tag.field.title) == (if IsSpace(tag.field.title[0]) then [] else tag.field.title)
              && '|' !in Strip(tag.field.title)
  {
    if Valid(tag) {
      var m := tag.field.title;
      if IsSpace(m[0]) {
        assert m == [] + [] + m;
        StripPadded(m, [], []);
        assert m + [] + [] == m;
      } else {
        assert [] + m + [] == m;
        StripPadded([], m, []);
      }
    }
  }

  /** Text without '[' passes the cleaner untouched, in front of whatever follows it. */
  lemma {:induction false} StripTagsPlainPrefix(p: string, s: string)
    requires '[' !in p
    ensures StripTags(p + s) == p + StripTags(s)
  {
    if p == [] {
      assert p + s == s;
      assert p + StripTags(s) == StripTags(s);
    } else {
      var t := p + s;
      assert t[0] == p[0];
      assert t[1..] == p[1..] + s;
      assert '[' !in p[1..];
      StripTagsPlainPrefix(p[1..], s);
      PlainStep(t);
      assert p + StripTags(s) == [p[0]] + (p[1..] + StripTags(s));
    }
  }

  /** A character that cannot open a run is kept, and the cleaner moves on. */
  lemma PlainStep(t: string)
    requires t != [] && t[0] != '['
    ensures StripTags(t) == [t[0]] + StripTags(t[1..])
  {
    assert RunAt(t).None?;
  }

  /** Where no run starts, the character is kept and the cleaner moves on. */
  lemma KeepStep(t: string)
    requires t != [] && RunAt(t).None?
    ensures StripTags(t) == [t[0]] + StripTags(t[1..])
  {
  }

  /** Where a run starts, the cleaner drops it and goes on after it. */
  lemma DropStep(t: string, n: nat)
    requires RunAt(t) == Some(n)
    ensures StripTags(t) == StripTags(t[n..])
  {
  }

  /** In particular, text without '[' holds no run. */
  lemma PlainNoRun(t: string)
    ensures '[' !in t ==> NoRun(t) && StripTags(t) == t
  {
    if '[' !in t {
      StripTagsPlainPrefix(t, []);
      assert t + [] == t;
      StripTagsUnchanged(t);
    }
  }

  /** What stands between the '[' and the ']' of a written tag.

      This is the printer once more, grouped differently. `HeadText`, `FieldText` and
      `TailText` nest to the right around the text `k` that follows, so the matcher's
      round trips can peel one piece off at a time. The cleaner instead sees one stretch
      `[^\]]+` between '[' and ']', so here the pieces are joined flat, without `k`.
      `WrittenInner` proves the two groupings write the same text. */
  function Inner(tag: TagText): string {
    HeadInner(tag.head) + FieldInner(tag.field) + TailInner(tag.tail)
  }

  function HeadInner(h: Head): string {
    h.actionWord + h.sp0 + ":" + h.sp1 + h.verb + h.sp2 + "|" + h.sp3 + h.titleWord + h.sp4 + ":"
  }

  function FieldInner(f: TitleField): string {
    f.lead + f.title + f.trail + "|"
  }

  function TailInner(tl: Tail): string {
    tl.sp5 + tl.quantityWord + tl.sp6 + ":" + tl.sp7 + tl.quantity + tl.sp8
  }

  lemma WrittenInner(tag: TagText, rest: string)
    ensures Written(tag, rest) == "[" + Inner(tag) + ("]" + rest)
  {
    var a, b, c := HeadInner(tag.head), FieldInner(tag.field), TailInner(tag.tail);
    var k := "]" + rest;
    TailFlat(tag.tail, rest);
    FieldFlat(tag.field, c + k);
    HeadFlat(tag.head, b + (c + k));
    assert a + (b + (c + k)) == a + b + c + k;
  }

  lemma HeadFlat(h: Head, k: string)
    ensures HeadText(h, k) == "[" + HeadInner(h) + k
  {
  }

  lemma FieldFlat(f: TitleField, k: string)
    ensures FieldText(f, k) == FieldInner(f) + k
  {
  }

  lemma TailFlat(tl: Tail, k: string)
    ensures TailText(tl, k) == TailInner(tl) + ("]" + k)
  {
  }

  /** A word equal up to case to one without the character `c`, which is no letter,
      holds no `c` either. */
  lemma CharNotInWord(v: string, w: string, c: char)
    requires EqIgnoreCase(v, w) && c !in w && !IsUpper(c) && !('a' <= c <= 'z')
    ensures c !in v
  {
    forall i | 0 <= i < |v| ensures v[i] != c {
      assert Lower(v[i]) == Lower(w[i]);
    }
  }

  lemma NoCloseInSpace(sp: string)
    requires AllSpace(sp)
    ensures ']' !in sp
  {
  }

  lemma NoCloseInHead(h: Head)
    requires ValidHead(h)
    ensures ']' !in HeadInner(h) && |HeadInner(h)| > 11 && HeadInner(h)[..11] == h.actionWord
  {
    CharNotInWord(h.actionWord, "CARD_ACTION", ']');
    NoCloseInSpace(h.sp0);
    NoCloseInSpace(h.sp1);
    if EqIgnoreCase(h.verb, "ADD") {
      CharNotInWord(h.verb, "ADD", ']');
    } else {
      CharNotInWord(h.verb, "REMOVE", ']');
    }
    NoCloseInSpace(h.sp2);
    NoCloseInSpace(h.sp3);
    CharNotInWord(h.titleWord, "TITLE", ']');
    NoCloseInSpace(h.sp4);
  }

  lemma NoCloseInField(f: TitleField)
    requires ValidField(f) && ']' !in f.title
    ensures ']' !in FieldInner(f)
  {
    NoCloseInSpace(f.lead);
    NoCloseInSpace(f.trail);
  }

  lemma NoCloseInTail(tl: Tail)
    requires ValidTail(tl)
    ensures ']' !in TailInner(tl)
  {
    NoCloseInSpace(tl.sp5);
    CharNotInWord(tl.quantityWord, "QUANTITY", ']');
    NoCloseInSpace(tl.sp6);
    NoCloseInSpace(tl.sp7);
    if EqIgnoreCase(tl.quantity, "ALL") {
      CharNotInWord(tl.quantity, "ALL", ']');
    }
    NoCloseInSpace(tl.sp8);
  }

  lemma NoCloseInInner(tag: TagText)
    requires Valid(tag) && ']' !in tag.field.title
    ensures ']' !in Inner(tag) && |Inner(tag)| > 11
    ensures Inner(tag)[..11] == tag.head.actionWord
  {
    NoCloseInHead(tag.head);
    NoCloseInField(tag.field);
    NoCloseInTail(tag.tail);
    var a := HeadInner(tag.head);
    assert Inner(tag) == a + (FieldInner(tag.field) + TailInner(tag.tail));
    assert Inner(tag)[..11] == a[..11];
  }

  /** A tag whose title holds no ']' is one run for the cleaner, which drops it together
      with the whitespace after it. */
  lemma TagRemoved(tag: TagText, rest: string)
    requires Valid(tag) && ']' !in tag.field.title
    ensures StripTags(Written(tag, rest)) == StripTags(TrimStart(rest))
  {
    var x := TagWritten(tag, rest);
    RunDropped(tag.head.actionWord, x, rest);
  }

  /** The cleaner drops a run and the whitespace after it, and goes on after them. */
  lemma RunDropped(w: string, x: string, rest: string)
    requires EqIgnoreCase(w, "CARD_ACTION") && x != [] && ']' !in x
    ensures StripTags("[" + w + x + "]" + rest) == StripTags(TrimStart(rest))
  {
    RunOf(w, x, rest);
    var t := "[" + w + x + "]" + rest;
    var n := |x| + 13 + LeadingSpaces(rest);
    DropStep(t, n);
    assert t[|x| + 13..] == rest;
    assert t[n..] == TrimStart(rest);
  }

  /** A written tag is its keyword and a stretch without ']' between '[' and ']'. */
  lemma TagWritten(tag: TagText, rest: string) returns (x: string)
    requires Valid(tag) && ']' !in tag.field.title
    ensures x != [] && ']' !in x
    ensures Written(tag, rest) == "[" + tag.head.actionWord + x + "]" + rest
  {
    var inner := Inner(tag);
    WrittenInner(tag, rest);
    NoCloseInInner(tag);
    x := inner[11..];
    assert inner == tag.head.actionWord + x;
    forall i | 0 <= i < |x| ensures x[i] != ']' {
      assert x[i] == inner[11 + i];
    }
    Regroup("[", tag.head.actionWord, x, "]", rest);
  }

  lemma Regroup(a: string, b: string, c: string, d: string, e: string)
    ensures a + (b + c) + (d + e) == a + b + c + d + e
  {
  }

  // ---------------------------------------------------------------------------
  // The tag as the agent is told to write it

  /** The tag as the agent is told to write it, with nothing between the pieces. */
  function TagOf(verb: string, title: string, quantity: string): string {
    "[CARD_ACTION:" + verb + "|TITLE:" + title + "|QUANTITY:" + quantity + "]"
  }

  /** The parse tree of `TagOf(verb, lead + title, quantity)`. */
  function TreeOf(verb: string, lead: string, title: string, quantity: string): TagText {
    TagText(Head("CARD_ACTION", "", "", verb, "", "", "TITLE", ""),
            TitleField(lead, title, []), Tail("", "QUANTITY", "", "", quantity, ""))
  }

  lemma TreeWritten(verb: string, lead: string, title: string, quantity: string, rest: string)
    ensures Written(TreeOf(verb, lead, title, quantity), rest) == TagOf(verb, lead + title, quantity) + rest
  {
    var tag := TreeOf(verb, lead, title, quantity);
    var k := "QUANTITY:" + quantity + "]" + rest;
    PlainTailFlat(quantity, rest);
    PlainFieldFlat(lead, title, k);
    var m := lead + (title + ("|" + k));
    PlainHeadFlat(verb, m);
    TagOfFlat(verb, lead, title, quantity, rest);
  }

  lemma PlainFieldFlat(lead: string, title: string, k: string)
    ensures FieldText(TitleField(lead, title, []), k) == lead + (title + ("|" + k))
  {
    assert [] + ("|" + k) == "|" + k;
  }

  lemma TagOfFlat(verb: string, lead: string, title: string, quantity: string, rest: string)
    ensures "[CARD_ACTION:" + verb + "|TITLE:" + (lead + (title + ("|" + ("QUANTITY:" + quantity + "]" + rest))))
            == TagOf(verb, lead + title, quantity) + rest
  {
  }

  lemma PlainHeadFlat(verb: string, m: string)
    ensures HeadText(Head("CARD_ACTION", "", "", verb, "", "", "TITLE", ""), m)
            == "[CARD_ACTION:" + verb + "|TITLE:" + m
  {
    var s4 := ":" + m;
    var s3 := "TITLE" + s4;
    var s2 := "|" + s3;
    var s1 := verb + s2;
    var s0 := ":" + s1;
    assert "" + s4 == s4 && "" + s3 == s3 && "" + s2 == s2 && "" + s1 == s1 && "" + s0 == s0;
    assert "[" + ("CARD_ACTION" + s0) == "[CARD_ACTION:" + s1;
    assert s1 == verb + "|TITLE:" + m;
  }

  lemma PlainTailFlat(quantity: string, rest: string)
    ensures TailText(Tail("", "QUANTITY", "", "", quantity, ""), rest)
            == "QUANTITY:" + quantity + "]" + rest
  {
    var s3 := "]" + rest;
    var s2 := quantity + s3;
    var s1 := ":" + s2;
    var s0 := "QUANTITY" + s1;
    assert "" + s3 == s3 && "" + s2 == s2 && "" + s1 == s1 && "" + s0 == s0;
    assert s0 == "QUANTITY:" + s2;
  }

  /** The everyday tag yields its verb, title and quantity as written, in whatever case
      they were written, whatever follows it. */
  lemma PlainTag(verb: string, title: string, quantity: string, rest: string)
    requires IsVerb(verb) && IsQuantity(quantity)
    requires title != [] && NoOuterSpace(title) && '|' !in title
    ensures ParseAction(TagOf(verb, title, quantity) + rest) == Some(Action(verb, title, quantity))
  {
    var tag := TreeOf(verb, [], title, quantity);
    TreeWritten(verb, [], title, quantity, rest);
    assert [] + title == title;
    assert [] + Written(tag, rest) == TagOf(verb, title, quantity) + rest;
    assert Valid(tag);
    FirstTagAfterPlainText([], tag, rest);
    assert !IsSpace(tag.field.title[0]);
    assert ActionOf(tag) == Action(verb, title, quantity);
  }
}
