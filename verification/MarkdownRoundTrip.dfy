/** Whether the two converters of internal/chatwoot/mapper/content.go undo each other.

    The restore calls look for placeholders by plain substring search. A plain text between two
    placeholders that reads like a placeholder key is itself found, closed off by the NUL of
    the one before and the NUL of the one after. `Apart` rules that out and nothing more, and
    RoundTripsExactlyWhenApart shows that it decides the round trip. */
module MarkdownRoundTrip {
  import opened Text
  import opened Markdown

  // ---- One substitution over a concatenation ------------------------------------------------

  predicate NoNul(t: string) {
    NUL !in t
  }

  function Placeholder(key: string): string {
    [NUL] + (key + [NUL])
  }

  lemma {:induction false} SubSkip(t: string, rest: string, key: string, text: string)
    requires NoNul(t)
    ensures Substituted(t + rest, Placeholder(key), text) == t + Substituted(rest, Placeholder(key), text)
  {
    if t == "" {
      assert t + rest == rest;
    } else {
      var s := t + rest;
      SubSkip(t[1..], rest, key, text);
      assert s[1..] == t[1..] + rest;
      assert s[0] != NUL && Placeholder(key)[0] == NUL;
      assert t + Substituted(rest, Placeholder(key), text) == [t[0]] + (t[1..] + Substituted(rest, Placeholder(key), text));
    }
  }

  lemma SubHit(rest: string, key: string, text: string)
    ensures Substituted(Placeholder(key) + rest, Placeholder(key), text)
         == text + Substituted(rest, Placeholder(key), text)
  {
  }

  lemma SubMiss(s: string, key: string, text: string)
    requires s != "" && !(Placeholder(key) <= s)
    ensures Substituted(s, Placeholder(key), text) == [s[0]] + Substituted(s[1..], Placeholder(key), text)
  {
  }

  /** After a NUL, the key is found exactly when it is spelled out up to the next NUL. */
  lemma LabelAhead(key: string, t: string, rest: string)
    requires Plain(key) && Plain(t)
    requires rest == "" || rest[0] in {NUL, '*', '_', '~'}
    ensures Placeholder(key) <= [NUL] + (t + rest) <==> t == key && rest != "" && rest[0] == NUL
  {
    var p, s := Placeholder(key), [NUL] + (t + rest);
    assert p[|key| + 1] == NUL;
    assert forall i :: 0 <= i < |key| ==> p[i + 1] == key[i];
    assert forall i :: 0 <= i < |t| ==> s[i + 1] == t[i];
    assert rest != "" ==> s[|t| + 1] == rest[0];
    assert |key| < |t| ==> s[|key| + 1] == t[|key|];
    assert |t| < |key| ==> p[|t| + 1] == key[|t|];
    if p <= s {
      assert forall i :: 0 <= i < |p| ==> p[i] == s[i];
      assert |t| == |key|;
      assert forall i :: 0 <= i < |t| ==> t[i] == s[i + 1] == p[i + 1] == key[i];
    }
  }

  // ---- Texts beyond repair ------------------------------------------------------------------

  /** Some mark stands inside a placeholder: after an odd number of NULs. */
  predicate Broken(s: string, inside: bool) {
    s != "" &&
    if s[0] == NUL then Broken(s[1..], !inside)
    else (inside && s[0] in {'*', '~'}) || Broken(s[1..], inside)
  }

  predicate IsNul(s: string) {
    s != "" && s[0] == NUL
  }

  lemma {:induction false} BrokenHasNul(s: string)
    requires Broken(s, false)
    ensures NUL in s
  {
    if s[0] != NUL {
      BrokenHasNul(s[1..]);
    }
  }

  lemma {:induction false} BrokenBehind(t: string, rest: string, inside: bool)
    requires NoNul(t) && Broken(rest, inside)
    ensures Broken(t + rest, inside)
  {
    if t == "" {
      assert t + rest == rest;
    } else {
      BrokenBehind(t[1..], rest, inside);
      assert (t + rest)[1..] == t[1..] + rest;
    }
  }

  lemma {:induction false} BrokenBeyond(t: string, rest: string, inside: bool)
    requires Plain(t) && Broken(t + rest, inside)
    ensures Broken(rest, inside)
  {
    if t == "" {
      assert t + rest == rest;
    } else {
      assert (t + rest)[1..] == t[1..] + rest;
      BrokenBeyond(t[1..], rest, inside);
    }
  }

  lemma BrokenPastToken(key: string, rest: string, inside: bool)
    requires Plain(key) && Broken(Placeholder(key) + rest, inside)
    ensures Broken(rest, inside)
  {
    var s := Placeholder(key) + rest;
    assert s[1..] == key + ([NUL] + rest);
    BrokenBeyond(key, [NUL] + rest, !inside);
    assert ([NUL] + rest)[1..] == rest;
  }

  lemma BrokenBehindToken(key: string, rest: string)
    requires Plain(key) && Broken(rest, false)
    ensures Broken(Placeholder(key) + rest, false)
  {
    assert ([NUL] + rest)[1..] == rest;
    BrokenBehind(key, [NUL] + rest, true);
    assert (Placeholder(key) + rest)[1..] == key + ([NUL] + rest);
  }

  /** No later substitution puts a broken text right. */
  lemma {:induction false} BrokenStays(s: string, key: string, text: string, inside: bool)
    requires Plain(key) && NoNul(text) && Broken(s, inside)
    ensures Broken(Substituted(s, Placeholder(key), text), inside)
    decreases |s|
  {
    var token := Placeholder(key);
    if token <= s {
      var rest := s[|token|..];
      assert s == token + rest;
      BrokenPastToken(key, rest, inside);
      BrokenStays(rest, key, text, inside);
      BrokenBehind(text, Substituted(rest, token, text), inside);
    } else {
      SubMiss(s, key, text);
      var after := [s[0]] + Substituted(s[1..], token, text);
      assert after[1..] == Substituted(s[1..], token, text);
      if s[0] == NUL {
        BrokenStays(s[1..], key, text, !inside);
      } else if !(inside && s[0] in {'*', '~'}) {
        BrokenStays(s[1..], key, text, inside);
      }
    }
  }

  lemma {:induction false} RestoreStaysBroken(s: string, tag: char, inners: seq<string>, mark: string, i: nat)
    requires tag in {'B', 'S'} && i <= |inners| && NoNul(mark) && (forall t :: t in inners ==> NoNul(t)) && Broken(s, false)
    ensures Broken(Restored(s, tag, inners, mark, i), false)
    decreases |inners| - i
  {
    if i < |inners| {
      LabelIsPlain(tag, i);
      assert inners[i] in inners && NoNul(mark + (inners[i] + mark));
      BrokenStays(s, Label(tag, i), mark + (inners[i] + mark), false);
      RestoreStaysBroken(Substituted(s, Token(tag, i), mark + (inners[i] + mark)), tag, inners, mark, i + 1);
    }
  }

  // ---- One placeholder restored ---------------------------------------------------------------

  lemma Unshift(x: string, tail: string)
    ensures Placeholder(x) + tail == [NUL] + (x + ([NUL] + tail))
  {
  }

  lemma OtherToken(x: string, key: string, tail: string, text: string)
    requires Plain(x) && Plain(key) && x != key
    ensures Substituted(Placeholder(x) + tail, Placeholder(key), text)
         == [NUL] + (x + Substituted([NUL] + tail, Placeholder(key), text))
  {
    var e := [NUL] + tail;
    var s := [NUL] + (x + e);
    Unshift(x, tail);
    LabelAhead(key, x, e);
    SubMiss(s, key, text);
    assert s[1..] == x + e;
    SubSkip(x, e, key, text);
  }

  /** The closing NUL of another placeholder opens no match here. */
  lemma TokenKept(x: string, key: string, gap: string, rest: string, text: string)
    requires Plain(x) && Plain(key) && Plain(gap) && x != key && !(gap == key && IsNul(rest))
    requires rest == "" || rest[0] in {NUL, '*', '_', '~'}
    ensures Substituted(Placeholder(x) + (gap + rest), Placeholder(key), text)
         == Placeholder(x) + (gap + Substituted(rest, Placeholder(key), text))
  {
    var e, token := [NUL] + (gap + rest), Placeholder(key);
    OtherToken(x, key, gap + rest, text);
    LabelAhead(key, gap, rest);
    SubMiss(e, key, text);
    assert e[1..] == gap + rest;
    SubSkip(gap, rest, key, text);
    Unshift(x, gap + Substituted(rest, token, text));
  }

  /** A gap that reads like the key is torn out together with a NUL of both its neighbours. */
  lemma TokenTorn(x: string, key: string, rest: string, text: string)
    requires Plain(x) && Plain(key) && x != key && IsNul(rest) && text != "" && text[0] in {'*', '~'}
    ensures Broken(Substituted(Placeholder(x) + (key + rest), Placeholder(key), text), false)
  {
    var e, token := [NUL] + (key + rest), Placeholder(key);
    OtherToken(x, key, key + rest, text);
    assert e == token + rest[1..];
    SubHit(rest[1..], key, text);
    var torn := text + Substituted(rest[1..], token, text);
    assert Broken(torn, true);
    BrokenBehind(x, torn, true);
    assert ([NUL] + (x + torn))[1..] == x + torn;
  }

  /** No span that will be a placeholder is followed by a text that reads like the key and then
      by another placeholder. */
  predicate Apart(items: seq<Item>, nb: nat, ns: nat, key: string, st: Style) {
    |items| >= 2 ==>
      var (item, nb', ns') := (items[0], AfterBold(items[0], nb), AfterStrike(items[0], ns));
      && !(IsToken(item, nb, ns, st) && LabelOf(item, nb, ns) != key && item.gap == key && IsToken(items[1], nb', ns', st))
      && Apart(items[1..], nb', ns', key, st)
  }

  /** The span the key stands for has this inner text. */
  predicate Named(items: seq<Item>, nb: nat, ns: nat, key: string, inner: string, st: Style) {
    items != [] ==>
      && (IsToken(items[0], nb, ns, st) && LabelOf(items[0], nb, ns) == key ==> items[0].inner == inner)
      && Named(items[1..], AfterBold(items[0], nb), AfterStrike(items[0], ns), key, inner, st)
  }

  /** From one style to the next exactly the span with the key gets its marks. */
  ghost predicate Restores(item: Item, nb: nat, ns: nat, key: string, mark: string, from: Style, to: Style) {
    if IsToken(item, nb, ns, from) && LabelOf(item, nb, ns) == key then
      Shown(item, nb, ns, to) == mark + (item.inner + mark)
    else
      Shown(item, nb, ns, to) == Shown(item, nb, ns, from)
  }

  ghost predicate StageRestores(key: string, mark: string, from: Style, to: Style) {
    && Plain(key) && mark in {"*", "~"} && from.bold == "*" && from.italic == "_" && from.strike == "~"
    && forall item: Item, nb: nat, ns: nat :: Restores(item, nb, ns, key, mark, from, to)
  }

  lemma StageItem(item: Item, nb: nat, ns: nat, rest: string, key: string, mark: string, inner: string, from: Style, to: Style)
    requires Clean(item.inner) && Plain(item.gap) && Clean(inner) && StageRestores(key, mark, from, to)
    requires IsToken(item, nb, ns, from) && LabelOf(item, nb, ns) == key ==> item.inner == inner
    requires rest == "" || rest[0] in {NUL, '*', '_', '~'}
    requires !(IsToken(item, nb, ns, from) && LabelOf(item, nb, ns) != key && item.gap == key && IsNul(rest))
    ensures var (token, text) := (Placeholder(key), mark + (inner + mark));
      Substituted(Shown(item, nb, ns, from) + (item.gap + rest), token, text)
      == Shown(item, nb, ns, to) + (item.gap + Substituted(rest, token, text))
  {
    var text := mark + (inner + mark);
    assert Restores(item, nb, ns, key, mark, from, to);
    if !IsToken(item, nb, ns, from) {
      SubSkip(Shown(item, nb, ns, from), item.gap + rest, key, text);
      SubSkip(item.gap, rest, key, text);
    } else if LabelOf(item, nb, ns) == key {
      SubHit(item.gap + rest, key, text);
      SubSkip(item.gap, rest, key, text);
    } else {
      LabelOfIsPlain(item, nb, ns);
      TokenKept(LabelOf(item, nb, ns), key, item.gap, rest, text);
    }
  }

  lemma LabelOfIsPlain(item: Item, nb: nat, ns: nat)
    ensures Plain(LabelOf(item, nb, ns))
  {
    LabelIsPlain('B', nb);
    LabelIsPlain('S', ns);
  }

  lemma RenderHead(items: seq<Item>, nb: nat, ns: nat, st: Style)
    requires st.bold == "*" && st.italic == "_" && st.strike == "~"
    ensures var s := Render(items, nb, ns, st);
      && (s == "" <==> items == []) && (s == "" || s[0] in {NUL, '*', '_', '~'})
      && (IsNul(s) <==> items != [] && IsToken(items[0], nb, ns, st))
  {
  }

  lemma BrokenBehindItem(item: Item, nb: nat, ns: nat, rest: string, st: Style)
    requires NoNul(item.inner) && NoNul(item.gap) && NoNul(MarkOf(item, st)) && Broken(rest, false)
    ensures Broken(Shown(item, nb, ns, st) + (item.gap + rest), false)
  {
    BrokenBehind(item.gap, rest, false);
    if IsToken(item, nb, ns, st) {
      LabelOfIsPlain(item, nb, ns);
      BrokenBehindToken(LabelOf(item, nb, ns), item.gap + rest);
    } else {
      BrokenBehind(Shown(item, nb, ns, st), item.gap + rest, false);
    }
  }

  /** Restoring one placeholder restores its span, or breaks the text for good. */
  lemma {:induction false} Stage(items: seq<Item>, nb: nat, ns: nat, key: string, mark: string, inner: string, from: Style, to: Style)
    requires Valid(items) && Clean(inner) && StageRestores(key, mark, from, to) && Named(items, nb, ns, key, inner, from)
    requires to.bold == "*" && to.italic == "_" && to.strike == "~"
    ensures var z := Substituted(Render(items, nb, ns, from), Placeholder(key), mark + (inner + mark));
      if Apart(items, nb, ns, key, from) then z == Render(items, nb, ns, to) else Broken(z, false)
  {
    if items != [] {
      var item, tail, text := items[0], items[1..], mark + (inner + mark);
      var (nb', ns') := (AfterBold(item, nb), AfterStrike(item, ns));
      var rest := Render(tail, nb', ns', from);
      RenderHead(tail, nb', ns', from);
      if IsToken(item, nb, ns, from) && LabelOf(item, nb, ns) != key && item.gap == key && IsNul(rest) {
        LabelOfIsPlain(item, nb, ns);
        TokenTorn(LabelOf(item, nb, ns), key, rest, text);
      } else {
        StageItem(item, nb, ns, rest, key, mark, inner, from, to);
        Stage(tail, nb', ns', key, mark, inner, from, to);
        if !Apart(tail, nb', ns', key, from) {
          BrokenBehindItem(item, nb, ns, Substituted(rest, Placeholder(key), text), to);
        }
      }
    }
  }

  // ---- All of them ----------------------------------------------------------------------------

  lemma LabelsDiffer(tag: char, a: nat, tag': char, b: nat)
    ensures Label(tag, a) == Label(tag', b) <==> tag == tag' && a == b
  {
    if Label(tag, a) == Label(tag', b) {
      assert Label(tag, a)[1..] == Decimal(a) && Label(tag', b)[1..] == Decimal(b);
      DecimalIsInjective(a, b);
    }
  }

  function From(boldFrom: int, strikeFrom: int): Style {
    Style("*", "_", "~", boldFrom, strikeFrom)
  }

  lemma BoldRestores(k: nat)
    ensures StageRestores(Label('B', k), "*", From(k, 0), From(k + 1, 0))
  {
    LabelIsPlain('B', k);
    var key, from, to := Label('B', k), From(k, 0), From(k + 1, 0);
    forall item: Item, nb: nat, ns: nat
      ensures Restores(item, nb, ns, key, "*", from, to)
    {
      LabelsDiffer('B', nb, 'B', k);
      LabelsDiffer('S', ns, 'B', k);
    }
  }

  lemma StrikeRestores(b: nat, k: nat)
    ensures StageRestores(Label('S', k), "~", From(b, k), From(b, k + 1))
  {
    LabelIsPlain('S', k);
    var key, from, to := Label('S', k), From(b, k), From(b, k + 1);
    forall item: Item, nb: nat, ns: nat
      ensures Restores(item, nb, ns, key, "~", from, to)
    {
      LabelsDiffer('B', nb, 'S', k);
      LabelsDiffer('S', ns, 'S', k);
    }
  }

  lemma {:induction false} NamedBold(items: seq<Item>, nb: nat, ns: nat, k: nat, inner: string, st: Style)
    requires nb <= k < nb + |InnersOf(items, {Bold})| ==> InnersOf(items, {Bold})[k - nb] == inner
    ensures Named(items, nb, ns, Label('B', k), inner, st)
  {
    if items != [] {
      LabelsDiffer('B', nb, 'B', k);
      LabelsDiffer('S', ns, 'B', k);
      NamedBold(items[1..], AfterBold(items[0], nb), AfterStrike(items[0], ns), k, inner, st);
    }
  }

  lemma {:induction false} NamedStrike(items: seq<Item>, nb: nat, ns: nat, k: nat, inner: string, st: Style)
    requires ns <= k < ns + |InnersOf(items, {Strike})| ==> InnersOf(items, {Strike})[k - ns] == inner
    ensures Named(items, nb, ns, Label('S', k), inner, st)
  {
    if items != [] {
      LabelsDiffer('B', nb, 'S', k);
      LabelsDiffer('S', ns, 'S', k);
      NamedStrike(items[1..], AfterBold(items[0], nb), AfterStrike(items[0], ns), k, inner, st);
    }
  }

  lemma {:induction false} InnersAreClean(items: seq<Item>, hits: set<Kind>)
    requires Valid(items)
    ensures forall t :: t in InnersOf(items, hits) ==> Clean(t)
  {
    if items != [] {
      InnersAreClean(items[1..], hits);
    }
  }

  /** While bold spans come back, strikes are placeholders still; afterwards no bold span is one. */
  predicate BoldApart(items: seq<Item>, k: nat) {
    Apart(items, 0, 0, Label('B', k), From(k, 0))
  }

  predicate StrikeApart(items: seq<Item>, k: nat) {
    Apart(items, 0, 0, Label('S', k), From(|InnersOf(items, {Bold})|, k))
  }

  predicate BoldsApart(items: seq<Item>, from: nat) {
    forall k :: from <= k < |InnersOf(items, {Bold})| ==> BoldApart(items, k)
  }

  predicate StrikesApart(items: seq<Item>, from: nat) {
    forall k :: from <= k < |InnersOf(items, {Strike})| ==> StrikeApart(items, k)
  }

  predicate AllApart(items: seq<Item>) {
    BoldsApart(items, 0) && StrikesApart(items, 0)
  }

  lemma LeadStage(lead: string, items: seq<Item>, tag: char, k: nat, mark: string, inner: string, from: Style, to: Style)
    requires Plain(lead) && Valid(items) && Clean(inner) && StageRestores(Label(tag, k), mark, from, to)
    requires Named(items, 0, 0, Label(tag, k), inner, from) && to.bold == "*" && to.italic == "_" && to.strike == "~"
    ensures var z := Substituted(lead + Render(items, 0, 0, from), Token(tag, k), mark + (inner + mark));
      if Apart(items, 0, 0, Label(tag, k), from) then z == lead + Render(items, 0, 0, to) else Broken(z, false)
  {
    var key, text, r := Label(tag, k), mark + (inner + mark), Render(items, 0, 0, from);
    SubSkip(lead, r, key, text);
    Stage(items, 0, 0, key, mark, inner, from, to);
    if !Apart(items, 0, 0, key, from) {
      BrokenBehind(lead, Substituted(r, Placeholder(key), text), false);
    }
  }

  /** The text with the bold spans before b and the strike spans before k restored. */
  function Half(lead: string, items: seq<Item>, b: nat, k: nat): string {
    lead + Render(items, 0, 0, From(b, k))
  }

  lemma BoldStage(lead: string, items: seq<Item>, k: nat)
    requires Plain(lead) && Valid(items) && k < |InnersOf(items, {Bold})|
    ensures var inner := InnersOf(items, {Bold})[k];
      var z := Substituted(Half(lead, items, k, 0), Token('B', k), "*" + (inner + "*"));
      if BoldApart(items, k) then z == Half(lead, items, k + 1, 0) else Broken(z, false)
  {
    var inner := InnersOf(items, {Bold})[k];
    InnersAreClean(items, {Bold});
    BoldRestores(k);
    NamedBold(items, 0, 0, k, inner, From(k, 0));
    LeadStage(lead, items, 'B', k, "*", inner, From(k, 0), From(k + 1, 0));
  }

  lemma StrikeStage(lead: string, items: seq<Item>, k: nat)
    requires Plain(lead) && Valid(items) && k < |InnersOf(items, {Strike})|
    ensures var (inner, b) := (InnersOf(items, {Strike})[k], |InnersOf(items, {Bold})|);
      var z := Substituted(Half(lead, items, b, k), Token('S', k), "~" + (inner + "~"));
      if StrikeApart(items, k) then z == Half(lead, items, b, k + 1) else Broken(z, false)
  {
    var inner, b := InnersOf(items, {Strike})[k], |InnersOf(items, {Bold})|;
    InnersAreClean(items, {Strike});
    StrikeRestores(b, k);
    NamedStrike(items, 0, 0, k, inner, From(b, k));
    LeadStage(lead, items, 'S', k, "~", inner, From(b, k), From(b, k + 1));
  }

  ghost predicate RestoresOrBreaks(s: string, tag: char, inners: seq<string>, mark: string, i: nat, apart: bool, whole: string)
    requires i <= |inners|
  {
    var z := Restored(s, tag, inners, mark, i);
    if apart then z == whole else Broken(z, false)
  }

  lemma ChainStep(s: string, next: string, tag: char, inners: seq<string>, mark: string, i: nat,
                  here: bool, later: bool, whole: string)
    requires tag in {'B', 'S'} && i < |inners| && NoNul(mark) && (forall t :: t in inners ==> NoNul(t))
    requires var z := Substituted(s, Token(tag, i), mark + (inners[i] + mark));
      if here then z == next else Broken(z, false)
    requires here ==> RestoresOrBreaks(next, tag, inners, mark, i + 1, later, whole)
    ensures RestoresOrBreaks(s, tag, inners, mark, i, here && later, whole)
  {
    if !here {
      RestoreStaysBroken(Substituted(s, Token(tag, i), mark + (inners[i] + mark)), tag, inners, mark, i + 1);
    }
  }

  /** From the k-th span on, restoring the bold placeholders gives back the text or breaks it. */
  ghost predicate BoldsRestored(lead: string, items: seq<Item>, k: nat)
    requires k <= |InnersOf(items, {Bold})|
  {
    var bolds := InnersOf(items, {Bold});
    RestoresOrBreaks(Half(lead, items, k, 0), 'B', bolds, "*", k, BoldsApart(items, k), Half(lead, items, |bolds|, 0))
  }

  lemma BoldLink(lead: string, items: seq<Item>, k: nat)
    requires Plain(lead) && Valid(items) && k < |InnersOf(items, {Bold})| && BoldsRestored(lead, items, k + 1)
    ensures BoldsRestored(lead, items, k)
  {
    var bolds := InnersOf(items, {Bold});
    BoldStage(lead, items, k);
    InnersAreClean(items, {Bold});
    ChainStep(Half(lead, items, k, 0), Half(lead, items, k + 1, 0), 'B', bolds, "*", k,
              BoldApart(items, k), BoldsApart(items, k + 1), Half(lead, items, |bolds|, 0));
    assert BoldsApart(items, k) <==> BoldApart(items, k) && BoldsApart(items, k + 1);
  }

  lemma {:induction false} BoldChain(lead: string, items: seq<Item>, k: nat)
    requires Plain(lead) && Valid(items) && k <= |InnersOf(items, {Bold})|
    ensures BoldsRestored(lead, items, k)
    decreases |InnersOf(items, {Bold})| - k
  {
    if k < |InnersOf(items, {Bold})| {
      BoldChain(lead, items, k + 1);
      BoldLink(lead, items, k);
    }
  }

  ghost predicate StrikesRestored(lead: string, items: seq<Item>, k: nat)
    requires k <= |InnersOf(items, {Strike})|
  {
    var (strikes, b) := (InnersOf(items, {Strike}), |InnersOf(items, {Bold})|);
    RestoresOrBreaks(Half(lead, items, b, k), 'S', strikes, "~", k, StrikesApart(items, k), Half(lead, items, b, |strikes|))
  }

  lemma StrikeLink(lead: string, items: seq<Item>, k: nat)
    requires Plain(lead) && Valid(items) && k < |InnersOf(items, {Strike})| && StrikesRestored(lead, items, k + 1)
    ensures StrikesRestored(lead, items, k)
  {
    var strikes, b := InnersOf(items, {Strike}), |InnersOf(items, {Bold})|;
    StrikeStage(lead, items, k);
    InnersAreClean(items, {Strike});
    ChainStep(Half(lead, items, b, k), Half(lead, items, b, k + 1), 'S', strikes, "~", k,
              StrikeApart(items, k), StrikesApart(items, k + 1), Half(lead, items, b, |strikes|));
    assert StrikesApart(items, k) <==> StrikeApart(items, k) && StrikesApart(items, k + 1);
  }

  lemma {:induction false} StrikeChain(lead: string, items: seq<Item>, k: nat)
    requires Plain(lead) && Valid(items) && k <= |InnersOf(items, {Strike})|
    ensures StrikesRestored(lead, items, k)
    decreases |InnersOf(items, {Strike})| - k
  {
    if k < |InnersOf(items, {Strike})| {
      StrikeChain(lead, items, k + 1);
      StrikeLink(lead, items, k);
    }
  }

  lemma {:induction false} NoTokensLeft(items: seq<Item>, nb: nat, ns: nat, b: nat, s: nat)
    requires Valid(items) && nb + |InnersOf(items, {Bold})| <= b && ns + |InnersOf(items, {Strike})| <= s
    ensures Render(items, nb, ns, From(b, s)) == Render(items, nb, ns, From(NEVER, NEVER))
    ensures NoNul(Render(items, nb, ns, From(NEVER, NEVER)))
  {
    if items != [] {
      NoTokensLeft(items[1..], AfterBold(items[0], nb), AfterStrike(items[0], ns), b, s);
    }
  }

  lemma BothChains(lead: string, items: seq<Item>)
    requires Plain(lead) && Valid(items)
    ensures var (bolds, strikes) := (InnersOf(items, {Bold}), InnersOf(items, {Strike}));
      var z := Restored(Half(lead, items, 0, 0), 'B', bolds, "*", 0);
      RestoresOrBreaks(z, 'S', strikes, "~", 0, AllApart(items), Half(lead, items, |bolds|, |strikes|))
  {
    var bolds, strikes := InnersOf(items, {Bold}), InnersOf(items, {Strike});
    BoldChain(lead, items, 0);
    if BoldsApart(items, 0) {
      StrikeChain(lead, items, 0);
    } else {
      InnersAreClean(items, {Strike});
      RestoreStaysBroken(Restored(Half(lead, items, 0, 0), 'B', bolds, "*", 0), 'S', strikes, "~", 0);
    }
  }

  lemma WrittenIsWhole(lead: string, items: seq<Item>)
    requires Plain(lead) && Valid(items)
    ensures var s := Written(lead, items, "*", "_", "~");
      NoNul(s) && s == Half(lead, items, |InnersOf(items, {Bold})|, |InnersOf(items, {Strike})|)
  {
    NoTokensLeft(items, 0, 0, |InnersOf(items, {Bold})|, |InnersOf(items, {Strike})|);
  }

  /** WhatsApp text sent to Chatwoot and back is the same text if and only if no plain text in it
      can be taken for a placeholder. */
  lemma RoundTripsExactlyWhenApart(lead: string, items: seq<Item>)
    requires Plain(lead) && Valid(items)
    ensures var s := Written(lead, items, "*", "_", "~");
      ToWhatsApp(ToChatwoot(s)) == s <==> AllApart(items)
  {
    ToChatwootMeans(lead, items);
    ToWhatsAppMeans(lead, items);
    BothChains(lead, items);
    WrittenIsWhole(lead, items);
    assert Shielded(lead, items, 0, 0, "*", "_") == Half(lead, items, 0, 0);
    if !AllApart(items) {
      BrokenHasNul(ToWhatsApp(ToChatwoot(Written(lead, items, "*", "_", "~"))));
    }
  }

  lemma {:induction false} UnlikeGapsAreApart(items: seq<Item>, nb: nat, ns: nat, key: string, st: Style)
    requires forall item :: item in items ==> item.gap != key
    ensures Apart(items, nb, ns, key, st)
  {
    if |items| >= 2 {
      UnlikeGapsAreApart(items[1..], AfterBold(items[0], nb), AfterStrike(items[0], ns), key, st);
    }
  }

  /** B or S and nothing but digits. */
  predicate ReadsLikeLabel(gap: string) {
    |gap| >= 2 && gap[0] in {'B', 'S'} && forall c :: c in gap[1..] ==> IsDigit(c)
  }

  lemma LabelReadsLikeOne(tag: char, k: nat)
    requires tag in {'B', 'S'}
    ensures ReadsLikeLabel(Label(tag, k))
  {
    DecimalIsDigits(k);
    assert Label(tag, k)[1..] == Decimal(k);
  }

  lemma UnlikeGapsAreAllApart(items: seq<Item>)
    requires forall item :: item in items ==> !ReadsLikeLabel(item.gap)
    ensures AllApart(items)
  {
    var b := |InnersOf(items, {Bold})|;
    forall k: nat
      ensures BoldApart(items, k) && StrikeApart(items, k)
    {
      LabelReadsLikeOne('B', k);
      LabelReadsLikeOne('S', k);
      UnlikeGapsAreApart(items, 0, 0, Label('B', k), From(k, 0));
      UnlikeGapsAreApart(items, 0, 0, Label('S', k), From(b, k));
    }
  }

  /** So every text whose plain parts do not read B or S and a number comes back as it was. */
  lemma RoundTrips(lead: string, items: seq<Item>)
    requires Plain(lead) && Valid(items)
    requires forall item :: item in items ==> !ReadsLikeLabel(item.gap)
    ensures var s := Written(lead, items, "*", "_", "~");
      ToWhatsApp(ToChatwoot(s)) == s
  {
    UnlikeGapsAreAllApart(items);
    RoundTripsExactlyWhenApart(lead, items);
  }

  /** And some text does not: "*a* *b*B0*c*" loses a NUL of two placeholders to the plain B0. */
  lemma PlainLabelIsTaken()
    ensures var items := [Item(Bold, "a", " "), Item(Bold, "b", "B0"), Item(Bold, "c", "")];
      Valid(items) && ToWhatsApp(ToChatwoot(Written("", items, "*", "_", "~"))) != Written("", items, "*", "_", "~")
  {
    var items := [Item(Bold, "a", " "), Item(Bold, "b", "B0"), Item(Bold, "c", "")];
    assert items[1..] == [Item(Bold, "b", "B0"), Item(Bold, "c", "")];
    assert |InnersOf(items, {Bold})| >= 1;
    assert Decimal(0) == "0" && Label('B', 0) == "B0";
    LabelsDiffer('B', 1, 'B', 0);
    assert !Apart(items[1..], 1, 0, "B0", From(0, 0));
    assert !BoldApart(items, 0);
    RoundTripsExactlyWhenApart("", items);
  }
}
