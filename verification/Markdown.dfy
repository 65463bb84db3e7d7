/** The WhatsApp and Chatwoot text styles (internal/chatwoot/mapper/content.go): two converters made
    of regular expression passes, which shield spans behind indexed placeholders.

    Each expression here is a delimiter, a non-empty run of allowed characters, and the delimiter
    again. The delimiter is not allowed in the run, so a match at a position is unique. */
module Markdown {
  import opened Text
  import opened Wrappers

  const NUL: char := '\0'

  datatype Pattern = Pattern(mark: char, double: bool, multiline: bool)

  const CHATWOOT_BOLD: Pattern := Pattern('*', true, true)
  const CHATWOOT_STRIKE: Pattern := Pattern('~', true, false)
  const WHATS_BOLD: Pattern := Pattern('*', false, false)
  const WHATS_ITALIC: Pattern := Pattern('_', false, false)
  const WHATS_STRIKE: Pattern := Pattern('~', false, false)

  function Width(p: Pattern): nat {
    if p.double then 2 else 1
  }

  function Delim(p: Pattern): string {
    if p.double then [p.mark, p.mark] else [p.mark]
  }

  predicate DelimAt(p: Pattern, s: string, i: nat) {
    i + Width(p) <= |s| && s[i] == p.mark && (p.double ==> s[i + 1] == p.mark)
  }

  predicate Excluded(p: Pattern, c: char) {
    c == p.mark || (!p.multiline && c == '\n')
  }

  /** The length of the run of allowed characters from i on. */
  function Run(p: Pattern, s: string, i: nat): (n: nat)
    requires i <= |s|
    ensures i + n <= |s|
    decreases |s| - i
  {
    if i == |s| || Excluded(p, s[i]) then 0 else 1 + Run(p, s, i + 1)
  }

  /** How much a match at the head encloses; 0 when there is none. */
  function MatchAt(p: Pattern, s: string): (n: nat)
    ensures n > 0 ==> 2 * Width(p) + n <= |s|
  {
    if !DelimAt(p, s, 0) then 0
    else
      var n := Run(p, s, Width(p));
      if DelimAt(p, s, Width(p) + n) then n else 0
  }

  /** What the leftmost, non-overlapping matches cut a text into. */
  datatype Pieces = End | Char(c: char, tail: Pieces) | Span(inner: string, tail: Pieces)

  function Scan(p: Pattern, s: string): Pieces
    decreases |s|
  {
    var (w, n) := (Width(p), MatchAt(p, s));
    if s == "" then End
    else if n > 0 then Span(s[w..w + n], Scan(p, s[2 * w + n..]))
    else Char(s[0], Scan(p, s[1..]))
  }

  /** The text again, with the k-th span replaced by f(k, its inner text). */
  function Joined(pieces: Pieces, k: nat, f: (nat, string) -> string): string {
    match pieces
    case End => ""
    case Char(c, tail) => [c] + Joined(tail, k, f)
    case Span(inner, tail) => f(k, inner) + Joined(tail, k + 1, f)
  }

  function Spans(pieces: Pieces): seq<string> {
    match pieces
    case End => []
    case Char(_, tail) => Spans(tail)
    case Span(inner, tail) => [inner] + Spans(tail)
  }

  function Rewrite(p: Pattern, s: string, k: nat, f: (nat, string) -> string): string {
    Joined(Scan(p, s), k, f)
  }

  function Inners(p: Pattern, s: string): seq<string> {
    Spans(Scan(p, s))
  }

  function Wrapping(mark: string): (nat, string) -> string {
    (k: nat, inner: string) => mark + (inner + mark)
  }

  function Label(tag: char, k: nat): string { [tag] + Decimal(k) }

  function Token(tag: char, k: nat): string { [NUL] + (Label(tag, k) + [NUL]) }

  function Tokens(tag: char): (nat, string) -> string {
    (k: nat, inner: string) => Token(tag, k)
  }

  function Substituted(s: string, token: string, text: string): string
    requires token != ""
    decreases |s|
  {
    if s == "" then ""
    else if token <= s then text + Substituted(s[|token|..], token, text)
    else [s[0]] + Substituted(s[1..], token, text)
  }

  /** The placeholders from the i-th on swapped back, one after the other. */
  function Restored(s: string, tag: char, inners: seq<string>, mark: string, i: nat): string
    requires i <= |inners|
    decreases |inners| - i
  {
    if i == |inners| then s
    else Restored(Substituted(s, Token(tag, i), mark + (inners[i] + mark)), tag, inners, mark, i + 1)
  }

  function ToChatwoot(s: string): string {
    var p1 := Rewrite(CHATWOOT_BOLD, s, 0, Tokens('B'));
    var p2 := Rewrite(CHATWOOT_STRIKE, p1, 0, Tokens('S'));
    var p3 := Rewrite(WHATS_BOLD, p2, 0, Wrapping("**"));
    var p4 := Rewrite(WHATS_ITALIC, p3, 0, Wrapping("*"));
    var p5 := Rewrite(WHATS_STRIKE, p4, 0, Wrapping("~~"));
    Restored(Restored(p5, 'S', Inners(CHATWOOT_STRIKE, p1), "~~", 0), 'B', Inners(CHATWOOT_BOLD, s), "**", 0)
  }

  function ToWhatsApp(s: string): string {
    var p1 := Rewrite(CHATWOOT_STRIKE, s, 0, Tokens('S'));
    var p2 := Rewrite(CHATWOOT_BOLD, p1, 0, Tokens('B'));
    var p3 := Rewrite(WHATS_BOLD, p2, 0, Wrapping("_"));
    Restored(Restored(p3, 'B', Inners(CHATWOOT_BOLD, p1), "*", 0), 'S', Inners(CHATWOOT_STRIKE, s), "~", 0)
  }

  // ---- The converters as written ----------------------------------------------------------

  /** One step of the loop below: what is out and what is still to come, before and after it. */
  lemma Moved(out: string, inners: seq<string>, pieces: Pieces, tag: char)
    requires !pieces.End?
    ensures var (more, found) := if pieces.Span? then (Token(tag, |inners|), [pieces.inner]) else ([pieces.c], []);
      && out + Joined(pieces, |inners|, Tokens(tag)) == out + more + Joined(pieces.tail, |inners + found|, Tokens(tag))
      && inners + Spans(pieces) == inners + found + Spans(pieces.tail)
  {
    if pieces.Span? {
      assert Joined(pieces, |inners|, Tokens(tag)) == Token(tag, |inners|) + Joined(pieces.tail, |inners| + 1, Tokens(tag));
      Regroup(out, Token(tag, |inners|), Joined(pieces.tail, |inners| + 1, Tokens(tag)));
      Regroup(inners, [pieces.inner], Spans(pieces.tail));
    } else {
      Regroup(out, [pieces.c], Joined(pieces.tail, |inners|, Tokens(tag)));
      assert inners + [] == inners;
    }
  }

  method Protect(s: string, tag: char, p: Pattern) returns (out: string, inners: seq<string>)
    ensures out == Rewrite(p, s, 0, Tokens(tag)) && inners == Inners(p, s)
  {
    out, inners := "", [];
    var pieces := Scan(p, s);
    ghost var whole := pieces;
    while !pieces.End?
      invariant out + Joined(pieces, |inners|, Tokens(tag)) == Joined(whole, 0, Tokens(tag))
      invariant inners + Spans(pieces) == Spans(whole)
      decreases pieces
    {
      Moved(out, inners, pieces, tag);
      if pieces.Span? {
        out, inners := out + Token(tag, |inners|), inners + [pieces.inner];
      } else {
        assert inners + [] == inners;
        out := out + [pieces.c];
      }
      pieces := pieces.tail;
    }
  }

  method Restore(s: string, tag: char, inners: seq<string>, mark: string) returns (r: string)
    ensures r == Restored(s, tag, inners, mark, 0)
  {
    r := s;
    for i := 0 to |inners|
      invariant Restored(r, tag, inners, mark, i) == Restored(s, tag, inners, mark, 0)
    {
      r := Substituted(r, Token(tag, i), mark + (inners[i] + mark));
    }
  }

  method MarkdownToChatwoot(s: string) returns (r: string)
    ensures r == ToChatwoot(s)
  {
    var protected, bolds := Protect(s, 'B', CHATWOOT_BOLD);
    var strikes;
    protected, strikes := Protect(protected, 'S', CHATWOOT_STRIKE);
    protected := Rewrite(WHATS_BOLD, protected, 0, Wrapping("**"));
    protected := Rewrite(WHATS_ITALIC, protected, 0, Wrapping("*"));
    protected := Rewrite(WHATS_STRIKE, protected, 0, Wrapping("~~"));
    protected := Restore(protected, 'S', strikes, "~~");
    r := Restore(protected, 'B', bolds, "**");
  }

  method MarkdownToWhatsApp(s: string) returns (r: string)
    ensures r == ToWhatsApp(s)
  {
    var protected, strikes := Protect(s, 'S', CHATWOOT_STRIKE);
    var bolds;
    protected, bolds := Protect(protected, 'B', CHATWOOT_BOLD);
    protected := Rewrite(WHATS_BOLD, protected, 0, Wrapping("_"));
    protected := Restore(protected, 'B', bolds, "*");
    r := Restore(protected, 'S', strikes, "~");
  }

  // ---- Scanning over a concatenation ------------------------------------------------------

  predicate Allowed(p: Pattern, t: string) {
    forall c :: c in t ==> !Excluded(p, c)
  }

  lemma {:induction false} RunStops(p: Pattern, s: string, i: nat, j: nat)
    requires i <= j <= |s| && Allowed(p, s[i..j]) && (j == |s| || Excluded(p, s[j]))
    ensures Run(p, s, i) == j - i
    decreases j - i
  {
    if i < j {
      assert s[i..j][0] == s[i];
      assert s[i + 1..j] == s[i..j][1..];
      RunStops(p, s, i + 1, j);
    }
  }

  lemma NoDelim(p: Pattern, c: char, rest: string)
    requires c != p.mark || (p.double && (rest == "" || rest[0] != p.mark))
    ensures Scan(p, [c] + rest) == Char(c, Scan(p, rest))
  {
  }

  lemma {:induction false} Skip(p: Pattern, t: string, rest: string, k: nat, f: (nat, string) -> string)
    requires p.mark !in t
    ensures Rewrite(p, t + rest, k, f) == t + Rewrite(p, rest, k, f)
    ensures Inners(p, t + rest) == Inners(p, rest)
  {
    if t == "" {
      assert t + rest == rest;
    } else {
      Skip(p, t[1..], rest, k, f);
      NoDelim(p, t[0], t[1..] + rest);
      Regroup([t[0]], t[1..], rest);
      Regroup([t[0]], t[1..], Rewrite(p, rest, k, f));
      assert t == [t[0]] + t[1..];
    }
  }

  lemma Hit(p: Pattern, inner: string, rest: string)
    requires Allowed(p, inner) && inner != ""
    ensures Scan(p, Delim(p) + (inner + Delim(p)) + rest) == Span(inner, Scan(p, rest))
  {
    var d, w, n := Delim(p), Width(p), |inner|;
    var s := d + (inner + d) + rest;
    assert s[w..w + n] == inner && s[2 * w + n..] == rest;
    RunStops(p, s, w, w + n);
    assert MatchAt(p, s) == n;
  }

  /** A span under a single mark is no match for the double one. */
  lemma Miss(p: Pattern, inner: string, rest: string, k: nat, f: (nat, string) -> string)
    requires p.double && p.mark !in inner && inner != "" && (rest == "" || rest[0] != p.mark)
    ensures var t := [p.mark] + (inner + [p.mark]);
      Rewrite(p, t + rest, k, f) == t + Rewrite(p, rest, k, f) && Inners(p, t + rest) == Inners(p, rest)
  {
    var m := [p.mark];
    NoDelim(p, p.mark, rest);
    Skip(p, inner, m + rest, k, f);
    NoDelim(p, p.mark, inner + (m + rest));
    assert m + (inner + m) + rest == m + (inner + (m + rest));
    assert m + (inner + (m + Rewrite(p, rest, k, f))) == m + (inner + m) + Rewrite(p, rest, k, f);
  }

  // ---- Styled texts -------------------------------------------------------------------------

  datatype Kind = Bold | Italic | Strike

  /** A span and the plain text after it. */
  datatype Item = Item(kind: Kind, inner: string, gap: string)

  predicate Plain(t: string) {
    '*' !in t && '_' !in t && '~' !in t && NUL !in t
  }

  predicate Clean(inner: string) {
    Plain(inner) && inner != "" && '\n' !in inner
  }

  /** Plain text and spans; two spans have something between them. */
  predicate Valid(items: seq<Item>) {
    forall i :: 0 <= i < |items| ==>
      Clean(items[i].inner) && Plain(items[i].gap) && (i < |items| - 1 ==> items[i].gap != "")
  }

  const NEVER: int := -1

  /** How spans show: the marks, and from which index on, if ever, bold and strike spans are
      placeholders. */
  datatype Style = Style(bold: string, italic: string, strike: string, boldFrom: int, strikeFrom: int)

  function AfterBold(item: Item, nb: nat): nat {
    if item.kind.Bold? then nb + 1 else nb
  }

  function AfterStrike(item: Item, ns: nat): nat {
    if item.kind.Strike? then ns + 1 else ns
  }

  predicate IsToken(item: Item, nb: nat, ns: nat, st: Style) {
    (item.kind.Bold? && 0 <= st.boldFrom <= nb) || (item.kind.Strike? && 0 <= st.strikeFrom <= ns)
  }

  function LabelOf(item: Item, nb: nat, ns: nat): string {
    if item.kind.Bold? then Label('B', nb) else Label('S', ns)
  }

  function MarkOf(item: Item, st: Style): string {
    match item.kind
    case Bold => st.bold
    case Italic => st.italic
    case Strike => st.strike
  }

  /** A span that `nb` bold and `ns` strike spans precede. */
  function Shown(item: Item, nb: nat, ns: nat, st: Style): string {
    if IsToken(item, nb, ns, st) then [NUL] + (LabelOf(item, nb, ns) + [NUL])
    else MarkOf(item, st) + (item.inner + MarkOf(item, st))
  }

  function Render(items: seq<Item>, nb: nat, ns: nat, st: Style): string {
    if items == [] then ""
    else
      var (item, tail) := (items[0], items[1..]);
      Shown(item, nb, ns, st) + (item.gap + Render(tail, AfterBold(item, nb), AfterStrike(item, ns), st))
  }

  /** The inner texts of the spans of one kind. */
  function InnersOf(items: seq<Item>, hits: set<Kind>): seq<string> {
    if items == [] then []
    else if items[0].kind in hits then [items[0].inner] + InnersOf(items[1..], hits)
    else InnersOf(items[1..], hits)
  }

  // ---- One regular expression pass ----------------------------------------------------------

  predicate Thin(p: Pattern, item: Item, st: Style) {
    p.double && MarkOf(item, st) == [p.mark]
  }

  /** The pass turns the span from one style into the other: a hit of its kind, or text it leaves
      alone. */
  ghost predicate Treats(p: Pattern, f: (nat, string) -> string, hits: set<Kind>,
                         item: Item, nb: nat, ns: nat, k: nat, from: Style, to: Style) {
    if item.kind in hits then
      && !IsToken(item, nb, ns, from) && MarkOf(item, from) == Delim(p)
      && Shown(item, nb, ns, to) == f(k, item.inner)
    else
      && Shown(item, nb, ns, from) == Shown(item, nb, ns, to)
      && (p.mark !in Shown(item, nb, ns, from) || (!IsToken(item, nb, ns, from) && Thin(p, item, from)))
  }

  /** The index of the next hit is the number of spans of its kind so far. */
  predicate Counts(hits: set<Kind>, nb: nat, ns: nat, k: nat) {
    (Bold in hits ==> hits == {Bold} && k == nb) && (Strike in hits ==> hits == {Strike} && k == ns)
  }

  function AfterHit(item: Item, hits: set<Kind>, k: nat): nat {
    if item.kind in hits then k + 1 else k
  }

  ghost predicate PassTreats(p: Pattern, f: (nat, string) -> string, hits: set<Kind>, from: Style, to: Style) {
    forall item: Item, nb: nat, ns: nat, k: nat :: Clean(item.inner) && Counts(hits, nb, ns, k) ==>
      Treats(p, f, hits, item, nb, ns, k, from, to)
  }

  lemma PassSpan(p: Pattern, f: (nat, string) -> string, hits: set<Kind>, item: Item, rest: string,
                 nb: nat, ns: nat, k: nat, from: Style, to: Style)
    requires p.mark in {'*', '_', '~'} && Clean(item.inner) && Treats(p, f, hits, item, nb, ns, k, from, to)
    requires rest == "" || rest[0] != p.mark
    ensures Rewrite(p, Shown(item, nb, ns, from) + rest, k, f)
         == Shown(item, nb, ns, to) + Rewrite(p, rest, AfterHit(item, hits, k), f)
    ensures Inners(p, Shown(item, nb, ns, from) + rest)
         == (if item.kind in hits then [item.inner] else []) + Inners(p, rest)
  {
    if item.kind in hits {
      Hit(p, item.inner, rest);
    } else if p.mark !in Shown(item, nb, ns, from) {
      Skip(p, Shown(item, nb, ns, from), rest, k, f);
    } else {
      Miss(p, item.inner, rest, k, f);
    }
  }

  lemma {:induction false} Pass(p: Pattern, f: (nat, string) -> string, hits: set<Kind>, items: seq<Item>,
                                nb: nat, ns: nat, k: nat, from: Style, to: Style)
    requires p.mark in {'*', '_', '~'} && Valid(items) && Counts(hits, nb, ns, k) && PassTreats(p, f, hits, from, to)
    ensures Rewrite(p, Render(items, nb, ns, from), k, f) == Render(items, nb, ns, to)
    ensures Inners(p, Render(items, nb, ns, from)) == InnersOf(items, hits)
  {
    if items != [] {
      var item, tail := items[0], items[1..];
      var (nb', ns', k') := (AfterBold(item, nb), AfterStrike(item, ns), AfterHit(item, hits, k));
      var rest := Render(tail, nb', ns', from);
      assert Treats(p, f, hits, item, nb, ns, k, from, to);
      assert item.gap != "" || tail == [];
      PassSpan(p, f, hits, item, item.gap + rest, nb, ns, k, from, to);
      Skip(p, item.gap, rest, k', f);
      Pass(p, f, hits, tail, nb', ns', k', from, to);
    }
  }

  // ---- The converters up to their restore calls -------------------------------------------

  /** A text of lead and spans, written with these marks. */
  function Written(lead: string, items: seq<Item>, bold: string, italic: string, strike: string): string {
    lead + Render(items, 0, 0, Style(bold, italic, strike, NEVER, NEVER))
  }

  lemma LabelIsPlain(tag: char, k: nat)
    requires tag in {'B', 'S'}
    ensures Plain(Label(tag, k))
  {
    DecimalIsDigits(k);
  }

  lemma DocPass(p: Pattern, f: (nat, string) -> string, hits: set<Kind>, lead: string, items: seq<Item>,
                from: Style, to: Style)
    requires p.mark in {'*', '_', '~'} && Plain(lead) && Valid(items) && PassTreats(p, f, hits, from, to)
    requires Counts(hits, 0, 0, 0)
    ensures Rewrite(p, lead + Render(items, 0, 0, from), 0, f) == lead + Render(items, 0, 0, to)
    ensures Inners(p, lead + Render(items, 0, 0, from)) == InnersOf(items, hits)
  {
    Skip(p, lead, Render(items, 0, 0, from), 0, f);
    Pass(p, f, hits, items, 0, 0, 0, from, to);
  }

  lemma {:induction false} NoHits(items: seq<Item>)
    ensures InnersOf(items, {}) == []
  {
    if items != [] {
      NoHits(items[1..]);
    }
  }

  function Marks(bold: string, italic: string, strike: string): Style {
    Style(bold, italic, strike, NEVER, NEVER)
  }

  lemma ShieldsNothing(lead: string, items: seq<Item>)
    requires Plain(lead) && Valid(items)
    ensures var s := Written(lead, items, "*", "_", "~");
      && Rewrite(CHATWOOT_BOLD, s, 0, Tokens('B')) == s && Inners(CHATWOOT_BOLD, s) == []
      && Rewrite(CHATWOOT_STRIKE, s, 0, Tokens('S')) == s && Inners(CHATWOOT_STRIKE, s) == []
  {
    var w := Marks("*", "_", "~");
    DocPass(CHATWOOT_BOLD, Tokens('B'), {}, lead, items, w, w);
    DocPass(CHATWOOT_STRIKE, Tokens('S'), {}, lead, items, w, w);
    NoHits(items);
  }

  lemma BoldsDouble(lead: string, items: seq<Item>)
    requires Plain(lead) && Valid(items)
    ensures Rewrite(WHATS_BOLD, Written(lead, items, "*", "_", "~"), 0, Wrapping("**")) == Written(lead, items, "**", "_", "~")
  {
    DocPass(WHATS_BOLD, Wrapping("**"), {Bold}, lead, items, Marks("*", "_", "~"), Marks("**", "_", "~"));
  }

  lemma ItalicsStar(lead: string, items: seq<Item>)
    requires Plain(lead) && Valid(items)
    ensures Rewrite(WHATS_ITALIC, Written(lead, items, "**", "_", "~"), 0, Wrapping("*")) == Written(lead, items, "**", "*", "~")
  {
    DocPass(WHATS_ITALIC, Wrapping("*"), {Italic}, lead, items, Marks("**", "_", "~"), Marks("**", "*", "~"));
  }

  lemma StrikesDouble(lead: string, items: seq<Item>)
    requires Plain(lead) && Valid(items)
    ensures Rewrite(WHATS_STRIKE, Written(lead, items, "**", "*", "~"), 0, Wrapping("~~")) == Written(lead, items, "**", "*", "~~")
  {
    DocPass(WHATS_STRIKE, Wrapping("~~"), {Strike}, lead, items, Marks("**", "*", "~"), Marks("**", "*", "~~"));
  }

  /** To Chatwoot every span changes its marks, and nothing else changes. */
  lemma ToChatwootMeans(lead: string, items: seq<Item>)
    requires Plain(lead) && Valid(items)
    ensures ToChatwoot(Written(lead, items, "*", "_", "~")) == Written(lead, items, "**", "*", "~~")
  {
    ShieldsNothing(lead, items);
    BoldsDouble(lead, items);
    ItalicsStar(lead, items);
    StrikesDouble(lead, items);
  }

  function Shielded(lead: string, items: seq<Item>, boldFrom: int, strikeFrom: int, bold: string, italic: string): string {
    lead + Render(items, 0, 0, Style(bold, italic, "~", boldFrom, strikeFrom))
  }

  lemma StrikesShielded(lead: string, items: seq<Item>)
    requires Plain(lead) && Valid(items)
    ensures var s := Written(lead, items, "**", "*", "~~");
      && Rewrite(CHATWOOT_STRIKE, s, 0, Tokens('S')) == Shielded(lead, items, NEVER, 0, "**", "*")
      && Inners(CHATWOOT_STRIKE, s) == InnersOf(items, {Strike})
  {
    DocPass(CHATWOOT_STRIKE, Tokens('S'), {Strike}, lead, items, Marks("**", "*", "~~"), Style("**", "*", "~", NEVER, 0));
  }

  lemma BoldsShielded(lead: string, items: seq<Item>)
    requires Plain(lead) && Valid(items)
    ensures var s := Shielded(lead, items, NEVER, 0, "**", "*");
      && Rewrite(CHATWOOT_BOLD, s, 0, Tokens('B')) == Shielded(lead, items, 0, 0, "*", "*")
      && Inners(CHATWOOT_BOLD, s) == InnersOf(items, {Bold})
  {
    forall tag, k: nat | tag in {'B', 'S'} {
      LabelIsPlain(tag, k);
    }
    DocPass(CHATWOOT_BOLD, Tokens('B'), {Bold}, lead, items, Style("**", "*", "~", NEVER, 0), Style("*", "*", "~", 0, 0));
  }

  lemma ItalicsBack(lead: string, items: seq<Item>)
    requires Plain(lead) && Valid(items)
    ensures Rewrite(WHATS_BOLD, Shielded(lead, items, 0, 0, "*", "*"), 0, Wrapping("_")) == Shielded(lead, items, 0, 0, "*", "_")
  {
    forall tag, k: nat | tag in {'B', 'S'} {
      LabelIsPlain(tag, k);
    }
    DocPass(WHATS_BOLD, Wrapping("_"), {Italic}, lead, items, Style("*", "*", "~", 0, 0), Style("*", "_", "~", 0, 0));
  }

  /** Back to WhatsApp, the passes leave bold and strike spans as placeholders. */
  lemma ToWhatsAppMeans(lead: string, items: seq<Item>)
    requires Plain(lead) && Valid(items)
    ensures ToWhatsApp(Written(lead, items, "**", "*", "~~"))
         == Restored(Restored(Shielded(lead, items, 0, 0, "*", "_"), 'B', InnersOf(items, {Bold}), "*", 0),
                     'S', InnersOf(items, {Strike}), "~", 0)
  {
    StrikesShielded(lead, items);
    BoldsShielded(lead, items);
    ItalicsBack(lead, items);
  }
}
