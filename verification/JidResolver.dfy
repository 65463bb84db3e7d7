/** The phone resolver (internal/message/jidresolver.go over the table of
    internal/storage/postgres/jidcache.go).

    The directory is the phones registered on WhatsApp, and stays fixed. Two caches stand before
    it: a table of confirmed JIDs, and misses in memory for a short while, also of numbers that
    were only probed as the other form of the asked one. The caches have to agree with what a
    lookup without them would answer. */
module JidResolver {
  import opened Text
  import opened Wrappers

  type Phone = string
  type Jid = string

  const POSITIVE_TTL: int := 86_400_000_000_000
  const NEGATIVE_TTL: int := 60_000_000_000

  type Directory = map<Phone, Jid>

  datatype Row = Row(jid: Jid, expiresAt: int)

  datatype Answer = Found(jid: Jid) | NotFound | Unavailable

  /** The instants the call reads its clocks at, and what fails: reading the table, having no
      session, the two probes, and writing the table, which may have taken effect. */
  datatype Env = Env(asked: int, read: int, missed: int, missedToo: int, stored: int,
                     cacheRead: bool, session: bool, probe: bool, probeVariant: bool, cacheWrite: bool)

  datatype State = State(negative: map<Phone, int>, lastSweep: int, table: map<Phone, Row>)

  // ---- Phones -------------------------------------------------------------------------------

  function OnlyDigits(s: string): string {
    if s == "" then "" else (if IsDigit(s[0]) then [s[0]] else "") + OnlyDigits(s[1..])
  }

  /** The digits before the first '@'. */
  function NormalizePhone(s: string): Phone {
    OnlyDigits(BeforeAt(s))
  }

  function BeforeAt(s: string): string {
    if s == "" || s[0] == '@' then "" else [s[0]] + BeforeAt(s[1..])
  }

  /** The other form of a Brazilian number, with or without its ninth digit; empty for others. */
  function BrazilianVariant(digits: Phone): Phone {
    if !("55" <= digits) then ""
    else if |digits| == 13 then if digits[4] != '9' then "" else digits[..4] + digits[5..]
    else if |digits| == 12 then if !('6' <= digits[4] <= '9') then "" else digits[..4] + "9" + digits[4..]
    else ""
  }

  /** The variant of the variant is the number itself, unless it has none. */
  lemma VariantOfVariant(digits: Phone)
    requires BrazilianVariant(digits) != ""
    ensures BrazilianVariant(BrazilianVariant(digits)) in {"", digits}
    ensures |digits| == 12 ==> BrazilianVariant(BrazilianVariant(digits)) == digits
    ensures BrazilianVariant(digits) != digits
  {
    var v := BrazilianVariant(digits);
    assert digits[..2] == "55";
    assert v[..2] == digits[..2];
    if |digits| == 13 {
      assert |v| == 12 && v[..4] == digits[..4] && v[4..] == digits[5..];
      assert v[..4] + "9" + v[4..] == digits;
    } else {
      assert |v| == 13 && v[4] == '9' && v[..4] == digits[..4] && v[5..] == digits[4..];
      assert v[..4] + v[5..] == digits;
    }
  }

  /** A phone number that is all digits is left as it is, and what is left always is. */
  lemma {:induction false} OnlyDigitsMeans(s: string)
    ensures forall c :: c in OnlyDigits(s) ==> IsDigit(c)
    ensures (forall c :: c in s ==> IsDigit(c)) ==> OnlyDigits(s) == s
  {
    if s != "" {
      OnlyDigitsMeans(s[1..]);
      assert s == [s[0]] + s[1..];
    }
  }

  /** Every digit stays, in its place, and nothing else does. */
  lemma {:induction false} OnlyDigitsSplits(a: string, b: string)
    ensures OnlyDigits(a + b) == OnlyDigits(a) + OnlyDigits(b)
    ensures forall c :: OnlyDigits([c]) == if '0' <= c <= '9' then [c] else ""
  {
    assert forall c: char :: [c][1..] == [];
    if a == "" {
      assert a + b == b;
    } else {
      assert (a + b)[1..] == a[1..] + b;
      OnlyDigitsSplits(a[1..], b);
    }
  }

  lemma {:induction false} BeforeAtMeans(s: string)
    ensures '@' !in BeforeAt(s) && BeforeAt(s) <= s
    ensures BeforeAt(s) == s || s[|BeforeAt(s)|] == '@'
  {
    if s != "" && s[0] != '@' {
      BeforeAtMeans(s[1..]);
      assert s == [s[0]] + s[1..];
    }
  }

  /** The other form has the ninth digit after the area code where this one has none, and none where
      this one has it; only mobile numbers of Brazil have two forms. */
  lemma VariantIsNinthDigit(digits: Phone)
    ensures var v := BrazilianVariant(digits);
      && (v != "" <==>
            && |digits| >= 12 && digits[0] == '5' && digits[1] == '5'
            && ((|digits| == 13 && digits[4] == '9') || (|digits| == 12 && '6' <= digits[4] <= '9')))
      && (v != "" && |digits| == 13 ==> digits == v[..4] + "9" + v[4..])
      && (v != "" && |digits| == 12 ==> v == digits[..4] + "9" + digits[4..])
  {
    if |digits| >= 2 {
      assert digits[..2] == [digits[0], digits[1]];
    }
  }

  // ---- Without caches -----------------------------------------------------------------------

  function IsOnWhatsApp(dir: Directory, digits: Phone): Jid {
    if digits in dir then dir[digits] else ""
  }

  /** The JID of the number, else that of its variant, else nothing. */
  function Lookup(dir: Directory, digits: Phone): Jid {
    var (jid, variant) := (IsOnWhatsApp(dir, digits), BrazilianVariant(digits));
    if jid != "" then jid else if variant == "" then "" else IsOnWhatsApp(dir, variant)
  }

  function Direct(dir: Directory, asked: string): Answer {
    var phone := Trim(asked);
    if phone == "" then NotFound
    else if '@' in phone then Found(phone)
    else if NormalizePhone(phone) == "" then NotFound
    else
      var jid := Lookup(dir, NormalizePhone(phone));
      if jid == "" then NotFound else Found(jid)
  }

  /** The number as asked comes first, its other form second. */
  lemma NumberComesFirst(dir: Directory, digits: Phone)
    ensures digits in dir && dir[digits] != "" ==> Lookup(dir, digits) == dir[digits]
    ensures !(digits in dir && dir[digits] != "") ==>
              var v := BrazilianVariant(digits);
              Lookup(dir, digits) == if v != "" && v in dir then dir[v] else ""
  {
  }

  /** A JID is taken as it is; of anything else the digits are looked up, if there are any. */
  lemma DirectMeans(dir: Directory, asked: string)
    ensures var (phone, digits) := (Trim(asked), OnlyDigits(Trim(asked)));
      && ('@' in phone ==> Direct(dir, asked) == Found(phone))
      && ('@' !in phone && digits == "" ==> Direct(dir, asked) == NotFound)
      && ('@' !in phone && digits != "" && digits in dir && dir[digits] != "" ==> Direct(dir, asked) == Found(dir[digits]))
      && ('@' !in phone && digits != "" && !(digits in dir && dir[digits] != "") ==>
            var v := BrazilianVariant(digits);
            Direct(dir, asked) == if v != "" && v in dir && dir[v] != "" then Found(dir[v]) else NotFound)
  {
    var phone := Trim(asked);
    BeforeAtMeans(phone);
    if '@' !in phone {
      assert BeforeAt(phone) == phone && NormalizePhone(phone) == OnlyDigits(phone);
      assert phone == "" ==> OnlyDigits(phone) == "";
      NumberComesFirst(dir, OnlyDigits(phone));
    }
  }

  // ---- With them ----------------------------------------------------------------------------

  function Remembered(s: State, phone: Phone, now: int): State {
    var swept := now - s.lastSweep >= NEGATIVE_TTL;
    var kept := if swept then map p | p in s.negative && now < s.negative[p] :: s.negative[p] else s.negative;
    s.(negative := kept[phone := now + NEGATIVE_TTL], lastSweep := if swept then now else s.lastSweep)
  }

  /** After a miss of the number its other form is remembered too. */
  function Missed(s: State, digits: Phone, env: Env): State {
    var (t, variant) := (Remembered(s, digits, env.missed), BrazilianVariant(digits));
    if variant == "" then t else Remembered(t, variant, env.missedToo)
  }

  function Dropped(s: State, digits: Phone, now: int): State {
    if digits in s.negative && now >= s.negative[digits] then s.(negative := s.negative - {digits}) else s
  }

  /** The call from the session lookup on. */
  function LookedUp(dir: Directory, s: State, digits: Phone, env: Env): (State, Answer) {
    var (jid, variant) := (IsOnWhatsApp(dir, digits), BrazilianVariant(digits));
    if !env.session || !env.probe then (s, Unavailable)
    else if jid == "" && variant != "" && !env.probeVariant then (s, Unavailable)
    else if Lookup(dir, digits) == "" then (Missed(s, digits, env), NotFound)
    else
      var found := Lookup(dir, digits);
      (if env.cacheWrite then s.(table := s.table[digits := Row(found, env.stored + POSITIVE_TTL)]) else s, Found(found))
  }

  function Resolved(dir: Directory, s: State, asked: string, env: Env): (State, Answer) {
    var phone := Trim(asked);
    var digits := NormalizePhone(phone);
    if phone == "" then (s, NotFound)
    else if '@' in phone then (s, Found(phone))
    else if digits == "" then (s, NotFound)
    else if digits in s.negative && env.asked < s.negative[digits] then (s, NotFound)
    else
      var t := Dropped(s, digits, env.asked);
      if env.cacheRead && digits in t.table && t.table[digits].expiresAt > env.read then (t, Found(t.table[digits].jid))
      else LookedUp(dir, t, digits, env)
  }

  /** A call has no answer exactly when the number is neither a known miss nor a known row, and the
      session or a probe that was needed failed. */
  lemma UnavailableExactly(dir: Directory, s: State, asked: string, env: Env)
    ensures var digits := NormalizePhone(Trim(asked));
      Resolved(dir, s, asked, env).1 == Unavailable <==>
        && Trim(asked) != "" && '@' !in Trim(asked) && digits != ""
        && !(digits in s.negative && env.asked < s.negative[digits])
        && !(env.cacheRead && digits in s.table && env.read < s.table[digits].expiresAt)
        && (!env.session || !env.probe
            || (!env.probeVariant && BrazilianVariant(digits) != "" && !(digits in dir && dir[digits] != "")))
  {
  }

  /** A lookup that finds nothing is remembered for a minute, under both forms of the number. */
  lemma MissIsRemembered(dir: Directory, s: State, digits: Phone, env: Env)
    requires LookedUp(dir, s, digits, env).1 == NotFound && env.missed <= env.missedToo < env.missed + 60_000_000_000
    ensures var (t, v) := (LookedUp(dir, s, digits, env).0, BrazilianVariant(digits));
      && digits in t.negative && t.negative[digits] == env.missed + 60_000_000_000
      && (v != "" ==> v in t.negative && t.negative[v] == env.missedToo + 60_000_000_000)
  {
    if BrazilianVariant(digits) != "" {
      VariantOfVariant(digits);
    }
  }

  /** A row is written with the answer of a lookup, for a day, and in no other case. */
  lemma RowsLastADay(dir: Directory, s: State, asked: string, env: Env, p: Phone)
    ensures var t := Resolved(dir, s, asked, env).0;
      && (p in s.table ==> p in t.table)
      && (p in t.table && (p !in s.table || t.table[p] != s.table[p]) ==>
            p == NormalizePhone(Trim(asked)) && t.table[p].jid == Lookup(dir, p)
            && t.table[p].expiresAt == env.stored + 86_400_000_000_000)
  {
  }

  class JIDResolver {
    var negative: map<Phone, int>
    var lastSweep: int
    var table: map<Phone, Row>

    function View(): State
      reads this
    {
      State(negative, lastSweep, table)
    }

    constructor ()
      ensures View() == State(map[], 0, map[])
    {
      negative, lastSweep, table := map[], 0, map[];
    }

    method IsNegative(phone: Phone, now: int) returns (absent: bool)
      modifies this`negative
      ensures absent == (phone in old(negative) && now < old(negative)[phone])
      ensures View() == Dropped(old(View()), phone, now)
    {
      if phone !in negative {
        return false;
      }
      if now >= negative[phone] {
        negative := negative - {phone};
        return false;
      }
      absent := true;
    }

    method RememberNegative(phone: Phone, now: int)
      modifies this`negative, this`lastSweep
      ensures View() == Remembered(old(View()), phone, now)
      ensures phone in negative && negative[phone] == now + 60_000_000_000
      ensures forall p :: p in negative && p != phone ==> p in old(negative) && negative[p] == old(negative)[p]
      ensures forall p :: p in old(negative) && now < old(negative)[p] ==> p in negative
    {
      if now - lastSweep >= NEGATIVE_TTL {
        negative := map p | p in negative && now < negative[p] :: negative[p];
        lastSweep := now;
      }
      negative := negative[phone := now + NEGATIVE_TTL];
    }

    method LookUp(dir: Directory, digits: Phone, env: Env) returns (jid: Option<Jid>)
      ensures jid.None? <==> !env.probe || (IsOnWhatsApp(dir, digits) == "" && BrazilianVariant(digits) != "" && !env.probeVariant)
      ensures jid.Some? ==> jid.value == Lookup(dir, digits)
      ensures jid.Some? && digits in dir && dir[digits] != "" ==> jid.value == dir[digits]
    {
      if !env.probe {
        return None;
      }
      var found := IsOnWhatsApp(dir, digits);
      if found != "" {
        return Some(found);
      }
      var variant := BrazilianVariant(digits);
      if variant == "" {
        return Some("");
      }
      if !env.probeVariant {
        return None;
      }
      jid := Some(IsOnWhatsApp(dir, variant));
    }

    method Resolve(dir: Directory, asked: string, env: Env) returns (answer: Answer)
      modifies this
      ensures (View(), answer) == Resolved(dir, old(View()), asked, env)
    {
      var phone := Trim(asked);
      if phone == "" {
        return NotFound;
      }
      if '@' in phone {
        return Found(phone);
      }
      var digits := NormalizePhone(phone);
      if digits == "" {
        return NotFound;
      }
      var absent := IsNegative(digits, env.asked);
      if absent {
        return NotFound;
      }
      if env.cacheRead && digits in table && table[digits].expiresAt > env.read {
        return Found(table[digits].jid);
      }
      if !env.session {
        return Unavailable;
      }
      var jid := LookUp(dir, digits, env);
      if jid.None? {
        return Unavailable;
      }
      if jid.value == "" {
        RememberNegative(digits, env.missed);
        var variant := BrazilianVariant(digits);
        if variant != "" {
          RememberNegative(variant, env.missedToo);
        }
        return NotFound;
      }
      if env.cacheWrite {
        table := table[digits := Row(jid.value, env.stored + POSITIVE_TTL)];
      }
      answer := Found(jid.value);
    }

    method DeleteExpired(now: int)
      modifies this`table
      ensures table == map p | p in old(table) && old(table)[p].expiresAt >= now :: old(table)[p]
    {
      table := map p | p in table && table[p].expiresAt >= now :: table[p];
    }
  }

  // ---- Runs ---------------------------------------------------------------------------------

  datatype Call = Resolve(asked: string, env: Env) | DeleteExpired(now: int)

  function Apply(dir: Directory, s: State, call: Call): State {
    match call
    case Resolve(asked, env) => Resolved(dir, s, asked, env).0
    case DeleteExpired(now) => s.(table := map p | p in s.table && s.table[p].expiresAt >= now :: s.table[p])
  }

  function After(dir: Directory, s: State, calls: seq<Call>): State
    decreases |calls|
  {
    if calls == [] then s else After(dir, Apply(dir, s, calls[0]), calls[1..])
  }

  /** The caches hold nothing but what the lookup would answer. */
  ghost predicate Honest(dir: Directory, s: State) {
    && (forall p :: p in s.negative ==> Lookup(dir, p) == "")
    && (forall p :: p in s.table ==> s.table[p].jid != "" && Lookup(dir, p) == s.table[p].jid)
  }

  /** A number that is absent under both its forms is absent when asked under the other one. */
  lemma VariantMissesToo(dir: Directory, digits: Phone)
    requires Lookup(dir, digits) == "" && BrazilianVariant(digits) != ""
    ensures Lookup(dir, BrazilianVariant(digits)) == ""
  {
    VariantOfVariant(digits);
  }

  lemma MissedIsHonest(dir: Directory, s: State, digits: Phone, env: Env)
    requires Honest(dir, s) && Lookup(dir, digits) == ""
    ensures Honest(dir, Missed(s, digits, env))
  {
    if BrazilianVariant(digits) != "" {
      VariantMissesToo(dir, digits);
    }
  }

  lemma CallStaysHonest(dir: Directory, s: State, call: Call)
    requires Honest(dir, s)
    ensures Honest(dir, Apply(dir, s, call))
  {
    if call.Resolve? {
      var digits := NormalizePhone(Trim(call.asked));
      var t := Dropped(s, digits, call.env.asked);
      assert Honest(dir, t);
      if Lookup(dir, digits) == "" {
        MissedIsHonest(dir, t, digits, call.env);
      }
    }
  }

  lemma {:induction false} RunStaysHonest(dir: Directory, s: State, calls: seq<Call>)
    requires Honest(dir, s)
    ensures Honest(dir, After(dir, s, calls))
    decreases |calls|
  {
    if calls != [] {
      CallStaysHonest(dir, s, calls[0]);
      RunStaysHonest(dir, Apply(dir, s, calls[0]), calls[1..]);
    }
  }

  const FRESH: State := State(map[], 0, map[])

  predicate NoFault(env: Env) {
    env.session && env.probe && env.probeVariant
  }

  /** After any run of calls, with any clocks and faults, an answer is the one the lookup without
      caches gives; and there is one unless the session or a probe failed. */
  lemma AnswersAgree(dir: Directory, calls: seq<Call>, asked: string, env: Env)
    ensures var answer := Resolved(dir, After(dir, FRESH, calls), asked, env).1;
      && (!answer.Unavailable? ==> answer == Direct(dir, asked))
      && (NoFault(env) ==> answer == Direct(dir, asked))
  {
    RunStaysHonest(dir, FRESH, calls);
  }

  // ---- Memory -------------------------------------------------------------------------------

  /** The clocks of the misses never go back. */
  ghost predicate Clocked(from: int, calls: seq<Call>)
    decreases |calls|
  {
    calls != [] ==>
      if calls[0].Resolve? then
        var env := calls[0].env;
        from <= env.missed <= env.missedToo && Clocked(env.missedToo, calls[1..])
      else Clocked(from, calls[1..])
  }

  /** Every miss in memory expires within two TTLs of the last sweep, and after it. */
  ghost predicate Short(s: State) {
    forall p :: p in s.negative ==> s.lastSweep < s.negative[p] < s.lastSweep + 2 * NEGATIVE_TTL
  }

  lemma RememberedStaysShort(s: State, phone: Phone, now: int)
    requires Short(s) && s.lastSweep <= now
    ensures Short(Remembered(s, phone, now)) && Remembered(s, phone, now).lastSweep <= now
  {
  }

  lemma CallStaysShort(dir: Directory, s: State, call: Call, from: int)
    requires Short(s) && s.lastSweep <= from && Clocked(from, [call])
    ensures var t := Apply(dir, s, call);
      Short(t) && t.lastSweep <= if call.Resolve? then call.env.missedToo else from
  {
    if call.Resolve? {
      var digits := NormalizePhone(Trim(call.asked));
      var t := Dropped(s, digits, call.env.asked);
      assert Short(t);
      RememberedStaysShort(t, digits, call.env.missed);
      RememberedStaysShort(Remembered(t, digits, call.env.missed), BrazilianVariant(digits), call.env.missedToo);
    }
  }

  /** The sweep keeps the misses in memory to those of one span of two TTLs, however many numbers
      are asked for over time. */
  lemma {:induction false} NegativeStaysShort(dir: Directory, s: State, calls: seq<Call>, from: int)
    requires Short(s) && s.lastSweep <= from && Clocked(from, calls)
    ensures Short(After(dir, s, calls))
    decreases |calls|
  {
    if calls != [] {
      CallStaysShort(dir, s, calls[0], from);
      var next := if calls[0].Resolve? then calls[0].env.missedToo else from;
      NegativeStaysShort(dir, Apply(dir, s, calls[0]), calls[1..], next);
    }
  }
}
