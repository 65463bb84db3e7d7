/** The import writing into the Chatwoot database (internal/chatwoot/import/import.go): contacts,
    conversations and messages, chunk by chunk, with every statement able to fail. */
module ImportDatabase {
  import opened Import
  import opened Wrappers
  import HistorySync
  import Text

  datatype Sender = FromContact(identifier: string) | FromUser(id: nat) | Nobody

  datatype Record = Record(source: string, content: string, conversation: nat, fromMe: bool, sender: Sender, at: int)

  datatype Conversation = Conversation(inbox: nat, contact: string, display: int)

  /** What Chatwoot itself inserts between the reading of the highest display id and the insert
      that uses it. */
  type Window = seq<Conversation>

  /** One attempt at a display id: whether the reads work, what Chatwoot does in between, and how
      the insert goes. */
  datatype Attempt = Attempt(max: bool, window: Window, insert: Write, recheck: bool)

  /** The statements that ensure one conversation; attempts beyond the list meet nothing. */
  datatype HomeFaults = HomeFaults(lookup: bool, linkLookup: bool, link: Write, attempts: seq<Attempt>)

  datatype Faults = Faults(
    existing: bool, contacts: bool, upsert: Write, requery: bool, homes: map<string, HomeFaults>, insert: Write)

  const QUIET: Attempt := Attempt(true, [], Applied, true)
  const HOME_WORKS: HomeFaults := HomeFaults(true, true, Applied, [])
  const NO_FAULTS: Faults := Faults(true, true, Applied, true, map[], Applied)

  /** Nothing but the insert of the messages can fail. */
  predicate Smooth(f: Faults) {
    f.existing && f.contacts && f.upsert.Applied? && f.requery && f.homes == map[]
  }

  /** A contact in an inbox, as contact_inboxes links them. */
  datatype Link = Link(inbox: nat, contact: string)

  /** The access_tokens row of the configured token. */
  datatype TokenLookup = NoToken | Owner(id: nat) | Unknown | LookupFailed

  /** What precedes the rows: no pool, a cancelled context, an unreadable account id. */
  datatype Setup = Disabled | Cancelled | BadAccount | Ready(token: TokenLookup)

  function UserOf(setup: Setup): Sender {
    if setup.Ready? && setup.token.Owner? then FromUser(setup.token.id) else Nobody
  }

  // ---- Conversations ----------------------------------------------------------------------

  predicate Taken(convs: seq<Conversation>, display: int) {
    exists i :: 0 <= i < |convs| && convs[i].display == display
  }

  ghost predicate DisplaysUnique(convs: seq<Conversation>) {
    forall i, j :: 0 <= i < j < |convs| ==> convs[i].display != convs[j].display
  }

  function MaxDisplay(convs: seq<Conversation>): (max: int)
    ensures forall i :: 0 <= i < |convs| ==> convs[i].display <= max
  {
    if convs == [] then 0
    else
      var (rest, last) := (MaxDisplay(convs[..|convs| - 1]), convs[|convs| - 1].display);
      if |convs| == 1 || last > rest then last else rest
  }

  /** The oldest conversation of the contact in the inbox, or the end of the table. */
  function Find(convs: seq<Conversation>, inbox: nat, contact: string): (i: nat)
    ensures i <= |convs|
    ensures i < |convs| ==> convs[i].inbox == inbox && convs[i].contact == contact
    ensures forall j :: 0 <= j < i ==> !(convs[j].inbox == inbox && convs[j].contact == contact)
  {
    if convs == [] || (convs[0].inbox == inbox && convs[0].contact == contact) then 0
    else 1 + Find(convs[1..], inbox, contact)
  }

  function AfterRails(convs: seq<Conversation>, window: Window): seq<Conversation> {
    if window == [] then convs
    else
      var init := AfterRails(convs, window[..|window| - 1]);
      if Taken(init, window[|window| - 1].display) then init else init + [window[|window| - 1]]
  }

  function AttemptAt(attempts: seq<Attempt>, attempt: nat): Attempt
    requires attempt >= 1
  {
    if attempt <= |attempts| then attempts[attempt - 1] else QUIET
  }

  /** The allocation loop from one attempt on. Only an insert that the server rejects for its
      display id is tried again. */
  function Allocated(convs: seq<Conversation>, inbox: nat, contact: string, attempts: seq<Attempt>, attempt: nat)
    : (seq<Conversation>, Option<nat>)
    requires 1 <= attempt <= DISPLAY_ID_ATTEMPTS
    decreases DISPLAY_ID_ATTEMPTS - attempt
  {
    var (a, display) := (AttemptAt(attempts, attempt), MaxDisplay(convs) + 1);
    var raced := AfterRails(convs, a.window);
    if !a.max then (convs, None)
    else if a.insert.NotApplied? then (raced, None)
    else if !Taken(raced, display) then
      (raced + [Conversation(inbox, contact, display)], if a.insert.Applied? then Some(|raced|) else None)
    else if a.insert.AppliedButFailed? || attempt >= DISPLAY_ID_ATTEMPTS || !a.recheck then (raced, None)
    else if Find(raced, inbox, contact) < |raced| then (raced, Some(Find(raced, inbox, contact)))
    else Allocated(raced, inbox, contact, attempts, attempt + 1)
  }

  function Linked(links: set<Link>, inbox: nat, contact: string, h: HomeFaults): (set<Link>, bool) {
    var link := Link(inbox, contact);
    if !h.linkLookup then (links, false)
    else if link in links then (links, true)
    else (if h.link.NotApplied? then links else links + {link}, h.link.Applied?)
  }

  function Ensured(convs: seq<Conversation>, links: set<Link>, inbox: nat, contact: string, h: HomeFaults)
    : (seq<Conversation>, set<Link>, Option<nat>)
  {
    var (linked, ok) := Linked(links, inbox, contact, h);
    if !h.lookup then (convs, links, None)
    else if Find(convs, inbox, contact) < |convs| then (convs, links, Some(Find(convs, inbox, contact)))
    else if !ok then (convs, linked, None)
    else
      var (after, id) := Allocated(convs, inbox, contact, h.attempts, 1); (after, linked, id)
  }

  lemma {:induction false} RailsKeepsUnique(convs: seq<Conversation>, window: Window)
    requires DisplaysUnique(convs)
    ensures convs <= AfterRails(convs, window) && DisplaysUnique(AfterRails(convs, window))
    ensures |AfterRails(convs, window)| <= |convs| + |window|
  {
    if window != [] {
      RailsKeepsUnique(convs, window[..|window| - 1]);
    }
  }

  predicate HomeOf(convs: seq<Conversation>, inbox: nat, contact: string, id: nat) {
    id < |convs| && convs[id].inbox == inbox && convs[id].contact == contact
  }

  /** None of the statements of an attempt fails, however Chatwoot interferes. */
  predicate Works(a: Attempt) {
    a.max && a.insert.Applied? && a.recheck
  }

  predicate AllWork(attempts: seq<Attempt>) {
    forall i :: 0 <= i < |attempts| ==> Works(attempts[i])
  }

  /** Display ids are still unique, no conversation is lost, the answer is a conversation of the
      contact, and without one, when the statements work, at least `lost` conversations came
      from Chatwoot. */
  ghost predicate Settled(convs: seq<Conversation>, after: seq<Conversation>, id: Option<nat>,
                          inbox: nat, contact: string, works: bool, lost: nat) {
    && convs <= after && DisplaysUnique(after)
    && (id.Some? ==> HomeOf(after, inbox, contact, id.value))
    && (id.None? && works ==> |after| >= |convs| + lost)
  }

  lemma WonAttempt(convs: seq<Conversation>, inbox: nat, contact: string, window: Window, id: Option<nat>, works: bool, lost: nat)
    requires DisplaysUnique(convs) && (works ==> id.Some?)
    requires id.Some? ==> id.value == |AfterRails(convs, window)|
    ensures var (display, raced) := (MaxDisplay(convs) + 1, AfterRails(convs, window));
      !Taken(raced, display) ==>
        Settled(convs, raced + [Conversation(inbox, contact, display)], id, inbox, contact, works, lost)
  {
    RailsKeepsUnique(convs, window);
  }

  lemma LostAttempt(convs: seq<Conversation>, window: Window)
    requires DisplaysUnique(convs) && Taken(AfterRails(convs, window), MaxDisplay(convs) + 1)
    ensures var raced := AfterRails(convs, window);
      convs <= raced && DisplaysUnique(raced) && |raced| > |convs|
  {
    RailsKeepsUnique(convs, window);
    assert !Taken(convs, MaxDisplay(convs) + 1);
  }

  lemma SettledLater(convs: seq<Conversation>, raced: seq<Conversation>, after: seq<Conversation>, id: Option<nat>,
                     inbox: nat, contact: string, works: bool, lost: nat)
    requires convs <= raced && |raced| > |convs| && Settled(raced, after, id, inbox, contact, works, lost)
    ensures Settled(convs, after, id, inbox, contact, works, lost + 1)
  {
  }

  ghost predicate AllocationSettles(convs: seq<Conversation>, inbox: nat, contact: string, attempts: seq<Attempt>, attempt: nat)
    requires 1 <= attempt <= DISPLAY_ID_ATTEMPTS
  {
    var (after, id) := Allocated(convs, inbox, contact, attempts, attempt);
    Settled(convs, after, id, inbox, contact, AllWork(attempts), 1 + DISPLAY_ID_ATTEMPTS - attempt)
  }

  /** The loop tries again after this attempt. */
  predicate TriesAgain(convs: seq<Conversation>, inbox: nat, contact: string, a: Attempt, attempt: nat) {
    var raced := AfterRails(convs, a.window);
    && Works(a) && attempt < DISPLAY_ID_ATTEMPTS
    && Taken(raced, MaxDisplay(convs) + 1) && Find(raced, inbox, contact) == |raced|
  }

  lemma LastAttemptSettles(convs: seq<Conversation>, inbox: nat, contact: string, attempts: seq<Attempt>, attempt: nat)
    requires 1 <= attempt <= DISPLAY_ID_ATTEMPTS && DisplaysUnique(convs)
    requires !TriesAgain(convs, inbox, contact, AttemptAt(attempts, attempt), attempt)
    ensures AllocationSettles(convs, inbox, contact, attempts, attempt)
  {
    var a := AttemptAt(attempts, attempt);
    RailsKeepsUnique(convs, a.window);
    assert AllWork(attempts) ==> Works(a);
    if Taken(AfterRails(convs, a.window), MaxDisplay(convs) + 1) {
      LostAttempt(convs, a.window);
    } else if a.max && !a.insert.NotApplied? {
      WonAttempt(convs, inbox, contact, a.window, if a.insert.Applied? then Some(|AfterRails(convs, a.window)|) else None,
                 AllWork(attempts), 1 + DISPLAY_ID_ATTEMPTS - attempt);
    }
  }

  lemma NextAttemptSettles(convs: seq<Conversation>, inbox: nat, contact: string, attempts: seq<Attempt>, attempt: nat)
    requires 1 <= attempt < DISPLAY_ID_ATTEMPTS && DisplaysUnique(convs)
    requires TriesAgain(convs, inbox, contact, AttemptAt(attempts, attempt), attempt)
    requires AllocationSettles(AfterRails(convs, AttemptAt(attempts, attempt).window), inbox, contact, attempts, attempt + 1)
    ensures AllocationSettles(convs, inbox, contact, attempts, attempt)
  {
    var raced := AfterRails(convs, AttemptAt(attempts, attempt).window);
    LostAttempt(convs, AttemptAt(attempts, attempt).window);
    var (after, id) := Allocated(raced, inbox, contact, attempts, attempt + 1);
    SettledLater(convs, raced, after, id, inbox, contact, AllWork(attempts), DISPLAY_ID_ATTEMPTS - attempt);
  }

  /** The allocation against any interleaving with Chatwoot: when its statements work it fails only
      when Chatwoot allocated at least one conversation in every attempt. */
  lemma {:induction false} AllocatedIsHome(convs: seq<Conversation>, inbox: nat, contact: string, attempts: seq<Attempt>, attempt: nat)
    requires 1 <= attempt <= DISPLAY_ID_ATTEMPTS && DisplaysUnique(convs)
    ensures AllocationSettles(convs, inbox, contact, attempts, attempt)
    decreases DISPLAY_ID_ATTEMPTS - attempt
  {
    var a := AttemptAt(attempts, attempt);
    if TriesAgain(convs, inbox, contact, a, attempt) {
      LostAttempt(convs, a.window);
      AllocatedIsHome(AfterRails(convs, a.window), inbox, contact, attempts, attempt + 1);
      NextAttemptSettles(convs, inbox, contact, attempts, attempt);
    } else {
      LastAttemptSettles(convs, inbox, contact, attempts, attempt);
    }
  }

  /** The whole call; a conversation it opens is linked to its inbox first. */
  lemma EnsuredIsHome(convs: seq<Conversation>, links: set<Link>, inbox: nat, contact: string, h: HomeFaults)
    requires DisplaysUnique(convs)
    ensures var (after, linked, id) := Ensured(convs, links, inbox, contact, h);
      && Settled(convs, after, id, inbox, contact,
                 h.lookup && h.linkLookup && h.link.Applied? && AllWork(h.attempts), DISPLAY_ID_ATTEMPTS)
      && links <= linked <= links + {Link(inbox, contact)}
      && (|after| > |convs| ==> Link(inbox, contact) in linked)
  {
    AllocatedIsHome(convs, inbox, contact, h.attempts, 1);
  }

  lemma UndisturbedIsHome(convs: seq<Conversation>, links: set<Link>, inbox: nat, contact: string)
    ensures Ensured(convs, links, inbox, contact, HOME_WORKS).2.Some?
  {
    assert AfterRails(convs, []) == convs;
    assert !Taken(convs, MaxDisplay(convs) + 1);
  }

  // ---- Rows and records -------------------------------------------------------------------

  function Stored(messages: seq<Record>): set<string> {
    set m | m in messages :: m.source
  }

  function SenderOf(row: Row, user: Sender): Sender {
    if row.fromMe then user else FromContact(row.identifier)
  }

  /** The record carries the row, in a conversation of the row's own chat. */
  predicate Carries(record: Record, row: Row, convs: seq<Conversation>, inbox: nat, user: Sender) {
    && record.source == row.source && record.content == row.content
    && record.fromMe == row.fromMe && record.at == row.at && record.sender == SenderOf(row, user)
    && HomeOf(convs, inbox, row.identifier, record.conversation)
  }

  /** The table grew by one record for each of the rows, in their order. */
  ghost predicate Landed(before: seq<Record>, after: seq<Record>, rows: seq<Row>,
                         convs: seq<Conversation>, inbox: nat, user: Sender) {
    && |after| == |before| + |rows| && before <= after
    && forall i :: 0 <= i < |rows| ==> Carries(after[|before| + i], rows[i], convs, inbox, user)
  }

  lemma LandedInTwo(before: seq<Record>, mid: seq<Record>, after: seq<Record>, a: seq<Row>, b: seq<Row>,
                    old_: seq<Conversation>, convs: seq<Conversation>, inbox: nat, user: Sender)
    requires Landed(before, mid, a, old_, inbox, user) && old_ <= convs && Landed(mid, after, b, convs, inbox, user)
    ensures Landed(before, after, a + b, convs, inbox, user)
  {
  }

  lemma StoredAfterLanding(before: seq<Record>, after: seq<Record>, rows: seq<Row>,
                           convs: seq<Conversation>, inbox: nat, user: Sender)
    requires Landed(before, after, rows, convs, inbox, user)
    ensures Stored(after) == Stored(before) + Sources(rows)
  {
    forall source
      ensures source in Stored(after) <==> source in Stored(before) || source in Sources(rows)
    {
      SourcesMean(rows, source);
      if source in Stored(after) {
        var i :| 0 <= i < |after| && after[i].source == source;
        if i >= |before| {
          assert Carries(after[|before| + (i - |before|)], rows[i - |before|], convs, inbox, user);
          assert rows[i - |before|].source == source;
        } else {
          assert after[i] == before[i];
        }
      }
      if source in Stored(before) {
        var i :| 0 <= i < |before| && before[i].source == source;
        assert after[i] == before[i] && after[i] in after;
      }
      if source in Sources(rows) {
        var i :| 0 <= i < |rows| && rows[i].source == source;
        assert Carries(after[|before| + i], rows[i], convs, inbox, user);
        assert after[|before| + i] in after;
      }
    }
  }

  /** The rows whose contact has a conversation; the others would be skipped. */
  function Homed(rows: seq<Row>, homes: set<string>): seq<Row> {
    if rows == [] then []
    else
      var (init, last) := (Homed(rows[..|rows| - 1], homes), rows[|rows| - 1]);
      if last.identifier in homes then init + [last] else init
  }

  function Authors(chunk: seq<Row>, existing: set<string>): set<string> {
    set row | row in chunk && row.source !in existing :: row.identifier
  }

  lemma {:induction false} AllHomed(rows: seq<Row>, homes: set<string>)
    requires forall row :: row in rows ==> row.identifier in homes
    ensures Homed(rows, homes) == rows
  {
    if rows != [] {
      AllHomed(rows[..|rows| - 1], homes);
    }
  }

  /** The skip for a missing conversation never fires: a home is ensured for the author of every
      row that can be inserted. */
  lemma SkipNeverFires(chunk: seq<Row>, existing: set<string>)
    ensures Homed(Wanted(chunk, existing), Authors(chunk, existing)) == Wanted(chunk, existing)
  {
    forall row | row in Wanted(chunk, existing)
      ensures row.identifier in Authors(chunk, existing)
    {
      WantedComesFrom(chunk, existing, row);
    }
    AllHomed(Wanted(chunk, existing), Authors(chunk, existing));
  }

  lemma {:induction false} HomedHasHome(rows: seq<Row>, homes: set<string>)
    ensures forall row :: row in Homed(rows, homes) ==> row.identifier in homes
  {
    if rows != [] {
      HomedHasHome(rows[..|rows| - 1], homes);
    }
  }

  /** A chunk on top of a prefix: what it found stored is what the prefix left. */
  lemma ChunkLands(before: seq<Record>, mid: seq<Record>, after: seq<Record>, part: seq<Row>, chunk: seq<Row>,
                   convs: seq<Conversation>, more: seq<Conversation>, inbox: nat, user: Sender)
    requires Landed(before, mid, Wanted(part, Stored(before)), convs, inbox, user) && convs <= more
    requires Landed(mid, after, Wanted(chunk, Stored(mid)), more, inbox, user)
    ensures Landed(before, after, Wanted(part + chunk, Stored(before)), more, inbox, user)
  {
    var stored := Stored(before);
    WantedInTwo(part, chunk, stored);
    StoredWithPart(before, mid, part, convs, inbox, user);
    LandedInTwo(before, mid, after, Wanted(part, stored), Wanted(chunk, Stored(mid)), convs, more, inbox, user);
  }

  lemma LandedGrows(before: seq<Record>, after: seq<Record>, rows: seq<Row>, convs: seq<Conversation>,
                    more: seq<Conversation>, inbox: nat, user: Sender)
    requires Landed(before, after, rows, convs, inbox, user) && convs <= more
    ensures Landed(before, after, rows, more, inbox, user)
  {
  }

  function Min(a: int, b: int): int { if a < b then a else b }

  function Chunk(rows: seq<Row>, i: nat): seq<Row>
    requires CHUNK_SIZE * i <= |rows|
  {
    rows[CHUNK_SIZE * i..Min(CHUNK_SIZE * (i + 1), |rows|)]
  }

  lemma {:induction false} ChunkAt(rows: seq<Row>, i: nat)
    requires i < |Chunked(rows, CHUNK_SIZE)|
    ensures CHUNK_SIZE * i < |rows| && Chunked(rows, CHUNK_SIZE)[i] == Chunk(rows, i)
    decreases i
  {
    if i > 0 {
      ChunkAt(rows[CHUNK_SIZE..], i - 1);
      assert Chunked(rows, CHUNK_SIZE)[i] == Chunked(rows[CHUNK_SIZE..], CHUNK_SIZE)[i - 1];
    }
  }

  lemma {:induction false} ChunksReachTheEnd(rows: seq<Row>)
    ensures CHUNK_SIZE * |Chunked(rows, CHUNK_SIZE)| >= |rows|
    decreases |rows|
  {
    if |rows| > CHUNK_SIZE {
      ChunksReachTheEnd(rows[CHUNK_SIZE..]);
    }
  }

  /** The end of the first i chunks. */
  function End(rows: seq<Row>, i: nat): nat {
    Min(CHUNK_SIZE * i, |rows|)
  }

  function FaultsAt(faults: seq<Faults>, i: nat): Faults {
    if i < |faults| then faults[i] else NO_FAULTS
  }

  /** Chunk i of a run brings a source id that is neither stored nor in an earlier chunk. */
  predicate Brings(rows: seq<Row>, i: nat, stored: set<string>) {
    CHUNK_SIZE * i <= |rows| && Wanted(Chunk(rows, i), stored + Sources(rows[..CHUNK_SIZE * i])) != []
  }

  /** Every chunk before i brought nothing or was inserted with success. */
  ghost predicate Counted(rows: seq<Row>, stored: set<string>, faults: seq<Faults>, i: nat) {
    forall k: nat :: k < i && Brings(rows, k, stored) ==> FaultsAt(faults, k).insert.Applied?
  }

  lemma CountedNext(rows: seq<Row>, stored: set<string>, faults: seq<Faults>, i: nat)
    requires Counted(rows, stored, faults, i) && (Brings(rows, i, stored) ==> FaultsAt(faults, i).insert.Applied?)
    ensures Counted(rows, stored, faults, i + 1)
  {
  }

  /** How far a run over its rows gets, and what it counts: the wanted rows of its counted chunks.
      The one chunk that may be stored and not counted is the one that fails, when its insert took
      effect and it brings something. When nothing but inserts can fail, the run stops at the
      first chunk that brings something and whose insert fails, so this fixes the outcome. */
  ghost predicate RowsOutcome(rows: seq<Row>, stored: set<string>, faults: seq<Faults>,
                              count: nat, ok: bool, reported: nat, done: nat) {
    var failed := reported / CHUNK_SIZE;
    && reported <= done <= |rows| && count == |Wanted(rows[..reported], stored)|
    && Counted(rows, stored, faults, failed)
    && (ok ==> reported == done == |rows| && Counted(rows, stored, faults, failed + 1))
    && (!ok ==> reported == CHUNK_SIZE * failed < |rows|)
    && (reported < done ==>
          !ok && done == End(rows, failed + 1) && FaultsAt(faults, failed).insert.AppliedButFailed? && Brings(rows, failed, stored))
    && (!ok && Smooth(FaultsAt(faults, failed)) ==>
          && Brings(rows, failed, stored) && !FaultsAt(faults, failed).insert.Applied?
          && (reported < done <==> FaultsAt(faults, failed).insert.AppliedButFailed?))
  }

  /** The same with what precedes the rows. */
  ghost predicate Outcome(rows: seq<Row>, stored: set<string>, setup: Setup, faults: seq<Faults>,
                          count: nat, ok: bool, reported: nat, done: nat) {
    if !setup.Ready? then done == reported == count == 0 && ok == setup.Disabled?
    else if rows != [] && setup.token.LookupFailed? then done == reported == count == 0 && !ok
    else RowsOutcome(rows, stored, faults, count, ok, reported, done)
  }

  lemma RowsFail(rows: seq<Row>, stored: set<string>, faults: seq<Faults>, i: nat, count: nat, landed: bool)
    requires CHUNK_SIZE * i < |rows| && Counted(rows, stored, faults, i)
    requires count == |Wanted(rows[..CHUNK_SIZE * i], stored)|
    requires landed ==> FaultsAt(faults, i).insert.AppliedButFailed? && Brings(rows, i, stored)
    requires Smooth(FaultsAt(faults, i)) ==>
      && Brings(rows, i, stored) && !FaultsAt(faults, i).insert.Applied?
      && (landed <==> FaultsAt(faults, i).insert.AppliedButFailed?)
    ensures RowsOutcome(rows, stored, faults, count, false, CHUNK_SIZE * i, if landed then End(rows, i + 1) else CHUNK_SIZE * i)
  {
    assert CHUNK_SIZE * i / CHUNK_SIZE == i;
  }

  lemma RowsEnd(rows: seq<Row>, stored: set<string>, faults: seq<Faults>, n: nat, count: nat)
    requires Counted(rows, stored, faults, n) && |rows| <= CHUNK_SIZE * n && count == |Wanted(rows, stored)|
    ensures RowsOutcome(rows, stored, faults, count, true, |rows|, |rows|)
  {
    assert rows[..|rows|] == rows;
    forall k: nat | n <= k
      ensures !Brings(rows, k, stored)
    {
      NothingBeyond(rows, k, stored);
    }
  }

  lemma NothingBeyond(rows: seq<Row>, k: nat, stored: set<string>)
    requires |rows| <= CHUNK_SIZE * k
    ensures !Brings(rows, k, stored)
  {
  }

  lemma StoredWithPart(before: seq<Record>, mid: seq<Record>, part: seq<Row>, convs: seq<Conversation>, inbox: nat, user: Sender)
    requires Landed(before, mid, Wanted(part, Stored(before)), convs, inbox, user)
    ensures Stored(mid) == Stored(before) + Sources(part)
  {
    StoredAfterLanding(before, mid, Wanted(part, Stored(before)), convs, inbox, user);
    WantedIsExact(part, Stored(before));
  }

  // ---- What an inserted record is -----------------------------------------------------------

  /** The record is that of an eligible message of the feed: written by who wrote it, with its text or
      the placeholder, at its time or the import's, in the conversation of its chat. What the
      account sent is from the owner of the token, or from nobody; the rest from the contact. */
  ghost predicate IsOf(record: Record, m: HistorySync.Message, now: int, o: Options, setup: Setup,
                       convs: seq<Conversation>, inbox: nat) {
    && Eligible(m, now, o)
    && record.source == "WAID:" + Text.Trim(m.id)
    && record.fromMe == m.fromMe
    && (if Text.Trim(m.text) != "" then record.content == Text.Trim(m.text) else record.content == PLACEHOLDER)
    && (if m.at != 0 then record.at == m.at else record.at == now)
    && record.conversation < |convs| && convs[record.conversation].inbox == inbox
    && ChatUser(m.chat, convs[record.conversation].contact)
    && (m.fromMe ==>
          record.sender == if setup.Ready? && setup.token.Owner? then FromUser(setup.token.id) else Nobody)
    && (!m.fromMe ==> record.sender == FromContact(convs[record.conversation].contact))
  }

  ghost predicate FromFeed(record: Record, feed: Feed, now: int, o: Options, setup: Setup, convs: seq<Conversation>, inbox: nat) {
    exists m :: m in feed && IsOf(record, m, now, o, setup, convs, inbox)
  }

  /** In the order of the inserts: by chat, by time, by source id. */
  ghost predicate Before(a: Record, b: Record, convs: seq<Conversation>) {
    a.conversation < |convs| && b.conversation < |convs| ==>
      var (chatA, chatB) := (convs[a.conversation].contact, convs[b.conversation].contact);
      && !Text.Less(chatB, chatA)
      && (chatA == chatB ==> a.at <= b.at)
      && (chatA == chatB && a.at == b.at ==> !Text.Less(b.source, a.source))
  }

  ghost predicate Imported(before: seq<Record>, after: seq<Record>, feed: Feed, now: int, o: Options, setup: Setup,
                           convs: seq<Conversation>, inbox: nat) {
    && before <= after
    && (forall k :: |before| <= k < |after| ==> FromFeed(after[k], feed, now, o, setup, convs, inbox))
    && (forall k, l :: |before| <= k < l < |after| ==> Before(after[k], after[l], convs))
  }

  lemma CarriedIsOf(record: Record, row: Row, feed: Feed, now: int, o: Options, setup: Setup,
                    convs: seq<Conversation>, inbox: nat)
    requires Carries(record, row, convs, inbox, UserOf(setup)) && row in Normalized(feed, now, o)
    ensures FromFeed(record, feed, now, o, setup, convs, inbox)
  {
    NormalizedTells(feed, now, o, row);
    var m :| m in feed && Eligible(m, now, o) && Tells(row, m, now);
    assert IsOf(record, m, now, o, setup, convs, inbox);
  }

  lemma {:induction false} WantedOfPrefix(rows: seq<Row>, n: nat, stored: set<string>, row: Row)
    requires n <= |rows| && row in Wanted(rows[..n], stored)
    ensures row in rows
  {
    WantedComesFrom(rows[..n], stored, row);
  }

  lemma PrefixIsInOrder(feed: Feed, now: int, o: Options, done: nat, stored: set<string>)
    requires done <= |Normalized(feed, now, o)|
    ensures AllInOrder(Wanted(Normalized(feed, now, o)[..done], stored))
  {
    NormalizedIsOrdered(feed, now, o);
    OrderedMeans(Normalized(feed, now, o)[..done]);
    WantedKeepsOrder(Normalized(feed, now, o)[..done], stored);
    OrderedMeans(Wanted(Normalized(feed, now, o)[..done], stored));
  }

  lemma LandedRecordIsOf(before: seq<Record>, after: seq<Record>, feed: Feed, now: int, o: Options, setup: Setup, done: nat,
                         convs: seq<Conversation>, inbox: nat, k: nat)
    requires done <= |Normalized(feed, now, o)| && |before| <= k < |after|
    requires Landed(before, after, Wanted(Normalized(feed, now, o)[..done], Stored(before)), convs, inbox, UserOf(setup))
    ensures FromFeed(after[k], feed, now, o, setup, convs, inbox)
  {
    var rows, i := Wanted(Normalized(feed, now, o)[..done], Stored(before)), k - |before|;
    assert Carries(after[|before| + i], rows[i], convs, inbox, UserOf(setup));
    WantedOfPrefix(Normalized(feed, now, o), done, Stored(before), rows[i]);
    CarriedIsOf(after[k], rows[i], feed, now, o, setup, convs, inbox);
  }

  lemma CarriedInOrder(a: Record, b: Record, rowA: Row, rowB: Row, convs: seq<Conversation>, inbox: nat, user: Sender)
    requires Carries(a, rowA, convs, inbox, user) && Carries(b, rowB, convs, inbox, user) && InOrder(rowA, rowB)
    ensures Before(a, b, convs)
  {
  }

  lemma LandedInOrder(before: seq<Record>, after: seq<Record>, rows: seq<Row>, convs: seq<Conversation>, inbox: nat, user: Sender,
                      k: nat, l: nat)
    requires Landed(before, after, rows, convs, inbox, user) && |before| <= k < l < |after|
    requires AllInOrder(rows)
    ensures Before(after[k], after[l], convs)
  {
    var i, j := k - |before|, l - |before|;
    assert Carries(after[|before| + i], rows[i], convs, inbox, user);
    assert Carries(after[|before| + j], rows[j], convs, inbox, user);
    CarriedInOrder(after[k], after[l], rows[i], rows[j], convs, inbox, user);
  }

  lemma LandedIsImported(before: seq<Record>, after: seq<Record>, feed: Feed, now: int, o: Options, setup: Setup, done: nat,
                         convs: seq<Conversation>, inbox: nat)
    requires done <= |Normalized(feed, now, o)|
    requires Landed(before, after, Wanted(Normalized(feed, now, o)[..done], Stored(before)), convs, inbox, UserOf(setup))
    ensures Imported(before, after, feed, now, o, setup, convs, inbox)
  {
    forall k | |before| <= k < |after|
      ensures FromFeed(after[k], feed, now, o, setup, convs, inbox)
    {
      LandedRecordIsOf(before, after, feed, now, o, setup, done, convs, inbox, k);
    }
    PrefixIsInOrder(feed, now, o, done, Stored(before));
    forall k, l | |before| <= k < l < |after|
      ensures Before(after[k], after[l], convs)
    {
      LandedInOrder(before, after, Wanted(Normalized(feed, now, o)[..done], Stored(before)), convs, inbox, UserOf(setup), k, l);
    }
  }

  /** When the whole feed landed, every eligible message of it is stored. */
  lemma EligibleIsStored(before: seq<Record>, after: seq<Record>, feed: Feed, now: int, o: Options, setup: Setup,
                         convs: seq<Conversation>, inbox: nat, m: HistorySync.Message)
    requires Landed(before, after, Wanted(Normalized(feed, now, o), Stored(before)), convs, inbox, UserOf(setup))
    requires m in feed && Eligible(m, now, o)
    ensures exists record :: record in after && record.source == "WAID:" + Text.Trim(m.id)
  {
    var rows := Normalized(feed, now, o);
    StoredWithPart(before, after, rows, convs, inbox, UserOf(setup));
    EligibleIsNormalized(feed, now, o, m);
    var row :| row in rows && Tells(row, m, now);
    SourcesMean(rows, row.source);
    assert row.source in Stored(after);
  }

  lemma AllStored(before: seq<Record>, after: seq<Record>, feed: Feed, now: int, o: Options, setup: Setup,
                  convs: seq<Conversation>, inbox: nat)
    requires Landed(before, after, Wanted(Normalized(feed, now, o), Stored(before)), convs, inbox, UserOf(setup))
    ensures forall m :: m in feed && Eligible(m, now, o) ==>
              exists record :: record in after && record.source == "WAID:" + Text.Trim(m.id)
  {
    forall m | m in feed && Eligible(m, now, o)
      ensures exists record :: record in after && record.source == "WAID:" + Text.Trim(m.id)
    {
      EligibleIsStored(before, after, feed, now, o, setup, convs, inbox, m);
    }
  }

  lemma NoneEligible(feed: Feed, now: int, o: Options)
    requires Normalized(feed, now, o) == []
    ensures forall m :: m in feed ==> !Eligible(m, now, o)
  {
    forall m | m in feed
      ensures !Eligible(m, now, o)
    {
      if Eligible(m, now, o) {
        EligibleIsNormalized(feed, now, o, m);
      }
    }
  }

  // ---- The import -------------------------------------------------------------------------

  class Chatwoot {
    var messages: seq<Record>
    var contacts: set<string>
    var links: set<Link>
    var conversations: seq<Conversation>

    constructor (messages: seq<Record>, contacts: set<string>, links: set<Link>, conversations: seq<Conversation>)
      ensures this.messages == messages && this.contacts == contacts
      ensures this.links == links && this.conversations == conversations
    {
      this.messages, this.contacts, this.links, this.conversations := messages, contacts, links, conversations;
    }

    method EnsureLink(inbox: nat, contact: string, h: HomeFaults) returns (ok: bool)
      modifies this`links
      ensures (links, ok) == Linked(old(links), inbox, contact, h)
      ensures ok <==> h.linkLookup && (Link(inbox, contact) in old(links) || h.link.Applied?)
      ensures old(links) <= links <= old(links) + {Link(inbox, contact)} && (ok ==> Link(inbox, contact) in links)
    {
      if !h.linkLookup {
        return false;
      }
      if Link(inbox, contact) in links {
        return true;
      }
      if !h.link.NotApplied? {
        links := links + {Link(inbox, contact)};
      }
      ok := h.link.Applied?;
    }

    method Allocate(inbox: nat, contact: string, attempts: seq<Attempt>) returns (id: Option<nat>)
      modifies this`conversations
      ensures (conversations, id) == Allocated(old(conversations), inbox, contact, attempts, 1)
    {
      var attempt := 1;
      while true
        invariant 1 <= attempt <= DISPLAY_ID_ATTEMPTS
        invariant Allocated(conversations, inbox, contact, attempts, attempt)
               == Allocated(old(conversations), inbox, contact, attempts, 1)
        decreases DISPLAY_ID_ATTEMPTS - attempt
      {
        var a := AttemptAt(attempts, attempt);
        if !a.max {
          return None;
        }
        var display := MaxDisplay(conversations) + 1;
        conversations := AfterRails(conversations, a.window);
        if a.insert.NotApplied? {
          return None;
        }
        if !Taken(conversations, display) {
          id := if a.insert.Applied? then Some(|conversations|) else None;
          conversations := conversations + [Conversation(inbox, contact, display)];
          return;
        }
        if a.insert.AppliedButFailed? || attempt >= DISPLAY_ID_ATTEMPTS || !a.recheck {
          return None;
        }
        var found := Find(conversations, inbox, contact);
        if found < |conversations| {
          return Some(found);
        }
        attempt := attempt + 1;
      }
    }

    method EnsureConversation(inbox: nat, contact: string, h: HomeFaults) returns (id: Option<nat>)
      modifies this`conversations, this`links
      ensures (conversations, links, id) == Ensured(old(conversations), old(links), inbox, contact, h)
      ensures !h.lookup ==> id.None?
      ensures (exists i :: HomeOf(old(conversations), inbox, contact, i)) || !h.lookup ==>
                conversations == old(conversations) && links == old(links)
      ensures h.lookup ==> forall i :: HomeOf(old(conversations), inbox, contact, i) ==> id.Some? && id.value <= i
    {
      if !h.lookup {
        return None;
      }
      var found := Find(conversations, inbox, contact);
      if found < |conversations| {
        return Some(found);
      }
      var linked := EnsureLink(inbox, contact, h);
      if !linked {
        return None;
      }
      id := Allocate(inbox, contact, h.attempts);
    }

    /** The contacts of the authors; the missing ones are upserted in one transaction. */
    method EnsureContacts(authors: set<string>, f: Faults) returns (found: set<string>, ok: bool)
      modifies this`contacts
      ensures old(contacts) <= contacts <= old(contacts) + authors
      ensures ok ==> found == authors && authors <= contacts
      ensures f.contacts && f.upsert.Applied? && f.requery ==> ok
    {
      found := {};
      if authors != {} && !f.contacts {
        return {}, false;
      }
      found := authors * contacts;
      var missing := authors - found;
      assert authors == found + missing;
      if missing == {} {
        return found, true;
      }
      if !f.upsert.NotApplied? {
        contacts := contacts + missing;
      }
      if !f.upsert.Applied? || !f.requery {
        return found, false;
      }
      found := found + missing * contacts;
      ok := true;
    }

    method EnsureConversations(inbox: nat, found: set<string>, f: Faults) returns (homes: map<string, nat>, ok: bool)
      requires DisplaysUnique(conversations)
      modifies this`conversations, this`links
      ensures DisplaysUnique(conversations) && old(conversations) <= conversations && old(links) <= links
      ensures forall contact :: contact in homes ==> HomeOf(conversations, inbox, contact, homes[contact])
      ensures ok ==> homes.Keys == found
      ensures f.homes == map[] ==> ok
    {
      homes := map[];
      var todo := found;
      while todo != {}
        invariant DisplaysUnique(conversations) && old(conversations) <= conversations && old(links) <= links
        invariant forall contact :: contact in homes ==> HomeOf(conversations, inbox, contact, homes[contact])
        invariant homes.Keys == found - todo && todo <= found
        decreases |todo|
      {
        var contact :| contact in todo;
        var h := if contact in f.homes then f.homes[contact] else HOME_WORKS;
        EnsuredIsHome(conversations, links, inbox, contact, h);
        UndisturbedIsHome(conversations, links, inbox, contact);
        var id := EnsureConversation(inbox, contact, h);
        if id.None? {
          return homes, false;
        }
        homes := homes[contact := id.value];
        todo := todo - {contact};
      }
      ok := true;
    }

    static method FreshRows(chunk: seq<Row>, existing: set<string>, homes: set<string>) returns (added: seq<Row>)
      ensures added == Homed(Wanted(chunk, existing), homes)
    {
      added := [];
      var seen: set<string> := {};
      for i := 0 to |chunk|
        invariant added == Homed(Wanted(chunk[..i], existing), homes)
        invariant existing + seen == existing + Sources(chunk[..i])
      {
        var row := chunk[i];
        assert chunk[..i + 1] == chunk[..i] + [row];
        assert chunk[..i + 1][..i] == chunk[..i];
        assert row.source in existing + seen <==> row.source in existing + Sources(chunk[..i]);
        if row.source in existing || row.source in seen {
          continue;
        }
        seen := seen + {row.source};
        if row.identifier !in homes {
          continue;
        }
        added := added + [row];
      }
      assert chunk[..|chunk|] == chunk;
    }

    static method Records(added: seq<Row>, homes: map<string, nat>, user: Sender, ghost convs: seq<Conversation>, ghost inbox: nat)
      returns (records: seq<Record>)
      requires forall row :: row in added ==> row.identifier in homes
      requires forall contact :: contact in homes ==> HomeOf(convs, inbox, contact, homes[contact])
      ensures |records| == |added|
      ensures forall i :: 0 <= i < |added| ==> Carries(records[i], added[i], convs, inbox, user)
    {
      records := [];
      for i := 0 to |added|
        invariant |records| == i
        invariant forall k :: 0 <= k < i ==> Carries(records[k], added[k], convs, inbox, user)
      {
        var row := added[i];
        var sender := FromContact(row.identifier);
        if row.fromMe {
          sender := user;
        }
        records := records + [Record(row.source, row.content, homes[row.identifier], row.fromMe, sender, row.at)];
      }
    }

    method InsertMessages(inbox: nat, user: Sender, added: seq<Row>, homes: map<string, nat>, insert: Write)
      returns (n: nat, ok: bool, ghost landed: bool)
      requires forall row :: row in added ==> row.identifier in homes
      requires forall contact :: contact in homes ==> HomeOf(conversations, inbox, contact, homes[contact])
      modifies this`messages
      ensures landed ==> Landed(old(messages), messages, added, conversations, inbox, user)
      ensures landed == !insert.NotApplied? && (!landed ==> messages == old(messages))
      ensures ok == insert.Applied? && n == if ok then |added| else 0
    {
      var records := Records(added, homes, user, conversations, inbox);
      n, ok, landed := 0, insert.Applied?, !insert.NotApplied?;
      if !insert.NotApplied? {
        messages := messages + records;
      }
      if insert.Applied? {
        n := |added|;
      }
    }

    /** One chunk: all of its wanted rows land, or none does; the count is theirs exactly when the
        chunk is reported done. */
    method ImportMessageChunk(inbox: nat, user: Sender, chunk: seq<Row>, f: Faults) returns (n: nat, ok: bool, ghost landed: bool)
      requires DisplaysUnique(conversations)
      modifies this
      ensures DisplaysUnique(conversations) && old(conversations) <= conversations && old(contacts) <= contacts
      ensures landed ==>
        Landed(old(messages), messages, Wanted(chunk, Stored(old(messages))), conversations, inbox, user)
      ensures !landed ==> messages == old(messages)
      ensures ok ==> landed && n == |Wanted(chunk, Stored(old(messages)))|
      ensures !ok ==> n == 0
      ensures !ok && landed ==> f.insert.AppliedButFailed?
      ensures Wanted(chunk, Stored(old(messages))) == [] ==> !(landed && !ok)
      ensures ok ==> f.insert.Applied? || Wanted(chunk, Stored(old(messages))) == []
      ensures Smooth(f) && !ok ==>
        !f.insert.Applied? && Wanted(chunk, Stored(old(messages))) != [] && (landed <==> f.insert.AppliedButFailed?)
    {
      n, ok, landed := 0, false, false;
      var existing := Stored(messages) * Sources(chunk);
      if chunk != [] && !f.existing {
        return;
      }
      OnlyOwnSourcesMatter(chunk, Stored(messages), Sources(chunk));
      var authors := Authors(chunk, existing);
      var found, ready := EnsureContacts(authors, f);
      if !ready {
        return;
      }
      var homes, homed := EnsureConversations(inbox, found, f);
      if !homed {
        return;
      }
      SkipNeverFires(chunk, existing);
      var added := FreshRows(chunk, existing, homes.Keys);
      landed := true;
      if |added| == 0 {
        ok := true;
        return;
      }
      HomedHasHome(Wanted(chunk, existing), homes.Keys);
      n, ok, landed := InsertMessages(inbox, user, added, homes, f.insert);
    }

    /** The chunks, one after the other. */
    method ImportRows(inbox: nat, user: Sender, rows: seq<Row>, faults: seq<Faults>)
      returns (count: nat, ok: bool, ghost reported: nat, ghost done: nat)
      requires DisplaysUnique(conversations)
      modifies this
      ensures DisplaysUnique(conversations) && old(conversations) <= conversations
      ensures RowsOutcome(rows, Stored(old(messages)), faults, count, ok, reported, done)
      ensures Landed(old(messages), messages, Wanted(rows[..done], Stored(old(messages))), conversations, inbox, user)
    {
      count, ok, reported, done := 0, true, 0, 0;
      ghost var stored := Stored(messages);
      var chunks := ChunkMessageRows(rows, CHUNK_SIZE);
      for i := 0 to |chunks|
        invariant DisplaysUnique(conversations) && old(conversations) <= conversations
        invariant done == reported == End(rows, i)
        invariant Landed(old(messages), messages, Wanted(rows[..done], stored), conversations, inbox, user)
        invariant count == |Wanted(rows[..done], stored)|
        invariant Counted(rows, stored, faults, i)
      {
        ghost var mid, convs, part := messages, conversations, rows[..done];
        ChunkAt(rows, i);
        assert rows[..End(rows, i + 1)] == part + chunks[i];
        StoredWithPart(old(messages), mid, part, convs, inbox, user);
        var f := if i < |faults| then faults[i] else NO_FAULTS;
        var n, chunkOk, landed := ImportMessageChunk(inbox, user, chunks[i], f);
        count := count + n;
        if landed {
          ChunkLands(old(messages), mid, messages, part, chunks[i], convs, conversations, inbox, user);
          done := End(rows, i + 1);
        } else {
          LandedGrows(old(messages), mid, Wanted(part, stored), convs, conversations, inbox, user);
        }
        if !chunkOk {
          ok := false;
          RowsFail(rows, stored, faults, i, count, landed);
          return;
        }
        WantedInTwo(part, chunks[i], stored);
        CountedNext(rows, stored, faults, i);
        reported := done;
      }
      ChunksReachTheEnd(rows);
      assert rows[..|rows|] == rows;
      RowsEnd(rows, stored, faults, |chunks|, count);
    }

    /** The whole run. The rows of a prefix of the normalized feed are handled, chunk after chunk;
        together they insert what that prefix wants, as if there were no chunks. Of those, the
        chunks up to `reported` are counted. A last one lands without being counted exactly when
        its insert commits and is reported as failed. */
    method ImportMessages(inbox: nat, setup: Setup, feed: Feed, now: int, o: Options, faults: seq<Faults>)
      returns (count: nat, ok: bool, ghost reported: nat, ghost done: nat)
      requires DisplaysUnique(conversations)
      modifies this
      ensures DisplaysUnique(conversations) && old(conversations) <= conversations
      ensures Outcome(Normalized(feed, now, o), Stored(old(messages)), setup, faults, count, ok, reported, done)
      ensures Landed(old(messages), messages, Wanted(Normalized(feed, now, o)[..done], Stored(old(messages))),
                     conversations, inbox, UserOf(setup))
      ensures Imported(old(messages), messages, feed, now, o, setup, conversations, inbox)
      ensures !setup.Ready? ==> messages == old(messages) && count == 0 && (ok <==> setup.Disabled?)
      ensures ok && setup.Ready? && setup.token.LookupFailed? ==> forall m :: m in feed ==> !Eligible(m, now, o)
      ensures count <= |messages| - |old(messages)| && (ok ==> count == |messages| - |old(messages)|)
      ensures setup.Ready? && ok ==>
                forall m :: m in feed && Eligible(m, now, o) ==>
                  exists record :: record in messages && record.source == "WAID:" + Text.Trim(m.id)
    {
      count, ok, reported, done := 0, setup.Disabled?, 0, 0;
      if !setup.Ready? {
        return;
      }
      var rows := NormalizeMessages(feed, now, o);
      if |rows| == 0 {
        ok := true;
        NoneEligible(feed, now, o);
        AllStored(messages, messages, feed, now, o, setup, conversations, inbox);
        return;
      }
      if setup.token.LookupFailed? {
        return;
      }
      count, ok, reported, done := ImportRows(inbox, UserOf(setup), rows, faults);
      LandedIsImported(old(messages), messages, feed, now, o, setup, done, conversations, inbox);
      CountIsExactUnlessLost(rows, Stored(old(messages)), faults, count, ok, reported, done);
      if ok {
        assert rows[..done] == rows;
        AllStored(old(messages), messages, feed, now, o, setup, conversations, inbox);
      }
    }
  }

  /** The table grew by the count if and only if no chunk was stored without being counted. */
  lemma CountIsExactUnlessLost(rows: seq<Row>, stored: set<string>, faults: seq<Faults>,
                               count: nat, ok: bool, reported: nat, done: nat)
    requires RowsOutcome(rows, stored, faults, count, ok, reported, done)
    ensures count == |Wanted(rows[..done], stored)| <==> reported == done
    ensures count <= |Wanted(rows[..done], stored)|
  {
    var more := rows[reported..done];
    assert rows[..done] == rows[..reported] + more;
    WantedInTwo(rows[..reported], more, stored);
  }

  /** When nothing but inserts can fail, the inputs decide: the count falls short exactly when the
      first chunk that brings something and whose insert fails is stored all the same. */
  lemma UndercountsExactly(rows: seq<Row>, stored: set<string>, faults: seq<Faults>,
                           count: nat, ok: bool, reported: nat, done: nat)
    requires RowsOutcome(rows, stored, faults, count, ok, reported, done)
    requires forall i: nat :: Smooth(FaultsAt(faults, i))
    ensures count < |Wanted(rows[..done], stored)| <==>
              exists i: nat :: Counted(rows, stored, faults, i) && Brings(rows, i, stored) && FaultsAt(faults, i).insert.AppliedButFailed?
  {
    var failed := reported / CHUNK_SIZE;
    CountIsExactUnlessLost(rows, stored, faults, count, ok, reported, done);
    if i: nat :| Counted(rows, stored, faults, i) && Brings(rows, i, stored) && FaultsAt(faults, i).insert.AppliedButFailed? {
      assert i <= |rows| / CHUNK_SIZE;
      if !ok {
        assert Smooth(FaultsAt(faults, failed));
        assert i == failed;
      }
    }
  }

  /** A run whose only insert commits and is reported as failed: it counts nothing and stores the
      message. */
  method LostReplyUndercounts(db: Chatwoot, m: HistorySync.Message, now: int, o: Options) returns (count: nat, ok: bool)
    requires DisplaysUnique(db.conversations) && Eligible(m, now, o) && "WAID:" + Text.Trim(m.id) !in Stored(db.messages)
    modifies db
    ensures !ok && count == 0 && |db.messages| == |old(db.messages)| + 1
    ensures db.messages[|old(db.messages)|].source == "WAID:" + Text.Trim(m.id)
  {
    QualifiesExactly(m, now, o);
    ghost var row := RowOf(m, now);
    OneRow(m, now, o);
    OneRowBrings(row, Stored(db.messages));
    ghost var reported, done;
    count, ok, reported, done := db.ImportMessages(1, Ready(NoToken), [m], now, o, [NO_FAULTS.(insert := AppliedButFailed)]);
    assert [row][..1] == [row] && [row][..0] == [];
  }

  lemma OneRow(m: HistorySync.Message, now: int, o: Options)
    requires Qualifies(m, now, o)
    ensures Normalized([m], now, o) == [RowOf(m, now)]
  {
    assert [m][..0] == [];
    assert RowsOf([], now, o) == [];
    assert RowsOf([m], now, o) == [RowOf(m, now)];
    var row := RowOf(m, now);
    assert [row][1..] == [];
    assert Text.Sort(RowLess, []) == [];
    assert Text.Sort(RowLess, [row]) == Text.Insert(RowLess, row, []) == [row];
  }

  lemma OneRowBrings(row: Row, stored: set<string>)
    requires row.source !in stored
    ensures Wanted([row], stored) == [row] && Brings([row], 0, stored)
  {
    assert [row][..0] == [];
    assert stored + Sources([]) == stored;
    assert Chunk([row], 0) == [row];
  }

  lemma IdleRun(rows: seq<Row>, setup: Setup, faults: seq<Faults>, count: nat, ok: bool, reported: nat, done: nat,
                before: seq<Record>, after: seq<Record>, convs: seq<Conversation>, inbox: nat)
    requires Wanted(rows, Stored(before)) == [] && Outcome(rows, Stored(before), setup, faults, count, ok, reported, done)
    requires done <= |rows| && Landed(before, after, Wanted(rows[..done], Stored(before)), convs, inbox, UserOf(setup))
    ensures count == 0 && after == before
  {
    PrefixWantsNothing(rows, done, Stored(before));
    if reported <= |rows| {
      PrefixWantsNothing(rows, reported, Stored(before));
    }
  }

  /** A run that went through leaves nothing for a later one over the same feed: whatever its inbox,
      its token and its faults, it stores nothing and counts nothing. */
  method ImportTwice(db: Chatwoot, feed: Feed, now: int, later: int, o: Options,
                     inbox: nat, setup: Setup, faults: seq<Faults>, inbox': nat, setup': Setup, faults': seq<Faults>)
    returns (ok: bool, again: nat, ghost between: seq<Record>)
    requires DisplaysUnique(db.conversations) && now <= later && (Cutoff(later, o) == 0 ==> Cutoff(now, o) == 0)
    modifies db
    ensures setup.Ready? && ok ==> again == 0 && db.messages == between
    ensures setup.Ready? && ok ==>
      Landed(old(db.messages), between, Wanted(Normalized(feed, now, o), Stored(old(db.messages))), db.conversations, inbox, UserOf(setup))
  {
    var count, ok';
    ghost var stored, first, second := Stored(db.messages), Normalized(feed, now, o), Normalized(feed, later, o);
    ghost var reported, done, reported', done';
    count, ok, reported, done := db.ImportMessages(inbox, setup, feed, now, o, faults);
    between := db.messages;
    ghost var convs := db.conversations;
    again, ok', reported', done' := db.ImportMessages(inbox', setup', feed, later, o, faults');
    if setup.Ready? && ok {
      assert first[..done] == first;
      StoredAfterLanding(old(db.messages), between, Wanted(first, stored), convs, inbox, UserOf(setup));
      SecondRunInsertsNothing(feed, now, later, o, stored);
      IdleRun(second, setup', faults', again, ok', reported', done', between, db.messages, db.conversations, inbox');
      LandedGrows(old(db.messages), between, Wanted(first, stored), convs, db.conversations, inbox, UserOf(setup));
    }
  }

  lemma PrefixWantsNothing(rows: seq<Row>, n: nat, stored: set<string>)
    requires n <= |rows| && Wanted(rows, stored) == []
    ensures Wanted(rows[..n], stored) == []
  {
    assert rows == rows[..n] + rows[n..];
    WantedInTwo(rows[..n], rows[n..], stored);
  }
}
