/** The history import into the Chatwoot database (internal/chatwoot/import/import.go).

    Normalized rows go in by chunks of 500; a chunk drops what is already stored, makes sure of
    contacts and conversations, and inserts the rest in one statement. `Wanted` says in one line
    what a whole run has to insert, with no chunks in it. A contact row is named by its
    identifier, its unique key; a conversation by its position in the table, which only grows. */
module Import {
  import opened Text
  import opened Wrappers
  import HistorySync

  type Feed = seq<HistorySync.Message>

  const CHUNK_SIZE: nat := 500
  const DISPLAY_ID_ATTEMPTS: nat := 5
  const DAY: int := 86_400_000_000_000
  const SOURCE_PREFIX: string := "WAID:"
  const PLACEHOLDER: string := "(m\U{ed}dia n\U{e3}o importada)"

  // ---- Normalization --------------------------------------------------------------------

  datatype Row = Row(identifier: string, host: string, source: string, content: string, fromMe: bool, at: int)

  /** Instants count from the zero time, so 0 is a missing one. */
  datatype Options = Options(daysLimit: int, newerThan: int, placeholder: bool)

  /** The user and the host around the last '@'; a bare value is all user. */
  function SplitJid(jid: string): (string, string) {
    if '@' !in jid then (jid, "")
    else if jid[|jid| - 1] == '@' then (jid[..|jid| - 1], "")
    else
      var (user, host) := SplitJid(jid[..|jid| - 1]); (user, host + [jid[|jid| - 1]])
  }

  lemma {:induction false} SplitAtLast(user: string, host: string)
    requires '@' !in host
    ensures SplitJid(user + ['@'] + host) == (user, host)
  {
    var jid := user + ['@'] + host;
    if host == "" {
      assert jid[..|jid| - 1] == user;
    } else {
      SplitAtLast(user, host[..|host| - 1]);
      assert jid[..|jid| - 1] == user + ['@'] + host[..|host| - 1];
      assert jid[|user|] == '@' && jid[|jid| - 1] == host[|host| - 1];
      assert host[..|host| - 1] + [host[|host| - 1]] == host;
    }
  }

  function Cutoff(now: int, o: Options): int {
    if o.daysLimit > 0 then now - o.daysLimit * DAY else 0
  }

  predicate InWindow(at: int, now: int, o: Options) {
    at == 0 || (!(Cutoff(now, o) != 0 && at < Cutoff(now, o)) && !(o.newerThan != 0 && at < o.newerThan))
  }

  predicate Qualifies(m: HistorySync.Message, now: int, o: Options) {
    && Trim(m.id) != ""
    && SplitJid(m.chat).0 != ""
    && InWindow(m.at, now, o)
    && (Trim(m.text) != "" || o.placeholder)
  }

  function RowOf(m: HistorySync.Message, now: int): Row {
    var (identifier, host) := SplitJid(m.chat);
    Row(identifier, host, SOURCE_PREFIX + Trim(m.id), if Trim(m.text) == "" then PLACEHOLDER else Trim(m.text),
        m.fromMe, if m.at == 0 then now else m.at)
  }

  function RowsOf(msgs: Feed, now: int, o: Options): seq<Row> {
    if msgs == [] then []
    else
      var (init, m) := (RowsOf(msgs[..|msgs| - 1], now, o), msgs[|msgs| - 1]);
      if Qualifies(m, now, o) then init + [RowOf(m, now)] else init
  }

  predicate RowLess(a: Row, b: Row) {
    if a.identifier != b.identifier then Less(a.identifier, b.identifier)
    else if a.at != b.at then a.at < b.at
    else Less(a.source, b.source)
  }

  function Normalized(msgs: Feed, now: int, o: Options): seq<Row> {
    Sort(RowLess, RowsOf(msgs, now, o))
  }

  // ---- What a row is ----------------------------------------------------------------------

  /** The user part of a chat is what comes before its last '@', or all of it. */
  ghost predicate ChatUser(chat: string, user: string) {
    (chat == user && '@' !in chat) || exists host :: chat == user + ['@'] + host && '@' !in host
  }

  lemma {:induction false} SplitIsUser(chat: string)
    ensures '@' !in SplitJid(chat).1
    ensures (chat == SplitJid(chat).0 && '@' !in chat && SplitJid(chat).1 == "")
            || chat == SplitJid(chat).0 + ['@'] + SplitJid(chat).1
  {
    var n := |chat| - 1;
    if '@' in chat {
      assert chat == chat[..n] + [chat[n]];
      if chat[n] != '@' {
        SplitIsUser(chat[..n]);
        assert chat[n] !in [] && '@' in chat[..n];
        Regroup(SplitJid(chat[..n]).0 + ['@'], SplitJid(chat[..n]).1, [chat[n]]);
      }
    }
  }

  lemma ChatUserIs(chat: string, user: string)
    ensures ChatUser(chat, user) <==> user == SplitJid(chat).0
  {
    SplitIsUser(chat);
    if host :| chat == user + ['@'] + host && '@' !in host {
      SplitAtLast(user, host);
    }
  }

  /** A message goes in when it has an id and a chat, is not older than the day limit nor than the
      given instant, where it has an instant of its own, and has a text or gets a placeholder. */
  ghost predicate Eligible(m: HistorySync.Message, now: int, o: Options) {
    var day := 86_400_000_000_000;
    && Trim(m.id) != "" && !ChatUser(m.chat, "")
    && (m.at != 0 && o.daysLimit > 0 && now != o.daysLimit * day ==> m.at >= now - o.daysLimit * day)
    && (m.at != 0 && o.newerThan != 0 ==> m.at >= o.newerThan)
    && (Trim(m.text) == "" ==> o.placeholder)
  }

  lemma QualifiesExactly(m: HistorySync.Message, now: int, o: Options)
    ensures Qualifies(m, now, o) <==> Eligible(m, now, o)
  {
    ChatUserIs(m.chat, "");
  }

  /** The row says what its message says: who wrote it, in which chat, when and what, with the
      import's instant for a missing one and the placeholder for a missing text. */
  ghost predicate Tells(row: Row, m: HistorySync.Message, now: int) {
    && ChatUser(m.chat, row.identifier)
    && row.source == "WAID:" + Trim(m.id)
    && row.fromMe == m.fromMe
    && (if Trim(m.text) != "" then row.content == Trim(m.text) else row.content == PLACEHOLDER)
    && (if m.at != 0 then row.at == m.at else row.at == now)
  }

  lemma RowTells(m: HistorySync.Message, now: int)
    ensures Tells(RowOf(m, now), m, now)
  {
    ChatUserIs(m.chat, RowOf(m, now).identifier);
  }

  lemma {:induction false} RowsTell(msgs: Feed, now: int, o: Options, row: Row)
    requires row in RowsOf(msgs, now, o)
    ensures exists m :: m in msgs && Eligible(m, now, o) && Tells(row, m, now)
  {
    var n := |msgs| - 1;
    assert msgs == msgs[..n] + [msgs[n]];
    if row in RowsOf(msgs[..n], now, o) {
      RowsTell(msgs[..n], now, o, row);
    } else {
      QualifiesExactly(msgs[n], now, o);
      RowTells(msgs[n], now);
      assert msgs[n] in msgs;
    }
  }

  lemma {:induction false} EligibleHasRow(msgs: Feed, now: int, o: Options, m: HistorySync.Message)
    requires m in msgs && Eligible(m, now, o)
    ensures RowOf(m, now) in RowsOf(msgs, now, o)
  {
    var n := |msgs| - 1;
    assert msgs == msgs[..n] + [msgs[n]];
    QualifiesExactly(m, now, o);
    if msgs[n] != m {
      EligibleHasRow(msgs[..n], now, o, m);
    }
  }

  /** Ordered by chat, then by time, then by source id. */
  ghost predicate InOrder(a: Row, b: Row) {
    && !Less(b.identifier, a.identifier)
    && (a.identifier == b.identifier ==> a.at <= b.at)
    && (a.identifier == b.identifier && a.at == b.at ==> !Less(b.source, a.source))
  }

  ghost predicate AllInOrder(rows: seq<Row>) {
    forall i, j :: 0 <= i < j < |rows| ==> InOrder(rows[i], rows[j])
  }

  lemma InOrderExactly(a: Row, b: Row)
    ensures InOrder(a, b) <==> !RowLess(b, a)
  {
    LessIsTotal(a.identifier, b.identifier);
  }

  lemma OrderedMeans(rows: seq<Row>)
    ensures Ordered(RowLess, rows) <==> AllInOrder(rows)
  {
    forall i, j | 0 <= i < j < |rows|
      ensures InOrder(rows[i], rows[j]) <==> !RowLess(rows[j], rows[i])
    {
      InOrderExactly(rows[i], rows[j]);
    }
  }

  lemma NormalizedIsOrdered(msgs: Feed, now: int, o: Options)
    ensures AllInOrder(Normalized(msgs, now, o))
  {
    RowOrder();
    SortSorts(RowLess, RowsOf(msgs, now, o));
    OrderedMeans(Normalized(msgs, now, o));
  }

  lemma NormalizedHas(msgs: Feed, now: int, o: Options, row: Row)
    ensures row in Normalized(msgs, now, o) <==> row in RowsOf(msgs, now, o)
  {
    RowOrder();
    SortSorts(RowLess, RowsOf(msgs, now, o));
    assert row in Normalized(msgs, now, o) <==> row in multiset(Normalized(msgs, now, o));
    assert row in RowsOf(msgs, now, o) <==> row in multiset(RowsOf(msgs, now, o));
  }

  lemma NormalizedTells(msgs: Feed, now: int, o: Options, row: Row)
    requires row in Normalized(msgs, now, o)
    ensures exists m :: m in msgs && Eligible(m, now, o) && Tells(row, m, now)
  {
    NormalizedHas(msgs, now, o, row);
    RowsTell(msgs, now, o, row);
  }

  lemma EligibleIsNormalized(msgs: Feed, now: int, o: Options, m: HistorySync.Message)
    requires m in msgs && Eligible(m, now, o)
    ensures exists row :: row in Normalized(msgs, now, o) && Tells(row, m, now)
  {
    EligibleHasRow(msgs, now, o, m);
    NormalizedHas(msgs, now, o, RowOf(m, now));
    RowTells(m, now);
  }

  /** The rows are those of the eligible messages, in order. */
  lemma NormalizedMeans(msgs: Feed, now: int, o: Options)
    ensures forall row :: row in Normalized(msgs, now, o) ==> exists m :: m in msgs && Eligible(m, now, o) && Tells(row, m, now)
    ensures forall m :: m in msgs && Eligible(m, now, o) ==> exists row :: row in Normalized(msgs, now, o) && Tells(row, m, now)
    ensures AllInOrder(Normalized(msgs, now, o))
  {
    NormalizedIsOrdered(msgs, now, o);
    forall row | row in Normalized(msgs, now, o)
      ensures exists m :: m in msgs && Eligible(m, now, o) && Tells(row, m, now)
    {
      NormalizedTells(msgs, now, o, row);
    }
    forall m | m in msgs && Eligible(m, now, o)
      ensures exists row :: row in Normalized(msgs, now, o) && Tells(row, m, now)
    {
      EligibleIsNormalized(msgs, now, o, m);
    }
  }

  method NormalizeMessages(msgs: Feed, now: int, o: Options) returns (rows: seq<Row>)
    ensures rows == Normalized(msgs, now, o)
    ensures forall row :: row in rows ==> exists m :: m in msgs && Eligible(m, now, o) && Tells(row, m, now)
    ensures forall m :: m in msgs && Eligible(m, now, o) ==> exists row :: row in rows && Tells(row, m, now)
    ensures AllInOrder(rows)
  {
    NormalizedMeans(msgs, now, o);
    var cutoff := 0;
    if o.daysLimit > 0 {
      cutoff := now - o.daysLimit * DAY;
    }
    rows := [];
    for i := 0 to |msgs|
      invariant rows == RowsOf(msgs[..i], now, o)
    {
      var msg := msgs[i];
      assert msgs[..i + 1] == msgs[..i] + [msg];
      var key := Trim(msg.id);
      if key == "" {
        continue;
      }
      var (identifier, host) := SplitJid(msg.chat);
      if identifier == "" {
        continue;
      }
      if msg.at != 0 {
        if cutoff != 0 && msg.at < cutoff {
          continue;
        }
        if o.newerThan != 0 && msg.at < o.newerThan {
          continue;
        }
      }
      var content := Trim(msg.text);
      if content == "" {
        if !o.placeholder {
          continue;
        }
        content := PLACEHOLDER;
      }
      var at := msg.at;
      if at == 0 {
        at := now;
      }
      rows := rows + [Row(identifier, host, SOURCE_PREFIX + key, content, msg.fromMe, at)];
    }
    assert msgs[..|msgs|] == msgs;
    rows := Sort(RowLess, rows);
  }

  // ---- Chunks ---------------------------------------------------------------------------

  /** Slices of the limit, and what is left. */
  function Chunked(rows: seq<Row>, limit: nat): seq<seq<Row>>
    requires limit > 0
  {
    if rows == [] then []
    else if |rows| <= limit then [rows]
    else [rows[..limit]] + Chunked(rows[limit..], limit)
  }

  method ChunkMessageRows(all: seq<Row>, limit: nat) returns (chunks: seq<seq<Row>>)
    requires limit > 0
    ensures chunks == Chunked(all, limit)
  {
    var rows, size := all, limit;
    chunks := [];
    while |rows| > 0
      invariant chunks + Chunked(rows, limit) == Chunked(all, limit)
      invariant rows != [] ==> size == limit
    {
      NextSlice(chunks, rows, limit, Chunked(all, limit));
      if |rows| < size {
        size := |rows|;
      }
      chunks, rows := chunks + [rows[..size]], rows[size..];
    }
  }

  lemma NextSlice(chunks: seq<seq<Row>>, rows: seq<Row>, limit: nat, whole: seq<seq<Row>>)
    requires limit > 0 && rows != [] && chunks + Chunked(rows, limit) == whole
    ensures var size := if |rows| < limit then |rows| else limit;
      chunks + [rows[..size]] + Chunked(rows[size..], limit) == whole
  {
    var size := if |rows| < limit then |rows| else limit;
    assert |rows| <= limit ==> rows[..size] == rows && rows[size..] == [];
    Regroup(chunks, [rows[..size]], Chunked(rows[size..], limit));
  }

  function Flattened(chunks: seq<seq<Row>>): seq<Row> {
    if chunks == [] then [] else chunks[0] + Flattened(chunks[1..])
  }

  /** The chunks put together are the rows; all are full but the last, which is not empty. */
  lemma {:induction false} ChunksCoverRows(rows: seq<Row>, limit: nat)
    requires limit > 0
    ensures var chunks := Chunked(rows, limit);
      && Flattened(chunks) == rows
      && forall i :: 0 <= i < |chunks| ==> 0 < |chunks[i]| <= limit && (i < |chunks| - 1 ==> |chunks[i]| == limit)
    decreases |rows|
  {
    if |rows| > limit {
      ChunksCoverRows(rows[limit..], limit);
      var rest := Chunked(rows[limit..], limit);
      assert Chunked(rows, limit)[1..] == rest;
      assert rows == rows[..limit] + rows[limit..];
      assert forall i :: 0 < i < |rest| + 1 ==> Chunked(rows, limit)[i] == rest[i - 1];
    } else if rows != [] {
      assert [rows][1..] == [] && rows + [] == rows;
    }
  }

  // ---- What has to be inserted ------------------------------------------------------------

  function Sources(rows: seq<Row>): set<string> {
    if rows == [] then {} else Sources(rows[..|rows| - 1]) + {rows[|rows| - 1].source}
  }

  lemma {:induction false} SourcesMean(rows: seq<Row>, source: string)
    ensures source in Sources(rows) <==> exists i :: 0 <= i < |rows| && rows[i].source == source
  {
    if rows != [] {
      var init := rows[..|rows| - 1];
      SourcesMean(init, source);
      if source in Sources(init) {
        var i :| 0 <= i < |init| && init[i].source == source;
        assert rows[i].source == source;
      }
      if i :| 0 <= i < |rows| && rows[i].source == source {
        assert i < |init| ==> init[i].source == source;
      }
    }
  }

  /** The first row of every source id that is not stored yet. */
  function Wanted(rows: seq<Row>, stored: set<string>): seq<Row> {
    if rows == [] then []
    else
      var (init, last) := (rows[..|rows| - 1], rows[|rows| - 1]);
      if last.source in stored || last.source in Sources(init) then Wanted(init, stored)
      else Wanted(init, stored) + [last]
  }

  lemma {:induction false} SourcesAppended(rows: seq<Row>, more: seq<Row>)
    ensures Sources(rows + more) == Sources(rows) + Sources(more)
  {
    if more == [] {
      assert rows + more == rows;
    } else {
      SourcesAppended(rows, more[..|more| - 1]);
      assert (rows + more)[..|rows + more| - 1] == rows + more[..|more| - 1];
    }
  }

  /** A run inserts exactly the source ids that are in its rows and not stored, each once. */
  lemma {:induction false} WantedIsExact(rows: seq<Row>, stored: set<string>)
    ensures Sources(Wanted(rows, stored)) == Sources(rows) - stored
    ensures |Wanted(rows, stored)| == |Sources(rows) - stored|
  {
    if rows != [] {
      var init, source := rows[..|rows| - 1], rows[|rows| - 1].source;
      WantedIsExact(init, stored);
      if source in stored || source in Sources(init) {
        assert Sources(rows) - stored == Sources(init) - stored;
      } else {
        assert Sources(rows) - stored == Sources(init) - stored + {source};
        assert Wanted(rows, stored)[..|Wanted(init, stored)|] == Wanted(init, stored);
      }
    }
  }

  /** Chunk by chunk or in one go: what a chunk stores is what the next ones must skip. */
  lemma {:induction false} WantedInTwo(a: seq<Row>, b: seq<Row>, stored: set<string>)
    ensures Wanted(a + b, stored) == Wanted(a, stored) + Wanted(b, stored + Sources(a))
  {
    if b == [] {
      assert a + b == a;
    } else {
      var init, x := b[..|b| - 1], b[|b| - 1];
      WantedInTwo(a, init, stored);
      assert (a + b)[..|a + b| - 1] == a + init;
      SourcesAppended(a, init);
    }
  }

  lemma {:induction false} WantedComesFrom(rows: seq<Row>, stored: set<string>, row: Row)
    requires row in Wanted(rows, stored)
    ensures row in rows && row.source !in stored
  {
    var n := |rows| - 1;
    assert rows == rows[..n] + [rows[n]];
    if row in Wanted(rows[..n], stored) {
      WantedComesFrom(rows[..n], stored, row);
    }
  }

  lemma {:induction false} OnlyOwnSourcesMatter(rows: seq<Row>, stored: set<string>, own: set<string>)
    requires Sources(rows) <= own
    ensures Wanted(rows, stored * own) == Wanted(rows, stored)
  {
    if rows != [] {
      var n := |rows| - 1;
      OnlyOwnSourcesMatter(rows[..n], stored, own);
    }
  }

  lemma WantedNothing(rows: seq<Row>, stored: set<string>)
    requires Sources(rows) <= stored
    ensures Wanted(rows, stored) == []
  {
  }

  // ---- Order ------------------------------------------------------------------------------

  lemma RowOrder()
    ensures WeakOrder(RowLess)
  {
    forall a, b
      ensures !(RowLess(a, b) && RowLess(b, a))
    {
      LessIsTotal(a.identifier, b.identifier);
      LessIsTotal(a.source, b.source);
    }
    forall a, b, c | !RowLess(b, a) && !RowLess(c, b)
      ensures !RowLess(c, a)
    {
      RowOrderIsTransitive(a, b, c);
    }
  }

  lemma RowOrderIsTransitive(a: Row, b: Row, c: Row)
    requires !RowLess(b, a) && !RowLess(c, b)
    ensures !RowLess(c, a)
  {
    LessIsTotal(a.identifier, b.identifier);
    LessIsTotal(b.identifier, c.identifier);
    LessIsTotal(a.identifier, c.identifier);
    if a.identifier == c.identifier {
      if a.identifier == b.identifier && a.at == b.at && b.at == c.at {
        LessIsTransitive(a.source, b.source, c.source);
      }
    } else {
      LessIsTransitive(a.identifier, b.identifier, c.identifier);
    }
  }

  lemma {:induction false} WantedKeepsOrder(rows: seq<Row>, stored: set<string>)
    requires Ordered(RowLess, rows)
    ensures Ordered(RowLess, Wanted(rows, stored))
  {
    if rows != [] {
      var n := |rows| - 1;
      WantedKeepsOrder(rows[..n], stored);
      forall row | row in Wanted(rows[..n], stored)
        ensures !RowLess(rows[n], row)
      {
        WantedComesFrom(rows[..n], stored, row);
        var i :| 0 <= i < n && rows[i] == row;
      }
    }
  }

  /** What a run inserts goes in by identifier, then time, then source id. */
  lemma WantedIsOrdered(msgs: Feed, now: int, o: Options, stored: set<string>)
    ensures AllInOrder(Wanted(Normalized(msgs, now, o), stored))
    ensures multiset(Normalized(msgs, now, o)) == multiset(RowsOf(msgs, now, o))
  {
    RowOrder();
    SortSorts(RowLess, RowsOf(msgs, now, o));
    WantedKeepsOrder(Normalized(msgs, now, o), stored);
    OrderedMeans(Wanted(Normalized(msgs, now, o), stored));
  }

  /** Of the rows of one source id the least goes in. */
  lemma {:induction false} WantedIsLeast(rows: seq<Row>, stored: set<string>, row: Row, other: Row)
    requires Ordered(RowLess, rows) && row in Wanted(rows, stored) && other in rows && other.source == row.source
    ensures !RowLess(other, row) && InOrder(row, other)
  {
    InOrderExactly(row, other);
    var n := |rows| - 1;
    assert rows == rows[..n] + [rows[n]];
    if row in Wanted(rows[..n], stored) {
      WantedComesFrom(rows[..n], stored, row);
      var i :| 0 <= i < n && rows[i] == row;
      if other in rows[..n] {
        WantedIsLeast(rows[..n], stored, row, other);
      }
    } else {
      RowOrder();
      SourcesMean(rows[..n], other.source);
      assert other !in rows[..n];
    }
  }

  // ---- The second run ---------------------------------------------------------------------

  lemma {:induction false} SourcesOfRows(msgs: Feed, now: int, o: Options, source: string)
    ensures source in Sources(RowsOf(msgs, now, o))
       <==> exists m :: m in msgs && Eligible(m, now, o) && "WAID:" + Trim(m.id) == source
  {
    if msgs != [] {
      QualifiesExactly(msgs[|msgs| - 1], now, o);
      var n := |msgs| - 1;
      var init := RowsOf(msgs[..n], now, o);
      SourcesOfRows(msgs[..n], now, o, source);
      assert msgs == msgs[..n] + [msgs[n]];
      assert (init + [RowOf(msgs[n], now)])[..|init|] == init;
    }
  }

  lemma SourcesOfNormalized(msgs: Feed, now: int, o: Options)
    ensures Sources(Normalized(msgs, now, o)) == Sources(RowsOf(msgs, now, o))
  {
    RowOrder();
    SortSorts(RowLess, RowsOf(msgs, now, o));
    SourcesOfMultiset(RowsOf(msgs, now, o), Normalized(msgs, now, o));
    SourcesOfMultiset(Normalized(msgs, now, o), RowsOf(msgs, now, o));
  }

  lemma SourcesOfMultiset(a: seq<Row>, b: seq<Row>)
    requires multiset(a) == multiset(b)
    ensures Sources(a) <= Sources(b)
  {
    forall source | source in Sources(a)
      ensures source in Sources(b)
    {
      SourcesMean(a, source);
      SourcesMean(b, source);
      var i :| 0 <= i < |a| && a[i].source == source;
      assert a[i] in multiset(b);
      var j :| 0 <= j < |b| && b[j] == a[i];
    }
  }

  /** A later run over the same feed qualifies no message that the first did not: the day limit
      only moves forward. */
  lemma LaterRunQualifiesLess(m: HistorySync.Message, now: int, later: int, o: Options)
    requires now <= later && (Cutoff(later, o) == 0 ==> Cutoff(now, o) == 0)
    requires Eligible(m, later, o)
    ensures Eligible(m, now, o)
  {
  }

  /** Once a run went through, another over the same feed has nothing to insert. */
  lemma SecondRunInsertsNothing(msgs: Feed, now: int, later: int, o: Options, stored: set<string>)
    requires now <= later && (Cutoff(later, o) == 0 ==> Cutoff(now, o) == 0)
    ensures Wanted(Normalized(msgs, later, o), stored + Sources(Wanted(Normalized(msgs, now, o), stored))) == []
  {
    var first, second := Normalized(msgs, now, o), Normalized(msgs, later, o);
    SourcesOfNormalized(msgs, now, o);
    SourcesOfNormalized(msgs, later, o);
    WantedIsExact(first, stored);
    forall source | source in Sources(second)
      ensures source in Sources(first)
    {
      SourcesOfRows(msgs, later, o, source);
      SourcesOfRows(msgs, now, o, source);
      var m :| m in msgs && Eligible(m, later, o) && "WAID:" + Trim(m.id) == source;
      LaterRunQualifiesLess(m, now, later, o);
    }
    WantedNothing(second, stored + Sources(Wanted(first, stored)));
  }
}
