/** The per-instance history-sync feed (internal/session/historysync.go).

    The accumulator merges chunks in place, with index maps beside its slices. Its meaning needs
    neither: a feed is the chats and contacts observed, each with the first non-empty name and,
    for a chat, the first occurrence of every message id. A slice is an array here; appending makes
    a new one, and a chat or a contact is overwritten where it stands, which is what a snapshot has
    to be safe from. */
module HistorySync {
  import opened Dedup
  import opened Wrappers

  datatype Message = Message(id: string, chat: string, sender: string, fromMe: bool, at: int, text: string)

  datatype Conversation = Conversation(chat: string, name: string, messages: seq<Message>)

  datatype Contact = Contact(jid: string, name: string)

  datatype Chunk = Chunk(syncType: string, progress: nat, conversations: seq<Conversation>, contacts: seq<Contact>)

  datatype Feed = Feed(
    chunks: nat, progress: nat, syncType: string, total: int,
    convs: seq<Conversation>, contacts: seq<Contact>, completed: bool, updatedAt: int)

  const EMPTY: Feed := Feed(0, 0, "", 0, [], [], false, 0)

  function IdOf(m: Message): string { m.id }

  function ChatOf(c: Conversation): string { c.chat }

  function JidOf(c: Contact): string { c.jid }

  // ---- One merge ------------------------------------------------------------------------

  function Filled(m: Message, chat: string): Message {
    if m.chat == "" then m.(chat := chat) else m
  }

  function Appended(stored: seq<Message>, chat: string, msgs: seq<Message>): seq<Message> {
    if msgs == [] then stored
    else
      var (init, m) := (Appended(stored, chat, msgs[..|msgs| - 1]), msgs[|msgs| - 1]);
      if m.id == "" || Has(IdOf, init, m.id) then init else init + [Filled(m, chat)]
  }

  function MergedConversation(convs: seq<Conversation>, conv: Conversation): seq<Conversation> {
    var i := Position(ChatOf, convs, conv.chat);
    if i < |convs| then
      var name := if convs[i].name == "" then conv.name else convs[i].name;
      convs[i := Conversation(conv.chat, name, Appended(convs[i].messages, conv.chat, conv.messages))]
    else convs + [Conversation(conv.chat, conv.name, Appended([], conv.chat, conv.messages))]
  }

  function MergedContact(contacts: seq<Contact>, contact: Contact): seq<Contact> {
    var i := Position(JidOf, contacts, contact.jid);
    if contact.jid == "" then contacts
    else if i == |contacts| then contacts + [contact]
    else if contacts[i].name == "" then contacts[i := Contact(contact.jid, contact.name)]
    else contacts
  }

  function MergedConversations(convs: seq<Conversation>, more: seq<Conversation>): seq<Conversation> {
    if more == [] then convs
    else MergedConversation(MergedConversations(convs, more[..|more| - 1]), more[|more| - 1])
  }

  function MergedContacts(contacts: seq<Contact>, more: seq<Contact>): seq<Contact> {
    if more == [] then contacts
    else MergedContact(MergedContacts(contacts, more[..|more| - 1]), more[|more| - 1])
  }

  function Observed(feed: Feed, chunk: Chunk, now: int): Feed {
    feed.(chunks := feed.chunks + 1,
          progress := if chunk.progress > feed.progress then chunk.progress else feed.progress,
          syncType := if chunk.syncType != "" then chunk.syncType else feed.syncType,
          convs := MergedConversations(feed.convs, chunk.conversations),
          contacts := MergedContacts(feed.contacts, chunk.contacts),
          updatedAt := now)
  }

  lemma ObservedInParts(before: Feed, chunk: Chunk, now: int, noted: Feed, convs: seq<Conversation>, contacts: seq<Contact>)
    requires noted == Observed(before, chunk, now).(convs := before.convs, contacts := before.contacts)
    requires convs == MergedConversations(before.convs, chunk.conversations)
    requires contacts == MergedContacts(before.contacts, chunk.contacts)
    ensures noted.(convs := convs, contacts := contacts) == Observed(before, chunk, now)
  {
  }

  function Previewed(feed: Feed, announced: int, now: int): Feed {
    feed.(total := if announced > feed.total then announced else feed.total, updatedAt := now)
  }

  // ---- The indexes ----------------------------------------------------------------------

  ghost function Ids(messages: seq<Message>): set<string> {
    set m | m in messages :: m.id
  }

  ghost predicate ChatIndexed(convIdx: map<string, nat>, convs: seq<Conversation>, msgIdx: map<string, set<string>>,
                              chat: string) {
    && (chat in convIdx <==> Has(ChatOf, convs, chat))
    && (chat in convIdx ==>
          && convIdx[chat] == Position(ChatOf, convs, chat)
          && chat in msgIdx && msgIdx[chat] == Ids(convs[convIdx[chat]].messages))
  }

  ghost predicate ConvsIndexed(convIdx: map<string, nat>, convs: seq<Conversation>, msgIdx: map<string, set<string>>) {
    forall chat :: ChatIndexed(convIdx, convs, msgIdx, chat)
  }

  ghost predicate ContactsIndexed(contactIdx: map<string, nat>, contacts: seq<Contact>) {
    && (forall jid :: jid in contactIdx <==> Has(JidOf, contacts, jid))
    && (forall jid :: jid in contactIdx ==> contactIdx[jid] == Position(JidOf, contacts, jid))
  }

  lemma IdsMean(messages: seq<Message>, id: string)
    ensures id in Ids(messages) <==> Has(IdOf, messages, id)
  {
  }

  lemma ChatAfterAppend(convIdx: map<string, nat>, convs: seq<Conversation>, msgIdx: map<string, set<string>>,
                        conv: Conversation, chat: string)
    requires !Has(ChatOf, convs, conv.chat) && conv.messages == [] && ChatIndexed(convIdx, convs, msgIdx, chat)
    ensures ChatIndexed(convIdx[conv.chat := |convs|], convs + [conv], msgIdx[conv.chat := {}], chat)
  {
    PositionAfterAppend(ChatOf, convs, conv, chat);
  }

  lemma IndexedAfterAppend(convIdx: map<string, nat>, convs: seq<Conversation>, msgIdx: map<string, set<string>>,
                           conv: Conversation)
    requires ConvsIndexed(convIdx, convs, msgIdx) && conv.chat !in convIdx && conv.messages == []
    ensures ConvsIndexed(convIdx[conv.chat := |convs|], convs + [conv], msgIdx[conv.chat := {}])
  {
    assert ChatIndexed(convIdx, convs, msgIdx, conv.chat);
    var idx', convs', seen' := convIdx[conv.chat := |convs|], convs + [conv], msgIdx[conv.chat := {}];
    forall chat
      ensures ChatIndexed(idx', convs', seen', chat)
    {
      ChatAfterAppend(convIdx, convs, msgIdx, conv, chat);
    }
  }

  lemma ChatAfterUpdate(convIdx: map<string, nat>, convs: seq<Conversation>, msgIdx: map<string, set<string>>,
                        idx: nat, conv: Conversation, chat: string)
    requires ChatIndexed(convIdx, convs, msgIdx, chat) && idx < |convs| && convs[idx].chat == conv.chat
    requires chat == conv.chat ==> chat in convIdx && convIdx[chat] == idx
    ensures ChatIndexed(convIdx, convs[idx := conv], msgIdx[conv.chat := Ids(conv.messages)], chat)
  {
    PositionAfterUpdate(ChatOf, convs, idx, conv, chat);
  }

  lemma IndexedAfterUpdate(convIdx: map<string, nat>, convs: seq<Conversation>, msgIdx: map<string, set<string>>,
                           idx: nat, conv: Conversation, seen: set<string>)
    requires ConvsIndexed(convIdx, convs, msgIdx)
    requires conv.chat in convIdx && convIdx[conv.chat] == idx && seen == Ids(conv.messages)
    ensures idx < |convs| && ConvsIndexed(convIdx, convs[idx := conv], msgIdx[conv.chat := seen])
  {
    assert ChatIndexed(convIdx, convs, msgIdx, conv.chat);
    var convs', seen' := convs[idx := conv], msgIdx[conv.chat := seen];
    forall chat
      ensures ChatIndexed(convIdx, convs', seen', chat)
    {
      ChatAfterUpdate(convIdx, convs, msgIdx, idx, conv, chat);
    }
  }

  lemma MergedInPlace(before: seq<Conversation>, conv: Conversation, convs: seq<Conversation>, idx: nat)
    requires idx == Position(ChatOf, before, conv.chat)
    requires convs == if idx < |before| then before else before + [Conversation(conv.chat, conv.name, [])]
    ensures convs[idx].chat == conv.chat
    ensures var stored := convs[idx];
      convs[idx := Conversation(stored.chat, if stored.name == "" then conv.name else stored.name,
                                Appended(stored.messages, stored.chat, conv.messages))]
      == MergedConversation(before, conv)
  {
  }

  // ---- The slices -------------------------------------------------------------------------

  /** A chat as the slice of chats holds it, with its own slice of messages. */
  datatype Cell = Cell(chat: string, name: string, messages: array<Message>)

  ghost function Shown(c: Cell): Conversation
    reads c.messages
  {
    Conversation(c.chat, c.name, c.messages[..])
  }

  ghost predicate Shows(cells: seq<Cell>, convs: seq<Conversation>)
    reads set c | c in cells :: c.messages
  {
    |cells| == |convs| && forall i :: 0 <= i < |cells| ==> Shown(cells[i]) == convs[i]
  }

  lemma ShowsAppended(cells: seq<Cell>, convs: seq<Conversation>, cell: Cell, conv: Conversation)
    requires Shows(cells, convs) && Shown(cell) == conv
    ensures Shows(cells + [cell], convs + [conv])
  {
  }

  lemma NothingIndexed()
    ensures ConvsIndexed(map[], [], map[]) && ContactsIndexed(map[], [])
  {
  }

  method CopyOf<T(0)>(xs: seq<T>) returns (copy: array<T>)
    ensures fresh(copy) && copy[..] == xs
  {
    copy := new T[|xs|](i requires 0 <= i < |xs| => xs[i]);
  }

  method AppendedTo<T(0)>(a: array<T>, x: T) returns (longer: array<T>)
    ensures fresh(longer) && longer[..] == a[..] + [x]
  {
    longer := CopyOf(a[..] + [x]);
  }

  /** What Snapshot returns. */
  datatype Snapshot = Snapshot(
    chunks: nat, progress: nat, syncType: string, total: int,
    cells: array<Cell>, contacts: array<Contact>, completed: bool, updatedAt: int)

  ghost predicate Holds(s: Snapshot, feed: Feed)
    reads s.cells, s.contacts, set c | c in s.cells[..] :: c.messages
  {
    && Shows(s.cells[..], feed.convs) && s.contacts[..] == feed.contacts
    && s.chunks == feed.chunks && s.progress == feed.progress && s.syncType == feed.syncType
    && s.total == feed.total && s.completed == feed.completed && s.updatedAt == feed.updatedAt
  }

  // ---- The accumulator ------------------------------------------------------------------

  class HistorySyncAccumulator {
    var chunks: nat
    var progress: nat
    var syncType: string
    var total: int
    var convIdx: map<string, nat>
    var cells: array<Cell>
    var msgIdx: map<string, set<string>>
    var contactIdx: map<string, nat>
    var people: array<Contact>
    var completed: bool
    var updatedAt: int
    ghost var convs: seq<Conversation>

    ghost function View(): Feed
      reads this, people
    {
      Feed(chunks, progress, syncType, total, convs, people[..], completed, updatedAt)
    }

    ghost predicate ChatsOk()
      reads this`convIdx, this`convs, this`cells, this`msgIdx, cells, set c | c in cells[..] :: c.messages
    {
      Shows(cells[..], convs) && ConvsIndexed(convIdx, convs, msgIdx)
    }

    ghost predicate ContactsOk()
      reads this`contactIdx, this`people, people
    {
      ContactsIndexed(contactIdx, people[..])
    }

    ghost predicate Valid()
      reads this, cells, people, set c | c in cells[..] :: c.messages
    {
      ChatsOk() && ContactsOk()
    }

    constructor ()
      ensures Valid() && View() == EMPTY && fresh(cells) && fresh(people)
    {
      chunks, progress, syncType, total, completed, updatedAt := 0, 0, "", 0, false, 0;
      convIdx, convs, msgIdx, contactIdx := map[], [], map[], map[];
      cells := new Cell[0];
      people := new Contact[0];
    }

    static method AppendMessages(stored: seq<Message>, ids: set<string>, chat: string, msgs: seq<Message>)
      returns (messages: seq<Message>, seen: set<string>)
      requires ids == Ids(stored)
      ensures messages == Appended(stored, chat, msgs) && seen == Ids(messages)
    {
      messages, seen := stored, ids;
      for i := 0 to |msgs|
        invariant messages == Appended(stored, chat, msgs[..i]) && seen == Ids(messages)
      {
        var msg := msgs[i];
        assert msgs[..i + 1] == msgs[..i] + [msg];
        IdsMean(messages, msg.id);
        if msg.id == "" || msg.id in seen {
          continue;
        }
        messages, seen := messages + [Filled(msg, chat)], seen + {msg.id};
      }
      assert msgs[..|msgs|] == msgs;
    }

    /** The chat of the conversation, opened with an empty list when it is new. */
    method Open(conv: Conversation) returns (idx: nat)
      requires ChatsOk()
      modifies this`convIdx, this`convs, this`cells, this`msgIdx
      ensures ChatsOk() && idx == Position(ChatOf, old(convs), conv.chat) && conv.chat in convIdx
      ensures convs == if idx < |old(convs)| then old(convs) else old(convs) + [Conversation(conv.chat, conv.name, [])]
      ensures idx < |convs| && convIdx[conv.chat] == idx && (cells == old(cells) || fresh(cells))
    {
      assert ChatIndexed(convIdx, convs, msgIdx, conv.chat);
      if conv.chat in convIdx {
        return convIdx[conv.chat];
      }
      idx := cells.Length;
      AddCell(conv.chat, conv.name);
    }

    /** The append to the slice of chats. */
    method PushCell(chat: string, name: string)
      requires Shows(cells[..], convs)
      modifies this`convs, this`cells
      ensures Shows(cells[..], convs) && convs == old(convs) + [Conversation(chat, name, [])] && fresh(cells)
    {
      var none := new Message[0];
      var longer := AppendedTo(cells, Cell(chat, name, none));
      ShowsAppended(cells[..], convs, Cell(chat, name, none), Conversation(chat, name, []));
      cells, convs := longer, convs + [Conversation(chat, name, [])];
    }

    method AddCell(chat: string, name: string)
      requires ChatsOk() && chat !in convIdx
      modifies this`convIdx, this`convs, this`cells, this`msgIdx
      ensures ChatsOk() && convs == old(convs) + [Conversation(chat, name, [])] && fresh(cells)
      ensures convIdx == old(convIdx)[chat := |old(convs)|]
    {
      IndexedAfterAppend(convIdx, convs, msgIdx, Conversation(chat, name, []));
      convIdx, msgIdx := convIdx[chat := cells.Length], msgIdx[chat := {}];
      PushCell(chat, name);
    }

    /** The chat is overwritten where it stands. */
    method PutCell(idx: nat, name: string, messages: seq<Message>)
      requires Shows(cells[..], convs) && idx < |convs|
      modifies this`convs, cells
      ensures Shows(cells[..], convs) && convs == old(convs)[idx := Conversation(old(convs)[idx].chat, name, messages)]
    {
      assert Shown(cells[idx]) == convs[idx];
      var list := CopyOf(messages);
      cells[idx] := Cell(cells[idx].chat, name, list);
      convs := convs[idx := Conversation(convs[idx].chat, name, messages)];
    }

    method Put(idx: nat, name: string, messages: seq<Message>, seen: set<string>)
      requires ChatsOk() && idx < |convs| && convs[idx].chat in convIdx && convIdx[convs[idx].chat] == idx && seen == Ids(messages)
      modifies this`convs, this`msgIdx, cells
      ensures ChatsOk() && convs == old(convs)[idx := Conversation(old(convs)[idx].chat, name, messages)]
    {
      IndexedAfterUpdate(convIdx, convs, msgIdx, idx, Conversation(convs[idx].chat, name, messages), seen);
      assert Shown(cells[idx]) == convs[idx];
      msgIdx := msgIdx[cells[idx].chat := seen];
      PutCell(idx, name, messages);
    }

    method MergeInto(idx: nat, conv: Conversation)
      requires ChatsOk() && idx < |convs| && convs[idx].chat == conv.chat && conv.chat in convIdx && convIdx[conv.chat] == idx
      modifies this`convs, this`msgIdx, cells
      ensures ChatsOk()
      ensures var stored := old(convs)[idx];
        convs == old(convs)[idx := Conversation(stored.chat, if stored.name == "" then conv.name else stored.name,
                                                Appended(stored.messages, stored.chat, conv.messages))]
    {
      var stored := cells[idx];
      assert Shown(stored) == convs[idx] && ChatIndexed(convIdx, convs, msgIdx, conv.chat);
      var name := if stored.name == "" then conv.name else stored.name;
      var messages, seen := AppendMessages(stored.messages[..], msgIdx[stored.chat], stored.chat, conv.messages);
      Put(idx, name, messages, seen);
    }

    method MergeConversation(conv: Conversation)
      requires ChatsOk()
      modifies this`convIdx, this`convs, this`cells, this`msgIdx, cells
      ensures ChatsOk() && convs == MergedConversation(old(convs), conv) && (cells == old(cells) || fresh(cells))
    {
      var idx := Open(conv);
      MergedInPlace(old(convs), conv, convs, idx);
      MergeInto(idx, conv);
    }

    method MergeContact(contact: Contact)
      requires ContactsOk()
      modifies this`contactIdx, this`people, people
      ensures ContactsOk() && people[..] == MergedContact(old(people[..]), contact) && (people == old(people) || fresh(people))
    {
      if contact.jid == "" {
        return;
      }
      if contact.jid !in contactIdx {
        AddContact(contact);
        return;
      }
      var idx := contactIdx[contact.jid];
      if people[idx].name == "" {
        NameContact(idx, contact);
      }
    }

    method AddContact(contact: Contact)
      requires ContactsOk() && contact.jid !in contactIdx
      modifies this`contactIdx, this`people
      ensures ContactsOk() && people[..] == old(people[..]) + [contact] && fresh(people)
    {
      PositionsAfterAppend(JidOf, people[..], contact);
      contactIdx := contactIdx[contact.jid := people.Length];
      people := AppendedTo(people, contact);
    }

    /** The contact is overwritten where it stands. */
    method NameContact(idx: nat, contact: Contact)
      requires ContactsOk() && idx < people.Length && people[idx].jid == contact.jid
      modifies people
      ensures ContactsOk() && people[..] == old(people[..])[idx := contact]
    {
      PositionsAfterUpdate(JidOf, people[..], idx, contact);
      people[idx] := contact;
    }

    method MergeConversations(more: seq<Conversation>)
      requires ChatsOk()
      modifies this`convIdx, this`convs, this`cells, this`msgIdx, cells
      ensures ChatsOk() && convs == MergedConversations(old(convs), more) && (cells == old(cells) || fresh(cells))
    {
      for i := 0 to |more|
        invariant ChatsOk() && convs == MergedConversations(old(convs), more[..i]) && (cells == old(cells) || fresh(cells))
      {
        assert more[..i + 1] == more[..i] + [more[i]];
        MergeConversation(more[i]);
      }
      assert more[..|more|] == more;
    }

    method MergeContacts(more: seq<Contact>)
      requires ContactsOk()
      modifies this`contactIdx, this`people, people
      ensures ContactsOk() && people[..] == MergedContacts(old(people[..]), more) && (people == old(people) || fresh(people))
    {
      for i := 0 to |more|
        invariant ContactsOk() && people[..] == MergedContacts(old(people[..]), more[..i]) && (people == old(people) || fresh(people))
      {
        assert more[..i + 1] == more[..i] + [more[i]];
        MergeContact(more[i]);
      }
      assert more[..|more|] == more;
    }

    method NoteProgress(chunk: Chunk, now: int)
      modifies this`chunks, this`progress, this`syncType, this`updatedAt
      ensures View() == Observed(old(View()), chunk, now).(convs := convs, contacts := people[..])
    {
      chunks := chunks + 1;
      if chunk.progress > progress {
        progress := chunk.progress;
      }
      if chunk.syncType != "" {
        syncType := chunk.syncType;
      }
      updatedAt := now;
    }

    method MergeChunk(chunk: Chunk)
      requires Valid()
      modifies this`convIdx, this`convs, this`cells, this`msgIdx, this`contactIdx, this`people, cells, people
      ensures Valid()
      ensures convs == MergedConversations(old(convs), chunk.conversations)
      ensures people[..] == MergedContacts(old(people[..]), chunk.contacts)
      ensures (cells == old(cells) || fresh(cells)) && (people == old(people) || fresh(people))
    {
      MergeConversations(chunk.conversations);
      MergeContacts(chunk.contacts);
    }

    method Observe(chunk: Chunk, now: int)
      requires Valid()
      modifies this, cells, people
      ensures Valid() && View() == Observed(old(View()), chunk, now)
      ensures (cells == old(cells) || fresh(cells)) && (people == old(people) || fresh(people))
    {
      ghost var before := View();
      NoteProgress(chunk, now);
      ghost var noted := View();
      MergeChunk(chunk);
      ObservedInParts(before, chunk, now, noted, convs, people[..]);
    }

    method ObservePreview(announced: int, now: int)
      requires Valid()
      modifies this`total, this`updatedAt
      ensures Valid() && View() == Previewed(old(View()), announced, now)
    {
      if announced > total {
        total := announced;
      }
      updatedAt := now;
    }

    method MarkComplete(now: int)
      requires Valid()
      modifies this`completed, this`updatedAt
      ensures Valid() && View() == old(View()).(completed := true, updatedAt := now)
    {
      completed := true;
      updatedAt := now;
    }

    /** Everything is copied, the message slices too. */
    method TakeSnapshot() returns (snap: Snapshot)
      requires Valid()
      ensures Holds(snap, View()) && fresh(snap.cells) && fresh(snap.contacts)
      ensures forall i :: 0 <= i < snap.cells.Length ==> fresh(snap.cells[i].messages)
    {
      var copies: seq<Cell> := [];
      for i := 0 to cells.Length
        invariant Shows(copies, convs[..i]) && |copies| == i
        invariant forall c :: c in copies ==> fresh(c.messages)
      {
        var list := CopyOf(cells[i].messages[..]);
        assert Shown(cells[i]) == convs[i];
        copies := copies + [Cell(cells[i].chat, cells[i].name, list)];
      }
      assert convs[..cells.Length] == convs;
      var chats := CopyOf(copies);
      var known := CopyOf(people[..]);
      snap := Snapshot(chunks, progress, syncType, total, chats, known, completed, updatedAt);
    }

    method ForgetChats()
      modifies this`convIdx, this`convs, this`cells, this`msgIdx
      ensures ChatsOk() && convs == [] && fresh(cells)
    {
      convIdx, convs, msgIdx := map[], [], map[];
      cells := new Cell[0];
      NothingIndexed();
    }

    method ForgetContacts()
      modifies this`contactIdx, this`people
      ensures ContactsOk() && people[..] == [] && fresh(people)
    {
      contactIdx := map[];
      people := new Contact[0];
      NothingIndexed();
      assert people[..] == [];
    }

    method ForgetFeed()
      modifies this`convIdx, this`convs, this`cells, this`msgIdx, this`contactIdx, this`people
      ensures Valid() && convs == [] && people[..] == [] && fresh(cells) && fresh(people)
    {
      ForgetChats();
      ForgetContacts();
    }

    method ForgetProgress()
      modifies this`chunks, this`progress, this`syncType, this`total, this`completed, this`updatedAt
      ensures View() == EMPTY.(convs := convs, contacts := people[..])
    {
      chunks, progress, syncType, total, completed, updatedAt := 0, 0, "", 0, false, 0;
    }

    method Reset()
      modifies this
      ensures Valid() && View() == EMPTY && fresh(cells) && fresh(people)
    {
      ForgetProgress();
      ForgetFeed();
    }
  }

  lemma PositionAfterAppend<T>(key: T -> string, xs: seq<T>, x: T, k: string)
    requires !Has(key, xs, key(x))
    ensures Position(key, xs + [x], k)
         == if k == key(x) then |xs| else if Has(key, xs, k) then Position(key, xs, k) else |xs| + 1
  {
    HasAppended(key, xs, [x], k);
    if Has(key, xs, k) {
      assert (xs + [x])[Position(key, xs, k)] == xs[Position(key, xs, k)];
    }
  }

  lemma PositionsAfterAppend<T>(key: T -> string, xs: seq<T>, x: T)
    requires !Has(key, xs, key(x))
    ensures forall k :: Position(key, xs + [x], k)
                     == if k == key(x) then |xs| else if Has(key, xs, k) then Position(key, xs, k) else |xs| + 1
  {
    forall k
      ensures Position(key, xs + [x], k)
           == if k == key(x) then |xs| else if Has(key, xs, k) then Position(key, xs, k) else |xs| + 1
    {
      PositionAfterAppend(key, xs, x, k);
    }
  }

  lemma PositionAfterUpdate<T>(key: T -> string, xs: seq<T>, i: nat, x: T, k: string)
    requires i < |xs| && key(xs[i]) == key(x)
    ensures Position(key, xs[i := x], k) == Position(key, xs, k)
  {
    var p, q := Position(key, xs[i := x], k), Position(key, xs, k);
    if p < |xs| {
      assert key(xs[p]) == k;
    }
    if q < |xs| {
      assert key(xs[i := x][q]) == k;
    }
  }

  lemma PositionsAfterUpdate<T>(key: T -> string, xs: seq<T>, i: nat, x: T)
    requires i < |xs| && key(xs[i]) == key(x)
    ensures forall k :: Position(key, xs[i := x], k) == Position(key, xs, k)
  {
    forall k
      ensures Position(key, xs[i := x], k) == Position(key, xs, k)
    {
      PositionAfterUpdate(key, xs, i, x, k);
    }
  }

  // ---- What a feed means -----------------------------------------------------------------

  /** The messages a conversation brings: those with an id, each with a chat. */
  function Usable(chat: string, msgs: seq<Message>): seq<Message> {
    if msgs == [] then []
    else
      var (init, m) := (Usable(chat, msgs[..|msgs| - 1]), msgs[|msgs| - 1]);
      if m.id == "" then init else init + [Filled(m, chat)]
  }

  /** Everything observed of one chat, repetitions and all. */
  function MessagesOf(observed: seq<Conversation>, chat: string): seq<Message> {
    if observed == [] then []
    else
      var (init, last) := (MessagesOf(observed[..|observed| - 1], chat), observed[|observed| - 1]);
      if last.chat == chat then init + Usable(chat, last.messages) else init
  }

  function FirstChatName(observed: seq<Conversation>, chat: string): string {
    if observed == [] then ""
    else if observed[0].chat == chat && observed[0].name != "" then observed[0].name
    else FirstChatName(observed[1..], chat)
  }

  function FirstContactName(observed: seq<Contact>, jid: string): string {
    if observed == [] then ""
    else if observed[0].jid == jid && observed[0].name != "" then observed[0].name
    else FirstContactName(observed[1..], jid)
  }

  /** The contacts that have a JID. */
  function Named(observed: seq<Contact>): seq<Contact> {
    if observed == [] then []
    else
      var (init, last) := (Named(observed[..|observed| - 1]), observed[|observed| - 1]);
      if last.jid == "" then init else init + [last]
  }

  ghost predicate SameKeys<T>(key: T -> string, xs: seq<T>, ys: seq<T>) {
    |xs| == |ys| && forall i :: 0 <= i < |xs| ==> key(xs[i]) == key(ys[i])
  }

  /** The feed of the observed conversations, chat by chat and in the order of first sight. */
  ghost predicate FeedOf(convs: seq<Conversation>, observed: seq<Conversation>) {
    && SameKeys(ChatOf, convs, Firsts(ChatOf, observed))
    && (forall i :: 0 <= i < |convs| ==> convs[i].name == FirstChatName(observed, convs[i].chat))
    && (forall i :: 0 <= i < |convs| ==> convs[i].messages == Firsts(IdOf, MessagesOf(observed, convs[i].chat)))
  }

  ghost predicate ContactsOf(contacts: seq<Contact>, observed: seq<Contact>) {
    && SameKeys(JidOf, contacts, Firsts(JidOf, Named(observed)))
    && (forall i :: 0 <= i < |contacts| ==> contacts[i].name == FirstContactName(observed, contacts[i].jid))
  }

  lemma SamePositions<T>(key: T -> string, xs: seq<T>, ys: seq<T>, k: string)
    requires SameKeys(key, xs, ys)
    ensures Position(key, xs, k) == Position(key, ys, k)
  {
  }

  lemma KnownKeys<T>(key: T -> string, xs: seq<T>, all: seq<T>, k: string)
    requires SameKeys(key, xs, Firsts(key, all))
    ensures Distinct(key, xs) && (Has(key, xs, k) <==> Has(key, all, k))
  {
    FirstsKeepKeys(key, all);
    SamePositions(key, xs, Firsts(key, all), k);
  }

  lemma {:induction false} AppendedIsFirsts(all: seq<Message>, chat: string, msgs: seq<Message>)
    ensures Appended(Firsts(IdOf, all), chat, msgs) == Firsts(IdOf, all + Usable(chat, msgs))
  {
    if msgs == [] {
      assert all + [] == all;
    } else {
      var init, m := msgs[..|msgs| - 1], msgs[|msgs| - 1];
      AppendedIsFirsts(all, chat, init);
      FirstsOfAppended(IdOf, all + Usable(chat, init), Filled(m, chat));
      Regroup(all, Usable(chat, init), [Filled(m, chat)]);
    }
  }

  lemma {:induction false} FirstChatNameAppended(observed: seq<Conversation>, conv: Conversation, chat: string)
    ensures FirstChatName(observed + [conv], chat)
         == if FirstChatName(observed, chat) != "" then FirstChatName(observed, chat)
            else if conv.chat == chat then conv.name else ""
  {
    if observed != [] {
      assert (observed + [conv])[1..] == observed[1..] + [conv];
      FirstChatNameAppended(observed[1..], conv, chat);
    }
  }

  lemma {:induction false} FirstContactNameAppended(observed: seq<Contact>, contact: Contact, jid: string)
    ensures FirstContactName(observed + [contact], jid)
         == if FirstContactName(observed, jid) != "" then FirstContactName(observed, jid)
            else if contact.jid == jid then contact.name else ""
  {
    if observed != [] {
      assert (observed + [contact])[1..] == observed[1..] + [contact];
      FirstContactNameAppended(observed[1..], contact, jid);
    }
  }

  lemma {:induction false} UnseenChat(observed: seq<Conversation>, chat: string)
    requires !Has(ChatOf, observed, chat)
    ensures FirstChatName(observed, chat) == "" && MessagesOf(observed, chat) == []
  {
    if observed != [] {
      var n := |observed| - 1;
      assert observed == observed[..n] + [observed[n]];
      HasAppended(ChatOf, observed[..n], [observed[n]], chat);
      UnseenChat(observed[..n], chat);
      FirstChatNameAppended(observed[..n], observed[n], chat);
    }
  }

  lemma MergedChatKeys(convs: seq<Conversation>, firsts: seq<Conversation>, conv: Conversation)
    requires SameKeys(ChatOf, convs, firsts)
    ensures SameKeys(ChatOf, MergedConversation(convs, conv),
                     if Has(ChatOf, firsts, conv.chat) then firsts else firsts + [conv])
  {
    SamePositions(ChatOf, convs, firsts, conv.chat);
  }

  lemma MergedChatName(convs: seq<Conversation>, observed: seq<Conversation>, conv: Conversation, i: nat)
    requires Distinct(ChatOf, convs) && i < |MergedConversation(convs, conv)|
    requires forall j :: 0 <= j < |convs| ==> convs[j].name == FirstChatName(observed, convs[j].chat)
    requires Has(ChatOf, convs, conv.chat) || FirstChatName(observed, conv.chat) == ""
    ensures var merged := MergedConversation(convs, conv);
      merged[i].name == FirstChatName(observed + [conv], merged[i].chat)
  {
    FirstChatNameAppended(observed, conv, MergedConversation(convs, conv)[i].chat);
  }

  lemma MessagesOfAppended(observed: seq<Conversation>, conv: Conversation, chat: string)
    ensures MessagesOf(observed + [conv], chat)
         == if conv.chat == chat then MessagesOf(observed, chat) + Usable(chat, conv.messages) else MessagesOf(observed, chat)
  {
    assert (observed + [conv])[..|observed|] == observed;
  }

  lemma MergedChatMessages(convs: seq<Conversation>, observed: seq<Conversation>, conv: Conversation, i: nat)
    requires Distinct(ChatOf, convs) && i < |MergedConversation(convs, conv)|
    requires forall j :: 0 <= j < |convs| ==> convs[j].messages == Firsts(IdOf, MessagesOf(observed, convs[j].chat))
    requires Has(ChatOf, convs, conv.chat) || MessagesOf(observed, conv.chat) == []
    ensures var merged := MergedConversation(convs, conv);
      merged[i].messages == Firsts(IdOf, MessagesOf(observed + [conv], merged[i].chat))
  {
    MessagesOfAppended(observed, conv, MergedConversation(convs, conv)[i].chat);
    AppendedIsFirsts(MessagesOf(observed, conv.chat), conv.chat, conv.messages);
  }

  lemma MergeKeepsFeed(convs: seq<Conversation>, observed: seq<Conversation>, conv: Conversation)
    requires FeedOf(convs, observed)
    ensures FeedOf(MergedConversation(convs, conv), observed + [conv])
  {
    var firsts, merged := Firsts(ChatOf, observed), MergedConversation(convs, conv);
    FirstsOfAppended(ChatOf, observed, conv);
    MergedChatKeys(convs, firsts, conv);
    KnownKeys(ChatOf, convs, observed, conv.chat);
    if !Has(ChatOf, observed, conv.chat) {
      UnseenChat(observed, conv.chat);
    }
    forall i | 0 <= i < |merged|
      ensures merged[i].name == FirstChatName(observed + [conv], merged[i].chat)
      ensures merged[i].messages == Firsts(IdOf, MessagesOf(observed + [conv], merged[i].chat))
    {
      MergedChatName(convs, observed, conv, i);
      MergedChatMessages(convs, observed, conv, i);
    }
  }

  /** The fold over the observed conversations is the feed they mean. */
  lemma {:induction false} FeedMeans(observed: seq<Conversation>)
    ensures FeedOf(MergedConversations([], observed), observed)
  {
    if observed != [] {
      var n := |observed| - 1;
      FeedMeans(observed[..n]);
      MergeKeepsFeed(MergedConversations([], observed[..n]), observed[..n], observed[n]);
      assert observed == observed[..n] + [observed[n]];
    }
  }

  lemma {:induction false} UnseenContact(observed: seq<Contact>, jid: string)
    requires jid != "" && !Has(JidOf, Named(observed), jid)
    ensures FirstContactName(observed, jid) == ""
  {
    if observed != [] {
      var n := |observed| - 1;
      assert observed == observed[..n] + [observed[n]];
      HasAppended(JidOf, Named(observed[..n]), [observed[n]], jid);
      UnseenContact(observed[..n], jid);
      FirstContactNameAppended(observed[..n], observed[n], jid);
    }
  }

  lemma {:induction false} NoBlankNamed(observed: seq<Contact>)
    ensures !Has(JidOf, Named(observed), "")
  {
    if observed != [] {
      var n := |observed| - 1;
      NoBlankNamed(observed[..n]);
      HasAppended(JidOf, Named(observed[..n]), [observed[n]], "");
    }
  }

  lemma BlankKeepsContacts(contacts: seq<Contact>, observed: seq<Contact>, contact: Contact)
    requires ContactsOf(contacts, observed) && contact.jid == ""
    ensures ContactsOf(contacts, observed + [contact])
  {
    assert (observed + [contact])[..|observed|] == observed;
    NoBlankNamed(observed);
    FirstsKeepKeys(JidOf, Named(observed));
    SamePositions(JidOf, contacts, Firsts(JidOf, Named(observed)), "");
    forall i | 0 <= i < |contacts|
      ensures FirstContactName(observed + [contact], contacts[i].jid) == FirstContactName(observed, contacts[i].jid)
    {
      FirstContactNameAppended(observed, contact, contacts[i].jid);
    }
  }

  lemma MergedContactKeys(contacts: seq<Contact>, firsts: seq<Contact>, contact: Contact)
    requires SameKeys(JidOf, contacts, firsts) && contact.jid != ""
    ensures SameKeys(JidOf, MergedContact(contacts, contact),
                     if Has(JidOf, firsts, contact.jid) then firsts else firsts + [contact])
  {
    SamePositions(JidOf, contacts, firsts, contact.jid);
  }

  lemma MergedContactName(contacts: seq<Contact>, observed: seq<Contact>, contact: Contact, i: nat)
    requires contact.jid != "" && Distinct(JidOf, contacts) && i < |MergedContact(contacts, contact)|
    requires forall j :: 0 <= j < |contacts| ==> contacts[j].name == FirstContactName(observed, contacts[j].jid)
    requires Has(JidOf, contacts, contact.jid) || FirstContactName(observed, contact.jid) == ""
    ensures var merged := MergedContact(contacts, contact);
      merged[i].name == FirstContactName(observed + [contact], merged[i].jid)
  {
    FirstContactNameAppended(observed, contact, MergedContact(contacts, contact)[i].jid);
  }

  lemma MergeKeepsContacts(contacts: seq<Contact>, observed: seq<Contact>, contact: Contact)
    requires ContactsOf(contacts, observed) && contact.jid != ""
    ensures ContactsOf(MergedContact(contacts, contact), observed + [contact])
  {
    var named, merged := Named(observed), MergedContact(contacts, contact);
    assert (observed + [contact])[..|observed|] == observed;
    FirstsOfAppended(JidOf, named, contact);
    MergedContactKeys(contacts, Firsts(JidOf, named), contact);
    KnownKeys(JidOf, contacts, named, contact.jid);
    if !Has(JidOf, named, contact.jid) {
      UnseenContact(observed, contact.jid);
    }
    forall i | 0 <= i < |merged|
      ensures merged[i].name == FirstContactName(observed + [contact], merged[i].jid)
    {
      MergedContactName(contacts, observed, contact, i);
    }
  }

  lemma {:induction false} ContactsMean(observed: seq<Contact>)
    ensures ContactsOf(MergedContacts([], observed), observed)
  {
    if observed != [] {
      var n := |observed| - 1;
      ContactsMean(observed[..n]);
      if observed[n].jid == "" {
        BlankKeepsContacts(MergedContacts([], observed[..n]), observed[..n], observed[n]);
      } else {
        MergeKeepsContacts(MergedContacts([], observed[..n]), observed[..n], observed[n]);
      }
      assert observed == observed[..n] + [observed[n]];
    }
  }

  // ---- Redelivery -----------------------------------------------------------------------

  lemma {:induction false} SeenAddsNothing(stored: seq<Message>, chat: string, msgs: seq<Message>)
    requires forall i :: 0 <= i < |msgs| && msgs[i].id != "" ==> Has(IdOf, stored, msgs[i].id)
    ensures Appended(stored, chat, msgs) == stored
  {
    if msgs != [] {
      SeenAddsNothing(stored, chat, msgs[..|msgs| - 1]);
    }
  }

  lemma {:induction false} UsableHas(chat: string, msgs: seq<Message>, i: nat)
    requires i < |msgs| && msgs[i].id != ""
    ensures Has(IdOf, Usable(chat, msgs), msgs[i].id)
  {
    var n := |msgs| - 1;
    if i < n {
      UsableHas(chat, msgs[..n], i);
    }
    HasAppended(IdOf, Usable(chat, msgs[..n]), [Filled(msgs[n], chat)], msgs[i].id);
    assert i == n ==> Position(IdOf, [Filled(msgs[n], chat)], msgs[i].id) == 0;
  }

  lemma {:induction false} ObservedHas(observed: seq<Conversation>, conv: Conversation, i: nat)
    requires conv in observed && i < |conv.messages| && conv.messages[i].id != ""
    ensures Has(IdOf, MessagesOf(observed, conv.chat), conv.messages[i].id)
  {
    var n, id := |observed| - 1, conv.messages[i].id;
    assert observed == observed[..n] + [observed[n]];
    HasAppended(IdOf, MessagesOf(observed[..n], conv.chat), Usable(conv.chat, observed[n].messages), id);
    if observed[n] == conv {
      UsableHas(conv.chat, conv.messages, i);
    } else {
      ObservedHas(observed[..n], conv, i);
    }
  }

  lemma {:induction false} ObservedIsNamed(observed: seq<Conversation>, conv: Conversation)
    requires conv in observed
    ensures Has(ChatOf, observed, conv.chat)
    ensures FirstChatName(observed, conv.chat) == "" ==> conv.name == ""
  {
    if observed[0] != conv {
      ObservedIsNamed(observed[1..], conv);
    }
  }

  /** A conversation seen before changes nothing, however much came in between. */
  lemma RepeatedConversation(observed: seq<Conversation>, conv: Conversation)
    requires conv in observed
    ensures MergedConversation(MergedConversations([], observed), conv) == MergedConversations([], observed)
  {
    var convs, chat := MergedConversations([], observed), conv.chat;
    FeedMeans(observed);
    ObservedIsNamed(observed, conv);
    FirstsKeepKeys(ChatOf, observed);
    SamePositions(ChatOf, convs, Firsts(ChatOf, observed), chat);
    var i := Position(ChatOf, convs, chat);
    FirstsKeepKeys(IdOf, MessagesOf(observed, chat));
    forall k | 0 <= k < |conv.messages| && conv.messages[k].id != "" {
      ObservedHas(observed, conv, k);
    }
    SeenAddsNothing(convs[i].messages, chat, conv.messages);
    assert MergedConversation(convs, conv)[i] == convs[i];
  }

  lemma {:induction false} ContactIsNamed(observed: seq<Contact>, contact: Contact)
    requires contact in observed
    ensures FirstContactName(observed, contact.jid) == "" ==> contact.name == ""
  {
    if observed[0] != contact {
      ContactIsNamed(observed[1..], contact);
    }
  }

  lemma {:induction false} NamedHas(observed: seq<Contact>, contact: Contact)
    requires contact in observed && contact.jid != ""
    ensures Has(JidOf, Named(observed), contact.jid)
  {
    var n := |observed| - 1;
    assert observed == observed[..n] + [observed[n]];
    HasAppended(JidOf, Named(observed[..n]), [observed[n]], contact.jid);
    if observed[n] != contact {
      NamedHas(observed[..n], contact);
    } else {
      assert Position(JidOf, [contact], contact.jid) == 0;
    }
  }

  lemma RepeatedContact(observed: seq<Contact>, contact: Contact)
    requires contact in observed
    ensures MergedContact(MergedContacts([], observed), contact) == MergedContacts([], observed)
  {
    var contacts := MergedContacts([], observed);
    ContactsMean(observed);
    ContactIsNamed(observed, contact);
    if contact.jid != "" {
      NamedHas(observed, contact);
      FirstsKeepKeys(JidOf, Named(observed));
      SamePositions(JidOf, contacts, Firsts(JidOf, Named(observed)), contact.jid);
      var i := Position(JidOf, contacts, contact.jid);
      assert contacts[i].name == "" ==> contacts[i] == Contact(contact.jid, contact.name);
    }
  }

  lemma {:induction false} RepeatedConversations(observed: seq<Conversation>, more: seq<Conversation>)
    requires forall conv :: conv in more ==> conv in observed
    ensures MergedConversations(MergedConversations([], observed), more) == MergedConversations([], observed)
  {
    if more != [] {
      RepeatedConversations(observed, more[..|more| - 1]);
      RepeatedConversation(observed, more[|more| - 1]);
    }
  }

  lemma {:induction false} RepeatedContacts(observed: seq<Contact>, more: seq<Contact>)
    requires forall contact :: contact in more ==> contact in observed
    ensures MergedContacts(MergedContacts([], observed), more) == MergedContacts([], observed)
  {
    if more != [] {
      RepeatedContacts(observed, more[..|more| - 1]);
      RepeatedContact(observed, more[|more| - 1]);
    }
  }

  // ---- Runs -----------------------------------------------------------------------------

  datatype Call = Observe(chunk: Chunk, at: int) | Preview(total: int, at: int) | Complete(at: int) | Reset

  function Apply(feed: Feed, call: Call): Feed {
    match call
    case Observe(chunk, at) => Observed(feed, chunk, at)
    case Preview(total, at) => Previewed(feed, total, at)
    case Complete(at) => feed.(completed := true, updatedAt := at)
    case Reset => EMPTY
  }

  function After(calls: seq<Call>): Feed {
    if calls == [] then EMPTY else Apply(After(calls[..|calls| - 1]), calls[|calls| - 1])
  }

  /** The conversations and contacts observed since the last reset. */
  function Conversations(calls: seq<Call>): seq<Conversation> {
    if calls == [] then []
    else
      var (init, last) := (Conversations(calls[..|calls| - 1]), calls[|calls| - 1]);
      if last.Observe? then init + last.chunk.conversations else if last.Reset? then [] else init
  }

  function Contacts(calls: seq<Call>): seq<Contact> {
    if calls == [] then []
    else
      var (init, last) := (Contacts(calls[..|calls| - 1]), calls[|calls| - 1]);
      if last.Observe? then init + last.chunk.contacts else if last.Reset? then [] else init
  }

  lemma {:induction false} MergedInTwo(convs: seq<Conversation>, a: seq<Conversation>, b: seq<Conversation>)
    ensures MergedConversations(MergedConversations(convs, a), b) == MergedConversations(convs, a + b)
  {
    if b == [] {
      assert a + b == a;
    } else {
      MergedInTwo(convs, a, b[..|b| - 1]);
      assert (a + b)[..|a + b| - 1] == a + b[..|b| - 1];
    }
  }

  lemma {:induction false} ContactsInTwo(contacts: seq<Contact>, a: seq<Contact>, b: seq<Contact>)
    ensures MergedContacts(MergedContacts(contacts, a), b) == MergedContacts(contacts, a + b)
  {
    if b == [] {
      assert a + b == a;
    } else {
      ContactsInTwo(contacts, a, b[..|b| - 1]);
      assert (a + b)[..|a + b| - 1] == a + b[..|b| - 1];
    }
  }

  lemma {:induction false} RunFolds(calls: seq<Call>)
    ensures After(calls).convs == MergedConversations([], Conversations(calls))
    ensures After(calls).contacts == MergedContacts([], Contacts(calls))
  {
    if calls != [] {
      var init, last := calls[..|calls| - 1], calls[|calls| - 1];
      RunFolds(init);
      if last.Observe? {
        MergedInTwo([], Conversations(init), last.chunk.conversations);
        ContactsInTwo([], Contacts(init), last.chunk.contacts);
      }
    }
  }

  /** After any run of calls the feed is what was observed since the last reset means, however
      the chunks cut it. */
  lemma RunMeans(calls: seq<Call>)
    ensures FeedOf(After(calls).convs, Conversations(calls))
    ensures ContactsOf(After(calls).contacts, Contacts(calls))
  {
    RunFolds(calls);
    FeedMeans(Conversations(calls));
    ContactsMean(Contacts(calls));
  }

  /** Whatever was observed since the last reset can be delivered again, in any cut and at any
      later time: conversations and contacts stay as they are. */
  lemma RedeliveryChangesNothing(calls: seq<Call>, chunk: Chunk, at: int)
    requires forall conv :: conv in chunk.conversations ==> conv in Conversations(calls)
    requires forall contact :: contact in chunk.contacts ==> contact in Contacts(calls)
    ensures var (feed, again) := (After(calls), After(calls + [Observe(chunk, at)]));
      again.convs == feed.convs && again.contacts == feed.contacts && again.chunks == feed.chunks + 1
  {
    assert (calls + [Observe(chunk, at)])[..|calls|] == calls;
    RunFolds(calls);
    RepeatedConversations(Conversations(calls), chunk.conversations);
    RepeatedContacts(Contacts(calls), chunk.contacts);
  }

  // ---- Where the messages of a feed come from ---------------------------------------------

  /** The message as observed, but for its chat: a missing one is that of its conversation. */
  ghost predicate SameMessage(stored: Message, m: Message, chat: string) {
    && m.id != "" && stored.id == m.id && stored.sender == m.sender && stored.fromMe == m.fromMe
    && stored.at == m.at && stored.text == m.text
    && (m.chat != "" ==> stored.chat == m.chat) && (m.chat == "" ==> stored.chat == chat)
  }

  lemma {:induction false} UsableComesFrom(chat: string, msgs: seq<Message>, stored: Message)
    requires stored in Usable(chat, msgs)
    ensures exists m :: m in msgs && SameMessage(stored, m, chat)
  {
    var n := |msgs| - 1;
    assert msgs == msgs[..n] + [msgs[n]];
    if stored in Usable(chat, msgs[..n]) {
      UsableComesFrom(chat, msgs[..n], stored);
    } else {
      assert SameMessage(stored, msgs[n], chat);
    }
  }

  ghost predicate ObservedIn(observed: seq<Conversation>, chat: string, stored: Message) {
    exists conv, m :: conv in observed && conv.chat == chat && m in conv.messages && SameMessage(stored, m, chat)
  }

  lemma {:induction false} MessagesComeFrom(observed: seq<Conversation>, chat: string, stored: Message)
    requires stored in MessagesOf(observed, chat)
    ensures ObservedIn(observed, chat, stored)
  {
    var n := |observed| - 1;
    assert observed == observed[..n] + [observed[n]];
    if stored in MessagesOf(observed[..n], chat) {
      MessagesComeFrom(observed[..n], chat, stored);
    } else {
      UsableComesFrom(chat, observed[n].messages, stored);
      var m :| m in observed[n].messages && SameMessage(stored, m, chat);
      assert observed[n] in observed;
    }
  }

  /** A feed invents nothing and alters nothing: every message in it was observed in its chat. */
  lemma StoredMessagesWereObserved(calls: seq<Call>, i: nat, stored: Message)
    requires i < |After(calls).convs| && stored in After(calls).convs[i].messages
    ensures ObservedIn(Conversations(calls), After(calls).convs[i].chat, stored)
  {
    RunMeans(calls);
    var all := MessagesOf(Conversations(calls), After(calls).convs[i].chat);
    FirstsAreEarliest(IdOf, all, stored);
    MessagesComeFrom(Conversations(calls), After(calls).convs[i].chat, stored);
  }

  /** And it drops nothing that has an id: every observed id is in the feed of its chat. */
  lemma ObservedMessagesAreStored(calls: seq<Call>, conv: Conversation, k: nat)
    requires conv in Conversations(calls) && k < |conv.messages| && conv.messages[k].id != ""
    ensures exists i :: 0 <= i < |After(calls).convs| && After(calls).convs[i].chat == conv.chat
                        && exists stored :: stored in After(calls).convs[i].messages && stored.id == conv.messages[k].id
  {
    RunMeans(calls);
    var (observed, convs, id) := (Conversations(calls), After(calls).convs, conv.messages[k].id);
    ObservedIsNamed(observed, conv);
    FirstsKeepKeys(ChatOf, observed);
    SamePositions(ChatOf, convs, Firsts(ChatOf, observed), conv.chat);
    var i := Position(ChatOf, convs, conv.chat);
    ObservedHas(observed, conv, k);
    FirstsKeepKeys(IdOf, MessagesOf(observed, conv.chat));
    var p := Position(IdOf, convs[i].messages, id);
    assert convs[i].messages[p] in convs[i].messages && convs[i].messages[p].id == id;
  }

  // ---- The counters -------------------------------------------------------------------------

  /** The calls since the last reset. */
  function Recent(calls: seq<Call>): seq<Call> {
    if calls == [] || calls[|calls| - 1].Reset? then []
    else Recent(calls[..|calls| - 1]) + [calls[|calls| - 1]]
  }

  lemma {:induction false} RecentIsSuffix(calls: seq<Call>) returns (before: seq<Call>)
    ensures calls == before + Recent(calls)
    ensures before != [] ==> before[|before| - 1].Reset?
    ensures forall call :: call in Recent(calls) ==> !call.Reset?
  {
    if calls == [] || calls[|calls| - 1].Reset? {
      before := calls;
    } else {
      var init, last := calls[..|calls| - 1], calls[|calls| - 1];
      before := RecentIsSuffix(init);
      assert calls == init + [last];
      Regroup(before, Recent(init), [last]);
    }
  }

  function Observes(calls: seq<Call>): nat {
    if calls == [] then 0 else Observes(calls[..|calls| - 1]) + (if calls[|calls| - 1].Observe? then 1 else 0)
  }

  ghost predicate LargestProgress(calls: seq<Call>, progress: nat) {
    && (forall call :: call in calls && call.Observe? ==> call.chunk.progress <= progress)
    && (progress > 0 ==> exists call :: call in calls && call.Observe? && call.chunk.progress == progress)
  }

  ghost predicate LargestTotal(calls: seq<Call>, total: int) {
    && total >= 0 && (forall call :: call in calls && call.Preview? ==> call.total <= total)
    && (total > 0 ==> exists call :: call in calls && call.Preview? && call.total == total)
  }

  ghost predicate HasComplete(calls: seq<Call>) {
    exists call :: call in calls && call.Complete?
  }

  lemma ProgressWithOneMore(calls: seq<Call>, call: Call, progress: nat)
    requires LargestProgress(calls, progress)
    ensures LargestProgress(calls + [call], if call.Observe? && call.chunk.progress > progress then call.chunk.progress else progress)
  {
  }

  lemma TotalWithOneMore(calls: seq<Call>, call: Call, total: int)
    requires LargestTotal(calls, total)
    ensures LargestTotal(calls + [call], if call.Preview? && call.total > total then call.total else total)
  {
  }

  lemma CompleteWithOneMore(calls: seq<Call>, call: Call)
    ensures HasComplete(calls + [call]) <==> HasComplete(calls) || call.Complete?
  {
    assert (calls + [call])[|calls|] == call;
    if other :| other in calls && other.Complete? {
      assert other in calls + [call];
    }
  }

  function InstantOf(call: Call): int { if call.Reset? then 0 else call.at }

  ghost predicate Counters(recent: seq<Call>, feed: Feed) {
    && feed.chunks == Observes(recent)
    && LargestProgress(recent, feed.progress) && LargestTotal(recent, feed.total)
    && (feed.completed <==> HasComplete(recent))
    && feed.updatedAt == if recent == [] then 0 else InstantOf(recent[|recent| - 1])
  }

  lemma CountersWithOneMore(recent: seq<Call>, feed: Feed, call: Call)
    requires Counters(recent, feed) && !call.Reset?
    ensures Counters(recent + [call], Apply(feed, call))
  {
    assert (recent + [call])[..|recent|] == recent;
    ProgressWithOneMore(recent, call, feed.progress);
    TotalWithOneMore(recent, call, feed.total);
    CompleteWithOneMore(recent, call);
  }

  /** Since the last reset: as many chunks as observes, the largest progress and total, complete once
      it was said, and the instant of the last call. */
  lemma {:induction false} CountersMean(calls: seq<Call>)
    ensures Counters(Recent(calls), After(calls))
  {
    if calls != [] && !calls[|calls| - 1].Reset? {
      CountersMean(calls[..|calls| - 1]);
      CountersWithOneMore(Recent(calls[..|calls| - 1]), After(calls[..|calls| - 1]), calls[|calls| - 1]);
    }
  }

  lemma {:induction false} LastSyncTypeStays(calls: seq<Call>, i: nat)
    requires i < |calls| && calls[i].Observe? && calls[i].chunk.syncType != ""
    requires forall j :: i < j < |calls| ==> !calls[j].Reset? && (calls[j].Observe? ==> calls[j].chunk.syncType == "")
    ensures After(calls).syncType == calls[i].chunk.syncType
  {
    var n := |calls| - 1;
    if i < n {
      LastSyncTypeStays(calls[..n], i);
    }
  }

  // ---- Snapshots --------------------------------------------------------------------------

  function AfterFrom(feed: Feed, calls: seq<Call>): Feed {
    if calls == [] then feed else Apply(AfterFrom(feed, calls[..|calls| - 1]), calls[|calls| - 1])
  }

  method Perform(acc: HistorySyncAccumulator, call: Call)
    requires acc.Valid()
    modifies acc, acc.cells, acc.people
    ensures acc.Valid() && acc.View() == Apply(old(acc.View()), call)
    ensures (acc.cells == old(acc.cells) || fresh(acc.cells)) && (acc.people == old(acc.people) || fresh(acc.people))
  {
    match call
    case Observe(chunk, at) => acc.Observe(chunk, at);
    case Preview(total, at) => acc.ObservePreview(total, at);
    case Complete(at) => acc.MarkComplete(at);
    case Reset => acc.Reset();
  }

  method PerformBeside(acc: HistorySyncAccumulator, call: Call, snap: Snapshot, ghost feed: Feed)
    requires acc.Valid() && Holds(snap, feed) && snap.cells != acc.cells && snap.contacts != acc.people
    modifies acc, acc.cells, acc.people
    ensures acc.Valid() && acc.View() == Apply(old(acc.View()), call)
    ensures Holds(snap, feed) && snap.cells != acc.cells && snap.contacts != acc.people
    ensures (acc.cells == old(acc.cells) || fresh(acc.cells)) && (acc.people == old(acc.people) || fresh(acc.people))
  {
    Perform(acc, call);
  }

  lemma AfterOneMore(feed: Feed, calls: seq<Call>, i: nat)
    requires i < |calls|
    ensures AfterFrom(feed, calls[..i + 1]) == Apply(AfterFrom(feed, calls[..i]), calls[i])
  {
    assert calls[..i + 1][..i] == calls[..i];
  }

  /** A snapshot is the feed at its instant, and stays it whatever is observed or reset later. */
  method SnapshotIsUnaffected(acc: HistorySyncAccumulator, calls: seq<Call>) returns (snap: Snapshot)
    requires acc.Valid()
    modifies acc, acc.cells, acc.people
    ensures Holds(snap, old(acc.View()))
    ensures acc.Valid() && acc.View() == AfterFrom(old(acc.View()), calls)
  {
    ghost var feed := acc.View();
    snap := acc.TakeSnapshot();
    for i := 0 to |calls|
      invariant acc.Valid() && acc.View() == AfterFrom(feed, calls[..i])
      invariant Holds(snap, feed) && snap.cells != acc.cells && snap.contacts != acc.people
      invariant (acc.cells == old(acc.cells) || fresh(acc.cells)) && (acc.people == old(acc.people) || fresh(acc.people))
    {
      AfterOneMore(feed, calls, i);
      PerformBeside(acc, calls[i], snap, feed);
    }
    assert calls[..|calls|] == calls;
  }
}
