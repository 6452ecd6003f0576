/** The chat store (`ChatManager`): an index from chat id to metadata, one
    transcript file per chat written once at creation and appended to per
    message, lookup and deletion by id or name, and the name generated from
    a chat's first message.

    The files the store writes are the map `files` from path to text; the
    index file is the field `index`, read once by the constructor. The
    clock and the id generator are parameters (`now`, `id`). */
module ChatStore {
  import opened Wrappers
  import opened Text
  import opened Store
  import opened TranscriptFormat

  // ---------------------------------------------------------------------------
  // Chat names

  /** `[w for w in words if len(w) > 2]`. */
  function LongWords(words: seq<string>): (r: seq<string>)
    ensures |r| <= |words|
    ensures forall w | w in r :: w in words && |w| > 2
  {
    if words == [] then []
    else (if |words[0]| > 2 then [words[0]] else []) + LongWords(words[1..])
  }

  /** The filter keeps every word longer than two characters, as often as
      it occurs, and drops every other word. */
  lemma {:induction false} LongWordsCount(words: seq<string>)
    ensures forall w :: multiset(LongWords(words))[w] == if |w| > 2 then multiset(words)[w] else 0
  {
    if words != [] {
      LongWordsCount(words[1..]);
      assert words == [words[0]] + words[1..];
    }
  }

  /** The filter works word by word, so it keeps the order of the words:
      the kept words of a concatenation are those of each part in turn. */
  lemma {:induction false} LongWordsAppend(a: seq<string>, b: seq<string>)
    ensures LongWords(a + b) == LongWords(a) + LongWords(b)
  {
    if a != [] {
      var head := if |a[0]| > 2 then [a[0]] else [];
      LongWordsAppend(a[1..], b);
      SplitHead(a, b);
      assert head + (LongWords(a[1..]) + LongWords(b)) == (head + LongWords(a[1..])) + LongWords(b);
    } else {
      assert a + b == b;
    }
  }

  /** The first four words longer than two characters, in order (`[:4]`). */
  function NameWords(message: string): (r: seq<string>)
    ensures var long := LongWords(Split(CleanLower(message)));
            && |r| == (if |long| < 4 then |long| else 4)
            && r == long[..|r|]
    ensures forall w | w in r :: w in Split(CleanLower(message)) && |w| > 2
  {
    var ws := LongWords(Split(CleanLower(message)));
    if |ws| <= 4 then ws else ws[..4]
  }

  /** Those words joined with '-', before any shortening. */
  function JoinedName(message: string): string {
    Join("-", NameWords(message))
  }

  /** Position of the last '-' in `s`, if any. */
  function LastDash(s: string): (r: Option<nat>)
    ensures r.Some? ==> r.value < |s| && s[r.value] == '-'
    ensures r.Some? ==> forall j :: r.value < j < |s| ==> s[j] != '-'
    ensures r.None? ==> forall j :: 0 <= j < |s| ==> s[j] != '-'
  {
    if s == [] then None
    else if s[|s| - 1] == '-' then Some(|s| - 1)
    else LastDash(s[..|s| - 1])
  }

  /** `s.rsplit('-', 1)[0]`: the text before the last '-', or all of `s`. */
  function BeforeLastDash(s: string): (r: string)
    ensures IsPrefix(r, s)
    ensures r == s || s[|r|] == '-'
    ensures forall j | |r| < j < |s| :: s[j] != '-'
    ensures r == s ==> forall j | 0 <= j < |s| :: s[j] != '-'
  {
    match LastDash(s)
    case Some(i) => s[..i]
    case None => s
  }

  lemma NameWordsChars(message: string)
    ensures forall w, c | w in NameWords(message) && c in w :: SlugChar(c)
  {
    var text := CleanLower(message);
    CleanLowerChars(message);
    SplitFrom(text);
    forall w, c | w in NameWords(message) && c in w ensures SlugChar(c) {
      assert w in Split(text);
      var i :| 0 <= i < |w| && w[i] == c;
      assert !IsSpace(c);
    }
  }

  lemma JoinedSlugChars(message: string)
    ensures forall i :: 0 <= i < |JoinedName(message)| ==> SlugChar(JoinedName(message)[i])
  {
    NameWordsChars(message);
    JoinKeeps("-", NameWords(message), SlugChar);
    var name := JoinedName(message);
    forall i | 0 <= i < |name| ensures SlugChar(name[i]) {
      assert name[i] in name;
    }
  }

  /** `name[:50].rsplit('-', 1)[0]` when `name` is longer than 50
      characters: a prefix of at most 50 characters that ends just before a
      '-' of `name`, or is all of `name[:50]` when that holds no '-'. */
  function Shorten(name: string): (r: string)
    ensures |r| <= 50 && IsPrefix(r, name)
    ensures |name| <= 50 ==> r == name
    ensures |name| > 50 ==> |r| == 50 || name[|r|] == '-'
    ensures |name| > 50 ==> forall j | |r| < j < 50 :: name[j] != '-'
  {
    if |name| > 50 then
      var cut := BeforeLastDash(name[..50]);
      assert name[..50][..|cut|] == name[..|cut|];
      cut
    else name
  }

  /** What `_generate_chat_name` makes of the joined words: the shortened
      text, or "chat" when nothing is left. */
  function NameOrChat(name: string): (r: string)
    ensures 1 <= |r| <= 50
    ensures (forall i :: 0 <= i < |name| ==> SlugChar(name[i])) ==> forall i :: 0 <= i < |r| ==> SlugChar(r[i])
  {
    var cut := Shorten(name);
    assert forall i :: 0 <= i < |cut| ==> cut[i] == name[i];
    if cut == [] then "chat" else cut
  }

  /** `_generate_chat_name`: the lower-cased first four words longer than
      two characters, joined by '-', shortened to 50 characters, and "chat"
      when nothing is left. The result is never empty, never longer than 50
      characters, and made only of lower-case letters, digits, '_' and '-'. */
  function GenerateChatName(message: string): (r: string)
    ensures 1 <= |r| <= 50
    ensures forall i :: 0 <= i < |r| ==> SlugChar(r[i])
    ensures NameWords(message) == [] ==> r == "chat"
    ensures NameWords(message) != [] && |JoinedName(message)| <= 50 ==> r == JoinedName(message)
    ensures Shorten(JoinedName(message)) != [] ==> r == Shorten(JoinedName(message))
    ensures Shorten(JoinedName(message)) == [] ==> r == "chat"
  {
    JoinedSlugChars(message);
    JoinedNotEmpty(message);
    NameOrChat(JoinedName(message))
  }

  /** The joined name is empty only when no word was kept. */
  lemma JoinedNotEmpty(message: string)
    ensures NameWords(message) != [] ==> JoinedName(message) != []
  {
    var words := NameWords(message);
    if |words| > 1 {
      assert |words[0]| > 2;
      assert JoinedName(message)[0] == words[0][0];
    } else if |words| == 1 {
      assert |words[0]| > 2;
    }
  }

  // ---------------------------------------------------------------------------
  // File paths

  /** `created_at[:19].replace(':', '').replace('-', '').replace('T', '-')`. */
  function FileStamp(createdAt: string): string {
    ReplaceChar(FilterChars(FilterChars(Take(createdAt, 19), NotChar(':')), NotChar('-')), 'T', '-')
  }

  /** The directory of a chat's file: its project's `chats` folder when it
      belongs to a project, the shared permanent folder otherwise. */
  function ChatsDir(base: string, project: Option<string>): string {
    if Truthy(project) then base + "/projects/" + project.value + "/chats"
    else base + "/chats/permanent"
  }

  /** `_get_chat_file_path`: `<dir>/<stamp>_<name>.md`. */
  function ChatFilePath(base: string, createdAt: string, name: string, project: Option<string>): string {
    ChatsDir(base, project) + "/" + FileStamp(createdAt) + ("_" + name + ".md")
  }

  /** A chat's file is named after the chat, and lies under `projects/`
      exactly when the chat's project is set. */
  lemma ChatFilePathPlace(base: string, createdAt: string, name: string, project: Option<string>)
    ensures IsSuffix("_" + name + ".md", ChatFilePath(base, createdAt, name, project))
    ensures IsPrefix(base + "/projects/", ChatFilePath(base, createdAt, name, project)) <==> Truthy(project)
  {
    var dir := ChatsDir(base, project);
    var front := dir + "/" + FileStamp(createdAt);
    var p := ChatFilePath(base, createdAt, name, project);
    SuffixAppend(front, "_" + name + ".md");
    Peel(dir + "/", FileStamp(createdAt));
    Peel(dir, "/");
    Peel(front, "_" + name + ".md");
    PrefixTrans(dir, dir + "/", front);
    PrefixTrans(dir, front, p);
    var projects := base + "/projects/";
    if Truthy(project) {
      Peel(projects, project.value);
      Peel(projects + project.value, "/chats");
      PrefixTrans(projects, projects + project.value, dir);
      PrefixTrans(projects, dir, p);
    } else {
      assert dir[|base| + 1] == 'c' && projects[|base| + 1] == 'p';
      PrefixesDisagree(dir, projects, p, |base| + 1);
    }
  }

  /** An ISO time `YYYY-MM-DDTHH:MM:SS...` as far as the file name reads it. */
  predicate IsoTime(t: string) {
    && |t| >= 19
    && AllDigits(t[0..4]) && t[4] == '-' && AllDigits(t[5..7]) && t[7] == '-' && AllDigits(t[8..10])
    && t[10] == 'T'
    && AllDigits(t[11..13]) && t[13] == ':' && AllDigits(t[14..16]) && t[16] == ':' && AllDigits(t[17..19])
  }

  /** Removing ':' from the ISO time touches only the time of day. */
  lemma IsoNoColon(t: string)
    requires IsoTime(t)
    ensures FilterChars(Take(t, 19), NotChar(':'))
         == (t[0..4] + "-" + t[5..7] + "-" + t[8..10] + "T") + (t[11..13] + t[14..16] + t[17..19])
  {
    var date := t[0..4] + "-" + t[5..7] + "-" + t[8..10] + "T";
    var time := t[11..13] + [':'] + t[14..16] + [':'] + t[17..19];
    assert Take(t, 19) == date + time;
    DigitsLack(t[11..13], ':');
    DigitsLack(t[14..16], ':');
    DigitsLack(t[17..19], ':');
    DropSeparators(t[11..13], t[14..16], t[17..19], ':');
    FilterAppend(date, time, NotChar(':'));
    assert forall i :: 0 <= i < |date| ==> date[i] != ':';
    FilterKeepsAll(date, NotChar(':'));
  }

  /** Removing '-' then touches only the date. */
  lemma IsoNoDash(t: string)
    requires IsoTime(t)
    ensures FilterChars((t[0..4] + "-" + t[5..7] + "-" + t[8..10] + "T") + (t[11..13] + t[14..16] + t[17..19]), NotChar('-'))
         == t[0..4] + t[5..7] + t[8..10] + ("T" + (t[11..13] + t[14..16] + t[17..19]))
  {
    var date := t[0..4] + ['-'] + t[5..7] + ['-'] + t[8..10];
    var rest := "T" + (t[11..13] + t[14..16] + t[17..19]);
    assert (t[0..4] + "-" + t[5..7] + "-" + t[8..10] + "T") + (t[11..13] + t[14..16] + t[17..19]) == date + rest;
    DigitsLack(t[0..4], '-');
    DigitsLack(t[5..7], '-');
    DigitsLack(t[8..10], '-');
    DropSeparators(t[0..4], t[5..7], t[8..10], '-');
    FilterAppend(date, rest, NotChar('-'));
    assert forall i :: 0 <= i < |rest| ==> rest[i] != '-';
    FilterKeepsAll(rest, NotChar('-'));
  }

  /** The stamp of an ISO time is `YYYYMMDD-HHMMSS`, the format of the chat
      file names. */
  lemma FileStampIso(t: string)
    requires IsoTime(t)
    ensures FileStamp(t) == t[0..4] + t[5..7] + t[8..10] + "-" + t[11..13] + t[14..16] + t[17..19]
  {
    IsoNoColon(t);
    IsoNoDash(t);
    var u := t[0..4] + t[5..7] + t[8..10] + ("T" + (t[11..13] + t[14..16] + t[17..19]));
    var expected := t[0..4] + t[5..7] + t[8..10] + "-" + t[11..13] + t[14..16] + t[17..19];
    assert |u| == 15 && |expected| == 15;
    forall i | 0 <= i < 15 ensures ReplaceChar(u, 'T', '-')[i] == expected[i] {
      if i != 8 {
        assert u[i] != 'T';
      }
    }
  }

  // ---------------------------------------------------------------------------
  // Index entries and chats

  /** An index entry as `create_chat` records it. Entries written by older
      versions of the store carry no `chat_id`. */
  datatype ChatInfo = ChatInfo(id: Option<string>, name: string, filePath: string,
                               createdAt: string, updatedAt: string, provider: string,
                               messageCount: nat, project: Option<string>)

  /** The entry with its `chat_id` filled in from its key when missing, as
      `list_chats` migrates it. */
  function WithId(key: string, info: ChatInfo): (r: ChatInfo)
    ensures r.id.Some?
    ensures info.id.Some? ==> r == info
    ensures info.id.None? ==> r.id == Some(key)
    ensures r == info.(id := r.id)
  {
    if info.id.Some? then info else info.(id := Some(key))
  }

  /** `cid == key or info.get('name') == key`. */
  predicate Names(cid: string, info: ChatInfo, key: string) {
    cid == key || info.name == key
  }

  function NamesHit(key: string): (string, ChatInfo) -> bool {
    (cid: string, info: ChatInfo) => Names(cid, info, key)
  }

  /** The chat an id-or-name lookup settles on: the first entry, in index
      order, whose id or name is `key`. */
  function Matching(t: Table<ChatInfo>, key: string): (r: Option<string>)
    requires t.Valid()
    ensures r.Some? ==> r.value in t.rows && Names(r.value, t.rows[r.value], key)
    ensures r.Some? ==> exists i :: 0 <= i < |t.keys| && t.keys[i] == r.value
                          && forall j | 0 <= j < i :: !Names(t.keys[j], t.rows[t.keys[j]], key)
    ensures r.None? ==> forall cid | cid in t.rows :: !Names(cid, t.rows[cid], key)
  {
    match FirstIndex(t.keys, t.rows, NamesHit(key))
    case Some(i) => Some(t.keys[i])
    case None => None
  }

  /** One message as the providers receive it. */
  datatype ContextEntry = ContextEntry(role: string, content: string, provider: string)

  /** `get_conversation_context`: the messages, in order, with their role,
      content and provider. */
  function Context(ms: seq<Message>): (r: seq<ContextEntry>)
    ensures |r| == |ms|
    ensures forall i :: 0 <= i < |ms| ==> r[i] == ContextEntry(ms[i].role, ms[i].content, ms[i].provider)
  {
    if ms == [] then []
    else [ContextEntry(ms[0].role, ms[0].content, ms[0].provider)] + Context(ms[1..])
  }

  /** The provider `add_message` records: the given one when truthy,
      otherwise the chat's. */
  function MessageProvider(given: Option<string>, chatProvider: string): string {
    if Truthy(given) then given.value else chatProvider
  }

  /** The chat record `create_chat` returns and `add_message` updates in
      place. */
  class Chat {
    const id: string
    const name: string
    const provider: string
    const createdAt: string
    const project: Option<string>
    var updatedAt: string
    var messageCount: nat
    var messages: seq<Message>

    constructor (id: string, name: string, provider: string, createdAt: string, updatedAt: string,
                 messageCount: nat, project: Option<string>, messages: seq<Message>)
      ensures this.id == id && this.name == name && this.provider == provider
      ensures this.createdAt == createdAt && this.updatedAt == updatedAt
      ensures this.messageCount == messageCount && this.project == project && this.messages == messages
    {
      this.id := id;
      this.name := name;
      this.provider := provider;
      this.createdAt := createdAt;
      this.updatedAt := updatedAt;
      this.messageCount := messageCount;
      this.project := project;
      this.messages := messages;
    }

    /** What `add_message` changes on the chat record itself. */
    method Record(m: Message, now: string)
      modifies this
      ensures messageCount == old(messageCount) + 1 && updatedAt == now
      ensures messages == old(messages) + [m]
    {
      messageCount := messageCount + 1;
      updatedAt := now;
      messages := messages + [m];
    }
  }

  /** The loop of `list_chats`: it gives every entry its id, in index order,
      and collects the entries. */
  method StampChats(t: Table<ChatInfo>) returns (stamped: Table<ChatInfo>, chats: seq<ChatInfo>)
    requires t.Valid()
    ensures stamped == Stamped(t, WithId)
    ensures chats == Values(stamped)
  {
    chats := [];
    var rows := t.rows;
    var i := 0;
    while i < |t.keys|
      invariant i <= |t.keys| && CollectedTo(t, rows, chats, i)
    {
      var k := t.keys[i];
      var info := WithId(k, rows[k]);
      CollectStep(t, rows, chats, i);
      rows := rows[k := info];
      chats := chats + [info];
      i := i + 1;
    }
    CollectDone(t, rows, chats);
    stamped := Table(t.keys, rows);
  }

  /** After `i` rounds of the loop: the first `i` entries carry their ids
      and `chats` holds them. */
  ghost predicate CollectedTo(t: Table<ChatInfo>, rows: map<string, ChatInfo>, chats: seq<ChatInfo>, i: nat)
    requires t.Valid()
  {
    && i <= |t.keys|
    && StampedTo(t, WithId, rows, i)
    && chats == Values(Stamped(t, WithId))[..i]
  }

  lemma CollectStep(t: Table<ChatInfo>, rows: map<string, ChatInfo>, chats: seq<ChatInfo>, i: nat)
    requires t.Valid() && i < |t.keys| && CollectedTo(t, rows, chats, i)
    ensures t.keys[i] in rows
    ensures var info := WithId(t.keys[i], rows[t.keys[i]]);
            CollectedTo(t, rows[t.keys[i] := info], chats + [info], i + 1)
  {
    StampStep(t, WithId, rows, i);
    StampedPrefix(t, WithId, i);
  }

  lemma CollectDone(t: Table<ChatInfo>, rows: map<string, ChatInfo>, chats: seq<ChatInfo>)
    requires t.Valid() && CollectedTo(t, rows, chats, |t.keys|)
    ensures Table(t.keys, rows) == Stamped(t, WithId)
    ensures chats == Values(Stamped(t, WithId))
  {
    StampDone(t, WithId, rows);
    var vs := Values(Stamped(t, WithId));
    assert vs[..|t.keys|] == vs;
  }

  class ChatManager {
    const base: string
    var index: Table<ChatInfo>
    var files: map<string, string>

    ghost predicate Valid()
      reads this
    {
      index.Valid()
    }

    /** `stored` is the index file as read: `None` when it is missing or
        cannot be parsed, and the store then starts empty. */
    constructor (base: string, stored: Option<Table<ChatInfo>>, files: map<string, string>)
      requires stored.Some? ==> stored.value.Valid()
      ensures Valid()
      ensures this.base == base && this.files == files
      ensures index == if stored.Some? then stored.value else Empty()
    {
      this.base := base;
      this.files := files;
      index := if stored.Some? then stored.value else Empty();
    }

    function ChatPath(chat: Chat): string
    {
      ChatFilePath(base, chat.createdAt, chat.name, chat.project)
    }

    /** The front matter written when the chat was created; it is never
        rewritten, so it keeps `updated_at` equal to `created_at`. */
    function ChatHeader(chat: Chat): string
    {
      Header(chat.id, chat.name, chat.provider, chat.createdAt, chat.createdAt, chat.project)
    }

    /** The chat's file holds its header and one block per message, and its
        counter counts its messages. */
    ghost predicate Persisted(chat: Chat)
      reads this, chat
    {
      && ChatPath(chat) in files
      && files[ChatPath(chat)] == Transcript(ChatHeader(chat), chat.messages)
      && chat.messageCount == |chat.messages|
    }

    /** The chat's index entry points at its file and agrees with it. */
    ghost predicate Tracks(chat: Chat)
      reads this, chat
    {
      && chat.id in index.rows
      && index.rows[chat.id].filePath == ChatPath(chat)
      && index.rows[chat.id].provider == chat.provider
      && index.rows[chat.id].messageCount == chat.messageCount
      && index.rows[chat.id].updatedAt == chat.updatedAt
    }

    /** `create_chat`: an explicit name is kept as given; otherwise a
        non-empty first message names the chat; otherwise the name is
        "chat-" and the id. The file is written with its header, and the
        index gains the entry under `id`. */
    method CreateChat(name: Option<string>, firstMessage: Option<string>, project: Option<string>,
                      id: string, now: string) returns (chat: Chat)
      requires Valid()
      modifies this
      ensures Valid() && fresh(chat)
      ensures chat.name == if name.Some? then name.value
                           else if Truthy(firstMessage) then GenerateChatName(firstMessage.value)
                           else "chat-" + id
      ensures chat.id == id && chat.provider == "claude" && chat.project == project
      ensures chat.createdAt == now && chat.updatedAt == now
      ensures chat.messageCount == 0 && chat.messages == []
      ensures files == old(files)[ChatPath(chat) := ChatHeader(chat)]
      ensures index == Put(old(index), id, ChatInfo(Some(id), chat.name, ChatPath(chat), now, now, "claude", 0, project))
      ensures Persisted(chat) && Tracks(chat)
    {
      var chosen: string;
      if name.None? && Truthy(firstMessage) {
        chosen := GenerateChatName(firstMessage.value);
      } else if name.None? {
        chosen := "chat-" + id;
      } else {
        chosen := name.value;
      }
      chat := new Chat(id, chosen, "claude", now, now, 0, project, []);
      var path := ChatPath(chat);
      files := files[path := ChatHeader(chat)];
      index := Put(index, id, ChatInfo(Some(id), chosen, path, now, now, "claude", 0, project));
    }

    /** `add_message`: the counter goes up by one, the message is appended,
        and exactly its block is appended to the chat's file (which is
        created when missing). The index entry is refreshed only when the
        chat has one. A persisted chat stays persisted, and a tracked one
        stays tracked. */
    method AddMessage(chat: Chat, role: string, content: string, provider: Option<string>, now: string)
      returns (m: Message)
      requires Valid()
      modifies this, chat
      ensures Valid()
      ensures m == Message(role, content, MessageProvider(provider, chat.provider), now)
      ensures chat.messageCount == old(chat.messageCount) + 1
      ensures chat.updatedAt == now
      ensures chat.messages == old(chat.messages) + [m]
      ensures files == old(files)[ChatPath(chat) :=
                (if ChatPath(chat) in old(files) then old(files)[ChatPath(chat)] else "")
                + EncodeMessage(chat.messageCount, m)]
      ensures index == if chat.id in old(index.rows)
                       then Put(old(index), chat.id,
                                old(index.rows)[chat.id].(updatedAt := now, messageCount := chat.messageCount))
                       else old(index)
      ensures old(Persisted(chat)) ==> Persisted(chat)
      ensures old(Tracks(chat)) ==> Tracks(chat)
    {
      m := Message(role, content, MessageProvider(provider, chat.provider), now);
      chat.Record(m, now);
      AppendFile(ChatPath(chat), EncodeMessage(chat.messageCount, m));
      Refresh(chat.id, now, chat.messageCount);
      TranscriptAppend(ChatHeader(chat), old(chat.messages), m);
    }

    /** Appending `block` to the file at `path`, which is created when
        missing. */
    method AppendFile(path: string, block: string)
      modifies this
      ensures files == old(files)[path := (if path in old(files) then old(files)[path] else "") + block]
      ensures index == old(index)
    {
      var before := if path in files then files[path] else "";
      files := files[path := before + block];
    }

    /** The index update of `add_message`: only an entry that is there is
        refreshed. */
    method Refresh(id: string, now: string, count: nat)
      requires Valid()
      modifies this
      ensures Valid()
      ensures files == old(files)
      ensures index == if id in old(index.rows)
                       then Put(old(index), id, old(index.rows)[id].(updatedAt := now, messageCount := count))
                       else old(index)
    {
      if id in index.rows {
        index := Put(index, id, index.rows[id].(updatedAt := now, messageCount := count));
      }
    }

    /** `list_chats`: every entry, in index order, each given its id when it
        had none (the entries are updated in the index itself). */
    method ListChats() returns (chats: seq<ChatInfo>)
      requires Valid()
      modifies this
      ensures Valid()
      ensures index == Stamped(old(index), WithId) && files == old(files)
      ensures chats == Values(index)
      ensures forall i :: 0 <= i < |chats| ==> chats[i].id.Some?
    {
      var stamped;
      stamped, chats := StampChats(index);
      index := stamped;
    }

    /** The id-or-name search loop of `load_chat` and `delete_chat`. */
    method FindChat(key: string) returns (found: Option<string>)
      requires Valid()
      ensures found == Matching(index, key)
    {
      var i := 0;
      while i < |index.keys|
        invariant 0 <= i <= |index.keys|
        invariant forall j :: 0 <= j < i ==> !Names(index.keys[j], index.rows[index.keys[j]], key)
      {
        var cid := index.keys[i];
        if Names(cid, index.rows[cid], key) {
          FirstIndexIs(index.keys, index.rows, NamesHit(key), Some(i));
          return Some(cid);
        }
        i := i + 1;
      }
      FirstIndexIs(index.keys, index.rows, NamesHit(key), None);
      return None;
    }

    /** `load_chat`: nothing when no entry matches or its file is missing;
        otherwise the entry's fields and the messages decoded from its
        file, with the entry's provider for blocks that name none. */
    method LoadChat(key: string) returns (chat: Option<Chat>)
      requires Valid()
      ensures chat.Some? <==> Matching(index, key).Some? && index.rows[Matching(index, key).value].filePath in files
      ensures chat.Some? ==>
                var cid := Matching(index, key).value;
                var info := index.rows[cid];
                && fresh(chat.value)
                && chat.value.id == cid && chat.value.name == info.name && chat.value.provider == info.provider
                && chat.value.createdAt == info.createdAt && chat.value.updatedAt == info.updatedAt
                && chat.value.messageCount == info.messageCount && chat.value.project == info.project
                && chat.value.messages == Decode(files[info.filePath], info.provider)
    {
      var found := FindChat(key);
      if found.None? {
        return None;
      }
      var info := index.rows[found.value];
      if info.filePath !in files {
        return None;
      }
      var messages := Decode(files[info.filePath], info.provider);
      var c := new Chat(found.value, info.name, info.provider, info.createdAt, info.updatedAt,
                        info.messageCount, info.project, messages);
      return Some(c);
    }

    /** `delete_chat`: false when nothing matches (or the match has the
        empty id, which Python treats as not found); otherwise the file, if
        present, and exactly that index entry are removed. */
    method DeleteChat(key: string) returns (deleted: bool)
      requires Valid()
      modifies this
      ensures Valid()
      ensures deleted <==> old(Matching(index, key)).Some? && old(Matching(index, key)).value != ""
      ensures deleted ==>
                var cid := old(Matching(index, key)).value;
                && index == Remove(old(index), cid)
                && files == old(files) - {old(index.rows)[cid].filePath}
      ensures !deleted ==> index == old(index) && files == old(files)
    {
      var found := FindChat(key);
      if found.None? || found.value == "" {
        return false;
      }
      var cid := found.value;
      files := files - {index.rows[cid].filePath};
      index := Remove(index, cid);
      return true;
    }

    /** Reading back a persisted, tracked chat through its index entry gives
        its messages as `Recovered` describes them, provided the header
        holds no "## Message" and every message is `Decodable`. */
    lemma ReadBack(chat: Chat)
      requires Persisted(chat) && Tracks(chat)
      requires !Contains(ChatHeader(chat), Marker)
      requires forall i :: 0 <= i < |chat.messages| ==> Decodable(chat.messages[i])
      ensures index.rows[chat.id].filePath in files
      ensures var ms, provider := chat.messages, chat.provider;
              Decode(files[index.rows[chat.id].filePath], index.rows[chat.id].provider)
                == seq(|ms|, i requires 0 <= i < |ms| => Recovered(ms[i], provider))
    {
      var h := ChatHeader(chat);
      assert h[|h| - 1] == '\n';
      DecodeTranscript(h, chat.messages, chat.provider);
    }
  }
}
