/**
 * The message list of one chat (`src/ui/ChatView.tsx`): where it is kept
 * in browser storage, how a send grows it by the user's message and an
 * empty assistant placeholder, and how the streamed reply or a failure
 * text lands in that placeholder and nowhere else.
 */
module ChatView {
  import opened Wrappers
  import opened Storage
  import opened Text

  datatype Role = User | Assistant

  /** A chat message; `ts` is the clock reading taken when it was created. */
  datatype Message = Message(id: string, role: Role, text: string, ts: int)

  const ChatPrefix: string := "anima-chat-"

  /** `keyForChat`: the storage slot of a chat's messages; the chat id reads back from it. */
  function KeyForChat(chatId: string): (k: string)
    ensures ChatPrefix <= k && k[|ChatPrefix|..] == chatId
  {
    ChatPrefix + chatId
  }

  /** Different chats are stored under different keys. */
  lemma {:induction false} KeyForChatInjective(a: string, b: string)
    requires a != b
    ensures KeyForChat(a) != KeyForChat(b)
  {
  }

  /** The slots of browser storage that hold message lists, as JSON entries. */
  type MessageStore = map<string, Entry<seq<Message>>>

  /** What `localStorage.getItem(key)` finds. */
  function Slot<T>(store: map<string, T>, key: string): Option<T> {
    if key in store then Some(store[key]) else None
  }

  /** `loadMessages`: the stored list, or the empty list when the slot is absent or malformed. */
  function LoadMessages(store: MessageStore, chatId: string): (r: seq<Message>)
    ensures KeyForChat(chatId) !in store ==> r == []
    ensures KeyForChat(chatId) in store && store[KeyForChat(chatId)].Malformed? ==> r == []
    ensures KeyForChat(chatId) in store && store[KeyForChat(chatId)].Parsed? ==> r == store[KeyForChat(chatId)].value
  {
    LoadOr(Slot(store, KeyForChat(chatId)), [])
  }

  /** `saveMessages`: the chat's slot holds the list, and every other slot is kept. */
  function SaveMessages(store: MessageStore, chatId: string, msgs: seq<Message>): (r: MessageStore)
    ensures r.Keys == store.Keys + {KeyForChat(chatId)}
    ensures r[KeyForChat(chatId)] == Parsed(msgs)
    ensures forall k :: k in store && k != KeyForChat(chatId) ==> r[k] == store[k]
  {
    store[KeyForChat(chatId) := Parsed(msgs)]
  }

  /** A saved list loads back as it was saved, and the lists of other chats are untouched. */
  lemma {:induction false} SaveThenLoad(store: MessageStore, chatId: string, msgs: seq<Message>, other: string)
    ensures LoadMessages(SaveMessages(store, chatId, msgs), chatId) == msgs
    ensures other != chatId ==> LoadMessages(SaveMessages(store, chatId, msgs), other) == LoadMessages(store, other)
  {
    if other != chatId {
      KeyForChatInjective(chatId, other);
    }
  }

  /** A later save of the same chat replaces an earlier one. */
  lemma {:induction false} SaveOverwrites(store: MessageStore, chatId: string, a: seq<Message>, b: seq<Message>)
    ensures SaveMessages(SaveMessages(store, chatId, a), chatId, b) == SaveMessages(store, chatId, b)
  {
  }

  // ----- list updates keyed by message id -----

  /** What an update does to the text of the message it targets. */
  datatype Edit = Append(chunk: string) | Replace(text: string) {
    function Apply(before: string): string {
      match this
      case Append(chunk) => before + chunk
      case Replace(text) => text
    }
  }

  /**
   * `prev.map(m => m.id === id ? { ...m, text: … } : m)`: every message
   * with that id gets its text edited; every other message, and every
   * field but the text, stays as it was.
   */
  function UpdateWhere(ms: seq<Message>, id: string, e: Edit): (r: seq<Message>)
    ensures |r| == |ms|
    ensures forall i :: 0 <= i < |ms| && ms[i].id != id ==> r[i] == ms[i]
    ensures forall i :: 0 <= i < |ms| && ms[i].id == id ==>
      r[i].id == id && r[i].role == ms[i].role && r[i].ts == ms[i].ts && r[i].text == e.Apply(ms[i].text)
  {
    if ms == [] then []
    else
      var m := ms[0];
      [if m.id == id then m.(text := e.Apply(m.text)) else m] + UpdateWhere(ms[1..], id, e)
  }

  /** An empty chunk changes nothing, which is why the read loop may skip it. */
  lemma {:induction false} EmptyChunkNoChange(ms: seq<Message>, id: string)
    ensures UpdateWhere(ms, id, Append("")) == ms
  {
    var r := UpdateWhere(ms, id, Append(""));
    forall i | 0 <= i < |ms|
      ensures r[i] == ms[i]
    {
      assert ms[i].text + "" == ms[i].text;
    }
  }

  /** Two chunks appended one after the other are one chunk holding both. */
  lemma {:induction false} ChunksCompose(ms: seq<Message>, id: string, a: string, b: string)
    ensures UpdateWhere(UpdateWhere(ms, id, Append(a)), id, Append(b)) == UpdateWhere(ms, id, Append(a + b))
  {
    var r1 := UpdateWhere(UpdateWhere(ms, id, Append(a)), id, Append(b));
    var r2 := UpdateWhere(ms, id, Append(a + b));
    forall i | 0 <= i < |ms|
      ensures r1[i] == r2[i]
    {
      if ms[i].id == id {
        AppendAssoc(ms[i].text, a, b);
      }
    }
  }

  /** A replacement wipes out whatever was streamed into the message before. */
  lemma {:induction false} ReplaceOverrides(ms: seq<Message>, id: string, e: Edit, text: string)
    ensures UpdateWhere(UpdateWhere(ms, id, e), id, Replace(text)) == UpdateWhere(ms, id, Replace(text))
  {
    var r1 := UpdateWhere(UpdateWhere(ms, id, e), id, Replace(text));
    var r2 := UpdateWhere(ms, id, Replace(text));
    assert forall i :: 0 <= i < |ms| ==> r1[i] == r2[i];
  }

  /** No message of `ms` carries `id`. */
  predicate Fresh(ms: seq<Message>, id: string) {
    forall i :: 0 <= i < |ms| ==> ms[i].id != id
  }

  /** With an id no earlier message has, an update reaches the last message only. */
  lemma {:induction false} OnlyLastUpdated(ms: seq<Message>, m: Message, e: Edit)
    requires Fresh(ms, m.id)
    ensures UpdateWhere(ms + [m], m.id, e) == ms + [m.(text := e.Apply(m.text))]
  {
    var r := UpdateWhere(ms + [m], m.id, e);
    assert r[|ms|] == m.(text := e.Apply(m.text));
    assert r[..|ms|] == ms by {
      forall i | 0 <= i < |ms|
        ensures r[i] == ms[i]
      {
        assert (ms + [m])[i] == ms[i];
      }
    }
    assert r == r[..|ms|] + [r[|ms|]];
  }

  /** The list after the read loop: each non-empty chunk, in turn, appended to the message `id`. */
  function Streamed(ms: seq<Message>, id: string, chunks: seq<string>): seq<Message>
  {
    if chunks == [] then ms
    else
      var before := Streamed(ms, id, chunks[..|chunks| - 1]);
      var chunk := chunks[|chunks| - 1];
      if chunk != "" then UpdateWhere(before, id, Append(chunk)) else before
  }

  /** However the reply was cut into chunks, the message ends up with all of it, in order. */
  lemma {:induction false} StreamedIsConcat(ms: seq<Message>, id: string, chunks: seq<string>)
    ensures Streamed(ms, id, chunks) == UpdateWhere(ms, id, Append(Concat(chunks)))
    decreases |chunks|
  {
    if chunks == [] {
      EmptyChunkNoChange(ms, id);
    } else {
      var init, chunk := chunks[..|chunks| - 1], chunks[|chunks| - 1];
      StreamedIsConcat(ms, id, init);
      assert Concat(chunks) == Concat(init) + chunk;
      if chunk != "" {
        ChunksCompose(ms, id, Concat(init), chunk);
      } else {
        assert Concat(init) + chunk == Concat(init);
      }
    }
  }

  // ----- failure texts -----

  const ErrorPrefix: string := "Ошибка: "

  /** The fixed text shown when the request or the stream throws. */
  const RetryText: string := "Сеть недоступна. Попробуй ещё раз."

  /** `Ошибка: ${errText || res.status}`: the upstream text, or the status when that text is empty. */
  function ErrorText(errText: string, status: int): (r: string)
    ensures ErrorPrefix <= r
    ensures errText != "" ==> r[|ErrorPrefix|..] == errText
  {
    ErrorPrefix + (if errText != "" then errText else IntStr(status))
  }

  /** With no upstream text the status can be read back from the error message. */
  lemma {:induction false} ErrorNamesStatus(status: int)
    ensures var rest := ErrorText("", status)[|ErrorPrefix|..];
      (IsDigits(rest) || (|rest| > 0 && rest[0] == '-' && IsDigits(rest[1..]))) && ParseInt(rest) == status
  {
    var t := IntStr(status);
    DropPrefix(ErrorPrefix, t);
    ParseIntStr(status);
  }

  lemma {:induction false} DropPrefix(p: string, t: string)
    ensures (p + t)[|p|..] == t
  {
  }

  // ----- a send -----

  /** How the request of a send ends. */
  datatype Outcome =
      /** `!res.ok || !res.body`, with the upstream text and status. */
      Refused(errText: string, status: int)
      /**
       * The stream is read to its end.  `eager` says whether React ran the
       * updater of the closing save at once, so that it captured the list.
       */
    | Delivered(chunks: seq<string>, eager: bool)
      /** An exception, after `chunks` had been shown. */
    | Broken(chunks: seq<string>)

  /** The text the placeholder ends with. */
  function Reply(o: Outcome): string {
    match o
    case Refused(e, st) => ErrorText(e, st)
    case Delivered(chunks, _) => Concat(chunks)
    case Broken(_) => RetryText
  }

  /** The list on screen when the send has finished; `withBot` ends with the placeholder. */
  function Shown(withBot: seq<Message>, botId: string, o: Outcome): seq<Message> {
    match o
    case Refused(e, st) => UpdateWhere(withBot, botId, Replace(ErrorText(e, st)))
    case Delivered(chunks, _) => Streamed(withBot, botId, chunks)
    case Broken(chunks) => UpdateWhere(Streamed(withBot, botId, chunks), botId, Replace(RetryText))
  }

  /**
   * The list the last save of a send writes.  `updateBot` writes `msgs` as
   * it was rendered when the send began; the closing save writes what the
   * updater captured, or `[]` when it had not run.
   */
  function Persisted(rendered: seq<Message>, withBot: seq<Message>, botId: string, o: Outcome): seq<Message> {
    match o
    case Delivered(chunks, eager) => if eager then Streamed(withBot, botId, chunks) else []
    case _ => rendered
  }

  /**
   * A send grows the list by exactly two messages: the earlier ones and the
   * user's message stay as they are, and the placeholder (with an id no
   * other message has) ends holding the reply.
   */
  lemma {:induction false} SendOutcome(ms: seq<Message>, user: Message, bot: Message, o: Outcome)
    requires Fresh(ms + [user], bot.id) && bot.text == ""
    ensures var r := Shown(ms + [user, bot], bot.id, o);
      |r| == |ms| + 2 && r[..|ms| + 1] == ms + [user] && r[|ms| + 1] == bot.(text := Reply(o))
  {
    var before := ms + [user];
    assert ms + [user, bot] == before + [bot];
    var r := Shown(before + [bot], bot.id, o);
    match o
    case Refused(e, st) =>
      OnlyLastUpdated(before, bot, Replace(ErrorText(e, st)));
    case Delivered(chunks, _) =>
      StreamedIsConcat(before + [bot], bot.id, chunks);
      OnlyLastUpdated(before, bot, Append(Concat(chunks)));
      EmptyPrefix(Concat(chunks));
    case Broken(chunks) =>
      StreamedIsConcat(before + [bot], bot.id, chunks);
      OnlyLastUpdated(before, bot, Append(Concat(chunks)));
      var streamed := bot.(text := Concat(chunks));
      OnlyLastUpdated(before, streamed, Replace(RetryText));
  }

  /**
   * What a reload finds after a send.  A refused or broken send leaves the
   * list as it was before the send, without the user's message; a delivered
   * one leaves the final list, or the empty list when the closing updater
   * had not run.
   */
  lemma {:induction false} StoredAfterSend(store: MessageStore, chatId: string, ms: seq<Message>, withBot: seq<Message>, botId: string, o: Outcome)
    ensures var loaded := LoadMessages(SaveMessages(store, chatId, Persisted(ms, withBot, botId, o)), chatId);
      (!o.Delivered? ==> loaded == ms) &&
      (o.Delivered? && o.eager ==> loaded == Shown(withBot, botId, o)) &&
      (o.Delivered? && !o.eager ==> loaded == [])
  {
    SaveThenLoad(store, chatId, Persisted(ms, withBot, botId, o), chatId);
  }

  /**
   * The browser-side chat panel: the chat shown, its list, the input box,
   * the loading flag, and the message slots of browser storage.
   */
  class View {
    var chatId: string
    var msgs: seq<Message>
    var input: string
    var loading: bool
    var store: MessageStore

    /** The first render: the list is loaded from storage. */
    constructor (chatId: string, store: MessageStore)
      ensures this.chatId == chatId && this.store == store
      ensures msgs == LoadMessages(store, chatId) && input == "" && !loading
    {
      this.chatId := chatId;
      this.store := store;
      msgs := LoadMessages(store, chatId);
      input := "";
      loading := false;
    }

    /** The effect on `[chatId]`: another chat is shown, its list loaded and the input cleared. */
    method Open(id: string)
      modifies this
      ensures chatId == id && msgs == LoadMessages(store, id) && input == ""
      ensures store == old(store) && loading == old(loading)
    {
      chatId := id;
      msgs := LoadMessages(store, id);
      input := "";
    }

    /** The input box's `onChange`. */
    method Type(text: string)
      modifies this
      ensures input == text
      ensures chatId == old(chatId) && msgs == old(msgs) && loading == old(loading) && store == old(store)
    {
      input := text;
    }

    /**
     * `updateBot(id, text)` called from a send that began when `rendered`
     * was on screen: the list gets the new text, storage gets `rendered`.
     */
    method UpdateBot(rendered: seq<Message>, id: string, text: string)
      modifies this
      ensures msgs == UpdateWhere(old(msgs), id, Replace(text))
      ensures store == SaveMessages(old(store), chatId, rendered)
      ensures chatId == old(chatId) && input == old(input) && loading == old(loading)
    {
      msgs := UpdateWhere(msgs, id, Replace(text));
      store := SaveMessages(store, chatId, rendered);
    }

    /** The read loop: each non-empty decoded chunk is appended to the placeholder. */
    method ReadStream(botId: string, chunks: seq<string>)
      modifies this
      ensures msgs == Streamed(old(msgs), botId, chunks)
      ensures chatId == old(chatId) && input == old(input) && loading == old(loading) && store == old(store)
    {
      var i := 0;
      while i < |chunks|
        invariant 0 <= i <= |chunks|
        invariant msgs == Streamed(old(msgs), botId, chunks[..i])
        invariant chatId == old(chatId) && input == old(input) && loading == old(loading) && store == old(store)
      {
        var chunk := chunks[i];
        assert chunks[..i + 1][..i] == chunks[..i];
        if chunk != "" {
          msgs := UpdateWhere(msgs, botId, Append(chunk));
        }
        i := i + 1;
      }
      assert chunks[..i] == chunks;
    }

    /**
     * `send`.  `userId` and `botId` are the two `uid()` draws, `t1` and `t2`
     * the two clock readings, `o` how the request ends.  The result is the
     * message list posted to the relay, `None` when nothing is sent.
     */
    method Send(userId: string, botId: string, t1: int, t2: int, o: Outcome) returns (request: Option<seq<Message>>)
      modifies this
      ensures chatId == old(chatId)
      ensures Trim(old(input)) == "" ==>
        request == None && msgs == old(msgs) && input == old(input) && loading == old(loading) && store == old(store)
      ensures Trim(old(input)) != "" ==>
        var user := Message(userId, User, Trim(old(input)), t1);
        var withBot := old(msgs) + [user, Message(botId, Assistant, "", t2)];
        request == Some(old(msgs) + [user]) && input == "" && !loading &&
        msgs == Shown(withBot, botId, o) &&
        store == SaveMessages(old(store), chatId, Persisted(old(msgs), withBot, botId, o))
    {
      var text := Trim(input);
      if text == "" {
        return None;
      }
      var rendered := msgs;
      input := "";
      var user := Message(userId, User, text, t1);
      var withUser := msgs + [user];
      msgs := withUser;
      store := SaveMessages(store, chatId, withUser);
      var bot := Message(botId, Assistant, "", t2);
      msgs := msgs + [bot];
      store := SaveMessages(store, chatId, withUser + [bot]);
      loading := true;
      request := Some(withUser);
      assert msgs == rendered + [user, bot];
      Finish(rendered, botId, o);
      SaveOverwrites(old(store), chatId, withUser, withUser + [bot]);
      SaveOverwrites(old(store), chatId, withUser + [bot], Persisted(rendered, rendered + [user, bot], botId, o));
    }

    /** What follows the request: the outcome lands in the placeholder and the last save is made. */
    method Finish(rendered: seq<Message>, botId: string, o: Outcome)
      modifies this
      ensures msgs == Shown(old(msgs), botId, o)
      ensures store == SaveMessages(old(store), chatId, Persisted(rendered, old(msgs), botId, o))
      ensures chatId == old(chatId) && input == old(input) && !loading
    {
      match o
      case Refused(errText, status) =>
        UpdateBot(rendered, botId, ErrorText(errText, status));
        loading := false;
      case Delivered(chunks, eager) =>
        ReadStream(botId, chunks);
        var current := if eager then msgs else [];
        store := SaveMessages(store, chatId, current);
        loading := false;
      case Broken(chunks) =>
        ReadStream(botId, chunks);
        UpdateBot(rendered, botId, RetryText);
        loading := false;
    }
  }
}
