/**
 * The application shell (`src/ui/App.tsx`): the onboarding route machine
 * and the profile it collects, the topic toggle, the mood caption, the
 * age choices, and the chat list with its create, delete and selection.
 */
module App {
  import opened Wrappers
  import opened Storage
  import opened Text
  import I18n
  import MoodFace
  import ChatView

  // ----- onboarding routes -----

  datatype Route = Splash | Age | Name | Topics | Mood | Chat

  /** Position of a route along the onboarding. */
  function Rank(r: Route): (n: nat)
    ensures n <= 5 && (n == 5 <==> r == Chat)
  {
    match r
    case Splash => 0
    case Age => 1
    case Name => 2
    case Topics => 3
    case Mood => 4
    case Chat => 5
  }

  /** The route each screen's `onNext` moves to; the chat screen has no `onNext`. */
  function NextRoute(r: Route): (next: Route)
    ensures r != Chat ==> Rank(next) == Rank(r) + 1
    ensures r == Chat ==> next == Chat
  {
    match r
    case Splash => Age
    case Age => Name
    case Name => Topics
    case Topics => Mood
    case Mood => Chat
    case Chat => Chat
  }

  /** The route after `n` presses of the continue button. */
  function Advance(r: Route, n: nat): Route {
    if n == 0 then r else NextRoute(Advance(r, n - 1))
  }

  /** One step at a time: after `n` presses from the splash screen the user is on the `n`-th screen. */
  lemma {:induction false} OneStepAtATime(n: nat)
    ensures Rank(Advance(Splash, n)) == if n < 5 then n else 5
  {
    if n > 0 {
      OneStepAtATime(n - 1);
    }
  }

  /** Routes are told apart by their rank, so the onboarding visits each screen exactly once. */
  lemma {:induction false} RankInjective(a: Route, b: Route)
    requires Rank(a) == Rank(b)
    ensures a == b
  {
  }

  const OnbDoneKey: string := "anima-onb-done"
  const OnbKey: string := "anima-onb"

  /** The first route: the chat when the stored onboarding flag is exactly `"1"`, the splash otherwise. */
  function InitialRoute(flag: Option<string>): (r: Route)
    ensures r == Chat <==> flag == Some("1")
    ensures r == Splash <==> flag != Some("1")
  {
    if flag == Some("1") then Chat else Splash
  }

  // ----- the profile -----

  /** `Profile`: every field optional. */
  datatype Profile = Profile(age: Option<int>, name: Option<string>, topics: Option<seq<string>>, mood: Option<string>)

  const EmptyProfile: Profile := Profile(None, None, None, None)

  /** The answer one onboarding screen gives. */
  datatype Answer = AgeIs(age: int) | NameIs(name: string) | TopicsAre(topics: seq<string>) | MoodIs(mood: string)

  /** The route whose screen gives that kind of answer. */
  function AnsweredOn(a: Answer): Route {
    match a
    case AgeIs(_) => Age
    case NameIs(_) => Name
    case TopicsAre(_) => Topics
    case MoodIs(_) => Mood
  }

  /** `{ ...profile, field }`: the answered field is set and every other field is kept. */
  function Merge(p: Profile, a: Answer): (q: Profile)
    ensures q.age == if a.AgeIs? then Some(a.age) else p.age
    ensures q.name == if a.NameIs? then Some(a.name) else p.name
    ensures q.topics == if a.TopicsAre? then Some(a.topics) else p.topics
    ensures q.mood == if a.MoodIs? then Some(a.mood) else p.mood
  {
    match a
    case AgeIs(v) => p.(age := Some(v))
    case NameIs(v) => p.(name := Some(v))
    case TopicsAre(v) => p.(topics := Some(v))
    case MoodIs(v) => p.(mood := Some(v))
  }

  /** Answers on different screens do not interfere: their merges commute. */
  lemma {:induction false} MergesCommute(p: Profile, a: Answer, b: Answer)
    requires AnsweredOn(a) != AnsweredOn(b)
    ensures Merge(Merge(p, a), b) == Merge(Merge(p, b), a)
  {
  }

  /** Answering the same screen again keeps only the later answer. */
  lemma {:induction false} LaterAnswerWins(p: Profile, a: Answer, b: Answer)
    requires AnsweredOn(a) == AnsweredOn(b)
    ensures Merge(Merge(p, a), b) == Merge(p, b)
  {
  }

  // ----- the topics screen -----

  /** `s.filter(x => x !== t)`. */
  function Without(s: seq<string>, t: string): (r: seq<string>)
    ensures forall x :: x in r <==> x in s && x != t
    ensures |r| <= |s|
    ensures t !in s ==> r == s
  {
    if s == [] then []
    else if s[0] == t then Without(s[1..], t)
    else [s[0]] + Without(s[1..], t)
  }

  /** `filter` keeps the order and the copies of what it keeps: it works element by element. */
  lemma {:induction false} WithoutDistributes(a: seq<string>, b: seq<string>, t: string)
    ensures Without(a + b, t) == Without(a, t) + Without(b, t)
    ensures forall x :: Without([x], t) == if x == t then [] else [x]
    decreases |a|
  {
    if a == [] {
      assert a + b == b;
    } else {
      assert (a + b)[0] == a[0] && (a + b)[1..] == a[1..] + b;
      WithoutDistributes(a[1..], b, t);
      if a[0] != t {
        AppendAssoc([a[0]], Without(a[1..], t), Without(b, t));
      }
    }
    forall x
      ensures Without([x], t) == if x == t then [] else [x]
    {
      assert [x][1..] == [];
    }
  }

  /**
   * `togg`: removes every copy of a selected topic, or appends an
   * unselected one at the end.  The toggled topic's membership flips and
   * every other topic's is kept.
   */
  function Togg(s: seq<string>, t: string): (r: seq<string>)
    ensures t in r <==> t !in s
    ensures forall x :: x != t ==> (x in r <==> x in s)
  {
    if t in s then Without(s, t) else s + [t]
  }

  /** Toggling an unselected topic twice restores the selection. */
  lemma {:induction false} ToggTwice(s: seq<string>, t: string)
    requires t !in s
    ensures Togg(Togg(s, t), t) == s
  {
    WithoutLast(s, t);
  }

  lemma {:induction false} WithoutLast(s: seq<string>, t: string)
    requires t !in s
    ensures Without(s + [t], t) == s
    decreases |s|
  {
    if s == [] {
      assert [t][1..] == [];
    } else {
      assert (s + [t])[1..] == s[1..] + [t];
      WithoutLast(s[1..], t);
    }
  }

  /** No topic is listed twice. */
  predicate Distinct(s: seq<string>) {
    forall i, j :: 0 <= i < j < |s| ==> s[i] != s[j]
  }

  /** The selection starts empty and only changes by toggles, so it never lists a topic twice. */
  lemma {:induction false} ToggKeepsDistinct(s: seq<string>, t: string)
    requires Distinct(s)
    ensures Distinct(Togg(s, t))
  {
    if t in s {
      WithoutKeepsDistinct(s, t);
    }
  }

  lemma {:induction false} WithoutKeepsDistinct(s: seq<string>, t: string)
    requires Distinct(s)
    ensures Distinct(Without(s, t))
    decreases |s|
  {
    if s != [] {
      WithoutKeepsDistinct(s[1..], t);
      if s[0] != t {
        var rest := Without(s[1..], t);
        assert s[0] !in s[1..];
        assert s[0] !in rest;
        assert Without(s, t) == [s[0]] + rest;
      }
    }
  }

  // ----- the mood and age screens -----

  /**
   * The dictionary key of the mood caption: `mood_mid`, overwritten by
   * `mood_bad` below 33 and by `mood_good` from 66.
   */
  function MoodKey(v: int): (k: string)
    ensures k == "mood_bad" <==> v < 33
    ensures k == "mood_good" <==> v >= 66
    ensures k == "mood_mid" <==> 33 <= v < 66
  {
    var mid := "mood_mid";
    var key := if v < 33 then "mood_bad" else mid;
    if v >= 66 then "mood_good" else key
  }

  /** The caption uses the face's thresholds: in English it is the face's own label. */
  lemma {:induction false} CaptionMatchesFace(v: int)
    ensures I18n.Lookup(I18n.En, MoodKey(v)) == MoodFace.Label(v)
  {
    var b := MoodFace.BandOf(v);
  }

  /** `Array.from({ length: 61 }, (_, i) => 12 + i)`. */
  function Ages(): (r: seq<int>)
    ensures |r| == 61
  {
    seq(61, i => 12 + i)
  }

  /** The age choices are exactly 12 to 72, in ascending order. */
  lemma {:induction false} AgesRange(x: int)
    ensures forall i, j :: 0 <= i < j < |Ages()| ==> Ages()[i] < Ages()[j]
    ensures Ages()[0] == 12 && Ages()[60] == 72
    ensures x in Ages() <==> 12 <= x <= 72
  {
    if 12 <= x <= 72 {
      assert Ages()[x - 12] == x;
    }
  }

  /** An age shown by the picker (`String`) reads back as that age (`parseInt`). */
  lemma {:induction false} AgeChoiceReadsBack(i: int)
    requires 0 <= i < 61
    ensures ParseInt(IntStr(Ages()[i])) == Ages()[i]
  {
    ParseIntStr(Ages()[i]);
  }

  /** The key the age card asks to translate; no dictionary has it. */
  const AgeQuestion: string := "How old are you?"

  /**
   * The age card's heading, `t("How old are you?") || "How old are you?"`:
   * in every language the key itself, since no dictionary translates it;
   * `None` where `t` fails on an unknown stored language.
   */
  method AgeHeading(store: map<string, string>) returns (h: Option<string>)
    ensures I18n.GetLang(store) in I18n.Dict ==> h == Some(AgeQuestion)
    ensures I18n.GetLang(store) !in I18n.Dict && I18n.GetLang(store) !in I18n.InheritedNames ==> h == None
  {
    var t := I18n.T(store, AgeQuestion, None);
    if t.None? {
      return None;
    }
    if I18n.GetLang(store) in I18n.Dict {
      I18n.UntranslatedKeyIsItself(I18n.GetLang(store), AgeQuestion);
    }
    h := Some(if t.value != "" then t.value else AgeQuestion);
  }

  // ----- the chat list -----

  /** `ChatMeta`. */
  datatype ChatMeta = ChatMeta(id: string, title: string, created: int)

  /** `loadChats().filter(c => c.id !== id)`. */
  function RemoveChat(list: seq<ChatMeta>, id: string): (r: seq<ChatMeta>)
    ensures forall c :: c in r <==> c in list && c.id != id
    ensures |r| <= |list|
    ensures (forall c :: c in list ==> c.id != id) ==> r == list
  {
    if list == [] then []
    else if list[0].id == id then RemoveChat(list[1..], id)
    else [list[0]] + RemoveChat(list[1..], id)
  }

  /** `filter` keeps the order and the copies of the chats it keeps: it works chat by chat. */
  lemma {:induction false} RemoveChatDistributes(a: seq<ChatMeta>, b: seq<ChatMeta>, id: string)
    ensures RemoveChat(a + b, id) == RemoveChat(a, id) + RemoveChat(b, id)
    ensures forall c :: RemoveChat([c], id) == if c.id == id then [] else [c]
    decreases |a|
  {
    if a == [] {
      assert a + b == b;
    } else {
      assert (a + b)[0] == a[0] && (a + b)[1..] == a[1..] + b;
      RemoveChatDistributes(a[1..], b, id);
      if a[0].id != id {
        AppendAssoc([a[0]], RemoveChat(a[1..], id), RemoveChat(b, id));
      }
    }
    forall c
      ensures RemoveChat([c], id) == if c.id == id then [] else [c]
    {
      assert [c][1..] == [];
    }
  }

  /** The first chat left after a delete is the first chat of the list with another id. */
  lemma {:induction false} RemoveChatFirst(list: seq<ChatMeta>, id: string)
    requires |RemoveChat(list, id)| > 0
    ensures exists k :: (0 <= k < |list| && list[k] == RemoveChat(list, id)[0] && list[k].id != id &&
      forall j :: 0 <= j < k ==> list[j].id == id)
    decreases |list|
  {
    if list[0].id == id {
      RemoveChatFirst(list[1..], id);
      var k :| 0 <= k < |list[1..]| && list[1..][k] == RemoveChat(list[1..], id)[0] && list[1..][k].id != id &&
        forall j :: 0 <= j < k ==> list[1..][j].id == id;
      assert list[k + 1] == list[1..][k];
      forall j | 0 <= j < k + 1
        ensures list[j].id == id
      {
        if j > 0 {
          assert list[j] == list[1..][j - 1];
        }
      }
    } else {
      assert list[0] == RemoveChat(list, id)[0];
    }
  }

  /** A chat that precedes every deleted one keeps its place at the head of the list. */
  lemma {:induction false} RemoveChatKeepsHead(list: seq<ChatMeta>, id: string)
    requires |list| > 0 && list[0].id != id
    ensures |RemoveChat(list, id)| > 0 && RemoveChat(list, id)[0] == list[0]
    ensures RemoveChat(list, id)[1..] == RemoveChat(list[1..], id)
  {
  }

  /** The title of a new chat: the trimmed prompt answer, or `Chat <time>` when that is missing or blank. */
  function NewTitle(answer: Option<string>, time: string): (t: string)
    ensures answer.Some? && Trim(answer.value) != "" ==> t == Trim(answer.value)
    ensures (answer.None? || Trim(answer.value) == "") ==> t == "Chat " + time
  {
    match answer
    case Some(s) => if Trim(s) != "" then Trim(s) else "Chat " + time
    case None => "Chat " + time
  }

  /** A non-blank title has no whitespace at either end. */
  lemma {:induction false} NewTitleTrimmed(answer: string, time: string)
    requires Trim(answer) != ""
    ensures var t := NewTitle(Some(answer), time); !IsSpace(t[0]) && !IsSpace(t[|t| - 1])
  {
    TrimEnds(answer);
  }

  /** The chat selected after deleting `idDel`: the first remaining one, when the current chat went and others remain. */
  function SelectAfterDelete(current: string, idDel: string, rest: seq<ChatMeta>): (r: string)
    ensures r == current || (current == idDel && |rest| > 0 && r == rest[0].id)
  {
    if current == idDel && |rest| > 0 then rest[0].id else current
  }

  /**
   * Selection repair: a surviving selection is kept; a deleted one moves to
   * the first chat of the list, in list order, with another id, unless
   * there is none, in which case the deleted id stays selected.
   */
  lemma {:induction false} SelectionRepair(list: seq<ChatMeta>, current: string, idDel: string)
    ensures var rest := RemoveChat(list, idDel); var sel := SelectAfterDelete(current, idDel, rest);
      (current != idDel ==> sel == current) &&
      (current == idDel && |rest| > 0 ==> (sel != idDel && sel == rest[0].id &&
        exists k :: 0 <= k < |list| && list[k].id == sel && forall j :: 0 <= j < k ==> list[j].id == idDel)) &&
      (current == idDel && |rest| == 0 ==> sel == idDel)
  {
    var rest := RemoveChat(list, idDel);
    if current == idDel && |rest| > 0 {
      RemoveChatFirst(list, idDel);
    }
  }

  /**
   * The `App` component's state and the browser-storage slots it uses:
   * the chat list (`anima-chat-list`), the message lists, the stored
   * profile (`anima-onb`) and the onboarding flag (`anima-onb-done`).
   */
  class Shell {
    var route: Route
    var profile: Profile
    var chatId: string
    var chats: Option<Entry<seq<ChatMeta>>>
    var messages: ChatView.MessageStore
    var savedProfile: Option<Entry<Profile>>
    var onbDone: Option<string>

    /** `loadChats`. */
    function LoadChats(): seq<ChatMeta>
      reads this
    {
      LoadOr(chats, [])
    }

    /**
     * The first render.  `newId` and `now` are the `uid()` and `Date.now()`
     * draws used when the stored chat list is empty.
     */
    constructor (chats: Option<Entry<seq<ChatMeta>>>, messages: ChatView.MessageStore,
                 savedProfile: Option<Entry<Profile>>, onbDone: Option<string>, newId: string, now: int)
      ensures this.messages == messages && this.savedProfile == savedProfile && this.onbDone == onbDone
      ensures route == InitialRoute(onbDone) && profile == LoadOr(savedProfile, EmptyProfile)
      ensures |LoadOr(chats, [])| > 0 ==> this.chats == chats && chatId == LoadOr(chats, [])[0].id
      ensures |LoadOr(chats, [])| == 0 ==> this.chats == Some(Parsed([ChatMeta(newId, "General", now)])) && chatId == newId
    {
      var list := LoadOr(chats, []);
      if |list| > 0 {
        this.chats := chats;
        chatId := list[0].id;
      } else {
        this.chats := Some(Parsed([ChatMeta(newId, "General", now)]));
        chatId := newId;
      }
      this.messages := messages;
      this.savedProfile := savedProfile;
      this.onbDone := onbDone;
      route := InitialRoute(onbDone);
      profile := LoadOr(savedProfile, EmptyProfile);
    }

    /** `saveProfile`. */
    method SaveProfile(p: Profile)
      modifies this
      ensures profile == p && savedProfile == Some(Parsed(p))
      ensures route == old(route) && chatId == old(chatId) && chats == old(chats)
      ensures messages == old(messages) && onbDone == old(onbDone)
    {
      profile := p;
      savedProfile := Some(Parsed(p));
    }

    /** `finishOnb`. */
    method FinishOnb()
      modifies this
      ensures onbDone == Some("1") && route == Chat
      ensures profile == old(profile) && savedProfile == old(savedProfile)
      ensures chatId == old(chatId) && chats == old(chats) && messages == old(messages)
    {
      onbDone := Some("1");
      route := Chat;
    }

    /** The splash screen's `onNext`. */
    method SplashNext()
      requires route == Splash
      modifies this
      ensures route == NextRoute(old(route))
      ensures profile == old(profile) && savedProfile == old(savedProfile) && onbDone == old(onbDone)
      ensures chatId == old(chatId) && chats == old(chats) && messages == old(messages)
    {
      route := Age;
    }

    /**
     * The `onNext` of the age, name, topics or mood screen, which is on
     * display only while the route is that screen's.
     */
    method Answered(a: Answer)
      requires route == AnsweredOn(a)
      modifies this
      ensures route == NextRoute(old(route))
      ensures profile == Merge(old(profile), a) && savedProfile == Some(Parsed(profile))
      ensures onbDone == if a.MoodIs? then Some("1") else old(onbDone)
      ensures chatId == old(chatId) && chats == old(chats) && messages == old(messages)
    {
      SaveProfile(Merge(profile, a));
      match a
      case AgeIs(_) => route := Name;
      case NameIs(_) => route := Topics;
      case TopicsAre(_) => route := Mood;
      case MoodIs(_) => FinishOnb();
    }

    /** `onSelect`. */
    method Select(id: string)
      modifies this
      ensures chatId == id
      ensures route == old(route) && profile == old(profile) && savedProfile == old(savedProfile)
      ensures onbDone == old(onbDone) && chats == old(chats) && messages == old(messages)
    {
      chatId := id;
    }

    /**
     * `onCreate`.  `answer` is what `prompt` returned (`None` when it was
     * dismissed), `time` the `toLocaleTimeString()` text, `newId` and `now`
     * the `uid()` and `Date.now()` draws.
     */
    method OnCreate(answer: Option<string>, time: string, newId: string, now: int)
      modifies this
      ensures chats == Some(Parsed([ChatMeta(newId, NewTitle(answer, time), now)] + old(LoadChats())))
      ensures chatId == newId
      ensures route == old(route) && profile == old(profile) && savedProfile == old(savedProfile)
      ensures onbDone == old(onbDone) && messages == old(messages)
    {
      var title := NewTitle(answer, time);
      var list := LoadChats();
      var c := ChatMeta(newId, title, now);
      chats := Some(Parsed([c] + list));
      chatId := newId;
    }

    /** `onDelete`: the chat leaves the list, its messages leave storage, and the selection is repaired. */
    method OnDelete(idDel: string)
      modifies this
      ensures chats == Some(Parsed(RemoveChat(old(LoadChats()), idDel)))
      ensures messages == old(messages) - {ChatView.KeyForChat(idDel)}
      ensures chatId == SelectAfterDelete(old(chatId), idDel, RemoveChat(old(LoadChats()), idDel))
      ensures route == old(route) && profile == old(profile) && savedProfile == old(savedProfile)
      ensures onbDone == old(onbDone)
    {
      var rest := RemoveChat(LoadChats(), idDel);
      chats := Some(Parsed(rest));
      messages := messages - {ChatView.KeyForChat(idDel)};
      if chatId == idDel && |rest| > 0 {
        chatId := rest[0].id;
      }
    }
  }

  /**
   * Create and delete are inverse: the reloaded list after a create heads
   * with the new chat, and deleting that chat (its id fresh) gives back the
   * list as it was before.
   */
  lemma {:induction false} CreateThenDelete(list: seq<ChatMeta>, c: ChatMeta)
    requires forall d :: d in list ==> d.id != c.id
    ensures LoadOr(Some(Parsed([c] + list)), [])[0] == c
    ensures RemoveChat(LoadOr(Some(Parsed([c] + list)), []), c.id) == list
  {
    RemoveChatDistributes([c], list, c.id);
  }

  /** After a delete the chat's messages no longer load, and other chats' messages load as before. */
  lemma {:induction false} DeleteDropsMessages(store: ChatView.MessageStore, idDel: string, other: string)
    ensures ChatView.LoadMessages(store - {ChatView.KeyForChat(idDel)}, idDel) == []
    ensures other != idDel ==>
      ChatView.LoadMessages(store - {ChatView.KeyForChat(idDel)}, other) == ChatView.LoadMessages(store, other)
  {
    if other != idDel {
      ChatView.KeyForChatInjective(idDel, other);
    }
  }
}
