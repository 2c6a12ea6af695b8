# Anima: a verified model of the chat relay, the usage ledger and the chat UI logic

Anima is a web chat companion. A serverless endpoint relays the
conversation to an upstream completion service. It re-streams the
service's `text/event-stream` answer to the browser as plain text. The
browser side runs a short onboarding (age, name, topics, mood) and keeps
chats and their messages in local storage. It also meters talk time
against a fifteen-minute daily cap and translates its interface into
English, Russian and Spanish.

This Dafny project models the logic of that system and proves its
properties. There is one module per source file:

- `EventStream` (`frames.dfy`) holds the relay's rolling-buffer frame
  splitter (`buffer.split("\n\n")`, keep the last piece). It also holds
  the per-frame decision (skip, stop at `[DONE]`, forward a delta) and the
  specification of the response body.
- `Relay` (`relay.dfy`) is the endpoint `api/chat.ts`. The response is a
  class with status, headers, body and an `ended` flag. The handler is a
  method whose loops are proved against `EventStream`.
- `Usage` (`usage.dfy`) is `src/lib/usage.ts`. It holds the dated storage
  key, the cap, and the session state machine, as functions and as a
  `Tracker` class. It also holds the `mm:ss` formatter.
- `ChatView` (`chatview.dfy`) is `src/ui/ChatView.tsx`. It covers the
  message storage slot, the id-keyed list updates, the failure texts and
  the `send` procedure as a method of a `View` class.
- `App` (`app.dfy`) is `src/ui/App.tsx`. It covers the onboarding routes,
  the profile merges, the topic toggle, the mood caption, the age choices,
  and the chat list with create, delete and selection repair.
- `I18n` (`i18n.dfy`) is `src/lib/i18n.ts`: the dictionaries, the stored
  language, `t` with `{name}` substitution, and the topic lists.
- `MoodFace` (`moodface.dfy`) is `src/ui/MoodFace.tsx`.
- `Wrappers`, `Storage` and `Text` (`wrappers.dfy`, `text.dfy`) are shared
  support:
  - `Option`;
  - a JSON storage entry that is either parsed or malformed;
  - JavaScript's `trim`, `startsWith`, `padStart`, `String(n)` of an
    integer and `Number(s)` of a decimal text, and `replaceAll` with a
    non-empty string pattern, including the `$` patterns of its
    replacement.

Clocks, random ids, `prompt`, the locale time text and the upstream's
decoded reads are parameters. Browser storage is a map per kind of slot.

## Model

| member | source | states |
|---|---|---|
| EventStream.Split | api/chat.ts:66 | `split("\n\n")` always returns at least one piece |
| EventStream.SplitReassembles | api/chat.ts:66-67 | the complete frames, each followed by the delimiter, then the kept piece, give back the split text exactly |
| EventStream.SplitWellFormed | api/chat.ts:66-67 | every complete frame is free of the delimiter, and the piece kept in the buffer holds no delimiter |
| EventStream.SplitOfFlatten | api/chat.ts:66-67 | splitting delimiter-closed frames followed by delimiter-free text gives back exactly those frames and that text (the inverse of reassembly) |
| EventStream.SplitClosedFrame | api/chat.ts:66 | a well-formed frame closed by the delimiter comes out of `split` as a piece of its own |
| EventStream.SplitNoDelim | api/chat.ts:66 | text without the delimiter splits into itself alone |
| EventStream.SplitAppend | api/chat.ts:64-67 | appending a read re-splits only the last piece; earlier complete frames stay complete |
| EventStream.Step | api/chat.ts:64-67 | one read: old buffer plus chunk equals the frames, each closed by the delimiter, then the new buffer; the new buffer has no delimiter and every frame is well formed |
| EventStream.Feed | api/chat.ts:61-67 | after any sequence of reads, the frames handed out, each closed by the delimiter, followed by the buffer give back exactly the text read |
| EventStream.FeedIsSplit | api/chat.ts:59-67 | after any sequence of reads, the frames handed out are the complete frames of the concatenated text and the buffer is its last piece |
| EventStream.FeedBufferNoDelim | api/chat.ts:66-67 | the buffer never holds a delimiter between reads |
| EventStream.ChunkingIrrelevant | api/chat.ts:59-67 | two read sequences with the same concatenation hand out the same frames and leave the same buffer |
| EventStream.FeedExtends | api/chat.ts:61-67 | the frames handed out by the first k reads are a prefix of those handed out by all reads |
| EventStream.DataOf | api/chat.ts:70-73 | a payload exactly when the trimmed frame starts with `data:`; the payload is the rest of that line after `data:` and the whitespace following it, and does not itself start with whitespace |
| EventStream.Classify | api/chat.ts:70-84 | a stop exactly for the `[DONE]` payload; a forward exactly for another payload that parses, carrying the delta read from it; a skip otherwise |
| EventStream.Actions | api/chat.ts:69-85 | one decision per complete frame, in order |
| EventStream.ActionsAppend | api/chat.ts:69-85 | the decisions for concatenated frame lists are the concatenated decisions |
| EventStream.BeforeStop | api/chat.ts:74-77 | the decisions before the first `[DONE]`: a prefix holding no stop, cut exactly at the first stop |
| EventStream.EmittedAppend | api/chat.ts:81 | the text written for concatenated decisions is the concatenation of the texts written |
| EventStream.BeforeStopAppend | api/chat.ts:74-77 | the decisions before the first stop in `xs + ys` are all of `xs` followed by those before a stop in `ys`, or only those in `xs` when `xs` holds a stop |
| EventStream.Body | api/chat.ts:69-85 | the body for a list of complete frames: the text written by their decisions before the first stop |
| EventStream.OutputAppend | api/chat.ts:69-85 | before any stop, the body grows by exactly the non-empty deltas of each further frame |
| EventStream.OutputWithoutStop | api/chat.ts:69-88 | without a sentinel every non-empty delta is written, in order |
| EventStream.OutputStopsAt | api/chat.ts:74-77 | nothing after a stop, in the same read or a later one, is written |
| EventStream.SkippedIsInvisible | api/chat.ts:70-84 | a skipped frame, or one with an empty delta, neither writes nor stops the loop |
| EventStream.NonDataFrameIsInvisible | api/chat.ts:70-71 | a frame whose trimmed text does not start with `data:` leaves the body unchanged |
| EventStream.SentinelEndsBody | api/chat.ts:73-77 | a `[DONE]` frame ends the body: no later frame reaches it |
| Relay.UpstreamRole | api/chat.ts:36 | the upstream role is `assistant` exactly when the client role is, and `user` otherwise |
| Relay.ToUpstream | api/chat.ts:35-38 | one upstream turn per client turn, in order, with mapped role and the text as content |
| Relay.KeyMissing | api/chat.ts:13-14 | `!apiKey`: the key counts as missing exactly when it is unset or empty |
| Relay.Recent | api/chat.ts:35 | `slice(-12)`: the last min(12, n) turns, a suffix of the list |
| Relay.Project | api/chat.ts:33-39 | the upstream list is the system message followed by the last at most 12 turns in original order, each role `user` or `assistant` |
| Relay.Response.SetHeader | api/chat.ts:6-8 | setting a header changes only that header |
| Relay.Response.SetStatus | api/chat.ts:10-14 | setting the status changes only the status |
| Relay.Response.Write | api/chat.ts:81 | a write appends its text to the body of an open response |
| Relay.Response.End | api/chat.ts:88 | ending appends its text and marks the response ended |
| Relay.Response.Json | api/chat.ts:11-14 | `res.json` sets the JSON content type when no content type is set, then ends the response with the encoded text |
| Relay.ForwardFrame | api/chat.ts:70-84 | one frame: reports a stop exactly for the sentinel, otherwise writes exactly its decision's text |
| Relay.ForwardFrames | api/chat.ts:69-85 | the inner loop writes the body of its frames, and ends the response exactly when a sentinel is among them |
| Relay.RelayStream | api/chat.ts:57-88 | the read loop ends the response with body equal to the in-order non-empty deltas of the complete frames before the first sentinel; an unterminated tail is never parsed |
| Relay.Handle | api/chat.ts:4-88 | OPTIONS gets an empty 200 with the CORS headers; another non-POST gets 405 and a POST without key 500, each with the CORS headers plus the JSON content type; a failed upstream gets 500 with its text; otherwise stream headers and the relayed body. The projected list is sent only on the last two paths |
| Usage.DayKeyFields | src/lib/usage.ts:5-11 | the day key is the prefix, the year, `-`, the two-digit 1-based month, `-`, the two-digit day, each readable at its place |
| Usage.DayKeyInjective | src/lib/usage.ts:5-11 | different valid dates have different keys |
| Usage.DayKey | src/lib/usage.ts:5-11 | the key starts with the prefix followed by the year's digits, and for a valid date it has exactly six more characters (`-MM-DD`) |
| Usage.UsedMs | src/lib/usage.ts:13-16 | the day's total is its stored entry, or 0 when the day has none |
| Usage.Locked | src/lib/usage.ts:23-25 | a day is locked exactly when its total reaches 900000 ms (fifteen minutes) |
| Usage.AddUsed | src/lib/usage.ts:18-21 | the day's total grows by exactly `ms`; no other entry changes |
| Usage.Remaining | src/lib/usage.ts:51-53 | never negative, at most the cap for a non-negative total, zero exactly when locked, and total plus remaining is the cap while unlocked |
| Usage.Start | src/lib/usage.ts:30-33 | the store is untouched; the state changes exactly when no session runs and the day is not locked, and then the session starts now with the timer armed |
| Usage.Stop | src/lib/usage.ts:43-49 | afterwards no session runs; without a session nothing changes; otherwise the day's total grows by the time since the start and the timer is disarmed |
| Usage.Tick | src/lib/usage.ts:34-40 | without a session nothing changes; otherwise the session ends exactly when the credited total reaches the cap; a running session restarts at the second clock reading after crediting the first, and a stopped one has also been credited the time up to the third |
| Usage.OperationsKeepValid | src/lib/usage.ts:27-49 | the interval is armed exactly while a session runs, after every operation |
| Usage.StartIdempotent | src/lib/usage.ts:30-33 | a second start without a stop changes nothing |
| Usage.StopIdempotent | src/lib/usage.ts:43-44 | a second stop changes nothing |
| Usage.SessionCredits | src/lib/usage.ts:30-49 | a session started at t0 and stopped at t credits exactly t - t0 and leaves no session running |
| Usage.StartStopConserve | src/lib/usage.ts:30-49 | start and stop move no time in or out of stored plus running time |
| Usage.TickConserves | src/lib/usage.ts:34-40 | a tick moves the elapsed time into the store, losing only the gap between its two clock readings |
| Usage.UsedNeverDecreases | src/lib/usage.ts:30-49 | with a non-decreasing clock no operation lowers the day's total |
| Usage.LockIsFinal | src/lib/usage.ts:23-40 | a locked day stays locked, start does nothing on it, and a tick that reaches the cap ends the session |
| Usage.Tracker.constructor | src/lib/usage.ts:27-28 | no session and no timer at load, so the timer-armed-exactly-while-running invariant holds |
| Usage.Tracker.UsedMsToday | src/lib/usage.ts:13-16 | the store's entry for the day, or 0 when there is none |
| Usage.Tracker.IsLockedToday | src/lib/usage.ts:23-25 | locked exactly when the day's total reaches the cap |
| Usage.Tracker.RemainingMsToday | src/lib/usage.ts:51-53 | never negative, zero exactly when the day is locked, and total plus remaining is the cap while unlocked |
| Usage.Tracker.AddUsedMs | src/lib/usage.ts:18-21 | the store becomes `AddUsed` of the old one; the session is untouched |
| Usage.Tracker.StartSession | src/lib/usage.ts:30-41 | the new state is `Start` of the old, and the invariant is kept |
| Usage.Tracker.StopSession | src/lib/usage.ts:43-49 | the new state is `Stop` of the old, and the invariant is kept |
| Usage.Tracker.OnTick | src/lib/usage.ts:34-40 | the new state is `Tick` of the old, and the invariant is kept |
| Usage.JsRem | src/lib/usage.ts:58 | JavaScript `%`: the dividend is the divisor times the quotient truncated toward zero plus the remainder, and the remainder has the dividend's sign and is smaller than the divisor in size, which fixes its value |
| Usage.FormatMmSs | src/lib/usage.ts:55-60 | the text holds a colon with at least two characters on each side |
| Usage.FormatMmSsReadsBack | src/lib/usage.ts:55-60 | for ms >= 0 the text is at least two minute digits, `:`, two second digits below 60, and minutes*60+seconds = floor(ms/1000) |
| Usage.FormatMmSsPadded | src/lib/usage.ts:55-60 | for ms >= 0 both fields are two-digit paddings of minutes and seconds |
| Usage.FullAllowanceText | src/lib/usage.ts:55-60 | the whole allowance renders as `15:00` |
| Usage.MinuteAndASecondText | src/lib/usage.ts:55-60 | 61500 ms renders as `01:01`; the fraction of a second is dropped |
| Text.ParseIntStr | src/lib/usage.ts:13-21 | `Number(String(n)) == n`: the stored total reads back as the number written |
| Text.TrimSpec | api/chat.ts:70 | `trim` keeps a contiguous middle part, removing only whitespace at either end |
| Text.TrimEnds | src/ui/ChatView.tsx:31 | what `trim` keeps neither starts nor ends with whitespace |
| Text.TrimNoop | src/ui/App.tsx:267 | text without whitespace at its ends is left as it is |
| Text.Expand | src/lib/i18n.ts:67 | the replacement for one occurrence, with `$$`, `$&`, `` $` `` and `$'` expanded as a string replacement of `replaceAll` expands them |
| Text.ExpandLiteral | src/lib/i18n.ts:67 | a replacement without `$` is inserted unchanged |
| Text.ExpandMatched | src/lib/i18n.ts:67 | `$&` inserts the matched text |
| Text.ReplaceAll | src/lib/i18n.ts:67 | `replaceAll` leaves text without the pattern unchanged |
| Text.ReplaceAllStep | src/lib/i18n.ts:67 | the first occurrence is replaced by the replacement expanded with the text before and after it, and the scan resumes after that occurrence, so every occurrence is replaced left to right without overlap |
| Text.ReplaceAllTwice | src/lib/i18n.ts:67 | two occurrences with none between them are both replaced by a replacement without `$`, and the text between is kept |
| Text.ReplaceAllPast | src/lib/i18n.ts:67 | with a single occurrence of the pattern, `replaceAll` replaces exactly that occurrence by the replacement expanded with the text before and after it |
| Text.ReplaceAllSelf | src/lib/i18n.ts:67 | replacing a pattern without `$` by itself changes nothing |
| Text.ConcatAppend | api/chat.ts:64 | the concatenation of joined read lists is the join of their concatenations |
| Text.Pad2RoundTrip | src/lib/usage.ts:8-9 | `padStart(2,'0')` of `String(n)` is digits worth n, exactly two of them below 100 |
| Text.IntStrInjective | src/lib/usage.ts:5-11 | distinct years have distinct decimal texts |
| Text.Pad2Injective | src/lib/usage.ts:8-9 | distinct months or days have distinct padded texts |
| I18n.SameKeys | src/lib/i18n.ts:4-56 | the three dictionaries translate the same keys, and exactly en, ru and es have one |
| I18n.SetThenGet | src/lib/i18n.ts:58-61 | after `setLang(l)` for a supported l, `getLang()` is l; no other slot changes |
| I18n.GetLang | src/lib/i18n.ts:58-60 | a non-empty stored code is returned as stored, whatever it is; with nothing or the empty text stored, `en` |
| I18n.SetLang | src/lib/i18n.ts:61 | the language slot holds the new code, and every other slot is kept |
| I18n.Lookup | src/lib/i18n.ts:65 | `table[key] ?? key`: the table's entry, or the key itself when there is none |
| I18n.UntranslatedKeyIsItself | src/lib/i18n.ts:65 | a key no dictionary has is shown as it is in every language |
| I18n.DefaultIsEnglish | src/lib/i18n.ts:58-60 | with nothing stored the language is `en`, which has a dictionary |
| I18n.Placeholder | src/lib/i18n.ts:67 | the placeholder is the name in braces |
| I18n.TableCases | src/lib/i18n.ts:65 | indexing the dictionaries finds a language's dictionary, finds a built-in without entries for a name inherited from `Object.prototype`, and finds nothing otherwise |
| I18n.T | src/lib/i18n.ts:63-69 | for any key: fails when the stored code is neither a language nor an inherited name; for a language, its entry or the key itself when it has none; for an inherited name and a dictionary key, the key itself; each placeholder then replaced in order |
| I18n.Substitute | src/lib/i18n.ts:67 | variables none of whose placeholders occur leave the text unchanged |
| I18n.UnusedVariable | src/lib/i18n.ts:67 | a variable whose placeholder does not occur changes nothing |
| I18n.SubstituteOne | src/lib/i18n.ts:67 | one variable is exactly one `replaceAll` of its placeholder |
| I18n.RepeatedPlaceholder | src/lib/i18n.ts:67 | a placeholder that occurs twice is filled in both places |
| I18n.FooterYear | src/lib/i18n.ts:63-69 | `t("footer", {year: 2025})` is `© 2025 Anima` in every language |
| I18n.FooterDollarMatch | src/lib/i18n.ts:67 | the year text `$&` puts the placeholder back, so the footer keeps its template |
| I18n.TopicsFor | src/lib/i18n.ts:71-79 | twelve topics for every language: the Russian list for ru, the Spanish list for es, the English list for anything else |
| MoodFace.BandOf | src/ui/MoodFace.tsx:3-4 | the three bands partition the values at 33 and 66 |
| MoodFace.Label | src/ui/MoodFace.tsx:3 | `BAD` exactly below 33, `NOT BAD` exactly from 33 below 66, `GOOD` exactly from 66 |
| MoodFace.Emoji | src/ui/MoodFace.tsx:4 | 😞 exactly below 33, 😐 exactly from 33 below 66, 😊 exactly from 66 |
| MoodFace.FaceMatchesLabel | src/ui/MoodFace.tsx:3-4 | caption and face always come from the same band |
| MoodFace.BandsDistinct | src/ui/MoodFace.tsx:3-4 | different bands show different captions and faces |
| ChatView.KeyForChat | src/ui/ChatView.tsx:10 | the key is `anima-chat-` followed by the chat id, which reads back from it |
| ChatView.KeyForChatInjective | src/ui/ChatView.tsx:10 | different chats have different keys |
| ChatView.LoadMessages | src/ui/ChatView.tsx:11-13 | an absent or malformed slot loads as the empty list; a parsed one as its list |
| ChatView.SaveMessages | src/ui/ChatView.tsx:14-16 | the chat's slot holds the list, and every other slot is kept |
| ChatView.SaveThenLoad | src/ui/ChatView.tsx:11-16 | a saved list loads back unchanged, and other chats' lists are untouched |
| ChatView.SaveOverwrites | src/ui/ChatView.tsx:14-16 | a later save of the same chat replaces an earlier one |
| ChatView.UpdateWhere | src/ui/ChatView.tsx:70 | same length; messages with another id unchanged; a matching message keeps id, role and time and gets the edited text |
| ChatView.EmptyChunkNoChange | src/ui/ChatView.tsx:69-70 | an empty chunk would change nothing |
| ChatView.ChunksCompose | src/ui/ChatView.tsx:70 | two chunks appended in turn equal their concatenation appended once |
| ChatView.ReplaceOverrides | src/ui/ChatView.tsx:85-86 | a replacement wipes out whatever was appended before |
| ChatView.OnlyLastUpdated | src/ui/ChatView.tsx:70 | with a fresh id, an update reaches only the last message |
| ChatView.StreamedIsConcat | src/ui/ChatView.tsx:65-72 | after the read loop the placeholder holds the concatenation of all chunks, however the reply was cut |
| ChatView.ErrorText | src/ui/ChatView.tsx:57 | the text starts with `Ошибка: ` and ends with the upstream text when there is one |
| ChatView.ErrorNamesStatus | src/ui/ChatView.tsx:56-57 | with an empty upstream text the status reads back from the message |
| ChatView.SendOutcome | src/ui/ChatView.tsx:30-83 | a send grows the list by exactly two; earlier messages and the user's message stay; the placeholder ends holding the reply, the error text or the retry text |
| ChatView.StoredAfterSend | src/ui/ChatView.tsx:74-88 | what a reload finds: the pre-send list after a refused or broken send, the final list or `[]` after a delivered one |
| ChatView.View.constructor | src/ui/ChatView.tsx:24-26 | the first render loads the chat's list, with empty input and not loading |
| ChatView.View.Open | src/ui/ChatView.tsx:28 | switching chats loads that chat's list and clears the input |
| ChatView.View.Type | src/ui/ChatView.tsx:113 | typing replaces the input and nothing else |
| ChatView.View.UpdateBot | src/ui/ChatView.tsx:85-88 | the list gets the new text for the id; storage gets the list rendered when the send began |
| ChatView.View.ReadStream | src/ui/ChatView.tsx:65-72 | the list becomes the streamed list; nothing else changes |
| ChatView.View.Send | src/ui/ChatView.tsx:30-83 | blank input: nothing changes. Otherwise the input is cleared, loading ends false, the request is the old list plus the user message, and the list and storage are the `Shown` and `Persisted` lists of the outcome |
| ChatView.View.Finish | src/ui/ChatView.tsx:55-82 | the outcome lands in the placeholder and the last save is made |
| App.Rank | src/ui/App.tsx:14 | ranks 0 to 5, 5 only for the chat route |
| App.NextRoute | src/ui/App.tsx:286-298 | each screen's `onNext` moves exactly one rank forward; the chat route stays |
| App.OneStepAtATime | src/ui/App.tsx:286-298 | after n presses from the splash the user is at rank min(n, 5) |
| App.RankInjective | src/ui/App.tsx:14 | different routes have different ranks |
| App.InitialRoute | src/ui/App.tsx:237-240 | the first route is the chat exactly when the stored flag is `"1"`, the splash otherwise |
| App.Merge | src/ui/App.tsx:289-298 | an answer sets its own profile field and keeps every other field |
| App.MergesCommute | src/ui/App.tsx:289-298 | answers on different screens commute |
| App.LaterAnswerWins | src/ui/App.tsx:289-298 | answering a screen again keeps only the later answer |
| App.Without | src/ui/App.tsx:152 | `filter(x => x !== t)` keeps exactly the other topics, and changes nothing when t is absent |
| App.WithoutDistributes | src/ui/App.tsx:152 | `filter` works element by element: it distributes over concatenation and keeps a single topic exactly when it is not t, so order and copies are kept |
| App.Togg | src/ui/App.tsx:151-153 | a toggle flips the toggled topic's membership and keeps every other topic's |
| App.ToggTwice | src/ui/App.tsx:151-153 | toggling an unselected topic twice restores the selection |
| App.ToggKeepsDistinct | src/ui/App.tsx:150-153 | a selection without repeats keeps none after a toggle |
| App.MoodKey | src/ui/App.tsx:190-192 | `mood_bad` exactly below 33, `mood_good` exactly from 66, `mood_mid` otherwise |
| App.CaptionMatchesFace | src/ui/App.tsx:190-192 | in English the caption is the face's label: the two components share thresholds |
| App.Ages | src/ui/App.tsx:90 | sixty-one choices |
| App.AgesRange | src/ui/App.tsx:90 | the choices ascend strictly from 12 to 72 and are exactly the integers in that range |
| App.AgeHeading | src/ui/App.tsx:106 | the age card's heading is `How old are you?` in every language, since no dictionary translates that key; nothing (the `TypeError`) when the stored code is neither a language nor an inherited name |
| App.AgeChoiceReadsBack | src/ui/App.tsx:108-110 | `parseInt(String(age))` gives the age back |
| App.RemoveChat | src/ui/App.tsx:274 | keeps exactly the chats with another id, and the whole list when none has it |
| App.RemoveChatDistributes | src/ui/App.tsx:274 | `filter` works chat by chat: it distributes over concatenation and keeps a single chat exactly when its id differs, so order and copies are kept |
| App.RemoveChatFirst | src/ui/App.tsx:274-277 | the first chat left is the first chat of the list whose id differs |
| App.RemoveChatKeepsHead | src/ui/App.tsx:274 | a chat not deleted keeps its place ahead of the rest |
| App.NewTitle | src/ui/App.tsx:267 | the trimmed prompt answer, or `Chat <time>` when the answer is missing or blank |
| App.NewTitleTrimmed | src/ui/App.tsx:267 | a title from the prompt has no whitespace at either end |
| App.SelectAfterDelete | src/ui/App.tsx:277 | the selection is kept or, when the current chat was deleted, moved to the first remaining chat |
| App.SelectionRepair | src/ui/App.tsx:273-278 | a surviving selection stays; a deleted one moves to `rest[0]`, the first chat in list order with another id; with none left the deleted id stays selected |
| App.Shell.constructor | src/ui/App.tsx:228-243 | with an empty stored list, a single `General` chat is saved and selected; otherwise the first chat is selected. The route comes from the flag and the profile from storage |
| App.Shell.SaveProfile | src/ui/App.tsx:245-248 | state and storage get the profile |
| App.Shell.FinishOnb | src/ui/App.tsx:249-252 | the flag becomes `"1"` and the route the chat |
| App.Shell.SplashNext | src/ui/App.tsx:286 | the splash moves to the age screen |
| App.Shell.Answered | src/ui/App.tsx:288-298 | the route advances one step, the profile gets the answer and is saved, and the mood answer sets the flag |
| App.Shell.Select | src/ui/App.tsx:265 | selecting changes only the selection |
| App.Shell.OnCreate | src/ui/App.tsx:266-272 | the new chat is prepended before the stored list and selected |
| App.Shell.OnDelete | src/ui/App.tsx:273-278 | the chat list loses every chat with the id, its message slot is removed, and the selection is repaired |
| App.CreateThenDelete | src/ui/App.tsx:266-275 | the reloaded list after a create heads with the new chat, and deleting that chat (with a fresh id) gives back the earlier list |
| App.DeleteDropsMessages | src/ui/App.tsx:276 | the deleted chat's messages no longer load; other chats' messages load as before |
| Storage.LoadOr | src/ui/ChatView.tsx:12 | an absent or malformed entry loads as the fallback, a parsed one as its value |

## Left out

- JSON is not modelled. A stored JSON slot is either `Parsed(value)` or `Malformed`. An upstream payload that parses is an entry of a map from payload to the delta at `choices[0].delta.content`, with a missing delta as `""`.
- `fetch`, `TextDecoder` and `reader.read()` are I/O. The upstream's body is a sequence of already-decoded text reads. A multi-byte character split across reads is not modelled.
- The unguarded body parse at api/chat.ts:16 is left out, as are the defaults for `lang` and `profile` at line 17. The system directive (lines 23-28) is an opaque `system` parameter.
- The catch at api/chat.ts:89-90 is left out. It would set a status on a response whose headers may already be sent.
- Relay.Handle: an exception thrown by `fetch` or by a read is not modelled.
- Relay.Response.Json: of what the hosting platform's `json` helper does, only the content type and the body are modelled. Headers it may add while sending, such as a length, are not. Header names are compared as written, not case-insensitively.
- Storage values that are not numbers (`Number` giving `NaN`) are not modelled. The usage store maps keys to integers.
- Usage: the key of "today" is an input (`today: string`). `DayKey` relates it to a calendar date. Time zones and the day boundary are not modelled.
- Usage.Tracker.StartSession: `sessionStart` is an `Option`. JavaScript's truthiness test treats a start time of 0 as no session, and the model does not.
- Usage: `setInterval` is not modelled. The tick is an explicit `OnTick` call.
- I18n.T: the variables are the entries of the `vars` object in iteration order. Object key ordering rules, where integer-like keys come first, are not modelled.
- I18n.T: a stored code that is neither a language nor a name inherited from `Object.prototype` gives `None`, which stands for the `TypeError`. An inherited name yields a built-in (a function, or the prototype itself) with no property named like a dictionary key, so for a dictionary key the key is shown. For another key under an inherited name the model shows the key too, but T promises nothing there: the built-in may have a property of that name (`name`, `length`, `call`), whose value JavaScript would use.
- ChatView: React's state and effect timing is not modelled. `updateBot` saves the list rendered when the send began (ChatView.tsx:87). After a failed send, reload therefore loses the user's message and the error text. `StoredAfterSend` states this.
- ChatView: the closing save (ChatView.tsx:75-77) writes the captured list only if React ran the updater at once. The `eager` flag of `Delivered` says whether it did, and the model claims nothing about which happens.
- ChatView.View.Send: `getLang()` and `getProfile()` in the request body are not modelled. The result gives only the message list posted.
- ChatView.View.Send: `loading` is modelled only as its final value.
- ChatView: the exception path covers a throw from `fetch`, from `res.text()` or from a read (`Broken`). A throw from `saveMessages`, such as a full quota, is not modelled.
- App: each kind of storage slot is a separate map: chat list, message lists, profile and onboarding flag. A chat id `list` would make `anima-chat-list` collide with the list slot. `uid()` produces ids of at most eight characters (in practice eight) from `0-9a-z`, while `list` has four, and a four-character id would need an unlikely draw, so this is not modelled.
- App.Shell: `prompt`, `toLocaleTimeString`, `uid` and `Date.now` are parameters.
- App.Shell.OnDelete: the list is re-read from storage, as in the source. The `ChatList` component's own copy and its `storage` event are not modelled.
- App: the mood slider's value is an integer, as `parseInt` yields. The `Header` language picker's `location.reload()` is not modelled.
- The wheel picker, streaming text reveal, step dots, typing dots, gradient button, service worker, bootstrap and styling files are not part of this model. They are presentation or platform code.
- The `[DONE]` sentinel is the upstream vendor's convention. The frames are the `data:`-only, blank-line-delimited subset of the event-stream format in section 9.2 of the WHATWG HTML Living Standard. Other fields, comments and `\r\n` line ends are treated as ordinary text, as the code does.
