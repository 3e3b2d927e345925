# A verified model of the chat client's stores and stream consumer

This project models the logic core of a browser chat client for a locally hosted language model.

- **The chat store** keeps three things: a side list of conversation summaries, the conversations themselves, and the id of the current one. A conversation is a sequence of *groups*. A group is one turn holding one or more alternative *variants* of that turn, with `currentIndex` selecting the variant that is shown and sent.
- **The character store** keeps a name-keyed list of character presets and a current character.
- **The completion client** has four parts:
  - it projects a conversation onto the request;
  - it merges the request settings over the defaults;
  - it consumes the server-sent event stream line by line;
  - it checks the role sequence of a conversation.

Modules:

| file | module | contents |
|---|---|---|
| `types.dfy` | `Types` | the records of `src/types/index.ts` |
| `collections.dfy` | `Collections` | `findIndex`/`find` and `filter`, the two array calls the stores use |
| `groups.dfy` | `Groups` | the group rules of `addMessage` and `editMessage` on values, and the structural invariants of a conversation |
| `store.dfy` | `Store` | `ChatStore` and `CharacterStore` as classes whose methods update `seq`/`map` fields; the sort order of the side list |
| `framing.dfy` | `Framing` | splitting on newlines, JavaScript `trim`, the line framing of text received in chunks |
| `chat_api.dfy` | `ChatApi` | `formatMessages`, the request body, the `streamChat` read loop, `validateMessageSequence` |

Clock readings (`Date.now()`) and generated message ids are method parameters.

- The response is an input value. Either `fetch` rejected (`Refused`), or the server answered with its `ok` flag, its status and an optional body.
- A body is the already-decoded text chunks in arrival order, plus a flag saying whether the read after the last chunk failed instead of reporting the end.
- The callbacks become a returned sequence of events: `Token`, `Complete` and `Error`.
- Reading `choices[0].delta.content` out of a payload is the parameter `extract`. It answers `None` when the payload does not parse or holds no such string.

Three behaviours of the code are worth stating plainly, because a reader who knows the OpenAI streaming convention might expect otherwise:

- **`[DONE]` does not end the read loop.** At `src/api/chat.ts:109-112` the sentinel fires the completion and then `continue`s. Lines after the sentinel are still dispatched (`ChatApi.DoneDoesNotStopReading`). When the body then ends, completion fires a second time (`ChatApi.DoneThenEndCompletesTwice`).
- **`editMessage` only overwrites content in place.** The code at `src/store/index.ts:179-194` overwrites the content of the first matching variant. The store has no regeneration, no truncation and no variant navigation, and neither does the model.
- **`startNewChat` takes `Date.now()` as the id** with no check that the id is unused. The model therefore has no freshness precondition:
  - the list and map facts hold for any id;
  - the unique-ids invariant and the one-more-conversation count are proved for a fresh id.

## Model

| member | source | states |
|---|---|---|
| Collections.FindIndex | src/store/index.ts:255 | no position exists exactly when no element satisfies the test; otherwise the position holds a match and every earlier one fails |
| Collections.Filter | src/store/index.ts:198 | the result keeps exactly the satisfying elements, each as often as in the input (multiset), and is no longer than the input |
| Collections.FilterMembership | src/store/index.ts:275 | an element survives the filter iff it was in the list and passes the test |
| Collections.FilterAppend | src/store/index.ts:198 | filtering a concatenation is the concatenation of the filtered parts, so the survivors keep their original order |
| Collections.FilterHead | src/store/index.ts:201 | the filtered list is empty iff nothing passes, and otherwise starts with the first element that passes |
| Groups.AddToGroups | src/store/index.ts:162-173 | same role as the last group: that group gains the message as its last variant, keeping group count, role, avatar and `currentIndex`; otherwise one new group with the message's role, the user or character avatar, just that variant, index 0; preserves well-formedness (non-empty groups, index in range, variants share the group role, adjacent roles differ) and the leading system group |
| Groups.FindMessage | src/store/index.ts:183-185 | no location iff no group holds the id; otherwise the location holds the id and no earlier group, nor earlier variant in that group, does |
| Groups.FindMessageFirstHit | src/store/index.ts:183-190 | the first group holding the id, at the first matching variant, is exactly what the search finds |
| Groups.LocateMessage | src/store/index.ts:183-192 | the group-by-group loop with `find` inside and `break` on the first hit computes exactly `FindMessage` |
| Groups.EditContent | src/store/index.ts:186 | only the content of the chosen variant changes; group count, variant counts, roles, avatars, ids, timestamps, flags and `currentIndex` are kept, and so are both invariants |
| Store.IdsAppend | src/store/index.ts:135-136 | appending an item adds exactly its id to the id set of the list |
| Store.IdsFilter | src/store/index.ts:198-199 | dropping the items with one id removes exactly that id from the list's id set, the same key the map loses |
| Store.WithLastMessage | src/store/index.ts:148-155 | a list without the id is unchanged; otherwise exactly the first item with the id gets the new preview text and update time; the length and the id set are kept |
| Store.Insert | src/store/index.ts:60-64 | inserting into an ordered list gives an ordered list with exactly one more occurrence of the element |
| Store.SortChatList | src/store/index.ts:59-64 | the result is a permutation of the list and is ordered pinned first, then by non-increasing `updatedAt` |
| Store.FilterKeepsNamesUnique | src/store/index.ts:275 | removing characters by name never creates a duplicate name |
| Store.SeedHistory | src/store/index.ts:113-133 | the new conversation has the chat id, the character settings with temperature 0.7 and top-p 0.9, and one system group with the avatar, index 0 and a single system variant carrying the system prompt |
| Store.StoredConversationProjects | src/api/chat.ts:35-44 | in a store that satisfies its invariant, every stored conversation projects, leads with the system entry, and has a request |
| Store.ChatStore.constructor | src/store/index.ts:47-51 | no current chat, an empty list and no conversations, which is a valid state |
| Store.ChatStore.CurrentChat | src/store/index.ts:54-57 | a conversation is returned iff the current id is set, non-zero and stored; it is the stored one |
| Store.ChatStore.SortedChatList | src/store/index.ts:59-64 | a permutation of the list, with no unpinned item before a pinned one and `updatedAt` non-increasing among items of the same pin state; the list is only read |
| Store.ChatStore.StartNewChat | src/store/index.ts:100-137 | one summary (empty preview, unpinned, the given times) appended, the seed conversation stored under the new id, the new id current; a fresh id adds exactly one conversation and keeps list ids unique; the store invariant (list ids equal the stored ids, every conversation well formed) is kept |
| Store.ChatStore.SwitchChat | src/store/index.ts:142-145 | only the current id changes, to the one given, with no check that it exists |
| Store.ChatStore.UpdateLastMessage | src/store/index.ts:148-155 | the list becomes `WithLastMessage` of the old list; nothing else changes |
| Store.ChatStore.AddMessage | src/store/index.ts:158-176 | an unknown chat changes nothing; otherwise the conversation's groups become `AddToGroups` of the old ones and the matching summary gets the message as preview; the invariant is kept |
| Store.ChatStore.EditMessage | src/store/index.ts:179-194 | an unknown chat or message id changes nothing; otherwise only the content of the first matching variant changes, and the preview is refreshed only when that variant is the last of its group; the invariant is kept |
| Store.ChatStore.DeleteChat | src/store/index.ts:197-204 | the list loses every item with the id and the map loses the key, so the id sets stay equal; if the deleted chat was current, the first remaining id becomes current, or none when the list is empty or that id is 0 |
| Store.ChatStore.TogglePin | src/store/index.ts:207-213 | flips the pin of the first item with the id and of nothing else; an unknown id changes nothing |
| Store.CharacterStore.constructor | src/store/index.ts:219-222 | no characters and no current character |
| Store.CharacterStore.UpdateCharacter | src/store/index.ts:254-262 | replaces the first character with the same name in place, or appends when none matches; the character is then present and unique names stay unique |
| Store.CharacterStore.SelectCharacter | src/store/index.ts:265-271 | the first character with the name becomes current; an unknown name changes nothing |
| Store.CharacterStore.DeleteCharacter | src/store/index.ts:274-280 | every character with the name is removed; if the current one had that name the first remaining one (or none) becomes current, otherwise the current one is kept; unique names stay unique |
| Framing.Split | src/api/chat.ts:102 | at least one piece, none containing a newline, and joining them with newlines gives back the text |
| Framing.LinesOfFramedText | src/api/chat.ts:99-105 | a text made of newline-free terminated lines followed by a newline-free rest splits into exactly those lines, with the rest as the kept buffer |
| Framing.UnterminatedTailDropped | src/api/chat.ts:102-103 | an unterminated last line adds no complete line |
| Framing.TrimStartRemovesLeadingSpace | src/api/chat.ts:109 | trimming the front keeps a suffix of the text; everything removed is white space, and the result does not start with white space |
| Framing.TrimEndRemovesTrailingSpace | src/api/chat.ts:109 | trimming the end keeps a prefix of the text; everything removed is white space, and the result does not end with white space |
| Framing.TrimUnpadded | src/api/chat.ts:109 | a text without leading or trailing white space is its own trimmed form |
| ChatApi.ActiveProjection | src/api/chat.ts:35-44 | defined iff every group's `currentIndex` names a variant; then one entry per group, in order, with the role and content of the selected variant |
| ChatApi.FormatMessages | src/api/chat.ts:35-44 | the loop computes exactly `ActiveProjection`; a missing variant is a failure, not a partial result |
| ChatApi.MergeConfig | src/api/chat.ts:56-59 | every field the caller gives wins; every other field comes from the defaults |
| ChatApi.RequestBody | src/api/chat.ts:61-67 | the first entry is a system entry with the configured prompt, the rest are the projection from its second entry on (length max(1, n)); model, temperature and top-p are the merged ones; streaming is on |
| ChatApi.BuildRequest | src/api/chat.ts:54-67 | a request exists iff the projection does; the request then has length max(1, n), leads with the system entry, carries each later group's selected variant, uses the caller's settings or "qwen2_5-14b-instruct", 0.8 and 0.7, and streams |
| ChatApi.FirstGroupContentIgnored | src/api/chat.ts:62 | two histories that differ only in their first group produce the same request |
| ChatApi.LineEvents | src/api/chat.ts:106-122 | one line yields at most one event, and that event is never an error |
| ChatApi.LineInContext | src/api/chat.ts:105-124 | each line's events appear at that line's place, between the events of the lines before it and those after it |
| ChatApi.LinesEvents | src/api/chat.ts:105-124 | dispatching lines never reports an error and yields at most one event per line |
| ChatApi.ExchangeEvents | src/api/chat.ts:53-128 | each failure before the body is read gives exactly one error event and nothing else: an unprojectable history, a rejected `fetch`, a failing status, a missing body; an answered body gives the events of its complete lines, then the completion, or the read error if a read failed; an error is always the last event, and every exchange ends in a completion or an error |
| ChatApi.StreamChat | src/api/chat.ts:46-129 | the request built is `BuildRequest` of the inputs and the events are `ExchangeEvents` of the inputs |
| ChatApi.ReadBody | src/api/chat.ts:88-125 | with the buffer kept newline-free and the dispatched lines plus the buffer equal to the text received so far at every step, the loop reports exactly the events of the complete lines of the whole text, then one completion, or the read error when the read after the last chunk failed |
| ChatApi.DispatchLines | src/api/chat.ts:105-124 | the per-line loop, `continue` on the sentinel included, yields exactly `LinesEvents` of the lines |
| ChatApi.DoneDoesNotStopReading | src/api/chat.ts:109-112 | a sentinel line yields one completion and the lines after it are dispatched as if it were not there |
| ChatApi.FailingPayloadSkipped | src/api/chat.ts:114-122 | a payload that does not parse, or whose delta is missing or empty, yields nothing, and the lines around it are dispatched as if it were not there |
| ChatApi.DeltaBecomesToken | src/api/chat.ts:114-119 | a payload with a non-empty delta yields exactly one token with that delta, at its place among the other lines |
| ChatApi.DoneThenEndCompletesTwice | src/api/chat.ts:93-112 | a body that is just the sentinel line and ends normally reports completion twice |
| ChatApi.TokenSplitAcrossChunks | src/api/chat.ts:99-119 | a data line cut across any chunks yields its whole non-empty delta once, then the end of the body; if the next read fails, the token has already been reported and the read error follows it |
| ChatApi.UnterminatedTextDiscarded | src/api/chat.ts:91-103 | text after the last newline is never dispatched: the events are those of the complete lines, then the end of the body |
| ChatApi.NonDataLinesSilent | src/api/chat.ts:106 | lines without the `data: ` prefix produce no event |
| ChatApi.ChunkBoundariesIrrelevant | src/api/chat.ts:99-105 | two chunkings of the same text that end the same way report the same events; this is a corollary of the contract of `ChatApi.ReadBody`, which carries the proof |
| ChatApi.WellFormedConversationProjects | src/api/chat.ts:35-44 | a conversation that satisfies the well-formedness part of the store invariant (`Store.HistoryWellFormed`) always projects, each entry with its group's role, so its request exists and the exchange never reports the malformed-history error |
| ChatApi.ValidateMessageSequence | src/api/chat.ts:131-151 | accepts iff position 0 is system, odd positions are user and even positions from 2 are assistant (so the empty sequence is accepted) |
| ChatApi.AcceptedSequenceAlternates | src/api/chat.ts:131-151 | an accepted sequence starts with system and never repeats a role in adjacent positions |
| ChatApi.UserPredecessorTestRedundant | src/api/chat.ts:144-147 | once the first three tests pass, a user role already follows an assistant or the system prompt, so the fourth test never fires |

## Left out

- Persistence is not modelled: the localforage configuration, `initialize`, `saveState`, and the deep copies made before saving (`src/store/index.ts:15-18, 70-97, 226-251`). Each action saves after changing the state, and a failed save is only logged, so it does not change the modelled state.
- `isChatState` and `isCharacterState` are not modelled. They are duck-typing guards over JavaScript `typeof`, and they only filter what persistence loads.
- `generateId`, `Date.now()` and `Math.random()` are nondeterministic. Their values are method parameters, one per reading: `startNewChat` reads the clock four times, and `updateLastMessage` reads it once.
- Aliasing is not modelled. The source mutates the message, group and summary objects in place, and other holders of those objects would see the change. The model replaces values in the `seq`/`map` fields. The current character is kept as a value, so a later `updateCharacter` does not reach it. In the source it stays the old object too.
- Store.ChatStore.SortedChatList: sort stability is not stated. The order among items that compare equal is left open; the permutation and ordering facts are proved.
- `fetch`, the request headers, JSON serialisation and the endpoint address are not modelled. The HTTP exchange is an input value. A rejected `fetch`, a non-OK status or a missing body each become a single error event.
- Streaming UTF-8 decoding (`TextDecoder`) is not modelled: chunks arrive as already-decoded text.
- `JSON.parse` and the property access on its result are abstracted as the parameter `extract`. A truthy delta that is not a string is outside this abstraction.
- ChatApi.MergeConfig: an `undefined` value that the caller sets explicitly overrides a default under JavaScript spread. The model treats it as absent.
- Callbacks that throw are not modelled; the model assumes they return normally. In the source, a throwing token callback (`src/api/chat.ts:118`) is inside the inner `try` at lines 114-122: the `catch` at 120-121 logs it and reading goes on. A throwing completion callback (lines 94 or 110) reaches the outer `catch` at 126-128 and fires the error callback.
- Logging (`console.log`, `console.error`) and the `ChatAPI` singleton have no behaviour to model.
- Framing.IsWhitespace: the characters `trim` removes are listed from the ECMAScript definition of white space and line terminators. Other Unicode space separators are not followed as the Unicode version changes.
