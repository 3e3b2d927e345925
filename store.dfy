/** The two stores of the client (src/store/index.ts): the chat store, holding the
    conversation list, the conversations and the current one, and the character store.
    Persistence is left out: every action would save the state after changing it. */
module Store {
  import opened Types
  import opened Collections
  import opened Groups
  import ChatApi

  // ---------------------------------------------------------------------------
  // Chat list helpers

  /** The ids that appear in the conversation list. */
  function Ids(list: seq<ChatListItem>): set<int> {
    set item | item in list :: item.id
  }

  predicate UniqueIds(list: seq<ChatListItem>) {
    forall i, j :: 0 <= i < j < |list| ==> list[i].id != list[j].id
  }

  /** `i` is the position `find(item => item.id === chatId)` lands on. */
  predicate FirstWithId(list: seq<ChatListItem>, i: int, chatId: int) {
    0 <= i < |list| && list[i].id == chatId && forall j :: 0 <= j < i ==> list[j].id != chatId
  }

  predicate NoneWithId(list: seq<ChatListItem>, chatId: int) {
    forall i :: 0 <= i < |list| ==> list[i].id != chatId
  }

  function IdIs(chatId: int): ChatListItem -> bool {
    (item: ChatListItem) => item.id == chatId
  }

  function IdIsNot(chatId: int): ChatListItem -> bool {
    (item: ChatListItem) => item.id != chatId
  }

  lemma IdsAppend(list: seq<ChatListItem>, item: ChatListItem)
    ensures Ids(list + [item]) == Ids(list) + {item.id}
  {
    forall id | id in Ids(list + [item]) ensures id in Ids(list) + {item.id} {
      var x :| x in list + [item] && x.id == id;
      if x != item { assert x in list; }
    }
    forall id | id in Ids(list) ensures id in Ids(list + [item]) {
      var x :| x in list && x.id == id;
      assert x in list + [item];
    }
    assert item in list + [item];
  }

  lemma IdsFilter(list: seq<ChatListItem>, chatId: int)
    ensures Ids(Filter(list, IdIsNot(chatId))) == Ids(list) - {chatId}
  {
    var r := Filter(list, IdIsNot(chatId));
    forall id | id in Ids(r) ensures id in Ids(list) - {chatId} {
      var x :| x in r && x.id == id;
      FilterMembership(list, IdIsNot(chatId), x);
    }
    forall id | id in Ids(list) - {chatId} ensures id in Ids(r) {
      var x :| x in list && x.id == id;
      FilterMembership(list, IdIsNot(chatId), x);
    }
  }

  /** Same ids at the same positions give the same id set. */
  lemma IdsPointwise(a: seq<ChatListItem>, b: seq<ChatListItem>)
    requires |a| == |b| && forall i :: 0 <= i < |a| ==> a[i].id == b[i].id
    ensures Ids(a) == Ids(b)
  {
    forall id | id in Ids(a) ensures id in Ids(b) {
      var x :| x in a && x.id == id;
      var i :| 0 <= i < |a| && a[i] == x;
      assert b[i] in b;
    }
    forall id | id in Ids(b) ensures id in Ids(a) {
      var x :| x in b && x.id == id;
      var i :| 0 <= i < |b| && b[i] == x;
      assert a[i] in a;
    }
  }

  /** updateLastMessage on a list: the first item with `chatId` gets the new preview text and
      update time; a list without that id is returned as it is. */
  function WithLastMessage(list: seq<ChatListItem>, chatId: int, text: string, now: int): (r: seq<ChatListItem>)
    ensures NoneWithId(list, chatId) ==> r == list
    ensures forall i :: FirstWithId(list, i, chatId) ==>
      r == list[i := list[i].(lastMessage := text, updatedAt := now)]
    ensures |r| == |list| && Ids(r) == Ids(list)
  {
    match FindIndex(list, IdIs(chatId))
    case None => list
    case Some(i) =>
      var r := list[i := list[i].(lastMessage := text, updatedAt := now)];
      IdsPointwise(r, list);
      r
  }

  // ---------------------------------------------------------------------------
  // sortedChatList

  /** The comparator of sortedChatList, as "a may stand before b": pinned conversations
      first, then the most recently updated first. */
  predicate ListedBefore(a: ChatListItem, b: ChatListItem) {
    (a.pinned && !b.pinned) || (a.pinned == b.pinned && a.updatedAt >= b.updatedAt)
  }

  predicate Ordered(s: seq<ChatListItem>) {
    forall i, j :: 0 <= i < j < |s| ==> ListedBefore(s[i], s[j])
  }

  lemma ListedBeforeTransitive(a: ChatListItem, b: ChatListItem, c: ChatListItem)
    requires ListedBefore(a, b) && ListedBefore(b, c)
    ensures ListedBefore(a, c)
  {
  }

  /** An element that may stand before the head of an ordered list may lead it. */
  lemma PrependOrdered(x: ChatListItem, s: seq<ChatListItem>)
    requires Ordered(s)
    requires s != [] ==> ListedBefore(x, s[0])
    ensures Ordered([x] + s)
  {
    var r := [x] + s;
    forall i, j | 0 <= i < j < |r| ensures ListedBefore(r[i], r[j]) {
      if i == 0 && j > 1 {
        ListedBeforeTransitive(x, s[0], s[j - 1]);
      }
    }
  }

  /** Place `x` in front of the first element it may stand before (so it stays ahead of
      elements that compare equal to it). */
  function Insert(x: ChatListItem, s: seq<ChatListItem>): (r: seq<ChatListItem>)
    requires Ordered(s)
    ensures multiset(r) == multiset(s) + multiset{x}
    ensures Ordered(r)
  {
    if s == [] then [x]
    else if ListedBefore(x, s[0]) then
      PrependOrdered(x, s);
      [x] + s
    else
      var t := Insert(x, s[1..]);
      assert s == [s[0]] + s[1..];
      assert t[0] in multiset(t);
      assert t[0] == x || t[0] in s[1..];
      PrependOrdered(s[0], t);
      [s[0]] + t
  }

  /** A sorted copy of the chat list. */
  function SortChatList(list: seq<ChatListItem>): (r: seq<ChatListItem>)
    ensures multiset(r) == multiset(list)
    ensures Ordered(r)
  {
    if list == [] then []
    else
      assert list == [list[0]] + list[1..];
      Insert(list[0], SortChatList(list[1..]))
  }

  // ---------------------------------------------------------------------------
  // Character list helpers

  predicate UniqueNames(cs: seq<CharacterConfig>) {
    forall i, j :: 0 <= i < j < |cs| ==> cs[i].name != cs[j].name
  }

  predicate FirstNamed(cs: seq<CharacterConfig>, i: int, name: string) {
    0 <= i < |cs| && cs[i].name == name && forall j :: 0 <= j < i ==> cs[j].name != name
  }

  predicate NoneNamed(cs: seq<CharacterConfig>, name: string) {
    forall i :: 0 <= i < |cs| ==> cs[i].name != name
  }

  function NameIs(name: string): CharacterConfig -> bool {
    (c: CharacterConfig) => c.name == name
  }

  function NameIsNot(name: string): CharacterConfig -> bool {
    (c: CharacterConfig) => c.name != name
  }

  lemma ConsNamesUnique(c: CharacterConfig, rest: seq<CharacterConfig>)
    requires UniqueNames(rest)
    requires forall k :: 0 <= k < |rest| ==> rest[k].name != c.name
    ensures UniqueNames([c] + rest)
  {
    var r := [c] + rest;
    forall i, j | 0 <= i < j < |r| ensures r[i].name != r[j].name {
      if i > 0 {
        assert r[i] == rest[i - 1] && r[j] == rest[j - 1];
      } else {
        assert r[j] == rest[j - 1];
      }
    }
  }

  /** Removing characters never creates a duplicate name. */
  lemma {:induction false} FilterKeepsNamesUnique(cs: seq<CharacterConfig>, name: string)
    requires UniqueNames(cs)
    ensures UniqueNames(Filter(cs, NameIsNot(name)))
  {
    if cs != [] {
      var tail := cs[1..];
      var rest := Filter(tail, NameIsNot(name));
      assert UniqueNames(tail) by {
        forall i, j | 0 <= i < j < |tail| ensures tail[i].name != tail[j].name {
          assert tail[i] == cs[i + 1] && tail[j] == cs[j + 1];
        }
      }
      FilterKeepsNamesUnique(tail, name);
      if NameIsNot(name)(cs[0]) {
        forall k | 0 <= k < |rest| ensures rest[k].name != cs[0].name {
          assert rest[k] in tail;
          var j :| 0 <= j < |tail| && tail[j] == rest[k];
          assert cs[j + 1] == rest[k];
        }
        ConsNamesUnique(cs[0], rest);
      }
    }
  }

  // ---------------------------------------------------------------------------
  // The chat store

  /** A conversation stored under `id`: it knows its own id, opens with the system group,
      and its groups are well formed. */
  predicate HistoryWellFormed(id: int, h: ChatHistory) {
    h.id == id && StartsWithSystem(h.messages) && WellFormed(h.messages)
  }

  /** The list and the conversations describe the same ids, and every conversation is well formed. */
  predicate StateValid(list: seq<ChatListItem>, histories: map<int, ChatHistory>) {
    && Ids(list) == histories.Keys
    && forall id :: id in histories ==> HistoryWellFormed(id, histories[id])
  }

  /** Every conversation a valid store holds can be streamed: its request is built, it leads
      with the system prompt, and it never fails as a malformed history. */
  lemma StoredConversationProjects(list: seq<ChatListItem>, histories: map<int, ChatHistory>, id: int,
                                   config: ChatApi.ConfigFields)
    requires StateValid(list, histories) && id in histories
    ensures ChatApi.ActiveProjection(histories[id].messages).Some?
    ensures ChatApi.ActiveProjection(histories[id].messages).value[0].role == System
    ensures ChatApi.BuildRequest(histories[id].messages, config).Some?
  {
    var groups := histories[id].messages;
    assert HistoryWellFormed(id, histories[id]);
    ChatApi.WellFormedConversationProjects(groups, config, ChatApi.Refused, s => None);
  }

  /** Replacing a stored conversation by a well-formed one, while the list keeps its ids, keeps the state valid. */
  lemma ReplaceKeepsValid(list: seq<ChatListItem>, histories: map<int, ChatHistory>, chatId: int, h: ChatHistory,
                          list': seq<ChatListItem>)
    requires StateValid(list, histories) && chatId in histories
    requires HistoryWellFormed(chatId, h) && Ids(list') == Ids(list)
    ensures StateValid(list', histories[chatId := h])
  {
  }

  /** The conversation startNewChat creates: one system group holding the system prompt
      as its single variant, and a private copy of the character settings. */
  function SeedHistory(id: int, params: StartNewChatParams, messageId: string, timestamp: int): (h: ChatHistory)
    ensures h.id == id
    ensures h.characterConfig == CharacterConfig(params.name, params.avatar, params.systemPrompt, 0.7, 0.9)
    ensures |h.messages| == 1 && h.messages[0].role == System && h.messages[0].avatar == params.avatar
    ensures h.messages[0].currentIndex == 0
    ensures h.messages[0].messages == [Message(messageId, params.systemPrompt, System, timestamp, None, None)]
    ensures HistoryWellFormed(id, h)
  {
    ChatHistory(
      id,
      CharacterConfig(params.name, params.avatar, params.systemPrompt, 0.7, 0.9),
      [ChatGroup(System, params.avatar, [Message(messageId, params.systemPrompt, System, timestamp, None, None)], 0)])
  }

  class ChatStore {
    var currentChatId: Option<int>
    var chatList: seq<ChatListItem>
    var chatHistories: map<int, ChatHistory>

    ghost predicate Valid()
      reads this
    {
      StateValid(chatList, chatHistories)
    }

    constructor ()
      ensures currentChatId == None && chatList == [] && chatHistories == map[]
      ensures Valid()
    {
      currentChatId := None;
      chatList := [];
      chatHistories := map[];
    }

    /** The currentChat getter. An id of 0 counts as no current conversation. */
    function CurrentChat(): (r: Option<ChatHistory>)
      reads this
      ensures r.Some? <==> currentChatId.Some? && currentChatId.value != 0 && currentChatId.value in chatHistories
      ensures r.Some? ==> r.value == chatHistories[currentChatId.value]
    {
      match currentChatId
      case None => None
      case Some(id) => if id == 0 || id !in chatHistories then None else Some(chatHistories[id])
    }

    /** The sortedChatList getter: a sorted copy; the list itself is left alone. */
    function SortedChatList(): (r: seq<ChatListItem>)
      reads this
      ensures multiset(r) == multiset(chatList)
      ensures forall i, j :: 0 <= i < j < |r| ==> !(!r[i].pinned && r[j].pinned)
      ensures forall i, j :: 0 <= i < j < |r| && r[i].pinned == r[j].pinned ==> r[i].updatedAt >= r[j].updatedAt
    {
      SortChatList(chatList)
    }

    /** startNewChat. `newChatId`, `createdAt`, `updatedAt` and `timestamp` are the four
        clock readings the action takes, `messageId` the generated id of the seed message. */
    method StartNewChat(params: StartNewChatParams, newChatId: int, createdAt: int, updatedAt: int,
                        messageId: string, timestamp: int)
      modifies this
      ensures chatList == old(chatList) +
        [ChatListItem(newChatId, params.name, params.avatar, "", false, params.systemPrompt, createdAt, updatedAt)]
      ensures chatHistories == old(chatHistories)[newChatId := SeedHistory(newChatId, params, messageId, timestamp)]
      ensures currentChatId == Some(newChatId)
      ensures newChatId !in old(chatHistories) ==> |chatHistories| == |old(chatHistories)| + 1
      ensures old(Valid()) ==> Valid()
      ensures old(UniqueIds(chatList)) && newChatId !in old(Ids(chatList)) ==> UniqueIds(chatList)
    {
      var item := ChatListItem(newChatId, params.name, params.avatar, "", false, params.systemPrompt, createdAt, updatedAt);
      var history := SeedHistory(newChatId, params, messageId, timestamp);
      IdsAppend(chatList, item);
      assert newChatId !in Ids(chatList) ==> forall i :: 0 <= i < |chatList| ==> chatList[i].id != newChatId by {
        forall i | 0 <= i < |chatList| && newChatId !in Ids(chatList) ensures chatList[i].id != newChatId {
          assert chatList[i] in chatList;
        }
      }
      chatList := chatList + [item];
      chatHistories := chatHistories[newChatId := history];
      currentChatId := Some(newChatId);
    }

    /** switchChat: only the current id moves, to any id the caller names. */
    method SwitchChat(chatId: int)
      modifies this`currentChatId
      ensures currentChatId == Some(chatId)
      ensures old(Valid()) ==> Valid()
    {
      currentChatId := Some(chatId);
    }

    /** updateLastMessage: refresh the preview of the first list item with `chatId`. */
    method UpdateLastMessage(chatId: int, message: string, now: int)
      modifies this`chatList
      ensures chatList == WithLastMessage(old(chatList), chatId, message, now)
      ensures old(Valid()) ==> Valid()
    {
      var index := FindIndex(chatList, IdIs(chatId));
      if index.Some? {
        var i := index.value;
        chatList := chatList[i := chatList[i].(lastMessage := message, updatedAt := now)];
      }
    }

    /** addMessage: append `message` to conversation `chatId` by the group rule of
        AddToGroups, then refresh that conversation's preview. An unknown id changes nothing. */
    method AddMessage(chatId: int, message: Message, now: int)
      modifies this
      ensures currentChatId == old(currentChatId)
      ensures chatId !in old(chatHistories) ==> chatHistories == old(chatHistories) && chatList == old(chatList)
      ensures chatId in old(chatHistories) ==>
        var chat := old(chatHistories)[chatId];
        && chatHistories == old(chatHistories)[chatId :=
             chat.(messages := AddToGroups(chat.messages, message, chat.characterConfig.avatar))]
        && chatList == WithLastMessage(old(chatList), chatId, message.content, now)
      ensures old(Valid()) ==> Valid()
    {
      if chatId !in chatHistories {
        return;
      }
      var chat := chatHistories[chatId];
      var groups := chat.messages;
      var opensGroup := |groups| == 0 || groups[|groups| - 1].role != message.role;
      if opensGroup {
        var avatar := if message.role == User then UserAvatar else chat.characterConfig.avatar;
        groups := groups + [ChatGroup(message.role, avatar, [], 0)];
      }
      var current := groups[|groups| - 1];
      groups := groups[|groups| - 1 := current.(messages := current.messages + [message])];
      ghost var expected := AddToGroups(chat.messages, message, chat.characterConfig.avatar);
      assert |groups| == |expected|;
      assert forall i :: 0 <= i < |groups| ==> groups[i] == expected[i] by {
        if opensGroup {
          assert current.messages + [message] == [message];
        }
      }
      assert groups == expected;
      chatHistories := chatHistories[chatId := chat.(messages := groups)];
      UpdateLastMessage(chatId, message.content, now);
    }

    /** editMessage: overwrite, in place, the content of the first variant with `messageId`
        (searching group by group); the preview is refreshed only when that variant is the
        last of its group. Nothing else changes. */
    method EditMessage(chatId: int, messageId: string, newContent: string, now: int)
      modifies this
      ensures currentChatId == old(currentChatId)
      ensures chatId !in old(chatHistories) ==> chatHistories == old(chatHistories) && chatList == old(chatList)
      ensures chatId in old(chatHistories) && FindMessage(old(chatHistories)[chatId].messages, messageId).None? ==>
        chatHistories == old(chatHistories) && chatList == old(chatList)
      ensures chatId in old(chatHistories) && FindMessage(old(chatHistories)[chatId].messages, messageId).Some? ==>
        var chat := old(chatHistories)[chatId];
        var loc := FindMessage(chat.messages, messageId).value;
        && chatHistories == old(chatHistories)[chatId := chat.(messages := EditContent(chat.messages, loc, newContent))]
        && chatList == if loc.index == |chat.messages[loc.group].messages| - 1
                       then WithLastMessage(old(chatList), chatId, newContent, now)
                       else old(chatList)
      ensures old(Valid()) ==> Valid()
    {
      if chatId !in chatHistories {
        return;
      }
      var chat := chatHistories[chatId];
      var found := LocateMessage(chat.messages, messageId);
      if found.Some? {
        EditVariant(chatId, found.value.group, found.value.index, newContent, now);
      }
    }

    /** The hit branch of editMessage: overwrite the content of variant `k` of group `i` and
        refresh the preview when that variant is the last of its group. */
    method EditVariant(chatId: int, i: nat, k: nat, newContent: string, now: int)
      requires chatId in chatHistories
      requires i < |chatHistories[chatId].messages| && k < |chatHistories[chatId].messages[i].messages|
      modifies this
      ensures currentChatId == old(currentChatId)
      ensures var chat := old(chatHistories)[chatId];
        && chatHistories == old(chatHistories)[chatId := chat.(messages := EditContent(chat.messages, Location(i, k), newContent))]
        && chatList == if k == |chat.messages[i].messages| - 1
                       then WithLastMessage(old(chatList), chatId, newContent, now)
                       else old(chatList)
      ensures old(Valid()) ==> Valid()
    {
      var chat := chatHistories[chatId];
      var group := chat.messages[i];
      var edited := group.(messages := group.messages[k := group.messages[k].(content := newContent)]);
      ghost var newGroups := EditContent(chat.messages, Location(i, k), newContent);
      assert chat.messages[i := edited] == newGroups;
      ghost var listAfter := if k == |group.messages| - 1 then WithLastMessage(chatList, chatId, newContent, now) else chatList;
      if StateValid(chatList, chatHistories) {
        ReplaceKeepsValid(chatList, chatHistories, chatId, chat.(messages := newGroups), listAfter);
      }
      chatHistories := chatHistories[chatId := chat.(messages := chat.messages[i := edited])];
      if k == |group.messages| - 1 {
        UpdateLastMessage(chatId, newContent, now);
      }
    }

    /** deleteChat: drop every list item with `chatId` and the conversation itself; if it was
        the current one, the first remaining item becomes current (an id of 0 reads as none). */
    method DeleteChat(chatId: int)
      modifies this
      ensures chatList == Filter(old(chatList), IdIsNot(chatId))
      ensures chatHistories == old(chatHistories) - {chatId}
      ensures Ids(chatList) == old(Ids(chatList)) - {chatId}
      ensures old(currentChatId) != Some(chatId) ==> currentChatId == old(currentChatId)
      ensures old(currentChatId) == Some(chatId) ==>
        currentChatId == if chatList != [] && chatList[0].id != 0 then Some(chatList[0].id) else None
      ensures old(Valid()) ==> Valid()
    {
      IdsFilter(chatList, chatId);
      chatList := Filter(chatList, IdIsNot(chatId));
      chatHistories := chatHistories - {chatId};
      if currentChatId == Some(chatId) {
        currentChatId := if chatList != [] && chatList[0].id != 0 then Some(chatList[0].id) else None;
      }
    }

    /** togglePin: flip the pin of the first list item with `chatId`. */
    method TogglePin(chatId: int)
      modifies this`chatList
      ensures NoneWithId(old(chatList), chatId) ==> chatList == old(chatList)
      ensures forall i :: FirstWithId(old(chatList), i, chatId) ==>
        chatList == old(chatList)[i := old(chatList)[i].(pinned := !old(chatList)[i].pinned)]
      ensures old(Valid()) ==> Valid()
    {
      var index := FindIndex(chatList, IdIs(chatId));
      if index.Some? {
        var i := index.value;
        var before := chatList;
        chatList := chatList[i := chatList[i].(pinned := !chatList[i].pinned)];
        IdsPointwise(chatList, before);
      }
    }
  }

  // ---------------------------------------------------------------------------
  // The character store

  class CharacterStore {
    var characters: seq<CharacterConfig>
    var currentCharacter: Option<CharacterConfig>

    constructor ()
      ensures characters == [] && currentCharacter == None
    {
      characters := [];
      currentCharacter := None;
    }

    /** updateCharacter: replace the first character with the same name, in place,
        or append the character when no name matches. */
    method UpdateCharacter(character: CharacterConfig)
      modifies this`characters
      ensures NoneNamed(old(characters), character.name) ==> characters == old(characters) + [character]
      ensures forall i :: FirstNamed(old(characters), i, character.name) ==> characters == old(characters)[i := character]
      ensures character in characters
      ensures old(UniqueNames(characters)) ==> UniqueNames(characters)
    {
      var index := FindIndex(characters, NameIs(character.name));
      if index.Some? {
        characters := characters[index.value := character];
        assert characters[index.value] == character;
      } else {
        characters := characters + [character];
      }
    }

    /** selectCharacter: the first character with `name` becomes current; an unknown name changes nothing. */
    method SelectCharacter(name: string)
      modifies this`currentCharacter
      ensures NoneNamed(characters, name) ==> currentCharacter == old(currentCharacter)
      ensures forall i :: FirstNamed(characters, i, name) ==> currentCharacter == Some(characters[i])
    {
      var index := FindIndex(characters, NameIs(name));
      if index.Some? {
        currentCharacter := Some(characters[index.value]);
      }
    }

    /** deleteCharacter: drop every character with `name`; if the current character had
        that name, the first remaining character (or none) becomes current. */
    method DeleteCharacter(name: string)
      modifies this
      ensures characters == Filter(old(characters), NameIsNot(name))
      ensures forall i :: 0 <= i < |characters| ==> characters[i].name != name
      ensures old(currentCharacter).Some? && old(currentCharacter).value.name == name ==>
        currentCharacter == if characters == [] then None else Some(characters[0])
      ensures !(old(currentCharacter).Some? && old(currentCharacter).value.name == name) ==>
        currentCharacter == old(currentCharacter)
      ensures old(UniqueNames(characters)) ==> UniqueNames(characters)
    {
      if UniqueNames(characters) {
        FilterKeepsNamesUnique(characters, name);
      }
      characters := Filter(characters, NameIsNot(name));
      if currentCharacter.Some? && currentCharacter.value.name == name {
        currentCharacter := if characters == [] then None else Some(characters[0]);
      }
    }
  }
}
