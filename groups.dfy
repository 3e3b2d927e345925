/** The rules the chat store applies to the group list of one conversation
    (src/store/index.ts, addMessage and editMessage), stated on values. */
module Groups {
  import opened Types
  import opened Collections

  /** Avatar given to a new group opened for a user message. */
  const UserAvatar := "/user-avatar.png"

  /** A group holds at least one variant, `currentIndex` selects one of them,
      and every variant carries the group's role. */
  predicate GroupWellFormed(g: ChatGroup) {
    && |g.messages| > 0
    && 0 <= g.currentIndex < |g.messages|
    && forall k :: 0 <= k < |g.messages| ==> g.messages[k].role == g.role
  }

  /** Every group is well formed and no two adjacent groups share a role. */
  predicate WellFormed(groups: seq<ChatGroup>) {
    && (forall i :: 0 <= i < |groups| ==> GroupWellFormed(groups[i]))
    && (forall i :: 0 < i < |groups| ==> groups[i].role != groups[i - 1].role)
  }

  /** The conversation opens with its system group. */
  predicate StartsWithSystem(groups: seq<ChatGroup>) {
    |groups| > 0 && groups[0].role == System
  }

  /** The avatar of a group opened for `role` in a conversation whose character has `characterAvatar`. */
  function GroupAvatar(role: Role, characterAvatar: string): string {
    if role == User then UserAvatar else characterAvatar
  }

  /** The addMessage rule: a message whose role is the last group's role becomes a further
      variant of that group; any other message (or the first one) opens a new group. */
  function AddToGroups(groups: seq<ChatGroup>, message: Message, characterAvatar: string): (r: seq<ChatGroup>)
    // Same role as the last group: that group gains the message as its last variant.
    ensures |groups| > 0 && groups[|groups| - 1].role == message.role ==>
      && |r| == |groups|
      && r[..|r| - 1] == groups[..|groups| - 1]
      && r[|r| - 1].role == groups[|groups| - 1].role
      && r[|r| - 1].avatar == groups[|groups| - 1].avatar
      && r[|r| - 1].currentIndex == groups[|groups| - 1].currentIndex
      && r[|r| - 1].messages == groups[|groups| - 1].messages + [message]
    // Otherwise exactly one group is appended, holding just this message, with index 0.
    ensures !(|groups| > 0 && groups[|groups| - 1].role == message.role) ==>
      && |r| == |groups| + 1
      && r[..|groups|] == groups
      && r[|groups|].role == message.role
      && r[|groups|].avatar == GroupAvatar(message.role, characterAvatar)
      && r[|groups|].messages == [message]
      && r[|groups|].currentIndex == 0
    // Either way the message is now the last variant of the last group.
    ensures |r| > 0 && r[|r| - 1].role == message.role
    ensures |r[|r| - 1].messages| > 0 && r[|r| - 1].messages[|r[|r| - 1].messages| - 1] == message
    // The structural invariants are kept.
    ensures WellFormed(groups) ==> WellFormed(r)
    ensures StartsWithSystem(groups) ==> StartsWithSystem(r)
  {
    if |groups| > 0 && groups[|groups| - 1].role == message.role then
      var last := groups[|groups| - 1];
      groups[|groups| - 1 := last.(messages := last.messages + [message])]
    else
      groups + [ChatGroup(message.role, GroupAvatar(message.role, characterAvatar), [message], 0)]
  }

  /** Where a message lives: the group and the variant position inside it. */
  datatype Location = Location(group: nat, index: nat)

  predicate HoldsId(g: ChatGroup, messageId: string) {
    exists k :: 0 <= k < |g.messages| && g.messages[k].id == messageId
  }

  /** The editMessage search: the first group holding a variant with `messageId`,
      and the first such variant in it. */
  function FindMessage(groups: seq<ChatGroup>, messageId: string): (r: Option<Location>)
    ensures r.None? <==> forall j :: 0 <= j < |groups| ==> !HoldsId(groups[j], messageId)
    ensures r.Some? ==>
      && r.value.group < |groups|
      && r.value.index < |groups[r.value.group].messages|
      && groups[r.value.group].messages[r.value.index].id == messageId
      && (forall j :: 0 <= j < r.value.group ==> !HoldsId(groups[j], messageId))
      && (forall k :: 0 <= k < r.value.index ==> groups[r.value.group].messages[k].id != messageId)
  {
    if groups == [] then None
    else match FindIndex(groups[0].messages, IdMatches(messageId))
      case Some(k) => Some(Location(0, k))
      case None =>
        assert !HoldsId(groups[0], messageId);
        match FindMessage(groups[1..], messageId)
        case None =>
          NoneHoldsBefore(groups, messageId, |groups|);
          None
        case Some(loc) =>
          NoneHoldsBefore(groups, messageId, loc.group + 1);
          Some(Location(loc.group + 1, loc.index))
  }

  /** No group before `n` holds the id when the first one does not and none of the next do. */
  lemma NoneHoldsBefore(groups: seq<ChatGroup>, messageId: string, n: nat)
    requires 0 < n <= |groups| && !HoldsId(groups[0], messageId)
    requires forall j :: 0 <= j < n - 1 ==> !HoldsId(groups[1..][j], messageId)
    ensures forall j :: 0 <= j < n ==> !HoldsId(groups[j], messageId)
  {
    forall j | 0 < j < n ensures !HoldsId(groups[j], messageId) {
      assert groups[j] == groups[1..][j - 1];
    }
  }

  function IdMatches(messageId: string): Message -> bool {
    (m: Message) => m.id == messageId
  }

  /** The search stops at the first hit: no earlier group holds the id and no earlier
      variant of group `i` carries it. */
  lemma FindMessageFirstHit(groups: seq<ChatGroup>, messageId: string, i: nat, k: nat)
    requires i < |groups| && k < |groups[i].messages| && groups[i].messages[k].id == messageId
    requires forall j :: 0 <= j < i ==> !HoldsId(groups[j], messageId)
    requires forall j :: 0 <= j < k ==> groups[i].messages[j].id != messageId
    ensures FindMessage(groups, messageId) == Some(Location(i, k))
  {
    var r := FindMessage(groups, messageId);
    assert HoldsId(groups[i], messageId);
    assert r.Some?;
  }

  /** The search loop of editMessage: groups in order, the first matching variant inside
      each, stopping at the first hit. */
  method LocateMessage(groups: seq<ChatGroup>, messageId: string) returns (found: Option<Location>)
    ensures found == FindMessage(groups, messageId)
  {
    for i := 0 to |groups|
      invariant forall j :: 0 <= j < i ==> !HoldsId(groups[j], messageId)
    {
      var index := FindIndex(groups[i].messages, IdMatches(messageId));
      if index.Some? {
        FindMessageFirstHit(groups, messageId, i, index.value);
        return Some(Location(i, index.value));
      }
    }
    return None;
  }

  /** Overwrite the content of the variant at `loc`; nothing else changes. */
  function EditContent(groups: seq<ChatGroup>, loc: Location, newContent: string): (r: seq<ChatGroup>)
    requires loc.group < |groups| && loc.index < |groups[loc.group].messages|
    ensures |r| == |groups|
    ensures forall i :: 0 <= i < |r| ==>
      && r[i].role == groups[i].role
      && r[i].avatar == groups[i].avatar
      && r[i].currentIndex == groups[i].currentIndex
      && |r[i].messages| == |groups[i].messages|
    ensures forall i, k :: 0 <= i < |r| && 0 <= k < |r[i].messages| ==>
      var before, after := groups[i].messages[k], r[i].messages[k];
      && after.id == before.id
      && after.role == before.role
      && after.timestamp == before.timestamp
      && after.isEditing == before.isEditing
      && after.isPending == before.isPending
      && after.content == if i == loc.group && k == loc.index then newContent else before.content
    ensures WellFormed(groups) ==> WellFormed(r)
    ensures StartsWithSystem(groups) ==> StartsWithSystem(r)
  {
    var g := groups[loc.group];
    groups[loc.group := g.(messages := g.messages[loc.index := g.messages[loc.index].(content := newContent)])]
  }
}
