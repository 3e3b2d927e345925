/** The records the chat client stores and exchanges (src/types/index.ts). */
module Types {

  datatype Option<+T> = None | Some(value: T)

  datatype Role = Assistant | User | System

  /** One concrete rendering of a turn. The two optional flags are absent unless the UI sets them. */
  datatype Message = Message(
    id: string,
    content: string,
    role: Role,
    timestamp: int,
    isEditing: Option<bool>,
    isPending: Option<bool>)

  /** One turn of a conversation: a role, an avatar and the variants of that turn,
      with `currentIndex` selecting the variant that is shown and sent. */
  datatype ChatGroup = ChatGroup(
    role: Role,
    avatar: string,
    messages: seq<Message>,
    currentIndex: int)

  /** The summary row of one conversation in the side list. */
  datatype ChatListItem = ChatListItem(
    id: int,
    name: string,
    avatar: string,
    lastMessage: string,
    pinned: bool,
    systemPrompt: string,
    createdAt: int,
    updatedAt: int)

  datatype CharacterConfig = CharacterConfig(
    name: string,
    avatar: string,
    systemPrompt: string,
    temperature: real,
    topP: real)

  /** A conversation: its id, the character it was started with, and its groups in order. */
  datatype ChatHistory = ChatHistory(
    id: int,
    characterConfig: CharacterConfig,
    messages: seq<ChatGroup>)

  datatype StartNewChatParams = StartNewChatParams(avatar: string, systemPrompt: string, name: string)
}
