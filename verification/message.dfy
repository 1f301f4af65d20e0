/** `common.Message`, the one envelope type of the wire protocol, and what the server
    does with envelopes: deliver them to someone. */
module Messages {
  import opened Wrappers
  import opened Groups

  /** `Message.Type`. */
  datatype Type =
    | Login | PrivateChat | GroupChat | OnlineNotify | OfflineNotify
    | GetOnlineUsers | OnlineUsers | FilePrivate | FileGroup | Shake
    | CreateGroup | SearchGroup | JoinGroup | GroupList
    | Register | RegisterResponse
    | FindPassword | FindPasswordResponse
    | ResetPassword | ResetPasswordResponse

  /** Java `long` and `byte`. */
  newtype Long = x: int | -0x8000_0000_0000_0000 <= x < 0x8000_0000_0000_0000
  newtype Byte = x: int | -128 <= x < 128

  /** Every reference field may be `null`, as in the Java class; the type is always set. */
  datatype Message = Message(
    kind: Type,
    sender: Option<string>,
    receiver: Option<string>,
    content: Option<string>,
    onlineUsers: Option<seq<string>>,
    fileName: Option<string>,
    fileSize: Long,
    fileData: Option<seq<Byte>>,
    groupId: Option<string>,
    groupName: Option<string>,
    groupList: Option<seq<Group>>,
    password: Option<string>)

  /** The sender name the server signs its own messages with. */
  const ServerName := "服务器"

  /** `new Message(type, sender, receiver, content)`: the remaining fields stay unset. */
  function Text(kind: Type, sender: Option<string>, receiver: Option<string>, content: Option<string>): Message {
    Message(kind, sender, receiver, content, None, None, 0, None, None, None, None, None)
  }

  /** A message the server writes itself: signed by the server, with text content. */
  function Notice(kind: Type, receiver: Option<string>, content: string): (m: Message)
    ensures m.kind == kind && m.sender == Some(ServerName)
    ensures m.receiver == receiver && m.content == Some(content)
  {
    Text(kind, Some(ServerName), receiver, Some(content))
  }

  /** `new Message(type, "服务器")` for list payloads: empty content, no receiver. */
  function Listing(kind: Type): Message {
    Message(kind, Some(ServerName), None, Some(""), None, None, 0, None, None, None, None, None)
  }

  /** Where a message goes: through the presence registry to the channel of a named
      online user, or straight back on the requesting connection's own stream. */
  datatype Recipient = User(name: string) | Requester

  datatype Delivery = Delivery(to: Recipient, msg: Message)

  /** The deliveries of a read-only step, and whether it ended in an exception (the
      deliveries written before the exception stay written). */
  datatype Emit = Emit(out: seq<Delivery>, fault: bool)

  /** Exactly one reply on the requester's own stream. */
  function Reply(m: Message): seq<Delivery> {
    [Delivery(Requester, m)]
  }
}
