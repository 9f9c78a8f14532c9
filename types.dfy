/** Values shared by the chat server, its storage layer and the browser client. */
module Types {

  /** `None` stands for JavaScript's `undefined` or `null`, or for a property an object does not have. */
  datatype Option<T> = None | Some(value: T)

  /** A room's identifier: the string form of its `_id` in the `chatrooms` collection. */
  type RoomId = string

  /** One chat line `{username, text}`; the server sends `username: null` once the sender's session is gone. */
  datatype Message = Message(username: Option<string>, text: string)

  /** A persisted block of messages `{room_id, timestamp, messages}`; `timestamp` is in epoch milliseconds. */
  datatype Conversation = Conversation(roomId: RoomId, timestamp: int, messages: seq<Message>)

  /** One entry of the `GET /chat` answer: a stored room and its current buffer (`None` when the server has none). */
  datatype RoomListing = RoomListing(id: RoomId, name: Option<string>, image: Option<string>, messages: Option<seq<Message>>)
}
