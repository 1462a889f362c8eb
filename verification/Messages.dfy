/** Chat messages and the system notices the server writes itself (backend/message.go, backend/hub.go). */
module Messages {
  import opened Text
  import opened Clock

  datatype Message = Message(
    id: int, userID: string, username: string, content: string, kind: string, room: string, timestamp: Timestamp)

  /** What a successful insert returns. */
  datatype Saved = Saved(id: int, timestamp: Timestamp)

  /** A failed save leaves the message's own id and time in place, and the message goes on. */
  function WithSaved(m: Message, saved: Option<Saved>): Message
  {
    if saved.Some? then m.(id := saved.value.id, timestamp := saved.value.timestamp) else m
  }

  const CHAT := "message"
  const NOTIFICATION := "notification"
  const SYSTEM := "System"
  const ANONYMOUS := "Anonymous"

  function Notice(room: string, content: string): Message
  {
    Message(0, "", SYSTEM, content, NOTIFICATION, room, ZERO)
  }

  function JoinNotice(room: string, username: string): Message
  {
    Notice(room, username + " joined the chat")
  }

  function LeaveNotice(room: string, username: string): Message
  {
    Notice(room, username + " left the chat")
  }

  function WelcomeNotice(room: string): Message
  {
    Notice(room, "Welcome to the chat! You can see the last 50 messages.")
  }

  function RateLimitNotice(room: string): Message
  {
    Notice(room, "You are sending messages too quickly. Please slow down.")
  }

  /** What the server's own messages say. */
  lemma NoticeFields(room: string, name: string)
    ensures JoinNotice(room, name) == Message(0, "", "System", name + " joined the chat", "notification", room, ZERO)
    ensures LeaveNotice(room, name) == Message(0, "", "System", name + " left the chat", "notification", room, ZERO)
    ensures WelcomeNotice(room)
         == Message(0, "", "System", "Welcome to the chat! You can see the last 50 messages.", "notification", room, ZERO)
    ensures RateLimitNotice(room)
         == Message(0, "", "System", "You are sending messages too quickly. Please slow down.", "notification", room, ZERO)
  {
  }
}
