/** The records of the chat relay's two collections, `participants` and
    `messages`, and the raw request values the handlers build them from. */
module ChatTypes {

  datatype Option<+T> = None | Some(value: T)

  /** A field of a parsed JSON request body: absent, a string, or a value of
      some other JSON type (number, boolean, object, array, null). */
  datatype Field = Missing | Str(s: string) | NonString

  /** A document of the `participants` collection; `lastStatus` is the
      millisecond clock reading taken when the participant joined. */
  datatype Participant = Participant(name: string, lastStatus: int)

  /** A document of the `messages` collection; `kind` holds the document's
      `type` field and `time` the "HH:mm:ss" wall-clock text. */
  datatype Message = Message(from: string, to: string, text: string, kind: string, time: string)

  /** What GET /messages answers: the list of messages, or a status code. */
  datatype ReadResult = Found(list: seq<Message>) | Rejected(code: int)

  /** The broadcast recipient. */
  const Everyone: string := "Todos"
  /** Text of the status message appended when a participant joins. */
  const JoinText: string := "entra na sala..."
  const PublicKind: string := "message"
  const PrivateKind: string := "private_message"
  const StatusKind: string := "status"
  const MinNameLength: nat := 3

  const Created: int := 201
  const Conflict: int := 409
  const Unprocessable: int := 422

  /** The status message a successful join appends to the log. */
  function JoinNotice(name: string, time: string): Message
  {
    Message(name, Everyone, JoinText, StatusKind, time)
  }
}
