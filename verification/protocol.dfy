/** The relay's wire protocol: the outbound event names, their payloads, the
    addresses an emission can go to, and the inbound request payloads. The
    event table is a closed datatype rather than a string-keyed map. */
module Protocol {
  import opened Tables

  /** A payload field the client may leave out (JavaScript `undefined`). */
  datatype Field = Missing | Given(value: string)

  /** Where an emission goes: straight back to the socket that sent the request
      (`socket.emit`), or to every socket in a room (`io.to(x).emit`). A room
      is an opaque address; sockets in no room simply receive nothing. */
  datatype Target = Requester | Room(id: Field)

  datatype EventName =
    | SendUuid
    | SendAllUsers
    | RegistrationSuccess
    | RegistrationError
    | LoginSuccess
    | LoginError
    | ReceivedMessage
    | RetrievedMessages
    | RetrieveMessagesError

  /** The event name as it travels over the socket: a record of the literal
      event strings emitted at server-side/server.js lines 26, 42, 68, 72, 90,
      98, 119, 150 and 162. The model itself works with `EventName`. */
  function WireName(e: EventName): string {
    match e
    case SendUuid => "send-uuid"
    case SendAllUsers => "send-allUsers"
    case RegistrationSuccess => "registration-success"
    case RegistrationError => "registration-error"
    case LoginSuccess => "login-success"
    case LoginError => "login-error"
    case ReceivedMessage => "received-message"
    case RetrievedMessages => "retrieved-messages"
    case RetrieveMessagesError => "retrieve-messages-error"
  }

  datatype Payload =
    | NoPayload
    | Undefined
    | Text(text: string)
    | UserList(users: seq<User>)
    | MessageList(messages: seq<Message>)

  /** Emitting a field as a payload: an omitted field travels as `undefined`. */
  function FieldPayload(f: Field): Payload {
    match f
    case Missing => Undefined
    case Given(s) => Text(s)
  }

  datatype Emission = Emission(target: Target, event: EventName, payload: Payload)

  // The error strings the relay sends, verbatim.
  const DuplicateEmailText := "User with this email already exists"
  const CheckUserErrorText := "An error occurred while checking existing user"
  const CreateUserErrorText := "An error occurred while creating the user"
  const InvalidCredentialsText := "Invalid credentials"
  const LoginFailureText := "An error occurred"
  const RetrievalErrorText := "An error occurred while retrieving messages"

  /** Payload of `send-registration-data`. */
  datatype RegistrationDetails = RegistrationDetails(id: string, email: string, password: string)

  /** Payload of `send-login-data`; `id` is read only to address a failure. */
  datatype LoginDetails = LoginDetails(email: string, password: string, id: Field)

  /** Payload of `send-message`. The row is built from the lower-case fields;
      delivery reads the capitalised `ReceiverId` and `Message`, which are
      separate fields of the same object and may be absent. */
  datatype ChatMessage = ChatMessage(
    senderId: string,
    receiverId: string,
    message: string,
    messageId: string,
    ReceiverId: Field,
    Message: Field)
}
