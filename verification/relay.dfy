/** The relay's request handlers. Each handler is one atomic step from a store
    and a request to a new store and the emissions it makes; every call the
    handler makes into the store takes its `Outcome` as a parameter. */
module Relay {
  import opened Tables
  import opened Protocol

  datatype Step = Step(store: Store, emissions: seq<Emission>)

  /** `createUser`: reject an email already in use, otherwise add the row.
      Every outcome is reported to the room named by the requested id. */
  function Register(s: Store, d: RegistrationDetails, lookup: Outcome, create: Outcome): (r: Step)
    ensures r.store.messages == s.messages
    ensures r.store.users == s.users || r.store.users == s.users + [User(d.id, d.email, d.password)]
    ensures r.store.users != s.users <==> lookup == Ok && !EmailTaken(s.users, d.email) && create == Ok
    ensures UniqueEmails(s.users) ==> UniqueEmails(r.store.users)
    ensures |r.emissions| == 1 && r.emissions[0].target == Room(Given(d.id))
    ensures r.emissions[0].event == RegistrationSuccess <==> r.store.users != s.users
    ensures r.store.users != s.users ==> r.emissions[0].payload == NoPayload
    ensures lookup == Fail ==> r.emissions[0] == Emission(Room(Given(d.id)), RegistrationError, Text(CheckUserErrorText))
    ensures lookup == Ok && EmailTaken(s.users, d.email) ==>
              r.emissions[0] == Emission(Room(Given(d.id)), RegistrationError, Text(DuplicateEmailText))
    ensures lookup == Ok && !EmailTaken(s.users, d.email) && create == Fail ==>
              r.emissions[0] == Emission(Room(Given(d.id)), RegistrationError, Text(CreateUserErrorText))
  {
    var room := Room(Given(d.id));
    if lookup == Fail then
      Step(s, [Emission(room, RegistrationError, Text(CheckUserErrorText))])
    else if FindOne(s.users, ByEmail(d.email)).Some? then
      Step(s, [Emission(room, RegistrationError, Text(DuplicateEmailText))])
    else if create == Fail then
      Step(s, [Emission(room, RegistrationError, Text(CreateUserErrorText))])
    else
      var users' := s.users + [User(d.id, d.email, d.password)];
      assert forall i :: 0 <= i < |s.users| ==> users'[i] == s.users[i];
      assert forall u :: u in s.users ==> !Satisfies(u, ByEmail(d.email));
      assert |users'| != |s.users|;
      assert lookup == Ok;
      assert create == Ok;
      Step(Store(users', s.messages), [Emission(room, RegistrationSuccess, NoPayload)])
  }

  /** `authenticateUser`: look the user up by exact email and password. A match
      is announced to the matched user's room and to the requesting socket; a
      miss or a store failure goes to the room named by the login payload. */
  function Login(s: Store, d: LoginDetails, lookup: Outcome): (r: Step)
    ensures r.store == s
    ensures lookup == Ok && HasCredentials(s.users, d.email, d.password) ==>
              && |r.emissions| == 2
              && r.emissions[1] == Emission(Requester, LoginSuccess, NoPayload)
              && exists u :: && u in s.users && u.UserEmail == d.email && u.UserPassword == d.password
                             && r.emissions[0] == Emission(Room(Given(u.UserId)), LoginSuccess, NoPayload)
    ensures lookup == Ok && !HasCredentials(s.users, d.email, d.password) ==>
              r.emissions == [Emission(Room(d.id), LoginError, Text(InvalidCredentialsText))]
    ensures lookup == Fail ==>
              r.emissions == [Emission(Room(d.id), LoginError, Text(LoginFailureText))]
  {
    if lookup == Fail then
      Step(s, [Emission(Room(d.id), LoginError, Text(LoginFailureText))])
    else
      match FindOne(s.users, ByCredentials(d.email, d.password))
      case Some(u) =>
        Step(s, [Emission(Room(Given(u.UserId)), LoginSuccess, NoPayload),
                 Emission(Requester, LoginSuccess, NoPayload)])
      case None =>
        Step(s, [Emission(Room(d.id), LoginError, Text(InvalidCredentialsText))])
  }

  /** The row `createMessage` asks the store to insert: built from the
      lower-case fields of the payload. */
  function PersistedRow(m: ChatMessage): Message {
    Message(m.messageId, m.senderId, m.receiverId, m.message)
  }

  /** The `send-message` handler: ask the store to append the row, then emit
      the capitalised `Message` field to the room named by the capitalised
      `ReceiverId` field, whatever the store did. A failed append is only
      logged: the sender hears nothing either way. */
  function Send(s: Store, m: ChatMessage, create: Outcome): (r: Step)
    ensures r.store.users == s.users
    ensures create == Ok ==> r.store.messages == s.messages + [Message(m.messageId, m.senderId, m.receiverId, m.message)]
    ensures create == Fail ==> r.store == s
    ensures r.emissions == [Emission(Room(m.ReceiverId), ReceivedMessage, FieldPayload(m.Message))]
  {
    var s' := if create == Ok then Store(s.users, s.messages + [PersistedRow(m)]) else s;
    Step(s', [Emission(Room(m.ReceiverId), ReceivedMessage, FieldPayload(m.Message))])
  }

  /** The `retrieve-messages` handler: both directions of the conversation,
      sent back to the requesting socket only. */
  function History(s: Store, sender: string, receiver: string, query: Outcome): (r: Step)
    ensures r.store == s
    ensures |r.emissions| == 1 && r.emissions[0].target == Requester
    ensures query == Ok ==>
              && r.emissions[0].event == RetrievedMessages
              && r.emissions[0].payload.MessageList?
              && forall m :: multiset(r.emissions[0].payload.messages)[m]
                             == if Between(m, sender, receiver) then multiset(s.messages)[m] else 0
    ensures query == Fail ==> r.emissions[0] == Emission(Requester, RetrieveMessagesError, Text(RetrievalErrorText))
  {
    if query == Fail then
      Step(s, [Emission(Requester, RetrieveMessagesError, Text(RetrievalErrorText))])
    else
      ConversationCounts(s.messages, sender, receiver);
      Step(s, [Emission(Requester, RetrievedMessages, MessageList(Conversation(s.messages, sender, receiver)))])
  }

  /** On connection: the process-wide instance identifier, then, once the
      store handshake and the directory query both succeed, every user row.
      A failure there is only logged. */
  function Connect(s: Store, instanceId: string, authenticate: Outcome, findAll: Outcome): (r: Step)
    ensures r.store == s
    ensures 1 <= |r.emissions| <= 2
    ensures r.emissions[0] == Emission(Requester, SendUuid, Text(instanceId))
    ensures |r.emissions| == 2 <==> authenticate == Ok && findAll == Ok
    ensures |r.emissions| == 2 ==> r.emissions[1] == Emission(Requester, SendAllUsers, UserList(s.users))
  {
    var uuid := Emission(Requester, SendUuid, Text(instanceId));
    if authenticate == Ok && findAll == Ok then
      Step(s, [uuid, Emission(Requester, SendAllUsers, UserList(s.users))])
    else
      Step(s, [uuid])
  }

  /** With unique emails, a successful login is announced to the room of the
      one user owning those credentials. */
  lemma LoginAddressesAccountOwner(s: Store, d: LoginDetails, u: User)
    requires UniqueEmails(s.users)
    requires u in s.users && u.UserEmail == d.email && u.UserPassword == d.password
    ensures Login(s, d, Ok).emissions
              == [Emission(Room(Given(u.UserId)), LoginSuccess, NoPayload),
                  Emission(Requester, LoginSuccess, NoPayload)]
  {
    var found := FindOne(s.users, ByCredentials(d.email, d.password));
    assert Satisfies(u, ByCredentials(d.email, d.password));
    SameEmailSameUser(s.users, found.value, u);
  }

  /** Delivery of a sent message does not depend on whether the row was stored. */
  lemma DeliveryIgnoresPersistence(s: Store, m: ChatMessage)
    ensures Send(s, m, Ok).emissions == Send(s, m, Fail).emissions
    ensures forall e :: e in Send(s, m, Ok).emissions ==> e.target != Requester
  {
  }

  /** The delivery room comes from `ReceiverId`, not from the `receiverId` the
      row is stored under: a payload that carries only the lower-case fields is
      stored for its receiver but emitted to the room of an absent id. */
  lemma DeliveryAddressIsNotStoredReceiver(s: Store, m: ChatMessage)
    requires m.ReceiverId == Missing && m.Message == Missing
    ensures Send(s, m, Ok).store.messages[|s.messages|].ReceiverId == m.receiverId
    ensures Send(s, m, Ok).emissions == [Emission(Room(Missing), ReceivedMessage, Undefined)]
  {
  }

  /** History is symmetric in its two participants: same emissions either way round. */
  lemma HistorySymmetric(s: Store, a: string, b: string, query: Outcome)
    ensures History(s, a, b, query) == History(s, b, a, query)
  {
    ConversationSymmetric(s.messages, a, b);
  }

  /** Appending rows that all belong to a conversation extends its history by
      exactly those rows, in the order they were appended. */
  lemma HistoryAfterAppend(s: Store, t: Store, rows: seq<Message>, a: string, b: string)
    requires t.messages == s.messages + rows
    requires forall i :: 0 <= i < |rows| ==> Between(rows[i], a, b)
    ensures History(t, a, b, Ok).emissions
              == [Emission(Requester, RetrievedMessages, MessageList(Conversation(s.messages, a, b) + rows))]
  {
    ConversationAppend(s.messages, rows, a, b);
    ConversationKeepsPairRows(rows, a, b);
  }

  /** After a stored send, history for the message's pair is the old history
      with the new row appended at the end. */
  lemma HistoryAfterSend(s: Store, m: ChatMessage, a: string, b: string)
    requires Between(PersistedRow(m), a, b)
    ensures History(Send(s, m, Ok).store, a, b, Ok).emissions
              == [Emission(Requester, RetrievedMessages,
                           MessageList(Conversation(s.messages, a, b) + [PersistedRow(m)]))]
  {
    ConversationAppend(s.messages, [PersistedRow(m)], a, b);
    assert Conversation([PersistedRow(m)], a, b) == [PersistedRow(m)];
  }

  /** The inbound events, as a closed set of variants. */
  datatype Request =
    | Connection
    | SendRegistrationData(details: RegistrationDetails)
    | SendLoginData(login: LoginDetails)
    | SendMessage(message: ChatMessage)
    | RetrieveMessages(sender: string, receiver: string)

  /** One request together with the outcomes of the (at most two) store calls
      its handler makes, in the order it makes them. */
  datatype Turn = Turn(request: Request, first: Outcome, second: Outcome)

  /** The dispatcher: route one request to its handler. */
  function Handle(instanceId: string, s: Store, t: Turn): Step {
    match t.request
    case Connection => Connect(s, instanceId, t.first, t.second)
    case SendRegistrationData(d) => Register(s, d, t.first, t.second)
    case SendLoginData(d) => Login(s, d, t.first)
    case SendMessage(m) => Send(s, m, t.first)
    case RetrieveMessages(a, b) => History(s, a, b, t.first)
  }

  /** One dispatched request keeps emails unique, only appends rows, changes
      Users only on registration and Messages only on send, and hands out only
      this process's identifier. */
  lemma HandleInvariant(instanceId: string, s: Store, t: Turn)
    ensures var r := Handle(instanceId, s, t);
            && (UniqueEmails(s.users) ==> UniqueEmails(r.store.users))
            && s.users <= r.store.users && s.messages <= r.store.messages
            && (!t.request.SendRegistrationData? ==> r.store.users == s.users)
            && (!t.request.SendMessage? ==> r.store.messages == s.messages)
            && forall e :: e in r.emissions && e.event == SendUuid ==> e.payload == Text(instanceId)
  {
  }

  /** A sequence of requests handled one after another, each atomically. */
  function Run(instanceId: string, s: Store, turns: seq<Turn>): (r: Step)
    decreases |turns|
  {
    if |turns| == 0 then Step(s, [])
    else
      var first := Handle(instanceId, s, turns[0]);
      var rest := Run(instanceId, first.store, turns[1..]);
      Step(rest.store, first.emissions + rest.emissions)
  }

  /** Over any run, from any store: rows are only ever appended, and every
      connection is handed the same instance identifier. */
  lemma {:induction false} RunGrowth(instanceId: string, s: Store, turns: seq<Turn>)
    ensures s.users <= Run(instanceId, s, turns).store.users
    ensures s.messages <= Run(instanceId, s, turns).store.messages
    ensures forall e :: e in Run(instanceId, s, turns).emissions && e.event == SendUuid ==>
              e.payload == Text(instanceId)
    decreases |turns|
  {
    if |turns| > 0 {
      var first := Handle(instanceId, s, turns[0]);
      HandleInvariant(instanceId, s, turns[0]);
      RunGrowth(instanceId, first.store, turns[1..]);
    }
  }

  /** Over any run from a Users table with unique emails, emails stay unique. */
  lemma {:induction false} RunInvariant(instanceId: string, s: Store, turns: seq<Turn>)
    requires UniqueEmails(s.users)
    ensures UniqueEmails(Run(instanceId, s, turns).store.users)
    decreases |turns|
  {
    if |turns| > 0 {
      var first := Handle(instanceId, s, turns[0]);
      HandleInvariant(instanceId, s, turns[0]);
      RunInvariant(instanceId, first.store, turns[1..]);
    }
  }
}
