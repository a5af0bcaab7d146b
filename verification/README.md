# chitchat relay — a Dafny model

This project models the request handling of the chitchat relay server
(`server-side/server.js`): a socket.io server that lets clients register,
log in, send direct messages and read a conversation's history, backed by a
Sequelize store with a Users table and a Messages table.

The model is functional. The store is an immutable value holding two
sequences, `users` and `messages`. No query of the relay gives an `order`,
so the store promises none; the model assumes rows come back in insertion
order, which is sequence order here.
Each handler is a pure function from the store, the request payload and the
outcome of every store call it makes (`Ok` or `Fail`, passed in) to a
`Step`: the new store and the list of emissions. An emission is
`(target, event, payload)`. The target is either the requesting socket
(`socket.emit`) or a room (`io.to(x).emit`), and rooms are opaque addresses.

- `tables.dfy`, module `Tables`: the two row types, the store, the
  `findOne` and `findAll` queries the relay issues, and the unique-email
  invariant of the Users table.
- `protocol.dfy`, module `Protocol`: outbound event names and their wire
  strings, payloads, targets, the fixed error strings, and inbound payloads.
  A payload field that the client may omit is a `Field` (`Missing` plays
  JavaScript's `undefined`).
- `relay.dfy`, module `Relay`: the handlers `Register`, `Login`, `Send`,
  `History` and `Connect`, the dispatcher `Handle` over a closed `Request`
  type, `Run` over a sequence of requests, and the lemmas relating them.
- `scenarios.dfy`, module `Scenarios`: multi-request behaviour. It covers a
  duplicate registration, a login after registration, a wrong password, a
  three-message conversation read from both sides, and a register /
  duplicate / login exchange dispatched request by request.

The source's quirks are kept. `send-message` persists a row built from the
lower-case `receiverId` and `message` fields, but delivers the capitalised
`message.Message` field to the room named by the capitalised
`message.ReceiverId` field (`server-side/server.js:42`). These are separate
fields of the payload and separate fields of `ChatMessage`. A failed login
is addressed to `loginDetails.id`, which the login payload need not carry.

Behaviour of `server.js` that the model keeps:
- `createMessage` is not awaited. The `received-message` emission therefore
  does not wait for, and does not depend on, the row being stored. The model
  makes the two a single step in which the emission ignores the store outcome.
- Registration has two distinct failure strings: one for a failed lookup and
  one for a failed create. A failed login lookup sends `"An error occurred"`.
- Registration and login failures are addressed to the room named by the
  request's `id`, not to the requesting socket.
- No `order` is given to the history query (server-side/server.js:47-60).
  The model returns rows in sequence order.

## Model

| member | source | states |
|---|---|---|
| Tables.FindOne | server-side/server.js:81-86 | `findOne` finds a row exactly when some stored row matches the where clause; the row it returns is stored, matches, and no earlier row matches |
| Tables.Conversation | server-side/server.js:47-60 | `Message.findAll` with the two-direction `Op.or` filter; what it returns is stated by Tables.ConversationCounts (contents) and Tables.ConversationAppend (order) |
| Tables.ConversationCounts | server-side/server.js:47-60 | the history query returns every stored message between the pair, in either direction, as many times as it is stored, and nothing else |
| Tables.ConversationMembership | server-side/server.js:47-60 | a message is in the result iff it is stored and its (SenderId, ReceiverId) is (a, b) or (b, a) |
| Tables.ConversationSymmetric | server-side/server.js:47-60 | querying (a, b) and (b, a) gives the same sequence, in the same order |
| Tables.ConversationKeepsPairRows | server-side/server.js:47-60 | rows that all belong to the conversation are returned unchanged and in order |
| Tables.ConversationAppend | server-side/server.js:47-60 | rows stored later are returned later: the query distributes over appending rows |
| Tables.SameEmailSameUser | server-side/server.js:143-153 | in a Users table with unique emails, two rows with the same email are the same row |
| Relay.Register | server-side/server.js:140-181 | a taken email gives "User with this email already exists" and no change; otherwise, with both store calls succeeding, exactly the row (id, email, password) is appended and `registration-success` is sent; a failed lookup or create sends its own error string and adds nothing; Messages are untouched; every outcome goes to room `id`; unique emails are preserved |
| Relay.Login | server-side/server.js:78-105 | the store never changes; success iff some user has exactly this email and password, and success goes to that user's room and to the requesting socket; otherwise one `login-error` to room `loginDetails.id`, "Invalid credentials" on a miss and "An error occurred" on a store failure |
| Relay.Send | server-side/server.js:38-43 | the row built from the lower-case fields is appended when the create succeeds and nothing changes when it fails; in both cases exactly one `received-message` carrying `message.Message` goes to room `message.ReceiverId`, and nothing goes to the sender |
| Relay.History | server-side/server.js:45-76 | the store never changes; exactly one emission, to the requesting socket: the conversation's messages, or "An error occurred while retrieving messages" on a store failure |
| Relay.Connect | server-side/server.js:111-125 | every connection first receives `send-uuid` with the instance identifier; `send-allUsers` with the whole Users table follows iff the handshake and the query both succeed; the store never changes |
| Relay.LoginAddressesAccountOwner | server-side/server.js:87-91 | with unique emails, a login with a stored user's credentials sends `login-success` to that user's room and then to the requesting socket |
| Relay.DeliveryIgnoresPersistence | server-side/server.js:183-196 | the emissions of a send are the same whether the create succeeds or fails, and none of them goes to the sender |
| Relay.DeliveryAddressIsNotStoredReceiver | server-side/server.js:183-189 | a payload carrying only the lower-case fields is stored under its `receiverId` but delivered as `undefined` to the room of an absent `ReceiverId` |
| Relay.HistorySymmetric | server-side/server.js:47-60 | history for (a, b) and for (b, a) produce the same emissions |
| Relay.HistoryAfterAppend | server-side/server.js:47-68 | appending rows of a conversation extends its history by exactly those rows, in append order |
| Relay.HistoryAfterSend | server-side/server.js:38-68 | after a stored send, the history for the message's pair is the old history followed by the new row |
| Relay.Handle | server-side/server.js:23-45 | the `socket.on` dispatch of each inbound event to its handler; its properties are stated by Relay.HandleInvariant |
| Relay.HandleInvariant | server-side/server.js:23-45 | one dispatched request preserves unique emails, only appends rows, changes Users only on registration and Messages only on send, and hands out only this process's identifier |
| Relay.Run | server-side/server.js:23-45 | successive inbound events, each handled atomically in turn; its properties are stated by Relay.RunGrowth and Relay.RunInvariant |
| Relay.RunGrowth | server-side/server.js:20-26 | over any sequence of requests from any store, both tables only grow by appending, and every `send-uuid` carries the same process-wide identifier |
| Relay.RunInvariant | server-side/server.js:143-159 | over any sequence of requests from a store with unique emails, emails stay unique |
| Scenarios.DuplicateEmailRejected | server-side/server.js:143-153 | after a successful registration, a second one with the same email gets the duplicate-email error and leaves the store, including the first row, unchanged |
| Scenarios.LoginAfterRegistration | server-side/server.js:155-162 | after registering (id, email, password), logging in with that email and password sends `login-success` to room `id` and to the requesting socket |
| Scenarios.WrongPasswordRejected | server-side/server.js:96-99 | a registered email with a wrong password gets "Invalid credentials" addressed to the payload's id, and the store is unchanged |
| Scenarios.ThreeMessageConversation | server-side/server.js:47-68 | after stored sends A to B, B to A, A to B, the history for (A, B) ends with exactly those three rows in send order, and the history for (B, A) is identical |
| Scenarios.RegisterDuplicateLogin | server-side/server.js:140-162 | register, register the same email again, then log in with the first credentials, each dispatched in turn: success to the first id's room, the duplicate-email error to the second id's room, `login-success` to the first user's room and to the requesting socket; Users gains exactly the first row |
| Scenarios.ClientExchange | server-side/server.js:140-162 | the same exchange with client 1 as u1 / a@x.com / p: `registration-success` to room u1, "User with this email already exists" to client 2's room, and `login-success` to room u1 and back to client 1 |

## Left out

- Express static file serving, HTTP server creation and `listen` on port 5000 (server-side/server.js:12-13, 198-204). These are transport and bootstrap I/O.
- socket.io internals: CORS, how sockets join rooms, and what a room delivers to. A room is an opaque address in the emission record. Session admission and removal on disconnect are left out for the same reason.
- The `login-success` listener registered on success (server-side/server.js:93-95). It only logs.
- Sequelize internals: query execution, `authenticate` and `sync` at startup (server-side/server.js:128-138). Primary-key and unique constraints are not enforced by the model. A create that the store would reject shows up as that call's `Fail` outcome.
- Concurrency: each handler is one atomic step. Interleavings are not modelled. This includes the non-atomic check-then-create in registration and the unawaited message create.
- The randomness of the instance identifier (server-side/server.js:20). It is a fixed parameter.
- All `console.log` / `console.error` output.
- Identifier and text values are strings. JavaScript numbers or other values in those fields are not modelled. Registration, send and history inputs are taken as present. Only the login payload's `id` and the send payload's `ReceiverId` and `Message` may be absent.
- Relay.History: its contract fixes the returned rows as a multiset. Their order is stated separately, by Tables.ConversationAppend and Relay.HistoryAfterAppend.
