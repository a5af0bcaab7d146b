/** End-to-end behaviour of the relay across several requests: registration
    followed by a duplicate or a login, a rejected password, and a
    three-message conversation read back from both sides. */
module Scenarios {
  import opened Tables
  import opened Protocol
  import opened Relay

  /** A second registration with an email that the first one just stored is
      refused as a duplicate, and the first row stays as it was. */
  lemma DuplicateEmailRejected(s: Store, first: RegistrationDetails, second: RegistrationDetails, create: Outcome)
    requires !EmailTaken(s.users, first.email)
    requires second.email == first.email
    ensures Register(s, first, Ok, Ok).store.users == s.users + [User(first.id, first.email, first.password)]
    ensures var s1 := Register(s, first, Ok, Ok).store;
            Register(s1, second, Ok, create)
              == Step(s1, [Emission(Room(Given(second.id)), RegistrationError, Text(DuplicateEmailText))])
  {
    var s1 := Register(s, first, Ok, Ok).store;
    assert s1.users[|s.users|] == User(first.id, first.email, first.password);
  }

  /** Logging in with the credentials just registered announces success to the
      room named by the registered id and to the requesting socket. */
  lemma LoginAfterRegistration(s: Store, d: RegistrationDetails, replyTo: Field)
    requires !EmailTaken(s.users, d.email)
    ensures var s1 := Register(s, d, Ok, Ok).store;
            Login(s1, LoginDetails(d.email, d.password, replyTo), Ok).emissions
              == [Emission(Room(Given(d.id)), LoginSuccess, NoPayload),
                  Emission(Requester, LoginSuccess, NoPayload)]
  {
    var s1 := Register(s, d, Ok, Ok).store;
    var u := User(d.id, d.email, d.password);
    assert s1.users == s.users + [u];
    assert Satisfies(u, ByCredentials(d.email, d.password));
    var found := FindOne(s1.users, ByCredentials(d.email, d.password));
    assert found.value !in s.users;
    assert found.value == u;
  }

  /** A wrong password for a registered email is refused as invalid
      credentials, addressed to the payload's id, and changes nothing. */
  lemma WrongPasswordRejected(s: Store, d: LoginDetails, u: User)
    requires UniqueEmails(s.users)
    requires u in s.users && u.UserEmail == d.email && u.UserPassword != d.password
    ensures Login(s, d, Ok) == Step(s, [Emission(Room(d.id), LoginError, Text(InvalidCredentialsText))])
  {
    if HasCredentials(s.users, d.email, d.password) {
      var v :| v in s.users && v.UserEmail == d.email && v.UserPassword == d.password;
      SameEmailSameUser(s.users, u, v);
      assert false;
    }
  }

  /** Messages A to B, B to A, A to B, all stored: history for (A, B) ends with
      exactly those three rows in send order, and history for (B, A) is the
      same emission. */
  lemma ThreeMessageConversation(s: Store, m1: ChatMessage, m2: ChatMessage, m3: ChatMessage)
    requires m1.senderId == m3.senderId && m1.receiverId == m3.receiverId
    requires m2.senderId == m1.receiverId && m2.receiverId == m1.senderId
    ensures var a, b := m1.senderId, m1.receiverId;
            var s3 := Send(Send(Send(s, m1, Ok).store, m2, Ok).store, m3, Ok).store;
            && History(s3, a, b, Ok).emissions
                 == [Emission(Requester, RetrievedMessages,
                              MessageList(Conversation(s.messages, a, b)
                                          + [PersistedRow(m1), PersistedRow(m2), PersistedRow(m3)]))]
            && History(s3, b, a, Ok) == History(s3, a, b, Ok)
  {
    var a, b := m1.senderId, m1.receiverId;
    var rows := [PersistedRow(m1), PersistedRow(m2), PersistedRow(m3)];
    var s3 := Send(Send(Send(s, m1, Ok).store, m2, Ok).store, m3, Ok).store;
    assert s3.messages == s.messages + rows;
    HistoryAfterAppend(s, s3, rows, a, b);
    HistorySymmetric(s3, a, b, Ok);
  }

  /** Register, register the same email again, log in with the first
      credentials, each request dispatched in turn: the first registration
      succeeds, the second is refused as a duplicate, the login succeeds for
      the first user, and the Users table gains exactly the first row. */
  lemma RegisterDuplicateLogin(instanceId: string, s: Store, first: RegistrationDetails,
                               second: RegistrationDetails, replyTo: Field)
    requires !EmailTaken(s.users, first.email)
    requires second.email == first.email
    ensures var r0 := Handle(instanceId, s, Turn(SendRegistrationData(first), Ok, Ok));
            var r1 := Handle(instanceId, r0.store, Turn(SendRegistrationData(second), Ok, Ok));
            var r2 := Handle(instanceId, r1.store,
                             Turn(SendLoginData(LoginDetails(first.email, first.password, replyTo)), Ok, Ok));
            && r0.emissions + r1.emissions + r2.emissions
                 == [Emission(Room(Given(first.id)), RegistrationSuccess, NoPayload),
                     Emission(Room(Given(second.id)), RegistrationError, Text(DuplicateEmailText)),
                     Emission(Room(Given(first.id)), LoginSuccess, NoPayload),
                     Emission(Requester, LoginSuccess, NoPayload)]
            && r2.store == Store(s.users + [User(first.id, first.email, first.password)], s.messages)
  {
    var h0 := Register(s, first, Ok, Ok);
    var s1 := h0.store;
    assert h0.emissions == [Emission(Room(Given(first.id)), RegistrationSuccess, NoPayload)];
    assert Register(s1, second, Ok, Ok)
        == Step(s1, [Emission(Room(Given(second.id)), RegistrationError, Text(DuplicateEmailText))]) by {
      DuplicateEmailRejected(s, first, second, Ok);
    }
    assert Login(s1, LoginDetails(first.email, first.password, replyTo), Ok).emissions
        == [Emission(Room(Given(first.id)), LoginSuccess, NoPayload),
            Emission(Requester, LoginSuccess, NoPayload)] by {
      LoginAfterRegistration(s, first, replyTo);
    }
  }

  /** The concrete exchange: client 1 registers u1 / a@x.com / p, client 2
      tries the same email, then client 1 logs in. */
  lemma ClientExchange(instanceId: string, s: Store, otherId: string, otherPassword: string, replyTo: Field)
    requires !EmailTaken(s.users, "a@x.com")
    ensures var r0 := Handle(instanceId, s, Turn(SendRegistrationData(RegistrationDetails("u1", "a@x.com", "p")), Ok, Ok));
            var r1 := Handle(instanceId, r0.store,
                             Turn(SendRegistrationData(RegistrationDetails(otherId, "a@x.com", otherPassword)), Ok, Ok));
            var r2 := Handle(instanceId, r1.store, Turn(SendLoginData(LoginDetails("a@x.com", "p", replyTo)), Ok, Ok));
            r0.emissions + r1.emissions + r2.emissions
              == [Emission(Room(Given("u1")), RegistrationSuccess, NoPayload),
                  Emission(Room(Given(otherId)), RegistrationError, Text(DuplicateEmailText)),
                  Emission(Room(Given("u1")), LoginSuccess, NoPayload),
                  Emission(Requester, LoginSuccess, NoPayload)]
  {
    RegisterDuplicateLogin(instanceId, s, RegistrationDetails("u1", "a@x.com", "p"),
                           RegistrationDetails(otherId, "a@x.com", otherPassword), replyTo);
  }
}
