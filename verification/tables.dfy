/** The relay's persistent store: the Users and Messages tables, held as
    sequences in the store's native (insertion) order, and the three queries
    the relay issues against them. */
module Tables {

  datatype Option<+T> = None | Some(value: T)

  /** A row of the Users table. The password is kept verbatim. */
  datatype User = User(UserId: string, UserEmail: string, UserPassword: string)

  /** A row of the Messages table. */
  datatype Message = Message(MessageId: string, SenderId: string, ReceiverId: string, Message: string)

  datatype Store = Store(users: seq<User>, messages: seq<Message>)

  /** What one call into the store did: it completed, or it raised. */
  datatype Outcome = Ok | Fail

  /** The `where` clauses the relay passes to `User.findOne`. */
  datatype UserQuery =
    | ByEmail(email: string)
    | ByCredentials(email: string, password: string)

  predicate Satisfies(u: User, q: UserQuery) {
    match q
    case ByEmail(e) => u.UserEmail == e
    case ByCredentials(e, p) => u.UserEmail == e && u.UserPassword == p
  }

  /** Some stored user already uses this email. */
  predicate EmailTaken(users: seq<User>, email: string) {
    exists u :: u in users && u.UserEmail == email
  }

  /** Some stored user has exactly this email and this password. */
  predicate HasCredentials(users: seq<User>, email: string, password: string) {
    exists u :: u in users && u.UserEmail == email && u.UserPassword == password
  }

  /** The Users table invariant: no two rows share an email. */
  predicate UniqueEmails(users: seq<User>) {
    forall i, j :: 0 <= i < j < |users| ==> users[i].UserEmail != users[j].UserEmail
  }

  /** `User.findOne`: the first row, in store order, matching the query. */
  function FindOne(users: seq<User>, q: UserQuery): (r: Option<User>)
    ensures r.Some? <==> exists u :: u in users && Satisfies(u, q)
    ensures r.Some? ==> r.value in users && Satisfies(r.value, q)
    ensures r.Some? ==> exists i :: 0 <= i < |users| && users[i] == r.value
                                    && forall j :: 0 <= j < i ==> !Satisfies(users[j], q)
    decreases |users|
  {
    if |users| == 0 then None
    else if Satisfies(users[0], q) then Some(users[0])
    else
      var r := FindOne(users[1..], q);
      assert forall u :: u in users && u != users[0] ==> u in users[1..];
      if r.Some? then
        var k :| 0 <= k < |users[1..]| && users[1..][k] == r.value
                 && forall j :: 0 <= j < k ==> !Satisfies(users[1..][j], q);
        assert users[k + 1] == r.value;
        assert forall j :: 0 <= j < k + 1 ==> !Satisfies(users[j], q) by {
          forall j | 0 <= j < k + 1 ensures !Satisfies(users[j], q) {
            if j > 0 { assert users[j] == users[1..][j - 1]; }
          }
        }
        r
      else r
  }

  /** Two rows of a table with unique emails that share an email are the same row. */
  lemma SameEmailSameUser(users: seq<User>, u: User, v: User)
    requires UniqueEmails(users)
    requires u in users && v in users
    requires u.UserEmail == v.UserEmail
    ensures u == v
  {
    var i :| 0 <= i < |users| && users[i] == u;
    var j :| 0 <= j < |users| && users[j] == v;
    assert i == j;
  }

  /** The message belongs to the conversation between `a` and `b`, in either direction. */
  predicate Between(m: Message, a: string, b: string) {
    (m.SenderId == a && m.ReceiverId == b) || (m.SenderId == b && m.ReceiverId == a)
  }

  /** `Message.findAll` with the two-direction `Op.or` filter: the messages of
      the conversation, in store order. */
  function Conversation(msgs: seq<Message>, a: string, b: string): seq<Message>
    decreases |msgs|
  {
    if |msgs| == 0 then []
    else (if Between(msgs[0], a, b) then [msgs[0]] else []) + Conversation(msgs[1..], a, b)
  }

  /** The conversation holds every stored message between the pair, as often
      as it is stored, and nothing else. */
  lemma {:induction false} ConversationCounts(msgs: seq<Message>, a: string, b: string)
    ensures forall m :: multiset(Conversation(msgs, a, b))[m]
                        == if Between(m, a, b) then multiset(msgs)[m] else 0
    decreases |msgs|
  {
    if |msgs| > 0 {
      ConversationCounts(msgs[1..], a, b);
      assert msgs == [msgs[0]] + msgs[1..];
    }
  }

  /** A stored message is in the conversation result exactly when it is between the pair. */
  lemma ConversationMembership(msgs: seq<Message>, a: string, b: string, m: Message)
    ensures m in Conversation(msgs, a, b) <==> m in msgs && Between(m, a, b)
  {
    var r := Conversation(msgs, a, b);
    ConversationCounts(msgs, a, b);
    assert m in r <==> multiset(r)[m] > 0;
    assert m in msgs <==> multiset(msgs)[m] > 0;
  }

  /** The conversation between `a` and `b` is the conversation between `b` and `a`,
      element for element and in the same order. */
  lemma {:induction false} ConversationSymmetric(msgs: seq<Message>, a: string, b: string)
    ensures Conversation(msgs, a, b) == Conversation(msgs, b, a)
    decreases |msgs|
  {
    if |msgs| > 0 {
      ConversationSymmetric(msgs[1..], a, b);
    }
  }

  /** Rows that all belong to the conversation are all returned, in order. */
  lemma {:induction false} ConversationKeepsPairRows(msgs: seq<Message>, a: string, b: string)
    requires forall i :: 0 <= i < |msgs| ==> Between(msgs[i], a, b)
    ensures Conversation(msgs, a, b) == msgs
    decreases |msgs|
  {
    if |msgs| > 0 {
      ConversationKeepsPairRows(msgs[1..], a, b);
      assert msgs == [msgs[0]] + msgs[1..];
    }
  }

  /** The query distributes over appending rows: rows stored later come later. */
  lemma {:induction false} ConversationAppend(xs: seq<Message>, ys: seq<Message>, a: string, b: string)
    ensures Conversation(xs + ys, a, b) == Conversation(xs, a, b) + Conversation(ys, a, b)
    decreases |xs|
  {
    if |xs| > 0 {
      assert (xs + ys)[1..] == xs[1..] + ys;
      ConversationAppend(xs[1..], ys, a, b);
    } else {
      assert xs + ys == ys;
    }
  }
}
