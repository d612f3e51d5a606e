/** The `chat` router over `chats`: an authenticated send that appends one
    message, and the conversation between two users in time order. */
module Chat {
  import opened Common
  import Sorting

  /** A row of `chats`. The table's random uuid is an id from a counter here. */
  datatype Message = Message(
    id: nat,
    senderId: UserId,
    receiverId: UserId,
    message: string,
    createdAt: int)

  /** `m` went from `u` to `o` or from `o` to `u`. */
  predicate Between(m: Message, u: UserId, o: UserId)
  {
    (m.senderId == u && m.receiverId == o) || (m.senderId == o && m.receiverId == u)
  }

  /** The messages between `u` and `o`, in table order. */
  function Conversation(rows: seq<Message>, u: UserId, o: UserId): seq<Message>
  {
    if rows == [] then []
    else
      var rest := Conversation(rows[..|rows| - 1], u, o);
      if Between(rows[|rows| - 1], u, o) then rest + [rows[|rows| - 1]] else rest
  }

  /** A conversation holds exactly the messages between the two users. */
  lemma {:induction false} ConversationExact(rows: seq<Message>, u: UserId, o: UserId)
    ensures forall m :: m in Conversation(rows, u, o) <==> m in rows && Between(m, u, o)
  {
    if rows != [] {
      var init := rows[..|rows| - 1];
      ConversationExact(init, u, o);
      assert rows == init + [rows[|rows| - 1]];
    }
  }

  /** Both participants see the same conversation. */
  lemma {:induction false} ConversationSymmetric(rows: seq<Message>, u: UserId, o: UserId)
    ensures Conversation(rows, u, o) == Conversation(rows, o, u)
  {
    if rows != [] {
      ConversationSymmetric(rows[..|rows| - 1], u, o);
    }
  }

  /** A message sent appears in the conversation of its two ends, after
      everything that was there before it. */
  lemma ConversationOfSent(rows: seq<Message>, m: Message)
    ensures Conversation(rows + [m], m.senderId, m.receiverId)
         == Conversation(rows, m.senderId, m.receiverId) + [m]
  {
    assert (rows + [m])[..|rows + [m]| - 1] == rows;
  }

  /** A message sent leaves every conversation it is not part of unchanged. */
  lemma ConversationOfOthers(rows: seq<Message>, m: Message, u: UserId, o: UserId)
    requires !Between(m, u, o)
    ensures Conversation(rows + [m], u, o) == Conversation(rows, u, o)
  {
    assert (rows + [m])[..|rows + [m]| - 1] == rows;
  }

  predicate OlderOrSame(x: Message, y: Message)
  {
    x.createdAt <= y.createdAt
  }

  /** The `chats` table. */
  class ChatTable {
    var rows: seq<Message>
    var nextId: nat

    /** Ids are issued from `nextId` and never repeat; no message is empty. */
    ghost predicate Valid()
      reads this
    {
      && (forall i :: 0 <= i < |rows| ==> rows[i].id < nextId)
      && (forall i, j :: 0 <= i < j < |rows| ==> rows[i].id != rows[j].id)
      && (forall i :: 0 <= i < |rows| ==> rows[i].message != [])
    }

    constructor ()
      ensures Valid() && rows == [] && nextId == 0
    {
      rows, nextId := [], 0;
    }

    /** `sendMessage`: the input schema refuses an empty message, the handler
        refuses an absent caller; otherwise one message from the caller to
        `receiverId` is appended, stamped `now`. */
    method SendMessage(caller: Option<UserId>, receiverId: UserId, message: string, now: int)
      returns (r: Result<()>)
      requires Valid()
      modifies this
      ensures Valid()
      ensures message == [] ==> r == Err(BadRequest)
      ensures message != [] && !LoggedIn(caller) ==> r == Err(Unauthorized)
      ensures r.Ok? <==> message != [] && LoggedIn(caller)
      ensures r.Err? ==> rows == old(rows) && nextId == old(nextId)
      ensures r.Ok? ==>
        rows == old(rows) + [Message(old(nextId), caller.value, receiverId, message, now)]
        && nextId == old(nextId) + 1
    {
      if message == [] {
        return Err(BadRequest);
      }
      if !LoggedIn(caller) {
        return Err(Unauthorized);
      }
      rows := rows + [Message(nextId, caller.value, receiverId, message, now)];
      nextId := nextId + 1;
      r := Ok(());
    }

    /** `getMessages`: refuses an absent caller; otherwise the messages
        between the caller and `other`, oldest first. */
    method GetMessages(caller: Option<UserId>, other: UserId) returns (r: Result<seq<Message>>)
      ensures !LoggedIn(caller) <==> r == Err(Unauthorized)
      ensures r.Ok? ==> multiset(r.value) == multiset(Conversation(rows, caller.value, other))
      ensures r.Ok? ==> forall m :: m in r.value <==> m in rows && Between(m, caller.value, other)
      ensures r.Ok? ==> forall i, j :: 0 <= i < j < |r.value| ==>
        r.value[i].createdAt <= r.value[j].createdAt
    {
      if !LoggedIn(caller) {
        return Err(Unauthorized);
      }
      var u := caller.value;
      var found: seq<Message> := [];
      var i := 0;
      while i < |rows|
        invariant 0 <= i <= |rows|
        invariant found == Conversation(rows[..i], u, other)
      {
        assert rows[..i + 1] == rows[..i] + [rows[i]];
        if Between(rows[i], u, other) {
          found := found + [rows[i]];
        }
        i := i + 1;
      }
      assert rows[..i] == rows;
      ConversationExact(rows, u, other);
      var a := new Message[|found|](k requires 0 <= k < |found| => found[k]);
      assert a[..] == found;
      Sorting.SortBy(a, OlderOrSame);
      Sorting.SortedIsSortedAll(a[..], OlderOrSame);
      assert forall m :: m in a[..] <==> m in multiset(found);
      r := Ok(a[..]);
    }
  }
}
