/** The chat store: conversations between users, optionally tied to a
    transaction or a product, each holding its ordered message log. The
    request handlers list, open, get-or-create and mark a conversation read;
    messages themselves arrive through the realtime channel, which is
    modelled here only as an append to the log. */
module Chats {
  import opened Common
  import Sorting

  datatype Message = Message(
    sender: Id,
    content: string,
    attachments: seq<Url>,
    read: bool,
    readAt: Option<Time>,
    createdAt: Time)

  datatype Chat = Chat(
    participants: seq<Id>,
    transaction: Option<Id>,
    product: Option<Id>,
    messages: seq<Message>,
    lastMessage: Time,
    typing: seq<Id>,
    createdAt: Time)

  type ChatStore = map<Id, Chat>

  /** A message as the schema admits it: the content is required (an empty
      string fails validation), the read flag starts false and the read date
      null, and the schema timestamps stamp its creation. */
  function NewMessage(sender: Id, content: string, attachments: seq<Url>, now: Time): (r: Option<Message>)
    ensures r.Some? <==> |content| > 0
    ensures r.Some? ==>
      && r.value.sender == sender && r.value.content == content && r.value.attachments == attachments
      && !r.value.read && r.value.readAt.None? && r.value.createdAt == now
  {
    if |content| == 0 then None else Some(Message(sender, content, attachments, false, None, now))
  }

  /** Appending keeps the earlier log as a prefix and puts the new message
      last. */
  function Append(c: Chat, m: Message): (r: Chat)
    ensures |r.messages| == |c.messages| + 1
    ensures r.messages[..|c.messages|] == c.messages && r.messages[|c.messages|] == m
    ensures r.(messages := c.messages) == c
  {
    c.(messages := c.messages + [m])
  }

  predicate IsParticipant(c: Chat, user: Id)
  {
    user in c.participants
  }

  // ---------------------------------------------------------------------------
  // Reading

  /** `getChat`: unknown id, then non-participant. */
  function GetChat(chats: ChatStore, id: Id, caller: Id): (r: Result<Chat>)
    ensures id !in chats ==> r == Err(NotFound)
    ensures id in chats && !IsParticipant(chats[id], caller) ==> r == Err(Forbidden)
    ensures r.Ok? <==> id in chats && IsParticipant(chats[id], caller)
    ensures r.Ok? ==> r.value == chats[id]
  {
    if id !in chats then Err(NotFound)
    else if !IsParticipant(chats[id], caller) then Err(Forbidden)
    else Ok(chats[id])
  }

  /** `getChatMessages`: the same two checks, answering with the log. */
  function GetChatMessages(chats: ChatStore, id: Id, caller: Id): (r: Result<seq<Message>>)
    ensures id !in chats ==> r == Err(NotFound)
    ensures id in chats && !IsParticipant(chats[id], caller) ==> r == Err(Forbidden)
    ensures r.Ok? <==> id in chats && IsParticipant(chats[id], caller)
    ensures r.Ok? ==> r.value == chats[id].messages
  {
    if id !in chats then Err(NotFound)
    else if !IsParticipant(chats[id], caller) then Err(Forbidden)
    else Ok(chats[id].messages)
  }

  /** Both reads agree: the log is the opened chat's log, and both refuse
      with the same error. */
  lemma MessagesAgreeWithChat(chats: ChatStore, id: Id, caller: Id)
    ensures GetChatMessages(chats, id, caller).Ok? <==> GetChat(chats, id, caller).Ok?
    ensures GetChat(chats, id, caller).Ok? ==>
              GetChatMessages(chats, id, caller).value == GetChat(chats, id, caller).value.messages
    ensures GetChat(chats, id, caller).Err? ==>
              GetChatMessages(chats, id, caller).error == GetChat(chats, id, caller).error
  {
  }

  /** `getChats`: the ids of the chats the caller takes part in. */
  function ChatsOf(chats: ChatStore, caller: Id): (r: set<Id>)
    ensures forall k :: k in r <==> k in chats && IsParticipant(chats[k], caller)
  {
    set k | k in chats && IsParticipant(chats[k], caller)
  }

  /** `getChats`: the caller's chats, most recent activity first. */
  method ListChats(chats: ChatStore, caller: Id) returns (r: seq<Id>)
    ensures Sorting.Enumerates(r, ChatsOf(chats, caller))
    ensures forall i, j :: 0 <= i < j < |r| ==> chats[r[i]].lastMessage >= chats[r[j]].lastMessage
  {
    var last := map k | k in chats :: chats[k].lastMessage;
    r := Sorting.SortDesc(ChatsOf(chats, caller), last);
  }

  // ---------------------------------------------------------------------------
  // Get-or-create

  /** `c` is a conversation between `a` and `b`, in either order, scoped to
      exactly this transaction and product (absent meaning null). */
  predicate Links(c: Chat, a: Id, b: Id, transaction: Option<Id>, product: Option<Id>)
  {
    a in c.participants && b in c.participants && c.transaction == transaction && c.product == product
  }

  function Matching(chats: ChatStore, a: Id, b: Id, transaction: Option<Id>, product: Option<Id>): (r: set<Id>)
    ensures forall k :: k in r <==> k in chats && Links(chats[k], a, b, transaction, product)
  {
    set k | k in chats && Links(chats[k], a, b, transaction, product)
  }

  /** A new conversation: the caller first, then the other participant; no
      messages, and the last activity date is the creation date. */
  function NewChat(caller: Id, other: Id, transaction: Option<Id>, product: Option<Id>, now: Time): (c: Chat)
    ensures Links(c, caller, other, transaction, product)
    ensures c.participants == [caller, other] && c.messages == [] && c.typing == []
    ensures c.lastMessage == now && c.createdAt == now
  {
    Chat([caller, other], transaction, product, [], now, [], now)
  }

  /** The answer of `createChat`: the chat's id and whether it was made now
      (201) or found (200). */
  datatype Opened = Opened(store: ChatStore, id: Id, created: bool)

  /** `createChat`. A missing other participant or the caller themself is
      refused; a conversation already linking the two users with the same
      transaction and product is returned (the oldest, in insertion order);
      otherwise a new one is stored. */
  function CreateChat(
    chats: ChatStore, caller: Id, participant: Option<Id>, transaction: Option<Id>,
    product: Option<Id>, now: Time): (r: Result<Opened>)
    ensures participant.None? || participant == Some(caller) ==> r == Err(BadRequest)
    ensures r.Ok? <==> participant.Some? && participant.value != caller
    ensures r.Ok? ==>
      && r.value.id in r.value.store
      && Links(r.value.store[r.value.id], caller, participant.value, transaction, product)
    ensures r.Ok? && !r.value.created ==>
      && r.value.store == chats
      && r.value.id in Matching(chats, caller, participant.value, transaction, product)
      && forall k :: k in Matching(chats, caller, participant.value, transaction, product) ==> r.value.id <= k
    ensures r.Ok? && r.value.created ==>
      && Matching(chats, caller, participant.value, transaction, product) == {}
      && r.value.id !in chats
      && r.value.store == chats[r.value.id := NewChat(caller, participant.value, transaction, product, now)]
    ensures r.Ok? ==> (r.value.created <==> Matching(chats, caller, participant.value, transaction, product) == {})
  {
    if participant.None? || participant.value == caller then Err(BadRequest)
    else
      var found := Matching(chats, caller, participant.value, transaction, product);
      if found != {} then Ok(Opened(chats, MinOf(found), false))
      else
        var id := Fresh(chats.Keys);
        Ok(Opened(chats[id := NewChat(caller, participant.value, transaction, product, now)], id, true))
  }

  /** Get-or-create is idempotent: repeating the call, in either order of
      the two users, finds the conversation the first call returned and
      writes nothing. */
  lemma CreateChatIdempotent(
    chats: ChatStore, caller: Id, other: Id, transaction: Option<Id>, product: Option<Id>,
    now: Time, later: Time)
    requires other != caller
    ensures var first := CreateChat(chats, caller, Some(other), transaction, product, now).value;
      && CreateChat(first.store, caller, Some(other), transaction, product, later) == Ok(Opened(first.store, first.id, false))
      && CreateChat(first.store, other, Some(caller), transaction, product, later) == Ok(Opened(first.store, first.id, false))
  {
    var first := CreateChat(chats, caller, Some(other), transaction, product, now).value;
    var again := Matching(first.store, caller, other, transaction, product);
    var swapped := Matching(first.store, other, caller, transaction, product);
    assert again == swapped;
    assert first.id in again;
    assert forall k :: k in again ==> first.id <= k;
    assert MinOf(again) == first.id;
  }

  /** Conversations are scoped: a call that differs in the product or the
      transaction never returns the conversation another scope returned. */
  lemma ScopesAreDistinct(
    chats: ChatStore, caller: Id, other: Id, tx1: Option<Id>, p1: Option<Id>,
    tx2: Option<Id>, p2: Option<Id>, now: Time, later: Time)
    requires other != caller
    requires tx1 != tx2 || p1 != p2
    ensures var first := CreateChat(chats, caller, Some(other), tx1, p1, now).value;
      var second := CreateChat(first.store, caller, Some(other), tx2, p2, later).value;
      && second.id != first.id
      && second.store[first.id] == first.store[first.id]
  {
  }

  /** Two users with no conversation yet: the first call creates one, the
      second returns it, and a call naming a product creates a second,
      distinct conversation. */
  lemma TwoCallsThenNewProduct(chats: ChatStore, a: Id, b: Id, product: Id, t1: Time, t2: Time, t3: Time)
    requires a != b
    requires Matching(chats, a, b, None, None) == {}
    ensures var first := CreateChat(chats, a, Some(b), None, None, t1).value;
      var second := CreateChat(first.store, b, Some(a), None, None, t2).value;
      var third := CreateChat(second.store, a, Some(b), None, Some(product), t3).value;
      && first.created && !second.created && second.id == first.id
      && second.store == first.store
      && third.id != first.id
      && |third.store.Keys| >= |chats.Keys| + 1
  {
    var first := CreateChat(chats, a, Some(b), None, None, t1).value;
    CreateChatIdempotent(chats, a, b, None, None, t1, t2);
    var third := CreateChat(first.store, a, Some(b), None, Some(product), t3).value;
    assert first.store.Keys == chats.Keys + {first.id};
  }

  // ---------------------------------------------------------------------------
  // Read receipts

  /** A message awaiting a read receipt from `reader`: sent by someone else
      and not yet read. */
  predicate Unread(m: Message, reader: Id)
  {
    m.sender != reader && !m.read
  }

  function MarkMessage(m: Message, reader: Id, now: Time): Message
  {
    if Unread(m, reader) then m.(read := true, readAt := Some(now)) else m
  }

  /** `markMessagesRead`' loop: every unread message from someone else is
      marked read now; the reader's own messages and messages already read,
      read date included, are left as they were. */
  function MarkAll(ms: seq<Message>, reader: Id, now: Time): (r: seq<Message>)
    ensures |r| == |ms|
    ensures forall i :: 0 <= i < |ms| && !Unread(ms[i], reader) ==> r[i] == ms[i]
    ensures forall i :: 0 <= i < |ms| && Unread(ms[i], reader) ==>
              r[i] == ms[i].(read := true, readAt := Some(now))
    ensures forall i :: 0 <= i < |r| ==> !Unread(r[i], reader)
  {
    seq(|ms|, i requires 0 <= i < |ms| => MarkMessage(ms[i], reader, now))
  }

  /** Marking twice, at any two times, is marking once. */
  lemma MarkAllIdempotent(ms: seq<Message>, reader: Id, now: Time, later: Time)
    ensures MarkAll(MarkAll(ms, reader, now), reader, later) == MarkAll(ms, reader, now)
  {
    var once := MarkAll(ms, reader, now);
    var twice := MarkAll(once, reader, later);
    assert forall i :: 0 <= i < |once| ==> twice[i] == once[i];
  }

  /** Read flags only go up, and a read date once set never moves. */
  lemma MarkAllMonotone(ms: seq<Message>, reader: Id, now: Time, i: nat)
    requires i < |ms|
    ensures ms[i].read ==> MarkAll(ms, reader, now)[i] == ms[i]
    ensures MarkAll(ms, reader, now)[i].read <==> ms[i].read || ms[i].sender != reader
  {
  }

  /** `markMessagesRead`: unknown id, then non-participant; otherwise the
      chat's log is marked for the caller and nothing else changes. */
  function MarkMessagesRead(chats: ChatStore, id: Id, caller: Id, now: Time): (r: Result<ChatStore>)
    ensures r.Err? <==> GetChat(chats, id, caller).Err?
    ensures r.Err? ==> r.error == GetChat(chats, id, caller).error
    ensures r.Ok? ==>
      && r.value.Keys == chats.Keys
      && r.value[id].messages == MarkAll(chats[id].messages, caller, now)
      && r.value[id].(messages := chats[id].messages) == chats[id]
      && forall k :: k in chats && k != id ==> r.value[k] == chats[k]
  {
    if id !in chats then Err(NotFound)
    else if !IsParticipant(chats[id], caller) then Err(Forbidden)
    else Ok(chats[id := chats[id].(messages := MarkAll(chats[id].messages, caller, now))])
  }

  /** One participant sends a message, the other marks the chat read: the
      message arrives unread, is then read with a read date, and a second
      mark changes nothing. */
  lemma SendThenMarkRead(chats: ChatStore, id: Id, x: Id, y: Id, content: string, now: Time, t1: Time, t2: Time)
    requires id in chats && IsParticipant(chats[id], x) && IsParticipant(chats[id], y) && x != y
    requires |content| > 0
    ensures NewMessage(x, content, [], now).Some?
    ensures var m := NewMessage(x, content, [], now).value;
      var sent := chats[id := Append(chats[id], m)];
      var n := |chats[id].messages|;
      && sent[id].messages[n] == m && !m.read && m.readAt.None?
      && MarkMessagesRead(sent, id, y, t1).Ok?
      && var marked := MarkMessagesRead(sent, id, y, t1).value;
      && marked[id].messages[n].read && marked[id].messages[n].readAt == Some(t1)
      && MarkMessagesRead(marked, id, y, t2) == Ok(marked)
  {
    var m := NewMessage(x, content, [], now).value;
    var sent := chats[id := Append(chats[id], m)];
    var marked := MarkMessagesRead(sent, id, y, t1).value;
    var n := |chats[id].messages|;
    assert sent[id].messages[n] == m;
    assert Unread(m, y);
    assert marked[id].messages[n] == m.(read := true, readAt := Some(t1));
    MarkAllIdempotent(sent[id].messages, y, t1, t2);
    assert marked[id].(messages := MarkAll(marked[id].messages, y, t2)) == marked[id];
    assert marked[id := marked[id].(messages := MarkAll(marked[id].messages, y, t2))] == marked;
  }
}
