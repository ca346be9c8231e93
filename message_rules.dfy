/**
 * The pure side of the message service: the visibility rule, the read operations, and the effect of the
 * delete operations on a snapshot of the two registries. The class in MessageServices runs the
 * operations in place and is proved to have exactly these effects.
 */
module MessageRules {
  import opened Models

  /** Every message is stored under its own id. */
  ghost predicate Keyed(store: map<Guid, Message>)
  {
    forall id :: id in store ==> store[id].id == id
  }

  /** No stored message has both delete flags set: a delete that sets both purges the message at once. */
  ghost predicate NoBothFlags(store: map<Guid, Message>)
  {
    forall k :: k in store ==> !(store[k].isDeletedBySender && store[k].isDeletedByReceiver)
  }

  /** No id occurs twice. */
  ghost predicate Distinct(ids: seq<Guid>)
  {
    forall i, j :: 0 <= i < j < |ids| ==> ids[i] != ids[j]
  }

  /** A user sees a message while taking part in it on a side that has not deleted it. */
  predicate Visible(userId: Guid, m: Message): (r: bool)
    ensures r ==> m.senderId == userId || m.receiverId == userId
    ensures m.isDeletedBySender && m.isDeletedByReceiver ==> !r
  {
    (m.senderId == userId && !m.isDeletedBySender) || (m.receiverId == userId && !m.isDeletedByReceiver)
  }

  /** The user is the sender or the receiver, whatever the delete flags say. */
  predicate Participant(userId: Guid, m: Message): (r: bool)
    ensures Visible(userId, m) ==> r
    ensures r <==> Visible(userId, m.(isDeletedBySender := false, isDeletedByReceiver := false))
  {
    m.senderId == userId || m.receiverId == userId
  }

  /** The id is not stored, or what is stored under it is hidden from the user. */
  ghost predicate HiddenFrom(store: map<Guid, Message>, userId: Guid, id: Guid)
  {
    id !in store || !Visible(userId, store[id])
  }

  /** The stored message, or `MessageNotFound` when the id is absent. */
  function GetMessage(store: map<Guid, Message>, messageId: Guid): (r: Result<Message>)
    ensures r.Ok? <==> messageId in store
    ensures r.Ok? ==> r.value == store[messageId]
    ensures r.Err? ==> r.error == MessageNotFound(messageId)
  {
    if messageId in store then Ok(store[messageId]) else Err(MessageNotFound(messageId))
  }

  /**
   * One message as seen by one user. The user is checked first, so an absent user wins over an absent
   * message; an absent message and a message hidden from the user give the same `MessageNotFound`.
   */
  function GetUserMessage(users: map<Guid, User>, store: map<Guid, Message>, userId: Guid, messageId: Guid)
    : (r: Result<Message>)
    ensures r.Ok? <==> userId in users && messageId in store && Visible(userId, store[messageId])
    ensures r.Ok? ==> r.value == store[messageId]
    ensures userId !in users ==> r == Err(UserNotFound(userId))
    ensures userId in users && r.Err? ==> r == Err(MessageNotFound(messageId))
  {
    if userId !in users then Err(UserNotFound(userId))
    else
      match GetMessage(store, messageId)
      case Err(e) => Err(e)
      case Ok(m) => if Visible(userId, m) then Ok(m) else Err(MessageNotFound(messageId))
  }

  /** The messages a user sees, as a snapshot of the stored values; `UserNotFound` for an absent user. */
  function GetUserMessages(users: map<Guid, User>, store: map<Guid, Message>, userId: Guid)
    : (r: Result<set<Message>>)
    ensures r.Err? <==> userId !in users
    ensures r.Err? ==> r.error == UserNotFound(userId)
    ensures r.Ok? ==> r.value <= store.Values
    ensures r.Ok? ==> forall m :: m in r.value ==> Visible(userId, m) && Participant(userId, m)
    ensures r.Ok? ==> forall m :: m in store.Values && Visible(userId, m) ==> m in r.value
  {
    if userId !in users then Err(UserNotFound(userId))
    else Ok(set m | m in store.Values && Visible(userId, m))
  }

  /**
   * The message after `userId` deletes it: both flags are overwritten from the caller's role, so a
   * flag set by the other party's earlier delete is cleared again.
   */
  function Marked(userId: Guid, m: Message): (r: Message)
    ensures !Visible(userId, r)
    ensures r.isDeletedBySender && r.isDeletedByReceiver <==> m.senderId == userId && m.receiverId == userId
    ensures r.id == m.id && r.senderId == m.senderId && r.receiverId == m.receiverId
    ensures r.time == m.time && r.content == m.content
  {
    m.(isDeletedBySender := userId == m.senderId, isDeletedByReceiver := userId == m.receiverId)
  }

  /** A message map together with the outcome of the operation that produced it. */
  datatype Step = Step(store: map<Guid, Message>, result: Result<()>)

  /**
   * The effect of one user deleting one message: resolve it as `GetUserMessage` does, mark it, and
   * purge it when both marks are now set.
   */
  function DeleteUserMessageStep(users: map<Guid, User>, store: map<Guid, Message>, userId: Guid, messageId: Guid)
    : (s: Step)
    ensures s.result.Ok? <==> GetUserMessage(users, store, userId, messageId).Ok?
    ensures s.result.Err? ==> s.result.error == GetUserMessage(users, store, userId, messageId).error
    ensures s.result.Err? ==> s.store == store
    ensures forall k :: k != messageId ==> (k in s.store <==> k in store)
    ensures forall k :: k != messageId && k in s.store ==> s.store[k] == store[k]
  {
    match GetUserMessage(users, store, userId, messageId)
    case Err(e) => Step(store, Err(e))
    case Ok(m) =>
      var marked := Marked(userId, m);
      if marked.isDeletedBySender && marked.isDeletedByReceiver then Step(store - {messageId}, Ok(()))
      else Step(store[messageId := marked], Ok(()))
  }

  /**
   * The effect of deleting, one by one and in the given order, the messages of a user: the first
   * failing delete ends the run with its error, and the deletes before it keep their effect.
   */
  function DeleteEach(users: map<Guid, User>, store: map<Guid, Message>, userId: Guid, order: seq<Guid>)
    : (s: Step)
    ensures s.store.Keys <= store.Keys
    decreases |order|
  {
    if order == [] then Step(store, Ok(()))
    else
      var first := DeleteUserMessageStep(users, store, userId, order[0]);
      if first.result.Err? then first
      else DeleteEach(users, first.store, userId, order[1..])
  }
}
