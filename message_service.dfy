/**
 * The message registry: a map from message id to message, updated in place, checking user ids against
 * the user registry it was given.
 */
module MessageServices {
  import opened Models
  import opened UserServices
  import opened MessageRules
  import opened MessageLemmas

  class MessageService {
    var messages: map<Guid, Message>
    const userService: UserService

    /** Every message is stored under its own id, and the user registry is consistent. */
    ghost predicate Consistent()
      reads this, userService
    {
      Keyed(messages) && userService.Valid()
    }

    /** Between operations, moreover, no stored message has both delete flags set. */
    ghost predicate Valid()
      reads this, userService
    {
      Consistent() && NoBothFlags(messages)
    }

    /** A new service holds no messages and checks users against `userService`. */
    constructor (userService: UserService)
      requires userService.Valid()
      ensures Valid()
      ensures messages == map[] && this.userService == userService
    {
      messages := map[];
      this.userService := userService;
    }

    /**
     * Checks the sender, then the receiver, and stores a new message under `id` with both delete flags
     * clear. `id` and `time` stand for the fresh GUID and the clock reading of the source.
     */
    method SendMessage(senderId: Guid, receiverId: Guid, content: string, id: Guid, time: Time)
      returns (r: Result<Message>)
      requires Valid()
      requires id !in messages
      modifies this
      ensures Valid()
      ensures r.Ok? <==> senderId in userService.users && receiverId in userService.users
      ensures senderId !in userService.users ==> r == Err(UserNotFound(senderId))
      ensures senderId in userService.users && receiverId !in userService.users ==> r == Err(UserNotFound(receiverId))
      ensures r.Err? ==> messages == old(messages)
      ensures r.Ok? ==> r.value == Message(id, senderId, receiverId, time, content, false, false)
      ensures r.Ok? ==> messages == old(messages)[id := r.value] && |messages| == |old(messages)| + 1
    {
      var sender := userService.GetUser(senderId);
      if sender.Err? {
        return Err(sender.error);
      }
      var receiver := userService.GetUser(receiverId);
      if receiver.Err? {
        return Err(receiver.error);
      }
      var message := Message(id, senderId, receiverId, time, content, false, false);
      messages := messages[message.id := message];
      r := Ok(message);
    }

    /** Removes the entry under `messageId`; an absent id is `MessageNotFound` and changes nothing. */
    method DeleteMessage(messageId: Guid) returns (r: Result<()>)
      requires Consistent()
      modifies this
      ensures Consistent()
      ensures messageId in old(messages) ==> r == Ok(()) && messages == old(messages) - {messageId}
      ensures messageId !in old(messages) ==> r == Err(MessageNotFound(messageId)) && messages == old(messages)
    {
      if messageId !in messages {
        return Err(MessageNotFound(messageId));
      }
      messages := messages - {messageId};
      r := Ok(());
    }

    /**
     * Resolves the message as the user sees it, overwrites both delete flags from the user's role, and
     * purges the entry when both flags end up set.
     */
    method DeleteUserMessage(userId: Guid, messageId: Guid) returns (r: Result<()>)
      requires Valid()
      modifies this
      ensures Valid()
      ensures Step(messages, r) == DeleteUserMessageStep(userService.users, old(messages), userId, messageId)
    {
      var found := GetUserMessage(userService.users, messages, userId, messageId);
      if found.Err? {
        return Err(found.error);
      }
      var message := Marked(userId, found.value);
      messages := messages[messageId := message];
      if message.isDeletedBySender && message.isDeletedByReceiver {
        assert messages - {messageId} == old(messages) - {messageId};
        r := DeleteMessage(messageId);
      } else {
        r := Ok(());
      }
    }

    /**
     * Checks the user, snapshots the ids of every message the user takes part in (whatever its flags),
     * and deletes them one by one as that user, stopping at the first failure. The ghost `order` holds the
     * ids visited, followed on a failure by the ids never reached, which `DeleteEach` ignores.
     */
    method DeleteUserMessages(userId: Guid) returns (r: Result<()>, ghost order: seq<Guid>)
      requires Valid()
      modifies this
      ensures Valid()
      ensures userId !in userService.users ==> r == Err(UserNotFound(userId)) && messages == old(messages)
      ensures userId in userService.users ==>
        && Distinct(order)
        && (forall k :: k in order <==> k in old(messages) && Participant(userId, old(messages)[k]))
        && Step(messages, r) == DeleteEach(userService.users, old(messages), userId, order)
      ensures r.Ok? <==> (userId in userService.users &&
        forall k :: k in old(messages) && Participant(userId, old(messages)[k]) ==> Visible(userId, old(messages)[k]))
      ensures r.Err? && userId in userService.users ==> r.error.MessageNotFound?
      ensures r.Ok? ==> forall k :: k in messages ==> !Visible(userId, messages[k])
      ensures forall k :: k in old(messages) && !Participant(userId, old(messages)[k]) ==>
        k in messages && messages[k] == old(messages)[k]
    {
      order := [];
      var user := userService.GetUser(userId);
      if user.Err? {
        return Err(user.error), order;
      }
      var keys := set k | k in messages && Participant(userId, messages[k]);
      ghost var snapshot := messages;
      var remaining := keys;
      r := Ok(());
      while remaining != {}
        invariant Valid()
        invariant remaining <= keys
        invariant Distinct(order)
        invariant forall k :: k in order <==> k in keys && k !in remaining
        invariant Step(messages, r) == DeleteEach(userService.users, snapshot, userId, order)
        invariant r == Ok(())
        invariant forall k :: k in remaining ==> k in messages && messages[k] == snapshot[k]
        decreases remaining
      {
        var key :| key in remaining;
        DeleteEachAppend(userService.users, snapshot, userId, order, key);
        var step := DeleteUserMessage(userId, messages[key].id);
        order := order + [key];
        remaining := remaining - {key};
        if step.Err? {
          r := step;
          break;
        }
      }
      // A failed run ignores the ids it never reached, so the order can be completed with them.
      ghost var rest := remaining;
      while rest != {}
        invariant rest <= remaining
        invariant r.Err? || rest == {}
        invariant Distinct(order)
        invariant forall k :: k in order <==> k in keys && k !in rest
        invariant Step(messages, r) == DeleteEach(userService.users, snapshot, userId, order)
        decreases rest
      {
        var key :| key in rest;
        DeleteEachAppend(userService.users, snapshot, userId, order, key);
        order := order + [key];
        rest := rest - {key};
      }
      DeleteAllOfUser(userService.users, snapshot, userId, order);
    }
  }
}
