/**
 * Client runs of the two services, one per behaviour their unit tests exercise. Each run starts from
 * fresh services; the id parameters stand for the fresh GUIDs the services would draw.
 */
module Scenarios {
  import opened Models
  import opened UserServices
  import opened MessageRules
  import opened MessageServices

  /** A created user can be fetched back with the same id and name. */
  method CreateThenGet(name: string, id: Guid) returns (created: User, fetched: Result<User>)
    ensures created.name == name
    ensures fetched == Ok(created)
  {
    var users := new UserService();
    created := users.CreateUser(name, id);
    fetched := users.GetUser(created.id);
  }

  /** After deleting a user, fetching it and deleting it again both fail with `UserNotFound`. */
  method DeleteThenGet(name: string, id: Guid) returns (deleted: Result<()>, fetched: Result<User>, again: Result<()>)
    ensures deleted == Ok(())
    ensures fetched == Err(UserNotFound(id))
    ensures again == Err(UserNotFound(id))
  {
    var users := new UserService();
    var user := users.CreateUser(name, id);
    deleted := users.DeleteUser(user.id);
    fetched := users.GetUser(id);
    again := users.DeleteUser(id);
  }

  /** Creating one user per name in a fresh service lists exactly that many users, with those names. */
  method CreateAllThenList(names: seq<string>, ids: seq<Guid>) returns (list: seq<User>)
    requires |ids| == |names|
    requires Distinct(ids)
    ensures |list| == |names|
    ensures forall i :: 0 <= i < |names| ==> User(ids[i], names[i]) in list
  {
    var users := new UserService();
    var n := 0;
    while n < |names|
      invariant 0 <= n <= |names|
      invariant users.Valid()
      invariant forall j :: n <= j < |ids| ==> ids[j] !in users.users
      invariant |users.users| == n
      invariant forall i :: 0 <= i < n ==> ids[i] in users.users && users.users[ids[i]] == User(ids[i], names[i])
    {
      var _ := users.CreateUser(names[n], ids[n]);
      n := n + 1;
    }
    list := users.GetUsers();
  }

  /** A sent message is fetched by its sender and its receiver, and hidden from anybody else. */
  method SendThenFetch(senderId: Guid, receiverId: Guid, otherId: Guid, messageId: Guid, content: string, time: Time)
    returns (sent: Result<Message>, bySender: Result<Message>, byReceiver: Result<Message>, byOther: Result<Message>)
    requires senderId != receiverId && otherId != senderId && otherId != receiverId
    ensures sent == Ok(Message(messageId, senderId, receiverId, time, content, false, false))
    ensures bySender == sent && byReceiver == sent
    ensures byOther == Err(MessageNotFound(messageId))
  {
    var users := new UserService();
    var _ := users.CreateUser("sender", senderId);
    var _ := users.CreateUser("receiver", receiverId);
    var _ := users.CreateUser("other", otherId);
    var service := new MessageService(users);
    sent := service.SendMessage(senderId, receiverId, content, messageId, time);
    bySender := GetUserMessage(users.users, service.messages, senderId, messageId);
    byReceiver := GetUserMessage(users.users, service.messages, receiverId, messageId);
    byOther := GetUserMessage(users.users, service.messages, otherId, messageId);
  }

  /** Sending from or to an unknown user fails with `UserNotFound` for that user and stores nothing. */
  method SendWithUnknownUser(knownId: Guid, unknownId: Guid, messageId: Guid, content: string, time: Time)
    returns (fromUnknown: Result<Message>, toUnknown: Result<Message>, stored: nat)
    requires knownId != unknownId
    ensures fromUnknown == Err(UserNotFound(unknownId))
    ensures toUnknown == Err(UserNotFound(unknownId))
    ensures stored == 0
  {
    var users := new UserService();
    var _ := users.CreateUser("known", knownId);
    var service := new MessageService(users);
    fromUnknown := service.SendMessage(unknownId, knownId, content, messageId, time);
    toUnknown := service.SendMessage(knownId, unknownId, content, messageId, time);
    stored := |service.messages|;
  }

  /** Two messages from the same sender both appear in the sender's list and in the receiver's. */
  method TwoSendsBothListed(senderId: Guid, receiverId: Guid, firstId: Guid, secondId: Guid, content: string, time: Time)
    returns (first: Result<Message>, second: Result<Message>, outbox: Result<set<Message>>, inbox: Result<set<Message>>)
    requires senderId != receiverId && firstId != secondId
    ensures first.Ok? && second.Ok?
    ensures outbox == inbox == Ok({first.value, second.value})
  {
    var users := new UserService();
    var _ := users.CreateUser("sender", senderId);
    var _ := users.CreateUser("receiver", receiverId);
    var service := new MessageService(users);
    first := service.SendMessage(senderId, receiverId, content, firstId, time);
    second := service.SendMessage(senderId, receiverId, content, secondId, time);
    outbox := GetUserMessages(users.users, service.messages, senderId);
    inbox := GetUserMessages(users.users, service.messages, receiverId);
    assert service.messages.Values == {first.value, second.value} by {
      assert service.messages[firstId] == first.value && service.messages[secondId] == second.value;
      assert service.messages.Keys == {firstId, secondId};
    }
    assert Visible(senderId, first.value) && Visible(senderId, second.value);
    assert Visible(receiverId, first.value) && Visible(receiverId, second.value);
    assert outbox.value == {first.value, second.value};
    assert inbox.value == {first.value, second.value};
  }

  /**
   * The two-party delete as the code runs it: after the sender deletes, only the receiver sees the
   * message; when the receiver then deletes it, the sender's mark is overwritten, so the message stays
   * stored and the sender sees it again. Only a self-message is ever purged.
   */
  method TwoPartyDelete(senderId: Guid, receiverId: Guid, messageId: Guid, content: string, time: Time)
    returns (afterSender: Result<Message>, receiverStill: Result<Message>, afterReceiver: Result<Message>,
             senderAgain: Result<Message>, stillStored: bool)
    requires senderId != receiverId
    ensures afterSender == Err(MessageNotFound(messageId))
    ensures receiverStill.Ok?
    ensures afterReceiver == Err(MessageNotFound(messageId))
    ensures senderAgain.Ok? && senderAgain.value.content == content
    ensures stillStored
  {
    var users := new UserService();
    var _ := users.CreateUser("sender", senderId);
    var _ := users.CreateUser("receiver", receiverId);
    var service := new MessageService(users);
    var _ := service.SendMessage(senderId, receiverId, content, messageId, time);
    var _ := service.DeleteUserMessage(senderId, messageId);
    afterSender := GetUserMessage(users.users, service.messages, senderId, messageId);
    receiverStill := GetUserMessage(users.users, service.messages, receiverId, messageId);
    var _ := service.DeleteUserMessage(receiverId, messageId);
    afterReceiver := GetUserMessage(users.users, service.messages, receiverId, messageId);
    senderAgain := GetUserMessage(users.users, service.messages, senderId, messageId);
    stillStored := messageId in service.messages;
  }

  /** A self-message is purged by the one delete of its only participant. */
  method SelfMessagePurged(userId: Guid, messageId: Guid, content: string, time: Time)
    returns (deleted: Result<()>, stored: bool)
    ensures deleted == Ok(())
    ensures !stored
  {
    var users := new UserService();
    var _ := users.CreateUser("self", userId);
    var service := new MessageService(users);
    var _ := service.SendMessage(userId, userId, content, messageId, time);
    deleted := service.DeleteUserMessage(userId, messageId);
    stored := messageId in service.messages;
  }

  /** Deleting all of a sender's messages hides each of them from the sender. */
  method BulkDeleteAfterTwoSends(senderId: Guid, receiverId: Guid, firstId: Guid, secondId: Guid, content: string, time: Time)
    returns (deleted: Result<()>, first: Result<Message>, second: Result<Message>)
    requires senderId != receiverId && firstId != secondId
    ensures deleted.Ok?
    ensures first == Err(MessageNotFound(firstId))
    ensures second == Err(MessageNotFound(secondId))
  {
    var users := new UserService();
    var _ := users.CreateUser("sender", senderId);
    var _ := users.CreateUser("receiver", receiverId);
    var service := new MessageService(users);
    var _ := service.SendMessage(senderId, receiverId, content, firstId, time);
    var _ := service.SendMessage(senderId, receiverId, content, secondId, time);
    ghost var order;
    deleted, order := service.DeleteUserMessages(senderId);
    first := GetUserMessage(users.users, service.messages, senderId, firstId);
    second := GetUserMessage(users.users, service.messages, senderId, secondId);
  }

  /**
   * A two-party message the user deleted on their side, and the other party has not deleted since, stays
   * stored and hidden from the user. It is still in the bulk delete's snapshot, and its delete fails: the
   * whole call reports `MessageNotFound`.
   */
  method HiddenMessageFailsBulkDelete(senderId: Guid, receiverId: Guid, firstId: Guid, secondId: Guid, content: string, time: Time)
    returns (deleted: Result<()>)
    requires senderId != receiverId && firstId != secondId
    ensures deleted.Err? && deleted.error.MessageNotFound?
  {
    var users := new UserService();
    var _ := users.CreateUser("sender", senderId);
    var _ := users.CreateUser("receiver", receiverId);
    var service := new MessageService(users);
    var _ := service.SendMessage(senderId, receiverId, content, firstId, time);
    var _ := service.SendMessage(senderId, receiverId, content, secondId, time);
    var _ := service.DeleteUserMessage(senderId, firstId);
    assert !Visible(senderId, service.messages[firstId]);
    ghost var order;
    deleted, order := service.DeleteUserMessages(senderId);
  }

  /** A self-message the user deleted was purged, so it is not in the bulk delete's snapshot: the call succeeds. */
  method SelfDeleteThenBulk(userId: Guid, messageId: Guid, content: string, time: Time)
    returns (deleted: Result<()>)
    ensures deleted == Ok(())
  {
    var users := new UserService();
    var _ := users.CreateUser("self", userId);
    var service := new MessageService(users);
    var _ := service.SendMessage(userId, userId, content, messageId, time);
    var _ := service.DeleteUserMessage(userId, messageId);
    ghost var order;
    deleted, order := service.DeleteUserMessages(userId);
  }

  /**
   * The sender deletes a message and the receiver deletes it afterwards, which clears the sender's flag:
   * the sender sees the message again, and the sender's bulk delete succeeds.
   */
  method RevivedThenBulk(senderId: Guid, receiverId: Guid, messageId: Guid, content: string, time: Time)
    returns (deleted: Result<()>)
    requires senderId != receiverId
    ensures deleted == Ok(())
  {
    var users := new UserService();
    var _ := users.CreateUser("sender", senderId);
    var _ := users.CreateUser("receiver", receiverId);
    var service := new MessageService(users);
    var _ := service.SendMessage(senderId, receiverId, content, messageId, time);
    var _ := service.DeleteUserMessage(senderId, messageId);
    var _ := service.DeleteUserMessage(receiverId, messageId);
    ghost var order;
    deleted, order := service.DeleteUserMessages(senderId);
  }
}
