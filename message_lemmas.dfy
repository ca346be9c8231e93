/** What the read and delete rules of the message service guarantee, over all snapshots. */
module MessageLemmas {
  import opened Models
  import opened MessageRules

  /** A message is listed for a user exactly when fetching it by its id as that user succeeds. */
  lemma ListedIffFetchable(users: map<Guid, User>, store: map<Guid, Message>, userId: Guid, m: Message)
    requires Keyed(store)
    requires userId in users
    ensures GetUserMessages(users, store, userId).Ok?
    ensures m in GetUserMessages(users, store, userId).value <==> GetUserMessage(users, store, userId, m.id) == Ok(m)
  {
  }

  /** After a successful delete the caller no longer sees the message. */
  lemma DeleteHidesFromCaller(users: map<Guid, User>, store: map<Guid, Message>, userId: Guid, messageId: Guid)
    requires DeleteUserMessageStep(users, store, userId, messageId).result.Ok?
    ensures GetUserMessage(users, DeleteUserMessageStep(users, store, userId, messageId).store, userId, messageId)
      == Err(MessageNotFound(messageId))
  {
  }

  /** A successful delete purges the message exactly when the caller is both its sender and its receiver. */
  lemma DeletePurgesOnlySelfMessages(users: map<Guid, User>, store: map<Guid, Message>, userId: Guid, messageId: Guid)
    requires DeleteUserMessageStep(users, store, userId, messageId).result.Ok?
    ensures messageId in store
    ensures messageId !in DeleteUserMessageStep(users, store, userId, messageId).store
      <==> store[messageId].senderId == userId && store[messageId].receiverId == userId
    ensures messageId in DeleteUserMessageStep(users, store, userId, messageId).store ==>
      DeleteUserMessageStep(users, store, userId, messageId).store[messageId] == Marked(userId, store[messageId])
  {
  }

  /**
   * The flags are overwritten, not accumulated: when the receiver deletes a message the sender had
   * already deleted, the message stays stored and the sender sees it again.
   */
  lemma ReceiverDeleteRevivesForSender(users: map<Guid, User>, store: map<Guid, Message>, messageId: Guid)
    requires messageId in store
    requires store[messageId].senderId != store[messageId].receiverId
    requires store[messageId].isDeletedBySender && !store[messageId].isDeletedByReceiver
    requires store[messageId].senderId in users && store[messageId].receiverId in users
    ensures var s := DeleteUserMessageStep(users, store, store[messageId].receiverId, messageId);
      && s.result.Ok?
      && messageId in s.store
      && GetUserMessage(users, s.store, store[messageId].senderId, messageId) == Ok(s.store[messageId])
  {
  }

  /** A bulk delete leaves every message outside its order as it was. */
  lemma {:induction false} DeleteEachFrame(
    users: map<Guid, User>, store: map<Guid, Message>, userId: Guid, order: seq<Guid>, k: Guid)
    requires k !in order
    ensures k in DeleteEach(users, store, userId, order).store <==> k in store
    ensures k in store ==> DeleteEach(users, store, userId, order).store[k] == store[k]
    decreases |order|
  {
    if order != [] {
      var first := DeleteUserMessageStep(users, store, userId, order[0]);
      if first.result.Ok? {
        assert k !in order[1..];
        DeleteEachFrame(users, first.store, userId, order[1..], k);
      }
    }
  }

  /** Deleting one more message after a run is a run over the longer order. */
  lemma {:induction false} DeleteEachAppend(
    users: map<Guid, User>, store: map<Guid, Message>, userId: Guid, order: seq<Guid>, k: Guid)
    ensures DeleteEach(users, store, userId, order + [k]) ==
      var s := DeleteEach(users, store, userId, order);
      if s.result.Err? then s else DeleteUserMessageStep(users, s.store, userId, k)
    decreases |order|
  {
    if order == [] {
      assert order + [k] == [k];
    } else {
      assert (order + [k])[0] == order[0];
      assert (order + [k])[1..] == order[1..] + [k];
      var first := DeleteUserMessageStep(users, store, userId, order[0]);
      if first.result.Ok? {
        DeleteEachAppend(users, first.store, userId, order[1..], k);
      }
    }
  }

  /**
   * The run over `order` fails at position `i`: the deletes before it all succeeded, the delete of
   * `order[i]` fails, and the run ends with that error and the messages as the earlier deletes left them.
   */
  ghost predicate FailsAt(users: map<Guid, User>, store: map<Guid, Message>, userId: Guid, order: seq<Guid>, i: nat)
    requires i < |order|
  {
    var before := DeleteEach(users, store, userId, order[..i]);
    var failing := GetUserMessage(users, before.store, userId, order[i]);
    && before.result.Ok?
    && failing.Err?
    && DeleteEach(users, store, userId, order) == Step(before.store, Err(failing.error))
  }

  /** A run that fails does so at one position, and keeps the effect of every delete before it. */
  lemma {:induction false} DeleteEachFailureKeepsPrefix(
    users: map<Guid, User>, store: map<Guid, Message>, userId: Guid, order: seq<Guid>)
    requires DeleteEach(users, store, userId, order).result.Err?
    ensures exists i :: 0 <= i < |order| && FailsAt(users, store, userId, order, i)
    decreases |order|
  {
    var first := DeleteUserMessageStep(users, store, userId, order[0]);
    if first.result.Err? {
      assert order[..0] == [];
      assert FailsAt(users, store, userId, order, 0);
    } else {
      var rest := order[1..];
      DeleteEachFailureKeepsPrefix(users, first.store, userId, rest);
      var j :| 0 <= j < |rest| && FailsAt(users, first.store, userId, rest, j);
      assert order[..j + 1][0] == order[0];
      assert order[..j + 1][1..] == rest[..j];
      assert order[j + 1] == rest[j];
      assert FailsAt(users, store, userId, order, j + 1);
    }
  }

  /** Deleting keeps every message under its own id. */
  lemma {:induction false} DeleteEachKeyed(users: map<Guid, User>, store: map<Guid, Message>, userId: Guid, order: seq<Guid>)
    requires Keyed(store)
    ensures Keyed(DeleteEach(users, store, userId, order).store)
    decreases |order|
  {
    if order != [] {
      var first := DeleteUserMessageStep(users, store, userId, order[0]);
      if first.result.Ok? {
        assert Keyed(first.store);
        DeleteEachKeyed(users, first.store, userId, order[1..]);
      }
    }
  }

  /**
   * A run over stored, distinct ids of an existing user succeeds exactly when the user sees every one of
   * them beforehand; otherwise it fails with `MessageNotFound`.
   */
  lemma {:induction false} DeleteEachSucceedsIffAllVisible(
    users: map<Guid, User>, store: map<Guid, Message>, userId: Guid, order: seq<Guid>)
    requires userId in users
    requires Distinct(order)
    requires forall i :: 0 <= i < |order| ==> order[i] in store
    ensures DeleteEach(users, store, userId, order).result.Ok?
      <==> forall i :: 0 <= i < |order| ==> Visible(userId, store[order[i]])
    ensures DeleteEach(users, store, userId, order).result.Err? ==>
      DeleteEach(users, store, userId, order).result.error.MessageNotFound?
    decreases |order|
  {
    if order != [] {
      var first := DeleteUserMessageStep(users, store, userId, order[0]);
      if first.result.Ok? {
        var rest := order[1..];
        forall i | 0 <= i < |rest|
          ensures rest[i] in first.store && first.store[rest[i]] == store[rest[i]]
        {
          assert rest[i] == order[i + 1] != order[0];
        }
        DeleteEachSucceedsIffAllVisible(users, first.store, userId, rest);
        if forall i :: 0 <= i < |rest| ==> Visible(userId, store[rest[i]]) {
          forall i | 0 <= i < |order| ensures Visible(userId, store[order[i]]) {
            if i > 0 { assert order[i] == rest[i - 1]; }
          }
        } else {
          var i :| 0 <= i < |rest| && !Visible(userId, store[rest[i]]);
          assert order[i + 1] == rest[i];
        }
      }
    }
  }

  /** After a run that succeeded, no message of its order is visible to the user any more. */
  lemma {:induction false} DeleteEachHidesAll(
    users: map<Guid, User>, store: map<Guid, Message>, userId: Guid, order: seq<Guid>)
    requires Distinct(order)
    requires DeleteEach(users, store, userId, order).result.Ok?
    ensures forall i :: 0 <= i < |order| ==> HiddenFrom(DeleteEach(users, store, userId, order).store, userId, order[i])
    decreases |order|
  {
    if order != [] {
      var first := DeleteUserMessageStep(users, store, userId, order[0]);
      var rest := order[1..];
      var last := DeleteEach(users, first.store, userId, rest);
      assert last == DeleteEach(users, store, userId, order);
      DeleteEachHidesAll(users, first.store, userId, rest);
      assert order[0] !in rest by {
        forall i | 0 <= i < |rest| ensures rest[i] != order[0] {
          assert rest[i] == order[i + 1];
        }
      }
      DeleteEachFrame(users, first.store, userId, rest, order[0]);
      forall i | 0 <= i < |order| ensures HiddenFrom(last.store, userId, order[i]) {
        if i > 0 { assert order[i] == rest[i - 1]; }
      }
    }
  }

  /**
   * Deleting every message a user takes part in, in any order: the run succeeds exactly when the user
   * still saw all of them; on success nothing stored is visible to the user; and messages the user does
   * not take part in are untouched either way.
   */
  lemma DeleteAllOfUser(users: map<Guid, User>, store: map<Guid, Message>, userId: Guid, order: seq<Guid>)
    requires userId in users
    requires Distinct(order)
    requires forall k :: k in order <==> k in store && Participant(userId, store[k])
    ensures DeleteEach(users, store, userId, order).result.Ok?
      <==> forall k :: k in store && Participant(userId, store[k]) ==> Visible(userId, store[k])
    ensures DeleteEach(users, store, userId, order).result.Err? ==>
      DeleteEach(users, store, userId, order).result.error.MessageNotFound?
    ensures DeleteEach(users, store, userId, order).result.Ok? ==>
      forall k :: k in DeleteEach(users, store, userId, order).store ==>
        !Visible(userId, DeleteEach(users, store, userId, order).store[k])
    ensures forall k :: k in store && !Participant(userId, store[k]) ==>
      k in DeleteEach(users, store, userId, order).store && DeleteEach(users, store, userId, order).store[k] == store[k]
  {
    var s := DeleteEach(users, store, userId, order);
    assert forall i :: 0 <= i < |order| ==> order[i] in order;
    DeleteEachSucceedsIffAllVisible(users, store, userId, order);
    if forall k :: k in store && Participant(userId, store[k]) ==> Visible(userId, store[k]) {
      assert forall i :: 0 <= i < |order| ==> Visible(userId, store[order[i]]);
    } else {
      var k :| k in store && Participant(userId, store[k]) && !Visible(userId, store[k]);
      var i :| 0 <= i < |order| && order[i] == k;
    }
    forall k | k in store && !Participant(userId, store[k])
      ensures k in s.store && s.store[k] == store[k]
    {
      DeleteEachFrame(users, store, userId, order, k);
    }
    if s.result.Ok? {
      DeleteEachHidesAll(users, store, userId, order);
      forall k | k in s.store ensures !Visible(userId, s.store[k]) {
        if k in order {
          var i :| 0 <= i < |order| && order[i] == k;
          assert HiddenFrom(s.store, userId, order[i]);
        } else {
          DeleteEachFrame(users, store, userId, order, k);
        }
      }
    }
  }
}
