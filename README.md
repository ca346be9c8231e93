# Internal messaging service layer, modelled in Dafny

This project models the service layer of an internal messaging backend. There are two in-memory registries and the rules that link them:

- **The user registry** (`UserServices.UserService`). It is a map from user id to `User {id, name}`. Users can be created, fetched, listed and deleted. Fetching or deleting an absent id fails with `UserNotFound`.
- **The message registry** (`MessageServices.MessageService`). It is a map from message id to `Message {id, senderId, receiverId, time, content, isDeletedBySender, isDeletedByReceiver}`. It holds a reference to the user registry, and every operation first checks its user ids there.
  - Reads apply the visibility rule `Visible(u, m)`: `u` is the sender and has not deleted the message, or `u` is the receiver and has not deleted it.
  - A message that is absent and a message that is hidden from the caller both give the same `MessageNotFound`.
  - Deletes are per-party soft deletes. A message is purged from the map when both flags end up set.

Layout:

- `models.dfy` (`Models`): the entities, the two error kinds, and `Result<T>`. The source throws exceptions; `Result<T>` replaces them, and void operations return `Result<()>`.
- `user_service.dfy` (`UserServices`): the user registry as a class whose methods update its `users` map in place.
- `message_rules.dfy` (`MessageRules`): the pure side of the message service, over a snapshot of the two maps:
  - the visibility rule;
  - the read operations `GetMessage`, `GetUserMessage` and `GetUserMessages`;
  - the effect of one delete (`DeleteUserMessageStep`) and of a run of deletes in a given order (`DeleteEach`).
- `message_lemmas.dfy` (`MessageLemmas`): what those rules guarantee for every snapshot.
- `message_service.dfy` (`MessageServices`): the message registry as a class. Its methods update the `messages` map in place. `DeleteUserMessage` and `DeleteUserMessages` are proved to have exactly the effects that `DeleteUserMessageStep` and `DeleteEach` in `MessageRules` describe; `SendMessage` and `DeleteMessage` state the new map in their own postconditions. Its invariant `Valid()` also says that no stored message has both delete flags set, since such a message is purged at once; the private `DeleteMessage` needs only the weaker `Consistent()`, because it runs in the middle of a delete, after both flags were written and before the purge.
- `scenarios.dfy` (`Scenarios`): client runs of the two services, one per behaviour the unit tests exercise.

## Where the code departs from its own comments

The model follows the code in each of these cases.

- **The delete flags are overwritten.** A delete sets `isDeletedBySender := (caller == sender)` and `isDeletedByReceiver := (caller == receiver)` (`MessageService.cs:109-110`). The comment at `MessageService.cs:112` describes the purge as happening once both sender and receiver have deleted the message, which implies each party's flag persists. In the code, a receiver's delete clears an earlier sender delete, so the sender sees the message again. For a message between two different users, both flags can therefore never be set at once, and the message is never purged. Only a self-message is purged. `ReceiverDeleteRevivesForSender`, `DeletePurgesOnlySelfMessages` and `Scenarios.TwoPartyDelete` state this.
- **Bulk delete can fail partway.** The comment at `MessageService.cs:135` announces that each of the user's messages is deleted. In the code, the bulk delete collects every message the user takes part in, whatever its flags (`MessageService.cs:132-133`). It then deletes each one through the single-message path, which rejects a message the user has already hidden. So a message the user takes part in that is still stored and hidden from them makes the bulk delete fail with `MessageNotFound`. An example is a two-party message the user deleted on their side that the other party has not deleted since. A deleted self-message is not such a case, because it was purged; nor is a message whose other party deleted it afterwards, because that delete cleared the user's flag again. On a failure, the deletes done before the failure are kept and the rest are not done. `DeleteAllOfUser`, `DeleteEachFailureKeepsPrefix` and `Scenarios.HiddenMessageFailsBulkDelete` state this; `Scenarios.SelfDeleteThenBulk` and `Scenarios.RevivedThenBulk` state the two cases that succeed.

## Model

| member | source | states |
|---|---|---|
| `UserServices.UserService.constructor` | InternalMessagingSystem/Services/UserService.cs:17-20 | a new registry is empty |
| `UserServices.UserService.CreateUser` | InternalMessagingSystem/Services/UserService.cs:27-38 | adds exactly one entry, under the given fresh id, holding the given name; returns that user; every other entry is kept; the count grows by one |
| `UserServices.UserService.DeleteUser` | InternalMessagingSystem/Services/UserService.cs:45-54 | a present id: removes exactly that key and the count drops by one; an absent id: `UserNotFound(id)` and nothing changes |
| `UserServices.UserService.GetUser` | InternalMessagingSystem/Services/UserService.cs:61-70 | succeeds exactly when the id is stored, and returns the stored user, whose id is the one asked for; otherwise `UserNotFound(id)`; reads only |
| `UserServices.UserService.GetUsers` | InternalMessagingSystem/Services/UserService.cs:76-81 | the list holds every stored user exactly once (as many entries as keys, no id twice, each entry equal to the stored user) |
| `MessageRules.Visible` | InternalMessagingSystem/Services/MessageService.cs:70-71 | the visibility test shared by the single and the list read (also `MessageService.cs:90-92`): a visible message has the user as sender or receiver, and a message both parties have flagged is visible to nobody |
| `MessageRules.Participant` | InternalMessagingSystem/Services/MessageService.cs:132-133 | the bulk delete's key filter, which ignores the flags: every message the user sees has the user as a participant, and a participant is exactly a user who would see the message with both flags clear |
| `MessageRules.DeleteEach` | InternalMessagingSystem/Services/MessageService.cs:136-139 | the loop over the key snapshot as a fold of single deletes that stops at the first error; its own contract says a run never adds an id; the `MessageLemmas.DeleteEach*` lemmas and `DeleteAllOfUser` give its other properties |
| `MessageRules.GetMessage` | InternalMessagingSystem/Services/MessageService.cs:144-153 | the stored message when the id is present, otherwise `MessageNotFound(id)` |
| `MessageRules.GetUserMessage` | InternalMessagingSystem/Services/MessageService.cs:61-77 | succeeds exactly when the user exists, the message exists and it is visible to the user, and returns the stored message; an absent user gives `UserNotFound` even when the message is also absent; an absent and a hidden message both give `MessageNotFound` |
| `MessageRules.GetUserMessages` | InternalMessagingSystem/Services/MessageService.cs:84-95 | `UserNotFound` exactly when the user is absent; otherwise exactly the stored messages visible to the user, each with the user as a participant |
| `MessageRules.Marked` | InternalMessagingSystem/Services/MessageService.cs:108-110 | after the overwrite the caller no longer sees the message; both flags are set exactly when the caller is both sender and receiver; id, parties, time and content are kept |
| `MessageRules.DeleteUserMessageStep` | InternalMessagingSystem/Services/MessageService.cs:103-119 | succeeds exactly when `GetUserMessage` does, and otherwise fails with its error and changes nothing; no entry other than the target changes |
| `MessageLemmas.ListedIffFetchable` | InternalMessagingSystem/Services/MessageService.cs:84-95 | a message is in a user's list exactly when fetching it by its id as that user returns it |
| `MessageLemmas.DeleteHidesFromCaller` | InternalMessagingSystem.Tests/Services/MessageServiceTests.cs:103-117 | after a successful delete, fetching the message as the same user fails with `MessageNotFound` |
| `MessageLemmas.DeletePurgesOnlySelfMessages` | InternalMessagingSystem/Services/MessageService.cs:109-116 | a successful delete removes the entry exactly when the caller is both sender and receiver; otherwise the entry becomes the message with both flags overwritten |
| `MessageLemmas.ReceiverDeleteRevivesForSender` | InternalMessagingSystem/Services/MessageService.cs:109-110 | when the receiver deletes a message the sender had deleted, the message stays stored and the sender can fetch it again |
| `MessageLemmas.DeleteEachFrame` | InternalMessagingSystem/Services/MessageService.cs:136-139 | a run of deletes leaves every message outside its order unchanged |
| `MessageLemmas.DeleteEachAppend` | InternalMessagingSystem/Services/MessageService.cs:136-139 | one more loop iteration is the run over the longer order; after a failure, later ids change nothing |
| `MessageLemmas.DeleteEachFailureKeepsPrefix` | InternalMessagingSystem/Services/MessageService.cs:136-139 | a failed run fails at one position: every delete before it succeeded and keeps its effect, and the failing delete changed nothing |
| `MessageLemmas.DeleteEachKeyed` | InternalMessagingSystem/Services/MessageService.cs:103-119 | deletes keep every message stored under its own id |
| `MessageLemmas.DeleteEachSucceedsIffAllVisible` | InternalMessagingSystem/Services/MessageService.cs:136-139 | a run over distinct stored ids of an existing user succeeds exactly when the user saw all of them beforehand; otherwise it fails with `MessageNotFound` |
| `MessageLemmas.DeleteEachHidesAll` | InternalMessagingSystem/Services/MessageService.cs:136-139 | after a successful run, no message of its order is visible to the user |
| `MessageLemmas.DeleteAllOfUser` | InternalMessagingSystem/Services/MessageService.cs:126-142 | deleting every message the user takes part in, in any order: succeeds exactly when the user saw all of them; a failure is `MessageNotFound`; on success no stored message is visible to the user; messages without the user as a participant are untouched |
| `MessageServices.MessageService.constructor` | InternalMessagingSystem/Services/MessageService.cs:19-23 | a new registry is empty and checks users against the given user registry |
| `MessageServices.MessageService.SendMessage` | InternalMessagingSystem/Services/MessageService.cs:31-53 | checks the sender, then the receiver: an absent one gives `UserNotFound` for that id and the map is unchanged; otherwise adds exactly one entry under the fresh id, with sender, receiver, content and time from the arguments and both flags clear, and returns it; the sender may equal the receiver |
| `MessageServices.MessageService.DeleteMessage` | InternalMessagingSystem/Services/MessageService.cs:155-164 | a present id: removes exactly that entry; an absent id: `MessageNotFound(id)` and nothing changes |
| `MessageServices.MessageService.DeleteUserMessage` | InternalMessagingSystem/Services/MessageService.cs:103-119 | the new map and the outcome are exactly `DeleteUserMessageStep` of the old map |
| `MessageServices.MessageService.DeleteUserMessages` | InternalMessagingSystem/Services/MessageService.cs:126-142 | an absent user: `UserNotFound` and nothing changes; otherwise the snapshot is exactly the ids of messages the user takes part in, whatever their flags; the new map is `DeleteEach` over that snapshot, taken in the order the ids were visited and, on a failure, followed by the ids never reached, which `DeleteEach` ignores; success exactly when the user saw all of them, failure is `MessageNotFound`; on success nothing stored is visible to the user; other users' messages are untouched |
| `Scenarios.CreateThenGet` | InternalMessagingSystem.Tests/Services/UserServiceTests.cs:34-47 | a created user is fetched back with the same id and name |
| `Scenarios.DeleteThenGet` | InternalMessagingSystem.Tests/Services/UserServiceTests.cs:62-73 | after a delete, fetching the user and deleting it again both fail with `UserNotFound` |
| `Scenarios.CreateAllThenList` | InternalMessagingSystem.Tests/Services/UserServiceTests.cs:88-102 | creating N users with distinct ids in a fresh registry lists exactly N users, including each created one |
| `Scenarios.SendThenFetch` | InternalMessagingSystem.Tests/Services/MessageServiceTests.cs:20-69 | a sent message carries the arguments, and both its sender and its receiver can fetch it; any third user gets `MessageNotFound` |
| `Scenarios.SendWithUnknownUser` | InternalMessagingSystem.Tests/Services/MessageServiceTests.cs:39-49 | sending from or to an unknown user fails with `UserNotFound` for that user, and nothing is stored |
| `Scenarios.TwoSendsBothListed` | InternalMessagingSystem.Tests/Services/MessageServiceTests.cs:84-100 | two sends from the same sender appear in both the sender's and the receiver's lists |
| `Scenarios.TwoPartyDelete` | InternalMessagingSystem/Services/MessageService.cs:103-119 | after the sender's delete only the receiver sees the message; after the receiver's delete it stays stored and the sender sees it again |
| `Scenarios.SelfMessagePurged` | InternalMessagingSystem/Services/MessageService.cs:113-116 | a self-message is purged by one delete |
| `Scenarios.BulkDeleteAfterTwoSends` | InternalMessagingSystem.Tests/Services/MessageServiceTests.cs:132-148 | after a bulk delete by the sender, fetching either message as the sender fails with `MessageNotFound` |
| `Scenarios.HiddenMessageFailsBulkDelete` | InternalMessagingSystem/Services/MessageService.cs:132-139 | once the sender has deleted one of their messages to another user, and the receiver has not deleted it since, the sender's bulk delete fails with `MessageNotFound` |
| `Scenarios.SelfDeleteThenBulk` | InternalMessagingSystem/Services/MessageService.cs:113-116 | a self-message the user deleted was purged, so the user's bulk delete afterwards succeeds |
| `Scenarios.RevivedThenBulk` | InternalMessagingSystem/Services/MessageService.cs:109-110 | after the sender's delete and then the receiver's, the sender's flag is clear again and the sender's bulk delete succeeds |

## Left out

- Concurrency: `ConcurrentDictionary` and its per-entry atomicity are not modelled. Each operation is one atomic sequential step. The property about two simultaneous deletes of the same message is not modelled.
- `async`/`Task`: the wrappers are dropped, and each awaited call becomes a plain call.
- GUID generation: each fresh id is a parameter that must be absent from the map at that moment. The model does not rule out reusing an id after it was deleted; random GUIDs make that negligible in the source.
- The clock: `DateTime.UtcNow` is a `time` parameter.
- Exception classes and their message text are modelled as the two `Error` cases. `MessageNotFoundException.cs` is not part of this model.
- JSON serialisation: the `[JsonIgnore]` marks on the two flags are not modelled.
- Object aliasing: the source hands out references to mutable `Message` objects and changes their flags in place. The model stores messages as values and writes the changed message back into the map.
- MessageRules.GetUserMessages: the set of messages is fixed at call time in the source too, but the `Where` at `MessageService.cs:90-92` is lazy and reads the delete flags of the shared `Message` objects only when the result is enumerated. The model evaluates the visibility test at call time, so a flag changed between the call and the enumeration is not reflected. Order is not modelled; no message is lost, because message ids are distinct.
- UserServices.UserService.GetUsers: the order of the list is not stated, because the source's enumeration order is unspecified.
- MessageServices.MessageService.DeleteUserMessages: the enumeration order of the key snapshot is unspecified. The method visits it in an arbitrary order, and every postcondition holds whichever order is taken. The source's `_messages[key]` lookup could throw `KeyNotFoundException`; the model proves the key is always present at that point.
- HTTP controllers, the exception-to-status filter, host bootstrapping, dependency-injection registration, and `CreateMessageDTO` validation are not modelled. The receiver id and content are passed directly.
