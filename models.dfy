/** The entities the two registries store, and the two error kinds they raise. */
module Models {

  /** A GUID. Ids are only ever compared for equality, so a natural number stands in for the 128 bits. */
  type Guid = nat

  /** A UTC timestamp, set once when a message is sent; the model never looks inside it. */
  type Time = int

  /** A registered user. */
  datatype User = User(id: Guid, name: string)

  /** A message between two users. The two flags are the per-party soft-delete marks. */
  datatype Message = Message(
    id: Guid,
    senderId: Guid,
    receiverId: Guid,
    time: Time,
    content: string,
    isDeletedBySender: bool,
    isDeletedByReceiver: bool)

  /** The two failures of the service layer; each carries the id it could not resolve. */
  datatype Error = UserNotFound(userId: Guid) | MessageNotFound(messageId: Guid)

  /** The value of an operation, or the error it raised instead. Void operations return `Result<()>`. */
  datatype Result<+T> = Ok(value: T) | Err(error: Error)
}
