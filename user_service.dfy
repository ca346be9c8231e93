/** The user registry: a map from user id to user, updated in place. */
module UserServices {
  import opened Models

  class UserService {
    var users: map<Guid, User>

    /** Every user is stored under its own id. */
    ghost predicate Valid()
      reads this
    {
      forall id :: id in users ==> users[id].id == id
    }

    /** A new service holds no users. */
    constructor ()
      ensures Valid()
      ensures users == map[]
    {
      users := map[];
    }

    /**
     * Stores a user with the given name under `id` and returns it. `id` stands for the fresh GUID the
     * source draws; it must not be in use yet.
     */
    method CreateUser(name: string, id: Guid) returns (user: User)
      requires Valid()
      requires id !in users
      modifies this
      ensures Valid()
      ensures user.id == id && user.name == name
      ensures users == old(users)[id := user]
      ensures |users| == |old(users)| + 1
    {
      user := User(id, name);
      users := users[user.id := user];
    }

    /** Removes the user stored under `id`; an absent id is `UserNotFound` and changes nothing. */
    method DeleteUser(id: Guid) returns (r: Result<()>)
      requires Valid()
      modifies this
      ensures Valid()
      ensures id in old(users) ==> r == Ok(()) && users == old(users) - {id} && |users| == |old(users)| - 1
      ensures id !in old(users) ==> r == Err(UserNotFound(id)) && users == old(users)
    {
      if id !in users {
        return Err(UserNotFound(id));
      }
      users := users - {id};
      r := Ok(());
    }

    /** The user stored under `id`, or `UserNotFound` when there is none. */
    function GetUser(id: Guid): (r: Result<User>)
      reads this
      requires Valid()
      ensures r.Ok? <==> id in users
      ensures r.Ok? ==> r.value.id == id && users[id] == r.value
      ensures r.Err? ==> r.error == UserNotFound(id)
    {
      if id in users then Ok(users[id]) else Err(UserNotFound(id))
    }

    /** A snapshot list of the stored users: each stored user exactly once, in no particular order. */
    method GetUsers() returns (list: seq<User>)
      requires Valid()
      ensures |list| == |users|
      ensures forall i :: 0 <= i < |list| ==> list[i].id in users && users[list[i].id] == list[i]
      ensures forall id :: id in users ==> users[id] in list
      ensures forall i, j :: 0 <= i < j < |list| ==> list[i].id != list[j].id
    {
      list := [];
      var remaining := users.Keys;
      while remaining != {}
        invariant remaining <= users.Keys
        invariant |list| + |remaining| == |users|
        invariant forall i :: 0 <= i < |list| ==>
          list[i].id in users && list[i].id !in remaining && users[list[i].id] == list[i]
        invariant forall id :: id in users && id !in remaining ==> users[id] in list
        invariant forall i, j :: 0 <= i < j < |list| ==> list[i].id != list[j].id
        decreases remaining
      {
        var id :| id in remaining;
        list := list + [users[id]];
        remaining := remaining - {id};
      }
    }
  }
}
