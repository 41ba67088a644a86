/** UserService over the in-memory user store: the field rules checked
    before create and update, and the existence checks before the friend
    operations. */
module Users {

  import opened Model
  import opened Text
  import opened Validation
  import UserMemory

  class UserService {
    const userStorage: UserMemory.InMemoryUserStorage

    ghost predicate Valid()
      reads this, userStorage
    {
      userStorage.Valid()
    }

    constructor (users: UserMemory.InMemoryUserStorage)
      ensures userStorage == users
    {
      userStorage := users;
    }

    /** create: validateUser (no name default of its own), then the store's
        save, which checks again, defaults a blank name to the login and
        assigns the next id; an invalid user never reaches the map. */
    method Create(user: User, today: Date) returns (r: Result<User>)
      requires Valid()
      modifies userStorage
      ensures Valid()
      ensures CheckUser(user, today).Fail? ==> r == Err(CheckUser(user, today).error) && unchanged(userStorage)
      ensures CheckUser(user, today) == Pass ==>
                && r == Ok(WithDefaultName(user).(id := Some(old(userStorage.nextId))))
                && !NullOrBlank(r.value.name)
                && userStorage.users == old(userStorage.users)[old(userStorage.nextId) := r.value]
                && userStorage.nextId == old(userStorage.nextId) + 1
    {
      var verdict := CheckUser(user, today);
      if verdict.Fail? {
        return Err(verdict.error);
      }
      r := userStorage.Save(user, today);
    }

    /** update: validateUser, then the store's update (NotFound for an id it
        does not hold, otherwise that entry replaced). */
    method Update(user: User, today: Date) returns (r: Result<User>)
      requires Valid() && user.id.Some?
      modifies userStorage
      ensures Valid() && userStorage.nextId == old(userStorage.nextId)
      ensures CheckUser(user, today).Fail? ==> r == Err(CheckUser(user, today).error) && unchanged(userStorage)
      ensures CheckUser(user, today) == Pass && user.id.value !in old(userStorage.users) ==>
                r == Err(NotFound(UserEntity, user.id)) && userStorage.users == old(userStorage.users)
      ensures CheckUser(user, today) == Pass && user.id.value in old(userStorage.users) ==>
                && r == Ok(WithDefaultName(user))
                && userStorage.users == old(userStorage.users)[user.id.value := WithDefaultName(user)]
    {
      var verdict := CheckUser(user, today);
      if verdict.Fail? {
        return Err(verdict.error);
      }
      r := userStorage.Update(user, today);
    }

    /** addFriend: adding oneself is a validation error before any lookup;
        then userId and friendId must both be stored, in that order; only
        then does friendId join userId's friends (one direction only). */
    method AddFriend(userId: int, friendId: int) returns (o: Outcome)
      requires Valid()
      modifies userStorage
      ensures Valid() && userStorage.nextId == old(userStorage.nextId)
      ensures userId == friendId ==> o == Fail(Validation(SelfFriendship)) && unchanged(userStorage)
      ensures userId != friendId && userId !in old(userStorage.users) ==>
                o == Fail(NotFound(UserEntity, Some(userId))) && unchanged(userStorage)
      ensures userId != friendId && userId in old(userStorage.users) && friendId !in old(userStorage.users) ==>
                o == Fail(NotFound(UserEntity, Some(friendId))) && unchanged(userStorage)
      ensures o == Pass <==> userId != friendId && userId in old(userStorage.users) && friendId in old(userStorage.users)
      ensures o == Pass ==>
                userStorage.users == old(userStorage.users)[userId :=
                  old(userStorage.users)[userId].(friends := old(userStorage.users)[userId].friends + {friendId})]
    {
      if userId == friendId {
        return Fail(Validation(SelfFriendship));
      }
      var user := userStorage.FindById(userId);
      if user.Err? {
        return Fail(user.error);
      }
      var friend := userStorage.FindById(friendId);
      if friend.Err? {
        return Fail(friend.error);
      }
      o := userStorage.AddFriend(userId, friendId);
    }

    /** removeFriend: both users must be stored, userId first; then friendId
        leaves userId's friends. */
    method RemoveFriend(userId: int, friendId: int) returns (o: Outcome)
      requires Valid()
      modifies userStorage
      ensures Valid() && userStorage.nextId == old(userStorage.nextId)
      ensures userId !in old(userStorage.users) ==>
                o == Fail(NotFound(UserEntity, Some(userId))) && unchanged(userStorage)
      ensures userId in old(userStorage.users) && friendId !in old(userStorage.users) ==>
                o == Fail(NotFound(UserEntity, Some(friendId))) && unchanged(userStorage)
      ensures o == Pass <==> userId in old(userStorage.users) && friendId in old(userStorage.users)
      ensures o == Pass ==>
                userStorage.users == old(userStorage.users)[userId :=
                  old(userStorage.users)[userId].(friends := old(userStorage.users)[userId].friends - {friendId})]
    {
      var user := userStorage.FindById(userId);
      if user.Err? {
        return Fail(user.error);
      }
      var friend := userStorage.FindById(friendId);
      if friend.Err? {
        return Fail(friend.error);
      }
      o := userStorage.RemoveFriend(userId, friendId);
    }

    /** getFriends: NotFound for an unknown user, then the store's list. */
    function GetFriends(userId: int): (r: Result<seq<User>>)
      requires Valid()
      reads this, userStorage
      ensures userId !in userStorage.users ==> r == Err(NotFound(UserEntity, Some(userId)))
      ensures r.Ok? <==> userId in userStorage.users && userStorage.users[userId].friends <= userStorage.users.Keys
      ensures r.Ok? ==> forall k :: k in userStorage.users[userId].friends <==>
                          k in userStorage.users && userStorage.users[k] in r.value
    {
      var user := userStorage.FindById(userId);
      if user.Err? then Err(user.error) else userStorage.GetFriends(userId)
    }

    /** getCommonFriends: both users must be stored, id first; then the
        store's list, which holds the stored users both follow. */
    function GetCommonFriends(id: int, otherId: int): (r: Result<seq<User>>)
      requires Valid()
      reads this, userStorage
      ensures id !in userStorage.users ==> r == Err(NotFound(UserEntity, Some(id)))
      ensures id in userStorage.users && otherId !in userStorage.users ==> r == Err(NotFound(UserEntity, Some(otherId)))
      ensures r.Ok? <==> && id in userStorage.users && otherId in userStorage.users
                         && userStorage.users[id].friends <= userStorage.users.Keys
                         && userStorage.users[otherId].friends <= userStorage.users.Keys
      ensures r.Ok? ==> forall k :: k in userStorage.users && userStorage.users[k] in r.value <==>
                          k in userStorage.users[id].friends && k in userStorage.users[otherId].friends
    {
      var user := userStorage.FindById(id);
      if user.Err? then Err(user.error)
      else
        var other := userStorage.FindById(otherId);
        if other.Err? then Err(other.error)
        else
          var r := userStorage.GetCommonFriends(id, otherId);
          if r.Ok? then
            UserMemory.CommonFriendsAreTheIntersection(userStorage, id, otherId);
            r
          else
            r
    }
  }
}
