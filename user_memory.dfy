/** InMemoryUserStorage: users kept in a map under their id, ids from a
    counter starting at 1, each user carrying the set of ids they follow.
    LocalDate.now() is the parameter `today`. */
module UserMemory {

  import opened Model
  import opened Text
  import opened Validation
  import opened Ranking

  class InMemoryUserStorage {
    var users: map<int, User>
    var nextId: int

    /** Every user is stored under its own id, below the counter; and every
        stored user has a well-formed email and login and a name that is not
        blank.  (The birthday rule depends on the day and is not kept.) */
    ghost predicate Valid()
      reads this
    {
      && 1 <= nextId
      && (forall k :: k in users ==> users[k].id == Some(k) && 1 <= k < nextId)
      && (forall k :: k in users ==> EmailOk(users[k].email) && LoginOk(users[k].login) && !NullOrBlank(users[k].name))
    }

    constructor ()
      ensures Valid() && users == map[] && nextId == 1
    {
      users := map[];
      nextId := 1;
    }

    /** findAll: every stored user once, by ascending id. */
    function FindAll(): (r: seq<User>)
      requires Valid()
      reads this
      ensures |r| == |users|
      ensures forall i :: 0 <= i < |r| ==> r[i].id.Some? && r[i].id.value in users && users[r[i].id.value] == r[i]
      ensures forall k :: k in users ==> users[k] in r
    {
      EveryValueListed(users);
      ValuesInKeyOrder(users)
    }

    function FindById(id: int): (r: Result<User>)
      reads this
      ensures r.Ok? <==> id in users
      ensures r.Ok? ==> r.value == users[id]
      ensures r.Err? ==> r.error == NotFound(UserEntity, Some(id))
    {
      if id in users then Ok(users[id]) else Err(NotFound(UserEntity, Some(id)))
    }

    /** save: validate (defaulting a blank name to the login), then take the
        counter's value as id and advance it by one. */
    method Save(user: User, today: Date) returns (r: Result<User>)
      requires Valid()
      modifies this
      ensures Valid()
      ensures CheckUser(user, today).Fail? ==>
                r == Err(CheckUser(user, today).error) && users == old(users) && nextId == old(nextId)
      ensures CheckUser(user, today) == Pass ==>
                && old(nextId) !in old(users)
                && r == Ok(WithDefaultName(user).(id := Some(old(nextId))))
                && users == old(users)[old(nextId) := r.value]
                && nextId == old(nextId) + 1
    {
      var checked := CheckUserDefaultingName(user, today);
      if checked.outcome.Fail? {
        return Err(checked.outcome.error);
      }
      var saved := checked.user.(id := Some(nextId));
      nextId := nextId + 1;
      users := users[saved.id.value := saved];
      return Ok(saved);
    }

    /** update: validation (with the name default) comes first, NotFound
        second; then only that id's entry is replaced. */
    method Update(user: User, today: Date) returns (r: Result<User>)
      requires Valid() && user.id.Some?
      modifies this
      ensures Valid() && nextId == old(nextId)
      ensures CheckUser(user, today).Fail? ==> r == Err(CheckUser(user, today).error) && users == old(users)
      ensures CheckUser(user, today) == Pass && user.id.value !in old(users) ==>
                r == Err(NotFound(UserEntity, user.id)) && users == old(users)
      ensures CheckUser(user, today) == Pass && user.id.value in old(users) ==>
                r == Ok(WithDefaultName(user)) && users == old(users)[user.id.value := WithDefaultName(user)]
    {
      var checked := CheckUserDefaultingName(user, today);
      if checked.outcome.Fail? {
        return Err(checked.outcome.error);
      }
      if user.id.value !in users {
        return Err(NotFound(UserEntity, user.id));
      }
      users := users[user.id.value := checked.user];
      return Ok(checked.user);
    }

    method DeleteById(id: int) returns (o: Outcome)
      requires Valid()
      modifies this
      ensures Valid() && nextId == old(nextId)
      ensures id !in old(users) ==> o == Fail(NotFound(UserEntity, Some(id))) && users == old(users)
      ensures id in old(users) ==> o == Pass && users == old(users) - {id}
    {
      if id !in users {
        return Fail(NotFound(UserEntity, Some(id)));
      }
      users := users - {id};
      return Pass;
    }

    /** addFriend: friendId joins userId's set and nobody else's.  Neither the
        friend's existence nor userId != friendId is checked here. */
    method AddFriend(userId: int, friendId: int) returns (o: Outcome)
      requires Valid()
      modifies this
      ensures Valid() && nextId == old(nextId) && users.Keys == old(users).Keys
      ensures userId !in old(users) ==> o == Fail(NotFound(UserEntity, Some(userId))) && users == old(users)
      ensures userId in old(users) ==>
                && o == Pass
                && users == old(users)[userId := old(users)[userId].(friends := old(users)[userId].friends + {friendId})]
                && (friendId in old(users)[userId].friends ==> users == old(users))
      ensures forall k :: k in users && k != userId ==> users[k] == old(users)[k]
    {
      var found := FindById(userId);
      if found.Err? {
        return Fail(found.error);
      }
      var user := found.value;
      if friendId in user.friends {
        assert user.(friends := user.friends + {friendId}) == user;
        assert users[userId := user] == users;
      }
      users := users[userId := user.(friends := user.friends + {friendId})];
      return Pass;
    }

    /** removeFriend: friendId leaves userId's set; the reverse edge, if any,
        stays; removing a non-friend changes nothing. */
    method RemoveFriend(userId: int, friendId: int) returns (o: Outcome)
      requires Valid()
      modifies this
      ensures Valid() && nextId == old(nextId) && users.Keys == old(users).Keys
      ensures userId !in old(users) ==> o == Fail(NotFound(UserEntity, Some(userId))) && users == old(users)
      ensures userId in old(users) ==>
                && o == Pass
                && users == old(users)[userId := old(users)[userId].(friends := old(users)[userId].friends - {friendId})]
                && (friendId !in old(users)[userId].friends ==> users == old(users))
      ensures forall k :: k in users && k != userId ==> users[k] == old(users)[k]
    {
      var found := FindById(userId);
      if found.Err? {
        return Fail(found.error);
      }
      var user := found.value;
      if friendId !in user.friends {
        assert user.(friends := user.friends - {friendId}) == user;
        assert users[userId := user] == users;
      }
      users := users[userId := user.(friends := user.friends - {friendId})];
      return Pass;
    }

    /** ids.stream().map(this::findById): the users in the order of ids,
        stopping with NotFound at the first id not stored. */
    function LookupAll(ids: seq<int>): (r: Result<seq<User>>)
      reads this
      ensures r.Ok? <==> forall i :: 0 <= i < |ids| ==> ids[i] in users
      ensures r.Ok? ==> |r.value| == |ids| && forall i :: 0 <= i < |ids| ==> r.value[i] == users[ids[i]]
      ensures r.Err? ==> exists i :: 0 <= i < |ids| && ids[i] !in users
                           && r.error == NotFound(UserEntity, Some(ids[i]))
                           && forall j :: 0 <= j < i ==> ids[j] in users
    {
      if ids == [] then Ok([])
      else if ids[0] !in users then Err(NotFound(UserEntity, Some(ids[0])))
      else
        match LookupAll(ids[1..])
        case Err(e) =>
          assert forall j :: 0 <= j < |ids[1..]| ==> ids[1..][j] == ids[j + 1];
          Err(e)
        case Ok(rest) => Ok([users[ids[0]]] + rest)
    }

    /** getFriends: NotFound for an unknown user, and NotFound as well when a
        friend id no longer names a stored user (a dangling edge); otherwise
        one stored user per friend id.  The hash set is taken to iterate in
        ascending id order. */
    function GetFriends(userId: int): (r: Result<seq<User>>)
      requires Valid()
      reads this
      ensures userId !in users ==> r == Err(NotFound(UserEntity, Some(userId)))
      ensures r.Ok? <==> userId in users && users[userId].friends <= users.Keys
      ensures r.Ok? ==> |r.value| == |users[userId].friends|
      ensures r.Ok? ==> forall k :: k in users[userId].friends <==> k in users && users[k] in r.value
      ensures r.Err? && userId in users ==> exists k :: k in users[userId].friends && k !in users
                                             && r.error == NotFound(UserEntity, Some(k))
    {
      if userId !in users then Err(NotFound(UserEntity, Some(userId)))
      else
        var r := LookupAll(SortedIds(users[userId].friends));
        if r.Ok? then
          FriendsListed(userId, r.value);
          r
        else
          r
    }

    /** The stored users under the ascending friend ids are exactly the
        friends. */
    lemma FriendsListed(userId: int, list: seq<User>)
      requires Valid() && userId in users
      requires |list| == |SortedIds(users[userId].friends)|
      requires forall i :: 0 <= i < |list| ==>
                 SortedIds(users[userId].friends)[i] in users && list[i] == users[SortedIds(users[userId].friends)[i]]
      ensures forall k :: k in users[userId].friends <==> k in users && users[k] in list
    {
      var ids := SortedIds(users[userId].friends);
      forall k | k in users && users[k] in list ensures k in users[userId].friends {
        var i :| 0 <= i < |list| && list[i] == users[k];
        assert Some(ids[i]) == users[ids[i]].id == users[k].id == Some(k);
        assert ids[i] in ids;
      }
      forall k | k in users[userId].friends ensures k in users && users[k] in list {
        assert k in ids;
        var i := IndexOf(ids, k);
        assert list[i] == users[k];
      }
    }

    /** getCommonFriends: userId's friend list filtered to the users that are
        also in otherId's list, in userId's order. */
    function GetCommonFriends(userId: int, otherId: int): (r: Result<seq<User>>)
      requires Valid()
      reads this
      ensures GetFriends(userId).Err? ==> r == Err(GetFriends(userId).error)
      ensures GetFriends(userId).Ok? && GetFriends(otherId).Err? ==> r == Err(GetFriends(otherId).error)
      ensures r.Ok? ==> GetFriends(userId).Ok? && GetFriends(otherId).Ok?
      ensures r.Ok? ==> r.value == KeepIn(GetFriends(userId).value, GetFriends(otherId).value)
    {
      var mine := GetFriends(userId);
      if mine.Err? then Err(mine.error)
      else
        var theirs := GetFriends(otherId);
        if theirs.Err? then Err(theirs.error)
        else Ok(KeepIn(mine.value, theirs.value))
    }
  }

  /** r is a, possibly with some elements dropped: what is left keeps its
      order from a. */
  predicate Subsequence(r: seq<User>, a: seq<User>)
    decreases |a|
  {
    if r == [] then true
    else if a == [] then false
    else (r[0] == a[0] && Subsequence(r[1..], a[1..])) || Subsequence(r, a[1..])
  }

  /** friends1.stream().filter(friends2::contains): the elements of a that
      are in b, in a's order. */
  function KeepIn(a: seq<User>, b: seq<User>): (r: seq<User>)
    ensures forall x :: x in r <==> x in a && x in b
    ensures |r| <= |a|
    ensures Subsequence(r, a)
  {
    if a == [] then []
    else
      var rest := KeepIn(a[1..], b);
      if a[0] in b then
        assert ([a[0]] + rest)[1..] == rest;
        [a[0]] + rest
      else rest
  }

  /** The common friends are exactly the stored users followed by both. */
  lemma CommonFriendsAreTheIntersection(s: InMemoryUserStorage, userId: int, otherId: int)
    requires s.Valid()
    requires s.GetCommonFriends(userId, otherId).Ok?
    ensures forall k :: k in s.users && s.users[k] in s.GetCommonFriends(userId, otherId).value
                        <==> k in s.users[userId].friends && k in s.users[otherId].friends
  {
  }
}
