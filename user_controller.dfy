/** The list-backed UserController: users kept in an ArrayList in the order
    they were created, ids from a counter starting at 1. */
module Controllers {

  import opened Model
  import opened Text
  import opened Validation

  class UserController {
    var users: seq<User>
    var nextId: int

    /** Every listed user carries an id below the counter, ids increase along
        the list (so the list order is creation order and ids are unique),
        and every listed user passed the email and login rules and has a
        name that is not blank. */
    ghost predicate Valid()
      reads this
    {
      && 1 <= nextId
      && (forall i :: 0 <= i < |users| ==> users[i].id.Some? && 1 <= users[i].id.value < nextId)
      && (forall i, j :: 0 <= i < j < |users| ==> users[i].id.value < users[j].id.value)
      && (forall i :: 0 <= i < |users| ==>
            EmailOk(users[i].email) && LoginOk(users[i].login) && !NullOrBlank(users[i].name))
    }

    constructor ()
      ensures Valid() && users == [] && nextId == 1
    {
      users := [];
      nextId := 1;
    }

    /** findAll: the list itself, which is in creation order, that is, by
        ascending id. */
    function FindAll(): (r: seq<User>)
      requires Valid()
      reads this
      ensures |r| == |users|
      ensures forall i :: 0 <= i < |r| ==> r[i] in users
      ensures forall i, j :: 0 <= i < j < |r| ==> r[i].id.Some? && r[j].id.Some? && r[i].id.value < r[j].id.value
    {
      users
    }

    /** create: validate (defaulting a blank name to the login), then take
        the counter's value as id, advance it and append the user. */
    method Create(user: User, today: Date) returns (r: Result<User>)
      requires Valid()
      modifies this
      ensures Valid()
      ensures CheckUser(user, today).Fail? ==>
                r == Err(CheckUser(user, today).error) && users == old(users) && nextId == old(nextId)
      ensures CheckUser(user, today) == Pass ==>
                && r == Ok(WithDefaultName(user).(id := Some(old(nextId))))
                && users == old(users) + [r.value]
                && nextId == old(nextId) + 1
    {
      var checked := CheckUserDefaultingName(user, today);
      if checked.outcome.Fail? {
        return Err(checked.outcome.error);
      }
      var created := checked.user.(id := Some(nextId));
      nextId := nextId + 1;
      users := users + [created];
      return Ok(created);
    }

    /** The index search of update: the first position holding id, or -1
        when there is none. */
    method FindIndex(id: Option<int>) returns (index: int)
      ensures -1 <= index < |users|
      ensures index == -1 <==> forall i :: 0 <= i < |users| ==> users[i].id != id
      ensures index >= 0 ==> users[index].id == id && forall j :: 0 <= j < index ==> users[j].id != id
    {
      index := -1;
      var i := 0;
      while i < |users|
        invariant 0 <= i <= |users|
        invariant forall j :: 0 <= j < i ==> users[j].id != id
      {
        if users[i].id == id {
          index := i;
          return;
        }
        i := i + 1;
      }
    }

    /** update: validate (defaulting the name), then find the user's id in
        the list; an id not listed is a validation error, not NotFound, and
        the list is left alone; otherwise that one position is replaced. */
    method Update(user: User, today: Date) returns (r: Result<User>)
      requires Valid()
      modifies this
      ensures Valid() && nextId == old(nextId) && |users| == |old(users)|
      ensures CheckUser(user, today).Fail? ==> r == Err(CheckUser(user, today).error) && users == old(users)
      ensures CheckUser(user, today) == Pass && (forall i :: 0 <= i < |old(users)| ==> old(users)[i].id != user.id) ==>
                r == Err(Validation(UnknownUserId)) && users == old(users)
      ensures CheckUser(user, today) == Pass && (exists i :: 0 <= i < |old(users)| && old(users)[i].id == user.id) ==>
                && r == Ok(WithDefaultName(user))
                && exists i :: 0 <= i < |old(users)| && old(users)[i].id == user.id && users == old(users)[i := r.value]
    {
      var checked := CheckUserDefaultingName(user, today);
      if checked.outcome.Fail? {
        return Err(checked.outcome.error);
      }
      var index := FindIndex(user.id);
      if index == -1 {
        return Err(Validation(UnknownUserId));
      }
      users := users[index := checked.user];
      return Ok(checked.user);
    }
  }

  /** Ids are unique in a valid list, so the position update replaces is the
      only one holding the id, and every other user is left as it was. */
  lemma UpdateTouchesOneUser(before: seq<User>, i: int, u: User)
    requires 0 <= i < |before| && before[i].id == u.id
    requires forall a :: 0 <= a < |before| ==> before[a].id.Some?
    requires forall a, b :: 0 <= a < b < |before| ==> before[a].id.value < before[b].id.value
    ensures forall j :: 0 <= j < |before| && j != i ==> before[j].id != u.id && before[i := u][j] == before[j]
  {
    forall j | 0 <= j < |before| && j != i ensures before[j].id != u.id {
      if j < i {
        assert before[j].id.value < before[i].id.value;
      } else {
        assert before[i].id.value < before[j].id.value;
      }
    }
  }
}
