/** UserDbStorage: the users table and the friendship edge table.  The
    users table is a map from id to the user's columns, friendship a set of
    directed (user id, friend id) pairs whose key is the pair itself; the
    rows a query returns are a parameter, constrained to be what the query
    selects, in any order. */
module UserDb {

  import opened Model
  import opened Text
  import opened Validation
  import opened Ranking

  /** The columns of a users row. */
  datatype UserRecord = UserRecord(email: Option<string>, login: Option<string>, name: Option<string>, birthday: Date)

  /** One row of a query selecting u.* from users. */
  datatype UserRow = UserRow(id: int, record: UserRecord)

  /** One row of SELECT user_id, friend_id FROM friendship. */
  datatype FriendRow = FriendRow(userId: int, friendId: int)

  /** mapRowToUser: the columns, and the default (empty) friend set. */
  function FromRecord(id: int, rec: UserRecord): (u: User)
    ensures u.id == Some(id) && u.friends == {}
    ensures u.email == rec.email && u.login == rec.login && u.name == rec.name && u.birthday == Some(rec.birthday)
  {
    User(Some(id), rec.email, rec.login, rec.name, Some(rec.birthday), {})
  }

  /** The columns an INSERT or UPDATE writes; Date.valueOf needs a birthday. */
  function RecordOf(u: User): (rec: UserRecord)
    requires u.birthday.Some?
    ensures FromRecord(0, rec) == u.(id := Some(0), friends := {})
  {
    UserRecord(u.email, u.login, u.name, u.birthday.value)
  }

  /** jdbcTemplate.query with mapRowToUser: one user per row, in row order. */
  function UsersFrom(rows: seq<UserRow>): (r: seq<User>)
    ensures |r| == |rows|
    ensures forall i :: 0 <= i < |r| ==> r[i] == FromRecord(rows[i].id, rows[i].record)
  {
    seq(|rows|, i requires 0 <= i < |rows| => FromRecord(rows[i].id, rows[i].record))
  }

  /** The ids a list of users carries. */
  function IdsOf(us: seq<User>): set<int>
  {
    set i | 0 <= i < |us| && us[i].id.Some? :: us[i].id.value
  }

  /** The friend ids of the friendship rows of user k. */
  function FriendIdsOf(rows: seq<FriendRow>, k: int): (r: set<int>)
    ensures forall f :: f in r <==> FriendRow(k, f) in rows
  {
    if rows == [] then {}
    else
      var init := rows[..|rows| - 1];
      var last := rows[|rows| - 1];
      assert rows == init + [last];
      FriendIdsOf(init, k) + (if last.userId == k then {last.friendId} else {})
  }

  /** loadAllFriends: no users, nothing to do; otherwise the rows folded into
      a user-id to friend-id-set map, and each user given its entry or an
      empty set. */
  method LoadAllFriends(users: seq<User>, rows: seq<FriendRow>) returns (r: seq<User>)
    requires forall i :: 0 <= i < |users| ==> users[i].id.Some?
    ensures |r| == |users|
    ensures forall i :: 0 <= i < |r| ==> r[i] == users[i].(friends := FriendIdsOf(rows, users[i].id.value))
  {
    if users == [] {
      return [];
    }
    var friendsMap: map<int, set<int>> := map[];
    for i := 0 to |rows|
      invariant forall k :: k in friendsMap ==> friendsMap[k] == FriendIdsOf(rows[..i], k)
      invariant forall k :: k !in friendsMap ==> FriendIdsOf(rows[..i], k) == {}
    {
      assert rows[..i + 1][..i] == rows[..i];
      var row := rows[i];
      var friends := if row.userId in friendsMap then friendsMap[row.userId] else {};
      friendsMap := friendsMap[row.userId := friends + {row.friendId}];
    }
    assert rows[..|rows|] == rows;
    r := [];
    for i := 0 to |users|
      invariant |r| == i
      invariant forall j :: 0 <= j < i ==> r[j] == users[j].(friends := FriendIdsOf(rows, users[j].id.value))
    {
      var id := users[i].id.value;
      var friends := if id in friendsMap then friendsMap[id] else {};
      r := r + [users[i].(friends := friends)];
    }
  }

  // ---- the tables ----

  class UserDbStorage {
    var users: map<int, UserRecord>
    var friendship: set<(int, int)>

    constructor ()
      ensures users == map[] && friendship == {}
    {
      users := map[];
      friendship := {};
    }

    /** User k as a users row maps to it: its columns, no friends loaded. */
    function Bare(k: int): (u: User)
      requires k in users
      reads this
      ensures u.id == Some(k) && u.friends == {}
    {
      FromRecord(k, users[k])
    }

    /** User k as the tables hold it: its columns and its outgoing edges. */
    function Stored(k: int): (u: User)
      requires k in users
      reads this
      ensures u.id == Some(k) && u.friends == Targets(friendship, k)
      ensures u.(friends := {}) == Bare(k)
    {
      Bare(k).(friends := Targets(friendship, k))
    }

    /** rows are what a query selecting u.* returns for the stored users with
        an id in ids: one row each, in some order. */
    ghost predicate RowsOf(rows: seq<UserRow>, ids: set<int>)
      reads this
    {
      && (forall j :: 0 <= j < |rows| ==>
            rows[j].id in ids && rows[j].id in users && rows[j].record == users[rows[j].id])
      && (forall k :: k in ids && k in users ==> exists j :: 0 <= j < |rows| && rows[j].id == k)
      && (forall a, b :: 0 <= a < b < |rows| ==> rows[a].id != rows[b].id)
    }

    /** rows are what SELECT user_id, friend_id FROM friendship WHERE user_id
        IN (ids) returns, in some order. */
    ghost predicate FriendRowsOf(rows: seq<FriendRow>, ids: set<int>)
      reads this
    {
      (set j | 0 <= j < |rows| :: (rows[j].userId, rows[j].friendId)) == (set e | e in friendship && e.0 in ids)
    }

    /** Mapping such rows gives each selected stored user once, with its
        columns and without friends. */
    lemma RowsAreTheSelectedUsers(rows: seq<UserRow>, ids: set<int>)
      requires RowsOf(rows, ids)
      ensures IdsOf(UsersFrom(rows)) == ids * users.Keys
      ensures |rows| == |ids * users.Keys|
      ensures forall i :: 0 <= i < |rows| ==> rows[i].id in users && UsersFrom(rows)[i] == Bare(rows[i].id)
    {
      var us := UsersFrom(rows);
      var rowIds := seq(|rows|, j requires 0 <= j < |rows| => rows[j].id);
      forall x ensures x in rowIds <==> x in ids * users.Keys {
        if x in ids * users.Keys {
          var j :| 0 <= j < |rows| && rows[j].id == x;
          assert rowIds[j] == x;
        }
      }
      NoDuplicatesListSet(rowIds, ids * users.Keys);
      forall x ensures x in IdsOf(us) <==> x in ids * users.Keys {
        if x in ids * users.Keys {
          var j :| 0 <= j < |rows| && rows[j].id == x;
          assert us[j].id == Some(x);
        }
      }
    }

    /** Folding the friendship rows of the selected users gives each its
        outgoing edges. */
    lemma FriendRowsGrouped(rows: seq<FriendRow>, ids: set<int>)
      requires FriendRowsOf(rows, ids)
      ensures forall k :: k in ids ==> FriendIdsOf(rows, k) == Targets(friendship, k)
    {
      forall k | k in ids ensures FriendIdsOf(rows, k) == Targets(friendship, k) {
        forall f ensures f in FriendIdsOf(rows, k) <==> f in Targets(friendship, k) {
          var pairs := set j | 0 <= j < |rows| :: (rows[j].userId, rows[j].friendId);
          if FriendRow(k, f) in rows {
            var j :| 0 <= j < |rows| && rows[j] == FriendRow(k, f);
            assert (k, f) in pairs;
          }
          if (k, f) in friendship {
            assert (k, f) in pairs;
            var j :| 0 <= j < |rows| && (rows[j].userId, rows[j].friendId) == (k, f);
            assert rows[j] == FriendRow(k, f);
          }
        }
      }
    }

    /** findAll: every stored user once, in row order, with the friends the
        friendship table gives it. */
    method FindAll(rows: seq<UserRow>, friendRows: seq<FriendRow>) returns (r: seq<User>)
      requires RowsOf(rows, users.Keys) && FriendRowsOf(friendRows, users.Keys)
      ensures |r| == |rows| == |users|
      ensures forall i :: 0 <= i < |r| ==> rows[i].id in users && r[i] == Stored(rows[i].id)
      ensures forall k :: k in users ==> Stored(k) in r
    {
      var all := UsersFrom(rows);
      RowsAreTheSelectedUsers(rows, users.Keys);
      r := LoadAllFriends(all, friendRows);
      UsersAssembled(rows, friendRows, all, r);
    }

    /** Giving the mapped rows their friends yields every stored user. */
    lemma UsersAssembled(rows: seq<UserRow>, friendRows: seq<FriendRow>, all: seq<User>, r: seq<User>)
      requires RowsOf(rows, users.Keys) && FriendRowsOf(friendRows, users.Keys)
      requires all == UsersFrom(rows)
      requires |rows| == |users.Keys * users.Keys|
      requires forall i :: 0 <= i < |rows| ==> rows[i].id in users && UsersFrom(rows)[i] == Bare(rows[i].id)
      requires |r| == |all|
      requires forall i :: 0 <= i < |r| ==> r[i] == all[i].(friends := FriendIdsOf(friendRows, all[i].id.value))
      ensures |r| == |rows| == |users|
      ensures forall i :: 0 <= i < |r| ==> rows[i].id in users && r[i] == Stored(rows[i].id)
      ensures forall k :: k in users ==> Stored(k) in r
    {
      assert users.Keys * users.Keys == users.Keys;
      assert |users.Keys| == |users|;
      FriendRowsGrouped(friendRows, users.Keys);
      forall i | 0 <= i < |r| ensures r[i] == Stored(rows[i].id) {
        assert all[i] == Bare(rows[i].id);
      }
      forall k | k in users ensures Stored(k) in r {
        var j :| 0 <= j < |rows| && rows[j].id == k;
        assert r[j] == Stored(k);
      }
    }

    /** findById: NotFound when no row has the id; otherwise the user as
        stored, its friends from SELECT friend_id FROM friendship WHERE
        user_id = id. */
    method FindById(id: int, rows: seq<UserRow>, friendIds: seq<int>) returns (r: Result<User>)
      requires RowsOf(rows, {id})
      requires forall f :: f in friendIds <==> (id, f) in friendship
      ensures r.Ok? <==> id in users
      ensures r.Err? ==> r.error == NotFound(UserEntity, Some(id))
      ensures r.Ok? ==> r.value == Stored(id)
    {
      if rows == [] {
        return Err(NotFound(UserEntity, Some(id)));
      }
      var user := UsersFrom(rows)[0];
      assert (set f | f in friendIds) == Targets(friendship, id) by {
        forall f ensures f in (set f | f in friendIds) <==> f in Targets(friendship, id) {
          assert f in friendIds <==> (id, f) in friendship;
        }
      }
      r := Ok(user.(friends := set f | f in friendIds));
    }

    /** save: a null or blank name is replaced by the login, the columns are
        inserted under the generated key, and the user comes back carrying
        the key.  The friend set it carries is not written. */
    method Save(user: User, key: int) returns (r: User)
      requires key !in users && user.birthday.Some?
      modifies this
      ensures r == WithDefaultName(user).(id := Some(key))
      ensures users == old(users)[key := RecordOf(r)]
      ensures users[key].name == if NullOrBlank(user.name) then user.login else user.name
      ensures friendship == old(friendship)
    {
      var named := user;
      if user.name.None? || IsBlank(user.name.value) {
        named := user.(name := user.login);
      }
      r := named.(id := Some(key));
      users := users[key := RecordOf(r)];
    }

    /** update: NotFound when no row matches the id (a null id matches
        none); otherwise the columns are overwritten as given, the name
        included: no default is applied. */
    method Update(user: User) returns (r: Result<User>)
      requires user.birthday.Some?
      modifies this
      ensures friendship == old(friendship)
      ensures user.id.None? || user.id.value !in old(users) ==>
                r == Err(NotFound(UserEntity, user.id)) && users == old(users)
      ensures user.id.Some? && user.id.value in old(users) ==>
                && r == Ok(user)
                && users == old(users)[user.id.value := RecordOf(user)]
                && users[user.id.value].name == user.name
    {
      if user.id.None? || user.id.value !in users {
        return Err(NotFound(UserEntity, user.id));
      }
      users := users[user.id.value := RecordOf(user)];
      return Ok(user);
    }

    /** deleteById: the users row goes; an absent id is no error, and the
        friendship table is not touched. */
    method DeleteById(id: int)
      modifies this
      ensures users == old(users) - {id}
      ensures friendship == old(friendship)
    {
      users := users - {id};
    }

    /** addFriend: MERGE keyed on the pair, so the edge is there afterwards
        exactly once however often it is added; only userId's friends
        change, and neither user is looked up. */
    method AddFriend(userId: int, friendId: int)
      modifies this
      ensures friendship == old(friendship) + {(userId, friendId)}
      ensures (userId, friendId) in old(friendship) ==> friendship == old(friendship)
      ensures Targets(friendship, userId) == Targets(old(friendship), userId) + {friendId}
      ensures forall k :: k != userId ==> Targets(friendship, k) == Targets(old(friendship), k)
      ensures users == old(users)
    {
      friendship := friendship + {(userId, friendId)};
    }

    /** removeFriend: only the directed (userId, friendId) edge goes; the
        reverse edge, if any, stays. */
    method RemoveFriend(userId: int, friendId: int)
      modifies this
      ensures friendship == old(friendship) - {(userId, friendId)}
      ensures userId != friendId && (friendId, userId) in old(friendship) ==> (friendId, userId) in friendship
      ensures Targets(friendship, userId) == Targets(old(friendship), userId) - {friendId}
      ensures forall k :: k != userId ==> Targets(friendship, k) == Targets(old(friendship), k)
      ensures users == old(users)
    {
      friendship := friendship - {(userId, friendId)};
    }

    /** getFriends: the users at the other end of userId's outgoing edges
        that exist in the users table (an inner join), each once, with their
        columns and without their own friends loaded.  An unknown user is no
        error here. */
    function GetFriends(userId: int, rows: seq<UserRow>): (r: seq<User>)
      requires RowsOf(rows, Targets(friendship, userId))
      reads this
      ensures IdsOf(r) == Targets(friendship, userId) * users.Keys
      ensures |r| == |Targets(friendship, userId) * users.Keys|
      ensures forall i :: 0 <= i < |r| ==> r[i].id.Some? && r[i].id.value in users && r[i] == Bare(r[i].id.value)
    {
      RowsAreTheSelectedUsers(rows, Targets(friendship, userId));
      UsersFrom(rows)
    }

    /** getCommonFriends: the stored users that are targets of an edge from
        userId and of an edge from otherId, each once, without their friends
        loaded. */
    function GetCommonFriends(userId: int, otherId: int, rows: seq<UserRow>): (r: seq<User>)
      requires RowsOf(rows, Targets(friendship, userId) * Targets(friendship, otherId))
      reads this
      ensures IdsOf(r) == Targets(friendship, userId) * Targets(friendship, otherId) * users.Keys
      ensures |r| == |Targets(friendship, userId) * Targets(friendship, otherId) * users.Keys|
      ensures forall i :: 0 <= i < |r| ==> r[i].id.Some? && r[i].id.value in users && r[i] == Bare(r[i].id.value)
    {
      RowsAreTheSelectedUsers(rows, Targets(friendship, userId) * Targets(friendship, otherId));
      UsersFrom(rows)
    }
  }
}
