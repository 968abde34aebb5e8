/** The participant-roster reducers of the editor (src/components/PresentationEditor.tsx,
    the `UserJoined`, `UserLeft`, `UserList` and `UserRoleChanged` handlers). */
module Roster {
  import opened Wrappers
  import opened Models
  import opened Seqs

  /** Some roster entry carries connection id `cid` (`users.some(u => u.connectionId === cid)`). */
  predicate HasConnection(users: seq<PresentationUser>, cid: string)
  {
    exists i :: 0 <= i < |users| && users[i].connectionId == cid
  }

  /** No two roster entries share a connection id. */
  predicate UniqueConnections(users: seq<PresentationUser>)
  {
    forall i, j :: 0 <= i < j < |users| ==> users[i].connectionId != users[j].connectionId
  }

  /** `UserJoined`: a join broadcast for a connection already on the roster changes nothing;
      otherwise the user is appended after every existing entry. */
  function UserJoined(users: seq<PresentationUser>, user: PresentationUser): (r: seq<PresentationUser>)
    ensures users <= r
    ensures HasConnection(r, user.connectionId)
    ensures HasConnection(users, user.connectionId) ==> r == users
    ensures !HasConnection(users, user.connectionId) ==> |r| == |users| + 1 && r[|users|] == user
  {
    if HasConnection(users, user.connectionId) then users
    else
      var r := users + [user];
      assert r[|users|].connectionId == user.connectionId;
      r
  }

  lemma UserJoinedIdempotent(users: seq<PresentationUser>, user: PresentationUser)
    ensures UserJoined(UserJoined(users, user), user) == UserJoined(users, user)
  {
  }

  /** A join never creates a second entry for a connection id. */
  lemma UserJoinedKeepsUnique(users: seq<PresentationUser>, user: PresentationUser)
    requires UniqueConnections(users)
    ensures UniqueConnections(UserJoined(users, user))
  {
  }

  /** Applying a series of join broadcasts in delivery order. */
  function JoinAll(users: seq<PresentationUser>, joins: seq<PresentationUser>): (r: seq<PresentationUser>)
    ensures users <= r
    ensures |r| <= |users| + |joins|
    decreases joins
  {
    if joins == [] then users else JoinAll(UserJoined(users, joins[0]), joins[1..])
  }

  /** However many duplicate join broadcasts arrive, in whatever interleaving, each
      connection id keeps at most one roster entry, and every joiner is on the roster. */
  lemma {:induction false} JoinAllKeepsUnique(users: seq<PresentationUser>, joins: seq<PresentationUser>)
    requires UniqueConnections(users)
    ensures UniqueConnections(JoinAll(users, joins))
    ensures forall k :: 0 <= k < |joins| ==> HasConnection(JoinAll(users, joins), joins[k].connectionId)
    decreases joins
  {
    if joins != [] {
      var next := UserJoined(users, joins[0]);
      UserJoinedKeepsUnique(users, joins[0]);
      JoinAllKeepsUnique(next, joins[1..]);
      var r := JoinAll(users, joins);
      assert r == JoinAll(next, joins[1..]);
      forall k | 0 <= k < |joins|
        ensures HasConnection(r, joins[k].connectionId)
      {
        if k == 0 {
          var i :| 0 <= i < |next| && next[i].connectionId == joins[0].connectionId;
          assert r[i] == next[i];
        } else {
          assert joins[k] == joins[1..][k - 1];
        }
      }
    }
  }

  function OtherConnection(cid: string): PresentationUser -> bool
  {
    (u: PresentationUser) => u.connectionId != cid
  }

  /** `UserLeft`: drop every entry with that connection id. */
  function UserLeft(users: seq<PresentationUser>, cid: string): (r: seq<PresentationUser>)
    ensures !HasConnection(r, cid)
    ensures forall u :: u in r <==> u in users && u.connectionId != cid
    ensures |r| <= |users|
  {
    Filter(users, OtherConnection(cid))
  }

  /** A leave broadcast for an unknown connection is a no-op. */
  lemma UserLeftUnknownIsNoop(users: seq<PresentationUser>, cid: string)
    requires !HasConnection(users, cid)
    ensures UserLeft(users, cid) == users
  {
    FilterAllKept(users, OtherConnection(cid));
  }

  /** The remaining entries keep their relative order. */
  lemma UserLeftKeepsOrder(a: seq<PresentationUser>, b: seq<PresentationUser>, cid: string)
    ensures UserLeft(a + b, cid) == UserLeft(a, cid) + UserLeft(b, cid)
  {
    FilterConcat(a, b, OtherConnection(cid));
  }

  /** The first entry of `users` with nickname `nick` (`users.find(u => u.nickname === nick)`). */
  function FirstWithNickname(users: seq<PresentationUser>, nick: string): (r: Option<nat>)
    ensures r.Some? ==> r.value < |users| && users[r.value].nickname == nick
    ensures r.Some? ==> forall j :: 0 <= j < r.value ==> users[j].nickname != nick
    ensures r.None? ==> forall j :: 0 <= j < |users| ==> users[j].nickname != nick
  {
    if users == [] then None
    else if users[0].nickname == nick then Some(0)
    else
      match FirstWithNickname(users[1..], nick)
      case None => None
      case Some(k) => Some(k + 1)
  }

  /** `UserList`, current-user part: the local participant becomes the first entry of the new
      roster whose nickname is the local nickname; with no such entry it stays as it was. */
  function CurrentUserFromList(userList: seq<PresentationUser>, nick: string, current: Option<PresentationUser>): (r: Option<PresentationUser>)
    ensures r != current ==> r.Some? && r.value in userList && r.value.nickname == nick
    ensures (exists i :: 0 <= i < |userList| && userList[i].nickname == nick) ==>
              r.Some? && r.value.nickname == nick &&
              exists i :: 0 <= i < |userList| && userList[i] == r.value &&
                (forall j :: 0 <= j < i ==> userList[j].nickname != nick)
  {
    match FirstWithNickname(userList, nick)
    case Some(i) => Some(userList[i])
    case None => current
  }

  /** `UserRoleChanged`, roster part: only the role of entries with that connection id changes. */
  function UserRoleChanged(users: seq<PresentationUser>, cid: string, role: UserRole): (r: seq<PresentationUser>)
    ensures |r| == |users|
    ensures forall i :: 0 <= i < |r| ==>
              r[i].connectionId == users[i].connectionId &&
              r[i].nickname == users[i].nickname &&
              r[i].presentationId == users[i].presentationId
    ensures forall i :: 0 <= i < |r| ==>
              r[i].role == if users[i].connectionId == cid then role else users[i].role
  {
    seq(|users|, i requires 0 <= i < |users| =>
      if users[i].connectionId == cid then users[i].(role := role) else users[i])
  }

  /** `UserRoleChanged`, current-user part: the cached local participant changes role only
      when it is the participant named by the broadcast. */
  function CurrentUserRoleChanged(current: Option<PresentationUser>, cid: string, role: UserRole): (r: Option<PresentationUser>)
    ensures r.Some? == current.Some?
    ensures current.Some? && current.value.connectionId != cid ==> r == current
    ensures current.Some? && current.value.connectionId == cid ==>
              r.value.role == role && r.value == current.value.(role := r.value.role)
  {
    if current.Some? && current.value.connectionId == cid then Some(current.value.(role := role)) else current
  }

  /** A role change renames nobody: the set of connection ids and their uniqueness are kept. */
  lemma UserRoleChangedKeepsConnections(users: seq<PresentationUser>, cid: string, role: UserRole)
    ensures forall c :: HasConnection(UserRoleChanged(users, cid, role), c) <==> HasConnection(users, c)
    ensures UniqueConnections(users) ==> UniqueConnections(UserRoleChanged(users, cid, role))
  {
    var r := UserRoleChanged(users, cid, role);
    forall c
      ensures HasConnection(r, c) <==> HasConnection(users, c)
    {
      if HasConnection(users, c) {
        var i :| 0 <= i < |users| && users[i].connectionId == c;
        assert r[i].connectionId == c;
      }
    }
  }

  lemma UserRoleChangedIdempotent(users: seq<PresentationUser>, cid: string, role: UserRole)
    ensures UserRoleChanged(UserRoleChanged(users, cid, role), cid, role) == UserRoleChanged(users, cid, role)
  {
  }

  /** A role change for a connection that is not on the roster is a no-op. */
  lemma UserRoleChangedUnknownIsNoop(users: seq<PresentationUser>, cid: string, role: UserRole)
    requires !HasConnection(users, cid)
    ensures UserRoleChanged(users, cid, role) == users
  {
    var r := UserRoleChanged(users, cid, role);
    forall i | 0 <= i < |users|
      ensures r[i] == users[i]
    {
      assert users[i].connectionId != cid;
    }
  }

  /** When the cached local participant is a roster entry, the two stay equal after the
      same role-change broadcast is applied to both. */
  lemma CurrentUserAgreesWithRoster(users: seq<PresentationUser>, k: nat, cid: string, role: UserRole)
    requires k < |users|
    ensures CurrentUserRoleChanged(Some(users[k]), cid, role) == Some(UserRoleChanged(users, cid, role)[k])
  {
  }
}
