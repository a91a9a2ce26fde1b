/** The user-table bookkeeping of the user service: the per-user list of
    group ids, and the one-slot refresh token that login, refresh and
    logout move through. The table is a map from user id to user
    document; every mutating method of UserStore is proved equal to a
    pure function of the old table, and the lemmas below are about those
    functions. */
module UserService {
  import opened Schema

  /** The pair the token issuer hands out. */
  datatype Tokens = Tokens(accessToken: Token, refreshToken: Token)

  /** What verifying a token with the secret yields: the verifier either
      rejects it (bad signature, expired: the library throws its own
      error) or hands back a payload, which may or may not carry an _id. */
  datatype Verified = Rejected | Payload(id: Option<UserId>)

  datatype AuthError =
    | SecretUndefined       // "JWT_SECRET is not defined"
    | VerifyRejected        // the verifier's own error, passed through
    | InvalidRefreshToken   // "Invalid refresh token"
    | UserNotFound          // "User not found"

  /** Every user's group list is free of duplicates. */
  ghost predicate GroupListsDistinct(users: map<UserId, User>) {
    forall id :: id in users ==> NoDuplicates(users[id].groups)
  }

  // ---------------------------------------------------------------------
  // Array operators on one user's group list

  /** `$addToSet`: append g unless it is already there. */
  function AddToSet(gs: seq<GroupId>, g: GroupId): (r: seq<GroupId>)
    ensures g in r
    ensures forall x :: x in r <==> x in gs || x == g
    ensures |gs| <= |r| <= |gs| + 1 && r[..|gs|] == gs
    ensures NoDuplicates(gs) ==> NoDuplicates(r)
    ensures g in gs ==> r == gs
  {
    if g in gs then gs else gs + [g]
  }

  /** `$pull`: remove every occurrence of g, keeping the order of the rest. */
  function Pull(gs: seq<GroupId>, g: GroupId): (r: seq<GroupId>)
    ensures g !in r
    ensures forall x :: x in r <==> x in gs && x != g
    ensures |r| <= |gs|
    ensures NoDuplicates(gs) ==> NoDuplicates(r)
    ensures g !in gs ==> r == gs
    ensures multiset(r) == multiset(gs)[g := 0]
  {
    if gs == [] then []
    else
      assert gs == [gs[0]] + gs[1..];
      assert multiset(gs) == multiset{gs[0]} + multiset(gs[1..]);
      if gs[0] == g then Pull(gs[1..], g)
      else
      var rest := Pull(gs[1..], g);
      NoDuplicatesCons(gs);
      NoDuplicatesCons([gs[0]] + rest);
      assert ([gs[0]] + rest)[1..] == rest;
      [gs[0]] + rest
  }

  /** `$pull` works element by element, so the rest keep their order:
      pulling from a concatenation concatenates what is pulled from each part. */
  lemma {:induction false} PullConcat(a: seq<GroupId>, b: seq<GroupId>, g: GroupId)
    ensures Pull(a + b, g) == Pull(a, g) + Pull(b, g)
  {
    if a == [] {
      assert a + b == b;
    } else {
      var ab := a + b;
      assert ab != [] && ab[0] == a[0] && ab[1..] == a[1..] + b;
      PullConcat(a[1..], b, g);
      if a[0] == g {
        calc {
          Pull(ab, g);
          Pull(a[1..] + b, g);
          Pull(a[1..], g) + Pull(b, g);
        }
      } else {
        calc {
          Pull(ab, g);
          [a[0]] + Pull(a[1..] + b, g);
          [a[0]] + (Pull(a[1..], g) + Pull(b, g));
          ([a[0]] + Pull(a[1..], g)) + Pull(b, g);
        }
      }
    }
  }

  /** A single element is dropped by `$pull` exactly when it is g. */
  lemma PullSingle(x: GroupId, g: GroupId)
    ensures Pull([x], g) == if x == g then [] else [x]
  {
    assert [x][1..] == [];
  }

  // ---------------------------------------------------------------------
  // Table updates

  /** `findByIdAndUpdate(userId, {$addToSet: {groups: groupId}})`; an
      unknown id matches no document and changes nothing. */
  function AddGroupToUser(users: map<UserId, User>, userId: UserId, groupId: GroupId): (r: map<UserId, User>)
    ensures r.Keys == users.Keys
    ensures forall id :: id in users && id != userId ==> r[id] == users[id]
    ensures userId in users ==>
      && groupId in r[userId].groups
      && (forall x :: x in r[userId].groups <==> x in users[userId].groups || x == groupId)
      && r[userId].email == users[userId].email
      && r[userId].refreshToken == users[userId].refreshToken
    ensures userId in users && groupId in users[userId].groups ==> r == users
  {
    if userId in users
    then users[userId := users[userId].(groups := AddToSet(users[userId].groups, groupId))]
    else users
  }

  /** `updateMany({_id: {$in: group.members}}, {$pull: {groups: group._id}})`. */
  function DetachGroup(users: map<UserId, User>, group: Group): (r: map<UserId, User>)
    ensures r.Keys == users.Keys
    ensures forall id :: id in users && id !in group.members ==> r[id] == users[id]
    ensures forall id :: id in users && id in group.members ==>
      && group.id !in r[id].groups
      && (forall x :: x in r[id].groups <==> x in users[id].groups && x != group.id)
      && r[id].email == users[id].email
      && r[id].refreshToken == users[id].refreshToken
  {
    map id | id in users ::
      if id in group.members then users[id].(groups := Pull(users[id].groups, group.id)) else users[id]
  }

  /** `findByIdAndUpdate(userId, {refreshToken: t})`; an unknown id changes nothing. */
  function SetRefreshToken(users: map<UserId, User>, userId: UserId, t: Option<Token>): (r: map<UserId, User>)
    ensures r.Keys == users.Keys
    ensures forall id :: id in users && id != userId ==> r[id] == users[id]
    ensures userId in users ==>
      && r[userId].refreshToken == t
      && r[userId].email == users[userId].email
      && r[userId].groups == users[userId].groups
  {
    if userId in users then users[userId := users[userId].(refreshToken := t)] else users
  }

  /** The result of a refresh together with the table it leaves behind. */
  datatype Outcome = Outcome(result: Result<Tokens, AuthError>, users: map<UserId, User>)

  /** The refresh-token exchange: the secret must be configured, the token
      must verify to a payload with an _id, that user must exist, and the
      presented token must be the one stored for them; then a new pair is
      issued and its refresh token replaces the stored one. */
  function Refresh(users: map<UserId, User>, token: Token, secret: string,
                   verify: (Token, string) -> Verified, issue: User -> Tokens): (o: Outcome)
    ensures o.result.Failure? ==> o.users == users
    ensures o.result.Success? ==>
      exists id :: id in users && verify(token, secret) == Payload(Some(id))
        && users[id].refreshToken == Some(token)
        && o.result.value == issue(users[id])
        && o.users == SetRefreshToken(users, id, Some(o.result.value.refreshToken))
  {
    if secret == "" then Outcome(Failure(SecretUndefined), users)
    else match verify(token, secret)
      case Rejected => Outcome(Failure(VerifyRejected), users)
      case Payload(None) => Outcome(Failure(InvalidRefreshToken), users)
      case Payload(Some(id)) =>
        if id !in users then Outcome(Failure(UserNotFound), users)
        else if users[id].refreshToken != Some(token) then Outcome(Failure(InvalidRefreshToken), users)
        else
          var tokens := issue(users[id]);
          Outcome(Success(tokens), SetRefreshToken(users, id, Some(tokens.refreshToken)))
  }

  // ---------------------------------------------------------------------
  // Properties of the group-list bookkeeping

  /** Adding the same group to the same user twice is the same as once. */
  lemma UpdateUserGroupIdempotent(users: map<UserId, User>, userId: UserId, groupId: GroupId)
    ensures AddGroupToUser(AddGroupToUser(users, userId, groupId), userId, groupId)
         == AddGroupToUser(users, userId, groupId)
  {
  }

  /** `$addToSet` never introduces a duplicate into any list. */
  lemma UpdateUserGroupKeepsDistinct(users: map<UserId, User>, userId: UserId, groupId: GroupId)
    requires GroupListsDistinct(users)
    ensures GroupListsDistinct(AddGroupToUser(users, userId, groupId))
  {
  }

  /** `$pull` never introduces a duplicate into any list. */
  lemma DetachGroupKeepsDistinct(users: map<UserId, User>, group: Group)
    requires GroupListsDistinct(users)
    ensures GroupListsDistinct(DetachGroup(users, group))
  {
  }

  /** Pulling the same group from the same members twice is the same as
      once, so the detachment can be replayed safely. */
  lemma DetachGroupIdempotent(users: map<UserId, User>, group: Group)
    ensures DetachGroup(DetachGroup(users, group), group) == DetachGroup(users, group)
  {
    var once := DetachGroup(users, group);
    var twice := DetachGroup(once, group);
    forall id | id in users
      ensures twice[id] == once[id]
    {
      if id in group.members {
        assert group.id !in once[id].groups;
      }
    }
  }

  /** When every user who lists the group is one of its members (the two
      sides of the membership agree), no user lists the group afterwards. */
  lemma DetachGroupClearsEveryone(users: map<UserId, User>, group: Group)
    requires forall id :: id in users && group.id in users[id].groups ==> id in group.members
    ensures forall id :: id in DetachGroup(users, group) ==> group.id !in DetachGroup(users, group)[id].groups
  {
  }

  // ---------------------------------------------------------------------
  // Properties of the refresh-token lifecycle

  /** Refresh succeeds exactly when the secret is set, the token carries
      the id of an existing user and equals that user's stored token. */
  lemma RefreshSucceedsIff(users: map<UserId, User>, token: Token, secret: string,
                           verify: (Token, string) -> Verified, issue: User -> Tokens)
    ensures Refresh(users, token, secret, verify, issue).result.Success? <==>
      secret != "" && (exists id :: id in users && verify(token, secret) == Payload(Some(id))
                                  && users[id].refreshToken == Some(token))
  {
  }

  /** The three rejections of a configured refresh, each leaving the table as it was. */
  lemma RefreshRejections(users: map<UserId, User>, token: Token, secret: string,
                          verify: (Token, string) -> Verified, issue: User -> Tokens)
    requires secret != ""
    ensures verify(token, secret) == Payload(None) ==>
      Refresh(users, token, secret, verify, issue) == Outcome(Failure(InvalidRefreshToken), users)
    ensures forall id :: verify(token, secret) == Payload(Some(id)) && id !in users ==>
      Refresh(users, token, secret, verify, issue) == Outcome(Failure(UserNotFound), users)
    ensures forall id :: verify(token, secret) == Payload(Some(id)) && id in users
                           && users[id].refreshToken != Some(token) ==>
      Refresh(users, token, secret, verify, issue) == Outcome(Failure(InvalidRefreshToken), users)
  {
  }

  /** The refresh token that login stores is accepted by the next refresh,
      provided it verifies to the user's id. */
  lemma LoginEnablesRefresh(users: map<UserId, User>, userId: UserId, secret: string,
                            verify: (Token, string) -> Verified, issue: User -> Tokens)
    requires userId in users && secret != ""
    requires verify(issue(users[userId]).refreshToken, secret) == Payload(Some(userId))
    ensures
      var t := issue(users[userId]).refreshToken;
      Refresh(SetRefreshToken(users, userId, Some(t)), t, secret, verify, issue).result.Success?
  {
  }

  /** Rotation: once a refresh has replaced the stored token, presenting
      the old token again is refused, unless the issuer handed out the
      very same string. */
  lemma RefreshRotates(users: map<UserId, User>, token: Token, secret: string,
                       verify: (Token, string) -> Verified, issue: User -> Tokens)
    requires Refresh(users, token, secret, verify, issue).result.Success?
    requires Refresh(users, token, secret, verify, issue).result.value.refreshToken != token
    ensures
      var after := Refresh(users, token, secret, verify, issue).users;
      Refresh(after, token, secret, verify, issue) == Outcome(Failure(InvalidRefreshToken), after)
  {
    var o := Refresh(users, token, secret, verify, issue);
    var id :| id in users && verify(token, secret) == Payload(Some(id))
      && users[id].refreshToken == Some(token)
      && o.result.value == issue(users[id])
      && o.users == SetRefreshToken(users, id, Some(o.result.value.refreshToken));
    assert o.users[id].refreshToken == Some(o.result.value.refreshToken);
  }

  /** A run of refresh attempts, each on the table the previous one left. */
  function RefreshRun(users: map<UserId, User>, tokens: seq<Token>, secret: string,
                      verify: (Token, string) -> Verified, issue: User -> Tokens): (run: (seq<Result<Tokens, AuthError>>, map<UserId, User>))
    ensures |run.0| == |tokens|
    ensures run.1.Keys == users.Keys
  {
    if tokens == [] then ([], users)
    else
      var first := Refresh(users, tokens[0], secret, verify, issue);
      var rest := RefreshRun(first.users, tokens[1..], secret, verify, issue);
      ([first.result] + rest.0, rest.1)
  }

  /** After logout (an empty slot), every later refresh that names the
      logged-out user fails, however many attempts for any users come in
      between, and the slot stays empty. */
  lemma {:induction false} LoggedOutUserCannotRefresh(users: map<UserId, User>, userId: UserId,
                                                      tokens: seq<Token>, secret: string,
                                                      verify: (Token, string) -> Verified, issue: User -> Tokens)
    requires userId in users && users[userId].refreshToken == None
    ensures
      var run := RefreshRun(users, tokens, secret, verify, issue);
      && run.1[userId].refreshToken == None
      && forall k :: 0 <= k < |tokens| && verify(tokens[k], secret) == Payload(Some(userId)) ==> run.0[k].Failure?
  {
    if tokens != [] {
      var first := Refresh(users, tokens[0], secret, verify, issue);
      assert first.users[userId].refreshToken == None by {
        if first.result.Success? {
          var id :| id in users && verify(tokens[0], secret) == Payload(Some(id))
            && users[id].refreshToken == Some(tokens[0])
            && first.users == SetRefreshToken(users, id, Some(first.result.value.refreshToken));
          assert id != userId;
        }
      }
      LoggedOutUserCannotRefresh(first.users, userId, tokens[1..], secret, verify, issue);
      var run := RefreshRun(users, tokens, secret, verify, issue);
      var rest := RefreshRun(first.users, tokens[1..], secret, verify, issue);
      assert run.0 == [first.result] + rest.0;
      forall k | 0 <= k < |tokens| && verify(tokens[k], secret) == Payload(Some(userId))
        ensures run.0[k].Failure?
      {
        if k > 0 {
          assert tokens[1..][k - 1] == tokens[k];
        }
      }
    }
  }

  /** Logout followed by any single refresh for that user fails. */
  lemma LogoutRevokes(users: map<UserId, User>, userId: UserId, token: Token, secret: string,
                      verify: (Token, string) -> Verified, issue: User -> Tokens)
    requires userId in users && secret != ""
    requires verify(token, secret) == Payload(Some(userId))
    ensures
      var out := SetRefreshToken(users, userId, None);
      Refresh(out, token, secret, verify, issue) == Outcome(Failure(InvalidRefreshToken), out)
  {
  }

  // ---------------------------------------------------------------------
  // The user collection

  class UserStore {
    var users: map<UserId, User>

    constructor (initial: map<UserId, User>)
      ensures users == initial
    {
      users := initial;
    }

    /** `findById(id)`. */
    function GetUserById(id: UserId): (r: Option<User>)
      reads this
      ensures r.Some? <==> id in users
      ensures r.Some? ==> r.value == users[id]
    {
      if id in users then Some(users[id]) else None
    }

    /** `findOne({email})`: some user with that email, if there is one;
        which one, when several share it, the store does not say. */
    method GetUserByEmail(email: string) returns (r: Option<UserId>)
      ensures r.None? <==> forall id :: id in users ==> users[id].email != email
      ensures r.Some? ==> r.value in users && users[r.value].email == email
    {
      if exists id :: id in users && users[id].email == email {
        var id :| id in users && users[id].email == email;
        r := Some(id);
      } else {
        r := None;
      }
    }

    /** Looks the user up by email, issues a token pair for them and
        stores its refresh token. The password is carried but not compared
        here. */
    method LoginUser(email: string, password: string, issue: User -> Tokens) returns (r: Result<Tokens, AuthError>)
      modifies this
      ensures r.Failure? <==> forall id :: id in old(users) ==> old(users)[id].email != email
      ensures r.Failure? ==> r.error == UserNotFound && users == old(users)
      ensures r.Success? ==>
        exists id :: id in old(users) && old(users)[id].email == email
          && r.value == issue(old(users)[id])
          && users == SetRefreshToken(old(users), id, Some(r.value.refreshToken))
    {
      var found := GetUserByEmail(email);
      match found {
        case None =>
          r := Failure(UserNotFound);
        case Some(id) =>
          var tokens := issue(users[id]);
          users := SetRefreshToken(users, id, Some(tokens.refreshToken));
          r := Success(tokens);
      }
    }

    /** Exchanges a stored refresh token for a new pair. */
    method RefreshToken(token: Token, secret: string, verify: (Token, string) -> Verified,
                        issue: User -> Tokens) returns (r: Result<Tokens, AuthError>)
      modifies this
      ensures Outcome(r, users) == Refresh(old(users), token, secret, verify, issue)
    {
      if secret == "" {
        return Failure(SecretUndefined);
      }
      var decoded := verify(token, secret);
      if decoded.Rejected? {
        return Failure(VerifyRejected);
      }
      if decoded.id.None? {
        return Failure(InvalidRefreshToken);
      }
      var user := GetUserById(decoded.id.value);
      if user.None? {
        return Failure(UserNotFound);
      }
      if user.value.refreshToken != Some(token) {
        return Failure(InvalidRefreshToken);
      }
      var tokens := issue(user.value);
      users := SetRefreshToken(users, decoded.id.value, Some(tokens.refreshToken));
      r := Success(tokens);
    }

    /** Clears the user's refresh-token slot. */
    method Logout(userId: UserId)
      modifies this
      ensures users == SetRefreshToken(old(users), userId, None)
    {
      users := SetRefreshToken(users, userId, None);
    }

    /** Adds a group to one user's list, without duplicating it. */
    method UpdateUserGroup(userId: UserId, groupId: GroupId)
      modifies this
      ensures users == AddGroupToUser(old(users), userId, groupId)
    {
      users := AddGroupToUser(users, userId, groupId);
    }

    /** Removes the group's id from the list of every user the group names as a member. */
    method RemoveGroupIdFromEachMember(group: Group)
      modifies this
      ensures users == DetachGroup(old(users), group)
    {
      users := DetachGroup(users, group);
    }

    /** `deleteOne({_id: id})`, reporting how many documents went. */
    method DeleteUser(id: UserId) returns (deletedCount: nat)
      modifies this
      ensures users == old(users) - {id}
      ensures deletedCount == if id in old(users) then 1 else 0
    {
      deletedCount := if id in users then 1 else 0;
      users := users - {id};
    }
  }
}
