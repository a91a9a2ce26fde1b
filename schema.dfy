/** Record shapes of the three collections the services work on (users,
    groups, messages), and the failure-compatible wrappers the services
    use to return either a value or an error. */
module Schema {

  /** Document identifiers (MongoDB ObjectIds) are opaque; only equality matters. */
  type UserId = nat
  type GroupId = nat

  /** An opaque token string (a signed JWT in the running system). */
  type Token = string

  /** Timestamps are given instants; the store, not the service, assigns them. */
  type Instant = int

  datatype Option<+T> = None | Some(value: T)

  datatype Result<+R, +E> = Success(value: R) | Failure(error: E)

  /** A user document: only the fields the modelled services read or write. */
  datatype User = User(email: string, groups: seq<GroupId>, refreshToken: Option<Token>)

  datatype GroupType = Public | Private

  /** One outstanding invitation of a group. */
  datatype Invitation = Invitation(userId: UserId, token: Token, expiresAt: Instant)

  /** A group document, with its own id as the services receive it. */
  datatype Group = Group(
    id: GroupId,
    name: string,
    kind: GroupType,
    admin: UserId,
    members: seq<UserId>,
    inviteToken: seq<Invitation>)

  /** A message document; createdAt is the timestamp the store adds on save. */
  datatype Message = Message(groupId: GroupId, senderId: UserId, content: string, createdAt: Instant)

  /** No element occurs twice. */
  predicate NoDuplicates<T(==)>(s: seq<T>) {
    forall i, j :: 0 <= i < j < |s| ==> s[i] != s[j]
  }

  /** A duplicate-free list is a head the tail does not repeat, followed by a duplicate-free tail. */
  lemma NoDuplicatesCons<T>(s: seq<T>)
    requires s != []
    ensures NoDuplicates(s) <==> s[0] !in s[1..] && NoDuplicates(s[1..])
  {
    if NoDuplicates(s) {
      forall k | 0 <= k < |s[1..]| ensures s[1..][k] != s[0] {
        assert s[1..][k] == s[k + 1];
      }
    }
    if s[0] !in s[1..] && NoDuplicates(s[1..]) {
      forall i, j | 0 <= i < j < |s| ensures s[i] != s[j] {
        assert s[j] == s[1..][j - 1];
        if i > 0 {
          assert s[i] == s[1..][i - 1];
        }
      }
    }
  }
}
