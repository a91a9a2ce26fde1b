/** The message collection of the message service: posting gated on
    group membership, the per-group listing in creation order gated on
    group existence, and the removal of a group's messages. The two gates
    are answered by the group service, whose code is not part of this
    model; they enter as function parameters. */
module MessageService {
  import opened Schema

  /** An HTTP error as the service raises it: a status and a message. */
  datatype HttpError = HttpError(status: nat, text: string)

  const UNAUTHORIZED := HttpError(401, "Unauthorized")
  const NOT_IN_GROUP := HttpError(400, "User is not in the group")
  const GROUP_NOT_FOUND := HttpError(400, "Group not found")

  /** The body of a send request. */
  datatype MessageInput = MessageInput(content: string, groupId: GroupId)

  // ---------------------------------------------------------------------
  // Selecting by group

  /** `find({groupId: g})` before sorting: the messages of g, in store order. */
  function OfGroup(ms: seq<Message>, g: GroupId): (r: seq<Message>)
    ensures forall m :: m in r <==> m in ms && m.groupId == g
    ensures |r| <= |ms|
  {
    if ms == [] then []
    else
      assert ms == [ms[0]] + ms[1..];
      if ms[0].groupId == g then [ms[0]] + OfGroup(ms[1..], g) else OfGroup(ms[1..], g)
  }

  /** What `deleteMany({groupId: g})` keeps: every message of another group, in store order. */
  function WithoutGroup(ms: seq<Message>, g: GroupId): (r: seq<Message>)
    ensures forall m :: m in r <==> m in ms && m.groupId != g
    ensures |r| <= |ms|
  {
    if ms == [] then []
    else
      assert ms == [ms[0]] + ms[1..];
      if ms[0].groupId != g then [ms[0]] + WithoutGroup(ms[1..], g) else WithoutGroup(ms[1..], g)
  }

  // ---------------------------------------------------------------------
  // Sorting by creation time, `sort({createdAt: 1})`

  predicate SortedByCreatedAt(s: seq<Message>) {
    forall i, j :: 0 <= i < j < |s| ==> s[i].createdAt <= s[j].createdAt
  }

  /** Places m in front of the first later message of a sorted list. */
  function Insert(m: Message, s: seq<Message>): (r: seq<Message>)
    requires SortedByCreatedAt(s)
    ensures SortedByCreatedAt(r)
    ensures multiset(r) == multiset(s) + multiset{m}
  {
    if s == [] then [m]
    else if m.createdAt <= s[0].createdAt then [m] + s
    else
      var rest := Insert(m, s[1..]);
      assert s == [s[0]] + s[1..];
      assert forall k :: 0 <= k < |rest| ==> rest[k] in multiset(s[1..]) + multiset{m};
      [s[0]] + rest
  }

  /** Ascending by createdAt; messages with equal timestamps keep their store order. */
  function SortByCreatedAt(s: seq<Message>): (r: seq<Message>)
    ensures SortedByCreatedAt(r)
    ensures multiset(r) == multiset(s)
  {
    if s == [] then []
    else
      assert s == [s[0]] + s[1..];
      Insert(s[0], SortByCreatedAt(s[1..]))
  }

  /** The listing of group g: its messages, earliest first. */
  function MessagesOf(ms: seq<Message>, g: GroupId): (r: seq<Message>)
    ensures SortedByCreatedAt(r)
    ensures multiset(r) == multiset(OfGroup(ms, g))
    ensures forall m :: m in r <==> m in ms && m.groupId == g
  {
    var r := SortByCreatedAt(OfGroup(ms, g));
    assert forall m :: m in r <==> m in multiset(r);
    r
  }

  // ---------------------------------------------------------------------
  // Properties

  /** Every message belongs either to the group's selection or to what a
      deletion of the group keeps, never to both, never to neither. */
  lemma {:induction false} PartitionByGroup(ms: seq<Message>, g: GroupId)
    ensures multiset(ms) == multiset(OfGroup(ms, g)) + multiset(WithoutGroup(ms, g))
  {
    if ms != [] {
      assert ms == [ms[0]] + ms[1..];
      PartitionByGroup(ms[1..], g);
    }
  }

  /** Appending a message extends the selection of its own group by exactly
      that message and leaves every other group's selection as it was. */
  lemma {:induction false} OfGroupAppend(ms: seq<Message>, m: Message, g: GroupId)
    ensures OfGroup(ms + [m], g) == if m.groupId == g then OfGroup(ms, g) + [m] else OfGroup(ms, g)
  {
    if ms == [] {
      assert [] + [m] == [m];
    } else {
      assert (ms + [m])[1..] == ms[1..] + [m];
      assert (ms + [m])[0] == ms[0];
      OfGroupAppend(ms[1..], m, g);
    }
  }

  /** After deleting group g, its selection is empty and every other
      group's selection is exactly what it was. */
  lemma {:induction false} OfGroupAfterDelete(ms: seq<Message>, g: GroupId, h: GroupId)
    ensures OfGroup(WithoutGroup(ms, g), h) == if h == g then [] else OfGroup(ms, h)
  {
    if ms != [] {
      OfGroupAfterDelete(ms[1..], g, h);
    }
  }

  /** Listing after deleting g: nothing for g, unchanged for every other group. */
  lemma ListingAfterDelete(ms: seq<Message>, g: GroupId, h: GroupId)
    ensures MessagesOf(WithoutGroup(ms, g), g) == []
    ensures h != g ==> MessagesOf(WithoutGroup(ms, g), h) == MessagesOf(ms, h)
  {
    OfGroupAfterDelete(ms, g, g);
    OfGroupAfterDelete(ms, g, h);
  }

  /** A list already in creation order comes out of the sort unchanged. */
  lemma {:induction false} SortKeepsSorted(s: seq<Message>)
    requires SortedByCreatedAt(s)
    ensures SortByCreatedAt(s) == s
  {
    if s != [] {
      assert SortedByCreatedAt(s[1..]);
      SortKeepsSorted(s[1..]);
      assert s == [s[0]] + s[1..];
    }
  }

  /** A selection of a store in creation order is in creation order. */
  lemma {:induction false} OfGroupKeepsOrder(ms: seq<Message>, g: GroupId)
    requires SortedByCreatedAt(ms)
    ensures SortedByCreatedAt(OfGroup(ms, g))
  {
    if ms != [] {
      assert SortedByCreatedAt(ms[1..]);
      OfGroupKeepsOrder(ms[1..], g);
      var rest := OfGroup(ms[1..], g);
      assert forall k :: 0 <= k < |rest| ==> rest[k] in ms[1..];
    }
  }

  /** When the store holds its messages in creation order (each save
      stamped no earlier than the one before), the listing of a group is
      its messages exactly in store order. */
  lemma ListingInStoreOrder(ms: seq<Message>, g: GroupId)
    requires SortedByCreatedAt(ms)
    ensures MessagesOf(ms, g) == OfGroup(ms, g)
  {
    OfGroupKeepsOrder(ms, g);
    SortKeepsSorted(OfGroup(ms, g));
  }

  // ---------------------------------------------------------------------
  // The message collection

  class MessageStore {
    var messages: seq<Message>

    constructor (initial: seq<Message>)
      ensures messages == initial
    {
      messages := initial;
    }

    /** Saves a message from user to data.groupId, stamped now, provided
        there is a user and the membership check passes. */
    method CreateMessage(user: Option<UserId>, data: MessageInput,
                         checkUserExistInGroup: (GroupId, UserId) -> bool, now: Instant)
      returns (r: Result<Message, HttpError>)
      modifies this
      ensures user.None? ==> r == Failure(UNAUTHORIZED)
      ensures user.Some? && !checkUserExistInGroup(data.groupId, user.value) ==> r == Failure(NOT_IN_GROUP)
      ensures r.Failure? ==> messages == old(messages)
      ensures r.Success? <==> user.Some? && checkUserExistInGroup(data.groupId, user.value)
      ensures r.Success? ==>
        && r.value == Message(data.groupId, user.value, data.content, now)
        && messages == old(messages) + [r.value]
    {
      if user.None? {
        return Failure(UNAUTHORIZED);
      }
      var isUserExistInGroup := checkUserExistInGroup(data.groupId, user.value);
      if !isUserExistInGroup {
        return Failure(NOT_IN_GROUP);
      }
      var message := Message(data.groupId, user.value, data.content, now);
      messages := messages + [message];
      r := Success(message);
    }

    /** The messages of a group, earliest first, provided there is a user
        and the group exists. Membership of the user is not consulted. */
    function GetAllMessages(user: Option<UserId>, groupId: GroupId, isGroupExist: GroupId -> bool)
      : (r: Result<seq<Message>, HttpError>)
      reads this
      ensures user.None? ==> r == Failure(UNAUTHORIZED)
      ensures user.Some? && !isGroupExist(groupId) ==> r == Failure(GROUP_NOT_FOUND)
      ensures r.Success? <==> user.Some? && isGroupExist(groupId)
      ensures r.Success? ==>
        && SortedByCreatedAt(r.value)
        && multiset(r.value) == multiset(OfGroup(messages, groupId))
        && (forall m :: m in r.value <==> m in messages && m.groupId == groupId)
    {
      if user.None? then Failure(UNAUTHORIZED)
      else if !isGroupExist(groupId) then Failure(GROUP_NOT_FOUND)
      else Success(MessagesOf(messages, groupId))
    }

    /** Removes every message of the group. */
    method DeleteMessageAssociateWithGroup(groupId: GroupId)
      modifies this
      ensures messages == WithoutGroup(old(messages), groupId)
    {
      messages := WithoutGroup(messages, groupId);
    }
  }

  /** A member posts, an outsider is turned away, the admin deletes the
      group's messages: what each participant then sees. */
  method Conversation(member: UserId, outsider: UserId, g: GroupId, other: Message)
    requires member != outsider && other.groupId != g
  {
    var inGroup := (group: GroupId, u: UserId) => group == g && u == member;
    var anyGroupExists := (group: GroupId) => true;
    var store := new MessageStore([other]);

    var sent := store.CreateMessage(Some(member), MessageInput("hello", g), inGroup, 10);
    assert sent.Success? && store.messages == [other, sent.value];
    var refused := store.CreateMessage(Some(outsider), MessageInput("hi", g), inGroup, 11);
    assert refused == Failure(NOT_IN_GROUP) && store.messages == [other, sent.value];
    var anonymous := store.CreateMessage(None, MessageInput("hi", g), inGroup, 12);
    assert anonymous == Failure(UNAUTHORIZED);

    var listed := store.GetAllMessages(Some(outsider), g, anyGroupExists);
    OfGroupAppend([other], sent.value, g);
    assert OfGroup([other], g) == [];
    assert OfGroup(store.messages, g) == [sent.value];
    assert listed.Success? && listed.value == [sent.value];

    store.DeleteMessageAssociateWithGroup(g);
    ListingAfterDelete([other, sent.value], g, other.groupId);
    assert store.GetAllMessages(Some(member), g, anyGroupExists) == Success([]);
    assert other in store.messages;
  }
}
