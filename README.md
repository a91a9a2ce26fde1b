# Group chat backend: user-table and message-store bookkeeping

This project models the store-level bookkeeping of a group-messaging
backend, written in TypeScript on Express and MongoDB. It covers two
services.

- The **user service** keeps, for each user, a list of the groups they
  belong to and one refresh-token slot. Adding a group uses set semantics
  (`$addToSet`). Deleting a group pulls its id from every listed member
  (`$pull` through `updateMany`). Login fills the slot. Refresh accepts
  only the stored token and rotates it. Logout empties the slot.
- The **message service** appends a message only when the sender passes
  the group-membership check. It lists a group's messages in ascending
  `createdAt` order once the group is known to exist. It removes all
  messages of a group when that group is deleted.

The model has three modules:

- `Schema` (schema.dfy): ids, record shapes (user, group, invitation,
  message) and `Option`/`Result`.
- `UserService` (user_service.dfy): the user table as a
  `map<UserId, User>` inside the class `UserStore`.
- `MessageService` (message_service.dfy): the message collection as a
  `seq<Message>` inside the class `MessageStore`.

Every method that changes a table is proved equal to a pure function of
the old table (`AddGroupToUser`, `DetachGroup`, `SetRefreshToken`,
`Refresh`, `WithoutGroup`). The lemmas state what the source promises
about those functions: no duplicates, idempotence, frame conditions,
rejection cases, token rotation and revocation, and the effect of a
delete on later listings.

Calls into code outside the model are parameters:

- `jwt.verify` is `verify: (Token, string) -> Verified`. A `Verified` is
  either a rejection (the library throws its own error) or a payload that
  may lack `_id`.
- `createUserAccessTokens` is `issue: User -> Tokens`.
- `process.env.JWT_SECRET` is the `secret` argument.
- The clock that stamps `createdAt` is the `now` argument.
- The group service's `checkUserExistInGroup` and `isGroupExist` are
  function parameters. Their bodies are not part of this model.
- The authenticated `req.user` is an `Option<UserId>`.

Three behaviours of the code worth noting:

- A non-member posting gets status 400
  (app/message/message.service.ts:33).
- `getAllMessages` checks only that the group exists, not that the
  caller is a member (app/message/message.service.ts:58-64).
- `loginUser` does not compare the password
  (app/user/user.service.ts:16-31).

`MessageService.Conversation` is a worked example, not a model of any
source function. A member posts, an outsider is refused, and a deletion
empties the group's listing. Its assertions show what a caller can prove
from the contracts alone.

## Model

| member | source | states |
|---|---|---|
| UserService.AddToSet | app/user/user.service.ts:172 | the group is in the result; the result holds exactly the old ids plus the group; the old list is a prefix and at most one id is added; a list that already holds the group comes back unchanged, duplicates included; a duplicate-free list stays duplicate-free |
| UserService.Pull | app/user/user.service.ts:187 | the group is not in the result; every other id keeps its multiplicity (the result's multiset is the old one with the group's count set to zero); no duplicate is introduced; a list without the group is returned as is |
| UserService.PullConcat | app/user/user.service.ts:187 | pulling from a concatenation is the concatenation of the pulls, so the remaining ids keep their order |
| UserService.PullSingle | app/user/user.service.ts:187 | a one-element list loses its element exactly when it is the pulled group |
| UserService.AddGroupToUser | app/user/user.service.ts:169-175 | same user ids; every other user unchanged; the named user, if present, lists the group, keeps all old groups and adds no other, and keeps email and refresh token; a user who already lists the group leaves the whole table unchanged |
| UserService.DetachGroup | app/user/user.service.ts:184-189 | same user ids; users not named in the group's members unchanged; each named member no longer lists the group, keeps every other group id, and keeps email and refresh token |
| UserService.SetRefreshToken | app/user/user.service.ts:22-26 | same user ids; every other user unchanged; the named user, if present, holds exactly the given slot value and keeps email and groups |
| UserService.Refresh | app/user/user.service.ts:121-151 | a failure leaves the table unchanged; a success means the token verified to an existing user whose stored token it is, the returned pair is the issuer's for that user, and the only change is that user's slot, which now holds the returned refresh token |
| UserService.UpdateUserGroupIdempotent | app/user/user.service.ts:172 | adding the same group to the same user twice gives the same table as adding it once |
| UserService.UpdateUserGroupKeepsDistinct | app/user/user.service.ts:164-172 | if no group list has a duplicate before the update, none has one after |
| UserService.DetachGroupKeepsDistinct | app/user/user.service.ts:185-188 | pulling a group id from the members introduces no duplicate into any list |
| UserService.DetachGroupIdempotent | app/user/user.service.ts:185-188 | repeating the detachment changes nothing, so it can be retried safely |
| UserService.DetachGroupClearsEveryone | app/user/user.service.ts:184-188 | if every user who lists the group is one of its members, then after detachment no user lists it |
| UserService.RefreshSucceedsIff | app/user/user.service.ts:129-150 | refresh succeeds if and only if the secret is set and the token verifies to the id of an existing user whose stored token equals it |
| UserService.RefreshRejections | app/user/user.service.ts:131-142 | with a secret set: a payload without `_id` gives "Invalid refresh token", an unknown id gives "User not found", a token other than the stored one gives "Invalid refresh token"; the table is unchanged in all three cases |
| UserService.LoginEnablesRefresh | app/user/user.service.ts:21-28 | after login stores the issued refresh token, refreshing with that token succeeds, provided it verifies to the user |
| UserService.RefreshRotates | app/user/user.service.ts:140-148 | after a successful refresh that issued a different token, presenting the old token again fails with "Invalid refresh token" and changes nothing |
| UserService.RefreshRun | app/user/user.service.ts:121-151 | a run of consecutive refresh attempts yields one result per attempt and keeps the set of user ids |
| UserService.LoggedOutUserCannotRefresh | app/user/user.service.ts:157-161 | once a user's slot is empty, every later refresh attempt whose token verifies to that user fails, over any run of attempts for any users, and the slot stays empty |
| UserService.LogoutRevokes | app/user/user.service.ts:157-161 | after logout, a refresh with any token that verifies to the user fails at the comparison of line 140 with "Invalid refresh token" and changes nothing |
| UserService.UserStore.GetUserById | app/user/user.service.ts:92-95 | returns the user stored under the id, and null exactly when there is none |
| UserService.UserStore.GetUserByEmail | app/user/user.service.ts:110-113 | returns the id of some user with that email, and null exactly when no user has it |
| UserService.UserStore.LoginUser | app/user/user.service.ts:16-32 | "User not found" with no change exactly when no user has the email; otherwise, for a user with that email, returns the issuer's pair and stores its refresh token in that user's slot, changing nothing else |
| UserService.UserStore.RefreshToken | app/user/user.service.ts:121-151 | result and new table are those of `Refresh` on the old table |
| UserService.UserStore.Logout | app/user/user.service.ts:157-161 | the user's slot is cleared to null; nothing else changes |
| UserService.UserStore.UpdateUserGroup | app/user/user.service.ts:169-175 | the new table is `AddGroupToUser` of the old one |
| UserService.UserStore.RemoveGroupIdFromEachMember | app/user/user.service.ts:184-189 | the new table is `DetachGroup` of the old one |
| UserService.UserStore.DeleteUser | app/user/user.service.ts:82-85 | the user's entry is removed and nothing else; the reported count is 1 if it existed, 0 otherwise |
| MessageService.OfGroup | app/message/message.service.ts:64 | contains a message exactly when the store holds it with that group id; it is no longer than the store |
| MessageService.WithoutGroup | app/message/message.service.ts:75 | contains a message exactly when the store holds it with another group id; it is no longer than the store |
| MessageService.Insert | app/message/message.service.ts:64 | inserting into a list in `createdAt` order keeps it in order and adds exactly the one message |
| MessageService.SortByCreatedAt | app/message/message.service.ts:64 | the result is in non-decreasing `createdAt` order and is a permutation of the input |
| MessageService.MessagesOf | app/message/message.service.ts:64 | the listing is in `createdAt` order, is a permutation of the group's messages, and contains a message exactly when the store holds it with that group id |
| MessageService.PartitionByGroup | app/message/message.service.ts:75 | the store, counted with multiplicity, is exactly the group's selection plus what deleting the group keeps; with the two filters' contracts, each holds every message of its side as many times as the store does |
| MessageService.OfGroupAppend | app/message/message.service.ts:34-40 | saving a message extends its own group's selection by exactly that message at the end and leaves every other group's selection unchanged |
| MessageService.OfGroupAfterDelete | app/message/message.service.ts:72-76 | after deleting a group, its selection is empty and every other group's selection is unchanged |
| MessageService.ListingAfterDelete | app/message/message.service.ts:64-75 | after deleting a group, listing it returns empty and listing any other group returns what it did before |
| MessageService.SortKeepsSorted | app/message/message.service.ts:64 | sorting a list already in `createdAt` order returns it unchanged |
| MessageService.OfGroupKeepsOrder | app/message/message.service.ts:64 | selecting from a store in `createdAt` order gives a list in `createdAt` order |
| MessageService.ListingInStoreOrder | app/message/message.service.ts:64 | when the store is in `createdAt` order, a group's listing is its messages in store order |
| MessageService.MessageStore.CreateMessage | app/message/message.service.ts:20-41 | no user gives 401 "Unauthorized"; failing the membership check gives 400 "User is not in the group"; both leave the store unchanged; success happens exactly when a user passes the check, and then appends exactly one message with the request's group id and content, the user as sender and the given timestamp, keeping all older messages |
| MessageService.MessageStore.GetAllMessages | app/message/message.service.ts:52-65 | no user gives 401 "Unauthorized"; a group that does not exist gives 400 "Group not found"; success happens exactly when there is a user and the group exists, with no membership check; it returns the group's messages, all of them, in `createdAt` order, and changes nothing |
| MessageService.MessageStore.DeleteMessageAssociateWithGroup | app/message/message.service.ts:72-76 | the new store is `WithoutGroup` of the old one: every message of the group is gone and all others are kept in order |

## Left out

- createUser, updateUser, editUser and getAllUser are not modelled. They are plain document writes and reads with no bookkeeping invariant, and updateUser needs the bcrypt hash. The whole table is the `users` field itself.
- UserService.UserStore.GetUserByEmail: picks any user with the email. `findOne` without a sort does not say which document it returns when several match, so neither does the model.
- The issuer gets the user record. In `refreshToken` the source passes a spread of a Mongoose document (line 143), not a plain record. What the unseen `createUserAccessTokens` makes of that is not modelled.
- Ids are opaque numbers. A malformed id string, which makes Mongoose throw a cast error in `findById`, is not modelled.
- The verifier's internals (signature, expiry) and the issuer's internals are abstract parameters. Where the secret comes from (the environment) is left out too.
- The group table and the group service are not part of this model. That covers invitations, join, the delete cascade that calls these services, analytics, and the bodies of `checkUserExistInGroup` and `isGroupExist`. `Group` is only the record `removeGroupIdFromEachMember` receives.
- Mongoose fills in `createdAt`; here it is the `now` argument. The saved document's `_id` and `updatedAt` are not modelled.
- The schema's `required` checks on save (for example an empty `content`) are not modelled. The request validator on the route rejects those bodies before the service runs.
- MessageService.SortByCreatedAt: breaks ties in `createdAt` by store order. MongoDB does not promise any tie order. So the contracts of `MessagesOf` and `GetAllMessages` promise only non-decreasing order and a permutation of the group's messages, and that is what the source guarantees.
- UserService.UserStore.DeleteUser: reports only `deletedCount`. The `acknowledged` flag of Mongo's delete result is left out.
- Routing, controllers, express-validator chains and passport wiring sit outside the services and are not modelled.
- Concurrency and async ordering are not modelled. Each operation is one atomic step. Races between the read and the write inside `loginUser`, and atomicity across the user and message collections, are out of scope.
