# Chat message store: a verified Dafny model

This project models the in-memory message store of a small chat server, `db/manager.py`. It has three managers:

- **UserManager** keeps the account table.
- **ChatManager** keeps every user's inbox: a conversation list of peer summaries in most-recently-active order, with unread counters, and one thread of private messages per peer. It also keeps the private message-id counter.
- **GroupManager** keeps the groups: members, messages and the last message, plus a group message-id counter of its own.

The model follows the source's own form:

- The managers are Dafny classes (`module Manager`, `manager.dfy`). Their fields are maps and sequences that the methods reassign.
- The `for … break / else` search loops become a `while` loop with invariants (`ChatManager.FindPeer`).
- The `users_list.index(...)` search in `update_user_list` becomes its own loop.
- `move_to_front` pops an element and re-inserts it at the front, as in the source.
- Each state-changing method is proved to leave exactly the state that a pure function of the old state describes.
- Those functions live in value modules, and the properties the source promises are proved about them there:
  - `ConversationList` (`conversation_list.dfy`): conversation lists.
  - `PrivateStore` (`private_store.dfy`): inboxes and threads.
  - `GroupStore` (`group_store.dfy`): groups.
  - `Accounts` (`accounts.dfy`): account records.
  - `MessageIds` (`message_ids.dfy`): `str(counter)` as decimal text.
- The read-only lookups are Dafny functions on the class state: `authenticate_user`, `user_exists` (the predicate `UserManager.UserExists`), the lookup of `getMessages`, `get_group_info` and `get_group_messages`.

Modelling choices:

- **Summary entries.** A summary's `count_message` key is optional, because `update_user_list` creates entries without it. It is an `Option<nat>` that is read as 0 when absent, as line 138 does.
- **Status results.** Where the source returns a status dictionary, or returns nothing, the model returns a datatype with one constructor per outcome, error paths included.
- **The KeyError in edit.** `edit_message` raises a KeyError at line 222 when the peer has no inbox. The model returns `PeerInboxMissing` together with the writes already made by then.
- **The KeyError in reset.** `reset_unread_message_count` raises a KeyError at line 151 when the user has no inbox, before any change. The model returns `ResetInboxMissing` and leaves the store as it was.
- **No answer from get_group_info.** `get_group_info` has no `else` for failed authentication, so it answers None. The model returns `InfoNone`.
- **Shared records.** The source stores one dictionary object in both threads (lines 270-272) and later edits it through both paths. The model keeps two value copies. `PrivateStore.Mirrored` states that they are equal, and both `Send` and `Edit` are proved to preserve it.

`Manager.HelloScenario` is a client of the classes. Two users register. One sends the other the first message, and the scenario reads back:

- the id "1";
- the sender at the front of the receiver's list with one unread message;
- the thread contents.

Then the sender edits the message, and both copies show the new text.

## Model

| member | source | states |
|---|---|---|
| MessageIds.NatToString | db/manager.py:243-245 | the identifier `str(counter)` is a non-empty string of decimal digits, at least two long from 10 on |
| MessageIds.IntToString | db/manager.py:244 | the identifier `str(counter)` of a new private or group message: a minus sign followed by the digits of the magnitude for a negative counter, the digits alone otherwise (no `ensures`: its sign and digit facts are `LeadingSign` and `NegativeDigits`, its injectivity is `IdsDistinct`) |
| MessageIds.NatToStringInjective | db/manager.py:243-245 | equal decimal texts come from equal counter values |
| MessageIds.IdsDistinct | db/manager.py:243-245 | two different counter values never yield the same identifier, so a rising counter never reissues an id |
| ConversationList.Find | db/manager.py:283 | the position found is the first entry whose username is the peer; no position means no entry has that username |
| ConversationList.MoveToFront | db/manager.py:299-302 | computes `pop(index)` followed by `insert(0, …)`: the element at an index in range is placed first and the rest keep their order; an index out of range leaves the list alone (no `ensures`: stated by `MoveToFrontSpec`) |
| ConversationList.MoveToFrontSpec | db/manager.py:299-302 | for an index in range, the element moves to position 0, the elements before it shift by one, the ones after it stay, and length and multiset are unchanged; out of range, the list is untouched |
| ConversationList.MoveToFrontUnique | db/manager.py:299-302 | moving an entry to the front keeps usernames pairwise distinct |
| ConversationList.Touch | db/manager.py:280-297 | computes `update_user_list` for one list: an existing entry for the peer gets the new preview and time and moves to the front, otherwise a new entry without a count is put at the front (no `ensures`: stated by the `Touch…` lemmas) |
| ConversationList.TouchFront | db/manager.py:280-297 | after `update_user_list` the peer is at index 0 with the new message and time and its old count (none for a new entry) |
| ConversationList.TouchLength | db/manager.py:280-297 | the list grows by exactly one entry when the peer was absent and keeps its length otherwise |
| ConversationList.TouchUnique | db/manager.py:280-297 | at most one entry per username is preserved |
| ConversationList.TouchKeepsOthers | db/manager.py:280-297 | the entries of all other peers keep their contents and relative order |
| ConversationList.TouchKeepsUnread | db/manager.py:280-297 | the unread count for the peer is unchanged |
| ConversationList.Increment | db/manager.py:134-147 | computes `increment_unread_message_count` for one list: an existing entry gets its count (missing counts as 0) plus one in place, otherwise an entry with empty preview and time and count 1 is put at the front (no `ensures`: stated by the `Increment…` lemmas) |
| ConversationList.IncrementExisting | db/manager.py:134-139 | an existing entry keeps its position and fields, its count becomes the old count (0 if missing) plus one, and every other position is unchanged |
| ConversationList.IncrementAbsent | db/manager.py:140-147 | for an absent peer, an entry with empty preview and count 1 is inserted at index 0 in front of the unchanged list |
| ConversationList.IncrementCount | db/manager.py:134-147 | the peer's unread count rises by exactly one in both cases |
| ConversationList.IncrementKeepsOthers | db/manager.py:134-147 | other peers' entries keep their contents and order |
| ConversationList.IncrementUnique | db/manager.py:134-147 | at most one entry per username is preserved |
| ConversationList.Reset | db/manager.py:150-155 | computes `reset_unread_message_count` for one list: the first entry for the peer gets count 0, and without one the list is unchanged (no `ensures`: stated by the `Reset…` lemmas) |
| ConversationList.ResetSpec | db/manager.py:150-155 | the length is kept; an absent peer leaves the list unchanged; a present one gets count 0 at the same position with its other fields, and every other position is unchanged |
| ConversationList.ResetClears | db/manager.py:150-155 | afterwards the peer's unread count is 0 |
| ConversationList.ResetKeepsOthers | db/manager.py:150-155 | other peers' entries keep their contents and order |
| ConversationList.IncrementNCount | db/manager.py:134-147 | after n increments the peer's unread count is the old count plus n, and for n > 0 the list has an entry for the peer |
| ConversationList.IncrementNThenReset | db/manager.py:134-155 | any positive number of increments followed by a reset leave an entry for the peer with count 0 |
| ConversationList.SetPreview | db/manager.py:217-225 | computes one preview loop of `edit_message`: the first entry for the peer shows the new text, and without one the list is unchanged (no `ensures`: stated by `SetPreviewSpec`) |
| ConversationList.SetPreviewSpec | db/manager.py:217-225 | the preview loop of `edit_message` changes only the `last_message` of the first entry for the peer; every other position is unchanged |
| ConversationList.SetPreviewKeepsOthers | db/manager.py:217-225 | other peers' entries keep their contents and order |
| ConversationList.OthersDetermineEntries | db/manager.py:280-297 | two lists that agree apart from one peer give every other peer the same entry |
| ConversationList.TouchKeepsEntries | db/manager.py:280-297 | `update_user_list` for one peer shows every other peer exactly as before |
| ConversationList.IncrementKeepsEntries | db/manager.py:134-147 | counting a message from one peer shows every other peer exactly as before |
| PrivateStore.Initialize | db/manager.py:189-198 | the set of users with an inbox grows by exactly the given user |
| PrivateStore.Prepare | db/manager.py:248-258 | afterwards both users have an inbox and a thread with each other, and no other inbox appears |
| PrivateStore.PrepareKeeps | db/manager.py:248-258 | creating inboxes and threads changes no message and no conversation list, and no other user's inbox |
| PrivateStore.Deliver | db/manager.py:260-272 | creates both inboxes and threads as needed and stores the record under the id in both copies; both users then have an inbox and the set of inboxes grows by just those two |
| PrivateStore.DeliverSpec | db/manager.py:260-272 | delivery stores the record under the id in exactly the two threads between the participants and changes no list, no other message and no other inbox |
| PrivateStore.Send | db/manager.py:248-276 | the store after `add_private_message`: deliver both copies, touch both lists, count one unread for the receiver (no `ensures`: stated by the `Send…` lemmas) |
| PrivateStore.SendWritesBothCopies | db/manager.py:260-272 | `messages[from][to][id]` and `messages[to][from][id]` both hold the new record |
| PrivateStore.SendKeepsOtherMessages | db/manager.py:260-272 | every other (owner, peer, id) lookup is unchanged by a send |
| PrivateStore.SendFronts | db/manager.py:274-275 | after a send each participant's list has the other at index 0 with the message and time as preview |
| PrivateStore.SendCountsUnread | db/manager.py:276 | the receiver's unread count for the sender rises by exactly one |
| PrivateStore.SendKeepsOthers | db/manager.py:232-277 | only the two participants' inboxes change, and in each list the other peers' entries keep contents and order, also when a user messages their own thread |
| PrivateStore.SendKeepsListsUnique | db/manager.py:232-277 | a send preserves "at most one entry per peer" in every list |
| PrivateStore.SendKeepsMirrored | db/manager.py:232-277 | a send preserves the invariant that the two copies of every message are equal |
| PrivateStore.EditCopy | db/manager.py:209-215 | rewrites one copy of a message with the new text and the edited mark when that copy exists and leaves the store alone otherwise; the set of inboxes is kept |
| PrivateStore.Edit | db/manager.py:200-229 | computes `edit_message` after authentication: MESSAGE_NOT_FOUND when the caller's thread lacks the id, otherwise both copies rewritten and both previews updated, with KeyError when the peer has no inbox (no `ensures`: stated by the `Edit…` lemmas) |
| PrivateStore.EditRewritesCopies | db/manager.py:205-215 | an id missing from the caller's thread gives MESSAGE_NOT_FOUND and no change; otherwise the caller's copy gets the new text and the edit flag, the mirror copy gets the same only if it exists, and the status is OK exactly when the peer has an inbox |
| PrivateStore.EditKeepsOtherMessages | db/manager.py:200-229 | an edit changes no other message |
| PrivateStore.EditUpdatesPreviews | db/manager.py:217-225 | on OK both entries' previews become the new text; in the two participants' lists only the previews can differ and the other peers' entries keep contents and order; every other user's inbox is unchanged; this holds also when a user edits in their own thread |
| PrivateStore.EditKeepsMirrored | db/manager.py:200-229 | an edit preserves the invariant that the two copies are equal |
| PrivateStore.MirroredEditUpdatesBoth | db/manager.py:209-215 | in a mirrored store, editing an existing message rewrites both copies and answers OK |
| PrivateStore.SendThenEdit | db/manager.py:200-277 | editing a just-sent message answers OK and leaves both copies edited |
| Accounts.IsBlank | db/manager.py:28 | holds when `profile.strip()` is empty, that is when every character is Python whitespace (no `ensures`: used by `ChosenProfile`) |
| Accounts.ChosenProfile | db/manager.py:26-29 | the stored picture is the given one when it is present and not blank, and the default otherwise |
| Accounts.SeparatorsGetDefault | db/manager.py:28-29 | every non-empty picture made only of the separators U+001C-U+001F counts as blank and gets the default |
| Accounts.NewUser | db/manager.py:31-40 | the record `add_user` stores: status "online", the chosen picture, the token, and no `very` key (no `ensures`: its picture is stated by `ChosenProfile`, its missing key is used by `RegisteredMemberFailsListing`) |
| Accounts.ApplyProfile | db/manager.py:56-61 | applies the three conditional field updates of `update_profile` (no `ensures`: stated by `ApplyProfileSpec`) |
| Accounts.ApplyProfileSpec | db/manager.py:56-61 | each truthy argument replaces its field, any other argument leaves it, and no other field changes |
| Accounts.ApplyProfileIdempotent | db/manager.py:53-65 | repeating a profile update changes nothing more |
| GroupStore.Post | db/manager.py:391-407 | computes the group after `add_group_message`: the record is stored only under a new id, and `last` describes the new message in every case (no `ensures`: stated by `PostSpec`) |
| GroupStore.PostSpec | db/manager.py:391-407 | an existing id is not overwritten, a new id stores the new message, `last` always becomes the new message, and nothing else in the group changes |
| GroupStore.PostFreshKeepsLastStored | db/manager.py:391-407 | posting under a fresh id leaves `last` describing a stored message |
| GroupStore.PostReusedIdBreaksLastStored | db/manager.py:391-407 | posting under a reused id by another sender leaves `last` disagreeing with the stored message |
| GroupStore.RemoveFirst | db/manager.py:449 | computes `list.remove(x)` for a member list: the first occurrence is dropped, and a list without it is unchanged (no `ensures`: stated by `RemoveFirstAt` and `RemoveFirstMultiset`) |
| GroupStore.FirstIndex | db/manager.py:449 | the position of the first occurrence of a present member |
| GroupStore.RemoveFirstAt | db/manager.py:449 | `list.remove` drops exactly the first occurrence and keeps the other members in order |
| GroupStore.RemoveFirstMultiset | db/manager.py:449 | `list.remove` takes away exactly one occurrence |
| GroupStore.RemovedMembers | db/manager.py:449 | the member list after removal is the list without its first occurrence, in order; in a duplicate-free list the user is gone |
| GroupStore.RemoveFirstAppended | db/manager.py:449 | removing a member that was just appended restores the list |
| GroupStore.RemoveFirstNoDuplicates | db/manager.py:449 | in a duplicate-free list, removal keeps it duplicate-free and removes every occurrence |
| GroupStore.AddMember | db/manager.py:411-420 | computes `add_member_to_group`: GROUP_NOT_FOUND, USER_ALREADY_MEMBER, or OK with the user appended (no `ensures`: stated by `AddMemberSpec`) |
| GroupStore.AddMemberSpec | db/manager.py:411-420 | GROUP_NOT_FOUND and USER_ALREADY_MEMBER change nothing; OK exactly for a non-member of an existing group, who is appended while everything else stays; no duplicates are introduced |
| GroupStore.AddMemberTwice | db/manager.py:411-420 | a repeated add answers USER_ALREADY_MEMBER and changes nothing |
| GroupStore.RemoveMemberSpec | db/manager.py:446-455 | GROUP_NOT_FOUND and USER_NOT_FOUND change nothing; OK exactly for a member, whose first occurrence is dropped while the other members keep their order and everything else stays |
| GroupStore.RemoveMember | db/manager.py:446-455 | computes `remove_member_from_group`: GROUP_NOT_FOUND, USER_NOT_FOUND, or OK with the first occurrence removed (no `ensures`: stated by `RemoveMemberSpec`) |
| GroupStore.AddThenRemove | db/manager.py:411-455 | removing a member just added restores the groups |
| GroupStore.MemberInfosAsWritten | db/manager.py:431-439 | the enrichment loop of `get_members_group` as written: members without an account are skipped, and a member whose record lacks `very` makes the whole listing fail (no `ensures`: stated by `MissingVeryFailsListing` and `AsWrittenAgrees`) |
| GroupStore.MissingVeryFailsListing | db/manager.py:431-439 | as written, the listing fails (KeyError) when any member's account lacks the `very` key |
| GroupStore.RegisteredMemberFailsListing | db/manager.py:431-439 | as written, the listing fails for any group that holds an account created by `add_user` |
| GroupStore.AsWrittenAgrees | db/manager.py:431-439 | whenever the listing as written succeeds, it gives the corrected listing |
| GroupStore.MemberInfos | db/manager.py:428-441 | the enrichment loop as intended: one entry per member with an account, in member order (no `ensures`: stated by `MemberInfosSpec` and `MemberInfosAllRegistered`) |
| GroupStore.MemberInfosSpec | db/manager.py:428-441 | the listing holds exactly the members that have an account, each with its name, picture and status, and is no longer than the member list |
| GroupStore.MemberInfosAllRegistered | db/manager.py:428-441 | when every member has an account, the listing has exactly one entry per member, in member order, each the member's name, full name, picture and status |
| Manager.UserManager.constructor | db/manager.py:8-11 | the manager starts with the loaded accounts and a ChatManager that refers back to it |
| Manager.UserManager.UserExists | db/manager.py:110-111 | `user_exists`: holds exactly when the name has an account (no `ensures`: a predicate over the `users` field) |
| Manager.UserManager.AuthenticateUser | db/manager.py:77-85 | NOT_FOUND exactly for an unknown name; OK, with the record, exactly when the token matches; TOKEN_INVALID otherwise |
| Manager.UserManager.AddUser | db/manager.py:25-51 | a taken name answers USERNAME_INVALID and changes nothing; a new name gets an online record with the chosen picture and the token, and an empty inbox |
| Manager.UserManager.UpdateProfile | db/manager.py:53-65 | with the right token the record becomes `ApplyProfile` of the old one and is returned; otherwise nothing changes |
| Manager.ChatManager.constructor | db/manager.py:127-131 | the manager starts with the loaded inboxes and counter |
| Manager.ChatManager.FindPeer | db/manager.py:136-139 | the search loop stops at the first entry for the peer, or reports none |
| Manager.ChatManager.MoveToFront | db/manager.py:299-302 | the pop-and-insert yields `MoveToFront` of the input for a given index, and the input when there is none |
| Manager.ChatManager.InitializeUserMessages | db/manager.py:189-198 | a user without an inbox gets an empty one; an existing inbox is kept |
| Manager.ChatManager.IncrementUnreadMessageCount | db/manager.py:134-148 | the receiver's list becomes `Increment` of the old one and nothing else changes |
| Manager.ChatManager.ResetUnreadMessageCount | db/manager.py:150-156 | a user without an inbox (KeyError) changes nothing; otherwise the user's list becomes `Reset` of the old one and nothing else changes |
| Manager.ChatManager.UpdateUserList | db/manager.py:280-297 | the user's list becomes `Touch` of the old one, with the `index` search proved to find the updated entry, and nothing else changes |
| Manager.ChatManager.PrepareConversation | db/manager.py:248-258 | the store becomes `Prepare` of the old one |
| Manager.ChatManager.StoreBothCopies | db/manager.py:270-272 | the store becomes the old one with the record written under the id into both threads between the participants |
| Manager.ChatManager.AddPrivateMessage | db/manager.py:232-277 | an unknown receiver changes nothing, counter included; otherwise a missing id is `str` of the old counter, which rises by one, and the store becomes `Send` of the old one |
| Manager.ChatManager.EditMessage | db/manager.py:200-229 | failed authentication changes nothing; otherwise status and store are those of `Edit` |
| Manager.ChatManager.GetMessages | db/manager.py:181-187 | OK exactly with valid credentials, holding precisely the messages stored for the caller with that peer |
| Manager.GroupManager.constructor | db/manager.py:329-332 | the manager starts with the loaded groups and counter |
| Manager.GroupManager.AddGroupMessage | db/manager.py:358-409 | an absent group or unknown sender changes nothing, counter included; otherwise the id is the given one or `str` of the counter, which then rises by one, and the group becomes `Post` with the sender's picture |
| Manager.GroupManager.AddMemberToGroup | db/manager.py:411-420 | status and groups are those of `AddMember` (see AddMemberSpec) |
| Manager.GroupManager.RemoveMemberFromGroup | db/manager.py:446-455 | status and groups are those of `RemoveMember` (see RemoveMemberSpec) |
| Manager.GroupManager.GetMembersGroup | db/manager.py:422-444 | checks credentials, then the group, then the caller's membership, in that order; on OK it returns the corrected member listing |
| Manager.GroupManager.GetGroupInfo | db/manager.py:457-463 | None exactly when authentication fails; GROUP_NOT_FOUND exactly for an absent group; otherwise the group's name and picture |
| Manager.GroupManager.GetGroupMessages | db/manager.py:468-472 | the group's messages, or an empty mapping for an absent group |

## Left out

- Persistence is not modelled: the JSON load and save of users, inboxes, groups and counters (db/manager.py:14-23, 304-326, 334-356). All state starts as already loaded.
- The clock is not modelled. `datetime.now()` becomes the `clock` parameter, used when no timestamp is given.
- Token generation (`secrets.token_urlsafe`) is not modelled. `AddUser` takes the new token as a parameter.
- `getUserList` and the JSON encoding in `getMessages` are enrichment and serialisation. They are not modelled.
- `online` and `login` are not modelled; they lie outside the message store.
- The UserManager group wrappers (db/manager.py:113-123) are not modelled. They delegate to a `group_manager` attribute that is never assigned.
- The group auto-creation block (db/manager.py:375-389) is not modelled. The early return at line 359 makes it unreachable.
- ChatManager's `groups` field (line 130) is not modelled; it is loaded and never used.
- The `messages is None` guard (lines 233-234) is not modelled. The store is always a map.
- The two counters are separate fields, as in the source. No claim is made that ids are unique across private and group messages.
- Logging (`print`) is not modelled.
- A conversation list that is shared by reference is not modelled. Lists are values reassigned into the store, and the two copies of a private message are separate values; `Mirrored` keeps them equal.
- Manager.ChatManager.MoveToFront: the index is a natural number or none; Python's negative indices are not modelled, since every caller passes a position found in the list.
- Accounts.IsBlank: the whitespace set is that of Python 3's `str.isspace`, written out by hand; a later Unicode version that adds whitespace characters is not followed.
- The reply payload of a private message is an optional string, standing in for whatever the caller passes.
- Manager.UserManager.AuthenticateUser: an account loaded as an empty record is not modelled; records are always `User` values, so the truthiness test at line 79 always passes for a present name.
- Manager.UserManager.UpdateProfile: the same holds for the truthiness test at line 55.
- GroupStore.MemberInfos: the same holds for the truthiness test of `getUsernameByID` at line 99.
- Manager.GroupManager.GetMembersGroup: builds the corrected member listing; the failure of the code as written is exhibited under Findings.

## Findings

| source | as written | input that shows it | evidently intended | confidence | as-written member | corrected member |
|---|---|---|---|---|---|---|
| db/manager.py:101 | `getUsernameByID`, which `get_members_group` calls for every member (line 432), reads the `very` key of the member's account by plain indexing | a group whose member list holds an account created by `add_user`, which never writes `very` (lines 33-40): `get_members_group` raises KeyError instead of answering | the admin flag is optional, as `getUserList` treats it with a default (line 165), and every member with an account is listed | medium, not executed | GroupStore.RegisteredMemberFailsListing | GroupStore.MemberInfosSpec |
