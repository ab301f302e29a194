/**
 * The three managers of db/manager.py as classes whose methods update their
 * fields in place: UserManager (accounts), ChatManager (private inboxes and
 * the message-id counter) and GroupManager (groups and its own counter).
 * Each state-changing method is proved to leave exactly the state that the
 * functions of PrivateStore, GroupStore and Accounts describe; the properties
 * of those functions are proved there. The state starts as already loaded:
 * the JSON files are not part of this model.
 */
module Manager {
  import opened Wrappers
  import opened MessageIds
  import opened Accounts
  import opened ConversationList
  import opened PrivateStore
  import opened GroupStore

  /** `add_user`: OK with the stored record, or USERNAME_INVALID for a taken name. */
  datatype AddUserResult = AddUserOk(user: User) | UsernameInvalid

  /** `update_profile`: OK with the updated record, or `TOKEN_INVALID | NOT_FOUND`. */
  datatype ProfileResult = ProfileOk(user: User) | ProfileDenied

  /** `getMessages`: OK with the thread, or `TOKEN_INVALID | NOT_FOUND`. */
  datatype ThreadResult = ThreadOk(thread: Thread) | ThreadDenied

  /** How `reset_unread_message_count` ended: done, or KeyError for a user without an inbox. */
  datatype ResetStatus = ResetOk | ResetInboxMissing

  /** How `add_group_message` ended; the source returns nothing and only logs the two refusals. */
  datatype PostResult = Posted(id: string) | PostGroupMissing | PostSenderMissing

  /** `get_members_group`: OK, ERROR_YOU_NOT_JOIN, GROUP_NOT_FOUND or TOKEN_USERNAME_INVAILD. */
  datatype MembersResult = MembersOk(members: seq<MemberInfo>) | MembersNotJoined | MembersGroupNotFound | MembersTokenInvalid

  /** `get_group_info`: OK with name and picture, GROUP_NOT_FOUND, or None when authentication fails. */
  datatype InfoResult = InfoOk(name: string, profile: string) | InfoGroupNotFound | InfoNone

  class UserManager {
    var users: map<string, User>
    /** The ChatManager created with this manager; `add_user` initialises inboxes through it. */
    var chatManager: ChatManager?

    ghost predicate Valid()
      reads this
    {
      chatManager != null && chatManager.userManager == this
    }

    /** `UserManager()` with the accounts, inboxes and counter already loaded. */
    constructor (loadedUsers: map<string, User>, loadedMessages: Store, loadedCounter: int)
      ensures Valid() && fresh(chatManager)
      ensures users == loadedUsers
      ensures chatManager.messages == loadedMessages && chatManager.messageIdCounter == loadedCounter
    {
      users := loadedUsers;
      chatManager := null;
      new;
      chatManager := new ChatManager(this, loadedMessages, loadedCounter);
    }

    /** `user_exists`. */
    predicate UserExists(username: string)
      reads this
    {
      username in users
    }

    /** `authenticate_user`: OK with the record, TOKEN_INVALID, or NOT_FOUND. */
    function AuthenticateUser(username: string, token: string): (r: AuthResult)
      reads this
      ensures r.NotFound? <==> username !in users
      ensures r.AuthOk? <==> username in users && users[username].token == token
      ensures r.AuthOk? ==> r.user == users[username]
    {
      if username in users then
        if users[username].token == token then AuthOk(users[username]) else TokenInvalid
      else NotFound
    }

    /**
     * `add_user`: a new name gets a new online record with the given token and
     * an empty inbox; a taken name changes nothing.
     */
    method AddUser(username: string, phone: string, fullname: string, bio: string, profile: Option<string>, token: string)
        returns (r: AddUserResult)
      requires Valid()
      modifies this, chatManager
      ensures Valid() && chatManager == old(chatManager)
      ensures chatManager.messageIdCounter == old(chatManager.messageIdCounter)
      ensures username in old(users) ==>
        r == UsernameInvalid && users == old(users) && chatManager.messages == old(chatManager.messages)
      ensures username !in old(users) ==>
        && r == AddUserOk(NewUser(phone, fullname, bio, profile, token))
        && users == old(users)[username := NewUser(phone, fullname, bio, profile, token)]
        && chatManager.messages == Initialize(old(chatManager.messages), username)
    {
      var chosen := ChosenProfile(profile);
      if username !in users {
        var user := User(phone, fullname, "online", bio, chosen, token, None);
        users := users[username := user];
        chatManager.InitializeUserMessages(username);
        r := AddUserOk(users[username]);
      } else {
        r := UsernameInvalid;
      }
    }

    /** `update_profile`: with the right token, each truthy argument replaces its field. */
    method UpdateProfile(username: string, token: string, fullname: Option<string>, bio: Option<string>, profile: Option<string>)
        returns (r: ProfileResult)
      modifies this
      ensures chatManager == old(chatManager)
      ensures username in old(users) && old(users)[username].token == token ==>
        && r == ProfileOk(ApplyProfile(old(users)[username], fullname, bio, profile))
        && users == old(users)[username := ApplyProfile(old(users)[username], fullname, bio, profile)]
      ensures !(username in old(users) && old(users)[username].token == token) ==>
        r == ProfileDenied && users == old(users)
    {
      if username in users && users[username].token == token {
        var user := users[username];
        if Truthy(fullname) {
          user := user.(fullname := fullname.value);
        }
        if Truthy(bio) {
          user := user.(bio := bio.value);
        }
        if Truthy(profile) {
          user := user.(profile := profile.value);
        }
        users := users[username := user];
        r := ProfileOk(user);
      } else {
        r := ProfileDenied;
      }
    }
  }

  class ChatManager {
    const userManager: UserManager
    var messages: Store
    var messageIdCounter: int

    constructor (userManager: UserManager, loadedMessages: Store, loadedCounter: int)
      ensures this.userManager == userManager
      ensures messages == loadedMessages && messageIdCounter == loadedCounter
    {
      this.userManager := userManager;
      messages := loadedMessages;
      messageIdCounter := loadedCounter;
    }

    /**
     * The search loop `for user in users_list: if user["username"] == peer: ... break`
     * that several methods run: the position of the first entry for `peer`.
     */
    static method FindPeer(list: seq<Summary>, peer: string) returns (r: Option<nat>)
      ensures r == Find(list, peer)
    {
      var i := 0;
      while i < |list|
        invariant 0 <= i <= |list|
        invariant forall j :: 0 <= j < i ==> list[j].username != peer
      {
        if list[i].username == peer {
          FindFirst(list, peer, i);
          return Some(i);
        }
        i := i + 1;
      }
      return None;
    }

    /** `move_to_front`: pop the element at `index` and insert it at position 0. */
    static method MoveToFront<T>(lst: seq<T>, index: Option<nat>) returns (r: seq<T>)
      ensures r == if index.Some? then ConversationList.MoveToFront(lst, index.value) else lst
    {
      r := lst;
      if index.Some? && index.value < |r| {
        var item := r[index.value];
        r := r[..index.value] + r[index.value + 1..];
        r := [item] + r;
      }
    }

    /** `initialize_user_messages`: an empty inbox for a user that has none. */
    method InitializeUserMessages(username: string)
      modifies this
      ensures messages == Initialize(old(messages), username)
      ensures messageIdCounter == old(messageIdCounter)
    {
      if username !in messages {
        messages := messages[username := Inbox([], [], map[])];
      }
    }

    /** `increment_unread_message_count`: one more unread message from `fromUser` in `toUser`'s list. */
    method IncrementUnreadMessageCount(toUser: string, fromUser: string)
      requires toUser in messages
      modifies this
      ensures messages == WithList(old(messages), toUser, Increment(old(messages)[toUser].usersList, fromUser))
      ensures messageIdCounter == old(messageIdCounter)
    {
      var usersList := messages[toUser].usersList;
      var found := FindPeer(usersList, fromUser);
      if found.Some? {
        var i := found.value;
        usersList := usersList[i := usersList[i].(countMessage := Some(usersList[i].countMessage.GetOr(0) + 1))];
      } else {
        usersList := [Summary(fromUser, "", "", Some(1))] + usersList;
      }
      messages := messages[toUser := messages[toUser].(usersList := usersList)];
    }

    /**
     * `reset_unread_message_count`: `targetUser`'s entry in `username`'s list,
     * if any, gets count 0. A user without an inbox makes the source raise
     * KeyError at its first line, before any change.
     */
    method ResetUnreadMessageCount(username: string, targetUser: string) returns (r: ResetStatus)
      modifies this
      ensures username !in old(messages) ==> r == ResetInboxMissing && messages == old(messages)
      ensures username in old(messages) ==>
        r == ResetOk && messages == WithList(old(messages), username, Reset(old(messages)[username].usersList, targetUser))
      ensures messageIdCounter == old(messageIdCounter)
    {
      if username !in messages {
        // self.messages[username] raises KeyError here
        return ResetInboxMissing;
      }
      var usersList := messages[username].usersList;
      var found := FindPeer(usersList, targetUser);
      if found.Some? {
        var i := found.value;
        usersList := usersList[i := usersList[i].(countMessage := Some(0))];
      }
      messages := messages[username := messages[username].(usersList := usersList)];
      r := ResetOk;
    }

    /**
     * `update_user_list`: an existing entry for `chatUser` gets the new preview
     * and moves to the front; otherwise a new entry without a count is
     * inserted at the front.
     */
    method UpdateUserList(currentUser: string, chatUser: string, message: string, timestamp: string)
      requires currentUser in messages
      modifies this
      ensures messages == WithList(old(messages), currentUser, Touch(old(messages)[currentUser].usersList, chatUser, message, timestamp))
      ensures messageIdCounter == old(messageIdCounter)
    {
      var usersList := messages[currentUser].usersList;
      var existing := FindPeer(usersList, chatUser);
      if existing.Some? {
        var i := existing.value;
        var updated := usersList[i].(lastMessage := message, lastTime := timestamp);
        usersList := usersList[i := updated];
        // users_list.index(existing_user): the first entry equal to the updated one
        var userIndex := 0;
        while usersList[userIndex] != updated
          invariant 0 <= userIndex <= i
          invariant forall j :: 0 <= j < userIndex ==> usersList[j] != updated
          decreases i - userIndex
        {
          userIndex := userIndex + 1;
        }
        usersList := MoveToFront(usersList, Some(userIndex));
      } else {
        usersList := [Summary(chatUser, message, timestamp, None)] + usersList;
      }
      messages := messages[currentUser := messages[currentUser].(usersList := usersList)];
    }

    /** Lines 248-258 of `add_private_message`: both inboxes and both threads exist afterwards. */
    method PrepareConversation(fromUser: string, toUser: string)
      modifies this
      ensures messages == Prepare(old(messages), fromUser, toUser)
      ensures messageIdCounter == old(messageIdCounter)
    {
      ghost var m0 := messages;
      if fromUser !in messages {
        InitializeUserMessages(fromUser);
      }
      if toUser !in messages {
        InitializeUserMessages(toUser);
      }
      ghost var m1 := messages;
      assert m1 == Initialize(Initialize(m0, fromUser), toUser);
      if toUser !in messages[fromUser].threads {
        messages := messages[fromUser := messages[fromUser].(threads := messages[fromUser].threads[toUser := map[]])];
      }
      ghost var m2 := messages;
      assert m2 == EnsureThread(m1, fromUser, toUser);
      if fromUser !in messages[toUser].threads {
        messages := messages[toUser := messages[toUser].(threads := messages[toUser].threads[fromUser := map[]])];
      }
      assert messages == EnsureThread(m2, toUser, fromUser);
    }

    /** Lines 270-272 of `add_private_message`: the record under the id in both threads. */
    method StoreBothCopies(fromUser: string, toUser: string, id: string, messageData: PrivateMessage)
      requires fromUser in messages && toUser in messages[fromUser].threads
      requires toUser in messages && fromUser in messages[toUser].threads
      modifies this
      ensures messages == Put(Put(old(messages), fromUser, toUser, id, messageData), toUser, fromUser, id, messageData)
      ensures messageIdCounter == old(messageIdCounter)
    {
      messages := messages[fromUser := messages[fromUser].(threads := messages[fromUser].threads[toUser := messages[fromUser].threads[toUser][id := messageData]])];
      messages := messages[toUser := messages[toUser].(threads := messages[toUser].threads[fromUser := messages[toUser].threads[fromUser][id := messageData]])];
    }

    /**
     * `add_private_message`. An unknown receiver changes nothing, not even the
     * counter. Otherwise a missing id is taken from the counter, which then
     * rises by one, and the store becomes `Send` of the old one. The result
     * is the id used (the source returns nothing).
     */
    method AddPrivateMessage(fromUser: string, toUser: string, message: string, timestamp: Option<string>,
                             messageId: Option<string>, replyData: Option<string>, clock: string)
        returns (sent: Option<string>)
      modifies this
      ensures !userManager.UserExists(toUser) ==>
        sent == None && messages == old(messages) && messageIdCounter == old(messageIdCounter)
      ensures userManager.UserExists(toUser) ==>
        var id := if messageId.Some? then messageId.value else IntToString(old(messageIdCounter));
        && sent == Some(id)
        && messageIdCounter == (if messageId.None? then old(messageIdCounter) + 1 else old(messageIdCounter))
        && messages == Send(old(messages), fromUser, toUser, message, timestamp.GetOr(clock), id, replyData)
    {
      if !userManager.UserExists(toUser) {
        return None;
      }
      var time := if timestamp.None? then clock else timestamp.value;
      var id: string;
      if messageId.None? {
        id := IntToString(messageIdCounter);
        messageIdCounter := messageIdCounter + 1;
      } else {
        id := messageId.value;
      }
      ghost var m0 := messages;
      PrepareConversation(fromUser, toUser);
      var messageData := PrivateMessage(fromUser, fromUser, toUser, message, time, id, replyData, false);
      StoreBothCopies(fromUser, toUser, id, messageData);
      assert messages == Deliver(m0, fromUser, toUser, id, NewRecord(fromUser, toUser, message, time, id, replyData));
      UpdateUserList(fromUser, toUser, message, time);
      UpdateUserList(toUser, fromUser, message, time);
      IncrementUnreadMessageCount(toUser, fromUser);
      sent := Some(id);
    }

    /**
     * `edit_message`. Authentication failure and an id absent from the
     * caller's thread change nothing; otherwise the store becomes what `Edit`
     * describes, including the KeyError case of a peer without an inbox.
     */
    method EditMessage(username: string, token: string, messageId: string, toUser: string, newMessage: string)
        returns (status: EditStatus)
      modifies this
      ensures messageIdCounter == old(messageIdCounter)
      ensures !userManager.AuthenticateUser(username, token).AuthOk? ==>
        status == TokenInvalidOrNotFound && messages == old(messages)
      ensures userManager.AuthenticateUser(username, token).AuthOk? ==>
        EditOutcome(status, messages) == Edit(old(messages), username, toUser, messageId, newMessage)
    {
      if !userManager.AuthenticateUser(username, token).AuthOk? {
        return TokenInvalidOrNotFound;
      }
      var userMessages := ThreadOf(messages, username, toUser);
      if messageId !in userMessages {
        return MessageNotFound;
      }
      ghost var m0 := messages;
      var edited := userMessages[messageId].(message := newMessage, isEdit := true);
      messages := messages[username := messages[username].(threads := messages[username].threads[toUser := userMessages[messageId := edited]])];
      var reverseMessage := ThreadOf(messages, toUser, username);
      if messageId in reverseMessage {
        var mirror := reverseMessage[messageId].(message := newMessage, isEdit := true);
        messages := messages[toUser := messages[toUser].(threads := messages[toUser].threads[username := reverseMessage[messageId := mirror]])];
      }
      assert messages == EditCopy(EditCopy(m0, username, toUser, messageId, newMessage), toUser, username, messageId, newMessage);
      var ownList := messages[username].usersList;
      var i := FindPeer(ownList, toUser);
      if i.Some? {
        ownList := ownList[i.value := ownList[i.value].(lastMessage := newMessage)];
      }
      messages := messages[username := messages[username].(usersList := ownList)];
      if toUser !in messages {
        // self.messages[to_user] raises KeyError here
        return PeerInboxMissing;
      }
      var peerList := messages[toUser].usersList;
      var k := FindPeer(peerList, username);
      if k.Some? {
        peerList := peerList[k.value := peerList[k.value].(lastMessage := newMessage)];
      }
      messages := messages[toUser := messages[toUser].(usersList := peerList)];
      status := EditOk;
    }

    /** The lookup of `getMessages`: with valid credentials, the caller's thread with `peer` (empty if none). */
    function GetMessages(username: string, token: string, peer: string): (r: ThreadResult)
      reads this, userManager
      ensures r.ThreadOk? <==> userManager.AuthenticateUser(username, token).AuthOk?
      ensures r.ThreadOk? ==> forall id :: id in r.thread <==> Lookup(messages, username, peer, id).Some?
      ensures r.ThreadOk? ==> forall id :: id in r.thread ==> Lookup(messages, username, peer, id) == Some(r.thread[id])
    {
      if userManager.AuthenticateUser(username, token).AuthOk? then ThreadOk(ThreadOf(messages, username, peer))
      else ThreadDenied
    }
  }

  class GroupManager {
    const userManager: UserManager
    var groups: Groups
    var messageIdCounter: int

    constructor (userManager: UserManager, loadedGroups: Groups, loadedCounter: int)
      ensures this.userManager == userManager
      ensures groups == loadedGroups && messageIdCounter == loadedCounter
    {
      this.userManager := userManager;
      groups := loadedGroups;
      messageIdCounter := loadedCounter;
    }

    /**
     * `add_group_message`. An absent group or an unknown sender changes
     * nothing, not even the counter. Otherwise the id is the given one or the
     * counter's, and the group becomes `Post` of the old one, with the
     * sender's profile picture as the image.
     */
    method AddGroupMessage(fromUser: string, groupName: string, message: string, timestamp: Option<string>,
                           messageId: Option<string>, clock: string) returns (r: PostResult)
      modifies this
      ensures groupName !in old(groups) ==>
        r == PostGroupMissing && groups == old(groups) && messageIdCounter == old(messageIdCounter)
      ensures groupName in old(groups) && !userManager.UserExists(fromUser) ==>
        r == PostSenderMissing && groups == old(groups) && messageIdCounter == old(messageIdCounter)
      ensures groupName in old(groups) && userManager.UserExists(fromUser) ==>
        var id := if messageId.Some? then messageId.value else IntToString(old(messageIdCounter));
        && r == Posted(id)
        && messageIdCounter == (if messageId.None? then old(messageIdCounter) + 1 else old(messageIdCounter))
        && groups == old(groups)[groupName := Post(old(groups)[groupName], groupName, fromUser,
                                                   userManager.users[fromUser].profile, message, timestamp.GetOr(clock), id)]
    {
      if groupName !in groups {
        return PostGroupMissing;
      }
      if !userManager.UserExists(fromUser) {
        return PostSenderMissing;
      }
      var time := if timestamp.None? then clock else timestamp.value;
      var id: string;
      if messageId.None? {
        id := IntToString(messageIdCounter);
        messageIdCounter := messageIdCounter + 1;
      } else {
        id := messageId.value;
      }
      var group := groups[groupName];
      if id !in group.messages {
        var image := userManager.users[fromUser].profile;
        group := group.(messages := group.messages[id := GroupMessage(fromUser, fromUser, groupName, image, message, time, id)]);
      }
      group := group.(last := LastMessage(fromUser, message, time, id));
      groups := groups[groupName := group];
      r := Posted(id);
    }

    /** `add_member_to_group`, as `AddMember` describes. */
    method AddMemberToGroup(groupName: string, username: string) returns (status: MemberStatus)
      modifies this
      ensures MemberOutcome(status, groups) == AddMember(old(groups), groupName, username)
      ensures messageIdCounter == old(messageIdCounter)
    {
      if groupName in groups {
        if username !in groups[groupName].members {
          groups := groups[groupName := groups[groupName].(members := groups[groupName].members + [username])];
          return MemberOk;
        } else {
          return UserAlreadyMember;
        }
      } else {
        return GroupNotFound;
      }
    }

    /** `remove_member_from_group`, as `RemoveMember` describes. */
    method RemoveMemberFromGroup(groupName: string, username: string) returns (status: MemberStatus)
      modifies this
      ensures MemberOutcome(status, groups) == RemoveMember(old(groups), groupName, username)
      ensures messageIdCounter == old(messageIdCounter)
    {
      if groupName in groups {
        if username in groups[groupName].members {
          groups := groups[groupName := groups[groupName].(members := RemoveFirst(groups[groupName].members, username))];
          return MemberOk;
        } else {
          return UserNotFound;
        }
      } else {
        return GroupNotFound;
      }
    }

    /**
     * `get_members_group`: credentials first, then the group, then the
     * caller's own membership; on OK the members that have an account, in
     * member order, with name, picture and status.
     */
    method GetMembersGroup(groupName: string, username: string, token: string) returns (r: MembersResult)
      ensures !userManager.AuthenticateUser(username, token).AuthOk? ==> r == MembersTokenInvalid
      ensures userManager.AuthenticateUser(username, token).AuthOk? && groupName !in groups ==> r == MembersGroupNotFound
      ensures userManager.AuthenticateUser(username, token).AuthOk? && groupName in groups ==>
        (username !in groups[groupName].members ==> r == MembersNotJoined)
        && (username in groups[groupName].members ==> r == MembersOk(MemberInfos(userManager.users, groups[groupName].members)))
    {
      if !userManager.AuthenticateUser(username, token).AuthOk? {
        return MembersTokenInvalid;
      }
      if groupName !in groups {
        return MembersGroupNotFound;
      }
      if username !in groups[groupName].members {
        return MembersNotJoined;
      }
      var members := groups[groupName].members;
      var memberInfo: seq<MemberInfo> := [];
      var i := 0;
      while i < |members|
        invariant 0 <= i <= |members|
        invariant memberInfo == MemberInfos(userManager.users, members[..i])
      {
        var member := members[i];
        assert members[..i + 1][..i] == members[..i];
        if member in userManager.users {
          var user := userManager.users[member];
          memberInfo := memberInfo + [MemberInfo(member, user.fullname, user.profile, user.status)];
        }
        i := i + 1;
      }
      assert members[..|members|] == members;
      r := MembersOk(memberInfo);
    }

    /** `get_group_info`: GROUP_NOT_FOUND for an absent group, None (no answer) when authentication fails. */
    function GetGroupInfo(username: string, token: string, groupName: string): (r: InfoResult)
      reads this, userManager
      ensures r.InfoNone? <==> !userManager.AuthenticateUser(username, token).AuthOk?
      ensures r.InfoGroupNotFound? <==> userManager.AuthenticateUser(username, token).AuthOk? && groupName !in groups
      ensures r.InfoOk? ==> groupName in groups && r == InfoOk(groups[groupName].usernameGroup, groups[groupName].profile)
    {
      if userManager.AuthenticateUser(username, token).AuthOk? then
        if groupName in groups then InfoOk(groups[groupName].usernameGroup, groups[groupName].profile)
        else InfoGroupNotFound
      else InfoNone
    }

    /** `get_group_messages`: the group's messages, or an empty mapping for an absent group. */
    function GetGroupMessages(groupName: string): (r: map<string, GroupMessage>)
      reads this
      ensures groupName in groups ==> r == groups[groupName].messages
      ensures groupName !in groups ==> r == map[]
    {
      if groupName in groups then groups[groupName].messages else map[]
    }
  }

  /**
   * A client of the classes: users a and b register, a sends b "hello" as the
   * first message (id "1"), b sees a at the front of its list with one unread
   * message and reads the thread, a edits the message, and both copies show
   * the new text.
   */
  method HelloScenario(tokenA: string, tokenB: string, clock: string)
  {
    var accounts := new UserManager(map[], map[], 1);
    var chat := accounts.chatManager;
    var ra := accounts.AddUser("a", "100", "A", "", None, tokenA);
    var rb := accounts.AddUser("b", "200", "B", "", None, tokenB);
    assert chat.messages == Initialize(Initialize(map[], "a"), "b");
    assert UnreadIn(chat.messages, "b", "a") == 0;
    ghost var before := chat.messages;
    var sent := chat.AddPrivateMessage("a", "b", "hello", None, None, None, clock);
    assert IntToString(1) == "1";
    assert sent == Some("1");
    SendFronts(before, "a", "b", "hello", clock, "1", None);
    SendCountsUnread(before, "a", "b", "hello", clock, "1", None);
    SendWritesBothCopies(before, "a", "b", "hello", clock, "1", None);
    assert chat.messages["b"].usersList[0].username == "a";
    assert UnreadIn(chat.messages, "b", "a") == 1;
    var thread := chat.GetMessages("b", tokenB, "a");
    assert thread.ThreadOk? && "1" in thread.thread && thread.thread["1"].message == "hello";
    var status := chat.EditMessage("a", tokenA, "1", "b", "hello!");
    SendThenEdit(before, "a", "b", "hello", clock, "1", None, "hello!");
    assert status == EditOk;
    assert Lookup(chat.messages, "a", "b", "1").value.message == "hello!";
    assert Lookup(chat.messages, "b", "a", "1").value.message == "hello!";
    assert Lookup(chat.messages, "b", "a", "1").value.isEdit;
  }
}
