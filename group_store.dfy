/**
 * The group store of GroupManager (`self.groups` in db/manager.py): per group
 * its members, profile, messages keyed by id and the `last` pointer. This
 * module gives posting and the membership operations as functions on group
 * values and proves what they promise.
 */
module GroupStore {
  import opened Wrappers
  import opened Accounts

  /** A stored group message; `image` is the sender's profile picture at posting time. */
  datatype GroupMessage = GroupMessage(
    username: string, from: string, to: string, image: string,
    message: string, time: string, messageId: string)

  /** The `last` summary of a group. */
  datatype LastMessage = LastMessage(username: string, message: string, time: string, messageId: string)

  datatype Group = Group(
    usernameGroup: string, members: seq<string>, onlines: seq<string>,
    profile: string, bio: string, messages: map<string, GroupMessage>, last: LastMessage)

  /** All groups, keyed by group name. */
  type Groups = map<string, Group>

  /** The part of `add_group_message` after its checks: insert unless the id is taken, always replace `last`. */
  function Post(g: Group, groupName: string, from: string, image: string, message: string, time: string, id: string): Group {
    var rec := GroupMessage(from, from, groupName, image, message, time, id);
    g.(messages := if id in g.messages then g.messages else g.messages[id := rec],
       last := LastMessage(from, message, time, id))
  }

  /** The invariant that the message `last` names is stored and agrees with it. */
  ghost predicate LastStored(g: Group) {
    && g.last.messageId in g.messages
    && g.messages[g.last.messageId].username == g.last.username
    && g.messages[g.last.messageId].message == g.last.message
    && g.messages[g.last.messageId].time == g.last.time
  }

  /**
   * An existing id is never overwritten, a new id gets the new record,
   * `last` always becomes the new message, and nothing else in the group changes.
   */
  lemma PostSpec(g: Group, groupName: string, from: string, image: string, message: string, time: string, id: string)
    ensures var r := Post(g, groupName, from, image, message, time, id);
      && r.last == LastMessage(from, message, time, id)
      && (id in g.messages ==> r.messages == g.messages)
      && (id !in g.messages ==>
            r.messages.Keys == g.messages.Keys + {id}
            && r.messages[id] == GroupMessage(from, from, groupName, image, message, time, id))
      && (forall k :: k in g.messages ==> k in r.messages && r.messages[k] == g.messages[k])
      && r.(messages := g.messages, last := g.last) == g
  {
  }

  /** Posting under a fresh id leaves `last` naming the stored message. */
  lemma PostFreshKeepsLastStored(g: Group, groupName: string, from: string, image: string, message: string, time: string, id: string)
    requires id !in g.messages
    ensures LastStored(Post(g, groupName, from, image, message, time, id))
  {
  }

  /**
   * Posting under an id that already holds another sender's message leaves
   * `last` disagreeing with the stored message of that id.
   */
  lemma PostReusedIdBreaksLastStored(g: Group, groupName: string, from: string, image: string, message: string, time: string, id: string)
    requires id in g.messages && g.messages[id].username != from
    ensures !LastStored(Post(g, groupName, from, image, message, time, id))
  {
  }

  // ---------------------------------------------------------------------------
  // Membership

  /** Statuses of the membership operations. */
  datatype MemberStatus = MemberOk | UserAlreadyMember | UserNotFound | GroupNotFound

  datatype MemberOutcome = MemberOutcome(status: MemberStatus, groups: Groups)

  ghost predicate NoDuplicates(s: seq<string>) {
    forall i, j :: 0 <= i < j < |s| ==> s[i] != s[j]
  }

  /** Python's `list.remove(x)`: drop the first occurrence. */
  function RemoveFirst(s: seq<string>, x: string): seq<string> {
    if |s| == 0 then []
    else if s[0] == x then s[1..]
    else [s[0]] + RemoveFirst(s[1..], x)
  }

  /** `add_member_to_group`. */
  function AddMember(gs: Groups, name: string, user: string): MemberOutcome {
    if name !in gs then MemberOutcome(GroupNotFound, gs)
    else if user in gs[name].members then MemberOutcome(UserAlreadyMember, gs)
    else MemberOutcome(MemberOk, gs[name := gs[name].(members := gs[name].members + [user])])
  }

  /** `remove_member_from_group`. */
  function RemoveMember(gs: Groups, name: string, user: string): MemberOutcome {
    if name !in gs then MemberOutcome(GroupNotFound, gs)
    else if user !in gs[name].members then MemberOutcome(UserNotFound, gs)
    else MemberOutcome(MemberOk, gs[name := gs[name].(members := RemoveFirst(gs[name].members, user))])
  }

  /** The position of the first occurrence of `x`, the one `list.remove(x)` drops. */
  function FirstIndex(s: seq<string>, x: string): (k: nat)
    requires x in s
    ensures k < |s| && s[k] == x
    ensures forall j :: 0 <= j < k ==> s[j] != x
  {
    if s[0] == x then 0 else FirstIndex(s[1..], x) + 1
  }

  /** Removal drops exactly the first occurrence and keeps the others in order. */
  lemma {:induction false} RemoveFirstAt(s: seq<string>, x: string, k: nat)
    requires k < |s| && s[k] == x
    requires forall j :: 0 <= j < k ==> s[j] != x
    ensures RemoveFirst(s, x) == s[..k] + s[k + 1..]
  {
    if k > 0 {
      RemoveFirstAt(s[1..], x, k - 1);
      assert s[1..][..k - 1] == s[1..k];
      assert s[1..][k..] == s[k + 1..];
      assert [s[0]] + s[1..k] == s[..k];
    }
  }

  lemma {:induction false} RemoveFirstMultiset(s: seq<string>, x: string)
    requires x in s
    ensures multiset(RemoveFirst(s, x)) == multiset(s) - multiset{x}
  {
    if s[0] != x {
      assert s == [s[0]] + s[1..];
      RemoveFirstMultiset(s[1..], x);
    } else {
      assert s == [s[0]] + s[1..];
    }
  }

  lemma {:induction false} RemoveFirstAppended(s: seq<string>, x: string)
    requires x !in s
    ensures RemoveFirst(s + [x], x) == s
  {
    if |s| == 0 {
      assert s + [x] == [x];
    } else {
      assert (s + [x])[1..] == s[1..] + [x];
      RemoveFirstAppended(s[1..], x);
    }
  }

  lemma {:induction false} RemoveFirstNoDuplicates(s: seq<string>, x: string)
    requires NoDuplicates(s)
    ensures NoDuplicates(RemoveFirst(s, x)) && x !in RemoveFirst(s, x)
    ensures forall y :: y in RemoveFirst(s, x) <==> y in s && y != x
  {
    if |s| > 0 {
      assert NoDuplicates(s[1..]);
      RemoveFirstNoDuplicates(s[1..], x);
      if s[0] == x {
        assert forall y :: y in s[1..] ==> y != x;
      } else {
        assert s[0] !in s[1..];
        var r := RemoveFirst(s, x);
        assert r == [s[0]] + RemoveFirst(s[1..], x);
        assert forall j :: 0 < j < |r| ==> r[j] in RemoveFirst(s[1..], x);
      }
    }
  }

  /**
   * A missing group gives GROUP_NOT_FOUND and a member USER_ALREADY_MEMBER,
   * both without change; otherwise OK with the user appended to that group
   * only, and the member list stays free of duplicates.
   */
  lemma AddMemberSpec(gs: Groups, name: string, user: string)
    ensures var o := AddMember(gs, name, user);
      && (name !in gs ==> o == MemberOutcome(GroupNotFound, gs))
      && (name in gs && user in gs[name].members ==> o == MemberOutcome(UserAlreadyMember, gs))
      && (o.status != MemberOk ==> o.groups == gs)
      && (o.status == MemberOk <==> name in gs && user !in gs[name].members)
      && (o.status == MemberOk ==>
            && o.groups.Keys == gs.Keys
            && o.groups[name].members == gs[name].members + [user]
            && o.groups[name].(members := gs[name].members) == gs[name]
            && forall n :: n in gs && n != name ==> o.groups[n] == gs[n])
      && (name in gs && NoDuplicates(gs[name].members) ==> NoDuplicates(o.groups[name].members))
  {
  }

  /** Adding the same user twice: the second call reports USER_ALREADY_MEMBER and changes nothing. */
  lemma AddMemberTwice(gs: Groups, name: string, user: string)
    requires name in gs
    ensures var once := AddMember(gs, name, user).groups;
      AddMember(once, name, user) == MemberOutcome(UserAlreadyMember, once)
  {
  }

  /** The member list after `list.remove`: the first occurrence goes, the rest keep their order. */
  lemma RemovedMembers(members: seq<string>, user: string)
    requires user in members
    ensures RemoveFirst(members, user) == members[..FirstIndex(members, user)] + members[FirstIndex(members, user) + 1..]
    ensures multiset(RemoveFirst(members, user)) == multiset(members) - multiset{user}
    ensures NoDuplicates(members) ==> NoDuplicates(RemoveFirst(members, user)) && user !in RemoveFirst(members, user)
  {
    RemoveFirstAt(members, user, FirstIndex(members, user));
    RemoveFirstMultiset(members, user);
    if NoDuplicates(members) {
      RemoveFirstNoDuplicates(members, user);
    }
  }

  /**
   * A missing group gives GROUP_NOT_FOUND and a non-member USER_NOT_FOUND,
   * both without change; otherwise OK, the first occurrence of the user is
   * dropped, the other members keep their order, and no other group changes.
   */
  lemma RemoveMemberSpec(gs: Groups, name: string, user: string)
    ensures var o := RemoveMember(gs, name, user);
      && (name !in gs ==> o == MemberOutcome(GroupNotFound, gs))
      && (name in gs && user !in gs[name].members ==> o == MemberOutcome(UserNotFound, gs))
      && (o.status != MemberOk ==> o.groups == gs)
      && (o.status == MemberOk <==> name in gs && user in gs[name].members)
      && (o.status == MemberOk ==>
            && o.groups.Keys == gs.Keys
            && o.groups[name].members
               == gs[name].members[..FirstIndex(gs[name].members, user)] + gs[name].members[FirstIndex(gs[name].members, user) + 1..]
            && multiset(o.groups[name].members) == multiset(gs[name].members) - multiset{user}
            && o.groups[name].(members := gs[name].members) == gs[name]
            && forall n :: n in gs && n != name ==> o.groups[n] == gs[n])
      && (name in gs && NoDuplicates(gs[name].members) ==>
            NoDuplicates(o.groups[name].members) && user !in o.groups[name].members)
  {
    if name in gs && user in gs[name].members {
      RemovedMembers(gs[name].members, user);
    }
  }

  /** Removing a user just added restores the group as it was. */
  lemma AddThenRemove(gs: Groups, name: string, user: string)
    requires AddMember(gs, name, user).status == MemberOk
    ensures RemoveMember(AddMember(gs, name, user).groups, name, user) == MemberOutcome(MemberOk, gs)
  {
    RemoveFirstAppended(gs[name].members, user);
  }

  // ---------------------------------------------------------------------------
  // Member listing

  /** One entry of the `get_members_group` answer. */
  datatype MemberInfo = MemberInfo(username: string, fullname: string, profile: string, status: string)

  function InfoOf(users: map<string, User>, name: string): MemberInfo
    requires name in users
  {
    MemberInfo(name, users[name].fullname, users[name].profile, users[name].status)
  }

  /**
   * The enrichment loop of `get_members_group` as written: through
   * `getUsernameByID`, every member with an account has its `very` key read,
   * and a missing key raises KeyError (None here). Members without an
   * account are skipped.
   */
  function MemberInfosAsWritten(users: map<string, User>, members: seq<string>): Option<seq<MemberInfo>> {
    if |members| == 0 then Some([])
    else
      var last := members[|members| - 1];
      match MemberInfosAsWritten(users, members[..|members| - 1])
      case None => None
      case Some(infos) =>
        if last !in users then Some(infos)
        else if users[last].very.None? then None
        else Some(infos + [InfoOf(users, last)])
  }

  /** The enrichment loop as intended: every member with an account, in member order. */
  function MemberInfos(users: map<string, User>, members: seq<string>): seq<MemberInfo> {
    if |members| == 0 then []
    else
      var last := members[|members| - 1];
      var infos := MemberInfos(users, members[..|members| - 1]);
      if last in users then infos + [InfoOf(users, last)] else infos
  }

  /** As written, one member without a `very` key makes the whole listing fail. */
  lemma {:induction false} MissingVeryFailsListing(users: map<string, User>, members: seq<string>, i: nat)
    requires i < |members| && members[i] in users && users[members[i]].very.None?
    ensures MemberInfosAsWritten(users, members) == None
  {
    if i < |members| - 1 {
      MissingVeryFailsListing(users, members[..|members| - 1], i);
    }
  }

  /** So a group with a member registered through `add_user` can never be listed. */
  lemma RegisteredMemberFailsListing(users: map<string, User>, members: seq<string>, i: nat,
                                     phone: string, fullname: string, bio: string, profile: Option<string>, token: string)
    requires i < |members| && members[i] in users && users[members[i]] == NewUser(phone, fullname, bio, profile, token)
    ensures MemberInfosAsWritten(users, members) == None
  {
    MissingVeryFailsListing(users, members, i);
  }

  /** Where the code as written does answer, it answers what the intended loop does. */
  lemma {:induction false} AsWrittenAgrees(users: map<string, User>, members: seq<string>)
    requires MemberInfosAsWritten(users, members).Some?
    ensures MemberInfosAsWritten(users, members) == Some(MemberInfos(users, members))
  {
    if |members| > 0 {
      AsWrittenAgrees(users, members[..|members| - 1]);
    }
  }

  /** The intended listing has an entry for exactly the members that have an account. */
  lemma {:induction false} MemberInfosSpec(users: map<string, User>, members: seq<string>)
    ensures |MemberInfos(users, members)| <= |members|
    ensures forall info :: info in MemberInfos(users, members) ==>
      info.username in members && info.username in users && info == InfoOf(users, info.username)
    ensures forall k :: 0 <= k < |members| && members[k] in users ==> InfoOf(users, members[k]) in MemberInfos(users, members)
  {
    if |members| > 0 {
      var prefix := members[..|members| - 1];
      MemberInfosSpec(users, prefix);
      assert forall k :: 0 <= k < |prefix| ==> prefix[k] == members[k];
      assert forall x :: x in prefix ==> x in members;
    }
  }

  /** When every member has an account, the listing has one entry per member, in member order. */
  lemma {:induction false} MemberInfosAllRegistered(users: map<string, User>, members: seq<string>)
    requires forall x :: x in members ==> x in users
    ensures |MemberInfos(users, members)| == |members|
    ensures forall k :: 0 <= k < |members| ==> MemberInfos(users, members)[k] == InfoOf(users, members[k])
  {
    if |members| > 0 {
      var prefix := members[..|members| - 1];
      assert forall k :: 0 <= k < |prefix| ==> prefix[k] == members[k];
      assert forall x :: x in prefix ==> x in members;
      MemberInfosAllRegistered(users, prefix);
      assert members[|members| - 1] in members;
    }
  }
}
