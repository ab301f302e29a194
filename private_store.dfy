/**
 * The private-message store of ChatManager (`self.messages` in db/manager.py):
 * per user an inbox with a conversation list and, per peer, a thread mapping
 * message ids to records. A private message is written as two copies, one in
 * each participant's thread with the other. This module gives `add_private_message`
 * and `edit_message` as functions on the store value, step by step as the source
 * performs them, and proves the dual-write properties.
 */
module PrivateStore {
  import opened Wrappers
  import opened ConversationList

  /** A private message record; `isEdit` false stands for the absent `isEdit` key. */
  datatype PrivateMessage = PrivateMessage(
    username: string, fromChat: string, toChat: string, message: string,
    time: string, messageId: string, reply: Option<string>, isEdit: bool)

  /** One conversation's messages, keyed by message id. */
  type Thread = map<string, PrivateMessage>

  /** A user's entry: `joinGroup`, `listPrivate.userslist` and `listPrivate.message`. */
  datatype Inbox = Inbox(joinGroup: seq<string>, usersList: seq<Summary>, threads: map<string, Thread>)

  /** All inboxes, keyed by username. */
  type Store = map<string, Inbox>

  /** The inbox `initialize_user_messages` creates. */
  const EMPTY_INBOX: Inbox := Inbox([], [], map[])

  /** `messages.get(owner, {}).get('listPrivate', {}).get('message', {}).get(peer, {})`. */
  function ThreadOf(m: Store, owner: string, peer: string): Thread {
    if owner in m && peer in m[owner].threads then m[owner].threads[peer] else map[]
  }

  /** The copy of message `id` in `owner`'s thread with `peer`. */
  function Lookup(m: Store, owner: string, peer: string, id: string): Option<PrivateMessage> {
    if id in ThreadOf(m, owner, peer) then Some(ThreadOf(m, owner, peer)[id]) else None
  }

  /** The unread count `owner`'s list shows for `peer`; 0 without an inbox. */
  function UnreadIn(m: Store, owner: string, peer: string): nat {
    if owner in m then UnreadOf(m[owner].usersList, peer) else 0
  }

  /** The conversation list of `owner`; empty without an inbox. */
  function ListOf(m: Store, owner: string): seq<Summary> {
    if owner in m then m[owner].usersList else []
  }

  /** Every copy of a message has its mirror: the same record under the same id on the other side. */
  ghost predicate Mirrored(m: Store) {
    forall owner, peer, id :: Lookup(m, owner, peer, id) == Lookup(m, peer, owner, id)
  }

  /** Every conversation list holds at most one entry per peer. */
  ghost predicate AllListsUnique(m: Store) {
    forall u :: u in m ==> UniquePeers(m[u].usersList)
  }

  // ---------------------------------------------------------------------------
  // The steps of add_private_message and edit_message

  /** `initialize_user_messages`: add an empty inbox unless one exists. */
  function Initialize(m: Store, u: string): (r: Store)
    ensures r.Keys == m.Keys + {u}
  {
    if u in m then m else m[u := EMPTY_INBOX]
  }

  /** Create `owner`'s thread with `peer` when it is missing. */
  function EnsureThread(m: Store, owner: string, peer: string): (r: Store)
    requires owner in m
    ensures r.Keys == m.Keys && peer in r[owner].threads
  {
    if peer in m[owner].threads then m
    else m[owner := m[owner].(threads := m[owner].threads[peer := map[]])]
  }

  /** Store `rec` under `id` in `owner`'s existing thread with `peer`. */
  function Put(m: Store, owner: string, peer: string, id: string, rec: PrivateMessage): (r: Store)
    requires owner in m && peer in m[owner].threads
    ensures r.Keys == m.Keys && r[owner].threads.Keys == m[owner].threads.Keys
  {
    m[owner := m[owner].(threads := m[owner].threads[peer := m[owner].threads[peer][id := rec]])]
  }

  /** Replace `owner`'s conversation list. */
  function WithList(m: Store, owner: string, list: seq<Summary>): (r: Store)
    requires owner in m
    ensures r.Keys == m.Keys
  {
    m[owner := m[owner].(usersList := list)]
  }

  /** The record `add_private_message` builds. */
  function NewRecord(from: string, to: string, message: string, time: string, id: string, reply: Option<string>): PrivateMessage {
    PrivateMessage(from, from, to, message, time, id, reply, false)
  }

  /** Lines 248-258 of `add_private_message`: both inboxes and both threads exist. */
  function Prepare(m: Store, from: string, to: string): (r: Store)
    ensures from in r && to in r && to in r[from].threads && from in r[to].threads
    ensures r.Keys == m.Keys + {from, to}
  {
    EnsureThread(EnsureThread(Initialize(Initialize(m, from), to), from, to), to, from)
  }

  /** Lines 270-272: the same record under the same id in both threads. */
  function Deliver(m: Store, from: string, to: string, id: string, rec: PrivateMessage): (r: Store)
    ensures from in r && to in r && r.Keys == m.Keys + {from, to}
  {
    var p := Prepare(m, from, to);
    Put(Put(p, from, to, id, rec), to, from, id, rec)
  }

  /**
   * The store after `add_private_message` has passed its existence check:
   * the record is delivered into both threads, both conversation lists are
   * touched, and the receiver's unread count for the sender is incremented.
   */
  function Send(m: Store, from: string, to: string, message: string, time: string, id: string, reply: Option<string>): Store {
    var m3 := Deliver(m, from, to, id, NewRecord(from, to, message, time, id, reply));
    var m4 := WithList(m3, from, Touch(m3[from].usersList, to, message, time));
    var m5 := WithList(m4, to, Touch(m4[to].usersList, from, message, time));
    WithList(m5, to, Increment(m5[to].usersList, from))
  }

  /** The fields `edit_message` rewrites in a copy. */
  function MarkEdited(rec: PrivateMessage, text: string): PrivateMessage {
    rec.(message := text, isEdit := true)
  }

  /** Rewrite `owner`'s copy of `id` in the thread with `peer`, if there is one. */
  function EditCopy(m: Store, owner: string, peer: string, id: string, text: string): (r: Store)
    ensures r.Keys == m.Keys
  {
    if owner in m && peer in m[owner].threads && id in m[owner].threads[peer] then
      var t := m[owner].threads[peer];
      m[owner := m[owner].(threads := m[owner].threads[peer := t[id := MarkEdited(t[id], text)]])]
    else m
  }

  /** The preview loop of `edit_message` over `owner`'s list. */
  function PreviewIn(m: Store, owner: string, peer: string, text: string): (r: Store)
    requires owner in m
    ensures r.Keys == m.Keys
  {
    WithList(m, owner, SetPreview(m[owner].usersList, peer, text))
  }

  /** The statuses of `edit_message`; PeerInboxMissing stands for the KeyError the source raises. */
  datatype EditStatus = EditOk | TokenInvalidOrNotFound | MessageNotFound | PeerInboxMissing

  datatype EditOutcome = EditOutcome(status: EditStatus, store: Store)

  /**
   * `edit_message` after authentication. The caller's copy must exist. Both
   * copies are rewritten, then the caller's list preview; reaching the peer's
   * list raises KeyError when the peer has no inbox, after those writes.
   */
  function Edit(m: Store, owner: string, peer: string, id: string, text: string): EditOutcome {
    if id !in ThreadOf(m, owner, peer) then EditOutcome(MessageNotFound, m)
    else
      var m1 := EditCopy(EditCopy(m, owner, peer, id, text), peer, owner, id, text);
      var m2 := PreviewIn(m1, owner, peer, text);
      if peer in m2 then EditOutcome(EditOk, PreviewIn(m2, peer, owner, text))
      else EditOutcome(PeerInboxMissing, m2)
  }

  // ---------------------------------------------------------------------------
  // Helpers

  lemma WithListKeepsMessages(m: Store, owner: string, list: seq<Summary>)
    requires owner in m
    ensures forall u, p, k :: Lookup(WithList(m, owner, list), u, p, k) == Lookup(m, u, p, k)
  {
  }

  lemma InitializeKeepsMessages(m: Store, u: string)
    ensures forall x, p, k :: Lookup(Initialize(m, u), x, p, k) == Lookup(m, x, p, k)
    ensures forall x, p :: UnreadIn(Initialize(m, u), x, p) == UnreadIn(m, x, p)
    ensures forall x :: ListOf(Initialize(m, u), x) == ListOf(m, x)
  {
  }

  lemma EnsureThreadKeepsMessages(m: Store, owner: string, peer: string)
    requires owner in m
    ensures forall x, p, k :: Lookup(EnsureThread(m, owner, peer), x, p, k) == Lookup(m, x, p, k)
    ensures forall x :: x in m ==> EnsureThread(m, owner, peer)[x].usersList == m[x].usersList
  {
  }

  lemma PutLookup(m: Store, owner: string, peer: string, id: string, rec: PrivateMessage)
    requires owner in m && peer in m[owner].threads
    ensures forall x, p, k :: Lookup(Put(m, owner, peer, id, rec), x, p, k)
                           == if x == owner && p == peer && k == id then Some(rec) else Lookup(m, x, p, k)
    ensures forall x :: x in m ==> Put(m, owner, peer, id, rec)[x].usersList == m[x].usersList
  {
  }

  lemma EditCopyLookup(m: Store, owner: string, peer: string, id: string, text: string)
    ensures forall x, p, k ::
              Lookup(EditCopy(m, owner, peer, id, text), x, p, k)
              == if x == owner && p == peer && k == id && Lookup(m, x, p, k).Some?
                 then Some(MarkEdited(Lookup(m, x, p, k).value, text))
                 else Lookup(m, x, p, k)
    ensures forall x :: x in m ==> EditCopy(m, owner, peer, id, text)[x].usersList == m[x].usersList
  {
  }

  lemma PrepareKeeps(m: Store, from: string, to: string)
    ensures forall x, p, k :: Lookup(Prepare(m, from, to), x, p, k) == Lookup(m, x, p, k)
    ensures forall x :: x in Prepare(m, from, to) ==> Prepare(m, from, to)[x].usersList == ListOf(m, x)
    ensures forall x :: x in m && x != from && x != to ==> Prepare(m, from, to)[x] == m[x]
  {
    var m0 := Initialize(m, from);
    InitializeKeepsMessages(m, from);
    var m1 := Initialize(m0, to);
    InitializeKeepsMessages(m0, to);
    EnsureThreadKeepsMessages(m1, from, to);
    EnsureThreadKeepsMessages(EnsureThread(m1, from, to), to, from);
  }

  lemma DeliverSpec(m: Store, from: string, to: string, id: string, rec: PrivateMessage)
    ensures forall x :: x in Deliver(m, from, to, id, rec) ==> Deliver(m, from, to, id, rec)[x].usersList == ListOf(m, x)
    ensures forall x :: x in m && x != from && x != to ==> Deliver(m, from, to, id, rec)[x] == m[x]
    ensures forall x, p, k ::
              Lookup(Deliver(m, from, to, id, rec), x, p, k)
              == if k == id && ((x == from && p == to) || (x == to && p == from)) then Some(rec) else Lookup(m, x, p, k)
  {
    var p := Prepare(m, from, to);
    PrepareKeeps(m, from, to);
    PutLookup(p, from, to, id, rec);
    PutLookup(Put(p, from, to, id, rec), to, from, id, rec);
  }

  /** The lists Send builds, and Send in terms of them. */
  lemma SendSteps(m: Store, from: string, to: string, message: string, time: string, id: string, reply: Option<string>)
      returns (m3: Store, l4: seq<Summary>, l5: seq<Summary>)
    ensures m3 == Deliver(m, from, to, id, NewRecord(from, to, message, time, id, reply))
    ensures forall x :: x in m3 ==> m3[x].usersList == ListOf(m, x)
    ensures forall x :: x in m && x != from && x != to ==> m3[x] == m[x]
    ensures l4 == Touch(ListOf(m, from), to, message, time)
    ensures l5 == Touch(if from == to then l4 else ListOf(m, to), from, message, time)
    ensures Send(m, from, to, message, time, id, reply)
         == WithList(WithList(WithList(m3, from, l4), to, l5), to, Increment(l5, from))
  {
    m3 := Deliver(m, from, to, id, NewRecord(from, to, message, time, id, reply));
    DeliverSpec(m, from, to, id, NewRecord(from, to, message, time, id, reply));
    l4 := Touch(m3[from].usersList, to, message, time);
    var m4 := WithList(m3, from, l4);
    l5 := Touch(m4[to].usersList, from, message, time);
  }

  lemma WithListUnique(m: Store, owner: string, list: seq<Summary>)
    requires owner in m && AllListsUnique(m) && UniquePeers(list)
    ensures AllListsUnique(WithList(m, owner, list))
  {
  }

  // ---------------------------------------------------------------------------
  // What add_private_message promises

  /** The same record is stored under the same id in both participants' threads. */
  lemma SendWritesBothCopies(m: Store, from: string, to: string, message: string, time: string, id: string, reply: Option<string>)
    ensures var r := Send(m, from, to, message, time, id, reply);
      && Lookup(r, from, to, id) == Some(NewRecord(from, to, message, time, id, reply))
      && Lookup(r, to, from, id) == Some(NewRecord(from, to, message, time, id, reply))
  {
    var m3, l4, l5 := SendSteps(m, from, to, message, time, id, reply);
    DeliverSpec(m, from, to, id, NewRecord(from, to, message, time, id, reply));
    WithListKeepsMessages(m3, from, l4);
    WithListKeepsMessages(WithList(m3, from, l4), to, l5);
    WithListKeepsMessages(WithList(WithList(m3, from, l4), to, l5), to, Increment(l5, from));
  }

  /** Every other message copy, in every inbox, is as before. */
  lemma SendKeepsOtherMessages(m: Store, from: string, to: string, message: string, time: string, id: string, reply: Option<string>)
    ensures forall x, p, k :: !(k == id && ((x == from && p == to) || (x == to && p == from))) ==>
      Lookup(Send(m, from, to, message, time, id, reply), x, p, k) == Lookup(m, x, p, k)
  {
    var m3, l4, l5 := SendSteps(m, from, to, message, time, id, reply);
    DeliverSpec(m, from, to, id, NewRecord(from, to, message, time, id, reply));
    WithListKeepsMessages(m3, from, l4);
    WithListKeepsMessages(WithList(m3, from, l4), to, l5);
    WithListKeepsMessages(WithList(WithList(m3, from, l4), to, l5), to, Increment(l5, from));
  }

  /**
   * Both inboxes exist afterwards and each list has the other participant at
   * index 0, showing the new message and time.
   */
  lemma SendFronts(m: Store, from: string, to: string, message: string, time: string, id: string, reply: Option<string>)
    ensures var r := Send(m, from, to, message, time, id, reply);
      && from in r && to in r
      && |r[from].usersList| > 0 && |r[to].usersList| > 0
      && r[from].usersList[0].username == to
      && r[to].usersList[0].username == from
      && r[from].usersList[0].lastMessage == message == r[to].usersList[0].lastMessage
      && r[from].usersList[0].lastTime == time == r[to].usersList[0].lastTime
  {
    var m3, l4, l5 := SendSteps(m, from, to, message, time, id, reply);
    TouchFront(ListOf(m, from), to, message, time);
    TouchFront(if from == to then l4 else ListOf(m, to), from, message, time);
    FindFirst(l5, from, 0);
    IncrementExisting(l5, from, 0);
  }

  /** The receiver's unread count for the sender rises by exactly one. */
  lemma SendCountsUnread(m: Store, from: string, to: string, message: string, time: string, id: string, reply: Option<string>)
    ensures UnreadIn(Send(m, from, to, message, time, id, reply), to, from) == UnreadIn(m, to, from) + 1
  {
    var m3, l4, l5 := SendSteps(m, from, to, message, time, id, reply);
    TouchKeepsUnread(ListOf(m, from), to, message, time);
    TouchKeepsUnread(if from == to then l4 else ListOf(m, to), from, message, time);
    IncrementCount(l5, from);
  }

  /**
   * Inboxes of third parties are untouched, and in the two lists the entries
   * for every other peer keep their order and contents.
   */
  lemma SendKeepsOthers(m: Store, from: string, to: string, message: string, time: string, id: string, reply: Option<string>)
    ensures var r := Send(m, from, to, message, time, id, reply);
      && r.Keys == m.Keys + {from, to}
      && (forall x :: x in m && x != from && x != to ==> r[x] == m[x])
      && Without(r[from].usersList, to) == Without(ListOf(m, from), to)
      && Without(r[to].usersList, from) == Without(ListOf(m, to), from)
  {
    var m3, l4, l5 := SendSteps(m, from, to, message, time, id, reply);
    TouchKeepsOthers(ListOf(m, from), to, message, time);
    TouchKeepsOthers(if from == to then l4 else ListOf(m, to), from, message, time);
    IncrementKeepsOthers(l5, from);
  }

  /** Sending keeps "at most one entry per peer" in every list. */
  lemma SendKeepsListsUnique(m: Store, from: string, to: string, message: string, time: string, id: string, reply: Option<string>)
    requires AllListsUnique(m)
    ensures AllListsUnique(Send(m, from, to, message, time, id, reply))
  {
    var m3, l4, l5 := SendSteps(m, from, to, message, time, id, reply);
    assert AllListsUnique(m3);
    TouchUnique(ListOf(m, from), to, message, time);
    WithListUnique(m3, from, l4);
    var m4 := WithList(m3, from, l4);
    TouchUnique(if from == to then l4 else ListOf(m, to), from, message, time);
    WithListUnique(m4, to, l5);
    IncrementUnique(l5, from);
    WithListUnique(WithList(m4, to, l5), to, Increment(l5, from));
  }

  /** A store that differs from a mirrored one only by one record written into both threads of a pair is mirrored. */
  lemma MirroredAfterPairWrite(m: Store, r: Store, from: string, to: string, id: string, rec: PrivateMessage)
    requires Mirrored(m)
    requires Lookup(r, from, to, id) == Some(rec) && Lookup(r, to, from, id) == Some(rec)
    requires forall x, p, k :: !(k == id && ((x == from && p == to) || (x == to && p == from))) ==>
      Lookup(r, x, p, k) == Lookup(m, x, p, k)
    ensures Mirrored(r)
  {
  }

  /** Sending keeps every copy paired with its mirror. */
  lemma SendKeepsMirrored(m: Store, from: string, to: string, message: string, time: string, id: string, reply: Option<string>)
    requires Mirrored(m)
    ensures Mirrored(Send(m, from, to, message, time, id, reply))
  {
    SendWritesBothCopies(m, from, to, message, time, id, reply);
    SendKeepsOtherMessages(m, from, to, message, time, id, reply);
    MirroredAfterPairWrite(m, Send(m, from, to, message, time, id, reply), from, to, id, NewRecord(from, to, message, time, id, reply));
  }

  // ---------------------------------------------------------------------------
  // What edit_message promises

  /** The copies after the two writes of lines 209-215, before the preview loops. */
  lemma EditCopiesLookup(m: Store, owner: string, peer: string, id: string, text: string)
    ensures var m1 := EditCopy(EditCopy(m, owner, peer, id, text), peer, owner, id, text);
      && m1.Keys == m.Keys
      && (forall x :: x in m ==> m1[x].usersList == m[x].usersList)
      && (forall x, p, k :: !(k == id && ((x == owner && p == peer) || (x == peer && p == owner))) ==>
            Lookup(m1, x, p, k) == Lookup(m, x, p, k))
      && Lookup(m1, owner, peer, id) == (if Lookup(m, owner, peer, id).Some? then Some(MarkEdited(Lookup(m, owner, peer, id).value, text)) else None)
      && Lookup(m1, peer, owner, id) == (if Lookup(m, peer, owner, id).Some? then Some(MarkEdited(Lookup(m, peer, owner, id).value, text)) else None)
  {
    EditCopyLookup(m, owner, peer, id, text);
    EditCopyLookup(EditCopy(m, owner, peer, id, text), peer, owner, id, text);
  }

  /**
   * An id absent from the caller's thread with `peer` is reported as
   * MESSAGE_NOT_FOUND and nothing changes. Otherwise the caller's copy gets the
   * new text and the edited flag, the mirror copy gets the same update when it
   * exists and stays absent when it does not, and the edit ends with OK exactly
   * when the peer has an inbox.
   */
  lemma EditRewritesCopies(m: Store, owner: string, peer: string, id: string, text: string)
    ensures id !in ThreadOf(m, owner, peer) ==> Edit(m, owner, peer, id, text) == EditOutcome(MessageNotFound, m)
    ensures id in ThreadOf(m, owner, peer) ==>
      var o := Edit(m, owner, peer, id, text);
      && (o.status == EditOk <==> peer in m)
      && (o.status != EditOk ==> o.status == PeerInboxMissing)
      && Lookup(o.store, owner, peer, id) == Some(MarkEdited(ThreadOf(m, owner, peer)[id], text))
      && Lookup(o.store, peer, owner, id)
         == (if Lookup(m, peer, owner, id).Some? then Some(MarkEdited(Lookup(m, peer, owner, id).value, text)) else None)
  {
    if id in ThreadOf(m, owner, peer) {
      EditCopiesLookup(m, owner, peer, id, text);
      var m1 := EditCopy(EditCopy(m, owner, peer, id, text), peer, owner, id, text);
      WithListKeepsMessages(m1, owner, SetPreview(m1[owner].usersList, peer, text));
      var m2 := PreviewIn(m1, owner, peer, text);
      if peer in m2 {
        WithListKeepsMessages(m2, peer, SetPreview(m2[peer].usersList, owner, text));
      }
    }
  }

  /** Every other message copy is left as it was. */
  lemma EditKeepsOtherMessages(m: Store, owner: string, peer: string, id: string, text: string)
    ensures forall x, p, k :: !(k == id && ((x == owner && p == peer) || (x == peer && p == owner))) ==>
      Lookup(Edit(m, owner, peer, id, text).store, x, p, k) == Lookup(m, x, p, k)
  {
    if id in ThreadOf(m, owner, peer) {
      EditCopiesLookup(m, owner, peer, id, text);
      var m1 := EditCopy(EditCopy(m, owner, peer, id, text), peer, owner, id, text);
      WithListKeepsMessages(m1, owner, SetPreview(m1[owner].usersList, peer, text));
      var m2 := PreviewIn(m1, owner, peer, text);
      if peer in m2 {
        WithListKeepsMessages(m2, peer, SetPreview(m2[peer].usersList, owner, text));
      }
    }
  }

  /**
   * On OK both participants' entries for each other show the new text, and
   * every list keeps its order, peers, times and counters.
   */
  lemma EditUpdatesPreviews(m: Store, owner: string, peer: string, id: string, text: string)
    requires Edit(m, owner, peer, id, text).status == EditOk
    ensures var r := Edit(m, owner, peer, id, text).store;
      && r.Keys == m.Keys
      && EntryOf(r[owner].usersList, peer) == WithPreview(EntryOf(m[owner].usersList, peer), text)
      && EntryOf(r[peer].usersList, owner) == WithPreview(EntryOf(m[peer].usersList, owner), text)
      && Without(r[owner].usersList, peer) == Without(m[owner].usersList, peer)
      && Without(r[peer].usersList, owner) == Without(m[peer].usersList, owner)
      && (forall x :: x in m ==> SameExceptPreviews(r[x].usersList, m[x].usersList))
    ensures forall x :: x in m && x != owner && x != peer ==> Edit(m, owner, peer, id, text).store[x] == m[x]
  {
    EditCopiesLookup(m, owner, peer, id, text);
    var m1 := EditCopy(EditCopy(m, owner, peer, id, text), peer, owner, id, text);
    var l1 := m[owner].usersList;
    var l2 := SetPreview(l1, peer, text);
    SetPreviewSpec(l1, peer, text);
    SetPreviewKeepsOthers(l1, peer, text);
    var m2 := PreviewIn(m1, owner, peer, text);
    var l3 := m2[peer].usersList;
    SetPreviewSpec(l3, owner, text);
    SetPreviewKeepsOthers(l3, owner, text);
    var r := PreviewIn(m2, peer, owner, text);
    assert r == Edit(m, owner, peer, id, text).store;
    if owner == peer {
      assert l3 == l2;
      SetPreviewKeepsOthers(l2, owner, text);
      assert r[owner].usersList == SetPreview(l2, owner, text);
      assert SameExceptPreviews(r[owner].usersList, l1) by {
        assert forall j :: 0 <= j < |l1| ==> r[owner].usersList[j].(lastMessage := l2[j].lastMessage) == l2[j];
      }
    }
  }

  /** An edit keeps every copy paired with its mirror. */
  lemma EditKeepsMirrored(m: Store, owner: string, peer: string, id: string, text: string)
    requires Mirrored(m)
    ensures Mirrored(Edit(m, owner, peer, id, text).store)
  {
    EditRewritesCopies(m, owner, peer, id, text);
    EditKeepsOtherMessages(m, owner, peer, id, text);
    assert Lookup(m, owner, peer, id) == Lookup(m, peer, owner, id);
  }

  /**
   * When every copy has its mirror, an edit of an existing message succeeds
   * and leaves both copies with the new text and the edited flag.
   */
  lemma MirroredEditUpdatesBoth(m: Store, owner: string, peer: string, id: string, text: string)
    requires Mirrored(m) && id in ThreadOf(m, owner, peer)
    ensures var o := Edit(m, owner, peer, id, text);
      && o.status == EditOk
      && Lookup(o.store, owner, peer, id) == Some(MarkEdited(ThreadOf(m, owner, peer)[id], text))
      && Lookup(o.store, peer, owner, id) == Some(MarkEdited(ThreadOf(m, owner, peer)[id], text))
  {
    EditRewritesCopies(m, owner, peer, id, text);
    assert Lookup(m, owner, peer, id) == Lookup(m, peer, owner, id);
  }

  /** Sending a message and then editing it as its sender rewrites both copies. */
  lemma SendThenEdit(m: Store, from: string, to: string, message: string, time: string, id: string, reply: Option<string>, text: string)
    ensures var o := Edit(Send(m, from, to, message, time, id, reply), from, to, id, text);
      && o.status == EditOk
      && Lookup(o.store, from, to, id) == Some(MarkEdited(NewRecord(from, to, message, time, id, reply), text))
      && Lookup(o.store, to, from, id) == Some(MarkEdited(NewRecord(from, to, message, time, id, reply), text))
  {
    var r := Send(m, from, to, message, time, id, reply);
    SendWritesBothCopies(m, from, to, message, time, id, reply);
    SendFronts(m, from, to, message, time, id, reply);
    EditRewritesCopies(r, from, to, id, text);
  }
}
