/**
 * A user's conversation list (`listPrivate.userslist` in db/manager.py): an
 * ordered sequence of peer summaries, most recently active first. This module
 * gives each list operation of ChatManager as a function on the list value and
 * proves what the operations promise about order, uniqueness and counters.
 */
module ConversationList {
  import opened Wrappers

  /**
   * One entry of a conversation list. `countMessage` is None for an entry made
   * by `update_user_list`, which writes no `count_message` key.
   */
  datatype Summary = Summary(username: string, lastMessage: string, lastTime: string, countMessage: Option<nat>)

  /** The unread count of an entry, where a missing key reads as 0. */
  function Unread(e: Summary): nat {
    e.countMessage.GetOr(0)
  }

  /**
   * The position of the first entry for `peer`: the entry that the source's
   * `for user in users_list: if user["username"] == peer: ... break` loops and
   * its `next(...)` generator stop at.
   */
  function Find(list: seq<Summary>, peer: string): (r: Option<nat>)
    ensures r.Some? ==> r.value < |list| && list[r.value].username == peer
    ensures r.Some? ==> forall j :: 0 <= j < r.value ==> list[j].username != peer
    ensures r.None? ==> forall j :: 0 <= j < |list| ==> list[j].username != peer
  {
    if |list| == 0 then None
    else if list[0].username == peer then Some(0)
    else match Find(list[1..], peer)
      case None => None
      case Some(i) => Some(i + 1)
  }

  /** The first entry for `peer`, if any. */
  function EntryOf(list: seq<Summary>, peer: string): Option<Summary> {
    match Find(list, peer)
    case Some(i) => Some(list[i])
    case None => None
  }

  /** The unread count the list shows for `peer`; 0 when there is no entry. */
  function UnreadOf(list: seq<Summary>, peer: string): nat {
    match EntryOf(list, peer)
    case Some(e) => Unread(e)
    case None => 0
  }

  /** At most one entry per peer. */
  ghost predicate UniquePeers(list: seq<Summary>) {
    forall i, j :: 0 <= i < j < |list| ==> list[i].username != list[j].username
  }

  /** The entries for peers other than `peer`, in list order. */
  function Without(list: seq<Summary>, peer: string): seq<Summary> {
    if |list| == 0 then []
    else if list[0].username == peer then Without(list[1..], peer)
    else [list[0]] + Without(list[1..], peer)
  }

  /** `move_to_front`: pop the element at `index` and insert it at position 0; out of range, no change. */
  function MoveToFront<T>(lst: seq<T>, index: nat): seq<T> {
    if index < |lst| then [lst[index]] + lst[..index] + lst[index + 1..] else lst
  }

  /** `update_user_list`: refresh an existing entry and move it to the front, or insert a new one at the front. */
  function Touch(list: seq<Summary>, peer: string, message: string, time: string): seq<Summary> {
    match Find(list, peer)
    case Some(i) => MoveToFront(list[i := list[i].(lastMessage := message, lastTime := time)], i)
    case None => [Summary(peer, message, time, None)] + list
  }

  /** `increment_unread_message_count`: count one more unread message from `peer`. */
  function Increment(list: seq<Summary>, peer: string): seq<Summary> {
    match Find(list, peer)
    case Some(i) => list[i := list[i].(countMessage := Some(Unread(list[i]) + 1))]
    case None => [Summary(peer, "", "", Some(1))] + list
  }

  /** `reset_unread_message_count`: the entry for `peer`, if any, gets count 0. */
  function Reset(list: seq<Summary>, peer: string): seq<Summary> {
    match Find(list, peer)
    case Some(i) => list[i := list[i].(countMessage := Some(0))]
    case None => list
  }

  /** An entry, if any, showing `message` as its preview. */
  function WithPreview(e: Option<Summary>, message: string): Option<Summary> {
    match e
    case Some(s) => Some(s.(lastMessage := message))
    case None => None
  }

  /** Two lists that differ at most in the previews of their entries. */
  ghost predicate SameExceptPreviews(a: seq<Summary>, b: seq<Summary>) {
    |a| == |b| && forall j :: 0 <= j < |a| ==> a[j].(lastMessage := b[j].lastMessage) == b[j]
  }

  /** The preview loop of `edit_message`: the entry for `peer`, if any, shows `message`. */
  function SetPreview(list: seq<Summary>, peer: string, message: string): seq<Summary> {
    match Find(list, peer)
    case Some(i) => list[i := list[i].(lastMessage := message)]
    case None => list
  }

  // ---------------------------------------------------------------------------
  // Helpers about Find and Without

  /** The first matching position is what Find returns. */
  lemma FindFirst(list: seq<Summary>, peer: string, i: nat)
    requires i < |list| && list[i].username == peer
    requires forall j :: 0 <= j < i ==> list[j].username != peer
    ensures Find(list, peer) == Some(i)
  {
  }

  lemma {:induction false} WithoutConcat(a: seq<Summary>, b: seq<Summary>, peer: string)
    ensures Without(a + b, peer) == Without(a, peer) + Without(b, peer)
  {
    if |a| == 0 {
      assert a + b == b;
    } else {
      assert (a + b)[0] == a[0] && (a + b)[1..] == a[1..] + b;
      WithoutConcat(a[1..], b, peer);
    }
  }

  /** Removing the entry at `i` for `peer`, or replacing it by another entry for `peer`, leaves the others. */
  lemma WithoutSplit(list: seq<Summary>, i: nat, peer: string)
    requires i < |list| && list[i].username == peer
    ensures Without(list, peer) == Without(list[..i], peer) + Without(list[i + 1..], peer)
  {
    assert list == list[..i] + ([list[i]] + list[i + 1..]);
    WithoutConcat(list[..i], [list[i]] + list[i + 1..], peer);
  }

  lemma WithoutUpdate(list: seq<Summary>, i: nat, e: Summary, peer: string)
    requires i < |list| && list[i].username == peer && e.username == peer
    ensures Without(list[i := e], peer) == Without(list, peer)
  {
    var list' := list[i := e];
    assert list'[..i] == list[..i] && list'[i + 1..] == list[i + 1..];
    WithoutSplit(list, i, peer);
    WithoutSplit(list', i, peer);
  }

  lemma WithoutMoveToFront(list: seq<Summary>, i: nat, peer: string)
    requires i < |list| && list[i].username == peer
    ensures Without(MoveToFront(list, i), peer) == Without(list, peer)
  {
    WithoutConcat([list[i]] + list[..i], list[i + 1..], peer);
    WithoutConcat([list[i]], list[..i], peer);
    WithoutSplit(list, i, peer);
  }

  /** For every other peer, the first entry can be read off the list without `peer`'s entries. */
  lemma {:induction false} EntryOfWithout(list: seq<Summary>, peer: string, other: string)
    requires other != peer
    ensures EntryOf(list, other) == EntryOf(Without(list, peer), other)
  {
    if |list| > 0 {
      EntryOfWithout(list[1..], peer, other);
      if list[0].username != peer {
        var w := [list[0]] + Without(list[1..], peer);
        assert w[1..] == Without(list[1..], peer);
      }
    }
  }

  // ---------------------------------------------------------------------------
  // Properties of the list operations

  /**
   * Within range, the element at `index` comes first, the elements before it
   * shift one place back and the ones after it stay where they were, so the
   * others keep their relative order and the contents are a permutation.
   * Out of range the list is untouched.
   */
  lemma MoveToFrontSpec<T>(lst: seq<T>, index: nat)
    ensures |MoveToFront(lst, index)| == |lst|
    ensures multiset(MoveToFront(lst, index)) == multiset(lst)
    ensures index < |lst| ==> MoveToFront(lst, index)[0] == lst[index]
    ensures index < |lst| ==> forall j :: 0 <= j < index ==> MoveToFront(lst, index)[j + 1] == lst[j]
    ensures index < |lst| ==> forall j :: index < j < |lst| ==> MoveToFront(lst, index)[j] == lst[j]
    ensures index >= |lst| ==> MoveToFront(lst, index) == lst
  {
    if index < |lst| {
      assert lst == lst[..index] + [lst[index]] + lst[index + 1..];
    }
  }

  /** Where the element at position `a` of `MoveToFront(l, i)` came from. */
  function Source(a: nat, i: nat): nat {
    if a == 0 then i else if a <= i then a - 1 else a
  }

  lemma MoveToFrontUnique(list: seq<Summary>, i: nat)
    requires i < |list| && UniquePeers(list)
    ensures UniquePeers(MoveToFront(list, i))
  {
    var r := MoveToFront(list, i);
    MoveToFrontSpec(list, i);
    forall a, b | 0 <= a < b < |r| ensures r[a].username != r[b].username {
      assert r[a] == list[Source(a, i)] && r[b] == list[Source(b, i)];
    }
  }

  /** After `update_user_list`, the peer is at index 0 with the new preview and its old counter. */
  lemma TouchFront(list: seq<Summary>, peer: string, message: string, time: string)
    ensures |Touch(list, peer, message, time)| > 0
    ensures Touch(list, peer, message, time)[0]
         == Summary(peer, message, time, if Find(list, peer).Some? then list[Find(list, peer).value].countMessage else None)
  {
    match Find(list, peer)
    case Some(i) => MoveToFrontSpec(list[i := list[i].(lastMessage := message, lastTime := time)], i);
    case None =>
  }

  /** The list gains exactly one entry when the peer was absent and otherwise keeps its length. */
  lemma TouchLength(list: seq<Summary>, peer: string, message: string, time: string)
    ensures |Touch(list, peer, message, time)| == if Find(list, peer).None? then |list| + 1 else |list|
  {
    match Find(list, peer)
    case Some(i) => MoveToFrontSpec(list[i := list[i].(lastMessage := message, lastTime := time)], i);
    case None =>
  }

  /** "At most one entry per peer" is preserved. */
  lemma TouchUnique(list: seq<Summary>, peer: string, message: string, time: string)
    requires UniquePeers(list)
    ensures UniquePeers(Touch(list, peer, message, time))
  {
    match Find(list, peer)
    case Some(i) =>
      var list' := list[i := list[i].(lastMessage := message, lastTime := time)];
      assert forall j :: 0 <= j < |list| ==> list'[j].username == list[j].username;
      MoveToFrontUnique(list', i);
    case None =>
  }

  /** The entries for every other peer stay, in the same relative order and with the same contents. */
  lemma TouchKeepsOthers(list: seq<Summary>, peer: string, message: string, time: string)
    ensures Without(Touch(list, peer, message, time), peer) == Without(list, peer)
  {
    match Find(list, peer)
    case Some(i) =>
      var list' := list[i := list[i].(lastMessage := message, lastTime := time)];
      WithoutMoveToFront(list', i, peer);
      WithoutUpdate(list, i, list'[i], peer);
    case None =>
      assert ([Summary(peer, message, time, None)] + list)[1..] == list;
  }

  /** Touching a conversation does not change its unread count. */
  lemma TouchKeepsUnread(list: seq<Summary>, peer: string, message: string, time: string)
    ensures UnreadOf(Touch(list, peer, message, time), peer) == UnreadOf(list, peer)
  {
    TouchFront(list, peer, message, time);
    FindFirst(Touch(list, peer, message, time), peer, 0);
  }

  /** An existing entry's count rises by exactly one, in place; nothing else changes. */
  lemma IncrementExisting(list: seq<Summary>, peer: string, i: nat)
    requires Find(list, peer) == Some(i)
    ensures |Increment(list, peer)| == |list|
    ensures Increment(list, peer)[i].countMessage == Some(Unread(list[i]) + 1)
    ensures Increment(list, peer)[i].(countMessage := list[i].countMessage) == list[i]
    ensures forall j :: 0 <= j < |list| && j != i ==> Increment(list, peer)[j] == list[j]
  {
  }

  /** An absent peer gets a new entry with count 1 and an empty preview, inserted at index 0. */
  lemma IncrementAbsent(list: seq<Summary>, peer: string)
    requires Find(list, peer).None?
    ensures Increment(list, peer)[0] == Summary(peer, "", "", Some(1))
    ensures Increment(list, peer)[1..] == list
  {
  }

  /** Whichever case applies, the unread count the list shows for `peer` rises by one. */
  lemma IncrementCount(list: seq<Summary>, peer: string)
    ensures UnreadOf(Increment(list, peer), peer) == UnreadOf(list, peer) + 1
  {
    match Find(list, peer)
    case Some(i) => FindFirst(Increment(list, peer), peer, i);
    case None => FindFirst(Increment(list, peer), peer, 0);
  }

  lemma IncrementKeepsOthers(list: seq<Summary>, peer: string)
    ensures Without(Increment(list, peer), peer) == Without(list, peer)
  {
    match Find(list, peer)
    case Some(i) => WithoutUpdate(list, i, Increment(list, peer)[i], peer);
    case None => assert Increment(list, peer)[1..] == list;
  }

  lemma IncrementUnique(list: seq<Summary>, peer: string)
    requires UniquePeers(list)
    ensures UniquePeers(Increment(list, peer))
  {
  }

  /** The matching entry's count becomes 0 in place; order, length and other entries stay; absent peer, no-op. */
  lemma ResetSpec(list: seq<Summary>, peer: string)
    ensures |Reset(list, peer)| == |list|
    ensures Find(list, peer).None? ==> Reset(list, peer) == list
    ensures Find(list, peer).Some? ==>
      var i := Find(list, peer).value;
      Reset(list, peer)[i] == list[i].(countMessage := Some(0))
      && forall j :: 0 <= j < |list| && j != i ==> Reset(list, peer)[j] == list[j]
  {
  }

  /** After a reset the list shows no unread messages from `peer`. */
  lemma ResetClears(list: seq<Summary>, peer: string)
    ensures UnreadOf(Reset(list, peer), peer) == 0
  {
    match Find(list, peer)
    case Some(i) => FindFirst(Reset(list, peer), peer, i);
    case None =>
  }

  lemma ResetKeepsOthers(list: seq<Summary>, peer: string)
    ensures Without(Reset(list, peer), peer) == Without(list, peer)
  {
    match Find(list, peer)
    case Some(i) => WithoutUpdate(list, i, Reset(list, peer)[i], peer);
    case None =>
  }

  /** `n` messages from `peer` in a row, each counted by `increment_unread_message_count`. */
  function IncrementN(list: seq<Summary>, peer: string, n: nat): seq<Summary> {
    if n == 0 then list else Increment(IncrementN(list, peer, n - 1), peer)
  }

  /** After `n` increments the list shows `n` more unread messages from `peer`, and an entry for it when `n > 0`. */
  lemma {:induction false} IncrementNCount(list: seq<Summary>, peer: string, n: nat)
    ensures UnreadOf(IncrementN(list, peer, n), peer) == UnreadOf(list, peer) + n
    ensures n > 0 ==> Find(IncrementN(list, peer, n), peer).Some?
  {
    if n > 0 {
      IncrementNCount(list, peer, n - 1);
      IncrementCount(IncrementN(list, peer, n - 1), peer);
      var l := IncrementN(list, peer, n - 1);
      match Find(l, peer)
      case Some(i) => FindFirst(Increment(l, peer), peer, i);
      case None => FindFirst(Increment(l, peer), peer, 0);
    }
  }

  /** Any positive number of increments followed by a reset leave an entry for `peer` with count 0. */
  lemma IncrementNThenReset(list: seq<Summary>, peer: string, n: nat)
    requires n > 0
    ensures var l := Reset(IncrementN(list, peer, n), peer);
      UnreadOf(l, peer) == 0 && Find(l, peer).Some?
  {
    var ln := IncrementN(list, peer, n);
    IncrementNCount(list, peer, n);
    ResetClears(ln, peer);
    match Find(ln, peer)
    case Some(i) => FindFirst(Reset(ln, peer), peer, i);
    case None =>
  }

  /**
   * The edit preview changes only the `last_message` of the first entry for
   * `peer`; every other position, and that entry's other fields, stay.
   */
  lemma SetPreviewSpec(list: seq<Summary>, peer: string, message: string)
    ensures SameExceptPreviews(SetPreview(list, peer, message), list)
    ensures EntryOf(SetPreview(list, peer, message), peer) == WithPreview(EntryOf(list, peer), message)
    ensures forall j :: 0 <= j < |list| && Find(list, peer) != Some(j) ==> SetPreview(list, peer, message)[j] == list[j]
  {
    match Find(list, peer)
    case Some(i) => FindFirst(SetPreview(list, peer, message), peer, i);
    case None =>
  }

  lemma SetPreviewKeepsOthers(list: seq<Summary>, peer: string, message: string)
    ensures Without(SetPreview(list, peer, message), peer) == Without(list, peer)
  {
    match Find(list, peer)
    case Some(i) => WithoutUpdate(list, i, SetPreview(list, peer, message)[i], peer);
    case None =>
  }

  /** Two lists that agree on the entries of all peers but `peer` show every other peer the same way. */
  lemma OthersDetermineEntries(a: seq<Summary>, b: seq<Summary>, peer: string, other: string)
    requires Without(a, peer) == Without(b, peer) && other != peer
    ensures EntryOf(a, other) == EntryOf(b, other)
  {
    EntryOfWithout(a, peer, other);
    EntryOfWithout(b, peer, other);
  }

  /** `update_user_list` for one peer shows every other peer as before. */
  lemma TouchKeepsEntries(list: seq<Summary>, peer: string, message: string, time: string, other: string)
    requires other != peer
    ensures EntryOf(Touch(list, peer, message, time), other) == EntryOf(list, other)
  {
    TouchKeepsOthers(list, peer, message, time);
    OthersDetermineEntries(Touch(list, peer, message, time), list, peer, other);
  }

  /** Counting a message from one peer shows every other peer as before. */
  lemma IncrementKeepsEntries(list: seq<Summary>, peer: string, other: string)
    requires other != peer
    ensures EntryOf(Increment(list, peer), other) == EntryOf(list, other)
  {
    IncrementKeepsOthers(list, peer);
    OthersDetermineEntries(Increment(list, peer), list, peer, other);
  }
}
