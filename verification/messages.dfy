/** The direct-messaging handlers of backend/controllers/messageController.js:
    sending, reading a thread (which marks it read), the per-counterpart
    conversation summary, marking one message read, and deletion. */
module Messages {
  import opened Common
  import opened Store
  import Ordering

  /** `sendMessage`: 404 (and nothing stored) unless the receiver exists;
      otherwise one unread message from the requester is appended. An absent
      `receiver_id` looks up nothing and is a 404 as well. */
  function SendMessage(req: Requester, receiverId: Option<Id>, content: string, now: int, st: Store): (o: Outcome<Message>)
    ensures o.reply.NotFound? <==> receiverId.None? || FindUser(st, receiverId.value).None?
    ensures o.reply.Ok? || o.reply.NotFound?
    ensures o.reply.NotFound? ==> o.after == st
    ensures o.reply.Ok? ==>
      var m := o.reply.value;
      && m.senderId == req.id && m.receiverId == receiverId.value && m.content == content
      && !m.read && m.createdAt == now && m.id == st.nextMessageId
      && o.after.messages == st.messages + [m]
      && o.after.users == st.users && o.after.items == st.items && o.after.reports == st.reports
    ensures Valid(st) ==> Valid(o.after)
  {
    if receiverId.None? || FindUser(st, receiverId.value).None? then Outcome(NotFound("Receiver not found"), st)
    else
      var m := Message(st.nextMessageId, req.id, receiverId.value, content, false, now);
      AppendKeepsKeys(st.messages, m, MessageKey, st.nextMessageId);
      Outcome(Ok(m), st.(messages := st.messages + [m], nextMessageId := st.nextMessageId + 1))
  }

  /** The message travels between a and b, in either direction. */
  predicate Between(m: Message, a: Id, b: Id) {
    (m.senderId == a && m.receiverId == b) || (m.senderId == b && m.receiverId == a)
  }

  /** A message from `from` to `to` that has not been read. */
  predicate UnreadFrom(m: Message, from: Id, to: Id) {
    m.senderId == from && m.receiverId == to && !m.read
  }

  /** The UPDATE of `getConversation`: every message from `other` to `me`
      becomes read; nothing else changes. */
  function MarkThreadRead(msgs: seq<Message>, me: Id, other: Id): (r: seq<Message>)
    ensures |r| == |msgs|
    ensures forall k :: 0 <= k < |msgs| ==>
      r[k] == (if msgs[k].senderId == other && msgs[k].receiverId == me then msgs[k].(read := true) else msgs[k])
  {
    seq(|msgs|, k requires 0 <= k < |msgs| =>
      if msgs[k].senderId == other && msgs[k].receiverId == me then msgs[k].(read := true) else msgs[k])
  }

  function Thread(msgs: seq<Message>, me: Id, other: Id): (r: seq<Message>)
    ensures forall m :: m in r <==> m in msgs && Between(m, me, other)
    ensures Ordering.NonDecreasing(r, MessageTime)
    ensures multiset(r) <= multiset(msgs)
    ensures forall m: Message :: Between(m, me, other) ==> multiset(r)[m] == multiset(msgs)[m]
  {
    var kept := Ordering.Filter(msgs, (m: Message) => Between(m, me, other));
    var r := Ordering.SortAsc(kept, MessageTime);
    Ordering.FilterCounts(msgs, (m: Message) => Between(m, me, other));
    Ordering.FilterMembers(msgs, (m: Message) => Between(m, me, other));
    Ordering.SameMembers(r, kept);
    r
  }

  /** `getConversation`: 404 unless the other user exists; otherwise every
      message between the two, oldest first, with the read flags as they were
      before this request marked the incoming ones read. */
  function GetConversation(req: Requester, other: Id, st: Store): (o: Outcome<seq<Message>>)
    ensures o.reply.NotFound? <==> FindUser(st, other).None?
    ensures o.reply.Ok? || o.reply.NotFound?
    ensures o.reply.NotFound? ==> o.after == st
    ensures o.reply.Ok? ==>
      && (forall m :: m in o.reply.value <==> m in st.messages && Between(m, req.id, other))
      && Ordering.NonDecreasing(o.reply.value, MessageTime)
      && multiset(o.reply.value) <= multiset(st.messages)
      && (forall m: Message :: Between(m, req.id, other) ==> multiset(o.reply.value)[m] == multiset(st.messages)[m])
      && |o.after.messages| == |st.messages|
      && (forall k :: 0 <= k < |st.messages| ==>
            && (st.messages[k].senderId == other && st.messages[k].receiverId == req.id ==>
                  o.after.messages[k] == st.messages[k].(read := true))
            && (!(st.messages[k].senderId == other && st.messages[k].receiverId == req.id) ==>
                  o.after.messages[k] == st.messages[k]))
      && o.after.users == st.users && o.after.items == st.items && o.after.reports == st.reports
    ensures Valid(st) ==> Valid(o.after)
  {
    if FindUser(st, other).None? then Outcome(NotFound("User not found"), st)
    else
      var after := st.(messages := MarkThreadRead(st.messages, req.id, other));
      SameKeysKeepKeys(st.messages, after.messages, MessageKey, st.nextMessageId);
      Outcome(Ok(Thread(st.messages, req.id, other)), after)
  }

  /** `unreadCount` of a conversation entry. */
  function UnreadCount(msgs: seq<Message>, me: Id, other: Id): nat {
    Ordering.Count(msgs, (m: Message) => UnreadFrom(m, other, me))
  }

  /** Opening a thread clears its unread count. */
  lemma {:induction false} MarkThreadReadClearsUnread(msgs: seq<Message>, me: Id, other: Id)
    ensures UnreadCount(MarkThreadRead(msgs, me, other), me, other) == 0
  {
    var r := MarkThreadRead(msgs, me, other);
    assert forall k :: 0 <= k < |r| ==> !UnreadFrom(r[k], other, me);
  }

  lemma UnreadClearedAfterGetConversation(req: Requester, other: Id, st: Store)
    requires FindUser(st, other).Some?
    ensures UnreadCount(GetConversation(req, other, st).after.messages, req.id, other) == 0
  {
    MarkThreadReadClearsUnread(st.messages, req.id, other);
  }

  /** `receiver_id` of every message the requester sent, in storage order. */
  function SentTo(msgs: seq<Message>, me: Id): (r: seq<Id>)
    ensures forall u :: u in r <==> exists m :: m in msgs && m.senderId == me && m.receiverId == u
    decreases |msgs|
  {
    if |msgs| == 0 then []
    else
      assert forall m :: m in msgs <==> m == msgs[0] || m in msgs[1..];
      (if msgs[0].senderId == me then [msgs[0].receiverId] else []) + SentTo(msgs[1..], me)
  }

  /** `sender_id` of every message the requester received, in storage order. */
  function ReceivedFrom(msgs: seq<Message>, me: Id): (r: seq<Id>)
    ensures forall u :: u in r <==> exists m :: m in msgs && m.receiverId == me && m.senderId == u
    decreases |msgs|
  {
    if |msgs| == 0 then []
    else
      assert forall m :: m in msgs <==> m == msgs[0] || m in msgs[1..];
      (if msgs[0].receiverId == me then [msgs[0].senderId] else []) + ReceivedFrom(msgs[1..], me)
  }

  predicate NoDuplicates(xs: seq<Id>) {
    forall i, j :: 0 <= i < j < |xs| ==> xs[i] != xs[j]
  }

  /** Adding to a JavaScript `Set` in order: first occurrences, in order. */
  function Distinct(xs: seq<Id>): (r: seq<Id>)
    ensures forall u :: u in r <==> u in xs
    ensures NoDuplicates(r)
    decreases |xs|
  {
    if |xs| == 0 then []
    else
      var init := xs[..|xs| - 1];
      var last := xs[|xs| - 1];
      assert xs == init + [last];
      var d := Distinct(init);
      if last in d then d else d + [last]
  }

  /** The user ids of `getConversations`: everyone the requester has sent a
      message to or received one from, each once. */
  function Partners(msgs: seq<Message>, me: Id): (r: seq<Id>)
    ensures NoDuplicates(r)
    ensures forall u :: u in r <==> exists m :: m in msgs && Between(m, me, u)
  {
    Distinct(SentTo(msgs, me) + ReceivedFrom(msgs, me))
  }

  /** `findOne` ordered by `created_at` DESC: a newest message between a and
      b, the earliest stored one among equal timestamps. */
  function Latest(msgs: seq<Message>, a: Id, b: Id): (r: Option<Message>)
    ensures r.None? <==> forall m :: m in msgs ==> !Between(m, a, b)
    ensures r.Some? ==> r.value in msgs && Between(r.value, a, b)
    ensures r.Some? ==> forall m :: m in msgs && Between(m, a, b) ==> m.createdAt <= r.value.createdAt
    decreases |msgs|
  {
    if |msgs| == 0 then None
    else
      assert forall m :: m in msgs <==> m == msgs[0] || m in msgs[1..];
      var rest := Latest(msgs[1..], a, b);
      if Between(msgs[0], a, b) && (rest.None? || msgs[0].createdAt >= rest.value.createdAt) then Some(msgs[0])
      else rest
  }

  /** One element of the `getConversations` reply. */
  datatype Conversation = Conversation(
    otherUser: Id,
    otherUserInfo: Option<UserSummary>,
    latestMessage: Message,
    unreadCount: nat)

  /** The `Sender`/`Receiver` association: the summary of a user row, or
      `null` when the row is gone. */
  function SummaryOf(st: Store, id: Id): (r: Option<UserSummary>)
    ensures r.Some? <==> FindUser(st, id).Some?
    ensures r.Some? ==> r.value.id == id
  {
    match FindUser(st, id)
    case None => None
    case Some(u) => Some(Summary(u))
  }

  function Entry(st: Store, me: Id, other: Id): (c: Conversation)
    requires Latest(st.messages, me, other).Some?
  {
    var latest := Latest(st.messages, me, other).value;
    Conversation(
      other,
      if latest.senderId == me then SummaryOf(st, latest.receiverId) else SummaryOf(st, latest.senderId),
      latest,
      UnreadCount(st.messages, me, other))
  }

  function OtherUsers(cs: seq<Conversation>): (r: seq<Id>)
    ensures |r| == |cs|
    ensures forall i :: 0 <= i < |cs| ==> r[i] == cs[i].otherUser
  {
    seq(|cs|, i requires 0 <= i < |cs| => cs[i].otherUser)
  }

  /** `getConversations`: exactly one entry per distinct counterpart, each
      carrying a newest message of that pair, the counterpart's summary and
      the number of unread messages the counterpart sent. */
  function GetConversations(req: Requester, st: Store): (o: Outcome<seq<Conversation>>)
    ensures o.after == st && o.reply.Ok?
    ensures NoDuplicates(OtherUsers(o.reply.value))
    ensures forall u :: u in OtherUsers(o.reply.value) <==> exists m :: m in st.messages && Between(m, req.id, u)
    ensures forall i :: 0 <= i < |o.reply.value| ==>
      var c := o.reply.value[i];
      && c.latestMessage in st.messages
      && Between(c.latestMessage, req.id, c.otherUser)
      && (forall m :: m in st.messages && Between(m, req.id, c.otherUser) ==> m.createdAt <= c.latestMessage.createdAt)
      && c.otherUserInfo == SummaryOf(st, if c.latestMessage.senderId == req.id then c.latestMessage.receiverId else c.latestMessage.senderId)
      && c.unreadCount == UnreadCount(st.messages, req.id, c.otherUser)
  {
    var ids := Partners(st.messages, req.id);
    PartnersHaveLatest(st.messages, req.id, ids);
    var entries := seq(|ids|, i requires 0 <= i < |ids| => Entry(st, req.id, ids[i]));
    assert OtherUsers(entries) == ids;
    Outcome(Ok(entries), st)
  }

  lemma PartnersHaveLatest(msgs: seq<Message>, me: Id, ids: seq<Id>)
    requires ids == Partners(msgs, me)
    ensures forall i :: 0 <= i < |ids| ==> Latest(msgs, me, ids[i]).Some?
  {
    forall i | 0 <= i < |ids| ensures Latest(msgs, me, ids[i]).Some? {
      assert ids[i] in ids;
    }
  }

  /** `Message.update({ read: true }, { where: { id } })`. */
  function MarkOneRead(msgs: seq<Message>, id: Id): (r: seq<Message>)
    ensures |r| == |msgs|
    ensures forall k :: 0 <= k < |msgs| ==> r[k] == (if msgs[k].id == id then msgs[k].(read := true) else msgs[k])
  {
    seq(|msgs|, k requires 0 <= k < |msgs| => if msgs[k].id == id then msgs[k].(read := true) else msgs[k])
  }

  /** `markAsRead`: 404 for a missing message, 403 unless the requester is its
      receiver (administrators included); on success that message, and no
      other, becomes read. */
  function MarkAsRead(req: Requester, messageId: Id, st: Store): (o: Outcome<string>)
    ensures o.reply.NotFound? <==> FindMessage(st, messageId).None?
    ensures o.reply.Forbidden? <==> FindMessage(st, messageId).Some? && FindMessage(st, messageId).value.receiverId != req.id
    ensures o.reply.Ok? || o.reply.NotFound? || o.reply.Forbidden?
    ensures !o.reply.Ok? ==> o.after == st
    ensures o.reply.Ok? ==>
      && |o.after.messages| == |st.messages|
      && (forall k :: 0 <= k < |st.messages| ==>
            && o.after.messages[k].id == st.messages[k].id
            && (st.messages[k].id == messageId ==> o.after.messages[k] == st.messages[k].(read := true))
            && (st.messages[k].id != messageId ==> o.after.messages[k] == st.messages[k]))
      && o.after.users == st.users && o.after.items == st.items && o.after.reports == st.reports
    ensures Valid(st) ==> Valid(o.after)
  {
    match FindMessage(st, messageId)
    case None => Outcome(NotFound("Message not found"), st)
    case Some(m) =>
      if m.receiverId != req.id then Outcome(Forbidden("Not authorized to update this message"), st)
      else
        var msgs := MarkOneRead(st.messages, messageId);
        SameKeysKeepKeys(st.messages, msgs, MessageKey, st.nextMessageId);
        Outcome(Ok("Message marked as read"), st.(messages := msgs))
  }

  /** Marking a message read twice is the same as marking it once. */
  lemma MarkAsReadIdempotent(req: Requester, messageId: Id, st: Store)
    requires MarkAsRead(req, messageId, st).reply.Ok?
    ensures MarkAsRead(req, messageId, MarkAsRead(req, messageId, st).after).after
      == MarkAsRead(req, messageId, st).after
  {
    var msgs := MarkOneRead(st.messages, messageId);
    IndexOfSameKeys(st.messages, msgs, messageId, MessageKey);
    var i := IndexOf(st.messages, messageId, MessageKey).value;
    assert msgs[i].receiverId == st.messages[i].receiverId;
    MarkOneReadTwice(st.messages, messageId);
  }

  lemma MarkOneReadTwice(msgs: seq<Message>, id: Id)
    ensures MarkOneRead(MarkOneRead(msgs, id), id) == MarkOneRead(msgs, id)
  {
  }

  /** `deleteMessage`: 404 for a missing message, 403 unless the requester sent
      it or is an administrator; on success exactly that message disappears. */
  function DeleteMessage(req: Requester, messageId: Id, st: Store): (o: Outcome<string>)
    ensures o.reply.NotFound? <==> FindMessage(st, messageId).None?
    ensures o.reply.Forbidden? <==> FindMessage(st, messageId).Some? && !OwnerOrAdmin(req, FindMessage(st, messageId).value.senderId)
    ensures o.reply.Ok? || o.reply.NotFound? || o.reply.Forbidden?
    ensures !o.reply.Ok? ==> o.after == st
    ensures o.reply.Ok? ==>
      && FindMessage(o.after, messageId).None?
      && (forall m :: m in o.after.messages <==> m in st.messages && m.id != messageId)
      && o.after.users == st.users && o.after.items == st.items && o.after.reports == st.reports
    ensures Valid(st) ==> Valid(o.after)
  {
    match FindMessage(st, messageId)
    case None => Outcome(NotFound("Message not found"), st)
    case Some(m) =>
      if m.senderId != req.id && !req.IsAdmin() then Outcome(Forbidden("Not authorized to delete this message"), st)
      else
        var after := st.(messages := Destroy(st.messages, messageId, MessageKey));
        if Valid(st) then
          DestroyKeepsKeys(st.messages, messageId, MessageKey, st.nextMessageId);
          Outcome(Ok("Message deleted"), after)
        else Outcome(Ok("Message deleted"), after)
  }

  /** A first message shows up as one conversation with one unread message
      for its receiver, and opening the thread clears the count. */
  lemma FirstMessageScenario(a: Requester, b: Requester, content: string, now: int, st: Store)
    requires Valid(st) && st.messages == []
    requires a.id != b.id && FindUser(st, a.id).Some? && FindUser(st, b.id).Some?
    ensures
      var st1 := SendMessage(a, Some(b.id), content, now, st).after;
      var before := GetConversations(b, st1).reply.value;
      var st2 := GetConversation(b, a.id, st1).after;
      var after := GetConversations(b, st2).reply.value;
      && |before| == 1 && before[0].otherUser == a.id && before[0].unreadCount == 1
      && |after| == 1 && after[0].otherUser == a.id && after[0].unreadCount == 0
  {
    var sent := SendMessage(a, Some(b.id), content, now, st);
    var st1 := sent.after;
    var m := sent.reply.value;
    assert st1.messages == [m];
    SingleMessageConversations(b, m, st1);
    OpeningMarksRead(b, a.id, m, st1);
    var st2 := GetConversation(b, a.id, st1).after;
    SingleMessageConversations(b, m.(read := true), st2);
  }

  /** Opening the thread of a single incoming message marks it read. */
  lemma OpeningMarksRead(me: Requester, other: Id, m: Message, st: Store)
    requires st.messages == [m] && m.senderId == other && m.receiverId == me.id
    requires FindUser(st, other).Some?
    ensures GetConversation(me, other, st).after.messages == [m.(read := true)]
  {
    assert MarkThreadRead(st.messages, me.id, other)[0] == m.(read := true);
  }

  /** With a single message in the database, sent to `me` by someone else,
      `me` has one conversation, with the sender, whose unread count is 1
      exactly when that message is unread. */
  lemma SingleMessageConversations(me: Requester, m: Message, st: Store)
    requires st.messages == [m] && m.receiverId == me.id && m.senderId != me.id
    ensures
      var cs := GetConversations(me, st).reply.value;
      && |cs| == 1 && cs[0].otherUser == m.senderId
      && cs[0].unreadCount == (if m.read then 0 else 1)
  {
    var cs := GetConversations(me, st).reply.value;
    forall v ensures v in OtherUsers(cs) <==> v == m.senderId {
      assert (exists x :: x in st.messages && Between(x, me.id, v)) <==> Between(m, me.id, v);
    }
    OnlyCounterpart(cs, m.senderId);
    assert st.messages[1..] == [];
  }

  lemma DistinctHeads(ids: seq<Id>)
    requires NoDuplicates(ids) && |ids| >= 2
    ensures ids[0] != ids[1]
  {
  }

  /** A conversation list without repeats whose only counterpart is `u`
      has exactly one entry. */
  lemma OnlyCounterpart(cs: seq<Conversation>, u: Id)
    requires NoDuplicates(OtherUsers(cs))
    requires forall v :: v in OtherUsers(cs) <==> v == u
    ensures |cs| == 1 && cs[0].otherUser == u
  {
    var ids := OtherUsers(cs);
    assert u in ids;
    forall i | 0 <= i < |ids| ensures ids[i] == u {
      assert ids[i] in ids;
    }
    if |ids| >= 2 {
      DistinctHeads(ids);
      assert false;
    }
  }
}
