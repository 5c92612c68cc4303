/** The four tables of the relational store (Users, Items, Messages,
    Reports) as immutable records held in sequences, with the
    auto-increment counters that hand out primary keys, and the primary-key
    operations (find, replace, destroy) the controllers perform. */
module Store {
  import opened Common
  import Ordering

  /** `ENUM('available', 'sold')`, default 'available'. */
  datatype ItemStatus = Available | Sold

  function StatusName(s: ItemStatus): string {
    match s
    case Available => "available"
    case Sold => "sold"
  }

  /** The ENUM's accepted spellings; anything else is refused by the database. */
  function ParseStatus(s: string): (r: Option<ItemStatus>)
    ensures r.Some? ==> StatusName(r.value) == s
    ensures r.None? ==> s != "available" && s != "sold"
  {
    if s == "available" then Some(Available)
    else if s == "sold" then Some(Sold)
    else None
  }

  lemma StatusNameRoundTrip(s: ItemStatus)
    ensures ParseStatus(StatusName(s)) == Some(s)
  {
  }

  /** The role a user row gets when none is given. */
  const DefaultRole: string := "user"

  datatype User = User(
    id: Id,
    firstName: string,
    lastName: string,
    email: string,
    password: string,       // stored hash
    phoneNumber: Option<string>,
    profilePhoto: Option<string>,
    role: string,
    createdAt: int)

  datatype Item = Item(
    id: Id,
    title: string,
    description: string,
    price: string,          // DECIMAL(10,2), kept as its text
    category: string,
    condition: string,
    photo: Option<string>,
    status: ItemStatus,
    approved: bool,
    userId: Id,
    createdAt: int)

  datatype Message = Message(
    id: Id,
    senderId: Id,
    receiverId: Id,
    content: string,
    read: bool,
    createdAt: int)

  /** Both targets are nullable columns. */
  datatype Report = Report(
    id: Id,
    reporterId: Id,
    targetUserId: Option<Id>,
    itemId: Option<Id>,
    reason: string,
    createdAt: int)

  /** A user row as sent to clients: every column except the password. */
  datatype PublicUser = PublicUser(
    id: Id,
    firstName: string,
    lastName: string,
    email: string,
    phoneNumber: Option<string>,
    profilePhoto: Option<string>,
    role: string,
    createdAt: int)

  /** The `Sender`/`Receiver` association attributes of a message. */
  datatype UserSummary = UserSummary(id: Id, firstName: string, lastName: string, profilePhoto: Option<string>)

  function Public(u: User): (p: PublicUser)
    ensures p.id == u.id && p.email == u.email && p.role == u.role
    ensures p.firstName == u.firstName && p.lastName == u.lastName
    ensures p.phoneNumber == u.phoneNumber && p.profilePhoto == u.profilePhoto
    ensures p.createdAt == u.createdAt
  {
    PublicUser(u.id, u.firstName, u.lastName, u.email, u.phoneNumber, u.profilePhoto, u.role, u.createdAt)
  }

  function Summary(u: User): UserSummary {
    UserSummary(u.id, u.firstName, u.lastName, u.profilePhoto)
  }

  datatype Store = Store(
    users: seq<User>,
    items: seq<Item>,
    messages: seq<Message>,
    reports: seq<Report>,
    nextUserId: Id,
    nextItemId: Id,
    nextMessageId: Id,
    nextReportId: Id)

  function UserKey(u: User): Id { u.id }
  function ItemKey(i: Item): Id { i.id }
  function MessageKey(m: Message): Id { m.id }
  function ReportKey(r: Report): Id { r.id }
  function CreatedAtOf(i: Item): int { i.createdAt }
  function MessageTime(m: Message): int { m.createdAt }
  function ReportTime(r: Report): int { r.createdAt }

  /** No two rows of a table share a primary key, and every key is below the
      table's auto-increment counter. */
  predicate KeysBelow<T>(xs: seq<T>, key: T -> Id, next: Id) {
    && (forall i, j :: 0 <= i < j < |xs| ==> key(xs[i]) != key(xs[j]))
    && (forall i :: 0 <= i < |xs| ==> key(xs[i]) < next)
  }

  /** The integrity constraints of the schema: unique keys per table and a
      unique email per user. */
  predicate Valid(st: Store) {
    && KeysBelow(st.users, UserKey, st.nextUserId)
    && KeysBelow(st.items, ItemKey, st.nextItemId)
    && KeysBelow(st.messages, MessageKey, st.nextMessageId)
    && KeysBelow(st.reports, ReportKey, st.nextReportId)
    && (forall i, j :: 0 <= i < j < |st.users| ==> st.users[i].email != st.users[j].email)
  }

  /** `findByPk`: the position of the row with the given key. */
  function IndexOf<T>(xs: seq<T>, id: Id, key: T -> Id): (r: Option<nat>)
    ensures r.Some? ==> r.value < |xs| && key(xs[r.value]) == id
    ensures r.None? <==> forall k :: 0 <= k < |xs| ==> key(xs[k]) != id
    decreases |xs|
  {
    if |xs| == 0 then None
    else if key(xs[0]) == id then Some(0)
    else match IndexOf(xs[1..], id, key)
      case None => None
      case Some(k) => Some(k + 1)
  }

  /** `findByPk`: the row with the given key, or `null`. */
  function Find<T>(xs: seq<T>, id: Id, key: T -> Id): (r: Option<T>)
    ensures r.Some? ==> r.value in xs && key(r.value) == id
    ensures r.None? <==> forall k :: 0 <= k < |xs| ==> key(xs[k]) != id
  {
    match IndexOf(xs, id, key)
    case None => None
    case Some(k) => Some(xs[k])
  }

  /** `destroy({ where: { id } })`: every row with that key disappears, the
      others stay in order. */
  function Destroy<T>(xs: seq<T>, id: Id, key: T -> Id): (r: seq<T>)
    ensures forall k :: 0 <= k < |r| ==> key(r[k]) != id && r[k] in xs
    ensures forall k :: 0 <= k < |xs| && key(xs[k]) != id ==> xs[k] in r
    ensures |r| <= |xs|
  {
    Ordering.Filter(xs, x => key(x) != id)
  }

  /** `update(row, { where: { id } })`: every row with that key becomes `r`,
      the others are untouched. */
  function Replace<T>(xs: seq<T>, id: Id, r: T, key: T -> Id): (ys: seq<T>)
    ensures |ys| == |xs|
    ensures forall k :: 0 <= k < |xs| ==> ys[k] == (if key(xs[k]) == id then r else xs[k])
  {
    seq(|xs|, k requires 0 <= k < |xs| => if key(xs[k]) == id then r else xs[k])
  }

  /** Removing rows keeps keys unique and below the counter. */
  lemma {:induction false} DestroyKeepsKeys<T>(xs: seq<T>, id: Id, key: T -> Id, next: Id)
    requires KeysBelow(xs, key, next)
    ensures KeysBelow(Destroy(xs, id, key), key, next)
    decreases |xs|
  {
    if |xs| > 0 {
      var tail := xs[1..];
      assert KeysBelow(tail, key, next) by {
        forall i, j | 0 <= i < j < |tail| ensures key(tail[i]) != key(tail[j]) {
          assert tail[i] == xs[i + 1] && tail[j] == xs[j + 1];
        }
      }
      DestroyKeepsKeys(tail, id, key, next);
      var rest := Destroy(tail, id, key);
      if key(xs[0]) != id {
        assert Destroy(xs, id, key) == [xs[0]] + rest;
        assert forall k :: 0 <= k < |tail| ==> key(tail[k]) != key(xs[0]) by {
          forall k | 0 <= k < |tail| ensures key(tail[k]) != key(xs[0]) {
            assert tail[k] == xs[k + 1];
          }
        }
        forall k | 0 <= k < |rest| ensures key(rest[k]) != key(xs[0]) {
          assert rest[k] in tail;
        }
        ConsKeepsKeys(xs[0], rest, key, next);
      } else {
        assert Destroy(xs, id, key) == rest;
      }
    }
  }

  lemma ConsKeepsKeys<T>(h: T, rest: seq<T>, key: T -> Id, next: Id)
    requires KeysBelow(rest, key, next)
    requires key(h) < next
    requires forall k :: 0 <= k < |rest| ==> key(rest[k]) != key(h)
    ensures KeysBelow([h] + rest, key, next)
  {
    var r := [h] + rest;
    forall i, j | 0 <= i < j < |r| ensures key(r[i]) != key(r[j]) {
      assert r[j] == rest[j - 1];
      if i > 0 {
        assert r[i] == rest[i - 1];
      }
    }
  }

  /** Appending a row under the counter's key and bumping the counter keeps
      keys unique. */
  lemma AppendKeepsKeys<T>(xs: seq<T>, x: T, key: T -> Id, next: Id)
    requires key(x) == next
    ensures KeysBelow(xs, key, next) ==> KeysBelow(xs + [x], key, next + 1)
  {
  }

  /** Overwriting a row with one of the same key keeps keys unique. */
  lemma ReplaceKeepsKeys<T>(xs: seq<T>, k: nat, x: T, key: T -> Id, next: Id)
    requires KeysBelow(xs, key, next)
    requires k < |xs| && key(x) == key(xs[k])
    ensures KeysBelow(xs[k := x], key, next)
  {
  }

  /** Rewriting rows in place without touching their keys keeps keys unique. */
  lemma SameKeysKeepKeys<T>(xs: seq<T>, ys: seq<T>, key: T -> Id, next: Id)
    requires |ys| == |xs|
    requires forall k :: 0 <= k < |xs| ==> key(ys[k]) == key(xs[k])
    ensures KeysBelow(xs, key, next) ==> KeysBelow(ys, key, next)
  {
  }

  /** Rewriting rows without touching their keys does not move the row a
      key lookup finds. */
  lemma {:induction false} IndexOfSameKeys<T>(xs: seq<T>, ys: seq<T>, id: Id, key: T -> Id)
    requires |ys| == |xs|
    requires forall k :: 0 <= k < |xs| ==> key(ys[k]) == key(xs[k])
    ensures IndexOf(ys, id, key) == IndexOf(xs, id, key)
    decreases |xs|
  {
    if |xs| > 0 && key(xs[0]) != id {
      IndexOfSameKeys(xs[1..], ys[1..], id, key);
    }
  }

  /** With unique keys the row found is the only row carrying that key. */
  lemma UniqueKeyIndex<T>(xs: seq<T>, k: nat, key: T -> Id, next: Id)
    requires KeysBelow(xs, key, next)
    requires k < |xs|
    ensures forall j :: 0 <= j < |xs| && j != k ==> key(xs[j]) != key(xs[k])
  {
  }

  function FindUser(st: Store, id: Id): Option<User> { Find(st.users, id, UserKey) }
  function FindItem(st: Store, id: Id): Option<Item> { Find(st.items, id, ItemKey) }
  function FindMessage(st: Store, id: Id): Option<Message> { Find(st.messages, id, MessageKey) }
  function FindReport(st: Store, id: Id): Option<Report> { Find(st.reports, id, ReportKey) }

  /** `User.findOne({ where: { email } })`: the first row with that email. */
  function FindByEmail(users: seq<User>, email: string): (r: Option<User>)
    ensures r.Some? ==> r.value in users && r.value.email == email
    ensures r.None? <==> forall k :: 0 <= k < |users| ==> users[k].email != email
    decreases |users|
  {
    if |users| == 0 then None
    else if users[0].email == email then Some(users[0])
    else FindByEmail(users[1..], email)
  }

  /** The reply of a handler together with the store it leaves behind. */
  datatype Outcome<+T> = Outcome(reply: Reply<T>, after: Store)
}
