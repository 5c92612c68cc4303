/** The item listing handlers of backend/controllers/itemController.js:
    creation, the approval-gated listing, lookup, the owner-or-admin update
    with its `x || old` field merge, deletion, and the per-user, recent and
    featured queries. */
module Items {
  import opened Common
  import opened Store
  import Ordering

  /** Text fields of the POST body (multipart form fields, absent when not sent). */
  datatype NewItemBody = NewItemBody(
    title: Option<string>,
    description: Option<string>,
    price: Option<string>,
    category: Option<string>,
    condition: Option<string>)

  /** All five columns are NOT NULL; a missing one makes `Item.create` throw. */
  predicate Complete(b: NewItemBody) {
    b.title.Some? && b.description.Some? && b.price.Some? && b.category.Some? && b.condition.Some?
  }

  /** `createItem`: the new row belongs to the requester, carries the
      uploaded file's path (or none), and starts unapproved and available. */
  function CreateItem(req: Requester, body: NewItemBody, upload: Option<string>, now: int, st: Store): (o: Outcome<Item>)
    ensures !Complete(body) <==> o.reply.ServerError?
    ensures o.reply.ServerError? ==> o.after == st
    ensures o.reply.Ok? || o.reply.ServerError?
    ensures o.reply.Ok? ==>
      var it := o.reply.value;
      && it.userId == req.id
      && it.photo == upload
      && !it.approved
      && it.status == Available
      && it.title == body.title.value && it.description == body.description.value
      && it.price == body.price.value && it.category == body.category.value
      && it.condition == body.condition.value
      && it.id == st.nextItemId
      && o.after.items == st.items + [it]
      && o.after.users == st.users && o.after.messages == st.messages && o.after.reports == st.reports
    ensures Valid(st) ==> Valid(o.after)
    ensures Valid(st) && o.reply.Ok? ==> FindItem(st, o.reply.value.id).None?
  {
    if !Complete(body) then Outcome(ServerError("Server error"), st)
    else
      var it := Item(st.nextItemId, body.title.value, body.description.value, body.price.value,
                     body.category.value, body.condition.value, upload, Available, false, req.id, now);
      AppendKeepsKeys(st.items, it, ItemKey, st.nextItemId);
      Outcome(Ok(it), st.(items := st.items + [it], nextItemId := st.nextItemId + 1))
  }

  /** Query string of GET /api/items. */
  datatype ItemQuery = ItemQuery(category: Option<string>, status: Option<string>, approved: Option<string>)

  /** The WHERE clause `getItems` builds. */
  predicate Selected(req: Requester, q: ItemQuery, it: Item) {
    && (Truthy(q.category) ==> it.category == q.category.value)
    && (Truthy(q.status) ==> StatusName(it.status) == q.status.value)
    && (if req.IsAdmin() then (q.approved.Some? ==> it.approved == (q.approved.value == "true"))
        else it.approved)
  }

  function Where(req: Requester, q: ItemQuery): Item -> bool {
    it => Selected(req, q, it)
  }

  /** The listing holds exactly the rows the WHERE clause selects. */
  lemma SelectedMembers(req: Requester, q: ItemQuery, xs: seq<Item>)
    ensures forall it :: it in Newest(Ordering.Filter(xs, Where(req, q))) <==> it in xs && Selected(req, q, it)
  {
    var kept := Ordering.Filter(xs, Where(req, q));
    var r := Newest(kept);
    Ordering.FilterMembers(xs, Where(req, q));
    Ordering.SameMembers(r, kept);
  }

  /** Items newest first. */
  function Newest(xs: seq<Item>): (r: seq<Item>)
    ensures Ordering.NonIncreasing(r, CreatedAtOf)
    ensures multiset(r) == multiset(xs)
  {
    Ordering.SortDesc(xs, CreatedAtOf)
  }

  /** `getItems`: a non-administrator sees approved items only, whatever the
      query asks and whoever owns them; an administrator's `approved` filter
      applies only when given and compares against the exact text "true". */
  function GetItems(req: Requester, q: ItemQuery, st: Store): (o: Outcome<seq<Item>>)
    ensures o.after == st && o.reply.Ok?
    ensures !req.IsAdmin() ==> forall it :: it in o.reply.value ==> it.approved
    ensures req.IsAdmin() && q.approved.Some? ==>
      forall it :: it in o.reply.value ==> (it.approved <==> q.approved.value == "true")
    ensures Truthy(q.category) ==> forall it :: it in o.reply.value ==> it.category == q.category.value
    ensures Truthy(q.status) ==> forall it :: it in o.reply.value ==> StatusName(it.status) == q.status.value
    ensures forall it :: it in o.reply.value <==> it in st.items && Selected(req, q, it)
    ensures Ordering.NonIncreasing(o.reply.value, CreatedAtOf)
    ensures multiset(o.reply.value) <= multiset(st.items)
  {
    var r := Newest(Ordering.Filter(st.items, Where(req, q)));
    SelectedMembers(req, q, st.items);
    Outcome(Ok(r), st)
  }

  /** An administrator who passes no filter gets every item. */
  lemma AdminUnfilteredGetsAll(req: Requester, st: Store)
    requires req.IsAdmin()
    ensures multiset(GetItems(req, ItemQuery(None, None, None), st).reply.value) == multiset(st.items)
  {
    var q := ItemQuery(None, None, None);
    Ordering.FilterAll(st.items, it => Selected(req, q, it));
  }

  /** `getItemById`: missing rows are 404; unapproved rows are 403 for anyone
      but their owner and administrators. */
  function GetItemById(req: Requester, id: Id, st: Store): (o: Outcome<Item>)
    ensures o.after == st
    ensures o.reply.NotFound? <==> FindItem(st, id).None?
    ensures o.reply.Forbidden? <==>
      FindItem(st, id).Some? && !FindItem(st, id).value.approved
      && !OwnerOrAdmin(req, FindItem(st, id).value.userId)
    ensures o.reply.Ok? || o.reply.NotFound? || o.reply.Forbidden?
    ensures o.reply.Ok? ==>
      && o.reply.value in st.items && o.reply.value.id == id
      && (o.reply.value.approved || OwnerOrAdmin(req, o.reply.value.userId))
  {
    match FindItem(st, id)
    case None => Outcome(NotFound("Item not found"), st)
    case Some(it) =>
      if !it.approved && !req.IsAdmin() && it.userId != req.id then Outcome(Forbidden("Access denied"), st)
      else Outcome(Ok(it), st)
  }

  /** A JSON/form body value as JavaScript sees it. */
  datatype BodyValue = Undefined | Null | Text(s: string) | Boolean(b: bool)

  /** Body of PUT /api/items/:id. */
  datatype ItemUpdate = ItemUpdate(
    title: Option<string>,
    description: Option<string>,
    price: Option<string>,
    category: Option<string>,
    condition: Option<string>,
    status: Option<string>,
    approved: BodyValue)

  /** A supplied status the ENUM column refuses (the update throws). */
  predicate BadStatus(u: ItemUpdate) {
    Truthy(u.status) && ParseStatus(u.status.value).None?
  }

  /** The field merge of `updateItem`: each text field is replaced only by a
      truthy value; `approved` moves only for administrators who send it. */
  function Merge(req: Requester, prev: Item, u: ItemUpdate, upload: Option<string>): (r: Item)
    requires !BadStatus(u)
    ensures r.id == prev.id && r.userId == prev.userId && r.createdAt == prev.createdAt
    ensures Truthy(u.title) ==> r.title == u.title.value
    ensures !Truthy(u.title) ==> r.title == prev.title
    ensures Truthy(u.description) ==> r.description == u.description.value
    ensures !Truthy(u.description) ==> r.description == prev.description
    ensures Truthy(u.price) ==> r.price == u.price.value
    ensures !Truthy(u.price) ==> r.price == prev.price
    ensures Truthy(u.category) ==> r.category == u.category.value
    ensures !Truthy(u.category) ==> r.category == prev.category
    ensures Truthy(u.condition) ==> r.condition == u.condition.value
    ensures !Truthy(u.condition) ==> r.condition == prev.condition
    ensures Truthy(u.status) ==> StatusName(r.status) == u.status.value
    ensures !Truthy(u.status) ==> r.status == prev.status
    ensures !req.IsAdmin() || u.approved.Undefined? ==> r.approved == prev.approved
    ensures req.IsAdmin() && !u.approved.Undefined? ==> (r.approved <==> u.approved == Text("true"))
    ensures upload.Some? ==> r.photo == upload
    ensures upload.None? ==> r.photo == prev.photo
  {
    var status := if Truthy(u.status) then ParseStatus(u.status.value).value else prev.status;
    var approved := if req.IsAdmin() && !u.approved.Undefined? then u.approved == Text("true") else prev.approved;
    var photo := if upload.Some? then upload else prev.photo;
    prev.(title := Or(u.title, prev.title),
          description := Or(u.description, prev.description),
          price := Or(u.price, prev.price),
          category := Or(u.category, prev.category),
          condition := Or(u.condition, prev.condition),
          status := status,
          approved := approved,
          photo := photo)
  }

  /** `updateItem`: 404 for a missing row, 403 unless owner or administrator,
      and in both cases nothing is written. On success exactly the one row
      is replaced by its merge. */
  function UpdateItem(req: Requester, id: Id, u: ItemUpdate, upload: Option<string>, st: Store): (o: Outcome<Item>)
    ensures o.reply.NotFound? <==> FindItem(st, id).None?
    ensures o.reply.Forbidden? <==> FindItem(st, id).Some? && !OwnerOrAdmin(req, FindItem(st, id).value.userId)
    ensures o.reply.Ok? <==> FindItem(st, id).Some? && OwnerOrAdmin(req, FindItem(st, id).value.userId) && !BadStatus(u)
    ensures !o.reply.Ok? ==> o.after == st
    ensures o.reply.Ok? ==>
      var prev := FindItem(st, id).value;
      && o.reply.value == Merge(req, prev, u, upload)
      && |o.after.items| == |st.items|
      && (forall k :: 0 <= k < |st.items| ==>
            o.after.items[k] == (if st.items[k].id == id then o.reply.value else st.items[k]))
      && o.after.users == st.users && o.after.messages == st.messages && o.after.reports == st.reports
    ensures Valid(st) ==> Valid(o.after)
  {
    match IndexOf(st.items, id, ItemKey)
    case None => Outcome(NotFound("Item not found"), st)
    case Some(k) =>
      var prev := st.items[k];
      if prev.userId != req.id && !req.IsAdmin() then Outcome(Forbidden("Not authorized to update this item"), st)
      else if BadStatus(u) then Outcome(ServerError("Server error"), st)
      else
        var r := Merge(req, prev, u, upload);
        var after := st.(items := Replace(st.items, id, r, ItemKey));
        if Valid(st) then
          ReplaceKeepsKeys(st.items, k, r, ItemKey, st.nextItemId);
          assert after.items == st.items[k := r];
          Outcome(Ok(r), after)
        else Outcome(Ok(r), after)
  }

  /** `deleteItem`: same guards as the update; on success exactly the rows
      with that key disappear. */
  function DeleteItem(req: Requester, id: Id, st: Store): (o: Outcome<string>)
    ensures o.reply.NotFound? <==> FindItem(st, id).None?
    ensures o.reply.Forbidden? <==> FindItem(st, id).Some? && !OwnerOrAdmin(req, FindItem(st, id).value.userId)
    ensures o.reply.Ok? || o.reply.NotFound? || o.reply.Forbidden?
    ensures !o.reply.Ok? ==> o.after == st
    ensures o.reply.Ok? ==>
      && FindItem(o.after, id).None?
      && (forall it :: it in o.after.items <==> it in st.items && it.id != id)
      && o.after.users == st.users && o.after.messages == st.messages && o.after.reports == st.reports
    ensures Valid(st) ==> Valid(o.after)
  {
    match FindItem(st, id)
    case None => Outcome(NotFound("Item not found"), st)
    case Some(it) =>
      if it.userId != req.id && !req.IsAdmin() then Outcome(Forbidden("Not authorized to delete this item"), st)
      else
        var after := st.(items := Destroy(st.items, id, ItemKey));
        if Valid(st) then
          DestroyKeepsKeys(st.items, id, ItemKey, st.nextItemId);
          Outcome(Ok("Item removed"), after)
        else Outcome(Ok("Item removed"), after)
  }

  /** `getUserItems`: every item of that owner, newest first. No approval
      filter is applied here. */
  function GetUserItems(userId: Id, st: Store): (o: Outcome<seq<Item>>)
    ensures o.after == st && o.reply.Ok?
    ensures forall it :: it in o.reply.value <==> it in st.items && it.userId == userId
    ensures Ordering.NonIncreasing(o.reply.value, CreatedAtOf)
    ensures multiset(o.reply.value) <= multiset(st.items)
    ensures forall it: Item :: it.userId == userId ==> multiset(o.reply.value)[it] == multiset(st.items)[it]
  {
    var kept := Ordering.Filter(st.items, (it: Item) => it.userId == userId);
    var r := Newest(kept);
    Ordering.FilterCounts(st.items, (it: Item) => it.userId == userId);
    Ordering.FilterMembers(st.items, (it: Item) => it.userId == userId);
    Ordering.SameMembers(r, kept);
    Outcome(Ok(r), st)
  }

  predicate OnSale(it: Item) { it.approved && it.status == Available }

  /** What `findAll({ where: on sale, order: created_at DESC, limit: n })`
      may return: min(n, count) distinct stored on-sale rows (no row twice), newest first, holding
      every on-sale item when there are no more than n, and leaving out no
      on-sale item newer than one it returns. */
  predicate NewestOnSaleSelection(st: Store, n: nat, r: seq<Item>) {
    var onSale := Ordering.Filter(st.items, OnSale);
    && |r| == (if |onSale| <= n then |onSale| else n)
    && multiset(r) <= multiset(onSale)
    && (forall it :: it in r ==> it in st.items && OnSale(it))
    && Ordering.NonIncreasing(r, CreatedAtOf)
    && (|onSale| <= n ==> forall it :: it in st.items && OnSale(it) ==> it in r)
    && (forall it, x :: it in st.items && OnSale(it) && it !in r && x in r ==> it.createdAt <= x.createdAt)
  }

  /** The first n approved, available items, newest first. */
  function NewestOnSale(st: Store, n: nat): (r: seq<Item>)
    ensures NewestOnSaleSelection(st, n, r)
  {
    var kept := Ordering.Filter(st.items, OnSale);
    var all := Newest(kept);
    Ordering.FilterMembers(st.items, OnSale);
    Ordering.SameMembers(all, kept);
    assert |all| == |kept| by {
      assert |multiset(all)| == |multiset(kept)|;
    }
    var r := Ordering.Limit(all, n);
    assert forall it :: it in r ==> it in all;
    assert Ordering.NonIncreasing(r, CreatedAtOf);
    Ordering.LimitKeepsLargest(all, n, CreatedAtOf);
    r
  }

  /** The page size `getRecentItems` uses when the query gives none usable. */
  const DefaultRecentLimit: nat := 4

  /** `getRecentItems`: `limit` is `parseInt(req.query.limit)`, None standing
      for NaN. NaN and 0 fall back to 4; a negative LIMIT is refused by the
      database. */
  function GetRecentItems(limit: Option<int>, st: Store): (o: Outcome<seq<Item>>)
    ensures o.after == st
    ensures o.reply.ServerError? <==> limit.Some? && limit.value < 0
    ensures o.reply.Ok? || o.reply.ServerError?
    ensures o.reply.Ok? ==>
      var n := if limit.None? || limit.value == 0 then DefaultRecentLimit else limit.value;
      n >= 0 && NewestOnSaleSelection(st, n, o.reply.value)
  {
    var n := if limit.None? || limit.value == 0 then DefaultRecentLimit as int else limit.value;
    if n < 0 then Outcome(ServerError("Server error"), st)
    else Outcome(Ok(NewestOnSale(st, n)), st)
  }

  /** How many items the (effective, second) `getFeaturedItems` returns. */
  const FeaturedLimit: nat := 10

  /** `getFeaturedItems`: at most ten approved, available items, newest first. */
  function GetFeaturedItems(st: Store): (o: Outcome<seq<Item>>)
    ensures o.after == st && o.reply.Ok?
    ensures NewestOnSaleSelection(st, FeaturedLimit, o.reply.value)
  {
    Outcome(Ok(NewestOnSale(st, FeaturedLimit)), st)
  }

  /** The approval gate has no owner exception: an owner who is not an
      administrator never finds their own pending item in `getItems`, while
      `getItemById` and `getUserItems` do hand it to them. */
  lemma OwnPendingItemOnlyOutsideListing(req: Requester, q: ItemQuery, st: Store, it: Item)
    requires !req.IsAdmin()
    requires it in st.items && it.userId == req.id && !it.approved
    requires Valid(st)
    ensures it !in GetItems(req, q, st).reply.value
    ensures GetItemById(req, it.id, st).reply == Ok(it)
    ensures it in GetUserItems(req.id, st).reply.value
  {
    var k :| 0 <= k < |st.items| && st.items[k] == it;
    UniqueKeyIndex(st.items, k, ItemKey, st.nextItemId);
  }

  /** Approving through a JSON boolean unapproves: only the text "true" counts. */
  lemma JsonTrueUnapproves(req: Requester, prev: Item, u: ItemUpdate)
    requires req.IsAdmin() && u.approved == Boolean(true) && !BadStatus(u)
    ensures !Merge(req, prev, u, None).approved
  {
  }

  /** The scenario of an item created by one user, hidden from another until an
      administrator approves it with the text "true". */
  lemma ApprovalScenario(owner: Requester, other: Requester, admin: Requester, body: NewItemBody, now: int, st: Store)
    requires Valid(st) && Complete(body)
    requires owner.id != other.id && !other.IsAdmin() && admin.IsAdmin()
    ensures
      var created := CreateItem(owner, body, None, now, st);
      var id := created.reply.value.id;
      var st1 := created.after;
      var approve := ItemUpdate(None, None, None, None, None, None, Text("true"));
      var st2 := UpdateItem(admin, id, approve, None, st1).after;
      && GetItemById(other, id, st1).reply.Forbidden?
      && GetItemById(other, id, st2).reply.Ok?
      && GetItemById(other, id, st2).reply.value.approved
  {
    var created := CreateItem(owner, body, None, now, st);
    var it := created.reply.value;
    var st1 := created.after;
    assert st1.items[|st.items|] == it;
    assert FindItem(st1, it.id).Some?;
    var k := |st.items|;
    UniqueKeyIndex(st1.items, k, ItemKey, st1.nextItemId);
    assert FindItem(st1, it.id).value == it;
  }
}
