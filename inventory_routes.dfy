/** api/routes/inventoryRoutes.js: stock-count sessions. A session snapshots every
    product's stock, records counted quantities one product at a time (draft, then
    in progress), and once completed may overwrite the stock of the counted products. */
module InventoryRoutes {
  import opened Common
  import opened Text
  import opened Tables
  import opened Schemas
  import opened Store

  /* ------------------------------------------------------ creating a session */

  /** The items `products.map(...)` builds for the products listed in `order`, in
      that order: each records the product's stock and nothing counted yet. */
  function SnapshotOf(order: seq<ProductId>, rows: map<ProductId, Product>): (items: seq<CountItem>)
    requires forall k :: k in order ==> k in rows
    ensures |items| == |order|
    ensures forall i :: 0 <= i < |order| ==>
              && items[i].product == order[i]
              && items[i].systemQuantity == rows[order[i]].stock
              && items[i].countedQuantity == 0 && !items[i].counted && items[i].countedAt.None?
    ensures ItemsConsistent(items)
  {
    if order == [] then []
    else
      var p := rows[order[0]];
      [NewCountItem(order[0], p.stock).(difference := -p.stock)] + SnapshotOf(order[1..], rows)
  }

  /** One item per product, in the collection's natural order; inactive products are
      included too. */
  function Snapshot(t: Table<Product>): (items: seq<CountItem>)
    requires t.Wf()
    ensures |items| == |t.order|
    ensures forall i :: 0 <= i < |items| ==> items[i].product == t.order[i]
  {
    SnapshotOf(t.order, t.rows)
  }

  /** `POST /api/inventory`: the session saved with the snapshot, or the validation
      error of a missing name, or the insert error of a taken id. */
  function CreateSession(t: Table<Product>, sessions: map<SessionId, InventoryCount>, sid: SessionId,
                         name: Option<string>, notes: Option<string>, createdBy: Option<string>, now: Time)
    : (r: Result<InventoryCount>)
    requires t.Wf()
    ensures r.Ok? <==> !Blank(name) && sid !in sessions
    ensures Blank(name) ==> r == Err(Unexpected(ValidationFailed))
    ensures !Blank(name) && sid in sessions ==> r == Err(Unexpected(DuplicateKey))
    ensures r.Ok? ==> && r.value.status == Draft && r.value.completedAt.None?
                      && r.value.name == name.value && r.value.date == now
                      && |r.value.items| == |t.order|
                      && (forall i :: 0 <= i < |t.order| ==>
                            var it := r.value.items[i];
                            && it.product == t.order[i] && it.systemQuantity == t.rows[t.order[i]].stock
                            && it.countedQuantity == 0 && it.difference == -it.systemQuantity && !it.counted)
                      && SessionInv(r.value)
  {
    match NewInventoryCount(name, notes, createdBy, Snapshot(t), now)
    case Err(e) => Err(e)
    case Ok(s) => if sid in sessions then Err(Unexpected(DuplicateKey)) else Ok(s)
  }

  /* ------------------------------------------------------- recording a count */

  /** The product a count names: an identifier of exactly 24 hexadecimal digits is
      cast to an ObjectId, whatever the case of its letters, and looked up as an `_id`;
      any other is looked up as a barcode. */
  function Resolve(t: Table<Product>, ident: string): (r: Option<ProductId>)
    ensures r.Some? ==> r.value in t.rows
    ensures IsObjectIdShaped(ident) ==> (r.Some? <==> IdKey(ident) in t.rows) && (r.Some? ==> r.value == IdKey(ident))
    ensures !IsObjectIdShaped(ident) && r.Some? ==> t.rows[r.value].barcode == Code(Trim(ident))
    ensures !IsObjectIdShaped(ident) && r.None? && t.Wf() ==>
              forall k :: k in t.rows ==> t.rows[k].barcode != Code(Trim(ident))
  {
    if IsObjectIdShaped(ident) then (if IdKey(ident) in t.rows then Some(IdKey(ident)) else None)
    else FindByBarcode(t, ident)
  }

  /** `items.findIndex(item => item.product === id)`. */
  function FindItem(items: seq<CountItem>, id: ProductId, from: nat := 0): (r: Option<nat>)
    requires from <= |items|
    decreases |items| - from
    ensures r.Some? ==> from <= r.value < |items| && items[r.value].product == id
    ensures forall j :: from <= j < (if r.Some? then r.value else |items|) ==> items[j].product != id
  {
    if from == |items| then None
    else if items[from].product == id then Some(from)
    else FindItem(items, id, from + 1)
  }

  /** `parseInt(countedQuantity)`, where an absent field reads as `NaN` (`None`). */
  function CountValue(quantity: Option<string>): Option<int> {
    if quantity.None? then None else ParseInt(quantity.value)
  }

  /** The item after a count of `n` at time `now`. */
  function Counted(it: CountItem, n: int, now: Time): (r: CountItem)
    ensures r.product == it.product && r.systemQuantity == it.systemQuantity
    ensures r.countedQuantity == n && r.counted && r.countedAt == Some(now)
    ensures ItemConsistent(r)
  {
    it.(countedQuantity := n, difference := n - it.systemQuantity, counted := true, countedAt := Some(now))
  }

  /** Everything a count request needs found before anything is written: the session,
      not completed; an identifier string; the product it resolves to; that product's
      item in the session; and a count that parses. */
  predicate CountAccepted(t: Table<Product>, sessions: map<SessionId, InventoryCount>, sid: SessionId,
                          ident: Option<string>, quantity: Option<string>)
  {
    && IdKey(sid) in sessions && sessions[IdKey(sid)].status != Completed
    && ident.Some? && Resolve(t, ident.value).Some?
    && FindItem(sessions[IdKey(sid)].items, Resolve(t, ident.value).value).Some?
    && CountValue(quantity).Some?
  }

  /** `POST /api/inventory/:id/count` as written: the checks in the handler's order,
      then the first item of the product takes the parsed count, whatever its sign.
      A missing identifier fails at `match` with a type error; a count that does not
      parse fails the save with a cast error. A draft session becomes in progress;
      the early returns drop that change unsaved. */
  function RecordCountAsWritten(t: Table<Product>, sessions: map<SessionId, InventoryCount>, sid: SessionId,
                                ident: Option<string>, quantity: Option<string>, now: Time)
    : (r: Result<InventoryCount>)
    ensures IdKey(sid) !in sessions ==> r == Err(SessionNotFound)
    ensures IdKey(sid) in sessions && sessions[IdKey(sid)].status == Completed ==> r == Err(SessionCompleted)
    ensures r.Ok? <==> CountAccepted(t, sessions, sid, ident, quantity)
    ensures r.Ok? ==>
      var s := sessions[IdKey(sid)];
      var i := FindItem(s.items, Resolve(t, ident.value).value).value;
      && r.value == s.(status := InProgress, items := s.items[i := Counted(s.items[i], CountValue(quantity).value, now)])
  {
    if IdKey(sid) !in sessions then Err(SessionNotFound)
    else
      var s := sessions[IdKey(sid)];
      if s.status == Completed then Err(SessionCompleted)
      else if ident.None? then Err(Unexpected(TypeFailure))
      else match Resolve(t, ident.value)
        case None => Err(ProductNotFound)
        case Some(pid) =>
          match FindItem(s.items, pid)
          case None => Err(ProductNotInSession)
          case Some(i) =>
            match CountValue(quantity)
            case None => Err(Unexpected(ValidationFailed))
            case Some(n) => Ok(s.(status := InProgress, items := s.items[i := Counted(s.items[i], n, now)]))
  }

  /** The count route with a negative count refused; this is the one the rest of the
      model uses. Every other outcome is the route's as written. */
  function RecordCount(t: Table<Product>, sessions: map<SessionId, InventoryCount>, sid: SessionId,
                       ident: Option<string>, quantity: Option<string>, now: Time)
    : (r: Result<InventoryCount>)
    ensures CountAccepted(t, sessions, sid, ident, quantity) && CountValue(quantity).value < 0
            ==> r == Err(NegativeCount)
    ensures !(CountAccepted(t, sessions, sid, ident, quantity) && CountValue(quantity).value < 0)
            ==> r == RecordCountAsWritten(t, sessions, sid, ident, quantity, now)
  {
    if CountAccepted(t, sessions, sid, ident, quantity) && CountValue(quantity).value < 0 then Err(NegativeCount)
    else RecordCountAsWritten(t, sessions, sid, ident, quantity, now)
  }

  /** A successful count changes exactly one item, the first of the resolved product,
      to the parsed count; every other item, and every field but the status, stays. */
  lemma RecordCountEffect(t: Table<Product>, sessions: map<SessionId, InventoryCount>, sid: SessionId,
                          ident: Option<string>, quantity: Option<string>, now: Time)
    requires RecordCount(t, sessions, sid, ident, quantity, now).Ok?
    ensures var s := sessions[IdKey(sid)];
            var s' := RecordCount(t, sessions, sid, ident, quantity, now).value;
            var n := CountValue(quantity).value;
            && n >= 0 && s'.status == InProgress && |s'.items| == |s.items|
            && s'.(status := s.status, items := s.items) == s
            && exists i :: 0 <= i < |s.items| && s.items[i].product == Resolve(t, ident.value).value
                 && (forall j :: 0 <= j < i ==> s.items[j].product != s.items[i].product)
                 && s'.items[i].countedQuantity == n && s'.items[i].difference == n - s.items[i].systemQuantity
                 && s'.items[i].counted && s'.items[i].countedAt == Some(now)
                 && s'.items[i].product == s.items[i].product
                 && s'.items[i].systemQuantity == s.items[i].systemQuantity
                 && (forall j :: 0 <= j < |s.items| && j != i ==> s'.items[j] == s.items[j])
  {
    var s := sessions[IdKey(sid)];
    var i := FindItem(s.items, Resolve(t, ident.value).value).value;
    assert 0 <= i < |s.items|;
  }

  /** A count keeps a session's invariant: the difference, the count time and the
      non-negative count of every item. */
  lemma RecordCountKeepsSessionInv(t: Table<Product>, sessions: map<SessionId, InventoryCount>, sid: SessionId,
                                   ident: Option<string>, quantity: Option<string>, now: Time)
    requires IdKey(sid) in sessions && SessionInv(sessions[IdKey(sid)])
    requires RecordCount(t, sessions, sid, ident, quantity, now).Ok?
    ensures SessionInv(RecordCount(t, sessions, sid, ident, quantity, now).value)
  {
    var s := sessions[IdKey(sid)];
    var i := FindItem(s.items, Resolve(t, ident.value).value).value;
    CountKeepsSessionInv(s, i, CountValue(quantity).value, now,
                         RecordCount(t, sessions, sid, ident, quantity, now).value);
  }

  lemma CountKeepsSessionInv(s: InventoryCount, i: nat, n: int, now: Time, s': InventoryCount)
    requires SessionInv(s) && s.status != Completed && i < |s.items| && n >= 0
    requires s' == s.(status := InProgress, items := s.items[i := Counted(s.items[i], n, now)])
    ensures SessionInv(s')
  {
  }

  /* ------------------------------------------------------ completing a session */

  /** The count the last counted item of product `id` among the first `n` items
      holds, if any of them was counted. */
  function LastCount(items: seq<CountItem>, id: ProductId, n: nat): Option<int>
    requires n <= |items|
  {
    if n == 0 then None
    else if items[n - 1].counted && items[n - 1].product == id then Some(items[n - 1].countedQuantity)
    else LastCount(items, id, n - 1)
  }

  /** `LastCount` finds a count exactly when some item of the product was counted,
      and the one it finds is the last such item's. */
  lemma {:induction false} LastCountIsLast(items: seq<CountItem>, id: ProductId, n: nat)
    requires n <= |items|
    ensures LastCount(items, id, n).Some? <==> exists i :: 0 <= i < n && items[i].counted && items[i].product == id
    ensures LastCount(items, id, n).Some? ==>
              exists i :: 0 <= i < n && items[i].counted && items[i].product == id
                          && items[i].countedQuantity == LastCount(items, id, n).value
                          && forall j :: i < j < n ==> !(items[j].counted && items[j].product == id)
  {
    if n > 0 && !(items[n - 1].counted && items[n - 1].product == id) {
      LastCountIsLast(items, id, n - 1);
    }
  }

  /** The product collection after the completion loop went over the first `n`
      items: every product with a counted item takes the count of its last one; all
      others, and every other field, stay. Items of products deleted since are
      skipped, as `findByIdAndUpdate` finds nothing to update. */
  function ApplyCounts(t: Table<Product>, items: seq<CountItem>, n: nat): (r: Table<Product>)
    requires n <= |items|
    ensures r.order == t.order && r.rows.Keys == t.rows.Keys
  {
    if n == 0 then t else CountStep(ApplyCounts(t, items, n - 1), items[n - 1])
  }

  /** A product's record with the count of its last counted item, if any, as stock. */
  function WithCount(p: Product, c: Option<int>): Product {
    match c
    case None => p
    case Some(n) => p.(stock := n)
  }

  /** After the loop, each product holds the count of its last counted item, or
      its stock as before when none of its items was counted. */
  lemma ApplyCountsEffect(t: Table<Product>, items: seq<CountItem>, n: nat)
    requires n <= |items|
    ensures forall k :: k in t.rows ==> ApplyCounts(t, items, n).rows[k] == WithCount(t.rows[k], LastCount(items, k, n))
  {
    forall k | k in t.rows
      ensures ApplyCounts(t, items, n).rows[k] == WithCount(t.rows[k], LastCount(items, k, n))
    {
      ApplyCountsAt(t, items, n, k);
    }
  }

  lemma {:induction false} ApplyCountsAt(t: Table<Product>, items: seq<CountItem>, n: nat, k: ProductId)
    requires n <= |items| && k in t.rows
    ensures k in ApplyCounts(t, items, n).rows
    ensures ApplyCounts(t, items, n).rows[k] == WithCount(t.rows[k], LastCount(items, k, n))
  {
    if n > 0 {
      ApplyCountsAt(t, items, n - 1, k);
    }
  }

  /** One iteration of the completion loop: a counted item's quantity becomes its
      product's stock, if the product still exists. */
  function CountStep(t: Table<Product>, it: CountItem): (r: Table<Product>)
    ensures r.order == t.order && r.rows.Keys == t.rows.Keys
  {
    if it.counted && it.product in t.rows then t.Update(it.product, t.rows[it.product].(stock := it.countedQuantity))
    else t
  }

  /** What completion answers: the product collection and the completed session. */
  datatype Completion = Completion(products: Table<Product>, session: InventoryCount)

  /** `POST /api/inventory/:id/complete`: a session that exists and is not completed
      yet becomes completed now; with `updateStock`, the counted items' quantities
      are written to their products first. */
  function CompleteSession(t: Table<Product>, sessions: map<SessionId, InventoryCount>, sid: SessionId,
                           updateStock: bool, now: Time): (r: Result<Completion>)
    ensures IdKey(sid) !in sessions ==> r == Err(SessionNotFound)
    ensures IdKey(sid) in sessions && sessions[IdKey(sid)].status == Completed ==> r == Err(SessionAlreadyCompleted)
    ensures r.Ok? <==> IdKey(sid) in sessions && sessions[IdKey(sid)].status != Completed
    ensures r.Ok? ==>
      var s := sessions[IdKey(sid)];
      && r.value.session == s.(status := Completed, completedAt := Some(now))
      && r.value.products.order == t.order && r.value.products.rows.Keys == t.rows.Keys
      && forall k :: k in t.rows ==>
           && r.value.products.rows[k].(stock := t.rows[k].stock) == t.rows[k]
           && r.value.products.rows[k].stock
              == (if updateStock && LastCount(s.items, k, |s.items|).Some? then LastCount(s.items, k, |s.items|).value
                  else t.rows[k].stock)
  {
    if IdKey(sid) !in sessions then Err(SessionNotFound)
    else
      var s := sessions[IdKey(sid)];
      if s.status == Completed then Err(SessionAlreadyCompleted)
      else
        var done := s.(status := Completed, completedAt := Some(now));
        ApplyCountsEffect(t, s.items, |s.items|);
        Ok(Completion(if updateStock then ApplyCounts(t, s.items, |s.items|) else t, done))
  }

  /** Completion is terminal: the session can be neither counted nor completed again. */
  lemma CompletedIsTerminal(t: Table<Product>, sessions: map<SessionId, InventoryCount>, sid: SessionId,
                            updateStock: bool, now: Time,
                            t': Table<Product>, ident: Option<string>, quantity: Option<string>, later: Time, again: bool)
    requires CompleteSession(t, sessions, sid, updateStock, now).Ok?
    ensures var sessions' := sessions[IdKey(sid) := CompleteSession(t, sessions, sid, updateStock, now).value.session];
            && RecordCount(t', sessions', sid, ident, quantity, later) == Err(SessionCompleted)
            && CompleteSession(t', sessions', sid, again, later) == Err(SessionAlreadyCompleted)
  {
  }

  /** Writing counts that are all at least zero keeps the product invariant. */
  lemma ApplyCountsKeepsProductsInv(t: Table<Product>, items: seq<CountItem>, n: nat)
    requires ProductsInv(t) && n <= |items|
    requires forall i :: 0 <= i < |items| ==> items[i].countedQuantity >= 0
    ensures ProductsInv(ApplyCounts(t, items, n))
  {
    ApplyCountsEffect(t, items, n);
    forall k | k in t.rows ensures ApplyCounts(t, items, n).rows[k].stock >= 0 {
      LastCountNonNegative(items, k, n);
    }
    StockOnlyChangeKeepsProductsInv(t, ApplyCounts(t, items, n));
  }

  lemma {:induction false} LastCountNonNegative(items: seq<CountItem>, id: ProductId, n: nat)
    requires n <= |items|
    requires forall i :: 0 <= i < |items| ==> items[i].countedQuantity >= 0
    ensures LastCount(items, id, n).Some? ==> LastCount(items, id, n).value >= 0
  {
    if n > 0 {
      LastCountNonNegative(items, id, n - 1);
    }
  }

  /** Completing a session that keeps its invariant keeps the product invariant: no
      stock goes below zero. */
  lemma CompleteKeepsProductsInv(t: Table<Product>, sessions: map<SessionId, InventoryCount>, sid: SessionId,
                                 updateStock: bool, now: Time)
    requires ProductsInv(t) && SessionsInv(sessions)
    requires CompleteSession(t, sessions, sid, updateStock, now).Ok?
    ensures ProductsInv(CompleteSession(t, sessions, sid, updateStock, now).value.products)
    ensures SessionInv(CompleteSession(t, sessions, sid, updateStock, now).value.session)
  {
    var s := sessions[IdKey(sid)];
    assert SessionInv(s);
    if updateStock {
      ApplyCountsKeepsProductsInv(t, s.items, |s.items|);
    }
  }

  /** A product and a freshly created session counting it, as the handlers store them. */
  function Aspirin(): Product {
    Product("Aspirin", Code("869"), None, None, 1.0, 1.0, 5, Adet, 0, true, None, None)
  }

  function AspirinShelf(): Table<Product> {
    Table(["p1"], map["p1" := Aspirin()])
  }

  function AspirinCount(): InventoryCount {
    InventoryCount("Count", 0, Draft, [NewCountItem("p1", 5).(difference := -5)], None, None, None)
  }

  /** The as-written count route lets a negative count through, and completing with
      `updateStock` then stores it as the product's stock, breaking the product
      invariant that the session and the collection held before. */
  lemma NegativeCountReachesStock()
    ensures ProductsInv(AspirinShelf()) && SessionInv(AspirinCount())
    ensures var counted := RecordCountAsWritten(AspirinShelf(), map["s1" := AspirinCount()], "s1",
                                                Some("869"), Some(Decimal(-3)), 1);
            && counted.Ok?
            && var done := CompleteSession(AspirinShelf(), map["s1" := counted.value], "s1", true, 2);
               done.Ok? && done.value.products.rows["p1"].stock == -3 && !ProductsInv(done.value.products)
  {
    AspirinStored();
    var counted := NegativeCountAccepted();
    CountWrittenToStock(counted);
  }

  lemma AspirinStored()
    ensures ProductsInv(AspirinShelf()) && SessionInv(AspirinCount())
  {
    assert ValidProduct(Aspirin());
    assert AspirinShelf().Wf();
    assert UniqueBarcodes(AspirinShelf());
  }

  lemma NegativeCountAccepted() returns (counted: InventoryCount)
    ensures RecordCountAsWritten(AspirinShelf(), map["s1" := AspirinCount()], "s1",
                                 Some("869"), Some(Decimal(-3)), 1) == Ok(counted)
    ensures counted.status == InProgress && |counted.items| == 1
    ensures counted.items[0].product == "p1" && counted.items[0].counted && counted.items[0].countedQuantity == -3
  {
    var t := AspirinShelf();
    assert !IsObjectIdShaped("869");
    assert TrimStart("869") == "869";
    assert TrimEnd("869") == "869";
    assert t.FindIndex((q: Product) => q.barcode == Code(Trim("869"))) == Some(0);
    assert Resolve(t, "869") == Some("p1");
    ParseIntDecimal(-3);
    counted := RecordCountAsWritten(t, map["s1" := AspirinCount()], "s1", Some("869"), Some(Decimal(-3)), 1).value;
  }

  lemma CountWrittenToStock(counted: InventoryCount)
    requires |counted.items| == 1 && counted.status != Completed
    requires counted.items[0].product == "p1" && counted.items[0].counted && counted.items[0].countedQuantity == -3
    ensures var done := CompleteSession(AspirinShelf(), map["s1" := counted], "s1", true, 2);
            done.Ok? && done.value.products.rows["p1"].stock == -3 && !ProductsInv(done.value.products)
  {
    assert LastCount(counted.items, "p1", 1) == Some(-3);
  }

  /* ------------------------------------------------------------ the handlers */

  /** The create handler: build the snapshot, then save the session under `sid`. */
  method PostSession(db: Database, sid: SessionId, name: Option<string>, notes: Option<string>,
                     createdBy: Option<string>, now: Time) returns (r: Result<InventoryCount>)
    requires db.products.Wf()
    modifies db
    ensures r == CreateSession(old(db.products), old(db.sessions), sid, name, notes, createdBy, now)
    ensures r.Ok? ==> db.sessions == old(db.sessions)[sid := r.value]
    ensures r.Err? ==> db.sessions == old(db.sessions)
    ensures db.products == old(db.products) && db.sales == old(db.sales) && db.categories == old(db.categories)
  {
    var items := Snapshot(db.products);
    var session := NewInventoryCount(name, notes, createdBy, items, now);
    if session.Err? {
      return Err(session.error);
    }
    if sid in db.sessions {
      return Err(Unexpected(DuplicateKey));
    }
    db.sessions := db.sessions[sid := session.value];
    r := Ok(session.value);
  }

  /** The count handler, with a negative count refused: on success the session is
      saved with the counted item, which is answered. */
  method PostCount(db: Database, sid: SessionId, ident: Option<string>, quantity: Option<string>, now: Time)
    returns (r: Result<CountItem>)
    modifies db
    ensures var spec := RecordCount(old(db.products), old(db.sessions), sid, ident, quantity, now);
            && (spec.Err? ==> r == Err(spec.error) && db.sessions == old(db.sessions))
            && (spec.Ok? ==> && db.sessions == old(db.sessions)[IdKey(sid) := spec.value]
                             && r.Ok? && r.value.product == Resolve(old(db.products), ident.value).value
                             && r.value == spec.value.items[FindItem(old(db.sessions)[IdKey(sid)].items, r.value.product).value])
    ensures db.products == old(db.products) && db.sales == old(db.sales) && db.categories == old(db.categories)
  {
    var key := IdKey(sid);
    if key !in db.sessions {
      return Err(SessionNotFound);
    }
    var session := db.sessions[key];
    if session.status == Completed {
      return Err(SessionCompleted);
    }
    if session.status == Draft {
      session := session.(status := InProgress);
    }
    if ident.None? {
      return Err(Unexpected(TypeFailure));
    }
    var product := Resolve(db.products, ident.value);
    if product.None? {
      return Err(ProductNotFound);
    }
    var index := FindItem(session.items, product.value);
    if index.None? {
      return Err(ProductNotInSession);
    }
    var n := CountValue(quantity);
    if n.None? {
      return Err(Unexpected(ValidationFailed));
    }
    if n.value < 0 {
      return Err(NegativeCount);
    }
    var i := index.value;
    var item := Counted(session.items[i], n.value, now);
    session := session.(items := session.items[i := item]);
    db.sessions := db.sessions[key := session];
    r := Ok(item);
  }

  /** The complete handler: with `updateStock`, one `findByIdAndUpdate` per counted
      item in item order; then the session is saved completed. */
  method PostComplete(db: Database, sid: SessionId, updateStock: bool, now: Time) returns (r: Result<InventoryCount>)
    modifies db
    ensures var spec := CompleteSession(old(db.products), old(db.sessions), sid, updateStock, now);
            && (spec.Err? ==> r == Err(spec.error) && db.products == old(db.products) && db.sessions == old(db.sessions))
            && (spec.Ok? ==> && r == Ok(spec.value.session) && db.products == spec.value.products
                             && db.sessions == old(db.sessions)[IdKey(sid) := spec.value.session])
    ensures db.sales == old(db.sales) && db.categories == old(db.categories)
  {
    var key := IdKey(sid);
    if key !in db.sessions {
      return Err(SessionNotFound);
    }
    var session := db.sessions[key];
    if session.status == Completed {
      return Err(SessionAlreadyCompleted);
    }
    session := session.(status := Completed, completedAt := Some(now));
    if updateStock {
      var i := 0;
      while i < |session.items|
        invariant 0 <= i <= |session.items|
        invariant db.products == ApplyCounts(old(db.products), session.items, i)
        invariant db.sessions == old(db.sessions) && db.sales == old(db.sales) && db.categories == old(db.categories)
      {
        var item := session.items[i];
        if item.counted && item.product in db.products.rows {
          db.products := db.products.Update(item.product, db.products.rows[item.product].(stock := item.countedQuantity));
        }
        i := i + 1;
      }
    }
    db.sessions := db.sessions[key := session];
    r := Ok(session);
  }
}
