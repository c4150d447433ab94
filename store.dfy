/** The MongoDB database the handlers share: the four collections, and the
    invariants the schemas and the handlers keep between requests. */
module Store {
  import opened Common
  import opened Text
  import opened Tables
  import opened Schemas

  /** Every stored product passed its schema's validators, and barcodes are unique. */
  ghost predicate ProductsInv(t: Table<Product>) {
    && t.Wf()
    && (forall k :: k in t.rows ==> ValidProduct(t.rows[k]))
    && UniqueBarcodes(t)
  }

  /** Stored sales have consistent cancellation fields and sell a positive quantity. */
  ghost predicate SalesInv(m: map<SaleId, Sale>) {
    forall k :: k in m ==> SaleConsistent(m[k]) && m[k].quantity > 0
  }

  /** A session's items keep `difference = countedQuantity - systemQuantity`; an item
      carries a count time exactly when it was counted, and only counted items carry
      a count; a session carries a completion time exactly when it is completed. */
  ghost predicate SessionInv(s: InventoryCount) {
    && ItemsConsistent(s.items)
    && (forall i :: 0 <= i < |s.items| ==> (s.items[i].counted <==> s.items[i].countedAt.Some?))
    && (forall i :: 0 <= i < |s.items| && !s.items[i].counted ==> s.items[i].countedQuantity == 0)
    && (forall i :: 0 <= i < |s.items| ==> s.items[i].countedQuantity >= 0)
    && (s.status == Completed <==> s.completedAt.Some?)
  }

  ghost predicate SessionsInv(m: map<SessionId, InventoryCount>) {
    forall k :: k in m ==> SessionInv(m[k])
  }

  /** Stored categories carry a trimmed, non-empty name. */
  ghost predicate CategoriesInv(t: Table<Category>) {
    && t.Wf()
    && forall k :: k in t.rows ==> t.rows[k].name != "" && IsTrimmed(t.rows[k].name)
  }

  /** Setting a product's stock to a value not below zero keeps the product invariant. */
  lemma SetStockKeepsProductsInv(t: Table<Product>, t': Table<Product>, id: ProductId, n: int)
    requires ProductsInv(t) && id in t.rows && n >= 0
    requires t' == t.Update(id, t.rows[id].(stock := n))
    ensures ProductsInv(t')
  {
    t.UpdateKeepsWf(id, t.rows[id].(stock := n));
    SetStockKeepsValid(t, id, n);
    SetStockKeepsBarcodes(t, id, n);
  }

  /** Any change of stocks alone, to values not below zero, keeps the product invariant. */
  lemma StockOnlyChangeKeepsProductsInv(t: Table<Product>, t': Table<Product>)
    requires ProductsInv(t)
    requires t'.order == t.order && t'.rows.Keys == t.rows.Keys
    requires forall k :: k in t.rows ==> t'.rows[k].(stock := t.rows[k].stock) == t.rows[k]
    requires forall k :: k in t.rows ==> t'.rows[k].stock >= 0
    ensures ProductsInv(t')
  {
    assert forall k :: k in t'.rows ==> t'.rows[k].barcode == t.rows[k].barcode;
  }

  lemma SetStockKeepsValid(t: Table<Product>, id: ProductId, n: int)
    requires id in t.rows && n >= 0
    requires forall k :: k in t.rows ==> ValidProduct(t.rows[k])
    ensures var t' := t.Update(id, t.rows[id].(stock := n)); forall k :: k in t'.rows ==> ValidProduct(t'.rows[k])
  {
  }

  lemma SetStockKeepsBarcodes(t: Table<Product>, id: ProductId, n: int)
    requires id in t.rows && UniqueBarcodes(t)
    ensures UniqueBarcodes(t.Update(id, t.rows[id].(stock := n)))
  {
  }

  lemma PutKeepsSalesInv(m: map<SaleId, Sale>, k: SaleId, s: Sale)
    requires SalesInv(m) && SaleConsistent(s) && s.quantity > 0
    ensures SalesInv(m[k := s])
  {
  }

  /** The database: one field per collection. */
  class Database {
    var products: Table<Product>
    var sales: map<SaleId, Sale>
    var sessions: map<SessionId, InventoryCount>
    var categories: Table<Category>

    ghost predicate Valid()
      reads this
    {
      && ProductsInv(products) && SalesInv(sales)
      && SessionsInv(sessions) && CategoriesInv(categories)
    }

    /** An empty database. */
    constructor ()
      ensures products == EmptyTable() && sales == map[]
      ensures sessions == map[] && categories == EmptyTable()
      ensures Valid()
    {
      products := EmptyTable();
      sales := map[];
      sessions := map[];
      categories := EmptyTable();
    }

    /** `session.abortTransaction()`: the product and sale collections return to
        the state they had when the transaction started. */
    method Rollback(savedProducts: Table<Product>, savedSales: map<SaleId, Sale>)
      modifies this
      ensures products == savedProducts && sales == savedSales
      ensures sessions == old(sessions) && categories == old(categories)
    {
      products := savedProducts;
      sales := savedSales;
    }
  }
}
