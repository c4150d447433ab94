/** The cart of the point-of-sale page, client/src/pages/Sales.jsx: the three updaters
    that `setCart` applies to the previous cart, each returning a new list. */
module Cart {

  /** The fields of a listed product that the updaters read. */
  datatype CartProduct = CartProduct(id: string, name: string, stock: int)

  /** One cart entry: `{ product, quantity }`. */
  datatype CartItem = CartItem(product: CartProduct, quantity: int)

  /** `prevCart.find(item => item.product._id === id)` finds an entry. */
  predicate Holds(cart: seq<CartItem>, id: string) {
    exists i :: 0 <= i < |cart| && cart[i].product.id == id
  }

  /** No two entries are for the same product. */
  predicate DistinctIds(cart: seq<CartItem>) {
    forall i, j :: 0 <= i < j < |cart| ==> cart[i].product.id != cart[j].product.id
  }

  /** Every entry asks for at least one unit. */
  predicate PositiveQuantities(cart: seq<CartItem>) {
    forall i :: 0 <= i < |cart| ==> cart[i].quantity > 0
  }

  /* ------------------------------------------------------------ addToCart */

  /** The `map` of `addToCart`: every entry for `id` gets one more unit. */
  function Increment(cart: seq<CartItem>, id: string): (r: seq<CartItem>)
    ensures |r| == |cart|
  {
    if cart == [] then []
    else
      var item := cart[0];
      [if item.product.id == id then item.(quantity := item.quantity + 1) else item] + Increment(cart[1..], id)
  }

  /** `addToCart(product)`: afterwards the cart holds the product, and it grew by one
      entry exactly when the product was new to it. */
  function AddToCart(cart: seq<CartItem>, product: CartProduct): (r: seq<CartItem>)
    ensures |r| == if Holds(cart, product.id) then |cart| else |cart| + 1
    ensures Holds(r, product.id)
  {
    if Holds(cart, product.id) then
      IncrementAt(cart, product.id);
      Increment(cart, product.id)
    else
      var r := cart + [CartItem(product, 1)];
      assert r[|cart|].product.id == product.id;
      r
  }

  /** Each entry of the incremented cart is the old entry, one unit up when it is for `id`. */
  lemma {:induction false} IncrementAt(cart: seq<CartItem>, id: string)
    ensures forall i :: 0 <= i < |cart| ==>
              Increment(cart, id)[i] == if cart[i].product.id == id then cart[i].(quantity := cart[i].quantity + 1) else cart[i]
  {
    if cart != [] {
      IncrementAt(cart[1..], id);
      var r := Increment(cart, id);
      assert forall i :: 1 <= i < |cart| ==> r[i] == Increment(cart[1..], id)[i - 1] && cart[i] == cart[1..][i - 1];
    }
  }

  /** A product not in the cart is appended with quantity 1; one already there gets one
      more unit, with no look at its stock, and the length and the other entries stay
      as they were. */
  lemma AddToCartEffect(cart: seq<CartItem>, product: CartProduct)
    ensures !Holds(cart, product.id) ==> AddToCart(cart, product) == cart + [CartItem(product, 1)]
    ensures Holds(cart, product.id) ==>
              && |AddToCart(cart, product)| == |cart|
              && forall i :: 0 <= i < |cart| ==>
                   AddToCart(cart, product)[i] ==
                     if cart[i].product.id == product.id then cart[i].(quantity := cart[i].quantity + 1) else cart[i]
  {
    IncrementAt(cart, product.id);
  }

  /** `addToCart` keeps product ids distinct and quantities positive. */
  lemma AddToCartKeepsInvariants(cart: seq<CartItem>, product: CartProduct)
    requires DistinctIds(cart) && PositiveQuantities(cart)
    ensures DistinctIds(AddToCart(cart, product)) && PositiveQuantities(AddToCart(cart, product))
  {
    AddToCartEffect(cart, product);
    var r := AddToCart(cart, product);
    if !Holds(cart, product.id) {
      assert forall i :: 0 <= i < |cart| ==> r[i] == cart[i];
    } else {
      assert forall i :: 0 <= i < |cart| ==> r[i].product == cart[i].product;
    }
  }

  /* ------------------------------------------------------- removeFromCart */

  /** `prevCart.filter(item => item.product._id !== productId)`. */
  function RemoveFromCart(cart: seq<CartItem>, id: string): (r: seq<CartItem>)
    ensures |r| <= |cart|
  {
    if cart == [] then []
    else (if cart[0].product.id == id then [] else [cart[0]]) + RemoveFromCart(cart[1..], id)
  }

  /** Removing works entry by entry, and keeps the order of what remains. */
  lemma {:induction false} RemoveFromCartAppend(a: seq<CartItem>, b: seq<CartItem>, id: string)
    ensures RemoveFromCart(a + b, id) == RemoveFromCart(a, id) + RemoveFromCart(b, id)
  {
    if a != [] {
      assert (a + b)[1..] == a[1..] + b;
      RemoveFromCartAppend(a[1..], b, id);
    } else {
      assert a + b == b;
    }
  }

  /** Removing leaves exactly the entries for other products. */
  lemma {:induction false} RemoveFromCartContents(cart: seq<CartItem>, id: string)
    ensures forall x :: x in RemoveFromCart(cart, id) <==> x in cart && x.product.id != id
  {
    if cart != [] {
      RemoveFromCartContents(cart[1..], id);
      assert cart == [cart[0]] + cart[1..];
    }
  }

  /** Removing from a cart without entries for `id` changes nothing. */
  lemma {:induction false} RemoveAbsent(cart: seq<CartItem>, id: string)
    requires !Holds(cart, id)
    ensures RemoveFromCart(cart, id) == cart
  {
    if cart != [] {
      assert !Holds(cart[1..], id);
      RemoveAbsent(cart[1..], id);
      assert cart == [cart[0]] + cart[1..];
    }
  }

  /** Keeping a sub-sequence of the entries keeps product ids distinct and quantities
      positive. */
  lemma {:induction false} RemoveFromCartKeepsInvariants(cart: seq<CartItem>, id: string)
    requires DistinctIds(cart) && PositiveQuantities(cart)
    ensures DistinctIds(RemoveFromCart(cart, id)) && PositiveQuantities(RemoveFromCart(cart, id))
  {
    if cart != [] {
      var tail := cart[1..];
      assert DistinctIds(tail) by {
        forall i, j | 0 <= i < j < |tail| ensures tail[i].product.id != tail[j].product.id {
          assert tail[i] == cart[i + 1] && tail[j] == cart[j + 1];
        }
      }
      RemoveFromCartKeepsInvariants(tail, id);
      RemoveFromCartContents(tail, id);
      var rest := RemoveFromCart(tail, id);
      assert forall x :: x in rest ==> x in tail;
      assert forall x :: x in tail ==> x.product.id != cart[0].product.id;
      var r := RemoveFromCart(cart, id);
      assert forall i :: 0 <= i < |r| ==> r[i].quantity > 0 by {
        assert r == (if cart[0].product.id == id then [] else [cart[0]]) + rest;
      }
    }
  }

  /* ------------------------------------------------------- updateQuantity */

  /** The `map` callback of `updateQuantity` followed by `filter(Boolean)`: an entry for
      `id` whose new quantity is not positive is dropped (`null`); one whose new quantity
      is above the product's stock stays as it was (the warning toast aside); otherwise
      it takes the new quantity. */
  function UpdateEntry(item: CartItem, id: string, change: int): (r: seq<CartItem>)
    ensures |r| <= 1
  {
    if item.product.id != id then [item]
    else
      var newQuantity := item.quantity + change;
      if newQuantity <= 0 then []
      else if newQuantity > item.product.stock then [item]
      else [item.(quantity := newQuantity)]
  }

  /** `updateQuantity(productId, change)`. */
  function UpdateQuantity(cart: seq<CartItem>, id: string, change: int): (r: seq<CartItem>)
    ensures |r| <= |cart|
  {
    if cart == [] then []
    else UpdateEntry(cart[0], id, change) + UpdateQuantity(cart[1..], id, change)
  }

  lemma {:induction false} UpdateQuantityAppend(a: seq<CartItem>, b: seq<CartItem>, id: string, change: int)
    ensures UpdateQuantity(a + b, id, change) == UpdateQuantity(a, id, change) + UpdateQuantity(b, id, change)
  {
    if a != [] {
      assert (a + b)[1..] == a[1..] + b;
      UpdateQuantityAppend(a[1..], b, id, change);
    } else {
      assert a + b == b;
    }
  }

  /** Entries for other products pass through unchanged. */
  lemma {:induction false} UpdateQuantityAbsent(cart: seq<CartItem>, id: string, change: int)
    requires !Holds(cart, id)
    ensures UpdateQuantity(cart, id, change) == cart
  {
    if cart != [] {
      assert !Holds(cart[1..], id);
      UpdateQuantityAbsent(cart[1..], id, change);
      assert cart == [cart[0]] + cart[1..];
    }
  }

  /** With the entry for `id` at position `k` the only one, updating touches that
      entry alone. */
  lemma UpdateQuantitySplit(cart: seq<CartItem>, id: string, change: int, k: nat)
    requires DistinctIds(cart) && k < |cart| && cart[k].product.id == id
    ensures UpdateQuantity(cart, id, change) == cart[..k] + UpdateEntry(cart[k], id, change) + cart[k + 1..]
  {
    var before, after := cart[..k], cart[k + 1..];
    assert cart == before + [cart[k]] + after;
    assert !Holds(before, id) by {
      assert forall i :: 0 <= i < |before| ==> before[i] == cart[i];
    }
    assert !Holds(after, id) by {
      assert forall i :: 0 <= i < |after| ==> after[i] == cart[k + 1 + i];
    }
    UpdateQuantityAppend(before + [cart[k]], after, id, change);
    UpdateQuantityAppend(before, [cart[k]], id, change);
    UpdateQuantityAbsent(before, id, change);
    UpdateQuantityAbsent(after, id, change);
    assert UpdateQuantity([cart[k]], id, change) == UpdateEntry(cart[k], id, change) by {
      assert [cart[k]][1..] == [];
    }
  }

  /** With distinct ids and the entry for `id` at position `k`: a new quantity not above
      zero removes that entry, one above the product's stock leaves the cart as it was,
      and any other sets that entry's quantity; every other entry stays, in order. */
  lemma UpdateQuantityEffect(cart: seq<CartItem>, id: string, change: int, k: nat)
    requires DistinctIds(cart) && k < |cart| && cart[k].product.id == id
    ensures var q := cart[k].quantity + change;
            && (q <= 0 ==> UpdateQuantity(cart, id, change) == cart[..k] + cart[k + 1..])
            && (q > cart[k].product.stock && q > 0 ==> UpdateQuantity(cart, id, change) == cart)
            && (0 < q <= cart[k].product.stock ==>
                  UpdateQuantity(cart, id, change) == cart[k := cart[k].(quantity := q)])
  {
    UpdateQuantitySplit(cart, id, change, k);
    var q := cart[k].quantity + change;
    if q <= 0 {
      assert cart[..k] + [] + cart[k + 1..] == cart[..k] + cart[k + 1..];
    } else if q > cart[k].product.stock {
      assert cart[..k] + [cart[k]] + cart[k + 1..] == cart;
    } else {
      assert cart[..k] + [cart[k].(quantity := q)] + cart[k + 1..] == cart[k := cart[k].(quantity := q)];
    }
  }

  /** `updateQuantity` keeps product ids distinct and quantities positive. */
  lemma {:induction false} UpdateQuantityKeepsInvariants(cart: seq<CartItem>, id: string, change: int)
    requires DistinctIds(cart) && PositiveQuantities(cart)
    ensures DistinctIds(UpdateQuantity(cart, id, change)) && PositiveQuantities(UpdateQuantity(cart, id, change))
  {
    if cart != [] {
      var tail := cart[1..];
      assert DistinctIds(tail) by {
        forall i, j | 0 <= i < j < |tail| ensures tail[i].product.id != tail[j].product.id {
          assert tail[i] == cart[i + 1] && tail[j] == cart[j + 1];
        }
      }
      UpdateQuantityKeepsInvariants(tail, id, change);
      UpdateQuantityIds(tail, id, change);
      var head := UpdateEntry(cart[0], id, change);
      var rest := UpdateQuantity(tail, id, change);
      assert forall x :: x in tail ==> x.product.id != cart[0].product.id;
      assert forall y :: y in rest ==> y.product.id != cart[0].product.id;
      ConsKeepsInvariants(head, rest, cart[0].product.id);
    }
  }

  /** At most one entry for a product not among the rest, in front of them. */
  lemma ConsKeepsInvariants(head: seq<CartItem>, rest: seq<CartItem>, id: string)
    requires |head| <= 1 && forall x :: x in head ==> x.product.id == id && x.quantity > 0
    requires forall y :: y in rest ==> y.product.id != id
    requires DistinctIds(rest) && PositiveQuantities(rest)
    ensures DistinctIds(head + rest) && PositiveQuantities(head + rest)
  {
    var r := head + rest;
    assert forall i :: |head| <= i < |r| ==> r[i] == rest[i - |head|];
    if head != [] {
      assert r[0] == head[0];
    }
  }

  /** Updating only drops entries or changes quantities: every entry left is for a
      product that was in the cart. */
  lemma {:induction false} UpdateQuantityIds(cart: seq<CartItem>, id: string, change: int)
    ensures forall x :: x in UpdateQuantity(cart, id, change) ==>
              exists y :: y in cart && y.product == x.product
  {
    if cart != [] {
      UpdateQuantityIds(cart[1..], id, change);
      var head := UpdateEntry(cart[0], id, change);
      forall x | x in UpdateQuantity(cart, id, change) ensures exists y :: y in cart && y.product == x.product {
        if x in head {
          assert cart[0] in cart && cart[0].product == x.product;
        } else {
          var y :| y in cart[1..] && y.product == x.product;
          assert y in cart;
        }
      }
    }
  }
}
