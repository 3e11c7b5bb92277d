/** The cart and cart-item tables behind `CartView`, `CartModificationView`
    and `OrderView`, the invariants the handlers keep on them, and the
    abstraction they are specified by: the contents of a cart as a map from
    product to quantity. */
module CartTables {
  import opened Common
  import opened Models

  predicate IsOpenCartOf(c: Cart, user: UserId)
  {
    c.owner == user && c.status == Open
  }

  /** A user has at most one open cart. */
  predicate OneOpenCartEach(carts: seq<Cart>)
  {
    forall i, j :: 0 <= i < j < |carts| ==> !BothOpenForOneUser(carts[i], carts[j])
  }

  predicate BothOpenForOneUser(a: Cart, b: Cart)
  {
    a.status == Open && b.status == Open && a.owner == b.owner
  }

  /** Cart primary keys are unique. */
  predicate CartKeysUnique(carts: seq<Cart>)
  {
    forall i, j :: 0 <= i < j < |carts| ==> carts[i].key != carts[j].key
  }

  /** A cart has at most one item row per product. */
  predicate ItemsUnique(items: seq<CartItem>)
  {
    forall i, j :: 0 <= i < j < |items| ==> !SameSlot(items[i], items[j])
  }

  /** Dropping the last row keeps the rows unique. */
  lemma ItemsUniqueWithoutLast(items: seq<CartItem>)
    requires ItemsUnique(items) && items != []
    ensures ItemsUnique(items[..|items| - 1])
  {
    var init := items[..|items| - 1];
    assert forall a :: 0 <= a < |init| ==> init[a] == items[a];
  }

  /** Two rows for the same product in the same cart. */
  predicate SameSlot(a: CartItem, b: CartItem)
  {
    a.cart == b.cart && a.product == b.product
  }

  /** No item row is stored with a quantity below one. */
  predicate QuantitiesPositive(items: seq<CartItem>)
  {
    forall i :: 0 <= i < |items| ==> items[i].quantity >= 1
  }

  /** The row `Cart.objects.filter(client__user=user, status="1").first()`
      finds. */
  function OpenCartIndex(carts: seq<Cart>, user: UserId): Option<nat>
  {
    FindFirst(carts, (c: Cart) => IsOpenCartOf(c, user))
  }

  /** The key of the user's open cart, if there is one. */
  function OpenCartKey(carts: seq<Cart>, user: UserId): Option<CartKey>
  {
    match OpenCartIndex(carts, user)
    case None => None
    case Some(i) => Some(carts[i].key)
  }

  /** A user has an open cart key exactly when one of the user's carts is
      open, and the key is that cart's. */
  lemma OpenCartKeyFindsOpenCart(carts: seq<Cart>, user: UserId)
    ensures OpenCartKey(carts, user).Some? <==> exists i :: 0 <= i < |carts| && IsOpenCartOf(carts[i], user)
    ensures OpenCartKey(carts, user).Some? ==>
      exists i :: 0 <= i < |carts| && IsOpenCartOf(carts[i], user) && carts[i].key == OpenCartKey(carts, user).value
  {
    if OpenCartIndex(carts, user).Some? {
      assert IsOpenCartOf(carts[OpenCartIndex(carts, user).value], user);
    }
  }

  /** A new cart row changes no user's open cart, except that a user
      without one gets the new row when it is open and theirs. */
  lemma OpenCartKeyAfterAppend(carts: seq<Cart>, c: Cart, user: UserId)
    ensures OpenCartKey(carts + [c], user)
         == if OpenCartKey(carts, user).Some? then OpenCartKey(carts, user)
            else if IsOpenCartOf(c, user) then Some(c.key) else None
  {
    var all := carts + [c];
    var found := OpenCartIndex(carts, user);
    if found.Some? {
      assert all[found.value] == carts[found.value];
      assert forall j :: 0 <= j < found.value ==> all[j] == carts[j];
    } else {
      assert forall j :: 0 <= j < |carts| ==> all[j] == carts[j];
      assert all[|carts|] == c;
      var now := OpenCartIndex(all, user);
      if now.Some? {
        assert now.value == |carts|;
      }
    }
  }

  /** With one open cart per user, the open cart found is the only one. */
  lemma OpenCartIsTheOnlyOne(carts: seq<Cart>, user: UserId, i: nat)
    requires OneOpenCartEach(carts) && i < |carts| && IsOpenCartOf(carts[i], user)
    ensures OpenCartIndex(carts, user) == Some(i)
    ensures OpenCartKey(carts, user) == Some(carts[i].key)
  {
  }

  /** The row `CartItem.objects.filter(product=product, cart=cart).first()`
      finds. */
  function ItemIndex(items: seq<CartItem>, cart: CartKey, product: ProductId): Option<nat>
  {
    FindFirst(items, (it: CartItem) => it.cart == cart && it.product == product)
  }

  /** The contents of a cart: each product in it, with its quantity. */
  function Bag(items: seq<CartItem>, cart: CartKey): map<ProductId, int>
  {
    if items == [] then map[]
    else
      var b := Bag(items[..|items| - 1], cart);
      var last := items[|items| - 1];
      if last.cart == cart then b[last.product := last.quantity] else b
  }

  /** A cart holds exactly the products it has a row for, and with positive
      stored quantities every quantity in it is positive. */
  lemma {:induction false} BagDomain(items: seq<CartItem>, cart: CartKey)
    ensures forall p :: p in Bag(items, cart) <==> exists i :: 0 <= i < |items| && items[i].cart == cart && items[i].product == p
    ensures QuantitiesPositive(items) ==> forall p :: p in Bag(items, cart) ==> Bag(items, cart)[p] >= 1
  {
    if items != [] {
      var n := |items| - 1;
      var init, last := items[..n], items[n];
      BagDomain(init, cart);
      forall p ensures p in Bag(items, cart) <==> exists i :: 0 <= i < |items| && items[i].cart == cart && items[i].product == p {
        if p in Bag(items, cart) && !(last.cart == cart && last.product == p) {
          assert p in Bag(init, cart);
          var i :| 0 <= i < n && init[i].cart == cart && init[i].product == p;
          assert items[i] == init[i];
        }
        if i :| 0 <= i < |items| && items[i].cart == cart && items[i].product == p {
          if i < n {
            assert init[i] == items[i];
          }
        }
      }
      if QuantitiesPositive(items) {
        assert QuantitiesPositive(init);
      }
    }
  }

  /** The item lookup of the handlers finds a row exactly when the product
      is in the cart. */
  lemma ItemIndexMatchesBag(items: seq<CartItem>, cart: CartKey, product: ProductId)
    ensures ItemIndex(items, cart, product).Some? <==> product in Bag(items, cart)
  {
    BagDomain(items, cart);
    var found := ItemIndex(items, cart, product);
    if found.Some? {
      assert items[found.value].cart == cart && items[found.value].product == product;
    }
  }

  /** A cart no row refers to is empty. */
  lemma {:induction false} BagOfUnusedCart(items: seq<CartItem>, cart: CartKey)
    requires forall i :: 0 <= i < |items| ==> items[i].cart != cart
    ensures Bag(items, cart) == map[]
  {
    if items != [] {
      BagOfUnusedCart(items[..|items| - 1], cart);
    }
  }

  /** Adding a row to the table adds it to its cart's contents. */
  lemma BagAfterAppend(items: seq<CartItem>, x: CartItem, cart: CartKey)
    ensures Bag(items + [x], cart) == if x.cart == cart then Bag(items, cart)[x.product := x.quantity] else Bag(items, cart)
  {
    assert (items + [x])[..|items|] == items;
  }

  /** A cart's contents report each of its rows' quantity. */
  lemma {:induction false} BagHoldsRow(items: seq<CartItem>, i: nat)
    requires ItemsUnique(items) && i < |items|
    ensures items[i].product in Bag(items, items[i].cart)
    ensures Bag(items, items[i].cart)[items[i].product] == items[i].quantity
  {
    var init := items[..|items| - 1];
    if i < |items| - 1 {
      assert ItemsUnique(init);
      BagHoldsRow(init, i);
      assert init[i] == items[i];
      BagAfterAppend(init, items[|items| - 1], items[i].cart);
      assert items == init + [items[|items| - 1]];
    } else {
      BagAfterAppend(init, items[i], items[i].cart);
      assert items == init + [items[i]];
    }
  }

  /** Rewriting one row's quantity changes only that product's quantity in
      that row's cart. */
  lemma {:induction false} BagAfterSetQuantity(items: seq<CartItem>, i: nat, q: int, cart: CartKey)
    requires ItemsUnique(items) && i < |items|
    ensures Bag(items[i := items[i].(quantity := q)], cart)
         == if items[i].cart == cart then Bag(items, cart)[items[i].product := q] else Bag(items, cart)
  {
    var n := |items| - 1;
    var init, last := items[..n], items[n];
    assert items == init + [last];
    if i == n {
      assert items[i := items[i].(quantity := q)] == init + [last.(quantity := q)];
      BagAfterAppend(init, last.(quantity := q), cart);
      BagAfterAppend(init, last, cart);
    } else {
      ItemsUniqueWithoutLast(items);
      BagAfterSetQuantity(init, i, q, cart);
      assert init[i] == items[i] && !SameSlot(items[i], items[n]);
      SetBeforeAppend(init, last, i, q, cart);
    }
  }

  /** An earlier row's new quantity survives one more row for another slot. */
  lemma SetBeforeAppend(init: seq<CartItem>, last: CartItem, i: nat, q: int, cart: CartKey)
    requires i < |init| && !SameSlot(init[i], last)
    requires Bag(init[i := init[i].(quantity := q)], cart)
          == if init[i].cart == cart then Bag(init, cart)[init[i].product := q] else Bag(init, cart)
    ensures Bag((init + [last])[i := init[i].(quantity := q)], cart)
         == if init[i].cart == cart then Bag(init + [last], cart)[init[i].product := q] else Bag(init + [last], cart)
  {
    var changed := init[i := init[i].(quantity := q)];
    assert (init + [last])[i := init[i].(quantity := q)] == changed + [last];
    BagAfterAppend(changed, last, cart);
    BagAfterAppend(init, last, cart);
    if init[i].cart == cart && last.cart == cart {
      UpdatesCommute(Bag(init, cart), init[i].product, q, last.product, last.quantity);
    }
  }

  lemma UpdatesCommute(m: map<ProductId, int>, p: ProductId, q: int, p2: ProductId, q2: int)
    requires p != p2
    ensures m[p := q][p2 := q2] == m[p2 := q2][p := q]
  {
  }

  /** What `CartItem.objects.filter(product=product, cart=cart).delete()`
      leaves of the table. */
  function WithoutItem(items: seq<CartItem>, cart: CartKey, product: ProductId): seq<CartItem>
  {
    Filter(items, (it: CartItem) => !(it.cart == cart && it.product == product))
  }

  /** Deleting a product's rows from a cart removes the product from that
      cart's contents and leaves every other cart as it was. */
  lemma {:induction false} BagWithoutItem(items: seq<CartItem>, cart: CartKey, product: ProductId, c: CartKey)
    ensures Bag(WithoutItem(items, cart, product), c)
         == if c == cart then Bag(items, c) - {product} else Bag(items, c)
  {
    if items != [] {
      var n := |items| - 1;
      var init, last := items[..n], items[n];
      assert items == init + [last];
      BagWithoutItem(init, cart, product, c);
      var kept := WithoutItem(init, cart, product);
      if !(last.cart == cart && last.product == product) {
        assert WithoutItem(items, cart, product) == kept + [last];
        BagStepKept(init, kept, last, cart, product, c);
      } else {
        assert WithoutItem(items, cart, product) == kept;
        BagStepDropped(init, kept, last, cart, product, c);
      }
    }
  }

  /** The inductive step of `BagWithoutItem` for a row the delete keeps. */
  lemma BagStepKept(init: seq<CartItem>, kept: seq<CartItem>, last: CartItem, cart: CartKey, product: ProductId, c: CartKey)
    requires Bag(kept, c) == if c == cart then Bag(init, c) - {product} else Bag(init, c)
    requires !(last.cart == cart && last.product == product)
    ensures Bag(kept + [last], c) == if c == cart then Bag(init + [last], c) - {product} else Bag(init + [last], c)
  {
    BagAfterAppend(init, last, c);
    BagAfterAppend(kept, last, c);
    if last.cart == c && c == cart {
      RemoveCommutesWithUpdate(Bag(init, c), product, last.product, last.quantity);
    }
  }

  lemma RemoveCommutesWithUpdate(m: map<ProductId, int>, removed: ProductId, p: ProductId, q: int)
    requires removed != p
    ensures (m - {removed})[p := q] == m[p := q] - {removed}
  {
  }

  /** The inductive step of `BagWithoutItem` for a row the delete removes. */
  lemma BagStepDropped(init: seq<CartItem>, kept: seq<CartItem>, last: CartItem, cart: CartKey, product: ProductId, c: CartKey)
    requires Bag(kept, c) == if c == cart then Bag(init, c) - {product} else Bag(init, c)
    requires last.cart == cart && last.product == product
    ensures Bag(kept, c) == if c == cart then Bag(init + [last], c) - {product} else Bag(init + [last], c)
  {
    BagAfterAppend(init, last, c);
    if c == cart {
      var before := Bag(init, c);
      assert before - {product} == before[product := last.quantity] - {product};
    }
  }

  /** Deleting one row by its key is deleting its (cart, product) pair, since
      no other row shares that pair. */
  lemma {:induction false} RemovingRowIsWithoutItem(items: seq<CartItem>, i: nat)
    requires ItemsUnique(items) && i < |items|
    ensures items[..i] + items[i + 1..] == WithoutItem(items, items[i].cart, items[i].product)
  {
    var n := |items| - 1;
    var init, last := items[..n], items[n];
    assert items == init + [last];
    var keep := (it: CartItem) => !(it.cart == items[i].cart && it.product == items[i].product);
    if i == n {
      forall k | 0 <= k < |init| ensures keep(init[k]) {
        assert init[k] == items[k];
      }
      FilterKeepingAll(init, keep);
      assert items[..i] + items[i + 1..] == init;
    } else {
      assert ItemsUnique(init);
      RemovingRowIsWithoutItem(init, i);
      assert init[i] == items[i];
      assert keep(last);
      assert items[..i] + items[i + 1..] == (init[..i] + init[i + 1..]) + [last];
    }
  }

  /** Deleting rows keeps the remaining ones unique per (cart, product). */
  lemma {:induction false} FilterKeepsItemsUnique(items: seq<CartItem>, keep: CartItem -> bool)
    requires ItemsUnique(items)
    ensures ItemsUnique(Filter(items, keep))
  {
    if items != [] {
      var n := |items| - 1;
      var init, last := items[..n], items[n];
      assert items == init + [last];
      assert ItemsUnique(init);
      FilterKeepsItemsUnique(init, keep);
      var kept := Filter(init, keep);
      forall k | 0 <= k < |kept| ensures !SameSlot(kept[k], last) {
        var j :| 0 <= j < |init| && init[j] == kept[k];
        assert items[j] == kept[k];
      }
      if keep(last) {
        assert Filter(items, keep) == kept + [last];
      } else {
        assert Filter(items, keep) == kept;
      }
    }
  }

  /** Deleting rows keeps the remaining quantities positive. */
  lemma FilterKeepsQuantitiesPositive(items: seq<CartItem>, keep: CartItem -> bool)
    requires QuantitiesPositive(items)
    ensures QuantitiesPositive(Filter(items, keep))
  {
    forall k | 0 <= k < |Filter(items, keep)| ensures Filter(items, keep)[k].quantity >= 1 {
      var j :| 0 <= j < |items| && items[j] == Filter(items, keep)[k];
    }
  }

  /** The keys of a user's carts, whatever their status. */
  function CartKeysOf(carts: seq<Cart>, user: UserId): set<CartKey>
  {
    set c | c in carts && c.owner == user :: c.key
  }

  /** What `Cart.objects.filter(client__user=user).delete()` leaves of the
      cart table. */
  function WithoutCartsOf(carts: seq<Cart>, user: UserId): seq<Cart>
  {
    Filter(carts, (c: Cart) => c.owner != user)
  }

  /** What the same delete, cascading to the items of the deleted carts,
      leaves of the item table. */
  function WithoutItemsOf(items: seq<CartItem>, gone: set<CartKey>): seq<CartItem>
  {
    Filter(items, (it: CartItem) => it.cart !in gone)
  }

  /** Deleting carts keeps at most one open cart per user and unique keys. */
  lemma {:induction false} FilterKeepsCartsConsistent(carts: seq<Cart>, keep: Cart -> bool)
    requires OneOpenCartEach(carts) && CartKeysUnique(carts)
    ensures OneOpenCartEach(Filter(carts, keep)) && CartKeysUnique(Filter(carts, keep))
  {
    if carts != [] {
      var n := |carts| - 1;
      var init, last := carts[..n], carts[n];
      assert carts == init + [last];
      assert OneOpenCartEach(init) && CartKeysUnique(init);
      FilterKeepsCartsConsistent(init, keep);
      var kept := Filter(init, keep);
      forall k | 0 <= k < |kept|
        ensures kept[k].key != last.key && !BothOpenForOneUser(kept[k], last)
      {
        var j :| 0 <= j < |init| && init[j] == kept[k];
        assert carts[j] == kept[k];
      }
      if keep(last) {
        assert Filter(carts, keep) == kept + [last];
        AppendKeepsCartsConsistent(kept, last);
      } else {
        assert Filter(carts, keep) == kept;
      }
    }
  }

  lemma AppendKeepsCartsConsistent(carts: seq<Cart>, last: Cart)
    requires OneOpenCartEach(carts) && CartKeysUnique(carts)
    requires forall k :: 0 <= k < |carts| ==> carts[k].key != last.key && !BothOpenForOneUser(carts[k], last)
    ensures OneOpenCartEach(carts + [last]) && CartKeysUnique(carts + [last])
  {
    var all := carts + [last];
    assert forall k :: 0 <= k < |carts| ==> all[k] == carts[k];
  }

  /** Deleting a user's carts leaves that user without an open cart and
      every other user with the open cart they had. */
  lemma OpenCartKeyWithoutCartsOf(carts: seq<Cart>, user: UserId, u: UserId)
    requires OneOpenCartEach(carts) && CartKeysUnique(carts)
    ensures OpenCartKey(WithoutCartsOf(carts, user), u) == if u == user then None else OpenCartKey(carts, u)
  {
    var kept := WithoutCartsOf(carts, user);
    FilterKeepsCartsConsistent(carts, (c: Cart) => c.owner != user);
    OpenCartKeyFindsOpenCart(carts, u);
    OpenCartKeyFindsOpenCart(kept, u);
    if i :| 0 <= i < |carts| && IsOpenCartOf(carts[i], u) && u != user {
      assert carts[i] in kept;
      var j :| 0 <= j < |kept| && kept[j] == carts[i];
      OpenCartIsTheOnlyOne(carts, u, i);
      OpenCartIsTheOnlyOne(kept, u, j);
    } else {
      forall j | 0 <= j < |kept| ensures !IsOpenCartOf(kept[j], u) {
        var i :| 0 <= i < |carts| && carts[i] == kept[j];
      }
    }
  }

  /** The cascade empties the deleted carts and leaves the others' contents
      as they were. */
  lemma {:induction false} BagWithoutItemsOf(items: seq<CartItem>, gone: set<CartKey>, c: CartKey)
    ensures Bag(WithoutItemsOf(items, gone), c) == if c in gone then map[] else Bag(items, c)
  {
    if items != [] {
      var n := |items| - 1;
      var init, last := items[..n], items[n];
      assert items == init + [last];
      BagWithoutItemsOf(init, gone, c);
      BagAfterAppend(init, last, c);
      var kept := WithoutItemsOf(init, gone);
      if last.cart !in gone {
        assert WithoutItemsOf(items, gone) == kept + [last];
        BagAfterAppend(kept, last, c);
      } else {
        assert WithoutItemsOf(items, gone) == kept;
      }
    }
  }

  /** A cart's contents after one more of `p` is put in: a product already
      there gains one, any other product arrives with quantity one. */
  function OneMore(m: map<ProductId, int>, p: ProductId): (r: map<ProductId, int>)
    ensures p in r && r[p] == (if p in m then m[p] + 1 else 1)
    ensures forall q :: q != p ==> (q in r <==> q in m)
    ensures forall q :: q != p && q in m ==> r[q] == m[q]
  {
    m[p := if p in m then m[p] + 1 else 1]
  }

  /** The `operation` field of a quantity change: "+" and "-" are the two
      operations the handler knows; every other value is ignored. */
  datatype Operation = Increment | Decrement | Ignored

  function OperationOf(operation: string): (op: Operation)
    ensures op == Increment <==> operation == "+"
    ensures op == Decrement <==> operation == "-"
  {
    if operation == "+" then Increment
    else if operation == "-" then Decrement
    else Ignored
  }

  /** A cart's contents after a quantity change of `p`, which is in the cart:
      an increment adds one, a decrement removes one or, at one, removes the
      product, and an ignored operation changes nothing. */
  function QuantityChanged(m: map<ProductId, int>, p: ProductId, op: Operation): (r: map<ProductId, int>)
    requires p in m
    ensures op == Increment ==> p in r && r[p] == m[p] + 1
    ensures op == Decrement && m[p] == 1 ==> p !in r
    ensures op == Decrement && m[p] != 1 ==> p in r && r[p] == m[p] - 1
    ensures op == Ignored ==> r == m
    ensures forall q :: q != p ==> (q in r <==> q in m)
    ensures forall q :: q != p && q in m ==> r[q] == m[q]
  {
    match op
    case Increment => m[p := m[p] + 1]
    case Decrement => if m[p] == 1 then m - {p} else m[p := m[p] - 1]
    case Ignored => m
  }

  /** Contents with positive quantities keep them under every quantity
      change: a decrement never leaves a product at zero. */
  lemma QuantityChangeKeepsPositive(m: map<ProductId, int>, p: ProductId, op: Operation)
    requires p in m && forall q :: q in m ==> m[q] >= 1
    ensures forall q :: q in QuantityChanged(m, p, op) ==> QuantityChanged(m, p, op)[q] >= 1
  {
  }

  /** A decrement undoes an increment of a product held at least once. */
  lemma DecrementUndoesIncrement(m: map<ProductId, int>, p: ProductId)
    requires p in m && m[p] >= 1
    ensures QuantityChanged(QuantityChanged(m, p, Increment), p, Decrement) == m
  {
  }

  /** `OrderView.post` places the open cart: status "2" and the order time. */
  function PlacedAt(c: Cart, now: int): (d: Cart)
    ensures StatusCode(d.status) == "2" && d.orderedAt == Some(now)
    ensures d.key == c.key && d.displayId == c.displayId && d.owner == c.owner
    ensures !IsOpenCartOf(d, c.owner)
  {
    c.(status := Placed, orderedAt := Some(now))
  }

  /** Placing a user's open cart leaves that user without an open cart and
      every other user with the open cart they had. */
  lemma OpenCartKeyAfterPlacing(carts: seq<Cart>, i: nat, now: int, u: UserId)
    requires OneOpenCartEach(carts) && i < |carts| && carts[i].status == Open
    ensures OpenCartKey(carts[i := PlacedAt(carts[i], now)], u)
         == if u == carts[i].owner then None else OpenCartKey(carts, u)
  {
    var placed := carts[i := PlacedAt(carts[i], now)];
    OpenCartKeyFindsOpenCart(carts, u);
    OpenCartKeyFindsOpenCart(placed, u);
    forall j | 0 <= j < |placed|
      ensures IsOpenCartOf(placed[j], u) <==> j != i && IsOpenCartOf(carts[j], u)
      ensures u == carts[i].owner ==> !IsOpenCartOf(placed[j], u)
    {
      if j != i {
        assert placed[j] == carts[j];
        if j < i {
          assert !BothOpenForOneUser(carts[j], carts[i]);
        } else {
          assert !BothOpenForOneUser(carts[i], carts[j]);
        }
      }
    }
    if u != carts[i].owner {
      if j :| 0 <= j < |carts| && IsOpenCartOf(carts[j], u) {
        assert OneOpenCartEach(placed) by {
          forall a, b | 0 <= a < b < |placed| ensures !BothOpenForOneUser(placed[a], placed[b]) {
            assert a != i ==> placed[a] == carts[a];
            assert b != i ==> placed[b] == carts[b];
          }
        }
        OpenCartIsTheOnlyOne(carts, u, j);
        OpenCartIsTheOnlyOne(placed, u, j);
      }
    }
  }

  /** The rows of a cart: `cart.cart_items.all()`. */
  function RowsOf(items: seq<CartItem>, cart: CartKey): seq<CartItem>
  {
    Filter(items, (it: CartItem) => it.cart == cart)
  }

  /** A cart without rows is exactly a cart with empty contents. */
  lemma NoRowsMeansEmpty(items: seq<CartItem>, cart: CartKey)
    ensures |RowsOf(items, cart)| == 0 <==> Bag(items, cart) == map[]
  {
    BagDomain(items, cart);
    if Bag(items, cart) != map[] {
      var p :| p in Bag(items, cart);
      var i :| 0 <= i < |items| && items[i].cart == cart && items[i].product == p;
      assert items[i] in RowsOf(items, cart);
    }
    if |RowsOf(items, cart)| != 0 {
      var it := RowsOf(items, cart)[0];
      var i :| 0 <= i < |items| && items[i] == it;
      assert it.product in Bag(items, cart);
    }
  }
}
