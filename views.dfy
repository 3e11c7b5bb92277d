/** The request handlers of `mobile_api/views.py` over an in-memory store of
    the rows they read and write. Each handler is a method of `Store` (or a
    function, when it only reads); the authenticated requester is a user id,
    the clock is the parameter `now`, and the random cart display id and the
    token issued at registration are parameters too. */
module Views {
  import opened Common
  import opened Models
  import opened Serializers
  import opened Responses
  import opened Catalog
  import opened CartTables
  import opened Accounts

  /** A user has at most one profile. */
  predicate ClientsUnique(clients: seq<Client>)
  {
    forall i, j :: 0 <= i < j < |clients| ==> clients[i].user != clients[j].user
  }

  /** `request.user.client_user`: the requester's profile row. */
  function ClientIndex(clients: seq<Client>, user: UserId): Option<nat>
  {
    FindFirst(clients, (c: Client) => c.user == user)
  }

  /** The profile row a registration creates. */
  function NewClient(key: nat, user: UserId, f: RegistrationForm): (c: Client)
    requires ParseGender(f.gender).Some?
    ensures c.key == key && c.user == user
    ensures GenderCode(c.gender) == f.gender
    ensures c.phoneNumber == f.phoneNumber && c.birthday == f.birthday && c.image == f.image
  {
    Client(key, user, f.phoneNumber, ParseGender(f.gender).value, f.birthday, f.image)
  }

  /** A profile row after an accepted update: phone, gender and birthday are
      rewritten, the image only when one was uploaded. */
  function UpdatedClient(c: Client, f: ProfileForm): (u: Client)
    requires ParseGender(f.gender).Some?
    ensures u.key == c.key && u.user == c.user
    ensures GenderCode(u.gender) == f.gender
    ensures u.phoneNumber == f.phoneNumber && u.birthday == f.birthday
    ensures f.image.None? ==> u.image == c.image
    ensures f.image.Some? ==> u.image == f.image
  {
    c.(phoneNumber := f.phoneNumber, gender := ParseGender(f.gender).value, birthday := f.birthday,
       image := if f.image.Some? then f.image else c.image)
  }

  /** Every cart item refers to a product of the catalog. */
  predicate ItemsReferToProducts(items: seq<CartItem>, products: seq<Product>)
  {
    forall i :: 0 <= i < |items| ==> items[i].product in ProductIds(products)
  }

  /** The invariants of the cart item table: every row names a cart key
      below `bound` and an existing product, a cart has at most one row per
      product, and no quantity is below one. */
  predicate ItemTableValid(items: seq<CartItem>, products: seq<Product>, bound: nat)
  {
    && (forall i :: 0 <= i < |items| ==> items[i].cart < bound)
    && ItemsUnique(items)
    && QuantitiesPositive(items)
    && ItemsReferToProducts(items, products)
  }

  /** A new row for a product not yet in its cart keeps the invariants and
      adds the product to that cart alone. */
  lemma AddRowKeepsItemTable(items: seq<CartItem>, x: CartItem, products: seq<Product>, bound: nat)
    requires ItemTableValid(items, products, bound)
    requires x.cart < bound && x.quantity >= 1 && ProductIndex(products, x.product).Some?
    requires x.product !in Bag(items, x.cart)
    ensures ItemTableValid(items + [x], products, bound)
    ensures forall c :: Bag(items + [x], c) == if c == x.cart then Bag(items, c)[x.product := x.quantity] else Bag(items, c)
  {
    var added := items + [x];
    BagDomain(items, x.cart);
    forall i, j | 0 <= i < j < |added| ensures !SameSlot(added[i], added[j]) {
      if j == |items| {
        assert added[i] == items[i];
      } else {
        assert added[i] == items[i] && added[j] == items[j];
      }
    }
    forall c ensures Bag(added, c) == if c == x.cart then Bag(items, c)[x.product := x.quantity] else Bag(items, c) {
      BagAfterAppend(items, x, c);
    }
  }

  /** Rewriting a row's quantity to a positive one keeps the invariants and
      changes that product's quantity in that cart alone. */
  lemma SetQuantityKeepsItemTable(items: seq<CartItem>, i: nat, q: int, products: seq<Product>, bound: nat)
    requires ItemTableValid(items, products, bound) && i < |items| && q >= 1
    ensures ItemTableValid(items[i := items[i].(quantity := q)], products, bound)
    ensures forall c :: Bag(items[i := items[i].(quantity := q)], c)
                     == if c == items[i].cart then Bag(items, c)[items[i].product := q] else Bag(items, c)
  {
    var updated := items[i := items[i].(quantity := q)];
    assert forall j, k :: 0 <= j < k < |updated| ==> SameSlot(updated[j], updated[k]) == SameSlot(items[j], items[k]);
    forall c ensures Bag(updated, c) == if c == items[i].cart then Bag(items, c)[items[i].product := q] else Bag(items, c) {
      BagAfterSetQuantity(items, i, q, c);
    }
  }

  /** Deleting rows keeps the invariants. */
  lemma FilterKeepsItemTable(items: seq<CartItem>, keep: CartItem -> bool, products: seq<Product>, bound: nat)
    requires ItemTableValid(items, products, bound)
    ensures ItemTableValid(Filter(items, keep), products, bound)
  {
    var kept := Filter(items, keep);
    FilterKeepsItemsUnique(items, keep);
    FilterKeepsQuantitiesPositive(items, keep);
    forall k | 0 <= k < |kept| ensures kept[k].cart < bound && ProductIndex(products, kept[k].product).Some? {
      var j :| 0 <= j < |items| && items[j] == kept[k];
    }
  }

  /** Deleting one row is the delete by cart and product, keeps the
      invariants and drops that product from that cart alone. */
  lemma RemoveRowKeepsItemTable(items: seq<CartItem>, i: nat, products: seq<Product>, bound: nat)
    requires ItemTableValid(items, products, bound) && i < |items|
    ensures items[..i] + items[i + 1..] == WithoutItem(items, items[i].cart, items[i].product)
    ensures ItemTableValid(items[..i] + items[i + 1..], products, bound)
    ensures forall c :: Bag(items[..i] + items[i + 1..], c)
                     == if c == items[i].cart then Bag(items, c) - {items[i].product} else Bag(items, c)
  {
    RemovingRowIsWithoutItem(items, i);
    FilterKeepsItemTable(items, (it: CartItem) => !(it.cart == items[i].cart && it.product == items[i].product), products, bound);
    forall c ensures Bag(WithoutItem(items, items[i].cart, items[i].product), c)
                  == if c == items[i].cart then Bag(items, c) - {items[i].product} else Bag(items, c) {
      BagWithoutItem(items, items[i].cart, items[i].product, c);
    }
  }

  /** `CartItemSerializer(cart.cart_items.all(), many=True)`: one line per
      item row of the cart, in table order. */
  function CartLines(items: seq<CartItem>, cart: CartKey, products: seq<Product>): (r: seq<CartLineView>)
    ensures forall v :: v in r ==> exists k :: 0 <= k < |products| && v.line == LineViewAsWritten(products[k])
  {
    if items == [] then []
    else
      var n := |items| - 1;
      var init := CartLines(items[..n], cart, products);
      var it := items[n];
      if it.cart != cart then init
      else match ProductIndex(products, it.product)
        case None => init
        case Some(k) => init + [CartLineView(LineViewAsWritten(products[k]), it.quantity)]
  }

  /** Each line of the cart listing shows one of the cart's item rows. */
  lemma {:induction false} CartLinesComeFromRows(items: seq<CartItem>, cart: CartKey, products: seq<Product>, v: CartLineView)
    requires v in CartLines(items, cart, products)
    ensures exists i :: 0 <= i < |items| && items[i].cart == cart && items[i].product == v.line.productId
                        && items[i].quantity == v.quantity
  {
    var n := |items| - 1;
    var init, last := items[..n], items[n];
    var before := CartLines(init, cart, products);
    if v in before {
      CartLinesComeFromRows(init, cart, products, v);
      var i :| 0 <= i < n && init[i].cart == cart && init[i].product == v.line.productId
               && init[i].quantity == v.quantity;
      assert items[i] == init[i];
    } else {
      assert last.cart == cart;
      var k := ProductIndex(products, last.product).value;
      assert v == CartLineView(LineViewAsWritten(products[k]), last.quantity);
    }
  }

  /** The cart listing shows each product of the cart exactly once, with its
      quantity in the cart. */
  lemma CartListingIsExact(items: seq<CartItem>, cart: CartKey, products: seq<Product>)
    requires ItemsUnique(items) && ItemsReferToProducts(items, products)
    ensures var r := CartLines(items, cart, products);
      && (forall v :: v in r ==> v.line.productId in Bag(items, cart) && Bag(items, cart)[v.line.productId] == v.quantity)
      && (forall p :: p in Bag(items, cart) ==> exists v :: v in r && v.line.productId == p)
      && LinesDistinct(r)
  {
    var r := CartLines(items, cart, products);
    CartLinesShowQuantities(items, cart, products);
    CartLinesDistinct(items, cart, products);
    forall p | p in Bag(items, cart) ensures exists v :: v in r && v.line.productId == p {
      CartLinesListEveryProduct(items, cart, products, p);
    }
  }

  /** With one row per product and cart, no product is listed twice. */
  lemma {:induction false} CartLinesDistinct(items: seq<CartItem>, cart: CartKey, products: seq<Product>)
    requires ItemsUnique(items)
    ensures LinesDistinct(CartLines(items, cart, products))
  {
    if items != [] {
      var n := |items| - 1;
      var init, last := items[..n], items[n];
      ItemsUniqueWithoutLast(items);
      CartLinesDistinct(init, cart, products);
      var before := CartLines(init, cart, products);
      var r := CartLines(items, cart, products);
      if r != before {
        assert r == before + [r[|r| - 1]] && r[|r| - 1].line.productId == last.product;
        forall i | 0 <= i < |before| ensures before[i].line.productId != last.product {
          CartLinesComeFromRows(init, cart, products, before[i]);
          var m :| 0 <= m < n && init[m].cart == cart && init[m].product == before[i].line.productId
                   && init[m].quantity == before[i].quantity;
          assert init[m] == items[m] && !SameSlot(items[m], items[n]);
        }
        AppendedLineIsNew(before, r[|r| - 1]);
      }
    }
  }

  /** No product appears on two lines. */
  predicate LinesDistinct(lines: seq<CartLineView>)
  {
    forall i, j :: 0 <= i < j < |lines| ==> lines[i].line.productId != lines[j].line.productId
  }

  lemma AppendedLineIsNew(lines: seq<CartLineView>, v: CartLineView)
    requires LinesDistinct(lines)
    requires forall i :: 0 <= i < |lines| ==> lines[i].line.productId != v.line.productId
    ensures LinesDistinct(lines + [v])
  {
    var r := lines + [v];
    assert forall i :: 0 <= i < |lines| ==> r[i] == lines[i];
  }

  /** Each line of the cart listing carries its product's quantity in the
      cart. */
  lemma CartLinesShowQuantities(items: seq<CartItem>, cart: CartKey, products: seq<Product>)
    requires ItemsUnique(items)
    ensures forall v :: v in CartLines(items, cart, products) ==>
      v.line.productId in Bag(items, cart) && Bag(items, cart)[v.line.productId] == v.quantity
  {
    forall v | v in CartLines(items, cart, products)
      ensures v.line.productId in Bag(items, cart) && Bag(items, cart)[v.line.productId] == v.quantity
    {
      CartLinesComeFromRows(items, cart, products, v);
      var i :| 0 <= i < |items| && items[i].cart == cart && items[i].product == v.line.productId
               && items[i].quantity == v.quantity;
      BagHoldsRow(items, i);
    }
  }

  /** One more item row keeps the lines listed so far and, when the row
      belongs to the cart, lists its product last. */
  lemma CartLinesGrow(items: seq<CartItem>, cart: CartKey, products: seq<Product>)
    requires items != [] && ProductIndex(products, items[|items| - 1].product).Some?
    ensures forall v :: v in CartLines(items[..|items| - 1], cart, products) ==> v in CartLines(items, cart, products)
    ensures items[|items| - 1].cart == cart ==>
      var lines := CartLines(items, cart, products);
      lines != [] && lines[|lines| - 1].line.productId == items[|items| - 1].product
  {
  }

  lemma ItemsReferToProductsInit(items: seq<CartItem>, products: seq<Product>)
    requires items != [] && ItemsReferToProducts(items, products)
    ensures ItemsReferToProducts(items[..|items| - 1], products)
    ensures ProductIndex(products, items[|items| - 1].product).Some?
  {
    assert forall i :: 0 <= i < |items| - 1 ==> items[..|items| - 1][i] == items[i];
  }

  /** Every product in the cart has a line in the cart listing. */
  lemma {:induction false} CartLinesListEveryProduct(items: seq<CartItem>, cart: CartKey, products: seq<Product>, p: ProductId)
    requires ItemsReferToProducts(items, products) && p in Bag(items, cart)
    ensures exists v :: v in CartLines(items, cart, products) && v.line.productId == p
  {
    var n := |items| - 1;
    var init := items[..n];
    BagDomain(items, cart);
    var i :| 0 <= i < |items| && items[i].cart == cart && items[i].product == p;
    ItemsReferToProductsInit(items, products);
    CartLinesGrow(items, cart, products);
    var lines := CartLines(items, cart, products);
    if i == n {
      assert lines[|lines| - 1] in lines;
    } else {
      assert init[i] == items[i];
      BagDomain(init, cart);
      CartLinesListEveryProduct(init, cart, products, p);
      var v :| v in CartLines(init, cart, products) && v.line.productId == p;
      assert v in lines;
    }
  }

  /** `ClientWishListSerializer` over the requester's entries: one line per
      entry, in table order. */
  function WishlistLines(entries: seq<WishEntry>, user: UserId, products: seq<Product>): (r: seq<LineView>)
    ensures forall v :: v in r ==> WishEntry(user, v.productId) in entries
    ensures forall v :: v in r ==> exists k :: 0 <= k < |products| && v == LineViewAsWritten(products[k])
  {
    if entries == [] then []
    else
      var n := |entries| - 1;
      var init := WishlistLines(entries[..n], user, products);
      var e := entries[n];
      assert entries == entries[..n] + [e];
      if e.owner != user then init
      else match ProductIndex(products, e.product)
        case None => init
        case Some(k) => init + [LineViewAsWritten(products[k])]
  }

  /** Every entry of the requester whose product exists is listed. */
  lemma {:induction false} WishlistLinesComplete(entries: seq<WishEntry>, user: UserId, products: seq<Product>, p: ProductId)
    requires WishEntry(user, p) in entries && ProductIndex(products, p).Some?
    ensures exists v :: v in WishlistLines(entries, user, products) && v.productId == p
  {
    var n := |entries| - 1;
    var init := entries[..n];
    assert entries == init + [entries[n]];
    if entries[n] != WishEntry(user, p) {
      WishlistLinesComplete(init, user, products, p);
      var v :| v in WishlistLines(init, user, products) && v.productId == p;
      assert v in WishlistLines(entries, user, products);
    } else {
      var k := ProductIndex(products, p).value;
      assert WishlistLines(entries, user, products) == WishlistLines(init, user, products) + [LineViewAsWritten(products[k])];
    }
  }

  /** What `ClientWishList.objects.filter(product_id=product).delete()`
      leaves: the entries of every user for that product are gone. */
  function WithoutWishesFor(entries: seq<WishEntry>, product: ProductId): (r: seq<WishEntry>)
    ensures forall e :: e in r <==> e in entries && e.product != product
  {
    Filter(entries, (e: WishEntry) => e.product != product)
  }

  datatype HomeScreenView = HomeScreenView(categories: seq<Category>, runningOut: seq<ProductView>)

  /** `ProductSerializer(products, many=True)`. */
  function ProductViews(ps: seq<Product>): seq<ProductView>
  {
    seq(|ps|, i requires 0 <= i < |ps| => ProductViewOf(ps[i]))
  }

  /** The invariants of the user and profile tables: unique ids and
      usernames, at most one profile per user, every profile belongs to an
      account, and every key is below `bound`. */
  predicate ProfileTablesValid(users: seq<Account>, clients: seq<Client>, bound: nat)
  {
    && AccountsUnique(users)
    && (forall i :: 0 <= i < |users| ==> users[i].id < bound)
    && ClientsUnique(clients)
    && (forall i :: 0 <= i < |clients| ==> clients[i].key < bound && clients[i].user in UserIds(users))
  }

  /** The invariants of the cart table: unique keys below `bound`, and at
      most one open cart per user. */
  predicate CartTableValid(carts: seq<Cart>, bound: nat)
  {
    && (forall i :: 0 <= i < |carts| ==> carts[i].key < bound)
    && OneOpenCartEach(carts)
    && CartKeysUnique(carts)
  }

  /** Raising the key bound keeps the cart and item tables valid. */
  lemma RaisingBoundKeepsCartTables(carts: seq<Cart>, items: seq<CartItem>, products: seq<Product>, bound: nat, raised: nat)
    requires CartTableValid(carts, bound) && ItemTableValid(items, products, bound) && bound <= raised
    ensures CartTableValid(carts, raised) && ItemTableValid(items, products, raised)
  {
  }

  /** A new account with a fresh id and an unused username keeps ids and
      usernames unique, and adds its id to the table's ids. */
  lemma AddAccountKeepsUnique(users: seq<Account>, a: Account)
    requires AccountsUnique(users)
    requires forall i :: 0 <= i < |users| ==> users[i].id < a.id && users[i].username != a.username
    ensures AccountsUnique(users + [a])
    ensures UserIds(users + [a]) == UserIds(users) + {a.id}
  {
    var all := users + [a];
    assert forall i :: 0 <= i < |users| ==> all[i] == users[i];
    assert UserIds(all) == UserIds(users) + {a.id} by {
      forall u | u in UserIds(all) ensures u in UserIds(users) + {a.id} {
        var i :| 0 <= i < |all| && all[i].id == u;
        if i < |users| {
          assert users[i].id == u;
        }
      }
      forall u | u in UserIds(users) ensures u in UserIds(all) {
        var i :| 0 <= i < |users| && users[i].id == u;
        assert all[i].id == u;
      }
      assert all[|users|].id == a.id;
    }
  }

  /** A new profile for a user without one keeps profiles unique. */
  lemma AddClientKeepsUnique(clients: seq<Client>, c: Client, ids: set<UserId>)
    requires ClientsUnique(clients)
    requires forall i :: 0 <= i < |clients| ==> clients[i].user in ids
    requires c.user !in ids
    ensures ClientsUnique(clients + [c])
    ensures ClientIndex(clients + [c], c.user) == Some(|clients|)
  {
    var all := clients + [c];
    assert forall i :: 0 <= i < |clients| ==> all[i] == clients[i];
    assert ((x: Client) => x.user == c.user)(all[|clients|]);
  }

  /** A registration stores an account with the next key and a profile
      with the key after it, and keeps the user and profile tables valid. */
  lemma RegistrationKeepsProfileTables(users: seq<Account>, clients: seq<Client>, f: RegistrationForm, token: string, bound: nat)
    requires ProfileTablesValid(users, clients, bound)
    requires UsernameIndex(users, Lower(f.username)).None? && ParseGender(f.gender).Some?
    ensures ProfileTablesValid(users + [NewAccount(bound, f, token)], clients + [NewClient(bound + 1, bound, f)], bound + 2)
    ensures ClientIndex(clients + [NewClient(bound + 1, bound, f)], bound).Some?
  {
    var account := NewAccount(bound, f, token);
    var client := NewClient(bound + 1, bound, f);
    forall i | 0 <= i < |users| ensures users[i].id < bound && users[i].username != account.username {
      assert !((a: Account) => a.username == Lower(f.username))(users[i]);
    }
    AddAccountKeepsUnique(users, account);
    assert bound !in UserIds(users);
    AddClientKeepsUnique(clients, client, UserIds(users));
    var allClients := clients + [client];
    assert forall i :: 0 <= i < |clients| ==> allClients[i] == clients[i];
  }

  /** A profile update rewrites one account's e-mail and one profile's
      fields, and keeps the user and profile tables valid. */
  lemma ProfileUpdateKeepsProfileTables(users: seq<Account>, clients: seq<Client>, ui: nat, ci: nat, email: string, f: ProfileForm, bound: nat)
    requires ProfileTablesValid(users, clients, bound) && ui < |users| && ci < |clients| && ParseGender(f.gender).Some?
    ensures ProfileTablesValid(users[ui := users[ui].(email := email)], clients[ci := UpdatedClient(clients[ci], f)], bound)
  {
    var changed := users[ui := users[ui].(email := email)];
    var updated := clients[ci := UpdatedClient(clients[ci], f)];
    assert forall i :: 0 <= i < |users| ==> changed[i].id == users[i].id && changed[i].username == users[i].username;
    assert UserIds(changed) == UserIds(users) by {
      forall u | u in UserIds(users) ensures u in UserIds(changed) {
        var i :| 0 <= i < |users| && users[i].id == u;
        assert changed[i].id == u;
      }
    }
    assert forall i :: 0 <= i < |clients| ==> updated[i].user == clients[i].user && updated[i].key == clients[i].key;
  }

  /** The product listing shows one view per product listed, and nothing
      else. */
  lemma ProductViewsShowEach(ps: seq<Product>)
    ensures |ProductViews(ps)| == |ps|
    ensures forall pv :: pv in ProductViews(ps) <==> exists p :: p in ps && pv == ProductViewOf(p)
  {
    var views := ProductViews(ps);
    forall pv | pv in views ensures exists p :: p in ps && pv == ProductViewOf(p) {
      var i :| 0 <= i < |views| && views[i] == pv;
      assert ps[i] in ps;
    }
    forall p | p in ps ensures ProductViewOf(p) in views {
      var i :| 0 <= i < |ps| && ps[i] == p;
      assert views[i] == ProductViewOf(p);
    }
  }

  class Store {
    var users: seq<Account>
    var clients: seq<Client>
    const products: seq<Product>
    const categories: seq<Category>
    var carts: seq<Cart>
    var items: seq<CartItem>
    var wishlist: seq<WishEntry>
    /** The next unused primary key. */
    var nextKey: nat

    ghost predicate Valid()
      reads this
    {
      && ProfileTablesValid(users, clients, nextKey)
      && ProductIdsUnique(products)
      && CartTableValid(carts, nextKey)
      && ItemTableValid(items, products, nextKey)
    }

    constructor (products: seq<Product>, categories: seq<Category>)
      requires ProductIdsUnique(products)
      ensures Valid()
      ensures this.products == products && this.categories == categories
      ensures users == [] && clients == [] && carts == [] && items == [] && wishlist == []
    {
      this.products := products;
      this.categories := categories;
      users, clients, carts, items, wishlist := [], [], [], [], [];
      nextKey := 0;
    }

    /** The key of the requester's open cart, if any. */
    function OpenCart(user: UserId): Option<CartKey>
      reads this`carts
    {
      OpenCartKey(carts, user)
    }

    /** The contents of a cart. */
    function Contents(cart: CartKey): map<ProductId, int>
      reads this`items
    {
      Bag(items, cart)
    }

    predicate HasProduct(id: ProductId)
    {
      ProductIndex(products, id).Some?
    }

    predicate HasProfile(user: UserId)
      reads this`clients
    {
      ClientIndex(clients, user).Some?
    }

    /** `get_cart` of `CartView` and `CartModificationView`: the requester's
        open cart, created (empty, with the display id `displayId`) when
        there is none. Creating it dereferences the requester's profile,
        which fails when the user has none. */
    method GetCart(user: UserId, displayId: string) returns (cart: Option<CartKey>)
      requires Valid()
      modifies this
      ensures Valid()
      ensures users == old(users) && clients == old(clients) && items == old(items) && wishlist == old(wishlist)
      ensures old(OpenCart(user)).Some? ==> cart == old(OpenCart(user)) && carts == old(carts) && nextKey == old(nextKey)
      ensures old(OpenCart(user)).None? && !HasProfile(user) ==>
        cart.None? && unchanged(this)
      ensures old(OpenCart(user)).None? && HasProfile(user) ==>
        && cart == Some(old(nextKey))
        && carts == old(carts) + [Cart(old(nextKey), displayId, user, Open, None)]
        && nextKey == old(nextKey) + 1
        && Contents(old(nextKey)) == map[]
      ensures cart.Some? ==> OpenCart(user) == cart
      ensures forall u :: u != user ==> OpenCart(u) == old(OpenCart(u))
    {
      var found := OpenCartIndex(carts, user);
      if found.Some? {
        return Some(carts[found.value].key);
      }
      if ClientIndex(clients, user).None? {
        return None;
      }
      var key := nextKey;
      var created := Cart(key, displayId, user, Open, None);
      ghost var before := carts;
      assert forall i :: 0 <= i < |before| ==> !IsOpenCartOf(before[i], user);
      carts := carts + [created];
      nextKey := nextKey + 1;
      assert forall i :: 0 <= i < |before| ==> carts[i] == before[i];
      forall u ensures OpenCart(u) == if u == user then Some(key) else old(OpenCart(u)) {
        OpenCartKeyAfterAppend(before, created, u);
      }
      BagOfUnusedCart(items, key);
      cart := Some(key);
    }

    /** `CartItem.objects.create(...)`: a new row for a product not yet in
        its cart, which adds the product to that cart alone. */
    method CreateRow(x: CartItem)
      requires ItemTableValid(items, products, nextKey)
      requires x.cart < nextKey && x.quantity >= 1 && HasProduct(x.product) && x.product !in Bag(items, x.cart)
      modifies this`items
      ensures ItemTableValid(items, products, nextKey)
      ensures items == old(items) + [x]
      ensures Bag(items, x.cart) == Bag(old(items), x.cart)[x.product := x.quantity]
      ensures forall c :: c != x.cart ==> Bag(items, c) == Bag(old(items), c)
    {
      AddRowKeepsItemTable(items, x, products, nextKey);
      items := items + [x];
    }

    /** `order_item.quantity = q; order_item.save()` on row `i`: only that
        product's quantity in that row's cart changes. */
    method SaveQuantity(i: nat, q: int)
      requires ItemTableValid(items, products, nextKey) && i < |items| && q >= 1
      modifies this`items
      ensures ItemTableValid(items, products, nextKey)
      ensures items == old(items)[i := old(items)[i].(quantity := q)]
      ensures Bag(items, old(items)[i].cart) == Bag(old(items), old(items)[i].cart)[old(items)[i].product := q]
      ensures forall c :: c != old(items)[i].cart ==> Bag(items, c) == Bag(old(items), c)
    {
      SetQuantityKeepsItemTable(items, i, q, products, nextKey);
      items := items[i := items[i].(quantity := q)];
    }

    /** `order_item.delete()` on row `i`: that product leaves that row's
        cart and nothing else changes. */
    method DeleteRow(i: nat)
      requires ItemTableValid(items, products, nextKey) && i < |items|
      modifies this`items
      ensures ItemTableValid(items, products, nextKey)
      ensures items == old(items)[..i] + old(items)[i + 1..]
      ensures Bag(items, old(items)[i].cart) == Bag(old(items), old(items)[i].cart) - {old(items)[i].product}
      ensures forall c :: c != old(items)[i].cart ==> Bag(items, c) == Bag(old(items), c)
    {
      RemoveRowKeepsItemTable(items, i, products, nextKey);
      items := items[..i] + items[i + 1..];
    }

    /** The item part of `CartView.post` once the cart `k` is known: a
        product already in it gets its quantity raised by one and no new
        row, any other product gets a new row with quantity one. (The source
        fetches the cart a second time before creating the row; that fetch
        returns the same cart.) */
    method PutOne(k: CartKey, productId: ProductId)
      requires ItemTableValid(items, products, nextKey) && k < nextKey && HasProduct(productId)
      modifies this`items
      ensures ItemTableValid(items, products, nextKey)
      ensures Bag(items, k) == OneMore(Bag(old(items), k), productId)
      ensures |items| == |old(items)| + (if productId in Bag(old(items), k) then 0 else 1)
      ensures forall c :: c != k ==> Bag(items, c) == Bag(old(items), c)
    {
      var found := ItemIndex(items, k, productId);
      ItemIndexMatchesBag(items, k, productId);
      if found.None? {
        CreateRow(CartItem(k, productId, 1));
      } else {
        var i := found.value;
        assert items[i].cart == k && items[i].product == productId;
        BagHoldsRow(items, i);
        SaveQuantity(i, items[i].quantity + 1);
      }
    }

    /** `CartView.post`: put one more of a product into the requester's open
        cart, fetching or creating that cart first. An unknown product is
        not found and changes nothing. */
    method AddToCart(user: UserId, productId: ProductId, displayId: string) returns (r: Response<()>)
      requires Valid()
      modifies this
      ensures Valid()
      ensures users == old(users) && clients == old(clients) && wishlist == old(wishlist)
      ensures !HasProduct(productId) ==> r == NotFound && unchanged(this)
      ensures HasProduct(productId) && old(OpenCart(user)).None? && !HasProfile(user) ==>
        r == ServerError && unchanged(this)
      ensures HasProduct(productId) && (old(OpenCart(user)).Some? || HasProfile(user)) ==>
        && r == Done(())
        && OpenCart(user).Some?
        && (old(OpenCart(user)).Some? ==> OpenCart(user) == old(OpenCart(user)) && carts == old(carts))
        && (old(OpenCart(user)).None? ==> carts == old(carts) + [Cart(old(nextKey), displayId, user, Open, None)])
      ensures r == Done(()) && OpenCart(user).Some? ==>
        var k := OpenCart(user).value;
        && Contents(k) == OneMore(old(Contents(k)), productId)
        && |items| == |old(items)| + (if productId in old(Contents(k)) then 0 else 1)
        && forall c :: c != k ==> Contents(c) == old(Contents(c))
    {
      if ProductIndex(products, productId).None? {
        return NotFound;
      }
      var cart := GetCart(user, displayId);
      if cart.None? {
        return ServerError;
      }
      PutOne(cart.value, productId);
      r := Done(());
    }

    /** The item part of `CartModificationView.put` once the cart `k` is
        known. Returns whether the product had a row in the cart; only then
        does the operation apply: "+" raises the quantity by one, "-" lowers
        it by one or deletes the row at quantity one, anything else does
        nothing. */
    method ApplyOperation(k: CartKey, productId: ProductId, op: Operation) returns (present: bool)
      requires ItemTableValid(items, products, nextKey)
      modifies this`items
      ensures ItemTableValid(items, products, nextKey)
      ensures present <==> productId in Bag(old(items), k)
      ensures !present ==> items == old(items)
      ensures present ==> Bag(items, k) == QuantityChanged(Bag(old(items), k), productId, op)
      ensures op == Ignored ==> items == old(items)
      ensures forall c :: c != k ==> Bag(items, c) == Bag(old(items), c)
    {
      var found := ItemIndex(items, k, productId);
      ItemIndexMatchesBag(items, k, productId);
      if found.None? {
        return false;
      }
      var i := found.value;
      assert items[i].cart == k && items[i].product == productId;
      BagHoldsRow(items, i);
      var q := items[i].quantity;
      ghost var before := Bag(items, k);
      assert before[productId] == q;
      match op {
        case Increment =>
          SaveQuantity(i, q + 1);
          assert Bag(items, k) == before[productId := q + 1] == QuantityChanged(before, productId, op);
        case Decrement =>
          if q == 1 {
            DeleteRow(i);
            assert Bag(items, k) == before - {productId} == QuantityChanged(before, productId, op);
          } else {
            SaveQuantity(i, q - 1);
            assert Bag(items, k) == before[productId := q - 1] == QuantityChanged(before, productId, op);
          }
        case Ignored =>
      }
      present := true;
    }

    /** `CartModificationView.put`: change the quantity of a product in the
        requester's open cart, fetching or creating that cart first (so a
        cart is created even when the answer is 703). A product the cart
        does not hold is refused with 703 and no item changes. */
    method ChangeQuantity(user: UserId, productId: ProductId, operation: string, displayId: string)
      returns (r: Response<()>)
      requires Valid()
      modifies this
      ensures Valid()
      ensures users == old(users) && clients == old(clients) && wishlist == old(wishlist)
      ensures !HasProduct(productId) ==> r == NotFound && unchanged(this)
      ensures HasProduct(productId) && old(OpenCart(user)).None? && !HasProfile(user) ==>
        r == ServerError && unchanged(this)
      ensures HasProduct(productId) && (old(OpenCart(user)).Some? || HasProfile(user)) ==>
        && OpenCart(user).Some?
        && (old(OpenCart(user)).Some? ==> OpenCart(user) == old(OpenCart(user)) && carts == old(carts))
        && (old(OpenCart(user)).None? ==> carts == old(carts) + [Cart(old(nextKey), displayId, user, Open, None)])
        && var k := OpenCart(user).value;
           && (productId !in old(Contents(k)) ==> r == Rejected(NotInCart) && items == old(items))
           && (productId in old(Contents(k)) ==>
                 r == Done(()) && Contents(k) == QuantityChanged(old(Contents(k)), productId, OperationOf(operation)))
           && (OperationOf(operation) == Ignored ==> items == old(items))
           && forall c :: c != k ==> Contents(c) == old(Contents(c))
    {
      if ProductIndex(products, productId).None? {
        return NotFound;
      }
      var cart := GetCart(user, displayId);
      if cart.None? {
        return ServerError;
      }
      var present := ApplyOperation(cart.value, productId, OperationOf(operation));
      if !present {
        return Rejected(NotInCart);
      }
      r := Done(());
    }

    /** `CartItem.objects.filter(product=p, cart=k).delete()`: the product
        leaves cart `k` and nothing else changes. */
    method DeleteItems(k: CartKey, productId: ProductId)
      requires ItemTableValid(items, products, nextKey)
      modifies this`items
      ensures ItemTableValid(items, products, nextKey)
      ensures items == WithoutItem(old(items), k, productId)
      ensures Bag(items, k) == Bag(old(items), k) - {productId}
      ensures forall c :: c != k ==> Bag(items, c) == Bag(old(items), c)
    {
      FilterKeepsItemTable(items, (it: CartItem) => !(it.cart == k && it.product == productId), products, nextKey);
      forall c ensures Bag(WithoutItem(items, k, productId), c) == if c == k then Bag(items, c) - {productId} else Bag(items, c) {
        BagWithoutItem(items, k, productId, c);
      }
      items := WithoutItem(items, k, productId);
    }

    /** `CartModificationView.delete`: take a product out of the requester's
        open cart, fetching or creating that cart first. A product the cart
        does not hold is no error. */
    method RemoveFromCart(user: UserId, productId: ProductId, displayId: string) returns (r: Response<()>)
      requires Valid()
      modifies this
      ensures Valid()
      ensures users == old(users) && clients == old(clients) && wishlist == old(wishlist)
      ensures !HasProduct(productId) ==> r == NotFound && unchanged(this)
      ensures HasProduct(productId) && old(OpenCart(user)).None? && !HasProfile(user) ==>
        r == ServerError && unchanged(this)
      ensures HasProduct(productId) && (old(OpenCart(user)).Some? || HasProfile(user)) ==>
        && r == Done(())
        && OpenCart(user).Some?
        && (old(OpenCart(user)).Some? ==> OpenCart(user) == old(OpenCart(user)) && carts == old(carts))
        && (old(OpenCart(user)).None? ==> carts == old(carts) + [Cart(old(nextKey), displayId, user, Open, None)])
        && var k := OpenCart(user).value;
           && Contents(k) == old(Contents(k)) - {productId}
           && forall c :: c != k ==> Contents(c) == old(Contents(c))
    {
      if ProductIndex(products, productId).None? {
        return NotFound;
      }
      var cart := GetCart(user, displayId);
      if cart.None? {
        return ServerError;
      }
      DeleteItems(cart.value, productId);
      r := Done(());
    }

    /** `CartView.delete`: every cart of the requester, open or placed, is
        deleted together with its items; nobody else's carts change. */
    method ClearCarts(user: UserId) returns (r: Response<()>)
      requires Valid()
      modifies this`carts, this`items
      ensures Valid()
      ensures r == Done(())
      ensures carts == WithoutCartsOf(old(carts), user)
      ensures forall c :: c in carts <==> c in old(carts) && c.owner != user
      ensures OpenCart(user).None?
      ensures forall u :: u != user ==> OpenCart(u) == old(OpenCart(u))
      ensures forall k :: k in CartKeysOf(old(carts), user) ==> Contents(k) == map[]
      ensures forall k :: k !in CartKeysOf(old(carts), user) ==> Contents(k) == old(Contents(k))
    {
      var gone := CartKeysOf(carts, user);
      ghost var before, beforeItems := carts, items;
      FilterKeepsCartsConsistent(carts, (c: Cart) => c.owner != user);
      FilterKeepsItemTable(items, (it: CartItem) => it.cart !in gone, products, nextKey);
      carts := WithoutCartsOf(carts, user);
      items := WithoutItemsOf(items, gone);
      forall c ensures c in carts <==> c in before && c.owner != user {
        if c in carts {
          var i :| 0 <= i < |carts| && carts[i] == c;
        }
        if c in before && c.owner != user {
          var i :| 0 <= i < |before| && before[i] == c;
        }
      }
      forall u ensures OpenCart(u) == if u == user then None else OpenCartKey(before, u) {
        OpenCartKeyWithoutCartsOf(before, user, u);
      }
      forall k ensures Contents(k) == if k in gone then map[] else Bag(beforeItems, k) {
        BagWithoutItemsOf(beforeItems, gone, k);
      }
      r := Done(());
    }

    /** `OrderView.post`: place the requester's open cart, stamped with the
        time `now`. Without an open cart, or with one holding no items, the
        answer is 704 and nothing changes; the order never creates a cart. */
    method Checkout(user: UserId, now: int) returns (r: Response<()>)
      requires Valid()
      modifies this`carts
      ensures Valid()
      ensures old(OpenCart(user)).None? ==> r == Rejected(EmptyCart) && carts == old(carts)
      ensures old(OpenCart(user)).Some? && Contents(old(OpenCart(user)).value) == map[] ==>
        r == Rejected(EmptyCart) && carts == old(carts)
      ensures old(OpenCart(user)).Some? && Contents(old(OpenCart(user)).value) != map[] ==>
        && r == Done(())
        && OpenCart(user).None?
        && var i := OpenCartIndex(old(carts), user).value;
           carts == old(carts)[i := PlacedAt(old(carts)[i], now)]
      ensures forall u :: u != user ==> OpenCart(u) == old(OpenCart(u))
    {
      var found := OpenCartIndex(carts, user);
      if found.None? {
        return Rejected(EmptyCart);
      }
      var i := found.value;
      NoRowsMeansEmpty(items, carts[i].key);
      if |RowsOf(items, carts[i].key)| == 0 {
        return Rejected(EmptyCart);
      }
      ghost var before := carts;
      carts := carts[i := PlacedAt(carts[i], now)];
      forall u ensures OpenCart(u) == if u == before[i].owner then None else OpenCartKey(before, u) {
        OpenCartKeyAfterPlacing(before, i, now, u);
      }
      assert OneOpenCartEach(carts) by {
        forall a, b | 0 <= a < b < |carts| ensures !BothOpenForOneUser(carts[a], carts[b]) {
          assert a != i ==> carts[a] == before[a];
          assert b != i ==> carts[b] == before[b];
        }
      }
      r := Done(());
    }

    /** `CartView.get`: list the requester's open cart, fetching or creating
        it first: one line per item row, showing its product and quantity. */
    method ListCart(user: UserId, displayId: string) returns (r: Response<seq<CartLineView>>)
      requires Valid()
      modifies this
      ensures Valid()
      ensures users == old(users) && clients == old(clients) && items == old(items) && wishlist == old(wishlist)
      ensures old(OpenCart(user)).None? && !HasProfile(user) ==> r == ServerError && unchanged(this)
      ensures old(OpenCart(user)).Some? || HasProfile(user) ==>
        && r.Done?
        && OpenCart(user).Some?
        && (old(OpenCart(user)).Some? ==> OpenCart(user) == old(OpenCart(user)) && carts == old(carts))
        && (old(OpenCart(user)).None? ==> carts == old(carts) + [Cart(old(nextKey), displayId, user, Open, None)])
        && var k := OpenCart(user).value;
           && (forall v :: v in r.body ==> exists j :: 0 <= j < |products| && v.line == LineViewAsWritten(products[j]))
           && LinesDistinct(r.body)
           && (forall v :: v in r.body ==> v.line.productId in Contents(k) && Contents(k)[v.line.productId] == v.quantity)
           && (forall p :: p in Contents(k) ==> exists v :: v in r.body && v.line.productId == p)
    {
      var cart := GetCart(user, displayId);
      if cart.None? {
        return ServerError;
      }
      var k := cart.value;
      var lines := CartLines(items, k, products);
      CartListingIsExact(items, k, products);
      r := Done(lines);
    }

    /** `WishListView.get`: the requester's wish-list, one line per entry. */
    function Wishlist(user: UserId): (r: seq<LineView>)
      reads this`wishlist
      ensures forall v :: v in r ==> WishEntry(user, v.productId) in wishlist
      ensures forall v :: v in r ==> exists k :: 0 <= k < |products| && v == LineViewAsWritten(products[k])
      ensures forall p :: WishEntry(user, p) in wishlist && HasProduct(p) ==> exists v :: v in r && v.productId == p
    {
      assert forall p :: WishEntry(user, p) in wishlist && HasProduct(p) ==>
          exists v :: v in WishlistLines(wishlist, user, products) && v.productId == p by {
        forall p | WishEntry(user, p) in wishlist && HasProduct(p)
          ensures exists v :: v in WishlistLines(wishlist, user, products) && v.productId == p
        {
          WishlistLinesComplete(wishlist, user, products, p);
        }
      }
      WishlistLines(wishlist, user, products)
    }

    /** `WishListView.post`: an unknown product is not found; otherwise the
        answer is 204 whether or not the entry is stored. Creating the entry
        dereferences the requester's profile, and the database may refuse
        the row (`refused`); both failures are swallowed. */
    method AddToWishlist(user: UserId, productId: ProductId, refused: bool) returns (r: Response<()>)
      requires Valid()
      modifies this`wishlist
      ensures Valid()
      ensures !HasProduct(productId) ==> r == NotFound && wishlist == old(wishlist)
      ensures HasProduct(productId) ==> r == Done(())
      ensures HasProduct(productId) && HasProfile(user) && !refused ==>
        wishlist == old(wishlist) + [WishEntry(user, productId)]
      ensures !(HasProfile(user) && !refused) ==> wishlist == old(wishlist)
      ensures r.Done? && HasProfile(user) && !refused ==>
        exists v :: v in Wishlist(user) && v.productId == productId
    {
      if ProductIndex(products, productId).None? {
        return NotFound;
      }
      if ClientIndex(clients, user).Some? && !refused {
        wishlist := wishlist + [WishEntry(user, productId)];
        assert WishEntry(user, productId) in wishlist;
        ghost var listed := Wishlist(user);
      }
      r := Done(());
    }

    /** `WishListView.delete`: removes the entries for the product from
        every user's wish-list, not only the requester's. */
    method RemoveFromWishlist(productId: ProductId) returns (r: Response<()>)
      requires Valid()
      modifies this`wishlist
      ensures Valid()
      ensures r == Done(())
      ensures wishlist == WithoutWishesFor(old(wishlist), productId)
      ensures forall e :: e in wishlist <==> e in old(wishlist) && e.product != productId
      ensures forall u, v :: v in Wishlist(u) ==> v.productId != productId
    {
      wishlist := WithoutWishesFor(wishlist, productId);
      r := Done(());
    }

    /** `RegisterView.post`: a username taken in lower case is refused with
        702 before the form is validated; an invalid form is refused with
        the failing fields; otherwise an account (username and e-mail
        lower-cased) and its profile are stored, and the account's token is
        the answer. */
    method Register(f: RegistrationForm, formats: FormatChecks, token: string) returns (r: Response<string>)
      requires Valid()
      modifies this`users, this`clients, this`nextKey
      ensures Valid()
      ensures UsernameIndex(old(users), Lower(f.username)).Some? ==>
        r == Rejected(UserExists) && users == old(users) && clients == old(clients) && nextKey == old(nextKey)
      ensures UsernameIndex(old(users), Lower(f.username)).None? && RegistrationErrors(f, formats) != {} ==>
        r == Invalid(RegistrationErrors(f, formats)) && users == old(users) && clients == old(clients) && nextKey == old(nextKey)
      ensures UsernameIndex(old(users), Lower(f.username)).None? && RegistrationErrors(f, formats) == {} ==>
        && r == Done(token)
        && users == old(users) + [NewAccount(old(nextKey), f, token)]
        && clients == old(clients) + [NewClient(old(nextKey) + 1, old(nextKey), f)]
        && nextKey == old(nextKey) + 2
      ensures r.Done? ==> Login(users, LoginForm(Lower(f.username), f.password)) == Done(token)
      ensures r.Done? ==> HasProfile(old(nextKey))
    {
      if UsernameIndex(users, Lower(f.username)).Some? {
        return Rejected(UserExists);
      }
      var errors := RegistrationErrors(f, formats);
      if errors != {} {
        return Invalid(errors);
      }
      AcceptedRegistrationHasGender(f, formats);
      ghost var before := users;
      AddAccount(f, token);
      RegisteredUserCanLogIn(before, f, formats, old(nextKey), token);
      r := Done(token);
    }

    /** The writes of an accepted registration: the account and its
        profile, under the next two keys. */
    method AddAccount(f: RegistrationForm, token: string)
      requires Valid()
      requires UsernameIndex(users, Lower(f.username)).None? && ParseGender(f.gender).Some?
      modifies this`users, this`clients, this`nextKey
      ensures Valid()
      ensures users == old(users) + [NewAccount(old(nextKey), f, token)]
      ensures clients == old(clients) + [NewClient(old(nextKey) + 1, old(nextKey), f)]
      ensures nextKey == old(nextKey) + 2
      ensures HasProfile(old(nextKey))
    {
      var id := nextKey;
      RegistrationKeepsProfileTables(users, clients, f, token, id);
      RaisingBoundKeepsCartTables(carts, items, products, id, id + 2);
      users := users + [NewAccount(id, f, token)];
      clients := clients + [NewClient(id + 1, id, f)];
      nextKey := nextKey + 2;
    }

    /** `ClientUserView.put`: an invalid form is refused with the failing
        fields. Otherwise the account's e-mail is set as given (not
        lower-cased), the profile's phone, gender and birthday are set, the
        image only when one is uploaded, and the updated profile is the
        answer; the name on the form is not stored. A requester without a
        profile makes the handler fail. */
    method UpdateProfile(user: UserId, f: ProfileForm, formats: FormatChecks) returns (r: Response<ProfileView>)
      requires Valid()
      modifies this`users, this`clients
      ensures Valid()
      ensures ProfileErrors(f, formats) != {} ==>
        r == Invalid(ProfileErrors(f, formats)) && users == old(users) && clients == old(clients)
      ensures ProfileErrors(f, formats) == {} && !old(HasProfile(user)) ==>
        r == ServerError && users == old(users) && clients == old(clients)
      ensures ProfileErrors(f, formats) == {} && old(HasProfile(user)) ==>
        && UserIndex(old(users), user).Some?
        && var ui := UserIndex(old(users), user).value;
           var ci := ClientIndex(old(clients), user).value;
           && users == old(users)[ui := old(users)[ui].(email := f.email)]
           && clients == old(clients)[ci := UpdatedClient(old(clients)[ci], f)]
           && r == Done(ProfileViewOf(users[ui], clients[ci]))
           && r.body.name == old(users)[ui].firstName
      ensures forall g :: Login(users, g) == old(Login(users, g))
    {
      var errors := ProfileErrors(f, formats);
      if errors != {} {
        return Invalid(errors);
      }
      var found := ClientIndex(clients, user);
      if found.None? {
        return ServerError;
      }
      var ci := found.value;
      assert clients[ci].user == user && user in UserIds(users);
      UserIndexFindsIds(users, user);
      var ui := UserIndex(users, user).value;
      assert GenderChoice !in errors;
      ghost var oldUsers := users;
      ProfileUpdateKeepsProfileTables(users, clients, ui, ci, f.email, f, nextKey);
      users := users[ui := users[ui].(email := f.email)];
      clients := clients[ci := UpdatedClient(clients[ci], f)];
      forall g ensures Login(users, g) == Login(oldUsers, g) {
        EmailChangeKeepsLogin(oldUsers, ui, f.email, g);
      }
      r := Done(ProfileViewOf(users[ui], clients[ci]));
    }

    /** `HomeScreenView.get`: all categories, and the products expiring
        between `now` and a day later. */
    function HomeScreen(now: int): (v: HomeScreenView)
      ensures v.categories == categories
      ensures forall pv :: pv in v.runningOut <==>
        exists p :: p in products && now <= p.expireTime <= now + Day && pv == ProductViewOf(p)
    {
      ProductViewsShowEach(RunningOut(products, now));
      HomeScreenView(categories, ProductViews(RunningOut(products, now)))
    }

    /** `ProductView.get`: the views of the products the query selects. */
    function Products(q: ProductQuery, now: int): (r: seq<ProductView>)
      ensures |r| == |SearchProducts(products, q, now)|
      ensures forall pv :: pv in r <==> exists p :: p in SearchProducts(products, q, now) && pv == ProductViewOf(p)
    {
      ProductViewsShowEach(SearchProducts(products, q, now));
      ProductViews(SearchProducts(products, q, now))
    }
  }
}
