/** The rows the mobile API reads and writes. The Django models themselves are
    not part of this model; these records carry exactly the columns that the
    views and serializers touch. */
module Models {
  import opened Common

  type UserId = nat
  type ProductId = nat
  type CartKey = nat

  /** An uploaded image file; storage and its URL are external. */
  datatype Upload = Upload(name: string)

  /** A product price as stored; no arithmetic is done on it here. */
  datatype Price = Price(decimal: string)

  /** The two gender choices, stored as the codes "M" and "F". */
  datatype Gender = Male | Female

  /** A row of the authentication user table, with the token issued for it.
      `password` stands for the stored credential: `check_password(p)` holds
      exactly when `p` is the password the account was created with. */
  datatype Account = Account(
    id: UserId,
    username: string,
    email: string,
    firstName: string,
    password: string,
    token: string)

  /** A `ClientUser` profile row, one per user. */
  datatype Client = Client(
    key: nat,
    user: UserId,
    phoneNumber: string,
    gender: Gender,
    birthday: string,
    image: Option<Upload>)

  datatype Shop = Shop(name: string, address: string)

  datatype Category = Category(id: nat, name: string, image: Upload)

  /** A product; `expireTime` is a timestamp in seconds. */
  datatype Product = Product(
    id: ProductId,
    name: string,
    price: Price,
    description: string,
    expireTime: int,
    image: Upload,
    shop: Shop,
    category: nat)

  /** Cart status: "1" while the user is still ordering, "2" once placed. */
  datatype CartStatus = Open | Placed

  /** The stored status code; only a placed cart has code "2". */
  function StatusCode(s: CartStatus): (code: string)
    ensures code == "2" <==> s == Placed
  {
    match s
    case Open => "1"
    case Placed => "2"
  }

  /** A cart row: primary key, the random display id `cart_ID`, the owning
      user (through its client profile), status and order timestamp. */
  datatype Cart = Cart(
    key: CartKey,
    displayId: string,
    owner: UserId,
    status: CartStatus,
    orderedAt: Option<int>)

  datatype CartItem = CartItem(cart: CartKey, product: ProductId, quantity: int)

  datatype WishEntry = WishEntry(owner: UserId, product: ProductId)
}
