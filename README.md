# FoodSaver mobile API: cart, wishlist, catalog and account handlers in Dafny

This project models the request handlers of FoodSaver's mobile API
(`mobile_api/views.py`) and the validators and response mappers they use
(`mobile_api/serializers.py`). It proves what those handlers promise.

The database is an in-memory `Store` class (`views.dfy`). It has one `seq`
field per table: users, client profiles, carts, cart items and wishlist
entries. The products and categories are fixed. Each handler that writes is a
method of `Store`. Its contract states the response and the new state of the
tables. Each handler that only reads is a function. `Store.Valid()` holds the
table invariants every handler keeps:

- unique user ids and usernames, and at most one profile per user;
- at most one open cart (status "1") per user, and unique cart keys;
- at most one item row per (cart, product), and every quantity at least one;
- every item row names an existing product.

A cart's contents are specified by `CartTables.Bag`, a map from product to
quantity. Each cart method states its effect on that map and states that
every other cart is unchanged.

Files:

- `common.dfy`: `Option`, first-match lookup (`.first()`), filtering, ASCII
  lower-casing, white-space stripping and `icontains`.
- `models.dfy`: the rows.
- `serializers.dfy`: the three validators as the set of rejected fields, and
  the product, cart-line, wishlist-line and profile mappings.
- `responses.dfy`: the responses. They are success, 400 with fields, 401 with
  codes 701-704, 404, and 500 for an unhandled exception.
- `accounts.dfy`: user lookups and the login check.
- `catalog.dfy`: product search and the home-screen filter.
- `cart_tables.dfy`: the cart invariants, the `Bag` abstraction and its
  lemmas.
- `views.dfy`: the `Store` and its handlers.

The model takes these values as parameters:

- the requester's user id;
- the clock, as `now` in seconds;
- the random cart display id;
- the token issued at registration;
- the library's e-mail and date parsing verdicts (`FormatChecks`);
- whether the database refuses a wishlist row.

## Model

| member | source | states |
|---|---|---|
| Common.Contains | mobile_api/views.py:127-128 | the substring test holds exactly when the text occurs at some position |
| Common.ContainsIgnoringCaseIgnoresCase | mobile_api/views.py:127-128 | `icontains` gives the same answer when either side is lower-cased first |
| Serializers.GenderCodesRoundTrip | mobile_api/serializers.py:7-17 | the gender choice accepts exactly "M" and "F", and parsing and the stored code are inverses |
| Common.TrimBlankExactlyWhenAllSpace | mobile_api/serializers.py:13-16 | the value a `CharField` validates is empty exactly when the input is all white space, and otherwise neither starts nor ends with white space |
| Common.TrimRemovesOnlyEnds | mobile_api/serializers.py:13-16 | stripping removes white space from the two ends and nothing else: the validated value is a slice of the input with only white space before and after it |
| Common.TrimIgnoresPadding | mobile_api/serializers.py:13-16 | white space added before and after a value does not change what it strips to |
| Common.HasNulFindsIt | mobile_api/serializers.py:13-16 | the NUL test a `CharField` applies holds exactly when the value contains a NUL character |
| Common.LowerKeepsNul | mobile_api/views.py:50 | lower-casing neither adds nor removes a NUL character |
| Common.LowerCommutesWithTrim | mobile_api/views.py:50 | lower-casing the username before or after stripping white space gives the same value |
| Serializers.RegistrationErrors | mobile_api/serializers.py:6-18 | the registration validator rejects each field exactly when its own constraint fails: the e-mail or the date does not parse, a stripped text field is blank, holds a NUL character or is out of its length bounds, or the gender is neither "M" nor "F" |
| Serializers.ProfileErrors | mobile_api/serializers.py:21-31 | the profile-update validator rejects each of its fields exactly when that field's constraint fails, and never rejects a username or password, which it does not have |
| Serializers.LoginErrors | mobile_api/serializers.py:34-36 | the login validator rejects only the username and the password, each exactly when its stripped value is blank, holds a NUL character or is out of its length bounds |
| Serializers.WhiteSpaceDoesNotCount | mobile_api/serializers.py:13-16 | for any value, any white-space padding and any length bounds, a `CharField` accepts the padded value exactly when it accepts the value itself |
| Serializers.PaddedValuesAreRejected | mobile_api/serializers.py:13-16 | a username of spaces only is rejected as blank, and a password padded with spaces to eight characters is rejected as too short |
| Serializers.RegisteredCredentialsPassLogin | mobile_api/serializers.py:13-16 | an accepted registration's username, lower-cased, and its password also pass the login validator |
| Serializers.ProductViewOf | mobile_api/serializers.py:56-66 | the product listing shows every column of the product but its category: the product is recovered from its view and its category |
| Serializers.LineViewAsWritten | mobile_api/serializers.py:92-100 | a cart or wishlist line, as declared, shows the product with that id, the shop's name in its address field, and every other field as the product listing does; so it shows the product as the listing does exactly when the shop's address equals its name |
| Serializers.ProfileViewOf | mobile_api/serializers.py:39-46 | the profile view shows the profile's key, the account's first name, username and e-mail, the profile's columns, and a gender code that parses back to the stored gender |
| Serializers.AsWrittenLineShowsShopNameAsAddress | mobile_api/serializers.py:100 | as declared, a cart or wishlist line can show a product differently from the product listing, because it shows the shop name as the address |
| Serializers.LineViewOf | mobile_api/serializers.py:92-100 | the corrected line mapping shows every product field exactly as the product listing does |
| Accounts.NewAccount | mobile_api/views.py:49-53 | the stored account has the given id, token and password and no first name; its username and e-mail are the form's, lower-cased, so they are already lower case, and the username keeps its length |
| Accounts.Login | mobile_api/views.py:21-34 | an invalid query gets its rejected fields; otherwise login succeeds exactly when some account has that exact username and password, and it answers with that account's token; a valid query that does not succeed gets 701 |
| Accounts.RegisteredUserCanLogIn | mobile_api/views.py:49-65 | after a registration, logging in with the lower-cased username and the password returns the token issued at registration |
| Accounts.MixedCaseUsernameIsRejected | mobile_api/views.py:24-25 | login does not lower-case: a username registered with capitals, typed the same way, gets 701 |
| Accounts.SecondRegistrationConflicts | mobile_api/views.py:41-45 | a username that differs from a registered one only in case is found by the duplicate check |
| Accounts.EmailChangeKeepsLogin | mobile_api/views.py:84-91 | changing an account's e-mail keeps the table's uniqueness and leaves every login answer unchanged |
| Catalog.ProductIndexFindsKeys | mobile_api/views.py:174 | `get_object_or_404` finds a product exactly when its id is a key of the catalog |
| Catalog.SearchProducts | mobile_api/views.py:121-133 | with a category id, the result is the unexpired products of that category; else with search text, the unexpired products whose name or shop name contains it ignoring case; else with an id, the products with that id, expired or not; else nothing |
| Catalog.CategoryIdTakesPrecedence | mobile_api/views.py:121-122 | with a category id, the search text and the id do not matter |
| Catalog.SearchTextTakesPrecedence | mobile_api/views.py:123-129 | without a category id, search text makes the id irrelevant |
| Catalog.OnlyIdLookupShowsExpired | mobile_api/views.py:130-131 | an expired product in a result means the query was a lookup by that product's id alone |
| Catalog.IdLookupFindsAtMostOne | mobile_api/views.py:131 | with unique product ids, a lookup by id returns at most one product |
| Catalog.RunningOut | mobile_api/views.py:104-106 | the home-screen products are exactly those expiring between now and 24 hours later, both ends included |
| Catalog.RunningOutIsSearchable | mobile_api/views.py:104-122 | every home-screen product is also found by a search of its category made at the same moment |
| CartTables.OpenCartKeyFindsOpenCart | mobile_api/views.py:192 | a user has an open cart key exactly when one of the user's carts has status "1", and the key is that cart's |
| CartTables.OpenCartKeyAfterAppend | mobile_api/views.py:193-198 | a new cart row changes no user's open cart, except that a user without one gets the new row when it is open and theirs |
| CartTables.OpenCartIsTheOnlyOne | mobile_api/views.py:192 | with at most one open cart per user, the lookup finds exactly the open cart there is |
| CartTables.BagDomain | mobile_api/views.py:170 | a product is in a cart's contents exactly when an item row of that cart names it, and with rows of quantity at least one every quantity in the contents is at least one |
| CartTables.ItemIndexMatchesBag | mobile_api/views.py:176-177 | the item lookup by product and cart finds a row exactly when the product is in the cart's contents |
| CartTables.BagOfUnusedCart | mobile_api/views.py:194-198 | a cart with no item rows, such as a newly created one, is empty |
| CartTables.BagAfterAppend | mobile_api/views.py:178-181 | a new item row puts its product, with its quantity, into its own cart's contents alone |
| CartTables.BagHoldsRow | mobile_api/views.py:176 | with one row per product and cart, each row's quantity is its product's quantity in that cart |
| CartTables.BagAfterSetQuantity | mobile_api/views.py:183-184 | saving a row's new quantity changes that product's quantity in that cart alone |
| CartTables.BagWithoutItem | mobile_api/views.py:228 | deleting a product's rows from a cart removes the product from that cart's contents alone |
| CartTables.RemovingRowIsWithoutItem | mobile_api/views.py:219 | with one row per product and cart, deleting a row is deleting that product from that cart |
| CartTables.FilterKeepsItemsUnique | mobile_api/views.py:228 | deleting item rows keeps at most one row per product and cart |
| CartTables.FilterKeepsCartsConsistent | mobile_api/views.py:188 | deleting carts keeps at most one open cart per user and unique keys |
| CartTables.OpenCartKeyWithoutCartsOf | mobile_api/views.py:188 | deleting a user's carts leaves that user with no open cart and every other user with the open cart they had |
| CartTables.BagWithoutItemsOf | mobile_api/views.py:188 | deleting carts empties the deleted carts and leaves every other cart's contents unchanged |
| CartTables.OneMore | mobile_api/views.py:176-184 | adding a product already in the cart raises its quantity by one, and any other product comes in with quantity one; every other product is unchanged |
| CartTables.OperationOf | mobile_api/views.py:214-217 | "+" is the increment, "-" the decrement, and every other value is ignored |
| CartTables.QuantityChanged | mobile_api/views.py:214-222 | "+" adds one; "-" removes one, or removes the product at quantity one; an ignored operation changes nothing; other products are unchanged |
| CartTables.QuantityChangeKeepsPositive | mobile_api/views.py:217-222 | no quantity change leaves a product at zero or below |
| CartTables.DecrementUndoesIncrement | mobile_api/views.py:214-222 | a "-" right after a "+" leaves a product held at least once as it was |
| CartTables.PlacedAt | mobile_api/views.py:252-254 | the placed cart has status code "2" and the order time, keeps its key, display id and owner, and is no longer its owner's open cart |
| CartTables.OpenCartKeyAfterPlacing | mobile_api/views.py:252-254 | placing a user's open cart leaves that user with no open cart and every other user with the open cart they had |
| CartTables.NoRowsMeansEmpty | mobile_api/views.py:248 | a cart has no item rows exactly when its contents are empty |
| Views.AddRowKeepsItemTable | mobile_api/views.py:178-181 | a new row for a product not yet in its cart keeps the item-table invariants |
| Views.SetQuantityKeepsItemTable | mobile_api/views.py:183-184 | saving a positive quantity keeps the item-table invariants |
| Views.FilterKeepsItemTable | mobile_api/views.py:228 | deleting item rows keeps the item-table invariants |
| Views.RemoveRowKeepsItemTable | mobile_api/views.py:219 | deleting one item row keeps the invariants and removes that product from its cart alone |
| Responses.Code | mobile_api/views.py:32-250 | the four error codes 701-704 are distinct: the error is read back from its code |
| Views.NewClient | mobile_api/views.py:54-60 | the stored profile belongs to the new user under the given key, stores the form's phone, birthday and image, and its gender's code is the one on the form |
| Views.UpdatedClient | mobile_api/views.py:85-90 | the updated profile keeps its key and user, takes the form's phone, birthday and gender code, and takes the image only when one is uploaded |
| Views.CartLines | mobile_api/views.py:170 | every line of the cart listing shows a catalog product as the cart-line serializer declares it |
| Views.CartLinesComeFromRows | mobile_api/views.py:170 | each line of the cart listing comes from an item row of that cart, with its quantity |
| Views.CartLinesShowQuantities | mobile_api/views.py:170 | each listed line shows a product of the cart with its quantity in the cart |
| Views.CartLinesListEveryProduct | mobile_api/views.py:170 | every product in the cart has a line in the listing |
| Views.CartLinesDistinct | mobile_api/views.py:170 | with one row per product and cart, no product is listed on two lines |
| Views.CartListingIsExact | mobile_api/views.py:170 | the listing shows each product of the cart once, with its quantity, and nothing else |
| Views.WishlistLines | mobile_api/views.py:144-145 | every wishlist line shows one of the requester's own entries, with its product as the wishlist serializer declares it |
| Views.WishlistLinesComplete | mobile_api/views.py:144-145 | every entry of the requester whose product exists is listed |
| Views.WithoutWishesFor | mobile_api/views.py:160 | the entries left are exactly those for other products, from every user |
| Views.ProductViewsShowEach | mobile_api/views.py:135 | the product listing has one view per product, and its views are exactly the views of the products |
| Views.AddAccountKeepsUnique | mobile_api/views.py:49-53 | an account with a fresh id and an unused username keeps ids and usernames unique |
| Views.AddClientKeepsUnique | mobile_api/views.py:54-60 | a profile for a user without one keeps at most one profile per user, and becomes that user's profile |
| Views.RegistrationKeepsProfileTables | mobile_api/views.py:49-60 | the account and profile a registration stores keep the user and profile invariants, and give the new user a profile |
| Views.ProfileUpdateKeepsProfileTables | mobile_api/views.py:83-92 | a profile update keeps the user and profile invariants |
| Views.Store.GetCart | mobile_api/views.py:191-199 | (also `CartModificationView.get_cart`, lines 231-239) returns the existing open cart and changes nothing; otherwise creates exactly one empty open cart owned by the requester; with no profile and no open cart it fails and changes nothing; every other user's open cart is unchanged and the invariants hold |
| Views.Store.CreateRow | mobile_api/views.py:178-181 | appends the row, which puts the product into its cart alone |
| Views.Store.SaveQuantity | mobile_api/views.py:183-184 | rewrites one row's quantity, which changes that product's quantity in that cart alone |
| Views.Store.DeleteRow | mobile_api/views.py:219 | deletes one row, which removes its product from its cart alone |
| Views.Store.PutOne | mobile_api/views.py:176-184 | the cart's contents become one more of the product; a row is added only for a product not yet in the cart; other carts are unchanged |
| Views.Store.AddToCart | mobile_api/views.py:173-185 | an unknown product gets 404 and changes nothing; otherwise the open cart is fetched or created, its contents get one more of the product, and every other cart is unchanged |
| Views.Store.ApplyOperation | mobile_api/views.py:209-222 | reports whether the product is in the cart; if it is, the contents change by the operation; if not, or if the operation is ignored, no row changes; other carts are unchanged |
| Views.Store.ChangeQuantity | mobile_api/views.py:206-223 | an unknown product gets 404; otherwise the open cart is fetched or created, even when the answer is then 703; a product not in it gets 703 and no row changes; otherwise the contents change by the operation and the answer is success |
| Views.Store.DeleteItems | mobile_api/views.py:228 | removes the product from the cart and leaves every other cart unchanged |
| Views.Store.RemoveFromCart | mobile_api/views.py:225-229 | an unknown product gets 404; otherwise the open cart is fetched or created and loses the product, whether or not it held it; other carts are unchanged |
| Views.Store.ClearCarts | mobile_api/views.py:187-189 | the requester's carts, open or placed, are deleted and emptied; every other user's carts, open carts and contents are unchanged |
| Views.Store.Checkout | mobile_api/views.py:246-259 | with no open cart, or an empty one, answers 704 and changes nothing, and no cart is created; otherwise the open cart gets status "2" and the order time, the requester has no open cart, and every other user's open cart is unchanged |
| Views.Store.ListCart | mobile_api/views.py:168-171 | fetches or creates the open cart, and lists exactly the cart's products, each once and with its quantity and shown as the cart-line serializer declares it, shop name in the address field included |
| Views.Store.Wishlist | mobile_api/views.py:143-146 | lists only the requester's entries, and every one of them whose product exists, each shown as the wishlist serializer declares it, shop name in the address field included |
| Views.Store.AddToWishlist | mobile_api/views.py:148-157 | an unknown product gets 404; otherwise the answer is success, at most one entry is added, and it is added exactly when the requester has a profile and the database accepts the row, after which the wishlist lists the product |
| Views.Store.RemoveFromWishlist | mobile_api/views.py:159-161 | removes every user's entries for the product and no others, so no wishlist lists it any more |
| Views.Store.AddAccount | mobile_api/views.py:49-60 | stores exactly one account and one profile under the next two keys, keeps the invariants, and gives the new user a profile |
| Views.Store.Register | mobile_api/views.py:40-67 | a username taken in lower case gets 702 before validation, and an invalid form gets its rejected fields, both changing nothing; otherwise one account and one profile are stored, with username and e-mail lower-cased, and the new user can log in with the issued token |
| Views.Store.UpdateProfile | mobile_api/views.py:80-96 | an invalid form gets its rejected fields and changes nothing; a requester without a profile gets 500; otherwise the e-mail is set as given, phone, gender and birthday are set, the image only when uploaded, the name is unchanged, the updated profile is the answer, and every login answer is unchanged |
| Views.Store.HomeScreen | mobile_api/views.py:103-113 | all categories, and exactly the views of the products expiring between now and 24 hours later |
| Views.Store.Products | mobile_api/views.py:120-136 | exactly the views of the products the search selects, one per product |

## Left out

- Password hashing: `check_password` is modelled as equality with the stored password.
- Token issuance: the token is a parameter of registration, and `Token.objects.get` is assumed to find it.
- Request authentication: the requester's user id is a parameter.
- `TokenAuthentication` is not modelled.
- E-mail and date parsing: a `FormatChecks` value gives the library's verdict.
- Required, stripped and non-blank fields: every `CharField` has the library's defaults. `Trim` strips the characters for which Python's `str.isspace` holds. Blankness, the NUL-character rule of `ProhibitNullCharactersValidator` and the length bounds are checked on the stripped value. The views store the raw request values, not the stripped ones, and so does the model.
- Missing fields: a field the request leaves out is an empty string, so `RegisterView` looks up "" where the source looks up `None`.
- `RegisterView`'s profile lookup (`ClientUser` by the found user): not modelled separately. Every profile belongs to an account, so it finds nothing when the user lookup finds nothing.
- Lower-casing: `Lower` lower-cases ASCII letters only; Python's `str.lower` also folds other scripts, and Django's `create_user` also applies NFKC normalisation to the username before storing it, which the model does not do.
- `naturaltime` fields, image URLs, and the `FloatField` price: outside the model. Images are opaque values, prices are opaque decimals, and ids are numbers rather than strings.
- The `order_data` field of `CartItemSerializer`: not modelled; the item model behind it is not part of this model.
- `CategorySerializer`: not modelled; categories are returned as stored.
- `ClientUserView.get`: not modelled; `ProfileViewOf` is only the answer of `UpdateProfile`.
- Non-numeric product ids in a request: not modelled; ids are natural numbers.
- Random cart display ids (`utils.generate_unique_string`): the display id is a parameter, and utils is not part of this model.
- Time (`datetime.now()`): a parameter in seconds. Time zones are not modelled.
- Deleting a cart deletes its item rows. This is assumed to be the foreign key's cascade; the models file is not part of this model.
- The quantity of a new item row is 1, the models file's default, which is not part of this model.
- Views.Store.AddToWishlist: the database's refusal of a row (a constraint violation, for instance) is the parameter `refused`, because the wishlist table's constraints are not part of this model. The model does not decide whether a duplicate entry is refused.
- Views.Store.AddToCart: the second `get_cart` call in `CartView.post` (views.py line 180) is not modelled separately. It runs right after the first, finds the cart the first one returned, and changes nothing.
- Concurrency: not modelled. Handlers run one at a time, and the get-or-create race is out of scope.
- Transactions: not modelled.
- The HTTP layer: status codes are the variants of `Response`, and error messages are left out.
- Table order: `.first()` returns the first matching row in table order, which stands for primary-key order.

## Findings

| source | as written | input that shows it | evidently intended | confidence | as-written member | corrected member |
|---|---|---|---|---|---|---|
| mobile_api/serializers.py:77 and mobile_api/serializers.py:100 | `product_shop_address` is sourced from `product.shop.name` | a product whose shop is named "Bakery" at address "Main Street 1": its cart and wishlist lines show "Bakery" as the address, while the product listing shows "Main Street 1" | source it from `product.shop.address`, as `ProductSerializer` does at line 58; the listing handlers in the model keep the mapping as declared, and the corrected mapping is stated beside it | not executed | Serializers.AsWrittenLineShowsShopNameAsAddress | Serializers.LineViewOf |
