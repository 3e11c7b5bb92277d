/** The request validators (`RegistrationSerializer`, `ProfileUpdateSerializer`,
    `LoginSerializer`) and the response mappers of `mobile_api/serializers.py`.

    A validator yields the set of fields it rejects, as `serializer.errors`
    does (without the messages). Each `CharField` has the library's
    defaults: it is required, white space is stripped from both ends, the
    stripped value may not be blank or hold a NUL character, and the
    declared length bounds apply to the stripped value. Whether a string parses as an e-mail address or as a date is the
    library's business: it arrives here as a `FormatChecks` value. */
module Serializers {
  import opened Common
  import opened Models

  datatype Field = Email | Username | Name | PhoneNumber | Password | GenderChoice | Birthday

  const UsernameMaxLength := 320
  const NameMaxLength := 160
  const PhoneMaxLength := 20
  const PasswordMinLength := 8
  const PasswordMaxLength := 20

  /** A `CharField` value that, once stripped of white space, is not blank,
      holds no NUL character and is within its length bounds. */
  predicate CharFieldAccepts(value: string, minLength: nat, maxLength: nat)
  {
    var stripped := Trim(value);
    stripped != [] && !HasNul(stripped) && minLength <= |stripped| <= maxLength
  }

  /** The stored code of each gender choice. */
  function GenderCode(g: Gender): string
  {
    match g
    case Male => "M"
    case Female => "F"
  }

  /** The gender `ChoiceField`: only the codes "M" and "F" are accepted. */
  function ParseGender(code: string): Option<Gender>
  {
    if code == "M" then Some(Male)
    else if code == "F" then Some(Female)
    else None
  }

  /** Parsing and the stored code are inverse to each other. */
  lemma GenderCodesRoundTrip(g: Gender, code: string)
    ensures ParseGender(GenderCode(g)) == Some(g)
    ensures ParseGender(code).Some? ==> GenderCode(ParseGender(code).value) == code
  {
  }

  /** Outcome of the library's format parsing of the `EmailField` and the
      `DateField` of a form. */
  datatype FormatChecks = FormatChecks(emailParses: bool, birthdayParses: bool)

  /** The multipart form of a registration request. */
  datatype RegistrationForm = RegistrationForm(
    email: string,
    username: string,
    name: string,
    phoneNumber: string,
    password: string,
    gender: string,
    birthday: string,
    image: Option<Upload>)

  /** The multipart form of a profile update request. */
  datatype ProfileForm = ProfileForm(
    email: string,
    name: string,
    phoneNumber: string,
    gender: string,
    birthday: string,
    image: Option<Upload>)

  /** The query parameters of a login request. */
  datatype LoginForm = LoginForm(username: string, password: string)

  /** The error a field contributes: itself when its constraint fails. */
  function RejectUnless(accepted: bool, field: Field): (errors: set<Field>)
    ensures errors <= {field}
    ensures field in errors <==> !accepted
  {
    if accepted then {} else {field}
  }

  /** The fields of a registration form that a profile update also carries. */
  function ProfileFormOf(f: RegistrationForm): ProfileForm
  {
    ProfileForm(f.email, f.name, f.phoneNumber, f.gender, f.birthday, f.image)
  }

  /** `RegistrationSerializer`: the fields whose declared constraint fails. */
  function RegistrationErrors(f: RegistrationForm, formats: FormatChecks): (errors: set<Field>)
    ensures Email in errors <==> !formats.emailParses
    ensures Username in errors <==> !CharFieldAccepts(f.username, 0, UsernameMaxLength)
    ensures Name in errors <==> !CharFieldAccepts(f.name, 0, NameMaxLength)
    ensures PhoneNumber in errors <==> !CharFieldAccepts(f.phoneNumber, 0, PhoneMaxLength)
    ensures Password in errors <==> !CharFieldAccepts(f.password, PasswordMinLength, PasswordMaxLength)
    ensures GenderChoice in errors <==> f.gender != "M" && f.gender != "F"
    ensures Birthday in errors <==> !formats.birthdayParses
  {
    ProfileErrors(ProfileFormOf(f), formats) + LoginErrors(LoginForm(f.username, f.password))
  }

  /** `ProfileUpdateSerializer`: the fields whose declared constraint fails;
      it has no username or password. */
  function ProfileErrors(f: ProfileForm, formats: FormatChecks): (errors: set<Field>)
    ensures Username !in errors && Password !in errors
    ensures Email in errors <==> !formats.emailParses
    ensures Name in errors <==> !CharFieldAccepts(f.name, 0, NameMaxLength)
    ensures PhoneNumber in errors <==> !CharFieldAccepts(f.phoneNumber, 0, PhoneMaxLength)
    ensures GenderChoice in errors <==> f.gender != "M" && f.gender != "F"
    ensures Birthday in errors <==> !formats.birthdayParses
  {
    RejectUnless(formats.emailParses, Email)
    + RejectUnless(CharFieldAccepts(f.name, 0, NameMaxLength), Name)
    + RejectUnless(CharFieldAccepts(f.phoneNumber, 0, PhoneMaxLength), PhoneNumber)
    + RejectUnless(ParseGender(f.gender).Some?, GenderChoice)
    + RejectUnless(formats.birthdayParses, Birthday)
  }

  /** `LoginSerializer`: the fields whose declared constraint fails; only
      the username and the password are checked. */
  function LoginErrors(f: LoginForm): (errors: set<Field>)
    ensures errors <= {Username, Password}
    ensures Username in errors <==> !CharFieldAccepts(f.username, 0, UsernameMaxLength)
    ensures Password in errors <==> !CharFieldAccepts(f.password, PasswordMinLength, PasswordMaxLength)
  {
    RejectUnless(CharFieldAccepts(f.username, 0, UsernameMaxLength), Username)
    + RejectUnless(CharFieldAccepts(f.password, PasswordMinLength, PasswordMaxLength), Password)
  }

  lemma AcceptedRegistrationHasGender(f: RegistrationForm, formats: FormatChecks)
    requires RegistrationErrors(f, formats) == {}
    ensures ParseGender(f.gender).Some?
  {
    assert GenderChoice !in RegistrationErrors(f, formats);
  }

  /** The username and password of an accepted registration, with the
      username lower-cased as it is stored, pass the login validator. */
  lemma RegisteredCredentialsPassLogin(f: RegistrationForm, formats: FormatChecks)
    requires RegistrationErrors(f, formats) == {}
    ensures LoginErrors(LoginForm(Lower(f.username), f.password)) == {}
  {
    LowerCommutesWithTrim(f.username);
    LowerKeepsNul(Trim(f.username));
  }

  /** White space around a value does not count: a value padded on either
      end with white space is accepted exactly when the value itself is. */
  lemma WhiteSpaceDoesNotCount(value: string, pre: string, post: string, minLength: nat, maxLength: nat)
    requires forall k :: 0 <= k < |pre| ==> IsSpace(pre[k])
    requires forall k :: 0 <= k < |post| ==> IsSpace(post[k])
    ensures CharFieldAccepts(pre + value + post, minLength, maxLength) == CharFieldAccepts(value, minLength, maxLength)
  {
    TrimIgnoresPadding(pre, value, post);
  }

  /** A username of spaces only is blank, and a password padded with spaces
      to eight characters is too short. */
  lemma PaddedValuesAreRejected(f: RegistrationForm, formats: FormatChecks)
    ensures Username in RegistrationErrors(f.(username := "   "), formats)
    ensures Password in RegistrationErrors(f.(password := "       x"), formats)
  {
    var blank := "   ";
    assert forall k :: 0 <= k < |blank| ==> IsSpace(blank[k]);
    var x := "x";
    assert Trim(x) == x by {
      assert !IsSpace(x[0]);
    }
    var pre := "       ";
    assert forall k :: 0 <= k < |pre| ==> IsSpace(pre[k]);
    WhiteSpaceDoesNotCount(x, pre, [], PasswordMinLength, PasswordMaxLength);
    assert pre + x + [] == "       x";
  }

  /** `ProductSerializer` (the humanised expiry is left out). */
  datatype ProductView = ProductView(
    id: ProductId,
    name: string,
    price: Price,
    description: string,
    expireTime: int,
    image: Upload,
    shopName: string,
    shopAddress: string)

  /** The product a listing shows, given the category the listing leaves
      out. */
  function ProductFromView(v: ProductView, category: nat): Product
  {
    Product(v.id, v.name, v.price, v.description, v.expireTime, v.image, Shop(v.shopName, v.shopAddress), category)
  }

  /** The listing shows every column of the product but its category: the
      product is recovered from its view and its category. */
  function ProductViewOf(p: Product): (v: ProductView)
    ensures ProductFromView(v, p.category) == p
  {
    ProductView(p.id, p.name, p.price, p.description, p.expireTime, p.image, p.shop.name, p.shop.address)
  }

  /** The product part shared by `CartItemSerializer` and
      `ClientWishListSerializer`. */
  datatype LineView = LineView(
    productId: ProductId,
    productName: string,
    productPrice: Price,
    productDescription: string,
    productExpireTime: int,
    productImage: Upload,
    productShopName: string,
    productShopAddress: string)

  /** A line view shows the same product as the product listing does. */
  predicate ShowsSameProduct(v: LineView, pv: ProductView)
  {
    && v.productId == pv.id
    && v.productName == pv.name
    && v.productPrice == pv.price
    && v.productDescription == pv.description
    && v.productExpireTime == pv.expireTime
    && v.productImage == pv.image
    && v.productShopName == pv.shopName
    && v.productShopAddress == pv.shopAddress
  }

  /** The line mapping as the two serializers declare it: the shop address
      field is sourced from the shop's name. */
  function LineViewAsWritten(p: Product): (v: LineView)
    ensures v.productId == p.id
    ensures v.productShopAddress == p.shop.name
    ensures ShowsSameProduct(v, ProductViewOf(p).(shopAddress := p.shop.name))
    ensures ShowsSameProduct(v, ProductViewOf(p)) <==> p.shop.address == p.shop.name
  {
    LineView(p.id, p.name, p.price, p.description, p.expireTime, p.image, p.shop.name, p.shop.name)
  }

  /** A bakery whose name differs from its address gets its name shown as
      its address in carts and wishlists. */
  lemma AsWrittenLineShowsShopNameAsAddress()
    ensures exists p: Product :: !ShowsSameProduct(LineViewAsWritten(p), ProductViewOf(p))
  {
    var p := Product(1, "Bread", Price("2.50"), "", 0, Upload("bread.png"), Shop("Bakery", "Main Street 1"), 1);
    assert LineViewAsWritten(p).productShopAddress != ProductViewOf(p).shopAddress;
  }

  /** The line mapping with the shop address sourced from the shop's
      address, as the field's name and the product listing evidently
      intend; the listing handlers keep the mapping as declared. */
  function LineViewOf(p: Product): (v: LineView)
    ensures ShowsSameProduct(v, ProductViewOf(p))
  {
    LineView(p.id, p.name, p.price, p.description, p.expireTime, p.image, p.shop.name, p.shop.address)
  }

  /** `CartItemSerializer`: a product line with the item's quantity. */
  datatype CartLineView = CartLineView(line: LineView, quantity: int)

  /** `ProfileSerializer`. */
  datatype ProfileView = ProfileView(
    id: nat,
    name: string,
    username: string,
    email: string,
    phoneNumber: string,
    gender: string,
    birthday: string,
    image: Option<Upload>)

  /** The view shows the profile's key, the account's first name and the
      stored gender code, which parses back to the profile's gender. */
  function ProfileViewOf(a: Account, c: Client): (v: ProfileView)
    ensures v.id == c.key && v.name == a.firstName && v.username == a.username && v.email == a.email
    ensures ParseGender(v.gender) == Some(c.gender)
    ensures v.phoneNumber == c.phoneNumber && v.birthday == c.birthday && v.image == c.image
  {
    ProfileView(c.key, a.firstName, a.username, a.email, c.phoneNumber, GenderCode(c.gender), c.birthday, c.image)
  }
}
