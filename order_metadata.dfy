/**
 * Models/OrderMetadata.cs: the checkout form. Its field attributes (required,
 * pattern, minimum length) and its own `Validate` rules for a separate billing
 * address and for the password of an account created at checkout.
 */
module Checkout {
  import opened Wrappers
  import opened Text

  datatype OrderMetadata = OrderMetadata(
    name: string,
    email: string,
    phoneNumber: string,
    address: string,
    city: string,
    zip: string,
    billingSameAsShipping: bool,
    billingZip: string,
    billingCity: string,
    billingAddress: string,
    shippingMethod: string,
    paymentMethod: string,
    createAccount: bool,
    password: Option<string>)

  /** The form as it starts out. */
  function EmptyForm(): (m: OrderMetadata)
    ensures m.billingSameAsShipping && !m.createAccount && m.password == Some("")
    ensures m.shippingMethod == "Házhozszállítás" && m.paymentMethod == "Bankkártya"
  {
    OrderMetadata("", "", "", "", "", "", true, "", "", "", "Házhozszállítás", "Bankkártya", false, Some(""))
  }

  /** The members a validation result names, in declaration order. */
  datatype Field =
    | Name | Email | PhoneNumber | Address | City | Zip
    | BillingZip | BillingCity | BillingAddress | Password

  function Rank(f: Field): nat {
    match f
    case Name => 0 case Email => 1 case PhoneNumber => 2 case Address => 3
    case City => 4 case Zip => 5 case BillingZip => 6 case BillingCity => 7
    case BillingAddress => 8 case Password => 9
  }

  // ---------------------------------------------------------------------------
  // Patterns, as character predicates
  // ---------------------------------------------------------------------------

  predicate FourDigits(s: string) {
    |s| == 4 && forall i :: 0 <= i < 4 ==> IsAsciiDigit(s[i])
  }

  /** `Regex.IsMatch(s, "^[0-9]{4}$")`: `$` also matches just before a final
      line feed, so four digits followed by "\n" match as well. */
  predicate ZipIsMatch(s: string) {
    FourDigits(s) || (|s| == 5 && FourDigits(s[..4]) && s[4] == '\n')
  }

  /** The letters of the name pattern: ASCII letters and the Hungarian
      accented vowels in both cases. */
  predicate IsNameLetter(c: char) {
    IsAsciiLower(c) || IsAsciiUpper(c) ||
    c in {'á', 'é', 'í', 'ó', 'ö', 'ő', 'ú', 'ü', 'ű', 'Á', 'É', 'Í', 'Ó', 'Ö', 'Ő', 'Ú', 'Ü', 'Ű'}
  }

  predicate IsNameChar(c: char) {
    IsNameLetter(c) || IsWhiteSpace(c) || c == '-'
  }

  predicate IsPhoneChar(c: char) {
    IsAsciiDigit(c) || IsWhiteSpace(c)
  }

  /** `^(\+?[0-9\s]{7,18})$` matched against the whole value. */
  predicate PhoneShape(s: string) {
    var body := if |s| > 0 && s[0] == '+' then s[1..] else s;
    7 <= |body| <= 18 && forall i :: 0 <= i < |body| ==> IsPhoneChar(body[i])
  }

  // ---------------------------------------------------------------------------
  // Attributes. A pattern attribute accepts the empty value and otherwise
  // needs the pattern to match the whole value; the required attribute
  // refuses a blank value.
  // ---------------------------------------------------------------------------

  predicate Required(s: string) {
    !IsBlank(s)
  }

  predicate NamePattern(s: string) {
    s == "" || forall i :: 0 <= i < |s| ==> IsNameChar(s[i])
  }

  predicate PhonePattern(s: string) {
    s == "" || PhoneShape(s)
  }

  predicate ZipPattern(s: string) {
    s == "" || FourDigits(s)
  }

  predicate MinLength5(s: string) {
    |s| >= 5
  }

  /** Whether the attributes of one field accept its value. The e-mail
      format attribute is not modelled: Email is checked for presence only. */
  predicate FieldValid(m: OrderMetadata, f: Field) {
    match f
    case Name => Required(m.name) && NamePattern(m.name)
    case Email => Required(m.email)
    case PhoneNumber => Required(m.phoneNumber) && PhonePattern(m.phoneNumber)
    case Address => Required(m.address) && MinLength5(m.address)
    case City => Required(m.city)
    case Zip => Required(m.zip) && ZipPattern(m.zip)
    case _ => true
  }

  predicate RankSorted(fields: seq<Field>) {
    forall i, j :: 0 <= i < j < |fields| ==> Rank(fields[i]) < Rank(fields[j])
  }

  /** The fields among `fields` whose attributes refuse their value, in the
      order given. */
  function FailingFields(m: OrderMetadata, fields: seq<Field>): seq<Field> {
    if |fields| == 0 then []
    else if FieldValid(m, fields[0]) then FailingFields(m, fields[1..])
    else [fields[0]] + FailingFields(m, fields[1..])
  }

  /** A field is reported exactly when it is among `fields` and refused, and
      the report keeps the order of `fields`. */
  lemma {:induction false} FailingFieldsFacts(m: OrderMetadata, fields: seq<Field>)
    ensures forall f :: f in FailingFields(m, fields) <==> f in fields && !FieldValid(m, f)
    ensures RankSorted(fields) ==> RankSorted(FailingFields(m, fields))
  {
    if |fields| > 0 {
      var rest := FailingFields(m, fields[1..]);
      FailingFieldsFacts(m, fields[1..]);
      assert RankSorted(fields) ==> forall f :: f in rest ==> Rank(fields[0]) < Rank(f);
    }
  }

  const AttributeFields: seq<Field> := [Name, Email, PhoneNumber, Address, City, Zip]

  /** The fields whose attributes refuse their value, in declaration order. */
  function AttributeErrors(m: OrderMetadata): (errors: seq<Field>)
    ensures RankSorted(errors)
    ensures forall f :: f in errors <==> f in AttributeFields && !FieldValid(m, f)
  {
    FailingFieldsFacts(m, AttributeFields);
    FailingFields(m, AttributeFields)
  }

  /** The fields the form's own rules name, given which checks failed:
      billing fields only when billing differs from shipping. */
  function Report(sameAsShipping: bool, zipBad: bool, cityBad: bool, addressBad: bool, passwordBad: bool): seq<Field> {
    (if sameAsShipping then []
     else
       (if zipBad then [BillingZip] else [])
       + (if cityBad then [BillingCity] else [])
       + (if addressBad then [BillingAddress] else []))
    + (if passwordBad then [Password] else [])
  }

  /** The form's own rules: billing fields only when billing differs from
      shipping, the password only when an account is to be created. */
  function Validate(m: OrderMetadata): seq<Field> {
    Report(
      m.billingSameAsShipping,
      IsBlank(m.billingZip) || !ZipIsMatch(m.billingZip),
      IsBlank(m.billingCity),
      IsBlank(m.billingAddress) || |m.billingAddress| < 5,
      m.createAccount && (m.password.None? || IsBlank(m.password.value) || |m.password.value| < 6))
  }

  // ---------------------------------------------------------------------------
  // Properties
  // ---------------------------------------------------------------------------

  /** At most the three billing fields and the password. */
  lemma ReportShape(same: bool, zip: bool, city: bool, address: bool, password: bool)
    ensures var r := Report(same, zip, city, address, password);
      |r| <= 4 && forall f :: f in r ==> f in {BillingZip, BillingCity, BillingAddress, Password}
  {
  }

  /** The report lists the failed checks in declaration order. */
  lemma ReportSorted(same: bool, zip: bool, city: bool, address: bool, password: bool)
    ensures RankSorted(Report(same, zip, city, address, password))
  {
    var r := Report(same, zip, city, address, password);
    if same {
      assert r == if password then [Password] else [];
    } else if password {
      BillingSorted(zip, city, address, [Password]);
    } else {
      BillingSorted(zip, city, address, []);
    }
  }

  lemma BillingSorted(zip: bool, city: bool, address: bool, tail: seq<Field>)
    requires tail == [] || tail == [Password]
    ensures RankSorted(
      (if zip then [BillingZip] else []) + (if city then [BillingCity] else [])
      + (if address then [BillingAddress] else []) + tail)
  {
    var r := (if zip then [BillingZip] else []) + (if city then [BillingCity] else [])
      + (if address then [BillingAddress] else []) + tail;
    forall i, j | 0 <= i < j < |r|
      ensures Rank(r[i]) < Rank(r[j])
    {
      assert forall k :: 0 <= k < |r| ==> r[k] in [BillingZip, BillingCity, BillingAddress, Password];
    }
  }

  /** At most the three billing fields and the password, in the order zip,
      city, address, password. */
  lemma ValidateShape(m: OrderMetadata)
    ensures |Validate(m)| <= 4
    ensures forall f :: f in Validate(m) ==> f in {BillingZip, BillingCity, BillingAddress, Password}
    ensures RankSorted(Validate(m))
  {
    ReportSorted(
      m.billingSameAsShipping,
      IsBlank(m.billingZip) || !ZipIsMatch(m.billingZip),
      IsBlank(m.billingCity),
      IsBlank(m.billingAddress) || |m.billingAddress| < 5,
      m.createAccount && (m.password.None? || IsBlank(m.password.value) || |m.password.value| < 6));
    ReportShape(
      m.billingSameAsShipping,
      IsBlank(m.billingZip) || !ZipIsMatch(m.billingZip),
      IsBlank(m.billingCity),
      IsBlank(m.billingAddress) || |m.billingAddress| < 5,
      m.createAccount && (m.password.None? || IsBlank(m.password.value) || |m.password.value| < 6));
  }

  lemma FourDigitsNotBlank(s: string)
    ensures FourDigits(s) ==> !IsBlank(s)
  {
    if FourDigits(s) {
      assert !IsWhiteSpace(s[0]);
    }
  }

  /** With billing the same as shipping, no billing field is ever reported,
      whatever the billing fields hold. */
  lemma SameAddressSkipsBilling(m: OrderMetadata)
    requires m.billingSameAsShipping
    ensures BillingZip !in Validate(m) && BillingCity !in Validate(m) && BillingAddress !in Validate(m)
    ensures Validate(m) == Validate(m.(billingZip := "", billingCity := "", billingAddress := ""))
  {
  }

  /** Each billing field is refused exactly when billing differs and the
      field fails its check; the blank test before the zip pattern is
      subsumed by the pattern. */
  lemma BillingErrors(m: OrderMetadata)
    ensures BillingZip in Validate(m) <==> !m.billingSameAsShipping && !ZipIsMatch(m.billingZip)
    ensures BillingCity in Validate(m) <==> !m.billingSameAsShipping && !Required(m.billingCity)
    ensures BillingAddress in Validate(m) <==>
      !m.billingSameAsShipping && !(Required(m.billingAddress) && MinLength5(m.billingAddress))
  {
    FourDigitsNotBlank(m.billingZip);
    if |m.billingZip| == 5 {
      FourDigitsNotBlank(m.billingZip[..4]);
      if IsBlank(m.billingZip) {
        assert IsWhiteSpace(m.billingZip[..4][0]);
      }
    }
  }

  /** The password is refused exactly when an account is requested and the
      password is missing, blank or shorter than six characters. */
  lemma PasswordError(m: OrderMetadata)
    ensures Password in Validate(m) <==>
      m.createAccount && (m.password.None? || IsBlank(m.password.value) || |m.password.value| < 6)
  {
  }

  /** The shipping address check of the attributes and the billing address
      check of `Validate` agree on the same text. */
  lemma AddressChecksAgree(m: OrderMetadata)
    requires !m.billingSameAsShipping && m.billingAddress == m.address
    ensures (Address in AttributeErrors(m)) == (BillingAddress in Validate(m))
  {
    BillingErrors(m);
  }

  /** The zip checks do not agree: four digits and a final line feed pass
      the billing check of `Validate` but not the shipping zip attribute,
      which needs the whole value to match. */
  lemma ZipChecksDisagree(m: OrderMetadata)
    requires !m.billingSameAsShipping && m.zip == m.billingZip == "1234\n"
    ensures Zip in AttributeErrors(m) && BillingZip !in Validate(m)
  {
    assert FourDigits(m.billingZip[..4]);
    assert !IsWhiteSpace(m.billingZip[0]);
  }

  /** With both checks on, a valid zip is exactly four ASCII digits, a valid
      phone number an optional plus and 7 to 18 digits or white-space
      characters that are not all blank, a valid address at least five
      characters that are not all blank. */
  lemma ShippingFieldsExact(m: OrderMetadata)
    ensures Zip !in AttributeErrors(m) <==> FourDigits(m.zip)
    ensures PhoneNumber !in AttributeErrors(m) <==> PhoneShape(m.phoneNumber) && !IsBlank(m.phoneNumber)
    ensures Address !in AttributeErrors(m) <==> |m.address| >= 5 && !IsBlank(m.address)
  {
    FourDigitsNotBlank(m.zip);
  }

  /** A name is accepted exactly when it is not blank and made only of ASCII
      and Hungarian letters, white space and hyphens. */
  lemma NameFieldExact(m: OrderMetadata)
    ensures Name !in AttributeErrors(m) <==>
      !IsBlank(m.name) && forall i :: 0 <= i < |m.name| ==> IsNameChar(m.name[i])
  {
  }

  /** A digit anywhere in the name refuses it. */
  lemma DigitRefusesName(m: OrderMetadata, i: nat)
    requires i < |m.name| && IsAsciiDigit(m.name[i])
    ensures Name in AttributeErrors(m)
  {
    assert !IsNameChar(m.name[i]);
  }

  /** The phone checks need no digit at all: a plus followed by seven spaces
      passes both the required and the pattern attribute. */
  lemma PhoneWithoutDigits(m: OrderMetadata)
    requires m.phoneNumber == "+       "
    ensures PhoneNumber !in AttributeErrors(m)
  {
    assert !IsWhiteSpace(m.phoneNumber[0]);
    var body := m.phoneNumber[1..];
    assert |body| == 7 && forall i :: 0 <= i < 7 ==> body[i] == ' ';
    assert IsPhoneChar(' ');
    assert forall i :: 0 <= i < |body| ==> IsPhoneChar(body[i]);
    assert PhoneShape(m.phoneNumber);
    assert FieldValid(m, PhoneNumber);
  }
}
