/**
 * Services/EmailService.cs: the parts of the mail service that compute
 * something — the base URL, the tracking and review links, the bank-transfer
 * block of the confirmation, and the rows and early return of the low-stock
 * alert. Message transport and HTML markup are not modelled; whether the
 * transport delivered a message is a parameter.
 */
module Emails {
  import opened Wrappers
  import opened Text
  import opened Entities
  import opened Orders
  import opened Sitemap

  const DefaultBaseUrl: string := "https://localhost:7188/"

  /** The configured `AppUrl` (None when it is missing), normalised to end in
      exactly the slash it had or one appended. */
  function GetBaseUrl(appUrl: Option<string>): (url: string)
    ensures |url| > 0 && url[|url| - 1] == '/'
    ensures appUrl.None? || appUrl == Some("") ==> url == DefaultBaseUrl
    ensures appUrl.Some? && appUrl.value != "" ==>
      |appUrl.value| <= |url| <= |appUrl.value| + 1 && url[..|appUrl.value|] == appUrl.value
  {
    match appUrl
    case None => DefaultBaseUrl
    case Some(u) =>
      if u == "" then DefaultBaseUrl
      else if u[|u| - 1] == '/' then u
      else u + "/"
  }

  /** Normalising an already normalised URL changes nothing, and a URL is kept
      exactly when it already ends in a slash. */
  lemma GetBaseUrlIdempotent(appUrl: Option<string>)
    ensures GetBaseUrl(Some(GetBaseUrl(appUrl))) == GetBaseUrl(appUrl)
    ensures appUrl.Some? && appUrl.value != "" ==>
      (GetBaseUrl(appUrl) == appUrl.value <==> appUrl.value[|appUrl.value| - 1] == '/')
  {
  }

  /** The order-tracking link of the confirmation and status-update mails. */
  function TrackingUrl(baseUrl: string, secretToken: string): (url: string)
    ensures |url| == |baseUrl| + 12 + |secretToken|
    ensures url[..|baseUrl|] == baseUrl && url[|baseUrl| + 12..] == secretToken
  {
    baseUrl + "track-order/" + secretToken
  }

  /** Over one base URL, the tracking link identifies the order's token. */
  lemma TrackingUrlInjective(baseUrl: string, t1: string, t2: string)
    ensures TrackingUrl(baseUrl, t1) == TrackingUrl(baseUrl, t2) <==> t1 == t2
  {
    var u1, u2 := TrackingUrl(baseUrl, t1), TrackingUrl(baseUrl, t2);
    if u1 == u2 {
      assert t1 == u1[|baseUrl| + 12..] == u2[|baseUrl| + 12..] == t2;
    }
  }

  // ---------------------------------------------------------------------------
  // Messages
  // ---------------------------------------------------------------------------

  const BankTransferMethod: string := "Utalás"

  /** The transfer amount and the reference (the order id) shown to a customer
      who pays by bank transfer. */
  datatype BankTransfer = BankTransfer(amount: real, reference: int)

  /** A message handed to the transport: recipient address and name, subject,
      the call-to-action link, the optional bank-transfer block and attachment. */
  datatype Message = Message(
    to: string,
    toName: string,
    subject: string,
    link: string,
    bankTransfer: Option<BankTransfer>,
    attachment: Option<string>)

  /** The order confirmation sent after checkout, with the invoice attached. */
  function OrderConfirmation(appUrl: Option<string>, order: Order, pdfPath: string): (m: Message)
    ensures m.bankTransfer.Some? <==> order.paymentMethod == BankTransferMethod
    ensures m.bankTransfer.Some? ==> m.bankTransfer.value == BankTransfer(order.totalAmount, order.id)
    ensures m.link == TrackingUrl(GetBaseUrl(appUrl), order.secretToken)
    ensures m.to == order.email && m.toName == order.customerName
  {
    var transfer := if order.paymentMethod == BankTransferMethod
      then Some(BankTransfer(order.totalAmount, order.id)) else None;
    Message(order.email, order.customerName,
            "Rendelés visszaigazolás - #" + IntToString(order.id),
            TrackingUrl(GetBaseUrl(appUrl), order.secretToken), transfer, Some(pdfPath))
  }

  /** The status-update mail: the caller's subject and the same tracking link. */
  function StatusUpdate(appUrl: Option<string>, order: Order, subject: string): (m: Message)
    ensures m.link == TrackingUrl(GetBaseUrl(appUrl), order.secretToken)
    ensures m.subject == subject && m.bankTransfer.None? && m.attachment.None?
  {
    Message(order.email, order.customerName, subject,
            TrackingUrl(GetBaseUrl(appUrl), order.secretToken), None, None)
  }

  /** Both mails about one order point to the same tracking page. */
  lemma ConfirmationAndUpdateShareLink(appUrl: Option<string>, order: Order, pdfPath: string, subject: string)
    ensures OrderConfirmation(appUrl, order, pdfPath).link == StatusUpdate(appUrl, order, subject).link
  {
  }

  // ---------------------------------------------------------------------------
  // Low-stock alert
  // ---------------------------------------------------------------------------

  /** One table row of the alert: id, name, current stock and threshold. */
  datatype AlertRow = AlertRow(productId: int, name: string, stock: int, threshold: int)

  datatype AlertMessage = AlertMessage(to: string, subject: string, rows: seq<AlertRow>)

  const LowStockSubject: string := "⚠️ KRITIKUS KÉSZLETSZINT - Webshop"

  function AlertRowOf(p: Product): AlertRow {
    AlertRow(p.id, p.name, p.stock, p.lowStockThreshold)
  }

  /** An administrator address is configured (present and non-empty). */
  predicate HasAdminAddress(adminEmail: Option<string>) {
    adminEmail.Some? && adminEmail.value != ""
  }

  /** The low-stock alert. `adminEmail` is the configured `Email:SmtpUser`,
      `delivered` what the transport reports if a message is handed to it.
      Returns whether the alert went out, and the message handed over. */
  method SendLowStockAlert(adminEmail: Option<string>, products: seq<Product>, delivered: bool)
    returns (sent: bool, message: Option<AlertMessage>)
    ensures !HasAdminAddress(adminEmail) ==> !sent && message.None?
    ensures HasAdminAddress(adminEmail) ==>
      sent == delivered && message.Some? &&
      message.value.to == adminEmail.value && message.value.subject == LowStockSubject
    ensures message.Some? ==>
      |message.value.rows| == |products| &&
      forall i :: 0 <= i < |products| ==> message.value.rows[i] == AlertRowOf(products[i])
  {
    if !HasAdminAddress(adminEmail) {
      return false, None;
    }
    var rows: seq<AlertRow> := [];
    for i := 0 to |products|
      invariant |rows| == i
      invariant forall k :: 0 <= k < i ==> rows[k] == AlertRowOf(products[k])
    {
      rows := rows + [AlertRowOf(products[i])];
    }
    message := Some(AlertMessage(adminEmail.value, LowStockSubject, rows));
    sent := delivered;
  }

  // ---------------------------------------------------------------------------
  // Review request
  // ---------------------------------------------------------------------------

  /** `s.Replace(" ", "-")`: only the space character, not other white space. */
  function ReplaceSpaces(s: string): string {
    seq(|s|, i requires 0 <= i < |s| => if s[i] == ' ' then '-' else s[i])
  }

  /** The slug of the review link: lower-cased, the same character filter as
      the sitemap slug, then each space replaced by a hyphen. Accented letters
      are not folded, so they disappear. */
  function ReviewSlug(name: string): (slug: string)
    ensures |slug| <= |name|
    ensures forall i :: 0 <= i < |slug| ==> slug[i] != ' ' && IsKept(slug[i])
  {
    RemoveDisallowedFacts(Lower(name));
    ReplaceSpaces(RemoveDisallowed(Lower(name)))
  }

  /** A null product reference is rendered as nothing. */
  function ProductIdText(id: Option<int>): string {
    match id
    case None => ""
    case Some(n) => IntToString(n)
  }

  function ReviewUrl(baseUrl: string, item: OrderItem): string {
    baseUrl + "product/" + ProductIdText(item.productId) + "/" + ReviewSlug(item.productName)
  }

  /** One review row per item: the product name and its review link. */
  datatype ReviewLink = ReviewLink(productName: string, url: string)

  /** The rows of the review-request mail sent for a fulfilled order, in item order. */
  method ReviewLinks(appUrl: Option<string>, order: Order) returns (links: seq<ReviewLink>)
    ensures |links| == |order.items|
    ensures forall i :: 0 <= i < |links| ==>
      links[i] == ReviewLink(order.items[i].productName, ReviewUrl(GetBaseUrl(appUrl), order.items[i]))
  {
    var baseUrl := GetBaseUrl(appUrl);
    links := [];
    for i := 0 to |order.items|
      invariant |links| == i
      invariant forall k :: 0 <= k < i ==>
        links[k] == ReviewLink(order.items[k].productName, ReviewUrl(baseUrl, order.items[k]))
    {
      var item := order.items[i];
      links := links + [ReviewLink(item.productName, ReviewUrl(baseUrl, item))];
    }
  }

  /** On a name already in slug form the review slug and the sitemap slug agree. */
  lemma ReviewSlugAgreesOnSlugs(s: string)
    requires IsSlugShaped(s) && s != ""
    ensures ReviewSlug(s) == s == GenerateSlug(s)
  {
    GenerateSlugFixesSlugs(s);
    ReviewSlugFixesSlugChars(s);
  }

  lemma ReviewSlugFixesSlugChars(s: string)
    requires AllSlugChars(s)
    ensures ReviewSlug(s) == s
  {
    assert forall i :: 0 <= i < |s| ==> LowerChar(s[i]) == s[i];
    assert Lower(s) == s;
    RemoveDisallowedFacts(s);
    assert ReplaceSpaces(s) == s;
  }

  /** An accented letter that the sitemap folds to a plain vowel is dropped
      from the review slug: the two links of one product can differ. */
  lemma ReviewSlugDropsAccents(c: char)
    requires IsAsciiLower(FoldAccent(LowerChar(c))) && !IsAsciiLower(LowerChar(c))
    ensures ReviewSlug([c]) == ""
    ensures GenerateSlug([c]) == [FoldAccent(LowerChar(c))]
  {
    LetterNamesFold([c]);
    AccentedNotKept(LowerChar(c));
    assert Lower([c]) == [LowerChar(c)];
    assert RemoveDisallowed([LowerChar(c)]) == RemoveDisallowed([]);
  }
}
