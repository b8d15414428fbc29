/**
 * Services/NewsletterSevice.cs: the guest subscription list and the mailing
 * list built from it and from the registered users who asked for the
 * newsletter. Each call is one read and one save on the store.
 */
module Newsletter {
  import opened Wrappers
  import opened Entities
  import opened Data

  /** `FirstOrDefault(s => s.Email == email)` on the guest table. */
  function FindSubscriber(subs: seq<NewsletterSubscriber>, email: string): (r: Option<nat>)
    ensures r.Some? ==> r.value < |subs| && subs[r.value].email == email
    ensures r.Some? ==> forall k :: 0 <= k < r.value ==> subs[k].email != email
    ensures r.None? ==> forall k :: 0 <= k < |subs| ==> subs[k].email != email
  {
    if |subs| == 0 then None
    else if subs[0].email == email then Some(0)
    else match FindSubscriber(subs[1..], email)
      case None => None
      case Some(k) => Some(k + 1)
  }

  /** `FirstOrDefault(u => u.Email == email)` on the users; a user without
      an address never matches. */
  function FindUser(users: seq<AppUser>, email: string): (r: Option<nat>)
    ensures r.Some? ==> r.value < |users| && users[r.value].email == Some(email)
    ensures r.Some? ==> forall k :: 0 <= k < r.value ==> users[k].email != Some(email)
    ensures r.None? ==> forall k :: 0 <= k < |users| ==> users[k].email != Some(email)
  {
    if |users| == 0 then None
    else if users[0].email == Some(email) then Some(0)
    else match FindUser(users[1..], email)
      case None => None
      case Some(k) => Some(k + 1)
  }

  /** The guest table after a subscription at time `now`, and the answer. */
  datatype Subscription = Subscription(subs: seq<NewsletterSubscriber>, accepted: bool)

  function Subscribe(subs: seq<NewsletterSubscriber>, email: string, now: Instant): Subscription {
    match FindSubscriber(subs, email)
    case None => Subscription(subs + [NewsletterSubscriber(email, now, true)], true)
    case Some(k) =>
      if subs[k].isActive then Subscription(subs, false)
      else Subscription(subs[k := subs[k].(isActive := true, subscribedAt := now)], true)
  }

  /** The guest table and the users after an unsubscription: the first guest
      row and the first user with that address are switched off. */
  function UnsubscribeGuests(subs: seq<NewsletterSubscriber>, email: string): seq<NewsletterSubscriber> {
    match FindSubscriber(subs, email)
    case None => subs
    case Some(k) => subs[k := subs[k].(isActive := false)]
  }

  function UnsubscribeUsers(users: seq<AppUser>, email: string): seq<AppUser> {
    match FindUser(users, email)
    case None => users
    case Some(k) => users[k := users[k].(isNewsletterSubscribed := false)]
  }

  /** `Union` followed by `Distinct`: the first occurrence of each address, in order. */
  function Distinct(emails: seq<string>): (r: seq<string>)
    ensures forall i, j :: 0 <= i < j < |r| ==> r[i] != r[j]
    ensures forall e :: e in r <==> e in emails
  {
    if |emails| == 0 then []
    else
      var front := Distinct(emails[..|emails| - 1]);
      var last := emails[|emails| - 1];
      assert emails == emails[..|emails| - 1] + [last];
      if last in front then front else front + [last]
  }

  /** Addresses of the users who asked for the newsletter and have an address. */
  function UserEmails(users: seq<AppUser>): (r: seq<string>)
    ensures forall e :: e in r <==> exists u :: u in users && u.isNewsletterSubscribed && u.email == Some(e)
  {
    if |users| == 0 then []
    else
      var front := UserEmails(users[..|users| - 1]);
      var u := users[|users| - 1];
      assert users == users[..|users| - 1] + [u];
      if u.isNewsletterSubscribed && u.email.Some? then front + [u.email.value] else front
  }

  /** Addresses of the active guests. */
  function GuestEmails(subs: seq<NewsletterSubscriber>): (r: seq<string>)
    ensures forall e :: e in r <==> exists s :: s in subs && s.isActive && s.email == e
  {
    if |subs| == 0 then []
    else
      var front := GuestEmails(subs[..|subs| - 1]);
      var s := subs[|subs| - 1];
      assert subs == subs[..|subs| - 1] + [s];
      if s.isActive then front + [s.email] else front
  }

  /** Every address the newsletter goes to, once each. */
  function AllSubscribers(users: seq<AppUser>, subs: seq<NewsletterSubscriber>): seq<string> {
    Distinct(UserEmails(users) + GuestEmails(subs))
  }

  class NewsletterService {
    const db: AppDb

    constructor (db: AppDb)
      ensures this.db == db
    {
      this.db := db;
    }

    /** Subscribes a guest address at time `now`; false when it is already
        subscribed. */
    method SubscribeGuest(email: string, now: Instant) returns (accepted: bool)
      modifies db
      ensures Subscription(db.subscribers, accepted) == Subscribe(old(db.subscribers), email, now)
      ensures db.users == old(db.users) && db.products == old(db.products)
      ensures db.orders == old(db.orders) && db.stockLogs == old(db.stockLogs)
      ensures db.siteSettings == old(db.siteSettings)
    {
      var found := FindSubscriber(db.subscribers, email);
      if found.Some? {
        var existing := db.subscribers[found.value];
        if !existing.isActive {
          db.subscribers := db.subscribers[found.value := existing.(isActive := true, subscribedAt := now)];
          return true;
        }
        return false;
      }
      db.subscribers := db.subscribers + [NewsletterSubscriber(email, now, true)];
      accepted := true;
    }

    /** Unsubscribes an address from both tables; always answers true. */
    method Unsubscribe(email: string) returns (done: bool)
      modifies db
      ensures done
      ensures db.subscribers == UnsubscribeGuests(old(db.subscribers), email)
      ensures db.users == UnsubscribeUsers(old(db.users), email)
      ensures db.products == old(db.products) && db.orders == old(db.orders)
      ensures db.stockLogs == old(db.stockLogs) && db.siteSettings == old(db.siteSettings)
    {
      var guest := FindSubscriber(db.subscribers, email);
      if guest.Some? {
        db.subscribers := db.subscribers[guest.value := db.subscribers[guest.value].(isActive := false)];
      }
      var user := FindUser(db.users, email);
      if user.Some? {
        db.users := db.users[user.value := db.users[user.value].(isNewsletterSubscribed := false)];
      }
      done := true;
    }
  }

  // ---------------------------------------------------------------------------
  // Properties
  // ---------------------------------------------------------------------------

  predicate UniqueEmails(subs: seq<NewsletterSubscriber>) {
    forall i, j :: 0 <= i < j < |subs| ==> subs[i].email != subs[j].email
  }

  predicate UniqueUserEmails(users: seq<AppUser>) {
    forall i, j :: 0 <= i < j < |users| && users[i].email.Some? ==> users[i].email != users[j].email
  }

  /** The three outcomes of a subscription: an unknown address gets one new
      active row; an active one is refused with nothing changed; an inactive
      one is reactivated in place with a fresh subscription time. */
  lemma SubscribeOutcomes(subs: seq<NewsletterSubscriber>, email: string, now: Instant)
    ensures var r := Subscribe(subs, email, now);
      (forall k :: 0 <= k < |subs| ==> subs[k].email != email) ==>
        r.accepted && r.subs == subs + [NewsletterSubscriber(email, now, true)]
    ensures var r := Subscribe(subs, email, now);
      (exists k :: 0 <= k < |subs| && subs[k].email == email) ==>
        |r.subs| == |subs| &&
        var k := FindSubscriber(subs, email).value;
        (subs[k].isActive ==> !r.accepted && r.subs == subs) &&
        (!subs[k].isActive ==>
          (r.accepted && r.subs[k] == NewsletterSubscriber(email, now, true) &&
           forall j :: 0 <= j < |subs| && j != k ==> r.subs[j] == subs[j]))
  {
  }

  /** Subscribing never adds a second row for an address. */
  lemma SubscribeKeepsEmailsUnique(subs: seq<NewsletterSubscriber>, email: string, now: Instant)
    requires UniqueEmails(subs)
    ensures UniqueEmails(Subscribe(subs, email, now).subs)
  {
  }

  /** After subscribing, the address is on the mailing list, whatever the answer. */
  lemma SubscribedIsListed(users: seq<AppUser>, subs: seq<NewsletterSubscriber>, email: string, now: Instant)
    ensures email in AllSubscribers(users, Subscribe(subs, email, now).subs)
  {
    var after := Subscribe(subs, email, now).subs;
    match FindSubscriber(subs, email)
    case None =>
      assert after[|subs|] in after;
    case Some(k) =>
      assert after[k] in after;
  }

  /** After unsubscribing, an address that is on each table at most once is
      no longer on the mailing list. */
  lemma UnsubscribedIsNotListed(users: seq<AppUser>, subs: seq<NewsletterSubscriber>, email: string)
    requires UniqueEmails(subs) && UniqueUserEmails(users)
    ensures email !in AllSubscribers(UnsubscribeUsers(users, email), UnsubscribeGuests(subs, email))
  {
    var users', subs' := UnsubscribeUsers(users, email), UnsubscribeGuests(subs, email);
    forall s | s in subs' && s.isActive
      ensures s.email != email
    {
    }
    forall u | u in users' && u.isNewsletterSubscribed
      ensures u.email != Some(email)
    {
    }
  }
}
