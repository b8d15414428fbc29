/**
 * The shop's store, as the tables the core reads and writes. Each table is a
 * sequence of rows in query order; a sweep or a service call that saves its
 * changes with one `SaveChangesAsync` is one method call on this object.
 */
module Data {
  import opened Entities
  import opened Orders

  class AppDb {
    var products: seq<Product>
    var orders: seq<Order>
    var stockLogs: seq<StockLog>
    var subscribers: seq<NewsletterSubscriber>
    var users: seq<AppUser>
    var siteSettings: seq<SiteSetting>

    constructor (products: seq<Product>, orders: seq<Order>, stockLogs: seq<StockLog>,
                 subscribers: seq<NewsletterSubscriber>, users: seq<AppUser>,
                 siteSettings: seq<SiteSetting>)
      ensures this.products == products && this.orders == orders && this.stockLogs == stockLogs
      ensures this.subscribers == subscribers && this.users == users
      ensures this.siteSettings == siteSettings
    {
      this.products := products;
      this.orders := orders;
      this.stockLogs := stockLogs;
      this.subscribers := subscribers;
      this.users := users;
      this.siteSettings := siteSettings;
    }
  }
}
