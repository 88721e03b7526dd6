/**
 * Client code in the style of a console session: what a caller can conclude from
 * the store's contracts alone.
 */
module Scenarios {
  import opened Outcomes
  import opened JavaInt
  import opened JavaText
  import opened Codec
  import opened Store

  /** Registering "u1" twice: the second attempt is refused and only Alice's account is kept. */
  method DuplicateRegistration() {
    var shop := new Shop();
    var first := shop.Register("u1", "Alice", "pw1", "Customer");
    assert EqualsIgnoreCase("Customer", "Customer");
    assert first == Registered;
    var second := shop.Register("u1", "Bob", "pw2", "Admin");
    assert LookupUser(shop.users, "u1").Some?;
    assert second == DuplicateId;
    assert shop.users == [User("u1", "Alice", "pw1", "Customer")];
    var session := shop.Login("u1", "pw2");
    assert session == InvalidCredentials;
  }

  /** Adding "Pen" at 1.5 with stock 10, then buying 3 of it. */
  method PenPurchase() {
    var shop := new Shop();
    shop.AddProduct("Pen", "1.5", 10);
    ghost var pen := ProductData(1, "Pen", "1.5", 10);
    assert shop.Catalog() == [pen];
    assert Purchase([pen], 1, 3) == Some((0, 7));
    var bought := shop.BuyProduct("u1", 1, 3);
    assert bought == Bought;
    assert shop.Catalog() == [pen.(stock := 7)];
    PenOrderItem();
    assert shop.HistoryOf("u1") == ["Pen x 3"];
  }

  /** Asking for 11 pens when only 7 are in stock is refused and changes nothing. */
  method InsufficientStock() {
    var shop := new Shop();
    shop.AddProduct("Pen", "1.5", 7);
    ghost var pen := ProductData(1, "Pen", "1.5", 7);
    assert shop.Catalog() == [pen];
    assert Purchase([pen], 1, 11).None?;
    var refused := shop.BuyProduct("u1", 1, 11);
    assert refused == InvalidPurchase;
    assert shop.Catalog() == [pen];
    assert shop.HistoryOf("u1") == [];
  }
}
