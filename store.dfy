/**
 * The in-memory state of the shop: the account list, the product catalogue, whose
 * entries are objects with a mutable stock, and the order ledger, together with the
 * operations that read and change them (`register`, `login`, `addProduct`,
 * `buyProduct`, the id lookups and the three loaders).
 */
module Store {
  import opened Outcomes
  import opened JavaInt
  import opened JavaText
  import opened Codec

  // ---------------------------------------------------------------- lookups

  /** Index of the first account with this id (`getUserById`'s early-return scan). */
  function FirstUserIndex(us: seq<User>, userId: string): (r: Option<nat>)
    ensures r.Some? ==> r.value < |us| && us[r.value].userId == userId
    ensures r.Some? ==> forall j :: 0 <= j < r.value ==> us[j].userId != userId
    ensures r.None? <==> forall j :: 0 <= j < |us| ==> us[j].userId != userId
  {
    if us == [] then None
    else if us[0].userId == userId then Some(0)
    else match FirstUserIndex(us[1..], userId)
      case None => None
      case Some(k) => Some(k + 1)
  }

  /** The account `getUserById` returns; `None` for Java's `null`. */
  function LookupUser(us: seq<User>, userId: string): (r: Option<User>)
    ensures r.None? <==> forall j :: 0 <= j < |us| ==> us[j].userId != userId
    ensures r.Some? ==> r.value.userId == userId && r.value in us
  {
    match FirstUserIndex(us, userId)
    case None => None
    case Some(k) => Some(us[k])
  }

  /** Index of the first product with this id (`getProductById`'s early-return scan). */
  function FirstProductIndex(cat: seq<ProductData>, productId: int): (r: Option<nat>)
    ensures r.Some? ==> r.value < |cat| && cat[r.value].productId == productId
    ensures r.Some? ==> forall j :: 0 <= j < r.value ==> cat[j].productId != productId
    ensures r.None? <==> forall j :: 0 <= j < |cat| ==> cat[j].productId != productId
  {
    if cat == [] then None
    else if cat[0].productId == productId then Some(0)
    else match FirstProductIndex(cat[1..], productId)
      case None => None
      case Some(k) => Some(k + 1)
  }

  /** No two accounts share an id. */
  predicate UniqueIds(us: seq<User>) {
    forall i, j :: 0 <= i < j < |us| ==> us[i].userId != us[j].userId
  }

  /** With unique ids, looking up an account's id finds exactly that account. */
  lemma UniqueIdsLookup(us: seq<User>, k: nat)
    requires UniqueIds(us) && k < |us|
    ensures LookupUser(us, us[k].userId) == Some(us[k])
  {
  }

  /** Appending an account whose id is not yet taken keeps the ids unique. */
  lemma AppendFreshIdKeepsUnique(us: seq<User>, u: User)
    requires UniqueIds(us) && LookupUser(us, u.userId).None?
    ensures UniqueIds(us + [u])
  {
  }

  // ---------------------------------------------------------------- roles

  /** `register`'s role check: "Admin" or "Customer", ignoring case. */
  function IsRecognizedRole(role: string): (r: bool)
    ensures r ==> |role| == 5 || |role| == 8
  {
    EqualsIgnoreCase(role, "Admin") || EqualsIgnoreCase(role, "Customer")
  }

  /** An ASCII role is accepted exactly when it lower-cases to "admin" or "customer". */
  lemma AsciiRoles(role: string)
    requires AllAscii(role)
    ensures IsRecognizedRole(role) <==> LowerAsciiText(role) == "admin" || LowerAsciiText(role) == "customer"
  {
    assert LowerAsciiText("Admin") == "admin";
    assert LowerAsciiText("Customer") == "customer";
    AsciiEqualsIgnoreCase(role, "Admin");
    AsciiEqualsIgnoreCase(role, "Customer");
  }

  /** No role is taken for both: a registered role routes to exactly one menu. */
  lemma RolesAreExclusive(role: string)
    ensures !(EqualsIgnoreCase(role, "Admin") && EqualsIgnoreCase(role, "Customer"))
  {
  }

  /** The role is compared ignoring case but stored as typed: "ADMIN" and "admin" both pass. */
  lemma RoleCaseIsIgnored()
    ensures IsRecognizedRole("ADMIN") && IsRecognizedRole("admin") && IsRecognizedRole("cUSTOMER")
  {
    assert forall i :: 0 <= i < 5 ==> CharEqualsIgnoreCase("ADMIN"[i], "Admin"[i]) && CharEqualsIgnoreCase("admin"[i], "Admin"[i]);
    assert forall i :: 0 <= i < 8 ==> CharEqualsIgnoreCase("cUSTOMER"[i], "Customer"[i]);
  }

  /** A role that differs in more than case is refused, the empty one included. */
  lemma OtherRolesAreRefused()
    ensures !IsRecognizedRole("Admins") && !IsRecognizedRole("") && !IsRecognizedRole("Guest")
  {
    assert !CharEqualsIgnoreCase("Guest"[0], "Admin"[0]);
  }

  // ---------------------------------------------------------------- purchases

  /**
   * `buyProduct`'s guard and `reduceStock` exactly as written: reject when
   * `stock < quantity`, otherwise `stock -= quantity` in 32-bit arithmetic.
   */
  function StockAfterPurchaseAsWritten(stock: Int32, quantity: Int32): (r: Option<Int32>)
    ensures r.None? <==> stock < quantity
    ensures r.Some? && stock - quantity <= Int32Max ==> r.value == stock - quantity
  {
    if stock < quantity then None else Some(Wrap32(stock - quantity))
  }

  /** With a negative quantity the guard lets an overflowing subtraction through. */
  lemma AsWrittenStockCanGoNegative()
    ensures StockAfterPurchaseAsWritten(Int32Max, -1) == Some(Int32Min)
    ensures Int32Min < 0
  {
  }

  /**
   * The purchase guard with the evidently intended arithmetic: a purchase is also
   * refused when the new stock would not fit in an `int`, so an accepted purchase
   * leaves exactly `stock - quantity`, which is never negative.
   */
  function StockAfterPurchase(stock: Int32, quantity: Int32): (r: Option<Int32>)
    ensures r.None? <==> stock < quantity || stock - quantity > Int32Max
    ensures r.Some? ==> r.value == stock - quantity && r.value >= 0
  {
    if stock < quantity || stock - quantity > Int32Max then None else Some(stock - quantity)
  }

  /** Wherever the subtraction does not overflow, the corrected guard behaves as written. */
  lemma CorrectedGuardAgreesWithoutOverflow(stock: Int32, quantity: Int32)
    requires stock - quantity <= Int32Max
    ensures StockAfterPurchase(stock, quantity) == StockAfterPurchaseAsWritten(stock, quantity)
  {
  }

  /** The catalogue index `buyProduct` changes and the stock it leaves there, or `None` if it refuses. */
  function Purchase(cat: seq<ProductData>, productId: int, quantity: Int32): (r: Option<(nat, Int32)>)
    ensures r.None? <==>
              || FirstProductIndex(cat, productId).None?
              || StockAfterPurchase(cat[FirstProductIndex(cat, productId).value].stock, quantity).None?
    ensures r.Some? ==>
              && r.value.0 == FirstProductIndex(cat, productId).value
              && r.value.1 == cat[r.value.0].stock - quantity
              && r.value.1 >= 0
  {
    match FirstProductIndex(cat, productId)
    case None => None
    case Some(k) =>
      match StockAfterPurchase(cat[k].stock, quantity)
      case None => None
      case Some(s) => Some((k, s))
  }

  /** Product ids are 1, 2, 3, ... in list order, as `addProduct` assigns them. */
  predicate IdsSequential(cat: seq<ProductData>) {
    forall i :: 0 <= i < |cat| ==> cat[i].productId == i + 1
  }

  /** With sequential ids, id `n` finds the n-th product and any other id finds none. */
  lemma SequentialIdsLookup(cat: seq<ProductData>, productId: int)
    requires IdsSequential(cat)
    ensures FirstProductIndex(cat, productId)
         == if 1 <= productId <= |cat| then Some(productId - 1) else None
  {
    if 1 <= productId <= |cat| {
      assert cat[productId - 1].productId == productId;
    }
  }

  // ---------------------------------------------------------------- outcomes

  datatype RegisterOutcome = Registered | DuplicateId | InvalidRole
  datatype LoginOutcome = InvalidCredentials | AdminSession | CustomerSession(userId: string)
  datatype BuyOutcome =
    | Bought
    | InvalidPurchase
    | HistoryFixedSize   // the reloaded history is a fixed-size list: `add` throws after the stock change

  // ---------------------------------------------------------------- objects

  /** A catalogue entry. Only its stock ever changes. */
  class Product {
    const productId: Int32
    const name: string
    const price: PriceText
    var stock: Int32

    constructor (productId: Int32, name: string, price: PriceText, stock: Int32)
      ensures Data() == ProductData(productId, name, price, stock)
    {
      this.productId := productId;
      this.name := name;
      this.price := price;
      this.stock := stock;
    }

    /** The current values of the fields. */
    function Data(): ProductData
      reads this
    {
      ProductData(productId, name, price, stock)
    }

    /** `reduceStock`: unconditional `stock -= quantity` in `int` arithmetic. */
    method ReduceStock(quantity: Int32)
      modifies this
      ensures stock == Wrap32(old(stock) - quantity)
    {
      stock := Wrap32(stock - quantity);
    }
  }

  /** The current field values of a list of products, in order. */
  function DataOf(ps: seq<Product>): (cat: seq<ProductData>)
    reads ps
    ensures |cat| == |ps|
  {
    if ps == [] then [] else DataOf(ps[..|ps| - 1]) + [ps[|ps| - 1].Data()]
  }

  /** Entry `i` of the values is the current value of object `i`. */
  lemma {:induction false} DataOfEntries(ps: seq<Product>)
    ensures forall i :: 0 <= i < |ps| ==> DataOf(ps)[i] == ps[i].Data()
  {
    if ps != [] {
      DataOfEntries(ps[..|ps| - 1]);
    }
  }

  /** Objects allocated since the earlier state, in two runs, are all allocated since then. */
  twostate lemma FreshConcat(new a: seq<Product>, new b: seq<Product>)
    requires fresh(a) && fresh(b)
    ensures fresh(a + b)
  {
  }

  /** Extending the part after a fixed prefix extends the whole by the same elements. */
  lemma ConcatAssoc<T>(prefix: seq<T>, rest: seq<T>, more: seq<T>)
    ensures prefix + rest + more == prefix + (rest + more)
  {
  }

  /** The three process-wide collections of `ShoppingManagementSystem`. */
  class Shop {
    var users: seq<User>
    var products: seq<Product>
    var orders: map<string, seq<string>>
    /** Ledger keys whose history was put there by `loadOrdersFromFile` as a fixed-size `Arrays.asList`. */
    var fixedSize: set<string>

    ghost predicate Valid()
      reads this
    {
      && (forall i, j :: 0 <= i < j < |products| ==> products[i] != products[j])
      && fixedSize <= orders.Keys
    }

    /** The catalogue as values, in list order. */
    function Catalog(): seq<ProductData>
      reads this`products, products
    {
      DataOf(products)
    }

    /** A user's purchase history, empty if the ledger has no entry for them. */
    function HistoryOf(userId: string): (r: seq<string>)
      reads this
      ensures userId in orders ==> r == orders[userId]
      ensures r != [] ==> userId in orders
    {
      if userId in orders then orders[userId] else []
    }

    constructor ()
      ensures Valid()
      ensures users == [] && products == [] && orders == map[] && fixedSize == {}
    {
      users := [];
      products := [];
      orders := map[];
      fixedSize := {};
    }

    /** `getUserById`. */
    method GetUserById(userId: string) returns (u: Option<User>)
      ensures u == LookupUser(users, userId)
    {
      var i := 0;
      while i < |users|
        invariant 0 <= i <= |users|
        invariant forall j :: 0 <= j < i ==> users[j].userId != userId
      {
        if users[i].userId == userId {
          var k := FirstUserIndex(users, userId).value;
          assert k == i;
          return Some(users[i]);
        }
        i := i + 1;
      }
      return None;
    }

    /** `getProductById`; `null` when no product has the id. */
    method GetProductById(productId: int) returns (p: Product?)
      ensures FirstProductIndex(Catalog(), productId).None? ==> p == null
      ensures FirstProductIndex(Catalog(), productId).Some? ==>
                p == products[FirstProductIndex(Catalog(), productId).value]
    {
      DataOfEntries(products);
      var i := 0;
      while i < |products|
        invariant 0 <= i <= |products|
        invariant forall j :: 0 <= j < i ==> Catalog()[j].productId != productId
      {
        if products[i].productId == productId {
          var k := FirstProductIndex(Catalog(), productId).value;
          assert k == i;
          return products[i];
        }
        i := i + 1;
      }
      return null;
    }

    /**
     * `register`: refused if the id is taken (checked first) or the role is not
     * "Admin"/"Customer" ignoring case; otherwise the account is appended with the
     * role exactly as typed.
     */
    method Register(userId: string, name: string, password: string, role: string)
      returns (r: RegisterOutcome)
      requires Valid()
      modifies this`users
      ensures Valid()
      ensures r == DuplicateId <==> LookupUser(old(users), userId).Some?
      ensures r == InvalidRole <==> LookupUser(old(users), userId).None? && !IsRecognizedRole(role)
      ensures users == if r == Registered then old(users) + [User(userId, name, password, role)] else old(users)
      ensures UniqueIds(old(users)) ==> UniqueIds(users)
      ensures products == old(products) && orders == old(orders) && fixedSize == old(fixedSize)
    {
      var existing := GetUserById(userId);
      if existing.Some? {
        return DuplicateId;
      }
      if !EqualsIgnoreCase(role, "Admin") && !EqualsIgnoreCase(role, "Customer") {
        return InvalidRole;
      }
      users := users + [User(userId, name, password, role)];
      r := Registered;
    }

    /**
     * `login`: succeeds only for the first account with the id whose stored
     * password equals the given one exactly; an "Admin" role (ignoring case) opens
     * the admin menu, any other role the customer menu for that id.
     */
    method Login(userId: string, password: string) returns (r: LoginOutcome)
      ensures r != InvalidCredentials <==>
                LookupUser(users, userId).Some? && LookupUser(users, userId).value.password == password
      ensures r == AdminSession <==>
                r != InvalidCredentials && EqualsIgnoreCase(LookupUser(users, userId).value.role, "Admin")
      ensures r.CustomerSession? ==> r.userId == userId
    {
      var user := GetUserById(userId);
      if user.None? || user.value.password != password {
        return InvalidCredentials;
      }
      if EqualsIgnoreCase(user.value.role, "Admin") {
        return AdminSession;
      }
      return CustomerSession(userId);
    }

    /** `addProduct`: a new product with id `products.size() + 1`, appended; nothing is validated. */
    method AddProduct(name: string, price: PriceText, stock: Int32)
      requires Valid()
      modifies this`products
      ensures Valid()
      ensures |products| == |old(products)| + 1 && products == old(products) + [products[|old(products)|]]
      ensures fresh(products[|old(products)|])
      ensures Catalog() == old(Catalog()) + [ProductData(Wrap32(|old(products)| + 1), name, price, stock)]
      ensures IdsSequential(old(Catalog())) && |old(products)| < Int32Max ==> IdsSequential(Catalog())
      ensures users == old(users) && orders == old(orders) && fixedSize == old(fixedSize)
    {
      var productId := Wrap32(|products| + 1);
      var p := new Product(productId, name, price, stock);
      products := products + [p];
      assert Catalog() == old(Catalog()) + [p.Data()];
    }

    /**
     * `buyProduct` with the corrected guard: refused when no product has the id or
     * the stock cannot cover the quantity; otherwise that one product's stock drops
     * by the quantity and `"<name> x <quantity>"` is appended to the buyer's history,
     * except that a history reloaded from file is fixed-size, so the append fails
     * after the stock has already changed.
     */
    method BuyProduct(userId: string, productId: Int32, quantity: Int32) returns (r: BuyOutcome)
      requires Valid()
      modifies this`orders, products
      ensures Valid()
      ensures r == InvalidPurchase <==> Purchase(old(Catalog()), productId, quantity).None?
      ensures r == InvalidPurchase ==> Catalog() == old(Catalog()) && orders == old(orders)
      ensures r != InvalidPurchase ==>
                var sale := Purchase(old(Catalog()), productId, quantity).value;
                Catalog() == old(Catalog())[sale.0 := old(Catalog())[sale.0].(stock := sale.1)]
      ensures r == HistoryFixedSize <==> r != InvalidPurchase && userId in old(fixedSize)
      ensures r == HistoryFixedSize ==> orders == old(orders)
      ensures r == Bought ==>
                var k := Purchase(old(Catalog()), productId, quantity).value.0;
                orders == old(orders)[userId := old(HistoryOf(userId)) + [OrderItem(old(Catalog())[k].name, quantity)]]
      ensures users == old(users) && products == old(products) && fixedSize == old(fixedSize)
    {
      ghost var cat := Catalog();
      DataOfEntries(products);
      var p := GetProductById(productId);
      if p == null || StockAfterPurchase(p.stock, quantity).None? {
        r := InvalidPurchase;
      } else {
        ghost var sale := Purchase(cat, productId, quantity).value;
        r := Sell(userId, p, sale.0, sale.1, quantity);
      }
    }

    /** The accepted branch of `buyProduct` for the catalogue entry `p` at index `k`. */
    method Sell(userId: string, p: Product, ghost k: nat, ghost s: Int32, quantity: Int32) returns (r: BuyOutcome)
      requires Valid() && k < |products| && products[k] == p
      requires StockAfterPurchase(p.stock, quantity) == Some(s)
      modifies this`orders, p
      ensures Valid()
      ensures Catalog() == old(Catalog())[k := old(Catalog())[k].(stock := s)]
      ensures r != InvalidPurchase
      ensures r == HistoryFixedSize <==> userId in old(fixedSize)
      ensures r == HistoryFixedSize ==> orders == old(orders)
      ensures r == Bought ==> orders == old(orders)[userId := old(HistoryOf(userId)) + [OrderItem(p.name, quantity)]]
      ensures users == old(users) && products == old(products) && fixedSize == old(fixedSize)
    {
      ReduceStockOf(p, k, quantity);
      var appended := RecordPurchase(userId, OrderItem(p.name, quantity));
      r := if appended then Bought else HistoryFixedSize;
    }

    /**
     * `orders.computeIfAbsent(userId, k -> new ArrayList<>()).add(item)`: a missing
     * history is created empty and the item appended at its end; a history reloaded
     * from file is a fixed-size list, whose `add` throws and changes nothing.
     */
    method RecordPurchase(userId: string, item: string) returns (appended: bool)
      requires Valid()
      modifies this`orders
      ensures Valid()
      ensures appended <==> userId !in fixedSize
      ensures orders == if appended then old(orders)[userId := old(HistoryOf(userId)) + [item]] else old(orders)
      ensures users == old(users) && products == old(products) && fixedSize == old(fixedSize)
    {
      if userId in fixedSize {
        return false;
      }
      orders := orders[userId := HistoryOf(userId) + [item]];
      appended := true;
    }

    /** `p.reduceStock(quantity)` for the catalogue entry `p` at index `k`: no other entry changes. */
    method ReduceStockOf(p: Product, ghost k: nat, quantity: Int32)
      requires Valid() && k < |products| && products[k] == p
      modifies p
      ensures p.stock == Wrap32(old(p.stock) - quantity)
      ensures Catalog() == old(Catalog())[k := old(Catalog())[k].(stock := p.stock)]
    {
      DataOfEntries(products);
      p.ReduceStock(quantity);
      DataOfEntries(products);
      forall j | 0 <= j < |products| && j != k ensures products[j].stock == old(products[j].stock) {
        assert products[j] != p;
      }
    }

    /** `loadUsersFromFile`: appends every account read, stopping at the first unreadable line. */
    method LoadUsers(lines: seq<string>) returns (failure: Option<LineError>)
      requires Valid()
      modifies this`users
      ensures Valid()
      ensures users == old(users) + DecodeLines(lines, DecodeUser).records
      ensures failure == DecodeLines(lines, DecodeUser).failure
      ensures products == old(products) && orders == old(orders) && fixedSize == old(fixedSize)
    {
      failure := None;
      var i := 0;
      while i < |lines| && failure.None?
        invariant 0 <= i <= |lines|
        invariant failure == DecodeLines(lines[..i], DecodeUser).failure
        invariant users == old(users) + DecodeLines(lines[..i], DecodeUser).records
      {
        var read := DecodeNext(lines, i, DecodeUser);
        if read.Failure? {
          failure := Some(LineError(i, read.error));
        } else {
          users := users + [read.value];
        }
        i := i + 1;
      }
      if failure.None? {
        assert lines[..i] == lines;
      } else {
        DecodeLinesStopsAtFailure(lines, i, DecodeUser);
      }
    }

    /** `products.add(...)` of a new product object holding `d`. */
    method AppendProduct(d: ProductData) returns (p: Product)
      requires Valid()
      modifies this`products
      ensures Valid()
      ensures fresh(p) && products == old(products) + [p]
      ensures Catalog() == old(Catalog()) + [d]
      ensures users == old(users) && orders == old(orders) && fixedSize == old(fixedSize)
    {
      p := new Product(d.productId, d.name, d.price, d.stock);
      products := products + [p];
      assert Catalog() == old(Catalog()) + [p.Data()];
    }

    /** `loadProductsFromFile`: appends a new product object per line read, stopping at the first unreadable line. */
    method LoadProducts(lines: seq<string>) returns (failure: Option<LineError>)
      requires Valid()
      modifies this`products
      ensures Valid()
      ensures Catalog() == old(Catalog()) + DecodeLines(lines, DecodeProduct).records
      ensures failure == DecodeLines(lines, DecodeProduct).failure
      ensures |products| >= |old(products)| && products[..|old(products)|] == old(products)
      ensures fresh(products[|old(products)|..])
      ensures users == old(users) && orders == old(orders) && fixedSize == old(fixedSize)
    {
      ghost var cat0 := Catalog();
      ghost var added: seq<Product> := [];
      failure := None;
      var i := 0;
      while i < |lines| && failure.None?
        invariant 0 <= i <= |lines|
        invariant Valid()
        invariant failure == DecodeLines(lines[..i], DecodeProduct).failure
        invariant products == old(products) + added
        invariant fresh(added)
        invariant Catalog() == cat0 + DecodeLines(lines[..i], DecodeProduct).records
      {
        ghost var step;
        failure, step := LoadProductLine(lines, i, cat0);
        ConcatAssoc(old(products), added, step);
        FreshConcat(added, step);
        added := added + step;
        i := i + 1;
      }
      if failure.None? {
        assert lines[..i] == lines;
      } else {
        DecodeLinesStopsAtFailure(lines, i, DecodeProduct);
      }
      assert products[..|old(products)|] == old(products) && products[|old(products)|..] == added;
    }

    /** One pass of `loadProductsFromFile`'s loop: line `i` read and, if readable, appended as a new product. */
    method LoadProductLine(lines: seq<string>, i: nat, ghost cat0: seq<ProductData>)
      returns (failure: Option<LineError>, ghost step: seq<Product>)
      requires Valid() && i < |lines| && DecodeLines(lines[..i], DecodeProduct).failure.None?
      requires Catalog() == cat0 + DecodeLines(lines[..i], DecodeProduct).records
      modifies this`products
      ensures Valid()
      ensures failure == DecodeLines(lines[..i + 1], DecodeProduct).failure
      ensures Catalog() == cat0 + DecodeLines(lines[..i + 1], DecodeProduct).records
      ensures products == old(products) + step && |step| <= 1
      ensures fresh(step)
    {
      ghost var done := DecodeLines(lines[..i], DecodeProduct).records;
      var read := DecodeNext(lines, i, DecodeProduct);
      if read.Failure? {
        failure, step := Some(LineError(i, read.error)), [];
      } else {
        var p := AppendProduct(read.value);
        ConcatAssoc(cat0, done, [read.value]);
        failure, step := None, [p];
      }
    }

    /**
     * `loadOrdersFromFile`: puts each line's history under its key, a later line
     * replacing an earlier one, and marks those histories fixed-size; stops at the
     * first line without a colon.
     */
    method LoadOrders(lines: seq<string>) returns (failure: Option<LineError>)
      requires Valid()
      modifies this`orders, this`fixedSize
      ensures Valid()
      ensures orders == PutAll(old(orders), DecodeLines(lines, DecodeOrderLine).records)
      ensures fixedSize == old(fixedSize) + EntryKeys(DecodeLines(lines, DecodeOrderLine).records)
      ensures failure == DecodeLines(lines, DecodeOrderLine).failure
      ensures users == old(users) && products == old(products)
    {
      failure := None;
      var i := 0;
      while i < |lines| && failure.None?
        invariant 0 <= i <= |lines|
        invariant Valid()
        invariant failure == DecodeLines(lines[..i], DecodeOrderLine).failure
        invariant orders == PutAll(old(orders), DecodeLines(lines[..i], DecodeOrderLine).records)
        invariant fixedSize == old(fixedSize) + EntryKeys(DecodeLines(lines[..i], DecodeOrderLine).records)
      {
        failure := LoadOrderLine(lines, i, old(orders), old(fixedSize));
        i := i + 1;
      }
      if failure.None? {
        assert lines[..i] == lines;
      } else {
        DecodeLinesStopsAtFailure(lines, i, DecodeOrderLine);
      }
    }

    /** One pass of `loadOrdersFromFile`'s loop: line `i` read and, if it has a colon, put into the ledger. */
    method LoadOrderLine(lines: seq<string>, i: nat, ghost ledger0: map<string, seq<string>>, ghost fixed0: set<string>)
      returns (failure: Option<LineError>)
      requires Valid() && i < |lines| && DecodeLines(lines[..i], DecodeOrderLine).failure.None?
      requires orders == PutAll(ledger0, DecodeLines(lines[..i], DecodeOrderLine).records)
      requires fixedSize == fixed0 + EntryKeys(DecodeLines(lines[..i], DecodeOrderLine).records)
      modifies this`orders, this`fixedSize
      ensures Valid()
      ensures failure == DecodeLines(lines[..i + 1], DecodeOrderLine).failure
      ensures orders == PutAll(ledger0, DecodeLines(lines[..i + 1], DecodeOrderLine).records)
      ensures fixedSize == fixed0 + EntryKeys(DecodeLines(lines[..i + 1], DecodeOrderLine).records)
    {
      ghost var done := DecodeLines(lines[..i], DecodeOrderLine).records;
      var read := DecodeNext(lines, i, DecodeOrderLine);
      if read.Failure? {
        failure := Some(LineError(i, read.error));
      } else {
        PutAllSnoc(ledger0, done, read.value);
        orders := orders[read.value.0 := read.value.1];
        fixedSize := fixedSize + {read.value.0};
        failure := None;
      }
    }
  }
}
