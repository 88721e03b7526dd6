# Shopping Management System — a Dafny model

This project models the core of a console shop written in Java. All of it lives in
`ShoppingManagementSystem.java`. The model covers three parts:

- **The line formats the shop saves and reloads.**
  - An account is written `id,name,password,role` and read back by `User.fromString`.
  - A product is written `id,name,price,stock` and read back by `Product.fromString`.
  - A user's purchase history is one ledger line, `userId:item1,item2,...`.
- **The in-memory store.** This covers:
  - the account list, with `register`, `login` and `getUserById`;
  - the product catalogue, whose entries are objects with a mutable stock, with `addProduct`, `getProductById` and `reduceStock`;
  - the order ledger (a hash map from user id to purchase history), with `buyProduct`.
- **Loading and saving.** These are functions between store contents and the lines of a file.
  - Loading stops at the first line that Java could not parse.
  - Every record read before that line has already been added.

Modules:

- `Outcomes` (`outcomes.dfy`): `Option` and `Result`.
- `JavaInt` (`java_int.dfy`): Java's 32-bit `int`, covering the wrap-around of subtraction, `Integer.toString` and `Integer.parseInt`.
- `JavaText` (`java_text.dfy`): `String.split` with a one-character delimiter, with and without limit 2; `String.join`; and `equalsIgnoreCase`.
- `Codec` (`codec.dfy`): the three record formats and reading a whole file.
- `Store` (`store.dfy`):
  - the class `Product`, whose `stock` is the only field that changes;
  - the class `Shop`, which holds the three process-wide collections (`users`, `products`, `orders`);
  - the value-level functions that specify the store's operations.
- `Scenarios` (`scenarios.dfy`): three sample sessions, checked from the store's contracts alone.

Console input becomes method arguments. A file becomes a `seq<string>` of its lines. The iteration order of the ledger's `HashMap` becomes a parameter.

A purchase from a history that was reloaded from file is modelled as the code behaves. Such a history was stored with `Arrays.asList`, which is a fixed-size list. Its `add` therefore throws, and it does so after the stock has already been reduced. So, unlike an append to an in-memory `ArrayList`, this second step of a purchase can fail, and the model returns that failure together with the reduced stock.

## Model

| member | source | states |
|---|---|---|
| JavaInt.Wrap32 | ShoppingManagementSystem.java:69-71 | The result is a Java `int`, and it equals the exact value whenever that value fits. |
| JavaInt.Wrap32Congruent | ShoppingManagementSystem.java:69-71 | The wrapped value differs from the exact one by a multiple of 2^32 (two's-complement wrap). |
| JavaInt.NatToDigits | ShoppingManagementSystem.java:75 | Decimal digits are non-empty, all digits, and have no leading zero unless the value is 0. |
| JavaInt.DigitsRoundTrip | ShoppingManagementSystem.java:75 | Reading back the digits of `n` gives `n`. |
| JavaInt.IntToString | ShoppingManagementSystem.java:75 | The text is non-empty, starts with `-` exactly for negative values, and holds only `-` and digits (so no comma). |
| JavaInt.ParseInt | ShoppingManagementSystem.java:80 | A parse succeeds only on a non-empty text that starts with a sign or a digit. |
| JavaInt.ParseIntMeaning | ShoppingManagementSystem.java:80 | A parse succeeds only on an optional sign followed by at least one digit and nothing else, so `"1a"`, `"--1"` and `"-"` fail. A successful parse has the digits' value, negated after `-`. A digit string parses exactly when its value is at most 2147483647, and `-` followed by digits exactly when the magnitude is at most 2147483648. |
| JavaInt.IntRoundTrip | ShoppingManagementSystem.java:75-80 | `Integer.parseInt(Integer.toString(n)) == n` for every `int`. |
| JavaText.Join | ShoppingManagementSystem.java:342 | The joined text is free of the delimiter exactly when there is at most one item and no item contains the delimiter. |
| JavaText.Fold | ShoppingManagementSystem.java:137 | Folding never yields an ASCII capital, agrees with ASCII lower-casing on ASCII characters, and changes a character only into an ASCII lower-case letter. |
| JavaText.CharEqualsIgnoreCase | ShoppingManagementSystem.java:137 | Between ASCII characters, two characters match exactly when their ASCII lower-case forms are equal. |
| JavaText.EqualsIgnoreCase | ShoppingManagementSystem.java:137 | A match implies equal lengths, and every string matches itself. |
| JavaText.AsciiEqualsIgnoreCase | ShoppingManagementSystem.java:137 | Between ASCII texts, `equalsIgnoreCase` holds exactly when the ASCII lower-cased texts are equal. |
| JavaText.Pieces | ShoppingManagementSystem.java:35 | There is at least one piece, and no piece contains the delimiter. |
| JavaText.DropTrailingEmpty | ShoppingManagementSystem.java:35 | The result is a prefix of the input that does not end in `""`, and only empty strings were dropped. |
| JavaText.Split | ShoppingManagementSystem.java:35 | No part contains the delimiter, and a string without the delimiter splits to itself alone. |
| JavaText.SplitAtFirst | ShoppingManagementSystem.java:331 | The result is `None` exactly when the delimiter is absent; otherwise `s == before + [d] + after` with `before` free of `d`. |
| JavaText.PiecesOfJoin | ShoppingManagementSystem.java:342 | The pieces of a join of delimiter-free items are exactly those items, empty ones included. |
| JavaText.SplitJoinRoundTrip | ShoppingManagementSystem.java:331-342 | `join(d, items).split(d) == items` for delimiter-free items whose last item is non-empty, or which have exactly one item. |
| JavaText.EmptyListDoesNotRoundTrip | ShoppingManagementSystem.java:331-342 | The empty list joins to `""`, which splits to `[""]`. |
| JavaText.TrailingEmptyItemIsLost | ShoppingManagementSystem.java:331-342 | `["a", ""]` joins to `"a,"`, which splits to `["a"]`. |
| JavaText.SplitAtFirstOfJoin | ShoppingManagementSystem.java:331-342 | Splitting `a + ":" + b` at the first `:` gives back `a` and `b` when `a` has no `:`. |
| Codec.EncodeUser | ShoppingManagementSystem.java:29-32 | When no field contains a comma, the line's comma-separated pieces are exactly the id, name, password and role. |
| Codec.DecodeUser | ShoppingManagementSystem.java:34-37 | Decoding fails (index out of bounds) exactly when the split has fewer than 4 parts; the fields read never contain a comma. |
| Codec.UserRoundTrip | ShoppingManagementSystem.java:30-37 | `fromString(toString(u)) == u` when no field contains a comma and the role is non-empty. |
| Codec.CommaInNameShiftsFields | ShoppingManagementSystem.java:30-37 | A comma in the name shifts the fields: the second half of the name becomes the password and the password becomes the role. |
| Codec.EncodeProduct | ShoppingManagementSystem.java:73-76 | When the name has no comma, the line's comma-separated pieces are exactly the id's text, the name, the price text and the stock's text. |
| Codec.ParsePrice | ShoppingManagementSystem.java:80 | Every non-empty, comma-free price text parses to itself. |
| Codec.DecodeProduct | ShoppingManagementSystem.java:78-81 | A decoded product's name contains no comma. |
| Codec.ProductRoundTrip | ShoppingManagementSystem.java:74-81 | `fromString(toString(p)) == p` (id, name, price text and stock) when the name has no comma. |
| Codec.OrderItem | ShoppingManagementSystem.java:249 | The entry `name + " x " + quantity` is longer than the name and is comma-free when the name is. |
| Codec.PenOrderItem | ShoppingManagementSystem.java:249 | Three pens are recorded as `"Pen x 3"`. |
| Codec.EncodeOrderLine | ShoppingManagementSystem.java:342 | The line contains a `:`; when the key has none, the text before the first `:` is the key and the text after it is the joined history. |
| Codec.DecodeOrderLine | ShoppingManagementSystem.java:331-332 | Decoding fails (index out of bounds) exactly when the line has no `:`; the key never contains `:`. |
| Codec.OrderLineRoundTrip | ShoppingManagementSystem.java:331-342 | A ledger line decodes to the same key and history when the key has no `:`, the history is non-empty and comma-free, and its last item is non-empty unless it is the only one. |
| Codec.EmptyHistoryDoesNotRoundTrip | ShoppingManagementSystem.java:331-342 | An empty history is saved as `userId:` and reloaded as `[""]`. |
| Codec.DecodeLines | ShoppingManagementSystem.java:283-292 | With no failure, every line gave a record; otherwise the failure is at the first line not consumed, and it is that line's own error. |
| Codec.DecodedRecordsMatchLines | ShoppingManagementSystem.java:283-292 | Record `i` is what line `i` decodes to. |
| Codec.DecodeLinesStopsAtFailure | ShoppingManagementSystem.java:283-292 | Once a prefix fails, the lines after it are never read. |
| Codec.DecodeLinesStep | ShoppingManagementSystem.java:286-287 | One more line either adds one record or is the failure at that line. |
| Codec.DecodeNext | ShoppingManagementSystem.java:286-287 | Reading line `i` after a good prefix extends the prefix's result by that line's record or failure. |
| Codec.DecodeEncodedLines | ShoppingManagementSystem.java:283-292 | Lines that each decode to the matching record are read back as exactly those records. |
| Codec.UserLines | ShoppingManagementSystem.java:294-303 | One line is saved per account. |
| Codec.ProductLines | ShoppingManagementSystem.java:316-325 | One line is saved per product. |
| Codec.UsersFileRoundTrip | ShoppingManagementSystem.java:283-303 | Saving well-formed accounts and loading them reads back the same list, with no failure. |
| Codec.ProductsFileRoundTrip | ShoppingManagementSystem.java:305-325 | Saving products with comma-free names and loading them reads back the same catalogue values, with no failure. |
| Codec.OrderLines | ShoppingManagementSystem.java:339-348 | One line is saved per ledger entry, in the map's iteration order. |
| Codec.PutAll | ShoppingManagementSystem.java:332 | The keys afterwards are the old keys plus every key read. |
| Codec.PutAllSnoc | ShoppingManagementSystem.java:332 | Putting one more entry overrides that key and adds it to the key set. |
| Codec.PutAllDistinct | ShoppingManagementSystem.java:332 | Putting entries with distinct keys into an empty map gives exactly those entries. |
| Codec.OrdersFileRoundTrip | ShoppingManagementSystem.java:327-348 | Saving the ledger in any iteration order and loading it into an empty map reproduces the ledger, when keys have no `:` and histories are well formed. |
| Codec.EnumerationCoversLedger | ShoppingManagementSystem.java:341 | An enumeration of the keys covers the whole map. |
| Store.FirstUserIndex | ShoppingManagementSystem.java:265-272 | The index found is the first whose id matches; `None` exactly when no account has the id. |
| Store.LookupUser | ShoppingManagementSystem.java:265-272 | `null` exactly when no account has the id; otherwise an account of the list with that id. |
| Store.FirstProductIndex | ShoppingManagementSystem.java:274-281 | The index found is the first whose id matches; `None` exactly when no product has the id. |
| Store.UniqueIdsLookup | ShoppingManagementSystem.java:265-272 | With unique ids, looking up an account's id finds exactly that account. |
| Store.AppendFreshIdKeepsUnique | ShoppingManagementSystem.java:125-142 | Appending an account whose id is not yet taken keeps ids unique. |
| Store.IsRecognizedRole | ShoppingManagementSystem.java:137 | An accepted role has length 5 or 8. |
| Store.AsciiRoles | ShoppingManagementSystem.java:137 | An ASCII role is accepted exactly when it lower-cases to `admin` or `customer`. |
| Store.RolesAreExclusive | ShoppingManagementSystem.java:137-158 | No role equals both "Admin" and "Customer" ignoring case. |
| Store.RoleCaseIsIgnored | ShoppingManagementSystem.java:137 | "ADMIN", "admin" and "cUSTOMER" are accepted roles. |
| Store.OtherRolesAreRefused | ShoppingManagementSystem.java:137-140 | "Admins", "" and "Guest" are refused. |
| Store.StockAfterPurchaseAsWritten | ShoppingManagementSystem.java:242-248 | The code as written refuses exactly when `stock < quantity`; otherwise it gives `stock - quantity` when that fits in an `int`. |
| Store.AsWrittenStockCanGoNegative | ShoppingManagementSystem.java:242-248 | Stock 2147483647 with quantity -1 is accepted and leaves stock -2147483648. |
| Store.StockAfterPurchase | ShoppingManagementSystem.java:242-248 | The corrected guard refuses exactly when `stock < quantity` or the result overflows; an accepted purchase leaves exactly `stock - quantity`, which is at least 0. |
| Store.CorrectedGuardAgreesWithoutOverflow | ShoppingManagementSystem.java:242-248 | Where nothing overflows, the corrected guard behaves as the code does. |
| Store.Purchase | ShoppingManagementSystem.java:242-248 | A purchase is refused exactly when no product has the id or the guard refuses; otherwise the first matching product is the one changed, and its new stock is `stock - quantity ≥ 0`. |
| Store.SequentialIdsLookup | ShoppingManagementSystem.java:274-281 | With ids 1..n in order, id `k` finds the k-th product and any other id finds none. |
| Store.Product.constructor | ShoppingManagementSystem.java:46-51 | A new product holds exactly the given fields. |
| Store.Product.ReduceStock | ShoppingManagementSystem.java:69-71 | The stock becomes `stock - quantity` in 32-bit arithmetic, unconditionally. |
| Store.DataOf | ShoppingManagementSystem.java:87 | The catalogue read as values has one entry per product object. |
| Store.DataOfEntries | ShoppingManagementSystem.java:87 | Entry `i` is the current value of product object `i`. |
| Store.Shop.constructor | ShoppingManagementSystem.java:86-88 | The shop starts with no accounts, products or ledger entries. |
| Store.Shop.HistoryOf | ShoppingManagementSystem.java:249 | A user in the ledger has their stored history. Any user with a non-empty history is in the ledger, so an absent one reads as the new empty list of `computeIfAbsent`. |
| Store.Shop.GetUserById | ShoppingManagementSystem.java:265-272 | The loop returns the first account with the id, or `null`. |
| Store.Shop.GetProductById | ShoppingManagementSystem.java:274-281 | The loop returns the object at the first index with the id, or `null` exactly when there is none. |
| Store.Shop.Register | ShoppingManagementSystem.java:122-144 | A taken id is refused first; an unrecognized role is refused next; otherwise exactly one account is appended with the role as typed. Unique ids stay unique, and nothing else changes. |
| Store.Shop.Login | ShoppingManagementSystem.java:146-163 | Login succeeds iff the first account with the id has exactly that password. It opens the admin menu iff the role equals "Admin" ignoring case; otherwise it opens the customer menu for that id. |
| Store.Shop.AddProduct | ShoppingManagementSystem.java:211-222 | A new product object with id `size + 1` is appended and existing products are unchanged. Sequential ids stay sequential. |
| Store.Shop.BuyProduct | ShoppingManagementSystem.java:236-251 | A refused purchase changes nothing. Otherwise only the found product's stock changes, to `stock - quantity`. Then `"<name> x <quantity>"` is appended to the buyer's history (created if absent), unless that history was reloaded and is fixed-size. No other history changes. |
| Store.Shop.Sell | ShoppingManagementSystem.java:248-249 | The accepted branch: one stock change, then the append or the fixed-size failure. |
| Store.Shop.RecordPurchase | ShoppingManagementSystem.java:249 | `computeIfAbsent(...).add(item)` appends at the end of the user's history, creating it if absent; it fails, changing nothing, exactly on a reloaded history. |
| Store.Shop.ReduceStockOf | ShoppingManagementSystem.java:248 | Only the catalogue entry of that object changes. |
| Store.Shop.LoadUsers | ShoppingManagementSystem.java:283-292 | The accounts read are appended, and the load stops at the first unreadable line. The store's invariant is kept. |
| Store.Shop.AppendProduct | ShoppingManagementSystem.java:309 | A new product object holding the decoded values is appended at the end of the list. |
| Store.Shop.LoadProducts | ShoppingManagementSystem.java:305-314 | The values read are appended to the catalogue, each as a new product object not allocated before the load. The existing objects keep their places, and the load stops at the first unreadable line. |
| Store.Shop.LoadProductLine | ShoppingManagementSystem.java:308-309 | One pass of the loop extends the loaded catalogue by that line, appending at most one object, and that object is new. |
| Store.Shop.LoadOrders | ShoppingManagementSystem.java:327-337 | Each line's history is put under its key, a later line replacing an earlier one, and marked fixed-size. The load stops at the first line without a colon. |
| Store.Shop.LoadOrderLine | ShoppingManagementSystem.java:330-332 | One pass of the loop extends the loaded ledger by that line. |

## Left out

- Console input and output, and the menu loops: `main`, `adminMenu`, `customerMenu`, `viewProducts` and `viewPurchaseHistory` only read input or print. Their input becomes method arguments.
- File handling: opening, writing and closing files, `BufferedReader.readLine`'s line splitting, `newLine`, and the `IOException` branches. A file is the sequence of its lines. A missing file leaves the lists as they were, which is the same as loading no lines.
- Exception propagation: a malformed line at start-up, and the fixed-size `add` during a purchase, throw runtime exceptions that nothing catches, so the program ends without saving. The model returns a failure value together with the state at the moment of the throw.
- `Codec.ParsePrice`: `Double.parseDouble`'s grammar is not modelled; every non-empty text is accepted. The price is kept as the text `Double.toString` wrote, so its numeric value and its normalisation (`1.50` printed as `1.5`) are not modelled.
- `JavaInt.ParseInt`: only ASCII digits are accepted, whereas `Character.digit` also accepts other Unicode decimal digits.
- `JavaText.EqualsIgnoreCase`: case pairs between two non-ASCII letters are not modelled. The comparison is exact whenever one side is ASCII, which covers every use in the shop ("Admin" and "Customer"). `JavaText.AsciiEqualsIgnoreCase` characterises only the case where both sides are ASCII, as equality after ASCII lower-casing.
- `Store.Shop.BuyProduct`: uses the corrected purchase guard from "Findings". The guard as written is kept, and its overflow exhibited, in `Store.StockAfterPurchaseAsWritten`.
- `Codec.OrderLines`: the `HashMap` iteration order is a parameter. `Codec.OrdersFileRoundTrip` holds for every order.
- The JVM's limit on an `ArrayList`'s size is not modelled. The `int` wrap of `products.size() + 1` is modelled.

## Findings

| source | as written | input that shows it | evidently intended | confidence | as-written member | corrected member |
|---|---|---|---|---|---|---|
| ShoppingManagementSystem.java:242-248 | `buyProduct` refuses only when `stock < quantity`, then `reduceStock` computes `stock -= quantity` in `int` arithmetic. A negative quantity passes the guard and the subtraction can wrap. | stock = 2147483647, quantity = -1: accepted, new stock -2147483648 | A successful purchase never leaves a negative stock, so a purchase whose new stock does not fit in an `int` is refused | not executed | Store.StockAfterPurchaseAsWritten (shown by Store.AsWrittenStockCanGoNegative) | Store.StockAfterPurchase (used by Store.Purchase and Store.Shop.BuyProduct) |
