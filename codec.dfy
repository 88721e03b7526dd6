/**
 * The three one-record-per-line text formats the shop saves on exit and reads on
 * start-up: accounts (`users.txt`), products (`products.txt`) and the order ledger
 * (`orders.txt`), each as a pair of functions between a record and one line, plus
 * the whole-file reading that stops at the first line Java could not parse.
 */
module Codec {
  import opened Outcomes
  import opened JavaInt
  import opened JavaText

  /** An account. Java's `User` has no setters, so it is a value here. */
  datatype User = User(userId: string, name: string, password: string, role: string)

  /**
   * A price, kept as the text `Double.toString` writes for it: never empty and
   * never containing a comma. Its numeric value is not modelled.
   */
  type PriceText = s: string | s != "" && ',' !in s witness "0.0"

  /** The value of one product's fields (`Product` itself is an object of the store). */
  datatype ProductData = ProductData(productId: Int32, name: string, price: PriceText, stock: Int32)

  /** The exception the Java code throws on a line it cannot read. */
  datatype DecodeError =
    | MissingField   // ArrayIndexOutOfBoundsException: too few parts after split
    | NotAnInt       // NumberFormatException from Integer.parseInt
    | NotANumber     // NumberFormatException from Double.parseDouble

  /** The first unreadable line of a file (0-based) and why. */
  datatype LineError = LineError(line: nat, error: DecodeError)

  // ---------------------------------------------------------------- accounts

  /** `User.toString`: `id,name,password,role`; comma-free fields are its comma-separated pieces. */
  function EncodeUser(u: User): (r: string)
    ensures NoneContains(UserFields(u), ',') ==> Pieces(r, ',') == UserFields(u)
  {
    JoinOfFour(',', u.userId, u.name, u.password, u.role);
    assert NoneContains(UserFields(u), ',') ==> Pieces(Join(',', UserFields(u)), ',') == UserFields(u) by {
      if NoneContains(UserFields(u), ',') {
        PiecesOfJoin(',', UserFields(u));
      }
    }
    u.userId + "," + u.name + "," + u.password + "," + u.role
  }

  /** `User.fromString`: split at commas and take the first four parts. */
  function DecodeUser(line: string): (r: Result<User, DecodeError>)
    ensures r.Failure? <==> |Split(line, ',')| < 4
    ensures r.Success? ==> NoneContains(UserFields(r.value), ',')
  {
    var parts := Split(line, ',');
    if |parts| < 4 then Failure(MissingField)
    else Success(User(parts[0], parts[1], parts[2], parts[3]))
  }

  function UserFields(u: User): seq<string> {
    [u.userId, u.name, u.password, u.role]
  }

  /** What a user needs to survive a save and a load: no comma anywhere, and a non-empty role. */
  predicate WellFormedUser(u: User) {
    NoneContains(UserFields(u), ',') && u.role != ""
  }

  lemma JoinOfFour(d: char, a: string, b: string, c: string, e: string)
    ensures Join(d, [a, b, c, e]) == a + [d] + b + [d] + c + [d] + e
  {
    assert [a, b, c, e][1..] == [b, c, e];
    assert [b, c, e][1..] == [c, e];
    assert [c, e][1..] == [e];
    assert Join(d, [c, e]) == c + [d] + e;
    assert Join(d, [b, c, e]) == b + [d] + (c + [d] + e);
  }

  lemma UserRoundTrip(u: User)
    requires WellFormedUser(u)
    ensures DecodeUser(EncodeUser(u)) == Success(u)
  {
    JoinOfFour(',', u.userId, u.name, u.password, u.role);
    SplitJoinRoundTrip(',', UserFields(u));
  }

  /**
   * A name holding one comma shifts the fields: the account read back has the
   * name's second half as its password and the password as its role.
   */
  lemma CommaInNameShiftsFields(u: User, first: string, second: string)
    requires u.name == first + "," + second
    requires NoneContains([u.userId, first, second, u.password, u.role], ',') && u.role != ""
    ensures DecodeUser(EncodeUser(u)) == Success(User(u.userId, first, second, u.password))
  {
    var items := [u.userId, first, second, u.password, u.role];
    var tail := Join(',', [first, second, u.password, u.role]);
    JoinOfFour(',', first, second, u.password, u.role);
    assert tail == u.name + "," + u.password + "," + u.role;
    assert items[1..] == [first, second, u.password, u.role];
    assert Join(',', items) == u.userId + "," + tail;
    assert EncodeUser(u) == u.userId + "," + tail;
    SplitJoinRoundTrip(',', items);
  }

  // ---------------------------------------------------------------- products

  /** `Product.toString`: `id,name,price,stock`; with a comma-free name those are its comma-separated pieces. */
  function EncodeProduct(p: ProductData): (r: string)
    ensures ',' !in p.name ==> Pieces(r, ',') == [IntToString(p.productId), p.name, p.price, IntToString(p.stock)]
  {
    var fields := [IntToString(p.productId), p.name, p.price, IntToString(p.stock)];
    JoinOfFour(',', fields[0], fields[1], fields[2], fields[3]);
    assert ',' !in p.name ==> Pieces(Join(',', fields), ',') == fields by {
      if ',' !in p.name {
        IntToStringHasNoComma(p.productId);
        IntToStringHasNoComma(p.stock);
        PiecesOfJoin(',', fields);
      }
    }
    IntToString(p.productId) + "," + p.name + "," + p.price + "," + IntToString(p.stock)
  }

  /** `Double.parseDouble`, reduced to rejecting the empty string (the text is kept as it is). */
  function ParsePrice(s: string): (r: Option<PriceText>)
    ensures s != "" && ',' !in s ==> r == Some(s)
  {
    if s != "" && ',' !in s then Some(s) else None
  }

  /**
   * `Product.fromString`: split at commas, then parse the parts in Java's
   * left-to-right argument order, so the first failing access or parse decides
   * the error.
   */
  function DecodeProduct(line: string): (r: Result<ProductData, DecodeError>)
    ensures r.Success? ==> ',' !in r.value.name
  {
    var parts := Split(line, ',');
    if |parts| < 1 then Failure(MissingField)
    else match ParseInt(parts[0])
      case None => Failure(NotAnInt)
      case Some(id) =>
        if |parts| < 3 then Failure(MissingField)
        else match ParsePrice(parts[2])
          case None => Failure(NotANumber)
          case Some(price) =>
            if |parts| < 4 then Failure(MissingField)
            else match ParseInt(parts[3])
              case None => Failure(NotAnInt)
              case Some(stock) => Success(ProductData(id, parts[1], price, stock))
  }

  lemma IntToStringHasNoComma(n: int)
    ensures ',' !in IntToString(n)
  {
  }

  /** A product whose name has no comma is read back with all four fields unchanged. */
  lemma ProductRoundTrip(p: ProductData)
    requires ',' !in p.name
    ensures DecodeProduct(EncodeProduct(p)) == Success(p)
  {
    var fields: seq<string> := [IntToString(p.productId), p.name, p.price, IntToString(p.stock)];
    IntToStringHasNoComma(p.productId);
    IntToStringHasNoComma(p.stock);
    JoinOfFour(',', fields[0], fields[1], fields[2], fields[3]);
    SplitJoinRoundTrip(',', fields);
    IntRoundTrip(p.productId);
    IntRoundTrip(p.stock);
  }

  // ---------------------------------------------------------------- order ledger

  /** The ledger entry `buyProduct` records: `"<name> x <quantity>"`. */
  function OrderItem(name: string, quantity: Int32): (item: string)
    ensures |item| > |name|
    ensures ',' !in name ==> ',' !in item
  {
    IntToStringHasNoComma(quantity);
    name + " x " + IntToString(quantity)
  }

  /** Three pens make the history entry "Pen x 3". */
  lemma PenOrderItem()
    ensures OrderItem("Pen", 3) == "Pen x 3"
  {
  }

  /** One line of `saveOrdersToFile`: `userId:item1,item2,...`. */
  function EncodeOrderLine(userId: string, items: seq<string>): (r: string)
    ensures ':' in r
    ensures ':' !in userId ==> SplitAtFirst(r, ':') == Some((userId, Join(',', items)))
  {
    assert (userId + ":" + Join(',', items))[|userId|] == ':';
    assert ':' !in userId ==> SplitAtFirst(userId + [':'] + Join(',', items), ':') == Some((userId, Join(',', items))) by {
      if ':' !in userId {
        SplitAtFirstOfJoin(userId, ':', Join(',', items));
      }
    }
    userId + ":" + Join(',', items)
  }

  /** One line of `loadOrdersFromFile`: split at the first colon, then split the rest at commas. */
  function DecodeOrderLine(line: string): (r: Result<(string, seq<string>), DecodeError>)
    ensures r.Failure? <==> ':' !in line
    ensures r.Success? ==> ':' !in r.value.0
  {
    match SplitAtFirst(line, ':')
    case None => Failure(MissingField)
    case Some((userId, rest)) => Success((userId, Split(rest, ',')))
  }

  /** What a history needs to survive a save and a load. */
  predicate WellFormedHistory(items: seq<string>) {
    && |items| >= 1
    && NoneContains(items, ',')
    && (|items| == 1 || items[|items| - 1] != "")
  }

  lemma OrderLineRoundTrip(userId: string, items: seq<string>)
    requires ':' !in userId && WellFormedHistory(items)
    ensures DecodeOrderLine(EncodeOrderLine(userId, items)) == Success((userId, items))
  {
    SplitAtFirstOfJoin(userId, ':', Join(',', items));
    SplitJoinRoundTrip(',', items);
  }

  /** An empty history is saved as `userId:` and read back as the one-item history `[""]`. */
  lemma EmptyHistoryDoesNotRoundTrip(userId: string)
    requires ':' !in userId
    ensures DecodeOrderLine(EncodeOrderLine(userId, [])) == Success((userId, [""]))
  {
    SplitAtFirstOfJoin(userId, ':', "");
  }

  // ---------------------------------------------------------------- whole files

  /** The records read before the first unreadable line, and that line if there is one. */
  datatype Loaded<T> = Loaded(records: seq<T>, failure: Option<LineError>)

  /**
   * Reading a file line by line with `decode`: the `load*FromFile` loops stop at the
   * first line whose decoding throws, after adding every earlier record.
   */
  function DecodeLines<T>(lines: seq<string>, decode: string -> Result<T, DecodeError>): (r: Loaded<T>)
    ensures r.failure.None? ==> |r.records| == |lines|
    ensures r.failure.Some? ==>
              && r.failure.value.line == |r.records| < |lines|
              && decode(lines[|r.records|]) == Failure(r.failure.value.error)
  {
    if lines == [] then Loaded([], None)
    else
      var init := DecodeLines(lines[..|lines| - 1], decode);
      if init.failure.Some? then init
      else match decode(lines[|lines| - 1])
        case Failure(e) => Loaded(init.records, Some(LineError(|lines| - 1, e)))
        case Success(x) => Loaded(init.records + [x], None)
  }

  /** Every record read is what its own line decodes to. */
  lemma {:induction false} DecodedRecordsMatchLines<T>(lines: seq<string>, decode: string -> Result<T, DecodeError>)
    ensures forall i :: 0 <= i < |DecodeLines(lines, decode).records| ==>
              decode(lines[i]) == Success(DecodeLines(lines, decode).records[i])
  {
    if lines != [] {
      DecodedRecordsMatchLines(lines[..|lines| - 1], decode);
    }
  }

  /** Once a prefix of the file has failed, the rest of the file is never looked at. */
  lemma {:induction false} DecodeLinesStopsAtFailure<T>(
    lines: seq<string>, n: nat, decode: string -> Result<T, DecodeError>)
    requires n <= |lines| && DecodeLines(lines[..n], decode).failure.Some?
    ensures DecodeLines(lines, decode) == DecodeLines(lines[..n], decode)
  {
    if n < |lines| {
      assert lines[..|lines| - 1][..n] == lines[..n];
      DecodeLinesStopsAtFailure(lines[..|lines| - 1], n, decode);
    } else {
      assert lines[..n] == lines;
    }
  }

  /** Reading one more line after a good prefix: either one more record, or the failure at that line. */
  lemma DecodeLinesStep<T>(
    lines: seq<string>, i: nat, decode: string -> Result<T, DecodeError>, read: Result<T, DecodeError>)
    requires i < |lines| && DecodeLines(lines[..i], decode).failure.None? && decode(lines[i]) == read
    ensures read.Failure? ==>
              DecodeLines(lines[..i + 1], decode) == Loaded(DecodeLines(lines[..i], decode).records, Some(LineError(i, read.error)))
    ensures read.Success? ==>
              DecodeLines(lines[..i + 1], decode) == Loaded(DecodeLines(lines[..i], decode).records + [read.value], None)
  {
    assert lines[..i + 1][..i] == lines[..i];
  }

  /** Decodes line `i` after a good prefix, telling how that line extends what the prefix read. */
  method DecodeNext<T>(lines: seq<string>, i: nat, decode: string -> Result<T, DecodeError>)
    returns (read: Result<T, DecodeError>)
    requires i < |lines| && DecodeLines(lines[..i], decode).failure.None?
    ensures read.Failure? ==>
              DecodeLines(lines[..i + 1], decode) == Loaded(DecodeLines(lines[..i], decode).records, Some(LineError(i, read.error)))
    ensures read.Success? ==>
              DecodeLines(lines[..i + 1], decode) == Loaded(DecodeLines(lines[..i], decode).records + [read.value], None)
  {
    read := decode(lines[i]);
    DecodeLinesStep(lines, i, decode, read);
  }

  /** Lines that each decode to the matching record are read back as exactly those records. */
  lemma {:induction false} DecodeEncodedLines<T>(
    lines: seq<string>, xs: seq<T>, decode: string -> Result<T, DecodeError>)
    requires |lines| == |xs|
    requires forall i :: 0 <= i < |lines| ==> decode(lines[i]) == Success(xs[i])
    ensures DecodeLines(lines, decode) == Loaded(xs, None)
  {
    if lines != [] {
      DecodeEncodedLines(lines[..|lines| - 1], xs[..|xs| - 1], decode);
      assert xs[..|xs| - 1] + [xs[|xs| - 1]] == xs;
    }
  }

  /** `saveUsersToFile`: one line per account, in list order. */
  function UserLines(us: seq<User>): (lines: seq<string>)
    ensures |lines| == |us|
  {
    seq(|us|, i requires 0 <= i < |us| => EncodeUser(us[i]))
  }

  /** `saveProductsToFile`: one line per product, in list order. */
  function ProductLines(ps: seq<ProductData>): (lines: seq<string>)
    ensures |lines| == |ps|
  {
    seq(|ps|, i requires 0 <= i < |ps| => EncodeProduct(ps[i]))
  }

  lemma UsersFileRoundTrip(us: seq<User>)
    requires forall i :: 0 <= i < |us| ==> WellFormedUser(us[i])
    ensures DecodeLines(UserLines(us), DecodeUser) == Loaded(us, None)
  {
    forall i | 0 <= i < |us| ensures DecodeUser(UserLines(us)[i]) == Success(us[i]) {
      UserRoundTrip(us[i]);
    }
    DecodeEncodedLines(UserLines(us), us, DecodeUser);
  }

  lemma ProductsFileRoundTrip(ps: seq<ProductData>)
    requires forall i :: 0 <= i < |ps| ==> ',' !in ps[i].name
    ensures DecodeLines(ProductLines(ps), DecodeProduct) == Loaded(ps, None)
  {
    forall i | 0 <= i < |ps| ensures DecodeProduct(ProductLines(ps)[i]) == Success(ps[i]) {
      ProductRoundTrip(ps[i]);
    }
    DecodeEncodedLines(ProductLines(ps), ps, DecodeProduct);
  }

  /**
   * `order` lists every key of the ledger exactly once: the unspecified order in
   * which `HashMap.entrySet()` yields the entries.
   */
  predicate IsEnumeration(order: seq<string>, ledger: map<string, seq<string>>) {
    && (forall i, j :: 0 <= i < j < |order| ==> order[i] != order[j])
    && (forall k :: k in ledger ==> k in order)
    && (forall i :: 0 <= i < |order| ==> order[i] in ledger)
  }

  /** `saveOrdersToFile`: one line per ledger entry, in the map's iteration order. */
  function OrderLines(ledger: map<string, seq<string>>, order: seq<string>): (lines: seq<string>)
    requires forall i :: 0 <= i < |order| ==> order[i] in ledger
    ensures |lines| == |order|
  {
    seq(|order|, i requires 0 <= i < |order| => EncodeOrderLine(order[i], ledger[order[i]]))
  }

  /** The keys of a sequence of ledger entries. */
  function EntryKeys(entries: seq<(string, seq<string>)>): set<string> {
    if entries == [] then {} else EntryKeys(entries[..|entries| - 1]) + {entries[|entries| - 1].0}
  }

  /** `orders.put(key, items)` for every decoded line, in file order; a later line replaces an earlier one. */
  function PutAll(ledger: map<string, seq<string>>, entries: seq<(string, seq<string>)>): (r: map<string, seq<string>>)
    ensures r.Keys == ledger.Keys + EntryKeys(entries)
  {
    if entries == [] then ledger
    else
      var last := entries[|entries| - 1];
      PutAll(ledger, entries[..|entries| - 1])[last.0 := last.1]
  }

  lemma PutAllSnoc(ledger: map<string, seq<string>>, entries: seq<(string, seq<string>)>, e: (string, seq<string>))
    ensures PutAll(ledger, entries + [e]) == PutAll(ledger, entries)[e.0 := e.1]
    ensures EntryKeys(entries + [e]) == EntryKeys(entries) + {e.0}
  {
    assert (entries + [e])[..|entries|] == entries;
  }

  lemma {:induction false} PutAllDistinct(
    ledger: map<string, seq<string>>, order: seq<string>, entries: seq<(string, seq<string>)>)
    requires forall i :: 0 <= i < |order| ==> order[i] in ledger
    requires |entries| == |order|
    requires forall i :: 0 <= i < |order| ==> entries[i] == (order[i], ledger[order[i]])
    ensures PutAll(map[], entries) == map k | k in order :: ledger[k]
  {
    if entries != [] {
      var n := |entries| - 1;
      PutAllDistinct(ledger, order[..n], entries[..n]);
      assert (map k | k in order :: ledger[k])
          == (map k | k in order[..n] :: ledger[k])[order[n] := ledger[order[n]]] by {
        assert forall k :: k in order <==> k in order[..n] || k == order[n];
      }
    }
  }

  /**
   * Saving the ledger in any iteration order and loading it back into an empty map
   * gives the same ledger, when no key contains `:` and every history is well formed.
   */
  lemma OrdersFileRoundTrip(ledger: map<string, seq<string>>, order: seq<string>)
    requires IsEnumeration(order, ledger)
    requires forall k :: k in ledger ==> ':' !in k && WellFormedHistory(ledger[k])
    ensures DecodeLines(OrderLines(ledger, order), DecodeOrderLine).failure.None?
    ensures PutAll(map[], DecodeLines(OrderLines(ledger, order), DecodeOrderLine).records) == ledger
  {
    var lines := OrderLines(ledger, order);
    var entries := seq(|order|, i requires 0 <= i < |order| => (order[i], ledger[order[i]]));
    forall i | 0 <= i < |order| ensures DecodeOrderLine(lines[i]) == Success(entries[i]) {
      OrderLineRoundTrip(order[i], ledger[order[i]]);
    }
    DecodeEncodedLines(lines, entries, DecodeOrderLine);
    PutAllDistinct(ledger, order, entries);
    EnumerationCoversLedger(ledger, order);
  }

  lemma EnumerationCoversLedger(ledger: map<string, seq<string>>, order: seq<string>)
    requires IsEnumeration(order, ledger)
    ensures (map k | k in order :: ledger[k]) == ledger
  {
  }
}
