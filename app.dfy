/**
 * The request handlers around the store: the checks the medicine and
 * customer forms apply before they write, the shopping cart of the sale page,
 * the dashboard's prescription count, the low-stock alert and the report
 * page's date-order check.
 */
module App {

  import opened Wrappers
  import opened Text
  import opened Table
  import opened Database

  // ---------------------------------------------------------------------------
  // Choosing a row by name
  // ---------------------------------------------------------------------------

  /** The name column of each table, the key of the pages' name-to-id dictionaries. */
  function MedicineName(d: MedicineData): string { d.name }

  function CustomerName(d: CustomerData): string { d.name }

  /** Row `i` carries the name and no later row does. */
  ghost predicate LastNamed<T>(rows: seq<Row<T>>, nameOf: T -> string, name: string, i: int)
  {
    0 <= i < |rows| && nameOf(rows[i].data) == name && forall j :: i < j < |rows| ==> nameOf(rows[j].data) != name
  }

  /**
   * `{m.name: m.id for m in medicines}[name]` and its customer twin: the
   * dictionary keeps the id of the last row carrying the name, and that id
   * finds a row. The medicine pages pass `MedicineName`, the customer pages
   * `CustomerName`.
   */
  function IdByName<T>(rows: seq<Row<T>>, nameOf: T -> string, name: string): (r: Option<int>)
    ensures r.None? <==> forall i :: 0 <= i < |rows| ==> nameOf(rows[i].data) != name
    ensures r.Some? ==> Find(rows, r.value).Some?
  {
    if rows == [] then None
    else
      var n := |rows| - 1;
      if nameOf(rows[n].data) == name then
        assert rows[n] in rows;
        Some(rows[n].id)
      else
        var r := IdByName(rows[..n], nameOf, name);
        assert forall i :: 0 <= i < n ==> rows[..n][i] == rows[i];
        if r.Some? then
          assert forall row :: row in rows[..n] ==> row in rows;
          r
        else r
  }

  /** The id found is that of the last row carrying the name. */
  lemma {:induction false} IdIsLast<T>(rows: seq<Row<T>>, nameOf: T -> string, name: string, i: int)
    requires LastNamed(rows, nameOf, name, i)
    ensures IdByName(rows, nameOf, name) == Some(rows[i].id)
  {
    var n := |rows| - 1;
    if i < n {
      assert nameOf(rows[n].data) != name;
      assert IdByName(rows, nameOf, name) == IdByName(rows[..n], nameOf, name);
      assert rows[..n][i] == rows[i];
      forall j | i < j < n
        ensures nameOf(rows[..n][j].data) != name
      {
        assert rows[..n][j] == rows[j];
      }
      IdIsLast(rows[..n], nameOf, name, i);
    }
  }

  // ---------------------------------------------------------------------------
  // The medicine form
  // ---------------------------------------------------------------------------

  /** The checks of the add and update medicine forms, in the order they run. */
  datatype MedicineRule = BlankName | BlankCategory | BuyPriceNotPositive | SellPriceNotPositive | NegativeStock
  {
    function Rank(): nat
    {
      match this
      case BlankName => 0
      case BlankCategory => 1
      case BuyPriceNotPositive => 2
      case SellPriceNotPositive => 3
      case NegativeStock => 4
    }

    /** The error the add form shows. */
    function AddMessage(): string
    {
      match this
      case BlankName => "Medicine Name cannot be empty."
      case BlankCategory => "Category cannot be empty."
      case BuyPriceNotPositive => "Buy Price must be greater than 0."
      case SellPriceNotPositive => "Sell Price must be greater than 0."
      case NegativeStock => "Stock cannot be negative."
    }

    /** The error the update form shows. */
    function UpdateMessage(): string
    {
      match this
      case BlankName => "New Name cannot be empty."
      case BlankCategory => "New Category cannot be empty."
      case BuyPriceNotPositive => "New Buy Price must be > 0."
      case SellPriceNotPositive => "New Sell Price must be > 0."
      case NegativeStock => "New Stock cannot be negative."
    }
  }

  /** What the medicine form holds when its button is pressed; the date arrives as 'YYYY-MM-DD'. */
  datatype MedicineForm = MedicineForm(
    name: string,
    category: string,
    buyPrice: int,
    sellPrice: int,
    stock: int,
    expiryDate: string)
  {
    function Data(): MedicineData
    {
      MedicineData(name, category, buyPrice, sellPrice, stock, expiryDate)
    }

    /** The form fails `rule` on its own, whatever the other checks say. */
    predicate Breaks(rule: MedicineRule)
    {
      match rule
      case BlankName => IsBlank(name)
      case BlankCategory => IsBlank(category)
      case BuyPriceNotPositive => buyPrice <= 0
      case SellPriceNotPositive => sellPrice <= 0
      case NegativeStock => stock < 0
    }
  }

  /**
   * The elif chain in front of `add_medicine` and `update_medicine`: the form
   * passes exactly when the name and the category are not blank, both prices
   * are positive and the stock is not negative; otherwise the first failing
   * check decides the message.
   */
  function CheckMedicineForm(f: MedicineForm): (r: Option<MedicineRule>)
    ensures r.None? <==> !IsBlank(f.name) && !IsBlank(f.category) && f.buyPrice > 0 && f.sellPrice > 0 && f.stock >= 0
  {
    if IsBlank(f.name) then Some(BlankName)
    else if IsBlank(f.category) then Some(BlankCategory)
    else if f.buyPrice <= 0 then Some(BuyPriceNotPositive)
    else if f.sellPrice <= 0 then Some(SellPriceNotPositive)
    else if f.stock < 0 then Some(NegativeStock)
    else None
  }

  /**
   * The chain reports the first check in its order that the form fails, and
   * passes the form exactly when no check fails.
   */
  lemma MedicineChecksInOrder(f: MedicineForm)
    ensures var r := CheckMedicineForm(f);
            r.Some? ==> f.Breaks(r.value) && forall rule :: !f.Breaks(rule) || rule.Rank() >= r.value.Rank()
    ensures CheckMedicineForm(f).None? <==> forall rule :: !f.Breaks(rule)
  {
    var r := CheckMedicineForm(f);
    forall rule | f.Breaks(rule)
      ensures r.Some? && rule.Rank() >= r.value.Rank()
    {
      match rule
      case BlankName =>
      case BlankCategory =>
      case BuyPriceNotPositive =>
      case SellPriceNotPositive =>
      case NegativeStock =>
    }
    if r.Some? {
      match r.value
      case BlankName => assert f.Breaks(BlankName);
      case BlankCategory => assert f.Breaks(BlankCategory);
      case BuyPriceNotPositive => assert f.Breaks(BuyPriceNotPositive);
      case SellPriceNotPositive => assert f.Breaks(SellPriceNotPositive);
      case NegativeStock => assert f.Breaks(NegativeStock);
    }
  }

  /** The page's error messages tell the failing check apart, on the add form and on the update form. */
  lemma MedicineMessagesDistinct(a: MedicineRule, b: MedicineRule)
    requires a.AddMessage() == b.AddMessage() || a.UpdateMessage() == b.UpdateMessage()
    ensures a == b
  {
  }

  /** The Add Medicine button: a form that passes the checks becomes a new row, any other changes nothing. */
  method SubmitNewMedicine(store: Store, f: MedicineForm) returns (rejected: Option<MedicineRule>)
    requires store.Valid()
    modifies store
    ensures store.Valid()
    ensures rejected == CheckMedicineForm(f)
    ensures rejected.None? ==> store.State() == old(store.State()).AddMedicine(f.Data())
    ensures rejected.Some? ==> store.State() == old(store.State())
  {
    rejected := CheckMedicineForm(f);
    if rejected.None? {
      store.AddMedicine(f.name, f.category, f.buyPrice, f.sellPrice, f.stock, f.expiryDate);
    }
  }

  /**
   * The Update Medicine button: the medicine picked by name (the last row of
   * that name) gets every field of a form that passes the checks.
   */
  method SubmitMedicineUpdate(store: Store, selected: string, f: MedicineForm) returns (rejected: Option<MedicineRule>)
    requires store.Valid()
    requires IdByName(store.medicines, MedicineName, selected).Some?
    modifies store
    ensures store.Valid()
    ensures rejected == CheckMedicineForm(f)
    ensures rejected.None? ==>
              store.State() ==
              old(store.State()).UpdateMedicine(old(IdByName(store.medicines, MedicineName, selected)).value, f.Data())
    ensures rejected.Some? ==> store.State() == old(store.State())
  {
    var id := IdByName(store.medicines, MedicineName, selected).value;
    rejected := CheckMedicineForm(f);
    if rejected.None? {
      store.UpdateMedicine(id, f.name, f.category, f.buyPrice, f.sellPrice, f.stock, f.expiryDate);
    }
  }

  // ---------------------------------------------------------------------------
  // The customer form
  // ---------------------------------------------------------------------------

  /** The checks of the add and update customer forms, in the order they run. */
  datatype CustomerRule = BlankCustomerName | InvalidContact | BlankAddress
  {
    function Rank(): nat
    {
      match this
      case BlankCustomerName => 0
      case InvalidContact => 1
      case BlankAddress => 2
    }

    function AddMessage(): string
    {
      match this
      case BlankCustomerName => "Customer Name cannot be empty."
      case InvalidContact => "Contact must be a valid phone number (at least 10 digits)."
      case BlankAddress => "Address cannot be empty."
    }

    function UpdateMessage(): string
    {
      match this
      case BlankCustomerName => "New Name cannot be empty."
      case InvalidContact => "New Contact must be a valid phone number."
      case BlankAddress => "New Address cannot be empty."
    }
  }

  /** The contact test as the form writes it: not blank, all digits and at least ten characters long. */
  predicate ContactAccepted(contact: string)
  {
    !(IsBlank(contact) || !IsDigits(contact) || |contact| < 10)
  }

  /** The blank test adds nothing: a contact passes exactly when it is ten or more digits. */
  lemma ContactRule(contact: string)
    ensures ContactAccepted(contact) <==> |contact| >= 10 && forall i :: 0 <= i < |contact| ==> IsDigit(contact[i])
  {
    if |contact| >= 10 && forall i :: 0 <= i < |contact| ==> IsDigit(contact[i]) {
      assert IsDigit(contact[0]);
      assert !IsSpace(contact[0]);
    }
  }

  datatype CustomerForm = CustomerForm(name: string, contact: string, address: string)
  {
    function Data(): CustomerData
    {
      CustomerData(name, contact, address)
    }

    predicate Breaks(rule: CustomerRule)
    {
      match rule
      case BlankCustomerName => IsBlank(name)
      case InvalidContact => !ContactAccepted(contact)
      case BlankAddress => IsBlank(address)
    }
  }

  /**
   * The elif chain in front of `add_customer` and `update_customer`: the form
   * passes exactly when the name and the address are not blank and the
   * contact is ten or more digits; otherwise the first failing check decides.
   */
  function CheckCustomerForm(f: CustomerForm): (r: Option<CustomerRule>)
    ensures r.None? <==> && !IsBlank(f.name) && !IsBlank(f.address) && |f.contact| >= 10
                         && forall i :: 0 <= i < |f.contact| ==> IsDigit(f.contact[i])
  {
    ContactRule(f.contact);
    if IsBlank(f.name) then Some(BlankCustomerName)
    else if !ContactAccepted(f.contact) then Some(InvalidContact)
    else if IsBlank(f.address) then Some(BlankAddress)
    else None
  }

  /**
   * The chain reports the first check in its order that the form fails, and
   * passes the form exactly when no check fails.
   */
  lemma CustomerChecksInOrder(f: CustomerForm)
    ensures var r := CheckCustomerForm(f);
            r.Some? ==> f.Breaks(r.value) && forall rule :: !f.Breaks(rule) || rule.Rank() >= r.value.Rank()
    ensures CheckCustomerForm(f).None? <==> forall rule :: !f.Breaks(rule)
  {
    var r := CheckCustomerForm(f);
    forall rule | f.Breaks(rule)
      ensures r.Some? && rule.Rank() >= r.value.Rank()
    {
      match rule
      case BlankCustomerName =>
      case InvalidContact =>
      case BlankAddress =>
    }
    if r.Some? {
      match r.value
      case BlankCustomerName => assert f.Breaks(BlankCustomerName);
      case InvalidContact => assert f.Breaks(InvalidContact);
      case BlankAddress => assert f.Breaks(BlankAddress);
    }
  }

  /** The page's error messages tell the failing check apart, on the add form and on the update form. */
  lemma CustomerMessagesDistinct(a: CustomerRule, b: CustomerRule)
    requires a.AddMessage() == b.AddMessage() || a.UpdateMessage() == b.UpdateMessage()
    ensures a == b
  {
  }

  /** The Add Customer button. */
  method SubmitNewCustomer(store: Store, f: CustomerForm) returns (rejected: Option<CustomerRule>)
    requires store.Valid()
    modifies store
    ensures store.Valid()
    ensures rejected == CheckCustomerForm(f)
    ensures rejected.None? ==> store.State() == old(store.State()).AddCustomer(f.Data())
    ensures rejected.Some? ==> store.State() == old(store.State())
  {
    rejected := CheckCustomerForm(f);
    if rejected.None? {
      store.AddCustomer(f.name, f.contact, f.address);
    }
  }

  /** The Update Customer button: the customer picked by name gets every field of a form that passes. */
  method SubmitCustomerUpdate(store: Store, selected: string, f: CustomerForm) returns (rejected: Option<CustomerRule>)
    requires store.Valid()
    requires IdByName(store.customers, CustomerName, selected).Some?
    modifies store
    ensures store.Valid()
    ensures rejected == CheckCustomerForm(f)
    ensures rejected.None? ==>
              store.State() ==
              old(store.State()).UpdateCustomer(old(IdByName(store.customers, CustomerName, selected)).value, f.Data())
    ensures rejected.Some? ==> store.State() == old(store.State())
  {
    var id := IdByName(store.customers, CustomerName, selected).value;
    rejected := CheckCustomerForm(f);
    if rejected.None? {
      store.UpdateCustomer(id, f.name, f.contact, f.address);
    }
  }

  // ---------------------------------------------------------------------------
  // The shopping cart
  // ---------------------------------------------------------------------------

  /** One cart entry: `(med_id, med_name, quantity, price)`, the price read when it was added. */
  datatype CartItem = CartItem(medicineId: int, name: string, quantity: int, price: int)

  /** `sum(q * p for _, _, q, p in cart)`. */
  function CartTotal(items: seq<CartItem>): (total: int)
    ensures (forall i :: 0 <= i < |items| ==> items[i].quantity >= 0 && items[i].price >= 0) ==> total >= 0
  {
    if items == [] then 0 else CartTotal(items[..|items| - 1]) + items[|items| - 1].quantity * items[|items| - 1].price
  }

  /** Every entry adds its own subtotal, in whatever order the cart was filled. */
  lemma {:induction false} CartTotalConcat(a: seq<CartItem>, b: seq<CartItem>)
    ensures CartTotal(a + b) == CartTotal(a) + CartTotal(b)
  {
    if b == [] {
      assert a + b == a;
    } else {
      var n := |b| - 1;
      assert (a + b)[..|a + b| - 1] == a + b[..n];
      CartTotalConcat(a, b[..n]);
    }
  }

  /**
   * The cart's entries submitted one after another, each through
   * `record_sale` with the same customer and prescription path and the
   * clock reading of its own call: the outcomes in cart order and the
   * resulting store.
   */
  function RecordAll(db: Db, customerId: int, items: seq<CartItem>, prescription: Option<string>, stamps: seq<string>)
    : (r: (seq<Outcome>, Db))
    requires |stamps| == |items|
    ensures db.Valid() ==> r.1.Valid()
    ensures |r.0| == |items|
  {
    if items == [] then ([], db)
    else
      var n := |items| - 1;
      var before := RecordAll(db, customerId, items[..n], prescription, stamps[..n]);
      var last := before.1.RecordSale(customerId, items[n].medicineId, items[n].quantity, prescription, stamps[n]);
      (before.0 + [last.0], last.1)
  }

  /** Submitting one entry more: the outcome of its sale is appended, on the store the earlier entries left. */
  lemma RecordAllStep(db: Db, customerId: int, items: seq<CartItem>, prescription: Option<string>,
                      stamps: seq<string>, i: nat)
    requires |stamps| == |items| && i < |items|
    ensures var before := RecordAll(db, customerId, items[..i], prescription, stamps[..i]);
            var last := before.1.RecordSale(customerId, items[i].medicineId, items[i].quantity, prescription, stamps[i]);
            RecordAll(db, customerId, items[..i + 1], prescription, stamps[..i + 1]) == (before.0 + [last.0], last.1)
  {
    assert items[..i + 1][..i] == items[..i];
    assert stamps[..i + 1][..i] == stamps[..i];
  }

  /** `RecordAllStep` for a run whose first entries and next sale are already known. */
  lemma RecordAllNext(db: Db, customerId: int, items: seq<CartItem>, prescription: Option<string>,
                      stamps: seq<string>, i: nat, outcomes: seq<Outcome>, before: Db, o: Outcome, after: Db)
    requires |stamps| == |items| && i < |items|
    requires (outcomes, before) == RecordAll(db, customerId, items[..i], prescription, stamps[..i])
    requires (o, after) == before.RecordSale(customerId, items[i].medicineId, items[i].quantity, prescription, stamps[i])
    ensures (outcomes + [o], after) == RecordAll(db, customerId, items[..i + 1], prescription, stamps[..i + 1])
  {
    RecordAllStep(db, customerId, items, prescription, stamps, i);
  }

  /** How many of the outcomes recorded a sale. */
  function Recorded(outcomes: seq<Outcome>): (count: nat)
    ensures count <= |outcomes|
    ensures count == |outcomes| <==> forall i :: 0 <= i < |outcomes| ==> outcomes[i] == SaleRecorded
  {
    if outcomes == [] then 0
    else
      var n := |outcomes| - 1;
      var before := Recorded(outcomes[..n]);
      assert forall i :: 0 <= i < n ==> outcomes[..n][i] == outcomes[i];
      before + if outcomes[n] == SaleRecorded then 1 else 0
  }

  /** One call appends one sale row when it records a sale and none otherwise; earlier rows stay. */
  lemma SaleAppendsOne(db: Db, customerId: int, medicineId: int, quantity: int, prescription: Option<string>,
                       date: string)
    ensures var r := db.RecordSale(customerId, medicineId, quantity, prescription, date);
            && |r.1.sales| == |db.sales| + (if r.0 == SaleRecorded then 1 else 0)
            && r.1.sales[..|db.sales|] == db.sales
  {
    var r := db.RecordSale(customerId, medicineId, quantity, prescription, date);
    if r.0 == SaleRecorded {
      RecordedSale(db, customerId, medicineId, quantity, prescription, date);
      assert r.1.sales[..|db.sales|] == db.sales;
    }
  }

  /** Submitting a cart appends exactly one sale row per entry that went through, and no other. */
  lemma {:induction false} SubmittedSalesCount(db: Db, customerId: int, items: seq<CartItem>,
                                                prescription: Option<string>, stamps: seq<string>)
    requires |stamps| == |items|
    ensures var r := RecordAll(db, customerId, items, prescription, stamps);
            && |r.1.sales| == |db.sales| + Recorded(r.0)
            && r.1.sales[..|db.sales|] == db.sales
  {
    if items != [] {
      var n := |items| - 1;
      SubmittedSalesCount(db, customerId, items[..n], prescription, stamps[..n]);
      RecordAllStep(db, customerId, items, prescription, stamps, n);
      assert items[..n + 1] == items && stamps[..n + 1] == stamps;
      var before := RecordAll(db, customerId, items[..n], prescription, stamps[..n]);
      var last := before.1.RecordSale(customerId, items[n].medicineId, items[n].quantity, prescription, stamps[n]);
      SaleAppendsOne(before.1, customerId, items[n].medicineId, items[n].quantity, prescription, stamps[n]);
      assert last.1.sales[..|db.sales|] == last.1.sales[..|before.1.sales|][..|db.sales|];
      assert (before.0 + [last.0])[..|before.0|] == before.0;
      assert Recorded(before.0 + [last.0]) == Recorded(before.0) + if last.0 == SaleRecorded then 1 else 0;
    }
  }

  /** Every medicine keeps whether it exists and its sell price; only stock moves. */
  ghost predicate SamePrices(meds: seq<Medicine>, meds': seq<Medicine>)
  {
    forall k :: && Find(meds', k).Some? == Find(meds, k).Some?
                && (Find(meds, k).Some? ==> Find(meds', k).value.data.sellPrice == Find(meds, k).value.data.sellPrice)
  }

  /** A recorded or refused sale changes no medicine's existence or sell price. */
  lemma SaleKeepsPrices(db: Db, customerId: int, medicineId: int, quantity: int, prescription: Option<string>,
                        date: string)
    ensures SamePrices(db.medicines, db.RecordSale(customerId, medicineId, quantity, prescription, date).1.medicines)
  {
    var (o, db') := db.RecordSale(customerId, medicineId, quantity, prescription, date);
    if o == SaleRecorded {
      RecordedSale(db, customerId, medicineId, quantity, prescription, date);
      forall k
        ensures && Find(db'.medicines, k).Some? == Find(db.medicines, k).Some?
                && (Find(db.medicines, k).Some? ==>
                      Find(db'.medicines, k).value.data.sellPrice == Find(db.medicines, k).value.data.sellPrice)
      {
        if k != medicineId {
          assert Find(db'.medicines, k) == Find(db.medicines, k);
        }
      }
    }
  }

  /** The entries' prices are the current sell prices of medicines that exist. */
  ghost predicate PricesCurrent(meds: seq<Medicine>, items: seq<CartItem>)
  {
    forall i :: 0 <= i < |items| ==>
      Find(meds, items[i].medicineId).Some? && Find(meds, items[i].medicineId).value.data.sellPrice == items[i].price
  }

  lemma SamePricesTransitive(a: seq<Medicine>, b: seq<Medicine>, c: seq<Medicine>)
    requires SamePrices(a, b) && SamePrices(b, c)
    ensures SamePrices(a, c)
  {
    forall k
      ensures && Find(c, k).Some? == Find(a, k).Some?
              && (Find(a, k).Some? ==> Find(c, k).value.data.sellPrice == Find(a, k).value.data.sellPrice)
    {
      assert Find(b, k).Some? == Find(a, k).Some?;
      assert Find(c, k).Some? == Find(b, k).Some?;
    }
  }

  /** Submitting a cart moves stock only: no medicine appears, disappears or changes its sell price. */
  lemma {:induction false} SubmitKeepsPrices(db: Db, customerId: int, items: seq<CartItem>,
                                              prescription: Option<string>, stamps: seq<string>)
    requires |stamps| == |items|
    ensures SamePrices(db.medicines, RecordAll(db, customerId, items, prescription, stamps).1.medicines)
  {
    if items == [] {
      assert SamePrices(db.medicines, db.medicines);
    } else {
      var n := |items| - 1;
      SubmitKeepsPrices(db, customerId, items[..n], prescription, stamps[..n]);
      RecordAllStep(db, customerId, items, prescription, stamps, n);
      assert items[..n + 1] == items && stamps[..n + 1] == stamps;
      var before := RecordAll(db, customerId, items[..n], prescription, stamps[..n]);
      SaleKeepsPrices(before.1, customerId, items[n].medicineId, items[n].quantity, prescription, stamps[n]);
      SamePricesTransitive(db.medicines, before.1.medicines,
                           before.1.RecordSale(customerId, items[n].medicineId, items[n].quantity, prescription,
                                               stamps[n]).1.medicines);
    }
  }

  lemma PricesCurrentPrefix(meds: seq<Medicine>, items: seq<CartItem>, n: nat)
    requires PricesCurrent(meds, items) && n <= |items|
    ensures PricesCurrent(meds, items[..n])
  {
    forall i | 0 <= i < n
      ensures items[..n][i] == items[i]
    {
    }
  }

  /** The sell price of one medicine, as the submission of a cart leaves it: unchanged. */
  lemma SubmitKeepsPrice(db: Db, customerId: int, items: seq<CartItem>, prescription: Option<string>,
                         stamps: seq<string>, id: int)
    requires |stamps| == |items|
    requires Find(db.medicines, id).Some?
    ensures var meds' := RecordAll(db, customerId, items, prescription, stamps).1.medicines;
            Find(meds', id).Some? && Find(meds', id).value.data.sellPrice == Find(db.medicines, id).value.data.sellPrice
  {
    SubmitKeepsPrices(db, customerId, items, prescription, stamps);
  }

  /** An entry whose price is still current adds its subtotal to the revenue when it goes through. */
  lemma EntryRevenue(before: Db, customerId: int, it: CartItem, prescription: Option<string>, date: string)
    requires Find(before.medicines, it.medicineId).Some?
    requires Find(before.medicines, it.medicineId).value.data.sellPrice == it.price
    requires before.RecordSale(customerId, it.medicineId, it.quantity, prescription, date).0 == SaleRecorded
    ensures TotalSales(before.RecordSale(customerId, it.medicineId, it.quantity, prescription, date).1.sales)
            == TotalSales(before.sales) + it.quantity * it.price
  {
    RevenueAfterSale(before, customerId, it.medicineId, it.quantity, prescription, date);
  }

  /**
   * The total the cart page shows is what the revenue grows by when every
   * entry goes through, provided no sell price changed since the entries
   * were added.
   */
  lemma {:induction false} SubmittedRevenue(db: Db, customerId: int, items: seq<CartItem>,
                                             prescription: Option<string>, stamps: seq<string>)
    requires |stamps| == |items|
    requires PricesCurrent(db.medicines, items)
    ensures var r := RecordAll(db, customerId, items, prescription, stamps);
            Recorded(r.0) == |items| ==> TotalSales(r.1.sales) == TotalSales(db.sales) + CartTotal(items)
  {
    if items != [] {
      var n := |items| - 1;
      var it := items[n];
      PricesCurrentPrefix(db.medicines, items, n);
      SubmittedRevenue(db, customerId, items[..n], prescription, stamps[..n]);
      SubmitKeepsPrice(db, customerId, items[..n], prescription, stamps[..n], it.medicineId);
      assert items[..n + 1] == items && stamps[..n + 1] == stamps;
      var before := RecordAll(db, customerId, items[..n], prescription, stamps[..n]);
      var last := before.1.RecordSale(customerId, it.medicineId, it.quantity, prescription, stamps[n]);
      var r := RecordAll(db, customerId, items, prescription, stamps);
      assert r == (before.0 + [last.0], last.1);
      if Recorded(r.0) == |items| {
        assert (before.0 + [last.0])[..n] == before.0;
        assert Recorded(before.0) == n && last.0 == SaleRecorded;
        EntryRevenue(before.1, customerId, it, prescription, stamps[n]);
        assert CartTotal(items) == CartTotal(items[..n]) + it.quantity * it.price;
        assert TotalSales(last.1.sales) == TotalSales(db.sales) + CartTotal(items);
      }
    }
  }

  /**
   * The cart checks each entry against the stock alone, not against what the
   * cart already holds: two entries that each fit the stock but not together
   * both enter the cart, and the second sale is refused at submission.
   */
  lemma OverfilledCart(db: Db, customerId: int, first: CartItem, second: CartItem, prescription: Option<string>,
                       stamps: seq<string>)
    requires |stamps| == 2
    requires first.medicineId == second.medicineId
    requires Find(db.medicines, first.medicineId).Some?
    requires var stock := Find(db.medicines, first.medicineId).value.data.stock;
             0 <= first.quantity <= stock && 0 <= second.quantity <= stock && first.quantity + second.quantity > stock
    ensures RecordAll(db, customerId, [first, second], prescription, stamps).0 == [SaleRecorded, NotEnoughStock]
  {
    var one := db.RecordSale(customerId, first.medicineId, first.quantity, prescription, stamps[0]);
    assert [first, second][..1] == [first] && [first][..0] == [];
    assert stamps[..1][..0] == [] && stamps[..1][0] == stamps[0];
    assert [] + [one.0] == [one.0];
    assert RecordAll(db, customerId, [first], prescription, stamps[..1]) == ([one.0], one.1);
    RecordedSale(db, customerId, first.medicineId, first.quantity, prescription, stamps[0]);
  }

  /** One pass of the Record Sale loop: entry `i` goes to `record_sale` with its own clock reading. */
  method RecordEntry(store: Store, ghost start: Db, customerId: int, cart: seq<CartItem>, prescription: Option<string>,
                     stamps: seq<string>, i: nat, ghost outcomes: seq<Outcome>)
    returns (o: Outcome)
    requires store.Valid()
    requires i < |cart| == |stamps|
    requires (outcomes, store.State()) == RecordAll(start, customerId, cart[..i], prescription, stamps[..i])
    modifies store
    ensures store.Valid()
    ensures (outcomes + [o], store.State()) == RecordAll(start, customerId, cart[..i + 1], prescription, stamps[..i + 1])
  {
    ghost var before := store.State();
    o := store.RecordSale(customerId, cart[i].medicineId, cart[i].quantity, prescription, stamps[i]);
    RecordAllNext(start, customerId, cart, prescription, stamps, i, outcomes, before, o, store.State());
  }

  /** The loop behind the Record Sale button: one `record_sale` call per cart entry, in order. */
  method RecordEntries(store: Store, customerId: int, cart: seq<CartItem>, prescription: Option<string>, stamps: seq<string>)
    returns (outcomes: seq<Outcome>)
    requires store.Valid()
    requires |stamps| == |cart|
    modifies store
    ensures store.Valid()
    ensures (outcomes, store.State()) == RecordAll(old(store.State()), customerId, cart, prescription, stamps)
  {
    ghost var start := store.State();
    outcomes := [];
    var i := 0;
    while i < |cart|
      invariant 0 <= i <= |cart|
      invariant store.Valid()
      invariant (outcomes, store.State()) == RecordAll(start, customerId, cart[..i], prescription, stamps[..i])
    {
      var o := RecordEntry(store, start, customerId, cart, prescription, stamps, i, outcomes);
      outcomes := outcomes + [o];
      i := i + 1;
    }
    assert cart[..i] == cart && stamps[..i] == stamps;
  }

  /** `st.session_state.cart`: the entries chosen so far on the sale page. */
  class Cart {
    var items: seq<CartItem>

    constructor ()
      ensures items == []
    {
      items := [];
    }

    /**
     * The Add to Cart button. The medicine is looked up by name in the
     * snapshot the page read; a quantity above that snapshot's stock is
     * refused and changes nothing, any other appends one entry with the
     * snapshot's sell price and leaves the earlier entries as they were.
     */
    method Add(meds: seq<Medicine>, name: string, quantity: int) returns (added: bool)
      requires quantity >= 1
      requires IdByName(meds, MedicineName, name).Some?
      modifies this
      ensures var id := IdByName(meds, MedicineName, name).value;
              var m := Find(meds, id).value;
              && (added <==> quantity <= m.data.stock)
              && (added ==> items == old(items) + [CartItem(id, name, quantity, m.data.sellPrice)])
              && (!added ==> items == old(items))
    {
      var id := IdByName(meds, MedicineName, name).value;
      var m := Find(meds, id).value;
      if quantity > m.data.stock {
        added := false;
      } else {
        items := items + [CartItem(id, name, quantity, m.data.sellPrice)];
        added := true;
      }
    }

    /** The total the cart summary shows. */
    method Total() returns (total: int)
      ensures total == CartTotal(items)
    {
      total := 0;
      var i := 0;
      while i < |items|
        invariant 0 <= i <= |items|
        invariant total == CartTotal(items[..i])
      {
        assert items[..i + 1][..i] == items[..i];
        total := total + items[i].quantity * items[i].price;
        i := i + 1;
      }
      assert items[..i] == items;
    }

    /**
     * The Record Sale button: every entry goes to `record_sale` in cart
     * order with the same customer and prescription path, one clock reading
     * per call; then the cart is emptied whatever the outcomes were.
     */
    method Submit(store: Store, customerId: int, prescription: Option<string>, stamps: seq<string>)
      returns (outcomes: seq<Outcome>)
      requires store.Valid()
      requires |stamps| == |items|
      modifies this, store
      ensures store.Valid()
      ensures items == []
      ensures (outcomes, store.State()) == RecordAll(old(store.State()), customerId, old(items), prescription, stamps)
    {
      outcomes := RecordEntries(store, customerId, items, prescription, stamps);
      items := [];
    }
  }

  // ---------------------------------------------------------------------------
  // Dashboard, alerts and the report page
  // ---------------------------------------------------------------------------

  /** Python truth of the prescription column: not NULL and not the empty path. */
  predicate HasPrescription(line: SaleLine)
  {
    line.prescription.Some? && line.prescription.value != ""
  }

  /** `sum(1 for *_, pres in fetch_sales() if pres)`. */
  function PrescriptionsUploaded(lines: seq<SaleLine>): (n: nat)
    ensures n <= |lines|
    ensures n == 0 <==> forall l :: l in lines ==> !HasPrescription(l)
    ensures n == |lines| <==> forall l :: l in lines ==> HasPrescription(l)
  {
    if lines == [] then 0
    else
      assert forall l :: l in lines <==> l == lines[0] || l in lines[1..] by {
        assert lines == [lines[0]] + lines[1..];
      }
      (if HasPrescription(lines[0]) then 1 else 0) + PrescriptionsUploaded(lines[1..])
  }

  /** The count over two runs of lines is the sum of their counts. */
  lemma {:induction false} PrescriptionsConcat(a: seq<SaleLine>, b: seq<SaleLine>)
    ensures PrescriptionsUploaded(a + b) == PrescriptionsUploaded(a) + PrescriptionsUploaded(b)
  {
    if a == [] {
      assert a + b == b;
    } else {
      assert (a + b)[0] == a[0];
      assert (a + b)[1..] == a[1..] + b;
      PrescriptionsConcat(a[1..], b);
    }
  }

  /**
   * One line counts exactly when it has a prescription; with
   * `PrescriptionsConcat` this fixes the count of every listing.
   */
  lemma PrescriptionsSingle(line: SaleLine)
    ensures PrescriptionsUploaded([line]) == if HasPrescription(line) then 1 else 0
  {
    assert [line][1..] == [];
  }

  /**
   * The dashboard's count after one more sale is recorded: it grows by one
   * exactly when the new sale's customer and medicine exist and it carries a
   * prescription; sales whose rows were deleted are never counted.
   */
  lemma PrescriptionsAfterSale(meds: seq<Medicine>, custs: seq<Customer>, sales: seq<Sale>, s: Sale)
    ensures PrescriptionsUploaded(FetchSales(meds, custs, sales + [s])) ==
            PrescriptionsUploaded(FetchSales(meds, custs, sales))
            + if JoinLine(meds, custs, s).Some? && HasPrescription(JoinLine(meds, custs, s).value) then 1 else 0
  {
    JoinSalesConcat(meds, custs, sales, [s], AnyDate);
    JoinSingle(meds, custs, s, AnyDate);
    PrescriptionsConcat(FetchSales(meds, custs, sales), FetchSales(meds, custs, [s]));
    if JoinLine(meds, custs, s).Some? {
      PrescriptionsSingle(JoinLine(meds, custs, s).value);
    }
  }

  const LowStockThreshold := 10

  /** The low-stock alert: the medicines whose stock is at most the threshold, in table order. */
  function LowStock(meds: seq<Medicine>): (r: seq<Medicine>)
    ensures |r| <= |meds|
    ensures forall m :: m in r <==> m in meds && m.data.stock <= LowStockThreshold
  {
    if meds == [] then []
    else
      assert forall m :: m in meds <==> m == meds[0] || m in meds[1..] by {
        assert meds == [meds[0]] + meds[1..];
      }
      if meds[0].data.stock <= LowStockThreshold then [meds[0]] + LowStock(meds[1..]) else LowStock(meds[1..])
  }

  /** The alert over two runs of rows is the alert of the first followed by that of the second. */
  lemma {:induction false} LowStockConcat(a: seq<Medicine>, b: seq<Medicine>)
    ensures LowStock(a + b) == LowStock(a) + LowStock(b)
  {
    if a == [] {
      assert a + b == b;
    } else {
      assert (a + b)[0] == a[0];
      assert (a + b)[1..] == a[1..] + b;
      LowStockConcat(a[1..], b);
    }
  }

  /**
   * One medicine is on the alert, once, exactly when its stock is at most the
   * threshold; with `LowStockConcat` this fixes the list of every table.
   */
  lemma LowStockSingle(m: Medicine)
    ensures LowStock([m]) == if m.data.stock <= LowStockThreshold then [m] else []
  {
    assert [m][1..] == [];
  }

  /** A sale that leaves a medicine at the threshold or below puts it on the alert. */
  lemma SaleRaisesAlert(db: Db, customerId: int, medicineId: int, quantity: int, prescription: Option<string>,
                        date: string)
    requires db.RecordSale(customerId, medicineId, quantity, prescription, date).0 == SaleRecorded
    requires Find(db.medicines, medicineId).value.data.stock - quantity <= LowStockThreshold
    ensures Depleted(Find(db.medicines, medicineId).value, quantity)
            in LowStock(db.RecordSale(customerId, medicineId, quantity, prescription, date).1.medicines)
  {
    RecordedSale(db, customerId, medicineId, quantity, prescription, date);
  }

  /**
   * The Generate Report button: a start after the end is refused before any
   * query runs; otherwise the page lists `generate_report` as written, the
   * joined sales whose stamp lies from start to end as TEXT.
   */
  function RequestReport(db: Db, start: string, end: string): (r: Option<seq<SaleLine>>)
    ensures r.None? <==> !LexLe(start, end)
    ensures r.Some? ==> r.value == GenerateReport(db.medicines, db.customers, db.sales, start, end)
    ensures r.Some? ==>
              forall line ::
                line in r.value <==>
                exists i :: && 0 <= i < |db.sales| && InClosedRange(start, db.sales[i].data.date, end)
                            && JoinLine(db.medicines, db.customers, db.sales[i]) == Some(line)
  {
    if !LexLe(start, end) then None
    else
      var report := GenerateReport(db.medicines, db.customers, db.sales, start, end);
      assert forall line :: line in report <==>
                exists i :: && 0 <= i < |db.sales| && InClosedRange(start, db.sales[i].data.date, end)
                            && JoinLine(db.medicines, db.customers, db.sales[i]) == Some(line) by {
        forall line {
          ReportMembers(db.medicines, db.customers, db.sales, start, end, line);
        }
      }
      Some(report)
  }

  /**
   * The Generate Report button as the date pickers evidently mean it: the
   * same check, then the joined sales whose day lies from start to end (the
   * day report, see `GenerateDayReport`).
   */
  function RequestDayReport(db: Db, start: string, end: string): (r: Option<seq<SaleLine>>)
    ensures r.None? <==> !LexLe(start, end)
    ensures r.Some? ==> r.value == GenerateDayReport(db.medicines, db.customers, db.sales, start, end)
    ensures r.Some? ==>
              forall line ::
                line in r.value <==>
                exists i :: && 0 <= i < |db.sales| && InClosedRange(start, DayOf(db.sales[i].data.date), end)
                            && JoinLine(db.medicines, db.customers, db.sales[i]) == Some(line)
  {
    if !LexLe(start, end) then None
    else
      var report := GenerateDayReport(db.medicines, db.customers, db.sales, start, end);
      assert forall line :: line in report <==>
                exists i :: && 0 <= i < |db.sales| && InClosedRange(start, DayOf(db.sales[i].data.date), end)
                            && JoinLine(db.medicines, db.customers, db.sales[i]) == Some(line) by {
        forall line {
          DayReportMembers(db.medicines, db.customers, db.sales, start, end, line);
        }
      }
      Some(report)
  }

  /**
   * The corrected page refuses the same requests and loses no line the page
   * as written shows, for full sale stamps and 'YYYY-MM-DD' bounds.
   */
  lemma DayPageExtendsPage(db: Db, start: string, end: string, line: SaleLine)
    requires |start| <= 10
    requires forall s :: s in db.sales ==> |s.data.date| >= 10
    requires RequestReport(db, start, end).Some? && line in RequestReport(db, start, end).value
    ensures RequestDayReport(db, start, end).Some? && line in RequestDayReport(db, start, end).value
  {
    DayReportExtendsReport(db.medicines, db.customers, db.sales, start, end, line);
  }

}
