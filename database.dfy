/**
 * The pharmacy store: three tables (medicines, customers, sales), the
 * operations that change them and the queries that read them.
 *
 * `Db` is the value of the whole store and its member functions say what each
 * change does; `Store` holds the same state in fields and changes it step by
 * step, each method proved to do what its `Db` counterpart says. The queries
 * are functions of the table contents they read.
 */
module Database {

  import opened Wrappers
  import opened Text
  import opened Table

  /** Prices are whole minor currency units (the schema keeps them as REAL). */
  datatype MedicineData = MedicineData(
    name: string,
    category: string,
    buyPrice: int,
    sellPrice: int,
    stock: int,
    expiryDate: string)

  datatype CustomerData = CustomerData(name: string, contact: string, address: string)

  /** `prescription` is the nullable prescription column: None is NULL. */
  datatype SaleData = SaleData(
    customerId: int,
    medicineId: int,
    quantity: int,
    total: int,
    date: string,
    prescription: Option<string>)

  type Medicine = Row<MedicineData>
  type Customer = Row<CustomerData>
  type Sale = Row<SaleData>

  /** The three results of recording a sale; the caller branches on them. */
  datatype Outcome = MedicineNotFound | NotEnoughStock | SaleRecorded
  {
    function Message(): string
    {
      match this
      case MedicineNotFound => "Medicine not found."
      case NotEnoughStock => "Not enough stock available."
      case SaleRecorded => "Sale recorded successfully!"
    }
  }

  /** The caller can tell the outcome from the message alone. */
  lemma MessagesDistinct(a: Outcome, b: Outcome)
    requires a.Message() == b.Message()
    ensures a == b
  {
  }

  /**
   * The contents of the store. `lastMedicineId` and its siblings are the
   * largest keys AUTOINCREMENT has issued in each table.
   */
  datatype Db = Db(
    medicines: seq<Medicine>,
    customers: seq<Customer>,
    sales: seq<Sale>,
    lastMedicineId: nat,
    lastCustomerId: nat,
    lastSaleId: nat)
  {
    /**
     * Keys are well formed in every table, and a sale only ever names a
     * medicine key that was issued (a sale is recorded only against an
     * existing medicine). Customer keys in sales are never checked.
     */
    ghost predicate Valid()
    {
      && WellKeyed(medicines, lastMedicineId)
      && WellKeyed(customers, lastCustomerId)
      && WellKeyed(sales, lastSaleId)
      && (forall s :: s in sales ==> 1 <= s.data.medicineId <= lastMedicineId)
    }

    /** `add_medicine`: one row appended under a fresh key above every key issued before. */
    function AddMedicine(data: MedicineData): (r: Db)
      requires Valid()
      ensures r.Valid()
      ensures r.lastMedicineId == lastMedicineId + 1
      ensures r.medicines == medicines + [Row(r.lastMedicineId, data)]
      ensures forall m :: m in medicines ==> m.id < r.lastMedicineId
      ensures forall s :: s in sales ==> s.data.medicineId < r.lastMedicineId
      ensures r.customers == customers && r.sales == sales
      ensures r.lastCustomerId == lastCustomerId && r.lastSaleId == lastSaleId
    {
      this.(medicines := medicines + [Row(lastMedicineId + 1, data)], lastMedicineId := lastMedicineId + 1)
    }

    /** `add_customer`: one row appended under a fresh key above every key issued before. */
    function AddCustomer(data: CustomerData): (r: Db)
      requires Valid()
      ensures r.Valid()
      ensures r.lastCustomerId == lastCustomerId + 1
      ensures r.customers == customers + [Row(r.lastCustomerId, data)]
      ensures forall c :: c in customers ==> c.id < r.lastCustomerId
      ensures r.medicines == medicines && r.sales == sales
      ensures r.lastMedicineId == lastMedicineId && r.lastSaleId == lastSaleId
    {
      this.(customers := customers + [Row(lastCustomerId + 1, data)], lastCustomerId := lastCustomerId + 1)
    }

    /**
     * `update_medicine`: the row under `id` gets every non-key column from
     * `data`; no other row and no other table changes; a missing key is a no-op.
     */
    function UpdateMedicine(id: int, data: MedicineData): (r: Db)
      requires Valid()
      ensures r.Valid()
      ensures |r.medicines| == |medicines|
      ensures Find(r.medicines, id) == if Find(medicines, id).None? then None else Some(Row(Find(medicines, id).value.id, data))
      ensures forall k :: k != id ==> Find(r.medicines, k) == Find(medicines, k)
      ensures Find(medicines, id).None? ==> r == this
      ensures r.customers == customers && r.sales == sales
      ensures r.lastMedicineId == lastMedicineId && r.lastCustomerId == lastCustomerId && r.lastSaleId == lastSaleId
    {
      UpdateKeepsKeys(medicines, lastMedicineId, id, data);
      FindAfterUpdate(medicines, id, data);
      if Find(medicines, id).None? then UpdateAbsent(medicines, id, data); this
      else this.(medicines := Update(medicines, id, data))
    }

    /**
     * `update_customer`: the row under `id` gets every non-key column from
     * `data`; no other row and no other table changes; a missing key is a no-op.
     */
    function UpdateCustomer(id: int, data: CustomerData): (r: Db)
      requires Valid()
      ensures r.Valid()
      ensures |r.customers| == |customers|
      ensures Find(r.customers, id) == if Find(customers, id).None? then None else Some(Row(Find(customers, id).value.id, data))
      ensures forall k :: k != id ==> Find(r.customers, k) == Find(customers, k)
      ensures Find(customers, id).None? ==> r == this
      ensures r.medicines == medicines && r.sales == sales
      ensures r.lastMedicineId == lastMedicineId && r.lastCustomerId == lastCustomerId && r.lastSaleId == lastSaleId
    {
      UpdateKeepsKeys(customers, lastCustomerId, id, data);
      FindAfterUpdate(customers, id, data);
      if Find(customers, id).None? then UpdateAbsent(customers, id, data); this
      else this.(customers := Update(customers, id, data))
    }

    /**
     * `delete_medicine`: exactly the row under `id` goes; sales are not
     * touched (no cascade), and a missing key is a no-op.
     */
    function DeleteMedicine(id: int): (r: Db)
      requires Valid()
      ensures r.Valid()
      ensures forall m :: m in r.medicines ==> m in medicines && m.id != id
      ensures forall m :: m in medicines && m.id != id ==> m in r.medicines
      ensures forall k :: Find(r.medicines, k) == if k == id then None else Find(medicines, k)
      ensures Find(medicines, id).None? ==> r == this
      ensures r.customers == customers && r.sales == sales
      ensures r.lastMedicineId == lastMedicineId && r.lastCustomerId == lastCustomerId && r.lastSaleId == lastSaleId
    {
      DeleteKeepsKeys(medicines, lastMedicineId, id);
      FindAfterDelete(medicines, id);
      if Find(medicines, id).None? then DeleteAbsent(medicines, id); this
      else this.(medicines := Delete(medicines, id))
    }

    /**
     * `delete_customer`: exactly the row under `id` goes; sales are not
     * touched (no cascade), and a missing key is a no-op.
     */
    function DeleteCustomer(id: int): (r: Db)
      requires Valid()
      ensures r.Valid()
      ensures forall c :: c in r.customers ==> c in customers && c.id != id
      ensures forall c :: c in customers && c.id != id ==> c in r.customers
      ensures forall k :: Find(r.customers, k) == if k == id then None else Find(customers, k)
      ensures Find(customers, id).None? ==> r == this
      ensures r.medicines == medicines && r.sales == sales
      ensures r.lastMedicineId == lastMedicineId && r.lastCustomerId == lastCustomerId && r.lastSaleId == lastSaleId
    {
      DeleteKeepsKeys(customers, lastCustomerId, id);
      FindAfterDelete(customers, id);
      if Find(customers, id).None? then DeleteAbsent(customers, id); this
      else this.(customers := Delete(customers, id))
    }

    /**
     * `record_sale`. A missing medicine and a stock below the quantity are
     * refused with the store unchanged. Otherwise only that medicine's stock
     * changes, down by `quantity` and never below zero, and exactly one sale
     * is appended carrying the given customer, medicine, quantity, stamp and
     * prescription, and total = sell price x quantity. Neither the customer
     * key nor the sign of the quantity is checked.
     */
    function RecordSale(customerId: int, medicineId: int, quantity: int, prescription: Option<string>, date: string)
      : (r: (Outcome, Db))
      ensures Valid() ==> r.1.Valid()
      ensures r.0 == MedicineNotFound <==> Find(medicines, medicineId).None?
      ensures r.0 == NotEnoughStock <==>
                Find(medicines, medicineId).Some? && Find(medicines, medicineId).value.data.stock < quantity
      ensures r.0 != SaleRecorded ==> r.1 == this
    {
      match Find(medicines, medicineId)
      case None => (MedicineNotFound, this)
      case Some(m) =>
        if m.data.stock < quantity then (NotEnoughStock, this)
        else
          var restocked := Depleted(m, quantity).data;
          var sale := Row(lastSaleId + 1,
                          SaleData(customerId, medicineId, quantity, m.data.sellPrice * quantity, date, prescription));
          var r := this.(medicines := Update(medicines, medicineId, restocked),
                         sales := sales + [sale],
                         lastSaleId := lastSaleId + 1);
          assert Valid() ==> r.Valid() by {
            if Valid() {
              SaleKeepsKeys(this, m, restocked, sale);
            }
          }
          (SaleRecorded, r)
    }
  }

  /** A medicine row as a sale of `quantity` units leaves it: only the stock changes. */
  function Depleted(m: Medicine, quantity: int): Medicine
  {
    Row(m.id, m.data.(stock := m.data.stock - quantity))
  }

  /** Writing a medicine's new stock and appending a sale of it keeps every key well formed. */
  lemma SaleKeepsKeys(db: Db, m: Medicine, data: MedicineData, sale: Sale)
    requires db.Valid() && m in db.medicines
    requires sale.id == db.lastSaleId + 1 && sale.data.medicineId == m.id
    ensures db.(medicines := Update(db.medicines, m.id, data), sales := db.sales + [sale], lastSaleId := sale.id).Valid()
  {
    UpdateKeepsKeys(db.medicines, db.lastMedicineId, m.id, data);
    var i :| 0 <= i < |db.medicines| && db.medicines[i] == m;
    var sales' := db.sales + [sale];
    assert forall s :: s in sales' ==> s in db.sales || s == sale;
  }

  /**
   * A recorded sale: only that medicine's stock changes, down by `quantity`
   * and never below zero; exactly one sale is appended carrying the given
   * customer, medicine, quantity, stamp and prescription, with total = sell
   * price x quantity; customers and the other keys are untouched.
   */
  lemma RecordedSale(db: Db, customerId: int, medicineId: int, quantity: int, prescription: Option<string>,
                     date: string)
    requires db.RecordSale(customerId, medicineId, quantity, prescription, date).0 == SaleRecorded
    ensures var r := db.RecordSale(customerId, medicineId, quantity, prescription, date).1;
            var m := Find(db.medicines, medicineId).value;
            && m.data.stock >= quantity
            && Depleted(m, quantity).data.stock >= 0
            && |r.medicines| == |db.medicines|
            && Find(r.medicines, medicineId) == Some(Depleted(m, quantity))
            && (forall k :: k != medicineId ==> Find(r.medicines, k) == Find(db.medicines, k))
            && r.sales == db.sales + [Row(db.lastSaleId + 1,
                                          SaleData(customerId, medicineId, quantity, m.data.sellPrice * quantity,
                                                   date, prescription))]
            && r.customers == db.customers
            && r.lastMedicineId == db.lastMedicineId
            && r.lastCustomerId == db.lastCustomerId
            && r.lastSaleId == db.lastSaleId + 1
  {
    var m := Find(db.medicines, medicineId).value;
    var r := db.RecordSale(customerId, medicineId, quantity, prescription, date).1;
    assert r == db.(medicines := Update(db.medicines, medicineId, Depleted(m, quantity).data),
                    sales := db.sales + [Row(db.lastSaleId + 1,
                                             SaleData(customerId, medicineId, quantity, m.data.sellPrice * quantity,
                                                      date, prescription))],
                    lastSaleId := db.lastSaleId + 1);
    FindAfterUpdate(db.medicines, medicineId, Depleted(m, quantity).data);
  }

  // ---------------------------------------------------------------------------
  // Queries
  // ---------------------------------------------------------------------------

  /**
   * One line of `fetch_sales` or `generate_report`: the sale's own columns
   * with the customer's and the medicine's names joined in.
   */
  datatype SaleLine = SaleLine(
    date: string,
    customerName: string,
    medicineName: string,
    quantity: int,
    total: int,
    prescription: Option<string>)

  /**
   * The inner join of one sale with its customer and its medicine: nothing
   * when either row is gone. With unique keys, looking up the first row
   * under each key is the SQL join.
   */
  function JoinLine(meds: seq<Medicine>, custs: seq<Customer>, s: Sale): (r: Option<SaleLine>)
    ensures r.Some? <==> Find(custs, s.data.customerId).Some? && Find(meds, s.data.medicineId).Some?
    ensures r.Some? ==> && r.value.date == s.data.date && r.value.quantity == s.data.quantity
                        && r.value.total == s.data.total && r.value.prescription == s.data.prescription
    ensures r.Some? ==> && r.value.customerName == Find(custs, s.data.customerId).value.data.name
                        && r.value.medicineName == Find(meds, s.data.medicineId).value.data.name
  {
    match (Find(custs, s.data.customerId), Find(meds, s.data.medicineId))
    case (Some(c), Some(m)) =>
      Some(SaleLine(s.data.date, c.data.name, m.data.name, s.data.quantity, s.data.total, s.data.prescription))
    case _ => None
  }

  /** The day part 'YYYY-MM-DD' of a 'YYYY-MM-DD HH:MM:SS' stamp. */
  function DayOf(stamp: string): string
  {
    if |stamp| >= 10 then stamp[..10] else stamp
  }

  /** The WHERE clause on the sale stamp: none, the stamp between two bounds, or the stamp's day between two days. */
  datatype DateFilter = AnyDate | Between(start: string, end: string) | DaysBetween(startDay: string, endDay: string)
  {
    predicate Admits(date: string)
    {
      match this
      case AnyDate => true
      case Between(start, end) => InClosedRange(start, date, end)
      case DaysBetween(startDay, endDay) => InClosedRange(startDay, DayOf(date), endDay)
    }
  }

  /** The joined lines of the sales the filter admits, in sale order. */
  function JoinSales(meds: seq<Medicine>, custs: seq<Customer>, sales: seq<Sale>, f: DateFilter): (r: seq<SaleLine>)
    ensures |r| <= |sales|
    ensures (forall i :: 0 <= i < |sales| ==> JoinLine(meds, custs, sales[i]).Some? && f.Admits(sales[i].data.date))
            ==> |r| == |sales|
  {
    if sales == [] then []
    else
      var rest := JoinSales(meds, custs, sales[1..], f);
      match JoinLine(meds, custs, sales[0])
      case Some(line) => if f.Admits(sales[0].data.date) then [line] + rest else rest
      case None => rest
  }

  /** A line is in the join exactly when some admitted sale whose customer and medicine both exist yields it. */
  lemma {:induction false} JoinSalesMembers(
    meds: seq<Medicine>, custs: seq<Customer>, sales: seq<Sale>, f: DateFilter, line: SaleLine)
    ensures line in JoinSales(meds, custs, sales, f) <==>
            exists i :: 0 <= i < |sales| && f.Admits(sales[i].data.date) && JoinLine(meds, custs, sales[i]) == Some(line)
  {
    if sales != [] {
      var rest := JoinSales(meds, custs, sales[1..], f);
      JoinSalesMembers(meds, custs, sales[1..], f, line);
      if line in JoinSales(meds, custs, sales, f) {
        if line in rest {
          var j :| 0 <= j < |sales[1..]| && f.Admits(sales[1..][j].data.date)
                   && JoinLine(meds, custs, sales[1..][j]) == Some(line);
          assert sales[1..][j] == sales[j + 1];
        } else {
          assert f.Admits(sales[0].data.date) && JoinLine(meds, custs, sales[0]) == Some(line);
        }
      }
      if exists i :: 0 <= i < |sales| && f.Admits(sales[i].data.date) && JoinLine(meds, custs, sales[i]) == Some(line) {
        var i :| 0 <= i < |sales| && f.Admits(sales[i].data.date) && JoinLine(meds, custs, sales[i]) == Some(line);
        if i > 0 {
          assert sales[1..][i - 1] == sales[i];
        }
      }
    }
  }

  /** `fetch_sales`: every sale joined with its customer and medicine. */
  function FetchSales(meds: seq<Medicine>, custs: seq<Customer>, sales: seq<Sale>): (r: seq<SaleLine>)
    ensures |r| <= |sales|
    ensures (forall i :: 0 <= i < |sales| ==> JoinLine(meds, custs, sales[i]).Some?) ==> |r| == |sales|
  {
    JoinSales(meds, custs, sales, AnyDate)
  }

  /** `generate_report`: the joined sales whose stamp lies between the bounds as TEXT. */
  function GenerateReport(meds: seq<Medicine>, custs: seq<Customer>, sales: seq<Sale>, start: string, end: string)
    : (r: seq<SaleLine>)
    ensures |r| <= |sales|
    ensures (forall i :: 0 <= i < |sales| ==>
               JoinLine(meds, custs, sales[i]).Some? && InClosedRange(start, sales[i].data.date, end))
            ==> |r| == |sales|
  {
    JoinSales(meds, custs, sales, Between(start, end))
  }

  /** The report the date pickers evidently ask for: the joined sales stamped on a day from start to end. */
  function GenerateDayReport(meds: seq<Medicine>, custs: seq<Customer>, sales: seq<Sale>, start: string, end: string)
    : (r: seq<SaleLine>)
    ensures |r| <= |sales|
    ensures (forall i :: 0 <= i < |sales| ==>
               JoinLine(meds, custs, sales[i]).Some? && InClosedRange(start, DayOf(sales[i].data.date), end))
            ==> |r| == |sales|
  {
    JoinSales(meds, custs, sales, DaysBetween(start, end))
  }

  /** `fetch_sales` shows a sale exactly when its customer and its medicine both still exist. */
  lemma FetchSalesMembers(meds: seq<Medicine>, custs: seq<Customer>, sales: seq<Sale>, line: SaleLine)
    ensures line in FetchSales(meds, custs, sales) <==>
            exists i :: 0 <= i < |sales| && JoinLine(meds, custs, sales[i]) == Some(line)
  {
    JoinSalesMembers(meds, custs, sales, AnyDate, line);
  }

  /** `generate_report` keeps a joined sale exactly when start <= stamp <= end as TEXT. */
  lemma ReportMembers(meds: seq<Medicine>, custs: seq<Customer>, sales: seq<Sale>, start: string, end: string,
                      line: SaleLine)
    ensures line in GenerateReport(meds, custs, sales, start, end) <==>
            exists i :: 0 <= i < |sales| && InClosedRange(start, sales[i].data.date, end)
                        && JoinLine(meds, custs, sales[i]) == Some(line)
  {
    JoinSalesMembers(meds, custs, sales, Between(start, end), line);
  }

  /** Every report line is also a `fetch_sales` line. */
  lemma ReportWithinFetch(meds: seq<Medicine>, custs: seq<Customer>, sales: seq<Sale>, start: string, end: string,
                          line: SaleLine)
    requires line in GenerateReport(meds, custs, sales, start, end)
    ensures line in FetchSales(meds, custs, sales)
  {
    ReportMembers(meds, custs, sales, start, end, line);
    FetchSalesMembers(meds, custs, sales, line);
  }

  /** A range whose start sorts after its end yields an empty report, not an error. */
  lemma EmptyRangeReport(meds: seq<Medicine>, custs: seq<Customer>, sales: seq<Sale>, start: string, end: string)
    requires !LexLe(start, end)
    ensures GenerateReport(meds, custs, sales, start, end) == []
    ensures GenerateDayReport(meds, custs, sales, start, end) == []
  {
    var r := GenerateReport(meds, custs, sales, start, end);
    if r != [] {
      JoinSalesMembers(meds, custs, sales, Between(start, end), r[0]);
      var i :| 0 <= i < |sales| && InClosedRange(start, sales[i].data.date, end)
               && JoinLine(meds, custs, sales[i]) == Some(r[0]);
      EmptyRange(start, sales[i].data.date, end);
    }
    var d := GenerateDayReport(meds, custs, sales, start, end);
    if d != [] {
      JoinSalesMembers(meds, custs, sales, DaysBetween(start, end), d[0]);
      var i :| 0 <= i < |sales| && InClosedRange(start, DayOf(sales[i].data.date), end)
               && JoinLine(meds, custs, sales[i]) == Some(d[0]);
      EmptyRange(start, DayOf(sales[i].data.date), end);
    }
  }

  /** The join of a single sale: its line when both keys resolve and the filter admits its date, else nothing. */
  lemma JoinSingle(meds: seq<Medicine>, custs: seq<Customer>, s: Sale, f: DateFilter)
    ensures JoinSales(meds, custs, [s], f) ==
            if JoinLine(meds, custs, s).Some? && f.Admits(s.data.date) then [JoinLine(meds, custs, s).value] else []
  {
    assert [s][1..] == [];
  }

  /**
   * The join of two runs of sales is the join of the first followed by the
   * join of the second: with `JoinSingle` this fixes every line, how often it
   * occurs and where, not only which lines occur.
   */
  lemma {:induction false} JoinSalesConcat(meds: seq<Medicine>, custs: seq<Customer>, a: seq<Sale>, b: seq<Sale>,
                                           f: DateFilter)
    ensures JoinSales(meds, custs, a + b, f) == JoinSales(meds, custs, a, f) + JoinSales(meds, custs, b, f)
  {
    if a == [] {
      assert a + b == b;
    } else {
      assert (a + b)[0] == a[0];
      assert (a + b)[1..] == a[1..] + b;
      JoinSalesConcat(meds, custs, a[1..], b, f);
    }
  }

  /** A stamp that carries a time after its day sorts strictly above that day. */
  lemma TimeAfterDay(stamp: string)
    requires |stamp| > 10
    ensures !LexLe(stamp, DayOf(stamp))
  {
    PrefixLexLe(stamp, 10);
    if LexLe(stamp, stamp[..10]) {
      LexLeAntisymmetric(stamp[..10], stamp);
    }
  }

  /**
   * As written, the report drops the end day: a sale stamped with a time,
   * such as '2024-05-10 09:30:00', sorts above the bound '2024-05-10', so the
   * report asked for that day alone returns nothing. The day report keeps it.
   */
  lemma EndDayDropped(meds: seq<Medicine>, custs: seq<Customer>, s: Sale)
    requires JoinLine(meds, custs, s).Some?
    requires |s.data.date| > 10
    ensures var day := DayOf(s.data.date);
            && GenerateReport(meds, custs, [s], day, day) == []
            && GenerateDayReport(meds, custs, [s], day, day) == [JoinLine(meds, custs, s).value]
  {
    LexLeReflexive(DayOf(s.data.date));
    TimeAfterDay(s.data.date);
    JoinSingle(meds, custs, s, Between(DayOf(s.data.date), DayOf(s.data.date)));
    JoinSingle(meds, custs, s, DaysBetween(DayOf(s.data.date), DayOf(s.data.date)));
  }

  /** The input that shows it: one sale of Paracetamol to Asha at 09:30 on 2024-05-10. */
  lemma EndDayExample()
    ensures var meds := [Row(1, MedicineData("Paracetamol", "Analgesic", 300, 500, 6, "2025-01-31"))];
            var custs := [Row(1, CustomerData("Asha", "9876543210", "Pune"))];
            var sale := Row(1, SaleData(1, 1, 4, 2000, "2024-05-10 09:30:00", None));
            && DayOf(sale.data.date) == "2024-05-10"
            && GenerateReport(meds, custs, [sale], "2024-05-10", "2024-05-10") == []
            && GenerateDayReport(meds, custs, [sale], "2024-05-10", "2024-05-10")
               == [SaleLine("2024-05-10 09:30:00", "Asha", "Paracetamol", 4, 2000, None)]
  {
    var meds := [Row(1, MedicineData("Paracetamol", "Analgesic", 300, 500, 6, "2025-01-31"))];
    var custs := [Row(1, CustomerData("Asha", "9876543210", "Pune"))];
    var sale := Row(1, SaleData(1, 1, 4, 2000, "2024-05-10 09:30:00", None));
    assert JoinLine(meds, custs, sale) == Some(SaleLine("2024-05-10 09:30:00", "Asha", "Paracetamol", 4, 2000, None)) by {
      assert Find(custs, 1) == Some(custs[0]);
      assert Find(meds, 1) == Some(meds[0]);
    }
    assert DayOf(sale.data.date) == "2024-05-10" by {
      assert sale.data.date[..10] == "2024-05-10";
    }
    EndDayDropped(meds, custs, sale);
  }

  /**
   * The day report loses nothing the as-written report shows: for stamps of
   * at least ten characters and a start bound of at most ten, every line of
   * `GenerateReport` is a line of `GenerateDayReport`.
   */
  lemma {:induction false} DayReportExtendsReport(
    meds: seq<Medicine>, custs: seq<Customer>, sales: seq<Sale>, start: string, end: string, line: SaleLine)
    requires |start| <= 10
    requires forall s :: s in sales ==> |s.data.date| >= 10
    requires line in GenerateReport(meds, custs, sales, start, end)
    ensures line in GenerateDayReport(meds, custs, sales, start, end)
  {
    ReportMembers(meds, custs, sales, start, end, line);
    var i :| 0 <= i < |sales| && InClosedRange(start, sales[i].data.date, end)
             && JoinLine(meds, custs, sales[i]) == Some(line);
    var d := sales[i].data.date;
    assert sales[i] in sales;
    LexLeTruncate(start, d, 10);
    PrefixLexLe(d, 10);
    LexLeTransitive(d[..10], d, end);
    JoinSalesMembers(meds, custs, sales, DaysBetween(start, end), line);
  }

  /** The evidently intended report: a joined sale is kept exactly when its day lies from start to end. */
  lemma DayReportMembers(meds: seq<Medicine>, custs: seq<Customer>, sales: seq<Sale>, start: string, end: string,
                         line: SaleLine)
    ensures line in GenerateDayReport(meds, custs, sales, start, end) <==>
            exists i :: 0 <= i < |sales| && InClosedRange(start, DayOf(sales[i].data.date), end)
                        && JoinLine(meds, custs, sales[i]) == Some(line)
  {
    JoinSalesMembers(meds, custs, sales, DaysBetween(start, end), line);
  }

  /** `calculate_total_sales`: the sum of every sale's total, 0 for no sales; no join. */
  function TotalSales(sales: seq<Sale>): (r: int)
    ensures (forall s :: s in sales ==> s.data.total >= 0) ==> r >= 0
    ensures (forall s :: s in sales ==> s.data.total == 0) ==> r == 0
  {
    if sales == [] then 0 else sales[0].data.total + TotalSales(sales[1..])
  }

  lemma {:induction false} TotalSalesAppend(sales: seq<Sale>, s: Sale)
    ensures TotalSales(sales + [s]) == TotalSales(sales) + s.data.total
  {
    if sales != [] {
      assert (sales + [s])[1..] == sales[1..] + [s];
      TotalSalesAppend(sales[1..], s);
    }
  }

  /** What one sold unit earns under the medicine's current prices; 0 once the medicine is gone. */
  function Margin(meds: seq<Medicine>, id: int): int
  {
    match Find(meds, id)
    case None => 0
    case Some(m) => m.data.sellPrice - m.data.buyPrice
  }

  /**
   * `calculate_total_profit`: quantity x (current sell price - current buy
   * price) summed over the sales whose medicine still exists; 0 for none.
   */
  function TotalProfit(meds: seq<Medicine>, sales: seq<Sale>): int
  {
    if sales == [] then 0
    else sales[0].data.quantity * Margin(meds, sales[0].data.medicineId) + TotalProfit(meds, sales[1..])
  }

  /** The units sold of medicine `id` over all sales. */
  function QuantitySold(sales: seq<Sale>, id: int): int
  {
    if sales == [] then 0
    else (if sales[0].data.medicineId == id then sales[0].data.quantity else 0) + QuantitySold(sales[1..], id)
  }

  /** Sales whose medicine is gone earn nothing: the inner join drops them. */
  lemma {:induction false} ProfitOfMissingMedicines(meds: seq<Medicine>, sales: seq<Sale>)
    requires forall s :: s in sales ==> Find(meds, s.data.medicineId).None?
    ensures TotalProfit(meds, sales) == 0
  {
    if sales != [] {
      assert sales[0] in sales;
      assert forall s :: s in sales[1..] ==> s in sales;
      ProfitOfMissingMedicines(meds, sales[1..]);
    }
  }

  /** The units sold of a medicine are never negative for non-negative quantities, and 0 if it was never sold. */
  lemma {:induction false} QuantitySoldBounds(sales: seq<Sale>, id: int)
    ensures (forall s :: s in sales ==> s.data.quantity >= 0) ==> QuantitySold(sales, id) >= 0
    ensures (forall s :: s in sales ==> s.data.medicineId != id) ==> QuantitySold(sales, id) == 0
  {
    if sales != [] {
      assert sales[0] in sales;
      assert forall s :: s in sales[1..] ==> s in sales;
      QuantitySoldBounds(sales[1..], id);
    }
  }

  lemma {:induction false} TotalProfitAppend(meds: seq<Medicine>, sales: seq<Sale>, s: Sale)
    ensures TotalProfit(meds, sales + [s]) == TotalProfit(meds, sales) + s.data.quantity * Margin(meds, s.data.medicineId)
  {
    if sales != [] {
      assert (sales + [s])[1..] == sales[1..] + [s];
      TotalProfitAppend(meds, sales[1..], s);
    }
  }

  lemma Distribute(a: int, b: int, c: int)
    ensures a * (b + c) == a * b + a * c
    ensures (b + c) * a == b * a + c * a
  {
  }

  /**
   * Profit follows the current prices: when only medicine `id`'s margin
   * changes, the profit over all past sales moves by the units ever sold of
   * it times the change.
   */
  lemma {:induction false} ProfitShift(meds: seq<Medicine>, meds': seq<Medicine>, sales: seq<Sale>, id: int)
    requires forall k :: k != id ==> Margin(meds', k) == Margin(meds, k)
    ensures TotalProfit(meds', sales) ==
            TotalProfit(meds, sales) + QuantitySold(sales, id) * (Margin(meds', id) - Margin(meds, id))
  {
    if sales != [] {
      ProfitShift(meds, meds', sales[1..], id);
      var q := sales[0].data.quantity;
      var delta := Margin(meds', id) - Margin(meds, id);
      if sales[0].data.medicineId == id {
        Distribute(q, Margin(meds, id), delta);
        Distribute(delta, q, QuantitySold(sales[1..], id));
      }
    }
  }

  /** Profit reads nothing of a medicine but its margin: a change that keeps every margin keeps the profit. */
  lemma {:induction false} SameMarginsSameProfit(meds: seq<Medicine>, meds': seq<Medicine>, sales: seq<Sale>)
    requires forall k :: Margin(meds', k) == Margin(meds, k)
    ensures TotalProfit(meds', sales) == TotalProfit(meds, sales)
  {
    if sales != [] {
      SameMarginsSameProfit(meds, meds', sales[1..]);
    }
  }

  /** A recorded sale adds its total to the revenue; a refused one adds nothing. */
  lemma RevenueAfterSale(db: Db, customerId: int, medicineId: int, quantity: int, prescription: Option<string>,
                         date: string)
    ensures var (o, db') := db.RecordSale(customerId, medicineId, quantity, prescription, date);
            TotalSales(db'.sales) ==
            TotalSales(db.sales) + if o == SaleRecorded then Find(db.medicines, medicineId).value.data.sellPrice * quantity
                                   else 0
  {
    var (o, db') := db.RecordSale(customerId, medicineId, quantity, prescription, date);
    if o == SaleRecorded {
      RecordedSale(db, customerId, medicineId, quantity, prescription, date);
      var m := Find(db.medicines, medicineId).value;
      var s := Row(db.lastSaleId + 1,
                   SaleData(customerId, medicineId, quantity, m.data.sellPrice * quantity, date, prescription));
      TotalSalesAppend(db.sales, s);
    }
  }

  /** A recorded sale adds quantity x the medicine's margin to the profit; a refused one adds nothing. */
  lemma ProfitAfterSale(db: Db, customerId: int, medicineId: int, quantity: int, prescription: Option<string>,
                        date: string)
    ensures var (o, db') := db.RecordSale(customerId, medicineId, quantity, prescription, date);
            TotalProfit(db'.medicines, db'.sales) ==
            TotalProfit(db.medicines, db.sales) + if o == SaleRecorded then quantity * Margin(db.medicines, medicineId)
                                                  else 0
  {
    var (o, db') := db.RecordSale(customerId, medicineId, quantity, prescription, date);
    if o == SaleRecorded {
      RecordedSale(db, customerId, medicineId, quantity, prescription, date);
      var m := Find(db.medicines, medicineId).value;
      forall k
        ensures Margin(db'.medicines, k) == Margin(db.medicines, k)
      {
        if k == medicineId {
          assert Find(db'.medicines, k) == Some(Depleted(m, quantity));
        } else {
          assert Find(db'.medicines, k) == Find(db.medicines, k);
        }
      }
      SameMarginsSameProfit(db.medicines, db'.medicines, db.sales);
      var s := Row(db.lastSaleId + 1,
                   SaleData(customerId, medicineId, quantity, m.data.sellPrice * quantity, date, prescription));
      assert db'.sales == db.sales + [s];
      TotalProfitAppend(db'.medicines, db.sales, s);
    }
  }

  /** Repricing one medicine in the table moves the profit by its quantity sold times the change in its margin. */
  lemma RepricedProfit(meds: seq<Medicine>, sales: seq<Sale>, id: int, data: MedicineData)
    requires Find(meds, id).Some?
    ensures TotalProfit(Update(meds, id, data), sales) ==
            TotalProfit(meds, sales)
            + QuantitySold(sales, id) * ((data.sellPrice - data.buyPrice) - Margin(meds, id))
  {
    UpdatedMargins(meds, id, data);
    ProfitShift(meds, Update(meds, id, data), sales, id);
  }

  /**
   * Editing a medicine's prices rewrites the profit of every past sale of it:
   * the profit moves by its units ever sold times the change in its margin.
   */
  lemma ProfitAfterPriceEdit(db: Db, id: int, data: MedicineData)
    requires db.Valid() && Find(db.medicines, id).Some?
    ensures TotalProfit(db.UpdateMedicine(id, data).medicines, db.sales) ==
            TotalProfit(db.medicines, db.sales)
            + QuantitySold(db.sales, id) * ((data.sellPrice - data.buyPrice) - Margin(db.medicines, id))
  {
    assert db.UpdateMedicine(id, data).medicines == Update(db.medicines, id, data);
    RepricedProfit(db.medicines, db.sales, id, data);
  }

  /** An edit rewrites the margin of its own medicine and of no other. */
  lemma UpdatedMargins(meds: seq<Medicine>, id: int, data: MedicineData)
    requires Find(meds, id).Some?
    ensures Margin(Update(meds, id, data), id) == data.sellPrice - data.buyPrice
    ensures forall k :: k != id ==> Margin(Update(meds, id, data), k) == Margin(meds, k)
  {
    FindAfterUpdate(meds, id, data);
  }

  /** A medicine whose margin falls to 0 takes the profit of all its sales with it. */
  lemma ProfitDropped(meds: seq<Medicine>, meds': seq<Medicine>, sales: seq<Sale>, id: int)
    requires forall k :: k != id ==> Margin(meds', k) == Margin(meds, k)
    requires Margin(meds', id) == 0
    ensures TotalProfit(meds', sales) == TotalProfit(meds, sales) - QuantitySold(sales, id) * Margin(meds, id)
  {
    ProfitShift(meds, meds', sales, id);
    ShiftToZero(TotalProfit(meds', sales), TotalProfit(meds, sales), QuantitySold(sales, id), Margin(meds, id));
  }

  lemma ShiftToZero(after: int, before: int, q: int, m: int)
    requires after == before + q * (0 - m)
    ensures after == before - q * m
  {
  }

  /** Deleting a medicine drops the profit of all its past sales; the revenue keeps them. */
  lemma ProfitAfterDelete(db: Db, id: int)
    requires db.Valid()
    ensures var db' := db.DeleteMedicine(id);
            && TotalProfit(db'.medicines, db'.sales) ==
               TotalProfit(db.medicines, db.sales) - QuantitySold(db.sales, id) * Margin(db.medicines, id)
            && TotalSales(db'.sales) == TotalSales(db.sales)
  {
    var db' := db.DeleteMedicine(id);
    forall k | k != id
      ensures Margin(db'.medicines, k) == Margin(db.medicines, k)
    {
      assert Find(db'.medicines, k) == Find(db.medicines, k);
    }
    assert Margin(db'.medicines, id) == 0 by {
      assert Find(db'.medicines, id) == None;
    }
    assert db'.sales == db.sales;
    ProfitDropped(db.medicines, db'.medicines, db.sales, id);
  }

  /**
   * `medicines_expiring_this_week`: the medicines with
   * today <= expiry_date <= weekEnd as TEXT ('YYYY-MM-DD').
   */
  function ExpiringThisWeek(meds: seq<Medicine>, today: string, weekEnd: string): (r: nat)
    ensures r <= |meds|
    ensures r == 0 <==> forall m :: m in meds ==> !InClosedRange(today, m.data.expiryDate, weekEnd)
    ensures r == |meds| <==> forall m :: m in meds ==> InClosedRange(today, m.data.expiryDate, weekEnd)
  {
    if meds == [] then 0
    else
      assert forall m :: m in meds <==> m == meds[0] || m in meds[1..] by {
        assert meds == [meds[0]] + meds[1..];
      }
      (if InClosedRange(today, meds[0].data.expiryDate, weekEnd) then 1 else 0)
      + ExpiringThisWeek(meds[1..], today, weekEnd)
  }

  /** The count over two runs of rows is the sum of their counts. */
  lemma {:induction false} ExpiringConcat(a: seq<Medicine>, b: seq<Medicine>, today: string, weekEnd: string)
    ensures ExpiringThisWeek(a + b, today, weekEnd) == ExpiringThisWeek(a, today, weekEnd) + ExpiringThisWeek(b, today, weekEnd)
  {
    if a == [] {
      assert a + b == b;
    } else {
      assert (a + b)[0] == a[0];
      assert (a + b)[1..] == a[1..] + b;
      ExpiringConcat(a[1..], b, today, weekEnd);
    }
  }

  /**
   * One medicine counts exactly when its expiry date lies in today..weekEnd;
   * with `ExpiringConcat` this fixes the count of every table.
   */
  lemma ExpiringSingle(m: Medicine, today: string, weekEnd: string)
    ensures ExpiringThisWeek([m], today, weekEnd) == if InClosedRange(today, m.data.expiryDate, weekEnd) then 1 else 0
  {
    assert [m][1..] == [];
  }

  /**
   * The worked example: stock 10 at buy 3.00 and sell 5.00; selling 4 leaves
   * 6 in stock, a sale of 20.00 and a profit of 8.00; selling 20 more is refused.
   */
  lemma WorkedExample()
    ensures var db := Db([Row(1, MedicineData("Paracetamol", "Analgesic", 300, 500, 10, "2025-01-31"))],
                         [Row(1, CustomerData("Asha", "9876543210", "Pune"))], [], 1, 1, 0);
            db.Valid()
            && var (o, db') := db.RecordSale(1, 1, 4, None, "2024-05-10 09:30:00");
            && o == SaleRecorded
            && Find(db'.medicines, 1).value.data.stock == 6
            && db'.sales[0].data.total == 2000
            && TotalSales(db'.sales) == 2000
            && TotalProfit(db'.medicines, db'.sales) == 800
            && var (o', db'') := db'.RecordSale(1, 1, 20, None, "2024-05-10 09:31:00");
            && o' == NotEnoughStock
            && db'' == db'
  {
    var db := Db([Row(1, MedicineData("Paracetamol", "Analgesic", 300, 500, 10, "2025-01-31"))],
                 [Row(1, CustomerData("Asha", "9876543210", "Pune"))], [], 1, 1, 0);
    var (o, db') := db.RecordSale(1, 1, 4, None, "2024-05-10 09:30:00");
    assert Find(db'.medicines, 1).value.data.stock == 6;
    assert db'.medicines == [Row(1, MedicineData("Paracetamol", "Analgesic", 300, 500, 6, "2025-01-31"))];
    assert Margin(db'.medicines, 1) == 200;
  }

  // ---------------------------------------------------------------------------
  // The store as the program holds it
  // ---------------------------------------------------------------------------

  /** The store's three tables and key counters, changed in place by each operation. */
  class Store {
    var medicines: seq<Medicine>
    var customers: seq<Customer>
    var sales: seq<Sale>
    var lastMedicineId: nat
    var lastCustomerId: nat
    var lastSaleId: nat

    function State(): Db
      reads this
    {
      Db(medicines, customers, sales, lastMedicineId, lastCustomerId, lastSaleId)
    }

    ghost predicate Valid()
      reads this
    {
      State().Valid()
    }

    /** A store whose three tables are freshly created and empty. */
    constructor ()
      ensures Valid() && State() == Db([], [], [], 0, 0, 0)
    {
      medicines, customers, sales := [], [], [];
      lastMedicineId, lastCustomerId, lastSaleId := 0, 0, 0;
    }

    /** `fetch_medicines`: every row, in ascending key order, each key once. */
    method FetchMedicines() returns (rows: seq<Medicine>)
      requires Valid()
      ensures rows == medicines
      ensures forall i, j :: 0 <= i < j < |rows| ==> rows[i].id < rows[j].id
    {
      rows := medicines;
    }

    /** `fetch_customers`: every row, in ascending key order, each key once. */
    method FetchCustomers() returns (rows: seq<Customer>)
      requires Valid()
      ensures rows == customers
      ensures forall i, j :: 0 <= i < j < |rows| ==> rows[i].id < rows[j].id
    {
      rows := customers;
    }

    method AddMedicine(name: string, category: string, buyPrice: int, sellPrice: int, stock: int, expiryDate: string)
      requires Valid()
      modifies this
      ensures Valid()
      ensures State() == old(State()).AddMedicine(MedicineData(name, category, buyPrice, sellPrice, stock, expiryDate))
    {
      lastMedicineId := lastMedicineId + 1;
      medicines := medicines + [Row(lastMedicineId, MedicineData(name, category, buyPrice, sellPrice, stock, expiryDate))];
    }

    method AddCustomer(name: string, contact: string, address: string)
      requires Valid()
      modifies this
      ensures Valid()
      ensures State() == old(State()).AddCustomer(CustomerData(name, contact, address))
    {
      lastCustomerId := lastCustomerId + 1;
      customers := customers + [Row(lastCustomerId, CustomerData(name, contact, address))];
    }

    method UpdateMedicine(id: int, name: string, category: string, buyPrice: int, sellPrice: int, stock: int,
                          expiryDate: string)
      requires Valid()
      modifies this
      ensures Valid()
      ensures State() ==
              old(State()).UpdateMedicine(id, MedicineData(name, category, buyPrice, sellPrice, stock, expiryDate))
    {
      var data := MedicineData(name, category, buyPrice, sellPrice, stock, expiryDate);
      ghost var before := State();
      if Find(medicines, id).Some? {
        medicines := Update(medicines, id, data);
      }
      assert State() == before.UpdateMedicine(id, data);
    }

    method UpdateCustomer(id: int, name: string, contact: string, address: string)
      requires Valid()
      modifies this
      ensures Valid()
      ensures State() == old(State()).UpdateCustomer(id, CustomerData(name, contact, address))
    {
      ghost var before := State();
      if Find(customers, id).Some? {
        customers := Update(customers, id, CustomerData(name, contact, address));
      }
      assert State() == before.UpdateCustomer(id, CustomerData(name, contact, address));
    }

    method DeleteMedicine(id: int)
      requires Valid()
      modifies this
      ensures Valid()
      ensures State() == old(State()).DeleteMedicine(id)
    {
      ghost var before := State();
      if Find(medicines, id).Some? {
        medicines := Delete(medicines, id);
      }
      assert State() == before.DeleteMedicine(id);
    }

    method DeleteCustomer(id: int)
      requires Valid()
      modifies this
      ensures Valid()
      ensures State() == old(State()).DeleteCustomer(id)
    {
      ghost var before := State();
      if Find(customers, id).Some? {
        customers := Delete(customers, id);
      }
      assert State() == before.DeleteCustomer(id);
    }

    /**
     * `record_sale`: read the medicine's price and stock, refuse a missing
     * medicine or short stock, else write the decreased stock and append the
     * sale stamped `now`.
     */
    method RecordSale(customerId: int, medicineId: int, quantity: int, prescription: Option<string>, now: string)
      returns (outcome: Outcome)
      requires Valid()
      modifies this
      ensures Valid()
      ensures (outcome, State()) == old(State()).RecordSale(customerId, medicineId, quantity, prescription, now)
    {
      ghost var expected := State().RecordSale(customerId, medicineId, quantity, prescription, now);
      assert expected.1.Valid();
      var found := Find(medicines, medicineId);
      if found.None? {
        return MedicineNotFound;
      }
      var price, stock := found.value.data.sellPrice, found.value.data.stock;
      if stock < quantity {
        return NotEnoughStock;
      }
      var total := price * quantity;
      var newStock := stock - quantity;
      medicines := Update(medicines, medicineId, found.value.data.(stock := newStock));
      lastSaleId := lastSaleId + 1;
      sales := sales + [Row(lastSaleId, SaleData(customerId, medicineId, quantity, total, now, prescription))];
      outcome := SaleRecorded;
      assert found.value.data.(stock := newStock) == Depleted(found.value, quantity).data;
      assert medicines == expected.1.medicines && sales == expected.1.sales;
      assert State() == expected.1;
    }
  }

}
