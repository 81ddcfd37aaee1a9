/** The fact store's second writer: collection stores each record as it comes
    (`silk_collectors.py`), where a live result sums and compares them first. */
module CollectedStore {
  import opened Common
  import opened MarketStore
  import opened StableSort
  import opened Wrappers

  /** The partner that collection files a code under: the World row apart. */
  function FiledUnder(table: CodeTable, code: string): string {
    if code == "0" then WLD else PartnerOf(table, code)
  }

  function CollectedRows(table: CodeTable, recs: seq<Record>): seq<Row> {
    if recs == [] then []
    else
      var r, before := recs[|recs| - 1], CollectedRows(table, recs[..|recs| - 1]);
      if r.value.Some? then before + [Row(FiledUnder(table, r.code), r.value)] else before
  }

  /** The loop that prepares the rows. */
  method RowsToStore(table: CodeTable, recs: seq<Record>) returns (rows: seq<Row>)
    ensures rows == CollectedRows(table, recs)
  {
    rows := [];
    for i := 0 to |recs|
      invariant rows == CollectedRows(table, recs[..i])
    {
      assert recs[..i + 1][..i] == recs[..i];
      if recs[i].value.Some? {
        rows := rows + [Row(FiledUnder(table, recs[i].code), recs[i].value)];
      }
    }
    assert recs[..|recs|] == recs;
  }

  /** The store once a collection has been written. */
  function Collected(store: Store, q: Query, table: CodeTable, recs: seq<Record>): Store {
    Upserted(store, q, CollectedRows(table, recs))
  }

  // ------------------------------------------- last value against sum

  /** The last number seen for a code, which is the one the upsert keeps. */
  function LastOf(recs: seq<Record>, code: string): Option<real> {
    if recs == [] then None
    else
      var r := recs[|recs| - 1];
      if r.code == code && r.value.Some? then r.value else LastOf(recs[..|recs| - 1], code)
  }

  /** The sum of the numbers seen for a code, which is what the live result lists. */
  function SumOf(recs: seq<Record>, code: string): Option<real> {
    if recs == [] then None
    else
      var r, before := recs[|recs| - 1], SumOf(recs[..|recs| - 1], code);
      if r.code == code && r.value.Some? then Some((if before.Some? then before.value else 0.0) + r.value.value)
      else before
  }

  function ValueIn(totals: seq<Partner>, code: string): Option<real> {
    if totals == [] then None
    else if totals[0].code == code then Some(totals[0].value)
    else ValueIn(totals[1..], code)
  }

  lemma {:induction false} ValueInHas(totals: seq<Partner>, x: Partner)
    requires OnePerCode(totals)
    ensures x in totals <==> ValueIn(totals, x.code) == Some(x.value)
  {
    if totals != [] {
      assert totals == [totals[0]] + totals[1..];
      ValueInHas(totals[1..], x);
      assert totals[0].code == x.code && x in totals[1..] ==> false;
    }
  }

  lemma {:induction false} ValueInOther(totals: seq<Partner>, code: string, value: real, other: string)
    requires other != code
    ensures ValueIn(AddTo(totals, code, value), other) == ValueIn(totals, other)
  {
    if totals != [] && totals[0].code != code { ValueInOther(totals[1..], code, value, other); }
  }

  lemma {:induction false} ValueInAdded(totals: seq<Partner>, code: string, value: real)
    ensures ValueIn(AddTo(totals, code, value), code)
         == Some((if ValueIn(totals, code).Some? then ValueIn(totals, code).value else 0.0) + value)
  {
    if totals != [] && totals[0].code != code { ValueInAdded(totals[1..], code, value); }
  }

  lemma {:induction false} TotalsAreSums(recs: seq<Record>, code: string)
    requires code != "0"
    ensures ValueIn(Totals(recs), code) == SumOf(recs, code)
  {
    if recs != [] {
      var r, front := recs[|recs| - 1], recs[..|recs| - 1];
      TotalsAreSums(front, code);
      if Counts(r) && r.code == code {
        ValueInAdded(Totals(front), code, r.value.value);
      } else if Counts(r) {
        ValueInOther(Totals(front), r.code, r.value.value, code);
      }
    }
  }

  lemma {:induction false} InTotals(recs: seq<Record>, x: Partner)
    ensures x in Totals(recs) <==> x.code != "0" && SumOf(recs, x.code) == Some(x.value)
  {
    TotalsCodes(recs);
    ValueInHas(Totals(recs), x);
    if x.code != "0" { TotalsAreSums(recs, x.code); }
  }

  lemma {:induction false} ListedIs(s: seq<Partner>, grand: real, code: string, value: real)
    requires grand != 0.0
    ensures (exists share :: Competitor(code, value, share) in Listed(s, grand)) <==> Partner(code, value) in s
  {
    var listed := Listed(s, grand);
    if share :| Competitor(code, value, share) in listed {
      var i :| 0 <= i < |listed| && listed[i] == Competitor(code, value, share);
      assert s[i] == Partner(code, value);
    }
    if Partner(code, value) in s {
      var i :| 0 <= i < |s| && s[i] == Partner(code, value);
      assert listed[i] == Competitor(code, value, Share(value, grand));
    }
  }

  /** The live result lists a supplier with a value if and only if the sum of its numbers
      is that value; it lists nobody where the sum of all of them is not positive. */
  lemma {:induction false} LiveListsExactly(recs: seq<Record>, code: string, value: real)
    ensures (exists share :: Competitor(code, value, share) in Live(recs).competitors)
            <==> SumCounted(recs) > 0.0 && code != "0" && SumOf(recs, code) == Some(value)
  {
    var totals, grand := Totals(recs), SumCounted(recs);
    PartnersConserve(recs);
    if grand > 0.0 {
      SortPermutes(ByValue, totals);
      ListedIs(Sort(ByValue, totals), grand, code, value);
      assert Partner(code, value) in Sort(ByValue, totals) <==> Partner(code, value) in multiset(totals);
      InTotals(recs, Partner(code, value));
    }
  }

  lemma {:induction false} SeenTogether(recs: seq<Record>, code: string)
    ensures LastOf(recs, code).Some? <==> SumOf(recs, code).Some?
    ensures LastOf(recs, code).Some? <==> exists r | r in recs :: r.code == code && r.value.Some?
  {
    if recs != [] {
      SeenTogether(recs[..|recs| - 1], code);
      assert recs == recs[..|recs| - 1] + [recs[|recs| - 1]];
    }
  }

  lemma {:induction false} WorldIsLast(recs: seq<Record>)
    ensures World(recs) == LastOf(recs, "0")
  {
    if recs != [] { WorldIsLast(recs[..|recs| - 1]); }
  }

  // ------------------------------------------------------ what is stored

  /** Codes that the store's spelling keeps apart. */
  ghost predicate KeptApart(table: CodeTable, recs: seq<Record>) {
    forall r | r in recs && Counts(r) :: Unambiguous(table, r.code)
  }

  lemma {:induction false} KeptApartFront(table: CodeTable, recs: seq<Record>)
    requires recs != [] && KeptApart(table, recs)
    ensures KeptApart(table, recs[..|recs| - 1])
  {
    assert forall r | r in recs[..|recs| - 1] :: r in recs;
  }

  /** Codes the table can carry back and forth: the World row's, or unambiguous. */
  ghost predicate Carries(table: CodeTable, code: string) {
    code == "0" || Unambiguous(table, code)
  }

  lemma {:induction false} FiledApart(table: CodeTable, code: string, other: string)
    requires Carries(table, code) && Carries(table, other)
    ensures FiledUnder(table, code) == FiledUnder(table, other) <==> code == other
  {}

  /** The row of a code holds its last number; without one the row is untouched. */
  lemma {:induction false} StoredLast(store: Store, q: Query, table: CodeTable, recs: seq<Record>, code: string)
    requires KeptApart(table, recs) && Carries(table, code)
    ensures var k, after := KeyOf(q, FiledUnder(table, code)), Collected(store, q, table, recs);
            if LastOf(recs, code).Some? then k in after && after[k] == LastOf(recs, code)
            else (k in after <==> k in store) && (k in store ==> after[k] == store[k])
  {
    if recs != [] {
      var r, front := recs[|recs| - 1], recs[..|recs| - 1];
      KeptApartFront(table, recs);
      StoredLast(store, q, table, front, code);
      if r.value.Some? {
        assert r in recs;
        assert Carries(table, r.code);
        FiledApart(table, r.code, code);
        UpsertedOneMore(store, q, CollectedRows(table, front), Row(FiledUnder(table, r.code), r.value));
      }
    }
  }

  lemma {:induction false} UpsertedOneMore(store: Store, q: Query, rows: seq<Row>, row: Row)
    ensures Upserted(store, q, rows + [row]) == Upserted(store, q, rows)[KeyOf(q, row.partner) := row.value]
  {
    assert (rows + [row])[..|rows|] == rows;
  }

  /** Every row that collection adds is some code's. */
  lemma {:induction false} StoredFrom(store: Store, q: Query, table: CodeTable, recs: seq<Record>, p: string)
    returns (code: string)
    requires KeptApart(table, recs) && Untouched(store, q)
    requires KeyOf(q, p) in Collected(store, q, table, recs)
    ensures Carries(table, code) && FiledUnder(table, code) == p && LastOf(recs, code).Some?
  {
    var r, front := recs[|recs| - 1], recs[..|recs| - 1];
    KeptApartFront(table, recs);
    assert r in recs;
    if r.value.Some? {
      UpsertedOneMore(store, q, CollectedRows(table, front), Row(FiledUnder(table, r.code), r.value));
    }
    if r.value.Some? && FiledUnder(table, r.code) == p {
      code := r.code;
    } else {
      code := StoredFrom(store, q, table, front, p);
    }
  }

  // ------------------------------------------------------- reading it back

  /** Rows that a read of the collected key may return. */
  ghost predicate ReadsCollected(store: Store, q: Query, table: CodeTable, recs: seq<Record>, rows: seq<Row>) {
    KeptApart(table, recs) && Untouched(store, q) && Answers(Collected(store, q, table, recs), q, rows)
  }

  lemma {:induction false} WorldRead(store: Store, q: Query, table: CodeTable, recs: seq<Record>, rows: seq<Row>)
    requires ReadsCollected(store, q, table, recs, rows)
    ensures WorldRow(rows) == World(recs)
  {
    StoredLast(store, q, table, recs, "0");
    WorldIsLast(recs);
    if World(recs).Some? {
      assert Row(WLD, World(recs)) in rows;
      WorldRowIs(rows, Row(WLD, World(recs)));
    } else {
      WorldRowIn(rows);
    }
  }

  /** The partners read back, under their codes. */
  function Suppliers(table: CodeTable, rows: seq<Row>): seq<Partner> {
    Recoded(table, Valued(rows))
  }

  lemma {:induction false} SupplierFrom(store: Store, q: Query, table: CodeTable, recs: seq<Record>, rows: seq<Row>,
                                        i: nat)
    returns (code: string)
    requires ReadsCollected(store, q, table, recs, rows) && i < |Valued(rows)|
    ensures code != "0" && LastOf(recs, code) == Some(Valued(rows)[i].value)
    ensures Suppliers(table, rows)[i] == Partner(code, Valued(rows)[i].value)
    ensures FiledUnder(table, code) == Valued(rows)[i].code
  {
    var x := Valued(rows)[i];
    ValuedAre(rows);
    assert x in Valued(rows) && Row(x.code, Some(x.value)) in rows;
    code := StoredFrom(store, q, table, recs, x.code);
    StoredLast(store, q, table, recs, code);
  }

  lemma {:induction false} SupplierOf(store: Store, q: Query, table: CodeTable, recs: seq<Record>, rows: seq<Row>,
                                      code: string)
    requires ReadsCollected(store, q, table, recs, rows) && code != "0" && LastOf(recs, code).Some?
    ensures Partner(code, LastOf(recs, code).value) in Suppliers(table, rows)
  {
    SeenTogether(recs, code);
    assert Unambiguous(table, code);
    StoredLast(store, q, table, recs, code);
    ValuedAre(rows);
    var x := Partner(PartnerOf(table, code), LastOf(recs, code).value);
    assert Row(x.code, Some(x.value)) in rows;
    assert x in Valued(rows);
    var i :| 0 <= i < |Valued(rows)| && Valued(rows)[i] == x;
    assert Suppliers(table, rows)[i] == Partner(code, x.value);
  }

  /** What is read back is the last number of every supplier. */
  lemma {:induction false} SuppliersAre(store: Store, q: Query, table: CodeTable, recs: seq<Record>, rows: seq<Row>,
                                        x: Partner)
    requires ReadsCollected(store, q, table, recs, rows)
    ensures x in Suppliers(table, rows) <==> x.code != "0" && LastOf(recs, x.code) == Some(x.value)
  {
    if x in Suppliers(table, rows) {
      var i :| 0 <= i < |Suppliers(table, rows)| && Suppliers(table, rows)[i] == x;
      var code := SupplierFrom(store, q, table, recs, rows, i);
    }
    if x.code != "0" && LastOf(recs, x.code) == Some(x.value) {
      SupplierOf(store, q, table, recs, rows, x.code);
    }
  }

  lemma {:induction false} SuppliersDistinct(store: Store, q: Query, table: CodeTable, recs: seq<Record>,
                                             rows: seq<Row>)
    requires ReadsCollected(store, q, table, recs, rows)
    ensures Distinct(Suppliers(table, rows))
  {
    ValuedAre(rows);
    forall i, j | 0 <= i < j < |Suppliers(table, rows)| ensures Suppliers(table, rows)[i] != Suppliers(table, rows)[j] {
      var a := SupplierFrom(store, q, table, recs, rows, i);
      var b := SupplierFrom(store, q, table, recs, rows, j);
      assert Valued(rows)[i].code != Valued(rows)[j].code;
    }
  }

  /** Every supplier was reported once, in effect: its last number is its sum. */
  ghost predicate LastIsSum(recs: seq<Record>) {
    forall code | code != "0" :: LastOf(recs, code) == SumOf(recs, code)
  }

  lemma {:induction false} SameSuppliersExactly(store: Store, q: Query, table: CodeTable, recs: seq<Record>,
                                                rows: seq<Row>)
    requires ReadsCollected(store, q, table, recs, rows)
    ensures multiset(Suppliers(table, rows)) == multiset(Totals(recs)) <==> LastIsSum(recs)
  {
    if LastIsSum(recs) {
      forall x ensures x in Suppliers(table, rows) <==> x in Totals(recs) {
        SuppliersAre(store, q, table, recs, rows, x);
        InTotals(recs, x);
      }
      SuppliersDistinct(store, q, table, recs, rows);
      TotalsCodes(recs);
      SameElementsSameMultiset(Suppliers(table, rows), Totals(recs));
    }
    if multiset(Suppliers(table, rows)) == multiset(Totals(recs)) {
      forall code | code != "0" ensures LastOf(recs, code) == SumOf(recs, code) {
        SeenTogether(recs, code);
        if SumOf(recs, code).Some? {
          var x := Partner(code, SumOf(recs, code).value);
          InTotals(recs, x);
          assert x in multiset(Totals(recs));
          assert x in Suppliers(table, rows);
          SuppliersAre(store, q, table, recs, rows, x);
        }
      }
    }
  }

  lemma {:induction false} BareJoin(a: seq<Competitor>, b: seq<Competitor>)
    ensures Bare(a + b) == Bare(a) + Bare(b)
  {}

  /** The multiset of the partners behind a list of competitors. */
  function Partners(s: seq<Competitor>): multiset<Partner> {
    multiset(Bare(s))
  }

  lemma {:induction false} BareHead(s: seq<Competitor>)
    requires s != []
    ensures Partners(s) == multiset{Partner(s[0].code, s[0].value)} + Partners(s[1..])
  {
    assert Bare(s) == [Partner(s[0].code, s[0].value)] + Bare(s[1..]);
  }

  lemma {:induction false} BareAmong(front: seq<Competitor>, c: Competitor, back: seq<Competitor>)
    ensures Partners(front + ([c] + back)) == multiset{Partner(c.code, c.value)} + Partners(front + back)
  {
    BareJoin(front, back);
    BareJoin(front, [c] + back);
    BareJoin([c], back);
  }

  lemma {:induction false} BarePermutes(a: seq<Competitor>, b: seq<Competitor>)
    requires multiset(a) == multiset(b)
    ensures Partners(a) == Partners(b)
  {
    SameLength(a, b);
    if a != [] {
      var j := Counterpart(a, b);
      BarePermutes(a[1..], b[..j] + b[j + 1..]);
      BareHead(a);
      BareAmong(b[..j], a[0], b[j + 1..]);
    }
  }

  lemma {:induction false} ListedBack(a: seq<Partner>, b: seq<Partner>, g: real, h: real)
    requires g != 0.0 && h != 0.0 && multiset(Listed(a, g)) == multiset(Listed(b, h))
    ensures multiset(a) == multiset(b)
  {
    BarePermutes(Listed(a, g), Listed(b, h));
    BareListed(a, g);
    BareListed(b, h);
  }

  /** The competitors listed of partners that sum to `grand`. */
  function Shown(s: seq<Partner>, grand: real): seq<Competitor> {
    if grand != 0.0 then Listed(s, grand) else []
  }

  lemma {:induction false} SameShownExactly(a: seq<Partner>, b: seq<Partner>)
    requires Sum(b) > 0.0
    ensures multiset(Shown(a, Sum(a))) == multiset(Shown(Sort(ByValue, b), Sum(b))) <==> multiset(a) == multiset(b)
  {
    SortPermutes(ByValue, b);
    if multiset(a) == multiset(b) {
      SumPermutes(a, b);
      ListedPermutes(a, Sort(ByValue, b), Sum(b));
    }
    if multiset(Shown(a, Sum(a))) == multiset(Shown(Sort(ByValue, b), Sum(b))) {
      assert |multiset(Shown(a, Sum(a)))| == |multiset(Shown(Sort(ByValue, b), Sum(b)))|;
      assert b != [];
      ListedBack(a, Sort(ByValue, b), Sum(a), Sum(b));
    }
  }

  lemma {:induction false} SomeSupplier(store: Store, q: Query, table: CodeTable, recs: seq<Record>, rows: seq<Row>)
    requires ReadsCollected(store, q, table, recs, rows) && SumCounted(recs) > 0.0
    ensures Valued(rows) != []
  {
    PartnersConserve(recs);
    var x := Totals(recs)[0];
    InTotals(recs, x);
    SeenTogether(recs, x.code);
    SupplierOf(store, q, table, recs, rows, x.code);
  }

  lemma {:induction false} ReadBackIs(store: Store, q: Query, table: CodeTable, recs: seq<Record>, rows: seq<Row>)
    requires ReadsCollected(store, q, table, recs, rows) && SumCounted(recs) > 0.0
    ensures var s := Suppliers(table, rows);
            ReadBack(table, rows)
            == Some(Imports(if World(recs).Some? then World(recs) else Some(Sum(s)), Shown(s, Sum(s))))
  {
    WorldRead(store, q, table, recs, rows);
    SomeSupplier(store, q, table, recs, rows);
    SumRecoded(table, Valued(rows));
  }

  /** Reading collected records back gives what the live path makes of them if and
      only if every supplier's last number is its sum and the World row, where there
      is one, is at least the sum of the suppliers. */
  lemma {:induction false} CollectedReadsLiveExactly(store: Store, q: Query, table: CodeTable, recs: seq<Record>,
                                                     rows: seq<Row>)
    requires ReadsCollected(store, q, table, recs, rows) && SumCounted(recs) > 0.0
    ensures ReadBack(table, rows).Some?
    ensures Same(ReadBack(table, rows).value, Live(recs))
            <==> LastIsSum(recs) && (World(recs).Some? ==> World(recs).value >= SumCounted(recs))
  {
    var s := Suppliers(table, rows);
    ReadBackIs(store, q, table, recs, rows);
    PartnersConserve(recs);
    TotalIs(recs);
    SameShownExactly(s, Totals(recs));
    SameSuppliersExactly(store, q, table, recs, rows);
    if multiset(s) == multiset(Totals(recs)) { SumPermutes(s, Totals(recs)); }
  }
}
