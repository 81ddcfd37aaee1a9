/** Import totals of a market, live and from the fact store
    (`silk_data_layer_v2.py`, `silk_store.py`). */
module MarketStore {
  import opened Common
  import opened Rounding
  import opened StableSort
  import opened Wrappers

  // --------------------------------------------------------- country codes

  /** The M49 to ISO3 pairs in source order. */
  type CodeTable = seq<(string, string)>

  function IsoOf(table: CodeTable, code: string): Option<string> {
    if table == [] then None else if table[0].0 == code then Some(table[0].1) else IsoOf(table[1..], code)
  }

  /** The inverted dictionary: of several pairs with one value the last wins. */
  function M49Of(table: CodeTable, iso: string): Option<string> {
    if table == [] then None
    else if table[|table| - 1].1 == iso then Some(table[|table| - 1].0)
    else M49Of(table[..|table| - 1], iso)
  }

  ghost predicate DistinctKeys(table: CodeTable) {
    forall i, j | 0 <= i < j < |table| :: table[i].0 != table[j].0
  }

  ghost predicate DistinctValues(table: CodeTable) {
    forall i, j | 0 <= i < j < |table| :: table[i].1 != table[j].1
  }

  lemma {:induction false} M49OfIs(table: CodeTable, iso: string)
    ensures M49Of(table, iso) == None <==> forall i | 0 <= i < |table| :: table[i].1 != iso
    ensures M49Of(table, iso).Some? ==> exists i | 0 <= i < |table| ::
      table[i] == (M49Of(table, iso).value, iso) && forall j | i < j < |table| :: table[j].1 != iso
  {
    if table != [] {
      var front := table[..|table| - 1];
      M49OfIs(front, iso);
      if table[|table| - 1].1 != iso && M49Of(front, iso).Some? {
        var i :| 0 <= i < |front| && front[i] == (M49Of(front, iso).value, iso)
          && forall j | i < j < |front| :: front[j].1 != iso;
        assert table[i] == (M49Of(table, iso).value, iso);
      } else if table[|table| - 1].1 == iso {
        assert table[|table| - 1] == (M49Of(table, iso).value, iso);
      }
    }
  }

  /** Inverting the dictionary gives an inverse exactly when no country stands
      under two codes. */
  lemma {:induction false} InverseExactly(table: CodeTable)
    requires DistinctKeys(table)
    ensures DistinctValues(table) <==> forall i | 0 <= i < |table| :: M49Of(table, table[i].1) == Some(table[i].0)
  {
    forall i | 0 <= i < |table| ensures M49Of(table, table[i].1).Some? { M49OfIs(table, table[i].1); }
    if DistinctValues(table) {
      forall i | 0 <= i < |table| ensures M49Of(table, table[i].1) == Some(table[i].0) {
        M49OfIs(table, table[i].1);
      }
    }
    if forall i | 0 <= i < |table| :: M49Of(table, table[i].1) == Some(table[i].0) {
      forall i, j | 0 <= i < j < |table| ensures table[i].1 != table[j].1 {
        assert M49Of(table, table[i].1) == Some(table[i].0) && M49Of(table, table[j].1) == Some(table[j].0);
      }
    }
  }

  /** The partner a code is stored under, and the code a stored partner is shown as. */
  function PartnerOf(table: CodeTable, code: string): string {
    var iso := IsoOf(table, code);
    if iso.Some? then iso.value else code
  }

  function CodeOf(table: CodeTable, partner: string): string {
    var code := M49Of(table, partner);
    if code.Some? then code.value else partner
  }

  ghost predicate Invertible(table: CodeTable) {
    DistinctKeys(table) && DistinctValues(table)
  }

  lemma {:induction false} IsoOfFrom(table: CodeTable, code: string)
    ensures IsoOf(table, code).Some? ==> (code, IsoOf(table, code).value) in table
  {
    if table != [] && table[0].0 != code {
      IsoOfFrom(table[1..], code);
    } else if table != [] {
      assert table[0] == (code, table[0].1);
    }
  }

  /** A code survives the trip through the store exactly when it is in the table
      or is not itself spelled like one of the table's countries. */
  lemma {:induction false} CodeRoundTripExactly(table: CodeTable, code: string)
    requires Invertible(table)
    ensures CodeOf(table, PartnerOf(table, code)) == code
            <==> IsoOf(table, code).Some? || M49Of(table, code).None? || M49Of(table, code) == Some(code)
  {
    InverseExactly(table);
    IsoOfFrom(table, code);
  }

  // ------------------------------------------------------- the live result

  datatype Record = Record(code: string, value: Option<real>)
  datatype Partner = Partner(code: string, value: real)
  datatype Competitor = Competitor(code: string, value: real, share: real)
  datatype Imports = Imports(total: Option<real>, competitors: seq<Competitor>)

  /** The insertion-ordered dictionary of sums. */
  function AddTo(totals: seq<Partner>, code: string, value: real): seq<Partner> {
    if totals == [] then [Partner(code, 0.0 + value)]
    else if totals[0].code == code then [Partner(code, totals[0].value + value)] + totals[1..]
    else [totals[0]] + AddTo(totals[1..], code, value)
  }

  predicate Counts(r: Record) {
    r.value.Some? && r.code != "0"
  }

  function Totals(recs: seq<Record>): seq<Partner> {
    if recs == [] then []
    else
      var r, before := recs[|recs| - 1], Totals(recs[..|recs| - 1]);
      if Counts(r) then AddTo(before, r.code, r.value.value) else before
  }

  /** The value of the last World row that has one. */
  function World(recs: seq<Record>): Option<real> {
    if recs == [] then None
    else
      var r := recs[|recs| - 1];
      if r.code == "0" && r.value.Some? then r.value else World(recs[..|recs| - 1])
  }

  function Sum(s: seq<Partner>): real {
    if s == [] then 0.0 else s[0].value + Sum(s[1..])
  }

  function TotalOf(world: Option<real>, grand: real): Option<real> {
    var known := if world.Some? && world.value > 0.0 then world else None;
    if grand > 0.0 && (known.None? || grand > known.value) then Some(grand) else known
  }

  predicate ByValue(a: Partner, b: Partner) {
    a.value >= b.value
  }

  function Share(value: real, grand: real): real
    requires grand != 0.0
  {
    Round(100.0 * value / grand, Two)
  }

  function Listed(s: seq<Partner>, grand: real): (r: seq<Competitor>)
    requires grand != 0.0
    ensures |r| == |s|
    ensures forall i | 0 <= i < |s| :: r[i] == Competitor(s[i].code, s[i].value, Share(s[i].value, grand))
  {
    if s == [] then []
    else [Competitor(s[0].code, s[0].value, Share(s[0].value, grand))] + Listed(s[1..], grand)
  }

  function Live(recs: seq<Record>): Imports {
    var totals := Totals(recs);
    var grand := Sum(totals);
    Imports(TotalOf(World(recs), grand), if grand > 0.0 then Listed(Sort(ByValue, totals), grand) else [])
  }

  /** One pass over the records, as the source runs it. */
  method MarketImports(recs: seq<Record>) returns (r: Imports)
    ensures r == Live(recs)
  {
    var world: Option<real> := None;
    var totals: seq<Partner> := [];
    for i := 0 to |recs|
      invariant world == World(recs[..i]) && totals == Totals(recs[..i])
    {
      assert recs[..i + 1][..i] == recs[..i] && recs[..i + 1][i] == recs[i];
      if recs[i].value.Some? {
        if recs[i].code == "0" {
          world := recs[i].value;
        } else {
          totals := AddTo(totals, recs[i].code, recs[i].value.value);
        }
      }
    }
    assert recs[..|recs|] == recs;
    var grand := Sum(totals);
    var competitors: seq<Competitor> := [];
    if grand > 0.0 {
      competitors := Listed(Sort(ByValue, totals), grand);
    }
    r := Imports(TotalOf(world, grand), competitors);
  }

  // ------------------------------------------- what the live result says

  /** The sum of all numbers but the World row's. */
  function SumCounted(recs: seq<Record>): real {
    if recs == [] then 0.0
    else
      var last := recs[|recs| - 1];
      SumCounted(recs[..|recs| - 1]) + if last.code != "0" && last.value != None then last.value.value else 0.0
  }

  lemma {:induction false} AddToSum(totals: seq<Partner>, code: string, value: real)
    ensures Sum(AddTo(totals, code, value)) == Sum(totals) + value
  {
    if totals != [] && totals[0].code != code { AddToSum(totals[1..], code, value); }
  }

  /** Conservation: the partners' values add up to every numeric record that is
      not the World row, however the records are split and ordered. */
  lemma {:induction false} PartnersConserve(recs: seq<Record>)
    ensures Sum(Totals(recs)) == SumCounted(recs)
  {
    if recs != [] {
      var front, r := recs[..|recs| - 1], recs[|recs| - 1];
      PartnersConserve(front);
      if Counts(r) { AddToSum(Totals(front), r.code, r.value.value); }
    }
  }

  /** The last World row that has a number. */
  predicate IsWorldRow(recs: seq<Record>, i: nat) {
    && i < |recs| && recs[i].code == "0" && recs[i].value != None
    && forall j | i < j < |recs| :: recs[j].code != "0" || recs[j].value == None
  }

  lemma {:induction false} WorldIs(recs: seq<Record>, x: real)
    ensures World(recs) == Some(x) <==> exists i: nat :: IsWorldRow(recs, i) && recs[i].value == Some(x)
  {
    if recs != [] {
      var n, front := |recs| - 1, recs[..|recs| - 1];
      WorldIs(front, x);
      if World(recs) == Some(x) && recs[n].code == "0" && recs[n].value.Some? {
        assert IsWorldRow(recs, n);
      } else if World(recs) == Some(x) {
        var i: nat :| IsWorldRow(front, i) && front[i].value == Some(x);
        assert IsWorldRow(recs, i) && recs[i].value == Some(x);
      }
      if i: nat :| IsWorldRow(recs, i) && recs[i].value == Some(x) {
        assert i < n ==> IsWorldRow(front, i) && front[i].value == Some(x);
      }
    }
  }

  lemma {:induction false} TotalIs(recs: seq<Record>)
    ensures var largest := Larger(if World(recs).Some? then World(recs).value else 0.0, SumCounted(recs));
            Live(recs).total == if largest > 0.0 then Some(largest) else None
  {
    PartnersConserve(recs);
  }

  /** The market's size is the larger of the World row and the sum of its known parts
      whenever that is positive, and unknown otherwise; an absent World row is zero. */
  lemma {:induction false} TotalIsTheLarger(recs: seq<Record>, world: real)
    requires (exists i: nat :: IsWorldRow(recs, i) && recs[i].value == Some(world))
             || (world == 0.0 && forall i: nat :: !IsWorldRow(recs, i))
    ensures var largest := Larger(world, SumCounted(recs));
            Live(recs).total == if largest > 0.0 then Some(largest) else None
  {
    TotalIs(recs);
    WorldIs(recs, world);
    if World(recs).Some? { WorldIs(recs, World(recs).value); }
  }

  ghost predicate OnePerCode(s: seq<Partner>) {
    OnePerKey((p: Partner) => p.code, s)
  }

  lemma {:induction false} AddToCodes(totals: seq<Partner>, code: string, value: real)
    requires OnePerCode(totals)
    ensures OnePerCode(AddTo(totals, code, value))
    ensures forall p | p in AddTo(totals, code, value) :: p.code == code || p in totals
  {
    if totals != [] && totals[0].code != code {
      AddToCodes(totals[1..], code, value);
      var rest := AddTo(totals[1..], code, value);
      forall j | 0 <= j < |rest| ensures rest[j].code != totals[0].code { assert rest[j] in rest; }
    }
  }

  lemma {:induction false} TotalsCodes(recs: seq<Record>)
    ensures OnePerCode(Totals(recs))
    ensures forall p | p in Totals(recs) :: exists r | r in recs :: r.code == p.code && Counts(r)
  {
    if recs != [] {
      var front, last := recs[..|recs| - 1], recs[|recs| - 1];
      TotalsCodes(front);
      assert recs == front + [last];
      if Counts(last) { AddToCodes(Totals(front), last.code, last.value.value); }
      forall p | p in Totals(recs) ensures exists r | r in recs :: r.code == p.code && Counts(r) {
        if p in Totals(front) {
          var r :| r in front && r.code == p.code && Counts(r);
          assert r in recs;
        } else {
          assert last in recs && last.code == p.code && Counts(last);
        }
      }
    }
  }

  // ------------------------------------------------------------- the store

  datatype Key = Key(hs6: string, reporter: string, partner: string, year: int, flow: string)

  /** The trade_flows table: its primary key, and a value that may be null. */
  type Store = map<Key, Option<real>>

  datatype Query = Query(hs6: string, reporter: string, year: int)

  function KeyOf(q: Query, partner: string): Key {
    Key(q.hs6, q.reporter, partner, q.year, "M")
  }

  datatype Row = Row(partner: string, value: Option<real>)

  const WLD := "WLD"

  function PartnerRows(table: CodeTable, competitors: seq<Competitor>): (rows: seq<Row>)
    ensures |rows| == |competitors|
    ensures forall i | 0 <= i < |rows| ::
      rows[i] == Row(PartnerOf(table, competitors[i].code), Some(competitors[i].value))
  {
    if competitors == [] then []
    else [Row(PartnerOf(table, competitors[0].code), Some(competitors[0].value))] + PartnerRows(table, competitors[1..])
  }

  function RowsToWrite(table: CodeTable, r: Imports): seq<Row> {
    (if r.total.Some? then [Row(WLD, r.total)] else []) + PartnerRows(table, r.competitors)
  }

  function Upserted(store: Store, q: Query, rows: seq<Row>): Store {
    if rows == [] then store
    else Upserted(store, q, rows[..|rows| - 1])[KeyOf(q, rows[|rows| - 1].partner) := rows[|rows| - 1].value]
  }

  function Written(store: Store, q: Query, table: CodeTable, r: Imports): Store {
    Upserted(store, q, RowsToWrite(table, r))
  }

  class FactStore {
    var flows: Store

    constructor ()
      ensures flows == map[]
    {
      flows := map[];
    }

    method UpsertTradeFlows(q: Query, rows: seq<Row>)
      modifies this
      ensures flows == Upserted(old(flows), q, rows)
    {
      for i := 0 to |rows|
        invariant flows == Upserted(old(flows), q, rows[..i])
      {
        assert rows[..i + 1][..i] == rows[..i] && rows[..i + 1][i] == rows[i];
        flows := flows[KeyOf(q, rows[i].partner) := rows[i].value];
      }
      assert rows[..|rows|] == rows;
    }

    method WriteThrough(q: Query, table: CodeTable, r: Imports)
      modifies this
      ensures flows == Written(old(flows), q, table, r)
    {
      UpsertTradeFlows(q, RowsToWrite(table, r));
    }
  }

  /** What a SELECT may return: every matching row once, rows of equal value in
      any order. */
  ghost predicate Answers(store: Store, q: Query, rows: seq<Row>) {
    && DistinctPartners(rows)
    && (forall p, v :: Row(p, v) in rows <==> KeyOf(q, p) in store && store[KeyOf(q, p)] == v)
  }

  function Valued(rows: seq<Row>): seq<Partner> {
    if rows == [] then []
    else (if rows[0].partner != WLD && rows[0].value.Some? then [Partner(rows[0].partner, rows[0].value.value)] else [])
         + Valued(rows[1..])
  }

  function WorldRow(rows: seq<Row>): Option<real> {
    if rows == [] then None
    else if rows[0].partner == WLD && rows[0].value.Some? then rows[0].value
    else WorldRow(rows[1..])
  }

  function Recoded(table: CodeTable, s: seq<Partner>): (r: seq<Partner>)
    ensures |r| == |s|
    ensures forall i | 0 <= i < |s| :: r[i] == Partner(CodeOf(table, s[i].code), s[i].value)
  {
    if s == [] then [] else [Partner(CodeOf(table, s[0].code), s[0].value)] + Recoded(table, s[1..])
  }

  /** The store branch of `market_imports_cached`; `None` falls through to a live
      fetch. */
  function ReadBack(table: CodeTable, rows: seq<Row>): Option<Imports> {
    var valued := Valued(rows);
    var grand := Sum(valued);
    var total := if WorldRow(rows).Some? then WorldRow(rows) else if valued != [] then Some(grand) else None;
    if total.None? && valued == [] then None
    else Some(Imports(total, if grand != 0.0 then Listed(Recoded(table, valued), grand) else []))
  }

  // ------------------------------------------------------- the round trip

  ghost predicate DistinctPartners(rows: seq<Row>) {
    OnePerKey((r: Row) => r.partner, rows)
  }

  lemma {:induction false} UpsertedHas(store: Store, q: Query, rows: seq<Row>, i: nat)
    requires DistinctPartners(rows) && i < |rows|
    ensures KeyOf(q, rows[i].partner) in Upserted(store, q, rows)
    ensures Upserted(store, q, rows)[KeyOf(q, rows[i].partner)] == rows[i].value
  {
    if i < |rows| - 1 {
      UpsertedHas(store, q, rows[..|rows| - 1], i);
      assert rows[..|rows| - 1][i] == rows[i];
    }
  }

  /** A write leaves every other key of the store alone. */
  lemma {:induction false} UpsertedKeeps(store: Store, q: Query, rows: seq<Row>, k: Key)
    requires forall i | 0 <= i < |rows| :: k != KeyOf(q, rows[i].partner)
    ensures k in Upserted(store, q, rows) <==> k in store
    ensures k in store ==> Upserted(store, q, rows)[k] == store[k]
  {
    if rows != [] {
      var front := rows[..|rows| - 1];
      assert forall i | 0 <= i < |front| :: front[i] == rows[i];
      UpsertedKeeps(store, q, front, k);
    }
  }

  /** A code that the store's spelling cannot confuse with another. */
  ghost predicate Unambiguous(table: CodeTable, code: string) {
    CodeOf(table, PartnerOf(table, code)) == code && PartnerOf(table, code) != WLD
  }

  ghost predicate Storable(table: CodeTable, r: Imports) {
    && (forall i | 0 <= i < |r.competitors| :: Unambiguous(table, r.competitors[i].code))
    && (forall i, j | 0 <= i < j < |r.competitors| :: r.competitors[i].code != r.competitors[j].code)
  }

  lemma {:induction false} PartnersDiffer(table: CodeTable, r: Imports, i: nat, j: nat)
    requires Storable(table, r) && i < j < |r.competitors|
    ensures PartnerOf(table, r.competitors[i].code) != PartnerOf(table, r.competitors[j].code)
  {
    assert Unambiguous(table, r.competitors[i].code) && Unambiguous(table, r.competitors[j].code);
  }

  lemma {:induction false} SamePartner(table: CodeTable, r: Imports, i: nat, j: nat)
    requires Storable(table, r) && i < |r.competitors| && j < |r.competitors|
    requires PartnerOf(table, r.competitors[i].code) == PartnerOf(table, r.competitors[j].code)
    ensures i == j
  {
    assert Unambiguous(table, r.competitors[i].code) && Unambiguous(table, r.competitors[j].code);
  }

  lemma {:induction false} RowsDistinct(table: CodeTable, r: Imports)
    requires Storable(table, r)
    ensures DistinctPartners(RowsToWrite(table, r))
  {
    var rows := PartnerRows(table, r.competitors);
    forall i, j | 0 <= i < j < |rows| ensures rows[i].partner != rows[j].partner {
      PartnersDiffer(table, r, i, j);
    }
    forall i | 0 <= i < |rows| ensures rows[i].partner != WLD {
      assert Unambiguous(table, r.competitors[i].code);
    }
  }

  /** A partner row, stored before, that the new result does not overwrite. */
  ghost predicate Orphan(store: Store, q: Query, table: CodeTable, r: Imports, partner: string) {
    && partner != WLD
    && KeyOf(q, partner) in store && store[KeyOf(q, partner)].Some?
    && forall i | 0 <= i < |r.competitors| :: PartnerOf(table, r.competitors[i].code) != partner
  }

  ghost predicate Keeps(r: Imports, table: CodeTable, partner: string, value: real) {
    exists i | 0 <= i < |r.competitors| ::
      PartnerOf(table, r.competitors[i].code) == partner && r.competitors[i].value == value
  }

  /** A written partner holds the new value. */
  lemma {:induction false} WrittenNew(store: Store, q: Query, table: CodeTable, r: Imports, i: nat)
    requires Storable(table, r) && i < |r.competitors|
    ensures var k := KeyOf(q, PartnerOf(table, r.competitors[i].code));
            k in Written(store, q, table, r) && Written(store, q, table, r)[k] == Some(r.competitors[i].value)
  {
    var rows, ps := RowsToWrite(table, r), PartnerRows(table, r.competitors);
    var offset := |rows| - |ps|;
    RowsDistinct(table, r);
    assert rows[offset + i] == ps[i];
    UpsertedHas(store, q, rows, offset + i);
  }

  /** A partner that is not written keeps what it had. */
  lemma {:induction false} WrittenOld(store: Store, q: Query, table: CodeTable, r: Imports, partner: string)
    requires partner != WLD
    requires forall i | 0 <= i < |r.competitors| :: PartnerOf(table, r.competitors[i].code) != partner
    ensures KeyOf(q, partner) in Written(store, q, table, r) <==> KeyOf(q, partner) in store
    ensures KeyOf(q, partner) in store ==> Written(store, q, table, r)[KeyOf(q, partner)] == store[KeyOf(q, partner)]
  {
    var rows, ps := RowsToWrite(table, r), PartnerRows(table, r.competitors);
    var offset := |rows| - |ps|;
    forall k | 0 <= k < |rows| ensures rows[k].partner != partner {
      if k >= offset { assert rows[k] == ps[k - offset]; }
    }
    UpsertedKeeps(store, q, rows, KeyOf(q, partner));
  }

  /** What the rows of the key say after the write: the new partners and the orphans. */
  lemma {:induction false} WrittenPartner(store: Store, q: Query, table: CodeTable, r: Imports, partner: string,
                                          value: real)
    requires Storable(table, r) && partner != WLD
    ensures KeyOf(q, partner) in Written(store, q, table, r)
            && Written(store, q, table, r)[KeyOf(q, partner)] == Some(value)
            <==> Keeps(r, table, partner, value)
                 || (Orphan(store, q, table, r, partner) && store[KeyOf(q, partner)] == Some(value))
  {
    if i :| 0 <= i < |r.competitors| && PartnerOf(table, r.competitors[i].code) == partner {
      WrittenNew(store, q, table, r, i);
      if Keeps(r, table, partner, value) {
        var j :| 0 <= j < |r.competitors|
          && PartnerOf(table, r.competitors[j].code) == partner && r.competitors[j].value == value;
        SamePartner(table, r, i, j);
      }
    } else {
      WrittenOld(store, q, table, r, partner);
    }
  }

  lemma {:induction false} IsoOfExactly(table: CodeTable, code: string, iso: string)
    requires DistinctKeys(table)
    ensures IsoOf(table, code) == Some(iso) <==> (code, iso) in table
  {
    if table != [] {
      assert table == [table[0]] + table[1..];
      IsoOfExactly(table[1..], code, iso);
    }
  }

  /** A supplier is written under the ISO code its number has in the table, or under the
      number itself where the table has none. */
  lemma {:induction false} WrittenUnderIso(store: Store, q: Query, table: CodeTable, r: Imports, i: nat,
                                             partner: string)
    requires Storable(table, r) && DistinctKeys(table) && i < |r.competitors|
    requires (r.competitors[i].code, partner) in table
             || (partner == r.competitors[i].code && forall iso :: (partner, iso) !in table)
    ensures var k := Key(q.hs6, q.reporter, partner, q.year, "M");
            k in Written(store, q, table, r) && Written(store, q, table, r)[k] == Some(r.competitors[i].value)
  {
    var code := r.competitors[i].code;
    if (code, partner) in table {
      IsoOfExactly(table, code, partner);
    } else if IsoOf(table, code).Some? {
      IsoOfExactly(table, code, IsoOf(table, code).value);
    }
    WrittenNew(store, q, table, r, i);
  }

  lemma {:induction false} WrittenWorld(store: Store, q: Query, table: CodeTable, r: Imports)
    requires Storable(table, r)
    ensures r.total.Some? ==> KeyOf(q, WLD) in Written(store, q, table, r)
                              && Written(store, q, table, r)[KeyOf(q, WLD)] == r.total
    ensures r.total.None? ==> (KeyOf(q, WLD) in Written(store, q, table, r) <==> KeyOf(q, WLD) in store)
    ensures r.total.None? && KeyOf(q, WLD) in store ==>
              Written(store, q, table, r)[KeyOf(q, WLD)] == store[KeyOf(q, WLD)]
  {
    var rows := RowsToWrite(table, r);
    RowsDistinct(table, r);
    if r.total.Some? {
      assert rows[0] == Row(WLD, r.total);
      UpsertedHas(store, q, rows, 0);
    } else {
      forall k | 0 <= k < |rows| ensures rows[k].partner != WLD {
        assert Unambiguous(table, r.competitors[k].code);
      }
      UpsertedKeeps(store, q, rows, KeyOf(q, WLD));
    }
  }

  lemma {:induction false} ValuedAre(rows: seq<Row>)
    ensures forall p :: p in Valued(rows) <==> p.code != WLD && Row(p.code, Some(p.value)) in rows
    ensures DistinctPartners(rows) ==> OnePerCode(Valued(rows))
  {
    if rows != [] {
      ValuedAre(rows[1..]);
      assert rows == [rows[0]] + rows[1..];
      if DistinctPartners(rows) {
        assert DistinctPartners(rows[1..]);
        var rest := Valued(rows[1..]);
        forall j | 0 <= j < |rest| ensures rest[j].code != rows[0].partner {
          assert rest[j] in rest;
          assert Row(rest[j].code, Some(rest[j].value)) in rows[1..];
        }
      }
    }
  }

  lemma {:induction false} WorldRowIn(rows: seq<Row>)
    ensures WorldRow(rows).Some? ==> Row(WLD, WorldRow(rows)) in rows
    ensures WorldRow(rows).None? ==> forall x | x in rows && x.partner == WLD :: x.value.None?
  {
    if rows != [] { WorldRowIn(rows[1..]); }
  }

  lemma {:induction false} WorldRowIs(rows: seq<Row>, x: Row)
    requires DistinctPartners(rows) && x in rows && x.partner == WLD
    ensures WorldRow(rows) == x.value
  {
    WorldRowIn(rows);
    if WorldRow(rows).Some? {
      var y := Row(WLD, WorldRow(rows));
      var i :| 0 <= i < |rows| && rows[i] == x;
      var j :| 0 <= j < |rows| && rows[j] == y;
      assert i == j;
    }
  }

  lemma {:induction false} SumPermutes(a: seq<Partner>, b: seq<Partner>)
    requires multiset(a) == multiset(b)
    ensures Sum(a) == Sum(b)
  {
    SameLength(a, b);
    if a != [] {
      var j := Counterpart(a, b);
      SumPermutes(a[1..], b[..j] + b[j + 1..]);
      SumSplit(b[..j], b[j + 1..]);
      SumSplit(b[..j], [a[0]] + b[j + 1..]);
      assert ([a[0]] + b[j + 1..])[1..] == b[j + 1..];
    }
  }

  lemma {:induction false} SumSplit(a: seq<Partner>, b: seq<Partner>)
    ensures Sum(a + b) == Sum(a) + Sum(b)
  {
    if a == [] {
      assert a + b == b;
    } else {
      SumSplit(a[1..], b);
      assert (a + b)[1..] == a[1..] + b;
    }
  }

  lemma {:induction false} SumRecoded(table: CodeTable, s: seq<Partner>)
    ensures Sum(Recoded(table, s)) == Sum(s)
  {
    if s != [] { SumRecoded(table, s[1..]); }
  }

  lemma {:induction false} ListedPermutes(a: seq<Partner>, b: seq<Partner>, grand: real)
    requires multiset(a) == multiset(b) && grand != 0.0
    ensures multiset(Listed(a, grand)) == multiset(Listed(b, grand))
  {
    SameLength(a, b);
    if a != [] {
      var j := Counterpart(a, b);
      var front, back := b[..j], b[j + 1..];
      ListedPermutes(a[1..], front + back, grand);
      ListedSplit(front, back, grand);
      ListedSplit(front, [a[0]] + back, grand);
      assert ([a[0]] + back)[1..] == back;
    }
  }

  lemma {:induction false} ListedSplit(a: seq<Partner>, b: seq<Partner>, grand: real)
    requires grand != 0.0
    ensures Listed(a + b, grand) == Listed(a, grand) + Listed(b, grand)
  {
    var whole, parts := Listed(a + b, grand), Listed(a, grand) + Listed(b, grand);
    forall i | 0 <= i < |whole| ensures whole[i] == parts[i] {
      assert (a + b)[i] == if i < |a| then a[i] else b[i - |a|];
    }
  }

  /** The partners behind a list of competitors. */
  function Bare(s: seq<Competitor>): (r: seq<Partner>)
    ensures |r| == |s|
    ensures forall i | 0 <= i < |s| :: r[i] == Partner(s[i].code, s[i].value)
  {
    if s == [] then [] else [Partner(s[0].code, s[0].value)] + Bare(s[1..])
  }

  lemma {:induction false} BareListed(s: seq<Partner>, grand: real)
    requires grand != 0.0
    ensures Bare(Listed(s, grand)) == s
  {
    if s != [] { BareListed(s[1..], grand); }
  }

  /** A result whose competitors carry their own shares: what `Live` returns. */
  ghost predicate Coherent(r: Imports) {
    r.competitors != [] ==>
      Sum(Bare(r.competitors)) > 0.0 && r.competitors == Listed(Bare(r.competitors), Sum(Bare(r.competitors)))
      && r.total.Some?
  }

  lemma {:induction false} LiveIsCoherent(recs: seq<Record>)
    ensures Coherent(Live(recs))
    ensures forall i, j | 0 <= i < j < |Live(recs).competitors| ::
      Live(recs).competitors[i].code != Live(recs).competitors[j].code
    ensures forall i | 0 <= i < |Live(recs).competitors| ::
      exists r | r in recs :: r.code == Live(recs).competitors[i].code && Counts(r)
  {
    var totals := Totals(recs);
    var grand, sorted := Sum(totals), Sort(ByValue, totals);
    if grand > 0.0 {
      TotalsCodes(recs);
      SortPermutes(ByValue, totals);
      SumPermutes(sorted, totals);
      BareListed(sorted, grand);
      SortedCodes(totals);
      forall i | 0 <= i < |sorted| ensures exists r | r in recs :: r.code == sorted[i].code && Counts(r) {
        assert sorted[i] in totals;
      }
    }
  }

  lemma {:induction false} ShareMonotone(x: real, y: real, grand: real)
    requires x <= y && grand > 0.0
    ensures Share(x, grand) <= Share(y, grand)
  {
    var p, q := 100.0 * x / grand, 100.0 * y / grand;
    assert p * grand == 100.0 * x && q * grand == 100.0 * y;
    assert p > q ==> (p - q) * grand > 0.0;
    RoundMonotone(p, q, Two);
  }

  /** The competitors are ranked: neither values nor rounded shares ever rise. */
  lemma {:induction false} LiveIsRanked(recs: seq<Record>, i: nat, j: nat)
    requires i < j < |Live(recs).competitors|
    ensures Live(recs).competitors[i].value >= Live(recs).competitors[j].value
    ensures Live(recs).competitors[i].share >= Live(recs).competitors[j].share
  {
    var totals := Totals(recs);
    var sorted := Sort(ByValue, totals);
    assert TotalPreorder(ByValue);
    SortSorted(ByValue, totals);
    assert ByValue(sorted[i], sorted[j]);
    ShareMonotone(sorted[j].value, sorted[i].value, Sum(totals));
  }

  function SumShares(s: seq<Competitor>): real {
    if s == [] then 0.0 else s[0].share + SumShares(s[1..])
  }

  /** `part` in percent of `whole`. */
  function Percent(part: real, whole: real): (p: real)
    requires whole > 0.0
    ensures p * whole == 100.0 * part
  {
    100.0 * part / whole
  }

  lemma {:induction false} PercentAdds(a: real, b: real, whole: real)
    requires whole > 0.0
    ensures Percent(a + b, whole) == Percent(a, whole) + Percent(b, whole)
  {}

  lemma {:induction false} ShareIsPercentage(value: real, grand: real)
    requires grand > 0.0
    ensures Percent(value, grand) - 0.005 <= Share(value, grand) <= Percent(value, grand) + 0.005
  {
    RoundIsNearest(Percent(value, grand), Two);
  }

  lemma {:induction false} ListedShares(s: seq<Partner>, grand: real)
    requires grand > 0.0
    ensures Percent(Sum(s), grand) - 0.005 * |s| as real
         <= SumShares(Listed(s, grand)) <= Percent(Sum(s), grand) + 0.005 * |s| as real
  {
    if s != [] {
      ShareIsPercentage(s[0].value, grand);
      ListedShares(s[1..], grand);
      PercentAdds(s[0].value, Sum(s[1..]), grand);
    }
  }

  /** Every share listed is its value in percent of all records counted, to the nearest
      hundredth, and the shares of `n` competitors add up to 100 within `n` half steps. */
  lemma {:induction false} SharesAddUp(recs: seq<Record>)
    requires Live(recs).competitors != []
    ensures var s, whole := Live(recs).competitors, SumCounted(recs);
            && whole > 0.0
            && (forall c | c in s :: Percent(c.value, whole) - 0.005 <= c.share <= Percent(c.value, whole) + 0.005)
            && 100.0 - 0.005 * |s| as real <= SumShares(s) <= 100.0 + 0.005 * |s| as real
  {
    var totals := Totals(recs);
    var sorted, grand := Sort(ByValue, totals), SumCounted(recs);
    PartnersConserve(recs);
    SortPermutes(ByValue, totals);
    SumPermutes(sorted, totals);
    ListedShares(sorted, grand);
    assert Percent(grand, grand) == 100.0;
    forall i | 0 <= i < |sorted| ensures var c := Live(recs).competitors[i];
      Percent(c.value, grand) - 0.005 <= c.share <= Percent(c.value, grand) + 0.005
    {
      ShareIsPercentage(sorted[i].value, grand);
    }
  }

  lemma {:induction false} SortedCodes(s: seq<Partner>)
    requires OnePerCode(s)
    ensures OnePerCode(Sort(ByValue, s))
  {
    var t := Sort(ByValue, s);
    SortPermutes(ByValue, s);
    DistinctSort(ByValue, s);
    forall i, j | 0 <= i < j < |t| ensures t[i].code != t[j].code {
      assert t[i] in s && t[j] in s && t[i] != t[j];
    }
  }

  /** Every row read back is, under its own code, a competitor that was written. */
  lemma {:induction false} ReadBackKept(store: Store, q: Query, table: CodeTable, r: Imports, rows: seq<Row>, i: nat)
    requires Storable(table, r) && Answers(Written(store, q, table, r), q, rows)
    requires forall p :: !Orphan(store, q, table, r, p)
    requires i < |Valued(rows)|
    ensures Recoded(table, Valued(rows))[i] in Bare(r.competitors)
    ensures PartnerOf(table, Recoded(table, Valued(rows))[i].code) == Valued(rows)[i].code
  {
    var x := Valued(rows)[i];
    ValuedAre(rows);
    assert x in Valued(rows);
    WrittenPartner(store, q, table, r, x.code, x.value);
    KeptCode(r, table, x.code, x.value);
  }

  /** Without orphans the valued rows are exactly the written competitors. */
  lemma {:induction false} ReadPartners(store: Store, q: Query, table: CodeTable, r: Imports, rows: seq<Row>)
    requires Storable(table, r) && Answers(Written(store, q, table, r), q, rows)
    requires forall p :: !Orphan(store, q, table, r, p)
    ensures multiset(Recoded(table, Valued(rows))) == multiset(Bare(r.competitors))
  {
    var back, bare := Recoded(table, Valued(rows)), Bare(r.competitors);
    ReadBackDistinct(store, q, table, r, rows);
    forall y ensures y in back <==> y in bare {
      if y in back {
        var i :| 0 <= i < |back| && back[i] == y;
        ReadBackKept(store, q, table, r, rows, i);
      }
      if y in bare {
        var i :| 0 <= i < |bare| && bare[i] == y;
        ReadCompetitor(store, q, table, r, rows, i);
      }
    }
    assert Distinct(bare);
    SameElementsSameMultiset(back, bare);
  }

  lemma {:induction false} ReadBackDistinct(store: Store, q: Query, table: CodeTable, r: Imports, rows: seq<Row>)
    requires Storable(table, r) && Answers(Written(store, q, table, r), q, rows)
    requires forall p :: !Orphan(store, q, table, r, p)
    ensures Distinct(Recoded(table, Valued(rows)))
  {
    var valued := Valued(rows);
    var back := Recoded(table, valued);
    ValuedAre(rows);
    forall i, j | 0 <= i < j < |back| ensures back[i] != back[j] {
      ReadBackKept(store, q, table, r, rows, i);
      ReadBackKept(store, q, table, r, rows, j);
      assert valued[i].code != valued[j].code;
    }
  }

  lemma {:induction false} KeptCode(r: Imports, table: CodeTable, partner: string, value: real)
    requires Storable(table, r) && Keeps(r, table, partner, value)
    ensures Partner(CodeOf(table, partner), value) in Bare(r.competitors)
    ensures PartnerOf(table, CodeOf(table, partner)) == partner
  {
    var i :| 0 <= i < |r.competitors|
      && PartnerOf(table, r.competitors[i].code) == partner && r.competitors[i].value == value;
    assert Unambiguous(table, r.competitors[i].code);
    assert Bare(r.competitors)[i] == Partner(r.competitors[i].code, value);
  }

  lemma {:induction false} ReadCompetitor(store: Store, q: Query, table: CodeTable, r: Imports, rows: seq<Row>, i: nat)
    requires Storable(table, r) && Answers(Written(store, q, table, r), q, rows) && i < |r.competitors|
    ensures Bare(r.competitors)[i] in Recoded(table, Valued(rows))
  {
    var c := r.competitors[i];
    var p := PartnerOf(table, c.code);
    assert Unambiguous(table, c.code);
    ReadsWritten(store, q, table, r, rows, i);
    var k :| 0 <= k < |Valued(rows)| && Valued(rows)[k] == Partner(p, c.value);
    assert Recoded(table, Valued(rows))[k] == Partner(c.code, c.value);
  }

  /** The same total and the same competitors with the same shares. */
  ghost predicate Same(a: Imports, b: Imports) {
    a.total == b.total && multiset(a.competitors) == multiset(b.competitors)
  }

  lemma {:induction false} ReadTotal(store: Store, q: Query, table: CodeTable, r: Imports, rows: seq<Row>)
    requires Storable(table, r) && Answers(Written(store, q, table, r), q, rows) && r.total.Some?
    ensures ReadBack(table, rows).Some? && ReadBack(table, rows).value.total == r.total
  {
    WrittenWorld(store, q, table, r);
    assert Row(WLD, r.total) in rows;
    WorldRowIs(rows, Row(WLD, r.total));
  }

  lemma {:induction false} ReadsWritten(store: Store, q: Query, table: CodeTable, r: Imports, rows: seq<Row>, i: nat)
    requires Storable(table, r) && Answers(Written(store, q, table, r), q, rows) && i < |r.competitors|
    ensures Partner(PartnerOf(table, r.competitors[i].code), r.competitors[i].value) in Valued(rows)
  {
    var p := PartnerOf(table, r.competitors[i].code);
    assert Unambiguous(table, r.competitors[i].code);
    WrittenNew(store, q, table, r, i);
    assert Row(p, Some(r.competitors[i].value)) in rows;
    ValuedAre(rows);
  }

  lemma {:induction false} ReadsOrphan(store: Store, q: Query, table: CodeTable, r: Imports, rows: seq<Row>,
                                       orphan: string)
    requires Answers(Written(store, q, table, r), q, rows) && Orphan(store, q, table, r, orphan)
    ensures Partner(orphan, store[KeyOf(q, orphan)].value) in Valued(rows)
  {
    WrittenOld(store, q, table, r, orphan);
    assert Row(orphan, Some(store[KeyOf(q, orphan)].value)) in rows;
    ValuedAre(rows);
  }

  function CodesIn(s: seq<Partner>): set<string> {
    set x | x in s :: x.code
  }

  function WrittenPartners(table: CodeTable, r: Imports, n: nat): set<string>
    requires n <= |r.competitors|
  {
    set i | 0 <= i < n :: PartnerOf(table, r.competitors[i].code)
  }

  lemma {:induction false} CodeIsRead(rows: seq<Row>, p: Partner)
    requires p in Valued(rows)
    ensures p.code in CodesIn(Valued(rows))
  {}

  lemma {:induction false} WrittenIsRead(store: Store, q: Query, table: CodeTable, r: Imports, rows: seq<Row>,
                                         p: string)
    requires Storable(table, r) && Answers(Written(store, q, table, r), q, rows)
    requires p in WrittenPartners(table, r, |r.competitors|)
    ensures p in CodesIn(Valued(rows))
  {
    var i :| 0 <= i < |r.competitors| && PartnerOf(table, r.competitors[i].code) == p;
    ReadsWritten(store, q, table, r, rows, i);
    CodeIsRead(rows, Partner(p, r.competitors[i].value));
  }

  lemma {:induction false} OneMore(written: set<string>, orphan: string, codes: set<string>)
    requires written <= codes && orphan in codes && orphan !in written
    ensures |codes| > |written|
  {
    SubsetSize(written + {orphan}, codes);
  }

  lemma {:induction false} OrphanIsNotWritten(store: Store, q: Query, table: CodeTable, r: Imports, orphan: string)
    requires Orphan(store, q, table, r, orphan)
    ensures orphan !in WrittenPartners(table, r, |r.competitors|)
  {}

  /** An orphan makes the list read back longer than the list written. */
  lemma {:induction false} OrphanShows(store: Store, q: Query, table: CodeTable, r: Imports, rows: seq<Row>,
                                       orphan: string)
    requires Storable(table, r) && Answers(Written(store, q, table, r), q, rows)
    requires Orphan(store, q, table, r, orphan)
    ensures |Valued(rows)| > |r.competitors|
  {
    var written := WrittenPartners(table, r, |r.competitors|);
    forall p | p in written ensures p in CodesIn(Valued(rows)) {
      WrittenIsRead(store, q, table, r, rows, p);
    }
    ReadsOrphan(store, q, table, r, rows, orphan);
    CodeIsRead(rows, Partner(orphan, store[KeyOf(q, orphan)].value));
    OrphanIsNotWritten(store, q, table, r, orphan);
    OneMore(written, orphan, CodesIn(Valued(rows)));
    WrittenCount(table, r, |r.competitors|);
    CodesCount(Valued(rows));
  }

  lemma {:induction false} WrittenNext(table: CodeTable, r: Imports, n: nat)
    requires Storable(table, r) && n < |r.competitors|
    ensures WrittenPartners(table, r, n + 1) == WrittenPartners(table, r, n) + {PartnerOf(table, r.competitors[n].code)}
    ensures PartnerOf(table, r.competitors[n].code) !in WrittenPartners(table, r, n)
  {
    forall i | 0 <= i < n ensures PartnerOf(table, r.competitors[i].code) != PartnerOf(table, r.competitors[n].code) {
      PartnersDiffer(table, r, i, n);
    }
  }

  lemma {:induction false} WrittenCount(table: CodeTable, r: Imports, n: nat)
    requires Storable(table, r) && n <= |r.competitors|
    ensures |WrittenPartners(table, r, n)| == n
  {
    if n > 0 {
      WrittenCount(table, r, n - 1);
      WrittenNext(table, r, n - 1);
    }
  }

  lemma {:induction false} CodesCount(s: seq<Partner>)
    ensures |CodesIn(s)| <= |s|
  {
    if s != [] {
      CodesCount(s[1..]);
      assert CodesIn(s) == CodesIn(s[1..]) + {s[0].code};
    }
  }

  /** Store round trip, exactly: writing a result with suppliers over whatever the
      store held and reading it back gives the same total and the same suppliers,
      values and shares if and only if no earlier supplier row is left orphaned. */
  lemma {:induction false} RoundTripExactly(store: Store, q: Query, table: CodeTable, r: Imports, rows: seq<Row>)
    requires Storable(table, r) && Coherent(r) && r.competitors != []
    requires Answers(Written(store, q, table, r), q, rows)
    ensures ReadBack(table, rows).Some?
    ensures ReadBack(table, rows).value.total == r.total
    ensures Same(ReadBack(table, rows).value, r) <==> forall p :: !Orphan(store, q, table, r, p)
  {
    ReadTotal(store, q, table, r, rows);
    var valued, bare := Valued(rows), Bare(r.competitors);
    var back := Recoded(table, valued);
    SumRecoded(table, valued);
    if orphan :| Orphan(store, q, table, r, orphan) {
      OrphanShows(store, q, table, r, rows, orphan);
      var got := ReadBack(table, rows).value.competitors;
      assert |got| == 0 || |got| > |r.competitors|;
      if multiset(got) == multiset(r.competitors) { SameLength(got, r.competitors); }
    } else {
      ReadPartners(store, q, table, r, rows);
      SumPermutes(back, bare);
      ListedPermutes(back, bare, Sum(bare));
    }
  }

  ghost predicate Untouched(store: Store, q: Query) {
    forall p: string :: KeyOf(q, p) !in store
  }

  lemma {:induction false} LiveIsStorable(recs: seq<Record>, table: CodeTable)
    requires forall rec | rec in recs && Counts(rec) :: Unambiguous(table, rec.code)
    ensures Storable(table, Live(recs))
  {
    LiveIsCoherent(recs);
    var c := Live(recs).competitors;
    forall i | 0 <= i < |c| ensures Unambiguous(table, c[i].code) {
      var rec :| rec in recs && rec.code == c[i].code && Counts(rec);
    }
  }

  /** From a store without rows for the key, every live result that has anything
      to store reads back the same; one that has nothing stays a miss. */
  lemma {:induction false} FreshRoundTrip(store: Store, q: Query, table: CodeTable, recs: seq<Record>, rows: seq<Row>)
    requires forall rec | rec in recs && Counts(rec) :: Unambiguous(table, rec.code)
    requires Untouched(store, q) && Answers(Written(store, q, table, Live(recs)), q, rows)
    ensures Live(recs).total.Some? ==> ReadBack(table, rows).Some? && Same(ReadBack(table, rows).value, Live(recs))
    ensures Live(recs).total.None? ==> Live(recs).competitors == [] && ReadBack(table, rows) == None
  {
    var r := Live(recs);
    LiveIsStorable(recs, table);
    LiveIsCoherent(recs);
    if r.competitors != [] {
      RoundTripExactly(store, q, table, r, rows);
    } else {
      NoPartnersRead(store, q, table, r, rows);
      if r.total.Some? {
        ReadTotal(store, q, table, r, rows);
      } else {
        WrittenWorld(store, q, table, r);
        WorldRowIn(rows);
      }
    }
  }

  lemma {:induction false} NoPartnersRead(store: Store, q: Query, table: CodeTable, r: Imports, rows: seq<Row>)
    requires Storable(table, r) && r.competitors == [] && Untouched(store, q)
    requires Answers(Written(store, q, table, r), q, rows)
    ensures Valued(rows) == []
  {
    ValuedAre(rows);
    if Valued(rows) != [] {
      var x := Valued(rows)[0];
      assert x in Valued(rows);
      WrittenPartner(store, q, table, r, x.code, x.value);
    }
  }

  // ------------------------------------------------------- a row left behind

  const FIGS := Query("080410", "NLD", 2023)

  /** The two entries of the source's code table that matter here. */
  predicate KnowsGulf(table: CodeTable) {
    IsoOf(table, "682") == Some("SAU") && IsoOf(table, "784") == Some("ARE")
  }

  function Only(code: string, value: real): seq<Record> {
    [Record(code, Some(value))]
  }

  lemma {:induction false} LiveOfOne(table: CodeTable, code: string, value: real)
    requires code != "0" && value > 0.0
    ensures Live(Only(code, value)).total == Some(value)
    ensures RowsToWrite(table, Live(Only(code, value)))
         == [Row(WLD, Some(value)), Row(PartnerOf(table, code), Some(value))]
  {
    var recs := Only(code, value);
    assert Totals([]) == [] && recs[..0] == [];
    assert Totals(recs) == [Partner(code, value)];
    assert Sum([Partner(code, value)]) == value;
    assert World(recs) == None;
    assert Sort(ByValue, [Partner(code, value)]) == [Partner(code, value)];
  }

  lemma {:induction false} WrittenOne(store: Store, table: CodeTable, code: string, value: real)
    requires code != "0" && value > 0.0
    ensures Written(store, FIGS, table, Live(Only(code, value)))
         == store[KeyOf(FIGS, WLD) := Some(value)][KeyOf(FIGS, PartnerOf(table, code)) := Some(value)]
  {
    LiveOfOne(table, code, value);
    var rows := RowsToWrite(table, Live(Only(code, value)));
    assert rows[..1] == [Row(WLD, Some(value))] && rows[..1][..0] == [];
    assert Upserted(store, FIGS, []) == store;
    assert Upserted(store, FIGS, rows[..1]) == store[KeyOf(FIGS, WLD) := Some(value)];
  }

  /** One day 784 is the only supplier seen, the next day 682 is. */
  function TwoDays(table: CodeTable): Store {
    var first := Written(map[], FIGS, table, Live(Only("784", 50.0)));
    Written(first, FIGS, table, Live(Only("682", 100.0)))
  }

  function RowsOfTwoDays(): seq<Row> {
    [Row(WLD, Some(100.0)), Row("SAU", Some(100.0)), Row("ARE", Some(50.0))]
  }

  function StoreOfTwoDays(): Store {
    map[KeyOf(FIGS, WLD) := Some(100.0), KeyOf(FIGS, "ARE") := Some(50.0), KeyOf(FIGS, "SAU") := Some(100.0)]
  }

  lemma {:induction false} TwoDaysIs(table: CodeTable)
    requires KnowsGulf(table)
    ensures TwoDays(table) == StoreOfTwoDays()
  {
    WrittenOne(map[], table, "784", 50.0);
    WrittenOne(Written(map[], FIGS, table, Live(Only("784", 50.0))), table, "682", 100.0);
    assert PartnerOf(table, "784") == "ARE" && PartnerOf(table, "682") == "SAU";
  }

  lemma {:induction false} StoredAfterTwoDays()
    ensures Answers(StoreOfTwoDays(), FIGS, RowsOfTwoDays())
  {}

  lemma {:induction false} SumOfTwoDays()
    ensures Sum(Valued(RowsOfTwoDays())) == 150.0 && WorldRow(RowsOfTwoDays()) == Some(100.0)
  {
    var a, b := Row("SAU", Some(100.0)), Row("ARE", Some(50.0));
    assert Valued([]) == [] && Valued([b]) == [Partner("ARE", 50.0)];
    assert [a, b][1..] == [b] && RowsOfTwoDays()[1..] == [a, b];
    assert Valued([a, b]) == [Partner("SAU", 100.0), Partner("ARE", 50.0)];
    assert Valued(RowsOfTwoDays()) == [Partner("SAU", 100.0), Partner("ARE", 50.0)];
    assert [Partner("SAU", 100.0), Partner("ARE", 50.0)][1..] == [Partner("ARE", 50.0)];
    assert Sum([Partner("ARE", 50.0)]) == 50.0;
  }

  /** A refresh that no longer sees a supplier leaves its row behind: with the code
      table's entries for 682 and 784, an empty store after two live results holds
      a total of 100 beside suppliers that add up to 150. */
  lemma {:induction false} RefreshLeavesOrphan(table: CodeTable)
    requires KnowsGulf(table)
    ensures Live(Only("682", 100.0)).total == Some(100.0)
    ensures Answers(TwoDays(table), FIGS, RowsOfTwoDays())
    ensures ReadBack(table, RowsOfTwoDays()).Some?
            && ReadBack(table, RowsOfTwoDays()).value.total == Some(100.0)
    ensures Sum(Valued(RowsOfTwoDays())) == 150.0
  {
    LiveOfOne(table, "682", 100.0);
    TwoDaysIs(table);
    StoredAfterTwoDays();
    SumOfTwoDays();
  }
}
