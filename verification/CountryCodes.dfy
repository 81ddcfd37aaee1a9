/** The platform's table of country codes (`silk_data_layer.py`), and what its
    entries spare the fact store's round trip. */
module CountryCodes {
  import opened MarketStore
  import opened Wrappers

  const SIZE: nat := 70

  /** The entries, in source order. */
  function Entry(i: nat): (string, string)
    requires i < SIZE
  {
    match i
    case 0 => ("682", "SAU")
    case 1 => ("784", "ARE")
    case 2 => ("634", "QAT")
    case 3 => ("414", "KWT")
    case 4 => ("512", "OMN")
    case 5 => ("048", "BHR")
    case 6 => ("400", "JOR")
    case 7 => ("422", "LBN")
    case 8 => ("818", "EGY")
    case 9 => ("504", "MAR")
    case 10 => ("788", "TUN")
    case 11 => ("012", "DZA")
    case 12 => ("434", "LBY")
    case 13 => ("729", "SDN")
    case 14 => ("887", "YEM")
    case 15 => ("368", "IRQ")
    case 16 => ("364", "IRN")
    case 17 => ("792", "TUR")
    case 18 => ("586", "PAK")
    case 19 => ("356", "IND")
    case 20 => ("050", "BGD")
    case 21 => ("144", "LKA")
    case 22 => ("360", "IDN")
    case 23 => ("458", "MYS")
    case 24 => ("702", "SGP")
    case 25 => ("764", "THA")
    case 26 => ("704", "VNM")
    case 27 => ("608", "PHL")
    case 28 => ("156", "CHN")
    case 29 => ("392", "JPN")
    case 30 => ("410", "KOR")
    case 31 => ("344", "HKG")
    case 32 => ("158", "TWN")
    case 33 => ("036", "AUS")
    case 34 => ("554", "NZL")
    case 35 => ("840", "USA")
    case 36 => ("124", "CAN")
    case 37 => ("484", "MEX")
    case 38 => ("076", "BRA")
    case 39 => ("032", "ARG")
    case 40 => ("152", "CHL")
    case 41 => ("170", "COL")
    case 42 => ("604", "PER")
    case 43 => ("826", "GBR")
    case 44 => ("276", "DEU")
    case 45 => ("250", "FRA")
    case 46 => ("380", "ITA")
    case 47 => ("724", "ESP")
    case 48 => ("528", "NLD")
    case 49 => ("056", "BEL")
    case 50 => ("756", "CHE")
    case 51 => ("040", "AUT")
    case 52 => ("752", "SWE")
    case 53 => ("578", "NOR")
    case 54 => ("208", "DNK")
    case 55 => ("246", "FIN")
    case 56 => ("616", "POL")
    case 57 => ("203", "CZE")
    case 58 => ("620", "PRT")
    case 59 => ("300", "GRC")
    case 60 => ("372", "IRL")
    case 61 => ("643", "RUS")
    case 62 => ("804", "UKR")
    case 63 => ("710", "ZAF")
    case 64 => ("566", "NGA")
    case 65 => ("404", "KEN")
    case 66 => ("231", "ETH")
    case 67 => ("288", "GHA")
    case 68 => ("834", "TZA")
    case _ => ("800", "UGA")
  }

  function Table(): CodeTable {
    seq(SIZE, i requires 0 <= i < SIZE => Entry(i))
  }

  // ------------------------------------------------ no code, no country twice

  function Number(code: string): int
    requires |code| == 3
  {
    (code[0] as int * 1000 + code[1] as int) * 1000 + code[2] as int
  }

  /** Where a code stands in the table, by the numbers of its characters. */
  function PlaceOfCode(number: int): int {
    match number
    case 54056050 => 0
    case 55056052 => 1
    case 54051052 => 2
    case 52049052 => 3
    case 53049050 => 4
    case 48052056 => 5
    case 52048048 => 6
    case 52050050 => 7
    case 56049056 => 8
    case 53048052 => 9
    case 55056056 => 10
    case 48049050 => 11
    case 52051052 => 12
    case 55050057 => 13
    case 56056055 => 14
    case 51054056 => 15
    case 51054052 => 16
    case 55057050 => 17
    case 53056054 => 18
    case 51053054 => 19
    case 48053048 => 20
    case 49052052 => 21
    case 51054048 => 22
    case 52053056 => 23
    case 55048050 => 24
    case 55054052 => 25
    case 55048052 => 26
    case 54048056 => 27
    case 49053054 => 28
    case 51057050 => 29
    case 52049048 => 30
    case 51052052 => 31
    case 49053056 => 32
    case 48051054 => 33
    case 53053052 => 34
    case 56052048 => 35
    case 49050052 => 36
    case 52056052 => 37
    case 48055054 => 38
    case 48051050 => 39
    case 49053050 => 40
    case 49055048 => 41
    case 54048052 => 42
    case 56050054 => 43
    case 50055054 => 44
    case 50053048 => 45
    case 51056048 => 46
    case 55050052 => 47
    case 53050056 => 48
    case 48053054 => 49
    case 55053054 => 50
    case 48052048 => 51
    case 55053050 => 52
    case 53055056 => 53
    case 50048056 => 54
    case 50052054 => 55
    case 54049054 => 56
    case 50048051 => 57
    case 54050048 => 58
    case 51048048 => 59
    case 51055050 => 60
    case 54052051 => 61
    case 56048052 => 62
    case 55049048 => 63
    case 53054054 => 64
    case 52048052 => 65
    case 50051049 => 66
    case 50056056 => 67
    case 56051052 => 68
    case 56048048 => 69
    case _ => -1
  }

  function PlaceOfCountry(number: int): int {
    match number
    case 83065085 => 0
    case 65082069 => 1
    case 81065084 => 2
    case 75087084 => 3
    case 79077078 => 4
    case 66072082 => 5
    case 74079082 => 6
    case 76066078 => 7
    case 69071089 => 8
    case 77065082 => 9
    case 84085078 => 10
    case 68090065 => 11
    case 76066089 => 12
    case 83068078 => 13
    case 89069077 => 14
    case 73082081 => 15
    case 73082078 => 16
    case 84085082 => 17
    case 80065075 => 18
    case 73078068 => 19
    case 66071068 => 20
    case 76075065 => 21
    case 73068078 => 22
    case 77089083 => 23
    case 83071080 => 24
    case 84072065 => 25
    case 86078077 => 26
    case 80072076 => 27
    case 67072078 => 28
    case 74080078 => 29
    case 75079082 => 30
    case 72075071 => 31
    case 84087078 => 32
    case 65085083 => 33
    case 78090076 => 34
    case 85083065 => 35
    case 67065078 => 36
    case 77069088 => 37
    case 66082065 => 38
    case 65082071 => 39
    case 67072076 => 40
    case 67079076 => 41
    case 80069082 => 42
    case 71066082 => 43
    case 68069085 => 44
    case 70082065 => 45
    case 73084065 => 46
    case 69083080 => 47
    case 78076068 => 48
    case 66069076 => 49
    case 67072069 => 50
    case 65085084 => 51
    case 83087069 => 52
    case 78079082 => 53
    case 68078075 => 54
    case 70073078 => 55
    case 80079076 => 56
    case 67090069 => 57
    case 80082084 => 58
    case 71082067 => 59
    case 73082076 => 60
    case 82085083 => 61
    case 85075082 => 62
    case 90065070 => 63
    case 78071065 => 64
    case 75069078 => 65
    case 69084072 => 66
    case 71072065 => 67
    case 84090065 => 68
    case 85071065 => 69
    case _ => -1
  }

  predicate Digit(c: char) {
    '0' <= c <= '9'
  }

  /** Entry `i` stands where its code and its country say, and is spelled as both are. */
  predicate InPlace(i: nat)
    requires i < SIZE
  {
    var e := Entry(i);
    && |e.0| == 3 && |e.1| == 3 && Digit(e.0[0]) && !Digit(e.1[0])
    && PlaceOfCode(Number(e.0)) == i && PlaceOfCountry(Number(e.1)) == i
  }

  lemma {:induction false} InPlaceFrom0(i: nat)
    requires 0 <= i < 8
    ensures InPlace(i)
  {}

  lemma {:induction false} InPlaceFrom8(i: nat)
    requires 8 <= i < 16
    ensures InPlace(i)
  {}

  lemma {:induction false} InPlaceFrom16(i: nat)
    requires 16 <= i < 24
    ensures InPlace(i)
  {}

  lemma {:induction false} InPlaceFrom24(i: nat)
    requires 24 <= i < 32
    ensures InPlace(i)
  {}

  lemma {:induction false} InPlaceFrom32(i: nat)
    requires 32 <= i < 40
    ensures InPlace(i)
  {}

  lemma {:induction false} InPlaceFrom40(i: nat)
    requires 40 <= i < 48
    ensures InPlace(i)
  {}

  lemma {:induction false} InPlaceFrom48(i: nat)
    requires 48 <= i < 56
    ensures InPlace(i)
  {}

  lemma {:induction false} InPlaceFrom56(i: nat)
    requires 56 <= i < 64
    ensures InPlace(i)
  {}

  lemma {:induction false} InPlaceFrom64(i: nat)
    requires 64 <= i < 70
    ensures InPlace(i)
  {}

  lemma {:induction false} AllInPlace(i: nat)
    requires i < SIZE
    ensures InPlace(i)
  {
    if i < 8 {
      InPlaceFrom0(i);
    } else if i < 16 {
      InPlaceFrom8(i);
    } else if i < 24 {
      InPlaceFrom16(i);
    } else if i < 32 {
      InPlaceFrom24(i);
    } else if i < 40 {
      InPlaceFrom32(i);
    } else if i < 48 {
      InPlaceFrom40(i);
    } else if i < 56 {
      InPlaceFrom48(i);
    } else if i < 64 {
      InPlaceFrom56(i);
    } else {
      InPlaceFrom64(i);
    }
  }

  /** The inverted table is an inverse: no code and no country stands twice. */
  lemma {:induction false} TableIsInvertible()
    ensures Invertible(Table())
  {
    forall i, j | 0 <= i < j < SIZE ensures Entry(i).0 != Entry(j).0 && Entry(i).1 != Entry(j).1 {
      AllInPlace(i);
      AllInPlace(j);
    }
  }

  lemma {:induction false} InTable(e: (string, string)) returns (i: nat)
    requires e in Table()
    ensures i < SIZE && e == Entry(i) && InPlace(i)
  {
    i :| 0 <= i < SIZE && Table()[i] == e;
    AllInPlace(i);
  }

  /** A partner code as the trade service gives it: it begins with a digit. */
  predicate Numeric(code: string) {
    code != "" && Digit(code[0])
  }

  lemma {:induction false} WorldHasNoPlace()
    ensures PlaceOfCountry(Number(WLD)) == -1
  {}

  lemma {:induction false} OtherCountry(country: string, i: nat, partner: string)
    requires |country| == 3 && !Digit(country[0]) && PlaceOfCountry(Number(country)) == i
    requires Numeric(partner) || partner == WLD
    ensures country != partner
  {
    WorldHasNoPlace();
  }

  lemma {:induction false} NotACountry(partner: string)
    requires Numeric(partner) || partner == WLD
    ensures M49Of(Table(), partner) == None
  {
    M49OfIs(Table(), partner);
    forall i | 0 <= i < SIZE ensures Table()[i].1 != partner {
      AllInPlace(i);
      OtherCountry(Entry(i).1, i, partner);
    }
  }

  /** No numeric code is confused with another by the store's spelling. */
  lemma {:induction false} NumericIsUnambiguous(code: string)
    requires Numeric(code)
    ensures Unambiguous(Table(), code)
  {
    TableIsInvertible();
    CodeRoundTripExactly(Table(), code);
    NotACountry(code);
    IsoOfFrom(Table(), code);
    if IsoOf(Table(), code).Some? {
      NotACountry(WLD);
      M49OfIs(Table(), WLD);
      var i := InTable((code, IsoOf(Table(), code).value));
      assert Table()[i].1 != WLD;
    }
  }

  /** With the platform's table the round trip needs nothing of the codes but that
      they are numeric. */
  lemma {:induction false} TableRoundTrip(store: Store, q: Query, recs: seq<Record>, rows: seq<Row>)
    requires forall r | r in recs && Counts(r) :: Numeric(r.code)
    requires Untouched(store, q) && Answers(Written(store, q, Table(), Live(recs)), q, rows)
    ensures Live(recs).total.Some? ==>
              ReadBack(Table(), rows).Some? && Same(ReadBack(Table(), rows).value, Live(recs))
    ensures Live(recs).total.None? ==> Live(recs).competitors == [] && ReadBack(Table(), rows) == None
  {
    forall r | r in recs && Counts(r) ensures Unambiguous(Table(), r.code) { NumericIsUnambiguous(r.code); }
    FreshRoundTrip(store, q, Table(), recs, rows);
  }

  lemma {:induction false} IsoOfEntry(table: CodeTable, i: nat)
    requires DistinctKeys(table) && i < |table|
    ensures IsoOf(table, table[i].0) == Some(table[i].1)
  {
    if i > 0 { IsoOfEntry(table[1..], i - 1); }
  }

  /** Its first two entries are the ones that leave a supplier behind. */
  lemma {:induction false} TableLeavesOrphan()
    ensures Answers(TwoDays(Table()), FIGS, RowsOfTwoDays())
    ensures ReadBack(Table(), RowsOfTwoDays()).Some?
            && ReadBack(Table(), RowsOfTwoDays()).value.total == Some(100.0) && Sum(Valued(RowsOfTwoDays())) == 150.0
  {
    TableIsInvertible();
    IsoOfEntry(Table(), 0);
    IsoOfEntry(Table(), 1);
    RefreshLeavesOrphan(Table());
  }
}
