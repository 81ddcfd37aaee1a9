/** The candidate list shown to a user (`silk_hs_dialog.py`): every requested
    real code, completed with all its siblings on the same numeric axis. */
module HsDialog {
  import opened Wrappers
  import opened StableSort
  import opened HsBands

  /** The official reference in file order, the bands read from it, and the codes
      known to the local seed. */
  datatype Catalog = Catalog(reference: seq<string>, bands: map<string, Band>, seeds: set<string>)

  /** What the loaders guarantee: six-character reference codes, each once, and
      bands only for reference codes. */
  ghost predicate Sound(cat: Catalog) {
    && Distinct(cat.reference)
    && (forall c | c in cat.reference :: |c| == 6)
    && (forall c | c in cat.bands :: c in cat.reference)
    && "" !in cat.seeds
  }

  predicate Real(cat: Catalog, code: string) {
    code in cat.reference || code in cat.seeds
  }

  function Heading(code: string): string {
    if |code| <= 4 then code else code[..4]
  }

  predicate SameAxis(cat: Catalog, a: string, b: string) {
    && a in cat.bands && b in cat.bands
    && Heading(a) == Heading(b) && cat.bands[a].axis == cat.bands[b].axis
  }

  // ------------------------------------------------------ order of strings

  predicate LexLe(a: string, b: string) {
    a == "" || (b != "" && (a[0] < b[0] || (a[0] == b[0] && LexLe(a[1..], b[1..]))))
  }

  /** Order of texts: one is the start of the other, or has the smaller character where
      they first differ. */
  lemma {:induction false} LexLeExactly(a: string, b: string)
    ensures LexLe(a, b) <==> a <= b || exists i: nat :: i < |a| && i < |b| && a[..i] == b[..i] && a[i] < b[i]
  {
    if a != "" && b != "" && a[0] == b[0] {
      LexLeExactly(a[1..], b[1..]);
      LexLeTail(a, b);
    } else if a != "" && b != "" {
      assert a[0] < b[0] ==> a[..0] == b[..0];
      assert forall i: nat | 0 < i < |a| && i < |b| :: a[..i][0] == a[0] && b[..i][0] == b[0];
    }
  }

  lemma {:induction false} LexLeTail(a: string, b: string)
    requires a != "" && b != "" && a[0] == b[0]
    ensures a <= b <==> a[1..] <= b[1..]
    ensures (exists i: nat :: i < |a| && i < |b| && a[..i] == b[..i] && a[i] < b[i])
            <==> exists i: nat :: i < |a[1..]| && i < |b[1..]| && a[1..][..i] == b[1..][..i] && a[1..][i] < b[1..][i]
  {
    if i: nat :| i < |a| && i < |b| && a[..i] == b[..i] && a[i] < b[i] {
      assert a[1..][..i - 1] == a[..i][1..] && b[1..][..i - 1] == b[..i][1..];
      assert a[1..][i - 1] < b[1..][i - 1];
    }
    if i: nat :| i < |a[1..]| && i < |b[1..]| && a[1..][..i] == b[1..][..i] && a[1..][i] < b[1..][i] {
      assert a[..i + 1] == [a[0]] + a[1..][..i] && b[..i + 1] == [b[0]] + b[1..][..i];
      assert a[i + 1] < b[i + 1];
    }
    if a <= b { assert a[1..] == b[1..][..|a| - 1]; }
    if a[1..] <= b[1..] { assert a == [a[0]] + a[1..] && b == [b[0]] + b[1..]; }
  }

  lemma {:induction false} LexTotal(a: string, b: string)
    ensures LexLe(a, b) || LexLe(b, a)
  {
    if a != "" && b != "" && a[0] == b[0] { LexTotal(a[1..], b[1..]); }
  }

  lemma {:induction false} LexTransitive(a: string, b: string, c: string)
    requires LexLe(a, b) && LexLe(b, c)
    ensures LexLe(a, c)
  {
    if a != "" && a[0] == b[0] && b[0] == c[0] { LexTransitive(a[1..], b[1..], c[1..]); }
  }

  lemma {:induction false} LexAntisymmetric(a: string, b: string)
    requires LexLe(a, b) && LexLe(b, a)
    ensures a == b
  {
    if a != "" {
      LexAntisymmetric(a[1..], b[1..]);
      assert a == [a[0]] + a[1..] && b == [b[0]] + b[1..];
    }
  }

  lemma {:induction false} LexIsOrder()
    ensures TotalPreorder(LexLe)
  {
    forall a, b ensures LexLe(a, b) || LexLe(b, a) { LexTotal(a, b); }
    forall a, b, c | LexLe(a, b) && LexLe(b, c) ensures LexLe(a, c) { LexTransitive(a, b, c); }
  }

  // --------------------------------------------------------------- siblings

  function OnAxis(cat: Catalog, code: string): string -> bool {
    (c: string) => SameAxis(cat, code, c)
  }

  function OnAxisOf(cat: Catalog, code: string, codes: seq<string>): seq<string> {
    Filter(OnAxis(cat, code), codes)
  }

  function Siblings(cat: Catalog, code: string): seq<string> {
    if code !in cat.bands then [] else Sort(LexLe, OnAxisOf(cat, code, cat.reference))
  }

  /** Two banded codes of one axis that agree in their first four digits. */
  ghost predicate Sibling(cat: Catalog, a: string, b: string) {
    && a in cat.bands && b in cat.bands && cat.bands[a].axis == cat.bands[b].axis
    && |a| >= 4 && |b| >= 4 && a[..4] == b[..4]
  }

  lemma {:induction false} SameAxisIs(cat: Catalog, a: string, b: string)
    requires Sound(cat)
    ensures SameAxis(cat, a, b) <==> Sibling(cat, a, b)
  {}

  /** The siblings of a code are the banded codes that share its heading and axis, each
      once and in order, itself included. */
  lemma {:induction false} SiblingsAre(cat: Catalog, code: string)
    requires Sound(cat)
    ensures forall c :: c in Siblings(cat, code) <==> Sibling(cat, code, c)
    ensures code in cat.bands ==> code in Siblings(cat, code)
    ensures Distinct(Siblings(cat, code)) && SortedBy(LexLe, Siblings(cat, code))
  {
    var some := OnAxisOf(cat, code, cat.reference);
    SortPermutes(LexLe, some);
    FilterDistinct(OnAxis(cat, code), cat.reference);
    DistinctSort(LexLe, some);
    LexIsOrder();
    SortSorted(LexLe, some);
    forall c ensures c in Siblings(cat, code) <==> Sibling(cat, code, c) {
      FilterHas(OnAxis(cat, code), cat.reference, c);
      SameAxisIs(cat, code, c);
    }
  }

  type AxisKey = (string, set<string>)

  function KeyOf(cat: Catalog, code: string): AxisKey
    requires code in cat.bands
  {
    (Heading(code), cat.bands[code].axis)
  }

  type Groups = map<AxisKey, seq<string>>

  function GroupOf(groups: Groups, key: AxisKey): seq<string> {
    if key in groups then groups[key] else []
  }

  ghost predicate Indexes(cat: Catalog, groups: Groups, codes: seq<string>) {
    forall code | code in cat.bands :: GroupOf(groups, KeyOf(cat, code)) == OnAxisOf(cat, code, codes)
  }

  lemma {:induction false} OnAxisSnoc(cat: Catalog, code: string, codes: seq<string>, next: string)
    ensures OnAxisOf(cat, code, codes + [next])
         == OnAxisOf(cat, code, codes) + if SameAxis(cat, code, next) then [next] else []
  {
    FilterSnoc(OnAxis(cat, code), codes, next);
  }

  function Filed(cat: Catalog, groups: Groups, next: string): Groups {
    if next !in cat.bands then groups
    else groups[KeyOf(cat, next) := GroupOf(groups, KeyOf(cat, next)) + [next]]
  }

  lemma {:induction false} IndexStep(cat: Catalog, groups: Groups, codes: seq<string>, next: string)
    requires Indexes(cat, groups, codes)
    ensures Indexes(cat, Filed(cat, groups, next), codes + [next])
  {
    forall code | code in cat.bands
      ensures GroupOf(Filed(cat, groups, next), KeyOf(cat, code)) == OnAxisOf(cat, code, codes + [next])
    {
      OnAxisSnoc(cat, code, codes, next);
    }
  }

  function SortedGroups(groups: Groups): Groups {
    map key | key in groups :: Sort(LexLe, groups[key])
  }

  ghost predicate Answers(cat: Catalog, index: Groups) {
    forall code | code in cat.bands :: GroupOf(index, KeyOf(cat, code)) == Siblings(cat, code)
  }

  lemma {:induction false} SortedGroupsAnswer(cat: Catalog, groups: Groups)
    requires Indexes(cat, groups, cat.reference)
    ensures Answers(cat, SortedGroups(groups))
  {
    forall code | code in cat.bands ensures GroupOf(SortedGroups(groups), KeyOf(cat, code)) == Siblings(cat, code) {
      assert GroupOf(groups, KeyOf(cat, code)) == OnAxisOf(cat, code, cat.reference);
    }
  }

  /** The index built once over the reference answers every sibling query. */
  method HeadingIndex(cat: Catalog) returns (index: Groups)
    ensures Answers(cat, index)
  {
    var groups: Groups := map[];
    for i := 0 to |cat.reference|
      invariant Indexes(cat, groups, cat.reference[..i])
    {
      IndexStep(cat, groups, cat.reference[..i], cat.reference[i]);
      assert cat.reference[..i + 1] == cat.reference[..i] + [cat.reference[i]];
      groups := Filed(cat, groups, cat.reference[i]);
    }
    assert cat.reference[..|cat.reference|] == cat.reference;
    SortedGroupsAnswer(cat, groups);
    index := SortedGroups(groups);
  }

  // ------------------------------------------------------- the shown list

  datatype Row = Row(hs6: string, banded: bool, verified: bool, axisCompletion: bool)

  /** `xs` appended to `acc`, each new element once. */
  function AddNew(acc: seq<string>, xs: seq<string>): seq<string>
    decreases xs
  {
    if xs == [] then acc
    else AddNew(if xs[0] in acc then acc else acc + [xs[0]], xs[1..])
  }

  lemma {:induction false} AddNewHas(acc: seq<string>, xs: seq<string>, c: string)
    ensures c in AddNew(acc, xs) <==> c in acc || c in xs
    decreases xs
  {
    if xs != [] {
      AddNewHas(if xs[0] in acc then acc else acc + [xs[0]], xs[1..], c);
      assert xs == [xs[0]] + xs[1..];
    }
  }

  lemma {:induction false} AddNewDistinct(acc: seq<string>, xs: seq<string>)
    requires Distinct(acc)
    ensures Distinct(AddNew(acc, xs))
    decreases xs
  {
    if xs != [] {
      if xs[0] !in acc { DistinctJoin(acc, [xs[0]]); }
      AddNewDistinct(if xs[0] in acc then acc else acc + [xs[0]], xs[1..]);
    }
  }

  function IsReal(cat: Catalog): string -> bool {
    (c: string) => Real(cat, c)
  }

  function KeepReal(cat: Catalog, codes: seq<string>): seq<string> {
    Filter(IsReal(cat), codes)
  }

  predicate NotEmpty(c: string) {
    c != ""
  }

  function NonEmpty(codes: seq<string>): seq<string> {
    Filter(NotEmpty, codes)
  }

  /** The requested codes that exist, each once, in the order asked. */
  function Kept(cat: Catalog, codes: seq<string>): seq<string> {
    KeepReal(cat, AddNew([], NonEmpty(codes)))
  }

  lemma {:induction false} KeptHas(cat: Catalog, codes: seq<string>, c: string)
    ensures c in Kept(cat, codes) <==> c in codes && c != "" && Real(cat, c)
  {
    FilterHas(NotEmpty, codes, c);
    AddNewHas([], NonEmpty(codes), c);
    FilterHas(IsReal(cat), AddNew([], NonEmpty(codes)), c);
  }

  lemma {:induction false} KeptDistinct(cat: Catalog, codes: seq<string>)
    ensures Distinct(Kept(cat, codes))
  {
    AddNewDistinct([], NonEmpty(codes));
    FilterDistinct(IsReal(cat), AddNew([], NonEmpty(codes)));
  }

  function SiblingsOrSelf(cat: Catalog, code: string): seq<string> {
    if Siblings(cat, code) == [] then [code] else Siblings(cat, code)
  }

  function Complete(cat: Catalog, kept: seq<string>): seq<string> {
    if kept == [] then []
    else AddNew(Complete(cat, kept[..|kept| - 1]), SiblingsOrSelf(cat, kept[|kept| - 1]))
  }

  lemma {:induction false} CompleteDistinct(cat: Catalog, kept: seq<string>)
    ensures Distinct(Complete(cat, kept))
  {
    if kept != [] {
      CompleteDistinct(cat, kept[..|kept| - 1]);
      AddNewDistinct(Complete(cat, kept[..|kept| - 1]), SiblingsOrSelf(cat, kept[|kept| - 1]));
    }
  }

  function HasBand(cat: Catalog, want: bool): string -> bool {
    (c: string) => (c in cat.bands) == want
  }

  function Banded(cat: Catalog, codes: seq<string>, want: bool): seq<string> {
    Filter(HasBand(cat, want), codes)
  }

  function LowerEnd(cat: Catalog, code: string): Option<real> {
    if code in cat.bands then cat.bands[code].lo else None
  }

  /** Codes compared by the lower end of their band. */
  function ByLowerEnd(cat: Catalog): (string, string) -> bool {
    (a: string, b: string) =>
      LowerEnd(cat, a).None?
      || (LowerEnd(cat, b).Some? && LowerEnd(cat, a).value <= LowerEnd(cat, b).value)
  }

  /** All codes to show, before they are put in order. */
  function Completed(cat: Catalog, codes: seq<string>): seq<string> {
    AddNew(Complete(cat, Kept(cat, codes)), Kept(cat, codes))
  }

  function InOrder(cat: Catalog, complete: seq<string>): seq<string> {
    Sort(ByLowerEnd(cat), Banded(cat, complete, true)) + Banded(cat, complete, false)
  }

  function Ordered(cat: Catalog, codes: seq<string>): seq<string> {
    InOrder(cat, Completed(cat, codes))
  }

  function RowOf(cat: Catalog, kept: seq<string>, code: string): Row {
    Row(code, code in cat.bands, code in cat.seeds, code !in kept)
  }

  function RowsFor(cat: Catalog, kept: seq<string>, ordered: seq<string>): seq<Row> {
    if ordered == [] then [] else [RowOf(cat, kept, ordered[0])] + RowsFor(cat, kept, ordered[1..])
  }

  lemma {:induction false} RowsForAt(cat: Catalog, kept: seq<string>, ordered: seq<string>, i: nat)
    ensures |RowsFor(cat, kept, ordered)| == |ordered|
    ensures i < |ordered| ==> RowsFor(cat, kept, ordered)[i] == RowOf(cat, kept, ordered[i])
  {
    if ordered != [] { RowsForAt(cat, kept, ordered[1..], if i == 0 then 0 else i - 1); }
  }

  function Build(cat: Catalog, codes: seq<string>): seq<Row> {
    RowsFor(cat, Kept(cat, codes), Ordered(cat, codes))
  }

  lemma {:induction false} WantedStep(wanted: seq<string>, codes: seq<string>)
    requires codes != []
    ensures AddNew(wanted, NonEmpty(codes))
         == AddNew(if codes[0] == "" || codes[0] in wanted then wanted else wanted + [codes[0]], NonEmpty(codes[1..]))
  {
    if codes[0] != "" {
      assert NonEmpty(codes)[0] == codes[0] && NonEmpty(codes)[1..] == NonEmpty(codes[1..]);
    } else {
      assert NonEmpty(codes) == NonEmpty(codes[1..]);
    }
  }

  method Wanted(codes: seq<string>) returns (wanted: seq<string>)
    ensures wanted == AddNew([], NonEmpty(codes))
  {
    wanted := [];
    for i := 0 to |codes|
      invariant AddNew(wanted, NonEmpty(codes[i..])) == AddNew([], NonEmpty(codes))
    {
      WantedStep(wanted, codes[i..]);
      assert codes[i..][1..] == codes[i + 1..];
      if codes[i] != "" && codes[i] !in wanted {
        wanted := wanted + [codes[i]];
      }
    }
  }

  method Extend(acc: seq<string>, xs: seq<string>) returns (r: seq<string>)
    ensures r == AddNew(acc, xs)
  {
    r := acc;
    for j := 0 to |xs|
      invariant AddNew(r, xs[j..]) == AddNew(acc, xs)
    {
      assert xs[j..][1..] == xs[j + 1..];
      if xs[j] !in r {
        r := r + [xs[j]];
      }
    }
  }

  method CompleteAxes(cat: Catalog, kept: seq<string>) returns (complete: seq<string>)
    requires Sound(cat)
    ensures complete == Complete(cat, kept)
  {
    var index := HeadingIndex(cat);
    complete := [];
    for i := 0 to |kept|
      invariant complete == Complete(cat, kept[..i])
    {
      var sibs := if kept[i] in cat.bands then GroupOf(index, KeyOf(cat, kept[i])) else [];
      if sibs == [] { sibs := [kept[i]]; }
      assert sibs == SiblingsOrSelf(cat, kept[i]);
      assert kept[..i + 1][..i] == kept[..i] && kept[..i + 1][i] == kept[i];
      complete := Extend(complete, sibs);
    }
    assert kept[..|kept|] == kept;
  }

  /** The builder as the source runs it: accumulating loops and a sort. */
  method BuildCandidates(cat: Catalog, codes: seq<string>) returns (rows: seq<Row>)
    requires Sound(cat)
    ensures rows == Build(cat, codes)
  {
    var wanted := Wanted(codes);
    var kept := KeepReal(cat, wanted);
    var complete := CompleteAxes(cat, kept);
    complete := Extend(complete, kept);
    var ordered := InOrder(cat, complete);
    rows := RowsOf(cat, kept, ordered);
  }

  method RowsOf(cat: Catalog, kept: seq<string>, ordered: seq<string>) returns (rows: seq<Row>)
    ensures rows == RowsFor(cat, kept, ordered)
  {
    rows := [];
    for i := 0 to |ordered|
      invariant rows + RowsFor(cat, kept, ordered[i..]) == RowsFor(cat, kept, ordered)
    {
      assert ordered[i..][1..] == ordered[i + 1..];
      assert rows + RowsFor(cat, kept, ordered[i..])
          == (rows + [RowOf(cat, kept, ordered[i])]) + RowsFor(cat, kept, ordered[i + 1..]);
      rows := rows + [RowOf(cat, kept, ordered[i])];
    }
  }

  // -------------------------------------------------------- what is shown

  ghost predicate Covers(cat: Catalog, codes: seq<string>, code: string) {
    exists k | k in codes :: code == k || SameAxis(cat, k, code)
  }

  /** `code` is asked for, or is a sibling of a code asked for. */
  ghost predicate Due(cat: Catalog, codes: seq<string>, code: string) {
    exists k | k in codes :: k != "" && Real(cat, k) && (code == k || SameAxis(cat, k, code))
  }

  lemma {:induction false} SiblingsOrSelfAre(cat: Catalog, k: string, code: string)
    requires Sound(cat)
    ensures code in SiblingsOrSelf(cat, k) <==> code == k || SameAxis(cat, k, code)
  {
    SiblingsAre(cat, k);
    SameAxisIs(cat, k, code);
  }

  lemma {:induction false} CoversSnoc(cat: Catalog, front: seq<string>, last: string, code: string)
    ensures Covers(cat, front + [last], code) <==> Covers(cat, front, code) || code == last || SameAxis(cat, last, code)
  {
    assert forall k :: k in front + [last] <==> k in front || k == last;
    if Covers(cat, front, code) {
      var k :| k in front && (code == k || SameAxis(cat, k, code));
      assert k in front + [last];
    }
    if code == last || SameAxis(cat, last, code) {
      assert last in front + [last];
    }
  }

  lemma {:induction false} CompleteIs(cat: Catalog, kept: seq<string>, code: string)
    requires Sound(cat)
    ensures code in Complete(cat, kept) <==> Covers(cat, kept, code)
  {
    if kept != [] {
      var last, front := kept[|kept| - 1], kept[..|kept| - 1];
      CompleteIs(cat, front, code);
      SiblingsOrSelfAre(cat, last, code);
      AddNewHas(Complete(cat, front), SiblingsOrSelf(cat, last), code);
      CoversSnoc(cat, front, last, code);
      assert kept == front + [last];
    }
  }

  lemma {:induction false} KeptCovers(cat: Catalog, codes: seq<string>, code: string)
    ensures Covers(cat, Kept(cat, codes), code) <==> Due(cat, codes, code)
  {
    if Covers(cat, Kept(cat, codes), code) {
      var k :| k in Kept(cat, codes) && (code == k || SameAxis(cat, k, code));
      KeptHas(cat, codes, k);
    }
    if Due(cat, codes, code) {
      var k :| k in codes && k != "" && Real(cat, k) && (code == k || SameAxis(cat, k, code));
      KeptHas(cat, codes, k);
    }
  }

  lemma {:induction false} CompletedHas(cat: Catalog, codes: seq<string>, code: string)
    requires Sound(cat)
    ensures code in Completed(cat, codes) <==> Due(cat, codes, code)
  {
    var kept := Kept(cat, codes);
    AddNewHas(Complete(cat, kept), kept, code);
    CompleteIs(cat, kept, code);
    KeptCovers(cat, codes, code);
    assert code in kept ==> Covers(cat, kept, code);
  }

  lemma {:induction false} InOrderIs(cat: Catalog, complete: seq<string>)
    requires Distinct(complete)
    ensures Distinct(InOrder(cat, complete))
    ensures forall c :: c in InOrder(cat, complete) <==> c in complete
  {
    var on, off := Banded(cat, complete, true), Banded(cat, complete, false);
    var sorted := Sort(ByLowerEnd(cat), on);
    FilterDistinct(HasBand(cat, true), complete);
    FilterDistinct(HasBand(cat, false), complete);
    DistinctSort(ByLowerEnd(cat), on);
    SortPermutes(ByLowerEnd(cat), on);
    forall c ensures c in sorted <==> c in complete && c in cat.bands { FilterHas(HasBand(cat, true), complete, c); }
    forall c ensures c in off <==> c in complete && c !in cat.bands { FilterHas(HasBand(cat, false), complete, c); }
    DistinctJoin(sorted, off);
  }

  lemma {:induction false} ByLowerEndIsOrder(cat: Catalog)
    ensures TotalPreorder(ByLowerEnd(cat))
  {}

  /** A code that is asked for, of the official reference or the local seed, calls for
      itself and its siblings. */
  ghost predicate CallsFor(cat: Catalog, asked: string, code: string) {
    && asked != "" && (asked in cat.reference || asked in cat.seeds)
    && (code == asked || Sibling(cat, asked, code))
  }

  lemma {:induction false} DueIs(cat: Catalog, codes: seq<string>, code: string)
    requires Sound(cat)
    ensures Due(cat, codes, code) <==> exists k | k in codes :: CallsFor(cat, k, code)
  {
    forall k | k in codes ensures SameAxis(cat, k, code) <==> Sibling(cat, k, code) { SameAxisIs(cat, k, code); }
    if Due(cat, codes, code) {
      var k :| k in codes && k != "" && Real(cat, k) && (code == k || SameAxis(cat, k, code));
      assert CallsFor(cat, k, code);
    }
  }

  lemma {:induction false} ShownAreDue(cat: Catalog, codes: seq<string>)
    requires Sound(cat)
    ensures Distinct(Ordered(cat, codes))
    ensures forall code :: code in Ordered(cat, codes) <==> Due(cat, codes, code)
  {
    CompleteDistinct(cat, Kept(cat, codes));
    AddNewDistinct(Complete(cat, Kept(cat, codes)), Kept(cat, codes));
    InOrderIs(cat, Completed(cat, codes));
    forall code ensures code in Ordered(cat, codes) <==> Due(cat, codes, code) {
      CompletedHas(cat, codes, code);
    }
  }

  /** The shown codes are exactly those that a requested code calls for, each once. */
  lemma {:induction false} Shown(cat: Catalog, codes: seq<string>)
    requires Sound(cat)
    ensures Distinct(Ordered(cat, codes))
    ensures forall code :: code in Ordered(cat, codes) <==> exists k | k in codes :: CallsFor(cat, k, code)
  {
    ShownAreDue(cat, codes);
    forall code ensures Due(cat, codes, code) <==> exists k | k in codes :: CallsFor(cat, k, code) {
      DueIs(cat, codes, code);
    }
  }

  /** The rows are those of the shown codes, in their order; a row says whether its code
      has a band and is in the seed, and is flagged exactly when nobody asked for it. */
  lemma {:induction false} FlagsAdded(cat: Catalog, codes: seq<string>, i: nat)
    requires Sound(cat) && i < |Build(cat, codes)|
    ensures |Build(cat, codes)| == |Ordered(cat, codes)|
    ensures var row := Build(cat, codes)[i];
            && row.hs6 == Ordered(cat, codes)[i]
            && (row.banded <==> row.hs6 in cat.bands) && (row.verified <==> row.hs6 in cat.seeds)
            && (row.axisCompletion <==> row.hs6 !in codes)
  {
    RowsForAt(cat, Kept(cat, codes), Ordered(cat, codes), i);
    ShownAreDue(cat, codes);
    var code := Ordered(cat, codes)[i];
    assert Due(cat, codes, code);
    DueIsReal(cat, codes, code);
    KeptHas(cat, codes, code);
  }

  lemma {:induction false} DueIsReal(cat: Catalog, codes: seq<string>, code: string)
    requires Sound(cat) && Due(cat, codes, code)
    ensures Real(cat, code) && code != ""
  {
    var k :| k in codes && k != "" && Real(cat, k) && (code == k || SameAxis(cat, k, code));
    if SameAxis(cat, k, code) { assert code in cat.reference && |code| == 6; }
  }

  /** Banded codes come first, by lower end, an open lower end before all. */
  lemma {:induction false} ShownOrder(cat: Catalog, codes: seq<string>, i: nat, j: nat)
    requires Sound(cat) && i < j < |Build(cat, codes)|
    ensures Build(cat, codes)[j].banded ==> Build(cat, codes)[i].banded
    ensures Build(cat, codes)[j].banded ==>
              var a, b := Build(cat, codes)[i].hs6, Build(cat, codes)[j].hs6;
              && a in cat.bands && b in cat.bands
              && (cat.bands[b].lo == None ==> cat.bands[a].lo == None)
              && (cat.bands[a].lo.Some? && cat.bands[b].lo.Some? ==> cat.bands[a].lo.value <= cat.bands[b].lo.value)
  {
    RowsForAt(cat, Kept(cat, codes), Ordered(cat, codes), i);
    RowsForAt(cat, Kept(cat, codes), Ordered(cat, codes), j);
    InOrderRanks(cat, Completed(cat, codes), i, j);
  }

  lemma {:induction false} InOrderRanks(cat: Catalog, complete: seq<string>, i: nat, j: nat)
    requires i < j < |InOrder(cat, complete)|
    ensures var o := InOrder(cat, complete);
            o[j] in cat.bands ==> o[i] in cat.bands && ByLowerEnd(cat)(o[i], o[j])
  {
    var on, off := Banded(cat, complete, true), Banded(cat, complete, false);
    var s, o := Sort(ByLowerEnd(cat), on), InOrder(cat, complete);
    ByLowerEndIsOrder(cat);
    SortSorted(ByLowerEnd(cat), on);
    SortPermutes(ByLowerEnd(cat), on);
    if j < |s| {
      assert o[i] == s[i] && o[j] == s[j] && s[i] in s && ByLowerEnd(cat)(s[i], s[j]);
      FilterHas(HasBand(cat, true), complete, s[i]);
    } else {
      assert o[j] == off[j - |s|] && o[j] in off;
      FilterHas(HasBand(cat, false), complete, o[j]);
    }
  }

  lemma {:induction false} DueClosed(cat: Catalog, codes: seq<string>, c: string, d: string)
    requires Due(cat, codes, c) && SameAxis(cat, c, d)
    ensures Due(cat, codes, d)
  {
    var k :| k in codes && k != "" && Real(cat, k) && (c == k || SameAxis(cat, k, c));
    assert SameAxis(cat, k, d);
  }

  lemma {:induction false} DueTwice(cat: Catalog, codes: seq<string>, c: string)
    requires Sound(cat)
    ensures Due(cat, Ordered(cat, codes), c) <==> Due(cat, codes, c)
  {
    ShownAreDue(cat, codes);
    if Due(cat, codes, c) {
      DueIsReal(cat, codes, c);
      assert c in Ordered(cat, codes);
    }
    if Due(cat, Ordered(cat, codes), c) {
      var k :| k in Ordered(cat, codes) && k != "" && Real(cat, k) && (c == k || SameAxis(cat, k, c));
      assert Due(cat, codes, k);
      if c != k { DueClosed(cat, codes, k, c); }
    }
  }

  ghost predicate Subset(a: seq<string>, b: seq<string>) {
    forall c | c in a :: c in b
  }

  /** A closure operator on codes: it keeps every real code asked for and shows no
      unreal one, is closed under siblings, grows with its argument and adds
      nothing the second time. */
  lemma {:induction false} ClosureOperator(cat: Catalog, codes: seq<string>)
    requires Sound(cat)
    ensures forall c | c in codes && c != "" && (c in cat.reference || c in cat.seeds) :: c in Ordered(cat, codes)
    ensures forall c | c in Ordered(cat, codes) :: c in cat.reference || c in cat.seeds
    ensures forall c, d | c in Ordered(cat, codes) && Sibling(cat, c, d) :: d in Ordered(cat, codes)
    ensures forall c :: c in Ordered(cat, Ordered(cat, codes)) <==> c in Ordered(cat, codes)
  {
    ShownAreDue(cat, codes);
    ShownAreDue(cat, Ordered(cat, codes));
    forall c | c in codes && Real(cat, c) && c != "" ensures c in Ordered(cat, codes) {
      assert Due(cat, codes, c);
    }
    forall c | c in Ordered(cat, codes) ensures Real(cat, c) { DueIsReal(cat, codes, c); }
    forall c, d | c in Ordered(cat, codes) && Sibling(cat, c, d) ensures d in Ordered(cat, codes) {
      SameAxisIs(cat, c, d);
      DueClosed(cat, codes, c, d);
    }
    forall c ensures c in Ordered(cat, Ordered(cat, codes)) <==> c in Ordered(cat, codes) {
      DueTwice(cat, codes, c);
    }
  }

  lemma {:induction false} ClosureMonotone(cat: Catalog, codes: seq<string>, more: seq<string>)
    requires Sound(cat) && Subset(codes, more)
    ensures Subset(Ordered(cat, codes), Ordered(cat, more))
  {
    ShownAreDue(cat, codes);
    ShownAreDue(cat, more);
    forall c | c in Ordered(cat, codes) ensures c in Ordered(cat, more) {
      assert Due(cat, codes, c) && Due(cat, more, c);
    }
  }

  // ------------------------------- completing the list leaves the resolver be

  /** The rows fed back to the numeric resolver (`silk_hs_confirm.py`). */
  function Asked(rows: seq<Row>): seq<string> {
    if rows == [] then []
    else (if rows[0].axisCompletion then [] else [rows[0].hs6]) + Asked(rows[1..])
  }

  function AskedFor(kept: seq<string>): string -> bool {
    (c: string) => c in kept
  }

  lemma {:induction false} AskedIs(cat: Catalog, kept: seq<string>, ordered: seq<string>)
    ensures Asked(RowsFor(cat, kept, ordered)) == Filter(AskedFor(kept), ordered)
  {
    if ordered != [] {
      AskedIs(cat, kept, ordered[1..]);
      assert RowsFor(cat, kept, ordered)[1..] == RowsFor(cat, kept, ordered[1..]);
    }
  }

  function BandLookup(cat: Catalog): string -> Option<Band> {
    (code: string) => if code in cat.bands then Some(cat.bands[code]) else None
  }

  /** The dialog adds siblings and reorders, yet what the numeric resolver sees
      of it discriminates exactly as the codes originally asked for. */
  lemma {:induction false} ResolverUnaffected(cat: Catalog, codes: seq<string>)
    requires Sound(cat)
    ensures Discriminate(Bands(Asked(Build(cat, codes)), BandLookup(cat)))
         == Discriminate(Bands(Kept(cat, codes), BandLookup(cat)))
  {
    var rows, kept := Build(cat, codes), Kept(cat, codes);
    ShownAreDue(cat, codes);
    KeptDistinct(cat, codes);
    AskedIs(cat, kept, Ordered(cat, codes));
    FilterDistinct(AskedFor(kept), Ordered(cat, codes));
    forall c ensures c in Asked(rows) <==> c in kept {
      FilterHas(AskedFor(kept), Ordered(cat, codes), c);
      KeptHas(cat, codes, c);
      if c in kept { assert Due(cat, codes, c); }
    }
    SameElementsSameMultiset(Asked(rows), kept);
    OrderIndependent(Asked(rows), kept, BandLookup(cat));
  }

  // --------------------------------------------- the order a client receives

  function Position(codes: seq<string>, code: string): (p: nat)
    ensures p <= |codes|
    ensures p < |codes| ==> codes[p] == code
    ensures p == |codes| <==> code !in codes
  {
    if codes == [] then 0
    else if codes[0] == code then 0
    else 1 + Position(codes[1..], code)
  }

  /** `_public_candidates` sorts by the engine's rank, then by code. */
  function ByEngine(ranked: seq<string>): (string, string) -> bool {
    (a: string, b: string) =>
      Position(ranked, a) < Position(ranked, b)
      || (Position(ranked, a) == Position(ranked, b) && LexLe(a, b))
  }

  function Public(cat: Catalog, ranked: seq<string>): seq<string> {
    Sort(ByEngine(ranked), Ordered(cat, ranked))
  }

  function NotIn(ranked: seq<string>): string -> bool {
    (c: string) => c !in ranked
  }

  /** The shown codes that the engine did not rank. */
  function Added(cat: Catalog, ranked: seq<string>): seq<string> {
    Filter(NotIn(ranked), Ordered(cat, ranked))
  }

  lemma {:induction false} AddedIs(cat: Catalog, ranked: seq<string>)
    requires Sound(cat)
    ensures var tail := Sort(LexLe, Added(cat, ranked));
            && Distinct(tail) && SortedBy(LexLe, tail)
            && forall c :: c in tail <==> Due(cat, ranked, c) && c !in ranked
  {
    ShownAreDue(cat, ranked);
    LexIsOrder();
    FilterDistinct(NotIn(ranked), Ordered(cat, ranked));
    SortPermutes(LexLe, Added(cat, ranked));
    SortSorted(LexLe, Added(cat, ranked));
    DistinctSort(LexLe, Added(cat, ranked));
    forall c ensures c in Added(cat, ranked) <==> Due(cat, ranked, c) && c !in ranked {
      FilterHas(NotIn(ranked), Ordered(cat, ranked), c);
    }
  }

  lemma {:induction false} ByEngineIsOrder(ranked: seq<string>)
    ensures TotalPreorder(ByEngine(ranked))
  {
    LexIsOrder();
    var le := ByEngine(ranked);
    forall a, b ensures le(a, b) || le(b, a) { LexTotal(a, b); }
    forall a, b, c | le(a, b) && le(b, c) ensures le(a, c) {
      if Position(ranked, a) == Position(ranked, b) == Position(ranked, c) { LexTransitive(a, b, c); }
    }
  }

  lemma {:induction false} PositionInOrder(ranked: seq<string>, i: nat)
    requires Distinct(ranked) && i < |ranked|
    ensures Position(ranked, ranked[i]) == i
  {
    if i > 0 { PositionInOrder(ranked[1..], i - 1); }
  }

  function PositionIn(ranked: seq<string>): string -> nat {
    (code: string) => Position(ranked, code)
  }

  ghost predicate Ascending(key: string -> nat, from: nat, top: nat, codes: seq<string>) {
    && (forall i | 0 <= i < |codes| :: from <= key(codes[i]) < top)
    && forall i, j | 0 <= i < j < |codes| :: key(codes[i]) < key(codes[j])
  }

  lemma {:induction false} AscendingCons(key: string -> nat, from: nat, top: nat, first: string, rest: seq<string>)
    requires key(first) == from < top && Ascending(key, from + 1, top, rest)
    ensures Ascending(key, from, top, rest) && Ascending(key, from, top, [first] + rest)
  {
    var s := [first] + rest;
    forall i | 0 <= i < |s| ensures from <= key(s[i]) < top {
      assert i > 0 ==> s[i] == rest[i - 1];
    }
    forall i, j | 0 <= i < j < |s| ensures key(s[i]) < key(s[j]) {
      assert s[j] == rest[j - 1];
      assert i > 0 ==> s[i] == rest[i - 1];
    }
  }

  lemma {:induction false} KeepRealStep(cat: Catalog, ranked: seq<string>, from: nat)
    requires from < |ranked|
    ensures KeepReal(cat, ranked[from..])
         == if Real(cat, ranked[from]) then [ranked[from]] + KeepReal(cat, ranked[from + 1..])
            else KeepReal(cat, ranked[from + 1..])
  {
    assert ranked[from..][0] == ranked[from] && ranked[from..][1..] == ranked[from + 1..];
  }

  lemma {:induction false} KeepRealOrder(cat: Catalog, ranked: seq<string>, from: nat)
    requires Distinct(ranked) && from <= |ranked|
    ensures Ascending(PositionIn(ranked), from, |ranked|, KeepReal(cat, ranked[from..]))
    decreases |ranked| - from
  {
    if from < |ranked| {
      KeepRealOrder(cat, ranked, from + 1);
      PositionInOrder(ranked, from);
      KeepRealStep(cat, ranked, from);
      AscendingCons(PositionIn(ranked), from, |ranked|, ranked[from], KeepReal(cat, ranked[from + 1..]));
    }
  }

  lemma {:induction false} PublicCodes(cat: Catalog, ranked: seq<string>)
    requires Sound(cat) && Distinct(ranked) && "" !in ranked
    ensures multiset(KeepReal(cat, ranked) + Sort(LexLe, Added(cat, ranked))) == multiset(Ordered(cat, ranked))
  {
    var head, tail := KeepReal(cat, ranked), Sort(LexLe, Added(cat, ranked));
    ShownAreDue(cat, ranked);
    AddedIs(cat, ranked);
    FilterDistinct(IsReal(cat), ranked);
    forall c ensures c in head <==> c in ranked && Real(cat, c) { FilterHas(IsReal(cat), ranked, c); }
    DistinctJoin(head, tail);
    forall c ensures c in head + tail <==> c in Ordered(cat, ranked) {
      if c in head { assert Due(cat, ranked, c); }
      if Due(cat, ranked, c) { DueIsReal(cat, ranked, c); }
    }
    SameElementsSameMultiset(head + tail, Ordered(cat, ranked));
  }

  lemma {:induction false} PublicStrict(cat: Catalog, ranked: seq<string>, head: seq<string>, tail: seq<string>)
    requires Ascending(PositionIn(ranked), 0, |ranked|, head)
    requires SortedBy(LexLe, tail) && Distinct(tail) && forall c | c in tail :: c !in ranked
    ensures StrictlySortedBy(ByEngine(ranked), head + tail)
  {
    var s, le := head + tail, ByEngine(ranked);
    forall i, j | 0 <= i < j < |s| ensures le(s[i], s[j]) && !le(s[j], s[i]) {
      if j < |head| {
        assert s[i] == head[i] && s[j] == head[j];
        assert PositionIn(ranked)(head[i]) < PositionIn(ranked)(head[j]);
      } else {
        assert s[j] == tail[j - |head|] && s[j] in tail;
        assert Position(ranked, s[j]) == |ranked|;
        if i < |head| {
          assert s[i] == head[i] && PositionIn(ranked)(head[i]) < |ranked|;
        } else {
          assert s[i] == tail[i - |head|] && s[i] in tail && LexLe(s[i], s[j]);
          if LexLe(s[j], s[i]) { LexAntisymmetric(s[i], s[j]); }
        }
      }
    }
  }

  /** The engine's real candidates keep their order at the head of the list, its
      best one first; the added siblings follow in order of their codes. */
  lemma {:induction false} PublicKeepsEngineOrder(cat: Catalog, ranked: seq<string>)
    requires Sound(cat) && Distinct(ranked) && "" !in ranked
    ensures Public(cat, ranked) == KeepReal(cat, ranked) + Sort(LexLe, Added(cat, ranked))
  {
    var shown, le := Ordered(cat, ranked), ByEngine(ranked);
    var head, tail := KeepReal(cat, ranked), Sort(LexLe, Added(cat, ranked));
    AddedIs(cat, ranked);
    KeepRealOrder(cat, ranked, 0);
    assert ranked[0..] == ranked;
    PublicCodes(cat, ranked);
    PublicStrict(cat, ranked, head, tail);
    ByEngineIsOrder(ranked);
    SortPermutes(le, shown);
    SortSorted(le, shown);
    StrictOrderUnique(le, head + tail, Public(cat, ranked));
  }

  // --------------------------------------- codes without a band keep their order

  lemma {:induction false} AddNewSnoc(acc: seq<string>, xs: seq<string>, x: string)
    ensures AddNew(acc, xs + [x]) == AddNew(acc, xs) + if x in AddNew(acc, xs) then [] else [x]
    decreases xs
  {
    if xs == [] {
      assert xs + [x] == [x] && acc + [] == acc;
    } else {
      assert (xs + [x])[0] == xs[0] && (xs + [x])[1..] == xs[1..] + [x];
      AddNewSnoc(if xs[0] in acc then acc else acc + [xs[0]], xs[1..], x);
    }
  }

  /** What is added of banded codes alone adds nothing to the others. */
  lemma {:induction false} AddNewBanded(cat: Catalog, acc: seq<string>, xs: seq<string>)
    requires forall x | x in xs :: x in cat.bands
    ensures Banded(cat, AddNew(acc, xs), false) == Banded(cat, acc, false)
    decreases xs
  {
    if xs != [] {
      assert xs[0] in xs && forall x | x in xs[1..] :: x in xs;
      var next := if xs[0] in acc then acc else acc + [xs[0]];
      AddNewBanded(cat, next, xs[1..]);
      FilterSnoc(HasBand(cat, false), acc, xs[0]);
      assert Banded(cat, acc, false) + [] == Banded(cat, acc, false);
    }
  }

  lemma {:induction false} SiblingsBanded(cat: Catalog, code: string)
    requires Sound(cat) && code in cat.bands
    ensures forall x | x in SiblingsOrSelf(cat, code) :: x in cat.bands
  {
    forall x | x in SiblingsOrSelf(cat, code) ensures x in cat.bands { SiblingsOrSelfAre(cat, code, x); }
  }

  /** The siblings that completion adds are all banded. */
  lemma {:induction false} CompleteUnbanded(cat: Catalog, kept: seq<string>)
    requires Sound(cat) && Distinct(kept)
    ensures Banded(cat, Complete(cat, kept), false) == Banded(cat, kept, false)
  {
    if kept != [] {
      var front, last := kept[..|kept| - 1], kept[|kept| - 1];
      assert kept == front + [last] && last !in front;
      CompleteUnbanded(cat, front);
      FilterSnoc(HasBand(cat, false), front, last);
      if last in cat.bands {
        SiblingsBanded(cat, last);
        AddNewBanded(cat, Complete(cat, front), SiblingsOrSelf(cat, last));
      } else {
        CompleteIs(cat, front, last);
        FilterSnoc(HasBand(cat, false), Complete(cat, front), last);
        assert Siblings(cat, last) == [];
        assert AddNew(Complete(cat, front), [last]) == Complete(cat, front) + [last];
      }
    }
  }

  lemma {:induction false} AddNewKnown(acc: seq<string>, xs: seq<string>)
    requires forall x | x in xs :: x in acc
    ensures AddNew(acc, xs) == acc
    decreases xs
  {
    if xs != [] {
      assert xs[0] in xs && forall x | x in xs[1..] :: x in xs;
      AddNewKnown(acc, xs[1..]);
    }
  }

  lemma {:induction false} CompletedUnbanded(cat: Catalog, codes: seq<string>)
    requires Sound(cat)
    ensures Banded(cat, Completed(cat, codes), false) == Banded(cat, Kept(cat, codes), false)
  {
    var kept := Kept(cat, codes);
    KeptDistinct(cat, codes);
    CompleteUnbanded(cat, kept);
    forall x | x in kept ensures x in Complete(cat, kept) { CompleteIs(cat, kept, x); }
    AddNewKnown(Complete(cat, kept), kept);
  }

  /** Where a code first stands among those asked for. */
  ghost predicate FirstAsked(codes: seq<string>, code: string, p: nat) {
    p < |codes| && codes[p] == code && forall i | 0 <= i < p :: codes[i] != code
  }

  /** Each before the next, by where they first stand in `codes`. */
  ghost predicate AsAsked(codes: seq<string>, some: seq<string>) {
    && (forall i | 0 <= i < |some| :: some[i] in codes)
    && forall i, j, p: nat, q: nat | 0 <= i < j < |some| && FirstAsked(codes, some[i], p)
                                     && FirstAsked(codes, some[j], q) :: p < q
  }

  lemma {:induction false} AskedSnoc(codes: seq<string>, next: string, some: seq<string>)
    requires AsAsked(codes, some)
    ensures AsAsked(codes + [next], some)
    ensures next !in codes ==> AsAsked(codes + [next], some + [next])
  {
    var more := codes + [next];
    forall c, p: nat | c in codes && FirstAsked(more, c, p) ensures FirstAsked(codes, c, p) {
      var i :| 0 <= i < |codes| && codes[i] == c;
      assert more[i] == c;
      assert forall j | 0 <= j < |codes| :: more[j] == codes[j];
    }
    if next !in codes {
      assert forall k | 0 <= k < |codes| :: more[k] == codes[k] && codes[k] != next;
      assert forall p: nat | FirstAsked(more, next, p) :: p == |codes|;
    }
  }

  lemma {:induction false} WantedAsAsked(codes: seq<string>)
    ensures AsAsked(codes, AddNew([], NonEmpty(codes)))
    ensures forall c :: c in AddNew([], NonEmpty(codes)) <==> c in codes && c != ""
  {
    forall c ensures c in AddNew([], NonEmpty(codes)) <==> c in codes && c != "" {
      FilterHas(NotEmpty, codes, c);
      AddNewHas([], NonEmpty(codes), c);
    }
    if codes != [] {
      var front, last := codes[..|codes| - 1], codes[|codes| - 1];
      assert codes == front + [last];
      WantedAsAsked(front);
      FilterSnoc(NotEmpty, front, last);
      AskedSnoc(front, last, AddNew([], NonEmpty(front)));
      if last != "" {
        AddNewSnoc([], NonEmpty(front), last);
      } else {
        assert NonEmpty(front) + [] == NonEmpty(front);
      }
    }
  }

  lemma {:induction false} FilterAsAsked(codes: seq<string>, some: seq<string>, p: string -> bool)
    requires AsAsked(codes, some)
    ensures AsAsked(codes, Filter(p, some))
  {
    if some != [] {
      assert some == [some[0]] + some[1..];
      assert AsAsked(codes, some[1..]);
      FilterAsAsked(codes, some[1..], p);
      var rest := Filter(p, some[1..]);
      forall j | 0 <= j < |rest| ensures exists k | 0 < k < |some| :: some[k] == rest[j] {
        FilterHas(p, some[1..], rest[j]);
        var k :| 0 <= k < |some[1..]| && some[1..][k] == rest[j];
        assert some[k + 1] == rest[j];
      }
    }
  }

  /** The codes without a band stand at the end of the list in the order in which they
      were first asked for. */
  lemma {:induction false} UnbandedAsAsked(cat: Catalog, codes: seq<string>)
    requires Sound(cat)
    ensures var off := Banded(cat, Ordered(cat, codes), false);
            AsAsked(codes, off) && |off| <= |Ordered(cat, codes)|
            && off == Ordered(cat, codes)[|Ordered(cat, codes)| - |off|..]
  {
    WantedAsAsked(codes);
    FilterAsAsked(codes, AddNew([], NonEmpty(codes)), IsReal(cat));
    FilterAsAsked(codes, Kept(cat, codes), HasBand(cat, false));
    CompletedUnbanded(cat, codes);
    InOrderUnbanded(cat, Completed(cat, codes));
  }

  lemma {:induction false} InOrderUnbanded(cat: Catalog, complete: seq<string>)
    ensures Banded(cat, InOrder(cat, complete), false) == Banded(cat, complete, false)
  {
    var on, off := Sort(ByLowerEnd(cat), Banded(cat, complete, true)), Banded(cat, complete, false);
    SortPermutes(ByLowerEnd(cat), Banded(cat, complete, true));
    forall c | c in on ensures c in cat.bands {
      FilterHas(HasBand(cat, true), complete, c);
    }
    forall c | c in off ensures c !in cat.bands { FilterHas(HasBand(cat, false), complete, c); }
    FilterBack(HasBand(cat, false), on, off);
  }
}
