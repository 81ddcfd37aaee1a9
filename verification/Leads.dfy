/** Company leads from the maps scraper: deduplication, ranking, and the merge
    with names found on the web.

    `str.strip` and `str.lower` are parameters; a lead is a parsed row. */
module Leads {
  import opened Common
  import opened KeyedBest
  import opened StableSort
  import opened Wrappers

  datatype DocLevel = SeenOnMaps | WebCandidate

  datatype Lead = Lead(
    name: string, address: string, phone: string, email: string, website: string, mapsLink: string,
    rating: Option<real>, reviews: Option<int>, level: DocLevel)

  datatype Text = Text(strip: string -> string, lower: string -> string)

  const TOP_N := 15
  const ADDRESS_PREFIX := 20

  function Normal(t: Text, name: string): string {
    t.lower(t.strip(name))
  }

  function Take<T>(s: seq<T>, n: nat): seq<T> {
    if |s| <= n then s else s[..n]
  }

  // ----------------------------------------------------------- one per key

  function KeyText(name: string, prefix: string): string {
    name + "|" + prefix
  }

  function ByKey(t: Text): Lead -> string {
    (l: Lead) => KeyText(Normal(t, l.name), t.lower(Take(l.address, ADDRESS_PREFIX)))
  }

  function Filled(s: string): nat {
    if s == "" then 0 else 1
  }

  function Richness(l: Lead): nat {
    Filled(l.phone) + Filled(l.email) + Filled(l.website) + Filled(l.mapsLink)
  }

  datatype Contact = Phone | Email | Website | MapsLink

  function ContactText(l: Lead, c: Contact): string {
    match c
    case Phone => l.phone
    case Email => l.email
    case Website => l.website
    case MapsLink => l.mapsLink
  }

  /** The ways to reach a company that a lead gives. */
  ghost function Contacts(l: Lead): set<Contact> {
    set c: Contact | ContactText(l, c) != ""
  }

  ghost function ContactsAmong(l: Lead, some: set<Contact>): set<Contact> {
    set c | c in some && ContactText(l, c) != ""
  }

  lemma {:induction false} OneMoreContact(l: Lead, some: set<Contact>, c: Contact)
    requires c !in some
    ensures |ContactsAmong(l, some + {c})| == |ContactsAmong(l, some)| + Filled(ContactText(l, c))
  {
    var before := ContactsAmong(l, some);
    assert ContactsAmong(l, some + {c}) == if ContactText(l, c) != "" then before + {c} else before;
  }

  lemma {:induction false} RichnessIs(l: Lead)
    ensures Richness(l) == |Contacts(l)|
  {
    assert ContactsAmong(l, {}) == {};
    OneMoreContact(l, {}, Phone);
    OneMoreContact(l, {} + {Phone}, Email);
    OneMoreContact(l, {} + {Phone} + {Email}, Website);
    OneMoreContact(l, {} + {Phone} + {Email} + {Website}, MapsLink);
    assert Contacts(l) == ContactsAmong(l, {} + {Phone} + {Email} + {Website} + {MapsLink});
  }

  predicate Richer(a: Lead, b: Lead) {
    Richness(a) >= Richness(b)
  }

  function HasName(t: Text): Lead -> bool {
    (l: Lead) => Normal(t, l.name) != ""
  }

  function Named(t: Text, leads: seq<Lead>): seq<Lead> {
    Filter(HasName(t), leads)
  }

  function Deduped(t: Text, leads: seq<Lead>): seq<Lead> {
    Collect(ByKey(t), Richer, Named(t, leads))
  }

  method Dedupe(t: Text, leads: seq<Lead>) returns (kept: seq<Lead>)
    ensures kept == Deduped(t, leads)
  {
    kept := [];
    for i := 0 to |leads|
      invariant kept == Deduped(t, leads[..i])
    {
      assert leads[..i + 1] == leads[..i] + [leads[i]];
      FilterSnoc(HasName(t), leads[..i], leads[i]);
      if Normal(t, leads[i].name) != "" {
        assert Named(t, leads[..i + 1])[..|Named(t, leads[..i])|] == Named(t, leads[..i]);
        kept := Put(ByKey(t), Richer, kept, leads[i]);
      } else {
        assert Named(t, leads[..i + 1]) == Named(t, leads[..i]);
      }
    }
    assert leads[..|leads|] == leads;
  }

  lemma {:induction false} DedupedMember(t: Text, leads: seq<Lead>, l: Lead)
    requires l in Deduped(t, leads)
    ensures l in leads && Normal(t, l.name) != ""
    ensures Best(ByKey(t), Richer, Named(t, leads), ByKey(t)(l)) == Some(l)
  {
    CollectMember(ByKey(t), Richer, Named(t, leads), l);
    BestIsMaximal(ByKey(t), Richer, Named(t, leads), ByKey(t)(l));
    FilterHas(HasName(t), leads, l);
  }

  lemma {:induction false} DedupedRichest(t: Text, leads: seq<Lead>, l: Lead, m: Lead)
    requires l in Deduped(t, leads) && m in leads && Normal(t, m.name) != "" && ByKey(t)(m) == ByKey(t)(l)
    ensures |Contacts(l)| >= |Contacts(m)|
  {
    RichnessIs(l);
    RichnessIs(m);
    DedupedMember(t, leads, l);
    FilterHas(HasName(t), leads, m);
    BestIsMaximal(ByKey(t), Richer, Named(t, leads), ByKey(t)(l));
    assert Richer(l, m);
  }

  lemma {:induction false} DedupedCovers(t: Text, leads: seq<Lead>, m: Lead) returns (l: Lead)
    requires m in leads && Normal(t, m.name) != ""
    ensures l in Deduped(t, leads) && ByKey(t)(l) == ByKey(t)(m)
  {
    FilterHas(HasName(t), leads, m);
    CollectHoldsBest(ByKey(t), Richer, Named(t, leads), ByKey(t)(m));
    BestIsMaximal(ByKey(t), Richer, Named(t, leads), ByKey(t)(m));
    l := Best(ByKey(t), Richer, Named(t, leads), ByKey(t)(m)).value;
  }

  /** One lead per key, one with most contacts of its key, and no named lead's key is
      lost. */
  lemma {:induction false} DedupedIs(t: Text, leads: seq<Lead>)
    ensures OnePerKey(ByKey(t), Deduped(t, leads))
    ensures forall l | l in Deduped(t, leads) :: l in leads && Normal(t, l.name) != ""
    ensures forall l, m | l in Deduped(t, leads) && m in leads && Normal(t, m.name) != ""
                          && ByKey(t)(m) == ByKey(t)(l) :: |Contacts(l)| >= |Contacts(m)|
    ensures forall m | m in leads && Normal(t, m.name) != "" ::
              exists l :: l in Deduped(t, leads) && ByKey(t)(l) == ByKey(t)(m)
  {
    CollectHoldsBest(ByKey(t), Richer, Named(t, leads), "");
    forall l | l in Deduped(t, leads) ensures l in leads && Normal(t, l.name) != "" {
      DedupedMember(t, leads, l);
    }
    forall l, m | l in Deduped(t, leads) && m in leads && Normal(t, m.name) != "" && ByKey(t)(m) == ByKey(t)(l)
      ensures |Contacts(l)| >= |Contacts(m)|
    {
      DedupedRichest(t, leads, l, m);
    }
    forall m | m in leads && Normal(t, m.name) != ""
      ensures exists l :: l in Deduped(t, leads) && ByKey(t)(l) == ByKey(t)(m)
    {
      var l := DedupedCovers(t, leads, m);
    }
  }

  /** Deduplicating what was deduplicated changes nothing, order included. */
  lemma {:induction false} DedupedTwice(t: Text, leads: seq<Lead>)
    ensures Deduped(t, Deduped(t, leads)) == Deduped(t, leads)
  {
    var kept := Deduped(t, leads);
    DedupedIs(t, leads);
    NamedAll(t, kept);
    CollectUnique(ByKey(t), Richer, kept);
  }

  lemma {:induction false} NamedAll(t: Text, leads: seq<Lead>)
    requires forall l | l in leads :: Normal(t, l.name) != ""
    ensures Named(t, leads) == leads
  {
    if leads != [] {
      NamedAll(t, leads[1..]);
      assert HasName(t)(leads[0]);
      assert leads == [leads[0]] + leads[1..];
    }
  }

  // --------------------------------------------- what the key tells apart

  /** The shorter name is followed by a bar in the longer one, and the rest of the
      longer name has moved to the front of the other's prefix. */
  predicate BarMoved(longer: string, prefix: string, shorter: string, other: string) {
    && |longer| > |shorter| && longer[..|shorter|] == shorter && longer[|shorter|] == '|'
    && other == longer[|shorter| + 1..] + "|" + prefix
  }

  lemma {:induction false} KeyTextAt(name: string, prefix: string, n: nat)
    requires n <= |name|
    ensures KeyText(name, prefix)[..n] == name[..n]
    ensures n < |name| ==>
      KeyText(name, prefix)[n] == name[n] && KeyText(name, prefix)[n + 1..] == name[n + 1..] + "|" + prefix
    ensures n == |name| ==> KeyText(name, prefix)[n] == '|' && KeyText(name, prefix)[n + 1..] == prefix
  {}

  /** Two pairs share a key exactly when they are the same pair or a bar has moved
      from the longer name into the other's prefix. */
  lemma {:induction false} SharedKeyExactly(longer: string, prefix: string, shorter: string, other: string)
    requires |longer| >= |shorter|
    ensures KeyText(longer, prefix) == KeyText(shorter, other)
            <==> (longer == shorter && prefix == other) || BarMoved(longer, prefix, shorter, other)
  {
    var n, k, m := |shorter|, KeyText(longer, prefix), KeyText(shorter, other);
    KeyTextAt(longer, prefix, n);
    KeyTextAt(shorter, other, n);
    assert |k| > n && |m| > n;
    assert k == k[..n] + [k[n]] + k[n + 1..] && m == m[..n] + [m[n]] + m[n + 1..];
  }

  /** Read at the keys that deduplication uses: the prefixes are cut at twenty
      characters before they are lowered. */
  lemma {:induction false} SameKeyExactly(t: Text, a: Lead, b: Lead)
    requires |Normal(t, a.name)| >= |Normal(t, b.name)|
    ensures var p, q := t.lower(Take(a.address, ADDRESS_PREFIX)), t.lower(Take(b.address, ADDRESS_PREFIX));
            ByKey(t)(a) == ByKey(t)(b)
            <==> (Normal(t, a.name) == Normal(t, b.name) && p == q)
                 || BarMoved(Normal(t, a.name), p, Normal(t, b.name), q)
  {
    SharedKeyExactly(Normal(t, a.name), t.lower(Take(a.address, ADDRESS_PREFIX)),
                     Normal(t, b.name), t.lower(Take(b.address, ADDRESS_PREFIX)));
  }

  /** Another pair that a company may have: a name that normalisation can produce,
      and a prefix that cutting and lowering an address can. */
  ghost predicate Rivals(clean: string -> bool, place: string -> bool, m: string, q: string,
                         name: string, prefix: string) {
    clean(m) && place(q) && (m, q) != (name, prefix) && KeyText(m, q) == KeyText(name, prefix)
  }

  /** A bar of the name: what follows it could begin an address. */
  predicate SplitsName(clean: string -> bool, place: string -> bool, name: string, prefix: string, i: nat) {
    i < |name| && name[i] == '|' && clean(name[..i]) && place(name[i + 1..] + "|" + prefix)
  }

  /** A bar of the prefix: what precedes it could belong to a longer name. */
  predicate SplitsPrefix(clean: string -> bool, place: string -> bool, name: string, prefix: string, j: nat) {
    j < |prefix| && prefix[j] == '|' && clean(name + "|" + prefix[..j]) && place(prefix[j + 1..])
  }

  lemma {:induction false} SplitNameRivals(clean: string -> bool, place: string -> bool,
                                           name: string, prefix: string, i: nat)
    requires SplitsName(clean, place, name, prefix, i)
    ensures Rivals(clean, place, name[..i], name[i + 1..] + "|" + prefix, name, prefix)
  {
    SharedKeyExactly(name, prefix, name[..i], name[i + 1..] + "|" + prefix);
  }

  lemma {:induction false} SplitPrefixRivals(clean: string -> bool, place: string -> bool,
                                             name: string, prefix: string, j: nat)
    requires SplitsPrefix(clean, place, name, prefix, j)
    ensures Rivals(clean, place, name + "|" + prefix[..j], prefix[j + 1..], name, prefix)
  {
    var m, q := name + "|" + prefix[..j], prefix[j + 1..];
    assert m[..|name|] == name && m[|name| + 1..] == prefix[..j];
    assert prefix == prefix[..j] + "|" + q;
    SharedKeyExactly(m, q, name, prefix);
  }

  lemma {:induction false} RivalSplits(clean: string -> bool, place: string -> bool, m: string, q: string,
                                       name: string, prefix: string)
    requires Rivals(clean, place, m, q, name, prefix)
    ensures || SplitsName(clean, place, name, prefix, |m|)
            || (|m| > |name| && SplitsPrefix(clean, place, name, prefix, |m| - |name| - 1))
  {
    if |name| >= |m| {
      SharedKeyExactly(name, prefix, m, q);
    } else {
      SharedKeyExactly(m, q, name, prefix);
      var j := |m| - |name| - 1;
      assert prefix[..j] == m[|name| + 1..] && prefix[j] == '|' && prefix[j + 1..] == q;
      assert m == name + "|" + prefix[..j];
    }
  }

  /** A pair can be confused with another exactly when its name has a bar with a
      proper name before it and the rest fit for an address, or its prefix has a
      bar that makes a longer proper name and leaves the rest fit for one. */
  lemma {:induction false} ConfusableExactly(clean: string -> bool, place: string -> bool, name: string, prefix: string)
    ensures (exists m, q :: Rivals(clean, place, m, q, name, prefix))
            <==> || (exists i: nat :: SplitsName(clean, place, name, prefix, i))
                 || (exists j: nat :: SplitsPrefix(clean, place, name, prefix, j))
  {
    if i: nat :| SplitsName(clean, place, name, prefix, i) { SplitNameRivals(clean, place, name, prefix, i); }
    if j: nat :| SplitsPrefix(clean, place, name, prefix, j) { SplitPrefixRivals(clean, place, name, prefix, j); }
    if m, q :| Rivals(clean, place, m, q, name, prefix) { RivalSplits(clean, place, m, q, name, prefix); }
  }

  function Company(name: string, address: string): Lead {
    Lead(name, address, "", "", "", "", None, None, SeenOnMaps)
  }

  /** Two companies that share neither name nor address, of which one is lost. */
  lemma {:induction false} BarLosesACompany(t: Text)
    requires forall s | s in ["a|b", "a", "c", "b|c"] :: t.strip(s) == s && t.lower(s) == s
    ensures Deduped(t, [Company("a|b", "c"), Company("a", "b|c")]) == [Company("a|b", "c")]
  {
    var x, y := Company("a|b", "c"), Company("a", "b|c");
    assert "a|b" in ["a|b", "a", "c", "b|c"] && "a" in ["a|b", "a", "c", "b|c"];
    assert "c" in ["a|b", "a", "c", "b|c"] && "b|c" in ["a|b", "a", "c", "b|c"];
    NamedAll(t, [x]);
    NamedAll(t, [x, y]);
    assert Take("c", ADDRESS_PREFIX) == "c" && Take("b|c", ADDRESS_PREFIX) == "b|c";
    assert "a|b"[2..] + "|" + "c" == "b|c" && "a|b"[..1] == "a";
    SameKeyExactly(t, x, y);
    TwoWithOneKey(ByKey(t), Richer, x, y);
  }

  lemma {:induction false} TwoWithOneKey(key: Lead -> string, le: (Lead, Lead) -> bool, x: Lead, y: Lead)
    requires key(x) == key(y) && le(x, y)
    ensures Collect(key, le, [x, y]) == [x]
  {
    assert [x, y][..1] == [x] && [x][..0] == [];
    assert Collect(key, le, [x]) == [x];
  }

  // ---------------------------------------------------------------- ranking

  function RatingOrZero(l: Lead): real {
    if l.rating.Some? then l.rating.value else 0.0
  }

  function ReviewsOrZero(l: Lead): int {
    if l.reviews.Some? then l.reviews.value else 0
  }

  /** Descending by richness, then rating, then number of reviews. */
  predicate RanksBefore(a: Lead, b: Lead) {
    if Richness(a) != Richness(b) then Richness(a) > Richness(b)
    else if RatingOrZero(a) != RatingOrZero(b) then RatingOrZero(a) > RatingOrZero(b)
    else ReviewsOrZero(a) >= ReviewsOrZero(b)
  }

  method ParseAndRank(t: Text, parsed: seq<Lead>) returns (top: seq<Lead>)
    ensures top == Ranked(t, parsed)
  {
    var kept := Dedupe(t, parsed);
    top := Take(Sort(RanksBefore, kept), TOP_N);
  }

  function Ranked(t: Text, parsed: seq<Lead>): seq<Lead> {
    Take(Sort(RanksBefore, Deduped(t, parsed)), TOP_N)
  }

  /** `a` has more contacts than `b`, or as many and a higher rating, or the same again
      and at least as many reviews; what is unknown counts as zero. */
  ghost predicate NotBehind(a: Lead, b: Lead) {
    var ratingA := if a.rating == None then 0.0 else a.rating.value;
    var ratingB := if b.rating == None then 0.0 else b.rating.value;
    var reviewsA := if a.reviews == None then 0 else a.reviews.value;
    var reviewsB := if b.reviews == None then 0 else b.reviews.value;
    || |Contacts(a)| > |Contacts(b)|
    || (|Contacts(a)| == |Contacts(b)| && (ratingA > ratingB || (ratingA == ratingB && reviewsA >= reviewsB)))
  }

  lemma {:induction false} RanksBeforeIs(a: Lead, b: Lead)
    ensures RanksBefore(a, b) <==> NotBehind(a, b)
  {
    RichnessIs(a);
    RichnessIs(b);
  }

  /** Cutting a sorted list short drops nothing that outranks what stays. */
  lemma {:induction false} TopOutranks(sorted: seq<Lead>, n: nat, kept: Lead, dropped: Lead)
    requires SortedBy(RanksBefore, sorted)
    requires kept in Take(sorted, n) && dropped in sorted && dropped !in Take(sorted, n)
    ensures RanksBefore(kept, dropped)
  {
    var top := Take(sorted, n);
    assert forall k | 0 <= k < |top| :: top[k] == sorted[k];
    var i :| 0 <= i < |top| && top[i] == kept;
    var j :| 0 <= j < |sorted| && sorted[j] == dropped;
    assert i < j;
    assert RanksBefore(sorted[i], sorted[j]);
  }

  lemma {:induction false} TakeKeeps(t: Text, s: seq<Lead>, n: nat)
    requires SortedBy(RanksBefore, s) && OnePerKey(ByKey(t), s)
    ensures SortedBy(RanksBefore, Take(s, n)) && OnePerKey(ByKey(t), Take(s, n))
  {}

  lemma {:induction false} RankIsOrder()
    ensures TotalPreorder(RanksBefore)
  {}

  /** The report gets the best fifteen: sorted, one per key, and nothing that was
      dropped for length outranks anything that was kept. */
  lemma {:induction false} RankedIsTheTop(t: Text, parsed: seq<Lead>)
    ensures |Ranked(t, parsed)| == if |Deduped(t, parsed)| < TOP_N then |Deduped(t, parsed)| else TOP_N
    ensures OnePerKey(ByKey(t), Ranked(t, parsed))
    ensures forall i, j | 0 <= i < j < |Ranked(t, parsed)| :: NotBehind(Ranked(t, parsed)[i], Ranked(t, parsed)[j])
    ensures forall l | l in Ranked(t, parsed) :: l in Deduped(t, parsed)
    ensures forall kept, dropped | kept in Ranked(t, parsed) && dropped in Deduped(t, parsed)
                                   && dropped !in Ranked(t, parsed) :: NotBehind(kept, dropped)
  {
    var all := Deduped(t, parsed);
    var sorted := Sort(RanksBefore, all);
    SortPermutes(RanksBefore, all);
    RankIsOrder();
    SortSorted(RanksBefore, all);
    CollectHoldsBest(ByKey(t), Richer, Named(t, parsed), "");
    PermutedOnePerKey(ByKey(t), all, sorted);
    TakeKeeps(t, sorted, TOP_N);
    forall kept, dropped | kept in Ranked(t, parsed) && dropped in all && dropped !in Ranked(t, parsed)
      ensures NotBehind(kept, dropped)
    {
      TopOutranks(sorted, TOP_N, kept, dropped);
      RanksBeforeIs(kept, dropped);
    }
    forall i, j | 0 <= i < j < |Ranked(t, parsed)| ensures NotBehind(Ranked(t, parsed)[i], Ranked(t, parsed)[j]) {
      RanksBeforeIs(Ranked(t, parsed)[i], Ranked(t, parsed)[j]);
    }
  }

  /** Equally ranked leads keep the order in which they were first seen. */
  lemma {:induction false} RankedKeepsTies(t: Text, parsed: seq<Lead>, l: Lead)
    ensures Ties(RanksBefore, l, Ranked(t, parsed)) <= Ties(RanksBefore, l, Deduped(t, parsed))
  {
    RankIsOrder();
    var sorted := Sort(RanksBefore, Deduped(t, parsed));
    SortStable(RanksBefore, Deduped(t, parsed), l);
    TiesOfPrefix(sorted, Ranked(t, parsed), l);
  }

  lemma {:induction false} TiesOfPrefix(s: seq<Lead>, front: seq<Lead>, l: Lead)
    requires front <= s
    ensures Ties(RanksBefore, l, front) <= Ties(RanksBefore, l, s)
  {
    if front != [] {
      assert front[0] == s[0] && front[1..] <= s[1..];
      TiesOfPrefix(s[1..], front[1..], l);
    }
  }

  // ------------------------------------------------------- names from the web

  /** Python's `part in whole`. */
  predicate Within(part: string, whole: string) {
    exists i :: 0 <= i <= |whole| && At(whole, part, i)
  }

  /** What Python's `in` means of texts, by itself. */
  ghost predicate PartOf(part: string, whole: string) {
    exists front: string, back: string :: front + part + back == whole
  }

  lemma {:induction false} WithinExactly(part: string, whole: string)
    ensures Within(part, whole) <==> PartOf(part, whole)
  {
    if Within(part, whole) {
      var i :| 0 <= i <= |whole| && At(whole, part, i);
      assert whole[..i] + part + whole[i + |part|..] == whole;
    }
    if front: string, back: string :| front + part + back == whole {
      assert (front + part + back)[|front|..|front| + |part|] == part;
      assert At(whole, part, |front|);
    }
  }

  predicate Overlaps(a: string, b: string) {
    Within(a, b) || Within(b, a)
  }

  predicate Known(low: string, have: set<string>) {
    low in have || exists h :: h in have && h != "" && Overlaps(low, h)
  }

  function NamesOf(t: Text, leads: seq<Lead>): set<string> {
    set l | l in leads :: Normal(t, l.name)
  }

  function WebLead(name: string): Lead {
    Lead(name, "", "", "", "", "", None, None, WebCandidate)
  }

  function Appended(t: Text, have: set<string>, names: seq<string>): seq<Lead>
    decreases |names|
  {
    if names == [] then []
    else
      var n := t.strip(names[0]);
      if n == "" || Known(t.lower(n), have) then Appended(t, have, names[1..])
      else [WebLead(n)] + Appended(t, have + {t.lower(n)}, names[1..])
  }

  function Merged(t: Text, leads: seq<Lead>, names: seq<string>): seq<Lead> {
    if names == [] then leads
    else Take(leads + Appended(t, NamesOf(t, leads), names), TOP_N)
  }

  method MergeWebCandidates(t: Text, leads: seq<Lead>, names: seq<string>) returns (merged: seq<Lead>)
    ensures merged == Merged(t, leads, names)
  {
    if names == [] {
      return leads;
    }
    var have := NamesOf(t, leads);
    merged := leads;
    for i := 0 to |names|
      invariant merged + Appended(t, have, names[i..]) == leads + Appended(t, NamesOf(t, leads), names)
    {
      var n := t.strip(names[i]);
      var low := t.lower(n);
      assert names[i..][1..] == names[i + 1..];
      if n != "" && !Known(low, have) {
        assert (merged + [WebLead(n)]) + Appended(t, have + {low}, names[i + 1..])
            == merged + Appended(t, have, names[i..]);
        have := have + {low};
        merged := merged + [WebLead(n)];
      }
    }
    merged := Take(merged, TOP_N);
  }

  ghost predicate StripIdempotent(t: Text) {
    forall s :: t.strip(t.strip(s)) == t.strip(s)
  }

  lemma {:induction false} AppendedStep(t: Text, have: set<string>, names: seq<string>)
    requires names != [] && StripIdempotent(t)
    requires t.strip(names[0]) != "" && !Known(t.lower(t.strip(names[0])), have)
    ensures Appended(t, have, names)[0] == WebLead(t.strip(names[0]))
    ensures Normal(t, Appended(t, have, names)[0].name) == t.lower(t.strip(names[0]))
    ensures Appended(t, have, names)[1..] == Appended(t, have + {t.lower(t.strip(names[0]))}, names[1..])
  {}

  lemma {:induction false} NamesOfCons(t: Text, s: seq<Lead>)
    requires s != []
    ensures NamesOf(t, s) == {Normal(t, s[0].name)} + NamesOf(t, s[1..])
  {
    assert s == [s[0]] + s[1..];
  }

  lemma {:induction false} NamesOfJoin(t: Text, a: seq<Lead>, b: seq<Lead>)
    ensures NamesOf(t, a + b) == NamesOf(t, a) + NamesOf(t, b)
  {}

  /** Whatever is appended is unknown to everything that stands before it. */
  lemma {:induction false} AppendedIsNew(t: Text, have: set<string>, names: seq<string>, i: nat)
    requires StripIdempotent(t) && i < |Appended(t, have, names)|
    ensures Appended(t, have, names)[i] == WebLead(Appended(t, have, names)[i].name)
    ensures Appended(t, have, names)[i].name != ""
    ensures !Known(Normal(t, Appended(t, have, names)[i].name), have + NamesOf(t, Appended(t, have, names)[..i]))
    decreases |names|
  {
    var n, all := t.strip(names[0]), Appended(t, have, names);
    if n == "" || Known(t.lower(n), have) {
      AppendedIsNew(t, have, names[1..], i);
    } else {
      AppendedStep(t, have, names);
      if i == 0 {
        assert have + NamesOf(t, all[..0]) == have;
      } else {
        AppendedIsNew(t, have + {t.lower(n)}, names[1..], i - 1);
        NamesOfCons(t, all[..i]);
        assert all[..i][1..] == all[1..][..i - 1];
        assert have + NamesOf(t, all[..i]) == (have + {t.lower(n)}) + NamesOf(t, all[1..][..i - 1]);
      }
    }
  }

  lemma {:induction false} KnownGrows(low: string, have: set<string>, more: set<string>)
    requires Known(low, have) && have <= more
    ensures Known(low, more)
  {}

  /** Every name is accounted for: blank, or known once the merge is done. */
  lemma {:induction false} AppendedCovers(t: Text, have: set<string>, names: seq<string>, name: string)
    requires StripIdempotent(t) && name in names && t.strip(name) != ""
    ensures Known(Normal(t, name), have + NamesOf(t, Appended(t, have, names)))
    decreases |names|
  {
    var n, all := t.strip(names[0]), Appended(t, have, names);
    assert names == [names[0]] + names[1..];
    if n == "" || Known(t.lower(n), have) {
      if name == names[0] {
        KnownGrows(t.lower(n), have, have + NamesOf(t, all));
      } else {
        AppendedCovers(t, have, names[1..], name);
      }
    } else {
      AppendedStep(t, have, names);
      NamesOfCons(t, all);
      assert have + NamesOf(t, all) == (have + {t.lower(n)}) + NamesOf(t, all[1..]);
      if name != names[0] { AppendedCovers(t, have + {t.lower(n)}, names[1..], name); }
    }
  }

  lemma {:induction false} NothingToAppend(t: Text, have: set<string>, names: seq<string>)
    requires forall name | name in names && t.strip(name) != "" :: Known(Normal(t, name), have)
    ensures Appended(t, have, names) == []
  {
    if names != [] {
      assert names[0] in names;
      NothingToAppend(t, have, names[1..]);
    }
  }

  /** The map leads lead the list, up to fifteen of them, and are not altered. */
  lemma {:induction false} MapLeadsComeFirst(t: Text, leads: seq<Lead>, names: seq<string>)
    ensures Take(leads, TOP_N) <= Merged(t, leads, names)
    ensures names != [] ==> |Merged(t, leads, names)| <= TOP_N
    ensures names == [] ==> Merged(t, leads, names) == leads
  {}

  /** A row taken from the web carries a name and nothing else, and its name
      neither contains nor lies within the name of any row before it. */
  lemma {:induction false} WebRowsAreNew(t: Text, leads: seq<Lead>, names: seq<string>, i: nat, j: nat)
    requires StripIdempotent(t) && |leads| <= i < |Merged(t, leads, names)| && j < i
    ensures var row := Merged(t, leads, names)[i];
            && row.level == WebCandidate && row.name != "" && row.address == "" && Contacts(row) == {}
            && row.rating == None && row.reviews == None
    ensures var added, before := Normal(t, Merged(t, leads, names)[i].name), Normal(t, Merged(t, leads, names)[j].name);
            added != before && (before != "" ==> !PartOf(added, before) && !PartOf(before, added))
  {
    var have := NamesOf(t, leads);
    var added := Appended(t, have, names);
    AppendedIsNew(t, have, names, i - |leads|);
    var before := (leads + added)[j];
    assert Normal(t, before.name) in have + NamesOf(t, added[..i - |leads|]) by {
      if j < |leads| {
        assert before in leads;
      } else {
        assert before == added[..i - |leads|][j - |leads|];
        assert before in added[..i - |leads|];
      }
    }
    var low := Normal(t, Merged(t, leads, names)[i].name);
    WithinExactly(low, Normal(t, before.name));
    WithinExactly(Normal(t, before.name), low);
  }

  lemma {:induction false} NamesAreKnown(t: Text, leads: seq<Lead>, names: seq<string>, name: string)
    requires StripIdempotent(t) && name in names && t.strip(name) != ""
    requires |Merged(t, leads, names)| < TOP_N
    ensures Known(Normal(t, name), NamesOf(t, Merged(t, leads, names)))
  {
    var added := Appended(t, NamesOf(t, leads), names);
    AppendedCovers(t, NamesOf(t, leads), names, name);
    NamesOfJoin(t, leads, added);
  }

  /** No name is lost unless the list is full: each is blank, or contains or lies within
      the name of some row. */
  lemma {:induction false} NamesAreCovered(t: Text, leads: seq<Lead>, names: seq<string>, name: string)
    requires StripIdempotent(t) && name in names && t.strip(name) != ""
    requires |Merged(t, leads, names)| < TOP_N
    ensures exists l | l in Merged(t, leads, names) ::
              PartOf(Normal(t, name), Normal(t, l.name)) || PartOf(Normal(t, l.name), Normal(t, name))
  {
    var low, merged := Normal(t, name), Merged(t, leads, names);
    NamesAreKnown(t, leads, names, name);
    if low in NamesOf(t, merged) {
      var l :| l in merged && Normal(t, l.name) == low;
      assert [] + low + [] == low;
    } else {
      var h :| h in NamesOf(t, merged) && h != "" && Overlaps(low, h);
      var l :| l in merged && Normal(t, l.name) == h;
      WithinExactly(low, h);
      WithinExactly(h, low);
    }
  }

  /** Merging the same names again changes nothing, cut-off included. */
  lemma {:induction false} MergeTwice(t: Text, leads: seq<Lead>, names: seq<string>)
    requires StripIdempotent(t)
    ensures Merged(t, Merged(t, leads, names), names) == Merged(t, leads, names)
  {
    var once := Merged(t, leads, names);
    if names != [] && |once| < TOP_N {
      forall name | name in names && t.strip(name) != ""
        ensures Known(Normal(t, name), NamesOf(t, once))
      {
        NamesAreKnown(t, leads, names, name);
      }
      NothingToAppend(t, NamesOf(t, once), names);
    }
  }
}
