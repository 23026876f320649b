/** Segment selection: the postal codes with enough claims, the two most
    frequent of them, the groups and test samples they define, the gender
    groups, and the per-province claim aggregates. */
module Segments {
  import opened Frame
  import opened Cleaning

  /** A postal code needs this many claim rows to be compared. */
  const ZipClaimFloor: nat := 20
  /** Both genders need this many claims for the frequency test... */
  const GenderFrequencyFloor: nat := 50
  /** ...and this many for the severity test. */
  const GenderSeverityFloor: nat := 10

  lemma DistinctCons(x: Key, t: seq<Key>)
    ensures Distinct([x] + t) <==> x !in t && Distinct(t)
  {
    var s := [x] + t;
    if x !in t && Distinct(t) {
      forall i, j | 0 <= i < j < |s| ensures s[i] != s[j] {
        if i > 0 {
          assert s[i] == t[i - 1] && s[j] == t[j - 1];
        } else {
          assert s[j] in t;
        }
      }
    }
    if Distinct(s) {
      forall i, j | 0 <= i < j < |t| ensures t[i] != t[j] {
        assert t[i] == s[i + 1] && t[j] == s[j + 1];
      }
      forall j | 0 <= j < |t| ensures t[j] != x {
        assert t[j] == s[j + 1] && x == s[0];
      }
    }
  }

  /** A repetition-free sequence has as many elements as its set. */
  lemma {:induction false} DistinctCard(s: seq<Key>)
    requires Distinct(s)
    ensures |set k | k in s| == |s|
  {
    if s != [] {
      DistinctCons(s[0], s[1..]);
      assert s == [s[0]] + s[1..];
      DistinctCard(s[1..]);
      assert (set k | k in s) == {s[0]} + (set k | k in s[1..]);
    }
  }

  /** Two repetition-free sequences with the same elements have the same length. */
  lemma SameElementsSameLength(s: seq<Key>, t: seq<Key>)
    requires Distinct(s) && Distinct(t)
    requires forall k :: k in s <==> k in t
    ensures |s| == |t|
  {
    DistinctCard(s);
    DistinctCard(t);
    assert (set k | k in s) == (set k | k in t);
  }

  /** The rows with a claim (`df[df['HasClaim']]`). */
  function ClaimRows(rows: seq<Record>): seq<Record> {
    Select(rows, HasClaim, Flag(true))
  }

  /** Claim rows carrying postal code `k` (one entry of `zip_claims`). */
  function ZipClaims(rows: seq<Record>, k: Key): nat {
    |Select(ClaimRows(rows), PostalCode, k)|
  }

  /** The codes of `ks` with at least `ZipClaimFloor` claim rows. */
  function Frequent(claims: seq<Record>, ks: seq<Key>): (v: seq<Key>)
    ensures forall k :: k in v <==> k in ks && |Select(claims, PostalCode, k)| >= ZipClaimFloor
    ensures Distinct(ks) ==> Distinct(v)
  {
    if ks == [] then []
    else
      var rest := Frequent(claims, ks[1..]);
      assert ks == [ks[0]] + ks[1..];
      DistinctCons(ks[0], ks[1..]);
      if |Select(claims, PostalCode, ks[0])| >= ZipClaimFloor then
        DistinctCons(ks[0], rest);
        [ks[0]] + rest
      else rest
  }

  /** Lines 31-32: `valid_zips`, the postal codes with at least 20 claim rows. */
  function ValidZips(rows: seq<Record>): (v: seq<Key>)
    ensures Distinct(v)
    ensures forall k :: k in v <==> ZipClaims(rows, k) >= ZipClaimFloor
  {
    Frequent(ClaimRows(rows), Keys(ClaimRows(rows), PostalCode))
  }

  /** The rows carrying postal code `k` (`df[df['PostalCode'] == k]`). */
  function Group(rows: seq<Record>, k: Key): seq<Record> {
    Select(rows, PostalCode, k)
  }

  /** Restricting to rows whose code is in `cs` keeps every group of a code in `cs` whole. */
  lemma {:induction false} SelectWithin(rows: seq<Record>, cs: seq<Key>, k: Key)
    requires k in cs
    ensures Select(Select(rows, PostalIn(cs), Flag(true)), PostalCode, k) == Group(rows, k)
  {
    if rows != [] {
      SelectWithin(rows[1..], cs, k);
    }
  }

  /** The rows whose code is in a list of distinct codes number the sum of those codes' groups. */
  lemma InListCount(rows: seq<Record>, cs: seq<Key>)
    requires Distinct(cs)
    ensures |Select(rows, PostalIn(cs), Flag(true))| == SumNat(Counts(rows, PostalCode, cs))
  {
    var sub := Select(rows, PostalIn(cs), Flag(true));
    CountsPartition(sub, PostalCode, cs);
    forall i | 0 <= i < |cs| ensures Counts(sub, PostalCode, cs)[i] == Counts(rows, PostalCode, cs)[i] {
      SelectWithin(rows, cs, cs[i]);
    }
    assert Counts(sub, PostalCode, cs) == Counts(rows, PostalCode, cs);
  }

  /** Line 37, the rows ranked by `value_counts`: those whose code is valid. */
  function Ranked(rows: seq<Record>): seq<Record> {
    Select(rows, PostalIn(ValidZips(rows)), Flag(true))
  }

  /** The valid codes in order of first occurrence among the ranked rows. */
  function Candidates(rows: seq<Record>): (cs: seq<Key>)
    ensures Distinct(cs)
    ensures forall k :: k in cs <==> k in ValidZips(rows)
    ensures |cs| == |ValidZips(rows)|
  {
    var v := ValidZips(rows);
    var cs := Keys(Ranked(rows), PostalCode);
    forall k ensures k in cs <==> k in v {
      if k in v {
        var r := Select(ClaimRows(rows), PostalCode, k)[0];
        assert r in Select(ClaimRows(rows), PostalCode, k);
        assert r in Select(Ranked(rows), PostalCode, k);
      }
      if k in cs {
        var r := Select(Ranked(rows), PostalCode, k)[0];
        assert r in Select(Ranked(rows), PostalCode, k);
      }
    }
    SameElementsSameLength(cs, v);
    cs
  }

  /** `value_counts` of one valid code over the ranked rows. */
  function RankCount(rows: seq<Record>, k: Key): nat {
    |Select(Ranked(rows), PostalCode, k)|
  }

  /** A valid code is ranked by the size of its whole group. */
  lemma RankCountIsGroupSize(rows: seq<Record>, k: Key)
    requires k in ValidZips(rows)
    ensures RankCount(rows, k) == |Group(rows, k)|
  {
    SelectWithin(rows, ValidZips(rows), k);
  }

  /** Position of the largest count; ties go to the earlier position. */
  function BestIndex(ns: seq<nat>): (i: nat)
    requires |ns| > 0
    ensures i < |ns|
    ensures forall j :: 0 <= j < |ns| ==> ns[j] <= ns[i]
    ensures forall j :: 0 <= j < i ==> ns[j] < ns[i]
  {
    if |ns| == 1 then 0
    else
      var n := |ns| - 1;
      var i := BestIndex(ns[..n]);
      assert forall j :: 0 <= j < n ==> ns[..n][j] == ns[j];
      if ns[n] > ns[i] then n else i
  }

  /** `cs` without its `i`-th element. */
  function RemoveAt(cs: seq<Key>, i: nat): (r: seq<Key>)
    requires Distinct(cs) && i < |cs|
    ensures |r| == |cs| - 1
    ensures Distinct(r)
    ensures forall k :: k in r <==> k in cs && k != cs[i]
  {
    var r := cs[..i] + cs[i + 1..];
    forall m | 0 <= m < |r| ensures r[m] == (if m < i then cs[m] else cs[m + 1]) {
    }
    forall k | k in cs && k != cs[i] ensures k in r {
      var m :| 0 <= m < |cs| && cs[m] == k;
      if m < i { assert r[m] == k; } else { assert r[m - 1] == k; }
    }
    r
  }

  /** The outcome of the postal-code selection of lines 33-39. */
  datatype ZipPair = TooFewZips | Pair(a: Key, b: Key)

  /** Lines 33 and 37: give up below two valid codes, otherwise take the two
      codes with most rows, ties going to the code that occurs first. */
  function TopTwo(rows: seq<Record>): (sel: ZipPair)
    ensures sel.TooFewZips? <==> |ValidZips(rows)| < 2
    ensures sel.Pair? ==> sel.a != sel.b && sel.a in ValidZips(rows) && sel.b in ValidZips(rows)
    ensures sel.Pair? ==> forall k :: k in ValidZips(rows) ==> |Group(rows, k)| <= |Group(rows, sel.a)|
    ensures sel.Pair? ==> forall k :: k in ValidZips(rows) && k != sel.a ==> |Group(rows, k)| <= |Group(rows, sel.b)|
  {
    var v := ValidZips(rows);
    if |v| < 2 then TooFewZips
    else
      var cs := Candidates(rows);
      var i := BestIndex(Counts(Ranked(rows), PostalCode, cs));
      var rest := RemoveAt(cs, i);
      var j := BestIndex(Counts(Ranked(rows), PostalCode, rest));
      PickIsMaximal(rows, cs, i);
      PickIsMaximal(rows, rest, j);
      Pair(cs[i], rest[j])
  }

  /** A code picked for the largest value count among valid codes has a group
      at least as large as every other code of the list. */
  lemma PickIsMaximal(rows: seq<Record>, cs: seq<Key>, i: nat)
    requires i < |cs|
    requires forall k :: k in cs ==> k in ValidZips(rows)
    requires forall m :: 0 <= m < |cs| ==>
      Counts(Ranked(rows), PostalCode, cs)[m] <= Counts(Ranked(rows), PostalCode, cs)[i]
    ensures forall k :: k in cs ==> |Group(rows, k)| <= |Group(rows, cs[i])|
  {
    var ns := Counts(Ranked(rows), PostalCode, cs);
    RankCountIsGroupSize(rows, cs[i]);
    forall k | k in cs ensures |Group(rows, k)| <= |Group(rows, cs[i])| {
      var m :| 0 <= m < |cs| && cs[m] == k;
      RankCountIsGroupSize(rows, k);
      assert ns[m] <= ns[i];
    }
  }

  /** With fewer rows than the claim floor no postal code qualifies, so the
      postal-code comparison is never made. */
  lemma SmallDatasetHasNoPair(rows: seq<Record>)
    requires |rows| < ZipClaimFloor
    ensures ValidZips(rows) == []
    ensures TopTwo(rows).TooFewZips?
  {
    forall k ensures ZipClaims(rows, k) < ZipClaimFloor {
      assert |Select(ClaimRows(rows), PostalCode, k)| <= |ClaimRows(rows)| <= |rows|;
    }
    SameElementsSameLength(ValidZips(rows), []);
  }

  /** The claim amounts of the rows, in order. */
  function Amounts(rows: seq<Record>): seq<real> {
    seq(|rows|, i requires 0 <= i < |rows| => rows[i].totalClaims)
  }

  /** The margins of the rows, in order. */
  function Margins(rows: seq<Record>): seq<real> {
    seq(|rows|, i requires 0 <= i < |rows| => rows[i].margin)
  }

  /** Lines 48-49 and 80-81: the claim amounts of a group's claim rows. */
  function Severity(group: seq<Record>): seq<real> {
    Amounts(ClaimRows(group))
  }

  /** A severity sample has one positive amount per claim row of its group. */
  lemma SeveritySample(group: seq<Record>)
    requires forall r :: r in group ==> Derived(r)
    ensures |Severity(group)| == |ClaimRows(group)|
    ensures forall x :: x in Severity(group) ==> x > 0.0
  {
    var c := ClaimRows(group);
    forall x | x in Severity(group) ensures x > 0.0 {
      var i :| 0 <= i < |c| && Severity(group)[i] == x;
      assert c[i] in c;
    }
  }

  /** Both postal-code severity samples hold at least 20 positive amounts, and
      both groups are non-empty, whenever a pair was selected. */
  lemma ZipSamples(rows: seq<Record>)
    requires forall r :: r in rows ==> Derived(r)
    requires TopTwo(rows).Pair?
    ensures var p := TopTwo(rows);
      |Severity(Group(rows, p.a))| >= ZipClaimFloor && |Severity(Group(rows, p.b))| >= ZipClaimFloor
      && (forall x :: x in Severity(Group(rows, p.a)) ==> x > 0.0)
      && (forall x :: x in Severity(Group(rows, p.b)) ==> x > 0.0)
      && |Group(rows, p.a)| > 0 && |Group(rows, p.b)| > 0
  {
    var p := TopTwo(rows);
    SeveritySample(Group(rows, p.a));
    SeveritySample(Group(rows, p.b));
    SelectCommute(rows, PostalCode, p.a, HasClaim, Flag(true));
    SelectCommute(rows, PostalCode, p.b, HasClaim, Flag(true));
    PairGroupsNonEmpty(rows);
  }

  /** A table whose rows split on membership in a list of distinct codes:
      its "member" row sums to the sizes of those codes' groups together. */
  lemma PostalInTable(rows: seq<Record>, cs: seq<Key>, colCol: Column)
    requires Distinct(cs) && cs != [] && |Group(rows, cs[0])| > 0
    ensures var t := CrossTab(rows, PostalIn(cs), colCol);
      Flag(true) in t.rowKeys
      && (forall i :: 0 <= i < |t.rowKeys| && t.rowKeys[i] == Flag(true) ==>
            SumNat(t.cells[i]) == SumNat(Counts(rows, PostalCode, cs)))
      && Total(t.cells) == |rows|
  {
    CrossTabSums(rows, PostalIn(cs), colCol);
    InListCount(rows, cs);
    var c := Counts(rows, PostalCode, cs);
    assert SumNat(c) >= c[0];
  }

  lemma OneCodeTable(rows: seq<Record>, a: Key, colCol: Column)
    requires |Group(rows, a)| > 0
    ensures var t := CrossTab(rows, PostalIn([a]), colCol);
      Flag(true) in t.rowKeys
      && (forall i :: 0 <= i < |t.rowKeys| && t.rowKeys[i] == Flag(true) ==>
            SumNat(t.cells[i]) == |Group(rows, a)|)
      && Total(t.cells) == |rows|
  {
    PostalInTable(rows, [a], colCol);
    assert SumNat(Counts(rows, PostalCode, [a])) == |Group(rows, a)|;
  }

  lemma TwoCodeTable(rows: seq<Record>, a: Key, b: Key, colCol: Column)
    requires a != b && |Group(rows, a)| > 0
    ensures var t := CrossTab(rows, PostalIn([a, b]), colCol);
      Flag(true) in t.rowKeys
      && (forall i :: 0 <= i < |t.rowKeys| && t.rowKeys[i] == Flag(true) ==>
            SumNat(t.cells[i]) == |Group(rows, a)| + |Group(rows, b)|)
      && Total(t.cells) == |rows|
  {
    DistinctCons(a, [b]);
    var c := Counts(rows, PostalCode, [a, b]);
    assert c == [|Group(rows, a)|, |Group(rows, b)|];
    assert SumNat(c) == c[0] + SumNat(c[1..]);
    assert SumNat(c[1..]) == c[1] + SumNat([]);
    PostalInTable(rows, [a, b], colCol);
  }

  /** Every selected code has rows. */
  lemma PairGroupsNonEmpty(rows: seq<Record>)
    requires TopTwo(rows).Pair?
    ensures |Group(rows, TopTwo(rows).a)| > 0 && |Group(rows, TopTwo(rows).b)| > 0
  {
    var p := TopTwo(rows);
    SelectCommute(rows, PostalCode, p.a, HasClaim, Flag(true));
    SelectCommute(rows, PostalCode, p.b, HasClaim, Flag(true));
  }

  /** Line 46: the frequency table compares the rows in either selected code
      against all other rows. Its "in the pair" row sums to the two group sizes
      and the whole table to the number of rows. */
  lemma ZipFrequencyTable(rows: seq<Record>, a: Key, b: Key)
    requires TopTwo(rows) == Pair(a, b)
    ensures var t := CrossTab(rows, PostalIn([a, b]), HasClaim);
      Flag(true) in t.rowKeys
      && (forall i :: 0 <= i < |t.rowKeys| && t.rowKeys[i] == Flag(true) ==>
            SumNat(t.cells[i]) == |Group(rows, a)| + |Group(rows, b)|)
      && Total(t.cells) == |rows|
  {
    PairGroupsNonEmpty(rows);
    TwoCodeTable(rows, a, b, HasClaim);
  }

  /** Line 44: the comparability table sets the first selected code against
      every other row; its "first code" row sums to that code's group size. */
  lemma VehicleTable(rows: seq<Record>, a: Key, b: Key)
    requires TopTwo(rows) == Pair(a, b)
    ensures var t := CrossTab(rows, PostalIn([a]), VehicleType);
      Flag(true) in t.rowKeys
      && (forall i :: 0 <= i < |t.rowKeys| && t.rowKeys[i] == Flag(true) ==>
            SumNat(t.cells[i]) == |Group(rows, a)|)
      && Total(t.cells) == |rows|
  {
    PairGroupsNonEmpty(rows);
    OneCodeTable(rows, a, VehicleType);
  }

  /** Line 64: the rows whose gender is "Male" or "Female" (`df_gender`). */
  function KnownGender(rows: seq<Record>): seq<Record> {
    Select(rows, GenderIn(["Male", "Female"]), Flag(true))
  }

  /** Lines 65-66: the rows of one gender. */
  function GenderGroup(rows: seq<Record>, g: string): seq<Record> {
    Select(KnownGender(rows), GenderIn([g]), Flag(true))
  }

  /** `male['HasClaim'].sum()` and its female counterpart. */
  function GenderClaims(rows: seq<Record>, g: string): nat {
    |ClaimRows(GenderGroup(rows, g))|
  }

  /** A gender group holds exactly the rows whose gender is that text. */
  lemma {:induction false} GenderGroupRows(rows: seq<Record>, g: string)
    requires g == "Male" || g == "Female"
    ensures forall r :: r in GenderGroup(rows, g) <==> r in rows && r.gender == Text(g)
    ensures GenderClaims(rows, g) == Matching(rows, GenderIn([g]), Flag(true), HasClaim, Flag(true))
  {
    if rows != [] {
      GenderGroupRows(rows[1..], g);
      assert forall r :: r in rows <==> r == rows[0] || r in rows[1..];
    }
  }

  /** Line 72: gate of the gender frequency test. */
  predicate GenderFrequencyTestable(rows: seq<Record>) {
    GenderClaims(rows, "Male") >= GenderFrequencyFloor && GenderClaims(rows, "Female") >= GenderFrequencyFloor
  }

  /** Line 79: gate of the gender severity test. */
  predicate GenderSeverityTestable(rows: seq<Record>) {
    GenderClaims(rows, "Male") >= GenderSeverityFloor && GenderClaims(rows, "Female") >= GenderSeverityFloor
  }

  /** Line 73: the gender frequency table sets known-gender rows against the
      rest; its "known" row sums to the two gender groups together. */
  lemma {:induction false} KnownGenderSplit(rows: seq<Record>)
    ensures |KnownGender(rows)| == |GenderGroup(rows, "Male")| + |GenderGroup(rows, "Female")|
  {
    if rows != [] {
      KnownGenderSplit(rows[1..]);
    }
  }

  lemma GenderFrequencyTable(rows: seq<Record>)
    ensures var t := CrossTab(rows, GenderIn(["Male", "Female"]), HasClaim);
      (forall i :: 0 <= i < |t.rowKeys| && t.rowKeys[i] == Flag(true) ==>
         SumNat(t.cells[i]) == |GenderGroup(rows, "Male")| + |GenderGroup(rows, "Female")|)
      && Total(t.cells) == |rows|
  {
    CrossTabSums(rows, GenderIn(["Male", "Female"]), HasClaim);
    KnownGenderSplit(rows);
  }

  /** Line 25 with the mean left as its two exact parts: per province with a
      claim, the number of claim rows and the sum of their amounts. */
  datatype ProvinceClaims = ProvinceClaims(province: Key, claims: nat, amount: real)

  function SumReal(xs: seq<real>): real {
    if xs == [] then 0.0 else xs[0] + SumReal(xs[1..])
  }

  /** One entry per label of `ks`: its claim rows and their summed amount. */
  function Aggregate(claims: seq<Record>, ks: seq<Key>): (ps: seq<ProvinceClaims>)
    ensures |ps| == |ks|
    ensures forall i :: 0 <= i < |ks| ==>
      && ps[i].province == ks[i]
      && ps[i].claims == |Select(claims, Province, ks[i])|
      && ps[i].amount == SumReal(Amounts(Select(claims, Province, ks[i])))
  {
    if ks == [] then []
    else
      var g := Select(claims, Province, ks[0]);
      [ProvinceClaims(ks[0], |g|, SumReal(Amounts(g)))] + Aggregate(claims, ks[1..])
  }

  /** Line 25: the claim rows grouped by province. */
  function ProvinceSeverity(rows: seq<Record>): seq<ProvinceClaims> {
    Aggregate(ClaimRows(rows), Keys(ClaimRows(rows), Province))
  }

  function SumClaims(ps: seq<ProvinceClaims>): nat {
    if ps == [] then 0 else ps[0].claims + SumClaims(ps[1..])
  }

  lemma {:induction false} PositiveSum(xs: seq<real>)
    requires xs != []
    requires forall x :: x in xs ==> x > 0.0
    ensures SumReal(xs) > 0.0
  {
    assert xs[0] in xs;
    if |xs| > 1 {
      assert xs[1] in xs;
      assert forall x :: x in xs[1..] ==> x in xs;
      PositiveSum(xs[1..]);
    }
  }

  lemma {:induction false} AggregateFacts(claims: seq<Record>, ks: seq<Key>)
    requires forall r :: r in claims ==> r.hasClaim && Derived(r)
    requires forall k :: k in ks ==> |Select(claims, Province, k)| > 0
    ensures SumClaims(Aggregate(claims, ks)) == SumNat(Counts(claims, Province, ks))
    ensures forall p :: p in Aggregate(claims, ks) ==> p.claims > 0 && p.amount > 0.0
  {
    if ks != [] {
      AggregateFacts(claims, ks[1..]);
      var g := Select(claims, Province, ks[0]);
      forall x | x in Amounts(g) ensures x > 0.0 {
        var i :| 0 <= i < |g| && Amounts(g)[i] == x;
        assert g[i] in g;
      }
      PositiveSum(Amounts(g));
    }
  }

  /** The claim amount of the rows that carry province `k` and have a claim,
      summed row by row: the reference meaning of an aggregate's sum. */
  function ClaimAmount(rows: seq<Record>, k: Key): real {
    if rows == [] then 0.0
    else (if rows[0].hasClaim && KeyOf(rows[0], Province) == k then rows[0].totalClaims else 0.0)
         + ClaimAmount(rows[1..], k)
  }

  lemma AmountsCons(r: Record, tail: seq<Record>)
    ensures SumReal(Amounts([r] + tail)) == r.totalClaims + SumReal(Amounts(tail))
  {
    assert Amounts([r] + tail) == [r.totalClaims] + Amounts(tail);
    assert ([r.totalClaims] + Amounts(tail))[1..] == Amounts(tail);
  }

  lemma {:induction false} SelectedAmount(rows: seq<Record>, k: Key)
    ensures SumReal(Amounts(Select(ClaimRows(rows), Province, k))) == ClaimAmount(rows, k)
  {
    if rows != [] {
      SelectedAmount(rows[1..], k);
      var r := rows[0];
      var tail := Select(ClaimRows(rows[1..]), Province, k);
      if r.hasClaim && KeyOf(r, Province) == k {
        assert Select(ClaimRows(rows), Province, k) == [r] + tail;
        AmountsCons(r, tail);
      } else if r.hasClaim {
        assert Select(ClaimRows(rows), Province, k) == tail;
      }
    }
  }

  /** Each entry holds the number of claim rows of its province and the sum
      of their amounts. */
  lemma ProvinceEntries(rows: seq<Record>)
    ensures forall p :: p in ProvinceSeverity(rows) ==>
      p.claims == Matching(rows, HasClaim, Flag(true), Province, p.province)
      && p.amount == ClaimAmount(rows, p.province)
  {
    var ps := ProvinceSeverity(rows);
    forall p | p in ps
      ensures p.claims == Matching(rows, HasClaim, Flag(true), Province, p.province)
      ensures p.amount == ClaimAmount(rows, p.province)
    {
      var i :| 0 <= i < |ps| && ps[i] == p;
      SelectTwice(rows, HasClaim, Flag(true), Province, p.province);
      SelectedAmount(rows, p.province);
    }
  }

  /** Every listed province has at least one claim and a positive claim sum,
      the provinces are distinct, each entry holds the number of claim rows of
      its province and the sum of their amounts, and the claim counts add up
      to all claims. */
  lemma ProvinceSeveritySpec(rows: seq<Record>)
    requires forall r :: r in rows ==> Derived(r)
    ensures var ps := ProvinceSeverity(rows);
      (forall i, j :: 0 <= i < j < |ps| ==> ps[i].province != ps[j].province)
      && (forall p :: p in ps ==> p.claims > 0 && p.amount > 0.0)
      && (forall p :: p in ps ==>
            p.claims == Matching(rows, HasClaim, Flag(true), Province, p.province)
            && p.amount == ClaimAmount(rows, p.province))
      && SumClaims(ps) == |ClaimRows(rows)|
  {
    var claims := ClaimRows(rows);
    var ks := Keys(claims, Province);
    AggregateFacts(claims, ks);
    forall r | r in claims ensures KeyOf(r, Province) in ks {
      assert r in Select(claims, Province, KeyOf(r, Province));
    }
    CountsPartition(claims, Province, ks);
    ProvinceEntries(rows);
  }
}
