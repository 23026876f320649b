/** Field normalisation of the four text columns and derivation of the claim
    flag and the margin, both done in place over the loaded rows. */
module Cleaning {
  import opened Frame

  /** The characters Python's `str.strip()` removes (`str.isspace`). */
  predicate IsSpace(c: char) {
    c == ' ' || c == '\t' || c == '\n' || c == '\r' || c == '\U{000B}' || c == '\U{000C}'
    || ('\U{001C}' <= c <= '\U{001F}') || c == '\U{0085}' || c == '\U{00A0}' || c == '\U{1680}'
    || ('\U{2000}' <= c <= '\U{200A}') || c == '\U{2028}' || c == '\U{2029}'
    || c == '\U{202F}' || c == '\U{205F}' || c == '\U{3000}'
  }

  /** `s` with its leading whitespace removed. */
  function TrimStart(s: string): (t: string)
    ensures |t| <= |s| && t == s[|s| - |t|..]
    ensures t == [] || !IsSpace(t[0])
    ensures forall i :: 0 <= i < |s| - |t| ==> IsSpace(s[i])
  {
    if s != [] && IsSpace(s[0]) then TrimStart(s[1..]) else s
  }

  /** `s` with its trailing whitespace removed. */
  function TrimEnd(s: string): (t: string)
    ensures |t| <= |s| && t == s[..|t|]
    ensures t == [] || !IsSpace(t[|t| - 1])
    ensures forall i :: |t| <= i < |s| ==> IsSpace(s[i])
  {
    if s != [] && IsSpace(s[|s| - 1]) then TrimEnd(s[..|s| - 1]) else s
  }

  /** Python's `str.strip()`. */
  function Strip(s: string): string {
    TrimEnd(TrimStart(s))
  }

  predicate IsStripped(s: string) {
    s == [] || (!IsSpace(s[0]) && !IsSpace(s[|s| - 1]))
  }

  /** `t` is `s` with `i` whitespace characters cut from the front and only
      whitespace cut from the back. */
  predicate CutFrom(s: string, t: string, i: nat) {
    i + |t| <= |s| && t == s[i..i + |t|]
    && (forall j :: 0 <= j < i ==> IsSpace(s[j]))
    && (forall j :: i + |t| <= j < |s| ==> IsSpace(s[j]))
  }

  /** Stripping keeps a contiguous piece of `s`, removes only whitespace, and
      leaves no whitespace at either end. */
  lemma StripSpec(s: string)
    ensures IsStripped(Strip(s))
    ensures exists i :: CutFrom(s, Strip(s), i)
  {
    StripIsStripped(s);
    var u := TrimStart(s);
    CutFromParts(s, u, TrimEnd(u), |s| - |u|);
  }

  lemma CutFromParts(s: string, u: string, t: string, i: nat)
    requires i <= |s| && u == s[i..]
    requires forall j :: 0 <= j < i ==> IsSpace(s[j])
    requires |t| <= |u| && t == u[..|t|]
    requires forall j :: |t| <= j < |u| ==> IsSpace(u[j])
    ensures CutFrom(s, t, i)
  {
    forall j | i + |t| <= j < |s| ensures IsSpace(s[j]) {
      assert s[j] == u[j - i];
    }
  }

  lemma StripIsStripped(s: string)
    ensures IsStripped(Strip(s))
  {
    var u := TrimStart(s);
    var t := TrimEnd(u);
    if t != [] {
      assert t[0] == u[0];
    }
  }

  /** A stripped string is its own strip; in particular `Strip` is idempotent. */
  lemma StrippedFixed(s: string)
    ensures IsStripped(s) <==> Strip(s) == s
  {
    StripSpec(s);
  }

  lemma StripIdempotent(s: string)
    ensures Strip(Strip(s)) == Strip(s)
  {
    StripSpec(s);
    StrippedFixed(Strip(s));
  }

  /** `astype(str).str.strip()`: a missing postal code becomes the text "nan". */
  function NormalizePostal(c: Cell): (r: Cell)
    ensures r.Text? && IsStripped(r.s)
    ensures c.Missing? ==> r.s == "nan"
    ensures c.Text? ==> r.s == Strip(c.s)
  {
    StripIsStripped(if c.Text? then c.s else "");
    match c
    case Missing => Text("nan")
    case Text(s) => Text(Strip(s))
  }

  /** `str.strip().replace({'Not specified': nan, '': nan})`. */
  function NormalizeGender(c: Cell): (r: Cell)
    ensures r.Text? ==>
      c.Text? && r.s == Strip(c.s) && IsStripped(r.s) && r.s != "Not specified" && r.s != ""
    ensures r.Missing? <==> c.Missing? || Strip(c.s) == "Not specified" || Strip(c.s) == ""
  {
    StripIsStripped(if c.Text? then c.s else "");
    match c
    case Missing => Missing
    case Text(s) =>
      var t := Strip(s);
      if t == "Not specified" || t == "" then Missing else Text(t)
  }

  /** `str.strip().fillna('Unknown')`: only a missing value becomes "Unknown";
      a blank string strips to the empty string and stays. */
  function NormalizeCategory(c: Cell): (r: Cell)
    ensures r.Text? && IsStripped(r.s)
    ensures c.Missing? ==> r.s == "Unknown"
    ensures c.Text? ==> r.s == Strip(c.s)
  {
    StripIsStripped(if c.Text? then c.s else "");
    match c
    case Missing => Text("Unknown")
    case Text(s) => Text(Strip(s))
  }

  /** The four text columns the cleaning step rewrites. */
  datatype TextField = PostalField | GenderField | VehicleField | ProvinceField

  /** One cleaning statement: rewrite one column of one row. */
  function NormalizeField(r: Record, f: TextField): Record {
    match f
    case PostalField => r.(postalCode := NormalizePostal(r.postalCode))
    case GenderField => r.(gender := NormalizeGender(r.gender))
    case VehicleField => r.(vehicleType := NormalizeCategory(r.vehicleType))
    case ProvinceField => r.(province := NormalizeCategory(r.province))
  }

  /** The four cleaning statements, in source order. */
  function NormalizeRecord(r: Record): Record {
    NormalizeField(NormalizeField(NormalizeField(NormalizeField(r, PostalField), GenderField), VehicleField), ProvinceField)
  }

  /** What a cleaned row looks like, stated independently of the cleaning code. */
  predicate Normalized(r: Record) {
    && r.postalCode.Text? && IsStripped(r.postalCode.s)
    && (r.gender.Text? ==> IsStripped(r.gender.s) && r.gender.s != "Not specified" && r.gender.s != "")
    && r.vehicleType.Text? && IsStripped(r.vehicleType.s)
    && r.province.Text? && IsStripped(r.province.s)
  }

  /** Cleaning yields a normalised row, changes nothing else, and leaves exactly
      the normalised rows unchanged; hence cleaning twice equals cleaning once. */
  lemma NormalizeRecordSpec(r: Record)
    ensures Normalized(NormalizeRecord(r))
    ensures Normalized(r) <==> NormalizeRecord(r) == r
    ensures NormalizeRecord(NormalizeRecord(r)) == NormalizeRecord(r)
    ensures var n := NormalizeRecord(r);
      n.totalPremium == r.totalPremium && n.totalClaims == r.totalClaims
      && n.hasClaim == r.hasClaim && n.margin == r.margin
  {
    if Normalized(r) {
      StrippedFixed(r.postalCode.s);
      StrippedFixed(r.vehicleType.s);
      StrippedFixed(r.province.s);
      if r.gender.Text? {
        StrippedFixed(r.gender.s);
      }
    }
    var n := NormalizeRecord(r);
    StrippedFixed(n.postalCode.s);
    StrippedFixed(n.vehicleType.s);
    StrippedFixed(n.province.s);
    if n.gender.Text? {
      StrippedFixed(n.gender.s);
    }
  }

  /** `HasClaim = TotalClaims > 0` and `Margin = TotalPremium - TotalClaims`. */
  function Derive(r: Record): Record {
    r.(hasClaim := r.totalClaims > 0.0, margin := r.totalPremium - r.totalClaims)
  }

  predicate Derived(r: Record) {
    r.hasClaim == (r.totalClaims > 0.0) && r.margin == r.totalPremium - r.totalClaims
  }

  /** Derivation only writes the two derived columns, and its result is fully
      determined by the raw premium and claims. */
  lemma DeriveSpec(r: Record, r': Record)
    requires r.totalPremium == r'.totalPremium && r.totalClaims == r'.totalClaims
    ensures Derived(Derive(r))
    ensures Derived(r) <==> Derive(r) == r
    ensures Derive(r).(hasClaim := r'.hasClaim, margin := r'.margin) == r.(hasClaim := r'.hasClaim, margin := r'.margin)
    ensures Derive(r).hasClaim == Derive(r').hasClaim && Derive(r).margin == Derive(r').margin
  {
  }

  /** Normalisation does not touch the numeric columns, so derived rows stay derived. */
  lemma NormalizeKeepsDerived(r: Record)
    ensures Derived(r) ==> Derived(NormalizeRecord(r))
  {
    NormalizeRecordSpec(r);
  }

  /** A vectorised column assignment: every row is replaced by `g` of itself. */
  method UpdateRows(a: array<Record>, g: Record -> Record)
    modifies a
    ensures forall i :: 0 <= i < a.Length ==> a[i] == g(old(a[i]))
  {
    var i := 0;
    while i < a.Length
      invariant 0 <= i <= a.Length
      invariant forall j :: 0 <= j < i ==> a[j] == g(old(a[j]))
      invariant forall j :: i <= j < a.Length ==> a[j] == old(a[j])
    {
      a[i] := g(a[i]);
      i := i + 1;
    }
  }

  /** One of lines 11-14: overwrite one text column of every row. */
  method NormalizeColumn(a: array<Record>, f: TextField)
    modifies a
    ensures forall i :: 0 <= i < a.Length ==> a[i] == NormalizeField(old(a[i]), f)
  {
    UpdateRows(a, r => NormalizeField(r, f));
  }

  /** Lines 11-14: clean the postal code, gender, vehicle type and province columns. */
  method Clean(a: array<Record>)
    modifies a
    ensures forall i :: 0 <= i < a.Length ==> a[i] == NormalizeRecord(old(a[i]))
    ensures forall i :: 0 <= i < a.Length ==> Normalized(a[i])
  {
    NormalizeColumn(a, PostalField);
    NormalizeColumn(a, GenderField);
    NormalizeColumn(a, VehicleField);
    NormalizeColumn(a, ProvinceField);
    forall i | 0 <= i < a.Length ensures Normalized(a[i]) {
      NormalizeRecordSpec(old(a[i]));
    }
  }

  /** Lines 17-18: add the claim flag and margin columns. */
  method DeriveMetrics(a: array<Record>)
    modifies a
    ensures forall i :: 0 <= i < a.Length ==> a[i] == Derive(old(a[i]))
    ensures forall i :: 0 <= i < a.Length ==> Derived(a[i])
  {
    UpdateRows(a, Derive);
  }

  /** Number of rows with a positive claim amount. */
  function PositiveClaims(rows: seq<Record>): nat {
    if rows == [] then 0 else (if rows[0].totalClaims > 0.0 then 1 else 0) + PositiveClaims(rows[1..])
  }

  /** Line 19: the reported claim total (`HasClaim.sum()`) is the number of rows
      whose claim amount is positive. */
  lemma {:induction false} ClaimTotal(rows: seq<Record>)
    requires forall r :: r in rows ==> Derived(r)
    ensures |Select(rows, HasClaim, Flag(true))| == PositiveClaims(rows)
  {
    if rows != [] {
      assert rows[0] in rows;
      assert forall r :: r in rows[1..] ==> r in rows;
      ClaimTotal(rows[1..]);
    }
  }
}
