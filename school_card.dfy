/**
  The dominant stress band of a school summary, as the school card picks it:
  a left fold over the five band names that keeps the running leader unless a
  later band's percentage is strictly greater. The percentage of a band is
  looked up by a key built from its name (`pct_balanced`, ..., `pct_mod` for
  Moderate).
*/
module SchoolCard {
  import opened Wrappers
  import opened JsValues
  import opened Types

  /** `pct_${cat === 'Moderate' ? 'mod' : cat.toLowerCase()}`: the key of a
      band's percentage. The fold builds the leader's key with the same rule. */
  function PctKey(cat: string): (key: string)
    ensures |key| >= 4 && key[..4] == "pct_"
  {
    "pct_" + (if cat == "Moderate" then "mod" else ToLower(cat))
  }

  /** `metrics[key]` for the percentage fields of a summary; any other key
      reads `undefined`. */
  function Field(m: SchoolMetrics, key: string): (v: Option<int>)
    ensures v.Some? <==> key in {"pct_balanced", "pct_mild", "pct_mod", "pct_high",
                                 "pct_severe", "pct_anxiety", "pct_pressure", "pct_support"}
  {
    if key == "pct_balanced" then Some(m.pctBalanced)
    else if key == "pct_mild" then Some(m.pctMild)
    else if key == "pct_mod" then Some(m.pctMod)
    else if key == "pct_high" then Some(m.pctHigh)
    else if key == "pct_severe" then Some(m.pctSevere)
    else if key == "pct_anxiety" then Some(m.pctAnxiety)
    else if key == "pct_pressure" then Some(m.pctPressure)
    else if key == "pct_support" then Some(m.pctSupport)
    else None
  }

  /** `a > b` on two looked-up values; a comparison with `undefined` is false. */
  predicate Greater(a: Option<int>, b: Option<int>) {
    a.Some? && b.Some? && a.value > b.value
  }

  /** One step of the fold: `cat` takes over from the leader `max` only when its
      percentage is strictly greater. */
  function Step(m: SchoolMetrics, max: string, cat: string): (r: string)
    ensures r == cat || r == max
  {
    if Greater(Field(m, PctKey(cat)), Field(m, PctKey(max))) then cat else max
  }

  /** `cats.reduce(Step, max)`. */
  function Fold(m: SchoolMetrics, cats: seq<string>, max: string): string
  {
    if cats == [] then max else Fold(m, cats[1..], Step(m, max, cats[0]))
  }

  /** The band names in the order the card folds over them. */
  function CategoryNames(): (names: seq<string>)
    ensures |names| == 5
    ensures forall k :: 0 <= k < 5 ==> names[k] == Categories[k].Name()
  {
    ["Balanced", "Mild", "Moderate", "High", "Severe"]
  }

  /** `dominantCategory`. */
  function DominantCategory(m: SchoolMetrics): string
  {
    Fold(m, CategoryNames(), "Balanced")
  }

  // ---------------------------------------------------------------------
  // The reference description

  /** The percentage of band `c`, read straight from the summary. */
  function CategoryPct(m: SchoolMetrics, c: StressCategory): int
  {
    match c
    case Balanced => m.pctBalanced
    case Mild => m.pctMild
    case Moderate => m.pctMod
    case High => m.pctHigh
    case Severe => m.pctSevere
  }

  /** `c` has the largest band percentage, and every band listed before it
      has a strictly smaller one: the first of the largest. */
  predicate IsDominant(m: SchoolMetrics, c: StressCategory) {
    && (forall d: StressCategory :: CategoryPct(m, d) <= CategoryPct(m, c))
    && (forall d: StressCategory :: d.Rank() < c.Rank() ==> CategoryPct(m, d) < CategoryPct(m, c))
  }

  /** At most one band is the first of the largest. */
  lemma DominantUnique(m: SchoolMetrics, c: StressCategory, c': StressCategory)
    requires IsDominant(m, c) && IsDominant(m, c')
    ensures c == c'
  {
    assert CategoryPct(m, c) == CategoryPct(m, c');
    assert c.Rank() == c'.Rank();
  }

  /** A band's name in lower case. */
  function LowerName(c: StressCategory): (s: string)
    ensures s == ToLower(c.Name())
  {
    match c
    case Balanced => LowerBalanced(); "balanced"
    case Mild => LowerMild(); "mild"
    case Moderate => LowerModerate(); "moderate"
    case High => LowerHigh(); "high"
    case Severe => LowerSevere(); "severe"
  }

  lemma LowerBalanced() ensures ToLower("Balanced") == "balanced" {
    var r := ToLower("Balanced");
    assert r[0] == 'b';
  }

  lemma LowerMild() ensures ToLower("Mild") == "mild" {
    var r := ToLower("Mild");
    assert r[0] == 'm';
  }

  lemma LowerModerate() ensures ToLower("Moderate") == "moderate" {
    var r := ToLower("Moderate");
    assert r[0] == 'm';
  }

  lemma LowerHigh() ensures ToLower("High") == "high" {
    var r := ToLower("High");
    assert r[0] == 'h';
  }

  lemma LowerSevere() ensures ToLower("Severe") == "severe" {
    var r := ToLower("Severe");
    assert r[0] == 's';
  }

  /** The key of a band's percentage field. */
  function BandKey(c: StressCategory): string
  {
    match c
    case Balanced => "pct_balanced"
    case Mild => "pct_mild"
    case Moderate => "pct_mod"
    case High => "pct_high"
    case Severe => "pct_severe"
  }

  /** The key the card builds from a band's name is that band's key. */
  lemma PctKeyOfBand(c: StressCategory)
    ensures PctKey(c.Name()) == BandKey(c)
  {
    if c != Moderate {
      var low := LowerName(c);
    }
  }

  /** A band's key reads that band's percentage. */
  lemma KeyReadsBand(m: SchoolMetrics, c: StressCategory)
    ensures Field(m, PctKey(c.Name())) == Some(CategoryPct(m, c))
  {
    PctKeyOfBand(c);
  }

  /** One step of the fold on two bands: the later band `d` takes over
      exactly when its percentage is strictly greater than the leader's. */
  lemma StepOnBands(m: SchoolMetrics, c: StressCategory, d: StressCategory)
    ensures Step(m, c.Name(), d.Name()) == (if CategoryPct(m, d) > CategoryPct(m, c) then d else c).Name()
  {
    KeyReadsBand(m, c);
    KeyReadsBand(m, d);
  }

  /** Band names tell the bands apart. */
  lemma NamesDistinct(c: StressCategory, d: StressCategory)
    ensures c.Name() == d.Name() <==> c == d
  {
  }

  /** `c` is the first of the largest among the first `k` bands. */
  predicate LeadsFirst(m: SchoolMetrics, c: StressCategory, k: nat) {
    && c.Rank() < k
    && (forall d: StressCategory :: d.Rank() < k ==> CategoryPct(m, d) <= CategoryPct(m, c))
    && (forall d: StressCategory :: d.Rank() < c.Rank() ==> CategoryPct(m, d) < CategoryPct(m, c))
  }

  /** Folding the remaining bands from a leader of the first `k` bands ends on
      the leader of all five. */
  lemma {:induction false} FoldLeads(m: SchoolMetrics, k: nat, c: StressCategory) returns (e: StressCategory)
    requires 1 <= k <= 5 && LeadsFirst(m, c, k)
    ensures Fold(m, CategoryNames()[k..], c.Name()) == e.Name() && LeadsFirst(m, e, 5)
    decreases 5 - k
  {
    var names := CategoryNames();
    if k == 5 {
      assert names[k..] == [];
      e := c;
    } else {
      var d := Categories[k];
      var next := LeadsExtend(m, c, k);
      assert names[k..][0] == d.Name() && names[k..][1..] == names[k + 1..];
      StepOnBands(m, c, d);
      e := FoldLeads(m, k + 1, next);
    }
  }

  /** The leader of the first `k + 1` bands: band `k` if its percentage is
      strictly greater than the leader of the first `k`, else that leader. */
  lemma LeadsExtend(m: SchoolMetrics, c: StressCategory, k: nat) returns (next: StressCategory)
    requires 1 <= k < 5 && LeadsFirst(m, c, k)
    ensures next == if CategoryPct(m, Categories[k]) > CategoryPct(m, c) then Categories[k] else c
    ensures LeadsFirst(m, next, k + 1)
  {
    var d := Categories[k];
    assert d.Rank() == k;
    next := if CategoryPct(m, d) > CategoryPct(m, c) then d else c;
  }

  /** The card shows the first band with the largest percentage: the dominant
      category is the name of exactly the band `IsDominant` describes. */
  lemma DominantCategoryIsFirstLargest(m: SchoolMetrics, c: StressCategory)
    ensures DominantCategory(m) == c.Name() <==> IsDominant(m, c)
  {
    var names := CategoryNames();
    assert LeadsFirst(m, Balanced, 1);
    StepOnBands(m, Balanced, Balanced);
    assert Fold(m, names, "Balanced") == Fold(m, names[1..], "Balanced");
    var e := FoldLeads(m, 1, Balanced);
    assert IsDominant(m, e);
    NamesDistinct(c, e);
    if IsDominant(m, c) {
      DominantUnique(m, c, e);
    }
  }
}
