/**
 Sharing a line between preview fields (src/utils/text-preview.ts, 85-100 and 489-731).

 Every field gets an initial budget by its priority; a first loop takes graphemes away from the field
 of lowest precedence while there are too many, a second one gives them to the field of highest
 precedence while some are left. The promise is an allocation that is fixed by four conditions (see
 `IsAllocation`), and a line that fits without being clipped a second time. The list of fields is the
 one the formatter has already deduplicated, sorted and cut.
 */
module FieldBudgets {
  import opened Prelude
  import opened TextPreview

  datatype Field = Field(
    value: string,
    priority: Number,
    title: string,
    minGraphemes: Option<Number>,
    maxGraphemes: Option<Number>)

  const DEFAULT_FIELD_MIN_GRAPHEMES: nat := 8

  function SafePriority(priority: Number): (p: real)
    ensures p >= 1.0
  {
    match priority
    case NotFinite => 1.0
    case Finite(v) => if v < 1.0 then 1.0 else v
  }

  // ---------------------------------------------------------------------------
  // What a field asks for
  // ---------------------------------------------------------------------------

  function Need(field: Field): nat {
    var rawNeed := Count(NormalizePreviewText(field.value));
    if field.maxGraphemes.None? then rawNeed else Min(rawNeed, ToSafeInteger(field.maxGraphemes.value, rawNeed))
  }

  function MinBudget(field: Field): nat {
    var minBudget := if field.minGraphemes.None? then DEFAULT_FIELD_MIN_GRAPHEMES
                     else ToSafeInteger(field.minGraphemes.value, DEFAULT_FIELD_MIN_GRAPHEMES);
    Min(Need(field), minBudget)
  }

  /** The part of the available graphemes that the priority is of all priorities. */
  function WeightedShare(available: nat, priority: real, totalPriority: real): (share: real)
    requires priority >= 1.0 && totalPriority >= 1.0
    ensures share * totalPriority == available as real * priority && share >= 0.0
  {
    available as real * priority / totalPriority
  }

  function InitialBudget(field: Field, available: nat, totalPriority: real): (budget: nat)
    requires totalPriority >= 1.0
    ensures budget <= Need(field)
    ensures available > 0 ==> budget >= MinBudget(field) && (Need(field) > 0 ==> budget > 0)
  {
    if available == 0 || Need(field) == 0 then 0
    else
      var weighted := WeightedShare(available, SafePriority(field.priority), totalPriority).Floor;
      Min(Need(field), Max(1, Max(MinBudget(field), weighted)))
  }

  function TotalPriority(fields: seq<Field>): (total: real)
    ensures total >= 0.0
  {
    if fields == [] then 0.0 else TotalPriority(fields[..|fields| - 1]) + SafePriority(fields[|fields| - 1].priority)
  }

  function Needs(fields: seq<Field>): seq<nat> {
    seq(|fields|, i requires 0 <= i < |fields| => Need(fields[i]))
  }

  function InitialBudgets(fields: seq<Field>, available: nat): seq<nat> {
    var sum := TotalPriority(fields);
    var total := if sum < 1.0 then 1.0 else sum;
    seq(|fields|, i requires 0 <= i < |fields| => InitialBudget(fields[i], available, total))
  }

  function Sum(values: seq<nat>): nat {
    if values == [] then 0 else Sum(values[..|values| - 1]) + values[|values| - 1]
  }

  lemma {:induction false} SumUpdate(values: seq<nat>, i: nat, v: nat)
    requires i < |values|
    ensures Sum(values[i := v]) == Sum(values) - values[i] + v
  {
    var n := |values| - 1;
    if i == n {
      assert values[i := v][..n] == values[..n];
    } else {
      assert values[i := v][..n] == values[..n][i := v];
      SumUpdate(values[..n], i, v);
    }
  }

  lemma {:induction false} SumMonotone(a: seq<nat>, b: seq<nat>)
    requires |a| == |b| && forall i :: 0 <= i < |a| ==> a[i] <= b[i]
    ensures Sum(a) <= Sum(b)
    ensures Sum(a) == Sum(b) ==> a == b
  {
    if a != [] {
      var n := |a| - 1;
      SumMonotone(a[..n], b[..n]);
      assert a == a[..n] + [a[n]] && b == b[..n] + [b[n]];
    }
  }

  // ---------------------------------------------------------------------------
  // Precedence
  // ---------------------------------------------------------------------------

  /** Field i comes before field j: a higher priority, or the same one and an earlier place. */
  predicate Before(fields: seq<Field>, i: nat, j: nat)
    requires i < |fields| && j < |fields|
  {
    var p, q := SafePriority(fields[i].priority), SafePriority(fields[j].priority);
    p > q || (p == q && i < j)
  }

  ghost predicate IsLastPositive(fields: seq<Field>, budgets: seq<nat>, r: nat) {
    && |budgets| == |fields| && r < |fields| && budgets[r] > 0
    && forall j :: 0 <= j < |fields| && Before(fields, r, j) ==> budgets[j] == 0
  }

  ghost predicate IsFirstWanting(fields: seq<Field>, budgets: seq<nat>, needs: seq<nat>, r: nat) {
    && |budgets| == |needs| == |fields| && r < |fields| && budgets[r] < needs[r]
    && forall j :: 0 <= j < |fields| && Before(fields, j, r) ==> budgets[j] >= needs[j]
  }

  /** The field to take from: of those that have a budget, the one that comes last. */
  method FindRemovable(fields: seq<Field>, budgets: seq<nat>) returns (removable: Option<nat>)
    requires |budgets| == |fields|
    ensures removable.Some? ==> IsLastPositive(fields, budgets, removable.value)
    ensures removable.None? ==> forall j :: 0 <= j < |fields| ==> budgets[j] == 0
  {
    removable := None;
    for i := 0 to |fields|
      invariant removable.Some? ==> removable.value < i && budgets[removable.value] > 0
      invariant removable.Some? ==> forall j :: 0 <= j < i && Before(fields, removable.value, j) ==> budgets[j] == 0
      invariant removable.None? ==> forall j :: 0 <= j < i ==> budgets[j] == 0
    {
      if budgets[i] > 0 && (removable.None? || Before(fields, removable.value, i)) {
        removable := Some(i);
      }
    }
  }

  /** The field to give to: of those that need more, the one that comes first. */
  method FindExpandable(fields: seq<Field>, budgets: seq<nat>, needs: seq<nat>) returns (expandable: Option<nat>)
    requires |budgets| == |needs| == |fields|
    ensures expandable.Some? ==> IsFirstWanting(fields, budgets, needs, expandable.value)
    ensures expandable.None? ==> forall j :: 0 <= j < |fields| ==> budgets[j] >= needs[j]
  {
    expandable := None;
    for i := 0 to |fields|
      invariant expandable.Some? ==> expandable.value < i && budgets[expandable.value] < needs[expandable.value]
      invariant expandable.Some? ==>
                  forall j :: 0 <= j < i && Before(fields, j, expandable.value) ==> budgets[j] >= needs[j]
      invariant expandable.None? ==> forall j :: 0 <= j < i ==> budgets[j] >= needs[j]
    {
      if budgets[i] < needs[i] && (expandable.None? || Before(fields, i, expandable.value)) {
        expandable := Some(i);
      }
    }
  }

  // ---------------------------------------------------------------------------
  // Allocation
  // ---------------------------------------------------------------------------

  ghost predicate Below(a: seq<nat>, b: seq<nat>) {
    |a| == |b| && forall i :: 0 <= i < |a| ==> a[i] <= b[i]
  }

  /** A field that gave something up: everything that comes after it has nothing. */
  ghost predicate ShrunkFromTheEnd(fields: seq<Field>, initial: seq<nat>, budgets: seq<nat>)
    requires |fields| == |initial| == |budgets|
  {
    forall i, j :: 0 <= i < |fields| && 0 <= j < |fields| && budgets[i] < initial[i] && Before(fields, i, j) ==> budgets[j] == 0
  }

  /** A field that was given something: everything that comes before it has all it needs. */
  ghost predicate GrownFromTheFront(fields: seq<Field>, initial: seq<nat>, budgets: seq<nat>, needs: seq<nat>)
    requires |fields| == |initial| == |budgets| == |needs|
  {
    forall i, j :: 0 <= i < |fields| && 0 <= j < |fields| && budgets[i] > initial[i] && Before(fields, j, i) ==> budgets[j] == needs[j]
  }

  /** Nobody gets more than they need, everything that can be used is given out, fields shrink from the
      end or grow from the front, and never both in one allocation. */
  ghost predicate IsAllocation(fields: seq<Field>, available: nat, initial: seq<nat>, budgets: seq<nat>) {
    && |fields| == |initial| == |budgets|
    && Below(budgets, Needs(fields))
    && Sum(budgets) == Min(available, Sum(Needs(fields)))
    && ShrunkFromTheEnd(fields, initial, budgets)
    && GrownFromTheFront(fields, initial, budgets, Needs(fields))
    && (Below(budgets, initial) || Below(initial, budgets))
  }

  /** The first loop: take one grapheme at a time from the field that comes last. */
  method Shrink(fields: seq<Field>, initial: seq<nat>, available: nat) returns (budgets: seq<nat>)
    requires |fields| == |initial|
    ensures |budgets| == |fields| && Below(budgets, initial) && ShrunkFromTheEnd(fields, initial, budgets)
    ensures Sum(budgets) == Min(available, Sum(initial))
  {
    budgets := initial;
    while Sum(budgets) > available
      invariant |budgets| == |fields| && Below(budgets, initial) && ShrunkFromTheEnd(fields, initial, budgets)
      invariant Sum(budgets) >= Min(available, Sum(initial))
      invariant Sum(budgets) <= Sum(initial)
      decreases Sum(budgets)
    {
      var removable := FindRemovable(fields, budgets);
      if removable.None? {
        SumOfZeros(budgets);
        break;
      }
      var r := removable.value;
      SumUpdate(budgets, r, budgets[r] - 1);
      budgets := budgets[r := budgets[r] - 1];
    }
  }

  lemma {:induction false} SumOfZeros(values: seq<nat>)
    requires forall j :: 0 <= j < |values| ==> values[j] == 0
    ensures Sum(values) == 0
  {
    if values != [] {
      SumOfZeros(values[..|values| - 1]);
    }
  }

  /** The second loop: give one grapheme at a time to the field that comes first. */
  method Expand(fields: seq<Field>, start: seq<nat>, available: nat) returns (budgets: seq<nat>)
    requires |fields| == |start| && Below(start, Needs(fields)) && Sum(start) <= available
    ensures |budgets| == |fields| && Below(start, budgets) && Below(budgets, Needs(fields))
    ensures GrownFromTheFront(fields, start, budgets, Needs(fields))
    ensures Sum(budgets) == Min(available, Sum(Needs(fields)))
  {
    var needs := Needs(fields);
    budgets := start;
    while Sum(budgets) < available
      invariant |budgets| == |fields| && Below(start, budgets) && Below(budgets, needs)
      invariant GrownFromTheFront(fields, start, budgets, needs)
      invariant Sum(budgets) <= available
      decreases available - Sum(budgets)
    {
      var expandable := FindExpandable(fields, budgets, needs);
      if expandable.None? {
        assert budgets == needs;
        break;
      }
      var r := expandable.value;
      GrowFirstWanting(fields, start, budgets, needs, r);
      SumUpdate(budgets, r, budgets[r] + 1);
      budgets := budgets[r := budgets[r] + 1];
    }
    SumMonotone(budgets, needs);
  }

  /** The first wanting field gets one more. */
  lemma GrowFirstWanting(fields: seq<Field>, start: seq<nat>, budgets: seq<nat>, needs: seq<nat>, r: nat)
    requires |fields| == |start| && Below(start, budgets) && Below(budgets, needs)
    requires GrownFromTheFront(fields, start, budgets, needs) && IsFirstWanting(fields, budgets, needs, r)
    ensures var grown := budgets[r := budgets[r] + 1];
            && Below(start, grown) && Below(grown, needs) && GrownFromTheFront(fields, start, grown, needs)
  {
  }

  method AllocateFieldBudgets(fields: seq<Field>, availableBudget: int) returns (budgets: seq<nat>)
    ensures var available := Max(0, availableBudget);
            IsAllocation(fields, available, InitialBudgets(fields, available), budgets)
  {
    var available := Max(0, availableBudget);
    var initial := InitialBudgets(fields, available);
    if available == 0 {
      budgets := seq(|fields|, _ => 0);
      SumOfZeros(budgets);
      return;
    }
    var start := Shrink(fields, initial, available);
    budgets := Expand(fields, start, available);
    if Sum(start) == available {
      SumMonotone(start, budgets);
      SumMonotone(start, Needs(fields));
    } else {
      SumMonotone(start, initial);
    }
  }

  // ---------------------------------------------------------------------------
  // The conditions leave no choice
  // ---------------------------------------------------------------------------

  lemma SumTellsApart(a: seq<nat>, b: seq<nat>) returns (i: nat, k: nat)
    requires |a| == |b| && Sum(a) == Sum(b) && a != b
    ensures i < |a| && k < |a| && a[i] < b[i] && a[k] > b[k]
  {
    if Below(a, b) {
      SumMonotone(a, b);
    }
    if Below(b, a) {
      SumMonotone(b, a);
    }
    i :| 0 <= i < |a| && !(b[i] <= a[i]);
    k :| 0 <= k < |a| && !(a[k] <= b[k]);
  }

  /** When there is not enough for the initial budgets, no field is above its own. */
  lemma ScarceShrinks(fields: seq<Field>, available: nat, initial: seq<nat>, budgets: seq<nat>)
    requires IsAllocation(fields, available, initial, budgets) && available <= Sum(initial)
    ensures Below(budgets, initial)
  {
    if Below(initial, budgets) {
      SumMonotone(initial, budgets);
    }
  }

  lemma AmpleGrows(fields: seq<Field>, available: nat, initial: seq<nat>, budgets: seq<nat>)
    requires IsAllocation(fields, available, initial, budgets) && available >= Sum(initial)
    requires Below(initial, Needs(fields))
    ensures Below(initial, budgets)
  {
    if Below(budgets, initial) {
      SumMonotone(budgets, initial);
      SumMonotone(initial, Needs(fields));
    }
  }

  lemma InitialBelowNeeds(fields: seq<Field>, available: nat)
    ensures Below(InitialBudgets(fields, available), Needs(fields))
  {
  }

  /** Two allocations cannot favour different fields. */
  lemma NoCrossing(fields: seq<Field>, available: nat, initial: seq<nat>, a: seq<nat>, b: seq<nat>, i: nat, k: nat)
    requires IsAllocation(fields, available, initial, a) && IsAllocation(fields, available, initial, b)
    requires Below(initial, Needs(fields))
    requires i < |fields| && k < |fields| && a[i] < b[i]
    ensures a[k] <= b[k]
  {
    assert i == k || Before(fields, i, k) || Before(fields, k, i);
    if available <= Sum(initial) {
      ScarceShrinks(fields, available, initial, a);
      ScarceShrinks(fields, available, initial, b);
    } else {
      AmpleGrows(fields, available, initial, a);
      AmpleGrows(fields, available, initial, b);
    }
  }

  /** From the same initial budgets there is exactly one allocation, so the conditions say all there is to
      say. */
  lemma AllocationUnique(fields: seq<Field>, available: nat, initial: seq<nat>, a: seq<nat>, b: seq<nat>)
    requires IsAllocation(fields, available, initial, a) && IsAllocation(fields, available, initial, b)
    requires Below(initial, Needs(fields))
    ensures a == b
  {
    if a != b {
      var i, k := SumTellsApart(a, b);
      NoCrossing(fields, available, initial, a, b, i, k);
    }
  }

  /** So what the allocator returns is determined by the fields and the available budget. */
  lemma BudgetsUnique(fields: seq<Field>, available: nat, a: seq<nat>, b: seq<nat>)
    requires IsAllocation(fields, available, InitialBudgets(fields, available), a)
    requires IsAllocation(fields, available, InitialBudgets(fields, available), b)
    ensures a == b
  {
    InitialBelowNeeds(fields, available);
    AllocationUnique(fields, available, InitialBudgets(fields, available), a, b);
  }

  // ---------------------------------------------------------------------------
  // The line
  // ---------------------------------------------------------------------------

  function Prefix(field: Field, labelSeparator: string): string {
    if field.title != "" then field.title + labelSeparator else ""
  }

  function SeparatorsSize(n: nat, separator: string): nat {
    Max(0, n - 1) * Count(separator)
  }

  function PrefixesSize(fields: seq<Field>, labelSeparator: string): nat {
    if fields == [] then 0
    else PrefixesSize(fields[..|fields| - 1], labelSeparator) + Count(Prefix(fields[|fields| - 1], labelSeparator))
  }

  /** What separators and labels take. */
  function FixedSize(fields: seq<Field>, separator: string, labelSeparator: string): nat {
    SeparatorsSize(|fields|, separator) + PrefixesSize(fields, labelSeparator)
  }

  function MinimumRequired(fields: seq<Field>): nat {
    if fields == [] then 0 else MinimumRequired(fields[..|fields| - 1]) + MinBudget(fields[|fields| - 1])
  }

  /** `parts.join(separator)` for a separator of any length. */
  function JoinWith(parts: seq<string>, separator: string): string {
    if parts == [] then ""
    else if |parts| == 1 then parts[0]
    else JoinWith(parts[..|parts| - 1], separator) + separator + parts[|parts| - 1]
  }

  /** One field as it is shown, with or without its label. */
  function Shown(field: Field, budget: nat, labelled: bool, labelSeparator: string, ellipsis: string): string {
    (if labelled then Prefix(field, labelSeparator) else "") + ClipTextPreview(field.value, Finite(budget as real), ellipsis)
  }

  function Line(fields: seq<Field>, budgets: seq<nat>, labelled: bool, separator: string, labelSeparator: string,
                ellipsis: string): string
    requires |fields| == |budgets|
  {
    JoinWith(ShownParts(fields, budgets, labelled, labelSeparator, ellipsis), separator)
  }

  /** The last resort: clip the whole line. */
  function ClipLine(line: string, maxGraphemes: nat, ellipsis: string): string {
    if Count(line) > maxGraphemes then ClipTextPreview(line, Finite(maxGraphemes as real), ellipsis) else line
  }

  function LabelsSize(fields: seq<Field>, labelled: bool, labelSeparator: string): nat {
    if labelled then PrefixesSize(fields, labelSeparator) else 0
  }

  lemma ShownCount(field: Field, budget: nat, labelled: bool, labelSeparator: string, ellipsis: string)
    ensures Count(Shown(field, budget, labelled, labelSeparator, ellipsis))
         <= (if labelled then Count(Prefix(field, labelSeparator)) else 0) + budget
  {
    var prefix := if labelled then Prefix(field, labelSeparator) else "";
    var clip := ClipTextPreview(field.value, Finite(budget as real), ellipsis);
    CountSubadditive(prefix, clip);
    ClipNeverExceedsLimit(field.value, Finite(budget as real), ellipsis);
  }

  function ShownParts(fields: seq<Field>, budgets: seq<nat>, labelled: bool, labelSeparator: string, ellipsis: string): (parts: seq<string>)
    requires |fields| == |budgets|
    ensures |parts| == |fields|
  {
    seq(|fields|, i requires 0 <= i < |fields| => Shown(fields[i], budgets[i], labelled, labelSeparator, ellipsis))
  }

  function TotalCount(parts: seq<string>): nat {
    if parts == [] then 0 else TotalCount(parts[..|parts| - 1]) + Count(parts[|parts| - 1])
  }

  lemma OneMoreSeparator(n: nat, separator: string)
    requires n >= 1
    ensures SeparatorsSize(n + 1, separator) == SeparatorsSize(n, separator) + Count(separator)
  {
    assert n * Count(separator) == (n - 1) * Count(separator) + Count(separator);
  }

  lemma CountThree(a: string, b: string, c: string)
    ensures Count(a + b + c) <= Count(a) + Count(b) + Count(c)
  {
    CountSubadditive(a + b, c);
    CountSubadditive(a, b);
  }

  /** Joining adds up graphemes at most. */
  lemma {:induction false} JoinCount(parts: seq<string>, separator: string)
    ensures Count(JoinWith(parts, separator)) <= SeparatorsSize(|parts|, separator) + TotalCount(parts)
  {
    if |parts| == 1 {
      assert parts[..0] == [];
    } else if parts != [] {
      var n := |parts| - 1;
      JoinCount(parts[..n], separator);
      CountThree(JoinWith(parts[..n], separator), separator, parts[n]);
      OneMoreSeparator(n, separator);
    }
  }

  lemma {:induction false} PartsCount(fields: seq<Field>, budgets: seq<nat>, labelled: bool, labelSeparator: string, ellipsis: string)
    requires |fields| == |budgets|
    ensures TotalCount(ShownParts(fields, budgets, labelled, labelSeparator, ellipsis))
         <= LabelsSize(fields, labelled, labelSeparator) + Sum(budgets)
    decreases |fields|
  {
    if fields != [] {
      var n := |fields| - 1;
      var parts := ShownParts(fields, budgets, labelled, labelSeparator, ellipsis);
      assert parts[..n] == ShownParts(fields[..n], budgets[..n], labelled, labelSeparator, ellipsis);
      PartsCount(fields[..n], budgets[..n], labelled, labelSeparator, ellipsis);
      ShownCount(fields[n], budgets[n], labelled, labelSeparator, ellipsis);
    }
  }

  /** A line takes at most its separators, its labels and its budgets. */
  lemma LineCount(fields: seq<Field>, budgets: seq<nat>, labelled: bool, separator: string, labelSeparator: string, ellipsis: string)
    requires |fields| == |budgets|
    ensures Count(Line(fields, budgets, labelled, separator, labelSeparator, ellipsis))
         <= SeparatorsSize(|fields|, separator) + LabelsSize(fields, labelled, labelSeparator) + Sum(budgets)
  {
    JoinCount(ShownParts(fields, budgets, labelled, labelSeparator, ellipsis), separator);
    PartsCount(fields, budgets, labelled, labelSeparator, ellipsis);
  }

  /** The minimum budgets of the fields fit beside their separators and labels. */
  predicate MinimaFit(fields: seq<Field>, labelled: bool, maxGraphemes: nat, separator: string, labelSeparator: string) {
    MinimumRequired(fields) + SeparatorsSize(|fields|, separator) + LabelsSize(fields, labelled, labelSeparator) <= maxGraphemes
  }

  /** The fields that are kept: the last one is dropped while the minimum budgets do not fit, so that no more could be. */
  function Kept(fields: seq<Field>, labelled: bool, maxGraphemes: nat, separator: string, labelSeparator: string): (kept: seq<Field>)
    ensures kept <= fields && (fields != [] ==> kept != [])
    ensures |kept| > 1 ==> MinimaFit(kept, labelled, maxGraphemes, separator, labelSeparator)
  {
    if |fields| > 1
       && maxGraphemes - SeparatorsSize(|fields|, separator) - LabelsSize(fields, labelled, labelSeparator) < MinimumRequired(fields)
    then Kept(fields[..|fields| - 1], labelled, maxGraphemes, separator, labelSeparator)
    else fields
  }

  /** No more could be kept: the minimum budgets of any more of the fields do not fit. */
  lemma {:induction false} KeptIsLongest(fields: seq<Field>, labelled: bool, maxGraphemes: nat, separator: string,
                                         labelSeparator: string, n: nat)
    requires |Kept(fields, labelled, maxGraphemes, separator, labelSeparator)| < n <= |fields|
    ensures !MinimaFit(fields[..n], labelled, maxGraphemes, separator, labelSeparator)
    decreases |fields|
  {
    if n == |fields| {
      assert fields[..n] == fields;
    } else {
      var front := fields[..|fields| - 1];
      assert fields[..n] == front[..n];
      KeptIsLongest(front, labelled, maxGraphemes, separator, labelSeparator, n);
    }
  }

  /** The line the formatter promises for the fields it keeps: the allocation, applied, and no more
      graphemes than allowed. */
  ghost predicate IsPreview(preview: string, kept: seq<Field>, maxGraphemes: nat, labelled: bool, separator: string,
                            labelSeparator: string, ellipsis: string)
  {
    && Count(preview) <= maxGraphemes
    && exists budgets: seq<nat> ::
         var available := Max(0, maxGraphemes - SeparatorsSize(|kept|, separator) - LabelsSize(kept, labelled, labelSeparator));
         && IsAllocation(kept, available, InitialBudgets(kept, available), budgets)
         && preview == Line(kept, budgets, labelled, separator, labelSeparator, ellipsis)
  }

  /** Fills the line. The clipping of the whole line never applies: the budgets already make it fit. */
  method FillLine(kept: seq<Field>, maxGraphemes: nat, labelled: bool, separator: string, labelSeparator: string, ellipsis: string)
    returns (preview: string)
    requires SeparatorsSize(|kept|, separator) + LabelsSize(kept, labelled, labelSeparator) <= maxGraphemes
    ensures IsPreview(preview, kept, maxGraphemes, labelled, separator, labelSeparator, ellipsis)
  {
    var available := Max(0, maxGraphemes - SeparatorsSize(|kept|, separator) - LabelsSize(kept, labelled, labelSeparator));
    var budgets := AllocateFieldBudgets(kept, available);
    var line := Line(kept, budgets, labelled, separator, labelSeparator, ellipsis);
    LineCount(kept, budgets, labelled, separator, labelSeparator, ellipsis);
    preview := ClipLine(line, maxGraphemes, ellipsis);
  }

  method DropFields(fields: seq<Field>, labelled: bool, maxGraphemes: nat, separator: string, labelSeparator: string)
    returns (kept: seq<Field>)
    ensures kept == Kept(fields, labelled, maxGraphemes, separator, labelSeparator)
  {
    kept := fields;
    while |kept| > 1
      invariant Kept(kept, labelled, maxGraphemes, separator, labelSeparator) == Kept(fields, labelled, maxGraphemes, separator, labelSeparator)
    {
      var available := maxGraphemes - SeparatorsSize(|kept|, separator) - LabelsSize(kept, labelled, labelSeparator);
      if available >= MinimumRequired(kept) {
        break;
      }
      kept := kept[..|kept| - 1];
    }
  }

  /** Without labels, the separators between the fields that are kept always fit. */
  lemma SeparatorsFit(fields: seq<Field>, maxGraphemes: nat, separator: string, labelSeparator: string)
    ensures SeparatorsSize(|Kept(fields, false, maxGraphemes, separator, labelSeparator)|, separator) <= maxGraphemes
  {
    var kept := Kept(fields, false, maxGraphemes, separator, labelSeparator);
    if |kept| <= 1 {
      assert SeparatorsSize(|kept|, separator) == 0;
    }
  }

  /** Where labels leave no room, only the values of the fields that fit are shown. */
  method FormatPrioritizedFieldPreview(fields: seq<Field>, maxGraphemes: nat, separator: string, labelSeparator: string,
                                       ellipsis: string)
    returns (preview: string)
    ensures maxGraphemes == 0 || fields == [] ==> preview == ""
    ensures maxGraphemes > 0 && fields != [] ==>
              var kept := Kept(fields, true, maxGraphemes, separator, labelSeparator);
              if FixedSize(kept, separator, labelSeparator) < maxGraphemes
              then IsPreview(preview, kept, maxGraphemes, true, separator, labelSeparator, ellipsis)
              else IsPreview(preview, Kept(kept, false, maxGraphemes, separator, labelSeparator), maxGraphemes, false,
                             separator, labelSeparator, ellipsis)
  {
    if maxGraphemes == 0 || fields == [] {
      return "";
    }
    var kept := DropFields(fields, true, maxGraphemes, separator, labelSeparator);
    if FixedSize(kept, separator, labelSeparator) >= maxGraphemes {
      SeparatorsFit(kept, maxGraphemes, separator, labelSeparator);
      kept := DropFields(kept, false, maxGraphemes, separator, labelSeparator);
      preview := FillLine(kept, maxGraphemes, false, separator, labelSeparator, ellipsis);
    } else {
      preview := FillLine(kept, maxGraphemes, true, separator, labelSeparator, ellipsis);
    }
  }
}
