/**
 What a line of preview fields is made of (src/utils/text-preview.ts, 489-543 and 618-734): what a field asks for,
 the share its priority gives it, and the text that is put together.
 */
module FieldLines {
  import opened Prelude
  import opened TextPreview
  import opened FieldBudgets

  // ---------------------------------------------------------------------------
  // What a field asks for
  // ---------------------------------------------------------------------------

  /** The graphemes of the value, but no more than the field allows; a limit that is not a number is none. */
  lemma NeedIsCapped(field: Field)
    ensures var whole := Count(NormalizePreviewText(field.value));
            match field.maxGraphemes
            case Some(Finite(v)) => Need(field) == if v < 0.0 then 0 else Min(whole, v.Floor)
            case _ => Need(field) == whole
  {}

  /** The least a field should get: 8 graphemes if it does not say, and no more than it needs. */
  lemma MinimumIsCapped(field: Field)
    ensures match field.minGraphemes
            case Some(Finite(v)) => MinBudget(field) == if v < 0.0 then 0 else Min(Need(field), v.Floor)
            case _ => MinBudget(field) == Min(Need(field), 8)
  {}

  // ---------------------------------------------------------------------------
  // The share by priority
  // ---------------------------------------------------------------------------

  /** A priority below 1, or none, counts as 1. */
  function Priority(field: Field): (p: real)
    ensures p >= 1.0
  {
    if field.priority.Finite? && field.priority.value > 1.0 then field.priority.value else 1.0
  }

  function Priorities(fields: seq<Field>): (total: real)
    ensures total >= 0.0 && (fields != [] ==> total >= 1.0)
  {
    if fields == [] then 0.0 else Priorities(fields[..|fields| - 1]) + Priority(fields[|fields| - 1])
  }

  lemma {:induction false} TotalIsSum(fields: seq<Field>)
    ensures TotalPriority(fields) == Priorities(fields)
  {
    if fields != [] {
      TotalIsSum(fields[..|fields| - 1]);
    }
  }

  /** A field's share: to the available graphemes as its priority to all priorities. */
  function Share(fields: seq<Field>, i: nat, available: nat): (share: real)
    requires i < |fields|
    ensures share * Priorities(fields) == available as real * Priority(fields[i])
  {
    WeightedShare(available, Priority(fields[i]), Priorities(fields))
  }

  lemma PriorityIsSafe(field: Field)
    ensures SafePriority(field.priority) == Priority(field)
  {}

  /** A budget between what is needed and what is due. */
  ghost predicate IsShare(budget: nat, need: nat, minimum: nat, share: real) {
    && (budget == need || budget as real > share - 1.0)
    && (budget <= Max(1, minimum) || budget as real <= share)
  }

  lemma RoundedIsShare(need: nat, minimum: nat, share: real)
    requires share >= 0.0
    ensures share.Floor >= 0 && IsShare(Min(need, Max(1, Max(minimum, share.Floor))), need, minimum, share)
  {
    assert share.Floor as real <= share < share.Floor as real + 1.0;
  }

  lemma BudgetIsRounded(field: Field, available: nat, total: real)
    requires total >= 1.0 && available > 0 && Need(field) > 0
    ensures InitialBudget(field, available, total)
         == Min(Need(field), Max(1, Max(MinBudget(field), WeightedShare(available, Priority(field), total).Floor)))
  {
    PriorityIsSafe(field);
  }

  /** The initial budget is the share, rounded down: less only if the field needs less, and more only up to its minimum
      budget, or one grapheme. */
  lemma ShareBoundsBudget(fields: seq<Field>, i: nat, available: nat)
    requires i < |fields|
    ensures |InitialBudgets(fields, available)| == |fields|
    ensures var budget := InitialBudgets(fields, available)[i];
            if available == 0 || Need(fields[i]) == 0 then budget == 0
            else IsShare(budget, Need(fields[i]), MinBudget(fields[i]), Share(fields, i, available))
  {
    TotalIsSum(fields);
    if available > 0 && Need(fields[i]) > 0 {
      BudgetIsRounded(fields[i], available, Priorities(fields));
      RoundedIsShare(Need(fields[i]), MinBudget(fields[i]), Share(fields, i, available));
    }
  }

  /** A field comes before another if its priority is higher, or the same and its place is earlier. */
  lemma PrecedenceExactly(fields: seq<Field>, i: nat, j: nat)
    requires i < |fields| && j < |fields|
    ensures Before(fields, i, j)
       <==> Priority(fields[i]) > Priority(fields[j]) || (Priority(fields[i]) == Priority(fields[j]) && i < j)
  {
    PriorityIsSafe(fields[i]);
    PriorityIsSafe(fields[j]);
  }

  // ---------------------------------------------------------------------------
  // The space
  // ---------------------------------------------------------------------------

  function LabelGraphemes(fields: seq<Field>, labelSeparator: string): nat {
    if fields == [] then 0
    else LabelGraphemes(fields[..|fields| - 1], labelSeparator)
         + var last := fields[|fields| - 1]; if last.title == "" then 0 else Count(last.title + labelSeparator)
  }

  function MinimumSum(fields: seq<Field>): nat {
    if fields == [] then 0 else MinimumSum(fields[..|fields| - 1]) + MinBudget(fields[|fields| - 1])
  }

  lemma {:induction false} SumsAreSums(fields: seq<Field>, labelSeparator: string)
    ensures PrefixesSize(fields, labelSeparator) == LabelGraphemes(fields, labelSeparator)
    ensures MinimumRequired(fields) == MinimumSum(fields)
  {
    if fields != [] {
      SumsAreSums(fields[..|fields| - 1], labelSeparator);
    }
  }

  /** Beside the values a line has a separator between each two fields and, with labels, the label of each field that has
      one; and minimum budgets fit if there is room for all of them beside that. */
  lemma SpaceIsExact(fields: seq<Field>, labelled: bool, maxGraphemes: nat, separator: string, labelSeparator: string)
    ensures var between := Max(0, |fields| - 1) * Count(separator);
            var labels := if labelled then LabelGraphemes(fields, labelSeparator) else 0;
            && SeparatorsSize(|fields|, separator) == between && LabelsSize(fields, labelled, labelSeparator) == labels
            && FixedSize(fields, separator, labelSeparator) == between + LabelGraphemes(fields, labelSeparator)
            && (MinimaFit(fields, labelled, maxGraphemes, separator, labelSeparator)
                <==> MinimumSum(fields) + between + labels <= maxGraphemes)
  {
    SumsAreSums(fields, labelSeparator);
  }

  // ---------------------------------------------------------------------------
  // The line
  // ---------------------------------------------------------------------------

  /** A field in the line: its label, if labels are shown and it has one, and its value as far as the budget goes. */
  function FieldText(field: Field, budget: nat, labelled: bool, labelSeparator: string, ellipsis: string): string {
    (if labelled && field.title != "" then field.title + labelSeparator else "")
    + ClipTextPreview(field.value, Finite(budget as real), ellipsis)
  }

  /** The line is its fields, in order, with a separator between each two. */
  lemma LineIsJoined(fields: seq<Field>, budgets: seq<nat>, labelled: bool, separator: string, labelSeparator: string, ellipsis: string)
    requires |fields| == |budgets|
    ensures var line, n := Line(fields, budgets, labelled, separator, labelSeparator, ellipsis), |fields|;
            if n == 0 then line == ""
            else
              var last := FieldText(fields[n - 1], budgets[n - 1], labelled, labelSeparator, ellipsis);
              line == if n == 1 then last
                      else Line(fields[..n - 1], budgets[..n - 1], labelled, separator, labelSeparator, ellipsis) + separator + last
  {
    var n := |fields|;
    if n > 0 {
      var parts := ShownParts(fields, budgets, labelled, labelSeparator, ellipsis);
      assert parts[..n - 1] == ShownParts(fields[..n - 1], budgets[..n - 1], labelled, labelSeparator, ellipsis);
      assert parts[n - 1] == FieldText(fields[n - 1], budgets[n - 1], labelled, labelSeparator, ellipsis);
    }
  }

  // ---------------------------------------------------------------------------
  // Where there is room
  // ---------------------------------------------------------------------------

  lemma EverybodyIsServed(fields: seq<Field>, available: nat, initial: seq<nat>, budgets: seq<nat>)
    requires IsAllocation(fields, available, initial, budgets) && Sum(Needs(fields)) <= available
    ensures budgets == Needs(fields)
  {
    if budgets != Needs(fields) {
      var i, k := SumTellsApart(Needs(fields), budgets);
      assert false;
    }
  }

  lemma WholeValueIsShown(field: Field, ellipsis: string)
    requires field.maxGraphemes.None?
    ensures ClipTextPreview(field.value, Finite(Need(field) as real), ellipsis) == NormalizePreviewText(field.value)
  {
    if Need(field) == 0 {
      CountZero(NormalizePreviewText(field.value));
    }
  }

  lemma CountZero(text: string)
    requires Count(text) == 0
    ensures text == ""
  {
    GraphemesLossless(text);
  }

  /** Where all needs fit and no field is capped, every value is shown whole. */
  lemma AmpleLineIsWhole(fields: seq<Field>, available: nat, initial: seq<nat>, budgets: seq<nat>, labelled: bool,
                         labelSeparator: string, ellipsis: string, i: nat)
    requires IsAllocation(fields, available, initial, budgets) && Sum(Needs(fields)) <= available
    requires i < |fields| && fields[i].maxGraphemes.None?
    ensures FieldText(fields[i], budgets[i], labelled, labelSeparator, ellipsis)
         == (if labelled && fields[i].title != "" then fields[i].title + labelSeparator else "")
            + NormalizePreviewText(fields[i].value)
  {
    EverybodyIsServed(fields, available, initial, budgets);
    WholeValueIsShown(fields[i], ellipsis);
  }
}
