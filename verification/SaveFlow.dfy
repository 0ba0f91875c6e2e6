/**
 Saving a document through the formatter (src/composables/useDocumentPersistence.ts, 105-117 and 158-214).

 A save applies the conventions, hands the text to the formatter and waits; meanwhile the document can be
 edited, and other saves can begin. The answer replaces whatever the document holds by then, and the
 conventions are applied again. The formatter is opaque: its answers are part of the steps.
 */
module SaveFlow {
  import opened Prelude
  import opened SaveConventions

  /** A text, and the edit it comes from: i + 1 for the edit of step i, 0 for the document as it was opened. */
  datatype Version = Version(content: string, origin: nat)

  /** The document, and the texts of the saves that wait for the formatter, by the time the save began. */
  datatype World = World(document: Version, waiting: map<nat, Version>)

  /** `Answer` is what the formatter says to the save begun at `save`: a text, or None if it failed. */
  datatype Step =
    | Edit(text: string)
    | BeginSave(settings: Settings, formatOnSave: bool)
    | Answer(save: nat, formatted: Option<string>, settings: Settings)

  /** What a step comes to: nothing, a text handed to the formatter, or a text to be saved. */
  datatype Result = Nothing | Formatting(handed: string) | Saved(text: string, settings: Settings)

  predicate Enabled(w: World, step: Step) {
    step.Answer? ==> step.save in w.waiting
  }

  function ContentAfter(content: string, step: Step): string {
    match step
    case Edit(text) => text
    case BeginSave(settings, _) => NormalizeForSave(content, settings)
    case Answer(_, formatted, settings) =>
      if formatted.None? then content else NormalizeForSave(formatted.value, settings)
  }

  function ResultOf(content: string, step: Step): Result {
    match step
    case Edit(_) => Nothing
    case BeginSave(settings, formatOnSave) =>
      var prepared := NormalizeForSave(content, settings);
      if formatOnSave then Formatting(prepared) else Saved(prepared, settings)
    case Answer(_, formatted, settings) =>
      if formatted.None? then Nothing else Saved(NormalizeForSave(formatted.value, settings), settings)
  }

  function OriginAfter(w: World, step: Step, now: nat): nat
    requires Enabled(w, step)
  {
    match step
    case Edit(_) => now + 1
    case BeginSave(_, _) => w.document.origin
    case Answer(save, formatted, _) => if formatted.None? then w.document.origin else w.waiting[save].origin
  }

  function Happen(w: World, step: Step, now: nat): World
    requires Enabled(w, step)
  {
    var document := Version(ContentAfter(w.document.content, step), OriginAfter(w, step, now));
    World(document,
          if step.BeginSave? && step.formatOnSave then w.waiting[now := document]
          else if step.Answer? then w.waiting - {step.save}
          else w.waiting)
  }

  /** A run: the world before every step, and the one after the last. */
  ghost predicate IsRun(initial: string, steps: seq<Step>, worlds: seq<World>) {
    && |worlds| == |steps| + 1 && worlds[0] == World(Version(initial, 0), map[])
    && forall i :: 0 <= i < |steps| ==> Follows(worlds[i], steps[i], i, worlds[i + 1])
  }

  ghost predicate Follows(w: World, step: Step, now: nat, next: World) {
    Enabled(w, step) && next == Happen(w, step, now)
  }

  lemma StepAt(initial: string, steps: seq<Step>, worlds: seq<World>, i: nat)
    requires IsRun(initial, steps, worlds) && i < |steps|
    ensures Follows(worlds[i], steps[i], i, worlds[i + 1])
  {}

  // ---------------------------------------------------------------------------
  // What is saved
  // ---------------------------------------------------------------------------

  /** Every text that is saved satisfies the conventions of its settings, whatever the formatter returns and
      whatever is edited and saved meanwhile. */
  lemma EverySavedTextIsConventional(initial: string, steps: seq<Step>, worlds: seq<World>, n: nat)
    requires IsRun(initial, steps, worlds) && n < |steps|
    ensures var result := ResultOf(worlds[n].document.content, steps[n]);
            result.Saved? ==>
              && Conventional(result.text, result.settings)
              && result.text == worlds[n + 1].document.content
  {
    StepAt(initial, steps, worlds, n);
    match steps[n]
    case Edit(_) =>
    case BeginSave(settings, _) => NormalizeIsConventional(worlds[n].document.content, settings);
    case Answer(_, formatted, settings) =>
      if formatted.Some? {
        NormalizeIsConventional(formatted.value, settings);
      }
  }

  /** What every step of a run comes to: a save hands what the document holds then to the formatter, and waits with it, or
      saves it at once if it is not to be formatted; a successful answer saves what the document holds then; a failed one
      saves nothing and leaves the document alone. */
  lemma ResultExactly(initial: string, steps: seq<Step>, worlds: seq<World>, n: nat)
    requires IsRun(initial, steps, worlds) && n < |steps|
    ensures var result, next := ResultOf(worlds[n].document.content, steps[n]), worlds[n + 1];
            match steps[n]
            case Edit(text) => result == Nothing && next == World(Version(text, n + 1), worlds[n].waiting)
            case BeginSave(settings, formatOnSave) =>
              && next.document.origin == worlds[n].document.origin
              && result == (if formatOnSave then Formatting(next.document.content) else Saved(next.document.content, settings))
              && next.waiting == if formatOnSave then worlds[n].waiting[n := next.document] else worlds[n].waiting
            case Answer(save, formatted, settings) =>
              && next.waiting == worlds[n].waiting - {save}
              && if formatted.None? then result == Nothing && next.document == worlds[n].document
                 else result == Saved(next.document.content, settings)
  {
    StepAt(initial, steps, worlds, n);
  }

  // ---------------------------------------------------------------------------
  // Where the content comes from
  // ---------------------------------------------------------------------------

  /** What waits after a step waited before it, or has just begun. */
  lemma WaitingStep(w: World, step: Step, now: nat, next: World, save: nat)
    requires Follows(w, step, now, next) && save in next.waiting
    ensures (save in w.waiting && next.waiting[save] == w.waiting[save])
            || (save == now && step.BeginSave? && next.waiting[save] == next.document)
  {}

  /** A save that waits holds the text of the moment it began. */
  lemma {:induction false} WaitingSince(initial: string, steps: seq<Step>, worlds: seq<World>, n: nat, save: nat)
    requires IsRun(initial, steps, worlds) && n <= |steps| && save in worlds[n].waiting
    ensures save < n && steps[save].BeginSave?
    ensures worlds[n].waiting[save] == worlds[save + 1].document
    decreases n
  {
    if n > 0 {
      StepAt(initial, steps, worlds, n - 1);
      WaitingStep(worlds[n - 1], steps[n - 1], n - 1, worlds[n], save);
      if save in worlds[n - 1].waiting {
        WaitingSince(initial, steps, worlds, n - 1, save);
      }
    }
  }

  /** The edit a run's content comes from, told from the steps: the last one, but that an answer of the
      formatter goes back to the moment its save began. */
  function Origin(steps: seq<Step>): nat
    decreases |steps|
  {
    if steps == [] then 0
    else
      var n := |steps| - 1;
      if steps[n].Edit? then n + 1
      else if steps[n].Answer? && steps[n].formatted.Some? then
        if steps[n].save < n then Origin(steps[..steps[n].save]) else 0
      else Origin(steps[..n])
  }

  lemma OriginSnoc(steps: seq<Step>, step: Step)
    ensures Origin(steps + [step]) ==
              if step.Edit? then |steps| + 1
              else if step.Answer? && step.formatted.Some? then
                if step.save < |steps| then Origin(steps[..step.save]) else 0
              else Origin(steps)
  {
    var all := steps + [step];
    assert all[..|steps|] == steps;
    if step.Answer? && step.save < |steps| {
      assert all[..step.save] == steps[..step.save];
    }
  }

  lemma BeginKeepsOrigin(initial: string, steps: seq<Step>, worlds: seq<World>, save: nat)
    requires IsRun(initial, steps, worlds) && save < |steps| && steps[save].BeginSave?
    ensures worlds[save + 1].document.origin == worlds[save].document.origin
  {
    StepAt(initial, steps, worlds, save);
  }

  lemma {:induction false} OriginExactly(initial: string, steps: seq<Step>, worlds: seq<World>, n: nat)
    requires IsRun(initial, steps, worlds) && n <= |steps|
    ensures worlds[n].document.origin == Origin(steps[..n]) <= n
    decreases n
  {
    if n == 0 {
      return;
    }
    var step := steps[n - 1];
    OriginExactly(initial, steps, worlds, n - 1);
    if step.Answer? && step.formatted.Some? {
      AnswerGoesBack(initial, steps, worlds, n - 1);
      OriginExactly(initial, steps, worlds, step.save);
      OriginOfAnswer(steps, n);
    } else {
      OriginOfOther(initial, steps, worlds, n);
    }
  }

  lemma OriginOfAnswer(steps: seq<Step>, n: nat)
    requires 0 < n <= |steps| && steps[n - 1].Answer? && steps[n - 1].formatted.Some? && steps[n - 1].save < n - 1
    ensures Origin(steps[..n]) == Origin(steps[..steps[n - 1].save])
  {
    var before := steps[..n - 1];
    assert steps[..n] == before + [steps[n - 1]];
    OriginSnoc(before, steps[n - 1]);
    assert before[..steps[n - 1].save] == steps[..steps[n - 1].save];
  }

  lemma OriginOfOther(initial: string, steps: seq<Step>, worlds: seq<World>, n: nat)
    requires IsRun(initial, steps, worlds) && 0 < n <= |steps|
    requires !(steps[n - 1].Answer? && steps[n - 1].formatted.Some?)
    requires worlds[n - 1].document.origin == Origin(steps[..n - 1]) <= n - 1
    ensures worlds[n].document.origin == Origin(steps[..n]) <= n
  {
    assert steps[..n] == steps[..n - 1] + [steps[n - 1]];
    OriginSnoc(steps[..n - 1], steps[n - 1]);
    StepAt(initial, steps, worlds, n - 1);
  }

  /** A successful answer goes back to the document its save began with. */
  lemma AnswerGoesBack(initial: string, steps: seq<Step>, worlds: seq<World>, answer: nat)
    requires IsRun(initial, steps, worlds) && answer < |steps|
    requires steps[answer].Answer? && steps[answer].formatted.Some?
    ensures steps[answer].save < answer && steps[steps[answer].save].BeginSave?
    ensures worlds[answer + 1].document.origin == worlds[steps[answer].save].document.origin
         == worlds[steps[answer].save + 1].document.origin
  {
    StepAt(initial, steps, worlds, answer);
    WaitingSince(initial, steps, worlds, answer, steps[answer].save);
    BeginKeepsOrigin(initial, steps, worlds, steps[answer].save);
  }

  /** What is typed while a save waits for the formatter is lost: after a successful answer the content comes from
      an edit before the save began, whatever has happened since. */
  lemma TypedWhileFormattingIsLost(initial: string, steps: seq<Step>, worlds: seq<World>, edit: nat, answer: nat)
    requires IsRun(initial, steps, worlds) && edit < answer < |steps| && steps[edit].Edit?
    requires steps[answer].Answer? && steps[answer].formatted.Some? && steps[answer].save < edit
    ensures worlds[answer + 1].document.origin <= steps[answer].save
  {
    AnswerGoesBack(initial, steps, worlds, answer);
    OriginExactly(initial, steps, worlds, steps[answer].save);
  }

  /** Step k is a successful answer to a save that began before the edit. */
  predicate Overwrites(steps: seq<Step>, edit: nat, k: nat) {
    edit < k < |steps| && steps[k].Answer? && steps[k].formatted.Some? && steps[k].save < edit
  }

  /** Otherwise it is not: with no such answer, the content comes from the last edit. */
  lemma {:induction false} LastEditIsKept(initial: string, steps: seq<Step>, worlds: seq<World>, edit: nat, n: nat)
    requires IsRun(initial, steps, worlds) && edit < n <= |steps| && steps[edit].Edit?
    requires forall k :: edit < k < n ==> !steps[k].Edit? && !Overwrites(steps, edit, k)
    ensures worlds[n].document.origin == edit + 1
    decreases n
  {
    StepAt(initial, steps, worlds, n - 1);
    if n - 1 > edit {
      LastEditIsKept(initial, steps, worlds, edit, n - 1);
      var step := steps[n - 1];
      if step.Answer? && step.formatted.Some? {
        AnswerGoesBack(initial, steps, worlds, n - 1);
        assert !Overwrites(steps, edit, n - 1);
        LastEditIsKept(initial, steps, worlds, edit, step.save + 1);
      }
    }
  }

  /** A save begins only when none waits. */
  ghost predicate OneAtATime(initial: string, steps: seq<Step>, worlds: seq<World>)
    requires IsRun(initial, steps, worlds)
  {
    forall k :: 0 <= k < |steps| && steps[k].BeginSave? ==> worlds[k].waiting == map[]
  }

  lemma {:induction false} OneWaits(initial: string, steps: seq<Step>, worlds: seq<World>, n: nat)
    requires IsRun(initial, steps, worlds) && OneAtATime(initial, steps, worlds) && n <= |steps|
    ensures forall a, b :: a in worlds[n].waiting && b in worlds[n].waiting ==> a == b
    decreases n
  {
    if n > 0 {
      StepAt(initial, steps, worlds, n - 1);
      OneWaits(initial, steps, worlds, n - 1);
    }
  }

  /** The document and the texts of all saves that wait come from before the edit. */
  ghost predicate AllBefore(w: World, edit: nat) {
    w.document.origin <= edit && forall save :: save in w.waiting ==> w.waiting[save].origin <= edit
  }

  lemma BeforeStays(w: World, step: Step, now: nat, next: World, edit: nat)
    requires Follows(w, step, now, next) && AllBefore(w, edit) && !step.Edit?
    ensures AllBefore(next, edit)
  {}

  lemma OnlyOneAnswered(w: World, step: Step, now: nat, next: World)
    requires Follows(w, step, now, next) && step.Answer?
    requires forall a, b :: a in w.waiting && b in w.waiting ==> a == b
    ensures next.waiting == map[]
  {}

  lemma OverwrittenAll(initial: string, steps: seq<Step>, worlds: seq<World>, edit: nat, k: nat)
    requires IsRun(initial, steps, worlds) && OneAtATime(initial, steps, worlds)
    requires Overwrites(steps, edit, k) && steps[edit].Edit?
    ensures AllBefore(worlds[k + 1], edit)
  {
    TypedWhileFormattingIsLost(initial, steps, worlds, edit, k);
    OneWaits(initial, steps, worlds, k);
    StepAt(initial, steps, worlds, k);
    OnlyOneAnswered(worlds[k], steps[k], k, worlds[k + 1]);
  }

  lemma {:induction false} BeforeLasts(initial: string, steps: seq<Step>, worlds: seq<World>, edit: nat, from: nat, n: nat)
    requires IsRun(initial, steps, worlds) && from <= n <= |steps| && AllBefore(worlds[from], edit)
    requires forall j :: from <= j < n ==> !steps[j].Edit?
    ensures AllBefore(worlds[n], edit)
    decreases n
  {
    if from < n {
      BeforeLasts(initial, steps, worlds, edit, from, n - 1);
      StepAt(initial, steps, worlds, n - 1);
      BeforeStays(worlds[n - 1], steps[n - 1], n - 1, worlds[n], edit);
    }
  }

  /** So where saves do not overlap, the last edit is kept exactly if no answer to an earlier save has come. */
  lemma LastEditKeptExactly(initial: string, steps: seq<Step>, worlds: seq<World>, edit: nat)
    requires IsRun(initial, steps, worlds) && OneAtATime(initial, steps, worlds) && edit < |steps| && steps[edit].Edit?
    requires forall k :: edit < k < |steps| ==> !steps[k].Edit?
    ensures worlds[|steps|].document.origin == edit + 1 <==> forall k: nat :: !Overwrites(steps, edit, k)
  {
    if k: nat :| Overwrites(steps, edit, k) {
      OverwrittenAll(initial, steps, worlds, edit, k);
      BeforeLasts(initial, steps, worlds, edit, k + 1, |steps|);
    } else {
      LastEditIsKept(initial, steps, worlds, edit, |steps|);
    }
  }

  // ---------------------------------------------------------------------------
  // What becomes of an edit
  // ---------------------------------------------------------------------------

  type Formatter = string -> Option<string>

  /** The conventions applied, to the text itself or to what the formatter makes of it. */
  datatype Treatment = Treatment(viaFormatter: bool, settings: Settings)

  function Treated(format: Formatter, text: string, treatments: seq<Treatment>): Option<string> {
    if treatments == [] then Some(text)
    else
      var last := treatments[|treatments| - 1];
      match Treated(format, text, treatments[..|treatments| - 1])
      case None => None
      case Some(before) =>
        var input := if last.viaFormatter then format(before) else Some(before);
        if input.None? then None else Some(NormalizeForSave(input.value, last.settings))
  }

  ghost predicate DerivesFrom(format: Formatter, text: string, content: string) {
    exists treatments :: Treated(format, text, treatments) == Some(content)
  }

  lemma DerivesOnce(format: Formatter, text: string, content: string, treatment: Treatment)
    requires DerivesFrom(format, text, content)
    requires treatment.viaFormatter ==> format(content).Some?
    ensures DerivesFrom(format, text, NormalizeForSave(if treatment.viaFormatter then format(content).value else content,
                                                       treatment.settings))
  {
    var before :| Treated(format, text, before) == Some(content);
    var treatments := before + [treatment];
    assert treatments[..|treatments| - 1] == before;
    assert Treated(format, text, treatments).Some?;
  }

  /** The formatter says what it makes of the text it was handed. */
  ghost predicate Answers(format: Formatter, initial: string, steps: seq<Step>, worlds: seq<World>)
    requires IsRun(initial, steps, worlds)
  {
    forall k :: 0 <= k < |steps| && steps[k].Answer? && steps[k].formatted.Some? ==>
      steps[k].save in worlds[k].waiting
      && format(worlds[k].waiting[steps[k].save].content) == steps[k].formatted
  }

  function OriginText(initial: string, steps: seq<Step>, origin: nat): string {
    if 0 < origin <= |steps| && steps[origin - 1].Edit? then steps[origin - 1].text else initial
  }

  /** The document of a world is the text it comes from, treated. */
  ghost predicate Derived(format: Formatter, initial: string, steps: seq<Step>, document: Version) {
    DerivesFrom(format, OriginText(initial, steps, document.origin), document.content)
  }

  lemma PreparedIsDerived(format: Formatter, initial: string, steps: seq<Step>, document: Version, settings: Settings)
    requires Derived(format, initial, steps, document)
    ensures Derived(format, initial, steps, document.(content := NormalizeForSave(document.content, settings)))
  {
    DerivesOnce(format, OriginText(initial, steps, document.origin), document.content, Treatment(false, settings));
  }

  lemma AnswerIsDerived(format: Formatter, initial: string, steps: seq<Step>, handed: Version, formatted: string,
                        settings: Settings)
    requires Derived(format, initial, steps, handed) && format(handed.content) == Some(formatted)
    ensures Derived(format, initial, steps, handed.(content := NormalizeForSave(formatted, settings)))
  {
    DerivesOnce(format, OriginText(initial, steps, handed.origin), handed.content, Treatment(true, settings));
  }

  lemma EditIsDerived(format: Formatter, initial: string, steps: seq<Step>, n: nat)
    requires n < |steps| && steps[n].Edit?
    ensures Derived(format, initial, steps, Version(steps[n].text, n + 1))
  {
    assert Treated(format, steps[n].text, []) == Some(steps[n].text);
  }

  /** The content is the text of the edit it comes from, treated. */
  lemma {:induction false} ContentIsOfOrigin(format: Formatter, initial: string, steps: seq<Step>, worlds: seq<World>, n: nat)
    requires IsRun(initial, steps, worlds) && Answers(format, initial, steps, worlds) && n <= |steps|
    ensures Derived(format, initial, steps, worlds[n].document)
    decreases n
  {
    if n == 0 {
      assert Treated(format, initial, []) == Some(initial);
      return;
    }
    var before, step := worlds[n - 1], steps[n - 1];
    StepAt(initial, steps, worlds, n - 1);
    match step
    case Edit(_) => EditIsDerived(format, initial, steps, n - 1);
    case BeginSave(settings, _) =>
      ContentIsOfOrigin(format, initial, steps, worlds, n - 1);
      PreparedIsDerived(format, initial, steps, before.document, settings);
    case Answer(save, formatted, settings) =>
      if formatted.None? {
        ContentIsOfOrigin(format, initial, steps, worlds, n - 1);
      } else {
        WaitingSince(initial, steps, worlds, n - 1, save);
        ContentIsOfOrigin(format, initial, steps, worlds, save + 1);
        AnswerIsDerived(format, initial, steps, before.waiting[save], formatted.value, settings);
      }
  }

  /** The text as the saves that begin at steps `from` to n have prepared it. */
  function Prepared(text: string, steps: seq<Step>, from: nat, n: nat): string
    requires n <= |steps|
  {
    if n <= from then text else PreparedBy(Prepared(text, steps, from, n - 1), steps[n - 1])
  }

  function PreparedBy(text: string, step: Step): string {
    if step.BeginSave? then NormalizeForSave(text, step.settings) else text
  }

  lemma UnansweredStep(w: World, step: Step, now: nat, next: World)
    requires Follows(w, step, now, next) && !step.Edit? && !(step.Answer? && step.formatted.Some?)
    ensures next.document.content == PreparedBy(w.document.content, step)
  {}

  /** While no answer comes, the content is the last edit, as the saves begun since have prepared it. */
  lemma {:induction false} UnansweredEdit(initial: string, steps: seq<Step>, worlds: seq<World>, edit: nat, n: nat)
    requires IsRun(initial, steps, worlds) && edit < n <= |steps| && steps[edit].Edit?
    requires forall k :: edit < k < n ==> !steps[k].Edit? && !(steps[k].Answer? && steps[k].formatted.Some?)
    ensures worlds[n].document.content == Prepared(steps[edit].text, steps, edit + 1, n)
    decreases n
  {
    StepAt(initial, steps, worlds, n - 1);
    if n - 1 > edit {
      UnansweredEdit(initial, steps, worlds, edit, n - 1);
      UnansweredStep(worlds[n - 1], steps[n - 1], n - 1, worlds[n]);
    }
  }

  // ---------------------------------------------------------------------------
  // It happens
  // ---------------------------------------------------------------------------

  const KEEP := Settings(false, true)

  lemma OneLetter(text: string)
    requires text == "a" || text == "b"
    ensures NormalizeForSave(text, KEEP) == text + "\n"
  {
    assert text[1..] == "" && text[..0] == "";
    UnixLinesShape(text);
  }

  lemma Snoc(initial: string, steps: seq<Step>, worlds: seq<World>, step: Step, next: World)
    requires IsRun(initial, steps, worlds) && Follows(worlds[|steps|], step, |steps|, next)
    ensures IsRun(initial, steps + [step], worlds + [next])
  {
    var allSteps, allWorlds := steps + [step], worlds + [next];
    forall i | 0 <= i < |allSteps| ensures Follows(allWorlds[i], allSteps[i], i, allWorlds[i + 1]) {
      if i < |steps| {
        StepAt(initial, steps, worlds, i);
      }
    }
  }

  /** Two saves overlap: the answer to the first replaces what was typed since, and the answer to the second
      brings it back. */
  lemma SecondSaveBringsItBack() returns (worlds: seq<World>)
    ensures IsRun("a", [BeginSave(KEEP, true), Edit("b"), BeginSave(KEEP, true), Answer(0, Some("a"), KEEP), Answer(2, Some("b"), KEEP)], worlds)
    ensures worlds[4].document == Version("a\n", 0) && worlds[5].document == Version("b\n", 2)
  {
    OneLetter("a");
    OneLetter("b");
    var save, first, second := BeginSave(KEEP, true), Answer(0, Some("a"), KEEP), Answer(2, Some("b"), KEEP);
    var w0 := World(Version("a", 0), map[]);
    var w1 := Happen(w0, save, 0);
    var w2 := Happen(w1, Edit("b"), 1);
    var w3 := Happen(w2, save, 2);
    var w4 := Happen(w3, first, 3);
    var w5 := Happen(w4, second, 4);
    Snoc("a", [], [w0], save, w1);
    Snoc("a", [] + [save], [w0] + [w1], Edit("b"), w2);
    Snoc("a", [] + [save] + [Edit("b")], [w0] + [w1] + [w2], save, w3);
    Snoc("a", [] + [save] + [Edit("b")] + [save], [w0] + [w1] + [w2] + [w3], first, w4);
    Snoc("a", [] + [save] + [Edit("b")] + [save] + [first], [w0] + [w1] + [w2] + [w3] + [w4], second, w5);
    assert [] + [save] + [Edit("b")] + [save] + [first] + [second] == [save, Edit("b"), save, first, second];
    worlds := [w0] + [w1] + [w2] + [w3] + [w4] + [w5];
  }

  // ---------------------------------------------------------------------------
  // The document
  // ---------------------------------------------------------------------------

  class OpenDocument {
    const isText: bool
    var content: string

    constructor (isText: bool, content: string)
      ensures this.isText == isText && this.content == content
    {
      this.isText := isText;
      this.content := content;
    }

    /** `applySaveConventionsToDocument`: None where the document cannot be saved as text. */
    method ApplySaveConventions(settings: Settings) returns (saved: Option<string>)
      modifies this
      ensures content == if isText then NormalizeForSave(old(content), settings) else old(content)
      ensures saved == if isText then Some(content) else None
    {
      if !isText {
        return None;
      }
      var normalizedContent := NormalizeForSave(content, settings);
      if normalizedContent != content {
        content := normalizedContent;
      }
      saved := Some(content);
    }

    method UpdateDocumentContent(text: string)
      requires isText
      modifies this
      ensures content == ContentAfter(old(content), Edit(text))
    {
      content := text;
    }

    /** `prepareDocumentForSave` up to the call of the formatter. */
    method PrepareForSave(settings: Settings, formatOnSave: bool) returns (result: Result)
      modifies this
      ensures content == if isText then ContentAfter(old(content), BeginSave(settings, formatOnSave)) else old(content)
      ensures result == if isText then ResultOf(old(content), BeginSave(settings, formatOnSave)) else Nothing
    {
      var prepared := ApplySaveConventions(settings);
      if prepared.None? {
        return Nothing;
      }
      result := if formatOnSave then Formatting(content) else Saved(content, settings);
    }

    /** The rest of it, when the formatter has answered the save begun at `save`, under the settings of that time. */
    method OnFormatted(save: nat, formatted: Option<string>, settings: Settings) returns (result: Result)
      requires isText
      modifies this
      ensures content == ContentAfter(old(content), Answer(save, formatted, settings))
      ensures result == ResultOf(old(content), Answer(save, formatted, settings))
    {
      if formatted.None? {
        return Nothing;
      }
      UpdateDocumentContent(formatted.value);
      var saved := ApplySaveConventions(settings);
      result := Saved(saved.value, settings);
    }
  }
}
