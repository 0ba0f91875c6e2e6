/**
 A name for a new document (src/store/editor.ts, 175-188): "untitled.sh", or "untitled-N.sh" with the
 first N that no unsaved document uses, ignoring case. The loop has no bound of its own; it ends
 because there are finitely many names to step over. Lower-casing is a parameter.
 */
module UntitledName {
  import opened Prelude

  datatype Document = Document(name: string, path: Option<string>)

  const UNTITLED := "untitled.sh"
  const PREFIX := "untitled-"
  const SUFFIX := ".sh"

  function Numbered(index: nat): string {
    PREFIX + Decimal(index) + SUFFIX
  }

  predicate IsUnsaved(document: Document) {
    document.path.None? || document.path.value == ""
  }

  function OccupiedNames(documents: seq<Document>, lower: string -> string): set<string> {
    set d | d in documents && IsUnsaved(d) :: lower(d.name)
  }

  lemma NumberedInjective(i: nat, j: nat)
    requires Numbered(i) == Numbered(j)
    ensures i == j
  {
    var n := Numbered(i);
    assert n[|PREFIX|..|n| - |SUFFIX|] == Decimal(i);
    assert n[|PREFIX|..|n| - |SUFFIX|] == Decimal(j);
    DecimalRoundTrip(i);
    DecimalRoundTrip(j);
  }

  lemma NumberedIsNotUntitled(i: nat)
    ensures Numbered(i) != UNTITLED
  {
    assert Numbered(i)[8] == '-';
    assert UNTITLED[8] == '.';
  }

  /** As many different names as numbers: n taken numbers, and the plain name, need n + 1 entries. */
  lemma {:induction false} TakenNumbersAreFew(occupied: set<string>, n: nat)
    requires UNTITLED in occupied
    requires forall j :: 1 <= j <= n ==> Numbered(j) in occupied
    ensures n + 1 <= |occupied|
    decreases n
  {
    if n > 0 {
      var others := occupied - {Numbered(n)};
      NumberedIsNotUntitled(n);
      forall j | 1 <= j <= n - 1 ensures Numbered(j) in others {
        if Numbered(j) == Numbered(n) {
          NumberedInjective(j, n);
        }
      }
      TakenNumbersAreFew(others, n - 1);
    } else {
      assert {UNTITLED} <= occupied;
      assert |occupied - {UNTITLED}| == |occupied| - 1;
    }
  }

  lemma {:induction false} OccupiedNamesAreFew(documents: seq<Document>, lower: string -> string)
    ensures |OccupiedNames(documents, lower)| <= |documents|
  {
    if documents == [] {
      assert OccupiedNames(documents, lower) == {};
    } else {
      var n := |documents| - 1;
      var before, last := OccupiedNames(documents[..n], lower), documents[n];
      OccupiedNamesAreFew(documents[..n], lower);
      assert documents == documents[..n] + [last];
      assert OccupiedNames(documents, lower) == before + (if IsUnsaved(last) then {lower(last.name)} else {});
    }
  }

  /** The smallest number whose name is free. */
  ghost predicate IsFirstFree(occupied: set<string>, index: nat) {
    && index >= 1 && Numbered(index) !in occupied
    && forall j :: 1 <= j < index ==> Numbered(j) in occupied
  }

  /** Taken are the names, in small letters, of the documents that have no path or an empty one. */
  lemma OccupiedExactly(documents: seq<Document>, lower: string -> string, name: string)
    ensures name in OccupiedNames(documents, lower)
       <==> exists d :: d in documents && d.path in {None, Some("")} && lower(d.name) == name
  {
    forall d | d in documents ensures IsUnsaved(d) <==> d.path in {None, Some("")} {
      assert d.path.Some? && d.path.value == "" ==> d.path == Some("");
    }
  }

  /** Whatever documents there are, the result is the plain name if it is free, else the name with the
      smallest free number, which is at most the number of documents. No unsaved document has it. */
  method ResolveUntitledName(documents: seq<Document>, lower: string -> string) returns (name: string)
    ensures forall d :: d in documents && d.path in {None, Some("")} ==> lower(d.name) != name
    ensures name != UNTITLED ==> exists d :: d in documents && d.path in {None, Some("")} && lower(d.name) == UNTITLED
    ensures UNTITLED !in OccupiedNames(documents, lower) ==> name == UNTITLED
    ensures UNTITLED in OccupiedNames(documents, lower) ==>
              exists index :: 1 <= index <= |documents| && name == Numbered(index)
                              && IsFirstFree(OccupiedNames(documents, lower), index)
  {
    var occupiedNames := OccupiedNames(documents, lower);
    OccupiedNamesAreFew(documents, lower);
    OccupiedExactly(documents, lower, UNTITLED);
    if UNTITLED !in occupiedNames {
      return UNTITLED;
    }
    var index := 1;
    TakenNumbersAreFew(occupiedNames, 0);
    while Numbered(index) in occupiedNames
      invariant 1 <= index <= |occupiedNames|
      invariant forall j :: 1 <= j < index ==> Numbered(j) in occupiedNames
      decreases |occupiedNames| - index
    {
      TakenNumbersAreFew(occupiedNames, index);
      index := index + 1;
    }
    name := Numbered(index);
    OccupiedExactly(documents, lower, name);
  }
}
