/** The dynamic definitions a host serves: those of scanned files that no overlay hides, and those of parsed
    overlays. Each document operation tests whether it declares such definitions; the test misses some
    operations that change the set, and exactly those are named here. */
module DefinitionSets {
  import opened Options

  /** A definition of a dynamic kind, with everything that is served of it. */
  datatype Declaration = Declaration(kind: string, name: string, body: string)

  /** A document; `declared` holds the dynamic definitions of its parse, if it is parsed. */
  datatype Document = Document(id: string, path: Option<nat>, overlay: bool, text: string, declared: Option<set<Declaration>>)

  /** The dynamic definitions of the scanned files, by path. */
  type Files = map<nat, set<Declaration>>

  datatype Fact = OnDisk(path: nat, declaration: Declaration) | InOverlay(id: string, declaration: Declaration)

  predicate DistinctIds(documents: seq<Document>) {
    forall i, j :: 0 <= i < j < |documents| ==> documents[i].id != documents[j].id
  }

  function Find(documents: seq<Document>, id: string): (found: Option<Document>)
    ensures found.Some? ==> found.value in documents && found.value.id == id
    ensures found.None? ==> forall d :: d in documents ==> d.id != id
  {
    if documents == [] then None
    else if documents[0].id == id then Some(documents[0])
    else Find(documents[1..], id)
  }

  function Declared(document: Document): set<Declaration> {
    if document.declared.Some? then document.declared.value else {}
  }

  function OnFile(files: Files, path: nat): set<Declaration> {
    if path in files then files[path] else {}
  }

  ghost predicate Hidden(documents: seq<Document>, path: nat) {
    exists d :: d in documents && d.overlay && d.path == Some(path)
  }

  /** The set that definition queries read. */
  ghost predicate Serves(files: Files, documents: seq<Document>, fact: Fact) {
    match fact
    case OnDisk(path, declaration) => declaration in OnFile(files, path) && !Hidden(documents, path)
    case InOverlay(id, declaration) => exists d :: d in documents && d.id == id && d.overlay && declaration in Declared(d)
  }

  ghost predicate SameFacts(files: Files, before: seq<Document>, after: seq<Document>) {
    forall fact :: Serves(files, before, fact) <==> Serves(files, after, fact)
  }

  // ----- Document operations -----

  datatype Step =
    | Open(id: string, path: Option<nat>, text: string, declared: Option<set<Declaration>>)
    | StageOpen(id: string, path: Option<nat>, text: string)
    | StageText(id: string, text: string)
    | CommitPrepared(id: string, declared: Option<set<Declaration>>)
    | Change(id: string, text: string, declared: Option<set<Declaration>>)
    | Close(id: string, restored: Option<Document>)
    | OpenDisk(id: string, file: nat, text: string, declared: Option<set<Declaration>>)

  ghost predicate IsOverlay(documents: seq<Document>, id: string) {
    var current := Find(documents, id);
    current.Some? && current.value.overlay
  }

  /** The operation is not refused. */
  ghost predicate Applies(documents: seq<Document>, step: Step) {
    match step
    case Open(id, _, _, _) => !IsOverlay(documents, id)
    case StageOpen(id, _, _) => !IsOverlay(documents, id)
    case OpenDisk(id, _, _, _) => Find(documents, id).None?
    case Close(id, restored) =>
      IsOverlay(documents, id) && (restored.Some? ==> restored.value.id == id && !restored.value.overlay)
    case _ => IsOverlay(documents, step.id)
  }

  /** The document the operation leaves. */
  ghost function Result(documents: seq<Document>, step: Step): Option<Document>
    requires Applies(documents, step)
  {
    match step
    case Open(id, path, text, declared) => Some(Document(id, path, true, text, declared))
    case StageOpen(id, path, text) => Some(Document(id, path, true, text, None))
    case StageText(id, text) => Some(Find(documents, id).value.(text := text, declared := None))
    case CommitPrepared(id, declared) => Some(Find(documents, id).value.(declared := declared))
    case Change(id, text, declared) => Some(Find(documents, id).value.(text := text, declared := declared))
    case Close(_, restored) => restored
    case OpenDisk(id, file, text, declared) => Some(Document(id, Some(file), false, text, declared))
  }

  /** All other documents stay; the order of the list is left open. */
  ghost predicate Writes(before: seq<Document>, step: Step, after: seq<Document>) {
    && DistinctIds(before) && DistinctIds(after) && Applies(before, step)
    && (forall d: Document :: d.id != step.id ==> (d in before <==> d in after))
    && (forall d: Document :: d in after && d.id == step.id ==> Result(before, step) == Some(d))
    && (Result(before, step).Some? ==> Result(before, step).value in after)
  }

  /** The test by which the host decides to move the definitions watermark. */
  ghost predicate Declares(documents: seq<Document>, step: Step)
    requires Applies(documents, step)
  {
    match step
    case StageOpen(_, _, _) => false
    case StageText(id, _) => Declared(Find(documents, id).value) != {}
    case Change(id, _, declared) => Declared(Find(documents, id).value) != {} || Declared(Result(documents, step).value) != {}
    case Close(id, restored) => Declared(Find(documents, id).value) != {} || (restored.Some? && Declared(restored.value) != {})
    case _ => Declared(Result(documents, step).value) != {}
  }

  /** No other overlay hides the scanned file at the path, and the file declares something. */
  ghost predicate Uncovers(files: Files, documents: seq<Document>, id: string, path: Option<nat>) {
    && path.Some? && OnFile(files, path.value) != {}
    && forall d :: d in documents && d.overlay && d.path == path ==> d.id == id
  }

  /** What a caller can check beforehand: the operation declares itself whenever it changes the set. Opening
      must not hide declarations silently, closing must not bring them back silently, and a commit must not
      silently replace a parse that declared something. */
  ghost predicate Faithful(files: Files, documents: seq<Document>, step: Step)
    requires Applies(documents, step)
  {
    match step
    case Open(id, path, _, declared) => Declared(Result(documents, step).value) != {} || !Uncovers(files, documents, id, path)
    case StageOpen(id, path, _) => !Uncovers(files, documents, id, path)
    case CommitPrepared(id, declared) =>
      Declared(Result(documents, step).value) != {} || Declared(Find(documents, id).value) == {}
    case Close(id, _) => Declares(documents, step) || !Uncovers(files, documents, id, Find(documents, id).value.path)
    case _ => true
  }

  // ----- What moves the watermark -----

  /** A parsed document of the id that declares something stands among the documents. */
  ghost predicate DeclaringBefore(documents: seq<Document>, id: string) {
    exists d :: d in documents && d.id == id && d.declared.Some? && d.declared.value != {}
  }

  /** The operation leaves a parsed document that declares something. */
  ghost predicate DeclaringAfter(step: Step) {
    match step
    case Open(_, _, _, declared) => declared.Some? && declared.value != {}
    case CommitPrepared(_, declared) => declared.Some? && declared.value != {}
    case Change(_, _, declared) => declared.Some? && declared.value != {}
    case OpenDisk(_, _, _, declared) => declared.Some? && declared.value != {}
    case Close(_, restored) => restored.Some? && restored.value.declared.Some? && restored.value.declared.value != {}
    case _ => false
  }

  /** A change and a close ask for declarations before and after; staging a text asks before alone, opening and
      committing after alone, and staging an open document not at all. */
  lemma DeclaresLaw(documents: seq<Document>, step: Step)
    requires DistinctIds(documents) && Applies(documents, step)
    ensures Declares(documents, step) <==>
            || ((step.Change? || step.Close? || step.StageText?) && DeclaringBefore(documents, step.id))
            || (!step.StageOpen? && !step.StageText? && DeclaringAfter(step))
  {
    if DeclaringBefore(documents, step.id) {
      var d :| d in documents && d.id == step.id && d.declared.Some? && d.declared.value != {};
      FindIs(documents, d);
    }
  }

  // ----- When the set changes -----

  lemma FindIs(documents: seq<Document>, d: Document)
    requires DistinctIds(documents) && d in documents
    ensures Find(documents, d.id) == Some(d)
  {
    var found := Find(documents, d.id).value;
    var i :| 0 <= i < |documents| && documents[i] == d;
    var j :| 0 <= j < |documents| && documents[j] == found;
    assert i == j;
  }

  /** What the overlay of an id declares. */
  ghost function OverlayFacts(documents: seq<Document>, id: string): set<Declaration> {
    if IsOverlay(documents, id) then Declared(Find(documents, id).value) else {}
  }

  lemma ServesInOverlay(files: Files, documents: seq<Document>, id: string, declaration: Declaration)
    requires DistinctIds(documents)
    ensures Serves(files, documents, InOverlay(id, declaration)) <==> declaration in OverlayFacts(documents, id)
  {
    if Serves(files, documents, InOverlay(id, declaration)) {
      var d :| d in documents && d.id == id && d.overlay && declaration in Declared(d);
      FindIs(documents, d);
    }
  }

  lemma FindAfter(before: seq<Document>, step: Step, after: seq<Document>, id: string)
    requires Writes(before, step, after)
    ensures Find(after, id) == if id == step.id then Result(before, step) else Find(before, id)
  {
    if id == step.id {
      if Result(before, step).Some? {
        FindIs(after, Result(before, step).value);
      }
    } else if Find(before, id).Some? {
      FindIs(after, Find(before, id).value);
    }
  }

  /** The path an operation's document stands at, as long as it is an overlay. */
  ghost predicate Covers(document: Option<Document>, path: nat) {
    document.Some? && document.value.overlay && document.value.path == Some(path)
  }

  ghost predicate HiddenElsewhere(documents: seq<Document>, id: string, path: nat) {
    exists d :: d in documents && d.id != id && d.overlay && d.path == Some(path)
  }

  lemma HiddenBy(documents: seq<Document>, id: string, path: nat)
    requires DistinctIds(documents)
    ensures Hidden(documents, path) <==> HiddenElsewhere(documents, id, path) || Covers(Find(documents, id), path)
  {
    if Hidden(documents, path) && !HiddenElsewhere(documents, id, path) {
      var d :| d in documents && d.overlay && d.path == Some(path);
      FindIs(documents, d);
    }
  }

  lemma HiddenAfter(before: seq<Document>, step: Step, after: seq<Document>, path: nat)
    requires Writes(before, step, after)
    ensures Hidden(after, path) <==> HiddenElsewhere(before, step.id, path) || Covers(Result(before, step), path)
  {
    HiddenBy(after, step.id, path);
    FindAfter(before, step, after, step.id);
    assert HiddenElsewhere(after, step.id, path) <==> HiddenElsewhere(before, step.id, path);
  }

  /** What an operation does to the two halves of the set. */
  ghost predicate KeepsFiles(files: Files, before: seq<Document>, step: Step)
    requires Applies(before, step)
  {
    forall path: nat :: OnFile(files, path) != {} && !HiddenElsewhere(before, step.id, path) ==>
      (Covers(Find(before, step.id), path) <==> Covers(Result(before, step), path))
  }

  ghost predicate KeepsOverlay(before: seq<Document>, step: Step)
    requires Applies(before, step)
  {
    var result := Result(before, step);
    OverlayFacts(before, step.id) == if result.Some? && result.value.overlay then Declared(result.value) else {}
  }

  lemma FactsKept(files: Files, before: seq<Document>, step: Step, after: seq<Document>)
    requires Writes(before, step, after)
    ensures SameFacts(files, before, after) <==> KeepsFiles(files, before, step) && KeepsOverlay(before, step)
  {
    if KeepsFiles(files, before, step) && KeepsOverlay(before, step) {
      forall fact
        ensures Serves(files, before, fact) <==> Serves(files, after, fact)
      {
        FactKept(files, before, step, after, fact);
      }
    }
    if SameFacts(files, before, after) {
      FilesWereKept(files, before, step, after);
      OverlayWasKept(files, before, step, after);
    }
  }

  lemma FactKept(files: Files, before: seq<Document>, step: Step, after: seq<Document>, fact: Fact)
    requires Writes(before, step, after) && KeepsFiles(files, before, step) && KeepsOverlay(before, step)
    ensures Serves(files, before, fact) <==> Serves(files, after, fact)
  {
    match fact
    case OnDisk(path, _) =>
      HiddenBy(before, step.id, path);
      HiddenAfter(before, step, after, path);
    case InOverlay(id, declaration) =>
      ServesInOverlay(files, before, id, declaration);
      ServesInOverlay(files, after, id, declaration);
      FindAfter(before, step, after, id);
  }

  lemma FilesWereKept(files: Files, before: seq<Document>, step: Step, after: seq<Document>)
    requires Writes(before, step, after) && SameFacts(files, before, after)
    ensures KeepsFiles(files, before, step)
  {
    forall path: nat | OnFile(files, path) != {} && !HiddenElsewhere(before, step.id, path)
      ensures Covers(Find(before, step.id), path) <==> Covers(Result(before, step), path)
    {
      var declaration :| declaration in OnFile(files, path);
      assert Serves(files, before, OnDisk(path, declaration)) <==> Serves(files, after, OnDisk(path, declaration));
      HiddenBy(before, step.id, path);
      HiddenAfter(before, step, after, path);
    }
  }

  lemma OverlayWasKept(files: Files, before: seq<Document>, step: Step, after: seq<Document>)
    requires Writes(before, step, after) && SameFacts(files, before, after)
    ensures KeepsOverlay(before, step)
  {
    FindAfter(before, step, after, step.id);
    forall declaration
      ensures declaration in OverlayFacts(before, step.id) <==> declaration in OverlayFacts(after, step.id)
    {
      assert Serves(files, before, InOverlay(step.id, declaration)) <==> Serves(files, after, InOverlay(step.id, declaration));
      ServesInOverlay(files, before, step.id, declaration);
      ServesInOverlay(files, after, step.id, declaration);
    }
  }

  /** The condition is exact: an operation is faithful if and only if it declares itself or keeps the set. */
  lemma FaithfulIsExact(files: Files, before: seq<Document>, step: Step, after: seq<Document>)
    requires Writes(before, step, after)
    ensures Faithful(files, before, step) <==> Declares(before, step) || SameFacts(files, before, after)
  {
    FactsKept(files, before, step, after);
    var path := match step
      case Open(_, path, _, _) => path
      case StageOpen(_, path, _) => path
      case Close(id, _) => Find(before, id).value.path
      case _ => None;
    if path.Some? {
      UncoversIs(files, before, step.id, path.value);
    }
  }

  lemma UncoversIs(files: Files, documents: seq<Document>, id: string, path: nat)
    ensures Uncovers(files, documents, id, Some(path)) <==> OnFile(files, path) != {} && !HiddenElsewhere(documents, id, path)
  {
  }

  // ----- Silent operations -----

  lemma Alone(d: Document)
    ensures DistinctIds([]) && DistinctIds([d]) && Find([], d.id) == None && Find([d], d.id) == Some(d)
  {
  }

  /** One scanned file, at path 0, declares one definition. */
  function OneFile(d: Declaration): Files {
    map[0 := {d}]
  }

  /** Staging an overlay over the file hides its definition, and says nothing. */
  lemma StagingHides(d: Declaration) returns (step: Step, after: seq<Document>)
    ensures step == StageOpen("a", Some(0), "")
    ensures Writes([], step, after) && !Declares([], step) && !Faithful(OneFile(d), [], step)
    ensures Serves(OneFile(d), [], OnDisk(0, d)) && !Serves(OneFile(d), after, OnDisk(0, d))
  {
    var document := Document("a", Some(0), true, "", None);
    step, after := StageOpen("a", Some(0), ""), [document];
    Alone(document);
    assert document in after && OnFile(OneFile(d), 0) == {d};
  }

  /** So does opening a text that declares nothing. */
  lemma OpeningHides(d: Declaration) returns (step: Step, after: seq<Document>)
    ensures step == Open("a", Some(0), "", Some({}))
    ensures Writes([], step, after) && !Declares([], step) && !Faithful(OneFile(d), [], step)
    ensures Serves(OneFile(d), [], OnDisk(0, d)) && !Serves(OneFile(d), after, OnDisk(0, d))
  {
    var document := Document("a", Some(0), true, "", Some({}));
    step, after := Open("a", Some(0), "", Some({})), [document];
    Alone(document);
    assert document in after && OnFile(OneFile(d), 0) == {d};
  }

  /** Closing an overlay that declares nothing, over a file that reads as nothing now, brings the scanned
      definition back. */
  lemma ClosingReveals(d: Declaration) returns (before: seq<Document>, step: Step)
    ensures step == Close("a", None)
    ensures Writes(before, step, []) && !Declares(before, step) && !Faithful(OneFile(d), before, step)
    ensures !Serves(OneFile(d), before, OnDisk(0, d)) && Serves(OneFile(d), [], OnDisk(0, d))
  {
    var document := Document("a", Some(0), true, "", Some({}));
    before, step := [document], Close("a", None);
    Alone(document);
    assert document in before && OnFile(OneFile(d), 0) == {d};
  }

  /** Committing a parse without definitions over one with a definition drops that definition. */
  lemma CommittingDrops(d: Declaration) returns (before: seq<Document>, step: Step, after: seq<Document>)
    ensures step == CommitPrepared("a", Some({}))
    ensures Writes(before, step, after) && !Declares(before, step) && !Faithful(map[], before, step)
    ensures Serves(map[], before, InOverlay("a", d)) && !Serves(map[], after, InOverlay("a", d))
  {
    var old', new' := Document("a", None, true, "", Some({d})), Document("a", None, true, "", Some({}));
    before, step, after := [old'], CommitPrepared("a", Some({})), [new'];
    Alone(old');
    Alone(new');
    assert old' in before && new' in after && d in Declared(old');
  }
}
