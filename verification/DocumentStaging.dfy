/** Open documents of the host: texts are staged, parsed by workers on old snapshots, and committed only while
    still current. Parsing and re-lowering are functions with stated laws; reading a file is a parameter. */
module DocumentStaging {
  import opened Options
  import opened Utf8

  datatype Source = Overlay | Disk

  /** The lowered form of a text, together with facts from elsewhere. */
  type Hir(00, !new)

  datatype Document = Document(source: Source, version: Option<int>, text: Text, path: Option<nat>, hir: Option<Hir>)

  type Documents = map<string, Document>

  /** Replaces a byte range, or everything. */
  datatype TextChange = TextChange(range: Option<(nat, nat)>, text: Text)

  datatype Outcome = Accepted | AlreadyOpen | NotOpen | StaleVersion(current: int, received: int) | InvalidRange

  datatype Language = Language(
    parse: (Documents, Text, Option<nat>) -> Option<Hir>,
    relower: Documents -> Documents,
    contributes: Document -> bool,
    lowers: (Hir, Text) -> bool,
    hasRules: bool)

  /** The document as it is, except for what lowering may change of it. */
  predicate SameButHir(a: Document, b: Document) {
    a == b.(hir := a.hir) && (a.hir.Some? <==> b.hir.Some?)
  }

  /** Parsing lowers the text it is given; re-lowering keeps every document and lowers it again. */
  ghost predicate Lawful(lang: Language) {
    && (forall docs, text, path :: lang.parse(docs, text, path).Some? ==>
          lang.lowers(lang.parse(docs, text, path).value, text))
    && (forall docs :: Relowers(lang, docs, lang.relower(docs)))
  }

  ghost predicate Relowers(lang: Language, before: Documents, after: Documents) {
    && after.Keys == before.Keys
    && forall id :: id in before ==>
         && SameButHir(after[id], before[id])
         && (Parsed(lang, before[id]) ==> Parsed(lang, after[id]))
  }

  /** A stored parse is the parse of the document's own text, and an overlay has a version. */
  ghost predicate Parsed(lang: Language, document: Document) {
    && (document.hir.Some? ==> lang.lowers(document.hir.value, document.text))
    && (document.source.Overlay? ==> document.version.Some?)
  }

  ghost predicate AllParsed(lang: Language, docs: Documents) {
    forall id :: id in docs ==> Parsed(lang, docs[id])
  }

  predicate IsOverlay(docs: Documents, id: string) {
    id in docs && docs[id].source.Overlay?
  }

  // ----- What each operation does to the documents -----

  function Put(lang: Language, docs: Documents, id: string, document: Document, relower: bool): Documents {
    if relower then lang.relower(docs[id := document]) else docs[id := document]
  }

  function Opened(lang: Language, docs: Documents, id: string, version: int, text: Text, path: Option<nat>)
    : (Documents, Outcome)
  {
    if IsOverlay(docs, id) then (docs, AlreadyOpen)
    else
      var document := Document(Overlay, Some(version), text, path, lang.parse(docs, text, path));
      (Put(lang, docs, id, document, lang.contributes(document)), Accepted)
  }

  function Staged(version: int, text: Text, path: Option<nat>): Document {
    Document(Overlay, Some(version), text, path, None)
  }

  function StagedOpen(lang: Language, docs: Documents, id: string, version: int, text: Text, path: Option<nat>)
    : (Documents, Outcome)
  {
    if IsOverlay(docs, id) then (docs, AlreadyOpen)
    else (Put(lang, docs, id, Staged(version, text, path), true), Accepted)
  }

  function CurrentVersion(document: Document, version: int): int {
    if document.version.Some? then document.version.value else version
  }

  function StagedText(lang: Language, docs: Documents, id: string, version: int, text: Text): (Documents, Outcome) {
    if !IsOverlay(docs, id) then (docs, NotOpen)
    else
      var current := docs[id];
      if version <= CurrentVersion(current, version) then (docs, StaleVersion(CurrentVersion(current, version), version))
      else
        (Put(lang, docs, id, Staged(version, text, current.path), current.hir.Some? && lang.contributes(current)), Accepted)
  }

  /** A worker's parse of a staged overlay, taken from some snapshot. */
  datatype Prepared = Prepared(id: string, document: Document)

  function Prepare(lang: Language, snapshot: Documents, id: string): Option<Prepared> {
    if !IsOverlay(snapshot, id) then None
    else
      var document := snapshot[id];
      Some(Prepared(id, document.(hir := lang.parse(snapshot, document.text, document.path))))
  }

  /** Is the prepared document still the current one, version, text and path? */
  predicate Matches(docs: Documents, prepared: Prepared) {
    && IsOverlay(docs, prepared.id)
    && docs[prepared.id].version == prepared.document.version
    && docs[prepared.id].text == prepared.document.text
    && docs[prepared.id].path == prepared.document.path
  }

  function Committed(lang: Language, docs: Documents, prepared: Prepared): (Documents, bool) {
    if !Matches(docs, prepared) then (docs, false)
    else
      (Put(lang, docs, prepared.id, prepared.document, lang.contributes(prepared.document) || lang.hasRules), true)
  }

  predicate Sliceable(text: Text, start: nat, end: nat) {
    start <= end <= |text| && Boundary(text, start) && Boundary(text, end)
  }

  function Replaced(text: Text, change: TextChange): Option<Text> {
    match change.range
    case None => Some(change.text)
    case Some((start, end)) =>
      if !Sliceable(text, start, end) then None
      else
        var whole: seq<Byte> := text[..start] + change.text + text[end..];
        assert end < |text| ==> !Continuation(text[end]);
        Some(whole)
  }

  function ReplacedAll(text: Text, changes: seq<TextChange>): Option<Text> {
    if changes == [] then Some(text)
    else
      var before := ReplacedAll(text, changes[..|changes| - 1]);
      if before.None? then None else Replaced(before.value, changes[|changes| - 1])
  }

  function Changed(lang: Language, docs: Documents, id: string, version: int, changes: seq<TextChange>)
    : (Documents, Outcome)
  {
    if !IsOverlay(docs, id) then (docs, NotOpen)
    else
      var current := docs[id];
      if version <= CurrentVersion(current, version) then (docs, StaleVersion(CurrentVersion(current, version), version))
      else
        var text := ReplacedAll(current.text, changes);
        if text.None? then (docs, InvalidRange)
        else
          var document := Document(Overlay, Some(version), text.value, current.path,
                                   lang.parse(docs, text.value, current.path));
          (Put(lang, docs, id, document, lang.contributes(current) || lang.contributes(document)), Accepted)
  }

  /** Closing restores the file at the document's path when it can be read. */
  function Closed(lang: Language, docs: Documents, id: string, file: Option<Text>): (Documents, Outcome) {
    if !IsOverlay(docs, id) then (docs, NotOpen)
    else
      var current := docs[id];
      var rest := docs - {id};
      var after :=
        if current.path.Some? && file.Some? then
          rest[id := Document(Disk, None, file.value, current.path, lang.parse(rest, file.value, current.path))]
        else rest;
      (if lang.contributes(current) then lang.relower(after) else after, Accepted)
  }

  function OpenedDisk(lang: Language, docs: Documents, id: string, path: nat, file: Option<Text>): (Documents, bool) {
    if id in docs || file.None? then (docs, false)
    else (docs[id := Document(Disk, None, file.value, Some(path), lang.parse(docs, file.value, Some(path)))], true)
  }

  // ----- The host -----

  class AnalysisHost {
    const lang: Language
    var documents: Documents
    var revision: nat

    constructor (lang: Language)
      ensures this.lang == lang && documents == map[] && revision == 0
    {
      this.lang := lang;
      documents := map[];
      revision := 0;
    }

    method OpenDocument(id: string, version: int, text: Text, path: Option<nat>) returns (outcome: Outcome)
      modifies this
      ensures (documents, outcome) == Opened(lang, old(documents), id, version, text, path)
      ensures revision == old(revision) + if outcome.Accepted? then 1 else 0
    {
      if id in documents && documents[id].source.Overlay? {
        return AlreadyOpen;
      }
      var document := Document(Overlay, Some(version), text, path, lang.parse(documents, text, path));
      documents := documents[id := document];
      if lang.contributes(document) {
        documents := lang.relower(documents);
      }
      revision := revision + 1;
      return Accepted;
    }

    method StageOpenDocument(id: string, version: int, text: Text, path: Option<nat>) returns (outcome: Outcome)
      modifies this
      ensures (documents, outcome) == StagedOpen(lang, old(documents), id, version, text, path)
      ensures revision == old(revision) + if outcome.Accepted? then 1 else 0
    {
      if id in documents && documents[id].source.Overlay? {
        return AlreadyOpen;
      }
      documents := documents[id := Document(Overlay, Some(version), text, path, None)];
      documents := lang.relower(documents);
      revision := revision + 1;
      return Accepted;
    }

    method StageDocumentText(id: string, version: int, text: Text) returns (outcome: Outcome)
      modifies this
      ensures (documents, outcome) == StagedText(lang, old(documents), id, version, text)
      ensures revision == old(revision) + if outcome.Accepted? then 1 else 0
    {
      if id !in documents || documents[id].source != Overlay {
        return NotOpen;
      }
      var current := documents[id];
      var currentVersion := if current.version.Some? then current.version.value else version;
      if version <= currentVersion {
        return StaleVersion(currentVersion, version);
      }
      documents := documents[id := Document(Overlay, Some(version), text, current.path, None)];
      if current.hir.Some? && lang.contributes(current) {
        documents := lang.relower(documents);
      }
      revision := revision + 1;
      return Accepted;
    }

    method CommitPreparedDocument(prepared: Prepared) returns (committed: bool)
      modifies this
      ensures (documents, committed) == Committed(lang, old(documents), prepared)
      ensures committed == Matches(old(documents), prepared)
      ensures revision == old(revision) + if committed then 1 else 0
    {
      var id := prepared.id;
      if id !in documents {
        return false;
      }
      var current := documents[id];
      if !(current.source == Overlay && current.version == prepared.document.version
           && current.text == prepared.document.text && current.path == prepared.document.path) {
        return false;
      }
      documents := documents[id := prepared.document];
      if lang.contributes(prepared.document) || lang.hasRules {
        documents := lang.relower(documents);
      }
      revision := revision + 1;
      return true;
    }

    /** All changes apply, or none does. */
    method ApplyDocumentChanges(id: string, version: int, changes: seq<TextChange>) returns (outcome: Outcome)
      modifies this
      ensures (documents, outcome) == Changed(lang, old(documents), id, version, changes)
      ensures revision == old(revision) + if outcome.Accepted? then 1 else 0
    {
      if id !in documents || documents[id].source != Overlay {
        return NotOpen;
      }
      var current := documents[id];
      var currentVersion := if current.version.Some? then current.version.value else version;
      if version <= currentVersion {
        return StaleVersion(currentVersion, version);
      }
      var text := EditText(current.text, changes);
      if text.None? {
        return InvalidRange;
      }
      var document := Document(Overlay, Some(version), text.value, current.path,
                               lang.parse(documents, text.value, current.path));
      documents := documents[id := document];
      if lang.contributes(current) || lang.contributes(document) {
        documents := lang.relower(documents);
      }
      revision := revision + 1;
      return Accepted;
    }

    method CloseDocument(id: string, file: Option<Text>) returns (outcome: Outcome)
      modifies this
      ensures (documents, outcome) == Closed(lang, old(documents), id, file)
      ensures revision == old(revision) + if outcome.Accepted? then 1 else 0
    {
      if id !in documents || documents[id].source != Overlay {
        return NotOpen;
      }
      var current := documents[id];
      documents := documents - {id};
      if current.path.Some? && file.Some? {
        documents := documents[id := Document(Disk, None, file.value, current.path,
                                              lang.parse(documents, file.value, current.path))];
      }
      if lang.contributes(current) {
        documents := lang.relower(documents);
      }
      revision := revision + 1;
      return Accepted;
    }

    method OpenDiskDocument(id: string, path: nat, file: Option<Text>) returns (added: bool)
      modifies this
      ensures (documents, added) == OpenedDisk(lang, old(documents), id, path, file)
      ensures revision == old(revision) + if added then 1 else 0
    {
      if id in documents || file.None? {
        return false;
      }
      documents := documents[id := Document(Disk, None, file.value, Some(path),
                                            lang.parse(documents, file.value, Some(path)))];
      revision := revision + 1;
      return true;
    }
  }

  /** Applies the changes of one notification in order. */
  method EditText(original: Text, changes: seq<TextChange>) returns (edited: Option<Text>)
    ensures edited == ReplacedAll(original, changes)
  {
    var text := original;
    for i := 0 to |changes|
      invariant ReplacedAll(original, changes[..i]) == Some(text)
    {
      assert changes[..i + 1][..i] == changes[..i];
      var replaced := Replaced(text, changes[i]);
      if replaced.None? {
        BadChangeStays(original, changes, i + 1);
        return None;
      }
      text := replaced.value;
    }
    assert changes[..|changes|] == changes;
    return Some(text);
  }

  lemma {:induction false} BadChangeStays(original: Text, changes: seq<TextChange>, count: nat)
    requires count <= |changes| && ReplacedAll(original, changes[..count]).None?
    ensures ReplacedAll(original, changes).None?
    decreases |changes| - count
  {
    if count == |changes| {
      assert changes[..count] == changes;
    } else {
      assert changes[..count + 1][..count] == changes[..count];
      BadChangeStays(original, changes, count + 1);
    }
  }

  // ----- Every run of the protocol -----

  /** Workers prepare from any snapshot ever taken and commit any candidate ever prepared, in any order. */
  datatype Protocol = Protocol(docs: Documents, snapshots: seq<Documents>, candidates: seq<Prepared>)

  datatype Op =
    | Open(id: string, version: int, text: Text, path: Option<nat>)
    | StageOpen(id: string, version: int, text: Text, path: Option<nat>)
    | StageText(id: string, version: int, text: Text)
    | PrepareFrom(snapshot: nat, id: string)
    | Commit(candidate: nat)
    | Change(id: string, version: int, changes: seq<TextChange>)
    | Close(id: string, file: Option<Text>)
    | OpenDisk(id: string, location: nat, file: Option<Text>)

  function DocumentsAfter(lang: Language, s: Protocol, op: Op): Documents {
    match op
    case Open(id, version, text, path) => Opened(lang, s.docs, id, version, text, path).0
    case StageOpen(id, version, text, path) => StagedOpen(lang, s.docs, id, version, text, path).0
    case StageText(id, version, text) => StagedText(lang, s.docs, id, version, text).0
    case PrepareFrom(_, _) => s.docs
    case Commit(candidate) =>
      if candidate < |s.candidates| then Committed(lang, s.docs, s.candidates[candidate]).0 else s.docs
    case Change(id, version, changes) => Changed(lang, s.docs, id, version, changes).0
    case Close(id, file) => Closed(lang, s.docs, id, file).0
    case OpenDisk(id, path, file) => OpenedDisk(lang, s.docs, id, path, file).0
  }

  function Step(lang: Language, s: Protocol, op: Op): Protocol {
    var docs := DocumentsAfter(lang, s, op);
    var prepared :=
      if op.PrepareFrom? && op.snapshot < |s.snapshots| then Prepare(lang, s.snapshots[op.snapshot], op.id) else None;
    Protocol(docs, s.snapshots + [docs], s.candidates + if prepared.Some? then [prepared.value] else [])
  }

  function Run(lang: Language, s: Protocol, ops: seq<Op>): Protocol
    decreases |ops|
  {
    if ops == [] then s else Run(lang, Step(lang, s, ops[0]), ops[1..])
  }

  ghost predicate Faithful(lang: Language, s: Protocol) {
    && AllParsed(lang, s.docs)
    && (forall i :: 0 <= i < |s.snapshots| ==> AllParsed(lang, s.snapshots[i]))
    && (forall i :: 0 <= i < |s.candidates| ==> Parsed(lang, s.candidates[i].document) && s.candidates[i].document.source.Overlay?)
  }

  lemma PutIsParsed(lang: Language, docs: Documents, id: string, document: Document, relower: bool)
    requires Lawful(lang) && AllParsed(lang, docs) && Parsed(lang, document)
    ensures AllParsed(lang, Put(lang, docs, id, document, relower))
  {
    var after := docs[id := document];
    assert AllParsed(lang, after);
    assert Relowers(lang, after, lang.relower(after));
  }

  lemma StepIsParsed(lang: Language, s: Protocol, op: Op)
    requires Lawful(lang) && Faithful(lang, s)
    ensures AllParsed(lang, DocumentsAfter(lang, s, op))
  {
    var docs := s.docs;
    match op
    case Open(id, version, text, path) =>
      var document := Document(Overlay, Some(version), text, path, lang.parse(docs, text, path));
      PutIsParsed(lang, docs, id, document, lang.contributes(document));
    case StageOpen(id, version, text, path) => PutIsParsed(lang, docs, id, Staged(version, text, path), true);
    case StageText(id, version, text) =>
      if IsOverlay(docs, id) {
        PutIsParsed(lang, docs, id, Staged(version, text, docs[id].path), docs[id].hir.Some? && lang.contributes(docs[id]));
      }
    case PrepareFrom(_, _) =>
    case Commit(candidate) =>
      if candidate < |s.candidates| {
        var document := s.candidates[candidate].document;
        PutIsParsed(lang, docs, s.candidates[candidate].id, document, lang.contributes(document) || lang.hasRules);
      }
    case Change(id, version, changes) => ChangeIsParsed(lang, docs, id, version, changes);
    case Close(id, file) => CloseIsParsed(lang, docs, id, file);
    case OpenDisk(id, path, file) =>
  }

  lemma ChangeIsParsed(lang: Language, docs: Documents, id: string, version: int, changes: seq<TextChange>)
    requires Lawful(lang) && AllParsed(lang, docs)
    ensures AllParsed(lang, Changed(lang, docs, id, version, changes).0)
  {
    if IsOverlay(docs, id) && ReplacedAll(docs[id].text, changes).Some? {
      var text := ReplacedAll(docs[id].text, changes).value;
      var document := Document(Overlay, Some(version), text, docs[id].path, lang.parse(docs, text, docs[id].path));
      PutIsParsed(lang, docs, id, document, lang.contributes(docs[id]) || lang.contributes(document));
    }
  }

  lemma CloseIsParsed(lang: Language, docs: Documents, id: string, file: Option<Text>)
    requires Lawful(lang) && AllParsed(lang, docs)
    ensures AllParsed(lang, Closed(lang, docs, id, file).0)
  {
    if IsOverlay(docs, id) {
      var rest := docs - {id};
      var path := docs[id].path;
      var after :=
        if path.Some? && file.Some? then rest[id := Document(Disk, None, file.value, path, lang.parse(rest, file.value, path))]
        else rest;
      assert AllParsed(lang, after);
      assert Relowers(lang, after, lang.relower(after));
    }
  }

  /** Whatever stale candidates are committed whenever: a stored parse is always the parse of the current text. */
  lemma {:induction false} ParsesStayCurrent(lang: Language, s: Protocol, ops: seq<Op>)
    requires Lawful(lang) && Faithful(lang, s)
    ensures Faithful(lang, Run(lang, s, ops))
    decreases |ops|
  {
    if ops != [] {
      StepIsParsed(lang, s, ops[0]);
      StepIsFaithful(lang, s, ops[0]);
      ParsesStayCurrent(lang, Step(lang, s, ops[0]), ops[1..]);
    }
  }

  lemma StepIsFaithful(lang: Language, s: Protocol, op: Op)
    requires Lawful(lang) && Faithful(lang, s) && AllParsed(lang, DocumentsAfter(lang, s, op))
    ensures Faithful(lang, Step(lang, s, op))
  {
    if op.PrepareFrom? && op.snapshot < |s.snapshots| {
      var snapshot := s.snapshots[op.snapshot];
      if IsOverlay(snapshot, op.id) {
        assert Parsed(lang, snapshot[op.id]);
      }
    }
  }

  /** While a document stays open its version never falls, and one version means one text and path. */
  ghost predicate Advances(before: Documents, after: Documents, id: string) {
    && IsOverlay(before, id) && IsOverlay(after, id) && before[id].version.Some? && after[id].version.Some?
    && before[id].version.value <= after[id].version.value
    && (before[id].version == after[id].version ==> before[id].text == after[id].text)
    && before[id].path == after[id].path
  }

  lemma PutAdvances(lang: Language, docs: Documents, id: string, other: string, document: Document, relower: bool)
    requires Lawful(lang) && Parsed(lang, document) && AllParsed(lang, docs) && IsOverlay(docs, id)
    requires id == other ==> Advances(docs, docs[id := document], id)
    ensures Advances(docs, Put(lang, docs, other, document, relower), id)
  {
    var after := docs[other := document];
    assert Parsed(lang, docs[id]);
    assert Advances(docs, after, id);
    assert Relowers(lang, after, lang.relower(after));
    assert SameButHir(lang.relower(after)[id], after[id]);
  }

  lemma StepAdvances(lang: Language, s: Protocol, op: Op, id: string)
    requires Lawful(lang) && Faithful(lang, s) && IsOverlay(s.docs, id)
    requires !(op.Close? && op.id == id)
    ensures Advances(s.docs, DocumentsAfter(lang, s, op), id)
  {
    var docs := s.docs;
    assert Parsed(lang, docs[id]);
    match op
    case Open(other, version, text, path) =>
      if !IsOverlay(docs, other) {
        var document := Document(Overlay, Some(version), text, path, lang.parse(docs, text, path));
        PutAdvances(lang, docs, id, other, document, lang.contributes(document));
      }
    case StageOpen(other, version, text, path) =>
      if !IsOverlay(docs, other) {
        PutAdvances(lang, docs, id, other, Staged(version, text, path), true);
      }
    case StageText(other, version, text) =>
      if IsOverlay(docs, other) && version > CurrentVersion(docs[other], version) {
        PutAdvances(lang, docs, id, other, Staged(version, text, docs[other].path),
                    docs[other].hir.Some? && lang.contributes(docs[other]));
      }
    case PrepareFrom(_, _) =>
    case Commit(candidate) =>
      if candidate < |s.candidates| && Matches(docs, s.candidates[candidate]) {
        var document := s.candidates[candidate].document;
        PutAdvances(lang, docs, id, s.candidates[candidate].id, document, lang.contributes(document) || lang.hasRules);
      }
    case Change(other, version, changes) => ChangeAdvances(lang, docs, id, other, version, changes);
    case Close(other, file) => CloseAdvances(lang, docs, id, other, file);
    case OpenDisk(_, _, _) =>
  }

  lemma ChangeAdvances(lang: Language, docs: Documents, id: string, other: string, version: int, changes: seq<TextChange>)
    requires Lawful(lang) && AllParsed(lang, docs) && IsOverlay(docs, id)
    ensures Advances(docs, Changed(lang, docs, other, version, changes).0, id)
  {
    assert Parsed(lang, docs[id]);
    if IsOverlay(docs, other) && version > CurrentVersion(docs[other], version)
       && ReplacedAll(docs[other].text, changes).Some? {
      var text, path := ReplacedAll(docs[other].text, changes).value, docs[other].path;
      var document := Document(Overlay, Some(version), text, path, lang.parse(docs, text, path));
      PutAdvances(lang, docs, id, other, document, lang.contributes(docs[other]) || lang.contributes(document));
    }
  }

  lemma CloseAdvances(lang: Language, docs: Documents, id: string, other: string, file: Option<Text>)
    requires Lawful(lang) && AllParsed(lang, docs) && IsOverlay(docs, id) && id != other
    ensures Advances(docs, Closed(lang, docs, other, file).0, id)
  {
    assert Parsed(lang, docs[id]);
    if IsOverlay(docs, other) {
      var rest := docs - {other};
      var path := docs[other].path;
      var after :=
        if path.Some? && file.Some? then rest[other := Document(Disk, None, file.value, path, lang.parse(rest, file.value, path))]
        else rest;
      assert after[id] == docs[id];
      assert Relowers(lang, after, lang.relower(after));
    }
  }

  lemma AdvancesOn(a: Documents, b: Documents, c: Documents, id: string)
    requires Advances(a, b, id) && Advances(b, c, id)
    ensures Advances(a, c, id)
  {
  }

  /** Over any run that does not close a document, no update of it is lost: its version only rises, and it
      keeps its text for as long as it keeps its version. */
  lemma {:induction false} NoUpdateIsLost(lang: Language, s: Protocol, ops: seq<Op>, id: string)
    requires Lawful(lang) && Faithful(lang, s) && IsOverlay(s.docs, id)
    requires forall op :: op in ops ==> !(op.Close? && op.id == id)
    ensures Advances(s.docs, Run(lang, s, ops).docs, id)
    decreases |ops|
  {
    assert Parsed(lang, s.docs[id]);
    if ops != [] {
      var t := Step(lang, s, ops[0]);
      assert ops[0] in ops;
      StepAdvances(lang, s, ops[0], id);
      StepIsParsed(lang, s, ops[0]);
      StepIsFaithful(lang, s, ops[0]);
      NoUpdateIsLost(lang, t, ops[1..], id);
      AdvancesOn(s.docs, t.docs, Run(lang, s, ops).docs, id);
    }
  }

  /** A commit decides by currency alone: a stale candidate changes nothing at all, and a current one changes
      no document's source, version, text or path. */
  lemma CommitTouchesParsesOnly(lang: Language, docs: Documents, prepared: Prepared)
    requires Lawful(lang) && prepared.document.source.Overlay?
    ensures var (after, committed) := Committed(lang, docs, prepared);
            && committed == Matches(docs, prepared)
            && (!committed ==> after == docs)
            && after.Keys == docs.Keys
            && forall id :: id in docs ==> after[id].(hir := None) == docs[id].(hir := None)
  {
    var put := docs[prepared.id := prepared.document];
    if Matches(docs, prepared) {
      assert Relowers(lang, put, lang.relower(put));
      assert put.Keys == docs.Keys;
      var after := Committed(lang, docs, prepared).0;
      forall id | id in docs
        ensures after[id].(hir := None) == docs[id].(hir := None)
      {
        assert SameButHir(lang.relower(put)[id], put[id]);
      }
    }
  }

  /** A candidate prepared while a document was open and committed before it closes is accepted exactly if no
      newer version arrived in between. */
  lemma CommitAcceptsExactlyTheCurrent(lang: Language, s: Protocol, ops: seq<Op>, id: string)
    requires Lawful(lang) && Faithful(lang, s) && IsOverlay(s.docs, id)
    requires forall op :: op in ops ==> !(op.Close? && op.id == id)
    ensures var prepared := Prepare(lang, s.docs, id);
            var now := Run(lang, s, ops).docs;
            prepared.Some? && id in now && (Matches(now, prepared.value) <==> now[id].version == s.docs[id].version)
  {
    NoUpdateIsLost(lang, s, ops, id);
  }
}
