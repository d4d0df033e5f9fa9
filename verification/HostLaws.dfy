/** What each document operation of the host does to the texts, versions, paths and parses it keeps. */
module HostLaws {
  import opened Options
  import opened Utf8
  import opened DocumentStaging

  /** All documents but one are there as before, except for what lowering may change of their parses. */
  ghost predicate OthersKept(before: Documents, after: Documents, id: string) {
    forall other :: other != id ==>
      && (other in after <==> other in before)
      && (other in before ==>
            && after[other].source == before[other].source && after[other].version == before[other].version
            && after[other].text == before[other].text && after[other].path == before[other].path
            && (after[other].hir.Some? <==> before[other].hir.Some?))
  }

  /** The document is there with this content. */
  predicate Holds(docs: Documents, id: string, source: Source, version: Option<int>, text: Text, path: Option<nat>) {
    && id in docs && docs[id].source == source && docs[id].version == version && docs[id].text == text && docs[id].path == path
  }

  lemma {:induction false} PutKeeps(lang: Language, docs: Documents, id: string, document: Document, relower: bool)
    requires Lawful(lang)
    ensures var after := Put(lang, docs, id, document, relower);
            && OthersKept(docs, after, id) && Holds(after, id, document.source, document.version, document.text, document.path)
            && (after[id].hir.Some? <==> document.hir.Some?)
            && after == if relower then lang.relower(docs[id := document]) else docs[id := document]
  {
    if relower {
      assert Relowers(lang, docs[id := document], lang.relower(docs[id := document]));
    }
  }

  /** An overlay that is open is left alone; otherwise the document is the overlay that was opened, parsed. */
  lemma {:induction false} OpenLaw(lang: Language, docs: Documents, id: string, version: int, text: Text, path: Option<nat>)
    requires Lawful(lang)
    ensures var (after, outcome) := Opened(lang, docs, id, version, text, path);
            if id in docs && docs[id].source == Overlay then outcome == AlreadyOpen && after == docs
            else
              var put := docs[id := Document(Overlay, Some(version), text, path, lang.parse(docs, text, path))];
              && outcome == Accepted && OthersKept(docs, after, id)
              && Holds(after, id, Overlay, Some(version), text, path)
              && (after[id].hir.Some? <==> lang.parse(docs, text, path).Some?)
              && after == if lang.contributes(put[id]) then lang.relower(put) else put
  {
    PutKeeps(lang, docs, id, Document(Overlay, Some(version), text, path, lang.parse(docs, text, path)),
             lang.contributes(Document(Overlay, Some(version), text, path, lang.parse(docs, text, path))));
  }

  /** Staging an open leaves the text without a parse, and lowers the others again. */
  lemma {:induction false} StageOpenLaw(lang: Language, docs: Documents, id: string, version: int, text: Text, path: Option<nat>)
    requires Lawful(lang)
    ensures var (after, outcome) := StagedOpen(lang, docs, id, version, text, path);
            if id in docs && docs[id].source == Overlay then outcome == AlreadyOpen && after == docs
            else
              && outcome == Accepted && OthersKept(docs, after, id)
              && Holds(after, id, Overlay, Some(version), text, path) && after[id].hir == None
              && after == lang.relower(docs[id := Document(Overlay, Some(version), text, path, None)])
  {
    PutKeeps(lang, docs, id, Document(Overlay, Some(version), text, path, None), true);
  }

  /** The version of an overlay; one without a version takes no text. */
  predicate Newer(document: Document, version: int) {
    document.version.Some? && document.version.value < version
  }

  /** Staging a text is refused where no overlay is open, and where the version is not newer; otherwise the text
      stands without a parse, at the path of the document. The others are lowered again if the old parse counted. */
  lemma {:induction false} StageTextLaw(lang: Language, docs: Documents, id: string, version: int, text: Text)
    requires Lawful(lang)
    ensures var (after, outcome) := StagedText(lang, docs, id, version, text);
            if id !in docs || docs[id].source == Disk then outcome == NotOpen && after == docs
            else if !Newer(docs[id], version) then
              && outcome == StaleVersion(if docs[id].version.Some? then docs[id].version.value else version, version)
              && after == docs
            else
              var staged := docs[id := Document(Overlay, Some(version), text, docs[id].path, None)];
              && outcome == Accepted && OthersKept(docs, after, id)
              && Holds(after, id, Overlay, Some(version), text, docs[id].path) && after[id].hir == None
              && after == if docs[id].hir.Some? && lang.contributes(docs[id]) then lang.relower(staged) else staged
  {
    if id in docs {
      PutKeeps(lang, docs, id, Document(Overlay, Some(version), text, docs[id].path, None),
               docs[id].hir.Some? && lang.contributes(docs[id]));
    }
  }

  /** A worker prepares an open overlay: its content in the snapshot, with the parse of its text. */
  lemma {:induction false} PrepareLaw(lang: Language, snapshot: Documents, id: string)
    ensures var prepared := Prepare(lang, snapshot, id);
            if id in snapshot && snapshot[id].source == Overlay then
              prepared == Some(Prepared(id, Document(Overlay, snapshot[id].version, snapshot[id].text, snapshot[id].path,
                                                     lang.parse(snapshot, snapshot[id].text, snapshot[id].path))))
            else prepared == None
  {
  }

  /** A prepared document is taken exactly if an overlay is open with its version, text and path; then it stands as
      prepared. */
  lemma {:induction false} CommitLaw(lang: Language, docs: Documents, prepared: Prepared)
    requires Lawful(lang) && prepared.document.source == Overlay
    ensures var (after, taken) := Committed(lang, docs, prepared);
            var (id, document) := (prepared.id, prepared.document);
            && (taken <==> Holds(docs, id, Overlay, document.version, document.text, document.path))
            && (if taken then
                  && OthersKept(docs, after, id) && Holds(after, id, Overlay, document.version, document.text, document.path)
                  && (after[id].hir.Some? <==> document.hir.Some?)
                  && after == if lang.contributes(document) || lang.hasRules then lang.relower(docs[id := document])
                              else docs[id := document]
                else after == docs)
  {
    PutKeeps(lang, docs, prepared.id, prepared.document, lang.contributes(prepared.document) || lang.hasRules);
  }

  // ----- Edits -----

  /** A text in three parts, by two places. */
  predicate Splits(text: seq<Byte>, start: nat, end: nat, before: seq<Byte>, removed: seq<Byte>, behind: seq<Byte>) {
    text == before + removed + behind && |before| == start && |before| + |removed| == end
  }

  lemma {:induction false} SplitLaw(text: seq<Byte>, start: nat, end: nat, before: seq<Byte>, removed: seq<Byte>, behind: seq<Byte>)
    requires start <= end <= |text| && Splits(text, start, end, before, removed, behind)
    ensures before == text[..start] && behind == text[end..]
  {
  }

  /** The text with what stood between two places exchanged. */
  ghost predicate Exchanges(text: seq<Byte>, start: nat, end: nat, inserted: seq<Byte>, edited: seq<Byte>) {
    exists before, removed, behind ::
      Splits(text, start, end, before, removed, behind) && edited == before + inserted + behind
  }

  lemma {:induction false} ExchangeLaw(text: seq<Byte>, start: nat, end: nat, inserted: seq<Byte>, edited: seq<Byte>)
    requires start <= end <= |text|
    ensures Exchanges(text, start, end, inserted, edited) <==> edited == text[..start] + inserted + text[end..]
  {
    if Exchanges(text, start, end, inserted, edited) {
      var before, removed, behind :|
        Splits(text, start, end, before, removed, behind) && edited == before + inserted + behind;
      SplitLaw(text, start, end, before, removed, behind);
    }
    assert Splits(text, start, end, text[..start], text[start..end], text[end..]);
  }

  /** The change takes the bytes between two character boundaries out and puts its text there, or replaces all. */
  ghost predicate Edits(text: Text, change: TextChange, edited: Text) {
    match change.range
    case None => edited == change.text
    case Some((start, end)) =>
      && start <= end <= |text| && Boundary(text, start) && Boundary(text, end)
      && Exchanges(text, start, end, change.text, edited)
  }

  lemma {:induction false} EditLaw(text: Text, change: TextChange, edited: Text)
    ensures Replaced(text, change) == Some(edited) <==> Edits(text, change, edited)
  {
    if change.range.Some? {
      var (start, end) := change.range.value;
      if start <= end <= |text| {
        ExchangeLaw(text, start, end, change.text, edited);
      }
    }
  }

  /** Changes apply one after the other, each to what the ones before it left. */
  ghost predicate EditsAll(text: Text, changes: seq<TextChange>, edited: Text)
    decreases |changes|
  {
    if changes == [] then edited == text
    else exists next: Text :: Edits(text, changes[0], next) && EditsAll(next, changes[1..], edited)
  }

  lemma {:induction false} EditsLaw(text: Text, changes: seq<TextChange>, edited: Text)
    ensures ReplacedAll(text, changes) == Some(edited) <==> EditsAll(text, changes, edited)
    decreases |changes|
  {
    if changes != [] {
      FirstChange(text, changes);
      var first := Replaced(text, changes[0]);
      if first.Some? {
        EditLaw(text, changes[0], first.value);
        EditsLaw(first.value, changes[1..], edited);
      }
      if EditsAll(text, changes, edited) {
        var next: Text :| Edits(text, changes[0], next) && EditsAll(next, changes[1..], edited);
        EditLaw(text, changes[0], next);
      }
    }
  }

  lemma {:induction false} FirstChange(text: Text, changes: seq<TextChange>)
    requires changes != []
    ensures ReplacedAll(text, changes) ==
            if Replaced(text, changes[0]).None? then None else ReplacedAll(Replaced(text, changes[0]).value, changes[1..])
    decreases |changes|
  {
    var front, last := changes[..|changes| - 1], changes[|changes| - 1];
    if front != [] {
      FirstChange(text, front);
      assert front[0] == changes[0] && changes[1..][..|changes| - 2] == front[1..];
    }
  }

  /** Edits are refused like staged texts, and where one of them cuts no text; otherwise all apply and the result is
      parsed. */
  lemma {:induction false} ChangeLaw(lang: Language, docs: Documents, id: string, version: int, changes: seq<TextChange>, edited: Text)
    requires Lawful(lang)
    ensures var (after, outcome) := Changed(lang, docs, id, version, changes);
            if id !in docs || docs[id].source == Disk then outcome == NotOpen && after == docs
            else if !Newer(docs[id], version) then
              && outcome == StaleVersion(if docs[id].version.Some? then docs[id].version.value else version, version)
              && after == docs
            else if EditsAll(docs[id].text, changes, edited) then
              var document := Document(Overlay, Some(version), edited, docs[id].path, lang.parse(docs, edited, docs[id].path));
              && outcome == Accepted && OthersKept(docs, after, id)
              && Holds(after, id, Overlay, Some(version), edited, docs[id].path)
              && (after[id].hir.Some? <==> document.hir.Some?)
              && after == if lang.contributes(docs[id]) || lang.contributes(document) then lang.relower(docs[id := document])
                          else docs[id := document]
            else (outcome == InvalidRange ==> after == docs)
                 && (outcome == Accepted ==> exists other: Text :: EditsAll(docs[id].text, changes, other))
                 && (outcome == Accepted || outcome == InvalidRange)
  {
    if id in docs {
      EditsLaw(docs[id].text, changes, edited);
      var text := ReplacedAll(docs[id].text, changes);
      if text.Some? {
        EditsLaw(docs[id].text, changes, text.value);
        var document := Document(Overlay, Some(version), text.value, docs[id].path, lang.parse(docs, text.value, docs[id].path));
        PutKeeps(lang, docs, id, document, lang.contributes(docs[id]) || lang.contributes(document));
      }
    }
  }

  /** Closing is refused where no overlay is open; otherwise the file at its path stands again, if it can be read, and
      nothing if not. The others are lowered again if the overlay counted. */
  lemma {:induction false} CloseLaw(lang: Language, docs: Documents, id: string, file: Option<Text>)
    requires Lawful(lang)
    ensures var (after, outcome) := Closed(lang, docs, id, file);
            if id !in docs || docs[id].source == Disk then outcome == NotOpen && after == docs
            else
              && outcome == Accepted && OthersKept(docs, after, id)
              && (if docs[id].path.Some? && file.Some? then Holds(after, id, Disk, None, file.value, docs[id].path) else id !in after)
              && var rest := docs - {id};
                 var restored := if docs[id].path.Some? && file.Some? then
                                   rest[id := Document(Disk, None, file.value, docs[id].path,
                                                       lang.parse(rest, file.value, docs[id].path))]
                                 else rest;
                 after == if lang.contributes(docs[id]) then lang.relower(restored) else restored
  {
    if id in docs {
      var rest := docs - {id};
      var after :=
        if docs[id].path.Some? && file.Some? then
          rest[id := Document(Disk, None, file.value, docs[id].path, lang.parse(rest, file.value, docs[id].path))]
        else rest;
      assert Relowers(lang, after, lang.relower(after));
    }
  }

  /** Looking at a file adds it unless the document is known or the file cannot be read. */
  lemma {:induction false} OpenDiskLaw(lang: Language, docs: Documents, id: string, path: nat, file: Option<Text>)
    ensures var (after, added) := OpenedDisk(lang, docs, id, path, file);
            && (added <==> id !in docs && file.Some?)
            && (if added then OthersKept(docs, after, id) && Holds(after, id, Disk, None, file.value, Some(path))
                              && after[id].hir == lang.parse(docs, file.value, Some(path))
                else after == docs)
  {
  }
}
