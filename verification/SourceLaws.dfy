/** Which files and documents are effective, told from the configured roots, the files and the overlays alone. */
module SourceLaws {
  import opened Options
  import Sorting
  import opened SourceOwnership

  // ----- Preference -----

  predicate SameLetter(a: char, b: char) {
    a == b || ('A' <= a <= 'Z' && a as int + 32 == b as int) || ('A' <= b <= 'Z' && b as int + 32 == a as int)
  }

  /** The identifier's scheme, before its first colon, is `pdcloc` up to ASCII case. */
  predicate OfDecodedText(id: string) {
    |id| > 6 && id[6] == ':' && forall i :: 0 <= i < 6 ==> SameLetter(id[i], "pdcloc"[i])
  }

  lemma {:induction false} DecodedLaw(id: string)
    ensures Decoded(id) <==> OfDecodedText(id)
    ensures OfDecodedText(id) ==> ':' !in id[..6]
  {
    if |id| > 6 {
      forall i | 0 <= i < 6
        ensures Ascii.LowerChar(id[i]) == "pdcloc"[i] <==> SameLetter(id[i], "pdcloc"[i])
      {
        assert Ascii.LowerChar(id[i]) as int == if 'A' <= id[i] <= 'Z' then id[i] as int + 32 else id[i] as int;
        assert 'a' <= "pdcloc"[i] <= 'z';
      }
    }
  }

  /** Two identifiers first differ at a place, where the first ends or has the smaller character. */
  ghost predicate Smaller(a: string, b: string) {
    exists k :: 0 <= k <= |a| && k < |b| && a[..k] == b[..k] && (k == |a| || a[k] < b[k])
  }

  lemma {:induction false} LessLaw(a: string, b: string)
    ensures Less(a, b) <==> Smaller(a, b)
  {
    if Smaller(a, b) {
      var k :| 0 <= k <= |a| && k < |b| && a[..k] == b[..k] && (k == |a| || a[k] < b[k]);
      SmallerIsLess(a, b, k);
    }
    if Less(a, b) {
      LessIsSmaller(a, b);
    }
  }

  lemma {:induction false} SmallerIsLess(a: string, b: string, k: nat)
    requires k <= |a| && k < |b| && a[..k] == b[..k] && (k == |a| || a[k] < b[k])
    ensures Less(a, b)
    decreases k
  {
    if k > 0 {
      assert a[0] == a[..k][0] && b[0] == b[..k][0];
      assert a[1..][..k - 1] == a[..k][1..] && b[1..][..k - 1] == b[..k][1..];
      SmallerIsLess(a[1..], b[1..], k - 1);
    }
  }

  lemma {:induction false} LessIsSmaller(a: string, b: string)
    requires Less(a, b)
    ensures Smaller(a, b)
  {
    if a == [] || a[0] < b[0] {
      assert a[..0] == b[..0];
    } else {
      LessIsSmaller(a[1..], b[1..]);
      var k :| 0 <= k <= |a[1..]| && k < |b[1..]| && a[1..][..k] == b[1..][..k] && (k == |a[1..]| || a[1..][k] < b[1..][k]);
      assert a[..k + 1] == [a[0]] + a[1..][..k] && b[..k + 1] == [b[0]] + b[1..][..k];
    }
  }

  /** A document of decoded text wins over any other; among its like the greater identifier wins. */
  lemma {:induction false} PrefersLaw(current: string, candidate: string)
    ensures Prefers(current, candidate) <==>
            if OfDecodedText(candidate) && !OfDecodedText(current) then true
            else if OfDecodedText(current) && !OfDecodedText(candidate) then false
            else Smaller(current, candidate)
  {
    DecodedLaw(current);
    DecodedLaw(candidate);
    LessLaw(current, candidate);
  }

  // ----- Contenders -----

  /** What may contribute to a logical path: the i-th file, or the overlay that owns a physical path. */
  datatype Contender = OfFile(i: nat) | OfPath(path: nat)

  /** It would stand at the logical path. */
  predicate StandsAt(index: Index, owners: map<nat, string>, logical: nat, c: Contender) {
    match c
    case OfFile(i) => i < |index.files| && index.files[i].logical == logical
    case OfPath(path) =>
      path in owners && path in index.placements && index.placements[path].Placed? && index.placements[path].logical == logical
  }

  /** And no overlay owns its file. */
  predicate Contends(index: Index, owners: map<nat, string>, logical: nat, c: Contender) {
    StandsAt(index, owners, logical, c) && (c.OfFile? ==> index.files[c.i].physical !in owners)
  }

  /** The root's priority, none counting as 0. */
  function PriorityOf(index: Index, owners: map<nat, string>, logical: nat, c: Contender): nat
    requires StandsAt(index, owners, logical, c)
  {
    match c
    case OfFile(i) => var root := index.files[i].root; if root in index.priorities then index.priorities[root] else 0
    case OfPath(path) => index.placements[path].priority
  }

  function PolicyOf(index: Index, owners: map<nat, string>, logical: nat, c: Contender): Policy
    requires StandsAt(index, owners, logical, c)
  {
    match c
    case OfFile(i) => index.files[i].policy
    case OfPath(path) => index.placements[path].policy
  }

  /** Files come first in their order, then overlays in the order of their paths. */
  predicate Comes(a: Contender, b: Contender) {
    match (a, b)
    case (OfFile(i), OfFile(j)) => i < j
    case (OfFile(_), OfPath(_)) => true
    case (OfPath(_), OfFile(_)) => false
    case (OfPath(p), OfPath(q)) => p < q
  }

  /** The contender of the highest priority, the first among equals. */
  ghost predicate Heads(index: Index, owners: map<nat, string>, logical: nat, c: Contender) {
    && Contends(index, owners, logical, c)
    && forall d :: Contends(index, owners, logical, d) && d != c ==>
         var p, q := PriorityOf(index, owners, logical, c), PriorityOf(index, owners, logical, d);
         p > q || (p == q && Comes(c, d))
  }

  /** All contenders are effective if the first of them merges; otherwise it alone is. */
  ghost predicate Effective(index: Index, owners: map<nat, string>, logical: nat, c: Contender) {
    && Contends(index, owners, logical, c)
    && (Heads(index, owners, logical, c)
        || exists head :: Heads(index, owners, logical, head) && PolicyOf(index, owners, logical, head) == Merge)
  }

  /** Files have identifiers of their own. */
  predicate DistinctFiles(index: Index) {
    forall i, j :: 0 <= i < j < |index.files| ==> index.files[i].id != index.files[j].id
  }

  // ----- What is gathered -----

  function CandidateOf(index: Index, owners: map<nat, string>, logical: nat, c: Contender): Candidate
    requires StandsAt(index, owners, logical, c)
  {
    var priority, policy := PriorityOf(index, owners, logical, c), PolicyOf(index, owners, logical, c);
    match c
    case OfFile(i) => Candidate(Some(index.files[i].id), None, priority, policy, false)
    case OfPath(path) => Candidate(None, Some(owners[path]), priority, policy, false)
  }

  /** The gathered candidates are those of the contenders that stand at the path, in their order. */
  ghost predicate Lists(index: Index, owners: map<nat, string>, logical: nat, gathered: seq<Candidate>, cs: seq<Contender>) {
    && |cs| == |gathered|
    && (forall a, b :: 0 <= a < b < |cs| ==> Comes(cs[a], cs[b]))
    && forall k :: 0 <= k < |cs| ==>
         StandsAt(index, owners, logical, cs[k]) && gathered[k] == CandidateOf(index, owners, logical, cs[k])
  }

  lemma {:induction false} FilesListed(index: Index, owners: map<nat, string>, logical: nat, count: nat) returns (cs: seq<Contender>)
    requires count <= |index.files|
    ensures Lists(index, owners, logical, FilesAt(index, index.files[..count], logical), cs)
    ensures forall c :: c in cs <==> c.OfFile? && c.i < count && StandsAt(index, owners, logical, c)
  {
    cs := [];
    if count > 0 {
      var files := index.files[..count];
      assert files[..|files| - 1] == index.files[..count - 1] && files[|files| - 1] == index.files[count - 1];
      cs := FilesListed(index, owners, logical, count - 1);
      if index.files[count - 1].logical == logical {
        var before := cs;
        cs := before + [OfFile(count - 1)];
        assert forall a :: 0 <= a < |before| ==> before[a] in before;
      }
    }
  }

  lemma {:induction false} OwnersListed(index: Index, owners: map<nat, string>, logical: nat, paths: seq<nat>) returns (cs: seq<Contender>)
    requires forall path :: path in paths ==> path in owners
    requires forall i, j :: 0 <= i < j < |paths| ==> paths[i] < paths[j]
    ensures Lists(index, owners, logical, OwnersAt(index, owners, paths, logical), cs)
    ensures forall c :: c in cs <==> c.OfPath? && c.path in paths && StandsAt(index, owners, logical, c)
    decreases |paths|
  {
    cs := [];
    if paths != [] {
      var front, last := paths[..|paths| - 1], paths[|paths| - 1];
      assert paths == front + [last];
      cs := OwnersListed(index, owners, logical, front);
      if StandsAt(index, owners, logical, OfPath(last)) {
        var before := cs;
        cs := before + [OfPath(last)];
        assert forall a :: 0 <= a < |before| ==> before[a] in before;
        assert forall path :: path in front ==> path < last;
      }
    }
  }

  lemma {:induction false} AscendingRises(paths: set<nat>)
    ensures forall i, j :: 0 <= i < j < |Ascending(paths)| ==> Ascending(paths)[i] < Ascending(paths)[j]
  {
    if paths != {} {
      var least := Least(paths);
      var rest := Ascending(paths - {least});
      AscendingRises(paths - {least});
      forall j | 0 <= j < |rest|
        ensures least < rest[j]
      {
        assert rest[j] in rest;
      }
    }
  }

  lemma {:induction false} GatheredLaw(index: Index, owners: map<nat, string>, logical: nat) returns (cs: seq<Contender>)
    ensures Lists(index, owners, logical, Gathered(index, owners, logical), cs)
    ensures forall c :: c in cs <==> StandsAt(index, owners, logical, c)
  {
    assert index.files[..|index.files|] == index.files;
    var files := FilesListed(index, owners, logical, |index.files|);
    AscendingRises(owners.Keys);
    var paths := OwnersListed(index, owners, logical, Ascending(owners.Keys));
    cs := files + paths;
    ListsBoth(index, owners, logical, FilesAt(index, index.files, logical),
              OwnersAt(index, owners, Ascending(owners.Keys), logical), files, paths);
  }

  lemma {:induction false} ListsBoth(index: Index, owners: map<nat, string>, logical: nat, a: seq<Candidate>, b: seq<Candidate>,
                                     files: seq<Contender>, paths: seq<Contender>)
    requires Lists(index, owners, logical, a, files) && Lists(index, owners, logical, b, paths)
    requires (forall c :: c in files ==> c.OfFile?) && forall c :: c in paths ==> c.OfPath?
    ensures Lists(index, owners, logical, a + b, files + paths)
  {
    var cs := files + paths;
    forall i, j | 0 <= i < j < |cs|
      ensures Comes(cs[i], cs[j])
    {
      if i < |files| <= j {
        assert cs[i] in files && cs[j] in paths;
      }
    }
  }

  // ----- Who is active -----

  lemma {:induction false} VisibleLaw(index: Index, owners: map<nat, string>, logical: nat, c: Contender)
    requires DistinctFiles(index) && StandsAt(index, owners, logical, c)
    ensures Visible(CandidateOf(index, owners, logical, c), Hidden(index, owners)) <==> Contends(index, owners, logical, c)
  {
    if c.OfFile? {
      var file := index.files[c.i];
      assert file in index.files;
      if file.id in Hidden(index, owners) {
        var other :| other in index.files && other.physical in owners && other.id == file.id;
        var j :| 0 <= j < |index.files| && index.files[j] == other;
        assert j == c.i;
      }
    }
  }

  /** The winner among the gathered candidates is the head of the contenders. */
  lemma {:induction false} WinsLaw(index: Index, owners: map<nat, string>, logical: nat, cs: seq<Contender>, w: nat)
    requires DistinctFiles(index) && Lists(index, owners, logical, Gathered(index, owners, logical), cs)
    requires forall c :: c in cs <==> StandsAt(index, owners, logical, c)
    requires w < |cs|
    ensures Wins(Gathered(index, owners, logical), Hidden(index, owners), w) <==> Heads(index, owners, logical, cs[w])
  {
    var gathered, hidden := Gathered(index, owners, logical), Hidden(index, owners);
    forall i | 0 <= i < |cs|
      ensures Visible(gathered[i], hidden) <==> Contends(index, owners, logical, cs[i])
      ensures gathered[i].priority == PriorityOf(index, owners, logical, cs[i])
    {
      VisibleLaw(index, owners, logical, cs[i]);
    }
    if Wins(gathered, hidden, w) {
      forall d | Contends(index, owners, logical, d) && d != cs[w]
        ensures var p, q := PriorityOf(index, owners, logical, cs[w]), PriorityOf(index, owners, logical, d);
                p > q || (p == q && Comes(cs[w], d))
      {
        assert d in cs;
        var i :| 0 <= i < |cs| && cs[i] == d;
        assert Visible(gathered[i], hidden);
      }
    }
    if Heads(index, owners, logical, cs[w]) {
      forall i | 0 <= i < |gathered| && Visible(gathered[i], hidden)
        ensures gathered[i].priority <= gathered[w].priority && (i < w ==> gathered[i].priority < gathered[w].priority)
      {
        HeadIsAhead(index, owners, logical, cs, w, i);
      }
    }
  }

  lemma {:induction false} HeadIsAhead(index: Index, owners: map<nat, string>, logical: nat, cs: seq<Contender>, w: nat, i: nat)
    requires Lists(index, owners, logical, Gathered(index, owners, logical), cs)
    requires w < |cs| && i < |cs| && Heads(index, owners, logical, cs[w]) && Contends(index, owners, logical, cs[i])
    ensures var p, q := PriorityOf(index, owners, logical, cs[w]), PriorityOf(index, owners, logical, cs[i]);
            q <= p && (i < w ==> q < p)
  {
    if i < w {
      assert Comes(cs[i], cs[w]) && cs[i] != cs[w];
    }
  }

  /** A settled candidate is active exactly if its contender is effective. */
  lemma {:induction false} SettledLaw(index: Index, owners: map<nat, string>, logical: nat, cs: seq<Contender>, k: nat)
    requires DistinctFiles(index) && Lists(index, owners, logical, Gathered(index, owners, logical), cs)
    requires (forall c :: c in cs <==> StandsAt(index, owners, logical, c)) && k < |cs|
    requires Effective(index, owners, logical, cs[k])
    ensures Gathered(index, owners, logical)[k].(active := true)
            in Settle(Gathered(index, owners, logical), Hidden(index, owners))
  {
    GatheredIsFresh(index, owners, logical);
    VisibleLaw(index, owners, logical, cs[k]);
    var w := HeadAt(index, owners, logical, cs, k);
    SettledAt(Gathered(index, owners, logical), Hidden(index, owners), w, k);
  }

  lemma {:induction false} HeadAt(index: Index, owners: map<nat, string>, logical: nat, cs: seq<Contender>, k: nat) returns (w: nat)
    requires DistinctFiles(index) && Lists(index, owners, logical, Gathered(index, owners, logical), cs)
    requires (forall c :: c in cs <==> StandsAt(index, owners, logical, c)) && k < |cs|
    requires Effective(index, owners, logical, cs[k])
    ensures Wins(Gathered(index, owners, logical), Hidden(index, owners), w)
    ensures Gathered(index, owners, logical)[w].policy != Merge ==> w == k
  {
    if Heads(index, owners, logical, cs[k]) {
      w := k;
      WinsLaw(index, owners, logical, cs, k);
    } else {
      var h :| Heads(index, owners, logical, h) && PolicyOf(index, owners, logical, h) == Merge;
      assert h in cs;
      w :| 0 <= w < |cs| && cs[w] == h;
      WinsLaw(index, owners, logical, cs, w);
    }
  }

  lemma {:induction false} SettledAt(gathered: seq<Candidate>, hidden: set<nat>, w: nat, k: nat)
    requires Fresh(gathered) && Wins(gathered, hidden, w) && k < |gathered| && Visible(gathered[k], hidden)
    requires gathered[w].policy != Merge ==> w == k
    ensures gathered[k].(active := true) in Settle(gathered, hidden)
  {
    SettleIsExclusive(gathered, hidden);
    if gathered[w].policy == Merge {
      var s := SettledFrom(gathered, hidden, k);
      assert s.active;
    } else {
      assert Settle(gathered, hidden)[0] == gathered[k].(active := true);
    }
  }

  lemma {:induction false} ResetHas(settled: seq<Candidate>, c: Candidate) returns (s: Candidate)
    requires c in Reset(settled)
    ensures s in settled && s.(active := false) == c
  {
    if settled[0].(active := false) == c {
      s := settled[0];
    } else {
      assert Reset(settled) == [settled[0].(active := false)] + Reset(settled[1..]);
      s := ResetHas(settled[1..], c);
    }
  }

  /** A gathered candidate is among the settled ones. */
  lemma {:induction false} SettledFrom(gathered: seq<Candidate>, hidden: set<nat>, k: nat) returns (s: Candidate)
    requires Fresh(gathered) && k < |gathered|
    ensures s in Settle(gathered, hidden) && s.(active := false) == gathered[k] && s == gathered[k].(active := s.active)
  {
    SettleIsExclusive(gathered, hidden);
    assert gathered[k] in multiset(gathered);
    assert gathered[k] in Reset(Settle(gathered, hidden));
    s := ResetHas(Settle(gathered, hidden), gathered[k]);
    assert gathered[k] in gathered && !gathered[k].active;
  }

  /** And what is active was gathered for an effective contender. */
  lemma {:induction false} ActiveLaw(index: Index, owners: map<nat, string>, logical: nat, cs: seq<Contender>, s: Candidate) returns (k: nat)
    requires DistinctFiles(index) && Lists(index, owners, logical, Gathered(index, owners, logical), cs)
    requires forall c :: c in cs <==> StandsAt(index, owners, logical, c)
    requires s in Settle(Gathered(index, owners, logical), Hidden(index, owners)) && s.active
    ensures k < |cs| && s == Gathered(index, owners, logical)[k].(active := true)
    ensures Effective(index, owners, logical, cs[k])
  {
    var gathered, hidden := Gathered(index, owners, logical), Hidden(index, owners);
    GatheredIsFresh(index, owners, logical);
    var w;
    w, k := ActiveAt(gathered, hidden, s);
    WinsLaw(index, owners, logical, cs, w);
    VisibleLaw(index, owners, logical, cs[k]);
  }

  /** An active candidate is the winner or stands beside one that merges. */
  lemma {:induction false} ActiveAt(gathered: seq<Candidate>, hidden: set<nat>, s: Candidate) returns (w: nat, k: nat)
    requires Fresh(gathered) && s in Settle(gathered, hidden) && s.active
    ensures Wins(gathered, hidden, w) && k < |gathered| && Visible(gathered[k], hidden) && s == gathered[k].(active := true)
    ensures gathered[w].policy != Merge ==> w == k
  {
    SettleIsExclusive(gathered, hidden);
    SettledWasGathered(gathered, hidden, s);
    k :| 0 <= k < |gathered| && gathered[k] == s.(active := false);
    assert Visible(gathered[k], hidden) && gathered[k] in gathered;
    w := FirstWins(gathered, hidden);
    assert Wins(gathered, hidden, w);
    if gathered[w].policy != Merge {
      OnlyWinner(Settle(gathered, hidden), gathered[w].(active := true), s);
      k := w;
    }
  }

  lemma {:induction false} OnlyWinner(settled: seq<Candidate>, winner: Candidate, s: Candidate)
    requires settled != [] && settled[0] == winner && forall i :: 0 < i < |settled| ==> !settled[i].active
    requires s in settled && s.active
    ensures s == winner
  {
    var i :| 0 <= i < |settled| && settled[i] == s;
  }

  // ----- What is effective -----

  lemma {:induction false} ResolveParts(index: Index, overlays: seq<Overlay>)
    ensures var r := Resolve(index, overlays);
            && r.files == AllFiles(r.candidates)
            && r.documents == Editor(index, OwnershipOf(overlays)) + AllDocuments(r.candidates)
  {
  }

  /** What is active was gathered of an effective contender. */
  lemma {:induction false} ActiveIsEffective(index: Index, overlays: seq<Overlay>, logical: nat, s: Candidate) returns (c: Contender)
    requires DistinctFiles(index) && logical in Resolve(index, overlays).candidates
    requires s in Resolve(index, overlays).candidates[logical] && s.active
    ensures Effective(index, OwnershipOf(overlays).owners, logical, c)
    ensures s == CandidateOf(index, OwnershipOf(overlays).owners, logical, c).(active := true)
  {
    var owners := OwnershipOf(overlays).owners;
    CandidatesAre(index, overlays, logical);
    var cs := GatheredLaw(index, owners, logical);
    var k := ActiveLaw(index, owners, logical, cs, s);
    c := cs[k];
  }

  /** The files that contribute: those of the effective contenders. */
  lemma {:induction false} EffectiveFilesLaw(index: Index, overlays: seq<Overlay>, id: nat)
    requires DistinctIds(overlays) && DistinctFiles(index)
    ensures id in Resolve(index, overlays).files <==>
            exists logical, i: nat :: Effective(index, OwnershipOf(overlays).owners, logical, OfFile(i)) && index.files[i].id == id
  {
    var r, owners := Resolve(index, overlays), OwnershipOf(overlays).owners;
    ResolveParts(index, overlays);
    if id in r.files {
      var logical, s :| logical in r.candidates.Keys && s in r.candidates[logical] && s.active && s.file == Some(id);
      var c := ActiveIsEffective(index, overlays, logical, s);
      assert Effective(index, owners, logical, OfFile(c.i));
    }
    if logical, i: nat :| Effective(index, owners, logical, OfFile(i)) && index.files[i].id == id {
      var s := EffectiveIsActive(index, overlays, logical, OfFile(i));
      assert s.file == Some(id) && id in AllFiles(r.candidates);
    }
  }

  lemma {:induction false} EffectiveIsActive(index: Index, overlays: seq<Overlay>, logical: nat, c: Contender) returns (s: Candidate)
    requires DistinctFiles(index) && Effective(index, OwnershipOf(overlays).owners, logical, c)
    ensures logical in Resolve(index, overlays).candidates && s in Resolve(index, overlays).candidates[logical]
    ensures s == CandidateOf(index, OwnershipOf(overlays).owners, logical, c).(active := true)
  {
    var owners := OwnershipOf(overlays).owners;
    var cs := GatheredLaw(index, owners, logical);
    assert c in cs;
    var k :| 0 <= k < |cs| && cs[k] == c;
    SettledLaw(index, owners, logical, cs, k);
    s := Gathered(index, owners, logical)[k].(active := true);
    if c.OfFile? {
      assert index.files[c.i] in index.files;
    }
    assert logical in Logicals(index, owners);
  }

  lemma {:induction false} EditorLaw(index: Index, overlays: seq<Overlay>, id: string)
    requires DistinctIds(overlays)
    ensures var owners := OwnershipOf(overlays).owners;
            id in Editor(index, OwnershipOf(overlays)) <==>
              || Overlay(id, None) in overlays
              || exists path :: path in owners && owners[path] == id
                   && (path !in index.placements || index.placements[path].Standalone?)
  {
    OwnershipDecides(overlays);
  }

  /** The documents that contribute: overlays without a path, owners of paths below no root, and the owners of
      effective contenders. */
  lemma {:induction false} EffectiveDocumentsLaw(index: Index, overlays: seq<Overlay>, id: string)
    requires DistinctIds(overlays) && DistinctFiles(index)
    ensures var owners := OwnershipOf(overlays).owners;
            id in Resolve(index, overlays).documents <==>
              || Overlay(id, None) in overlays
              || (exists path :: path in owners && owners[path] == id
                    && (path !in index.placements || index.placements[path].Standalone?))
              || exists logical, path :: Effective(index, owners, logical, OfPath(path)) && owners[path] == id
  {
    var r, owners := Resolve(index, overlays), OwnershipOf(overlays).owners;
    ResolveParts(index, overlays);
    EditorLaw(index, overlays, id);
    if id in AllDocuments(r.candidates) {
      var logical, s :| logical in r.candidates.Keys && s in r.candidates[logical] && s.active && s.document == Some(id);
      var c := ActiveIsEffective(index, overlays, logical, s);
      assert Effective(index, owners, logical, OfPath(c.path));
    }
    if logical, path :| Effective(index, owners, logical, OfPath(path)) && owners[path] == id {
      var s := EffectiveIsActive(index, overlays, logical, OfPath(path));
      assert s.document == Some(id) && id in AllDocuments(r.candidates);
    }
  }

  /** The new owner of a path, of two overlays on it. */
  ghost predicate WinsOver(candidate: string, current: string) {
    if OfDecodedText(candidate) && !OfDecodedText(current) then true
    else if OfDecodedText(current) && !OfDecodedText(candidate) then false
    else Smaller(current, candidate)
  }

  /** The owner of a path is the overlay on it that wins over all others on it. */
  lemma {:induction false} OwnerLaw(overlays: seq<Overlay>, path: nat, id: string)
    requires DistinctIds(overlays)
    ensures var owners := OwnershipOf(overlays).owners;
            (path in owners && owners[path] == id) <==>
              Overlay(id, Some(path)) in overlays
              && forall other :: Overlay(other, Some(path)) in overlays && other != id ==> WinsOver(id, other)
  {
    var owners := OwnershipOf(overlays).owners;
    OwnershipDecides(overlays);
    if path in owners && owners[path] == id {
      forall other | Overlay(other, Some(path)) in overlays && other != id
        ensures WinsOver(id, other)
      {
        PrefersLaw(other, id);
      }
    }
    if Overlay(id, Some(path)) in overlays
       && (forall other :: Overlay(other, Some(path)) in overlays && other != id ==> WinsOver(id, other)) {
      assert path in owners && Overlay(owners[path], Some(path)) in overlays;
      if owners[path] != id {
        PrefersLaw(id, owners[path]);
        PrefersLaw(owners[path], id);
        PreferenceIsOrder(id, owners[path], id);
      }
    }
  }

  /** The suppressed documents are the overlays with a path that another overlay owns. */
  lemma {:induction false} SuppressedLaw(index: Index, overlays: seq<Overlay>, id: string)
    requires DistinctIds(overlays)
    ensures var owners := OwnershipOf(overlays).owners;
            id in Resolve(index, overlays).suppressed <==>
            exists path :: Overlay(id, Some(path)) in overlays && !(path in owners && owners[path] == id)
  {
    var owners := OwnershipOf(overlays).owners;
    OwnershipDecides(overlays);
    if id in Resolve(index, overlays).suppressed {
      var o :| o in overlays && o.id == id && o.path.Some? && o.path.value in owners && owners[o.path.value] != id;
      assert o == Overlay(id, Some(o.path.value));
    }
    if path :| Overlay(id, Some(path)) in overlays && !(path in owners && owners[path] == id) {
      assert Yields(overlays, owners, id);
    }
  }

  // ----- The listed candidates -----

  lemma {:induction false} StandsIsLogical(index: Index, owners: map<nat, string>, logical: nat)
    ensures logical in Logicals(index, owners) <==> exists c :: StandsAt(index, owners, logical, c)
  {
    if logical in Logicals(index, owners) {
      if file :| file in index.files && file.logical == logical {
        var i :| 0 <= i < |index.files| && index.files[i] == file;
        assert StandsAt(index, owners, logical, OfFile(i));
      } else {
        var path :| path in owners && PlacementOf(index, path).Placed? && PlacementOf(index, path).logical == logical;
        assert StandsAt(index, owners, logical, OfPath(path));
      }
    }
    if c :| StandsAt(index, owners, logical, c) {
      if c.OfFile? {
        assert index.files[c.i] in index.files;
      }
    }
  }

  /** A logical path has candidates exactly if something stands there: one for each, active where effective. */
  lemma {:induction false} ListedLaw(index: Index, overlays: seq<Overlay>, logical: nat)
    ensures var r, owners := Resolve(index, overlays), OwnershipOf(overlays).owners;
            && (logical in r.candidates <==> exists c :: StandsAt(index, owners, logical, c))
            && (logical in r.candidates ==>
                  multiset(Reset(r.candidates[logical])) == multiset(Gathered(index, owners, logical)))
  {
    var owners := OwnershipOf(overlays).owners;
    StandsIsLogical(index, owners, logical);
    GatheredIsFresh(index, owners, logical);
    SettleResets(Gathered(index, owners, logical), Hidden(index, owners));
    CandidatesAre(index, overlays, logical);
  }

  lemma {:induction false} SettleResets(cs: seq<Candidate>, hidden: set<nat>)
    requires Fresh(cs)
    ensures multiset(Reset(Settle(cs, hidden))) == multiset(cs)
  {
    SettleIsExclusive(cs, hidden);
  }

  lemma {:induction false} CandidatesAre(index: Index, overlays: seq<Overlay>, logical: nat)
    ensures var r, owners := Resolve(index, overlays), OwnershipOf(overlays).owners;
            && (logical in r.candidates <==> logical in Logicals(index, owners))
            && (logical in r.candidates ==>
                  r.candidates[logical] == Settle(Gathered(index, owners, logical), Hidden(index, owners)))
  {
  }

  /** They are listed active first, then by falling priority, then documents before files. */
  lemma {:induction false} ListOrderLaw(index: Index, overlays: seq<Overlay>, logical: nat, i: nat, j: nat)
    requires logical in Resolve(index, overlays).candidates && i < j < |Resolve(index, overlays).candidates[logical]|
    ensures var a, b := Resolve(index, overlays).candidates[logical][i], Resolve(index, overlays).candidates[logical][j];
            && (b.active ==> a.active)
            && (a.active == b.active ==> a.priority >= b.priority)
            && (a.active == b.active && a.priority == b.priority && b.document.Some? ==> a.document.Some?)
  {
    var owners := OwnershipOf(overlays).owners;
    var ranked := Sorting.Sort(Outranks, Gathered(index, owners, logical));
    var hidden := Hidden(index, owners);
    var marked := Mark(ranked, hidden, Merges(ranked, hidden), false);
    PrecedesIsWeak();
    Sorting.SortKeeps(Precedes, marked);
    assert !Precedes(Sorting.Sort(Precedes, marked)[j], Sorting.Sort(Precedes, marked)[i]);
  }

  lemma {:induction false} PrecedesIsWeak()
    ensures Sorting.Weak(Precedes)
  {
  }
}
