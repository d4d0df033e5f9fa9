/** What the query cache promises its callers, domain by domain and in terms of the three watermarks alone. */
module CacheLaws {
  import opened Options
  import opened QueryCache

  // ----- Late inserts -----

  /** The watermark exists and the revision lies before it. */
  predicate Late(revision: nat, watermark: Option<nat>) {
    match watermark
    case None => false
    case Some(current) => revision < current
  }

  /** Index data is late behind the index watermark, definition data behind the definition watermark, and all else,
      the two input memos included, behind the document watermark. */
  lemma {:induction false} SupersededLaw<V>(s: CacheState<V>, d: Domain, revision: nat)
    ensures d == Index || d == SearchTexts ==> (Superseded(s, d, revision) <==> Late(revision, s.marks.indexRevision))
    ensures d == Definitions ==> (Superseded(s, d, revision) <==> Late(revision, s.marks.definitionsRevision))
    ensures d == Documents || d == Frontends || d == SearchLocalisations || d == SourceOwnership || d == SearchLocalisationReuse
            ==> (Superseded(s, d, revision) <==> Late(revision, s.marks.documentsRevision))
  {
  }

  // ----- Readers -----

  /** A revision may read a domain: documents at their own revision only, index and definition data from their
      watermark on, and the reused corpus always. */
  predicate Readable(marks: Watermarks, d: Domain, revision: nat) {
    && (d == Documents || d == Frontends || d == SearchLocalisations ==> marks.documentsRevision == Some(revision))
    && (d == Index || d == SearchTexts || d == SourceOwnership ==>
          marks.indexRevision != None && !Late(revision, marks.indexRevision))
    && (d == Definitions ==> marks.definitionsRevision != None && !Late(revision, marks.definitionsRevision))
  }

  lemma {:induction false} ReadableLaw<V>(s: CacheState<V>, d: Domain, revision: nat)
    ensures Answers(s, d, revision) <==> Readable(s.marks, d, revision)
  {
  }

  /** The place of a domain in the order in which a lookup asks them. */
  function Rank(d: Domain): nat {
    match d
    case SearchLocalisationReuse => 0
    case Documents => 1
    case Frontends => 2
    case SearchLocalisations => 3
    case SourceOwnership => 4
    case SearchTexts => 5
    case Definitions => 6
    case Index => 7
  }

  predicate Offers<V>(s: CacheState<V>, revision: nat, key: string, d: Domain) {
    Readable(s.marks, d, revision) && key in Entries(s, d)
  }

  /** The domain is the first that offers the key to the revision. */
  predicate OffersFirst<V>(s: CacheState<V>, revision: nat, key: string, d: Domain) {
    Offers(s, revision, key, d) && forall e: Domain :: Offers(s, revision, key, e) ==> Rank(d) <= Rank(e)
  }

  lemma {:induction false} FirstOffer<V>(s: CacheState<V>, revision: nat, key: string, i: nat) returns (d: Domain)
    requires i <= |Probes|
    ensures LookupIn(s, revision, key, Probes[i..]).Some? ==>
              Offers(s, revision, key, d) && LookupIn(s, revision, key, Probes[i..]) == Some(Entries(s, d)[key])
              && Rank(d) >= i && forall j :: i <= j < Rank(d) && j < |Probes| ==> !Offers(s, revision, key, Probes[j])
    ensures LookupIn(s, revision, key, Probes[i..]).None? ==>
              forall j :: i <= j < |Probes| ==> !Offers(s, revision, key, Probes[j])
    decreases |Probes| - i
  {
    d := Index;
    if i < |Probes| {
      ProbesInOrder();
      ProbeStep(s, revision, key, i);
      ReadableLaw(s, Probes[i], revision);
      if Offers(s, revision, key, Probes[i]) {
        d := Probes[i];
      } else {
        d := FirstOffer(s, revision, key, i + 1);
      }
    }
  }

  lemma {:induction false} ProbedAt(d: Domain)
    ensures Rank(d) < |Probes| && Probes[Rank(d)] == d
  {
    ProbesInOrder();
  }

  /** A lookup answers with the entry of the first domain that offers the key, and fails if none does. */
  lemma {:induction false} LookupLaw<V>(s: CacheState<V>, revision: nat, key: string)
    ensures Lookup(s, revision, key).None? <==> forall d: Domain :: !Offers(s, revision, key, d)
    ensures forall d: Domain :: OffersFirst(s, revision, key, d) ==> Lookup(s, revision, key) == Some(Entries(s, d)[key])
  {
    assert Probes[0..] == Probes;
    var first := FirstOffer(s, revision, key, 0);
    forall d: Domain | Offers(s, revision, key, d)
      ensures Lookup(s, revision, key).Some?
      ensures OffersFirst(s, revision, key, d) ==> d == first
    {
      ProbedAt(d);
      ProbedAt(first);
      assert Offers(s, revision, key, Probes[Rank(d)]);
    }
  }

  // ----- Inserts -----

  /** How many keys a domain may hold. */
  function Room(capacity: nat, d: Domain): nat {
    if d == Index || d == Documents || d == Definitions then capacity
    else if d == Frontends && capacity < 32 then capacity
    else if d == Frontends then 32
    else 1
  }

  /** An insert that comes from a later revision than the document watermark, into one of the document domains. */
  predicate Refreshes(marks: Watermarks, revision: nat, domain: Domain) {
    && (domain == Documents || domain == Frontends || domain == SearchLocalisations)
    && match marks.documentsRevision
       case None => false
       case Some(current) => current < revision
  }

  /** What a domain holds when the new key is about to be stored. */
  function Survivors<V>(s: CacheState<V>, revision: nat, domain: Domain, d: Domain): map<string, V> {
    if Refreshes(s.marks, revision, domain) && (d == Documents || d == Frontends || d == SearchLocalisations) then map[]
    else Entries(s, d)
  }

  lemma {:induction false} AdmittedLaw<V>(s: CacheState<V>, revision: nat, domain: Domain, d: Domain)
    ensures Entries(Admitted(s, revision, domain), d) == Survivors(s, revision, domain, d)
  {
  }

  lemma {:induction false} RoomLaw(capacity: nat, d: Domain)
    ensures Capacity(capacity, d) == Room(capacity, d)
  {
  }

  /** An admitted insert leaves every other domain with its survivors. */
  lemma {:induction false} InsertElsewhereLaw<V>(s: CacheState<V>, capacity: nat, revision: nat, domain: Domain, key: string, value: V, d: Domain)
    requires !Superseded(s, domain, revision) && d != domain
    ensures Entries(Inserted(s, capacity, revision, domain, key, value), d) == Survivors(s, revision, domain, d)
  {
    var admitted := Admitted(s, revision, domain);
    EntriesAfter(admitted, domain,
                 Stored(Entries(admitted, domain), Capacity(capacity, domain), Replaces(domain), key, value), d);
    AdmittedLaw(s, revision, domain, d);
  }

  /** In its own domain: a new key in a full domain is left alone there, and otherwise joins the survivors; a known
      key keeps its value, except in the two input memos. */
  lemma {:induction false} InsertHereLaw<V>(s: CacheState<V>, capacity: nat, revision: nat, domain: Domain, key: string, value: V)
    requires !Superseded(s, domain, revision)
    ensures var kept := Survivors(s, revision, domain, domain);
            var after := Entries(Inserted(s, capacity, revision, domain, key, value), domain);
            && (key !in kept && |kept| >= Room(capacity, domain) ==> after == map[key := value])
            && (key !in kept && |kept| < Room(capacity, domain) ==> after == kept[key := value])
            && (key in kept && (domain == SourceOwnership || domain == SearchLocalisationReuse) ==> after == kept[key := value])
            && (key in kept && domain != SourceOwnership && domain != SearchLocalisationReuse ==> after == kept)
  {
    var admitted := Admitted(s, revision, domain);
    EntriesAfter(admitted, domain,
                 Stored(Entries(admitted, domain), Capacity(capacity, domain), Replaces(domain), key, value), domain);
    AdmittedLaw(s, revision, domain, domain);
    RoomLaw(capacity, domain);
  }

  function FirstMark(watermark: Option<nat>, revision: nat): Option<nat> {
    match watermark
    case None => Some(revision)
    case Some(current) => Some(current)
  }

  /** An admitted insert sets the watermark that its readers look at if there was none, and raises that of the
      documents to its own revision. */
  lemma {:induction false} InsertMarksLaw<V>(s: CacheState<V>, capacity: nat, revision: nat, domain: Domain, key: string, value: V)
    requires !Superseded(s, domain, revision)
    ensures var marks := Inserted(s, capacity, revision, domain, key, value).marks;
            && marks.indexRevision == (if domain == Index || domain == SearchTexts || domain == SourceOwnership
                                       then FirstMark(s.marks.indexRevision, revision) else s.marks.indexRevision)
            && marks.definitionsRevision == (if domain == Definitions
                                             then FirstMark(s.marks.definitionsRevision, revision) else s.marks.definitionsRevision)
            && marks.documentsRevision == (if domain == Documents || domain == Frontends || domain == SearchLocalisations
                                           then Some(revision) else s.marks.documentsRevision)
  {
  }

  /** What was stored under a new key is read back at its revision, unless the insert came late; an ownership view,
      which is admitted by the document watermark, also has to meet that of the index. */
  lemma {:induction false} InsertedIsFound<V>(s: CacheState<V>, capacity: nat, revision: nat, domain: Domain, key: string, value: V)
    requires forall d: Domain :: key !in Entries(s, d)
    ensures Lookup(Inserted(s, capacity, revision, domain, key, value), revision, key) ==
            if Superseded(s, domain, revision) || (domain == SourceOwnership && Late(revision, s.marks.indexRevision))
            then None else Some(value)
  {
    var after := Inserted(s, capacity, revision, domain, key, value);
    LookupLaw(after, revision, key);
    SupersededLaw(s, domain, revision);
    if Superseded(s, domain, revision) {
      assert forall d: Domain :: !Offers(after, revision, key, d);
    } else {
      InsertHereLaw(s, capacity, revision, domain, key, value);
      InsertMarksLaw(s, capacity, revision, domain, key, value);
      forall d: Domain | d != domain
        ensures key !in Entries(after, d)
      {
        InsertElsewhereLaw(s, capacity, revision, domain, key, value, d);
      }
      assert key in Entries(after, domain) && Entries(after, domain)[key] == value;
      assert Offers(after, revision, key, domain) <==> !(domain == SourceOwnership && Late(revision, s.marks.indexRevision));
    }
  }

  // ----- Advances -----

  predicate Newer(revision: nat, watermark: Option<nat>) {
    match watermark
    case None => true
    case Some(current) => current < revision
  }

  function Raised(watermark: Option<nat>, revision: nat): Option<nat> {
    if Newer(revision, watermark) then Some(revision) else watermark
  }

  /** A workspace commit drops what belongs to each watermark it moves; only the reused corpus outlives them all. */
  lemma {:induction false} AdvanceLaw<V>(s: CacheState<V>, revision: nat, d: Domain)
    ensures var after := AdvancedTo(s, revision);
            && after.marks.indexRevision == Raised(s.marks.indexRevision, revision)
            && after.marks.documentsRevision == Raised(s.marks.documentsRevision, revision)
            && after.marks.definitionsRevision == Raised(s.marks.definitionsRevision, revision)
            && Entries(after, d) ==
               (if d == Index || d == SearchTexts || d == SourceOwnership then
                  if Newer(revision, s.marks.indexRevision) then map[] else Entries(s, d)
                else if d == Definitions then
                  if Newer(revision, s.marks.definitionsRevision) then map[] else Entries(s, d)
                else if d == SearchLocalisationReuse then Entries(s, d)
                else if Newer(revision, s.marks.documentsRevision) then map[] else Entries(s, d))
  {
  }

  /** A document commit drops document data alone. */
  lemma {:induction false} AdvanceDocumentsLaw<V>(s: CacheState<V>, revision: nat, d: Domain)
    ensures var after := AdvancedDocuments(s, revision);
            && after.marks == s.marks.(documentsRevision := Raised(s.marks.documentsRevision, revision))
            && Entries(after, d) ==
               (if (d == Documents || d == Frontends || d == SearchLocalisations) && Newer(revision, s.marks.documentsRevision)
                then map[] else Entries(s, d))
  {
  }

  /** A commit that declares definitions drops definition data alone. */
  lemma {:induction false} AdvanceDefinitionsLaw<V>(s: CacheState<V>, revision: nat, d: Domain)
    ensures var after := AdvancedDefinitions(s, revision);
            && after.marks == s.marks.(definitionsRevision := Raised(s.marks.definitionsRevision, revision))
            && Entries(after, d) ==
               (if d == Definitions && Newer(revision, s.marks.definitionsRevision) then map[] else Entries(s, d))
  {
  }
}
