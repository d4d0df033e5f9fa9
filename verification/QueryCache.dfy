/** The snapshot query cache: three watermarks and eight maps, updated in place. Revisions are naturals,
    and every method is one atomic step. */
module QueryCache {
  import opened Options

  datatype Domain =
    | Index | Documents | Frontends | Definitions
    | SearchTexts | SearchLocalisations | SourceOwnership | SearchLocalisationReuse

  /** The three invalidation lineages. */
  datatype Lineage = IndexLineage | DocumentLineage | DefinitionLineage

  datatype Watermarks = Watermarks(indexRevision: Option<nat>, documentsRevision: Option<nat>,
                                   definitionsRevision: Option<nat>)

  datatype Maps<V> = Maps(
    index: map<string, V>, documents: map<string, V>, frontends: map<string, V>, definitions: map<string, V>,
    searchTexts: map<string, V>, searchLocalisations: map<string, V>, sourceOwnership: map<string, V>,
    searchLocalisationReuse: map<string, V>)

  datatype CacheState<V> = CacheState(marks: Watermarks, maps: Maps<V>)

  function Held<V>(maps: Maps<V>, domain: Domain): map<string, V> {
    match domain
    case Index => maps.index
    case Documents => maps.documents
    case Frontends => maps.frontends
    case Definitions => maps.definitions
    case SearchTexts => maps.searchTexts
    case SearchLocalisations => maps.searchLocalisations
    case SourceOwnership => maps.sourceOwnership
    case SearchLocalisationReuse => maps.searchLocalisationReuse
  }

  function Entries<V>(s: CacheState<V>, domain: Domain): map<string, V> {
    Held(s.maps, domain)
  }

  function WithHeld<V>(maps: Maps<V>, domain: Domain, entries: map<string, V>): Maps<V> {
    match domain
    case Index => maps.(index := entries)
    case Documents => maps.(documents := entries)
    case Frontends => maps.(frontends := entries)
    case Definitions => maps.(definitions := entries)
    case SearchTexts => maps.(searchTexts := entries)
    case SearchLocalisations => maps.(searchLocalisations := entries)
    case SourceOwnership => maps.(sourceOwnership := entries)
    case SearchLocalisationReuse => maps.(searchLocalisationReuse := entries)
  }

  function WithEntries<V>(s: CacheState<V>, domain: Domain, entries: map<string, V>): CacheState<V> {
    s.(maps := WithHeld(s.maps, domain, entries))
  }

  /** The lineage whose watermark rejects late inserts into a domain. */
  function Guard(domain: Domain): Lineage {
    match domain
    case Index | SearchTexts => IndexLineage
    case Definitions => DefinitionLineage
    case _ => DocumentLineage
  }

  function MarkOf(marks: Watermarks, lineage: Lineage): Option<nat> {
    match lineage
    case IndexLineage => marks.indexRevision
    case DocumentLineage => marks.documentsRevision
    case DefinitionLineage => marks.definitionsRevision
  }

  predicate Behind(revision: nat, watermark: Option<nat>) {
    watermark.Some? && revision < watermark.value
  }

  predicate Superseded<V>(s: CacheState<V>, domain: Domain, revision: nat) {
    Behind(revision, MarkOf(s.marks, Guard(domain)))
  }

  predicate ByDocument(domain: Domain) {
    domain.Documents? || domain.Frontends? || domain.SearchLocalisations?
  }

  predicate Replaces(domain: Domain) {
    domain.SourceOwnership? || domain.SearchLocalisationReuse?
  }

  /** May a domain's entries answer a reader at this revision? */
  predicate Answers<V>(s: CacheState<V>, domain: Domain, revision: nat) {
    match domain
    case SearchLocalisationReuse => true
    case Documents | Frontends | SearchLocalisations => s.marks.documentsRevision == Some(revision)
    case SourceOwnership | SearchTexts | Index => s.marks.indexRevision.Some? && revision >= s.marks.indexRevision.value
    case Definitions => s.marks.definitionsRevision.Some? && revision >= s.marks.definitionsRevision.value
  }

  /** The order in which the domains are probed. */
  const Probes: seq<Domain> :=
    [SearchLocalisationReuse, Documents, Frontends, SearchLocalisations, SourceOwnership, SearchTexts, Definitions, Index]

  function LookupIn<V>(s: CacheState<V>, revision: nat, key: string, domains: seq<Domain>): Option<V> {
    if domains == [] then None
    else if Answers(s, domains[0], revision) && key in Entries(s, domains[0]) then Some(Entries(s, domains[0])[key])
    else LookupIn(s, revision, key, domains[1..])
  }

  function Lookup<V>(s: CacheState<V>, revision: nat, key: string): Option<V> {
    LookupIn(s, revision, key, Probes)
  }

  function Capacity(capacity: nat, domain: Domain): nat {
    match domain
    case Frontends => if capacity < 32 then capacity else 32
    case SearchTexts | SearchLocalisations | SearchLocalisationReuse | SourceOwnership => 1
    case _ => capacity
  }

  /** One domain's entries after an insert that was let through. */
  function Stored<V>(entries: map<string, V>, capacity: nat, replacing: bool, key: string, value: V): map<string, V> {
    var kept := if |entries| >= capacity && key !in entries then map[] else entries;
    if !replacing && key in kept then kept else kept[key := value]
  }

  /** A watermark is set by the first insert let through. */
  function Marked(watermark: Option<nat>, revision: nat): Option<nat> {
    if watermark.None? then Some(revision) else watermark
  }

  function ClearedDocuments<V>(maps: Maps<V>): Maps<V> {
    maps.(documents := map[], frontends := map[], searchLocalisations := map[])
  }

  /** A document insert from a newer revision than the watermark. */
  predicate Outdates(marks: Watermarks, revision: nat, domain: Domain) {
    ByDocument(domain) && marks.documentsRevision.Some? && revision > marks.documentsRevision.value
  }

  /** The watermarks after an insert was let through. */
  function MarksAdmitted(marks: Watermarks, revision: nat, domain: Domain): Watermarks {
    match domain
    case SourceOwnership | Index | SearchTexts => marks.(indexRevision := Marked(marks.indexRevision, revision))
    case SearchLocalisationReuse => marks
    case Definitions => marks.(definitionsRevision := Marked(marks.definitionsRevision, revision))
    case Documents | Frontends | SearchLocalisations =>
      marks.(documentsRevision :=
               if Outdates(marks, revision, domain) then Some(revision) else Marked(marks.documentsRevision, revision))
  }

  /** The state after an insert was let through, before it is stored. */
  function Admitted<V>(s: CacheState<V>, revision: nat, domain: Domain): CacheState<V> {
    CacheState(MarksAdmitted(s.marks, revision, domain),
               if Outdates(s.marks, revision, domain) then ClearedDocuments(s.maps) else s.maps)
  }

  function Inserted<V>(s: CacheState<V>, capacity: nat, revision: nat, domain: Domain, key: string, value: V)
    : CacheState<V>
  {
    if Superseded(s, domain, revision) then s
    else
      var admitted := Admitted(s, revision, domain);
      var entries := Entries(admitted, domain);
      WithEntries(admitted, domain, Stored(entries, Capacity(capacity, domain), Replaces(domain), key, value))
  }

  predicate Moves(revision: nat, watermark: Option<nat>) {
    watermark.None? || revision > watermark.value
  }

  function AdvancedIndex<V>(s: CacheState<V>, revision: nat): CacheState<V> {
    if Moves(revision, s.marks.indexRevision) then
      CacheState(s.marks.(indexRevision := Some(revision)),
                 s.maps.(index := map[], searchTexts := map[], sourceOwnership := map[]))
    else s
  }

  function AdvancedDefinitions<V>(s: CacheState<V>, revision: nat): CacheState<V> {
    if Moves(revision, s.marks.definitionsRevision) then
      CacheState(s.marks.(definitionsRevision := Some(revision)), s.maps.(definitions := map[]))
    else s
  }

  function AdvancedDocuments<V>(s: CacheState<V>, revision: nat): CacheState<V> {
    if Moves(revision, s.marks.documentsRevision) then
      CacheState(s.marks.(documentsRevision := Some(revision)), ClearedDocuments(s.maps))
    else s
  }

  function AdvancedTo<V>(s: CacheState<V>, revision: nat): CacheState<V> {
    AdvancedDocuments(AdvancedDefinitions(AdvancedIndex(s, revision), revision), revision)
  }

  function Empty<V>(): CacheState<V> {
    CacheState(Watermarks(None, None, None), Maps(map[], map[], map[], map[], map[], map[], map[], map[]))
  }

  // ----- What these promise -----

  lemma DocumentsAdvance<V>(s: CacheState<V>, revision: nat, d: Domain)
    ensures var after := AdvancedDocuments(s, revision);
            && after.marks.indexRevision == s.marks.indexRevision && after.marks.definitionsRevision == s.marks.definitionsRevision
            && Entries(after, d) == if ByDocument(d) && Moves(revision, s.marks.documentsRevision) then map[] else Entries(s, d)
  {
  }

  lemma DefinitionsAdvance<V>(s: CacheState<V>, revision: nat, d: Domain)
    ensures var after := AdvancedDefinitions(s, revision);
            Entries(after, d) == if d.Definitions? && Moves(revision, s.marks.definitionsRevision) then map[] else Entries(s, d)
  {
  }

  /** The first entry of a cache. */
  lemma FirstInsert<V>(capacity: nat, revision: nat, key: string, value: V, d: Domain)
    ensures var after := Inserted(Empty(), capacity, revision, Definitions, key, value);
            && after.marks.definitionsRevision == Some(revision)
            && Entries(after, d) == if d.Definitions? then map[key := value] else map[]
  {
  }

  predicate Below(a: Option<nat>, b: Option<nat>) {
    a.None? || (b.Some? && a.value <= b.value)
  }

  /** Every watermark only rises. */
  predicate Rises(marks: Watermarks, after: Watermarks) {
    && Below(marks.indexRevision, after.indexRevision)
    && Below(marks.documentsRevision, after.documentsRevision)
    && Below(marks.definitionsRevision, after.definitionsRevision)
  }

  /** No domain holds more than its bound. */
  ghost predicate Bounded<V>(s: CacheState<V>, capacity: nat) {
    forall domain: Domain :: |Entries(s, domain)| <= Bound(capacity, domain)
  }

  lemma EntriesAfter<V>(s: CacheState<V>, domain: Domain, entries: map<string, V>, d: Domain)
    ensures Entries(WithEntries(s, domain, entries), d) == if d == domain then entries else Entries(s, d)
  {
  }

  /** Admission clears whole maps or leaves them. */
  lemma AdmitClears<V>(s: CacheState<V>, revision: nat, domain: Domain, d: Domain)
    ensures var after := Admitted(s, revision, domain);
            Entries(after, d) == Entries(s, d) || Entries(after, d) == map[]
  {
  }

  lemma AdmitRises(marks: Watermarks, revision: nat, domain: Domain)
    ensures Rises(marks, MarksAdmitted(marks, revision, domain))
  {
  }

  /** An admitted revision meets the watermark it was admitted under. */
  lemma AdmitMeets(marks: Watermarks, revision: nat, domain: Domain)
    requires !Behind(revision, MarkOf(marks, Guard(domain)))
    ensures !Behind(revision, MarkOf(MarksAdmitted(marks, revision, domain), Guard(domain)))
  {
  }

  /** Where the inserted key ends up: with the new value where the domain replaces or held no such key. */
  lemma InsertOwn<V>(s: CacheState<V>, capacity: nat, revision: nat, domain: Domain, key: string, value: V)
    requires !Superseded(s, domain, revision)
    ensures var entries := Entries(Inserted(s, capacity, revision, domain, key, value), domain);
            && key in entries
            && (entries[key] == value
                || (!Replaces(domain) && key in Entries(s, domain) && entries[key] == Entries(s, domain)[key]))
  {
    var admitted := Admitted(s, revision, domain);
    var stored := Stored(Entries(admitted, domain), Capacity(capacity, domain), Replaces(domain), key, value);
    AdmitClears(s, revision, domain, domain);
    EntriesAfter(admitted, domain, stored, domain);
  }

  /** No other key is added anywhere, or changed. */
  lemma InsertOther<V>(s: CacheState<V>, capacity: nat, revision: nat, domain: Domain, key: string, value: V,
                       d: Domain, k: string)
    requires k in Entries(Inserted(s, capacity, revision, domain, key, value), d) && (d, k) != (domain, key)
    ensures k in Entries(s, d) && Entries(Inserted(s, capacity, revision, domain, key, value), d)[k] == Entries(s, d)[k]
  {
    if !Superseded(s, domain, revision) {
      var admitted := Admitted(s, revision, domain);
      var stored := Stored(Entries(admitted, domain), Capacity(capacity, domain), Replaces(domain), key, value);
      AdmitClears(s, revision, domain, d);
      EntriesAfter(admitted, domain, stored, d);
    }
  }

  /** An insert is dropped exactly when its domain is superseded, and otherwise lands, touching no other key. */
  lemma InsertLands<V>(s: CacheState<V>, capacity: nat, revision: nat, domain: Domain, key: string, value: V)
    ensures var after := Inserted(s, capacity, revision, domain, key, value);
            && (Superseded(s, domain, revision) ==> after == s)
            && (!Superseded(s, domain, revision) ==> key in Entries(after, domain) && !Superseded(after, domain, revision))
            && (forall d: Domain, k :: k in Entries(after, d) && (d, k) != (domain, key) ==>
                  k in Entries(s, d) && Entries(after, d)[k] == Entries(s, d)[k])
  {
    if !Superseded(s, domain, revision) {
      AdmitMeets(s.marks, revision, domain);
      InsertOwn(s, capacity, revision, domain, key, value);
    }
    forall d: Domain, k | k in Entries(Inserted(s, capacity, revision, domain, key, value), d) && (d, k) != (domain, key)
      ensures k in Entries(s, d)
              && Entries(Inserted(s, capacity, revision, domain, key, value), d)[k] == Entries(s, d)[k]
    {
      InsertOther(s, capacity, revision, domain, key, value, d, k);
    }
  }

  function Bound(capacity: nat, domain: Domain): nat {
    if Capacity(capacity, domain) == 0 then 1 else Capacity(capacity, domain)
  }

  /** Every insert keeps the bounds. */
  lemma InsertKeepsBounds<V>(s: CacheState<V>, capacity: nat, revision: nat, domain: Domain, key: string, value: V)
    requires Bounded(s, capacity)
    ensures Bounded(Inserted(s, capacity, revision, domain, key, value), capacity)
  {
    if !Superseded(s, domain, revision) {
      var admitted := Admitted(s, revision, domain);
      var stored := Stored(Entries(admitted, domain), Capacity(capacity, domain), Replaces(domain), key, value);
      forall d: Domain
        ensures |Entries(WithEntries(admitted, domain, stored), d)| <= Bound(capacity, d)
      {
        assert |Entries(s, d)| <= Bound(capacity, d);
        AdmitClears(s, revision, domain, d);
        EntriesAfter(admitted, domain, stored, d);
        if d == domain {
          StoredFits(Entries(admitted, domain), Capacity(capacity, domain), Replaces(domain), key, value);
        }
      }
    }
  }

  lemma InsertRises<V>(s: CacheState<V>, capacity: nat, revision: nat, domain: Domain, key: string, value: V)
    ensures Rises(s.marks, Inserted(s, capacity, revision, domain, key, value).marks)
  {
    if !Superseded(s, domain, revision) {
      AdmitRises(s.marks, revision, domain);
    }
  }

  lemma StoredFits<V>(entries: map<string, V>, capacity: nat, replacing: bool, key: string, value: V)
    requires |entries| <= if capacity == 0 then 1 else capacity
    ensures |Stored(entries, capacity, replacing, key, value)| <= if capacity == 0 then 1 else capacity
  {
    var kept := if |entries| >= capacity && key !in entries then map[] else entries;
    assert kept[key := value].Keys == kept.Keys + {key};
  }

  /** With every key kept to one domain, a lookup probes exactly that domain. */
  ghost predicate Sorted<V>(s: CacheState<V>, home: string -> Domain) {
    forall d: Domain, k :: k in Entries(s, d) ==> home(k) == d
  }

  lemma LookupAtHome<V>(s: CacheState<V>, home: string -> Domain, revision: nat, key: string)
    requires Sorted(s, home)
    ensures var d := home(key);
            Lookup(s, revision, key) ==
            if Answers(s, d, revision) && key in Entries(s, d) then Some(Entries(s, d)[key]) else None
  {
    LookupAmong(s, home, revision, key, Probes);
    ProbesInOrder();
  }

  lemma ProbesInOrder()
    ensures Probes[0] == SearchLocalisationReuse && Probes[1] == Documents && Probes[2] == Frontends
    ensures Probes[3] == SearchLocalisations && Probes[4] == SourceOwnership && Probes[5] == SearchTexts
    ensures Probes[6] == Definitions && Probes[7] == Index && |Probes| == 8
  {
  }

  lemma ProbeStep<V>(s: CacheState<V>, revision: nat, key: string, i: nat)
    requires i < |Probes|
    ensures LookupIn(s, revision, key, Probes[i..]) ==
            if Answers(s, Probes[i], revision) && key in Entries(s, Probes[i]) then Some(Entries(s, Probes[i])[key])
            else LookupIn(s, revision, key, Probes[i + 1..])
    ensures LookupIn(s, revision, key, Probes[|Probes|..]) == None
    ensures LookupIn(s, revision, key, Probes[0..]) == Lookup(s, revision, key)
  {
    assert Probes[i..][1..] == Probes[i + 1..];
    assert Probes[0..] == Probes;
  }

  lemma {:induction false} LookupAmong<V>(s: CacheState<V>, home: string -> Domain, revision: nat, key: string,
                                          domains: seq<Domain>)
    requires Sorted(s, home)
    ensures var d := home(key);
            LookupIn(s, revision, key, domains) ==
            if d in domains && Answers(s, d, revision) && key in Entries(s, d) then Some(Entries(s, d)[key]) else None
  {
    if domains != [] {
      LookupAmong(s, home, revision, key, domains[1..]);
      assert key in Entries(s, domains[0]) ==> home(key) == domains[0];
    }
  }

  // ----- The object updated in place -----

  class SnapshotQueryCache<V> {
    const capacity: nat
    var indexRevision: Option<nat>
    var documentsRevision: Option<nat>
    var definitionsRevision: Option<nat>
    var index: map<string, V>
    var documents: map<string, V>
    var frontends: map<string, V>
    var definitions: map<string, V>
    var searchTexts: map<string, V>
    var searchLocalisations: map<string, V>
    var sourceOwnership: map<string, V>
    var searchLocalisationReuse: map<string, V>

    ghost function State(): CacheState<V>
      reads this
    {
      CacheState(Watermarks(indexRevision, documentsRevision, definitionsRevision),
                 Maps(index, documents, frontends, definitions, searchTexts, searchLocalisations, sourceOwnership,
                      searchLocalisationReuse))
    }

    constructor (capacity: nat)
      ensures this.capacity == capacity && State() == Empty() && Bounded(State(), capacity)
    {
      this.capacity := capacity;
      indexRevision, documentsRevision, definitionsRevision := None, None, None;
      index, documents, frontends, definitions := map[], map[], map[], map[];
      searchTexts, searchLocalisations, sourceOwnership, searchLocalisationReuse := map[], map[], map[], map[];
    }

    method Get(revision: nat, key: string) returns (value: Option<V>)
      ensures value == Lookup(State(), revision, key)
    {
      ProbesInOrder();
      forall i | 0 <= i < 8
        ensures LookupIn(State(), revision, key, Probes[i..]) ==
                if Answers(State(), Probes[i], revision) && key in Entries(State(), Probes[i])
                then Some(Entries(State(), Probes[i])[key])
                else LookupIn(State(), revision, key, Probes[i + 1..])
      {
        ProbeStep(State(), revision, key, i);
      }
      if key in searchLocalisationReuse {
        return Some(searchLocalisationReuse[key]);
      }
      if documentsRevision == Some(revision) && key in documents {
        return Some(documents[key]);
      }
      if documentsRevision == Some(revision) && key in frontends {
        return Some(frontends[key]);
      }
      if documentsRevision == Some(revision) && key in searchLocalisations {
        return Some(searchLocalisations[key]);
      }
      var indexed := indexRevision.Some? && revision >= indexRevision.value;
      if indexed && key in sourceOwnership {
        return Some(sourceOwnership[key]);
      }
      if indexed && key in searchTexts {
        return Some(searchTexts[key]);
      }
      if definitionsRevision.Some? && revision >= definitionsRevision.value && key in definitions {
        return Some(definitions[key]);
      }
      if indexed && key in index {
        return Some(index[key]);
      }
      return None;
    }

    method Insert(revision: nat, domain: Domain, key: string, value: V)
      modifies this
      ensures State() == Inserted(old(State()), capacity, revision, domain, key, value)
      ensures Rises(old(State()).marks, State().marks)
    {
      InsertRises(State(), capacity, revision, domain, key, value);
      var superseded := Admit(revision, domain);
      if !superseded {
        Put(domain, key, value);
      }
    }

    /** Rejects a late revision; otherwise sets or moves the domain's watermark. */
    method Admit(revision: nat, domain: Domain) returns (superseded: bool)
      modifies this
      ensures superseded == Superseded(old(State()), domain, revision)
      ensures State() == if superseded then old(State()) else Admitted(old(State()), revision, domain)
    {
      match domain {
        case SourceOwnership =>
          if Behind(revision, documentsRevision) { return true; }
          if indexRevision.None? { indexRevision := Some(revision); }
        case SearchLocalisationReuse =>
          if Behind(revision, documentsRevision) { return true; }
        case Documents | Frontends | SearchLocalisations =>
          if Behind(revision, documentsRevision) { return true; }
          if documentsRevision.Some? && revision > documentsRevision.value {
            documents, frontends, searchLocalisations := map[], map[], map[];
            documentsRevision := Some(revision);
          } else if documentsRevision.None? {
            documentsRevision := Some(revision);
          }
        case Index | SearchTexts =>
          if Behind(revision, indexRevision) { return true; }
          if indexRevision.None? { indexRevision := Some(revision); }
        case Definitions =>
          if Behind(revision, definitionsRevision) { return true; }
          if definitionsRevision.None? { definitionsRevision := Some(revision); }
      }
      return false;
    }

    /** Stores into the domain's map. */
    method Put(domain: Domain, key: string, value: V)
      modifies this
      ensures State() == WithEntries(old(State()), domain,
                                     Stored(Entries(old(State()), domain), Capacity(capacity, domain), Replaces(domain),
                                            key, value))
    {
      match domain
      case Index => index := Store(index, capacity, false, key, value);
      case Documents => documents := Store(documents, capacity, false, key, value);
      case Frontends => frontends := Store(frontends, if capacity < 32 then capacity else 32, false, key, value);
      case Definitions => definitions := Store(definitions, capacity, false, key, value);
      case SearchTexts => searchTexts := Store(searchTexts, 1, false, key, value);
      case SearchLocalisations => searchLocalisations := Store(searchLocalisations, 1, false, key, value);
      case SourceOwnership => sourceOwnership := Store(sourceOwnership, 1, true, key, value);
      case SearchLocalisationReuse =>
        searchLocalisationReuse := Store(searchLocalisationReuse, 1, true, key, value);
    }

    /** Makes room, then stores, keeping the first value unless the domain replaces. */
    static method Store(entries: map<string, V>, bound: nat, replacing: bool, key: string, value: V)
      returns (after: map<string, V>)
      ensures after == Stored(entries, bound, replacing, key, value)
    {
      after := entries;
      if |after| >= bound && key !in after {
        after := map[];
      }
      if replacing || key !in after {
        after := after[key := value];
      }
    }

    method AdvanceTo(revision: nat)
      modifies this
      ensures State() == AdvancedTo(old(State()), revision)
      ensures Rises(old(State()).marks, State().marks)
    {
      if indexRevision.None? || revision > indexRevision.value {
        index, searchTexts, sourceOwnership := map[], map[], map[];
        indexRevision := Some(revision);
      }
      AdvanceDefinitions(revision);
      AdvanceDocuments(revision);
    }

    method AdvanceDocuments(revision: nat)
      modifies this
      ensures State() == AdvancedDocuments(old(State()), revision)
    {
      if documentsRevision.None? || revision > documentsRevision.value {
        documents, frontends, searchLocalisations := map[], map[], map[];
        documentsRevision := Some(revision);
      }
    }

    method AdvanceDefinitions(revision: nat)
      modifies this
      ensures State() == AdvancedDefinitions(old(State()), revision)
    {
      if definitionsRevision.None? || revision > definitionsRevision.value {
        definitions := map[];
        definitionsRevision := Some(revision);
      }
    }

    method IsSuperseded(domain: Domain, revision: nat) returns (superseded: bool)
      ensures superseded == Superseded(State(), domain, revision)
      ensures forall key, value :: superseded ==> Inserted(State(), capacity, revision, domain, key, value) == State()
    {
      var watermark :=
        match domain
        case Index | SearchTexts => indexRevision
        case Documents | Frontends | SearchLocalisations | SearchLocalisationReuse | SourceOwnership => documentsRevision
        case Definitions => definitionsRevision;
      superseded := watermark.Some? && revision < watermark.value;
    }
  }
}
