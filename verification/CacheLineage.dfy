/** One host lineage and its cache over every run: the host commits revisions while workers on old
    snapshots look up and insert late, and resolvers memoise source ownership in two levels. */
module CacheLineage {
  import opened Options
  import opened QueryCache
  import SourceOwnership
  import Positions
  import opened DefinitionSets

  /** The rest of the index and of cached values is opaque. */
  type OtherShards(00, !new)
  type OtherValue(00, !new)

  datatype Shards = Shards(definitions: Files, others: OtherShards)

  datatype Value = Eligible(eligible: bool) | OfKind(value: OtherValue)

  /** What one snapshot sees. */
  datatype Inputs = Inputs(sources: SourceOwnership.Index, shards: Shards, documents: seq<Document>)

  datatype Entry = Plain(value: Value) | Owned(resolution: SourceOwnership.Resolution)

  const OwnerKey := "effective-source-ownership"
  const InputsKey := "source-ownership-inputs"

  ghost predicate SameIndex(a: Inputs, b: Inputs) {
    a.sources == b.sources && a.shards == b.shards
  }

  ghost predicate SameDefinitions(a: Inputs, b: Inputs) {
    SameIndex(a, b) && SameFacts(a.shards.definitions, a.documents, b.documents)
  }

  /** The open overlays with their paths: all a resolution reads of the documents. */
  function Overlays(documents: seq<Document>): seq<SourceOwnership.Overlay> {
    if documents == [] then []
    else
      (if documents[0].overlay then [SourceOwnership.Overlay(documents[0].id, documents[0].path)] else [])
      + Overlays(documents[1..])
  }

  /** They are the overlays among the documents, each in its place. */
  lemma {:induction false} OverlaysLaw(documents: seq<Document>) returns (open: seq<Document>, places: seq<nat>)
    ensures Positions.Stand(documents, (d: Document) => d.overlay, open, places) && |Overlays(documents)| == |open|
    ensures forall i :: 0 <= i < |open| ==> Overlays(documents)[i] == SourceOwnership.Overlay(open[i].id, open[i].path)
  {
    var keep := (d: Document) => d.overlay;
    open := Positions.Kept(documents, keep);
    OverlaysAreKept(documents, keep);
    places := Positions.KeptLaw(documents, keep);
  }

  lemma {:induction false} OverlaysAreKept(documents: seq<Document>, keep: Document -> bool)
    requires forall d :: keep(d) <==> d.overlay
    ensures var open := Positions.Kept(documents, keep);
            && |Overlays(documents)| == |open|
            && forall i :: 0 <= i < |open| ==> Overlays(documents)[i] == SourceOwnership.Overlay(open[i].id, open[i].path)
  {
    if documents != [] {
      OverlaysAreKept(documents[1..], keep);
    }
  }

  ghost function Ownership(inputs: Inputs): SourceOwnership.Resolution {
    SourceOwnership.Resolve(inputs.sources, Overlays(inputs.documents))
  }

  /** The layers above: each key has one home domain and one computation from a snapshot's inputs. */
  datatype Queries = Queries(home: string -> Domain, compute: (string, Inputs) -> Value)

  /** A computation reads no more than its domain may: index queries the index, definition queries the index
      and the definition set, document queries everything. */
  ghost predicate Lawful(queries: Queries) {
    && queries.home(OwnerKey) == Documents
    && queries.home(InputsKey) == SourceOwnership
    && (forall key, a, b :: (queries.home(key).Index? || queries.home(key).SearchTexts?) && SameIndex(a, b) ==>
          queries.compute(key, a) == queries.compute(key, b))
    && (forall key, a, b :: queries.home(key).Definitions? && SameDefinitions(a, b) ==>
          queries.compute(key, a) == queries.compute(key, b))
  }

  /** What a fresh computation on these inputs returns. */
  ghost function Truth(queries: Queries, key: string, inputs: Inputs): Entry {
    if key == OwnerKey || key == InputsKey then Owned(Ownership(inputs)) else Plain(queries.compute(key, inputs))
  }

  /** A worker inside the ownership query, between two accesses to the cache. */
  datatype Resolver =
    | ReadOwner(revision: nat)
    | ReadInputs(revision: nat)
    | StoreInputs(revision: nat, resolution: SourceOwnership.Resolution)
    | StoreOwner(revision: nat, resolution: SourceOwnership.Resolution)
    | Done(revision: nat, resolution: SourceOwnership.Resolution)

  /** The inputs of every revision, the cache, a document commit under way with whether it declares itself, and
      the resolvers at work; `told` records that no commit so far changed the definition set silently. */
  datatype System = System(queries: Queries, capacity: nat, cache: CacheState<Entry>, history: seq<Inputs>,
                           committing: Option<bool>, resolvers: map<nat, Resolver>, told: bool)

  datatype Action =
    | AdvanceIndex(inputs: Inputs)
    | BeginCommit(step: Step, documents: seq<Document>)
    | EndCommit
    | Publish(revision: nat, key: string)
    | Memoise(revision: nat, key: string, value: Entry)
    | StartResolver(worker: nat, revision: nat)
    | StepResolver(worker: nat)

  ghost function Last(s: System): (last: nat)
    requires s.history != []
  {
    |s.history| - 1
  }

  /** The newest revision a snapshot can have. */
  ghost function Published(s: System): (published: int) {
    if s.committing.Some? then |s.history| - 2 else |s.history| - 1
  }

  ghost predicate Reading(s: System, revision: nat) {
    revision <= Published(s) < |s.history|
  }

  /** A document change that keeps the index and, unless it declares itself, the definition set. */
  ghost predicate Commits(before: Inputs, after: Inputs, declares: bool) {
    SameIndex(before, after) && (declares || SameDefinitions(before, after))
  }

  ghost predicate FaithfulTo(inputs: Inputs, step: Step)
    requires Applies(inputs.documents, step)
  {
    Faithful(inputs.shards.definitions, inputs.documents, step)
  }

  ghost predicate Enabled(s: System, action: Action) {
    s.history != [] &&
    match action
    case AdvanceIndex(_) => s.committing.None?
    case BeginCommit(step, documents) => s.committing.None? && Writes(s.history[Last(s)].documents, step, documents)
    case EndCommit => s.committing.Some?
    case Publish(revision, key) =>
      && Reading(s, revision)
      && !s.queries.home(key).SourceOwnership? && !s.queries.home(key).SearchLocalisationReuse?
    case Memoise(revision, key, _) => Reading(s, revision) && s.queries.home(key).SearchLocalisationReuse?
    case StartResolver(worker, revision) => worker !in s.resolvers && Reading(s, revision)
    case StepResolver(worker) => worker in s.resolvers && s.resolvers[worker].revision < |s.history|
  }

  ghost function Insert(s: System, revision: nat, domain: Domain, key: string, entry: Entry): System {
    s.(cache := Inserted(s.cache, s.capacity, revision, domain, key, entry))
  }

  /** One access of a resolver. */
  ghost function StepOf(s: System, resolver: Resolver): (System, Resolver)
    requires resolver.revision < |s.history|
  {
    var revision := resolver.revision;
    var overlays := Overlays(s.history[revision].documents);
    match resolver
    case ReadOwner(_) =>
      var found := Lookup(s.cache, revision, OwnerKey);
      (s, if found.Some? && found.value.Owned? then Done(revision, found.value.resolution) else ReadInputs(revision))
    case ReadInputs(_) =>
      var found := Lookup(s.cache, revision, InputsKey);
      (s, if found.Some? && found.value.Owned? && found.value.resolution.overlays == overlays
          then StoreOwner(revision, found.value.resolution)
          else StoreInputs(revision, SourceOwnership.Resolve(s.history[revision].sources, overlays)))
    case StoreInputs(_, resolution) =>
      (Insert(s, revision, SourceOwnership, InputsKey, Owned(resolution)), StoreOwner(revision, resolution))
    case StoreOwner(_, resolution) =>
      (Insert(s, revision, Documents, OwnerKey, Owned(resolution)), Done(revision, resolution))
    case Done(_, _) => (s, resolver)
  }

  ghost function Apply(s: System, action: Action): System
    requires Enabled(s, action)
  {
    match action
    case AdvanceIndex(inputs) =>
      s.(history := s.history + [inputs], cache := AdvancedTo(s.cache, |s.history|))
    case BeginCommit(step, documents) =>
      var last := s.history[Last(s)];
      s.(history := s.history + [last.(documents := documents)], cache := AdvancedDocuments(s.cache, |s.history|),
         committing := Some(Declares(last.documents, step)), told := s.told && FaithfulTo(last, step))
    case EndCommit =>
      s.(committing := None,
         cache := if s.committing.value then AdvancedDefinitions(s.cache, Last(s)) else s.cache)
    case Publish(revision, key) =>
      Insert(s, revision, s.queries.home(key), key, Truth(s.queries, key, s.history[revision]))
    case Memoise(revision, key, value) => Insert(s, revision, SearchLocalisationReuse, key, value)
    case StartResolver(worker, revision) => s.(resolvers := s.resolvers[worker := ReadOwner(revision)])
    case StepResolver(worker) =>
      var (after, resolver) := StepOf(s, s.resolvers[worker]);
      after.(resolvers := s.resolvers[worker := resolver])
  }

  ghost predicate Runs(s: System, actions: seq<Action>, after: System)
    decreases |actions|
  {
    if actions == [] then s == after
    else Enabled(s, actions[0]) && Runs(Apply(s, actions[0]), actions[1..], after)
  }

  // ----- What every run keeps -----

  ghost function From(watermark: Option<nat>): nat {
    if watermark.Some? then watermark.value else 0
  }

  /** The index state has been the same since the index watermark. */
  ghost predicate IndexSteady(s: System)
    requires s.history != []
  {
    && From(s.cache.marks.indexRevision) <= Last(s)
    && forall q: nat :: From(s.cache.marks.indexRevision) <= q <= Last(s) ==> SameIndex(s.history[q], s.history[Last(s)])
  }

  /** The definition set has been the same since the definition watermark, up to the published revision,
      unless some commit changed it silently. */
  ghost predicate DefinitionsSteady(s: System)
    requires s.history != [] && 0 <= Published(s)
  {
    && From(s.cache.marks.definitionsRevision) <= Published(s)
    && (s.told ==> forall q: nat :: From(s.cache.marks.definitionsRevision) <= q <= Published(s) ==>
          SameDefinitions(s.history[q], s.history[Published(s)]))
  }

  /** The entry is what its domain's inputs now determine. */
  ghost predicate HonestIn(queries: Queries, told: bool, last: Inputs, published: Inputs, domain: Domain, key: string,
                           entry: Entry) {
    match domain
    case SearchLocalisationReuse => true
    case SourceOwnership =>
      && entry.Owned?
      && entry.resolution == SourceOwnership.Resolve(last.sources, entry.resolution.overlays)
    case Definitions => told ==> entry == Truth(queries, key, published)
    case _ => entry == Truth(queries, key, last)
  }

  ghost predicate Honest(s: System, domain: Domain, key: string, entry: Entry)
    requires s.history != [] && 0 <= Published(s)
  {
    HonestIn(s.queries, s.told, s.history[Last(s)], s.history[Published(s)], domain, key, entry)
  }

  /** The document watermark, once set, is the host's revision. */
  ghost predicate DocumentsCurrent(s: System) {
    if s.cache.marks.documentsRevision.Some? then s.cache.marks.documentsRevision.value == |s.history| - 1 else |s.history| == 1
  }

  ghost predicate ResolverRight(s: System, resolver: Resolver) {
    && Reading(s, resolver.revision)
    && (!resolver.ReadOwner? && !resolver.ReadInputs? ==> resolver.resolution == Ownership(s.history[resolver.revision]))
  }

  /** A commit under way keeps the index, and the definition set unless it declares. */
  ghost predicate CommitRight(s: System) {
    s.committing.Some? ==>
      && |s.history| >= 2 && SameIndex(s.history[|s.history| - 2], s.history[|s.history| - 1])
      && (s.told ==> Commits(s.history[|s.history| - 2], s.history[|s.history| - 1], s.committing.value))
  }

  /** An entry sits in its key's home and is honest. */
  ghost predicate EntryRight(s: System, domain: Domain, key: string)
    requires s.history != [] && 0 <= Published(s) && key in Entries(s.cache, domain)
  {
    s.queries.home(key) == domain && Honest(s, domain, key, Entries(s.cache, domain)[key])
  }

  ghost predicate EntriesRight(s: System)
    requires s.history != [] && 0 <= Published(s)
  {
    forall d: Domain, key :: key in Entries(s.cache, d) ==> EntryRight(s, d, key)
  }

  ghost predicate ResolversRight(s: System) {
    forall worker :: worker in s.resolvers ==> ResolverRight(s, s.resolvers[worker])
  }

  ghost predicate Coherent(s: System) {
    && Lawful(s.queries) && s.history != [] && CommitRight(s) && DocumentsCurrent(s)
    && IndexSteady(s) && DefinitionsSteady(s) && EntriesRight(s) && ResolversRight(s)
  }

  lemma KeysAtHome(s: System)
    requires s.history != [] && 0 <= Published(s) && EntriesRight(s)
    ensures Sorted(s.cache, s.queries.home)
  {
    forall d: Domain, k | k in Entries(s.cache, d)
      ensures s.queries.home(k) == d
    {
      assert EntryRight(s, d, k);
    }
  }

  /** Entries of every domain answer truthfully wherever they answer at all. */
  lemma AnswersAreTrue(s: System, revision: nat, key: string)
    requires Coherent(s) && Reading(s, revision)
    ensures var found, domain := Lookup(s.cache, revision, key), s.queries.home(key);
            found.Some? && !domain.SearchLocalisationReuse? && (domain.Definitions? ==> s.told) ==>
              if domain.SourceOwnership? then
                found.value.Owned? && found.value.resolution ==
                  SourceOwnership.Resolve(s.history[revision].sources, found.value.resolution.overlays)
              else found.value == Truth(s.queries, key, s.history[revision])
  {
    var domain := s.queries.home(key);
    KeysAtHome(s);
    LookupAtHome(s.cache, s.queries.home, revision, key);
    if Answers(s.cache, domain, revision) && key in Entries(s.cache, domain) {
      assert EntryRight(s, domain, key);
      if Guard(domain).IndexLineage? || domain.SourceOwnership? {
        assert SameIndex(s.history[revision], s.history[Last(s)]);
      } else if domain.Definitions? && s.told {
        assert SameDefinitions(s.history[revision], s.history[Published(s)]);
      }
      TruthDepends(s.queries, key, s.history[revision], s.history[Last(s)]);
      TruthDepends(s.queries, key, s.history[revision], s.history[Published(s)]);
    }
  }

  lemma TruthDepends(queries: Queries, key: string, a: Inputs, b: Inputs)
    requires Lawful(queries)
    ensures (queries.home(key).Index? || queries.home(key).SearchTexts?) && SameIndex(a, b) ==>
              Truth(queries, key, a) == Truth(queries, key, b)
    ensures queries.home(key).Definitions? && SameDefinitions(a, b) ==> Truth(queries, key, a) == Truth(queries, key, b)
  {
  }

  // ----- Inserts -----

  /** An entry computed on one's own snapshot, or a reused resolution of it, at that snapshot's revision. */
  ghost predicate Computed(s: System, revision: nat, domain: Domain, key: string, entry: Entry) {
    && Reading(s, revision) && s.queries.home(key) == domain
    && (domain.SourceOwnership? ==> entry == Owned(Ownership(s.history[revision])))
    && (!domain.SourceOwnership? && !domain.SearchLocalisationReuse? ==> entry == Truth(s.queries, key, s.history[revision]))
  }

  lemma ComputedIsHonest(s: System, revision: nat, domain: Domain, key: string, entry: Entry)
    requires Coherent(s) && Computed(s, revision, domain, key, entry) && !Superseded(s.cache, domain, revision)
    ensures Honest(s, domain, key, entry)
  {
    TruthDepends(s.queries, key, s.history[revision], s.history[Last(s)]);
    TruthDepends(s.queries, key, s.history[revision], s.history[Published(s)]);
    if domain.Index? || domain.SearchTexts? {
      assert SameIndex(s.history[revision], s.history[Last(s)]);
    } else if domain.Definitions? {
      assert s.told ==> SameDefinitions(s.history[revision], s.history[Published(s)]);
    } else {
      assert revision == Last(s);
    }
  }

  ghost predicate IndexMarkKept(s: System, revision: nat, after: CacheState<Entry>) {
    after.marks.indexRevision == s.cache.marks.indexRevision || (s.cache.marks.indexRevision.None? && after.marks.indexRevision == Some(revision))
  }

  ghost predicate DefinitionsMarkKept(s: System, revision: nat, after: CacheState<Entry>) {
    || after.marks.definitionsRevision == s.cache.marks.definitionsRevision
    || (s.cache.marks.definitionsRevision.None? && after.marks.definitionsRevision == Some(revision))
  }

  /** The watermarks an insert leaves: a first insert sets one, nothing moves. */
  lemma InsertMarks(s: System, revision: nat, domain: Domain, key: string, entry: Entry)
    requires Coherent(s) && Reading(s, revision)
    ensures var after := Insert(s, revision, domain, key, entry);
            IndexMarkKept(s, revision, after.cache) && DefinitionsMarkKept(s, revision, after.cache) && DocumentsCurrent(after)
  {
    if !Superseded(s.cache, domain, revision) {
      AdmitMarks(s, revision, domain);
    }
  }

  lemma AdmitMarks(s: System, revision: nat, domain: Domain)
    requires Coherent(s) && Reading(s, revision)
    ensures var after := s.(cache := Admitted(s.cache, revision, domain));
            IndexMarkKept(s, revision, after.cache) && DefinitionsMarkKept(s, revision, after.cache) && DocumentsCurrent(after)
  {
  }

  lemma InsertKeeps(s: System, revision: nat, domain: Domain, key: string, entry: Entry)
    requires Coherent(s) && Computed(s, revision, domain, key, entry)
    ensures Coherent(Insert(s, revision, domain, key, entry))
  {
    var after := Insert(s, revision, domain, key, entry);
    InsertMarks(s, revision, domain, key, entry);
    InsertStaysSteady(s, revision, domain, key, entry);
    forall d: Domain, k | k in Entries(after.cache, d)
      ensures EntryRight(after, d, k)
    {
      InsertKeepsEntry(s, revision, domain, key, entry, d, k);
    }
    CacheOnly(s, after.cache);
  }

  /** Resolvers and the commit under way do not depend on the cache. */
  lemma CacheOnly(s: System, cache: CacheState<Entry>)
    requires Coherent(s)
    ensures ResolversRight(s.(cache := cache)) && CommitRight(s.(cache := cache))
  {
    forall worker | worker in s.resolvers
      ensures ResolverRight(s.(cache := cache), s.resolvers[worker])
    {
      assert ResolverRight(s, s.resolvers[worker]);
    }
  }

  lemma InsertKeepsEntry(s: System, revision: nat, domain: Domain, key: string, entry: Entry, d: Domain, k: string)
    requires Coherent(s) && Computed(s, revision, domain, key, entry)
    requires k in Entries(Insert(s, revision, domain, key, entry).cache, d)
    ensures EntryRight(Insert(s, revision, domain, key, entry), d, k)
  {
    if (d, k) != (domain, key) {
      InsertOther(s.cache, s.capacity, revision, domain, key, entry, d, k);
      assert EntryRight(s, d, k);
    } else if Superseded(s.cache, domain, revision) {
      assert EntryRight(s, d, k);
    } else {
      InsertedIsRight(s, revision, domain, key, entry);
    }
  }

  lemma InsertedIsRight(s: System, revision: nat, domain: Domain, key: string, entry: Entry)
    requires Coherent(s) && Computed(s, revision, domain, key, entry) && !Superseded(s.cache, domain, revision)
    ensures key in Entries(Insert(s, revision, domain, key, entry).cache, domain)
    ensures EntryRight(Insert(s, revision, domain, key, entry), domain, key)
  {
    ComputedIsHonest(s, revision, domain, key, entry);
    InsertOwn(s.cache, s.capacity, revision, domain, key, entry);
    if key in Entries(s.cache, domain) {
      assert EntryRight(s, domain, key);
    }
    var after := Insert(s, revision, domain, key, entry);
    var now := Entries(after.cache, domain)[key];
    assert Honest(s, domain, key, now);
    HonestIgnoresCache(s, after.cache, domain, key, now);
  }

  lemma HonestIgnoresCache(s: System, cache: CacheState<Entry>, domain: Domain, key: string, entry: Entry)
    requires s.history != [] && 0 <= Published(s)
    requires Honest(s, domain, key, entry)
    ensures Honest(s.(cache := cache), domain, key, entry)
  {
    var t := s.(cache := cache);
    var last, published := s.history[Last(s)], s.history[Published(s)];
    assert t.queries == s.queries && t.history[Last(t)] == last && t.history[Published(t)] == published;
    assert HonestIn(s.queries, s.told, last, published, domain, key, entry);
  }

  lemma InsertStaysSteady(s: System, revision: nat, domain: Domain, key: string, entry: Entry)
    requires Coherent(s) && Reading(s, revision)
    ensures var after := Insert(s, revision, domain, key, entry); IndexSteady(after) && DefinitionsSteady(after)
  {
    InsertMarks(s, revision, domain, key, entry);
  }

  // ----- Host steps -----

  lemma AdvanceIndexKeeps(s: System, inputs: Inputs)
    requires Coherent(s) && Enabled(s, AdvanceIndex(inputs))
    ensures Coherent(Apply(s, AdvanceIndex(inputs)))
  {
    var after := Apply(s, AdvanceIndex(inputs));
    forall d: Domain, k | k in Entries(after.cache, d)
      ensures EntryRight(after, d, k)
    {
      assert d.SearchLocalisationReuse? && k in Entries(s.cache, d);
    }
  }

  lemma BeginCommitKeeps(s: System, step: Step, documents: seq<Document>)
    requires Coherent(s) && Enabled(s, BeginCommit(step, documents))
    ensures Coherent(Apply(s, BeginCommit(step, documents)))
  {
    var after := Apply(s, BeginCommit(step, documents));
    var last := Last(s);
    FaithfulIsExact(s.history[last].shards.definitions, s.history[last].documents, step, documents);
    DocumentsAdvance(s.cache, |s.history|, Index);
    BeginCommitStaysSteady(s, step, documents);
    forall d: Domain, k | k in Entries(after.cache, d)
      ensures EntryRight(after, d, k)
    {
      BeginCommitKeepsEntry(s, step, documents, d, k);
    }
    assert forall r: nat :: Reading(s, r) ==> Reading(after, r) && after.history[r] == s.history[r];
  }

  lemma BeginCommitStaysSteady(s: System, step: Step, documents: seq<Document>)
    requires Coherent(s) && Enabled(s, BeginCommit(step, documents))
    ensures var after := Apply(s, BeginCommit(step, documents)); IndexSteady(after) && DefinitionsSteady(after)
  {
    var after := Apply(s, BeginCommit(step, documents));
    var last := Last(s);
    DocumentsAdvance(s.cache, |s.history|, Index);
    forall q: nat | From(s.cache.marks.indexRevision) <= q <= last + 1
      ensures SameIndex(after.history[q], after.history[last + 1])
    {
      assert q <= last ==> SameIndex(s.history[q], s.history[last]);
    }
    if after.told {
      forall q: nat | From(s.cache.marks.definitionsRevision) <= q <= last
        ensures SameDefinitions(after.history[q], after.history[last])
      {
        assert SameDefinitions(s.history[q], s.history[last]);
      }
    }
  }

  /** An entry stays honest while its domain's inputs stay. */
  lemma HonestMoves(queries: Queries, told: bool, last: Inputs, published: Inputs, told': bool, last': Inputs,
                    published': Inputs, d: Domain, k: string, entry: Entry)
    requires Lawful(queries) && queries.home(k) == d && HonestIn(queries, told, last, published, d, k, entry)
    requires SameIndex(last, last') && (ByDocument(d) ==> last' == last)
    requires told' ==> told && (d.Definitions? ==> SameDefinitions(published, published'))
    ensures HonestIn(queries, told', last', published', d, k, entry)
  {
    TruthDepends(queries, k, last, last');
    TruthDepends(queries, k, published, published');
  }

  lemma BeginCommitKeepsEntry(s: System, step: Step, documents: seq<Document>, d: Domain, k: string)
    requires Coherent(s) && Enabled(s, BeginCommit(step, documents))
    requires k in Entries(Apply(s, BeginCommit(step, documents)).cache, d)
    ensures EntryRight(Apply(s, BeginCommit(step, documents)), d, k)
  {
    var after := Apply(s, BeginCommit(step, documents));
    DocumentsAdvance(s.cache, |s.history|, d);
    assert EntryRight(s, d, k);
    var last, last' := s.history[Last(s)], after.history[Last(after)];
    assert after.history[Published(after)] == last == s.history[Published(s)];
    HonestMoves(s.queries, s.told, last, last, after.told, last', last, d, k, Entries(s.cache, d)[k]);
  }

  lemma EndCommitKeeps(s: System)
    requires Coherent(s) && Enabled(s, EndCommit)
    ensures Coherent(Apply(s, EndCommit))
  {
    var after := Apply(s, EndCommit);
    var last := Last(s);
    if !s.committing.value && s.told {
      forall q: nat | From(s.cache.marks.definitionsRevision) <= q <= last
        ensures SameDefinitions(after.history[q], after.history[last])
      {
        assert q <= last - 1 ==> SameDefinitions(s.history[q], s.history[last - 1]);
      }
    }
    forall d: Domain, k | k in Entries(after.cache, d)
      ensures EntryRight(after, d, k)
    {
      EndCommitKeepsEntry(s, d, k);
    }
    assert forall r: nat :: Reading(s, r) ==> Reading(after, r);
  }

  lemma EndCommitKeepsEntry(s: System, d: Domain, k: string)
    requires Coherent(s) && Enabled(s, EndCommit) && k in Entries(Apply(s, EndCommit).cache, d)
    ensures EntryRight(Apply(s, EndCommit), d, k)
  {
    var after := Apply(s, EndCommit);
    var last := Last(s);
    DefinitionsAdvance(s.cache, last, d);
    assert From(s.cache.marks.definitionsRevision) <= last - 1;
    assert EntryRight(s, d, k);
    assert after.history == s.history && Published(s) == last - 1 && Published(after) == last;
    HonestMoves(s.queries, s.told, s.history[last], s.history[last - 1], s.told, s.history[last], s.history[last], d, k,
                Entries(s.cache, d)[k]);
  }

  // ----- Resolvers -----

  /** One step of a resolver keeps its answer right, whatever others did in between. */
  lemma ResolverKeeps(s: System, resolver: Resolver)
    requires Coherent(s) && ResolverRight(s, resolver)
    ensures var (after, next) := StepOf(s, resolver);
            Coherent(after) && ResolverRight(after, next) && next.revision == resolver.revision
            && after == s.(cache := after.cache)
  {
    var revision := resolver.revision;
    match resolver
    case ReadOwner(_) => AnswersAreTrue(s, revision, OwnerKey);
    case ReadInputs(_) => AnswersAreTrue(s, revision, InputsKey);
    case StoreInputs(_, resolution) => InsertKeeps(s, revision, SourceOwnership, InputsKey, Owned(resolution));
    case StoreOwner(_, resolution) => InsertKeeps(s, revision, Documents, OwnerKey, Owned(resolution));
    case Done(_, _) =>
  }

  // ----- Runs -----

  lemma StepKeeps(s: System, action: Action)
    requires Coherent(s) && Enabled(s, action)
    ensures Coherent(Apply(s, action))
  {
    match action
    case AdvanceIndex(inputs) => AdvanceIndexKeeps(s, inputs);
    case BeginCommit(step, documents) => BeginCommitKeeps(s, step, documents);
    case EndCommit => EndCommitKeeps(s);
    case Publish(revision, key) => PublishKeeps(s, revision, key);
    case Memoise(revision, key, value) => InsertKeeps(s, revision, SearchLocalisationReuse, key, value);
    case StartResolver(worker, revision) => StartKeeps(s, worker, revision);
    case StepResolver(worker) =>
      StepResolverKeeps(s, worker);
  }

  lemma PublishKeeps(s: System, revision: nat, key: string)
    requires Coherent(s) && Enabled(s, Publish(revision, key))
    ensures Coherent(Apply(s, Publish(revision, key)))
  {
    InsertKeeps(s, revision, s.queries.home(key), key, Truth(s.queries, key, s.history[revision]));
  }

  lemma StartKeeps(s: System, worker: nat, revision: nat)
    requires Coherent(s) && Enabled(s, StartResolver(worker, revision))
    ensures Coherent(Apply(s, StartResolver(worker, revision)))
  {
    var resolvers := s.resolvers[worker := ReadOwner(revision)];
    forall w | w in resolvers
      ensures ResolverRight(s.(resolvers := resolvers), resolvers[w])
    {
      assert w != worker ==> ResolverRight(s, s.resolvers[w]);
    }
    ResolversOnly(s, resolvers);
  }

  lemma StepResolverKeeps(s: System, worker: nat)
    requires Coherent(s) && Enabled(s, StepResolver(worker))
    ensures Coherent(Apply(s, StepResolver(worker)))
  {
    assert ResolverRight(s, s.resolvers[worker]);
    ResolverKeeps(s, s.resolvers[worker]);
    var (after, next) := StepOf(s, s.resolvers[worker]);
    var done := after.(resolvers := s.resolvers[worker := next]);
    forall w | w in done.resolvers
      ensures ResolverRight(done, done.resolvers[w])
    {
      if w != worker {
        assert ResolverRight(after, after.resolvers[w]);
      } else {
        assert ResolverRight(after, next);
      }
    }
    ResolversOnly(after, done.resolvers);
  }

  /** Everything else does not depend on the resolvers. */
  lemma ResolversOnly(s: System, resolvers: map<nat, Resolver>)
    requires Coherent(s) && ResolversRight(s.(resolvers := resolvers))
    ensures Coherent(s.(resolvers := resolvers))
  {
    var after := s.(resolvers := resolvers);
    forall d: Domain, k | k in Entries(after.cache, d)
      ensures EntryRight(after, d, k)
    {
      assert EntryRight(s, d, k);
    }
  }

  /** A fresh host: revision zero, an empty cache, nobody at work. */
  ghost predicate Starts(s: System) {
    && Lawful(s.queries) && |s.history| == 1 && s.cache == Empty() && s.committing.None? && s.resolvers == map[] && s.told
  }

  lemma {:induction false} RunKeeps(s: System, actions: seq<Action>, after: System)
    requires Coherent(s) && Runs(s, actions, after)
    ensures Coherent(after)
    decreases |actions|
  {
    if actions != [] {
      StepKeeps(s, actions[0]);
      RunKeeps(Apply(s, actions[0]), actions[1..], after);
    }
  }

  lemma RunIsCoherent(s: System, actions: seq<Action>, after: System)
    requires Starts(s) && Runs(s, actions, after)
    ensures Coherent(after)
  {
    assert Coherent(s);
    RunKeeps(s, actions, after);
  }

  /** Coherence over every run: whatever the host and late workers did, a lookup at any published revision
      returns what a fresh computation on that revision's inputs returns; for definition queries, as long as no
      document operation changed the definition set silently. */
  lemma CacheIsCoherent(s: System, actions: seq<Action>, after: System, revision: nat, key: string)
    requires Starts(s) && Runs(s, actions, after) && Reading(after, revision)
    requires !after.queries.home(key).SourceOwnership? && !after.queries.home(key).SearchLocalisationReuse?
    requires after.queries.home(key).Definitions? ==> after.told
    ensures var found := Lookup(after.cache, revision, key);
            found.None? || found.value == Truth(after.queries, key, after.history[revision])
  {
    RunIsCoherent(s, actions, after);
    AnswersAreTrue(after, revision, key);
  }

  /** The ownership memo is transparent: every resolver that finishes, by recomputing, by the document entry
      or by an older revision's entry with the same overlays, has the resolution of its own snapshot. */
  lemma OwnershipMemoIsTransparent(s: System, actions: seq<Action>, after: System, worker: nat)
    requires Starts(s) && Runs(s, actions, after)
    requires worker in after.resolvers && after.resolvers[worker].Done?
    ensures var resolver := after.resolvers[worker];
            resolver.revision < |after.history| && resolver.resolution == Ownership(after.history[resolver.revision])
  {
    RunIsCoherent(s, actions, after);
    assert ResolverRight(after, after.resolvers[worker]);
  }

  // ----- Which document operations must declare -----

  /** A state that some run of a fresh host reaches, between commits, at these inputs, without a silent change. */
  ghost predicate Reached(s: System, inputs: Inputs) {
    && (exists start, actions :: Starts(start) && Runs(start, actions, s))
    && s.history != [] && s.committing.None? && s.history[Last(s)] == inputs && s.told
  }

  ghost function Committed(s: System, step: Step, documents: seq<Document>): System
    requires Enabled(s, BeginCommit(step, documents))
  {
    Apply(Apply(s, BeginCommit(step, documents)), EndCommit)
  }

  /** After the operation, what the cache answers for a definition query is what the query finds. */
  ghost predicate AnswersAfter(s: System, step: Step, documents: seq<Document>, key: string)
    requires Enabled(s, BeginCommit(step, documents))
  {
    var after := Committed(s, step, documents);
    var found := Lookup(after.cache, Last(after), key);
    s.queries.home(key).Definitions? && found.Some? ==> found.value == Truth(after.queries, key, after.history[Last(after)])
  }

  lemma FaithfulAnswers(s: System, inputs: Inputs, step: Step, documents: seq<Document>, key: string)
    requires Reached(s, inputs) && Writes(inputs.documents, step, documents) && FaithfulTo(inputs, step)
    ensures AnswersAfter(s, step, documents, key)
  {
    var start, actions :| Starts(start) && Runs(start, actions, s);
    RunIsCoherent(start, actions, s);
    var begun := Apply(s, BeginCommit(step, documents));
    StepKeeps(s, BeginCommit(step, documents));
    StepKeeps(begun, EndCommit);
    var after := Committed(s, step, documents);
    AnswersAreTrue(after, Last(after), key);
  }

  /** A query that tells whether one fact is served. */
  ghost function Asking(fact: Fact): Queries {
    Queries(key => if key == OwnerKey then Documents else if key == InputsKey then SourceOwnership else Definitions,
            (key: string, inputs: Inputs) => Eligible(Serves(inputs.shards.definitions, inputs.documents, fact)))
  }

  ghost function Asked(inputs: Inputs, fact: Fact): System {
    Apply(System(Asking(fact), 1, Empty(), [inputs], None, map[], true), Publish(0, "fact"))
  }

  /** A cache whose one entry is a definition query. */
  ghost predicate Holds(cache: CacheState<Entry>, key: string, entry: Entry) {
    && cache.marks.definitionsRevision == Some(0)
    && forall d: Domain :: Entries(cache, d) == if d.Definitions? then map[key := entry] else map[]
  }

  lemma HeldAnswers(cache: CacheState<Entry>, home: string -> Domain, revision: nat, key: string, entry: Entry)
    requires Holds(cache, key, entry) && home(key) == Definitions
    ensures Lookup(cache, revision, key) == Some(entry)
  {
    forall d: Domain, k | k in Entries(cache, d)
      ensures home(k) == d
    {
    }
    LookupAtHome(cache, home, revision, key);
  }

  lemma AskedIsReached(inputs: Inputs, fact: Fact)
    ensures Reached(Asked(inputs, fact), inputs)
    ensures Holds(Asked(inputs, fact).cache, "fact", Truth(Asking(fact), "fact", inputs))
  {
    var start := System(Asking(fact), 1, Empty(), [inputs], None, map[], true);
    var action, asked := Publish(0, "fact"), Asked(inputs, fact);
    AskingIsLawful(fact);
    assert Starts(start) && Enabled(start, action) && Apply(start, action) == asked;
    assert Runs(asked, [], asked) && [action][1..] == [];
    assert Runs(start, [action], asked);
    forall d: Domain
      ensures Entries(asked.cache, d) == if d.Definitions? then map["fact" := Truth(Asking(fact), "fact", inputs)] else map[]
      ensures asked.cache.marks.definitionsRevision == Some(0)
    {
      FirstInsert(1, 0, "fact", Truth(Asking(fact), "fact", inputs), d);
    }
  }

  lemma AskingIsLawful(fact: Fact)
    ensures Lawful(Asking(fact)) && Asking(fact).home("fact") == Definitions
  {
  }

  /** The commit of an operation that does not declare itself leaves a definition entry in place. */
  lemma SilentKeeps(s: System, step: Step, documents: seq<Document>, key: string, entry: Entry)
    requires Enabled(s, BeginCommit(step, documents)) && !Declares(s.history[Last(s)].documents, step)
    requires Holds(s.cache, key, entry)
    ensures Holds(Committed(s, step, documents).cache, key, entry)
  {
    var after := Committed(s, step, documents);
    assert after.cache == AdvancedDocuments(s.cache, |s.history|);
    forall d: Domain
      ensures Entries(after.cache, d) == if d.Definitions? then map[key := entry] else map[]
    {
      DocumentsAdvance(s.cache, |s.history|, d);
    }
    DocumentsAdvance(s.cache, |s.history|, Definitions);
  }

  /** A silent change is served stale. */
  lemma SilentIsStale(inputs: Inputs, step: Step, documents: seq<Document>) returns (s: System, key: string)
    requires Writes(inputs.documents, step, documents) && !FaithfulTo(inputs, step)
    ensures Reached(s, inputs) && !AnswersAfter(s, step, documents, key)
  {
    FaithfulIsExact(inputs.shards.definitions, inputs.documents, step, documents);
    var fact := ChangedFact(inputs, documents);
    s, key := Asked(inputs, fact), "fact";
    AskedIsReached(inputs, fact);
    var entry := Truth(Asking(fact), key, inputs);
    SilentKeeps(s, step, documents, key, entry);
    var after := Committed(s, step, documents);
    HeldAnswers(after.cache, Asking(fact).home, Last(after), key, entry);
    assert after.history[Last(after)] == inputs.(documents := documents) && after.queries == Asking(fact);
    AskingIsLawful(fact);
  }

  lemma ChangedFact(inputs: Inputs, documents: seq<Document>) returns (fact: Fact)
    requires !SameFacts(inputs.shards.definitions, inputs.documents, documents)
    ensures Truth(Asking(fact), "fact", inputs) != Truth(Asking(fact), "fact", inputs.(documents := documents))
  {
    var files := inputs.shards.definitions;
    fact :| Serves(files, inputs.documents, fact) != Serves(files, documents, fact);
  }

  /** The host's test is exactly strong enough for faithful operations: whatever host, queries and run, definition
      queries are answered right after an operation if and only if the operation is faithful. */
  lemma DeclaringIsExact(inputs: Inputs, step: Step, documents: seq<Document>)
    requires Writes(inputs.documents, step, documents)
    ensures FaithfulTo(inputs, step) <==>
            forall s: System, key: string :: Reached(s, inputs) ==> AnswersAfter(s, step, documents, key)
  {
    if FaithfulTo(inputs, step) {
      forall s: System, key: string | Reached(s, inputs)
        ensures AnswersAfter(s, step, documents, key)
      {
        FaithfulAnswers(s, inputs, step, documents, key);
      }
    } else {
      var s, key := SilentIsStale(inputs, step, documents);
    }
  }

  /** A failing input: a host that scanned one declaring file stages an overlay over it, and goes on answering a
      definition query as if the file were still served. */
  lemma StagingIsServedStale(inputs: Inputs, d: Declaration) returns (s: System, step: Step, documents: seq<Document>, key: string)
    requires inputs.shards.definitions == OneFile(d) && inputs.documents == []
    ensures step == StageOpen("a", Some(0), "") && Reached(s, inputs) && Enabled(s, BeginCommit(step, documents))
    ensures !AnswersAfter(s, step, documents, key)
  {
    step, documents := StagingHides(d);
    s, key := SilentIsStale(inputs, step, documents);
  }
}
