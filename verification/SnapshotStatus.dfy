/** The current snapshot against the packages as they are now: `context_status`
    (kaizen_components/skill_context.py). */
module SnapshotStatus {
  import opened Wrappers
  import opened Orders
  import opened SkillContexts
  import opened Snapshots

  /** A fresh normalised discovery, its orphan surfaces, and the hashes of the SKILL.md files found. */
  datatype Live = Live(records: seq<Facts>, orphans: nat, observed: map<string, string>)

  datatype Freshness = IsFresh | IsStale | IsMissing | IsInvalid

  datatype Report = Report(current: bool, good: nat, stale: nat, missing: nat, invalid: nat, surfaceDrift: nat,
                           policyDrift: nat, publicationDrift: nat, unsynced: set<string>)

  // ---- dictionaries --------------------------------------------------------------------------------

  /** A dictionary built pair by pair; the later of two equal keys wins. */
  function Index<K, V>(pairs: seq<(K, V)>): map<K, V> {
    if pairs == [] then map[]
    else Index(pairs[..|pairs| - 1])[pairs[|pairs| - 1].0 := pairs[|pairs| - 1].1]
  }

  ghost predicate Functional<K(!new), V(!new)>(pairs: seq<(K, V)>) {
    forall p, q | p in pairs && q in pairs && p.0 == q.0 :: p.1 == q.1
  }

  lemma {:induction false} IndexMeaning<K(!new), V(!new)>(pairs: seq<(K, V)>)
    requires Functional(pairs)
    ensures forall k, v :: k in Index(pairs) && Index(pairs)[k] == v <==> (k, v) in pairs
  {
    if pairs != [] {
      var last := pairs[|pairs| - 1];
      var rest := pairs[..|pairs| - 1];
      assert pairs == rest + [last];
      IndexMeaning(rest);
      forall k, v
        ensures k in Index(pairs) && Index(pairs)[k] == v <==> (k, v) in pairs
      {
        assert last in pairs;
      }
    }
  }

  /** Only which pairs there are matters, not their order. */
  lemma SameIndex<K(!new), V(!new)>(a: seq<(K, V)>, b: seq<(K, V)>)
    requires Functional(a) && forall p :: p in a <==> p in b
    ensures Index(a) == Index(b)
  {
    IndexMeaning(a);
    IndexMeaning(b);
    var m, n := Index(a), Index(b);
    forall k
      ensures k in m <==> k in n
      ensures k in m ==> k in n && m[k] == n[k]
    {
      if k in m {
        assert (k, m[k]) in a;
      }
      if k in n {
        assert (k, n[k]) in b;
      }
    }
  }

  function Projected<K, V, T>(m: map<K, V>, p: V -> T): map<K, T> {
    map k | k in m :: p(m[k])
  }

  predicate Agree<K, T(==)>(a: map<K, T>, b: map<K, T>, k: K) {
    k in a && k in b && a[k] == b[k]
  }

  ghost function Differing<K, T>(a: map<K, T>, b: map<K, T>): set<K> {
    set k | k in a.Keys + b.Keys && !Agree(a, b, k)
  }

  /** How many keys the two dictionaries do not agree on. */
  method Drift<K(==), T(==)>(a: map<K, T>, b: map<K, T>) returns (n: nat)
    ensures n == |Differing(a, b)|
  {
    hide Agree;
    n := 0;
    var all := a.Keys + b.Keys;
    var left := all;
    ghost var found: set<K> := {};
    while left != {}
      invariant left <= all && n == |found|
      invariant forall k :: k in found <==> k in all && k !in left && !Agree(a, b, k)
      decreases left
    {
      var k :| k in left;
      left := left - {k};
      if !Agree(a, b, k) {
        n := n + 1;
        found := found + {k};
      }
    }
    assert found == Differing(a, b);
  }

  // ---- what is compared ----------------------------------------------------------------------------

  type FaceKey = (string, Host)

  function SurfacePair(contexts: seq<ContextRow>, hosts: seq<Host>, s: SurfaceRow): seq<(FaceKey, Face)> {
    var name := NameOf(contexts, s.context);
    if name.Some? && s.face.host in hosts then [((name.value, s.face.host), s.face)] else []
  }

  function StoredPairs(contexts: seq<ContextRow>, surfaces: seq<SurfaceRow>, hosts: seq<Host>): seq<(FaceKey, Face)> {
    if surfaces == [] then []
    else
      StoredPairs(contexts, surfaces[..|surfaces| - 1], hosts)
      + SurfacePair(contexts, hosts, surfaces[|surfaces| - 1])
  }

  function FacePairs(f: Facts): seq<(FaceKey, Face)> {
    seq(|f.faces|, k requires 0 <= k < |f.faces| => ((f.card.name, f.faces[k].host), f.faces[k]))
  }

  function LivePairs(records: seq<Facts>): seq<(FaceKey, Face)> {
    if records == [] then []
    else LivePairs(records[..|records| - 1]) + FacePairs(records[|records| - 1])
  }

  function StoredCards(contexts: seq<ContextRow>): seq<(string, Card)> {
    seq(|contexts|, i requires 0 <= i < |contexts| => (contexts[i].card.name, contexts[i].card))
  }

  function LiveCards(records: seq<Facts>): seq<(string, Card)> {
    seq(|records|, i requires 0 <= i < |records| => (records[i].card.name, records[i].card))
  }

  function SurfaceState(f: Face): (string, string, string) {
    (f.relpath, f.kind, f.status)
  }

  function PolicyState(f: Face): string {
    f.policy
  }

  function PublicationState(c: Card): (string, string) {
    (c.publication, c.reason)
  }

  function FreshnessOf(card: Card, live: map<string, Card>, observed: map<string, string>): Freshness {
    if card.name in live && live[card.name].validation != "valid" then IsInvalid
    else if card.relpath !in observed || card.name !in live then IsMissing
    else if card.validation != live[card.name].validation || observed[card.relpath] != card.skillHash
            || live[card.name].packageHash != card.packageHash then IsStale
    else IsFresh
  }

  function Count(cards: seq<(string, Card)>, live: map<string, Card>, observed: map<string, string>, state: Freshness)
    : (n: nat)
    ensures n <= |cards|
  {
    if cards == [] then 0
    else
      Count(cards[..|cards| - 1], live, observed, state)
      + if FreshnessOf(cards[|cards| - 1].1, live, observed) == state then 1 else 0
  }

  /** The counts follow the cards, one by one. */
  lemma {:induction false} CountJoined(a: seq<(string, Card)>, b: seq<(string, Card)>, live: map<string, Card>,
                                       observed: map<string, string>, state: Freshness)
    ensures Count(a + b, live, observed, state) == Count(a, live, observed, state) + Count(b, live, observed, state)
    ensures |b| == 1 ==> Count(b, live, observed, state) == if FreshnessOf(b[0].1, live, observed) == state then 1 else 0
    decreases |b|
  {
    hide FreshnessOf;
    if b == [] {
      assert a + b == a;
    } else {
      assert (a + b)[..|a + b| - 1] == a + b[..|b| - 1];
      CountJoined(a, b[..|b| - 1], live, observed, state);
    }
  }

  ghost function UnsyncedInvalid(unsynced: set<string>, live: map<string, Card>): set<string> {
    set name | name in unsynced && name in live && live[name].validation != "valid"
  }

  /** A stored skill is invalid if its live package is; else missing if the package or its file is gone;
      else stale if the validity, the file or the package has changed; else fresh. */
  lemma FreshnessMeaning(card: Card, live: map<string, Card>, observed: map<string, string>)
    ensures var gone := card.name !in live || card.relpath !in observed;
      var broken := card.name in live && live[card.name].validation != "valid";
      var same := !gone && live[card.name].validation == card.validation
        && live[card.name].packageHash == card.packageHash && observed[card.relpath] == card.skillHash;
      && (FreshnessOf(card, live, observed) == IsInvalid <==> broken)
      && (FreshnessOf(card, live, observed) == IsMissing <==> !broken && gone)
      && (FreshnessOf(card, live, observed) == IsStale <==> !broken && !gone && !same)
      && (FreshnessOf(card, live, observed) == IsFresh <==> !broken && same)
  {
  }

  /** A surface drifts when it is on one side only or its path, its kind or its status differs; a policy,
      when the surface is on one side only or the policy differs. */
  lemma SurfaceDriftMeaning(stored: map<FaceKey, Face>, now: map<FaceKey, Face>, k: FaceKey)
    ensures k in Differing(Projected(stored, SurfaceState), Projected(now, SurfaceState)) <==>
      || (k in stored && k !in now) || (k in now && k !in stored)
      || (k in stored && k in now && !(stored[k].relpath == now[k].relpath && stored[k].kind == now[k].kind
                                        && stored[k].status == now[k].status))
    ensures k in Differing(Projected(stored, PolicyState), Projected(now, PolicyState)) <==>
      || (k in stored && k !in now) || (k in now && k !in stored)
      || (k in stored && k in now && stored[k].policy != now[k].policy)
  {
  }

  /** A publication drifts when the skill is on one side only or its status or its reason differs. */
  lemma PublicationDriftMeaning(stored: map<string, Card>, now: map<string, Card>, name: string)
    ensures name in Differing(Projected(stored, PublicationState), Projected(now, PublicationState)) <==>
      || (name in stored && name !in now) || (name in now && name !in stored)
      || (name in stored && name in now && !(stored[name].publication == now[name].publication
                                              && stored[name].reason == now[name].reason))
  {
  }

  /** The reported `current`. */
  predicate Current(v: View, hosts: seq<Host>, live: Live)
    requires v.sync.Some?
  {
    OfInventory(live.records) == v.sync.value.inventory && v.sync.value.hosts == hosts && live.orphans == 0
  }

  method Faces(v: View, hosts: seq<Host>) returns (m: map<FaceKey, Face>)
    ensures m == Index(StoredPairs(v.contexts, v.surfaces, hosts))
  {
    var pairs: seq<(FaceKey, Face)> := [];
    for i := 0 to |v.surfaces|
      invariant pairs == StoredPairs(v.contexts, v.surfaces[..i], hosts)
    {
      assert v.surfaces[..i + 1][..i] == v.surfaces[..i];
      pairs := pairs + SurfacePair(v.contexts, hosts, v.surfaces[i]);
    }
    assert v.surfaces[..|v.surfaces|] == v.surfaces;
    m := Index(pairs);
  }

  method CountStates(cards: seq<(string, Card)>, live: map<string, Card>, observed: map<string, string>)
    returns (good: nat, stale: nat, missing: nat, invalid: nat)
    ensures good == Count(cards, live, observed, IsFresh) && stale == Count(cards, live, observed, IsStale)
    ensures missing == Count(cards, live, observed, IsMissing) && invalid == Count(cards, live, observed, IsInvalid)
    ensures good + stale + missing + invalid == |cards|
  {
    good, stale, missing, invalid := 0, 0, 0, 0;
    for i := 0 to |cards|
      invariant good == Count(cards[..i], live, observed, IsFresh) && stale == Count(cards[..i], live, observed, IsStale)
      invariant missing == Count(cards[..i], live, observed, IsMissing)
      invariant invalid == Count(cards[..i], live, observed, IsInvalid)
      invariant good + stale + missing + invalid == i
    {
      assert cards[..i + 1][..i] == cards[..i];
      match FreshnessOf(cards[i].1, live, observed) {
        case IsFresh => good := good + 1;
        case IsStale => stale := stale + 1;
        case IsMissing => missing := missing + 1;
        case IsInvalid => invalid := invalid + 1;
      }
    }
    assert cards[..|cards|] == cards;
  }

  method CountInvalid(unsynced: set<string>, live: map<string, Card>) returns (n: nat)
    requires unsynced <= live.Keys
    ensures n == |UnsyncedInvalid(unsynced, live)|
  {
    n := 0;
    var left := unsynced;
    ghost var found: set<string> := {};
    while left != {}
      invariant left <= unsynced && n == |found| && found == UnsyncedInvalid(unsynced, live) - left
      decreases left
    {
      var name :| name in left;
      left := left - {name};
      if live[name].validation != "valid" {
        n := n + 1;
        found := found + {name};
      }
    }
  }

  /** What SK8 reports of an intact snapshot. */
  ghost predicate Reports(v: View, hosts: seq<Host>, live: Live, r: Report)
    requires v.sync.Some?
  {
    && r.current == Current(v, hosts, live)
    && (var stored, now := Index(StoredPairs(v.contexts, v.surfaces, hosts)), Index(LivePairs(live.records));
        && r.surfaceDrift == |Differing(Projected(stored, SurfaceState), Projected(now, SurfaceState))|
        && r.policyDrift == |Differing(Projected(stored, PolicyState), Projected(now, PolicyState))|)
    && var stored, now := StoredCards(v.contexts), Index(LiveCards(live.records));
       && r.publicationDrift
          == |Differing(Projected(Index(stored), PublicationState), Projected(now, PublicationState))|
       && r.unsynced == now.Keys - Index(stored).Keys
       && r.good == Count(stored, now, live.observed, IsFresh) && r.stale == Count(stored, now, live.observed, IsStale)
       && r.missing == Count(stored, now, live.observed, IsMissing)
       && r.invalid == Count(stored, now, live.observed, IsInvalid) + |UnsyncedInvalid(r.unsynced, now)|
       && r.good + r.stale + r.missing + r.invalid == |v.contexts| + |UnsyncedInvalid(r.unsynced, now)|
  }

  datatype Unavailable = NoSnapshot | IntegrityDenied

  /** SK8: nothing is reported where no snapshot was applied or the current one fails verification. */
  method Status(fold: string -> string, v: View, hosts: seq<Host>, live: Live) returns (r: Result<Report, Unavailable>)
    ensures r.Ok? <==> v.sync.Some? && Intact(fold, v)
    ensures r.Ok? ==> Reports(v, hosts, live, r.value)
    ensures r.Denied? ==> r.error == if v.sync.None? then NoSnapshot else IntegrityDenied
  {
    hide Intact, Reports;
    var intact := VerifyCurrent(fold, v);
    if v.sync.None? {
      return Denied(NoSnapshot);
    }
    if !intact {
      return Denied(IntegrityDenied);
    }
    var report := Compare(v, hosts, live);
    return Ok(report);
  }

  method Compare(v: View, hosts: seq<Host>, live: Live) returns (r: Report)
    requires v.sync.Some?
    ensures Reports(v, hosts, live, r)
  {
    hide Index, StoredPairs, LivePairs, StoredCards, LiveCards, Differing, Projected, UnsyncedInvalid, Count;
    var stored := Faces(v, hosts);
    var now := Index(LivePairs(live.records));
    var surfaceDrift := Drift(Projected(stored, SurfaceState), Projected(now, SurfaceState));
    var policyDrift := Drift(Projected(stored, PolicyState), Projected(now, PolicyState));
    var storedCards := StoredCards(v.contexts);
    var cards, liveCards := Index(storedCards), Index(LiveCards(live.records));
    var publicationDrift := Drift(Projected(cards, PublicationState), Projected(liveCards, PublicationState));
    var good, stale, missing, invalid := CountStates(storedCards, liveCards, live.observed);
    var unsynced := liveCards.Keys - cards.Keys;
    var more := CountInvalid(unsynced, liveCards);
    CardsOfContexts(v.contexts);
    r := Report(Current(v, hosts, live), good, stale, missing, invalid + more, surfaceDrift, policyDrift,
                publicationDrift, unsynced);
  }

  lemma CardsOfContexts(contexts: seq<ContextRow>)
    ensures |StoredCards(contexts)| == |contexts|
  {
  }

  // ---- what `current` means ------------------------------------------------------------------------

  lemma {:induction false} NameOfMeaning(contexts: seq<ContextRow>, id: string)
    requires ContextIdsDistinct(contexts)
    ensures NameOf(contexts, id).Some? <==> Holds(contexts, id)
    ensures forall c | c in contexts && c.id == id :: NameOf(contexts, id) == Some(c.card.name)
  {
    if contexts != [] {
      var last := |contexts| - 1;
      assert contexts == contexts[..last] + [contexts[last]];
      NameOfMeaning(contexts[..last], id);
    }
  }

  /** Surface rows are read by skill name, and within a skill with the host "claude" before "codex". */
  lemma SurfaceOrder(contexts: seq<ContextRow>, a: SurfaceRow, b: SurfaceRow, x: ContextRow, y: ContextRow)
    requires ContextIdsDistinct(contexts) && x in contexts && y in contexts && a.context == x.id && b.context == y.id
    ensures SurfaceLe(contexts)(a, b) <==>
            if x.card.name == y.card.name then !(a.face.host == Codex && b.face.host == Claude)
            else LexLe(x.card.name, y.card.name)
  {
    NameOfMeaning(contexts, a.context);
    NameOfMeaning(contexts, b.context);
    LexReflexive(x.card.name);
    hide NameOf, ContextIdsDistinct;
  }

  /** The row `s` belongs to the context `c` and tells the face `f` under the key `k`. */
  predicate Tells(c: ContextRow, s: SurfaceRow, k: FaceKey, f: Face) {
    s.context == c.id && k == (c.card.name, f.host) && s.face == f
  }

  lemma {:induction false} StoredPairsMeaning(
    contexts: seq<ContextRow>, surfaces: seq<SurfaceRow>, hosts: seq<Host>, k: FaceKey, f: Face)
    requires ContextIdsDistinct(contexts)
    ensures (k, f) in StoredPairs(contexts, surfaces, hosts) <==>
        f.host in hosts && exists c, s | c in contexts && s in surfaces :: Tells(c, s, k, f)
  {
    if surfaces != [] {
      var last := |surfaces| - 1;
      assert surfaces == surfaces[..last] + [surfaces[last]];
      StoredPairsMeaning(contexts, surfaces[..last], hosts, k, f);
      NameOfMeaning(contexts, surfaces[last].context);
      hide ContextIdsDistinct, NameOf;
      assert (k, f) in SurfacePair(contexts, hosts, surfaces[last]) <==>
          f.host in hosts && exists c | c in contexts :: Tells(c, surfaces[last], k, f);
    }
  }

  lemma {:induction false} LivePairsMeaning(records: seq<Facts>, k: FaceKey, f: Face)
    ensures (k, f) in LivePairs(records) <==> exists g | g in records :: f in g.faces && k == (g.card.name, f.host)
  {
    if records != [] {
      var last := |records| - 1;
      assert records == records[..last] + [records[last]];
      LivePairsMeaning(records[..last], k, f);
      var g := records[last];
      if f in g.faces && k == (g.card.name, f.host) {
        var i :| 0 <= i < |g.faces| && g.faces[i] == f;
        assert FacePairs(g)[i] == (k, f);
      }
    }
  }

  lemma {:induction false} FacesForMeaning(surfaces: seq<SurfaceRow>, id: string)
    ensures forall f :: f in FacesFor(surfaces, id) <==> exists s | s in surfaces :: s.context == id && s.face == f
  {
    if surfaces != [] {
      FacesForMeaning(surfaces[1..], id);
      assert surfaces == [surfaces[0]] + surfaces[1..];
    }
  }

  lemma RebuiltFaces(surfaces: seq<SurfaceRow>, c: ContextRow)
    ensures forall f :: f in Rebuilt(surfaces, c).faces <==> exists s | s in surfaces :: s.context == c.id && s.face == f
  {
    FacesForMeaning(surfaces, c.id);
    SameMembers(Sort(HostLe, FacesFor(surfaces, c.id)), FacesFor(surfaces, c.id));
  }

  /** A host has one face in a record, and a name one record. */
  lemma LiveFunctional(fold: string -> string, hosts: seq<Host>, records: seq<Facts>)
    requires Normal(fold, hosts, records) && HostScope(hosts)
    ensures Functional(LivePairs(records)) && Functional(LiveCards(records))
  {
    hide FoldLe, SafeReason, LivePairs, HostScope;
    forall p, q | p in LivePairs(records) && q in LivePairs(records) && p.0 == q.0
      ensures p.1 == q.1
    {
      LivePairsMeaning(records, p.0, p.1);
      LivePairsMeaning(records, q.0, q.1);
      var g :| g in records && p.1 in g.faces && p.0 == (g.card.name, p.1.host);
      var h :| h in records && q.1 in h.faces && q.0 == (h.card.name, q.1.host);
      assert g == h;
      assert Sound(hosts, g);
      SameHostSameFace(hosts, g, p.1, q.1);
    }
  }

  lemma SameHostSameFace(hosts: seq<Host>, g: Facts, a: Face, b: Face)
    requires HostScope(hosts) && Sound(hosts, g) && a in g.faces && b in g.faces && a.host == b.host
    ensures a == b
  {
    var i :| 0 <= i < |g.faces| && g.faces[i] == a;
    var j :| 0 <= j < |g.faces| && g.faces[j] == b;
    assert hosts[i] == hosts[j];
    assert |hosts| <= 2 && (|hosts| == 2 ==> hosts[0] != hosts[1]);
  }

  /** The stored and the live facts are the same facts. */
  ghost predicate SameFacts(v: View, records: seq<Facts>) {
    forall g :: g in records <==> exists c | c in v.contexts :: g == Rebuilt(v.surfaces, c)
  }

  lemma SameFactsSameFaces(fold: string -> string, v: View, hosts: seq<Host>, records: seq<Facts>)
    requires SameFacts(v, records) && ContextIdsDistinct(v.contexts)
    requires Normal(fold, hosts, records) && HostScope(hosts)
    ensures Index(StoredPairs(v.contexts, v.surfaces, hosts)) == Index(LivePairs(records))
  {
    var stored, now := StoredPairs(v.contexts, v.surfaces, hosts), LivePairs(records);
    LiveFunctional(fold, hosts, records);
    hide Functional, NamesDistinct, HostScope, FoldLe, SafeReason, StoredPairs, LivePairs, ContextIdsDistinct;
    forall p: (FaceKey, Face)
      ensures p in stored <==> p in now
    {
      var k, f := p.0, p.1;
      assert p == (k, f);
      StoredPairsMeaning(v.contexts, v.surfaces, hosts, k, f);
      LivePairsMeaning(records, k, f);
      if p in stored {
        var c, s :| c in v.contexts && s in v.surfaces && Tells(c, s, k, f);
        RebuiltFaces(v.surfaces, c);
        assert Rebuilt(v.surfaces, c) in records;
      }
      if p in now {
        var g :| g in records && f in g.faces && k == (g.card.name, f.host);
        var c :| c in v.contexts && g == Rebuilt(v.surfaces, c);
        RebuiltFaces(v.surfaces, c);
        var s :| s in v.surfaces && s.context == c.id && s.face == f;
        assert Tells(c, s, k, f);
        FaceInScope(hosts, g, f);
      }
    }
    SameIndex(now, stored);
  }

  lemma FaceInScope(hosts: seq<Host>, g: Facts, f: Face)
    requires Sound(hosts, g) && f in g.faces
    ensures f.host in hosts
  {
    hide SafeReason;
  }

  lemma RebuiltCard(surfaces: seq<SurfaceRow>, c: ContextRow)
    ensures Rebuilt(surfaces, c).card == c.card
  {
  }

  lemma StoredCardsMeaning(v: View)
    ensures forall p :: p in StoredCards(v.contexts) <==>
        exists c | c in v.contexts :: p == (c.card.name, Rebuilt(v.surfaces, c).card)
  {
    hide Sort;
    forall i | 0 <= i < |v.contexts|
      ensures StoredCards(v.contexts)[i] == (v.contexts[i].card.name, Rebuilt(v.surfaces, v.contexts[i]).card)
    {
    }
  }

  lemma LiveCardsMeaning(records: seq<Facts>)
    ensures forall p :: p in LiveCards(records) <==> exists g | g in records :: p == (g.card.name, g.card)
  {
    forall i | 0 <= i < |records|
      ensures LiveCards(records)[i] == (records[i].card.name, records[i].card)
    {
    }
  }

  lemma RebuiltMembers(v: View)
    ensures SameFacts(v, RebuiltAll(v.surfaces, v.contexts))
  {
    hide Rebuilt;
    var all := RebuiltAll(v.surfaces, v.contexts);
    forall i | 0 <= i < |all|
      ensures all[i] == Rebuilt(v.surfaces, v.contexts[i])
    {
    }
  }

  lemma SameFactsSameCards(fold: string -> string, v: View, hosts: seq<Host>, records: seq<Facts>)
    requires SameFacts(v, records) && Normal(fold, hosts, records) && HostScope(hosts)
    ensures Index(StoredCards(v.contexts)) == Index(LiveCards(records))
    ensures forall p :: p in StoredCards(v.contexts) <==> p in LiveCards(records)
  {
    var stored, now := StoredCards(v.contexts), LiveCards(records);
    LiveFunctional(fold, hosts, records);
    StoredCardsMeaning(v);
    LiveCardsMeaning(records);
    hide HostScope, FoldLe, Normal, Functional, Rebuilt, StoredCards, LiveCards;
    forall p: (string, Card)
      ensures p in stored <==> p in now
    {
      if p in stored {
        var c :| c in v.contexts && p == (c.card.name, Rebuilt(v.surfaces, c).card);
        RebuiltCard(v.surfaces, c);
        assert Rebuilt(v.surfaces, c) in records;
      }
      if p in now {
        var g :| g in records && p == (g.card.name, g.card);
        var c :| c in v.contexts && g == Rebuilt(v.surfaces, c);
        assert p == (c.card.name, Rebuilt(v.surfaces, c).card) by {
          RebuiltCard(v.surfaces, c);
        }
      }
    }
    SameIndex(now, stored);
  }

  lemma {:induction false} ContextsOfDistinct(contexts: seq<ContextRow>, sync: string)
    requires ContextIdsDistinct(contexts)
    ensures ContextIdsDistinct(ContextsOf(contexts, sync))
  {
    if contexts != [] {
      assert contexts == [contexts[0]] + contexts[1..];
      ContextsOfDistinct(contexts[1..], sync);
      ContextsOfAll(contexts[1..], sync);
    }
  }

  lemma IdsStayDistinct(a: seq<ContextRow>, b: seq<ContextRow>)
    requires ContextIdsDistinct(a) && multiset(a) == multiset(b)
    ensures ContextIdsDistinct(b)
  {
    NoRepeatsStay(a, b);
    SameMembers(a, b);
    forall i, j | 0 <= i < j < |b|
      ensures b[i].id != b[j].id
    {
      assert b[i] in a && b[j] in a;
      var k :| 0 <= k < |a| && a[k] == b[i];
      var l :| 0 <= l < |a| && a[l] == b[j];
    }
  }

  lemma ViewIdsDistinct(db: Db)
    requires ContextIdsDistinct(db.contexts)
    ensures ContextIdsDistinct(ReadCurrent(db).contexts)
  {
    hide SurfaceLe, RowNameLe;
    if CurrentSync(db.syncs).Some? {
      var id := CurrentSync(db.syncs).value.id;
      ContextsOfDistinct(db.contexts, id);
      IdsStayDistinct(ContextsOf(db.contexts, id), Sort(RowNameLe, ContextsOf(db.contexts, id)));
    }
  }

  /** Over an intact snapshot, `current` says exactly that the live records are the stored ones, for the
      same hosts and with no orphan; then nothing drifts and nothing is unsynced. */
  lemma CurrentMeaning(fold: string -> string, db: Db, v: View, hosts: seq<Host>, live: Live)
    requires Inv(db) && v == ReadCurrent(db) && v.sync.Some? && Intact(fold, v) && Normal(fold, hosts, live.records)
    ensures Current(v, hosts, live) <==>
        live.records == StoredInventory(fold, v) && v.sync.value.hosts == hosts && live.orphans == 0
    ensures Current(v, hosts, live) ==>
        && Index(StoredPairs(v.contexts, v.surfaces, hosts)) == Index(LivePairs(live.records))
        && Index(StoredCards(v.contexts)) == Index(LiveCards(live.records))
        && SameFacts(v, live.records)
  {
    hide Normal, HostScope, ContextIntact, SurfaceIntact, FoldLe, ReadCurrent, Index, StoredPairs, LivePairs;
    hide StoredCards, LiveCards, SkillsDistinct, HostsDistinct, References;
    if Current(v, hosts, live) {
      ViewIdsDistinct(db);
      var rebuilt := RebuiltAll(v.surfaces, v.contexts);
      SameMembers(StoredInventory(fold, v), rebuilt);
      RebuiltMembers(v);
      hide Sort, Rebuilt, RebuiltAll, ContextIdsDistinct;
      assert SameFacts(v, live.records);
      SameFactsSameFaces(fold, v, hosts, live.records);
      SameFactsSameCards(fold, v, hosts, live.records);
    }
  }

  /** What a reader of the report may conclude. */
  lemma CurrentMeansNoDrift(fold: string -> string, db: Db, v: View, hosts: seq<Host>, live: Live)
    requires Inv(db) && v == ReadCurrent(db) && v.sync.Some? && Intact(fold, v) && Normal(fold, hosts, live.records)
    requires Current(v, hosts, live)
    ensures var stored, now := Index(StoredPairs(v.contexts, v.surfaces, hosts)), Index(LivePairs(live.records));
      && |Differing(Projected(stored, SurfaceState), Projected(now, SurfaceState))| == 0
      && |Differing(Projected(stored, PolicyState), Projected(now, PolicyState))| == 0
    ensures var stored, now := Index(StoredCards(v.contexts)), Index(LiveCards(live.records));
      && |Differing(Projected(stored, PublicationState), Projected(now, PublicationState))| == 0
      && now.Keys - stored.Keys == {}
  {
    CurrentMeaning(fold, db, v, hosts, live);
    hide Inv, ReadCurrent, Intact, Normal, Current, Index, StoredPairs, LivePairs, StoredCards, LiveCards;
    NoDifference(Projected(Index(LivePairs(live.records)), SurfaceState));
    NoDifference(Projected(Index(LivePairs(live.records)), PolicyState));
    NoDifference(Projected(Index(LiveCards(live.records)), PublicationState));
  }

  /** The SKILL.md found for each live record is the one its hash was taken of. */
  ghost predicate FilesMatch(live: Live) {
    forall g | g in live.records :: g.card.relpath in live.observed && live.observed[g.card.relpath] == g.card.skillHash
  }

  /** If the files on disk are those that were discovered, no stored skill is stale or missing either. */
  lemma CurrentMeansFresh(fold: string -> string, db: Db, v: View, hosts: seq<Host>, live: Live)
    requires Inv(db) && v == ReadCurrent(db) && v.sync.Some? && Intact(fold, v) && Normal(fold, hosts, live.records)
    requires Current(v, hosts, live) && FilesMatch(live)
    ensures var stored, now := StoredCards(v.contexts), Index(LiveCards(live.records));
      Count(stored, now, live.observed, IsStale) == 0 && Count(stored, now, live.observed, IsMissing) == 0
  {
    hide Inv, ReadCurrent, Current, SameFacts, Index, Functional, Normal, Intact, HostScope, StoredPairs, LivePairs;
    hide StoredInventory, Count, FilesMatch, FreshnessOf;
    CurrentMeaning(fold, db, v, hosts, live);
    ScopeOfIntact(fold, v);
    ScopeOfCurrent(v, hosts, live);
    SameFactsSameCards(fold, v, hosts, live.records);
    LiveFunctional(fold, hosts, live.records);
    IndexMeaning(LiveCards(live.records));
    var stored, now := StoredCards(v.contexts), Index(LiveCards(live.records));
    forall p | p in stored
      ensures FreshnessOf(p.1, now, live.observed) in {IsFresh, IsInvalid}
    {
      LiveCardFresh(live, now, p);
    }
    hide StoredCards, LiveCards;
    CountsNone(stored, now, live.observed, IsStale);
    CountsNone(stored, now, live.observed, IsMissing);
  }

  lemma ScopeOfCurrent(v: View, hosts: seq<Host>, live: Live)
    requires v.sync.Some? && Current(v, hosts, live)
    ensures v.sync.value.hosts == hosts
  {
  }

  lemma ScopeOfIntact(fold: string -> string, v: View)
    requires v.sync.Some? && Intact(fold, v)
    ensures HostScope(v.sync.value.hosts)
  {
  }

  lemma LiveCardFresh(live: Live, now: map<string, Card>, p: (string, Card))
    requires FilesMatch(live) && p in LiveCards(live.records) && p.0 in now && now[p.0] == p.1
    ensures FreshnessOf(p.1, now, live.observed) in {IsFresh, IsInvalid}
  {
    var i :| 0 <= i < |live.records| && LiveCards(live.records)[i] == p;
    assert live.records[i] in live.records;
  }

  lemma {:induction false} CountsNone(cards: seq<(string, Card)>, live: map<string, Card>,
                                      observed: map<string, string>, state: Freshness)
    requires forall p | p in cards :: FreshnessOf(p.1, live, observed) != state
    ensures Count(cards, live, observed, state) == 0
  {
    hide FreshnessOf;
    if cards != [] {
      assert cards[|cards| - 1] in cards;
      CountsNone(cards[..|cards| - 1], live, observed, state);
    }
  }

  lemma NoDifference<K, T>(m: map<K, T>)
    ensures Differing(m, m) == {}
  {
  }
}
