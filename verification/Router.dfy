/** core/capability_router.py: ranking agents for a task, conflicts between singletons, and fallback agents. */
module Router {
  import opened Prelude
  import opened Ordering

  const MAX_FALLBACK_DEPTH := 3
  const DEFAULT_TRUST := 0.5
  const DEFAULT_MEMORY_MB := 256.0
  const DEFAULT_CPU_PERCENT := 25.0

  /** The constraints are None where a manifest leaves them out or holds no number. */
  datatype Manifest = Manifest(
    id: string,
    capabilities: set<string>,
    trust: Option<real>,
    memoryMb: Option<real>,
    cpuPercent: Option<real>,
    singleton: bool,
    fallback: Option<string>)

  /** The registered manifests in registration order. */
  type Registry = seq<Manifest>

  predicate OnePerId(registry: Registry) {
    forall i, j :: 0 <= i < j < |registry| ==> registry[i].id != registry[j].id
  }

  function Get(registry: Registry, id: string): Option<Manifest> {
    if registry == [] then None
    else if registry[0].id == id then Some(registry[0])
    else Get(registry[1..], id)
  }

  lemma {:induction false} GetExactly(registry: Registry, id: string, m: Manifest)
    requires OnePerId(registry)
    ensures Get(registry, id) == Some(m) <==> m in registry && m.id == id
  {
    if registry != [] {
      var rest := registry[1..];
      GetExactly(rest, id, m);
      assert registry == [registry[0]] + rest;
      if registry[0].id == id && m in rest {
        var j :| 0 <= j < |rest| && rest[j] == m;
        assert registry[j + 1].id != registry[0].id;
      }
    }
  }

  datatype Weights = Weights(match_: real, trust: real, cost: real)

  const DEFAULT_WEIGHTS := Weights(0.60, 0.30, 0.10)

  datatype Candidate = Candidate(agentId: string, matchScore: real, trust: real, cost: real, composite: real)

  // ---- scoring one manifest ------------------------------------------------------------------

  /** Zero is read as left out. */
  function NonzeroOr(x: Option<real>, default: real): real {
    if x.GetOr(default) == 0.0 then default else x.GetOr(default)
  }

  function MatchScore(m: Manifest, task: set<string>): real {
    if task == {} then 0.0 else |task * m.capabilities| as real / |task| as real
  }

  function Cost(m: Manifest): real {
    var memory := NonzeroOr(m.memoryMb, DEFAULT_MEMORY_MB) / 4096.0;
    var cpu := NonzeroOr(m.cpuPercent, DEFAULT_CPU_PERCENT) / 100.0;
    var estimate := (memory + cpu) / 2.0;
    if estimate <= 1.0 then estimate else 1.0
  }

  function Composite(matchScore: real, trust: real, cost: real, w: Weights): real {
    matchScore * w.match_ + trust * w.trust - cost * w.cost
  }

  function ScoreOf(m: Manifest, task: set<string>, w: Weights): Candidate {
    var s, t, c := MatchScore(m, task), m.trust.GetOr(DEFAULT_TRUST), Cost(m);
    Candidate(m.id, s, t, c, Composite(s, t, c, w))
  }

  // ---- routing -----------------------------------------------------------------------------------

  /** Without a grant every manifest is admitted. */
  predicate Admitted(m: Manifest, granted: Option<set<string>>) {
    granted.Some? ==> m.capabilities <= granted.value
  }

  predicate Eligible(m: Manifest, task: set<string>, granted: Option<set<string>>) {
    Admitted(m, granted) && MatchScore(m, task) > 0.0
  }

  predicate RanksBefore(a: Candidate, b: Candidate) {
    || a.composite > b.composite
    || (a.composite == b.composite && a.matchScore > b.matchScore)
    || (a.composite == b.composite && a.matchScore == b.matchScore && a.trust > b.trust)
    || (a.composite == b.composite && a.matchScore == b.matchScore && a.trust == b.trust && a.cost < b.cost)
    || (a.composite == b.composite && a.matchScore == b.matchScore && a.trust == b.trust && a.cost == b.cost
        && StringLe(a.agentId, b.agentId))
  }

  function Candidates(registry: Registry, task: set<string>, granted: Option<set<string>>, w: Weights): seq<Candidate> {
    if registry == [] then []
    else
      var m := registry[|registry| - 1];
      Candidates(registry[..|registry| - 1], task, granted, w)
      + if Eligible(m, task, granted) then [ScoreOf(m, task, w)] else []
  }

  function Ranking(registry: Registry, task: set<string>, granted: Option<set<string>>, w: Weights): seq<Candidate> {
    Sort(Candidates(registry, task, granted, w), RanksBefore)
  }

  method Route(registry: Registry, taskCapabilities: seq<string>, granted: Option<set<string>>, w: Weights)
    returns (ranked: seq<Candidate>)
    ensures ranked == Ranking(registry, ToSet(taskCapabilities), granted, w)
  {
    var task := ToSet(taskCapabilities);
    var candidates := [];
    for i := 0 to |registry|
      invariant candidates == Candidates(registry[..i], task, granted, w)
    {
      assert registry[..i + 1][..i] == registry[..i];
      var m := registry[i];
      if granted.Some? && !(m.capabilities <= granted.value) {
        continue;
      }
      var score := ScoreOf(m, task, w);
      if score.matchScore > 0.0 {
        candidates := candidates + [score];
      }
    }
    assert registry[..|registry|] == registry;
    ranked := Sort(candidates, RanksBefore);
  }

  lemma RanksBeforeIsTotal()
    ensures TotalOrder(RanksBefore)
  {
    forall x, y ensures RanksBefore(x, y) || RanksBefore(y, x) {
      StringLeTotal(x.agentId, y.agentId);
    }
    forall x, y, z | RanksBefore(x, y) && RanksBefore(y, z) ensures RanksBefore(x, z) {
      if StringLe(x.agentId, y.agentId) && StringLe(y.agentId, z.agentId) {
        StringLeTransitive(x.agentId, y.agentId, z.agentId);
      }
    }
  }

  /** A task capability that the manifest has is what makes its match positive. */
  lemma MatchExactly(m: Manifest, task: set<string>)
    ensures MatchScore(m, task) > 0.0 <==> exists c :: c in task && c in m.capabilities
    ensures MatchScore(m, task) <= 1.0
  {
    var matched := task * m.capabilities;
    if task != {} {
      SubsetSize(matched, task);
      QuotientRange(|matched| as real, |task| as real);
      if c :| c in task && c in m.capabilities { assert c in matched; }
      if matched != {} { var c :| c in matched; }
    }
  }

  lemma QuotientRange(x: real, n: real)
    requires 0.0 <= x <= n && n > 0.0
    ensures x / n <= 1.0 && (x / n > 0.0 <==> x > 0.0)
  {
  }

  /** A candidate of an eligible manifest of the registry. */
  predicate Stems(c: Candidate, registry: Registry, task: set<string>, granted: Option<set<string>>, w: Weights) {
    exists m <- registry :: Eligible(m, task, granted) && c == ScoreOf(m, task, w)
  }

  lemma {:induction false} CandidatesExactly(registry: Registry, task: set<string>,
                                             granted: Option<set<string>>, w: Weights, c: Candidate)
    requires OnePerId(registry)
    ensures multiset(Candidates(registry, task, granted, w))[c] == if Stems(c, registry, task, granted, w) then 1 else 0
  {
    if registry != [] {
      var front, m := registry[..|registry| - 1], registry[|registry| - 1];
      assert registry == front + [m];
      CandidatesExactly(front, task, granted, w, c);
      if Eligible(m, task, granted) && c == ScoreOf(m, task, w) {
        assert m in registry;
        assert !Stems(c, front, task, granted, w);
      }
    }
  }

  /** Routing returns each admitted, positively matching manifest once, nothing else, and in rank order. */
  lemma RouteIsExact(registry: Registry, task: set<string>, granted: Option<set<string>>, w: Weights, c: Candidate)
    requires OnePerId(registry)
    ensures Sorted(Ranking(registry, task, granted, w), RanksBefore)
    ensures multiset(Ranking(registry, task, granted, w))[c] == if Stems(c, registry, task, granted, w) then 1 else 0
  {
    RanksBeforeIsTotal();
    SortSorts(Candidates(registry, task, granted, w), RanksBefore);
    CandidatesExactly(registry, task, granted, w, c);
  }

  /** In whatever order the manifests were registered, the ranking is the same. */
  lemma RouteIgnoresOrder(a: Registry, b: Registry, task: set<string>, granted: Option<set<string>>, w: Weights)
    requires OnePerId(a) && OnePerId(b) && multiset(a) == multiset(b)
    ensures Ranking(a, task, granted, w) == Ranking(b, task, granted, w)
  {
    RanksBeforeIsTotal();
    var ca, cb := Candidates(a, task, granted, w), Candidates(b, task, granted, w);
    SameCandidates(a, b, task, granted, w);
    forall x <- ca, y <- ca | RanksBefore(x, y) && RanksBefore(y, x) ensures x == y {
      StringLeTotal(x.agentId, y.agentId);
    }
    SortIgnoresOrder(ca, cb, RanksBefore);
  }

  lemma SameCandidates(a: Registry, b: Registry, task: set<string>, granted: Option<set<string>>, w: Weights)
    requires OnePerId(a) && OnePerId(b) && multiset(a) == multiset(b)
    ensures multiset(Candidates(a, task, granted, w)) == multiset(Candidates(b, task, granted, w))
  {
    forall m ensures m in a <==> m in b { assert m in multiset(a) <==> m in multiset(b); }
    forall c: Candidate
      ensures multiset(Candidates(a, task, granted, w))[c] == multiset(Candidates(b, task, granted, w))[c]
    {
      CandidatesExactly(a, task, granted, w, c);
      CandidatesExactly(b, task, granted, w, c);
    }
  }

  /** With a positive match weight, matching more of the task comes first among equals in trust and cost. */
  lemma BetterMatchRanksFirst(a: Manifest, b: Manifest, task: set<string>, w: Weights)
    requires w.match_ > 0.0
    requires a.trust.GetOr(DEFAULT_TRUST) == b.trust.GetOr(DEFAULT_TRUST) && Cost(a) == Cost(b)
    requires |task * a.capabilities| > |task * b.capabilities|
    ensures RanksBefore(ScoreOf(a, task, w), ScoreOf(b, task, w))
            && !RanksBefore(ScoreOf(b, task, w), ScoreOf(a, task, w))
  {
    ShareOrder(a, b, task);
    CompositeGrows(MatchScore(b, task), MatchScore(a, task), a.trust.GetOr(DEFAULT_TRUST), Cost(a), w);
  }

  lemma QuotientGrowsStrictly(x: real, y: real, n: real)
    requires x < y && n > 0.0
    ensures x / n < y / n
  {
  }

  lemma CompositeGrows(low: real, high: real, trust: real, cost: real, w: Weights)
    requires low < high && w.match_ > 0.0
    ensures Composite(low, trust, cost, w) < Composite(high, trust, cost, w)
  {
    assert (high - low) * w.match_ > 0.0;
  }

  /** By default a full match ranks before any agent that covers less than a third of the task and is not
      more than 1 ahead in trust or in cost. */
  lemma FullMatchBeatsWeakMatch(a: Manifest, b: Manifest, task: set<string>)
    requires task != {} && task <= a.capabilities && 3 * |task * b.capabilities| < |task|
    requires b.trust.GetOr(DEFAULT_TRUST) <= a.trust.GetOr(DEFAULT_TRUST) + 1.0 && Cost(a) <= Cost(b) + 1.0
    ensures var ca, cb := ScoreOf(a, task, DEFAULT_WEIGHTS), ScoreOf(b, task, DEFAULT_WEIGHTS);
            RanksBefore(ca, cb) && !RanksBefore(cb, ca)
  {
    assert task * a.capabilities == task;
    WeakMatch(|task * b.capabilities| as real, |task| as real);
  }

  lemma WeakMatch(matched: real, n: real)
    requires 0.0 <= 3.0 * matched < n
    ensures 3.0 * (matched / n) < 1.0 && n / n == 1.0
  {
  }

  // ---- the ranking in plain terms --------------------------------------------------------------------

  /** The manifest has something the task asks for and, where there is a grant, nothing beyond it. */
  predicate Serves(m: Manifest, task: set<string>, granted: Option<set<string>>) {
    && (exists c :: c in task && c in m.capabilities)
    && (granted.Some? ==> forall c <- m.capabilities :: c in granted.value)
  }

  lemma EligibleExactly(m: Manifest, task: set<string>, granted: Option<set<string>>)
    ensures Eligible(m, task, granted) <==> Serves(m, task, granted)
  {
    MatchExactly(m, task);
  }

  /** An agent is in the ranking exactly if it is registered and its manifest serves the task within the grant. */
  lemma RoutedExactly(registry: Registry, task: set<string>, granted: Option<set<string>>, w: Weights, id: string)
    requires OnePerId(registry)
    ensures (exists c <- Ranking(registry, task, granted, w) :: c.agentId == id)
            <==> exists m <- registry :: m.id == id && Serves(m, task, granted)
  {
    var ranking := Ranking(registry, task, granted, w);
    if m :| m in registry && m.id == id && Serves(m, task, granted) {
      EligibleExactly(m, task, granted);
      var c := ScoreOf(m, task, w);
      assert Stems(c, registry, task, granted, w);
      RouteIsExact(registry, task, granted, w, c);
      assert c in multiset(ranking);
    }
    if c :| c in ranking && c.agentId == id {
      assert c in multiset(ranking);
      RouteIsExact(registry, task, granted, w, c);
      var m :| m in registry && Eligible(m, task, granted) && c == ScoreOf(m, task, w);
      EligibleExactly(m, task, granted);
    }
  }

  lemma {:induction false} CandidatesSplit(a: Registry, b: Registry, task: set<string>, granted: Option<set<string>>,
                                           w: Weights)
    ensures Candidates(a + b, task, granted, w) == Candidates(a, task, granted, w) + Candidates(b, task, granted, w)
  {
    if b == [] {
      assert a + b == a;
    } else {
      assert (a + b)[..|a + b| - 1] == a + b[..|b| - 1];
      CandidatesSplit(a, b[..|b| - 1], task, granted, w);
    }
  }

  /** Registering a manifest with a capability outside the grant leaves the ranking as it was. */
  lemma UngrantedChangesNothing(a: Registry, m: Manifest, b: Registry, task: set<string>, granted: set<string>,
                                w: Weights, c: string)
    requires c in m.capabilities && c !in granted
    ensures Ranking(a + [m] + b, task, Some(granted), w) == Ranking(a + b, task, Some(granted), w)
  {
    EligibleExactly(m, task, Some(granted));
    CandidatesSplit(a + [m], b, task, Some(granted), w);
    CandidatesSplit(a, [m], task, Some(granted), w);
    CandidatesSplit(a, b, task, Some(granted), w);
    assert [m][..0] == [] && Candidates([m], task, Some(granted), w) == [];
    assert Candidates(a, task, Some(granted), w) + [] == Candidates(a, task, Some(granted), w);
  }

  /** Among equals in match and cost the more trusted agent comes first. */
  lemma MoreTrustRanksFirst(a: Manifest, b: Manifest, task: set<string>, w: Weights)
    requires w.trust >= 0.0 && a.trust.GetOr(0.5) > b.trust.GetOr(0.5) && Cost(a) == Cost(b)
    requires |task * a.capabilities| == |task * b.capabilities|
    ensures RanksBefore(ScoreOf(a, task, w), ScoreOf(b, task, w))
            && !RanksBefore(ScoreOf(b, task, w), ScoreOf(a, task, w))
  {
    assert MatchScore(a, task) == MatchScore(b, task);
    CompositeRisesWithTrust(MatchScore(a, task), b.trust.GetOr(0.5), a.trust.GetOr(0.5), Cost(a), w);
  }

  /** Among equals in match and trust the cheaper agent comes first. */
  lemma CheaperRanksFirst(a: Manifest, b: Manifest, task: set<string>, w: Weights)
    requires w.cost >= 0.0 && a.trust.GetOr(0.5) == b.trust.GetOr(0.5) && Cost(a) < Cost(b)
    requires |task * a.capabilities| == |task * b.capabilities|
    ensures RanksBefore(ScoreOf(a, task, w), ScoreOf(b, task, w))
            && !RanksBefore(ScoreOf(b, task, w), ScoreOf(a, task, w))
  {
    assert MatchScore(a, task) == MatchScore(b, task);
    CompositeFallsWithCost(MatchScore(a, task), a.trust.GetOr(0.5), Cost(a), Cost(b), w);
  }

  lemma CompositeRisesWithTrust(matchScore: real, low: real, high: real, cost: real, w: Weights)
    requires low <= high && w.trust >= 0.0
    ensures Composite(matchScore, low, cost, w) <= Composite(matchScore, high, cost, w)
  {
    assert (high - low) * w.trust >= 0.0;
  }

  lemma CompositeFallsWithCost(matchScore: real, trust: real, low: real, high: real, w: Weights)
    requires low <= high && w.cost >= 0.0
    ensures Composite(matchScore, trust, high, w) <= Composite(matchScore, trust, low, w)
  {
    assert (high - low) * w.cost >= 0.0;
  }

  /** Agents equal in all that counts rank by id. */
  lemma EqualsRankById(a: Manifest, b: Manifest, task: set<string>, w: Weights)
    requires a.trust.GetOr(0.5) == b.trust.GetOr(0.5) && Cost(a) == Cost(b)
    requires |task * a.capabilities| == |task * b.capabilities|
    ensures RanksBefore(ScoreOf(a, task, w), ScoreOf(b, task, w)) <==> StringLe(a.id, b.id)
  {
  }

  lemma ShareExactly(m: Manifest, task: set<string>)
    ensures MatchScore(m, task) * |task| as real == |task * m.capabilities| as real
  {
    if task == {} { assert task * m.capabilities == {}; }
  }

  lemma ShareOrder(a: Manifest, b: Manifest, task: set<string>)
    requires |task * a.capabilities| > |task * b.capabilities|
    ensures MatchScore(a, task) > MatchScore(b, task)
  {
    SubsetSize(task * a.capabilities, task);
    QuotientGrowsStrictly(|task * b.capabilities| as real, |task * a.capabilities| as real, |task| as real);
  }

  /** Of two agents with the same composite the better match comes first, then the more trusted, then the cheaper. */
  lemma TiesAreBroken(a: Manifest, b: Manifest, task: set<string>, w: Weights)
    requires ScoreOf(a, task, w).composite == ScoreOf(b, task, w).composite
    ensures var (share, share') := (|task * a.capabilities|, |task * b.capabilities|);
            var (trust, trust') := (a.trust.GetOr(0.5), b.trust.GetOr(0.5));
            share > share' || (share == share' && (trust > trust' || (trust == trust' && Cost(a) < Cost(b))))
            ==> RanksBefore(ScoreOf(a, task, w), ScoreOf(b, task, w))
                && !RanksBefore(ScoreOf(b, task, w), ScoreOf(a, task, w))
  {
    if |task * a.capabilities| > |task * b.capabilities| {
      ShareOrder(a, b, task);
    } else if |task * a.capabilities| == |task * b.capabilities| {
      assert MatchScore(a, task) == MatchScore(b, task);
    }
  }

  /** More of a weight adds that much more of the match or the trust, and takes off that much more of the cost. */
  lemma WeightsAreCharged(m: Manifest, task: set<string>, w: Weights, more: real)
    ensures ScoreOf(m, task, Weights(0.0, 0.0, 0.0)).composite == 0.0
    ensures ScoreOf(m, task, w.(match_ := w.match_ + more)).composite
         == ScoreOf(m, task, w).composite + more * MatchScore(m, task)
    ensures ScoreOf(m, task, w.(trust := w.trust + more)).composite
         == ScoreOf(m, task, w).composite + more * m.trust.GetOr(0.5)
    ensures ScoreOf(m, task, w.(cost := w.cost + more)).composite
         == ScoreOf(m, task, w).composite - more * Cost(m)
  {
  }

  /** The cost is half of memory over 4 GB plus half of the processor share, at most 1; 0 reads as the default. */
  lemma CostExactly(m: Manifest)
    ensures var memory := if m.memoryMb in {None, Some(0.0)} then 256.0 else m.memoryMb.value;
            var cpu := if m.cpuPercent in {None, Some(0.0)} then 25.0 else m.cpuPercent.value;
            && Cost(m) <= 1.0
            && (Cost(m) < 1.0 ==> memory / 4096.0 + cpu / 100.0 == 2.0 * Cost(m))
            && (Cost(m) == 1.0 ==> memory / 4096.0 + cpu / 100.0 >= 2.0)
  {
  }

  // ---- conflicts between singletons ------------------------------------------------------------------

  datatype Conflict = Conflict(capability: string, first: string, second: string)

  /** The registered singletons of a chain, in chain order; an agent listed twice counts twice. */
  function Entries(registry: Registry, agents: seq<string>): seq<Manifest> {
    if agents == [] then []
    else
      var m := Get(registry, agents[|agents| - 1]);
      Entries(registry, agents[..|agents| - 1]) + if m.Some? && m.value.singleton then [m.value] else []
  }

  function Claimed(entries: seq<Manifest>): set<string> {
    if entries == [] then {} else Claimed(entries[..|entries| - 1]) + entries[|entries| - 1].capabilities
  }

  function TotalClaims(entries: seq<Manifest>): nat {
    if entries == [] then 0 else TotalClaims(entries[..|entries| - 1]) + |entries[|entries| - 1].capabilities|
  }

  /** Who claimed a capability first. */
  function FirstClaimant(entries: seq<Manifest>, c: string): string
    requires c in Claimed(entries)
  {
    var front := entries[..|entries| - 1];
    if c in Claimed(front) then FirstClaimant(front, c) else entries[|entries| - 1].id
  }

  /** What the capabilities `caps` of an agent run into after `front`. */
  function Clashes(front: seq<Manifest>, caps: set<string>, agent: string): set<Conflict> {
    set c | c in caps && c in Claimed(front) :: Conflict(c, FirstClaimant(front, c), agent)
  }

  function AllClashes(entries: seq<Manifest>): multiset<Conflict> {
    if entries == [] then multiset{}
    else
      var front, m := entries[..|entries| - 1], entries[|entries| - 1];
      AllClashes(front) + multiset(Clashes(front, m.capabilities, m.id))
  }

  /** Who claimed what first, and the conflicts reported so far. */
  datatype Books = Books(claims: map<string, string>, conflicts: seq<Conflict>)

  function AfterClaim(b: Books, c: string, agent: string): Books {
    if c in b.claims then b.(conflicts := b.conflicts + [Conflict(c, b.claims[c], agent)])
    else b.(claims := b.claims[c := agent])
  }

  predicate Bookkept(claims: map<string, string>, front: seq<Manifest>, caps: set<string>, agent: string) {
    && claims.Keys == Claimed(front) + caps
    && forall c {:trigger claims[c]} | c in claims ::
         claims[c] == if c in Claimed(front) then FirstClaimant(front, c) else agent
  }

  predicate Reported(before: seq<Conflict>, now: seq<Conflict>, front: seq<Manifest>, done: set<string>,
                     agent: string) {
    multiset(now) == multiset(before) + multiset(Clashes(front, done, agent))
  }

  /** The books after `front` and the capabilities of the next singleton, but for those in `rest`. */
  predicate InOrder(b: Books, before: seq<Conflict>, front: seq<Manifest>, m: Manifest, rest: set<string>) {
    && Bookkept(b.claims, front, m.capabilities - rest, m.id)
    && Reported(before, b.conflicts, front, m.capabilities - rest, m.id)
  }

  method DetectConflicts(registry: Registry, agents: seq<string>) returns (conflicts: seq<Conflict>)
    ensures multiset(conflicts) == AllClashes(Entries(registry, agents))
  {
    var b := Books(map[], []);
    ghost var entries: seq<Manifest> := [];
    for i := 0 to |agents|
      invariant entries == Entries(registry, agents[..i])
      invariant multiset(b.conflicts) == AllClashes(entries)
      invariant Bookkept(b.claims, entries, {}, "")
    {
      assert agents[..i + 1][..i] == agents[..i];
      var m := Get(registry, agents[i]);
      if m.None? {
        continue;
      }
      if m.value.singleton {
        b := ClaimAll(b, entries, m.value);
        OneMoreEntry(entries, m.value);
        entries := entries + [m.value];
      }
    }
    assert agents[..|agents|] == agents;
    conflicts := b.conflicts;
  }

  /** The inner loop: one singleton's capabilities, in whatever order the set yields them. */
  method ClaimAll(start: Books, ghost front: seq<Manifest>, m: Manifest) returns (b: Books)
    requires Bookkept(start.claims, front, {}, "")
    ensures Bookkept(b.claims, front + [m], {}, "")
    ensures Reported(start.conflicts, b.conflicts, front, m.capabilities, m.id)
  {
    b := start;
    var rest := m.capabilities;
    NoClaim(b, front, m);
    while rest != {}
      invariant rest <= m.capabilities
      invariant InOrder(b, start.conflicts, front, m, rest)
    {
      var c :| c in rest;
      OneMoreClaim(b, start.conflicts, front, m, rest, c);
      b := ClaimOne(b, c, m.id);
      rest := rest - {c};
    }
    AllClaimed(b, start.conflicts, front, m);
  }

  method ClaimOne(b: Books, c: string, agent: string) returns (b': Books)
    ensures b' == AfterClaim(b, c, agent)
  {
    if c in b.claims {
      b' := b.(conflicts := b.conflicts + [Conflict(c, b.claims[c], agent)]);
    } else {
      b' := b.(claims := b.claims[c := agent]);
    }
  }

  lemma OneMoreEntry(front: seq<Manifest>, m: Manifest)
    ensures AllClashes(front + [m]) == AllClashes(front) + multiset(Clashes(front, m.capabilities, m.id))
  {
    assert (front + [m])[..|front|] == front;
  }

  lemma OneMoreClaim(b: Books, before: seq<Conflict>, front: seq<Manifest>, m: Manifest, rest: set<string>, c: string)
    requires InOrder(b, before, front, m, rest) && c in rest && rest <= m.capabilities
    ensures InOrder(AfterClaim(b, c, m.id), before, front, m, rest - {c})
  {
    var done := m.capabilities - rest;
    OneMoreReport(before, b.conflicts, front, done, c, m.id);
    assert m.capabilities - (rest - {c}) == done + {c};
  }

  lemma AllClaimed(b: Books, before: seq<Conflict>, front: seq<Manifest>, m: Manifest)
    requires InOrder(b, before, front, m, {})
    ensures Bookkept(b.claims, front + [m], {}, "")
    ensures Reported(before, b.conflicts, front, m.capabilities, m.id)
  {
    assert (front + [m])[..|front|] == front;
    assert m.capabilities - {} == m.capabilities;
  }

  lemma NoClaim(b: Books, front: seq<Manifest>, m: Manifest)
    requires Bookkept(b.claims, front, {}, "")
    ensures InOrder(b, b.conflicts, front, m, m.capabilities)
  {
    assert m.capabilities - m.capabilities == {};
    assert Clashes(front, {}, m.id) == {};
  }

  lemma OneMoreReport(before: seq<Conflict>, now: seq<Conflict>, front: seq<Manifest>, done: set<string>,
                      c: string, agent: string)
    requires Reported(before, now, front, done, agent) && c !in done
    ensures c in Claimed(front) ==>
              Reported(before, now + [Conflict(c, FirstClaimant(front, c), agent)], front, done + {c}, agent)
    ensures c !in Claimed(front) ==> Reported(before, now, front, done + {c}, agent)
  {
    OneMoreClash(front, done, c, agent);
  }

  lemma OneMoreClash(front: seq<Manifest>, done: set<string>, c: string, agent: string)
    requires c !in done
    ensures multiset(Clashes(front, done + {c}, agent))
         == multiset(Clashes(front, done, agent))
            + if c in Claimed(front) then multiset{Conflict(c, FirstClaimant(front, c), agent)} else multiset{}
  {
    var s := Clashes(front, done, agent);
    if c in Claimed(front) {
      var x := Conflict(c, FirstClaimant(front, c), agent);
      assert x !in s;
      assert Clashes(front, done + {c}, agent) == s + {x};
    } else {
      assert Clashes(front, done + {c}, agent) == s;
    }
  }

  lemma {:induction false} ClashCount(front: seq<Manifest>, caps: set<string>, agent: string)
    ensures |Clashes(front, caps, agent)| == |caps * Claimed(front)|
  {
    if caps == {} {
      assert Clashes(front, caps, agent) == {};
    } else {
      var c :| c in caps;
      var fewer := caps - {c};
      ClashCount(front, fewer, agent);
      OneMoreClash(front, fewer, c, agent);
      assert fewer + {c} == caps;
      assert |multiset(Clashes(front, caps, agent))| == |Clashes(front, caps, agent)|;
      if c in Claimed(front) {
        assert caps * Claimed(front) == fewer * Claimed(front) + {c};
      } else {
        assert caps * Claimed(front) == fewer * Claimed(front);
      }
    }
  }

  /** There are as many conflicts as claims beyond the first of each capability. */
  lemma {:induction false} ConflictCount(entries: seq<Manifest>)
    ensures |AllClashes(entries)| == TotalClaims(entries) - |Claimed(entries)|
  {
    if entries != [] {
      var front, m := entries[..|entries| - 1], entries[|entries| - 1];
      ConflictCount(front);
      ClashCount(front, m.capabilities, m.id);
      var old_ := Claimed(front);
      assert m.capabilities == m.capabilities * old_ + (m.capabilities - old_);
      assert Claimed(entries) == old_ + (m.capabilities - old_);
    }
  }

  predicate PairwiseDisjoint(entries: seq<Manifest>) {
    forall i, j :: 0 <= i < j < |entries| ==> entries[i].capabilities !! entries[j].capabilities
  }

  lemma {:induction false} ClaimedBySome(entries: seq<Manifest>, c: string)
    ensures c in Claimed(entries) <==> exists i :: 0 <= i < |entries| && c in entries[i].capabilities
  {
    if entries != [] { ClaimedBySome(entries[..|entries| - 1], c); }
  }

  lemma SharingClashes(front: seq<Manifest>, i: nat, m: Manifest)
    requires i < |front|
    ensures Clashes(front, m.capabilities, m.id) == {} ==> front[i].capabilities !! m.capabilities
  {
    if c :| c in front[i].capabilities && c in m.capabilities {
      ClaimedBySome(front, c);
      assert Conflict(c, FirstClaimant(front, c), m.id) in Clashes(front, m.capabilities, m.id);
    }
  }

  /** A chain is free of conflicts exactly when its singletons share no capability. */
  lemma {:induction false} NoConflictExactly(entries: seq<Manifest>)
    ensures AllClashes(entries) == multiset{} <==> PairwiseDisjoint(entries)
  {
    if entries != [] {
      var front, m := entries[..|entries| - 1], entries[|entries| - 1];
      NoConflictExactly(front);
      var s := Clashes(front, m.capabilities, m.id);
      if x :| x in s {
        assert x in multiset(s) && x in AllClashes(entries);
        ClaimedBySome(front, x.capability);
      }
      if s == {} {
        forall i | 0 <= i < |front| ensures front[i].capabilities !! m.capabilities {
          SharingClashes(front, i, m);
        }
      }
    }
  }

  // ---- fallback agents --------------------------------------------------------------------------------

  /** The empty name counts as no fallback. */
  function FallbackId(m: Manifest): Option<string> {
    if m.fallback == Some("") then None else m.fallback
  }

  function ResolveFallback(registry: Registry, id: string, visited: set<string>, depth: nat): Option<Manifest>
    decreases MAX_FALLBACK_DEPTH - depth
  {
    if depth >= MAX_FALLBACK_DEPTH then None
    else
      var m := Get(registry, id);
      if m.None? || id in visited || FallbackId(m.value).None? then None
      else
        var next := FallbackId(m.value).value;
        var fallback := Get(registry, next);
        if fallback.Some? then fallback else ResolveFallback(registry, next, visited + {id}, depth + 1)
  }

  /** The chain is never walked: the result is the declared fallback of the agent itself, if registered. */
  lemma FallbackIsOneHop(registry: Registry, id: string, visited: set<string>, depth: nat)
    ensures ResolveFallback(registry, id, visited, depth)
         == if depth >= 3 || id in visited then None
            else match Get(registry, id)
              case None => None
              case Some(m) => if m.fallback in {None, Some("")} then None else Get(registry, m.fallback.value)
  {
  }

  // ---- conflicts in plain terms ----------------------------------------------------------------------

  lemma {:induction false} EntriesExactly(registry: Registry, agents: seq<string>, m: Manifest)
    ensures m in Entries(registry, agents) <==> m.singleton && exists a <- agents :: Get(registry, a) == Some(m)
  {
    if agents != [] {
      var front := agents[..|agents| - 1];
      EntriesExactly(registry, front, m);
      assert agents == front + [agents[|agents| - 1]];
    }
  }

  /** The first of the entries that claims the capability. */
  predicate FirstWith(entries: seq<Manifest>, c: string, i: int) {
    && 0 <= i < |entries| && c in entries[i].capabilities
    && forall k :: 0 <= k < i ==> c !in entries[k].capabilities
  }

  lemma {:induction false} FirstClaimantIsFirst(entries: seq<Manifest>, c: string) returns (i: nat)
    requires c in Claimed(entries)
    ensures FirstWith(entries, c, i) && FirstClaimant(entries, c) == entries[i].id
  {
    var front := entries[..|entries| - 1];
    if c in Claimed(front) {
      i := FirstClaimantIsFirst(front, c);
    } else {
      i := |entries| - 1;
      ClaimedBySome(front, c);
      forall k | 0 <= k < i ensures c !in entries[k].capabilities { assert front[k] == entries[k]; }
    }
  }

  /** A conflict between the first claimant at i and the claim at j. */
  predicate ConflictAt(entries: seq<Manifest>, x: Conflict, i: int, j: int) {
    && FirstWith(entries, x.capability, i) && i < j < |entries| && x.capability in entries[j].capabilities
    && x.first == entries[i].id && x.second == entries[j].id
  }

  lemma ClashExactly(front: seq<Manifest>, m: Manifest, x: Conflict)
    ensures x in Clashes(front, m.capabilities, m.id)
       <==> exists i :: ConflictAt(front + [m], x, i, |front|)
  {
    var all := front + [m];
    ClaimedBySome(front, x.capability);
    if x.capability in Claimed(front) {
      var i := FirstClaimantIsFirst(front, x.capability);
      assert FirstWith(all, x.capability, i);
      assert x.first == front[i].id && x.second == m.id && x.capability in m.capabilities ==>
          ConflictAt(all, x, i, |front|);
      if k :| ConflictAt(all, x, k, |front|) {
        assert k == i;
      }
    } else {
      assert forall k :: 0 <= k < |front| ==> all[k] == front[k] && x.capability !in front[k].capabilities;
    }
  }

  /** A conflict is reported exactly for a later claim of a capability, against its first claimant. */
  lemma {:induction false} ConflictExactly(entries: seq<Manifest>, x: Conflict)
    ensures x in AllClashes(entries) <==> exists i, j :: ConflictAt(entries, x, i, j)
  {
    if entries != [] {
      var n := |entries| - 1;
      var front, m := entries[..n], entries[n];
      assert entries == front + [m];
      ConflictExactly(front, x);
      ClashExactly(front, m, x);
      if i, j :| ConflictAt(entries, x, i, j) {
        if j < n { assert ConflictAt(front, x, i, j); } else { assert ConflictAt(front + [m], x, i, n); }
      }
      if i, j :| ConflictAt(front, x, i, j) { assert ConflictAt(entries, x, i, j); }
    }
  }
}
