/** The live-dependency and status rules of `validate_backlog`: the graph is
    built from the exported edges, closed over, compared ticket by ticket with
    the recorded candidates, and the implementation frontier is read off it. */
module Backlog {
  import opened Prelude
  import opened Closure

  type Name = string

  datatype Ticket = Ticket(key: Key, id: int, status: string)
  datatype Edge = Edge(ticketId: int, blockedById: int)
  datatype Snapshot = Snapshot(tickets: seq<Ticket>, dependencies: seq<Edge>)

  /** The dictionaries the validator derives from a snapshot. */
  datatype Board = Board(keys: seq<Key>, status: map<Key, string>, ids: map<int, Key>, edges: seq<Edge>)

  /** One row of the implementation index. */
  datatype Record = Record(key: Key, dependsOn: seq<Name>, blockedBy: set<Key>)
  datatype Candidate = Candidate(name: Name, dependsOn: seq<Name>)

  /** The recorded planning artifacts and the fixed inventories: planning tickets
      that must be done, the release as a candidate and as a ticket, follow-ups
      with their prerequisites, further tickets the release must wait for, and
      the ticket it must not. */
  datatype Plan = Plan(
    index: map<Name, Record>,
    candidates: seq<Candidate>,
    implementation: set<Key>,
    extra: map<Key, set<Key>>,
    review: Key,
    settled: set<Key>,
    release: Name,
    releaseTicket: Key,
    followUps: map<Key, set<Key>>,
    required: set<Key>,
    deferred: Key)

  datatype Verdict = Accepted(frontier: set<Key>) | Refused

  // ----- dictionaries: the last entry for a key wins

  function Dict<K(==), V>(keys: seq<K>, values: seq<V>): map<K, V>
    requires |keys| == |values|
  {
    var n := |keys|;
    if n == 0 then map[] else Dict(keys[..n - 1], values[..n - 1])[keys[n - 1] := values[n - 1]]
  }

  lemma {:induction false} DictKeys<K, V>(keys: seq<K>, values: seq<V>)
    requires |keys| == |values|
    ensures forall k :: k in Dict(keys, values) <==> k in keys
  {
    if keys != [] {
      DictKeys(keys[..|keys| - 1], values[..|keys| - 1]);
      assert keys == keys[..|keys| - 1] + [keys[|keys| - 1]];
    }
  }

  lemma {:induction false} DictSize<K, V>(keys: seq<K>, values: seq<V>)
    requires |keys| == |values|
    ensures |Dict(keys, values)| <= |keys|
    ensures |Dict(keys, values)| == |keys| <==> Distinct(keys)
  {
    var n := |keys|;
    if n > 0 {
      var front, last := Dict(keys[..n - 1], values[..n - 1]), keys[n - 1];
      DictSize(keys[..n - 1], values[..n - 1]);
      DictKeys(keys[..n - 1], values[..n - 1]);
      assert Dict(keys, values).Keys == front.Keys + {last};
      if last in front {
        var i :| 0 <= i < n - 1 && keys[..n - 1][i] == last;
        assert keys[i] == keys[n - 1];
        assert Dict(keys, values).Keys == front.Keys;
      } else {
        assert forall i :: 0 <= i < n - 1 ==> keys[..n - 1][i] == keys[i];
        assert Distinct(keys) <==> Distinct(keys[..n - 1]);
      }
    }
  }

  lemma {:induction false} DictEntries<K, V>(keys: seq<K>, values: seq<V>)
    requires |keys| == |values| && Distinct(keys)
    ensures forall i :: 0 <= i < |keys| ==> keys[i] in Dict(keys, values) && Dict(keys, values)[keys[i]] == values[i]
  {
    if keys != [] {
      DictEntries(keys[..|keys| - 1], values[..|keys| - 1]);
    }
  }

  /** A dictionary as large as its source list lost nothing to overwriting. */
  lemma FullDictIsFaithful<K, V>(keys: seq<K>, values: seq<V>)
    requires |keys| == |values|
    ensures forall k :: k in Dict(keys, values) <==> k in keys
    ensures |Dict(keys, values)| == |keys| <==> Distinct(keys)
    ensures Distinct(keys) ==> forall i :: 0 <= i < |keys| ==> Dict(keys, values)[keys[i]] == values[i]
  {
    DictKeys(keys, values);
    DictSize(keys, values);
    if Distinct(keys) {
      DictEntries(keys, values);
    }
  }

  function KeyList(ts: seq<Ticket>): seq<Key> {
    seq(|ts|, i requires 0 <= i < |ts| => ts[i].key)
  }

  function IdList(ts: seq<Ticket>): seq<int> {
    seq(|ts|, i requires 0 <= i < |ts| => ts[i].id)
  }

  function StatusList(ts: seq<Ticket>): seq<string> {
    seq(|ts|, i requires 0 <= i < |ts| => ts[i].status)
  }

  function Load(s: Snapshot): Board {
    var ts := s.tickets;
    Board(KeyList(ts), Dict(KeyList(ts), StatusList(ts)), Dict(IdList(ts), KeyList(ts)), s.dependencies)
  }

  /** No ticket key and no ticket id is used twice. */
  ghost predicate NoDuplicates(s: Snapshot) {
    Distinct(KeyList(s.tickets)) && Distinct(IdList(s.tickets))
  }

  ghost predicate Consistent(b: Board) {
    && (forall k :: k in b.status <==> k in b.keys)
    && forall i :: i in b.ids ==> b.ids[i] in b.status
  }

  lemma {:induction false} DictRange<K, V>(keys: seq<K>, values: seq<V>)
    requires |keys| == |values|
    ensures forall k :: k in Dict(keys, values) ==> Dict(keys, values)[k] in values
  {
    if |keys| > 0 {
      DictRange(keys[..|keys| - 1], values[..|keys| - 1]);
    }
  }

  lemma LoadIsConsistent(s: Snapshot)
    ensures Consistent(Load(s))
    ensures |Load(s).status| == |Load(s).ids| == |s.tickets| <==> NoDuplicates(s)
  {
    var ts := s.tickets;
    FullDictIsFaithful(KeyList(ts), StatusList(ts));
    FullDictIsFaithful(IdList(ts), KeyList(ts));
    DictRange(IdList(ts), KeyList(ts));
  }

  /** With no duplicates, the board says of each ticket what the export says. */
  lemma LoadIsFaithful(s: Snapshot, i: nat)
    requires NoDuplicates(s) && i < |s.tickets|
    ensures HasStatus(Load(s), s.tickets[i].key, s.tickets[i].status)
    ensures s.tickets[i].id in Load(s).ids && Load(s).ids[s.tickets[i].id] == s.tickets[i].key
  {
    var ts := s.tickets;
    FullDictIsFaithful(KeyList(ts), StatusList(ts));
    FullDictIsFaithful(IdList(ts), KeyList(ts));
    assert KeyList(ts)[i] == ts[i].key && IdList(ts)[i] == ts[i].id && StatusList(ts)[i] == ts[i].status;
  }

  // ----- building the graph

  predicate Resolved(b: Board, e: Edge) {
    e.ticketId in b.ids && e.blockedById in b.ids
  }

  /** Edge `e` says that `k` is blocked by `p`. */
  predicate Says(b: Board, e: Edge, k: Key, p: Key) {
    Resolved(b, e) && b.ids[e.ticketId] == k && b.ids[e.blockedById] == p
  }

  ghost predicate Agree(b: Board, e: Edge, f: Edge) {
    Resolved(b, e) && Resolved(b, f) && b.ids[e.ticketId] == b.ids[f.ticketId] && b.ids[e.blockedById] == b.ids[f.blockedById]
  }

  /** The first `n` edges resolve and no two of them say the same thing. */
  ghost predicate EdgesClean(b: Board, n: nat)
    requires n <= |b.edges|
  {
    && (forall i :: 0 <= i < n ==> Resolved(b, b.edges[i]))
    && forall i, j :: 0 <= i < j < n ==> !Agree(b, b.edges[i], b.edges[j])
  }

  function AddEdge(b: Board, g: Graph, e: Edge): Graph {
    if Resolved(b, e) && b.ids[e.ticketId] in g
    then g[b.ids[e.ticketId] := g[b.ids[e.ticketId]] + [b.ids[e.blockedById]]]
    else g
  }

  function GraphUpTo(b: Board, n: nat): Graph
    requires n <= |b.edges|
  {
    if n == 0 then map k | k in b.status :: [] else AddEdge(b, GraphUpTo(b, n - 1), b.edges[n - 1])
  }

  function Live(b: Board): Graph {
    GraphUpTo(b, |b.edges|)
  }

  /** The live graph has a key per ticket and an arc per exported edge. */
  lemma {:induction false} GraphHasExactlyTheEdges(b: Board, n: nat)
    requires Consistent(b) && n <= |b.edges|
    ensures GraphUpTo(b, n).Keys == b.status.Keys
    ensures forall k, p :: k in b.status ==>
                             (p in GraphUpTo(b, n)[k] <==> exists i :: 0 <= i < n && Says(b, b.edges[i], k, p))
  {
    if n > 0 {
      GraphHasExactlyTheEdges(b, n - 1);
      var g, e := GraphUpTo(b, n - 1), b.edges[n - 1];
      assert GraphUpTo(b, n).Keys == g.Keys;
      forall k, p | k in b.status
        ensures p in GraphUpTo(b, n)[k] <==> exists i :: 0 <= i < n && Says(b, b.edges[i], k, p)
      {
        assert p in GraphUpTo(b, n)[k] <==> p in g[k] || Says(b, e, k, p);
      }
    }
  }

  method BuildGraph(b: Board) returns (ok: bool, g: Graph)
    requires Consistent(b)
    ensures ok <==> EdgesClean(b, |b.edges|)
    ensures ok ==> g == Live(b)
  {
    g := map k | k in b.status :: [];
    for n := 0 to |b.edges|
      invariant g == GraphUpTo(b, n) && EdgesClean(b, n)
    {
      var e := b.edges[n];
      GraphHasExactlyTheEdges(b, n);
      if !(e.ticketId in b.ids && e.blockedById in b.ids) {
        return false, g;
      }
      var key, prerequisite := b.ids[e.ticketId], b.ids[e.blockedById];
      if prerequisite in g[key] {
        ghost var i :| 0 <= i < n && Says(b, b.edges[i], key, prerequisite);
        assert Agree(b, b.edges[i], b.edges[n]);
        return false, g;
      }
      forall i | 0 <= i < n
        ensures !Agree(b, b.edges[i], e)
      {
        assert !Says(b, b.edges[i], key, prerequisite);
      }
      g := g[key := g[key] + [prerequisite]];
    }
    ok := true;
  }

  // ----- what acceptance means

  predicate HasStatus(b: Board, k: Key, status: string) {
    k in b.status && b.status[k] == status
  }

  predicate Done(b: Board, k: Key) { HasStatus(b, k, "done") }

  predicate Todo(b: Board, k: Key) { HasStatus(b, k, "todo") }

  function Expected(plan: Plan, c: Candidate): set<Key>
    requires forall d :: d in c.dependsOn ==> d in plan.index
  {
    {plan.review} + set d | d in c.dependsOn :: plan.index[d].key
  }

  /** Recorded and live prerequisites of a candidate agree. */
  predicate PrerequisitesOk(plan: Plan, g: Graph, c: Candidate) {
    && c.name in plan.index
    && plan.index[c.name].key in g && plan.index[c.name].dependsOn == c.dependsOn
    && (forall d :: d in c.dependsOn ==> d in plan.index)
    && Expected(plan, c) == plan.index[c.name].blockedBy
    && var key := plan.index[c.name].key;
       Elements(g[key]) == Expected(plan, c) + (if key in plan.extra then plan.extra[key] else {})
  }

  /** Nothing starts before the review or before its prerequisites. */
  predicate StatusOk(b: Board, plan: Plan, g: Graph, key: Key) {
    && key in g
    && (Done(b, plan.review) || Todo(b, key))
    && (!Todo(b, key) ==> forall d :: d in g[key] ==> Done(b, d))
  }

  predicate CandidateOk(b: Board, plan: Plan, g: Graph, c: Candidate) {
    PrerequisitesOk(plan, g, c) && StatusOk(b, plan, g, plan.index[c.name].key)
  }

  predicate StatusesKnown(b: Board) {
    forall k :: k in b.status ==> b.status[k] in {"todo", "in_progress", "done"}
  }

  predicate InventoryOk(plan: Plan, g: Graph) {
    && (set n | n in plan.index :: plan.index[n].key) == plan.implementation
    && |plan.index| == |plan.implementation|
    && plan.implementation <= g.Keys
    && plan.review in g
  }

  ghost predicate NamesDiffer(cs: seq<Candidate>) {
    forall i, j :: 0 <= i < j < |cs| ==> cs[i].name != cs[j].name
  }

  ghost predicate AllCandidatesOk(b: Board, plan: Plan, g: Graph) {
    && NamesDiffer(plan.candidates)
    && forall c :: c in plan.candidates ==> CandidateOk(b, plan, g, c)
  }

  function CandidateGraph(cs: seq<Candidate>): Graph {
    if cs == [] then map[] else CandidateGraph(cs[..|cs| - 1])[cs[|cs| - 1].name := cs[|cs| - 1].dependsOn]
  }

  ghost predicate CandidatesCloseOverIndex(plan: Plan) {
    var cg := CandidateGraph(plan.candidates);
    && cg.Keys == plan.index.Keys
    && WellFounded(cg, [plan.release])
    && forall n :: n in cg <==> ReachedFrom(cg, [plan.release], n)
  }

  predicate PlanningDone(b: Board, plan: Plan) {
    forall k :: k in plan.settled ==> Done(b, k)
  }

  predicate FollowUpsOk(plan: Plan, g: Graph) {
    forall k :: k in plan.followUps ==> k in g && Elements(g[k]) == plan.followUps[k]
  }

  /** The release ticket waits for everything it should and not for the deferred
      ticket. */
  ghost predicate LiveReleaseOk(plan: Plan, g: Graph) {
    && WellFounded(g, [plan.releaseTicket])
    && (forall k :: k in plan.implementation + plan.required ==> ReachedFrom(g, [plan.releaseTicket], k))
    && !ReachedFrom(g, [plan.releaseTicket], plan.deferred)
  }

  ghost predicate BoardAcceptable(b: Board, plan: Plan) {
    && Consistent(b)
    && EdgesClean(b, |b.edges|)
    && WellFounded(Live(b), b.keys)
    && StatusesKnown(b)
    && InventoryOk(plan, Live(b))
    && PlanningDone(b, plan)
    && AllCandidatesOk(b, plan, Live(b))
    && CandidatesCloseOverIndex(plan)
    && FollowUpsOk(plan, Live(b))
    && LiveReleaseOk(plan, Live(b))
  }

  ghost predicate OnFrontier(b: Board, plan: Plan, k: Key) {
    k in plan.implementation && Todo(b, k) && k in Live(b) && forall d :: d in Live(b)[k] ==> Done(b, d)
  }

  lemma {:induction false} CandidateGraphKeys(cs: seq<Candidate>)
    ensures forall n :: n in CandidateGraph(cs) <==> exists i :: 0 <= i < |cs| && cs[i].name == n
  {
    if cs != [] {
      CandidateGraphKeys(cs[..|cs| - 1]);
    }
  }

  lemma NamesStayDifferent(cs: seq<Candidate>, c: Candidate)
    requires NamesDiffer(cs)
    ensures NamesDiffer(cs + [c]) <==> c.name !in CandidateGraph(cs)
  {
    CandidateGraphKeys(cs);
    if c.name in CandidateGraph(cs) {
      var i :| 0 <= i < |cs| && cs[i].name == c.name;
      assert (cs + [c])[i].name == (cs + [c])[|cs|].name;
    }
  }

  lemma RepeatedNameStays(cs: seq<Candidate>, n: nat)
    requires n <= |cs| && !NamesDiffer(cs[..n])
    ensures !NamesDiffer(cs)
  {
    var i, j :| 0 <= i < j < n && cs[..n][i].name == cs[..n][j].name;
    assert cs[i].name == cs[j].name;
  }

  lemma OneMoreCandidate(done: seq<Candidate>, c: Candidate)
    requires NamesDiffer(done)
    ensures CandidateGraph(done + [c]) == CandidateGraph(done)[c.name := c.dependsOn]
    ensures NamesDiffer(done + [c]) <==> c.name !in CandidateGraph(done)
  {
    assert (done + [c])[..|done|] == done;
    NamesStayDifferent(done, c);
  }

  /** The loop over the candidates; `fine` stands for the checks of one. */
  method ScanCandidates(cs: seq<Candidate>, fine: Candidate -> bool) returns (ok: bool, cg: Graph)
    ensures ok <==> NamesDiffer(cs) && forall c :: c in cs ==> fine(c)
    ensures ok ==> cg == CandidateGraph(cs)
  {
    cg := map[];
    ghost var done: seq<Candidate> := [];
    for n := 0 to |cs|
      invariant done == cs[..n] && cg == CandidateGraph(done) && NamesDiffer(done)
      invariant forall i :: 0 <= i < n ==> fine(cs[i])
    {
      var c := cs[n];
      OneMoreCandidate(done, c);
      done := done + [c];
      if c.name in cg {
        RepeatedNameStays(cs, n + 1);
        return false, cg;
      }
      if !fine(c) {
        return false, cg;
      }
      cg := cg[c.name := c.dependsOn];
    }
    assert done == cs;
    ok := true;
  }

  method CheckCandidates(b: Board, plan: Plan, g: Graph) returns (ok: bool, cg: Graph)
    ensures ok <==> AllCandidatesOk(b, plan, g)
    ensures ok ==> cg == CandidateGraph(plan.candidates)
  {
    ok, cg := ScanCandidates(plan.candidates, c => CandidateOk(b, plan, g, c));
  }

  // ----- consequences of acceptance

  /** No ticket is on a cycle, every edge resolves, and every implementation
      ticket requires the review and obeys the starting rules. */
  ghost predicate Healthy(b: Board, plan: Plan) {
    var g := Live(b);
    && g.Keys == b.status.Keys
    && (forall k :: k in g ==> !OnCycle(g, k))
    && (forall k, d :: k in g && d in g[k] ==> d in g)
    && StatusesKnown(b)
    && forall k :: k in plan.implementation ==> StatusOk(b, plan, g, k) && plan.review in g[k]
  }

  lemma IndexNames(plan: Plan, g: Graph, k: Key) returns (n: Name)
    requires InventoryOk(plan, g) && k in plan.implementation
    ensures n in plan.index && plan.index[n].key == k
  {
    assert k in (set n | n in plan.index :: plan.index[n].key);
    n :| n in plan.index && plan.index[n].key == k;
  }

  /** The candidate loop has looked at every implementation ticket. */
  lemma EveryImplementationTicketWasChecked(b: Board, plan: Plan, k: Key)
    requires InventoryOk(plan, Live(b)) && AllCandidatesOk(b, plan, Live(b))
    requires CandidateGraph(plan.candidates).Keys == plan.index.Keys
    requires k in plan.implementation
    ensures StatusOk(b, plan, Live(b), k) && plan.review in Live(b)[k]
  {
    var n := IndexNames(plan, Live(b), k);
    CandidateGraphKeys(plan.candidates);
    assert n in CandidateGraph(plan.candidates);
    var i :| 0 <= i < |plan.candidates| && plan.candidates[i].name == n;
    assert CandidateOk(b, plan, Live(b), plan.candidates[i]);
    assert plan.review in Elements(Live(b)[k]);
  }

  lemma {:induction false} CandidateOf(cs: seq<Candidate>, n: Name) returns (c: Candidate)
    requires n in CandidateGraph(cs)
    ensures c in cs && c.name == n && c.dependsOn == CandidateGraph(cs)[n]
  {
    if cs[|cs| - 1].name == n {
      c := cs[|cs| - 1];
    } else {
      c := CandidateOf(cs[..|cs| - 1], n);
    }
  }

  /** A recorded dependency between candidates is a live one between tickets. */
  lemma CandidateEdgeIsLive(b: Board, plan: Plan, n: Name, d: Name)
    requires AllCandidatesOk(b, plan, Live(b)) && n in CandidateGraph(plan.candidates) && d in CandidateGraph(plan.candidates)[n]
    ensures n in plan.index && d in plan.index
    ensures plan.index[n].key in Live(b) && plan.index[d].key in Live(b)[plan.index[n].key]
  {
    var c := CandidateOf(plan.candidates, n);
    assert CandidateOk(b, plan, Live(b), c);
    assert plan.index[d].key in Expected(plan, c);
    assert plan.index[d].key in Elements(Live(b)[plan.index[n].key]);
  }

  lemma {:induction false} CandidatePathIsLive(b: Board, plan: Plan, p: seq<Name>)
    requires AllCandidatesOk(b, plan, Live(b)) && IsPath(CandidateGraph(plan.candidates), p)
    requires p[0] in plan.index && p[|p| - 1] in plan.index
    ensures Reaches(Live(b), plan.index[p[0]].key, plan.index[p[|p| - 1]].key)
    decreases |p|
  {
    if |p| == 1 {
      ReachesSelf(Live(b), plan.index[p[0]].key);
    } else {
      CandidateEdgeIsLive(b, plan, p[0], p[1]);
      assert IsPath(CandidateGraph(plan.candidates), p[1..]);
      CandidatePathIsLive(b, plan, p[1..]);
      ReachesStep(Live(b), plan.index[p[0]].key, plan.index[p[1]].key, plan.index[p[|p| - 1]].key);
    }
  }

  /** The candidate closure lifts to the tickets: the release candidate's ticket
      waits, directly or not, for every implementation ticket. So a live release
      check started at that ticket cannot fail for one of them. */
  lemma ReleaseWaitsForImplementation(b: Board, plan: Plan, k: Key)
    requires InventoryOk(plan, Live(b)) && AllCandidatesOk(b, plan, Live(b)) && CandidatesCloseOverIndex(plan)
    requires k in plan.implementation
    ensures plan.release in plan.index && Reaches(Live(b), plan.index[plan.release].key, k)
  {
    var cg := CandidateGraph(plan.candidates);
    ReachesSelf(cg, plan.release);
    assert ReachedFrom(cg, [plan.release], plan.release);
    var n := IndexNames(plan, Live(b), k);
    assert n in cg;
    assert ReachedFrom(cg, [plan.release], n) && Reaches(cg, plan.release, n);
    var p :| Joins(cg, p, plan.release, n);
    CandidatePathIsLive(b, plan, p);
  }

  lemma LiveGraphIsAcyclic(b: Board)
    requires Consistent(b) && WellFounded(Live(b), b.keys)
    ensures Live(b).Keys == b.status.Keys
    ensures forall k :: k in Live(b) ==> !OnCycle(Live(b), k)
    ensures forall k, d :: k in Live(b) && d in Live(b)[k] ==> d in Live(b)
  {
    var g := Live(b);
    GraphHasExactlyTheEdges(b, |b.edges|);
    forall k | k in g
      ensures !OnCycle(g, k)
      ensures forall d :: d in g[k] ==> d in g
    {
      ReachesSelf(g, k);
      assert ReachedFrom(g, b.keys, k);
      forall d | d in g[k]
        ensures d in g
      {
        ReachesSelf(g, d);
        ReachesStep(g, k, d, d);
        assert ReachedFrom(g, b.keys, d);
      }
    }
  }

  lemma AcceptedIsHealthy(b: Board, plan: Plan)
    requires BoardAcceptable(b, plan)
    ensures Healthy(b, plan)
  {
    LiveGraphIsAcyclic(b);
    forall k | k in plan.implementation
      ensures StatusOk(b, plan, Live(b), k) && plan.review in Live(b)[k]
    {
      EveryImplementationTicketWasChecked(b, plan, k);
    }
  }

  method CheckRelease(plan: Plan, cg: Graph) returns (ok: bool)
    requires cg == CandidateGraph(plan.candidates)
    ensures ok <==> CandidatesCloseOverIndex(plan)
  {
    var release := Close(cg, [plan.release]);
    ok := release.Reached? && release.keys == cg.Keys && cg.Keys == plan.index.Keys;
  }

  method CheckLiveRelease(plan: Plan, g: Graph) returns (ok: bool)
    ensures ok <==> LiveReleaseOk(plan, g)
  {
    var release := Close(g, [plan.releaseTicket]);
    ok := release.Reached? && plan.implementation + plan.required <= release.keys && plan.deferred !in release.keys;
  }

  method ValidateBoard(b: Board, plan: Plan) returns (ok: bool)
    requires Consistent(b)
    ensures ok <==> BoardAcceptable(b, plan)
  {
    var clean, g := BuildGraph(b);
    if !clean {
      return false;
    }
    var live := Close(g, b.keys);
    if live.Rejected? || !StatusesKnown(b) || !InventoryOk(plan, g) || !PlanningDone(b, plan) {
      return false;
    }
    var fine, cg := CheckCandidates(b, plan, g);
    if !fine {
      return false;
    }
    var closed := CheckRelease(plan, cg);
    if !closed || !FollowUpsOk(plan, g) {
      return false;
    }
    ok := CheckLiveRelease(plan, g);
  }

  /** Accepts exactly the acceptable backlogs, and then reports the frontier. */
  method Validate(s: Snapshot, plan: Plan) returns (v: Verdict)
    ensures v.Accepted? <==> NoDuplicates(s) && BoardAcceptable(Load(s), plan)
    ensures v.Accepted? ==> Healthy(Load(s), plan)
    ensures v.Accepted? ==> forall k :: k in v.frontier <==> OnFrontier(Load(s), plan, k)
  {
    LoadIsConsistent(s);
    var b := Load(s);
    if !(|b.status| == |b.ids| == |s.tickets|) {
      return Refused;
    }
    var ok := ValidateBoard(b, plan);
    if !ok {
      return Refused;
    }
    AcceptedIsHealthy(b, plan);
    var g := Live(b);
    assert forall k :: k in plan.implementation ==> StatusOk(b, plan, g, k);
    var frontier := set k | k in plan.implementation && Todo(b, k) && forall d :: d in g[k] ==> Done(b, d);
    return Accepted(frontier);
  }

  /** A started implementation ticket has every prerequisite done, and so has
      everything reached from it through implementation tickets. */
  lemma {:induction false} StartedAfterPrerequisites(b: Board, plan: Plan, p: seq<Key>, i: nat)
    requires Healthy(b, plan) && IsPath(Live(b), p)
    requires !Todo(b, p[0]) && forall j :: 0 <= j < |p| - 1 ==> p[j] in plan.implementation
    requires 1 <= i < |p|
    ensures Done(b, p[i])
    decreases i
  {
    if i > 1 {
      StartedAfterPrerequisites(b, plan, p, i - 1);
    }
    assert StatusOk(b, plan, Live(b), p[i - 1]);
    assert p[i - 1 + 1] in Live(b)[p[i - 1]];
  }

  /** A walk that starts at a waiting implementation ticket and always moves to
      an unfinished prerequisite. */
  ghost predicate Waits(b: Board, plan: Plan, p: seq<Key>) {
    && IsPath(Live(b), p)
    && p[0] in plan.implementation && Todo(b, p[0])
    && forall i :: 1 <= i < |p| ==> !Done(b, p[i])
  }

  /** Where such a walk may stop: work that can start now, work under way, or
      unfinished work outside the implementation set. */
  ghost predicate Unblocker(b: Board, plan: Plan, k: Key) {
    || OnFrontier(b, plan, k)
    || HasStatus(b, k, "in_progress")
    || (k in b.status && k !in plan.implementation && !Done(b, k))
  }

  lemma {:induction false} DistinctFits(p: seq<Key>, keys: set<Key>)
    requires Distinct(p) && forall k :: k in p ==> k in keys
    ensures |p| <= |keys|
  {
    if p != [] {
      DistinctFits(p[1..], keys - {p[0]});
    }
  }

  /** No such walk is longer than the backlog, so none can go on for ever. */
  lemma WaitsAreBounded(b: Board, plan: Plan, p: seq<Key>)
    requires Healthy(b, plan) && Waits(b, plan, p)
    ensures |p| <= |b.status|
    ensures forall k :: k in p ==> k in b.status
  {
    AcyclicPathsAreDistinct(Live(b), p);
    forall i | 0 <= i < |p|
      ensures p[i] in b.status
    {
      if i > 0 {
        assert p[i - 1 + 1] in Live(b)[p[i - 1]];
      }
    }
    DistinctFits(p, b.status.Keys);
  }

  lemma WalkOn(b: Board, plan: Plan, p: seq<Key>) returns (d: Key)
    requires Healthy(b, plan) && Waits(b, plan, p)
    requires !Unblocker(b, plan, p[|p| - 1])
    ensures Waits(b, plan, p + [d])
  {
    WaitsAreBounded(b, plan, p);
    var last := p[|p| - 1];
    assert last in p;
    assert Todo(b, last);
    d :| d in Live(b)[last] && !Done(b, d);
    assert IsPath(Live(b), p + [d]);
  }

  /** A walk over unfinished prerequisites that has not reached an unblocker
      can be continued, and some continuation ends at one. */
  lemma {:induction false} UnblockerReached(b: Board, plan: Plan, p: seq<Key>) returns (q: seq<Key>)
    requires Healthy(b, plan) && Waits(b, plan, p)
    ensures p <= q && Waits(b, plan, q) && Unblocker(b, plan, q[|q| - 1])
    decreases |b.status| - |p|
  {
    q := p;
    if !Unblocker(b, plan, p[|p| - 1]) {
      var d := WalkOn(b, plan, p);
      var longer := p + [d];
      WaitsAreBounded(b, plan, longer);
      q := UnblockerReached(b, plan, longer);
      assert p <= longer <= q;
    }
  }

  /** Every waiting implementation ticket leads to an unblocker. */
  lemma WaitingTicketHasUnblocker(b: Board, plan: Plan, k: Key)
    requires Healthy(b, plan) && k in plan.implementation && Todo(b, k)
    ensures exists u :: Reaches(Live(b), k, u) && Unblocker(b, plan, u)
  {
    var q := UnblockerReached(b, plan, [k]);
    assert Joins(Live(b), q, k, q[|q| - 1]);
  }

  // ----- what acceptance says of the export itself

  ghost predicate Exported(s: Snapshot, k: Key, status: string) {
    exists i :: 0 <= i < |s.tickets| && s.tickets[i].key == k && s.tickets[i].status == status
  }

  ghost predicate Named(s: Snapshot, id: int, k: Key) {
    exists i :: 0 <= i < |s.tickets| && s.tickets[i].id == id && s.tickets[i].key == k
  }

  /** An exported edge says that the ticket `k` is blocked by the ticket `p`. */
  ghost predicate Blocks(s: Snapshot, k: Key, p: Key) {
    exists n :: 0 <= n < |s.dependencies| && Named(s, s.dependencies[n].ticketId, k) && Named(s, s.dependencies[n].blockedById, p)
  }

  lemma StatusIsExported(s: Snapshot, k: Key, status: string)
    requires NoDuplicates(s)
    ensures HasStatus(Load(s), k, status) <==> Exported(s, k, status)
  {
    LoadIsConsistent(s);
    FullDictIsFaithful(KeyList(s.tickets), StatusList(s.tickets));
    if HasStatus(Load(s), k, status) {
      var i :| 0 <= i < |KeyList(s.tickets)| && KeyList(s.tickets)[i] == k;
      LoadIsFaithful(s, i);
    }
    if Exported(s, k, status) {
      var i :| 0 <= i < |s.tickets| && s.tickets[i].key == k && s.tickets[i].status == status;
      LoadIsFaithful(s, i);
    }
  }

  lemma IdIsExported(s: Snapshot, id: int, k: Key)
    requires NoDuplicates(s)
    ensures (id in Load(s).ids && Load(s).ids[id] == k) <==> Named(s, id, k)
  {
    FullDictIsFaithful(IdList(s.tickets), KeyList(s.tickets));
    if id in Load(s).ids && Load(s).ids[id] == k {
      var i :| 0 <= i < |IdList(s.tickets)| && IdList(s.tickets)[i] == id;
      LoadIsFaithful(s, i);
    }
    if Named(s, id, k) {
      var i :| 0 <= i < |s.tickets| && s.tickets[i].id == id && s.tickets[i].key == k;
      LoadIsFaithful(s, i);
    }
  }

  lemma EdgeIsExported(s: Snapshot, e: Edge, k: Key, p: Key)
    requires NoDuplicates(s)
    ensures Says(Load(s), e, k, p) <==> Named(s, e.ticketId, k) && Named(s, e.blockedById, p)
  {
    IdIsExported(s, e.ticketId, k);
    IdIsExported(s, e.blockedById, p);
  }

  lemma NamedIsTicket(s: Snapshot, id: int, k: Key)
    requires NoDuplicates(s) && Named(s, id, k)
    ensures k in Load(s).status
  {
    var i :| 0 <= i < |s.tickets| && s.tickets[i].id == id && s.tickets[i].key == k;
    LoadIsFaithful(s, i);
  }

  /** The live graph is the exported one. */
  lemma LiveIsExported(s: Snapshot, k: Key, p: Key)
    requires NoDuplicates(s)
    ensures (k in Live(Load(s)) && p in Live(Load(s))[k]) <==> Blocks(s, k, p)
  {
    var b := Load(s);
    LoadIsConsistent(s);
    GraphHasExactlyTheEdges(b, |b.edges|);
    if k in Live(b) && p in Live(b)[k] {
      var n :| 0 <= n < |b.edges| && Says(b, b.edges[n], k, p);
      EdgeIsExported(s, b.edges[n], k, p);
    }
    if Blocks(s, k, p) {
      var n :| 0 <= n < |s.dependencies| && Named(s, s.dependencies[n].ticketId, k) && Named(s, s.dependencies[n].blockedById, p);
      EdgeIsExported(s, b.edges[n], k, p);
      NamedIsTicket(s, s.dependencies[n].ticketId, k);
    }
  }

  /** Why the ticket of candidate `c` has `p` as a prerequisite. */
  ghost predicate Recorded(plan: Plan, c: Candidate, p: Key)
    requires c.name in plan.index
  {
    || p == plan.review
    || (exists d :: d in c.dependsOn && d in plan.index && plan.index[d].key == p)
    || (plan.index[c.name].key in plan.extra && p in plan.extra[plan.index[c.name].key])
  }

  lemma CandidatePrerequisites(plan: Plan, g: Graph, c: Candidate, p: Key)
    requires PrerequisitesOk(plan, g, c)
    ensures p in g[plan.index[c.name].key] <==> Recorded(plan, c, p)
  {
    var key := plan.index[c.name].key;
    assert p in g[key] <==> p in Elements(g[key]);
    assert p in Expected(plan, c) <==> p == plan.review || exists d :: d in c.dependsOn && plan.index[d].key == p;
  }

  /** In an accepted export, the prerequisites of a candidate's ticket are the
      review, the tickets of the candidates it depends on, and its extra ones;
      those of a follow-up are the recorded ones; planning is done. */
  lemma AcceptedExport(s: Snapshot, plan: Plan)
    requires NoDuplicates(s) && BoardAcceptable(Load(s), plan)
    ensures forall k :: k in plan.settled ==> Exported(s, k, "done")
    ensures forall k, p :: k in plan.followUps ==> (Blocks(s, k, p) <==> p in plan.followUps[k])
    ensures forall c, p :: c in plan.candidates ==>
              c.name in plan.index && (Blocks(s, plan.index[c.name].key, p) <==> Recorded(plan, c, p))
  {
    var g := Live(Load(s));
    forall k | k in plan.settled
      ensures Exported(s, k, "done")
    {
      StatusIsExported(s, k, "done");
    }
    forall k, p | k in plan.followUps
      ensures Blocks(s, k, p) <==> p in plan.followUps[k]
    {
      LiveIsExported(s, k, p);
      assert p in Elements(g[k]) <==> p in g[k];
    }
    forall c, p | c in plan.candidates
      ensures c.name in plan.index && (Blocks(s, plan.index[c.name].key, p) <==> Recorded(plan, c, p))
    {
      assert CandidateOk(Load(s), plan, g, c);
      CandidatePrerequisites(plan, g, c, p);
      LiveIsExported(s, plan.index[c.name].key, p);
    }
  }

  /** An implementation ticket is started only after the review and after each of
      its prerequisites is done. */
  lemma StartedLate(s: Snapshot, plan: Plan, k: Key, p: Key)
    requires NoDuplicates(s) && Healthy(Load(s), plan) && k in plan.implementation && !Exported(s, k, "todo")
    ensures Exported(s, plan.review, "done") && (Blocks(s, k, p) ==> Exported(s, p, "done"))
  {
    StatusIsExported(s, k, "todo");
    StatusIsExported(s, plan.review, "done");
    StatusIsExported(s, p, "done");
    LiveIsExported(s, k, p);
    assert StatusOk(Load(s), plan, Live(Load(s)), k);
  }

  /** The release waits for all it should and not for the deferred ticket. */
  lemma ReleaseReaches(plan: Plan, g: Graph)
    requires LiveReleaseOk(plan, g)
    ensures forall k :: k in plan.implementation || k in plan.required ==> Reaches(g, plan.releaseTicket, k)
    ensures !Reaches(g, plan.releaseTicket, plan.deferred)
  {
    forall k | k in plan.implementation || k in plan.required
      ensures Reaches(g, plan.releaseTicket, k)
    {
      assert ReachedFrom(g, [plan.releaseTicket], k);
    }
    assert plan.releaseTicket in [plan.releaseTicket];
  }

  /** The frontier in terms of the export. */
  lemma FrontierIsExported(s: Snapshot, plan: Plan, k: Key)
    requires NoDuplicates(s) && Healthy(Load(s), plan)
    ensures OnFrontier(Load(s), plan, k)
            <==> k in plan.implementation && Exported(s, k, "todo") && forall p :: Blocks(s, k, p) ==> Exported(s, p, "done")
  {
    var g := Live(Load(s));
    StatusIsExported(s, k, "todo");
    forall p
      ensures (k in g && p in g[k]) <==> Blocks(s, k, p)
      ensures Done(Load(s), p) <==> Exported(s, p, "done")
    {
      LiveIsExported(s, k, p);
      StatusIsExported(s, p, "done");
    }
    assert k in plan.implementation ==> StatusOk(Load(s), plan, g, k);
  }
}
