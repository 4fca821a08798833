/** `distributed_vector::get_part_id` as run by any number of threads at once:
    a cache of part ids behind a lock that is given up while the name service
    is asked, and taken again before the answer is stored. */
module PartCache {
  import opened Basics

  type Thread = nat
  type Site = nat
  type Id = nat

  /** A default-constructed id names nothing. */
  const INVALID: Id := 0

  /** Where a call stands; the lock is held in `Searching`, `Emplacing` and
      `Returning`. */
  datatype Phase =
    | Entry(idx: Site)
    | Searching(idx: Site)
    | Waiting(idx: Site)
    | Resolved(idx: Site, id: Id)
    | Emplacing(idx: Site, id: Id)
    | Returning(idx: Site, id: Id)
    | Returned(idx: Site, id: Id)
    | Thrown(idx: Site)

  datatype State = State(
    numSites: nat, thisSite: Site, registry: map<Site, Id>,
    partIds: map<Site, Id>, lock: Option<Thread>, calls: map<Thread, Phase>)

  predicate Holding(p: Phase) {
    p.Searching? || p.Emplacing? || p.Returning?
  }

  predicate Finished(p: Phase) {
    p.Returned? || p.Thrown?
  }

  /** The constructor has registered and cached this site's own part. */
  ghost predicate Init(s: State) {
    && s.thisSite < s.numSites && s.thisSite in s.registry
    && s.partIds == map[s.thisSite := s.registry[s.thisSite]]
    && s.lock == None && s.calls == map[]
  }

  // ---------------------------------------------------------------------
  // Atomic steps

  /** A site that has not registered yet does so, once and for all. */
  ghost predicate Register(s: State, site: Site, id: Id, s': State) {
    site !in s.registry && s' == s.(registry := s.registry[site := id])
  }

  /** A thread that is not inside a call starts one. */
  ghost predicate Invoke(s: State, t: Thread, idx: Site, s': State) {
    && (t in s.calls ==> Finished(s.calls[t]))
    && s' == s.(calls := s.calls[t := Entry(idx)])
  }

  /** The call that thread `t` is in can go on: locks are free to take, and names
      that are waited for are registered. */
  predicate Enabled(s: State, t: Thread) {
    t in s.calls &&
    match s.calls[t]
    case Entry(idx) => (idx != s.thisSite && idx >= s.numSites) || s.lock == None
    case Waiting(idx) => idx in s.registry
    case Resolved(_, _) => s.lock == None
    case Returned(_, _) => false
    case Thrown(_) => false
    case _ => true
  }

  /** The next step of that call. */
  function After(s: State, t: Thread): State
    requires Enabled(s, t)
  {
    match s.calls[t]
    case Entry(idx) =>
      if idx != s.thisSite && idx >= s.numSites then s.(calls := s.calls[t := Thrown(idx)])
      else s.(lock := Some(t), calls := s.calls[t := Searching(idx)])
    case Searching(idx) =>
      if idx in s.partIds then s.(calls := s.calls[t := Returning(idx, s.partIds[idx])])
      else if idx == s.thisSite then
        s.(partIds := s.partIds[idx := INVALID], calls := s.calls[t := Returning(idx, INVALID)])
      else s.(lock := None, calls := s.calls[t := Waiting(idx)])
    case Waiting(idx) => s.(calls := s.calls[t := Resolved(idx, s.registry[idx])])
    case Resolved(idx, id) => s.(lock := Some(t), calls := s.calls[t := Emplacing(idx, id)])
    case Emplacing(idx, id) =>
      if idx in s.partIds then s.(calls := s.calls[t := Returning(idx, s.partIds[idx])])
      else s.(partIds := s.partIds[idx := id], calls := s.calls[t := Returning(idx, id)])
    case Returning(idx, id) => s.(lock := None, calls := s.calls[t := Returned(idx, id)])
  }

  ghost predicate Advance(s: State, t: Thread, s': State) {
    Enabled(s, t) && s' == After(s, t)
  }

  ghost predicate Next(s: State, s': State) {
    || (exists site, id :: Register(s, site, id, s'))
    || (exists t, idx :: Invoke(s, t, idx, s'))
    || (exists t :: Advance(s, t, s'))
  }

  /** Any interleaving of any number of calls and registrations. */
  ghost predicate IsRun(run: seq<State>) {
    && run != [] && Init(run[0])
    && forall i | 0 <= i < |run| - 1 :: NextAt(run, i)
  }

  ghost predicate NextAt(run: seq<State>, i: nat)
    requires i + 1 < |run|
  {
    Next(run[i], run[i + 1])
  }

  // ---------------------------------------------------------------------
  // What every state satisfies

  /** Only registered sites in range ever enter the cache. */
  ghost predicate CacheAgrees(s: State) {
    && s.thisSite in s.partIds && s.thisSite < s.numSites
    && forall k | k in s.partIds :: k < s.numSites && k in s.registry && s.partIds[k] == s.registry[k]
  }

  /** The lock is held by exactly the thread that is in a locked phase. */
  ghost predicate LockAgrees(s: State) {
    && (forall t | t in s.calls && Holding(s.calls[t]) :: s.lock == Some(t))
    && (s.lock.Some? ==> s.lock.value in s.calls && Holding(s.calls[s.lock.value]))
  }

  ghost predicate CallAgrees(s: State, p: Phase) {
    match p
    case Resolved(idx, id) => idx < s.numSites && idx in s.registry && id == s.registry[idx]
    case Emplacing(idx, id) => idx < s.numSites && idx in s.registry && id == s.registry[idx]
    case Returning(idx, id) => idx in s.partIds && id == s.partIds[idx]
    case Returned(idx, id) => idx in s.partIds && id == s.partIds[idx]
    case Thrown(idx) => idx != s.thisSite && idx >= s.numSites
    case Searching(idx) => idx == s.thisSite || idx < s.numSites
    case Waiting(idx) => idx != s.thisSite && idx < s.numSites
    case Entry(_) => true
  }

  ghost predicate Inv(s: State) {
    && CacheAgrees(s) && LockAgrees(s)
    && forall t | t in s.calls :: CallAgrees(s, s.calls[t])
  }

  /** Entries, once there, stay. */
  ghost predicate Grows(s: State, s': State) {
    && s'.numSites == s.numSites && s'.thisSite == s.thisSite
    && (forall k | k in s.registry :: k in s'.registry && s'.registry[k] == s.registry[k])
    && (forall k | k in s.partIds :: k in s'.partIds && s'.partIds[k] == s.partIds[k])
  }

  lemma InitHolds(s: State)
    requires Init(s)
    ensures Inv(s)
  {}

  lemma AdvanceGrows(s: State, t: Thread, s': State)
    requires Inv(s) && Advance(s, t, s')
    ensures Grows(s, s')
  {}

  lemma AdvanceAgrees(s: State, t: Thread, s': State)
    requires Inv(s) && Advance(s, t, s')
    ensures forall u | u in s'.calls :: CallAgrees(s', s'.calls[u])
  {
    AdvanceGrows(s, t, s');
    forall u | u in s'.calls ensures CallAgrees(s', s'.calls[u]) {
      if u == t { OwnAgrees(s, t, s'); } else { OtherAgrees(s, s', s.calls[u]); }
    }
  }

  lemma OwnAgrees(s: State, t: Thread, s': State)
    requires Inv(s) && Advance(s, t, s')
    ensures CallAgrees(s', s'.calls[t])
  {
    assert CallAgrees(s, s.calls[t]);
  }

  /** What a call relies on stays as it is. */
  lemma OtherAgrees(s: State, s': State, p: Phase)
    requires Grows(s, s') && CallAgrees(s, p)
    ensures CallAgrees(s', p)
  {}

  /** No step stores a wrong id or changes an entry that is there. */
  lemma AdvanceKeeps(s: State, t: Thread, s': State)
    requires Inv(s) && Advance(s, t, s')
    ensures Inv(s') && Grows(s, s')
  {
    AdvanceAgrees(s, t, s');
    forall u | u in s'.calls && Holding(s'.calls[u]) ensures s'.lock == Some(u) {
      if u != t { assert Holding(s.calls[u]); }
    }
  }

  lemma NextKeeps(s: State, s': State)
    requires Inv(s) && Next(s, s')
    ensures Inv(s') && Grows(s, s')
  {
    if exists t :: Advance(s, t, s') {
      var t :| Advance(s, t, s');
      AdvanceKeeps(s, t, s');
    } else {
      forall u | u in s'.calls ensures CallAgrees(s', s'.calls[u]) {
        if u in s.calls { assert CallAgrees(s, s.calls[u]); }
      }
    }
  }

  lemma {:induction false} RunKeeps(run: seq<State>, i: nat)
    requires IsRun(run) && i < |run|
    ensures forall k | 0 <= k <= i :: Inv(run[k])
    decreases i
  {
    if i == 0 {
      InitHolds(run[0]);
    } else {
      RunKeeps(run, i - 1);
      assert NextAt(run, i - 1);
      NextKeeps(run[i - 1], run[i]);
    }
  }

  lemma StepGrows(run: seq<State>, k: nat)
    requires IsRun(run) && k + 1 < |run|
    ensures Grows(run[k], run[k + 1])
  {
    RunKeeps(run, k);
    assert NextAt(run, k);
    NextKeeps(run[k], run[k + 1]);
  }

  lemma GrowsOn(a: State, b: State, c: State)
    requires Grows(a, b) && Grows(b, c)
    ensures Grows(a, c)
  {}

  lemma {:induction false} RunGrows(run: seq<State>, i: nat, j: nat)
    requires IsRun(run) && i <= j < |run|
    ensures forall k | i <= k <= j :: Grows(run[i], run[k])
    decreases j - i
  {
    if i < j {
      RunGrows(run, i, j - 1);
      StepGrows(run, j - 1);
      GrowsOn(run[i], run[j - 1], run[j]);
    }
  }

  // ---------------------------------------------------------------------
  // Main results

  /** In every reachable state the cache holds registered ids only, and a
      thread that waits for the name service does not hold the lock. */
  lemma CacheIsRight(run: seq<State>, i: nat)
    requires IsRun(run) && i < |run|
    ensures forall k | k in run[i].partIds ::
      k in run[i].registry && run[i].partIds[k] == run[i].registry[k]
    ensures forall t | t in run[i].calls && run[i].calls[t].Waiting? :: run[i].lock != Some(t)
    ensures forall t, u | t in run[i].calls && u in run[i].calls && Holding(run[i].calls[t]) && Holding(run[i].calls[u]) ::
      t == u
  {
    RunKeeps(run, i);
  }

  /** An entry once present is the same ever after. */
  lemma CacheIsStable(run: seq<State>, i: nat, j: nat, site: Site)
    requires IsRun(run) && i <= j < |run| && site in run[i].partIds
    ensures site in run[j].partIds && run[j].partIds[site] == run[i].partIds[site]
  {
    RunGrows(run, i, j);
  }

  /** Whenever and by whichever threads a site is asked for, the answers are
      the same: the id registered for it. */
  lemma CallersAgree(run: seq<State>, i: nat, t: Thread, j: nat, u: Thread)
    requires IsRun(run) && i < |run| && j < |run|
    requires t in run[i].calls && u in run[j].calls && run[i].calls[t].Returned? && run[j].calls[u].Returned?
    requires run[i].calls[t].idx == run[j].calls[u].idx
    ensures run[i].calls[t].id == run[j].calls[u].id
    ensures var last := run[|run| - 1]; var idx := run[i].calls[t].idx;
      idx in last.registry && last.registry[idx] == run[i].calls[t].id
  {
    RunKeeps(run, i);
    RunKeeps(run, j);
    assert CallAgrees(run[i], run[i].calls[t]) && CallAgrees(run[j], run[j].calls[u]);
    RunKeeps(run, |run| - 1);
    RunGrows(run, i, |run| - 1);
    RunGrows(run, j, |run| - 1);
  }

  /** A call fails exactly when the site is out of range. */
  lemma ThrowsOutOfRange(run: seq<State>, i: nat, t: Thread)
    requires IsRun(run) && i < |run| && t in run[i].calls && Finished(run[i].calls[t])
    ensures run[i].calls[t].Thrown? <==> run[i].calls[t].idx >= run[0].numSites
  {
    RunKeeps(run, i);
    RunGrows(run, 0, i);
    assert CallAgrees(run[i], run[i].calls[t]);
  }

  // ---------------------------------------------------------------------
  // Nobody gets stuck

  /** A call that has to wait for a site that never registered. */
  predicate Blocked(s: State, t: Thread) {
    t in s.calls && s.calls[t].Waiting? && s.calls[t].idx !in s.registry
  }

  ghost function Rank(p: Phase): nat {
    match p
    case Entry(_) => 6
    case Searching(_) => 5
    case Waiting(_) => 4
    case Resolved(_, _) => 3
    case Emplacing(_, _) => 2
    case Returning(_, _) => 1
    case Returned(_, _) => 0
    case Thrown(_) => 0
  }

  /** Main result: as long as some call is neither finished nor waiting for a
      site that has not registered, some call can take a step; no deadlock. */
  lemma SomebodyMoves(run: seq<State>, i: nat, t: Thread)
    requires IsRun(run) && i < |run|
    requires t in run[i].calls && !Finished(run[i].calls[t]) && !Blocked(run[i], t)
    ensures exists u, s' :: Advance(run[i], u, s')
  {
    RunKeeps(run, i);
    var s := run[i];
    var u := if s.lock.Some? then s.lock.value else t;
    assert Advance(s, u, After(s, u));
  }

  /** Every step brings its call closer to the end and leaves the others alone. */
  lemma StepsDescend(s: State, t: Thread, s': State)
    requires Advance(s, t, s')
    ensures t in s'.calls && Rank(s'.calls[t]) < Rank(s.calls[t]) <= 6
    ensures s'.calls.Keys == s.calls.Keys
    ensures forall u | u in s.calls && u != t :: s'.calls[u] == s.calls[u]
  {}

  /** The `k`-th step of the run was one of thread `t`'s. */
  predicate Moved(run: seq<State>, t: Thread, k: nat)
    requires k + 1 < |run|
  {
    t in run[k].calls && t in run[k + 1].calls && run[k].calls[t] != run[k + 1].calls[t]
  }

  function StepsOf(run: seq<State>, t: Thread, i: nat, j: nat): nat
    requires i <= j < |run|
  {
    if i == j then 0 else StepsOf(run, t, i, j - 1) + if Moved(run, t, j - 1) then 1 else 0
  }

  /** While a call is not finished, only its own steps change it. */
  lemma OnlyOwnSteps(s: State, t: Thread, s': State)
    requires Next(s, s') && t in s.calls && !Finished(s.calls[t])
    ensures t in s'.calls && (s'.calls[t] == s.calls[t] || Rank(s'.calls[t]) < Rank(s.calls[t]))
  {
    if exists u :: Advance(s, u, s') {
      var u :| Advance(s, u, s');
      StepsDescend(s, u, s');
    }
  }

  /** Main result: in every run, whatever the other threads do in between, a call
      takes at most six steps of its own until it returns or throws. */
  lemma {:induction false} StepsAreBounded(run: seq<State>, t: Thread, i: nat, j: nat)
    requires IsRun(run) && i <= j < |run| && t in run[i].calls
    requires forall k | i <= k < j :: t in run[k].calls && !Finished(run[k].calls[t])
    ensures t in run[j].calls
    ensures StepsOf(run, t, i, j) + Rank(run[j].calls[t]) <= Rank(run[i].calls[t]) <= 6
    decreases j - i
  {
    if i < j {
      StepsAreBounded(run, t, i, j - 1);
      assert NextAt(run, j - 1);
      OnlyOwnSteps(run[j - 1], t, run[j]);
    }
  }

  /** Where a call stands that never asks the name service. */
  predicate NeverAsks(p: Phase) {
    p.Entry? || p.Searching? || p.Returning? || p.Returned?
  }

  lemma CachedStep(s: State, t: Thread, s': State, site: Site)
    requires Inv(s) && Next(s, s') && site in s.partIds
    requires t in s.calls && NeverAsks(s.calls[t]) && s.calls[t].idx == site && !Finished(s.calls[t])
    ensures t in s'.calls && NeverAsks(s'.calls[t]) && s'.calls[t].idx == site
  {
    if exists u :: Advance(s, u, s') {
      var u :| Advance(s, u, s');
      StepsDescend(s, u, s');
    }
  }

  /** Main result: once a site is cached, a call for it that starts afterwards never
      waits for the name service. */
  lemma {:induction false} CachedIsNotAskedFor(run: seq<State>, t: Thread, i: nat, j: nat, site: Site)
    requires IsRun(run) && i <= j < |run| && site in run[i].partIds
    requires t in run[i].calls && run[i].calls[t] == Entry(site)
    requires forall k | i <= k < j :: t in run[k].calls && !Finished(run[k].calls[t])
    ensures t in run[j].calls && NeverAsks(run[j].calls[t]) && run[j].calls[t].idx == site
    decreases j - i
  {
    if i < j {
      CachedIsNotAskedFor(run, t, i, j - 1, site);
      RunKeeps(run, j - 1);
      RunGrows(run, i, j - 1);
      assert NextAt(run, j - 1);
      CachedStep(run[j - 1], t, run[j], site);
    }
  }
}
