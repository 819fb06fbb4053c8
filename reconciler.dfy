/**
 * The metric reconciler and the sampling cycle (`procs`): publish the
 * current aggregate into the registry and evict the owners that were
 * published before but have no process any more.
 */
module Reconciler {
  import opened Wrappers
  import opened Snapshot
  import opened Aggregation
  import opened Metrics

  /** The value an aggregate entry publishes on gauge `g`. */
  function Value(e: ProcEntry, g: Gauge): int
  {
    match g
    case Processes => e.count
    case Memory => e.rss
    case Swap => e.swap
  }

  /** Gauge `g` as it should read for the aggregate `agg` alone. */
  function Published(agg: map<string, ProcEntry>, g: Gauge): (m: map<string, int>)
    ensures m.Keys == agg.Keys
  {
    map u | u in agg :: Value(agg[u], g)
  }

  /** The state after the `set` phase: every owner of `agg` written on all three gauges. */
  function Publish(st: Gauges, agg: map<string, ProcEntry>): Gauges
  {
    Gauges(st.processes + Published(agg, Processes),
           st.memory + Published(agg, Memory),
           st.swap + Published(agg, Swap))
  }

  /** The owners read from the process-count gauge that are absent from the aggregate. */
  function Stale(st: Gauges, agg: map<string, ProcEntry>): set<string>
  {
    st.processes.Keys - agg.Keys
  }

  /** The state after the eviction phase: the label sets of `stale` removed from all three gauges. */
  function Evict(st: Gauges, stale: set<string>): Gauges
  {
    Gauges(st.processes - stale, st.memory - stale, st.swap - stale)
  }

  /** The registry state one reconciliation leaves behind. */
  function Reconciled(st: Gauges, agg: map<string, ProcEntry>): Gauges
  {
    Evict(Publish(st, agg), Stale(st, agg))
  }

  /** The registry state one sampling cycle leaves behind. */
  function Cycle(st: Gauges, listing: Result<seq<Listed>, ProcError>, resolve: Resolver): Gauges
  {
    match GetAllProcs(listing)
    case Failure(_) => st
    case Success(ps) => Reconciled(st, Aggregate(ps, resolve))
  }

  /** The registry state after a run of cycles, one listing per cycle. */
  function Run(st: Gauges, listings: seq<Result<seq<Listed>, ProcError>>, resolve: Resolver): Gauges
    decreases listings
  {
    if listings == [] then st
    else Run(Cycle(st, listings[0], resolve), listings[1..], resolve)
  }

  /**
   * The reconciliation half of `procs`: read the previously published
   * user names from the process-count gauge, set all three gauges for
   * every current owner, then remove all three gauges of every previous
   * owner left over.
   */
  method Reconcile(reg: Registry, userProcs: map<string, ProcEntry>)
    modifies reg
    ensures reg.State() == Reconciled(old(reg.State()), userProcs)
  {
    var prevUsernames := reg.Labels(Processes);
    prevUsernames := PublishCurrent(reg, userProcs, prevUsernames);
    EvictStale(reg, prevUsernames);
  }

  /**
   * The `set` loop: writes the three gauges of every owner of `userProcs`,
   * in the map's arbitrary order, and takes each one out of the set of
   * previous user names.
   */
  method PublishCurrent(reg: Registry, userProcs: map<string, ProcEntry>, prev: set<string>)
    returns (stale: set<string>)
    modifies reg
    ensures reg.State() == Publish(old(reg.State()), userProcs)
    ensures stale == prev - userProcs.Keys
  {
    ghost var st := reg.State();
    stale := prev;
    var todo := userProcs.Keys;
    assert userProcs - todo == map[];
    PublishNothing(st);
    while todo != {}
      invariant todo <= userProcs.Keys
      invariant stale == prev - (userProcs.Keys - todo)
      invariant reg.State() == Publish(st, userProcs - todo)
      decreases todo
    {
      var user :| user in todo;
      var entry := userProcs[user];
      PublishOne(st, userProcs, todo, user);
      SetOwner(reg, user, entry);
      stale := stale - {user};
      todo := todo - {user};
    }
    assert userProcs - {} == userProcs;
  }

  /** The three `set` calls for one owner: its count, rss and swap, overwriting what was there. */
  method SetOwner(reg: Registry, user: string, entry: ProcEntry)
    modifies reg
    ensures reg.State() == Gauges(old(reg.processes)[user := entry.count],
                                  old(reg.memory)[user := entry.rss],
                                  old(reg.swap)[user := entry.swap])
  {
    reg.Set(Processes, user, entry.count);
    reg.Set(Memory, user, entry.rss);
    reg.Set(Swap, user, entry.swap);
  }

  /**
   * The eviction loop: removes all three gauges of every name in `stale`,
   * ignoring whether each removal found its label set.
   */
  method EvictStale(reg: Registry, stale: set<string>)
    modifies reg
    ensures reg.State() == Evict(old(reg.State()), stale)
  {
    ghost var st := reg.State();
    var left := stale;
    assert Evict(st, {}) == st;
    while left != {}
      invariant left <= stale
      invariant reg.State() == Evict(st, stale - left)
      decreases left
    {
      var username :| username in left;
      EvictOne(st, stale, left, username);
      var _ := reg.Remove(Processes, username);
      var _ := reg.Remove(Memory, username);
      var _ := reg.Remove(Swap, username);
      left := left - {username};
    }
  }

  /**
   * One sampling cycle (`procs`): enumerate the processes and, if that
   * fails, return without touching the registry; otherwise aggregate the
   * snapshot and reconcile the registry against it.
   */
  method Procs(reg: Registry, listing: Result<seq<Listed>, ProcError>, resolve: Resolver)
    modifies reg
    ensures reg.State() == Cycle(old(reg.State()), listing, resolve)
    ensures listing.Failure? ==> reg.State() == old(reg.State())
  {
    var processes := GetAllProcs(listing);
    if processes.Failure? {
      return;
    }
    var userProcs := AggregateProcs(processes.value, resolve);
    Reconcile(reg, userProcs);
  }

  /**
   * The body of `run_forever`'s loop repeated once per listing: one cycle
   * after another on the same registry.
   */
  method RunCycles(reg: Registry, listings: seq<Result<seq<Listed>, ProcError>>, resolve: Resolver)
    modifies reg
    ensures reg.State() == Run(old(reg.State()), listings, resolve)
  {
    for i := 0 to |listings|
      invariant Run(reg.State(), listings[i..], resolve) == Run(old(reg.State()), listings, resolve)
    {
      assert listings[i..][1..] == listings[i + 1..];
      Procs(reg, listings[i], resolve);
    }
  }

  // ---- Properties of reconciliation ----

  /**
   * What one reconciliation does to any registry state: the process-count
   * gauge holds exactly the aggregate; the memory and swap gauges hold the
   * aggregate plus whatever labels they had that the process-count gauge
   * did not (the stale set is read from that gauge only).
   */
  lemma ReconcileAsWritten(st: Gauges, agg: map<string, ProcEntry>)
    ensures Reconciled(st, agg).processes == Published(agg, Processes)
    ensures forall g :: g != Processes ==>
      Reconciled(st, agg).Get(g) == (st.Get(g) - st.processes.Keys) + Published(agg, g)
  {
    EvictAfterOverride(st.processes, Published(agg, Processes), st.processes.Keys);
    assert st.processes - st.processes.Keys == map[];
    assert map[] + Published(agg, Processes) == Published(agg, Processes);
    EvictAfterOverride(st.memory, Published(agg, Memory), st.processes.Keys);
    EvictAfterOverride(st.swap, Published(agg, Swap), st.processes.Keys);
  }

  /** Evicting the previous keys that were not just written equals dropping all previous keys first. */
  lemma EvictAfterOverride(m: map<string, int>, p: map<string, int>, prev: set<string>)
    ensures (m + p) - (prev - p.Keys) == (m - prev) + p
  {
    var lhs := (m + p) - (prev - p.Keys);
    var rhs := (m - prev) + p;
    assert lhs.Keys == rhs.Keys;
  }

  /**
   * The key invariant: reconciling a registry whose three gauges share one
   * label set leaves each gauge with exactly the aggregate's owners and the
   * aggregate's values, and the three label sets still equal.
   */
  lemma ReconcileExact(st: Gauges, agg: map<string, ProcEntry>)
    requires Consistent(st)
    ensures forall g :: Reconciled(st, agg).Get(g) == Published(agg, g)
    ensures Consistent(Reconciled(st, agg))
  {
    ReconcileAsWritten(st, agg);
    assert st.memory - st.processes.Keys == map[];
    assert st.swap - st.processes.Keys == map[];
  }

  /** Every owner published before and absent now loses all three gauges. */
  lemma StaleEvicted(st: Gauges, agg: map<string, ProcEntry>, user: string)
    requires user in st.processes && user !in agg
    ensures forall g :: user !in Reconciled(st, agg).Get(g)
  {
    assert user in Stale(st, agg);
  }

  /** Every current owner holds its aggregate values on all three gauges, whatever was there before. */
  lemma PresentOverwritten(st: Gauges, agg: map<string, ProcEntry>, user: string)
    requires user in agg
    ensures forall g :: user in Reconciled(st, agg).Get(g) && Reconciled(st, agg).Get(g)[user] == Value(agg[user], g)
  {
    assert user !in Stale(st, agg);
  }

  /** Reconciling twice with the same aggregate leaves the state of reconciling once. */
  lemma ReconcileIdempotent(st: Gauges, agg: map<string, ProcEntry>)
    ensures Reconciled(Reconciled(st, agg), agg) == Reconciled(st, agg)
  {
    var once := Reconciled(st, agg);
    ReconcileAsWritten(st, agg);
    ReconcileAsWritten(once, agg);
    OverrideAgain(st.memory - st.processes.Keys, Published(agg, Memory));
    OverrideAgain(st.swap - st.processes.Keys, Published(agg, Swap));
  }

  /** Overriding with `p` after dropping `p`'s keys gives back the same map. */
  lemma OverrideAgain(m: map<string, int>, p: map<string, int>)
    ensures ((m + p) - p.Keys) + p == m + p
  {
    var lhs := ((m + p) - p.Keys) + p;
    assert lhs.Keys == (m + p).Keys;
  }

  // ---- Properties of a cycle ----

  /** A cycle whose enumeration fails leaves the registry as it was. */
  lemma CycleFailureKeeps(st: Gauges, listing: Result<seq<Listed>, ProcError>, resolve: Resolver)
    requires listing.Failure?
    ensures Cycle(st, listing, resolve) == st
  {
  }

  /**
   * After a successful cycle on a consistent registry, each gauge's label
   * set is exactly the set of owners of the readable processes, the count
   * gauge holds each owner's number of processes, and the memory and swap
   * gauges 1000 times the sums of its kB readings.
   */
  lemma CycleExact(st: Gauges, listing: Result<seq<Listed>, ProcError>, resolve: Resolver)
    requires Consistent(st) && listing.Success?
    ensures var ps := Readable(listing.value);
      var after := Cycle(st, listing, resolve);
      && after.processes.Keys == Owners(ps, resolve)
      && after.memory.Keys == Owners(ps, resolve)
      && after.swap.Keys == Owners(ps, resolve)
      && (forall u :: u in Owners(ps, resolve) ==>
            && after.processes[u] == CountOf(ps, resolve, u)
            && after.memory[u] == Scale * RssKb(ps, resolve, u)
            && after.swap[u] == Scale * SwapKb(ps, resolve, u))
  {
    var ps := Readable(listing.value);
    var agg := Aggregate(ps, resolve);
    AggregateCorrect(ps, resolve);
    ReconcileExact(st, agg);
    var after := Cycle(st, listing, resolve);
    assert after == Reconciled(st, agg);
    assert after.processes == Published(agg, Processes);
    assert after.memory == Published(agg, Memory);
    assert after.swap == Published(agg, Swap);
  }

  /** Every run of cycles keeps the three gauges' label sets equal. */
  lemma {:induction false} RunConsistent(st: Gauges, listings: seq<Result<seq<Listed>, ProcError>>, resolve: Resolver)
    requires Consistent(st)
    ensures Consistent(Run(st, listings, resolve))
    decreases listings
  {
    if listings != [] {
      var next := Cycle(st, listings[0], resolve);
      if listings[0].Success? {
        ReconcileExact(st, Aggregate(Readable(listings[0].value), resolve));
      }
      RunConsistent(next, listings[1..], resolve);
    }
  }

  /** A run ends with the cycle on its last listing. */
  lemma {:induction false} RunLast(st: Gauges, listings: seq<Result<seq<Listed>, ProcError>>, resolve: Resolver)
    requires listings != []
    ensures Run(st, listings, resolve) ==
      Cycle(Run(st, listings[..|listings| - 1], resolve), listings[|listings| - 1], resolve)
    decreases listings
  {
    if |listings| > 1 {
      var next := Cycle(st, listings[0], resolve);
      RunLast(next, listings[1..], resolve);
      assert listings[1..][..|listings| - 2] == listings[..|listings| - 1][1..];
    }
  }

  /**
   * Starting from the empty registry, after any run whose last cycle read
   * the process table, the registry holds exactly that cycle's owners on
   * every gauge; owners of earlier cycles have been evicted.
   */
  lemma RunFromEmptyExact(listings: seq<Result<seq<Listed>, ProcError>>, resolve: Resolver)
    requires listings != [] && listings[|listings| - 1].Success?
    ensures var ps := Readable(listings[|listings| - 1].value);
      forall g :: Run(Gauges(map[], map[], map[]), listings, resolve).Get(g).Keys == Owners(ps, resolve)
  {
    var empty := Gauges(map[], map[], map[]);
    var before := Run(empty, listings[..|listings| - 1], resolve);
    RunLast(empty, listings, resolve);
    RunConsistent(empty, listings[..|listings| - 1], resolve);
    CycleExact(before, listings[|listings| - 1], resolve);
  }

  /** Publishing one more owner is three `set` calls on top of what was published. */
  lemma PublishOne(st: Gauges, agg: map<string, ProcEntry>, todo: set<string>, user: string)
    requires user in todo && todo <= agg.Keys
    ensures var before := Publish(st, agg - todo);
      Publish(st, agg - (todo - {user})) ==
      Gauges(before.processes[user := agg[user].count],
             before.memory[user := agg[user].rss],
             before.swap[user := agg[user].swap])
  {
    PublishedOne(st.processes, agg, todo, user, Processes);
    PublishedOne(st.memory, agg, todo, user, Memory);
    PublishedOne(st.swap, agg, todo, user, Swap);
  }

  lemma PublishedOne(m: map<string, int>, agg: map<string, ProcEntry>, todo: set<string>, user: string, g: Gauge)
    requires user in todo && todo <= agg.Keys
    ensures m + Published(agg - (todo - {user}), g) == (m + Published(agg - todo, g))[user := Value(agg[user], g)]
  {
    var lhs := m + Published(agg - (todo - {user}), g);
    var rhs := (m + Published(agg - todo, g))[user := Value(agg[user], g)];
    assert lhs.Keys == rhs.Keys;
    forall k | k in lhs ensures lhs[k] == rhs[k] {
      if k != user && k in agg - todo {
        assert k in agg - (todo - {user});
      }
    }
  }

  /** Publishing the empty aggregate changes nothing. */
  lemma PublishNothing(st: Gauges)
    ensures Publish(st, map[]) == st
  {
    assert st.processes + map[] == st.processes;
    assert st.memory + map[] == st.memory;
    assert st.swap + map[] == st.swap;
  }

  /** Evicting one more owner is three removals on top of what was evicted. */
  lemma EvictOne(st: Gauges, stale: set<string>, left: set<string>, user: string)
    requires user in left && left <= stale
    ensures var before := Evict(st, stale - left);
      Evict(st, stale - (left - {user})) ==
      Gauges(before.processes - {user}, before.memory - {user}, before.swap - {user})
  {
    assert stale - (left - {user}) == (stale - left) + {user};
  }
}
