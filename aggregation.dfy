/**
 * The aggregator: one pass over a snapshot that groups the process
 * records by owner name and sums, per owner, the number of processes, the
 * resident memory and the swap usage.
 */
module Aggregation {
  import opened Wrappers
  import opened Snapshot

  /** Per-owner totals of one cycle (the source's `ProcEntry`). */
  datatype ProcEntry = ProcEntry(count: nat, rss: nat, swap: nat)

  /** The identity resolver: uid to user name, `None` when the lookup fails. */
  type Resolver = nat -> Option<string>

  /** The bucket for every process whose uid cannot be resolved. */
  const Unknown: string := "unknown"

  /** kB values are multiplied by this factor before they are published. */
  const Scale: nat := 1000

  /** The owner name a record is attributed to. */
  function Username(resolve: Resolver, uid: nat): string
  {
    match resolve(uid)
    case Some(name) => name
    case None => Unknown
  }

  /** An optional kB reading as the amount added to an entry: absent counts as 0. */
  function Scaled(field: Option<nat>): nat
  {
    (match field
     case Some(x) => x
     case None => 0) * Scale
  }

  /** The entry `or_insert` yields for an owner, fresh or existing. */
  function EntryOf(m: map<string, ProcEntry>, user: string): ProcEntry
  {
    if user in m then m[user] else ProcEntry(0, 0, 0)
  }

  /** One iteration of the aggregation loop: attribute process `p` to its owner. */
  function Add(m: map<string, ProcEntry>, resolve: Resolver, p: ProcStatus): map<string, ProcEntry>
  {
    var user := Username(resolve, p.euid);
    var e := EntryOf(m, user);
    m[user := ProcEntry(e.count + 1, e.rss + Scaled(p.vmrss), e.swap + Scaled(p.vmswap))]
  }

  /** The map the aggregation loop has built after the records `ps`, in order. */
  function Aggregate(ps: seq<ProcStatus>, resolve: Resolver): map<string, ProcEntry>
  {
    if ps == [] then map[] else Add(Aggregate(ps[..|ps| - 1], resolve), resolve, ps[|ps| - 1])
  }

  // ---- Reference definitions, independent of the loop ----

  /** The distinct owner names of the snapshot. */
  function Owners(ps: seq<ProcStatus>, resolve: Resolver): set<string>
  {
    set i | 0 <= i < |ps| :: Username(resolve, ps[i].euid)
  }

  /** How many records are attributed to `user`. */
  function CountOf(ps: seq<ProcStatus>, resolve: Resolver, user: string): nat
  {
    if ps == [] then 0
    else CountOf(ps[1..], resolve, user) + (if Username(resolve, ps[0].euid) == user then 1 else 0)
  }

  /** The sum, in kB, of the resident memory of `user`'s records; absent readings add nothing. */
  function RssKb(ps: seq<ProcStatus>, resolve: Resolver, user: string): nat
  {
    if ps == [] then 0
    else RssKb(ps[1..], resolve, user) + (if Username(resolve, ps[0].euid) == user then ps[0].vmrss.GetOr(0) else 0)
  }

  /** The sum, in kB, of the swap usage of `user`'s records; absent readings add nothing. */
  function SwapKb(ps: seq<ProcStatus>, resolve: Resolver, user: string): nat
  {
    if ps == [] then 0
    else SwapKb(ps[1..], resolve, user) + (if Username(resolve, ps[0].euid) == user then ps[0].vmswap.GetOr(0) else 0)
  }

  /** How many records have a uid the resolver does not know. */
  function Unresolved(ps: seq<ProcStatus>, resolve: Resolver): nat
  {
    if ps == [] then 0
    else Unresolved(ps[1..], resolve) + (if resolve(ps[0].euid).None? then 1 else 0)
  }

  /** The sum of the process counts of all entries of a map. */
  ghost function TotalCount(m: map<string, ProcEntry>): nat
    decreases |m|
  {
    if m == map[] then 0
    else
      var k :| k in m;
      m[k].count + TotalCount(m - {k})
  }

  // ---- The loop itself ----

  /**
   * The aggregation loop of `procs`: builds the per-owner map by updating
   * one entry per record.
   */
  method AggregateProcs(processes: seq<ProcStatus>, resolve: Resolver) returns (userProcs: map<string, ProcEntry>)
    ensures userProcs == Aggregate(processes, resolve)
    ensures userProcs.Keys == Owners(processes, resolve)
    ensures forall user :: user in userProcs ==>
      userProcs[user] == ProcEntry(CountOf(processes, resolve, user),
                                   Scale * RssKb(processes, resolve, user),
                                   Scale * SwapKb(processes, resolve, user))
  {
    userProcs := map[];
    for i := 0 to |processes|
      invariant userProcs == Aggregate(processes[..i], resolve)
    {
      var process := processes[i];
      var username := Username(resolve, process.euid);
      var entry := if username in userProcs then userProcs[username] else ProcEntry(0, 0, 0);
      entry := entry.(count := entry.count + 1);
      entry := entry.(rss := entry.rss + Scaled(process.vmrss));
      entry := entry.(swap := entry.swap + Scaled(process.vmswap));
      userProcs := userProcs[username := entry];
      assert processes[..i + 1][..i] == processes[..i];
    }
    assert processes[..|processes|] == processes;
    AggregateCorrect(processes, resolve);
  }

  // ---- Properties ----

  /** Splitting off the last record, for the reference definitions that recurse on the first. */
  lemma {:induction false} CountsSnoc(ps: seq<ProcStatus>, p: ProcStatus, resolve: Resolver, user: string)
    ensures CountOf(ps + [p], resolve, user) == CountOf(ps, resolve, user) + (if Username(resolve, p.euid) == user then 1 else 0)
    ensures RssKb(ps + [p], resolve, user) == RssKb(ps, resolve, user) + (if Username(resolve, p.euid) == user then p.vmrss.GetOr(0) else 0)
    ensures SwapKb(ps + [p], resolve, user) == SwapKb(ps, resolve, user) + (if Username(resolve, p.euid) == user then p.vmswap.GetOr(0) else 0)
    ensures Unresolved(ps + [p], resolve) == Unresolved(ps, resolve) + (if resolve(p.euid).None? then 1 else 0)
  {
    if ps != [] {
      assert (ps + [p])[1..] == ps[1..] + [p];
      CountsSnoc(ps[1..], p, resolve, user);
    } else {
      assert [p][1..] == [];
    }
  }

  lemma OwnersSnoc(ps: seq<ProcStatus>, p: ProcStatus, resolve: Resolver)
    ensures Owners(ps + [p], resolve) == Owners(ps, resolve) + {Username(resolve, p.euid)}
  {
    var qs := ps + [p];
    forall u | u in Owners(qs, resolve) ensures u in Owners(ps, resolve) + {Username(resolve, p.euid)} {
      var i :| 0 <= i < |qs| && Username(resolve, qs[i].euid) == u;
      if i < |ps| { assert qs[i] == ps[i]; }
    }
    forall u | u in Owners(ps, resolve) ensures u in Owners(qs, resolve) {
      var i :| 0 <= i < |ps| && Username(resolve, ps[i].euid) == u;
      assert qs[i] == ps[i];
    }
    assert qs[|ps|] == p;
  }

  /**
   * The aggregate's keys are exactly the distinct resolved owner names, and
   * each entry holds that owner's process count and 1000 times the sums of
   * its resident memory and swap readings (absent readings adding 0).
   */
  lemma {:induction false} AggregateCorrect(ps: seq<ProcStatus>, resolve: Resolver)
    ensures Aggregate(ps, resolve).Keys == Owners(ps, resolve)
    ensures forall user :: user in Aggregate(ps, resolve) ==>
      Aggregate(ps, resolve)[user] == ProcEntry(CountOf(ps, resolve, user),
                                                Scale * RssKb(ps, resolve, user),
                                                Scale * SwapKb(ps, resolve, user))
  {
    if ps != [] {
      var init, p := ps[..|ps| - 1], ps[|ps| - 1];
      assert ps == init + [p];
      AggregateCorrect(init, resolve);
      OwnersSnoc(init, p, resolve);
      forall user | user in Aggregate(ps, resolve)
        ensures Aggregate(ps, resolve)[user] == ProcEntry(CountOf(ps, resolve, user),
                                                          Scale * RssKb(ps, resolve, user),
                                                          Scale * SwapKb(ps, resolve, user))
      {
        CountsSnoc(init, p, resolve, user);
        if user !in Aggregate(init, resolve) {
          NotOwnerZero(init, resolve, user);
        }
      }
    }
  }

  /** A name no record resolves to has no count and no memory. */
  lemma {:induction false} NotOwnerZero(ps: seq<ProcStatus>, resolve: Resolver, user: string)
    requires user !in Owners(ps, resolve)
    ensures CountOf(ps, resolve, user) == 0 && RssKb(ps, resolve, user) == 0 && SwapKb(ps, resolve, user) == 0
  {
    if ps != [] {
      assert Username(resolve, ps[0].euid) != user;
      assert Owners(ps[1..], resolve) <= Owners(ps, resolve) by {
        forall u | u in Owners(ps[1..], resolve) ensures u in Owners(ps, resolve) {
          var i :| 0 <= i < |ps[1..]| && Username(resolve, ps[1..][i].euid) == u;
          assert ps[1..][i] == ps[i + 1];
        }
      }
      NotOwnerZero(ps[1..], resolve, user);
    }
  }

  /** Removing one key from a map takes exactly that entry's count off the total. */
  lemma {:induction false} TotalCountRemove(m: map<string, ProcEntry>, k: string)
    requires k in m
    ensures TotalCount(m) == m[k].count + TotalCount(m - {k})
    decreases |m|
  {
    var j :| j in m && TotalCount(m) == m[j].count + TotalCount(m - {j});
    if j != k {
      var mj, mk := m - {j}, m - {k};
      assert |mj| == |m| - 1 && |mk| == |m| - 1;
      TotalCountRemove(mj, k);
      TotalCountRemove(mk, j);
      assert mj - {k} == mk - {j};
    }
  }

  /**
   * Count is conserved: the process counts of all owners add up to the
   * number of records, so every record lands in exactly one bucket.
   */
  lemma {:induction false} CountConserved(ps: seq<ProcStatus>, resolve: Resolver)
    ensures TotalCount(Aggregate(ps, resolve)) == |ps|
  {
    if ps != [] {
      var init, p := ps[..|ps| - 1], ps[|ps| - 1];
      var m := Aggregate(init, resolve);
      var user := Username(resolve, p.euid);
      var m' := Aggregate(ps, resolve);
      CountConserved(init, resolve);
      TotalCountRemove(m', user);
      assert m' - {user} == m - {user};
      if user in m {
        TotalCountRemove(m, user);
      } else {
        assert m - {user} == m;
      }
    }
  }

  /**
   * The unknown bucket: when some uid cannot be resolved there is a single
   * "unknown" entry holding at least all those records, and exactly those
   * when no user is actually named "unknown".
   */
  lemma {:induction false} UnknownBucket(ps: seq<ProcStatus>, resolve: Resolver)
    ensures Unresolved(ps, resolve) > 0 ==> Unknown in Aggregate(ps, resolve)
    ensures Unknown in Aggregate(ps, resolve) ==> Aggregate(ps, resolve)[Unknown].count >= Unresolved(ps, resolve)
    ensures (forall uid :: resolve(uid) != Some(Unknown)) && Unknown in Aggregate(ps, resolve) ==>
      Aggregate(ps, resolve)[Unknown].count == Unresolved(ps, resolve)
  {
    AggregateCorrect(ps, resolve);
    UnresolvedCounted(ps, resolve);
    if Unresolved(ps, resolve) > 0 {
      var i := UnresolvedWitness(ps, resolve);
      assert Username(resolve, ps[i].euid) == Unknown;
    }
  }

  lemma {:induction false} UnresolvedCounted(ps: seq<ProcStatus>, resolve: Resolver)
    ensures CountOf(ps, resolve, Unknown) >= Unresolved(ps, resolve)
    ensures (forall uid :: resolve(uid) != Some(Unknown)) ==> CountOf(ps, resolve, Unknown) == Unresolved(ps, resolve)
  {
    if ps != [] {
      UnresolvedCounted(ps[1..], resolve);
    }
  }

  lemma {:induction false} UnresolvedWitness(ps: seq<ProcStatus>, resolve: Resolver) returns (i: nat)
    requires Unresolved(ps, resolve) > 0
    ensures i < |ps| && resolve(ps[i].euid).None?
  {
    if resolve(ps[0].euid).None? {
      i := 0;
    } else {
      var j := UnresolvedWitness(ps[1..], resolve);
      i := j + 1;
    }
  }
}
