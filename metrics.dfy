/**
 * The metrics registry: the three integer gauges `node_user_processes`,
 * `node_user_processes_rss` and `node_user_processes_swap`, each labelled
 * by (job, hostgroup, instance, username).  The first three labels are the
 * same for the whole life of the agent, so a gauge is a map from user
 * name to its current value.
 */
module Metrics {

  /** Which of the three gauges an operation addresses. */
  datatype Gauge = Processes | Memory | Swap

  /** The value of all three gauges at one moment. */
  datatype Gauges = Gauges(processes: map<string, int>, memory: map<string, int>, swap: map<string, int>) {

    function Get(g: Gauge): map<string, int>
    {
      match g
      case Processes => processes
      case Memory => memory
      case Swap => swap
    }
  }

  /** The three gauges carry the same label sets. */
  predicate Consistent(st: Gauges)
  {
    st.memory.Keys == st.processes.Keys && st.swap.Keys == st.processes.Keys
  }

  /** The registry, updated in place by each sampling cycle. */
  class Registry {
    var processes: map<string, int>
    var memory: map<string, int>
    var swap: map<string, int>

    function State(): Gauges
      reads this
    {
      Gauges(processes, memory, swap)
    }

    /** A registry in which nothing has been published yet. */
    constructor ()
      ensures State() == Gauges(map[], map[], map[])
      ensures Consistent(State())
    {
      processes, memory, swap := map[], map[], map[];
    }

    /**
     * The user names under which gauge `g` currently has a value: the last
     * label of every metric the gauge collects.
     */
    function Labels(g: Gauge): (users: set<string>)
      reads this
      ensures forall u :: u in users <==> u in State().Get(g)
    {
      State().Get(g).Keys
    }

    /** `with_label_values(..).set(value)`: creates the label set or overwrites its value. */
    method Set(g: Gauge, user: string, value: int)
      modifies this
      ensures processes == if g == Processes then old(processes)[user := value] else old(processes)
      ensures memory == if g == Memory then old(memory)[user := value] else old(memory)
      ensures swap == if g == Swap then old(swap)[user := value] else old(swap)
    {
      match g
      case Processes => processes := processes[user := value];
      case Memory => memory := memory[user := value];
      case Swap => swap := swap[user := value];
    }

    /**
     * `remove_label_values`: deletes the label set; `removed` is false, and
     * nothing changes, when it was not there.
     */
    method Remove(g: Gauge, user: string) returns (removed: bool)
      modifies this
      ensures removed == (user in old(State()).Get(g))
      ensures processes == if g == Processes then old(processes) - {user} else old(processes)
      ensures memory == if g == Memory then old(memory) - {user} else old(memory)
      ensures swap == if g == Swap then old(swap) - {user} else old(swap)
      ensures !removed ==> State() == old(State())
    {
      removed := user in State().Get(g);
      match g
      case Processes => processes := processes - {user};
      case Memory => memory := memory - {user};
      case Swap => swap := swap - {user};
    }
  }
}
