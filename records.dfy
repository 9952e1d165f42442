/** The records the rebalancer reads from the platform and the actions it
    performs on it. The platform client itself is replaced by `Platform`, a
    record of the answers its queries give, and every mutating call becomes
    an `Event` appended to a trace. */
module Records {

  /** A number of containers to delete: drains only happen for a host that
      is over its share, so at least one. */
  type Pos = x: int | x >= 1 witness 1

  /** A replica as returned by the container listing: its id and the host
      it currently runs on. */
  datatype Container = Container(id: string, hostId: string, hostname: string)

  /** A service snapshot. `labels` are the launch-config labels (all values
      are strings here); `containers` is what listing the service's instance
      ids returns; `stackName` is what resolving its stack id returns. */
  datatype Service = Service(
    name: string,
    stackName: string,
    state: string,
    scale: int,
    labels: map<string, string>,
    containers: seq<Container>)

  /** A spread entry as a value: one host and the service's replicas on it. */
  datatype Entry = Entry(hostId: string, hostname: string, count: int, containerIds: seq<string>)

  /** What the platform answers. `hostsWithLabel(l)` is the number of hosts
      the host listing returns for label `l`; `hostFound(id)` says whether
      looking a host up by id succeeds, `hostname(id)` is the name of the
      host found; `containerName(id)` is the name of the container looked up
      by id; `deleteSucceeds(id)` says whether deleting it succeeds. */
  datatype Platform = Platform(
    hostsWithLabel: string -> nat,
    hostFound: string -> bool,
    hostname: string -> string,
    containerName: string -> string,
    deleteSucceeds: string -> bool)

  /** The fields of the chat notification sent after draining one host. */
  datatype Notification = Notification(
    channel: string,
    service: string,
    host: string,
    scale: int,
    hostCount: int,
    rescheduled: int,
    deletedContainers: string)

  /** A call that changes the platform or the outside world. */
  datatype Event =
    | Deactivate(hostId: string)
    | Delete(containerId: string, succeeded: bool)
    | Sleep(seconds: nat)
    | Activate(hostId: string)
    | Notify(note: Notification)

  /** How a pass over one service, or over all of them, ended. A failed host
      lookup before a drain ends the whole pass; a host count of zero is an
      integer division by zero, a run-time panic, and ends it too. */
  datatype Status = Completed | HostLookupFailed(hostId: string) | DivideByZero(service: string)

  /** The trace of one service or one pass and how it ended. */
  datatype Outcome = Outcome(events: seq<Event>, status: Status)

  /** Steps run one after the other: the first step that does not complete
      ends the sequence with its own events and status. */
  function Chain(steps: seq<Outcome>): Outcome
  {
    if steps == [] then Outcome([], Completed)
    else if steps[0].status != Completed then steps[0]
    else
      var rest := Chain(steps[1..]);
      Outcome(steps[0].events + rest.events, rest.status)
  }

  /** Running two sequences of steps one after the other: the second runs
      only if the first completed. */
  lemma {:induction false} ChainAppend(a: seq<Outcome>, b: seq<Outcome>)
    ensures Chain(a).status != Completed ==> Chain(a + b) == Chain(a)
    ensures Chain(a).status == Completed ==>
              Chain(a + b) == Outcome(Chain(a).events + Chain(b).events, Chain(b).status)
  {
    if a == [] {
      assert a + b == b;
    } else {
      assert (a + b)[0] == a[0];
      assert (a + b)[1..] == a[1..] + b;
      ChainAppend(a[1..], b);
    }
  }

  /** The ids of the containers a trace deletes, in order. */
  function Deleted(events: seq<Event>): (ids: seq<string>)
    ensures |ids| <= |events|
  {
    if events == [] then []
    else
      var last := events[|events| - 1];
      Deleted(events[..|events| - 1]) + (if last.Delete? then [last.containerId] else [])
  }

  /** Deleted distributes over concatenation of traces. */
  lemma {:induction false} DeletedAppend(a: seq<Event>, b: seq<Event>)
    ensures Deleted(a + b) == Deleted(a) + Deleted(b)
    decreases |b|
  {
    if b == [] {
      assert a + b == a;
    } else {
      var b' := b[..|b| - 1];
      assert (a + b)[..|a + b| - 1] == a + b';
      DeletedAppend(a, b');
    }
  }
}
