/** The spread of a service: one entry per host that runs at least one of
    its replicas, in the order the hosts are first seen, each holding the
    number and the ids of the replicas on that host. */
module Spread {
  import opened Records

  // ---------------------------------------------------------------------
  // The spread as a value, built one container at a time

  predicate HasHost(sp: seq<Entry>, h: string)
  {
    exists k :: 0 <= k < |sp| && sp[k].hostId == h
  }

  /** An entry after one more replica `id` is found on its host. */
  function Grow(e: Entry, id: string): Entry
  {
    e.(count := e.count + 1, containerIds := e.containerIds + [id])
  }

  /** Every entry for host `h` grows by replica `id` (the scan does not stop
      at the first matching entry). */
  function Bump(sp: seq<Entry>, h: string, id: string): seq<Entry>
  {
    seq(|sp|, k requires 0 <= k < |sp| => if sp[k].hostId == h then Grow(sp[k], id) else sp[k])
  }

  /** One step of the scan: grow the entries of the container's host, or add
      a new entry for it at the end. */
  function AddContainer(sp: seq<Entry>, c: Container): seq<Entry>
  {
    if HasHost(sp, c.hostId) then Bump(sp, c.hostId, c.id)
    else sp + [Entry(c.hostId, c.hostname, 1, [c.id])]
  }

  /** The spread of a container list. */
  function SpreadOf(cs: seq<Container>): seq<Entry>
  {
    if cs == [] then []
    else AddContainer(SpreadOf(cs[..|cs| - 1]), cs[|cs| - 1])
  }

  // ---------------------------------------------------------------------
  // Independent descriptions of what the spread should hold

  /** The ids of the containers on host `h`, in list order. */
  function IdsOn(cs: seq<Container>, h: string): seq<string>
  {
    if cs == [] then []
    else
      var last := cs[|cs| - 1];
      IdsOn(cs[..|cs| - 1], h) + (if last.hostId == h then [last.id] else [])
  }

  /** The host ids of a container list with repeats dropped, each host kept
      where it first occurs. */
  function FirstSeen(xs: seq<string>): seq<string>
  {
    if xs == [] then []
    else
      var d := FirstSeen(xs[..|xs| - 1]);
      if xs[|xs| - 1] in d then d else d + [xs[|xs| - 1]]
  }

  function HostIds(cs: seq<Container>): seq<string>
  {
    seq(|cs|, k requires 0 <= k < |cs| => cs[k].hostId)
  }

  function Hosts(sp: seq<Entry>): seq<string>
  {
    seq(|sp|, k requires 0 <= k < |sp| => sp[k].hostId)
  }

  /** The hostname of the first container on host `h`, or "" if none. */
  function FirstHostname(cs: seq<Container>, h: string): string
  {
    if cs == [] then ""
    else
      var init := cs[..|cs| - 1];
      if h in HostIds(init) then FirstHostname(init, h)
      else if cs[|cs| - 1].hostId == h then cs[|cs| - 1].hostname
      else ""
  }

  /** The sum of the entries' counts. */
  function Total(sp: seq<Entry>): int
  {
    if sp == [] then 0 else Total(sp[..|sp| - 1]) + sp[|sp| - 1].count
  }

  /** The number of entries for host `h`. */
  function Matches(sp: seq<Entry>, h: string): nat
  {
    if sp == [] then 0 else Matches(sp[..|sp| - 1], h) + (if sp[|sp| - 1].hostId == h then 1 else 0)
  }

  predicate DistinctHosts(sp: seq<Entry>)
  {
    forall i, j :: 0 <= i < j < |sp| ==> sp[i].hostId != sp[j].hostId
  }

  /** What the spread of `cs` promises: distinct hosts, each entry's count is
      the length of its id list, that list is exactly the ids of the
      containers on its host in list order, and every container's host has
      an entry. */
  predicate Describes(sp: seq<Entry>, cs: seq<Container>)
  {
    DistinctHosts(sp) &&
    (forall i :: 0 <= i < |sp| ==> sp[i].count == |sp[i].containerIds|) &&
    (forall i :: 0 <= i < |sp| ==> sp[i].containerIds == IdsOn(cs, sp[i].hostId)) &&
    (forall k :: 0 <= k < |cs| ==> HasHost(sp, cs[k].hostId))
  }

  // ---------------------------------------------------------------------
  // Lemmas

  lemma {:induction false} IdsOnAbsent(cs: seq<Container>, h: string)
    requires forall k :: 0 <= k < |cs| ==> cs[k].hostId != h
    ensures IdsOn(cs, h) == []
  {
    if cs != [] {
      IdsOnAbsent(cs[..|cs| - 1], h);
    }
  }

  /** After one step every container seen so far still has an entry. */
  lemma AddContainerCovers(sp: seq<Entry>, cs: seq<Container>, c: Container)
    requires forall k :: 0 <= k < |cs| ==> HasHost(sp, cs[k].hostId)
    ensures forall k :: 0 <= k < |cs + [c]| ==> HasHost(AddContainer(sp, c), (cs + [c])[k].hostId)
  {
    var cs' := cs + [c];
    var r := AddContainer(sp, c);
    forall k | 0 <= k < |cs'|
      ensures HasHost(r, cs'[k].hostId)
    {
      if k < |cs| {
        assert cs'[k] == cs[k];
        var i :| 0 <= i < |sp| && sp[i].hostId == cs[k].hostId;
        assert r[i].hostId == sp[i].hostId;
      } else if HasHost(sp, c.hostId) {
        var i :| 0 <= i < |sp| && sp[i].hostId == c.hostId;
        assert r[i].hostId == c.hostId;
      } else {
        assert r[|sp|].hostId == c.hostId;
      }
    }
  }

  lemma IdsOnSnoc(cs: seq<Container>, c: Container, h: string)
    ensures IdsOn(cs + [c], h) == IdsOn(cs, h) + (if c.hostId == h then [c.id] else [])
  {
    assert (cs + [c])[..|cs + [c]| - 1] == cs;
  }

  /** A container on a host already in the spread grows that host's entry. */
  lemma BumpDescribes(sp: seq<Entry>, cs: seq<Container>, c: Container)
    requires Describes(sp, cs) && HasHost(sp, c.hostId)
    ensures Describes(Bump(sp, c.hostId, c.id), cs + [c])
  {
    var r := Bump(sp, c.hostId, c.id);
    forall i | 0 <= i < |r|
      ensures r[i].count == |r[i].containerIds| && r[i].containerIds == IdsOn(cs + [c], r[i].hostId)
    {
      IdsOnSnoc(cs, c, sp[i].hostId);
    }
    AddContainerCovers(sp, cs, c);
  }

  /** A container on a new host adds an entry at the end. */
  lemma AppendDescribes(sp: seq<Entry>, cs: seq<Container>, c: Container)
    requires Describes(sp, cs) && !HasHost(sp, c.hostId)
    ensures Describes(sp + [Entry(c.hostId, c.hostname, 1, [c.id])], cs + [c])
  {
    var r := sp + [Entry(c.hostId, c.hostname, 1, [c.id])];
    assert forall k :: 0 <= k < |cs| ==> cs[k].hostId != c.hostId;
    IdsOnAbsent(cs, c.hostId);
    forall i | 0 <= i < |r|
      ensures r[i].count == |r[i].containerIds| && r[i].containerIds == IdsOn(cs + [c], r[i].hostId)
    {
      IdsOnSnoc(cs, c, r[i].hostId);
    }
    AddContainerCovers(sp, cs, c);
  }

  lemma AddContainerDescribes(sp: seq<Entry>, cs: seq<Container>, c: Container)
    requires Describes(sp, cs)
    ensures Describes(AddContainer(sp, c), cs + [c])
  {
    if HasHost(sp, c.hostId) {
      BumpDescribes(sp, cs, c);
    } else {
      AppendDescribes(sp, cs, c);
    }
  }

  /** The spread meets its description. */
  lemma {:induction false} SpreadDescribes(cs: seq<Container>)
    ensures Describes(SpreadOf(cs), cs)
  {
    if cs != [] {
      var init := cs[..|cs| - 1];
      SpreadDescribes(init);
      AddContainerDescribes(SpreadOf(init), init, cs[|cs| - 1]);
      assert init + [cs[|cs| - 1]] == cs;
    }
  }

  lemma FirstSeenHas(xs: seq<string>, x: string)
    ensures x in FirstSeen(xs) <==> x in xs
  {
    if xs != [] {
      var init := xs[..|xs| - 1];
      FirstSeenHas(init, x);
      assert xs == init + [xs[|xs| - 1]];
    }
  }

  /** The spread's hosts are the containers' hosts in first-seen order. */
  lemma {:induction false} SpreadOrder(cs: seq<Container>)
    ensures Hosts(SpreadOf(cs)) == FirstSeen(HostIds(cs))
  {
    if cs != [] {
      var init := cs[..|cs| - 1];
      var c := cs[|cs| - 1];
      var sp := SpreadOf(init);
      SpreadOrder(init);
      assert HostIds(cs)[..|cs| - 1] == HostIds(init);
      FirstSeenHas(HostIds(init), c.hostId);
      if HasHost(sp, c.hostId) {
        var i :| 0 <= i < |sp| && sp[i].hostId == c.hostId;
        assert Hosts(sp)[i] == c.hostId;
        assert Hosts(Bump(sp, c.hostId, c.id)) == Hosts(sp);
      } else {
        assert c.hostId !in Hosts(sp);
        assert Hosts(sp + [Entry(c.hostId, c.hostname, 1, [c.id])]) == Hosts(sp) + [c.hostId];
      }
    }
  }

  /** Each entry carries the hostname of the first container seen on its
      host. */
  lemma {:induction false} SpreadHostnames(cs: seq<Container>)
    ensures forall i :: 0 <= i < |SpreadOf(cs)| ==>
              SpreadOf(cs)[i].hostname == FirstHostname(cs, SpreadOf(cs)[i].hostId)
  {
    if cs != [] {
      var init := cs[..|cs| - 1];
      var c := cs[|cs| - 1];
      var sp := SpreadOf(init);
      SpreadHostnames(init);
      SpreadOrder(init);
      forall i | 0 <= i < |sp|
        ensures FirstHostname(cs, sp[i].hostId) == sp[i].hostname
      {
        assert Hosts(sp)[i] == sp[i].hostId;
        FirstSeenHas(HostIds(init), sp[i].hostId);
      }
      if !HasHost(sp, c.hostId) {
        FirstSeenHas(HostIds(init), c.hostId);
        assert c.hostId !in Hosts(sp);
      }
    }
  }

  lemma {:induction false} TotalBump(sp: seq<Entry>, h: string, id: string)
    ensures Total(Bump(sp, h, id)) == Total(sp) + Matches(sp, h)
  {
    if sp != [] {
      var init := sp[..|sp| - 1];
      assert Bump(sp, h, id)[..|sp| - 1] == Bump(init, h, id);
      TotalBump(init, h, id);
    }
  }

  lemma {:induction false} MatchesDistinct(sp: seq<Entry>, h: string)
    requires DistinctHosts(sp)
    ensures Matches(sp, h) == if HasHost(sp, h) then 1 else 0
  {
    if sp != [] {
      var init := sp[..|sp| - 1];
      MatchesDistinct(init, h);
      if sp[|sp| - 1].hostId == h {
        assert !HasHost(init, h);
      } else if HasHost(sp, h) {
        var i :| 0 <= i < |sp| && sp[i].hostId == h;
        assert init[i].hostId == h;
      }
    }
  }

  /** The counts add up to the number of containers. */
  lemma {:induction false} SpreadTotal(cs: seq<Container>)
    ensures Total(SpreadOf(cs)) == |cs|
  {
    if cs != [] {
      var init := cs[..|cs| - 1];
      var c := cs[|cs| - 1];
      var sp := SpreadOf(init);
      SpreadTotal(init);
      if HasHost(sp, c.hostId) {
        SpreadDescribes(init);
        TotalBump(sp, c.hostId, c.id);
        MatchesDistinct(sp, c.hostId);
      } else {
        var sp' := sp + [Entry(c.hostId, c.hostname, 1, [c.id])];
        assert sp'[..|sp'| - 1] == sp;
      }
    }
  }

  /** The spread of one more container of the list. */
  lemma SpreadOfStep(cs: seq<Container>, i: nat)
    requires i < |cs|
    ensures SpreadOf(cs[..i + 1]) == AddContainer(SpreadOf(cs[..i]), cs[i])
  {
    assert cs[..i + 1][..i] == cs[..i];
  }

  // ---------------------------------------------------------------------
  // The spread as the program builds it: a list of entry objects that the
  // scan updates in place

  class HostContainerCount {
    var hostId: string
    var hostname: string
    var count: int
    var containerIds: seq<string>

    constructor (hostId: string, hostname: string, id: string)
      ensures View() == Entry(hostId, hostname, 1, [id])
    {
      this.hostId := hostId;
      this.hostname := hostname;
      this.count := 1;
      this.containerIds := [id];
    }

    function View(): Entry
      reads this
    {
      Entry(hostId, hostname, count, containerIds)
    }
  }

  /** The values the entry objects currently hold. */
  function Snapshot(spread: seq<HostContainerCount>): seq<Entry>
    reads spread
  {
    seq(|spread|, k requires 0 <= k < |spread| reads spread => spread[k].View())
  }

  /** The inner scan for one container: every entry for its host grows by
      one replica; `found` says whether there was one. */
  method GrowHost(spread: seq<HostContainerCount>, v: Container) returns (found: bool)
    requires forall a, b :: 0 <= a < b < |spread| ==> spread[a] != spread[b]
    modifies spread
    ensures found == HasHost(old(Snapshot(spread)), v.hostId)
    ensures Snapshot(spread) == if found then Bump(old(Snapshot(spread)), v.hostId, v.id)
                                else old(Snapshot(spread))
  {
    ghost var before := Snapshot(spread);
    found := false;
    var j := 0;
    while j < |spread|
      invariant 0 <= j <= |spread|
      invariant forall k :: 0 <= k < j ==>
                  spread[k].View() == if before[k].hostId == v.hostId then Grow(before[k], v.id) else before[k]
      invariant forall k :: j <= k < |spread| ==> spread[k].View() == before[k]
      invariant found <==> exists k :: 0 <= k < j && before[k].hostId == v.hostId
    {
      var x := spread[j];
      if x.hostId == v.hostId {
        x.count := x.count + 1;
        x.containerIds := x.containerIds + [v.id];
        found := true;
      }
      j := j + 1;
    }
  }

  /** The nested scan: for each container, every entry for its host grows;
      when there is none, a new entry is appended. */
  method ComputeSpread(containers: seq<Container>) returns (spread: seq<HostContainerCount>)
    ensures forall k :: 0 <= k < |spread| ==> fresh(spread[k])
    ensures forall a, b :: 0 <= a < b < |spread| ==> spread[a] != spread[b]
    ensures Snapshot(spread) == SpreadOf(containers)
  {
    spread := [];
    var i := 0;
    while i < |containers|
      invariant 0 <= i <= |containers|
      invariant forall k :: 0 <= k < |spread| ==> fresh(spread[k])
      invariant forall a, b :: 0 <= a < b < |spread| ==> spread[a] != spread[b]
      invariant Snapshot(spread) == SpreadOf(containers[..i])
    {
      var v := containers[i];
      ghost var before := Snapshot(spread);
      SpreadOfStep(containers, i);
      var found := GrowHost(spread, v);
      if !found {
        var c := new HostContainerCount(v.hostId, v.hostname, v.id);
        spread := spread + [c];
        assert Snapshot(spread) == before + [c.View()];
      }
      i := i + 1;
    }
    assert containers[..i] == containers;
  }
}
