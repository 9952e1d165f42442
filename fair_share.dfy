/** The fair share of a service's scale per host, and the choice of the
    hosts to drain. */
module FairShare {
  import opened Records

  /** Go's integer division, which truncates toward zero. */
  function Quot(a: int, b: int): int
    requires b > 0
  {
    if a >= 0 then a / b else -((-a) / b)
  }

  /** Go's remainder, which takes the sign of the dividend. */
  function Rem(a: int, b: int): int
    requires b > 0
  {
    a - b * Quot(a, b)
  }

  /** The host count: the number of hosts the service's host label matches
      when that is not zero, else the number of hosts in its spread. */
  function NumHosts(matched: nat, spreadLen: nat): nat
  {
    if matched == 0 then spreadLen else matched
  }

  /** The Go quotient and remainder recompose the scale; the remainder is
      smaller than the host count in magnitude and has the scale's sign, so
      for a non-negative scale it lies in [0, numHosts) and the quotient is
      the floor. */
  lemma DivMod(scale: int, numHosts: int)
    requires numHosts > 0
    ensures scale == Quot(scale, numHosts) * numHosts + Rem(scale, numHosts)
    ensures -numHosts < Rem(scale, numHosts) < numHosts
    ensures scale >= 0 ==> 0 <= Rem(scale, numHosts) < numHosts && Quot(scale, numHosts) == scale / numHosts
    ensures scale < 0 ==> Rem(scale, numHosts) <= 0
  {
    if scale < 0 {
      var q := (-scale) / numHosts;
      assert -scale == q * numHosts + (-scale) % numHosts;
    }
  }

  /** The host count is zero only when no host matches and the spread is
      empty, and it never exceeds the larger of its two sources. */
  lemma HostCountZero(matched: nat, spreadLen: nat)
    ensures NumHosts(matched, spreadLen) == 0 <==> matched == 0 && spreadLen == 0
    ensures matched != 0 ==> NumHosts(matched, spreadLen) == matched
  {
  }

  /** A host to drain and the number of containers to delete on it. */
  datatype Target = Target(entry: Entry, toDelete: Pos)

  predicate OverScheduled(e: Entry, perHost: int)
  {
    e.count > perHost
  }

  /** An over-scheduled host that is only one over while the scale does not
      divide evenly: the scan accepts the imbalance and stops there. */
  predicate Tolerated(e: Entry, perHost: int, offset: int)
  {
    e.count > perHost && offset != 0 && e.count - perHost == 1
  }

  /** The plan loop: skip entries at or under the share, stop at the first
      tolerated entry, drain every other one by its excess. */
  function Plan(sp: seq<Entry>, perHost: int, offset: int): (r: seq<Target>)
    ensures |r| <= |sp|
    ensures forall k :: 0 <= k < |r| ==>
              r[k].toDelete == r[k].entry.count - perHost &&
              !(offset != 0 && r[k].toDelete == 1)
  {
    if sp == [] then []
    else if sp[0].count > perHost then
      if offset != 0 && sp[0].count - perHost == 1 then []
      else [Target(sp[0], sp[0].count - perHost)] + Plan(sp[1..], perHost, offset)
    else Plan(sp[1..], perHost, offset)
  }

  predicate NoneTolerated(sp: seq<Entry>, perHost: int, offset: int)
  {
    forall j :: 0 <= j < |sp| ==> !Tolerated(sp[j], perHost, offset)
  }

  /** Before any tolerated entry, the plan of a concatenation is the plan of
      its parts; a tolerated entry cuts the plan off. */
  lemma {:induction false} PlanAppend(a: seq<Entry>, b: seq<Entry>, perHost: int, offset: int)
    requires NoneTolerated(a, perHost, offset)
    ensures Plan(a + b, perHost, offset) == Plan(a, perHost, offset) + Plan(b, perHost, offset)
  {
    if a != [] {
      assert (a + b)[0] == a[0];
      assert (a + b)[1..] == a[1..] + b;
      PlanAppend(a[1..], b, perHost, offset);
    } else {
      assert a + b == b;
    }
  }

  /** An entry that is over-scheduled, not tolerated, and has no tolerated
      entry before it is drained by its excess. */
  lemma PlanDrains(sp: seq<Entry>, perHost: int, offset: int, i: nat)
    requires i < |sp|
    requires OverScheduled(sp[i], perHost) && !Tolerated(sp[i], perHost, offset)
    requires NoneTolerated(sp[..i], perHost, offset)
    ensures Target(sp[i], sp[i].count - perHost) in Plan(sp, perHost, offset)
  {
    PlanAppend(sp[..i], sp[i..], perHost, offset);
    assert sp[..i] + sp[i..] == sp;
    assert sp[i..][0] == sp[i];
  }

  /** Conversely, every drained entry is over-scheduled, not tolerated, and
      has no tolerated entry before it. */
  lemma {:induction false} PlanOnlyDrains(sp: seq<Entry>, perHost: int, offset: int, t: Target)
    requires t in Plan(sp, perHost, offset)
    ensures exists i :: 0 <= i < |sp| && sp[i] == t.entry && OverScheduled(sp[i], perHost) &&
                        !Tolerated(sp[i], perHost, offset) && NoneTolerated(sp[..i], perHost, offset)
  {
    var rest := Plan(sp[1..], perHost, offset);
    if OverScheduled(sp[0], perHost) && t == Target(sp[0], sp[0].count - perHost) {
      assert sp[..0] == [];
    } else {
      assert t in rest;
      PlanOnlyDrains(sp[1..], perHost, offset, t);
      var i :| 0 <= i < |sp[1..]| && sp[1..][i] == t.entry && OverScheduled(sp[1..][i], perHost) &&
               !Tolerated(sp[1..][i], perHost, offset) && NoneTolerated(sp[1..][..i], perHost, offset);
      assert sp[..i + 1] == [sp[0]] + sp[1..][..i];
      assert sp[i + 1] == t.entry;
    }
  }

  /** The first tolerated entry ends the scan: nothing after it is drained. */
  lemma PlanStops(a: seq<Entry>, e: Entry, b: seq<Entry>, perHost: int, offset: int)
    requires NoneTolerated(a, perHost, offset)
    requires Tolerated(e, perHost, offset)
    ensures Plan(a + [e] + b, perHost, offset) == Plan(a, perHost, offset)
  {
    PlanAppend(a, [e] + b, perHost, offset);
    assert a + [e] + b == a + ([e] + b);
  }

  /** Scenario: scale 10 over three hosts holding 4, 3 and 3. The share is 3
      with remainder 1, the first host is one over and tolerated, and no host
      is drained. */
  lemma ScenarioOddScale(h1: Entry, h2: Entry, h3: Entry)
    requires h1.count == 4 && h2.count == 3 && h3.count == 3
    ensures Quot(10, 3) == 3 && Rem(10, 3) == 1
    ensures Plan([h1, h2, h3], Quot(10, 3), Rem(10, 3)) == []
  {
  }

  /** Scenario: scale 9 over three hosts holding 5, 2 and 2. The share is 3
      with no remainder, and only the first host is drained, by 2. */
  lemma ScenarioEvenScale(h1: Entry, h2: Entry, h3: Entry)
    requires h1.count == 5 && h2.count == 2 && h3.count == 2
    ensures Quot(9, 3) == 3 && Rem(9, 3) == 0
    ensures Plan([h1, h2, h3], Quot(9, 3), Rem(9, 3)) == [Target(h1, 2)]
  {
    assert Quot(9, 3) == 3 && Rem(9, 3) == 0;
    assert Plan([h3], 3, 0) == [];
    assert Plan([h2, h3], 3, 0) == [];
    assert [h1, h2, h3][1..] == [h2, h3];
    assert [h2, h3][1..] == [h3];
    assert [h3][1..] == [];
  }
}
