/** Which services are left alone, and the host-affinity label a service
    declares for counting the hosts it may run on. */
module Exclusion {
  import opened Records

  const GlobalKey := "io.rancher.scheduler.global"
  const AffinityKey := "io.rancher.scheduler.affinity:host_label"

  /** Inactive, single-replica and globally scheduled services are excluded. */
  predicate Excluded(s: Service)
  {
    s.state == "inactive" || s.scale == 1 || (GlobalKey in s.labels && s.labels[GlobalKey] == "true")
  }

  /** The affinity label's value, or "" when the service declares none. */
  function HostLabel(s: Service): string
  {
    if AffinityKey in s.labels then s.labels[AffinityKey] else ""
  }

  /** The exclusion checks and the label scan, which visits the labels in
      the map's unspecified order. */
  method ScanService(s: Service) returns (excluded: bool, hostLabel: string)
    ensures excluded <==> s.state == "inactive" || s.scale == 1 ||
                          (GlobalKey in s.labels && s.labels[GlobalKey] == "true")
    ensures AffinityKey in s.labels ==> hostLabel == s.labels[AffinityKey]
    ensures AffinityKey !in s.labels ==> hostLabel == ""
  {
    excluded := false;
    hostLabel := "";
    if s.state == "inactive" {
      excluded := true;
    }
    if s.scale == 1 {
      excluded := true;
    }
    var rest := s.labels.Keys;
    while rest != {}
      invariant rest <= s.labels.Keys
      invariant excluded <==> s.state == "inactive" || s.scale == 1 ||
                              (GlobalKey in s.labels && GlobalKey !in rest && s.labels[GlobalKey] == "true")
      invariant hostLabel == if AffinityKey in s.labels && AffinityKey !in rest then s.labels[AffinityKey] else ""
      decreases rest
    {
      var k :| k in rest;
      var v := s.labels[k];
      if k == GlobalKey && v == "true" {
        excluded := true;
      } else if k == AffinityKey {
        hostLabel := v;
      }
      rest := rest - {k};
    }
  }
}
