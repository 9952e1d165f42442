/** The label filter: with a `key=value` filter, only the services whose
    launch-config labels hold that exact pair are kept, in their order. */
module LabelFilter {
  import opened Records
  import Text

  /** The key of a filter: the text before its first `=`. */
  function FilterKey(filter: string): string
    requires '=' in filter
  {
    Text.Split(filter, '=')[0]
  }

  /** The value of a filter: the second `=`-separated segment, so that
      `a=b=c` looks for key `a` with value `b`. */
  function FilterValue(filter: string): string
    requires '=' in filter
  {
    Text.Split(filter, '=')[1]
  }

  predicate HasLabel(s: Service, key: string, value: string)
  {
    key in s.labels && s.labels[key] == value
  }

  /** The services of `cs` that carry the label `key` = `value`, in order. */
  function Selected(cs: seq<Service>, key: string, value: string): (r: seq<Service>)
    ensures |r| <= |cs|
  {
    if cs == [] then []
    else
      var last := cs[|cs| - 1];
      Selected(cs[..|cs| - 1], key, value) + (if HasLabel(last, key, value) then [last] else [])
  }

  /** The filter loop: for each service, scan its labels (in the map's
      unspecified order) and keep the service at the first matching pair. An
      empty filter keeps the collection as it is. */
  method SelectByLabel(collection: seq<Service>, filter: string) returns (services: seq<Service>)
    requires filter != "" ==> '=' in filter
    ensures filter == "" ==> services == collection
    ensures filter != "" ==> services == Selected(collection, FilterKey(filter), FilterValue(filter))
  {
    if |filter| == 0 {
      return collection;
    }
    var parts := Text.Split(filter, '=');
    var key, value := parts[0], parts[1];
    services := [];
    var i := 0;
    while i < |collection|
      invariant 0 <= i <= |collection|
      invariant services == Selected(collection[..i], key, value)
    {
      var s := collection[i];
      var rest := s.labels.Keys;
      var kept := false;
      while rest != {}
        invariant rest <= s.labels.Keys
        invariant !kept
        invariant forall k :: k in s.labels && k !in rest ==> !(k == key && s.labels[k] == value)
        invariant services == Selected(collection[..i], key, value)
        decreases rest
      {
        var k :| k in rest;
        if k == key && s.labels[k] == value {
          services := services + [s];
          kept := true;
          break;
        }
        rest := rest - {k};
      }
      assert kept <==> HasLabel(s, key, value);
      assert collection[..i + 1][..i] == collection[..i];
      if !kept {
        assert services == Selected(collection[..i + 1], key, value);
      }
      i := i + 1;
    }
    assert collection[..i] == collection;
  }

  /** The kept services are exactly the labelled members of the collection. */
  lemma {:induction false} SelectedMembers(cs: seq<Service>, key: string, value: string, x: Service)
    ensures x in Selected(cs, key, value) <==> x in cs && HasLabel(x, key, value)
  {
    if cs != [] {
      var init := cs[..|cs| - 1];
      SelectedMembers(init, key, value, x);
      assert cs == init + [cs[|cs| - 1]];
    }
  }

  /** Filtering a concatenation filters each part: the order of the kept
      services is the order of the collection. */
  lemma {:induction false} SelectedAppend(a: seq<Service>, b: seq<Service>, key: string, value: string)
    ensures Selected(a + b, key, value) == Selected(a, key, value) + Selected(b, key, value)
    decreases |b|
  {
    if b == [] {
      assert a + b == a;
    } else {
      var b' := b[..|b| - 1];
      assert (a + b)[..|a + b| - 1] == a + b';
      SelectedAppend(a, b', key, value);
    }
  }

  /** Each occurrence of a labelled service is kept once, and an unlabelled
      one not at all. */
  lemma {:induction false} SelectedMultiplicity(cs: seq<Service>, key: string, value: string, x: Service)
    ensures multiset(Selected(cs, key, value))[x] == if HasLabel(x, key, value) then multiset(cs)[x] else 0
  {
    if cs != [] {
      var init := cs[..|cs| - 1];
      SelectedMultiplicity(init, key, value, x);
      assert cs == init + [cs[|cs| - 1]];
    }
  }

  /** The key is the text before the first `=`, and the value is the text
      after it up to the next `=` or the end. */
  lemma FilterParts(filter: string)
    requires '=' in filter
    ensures var i := Text.FirstIndex(filter, '=');
            var after := filter[i + 1..];
            FilterKey(filter) == filter[..i] &&
            FilterValue(filter) == if '=' in after then after[..Text.FirstIndex(after, '=')] else after
  {
    var i := Text.FirstIndex(filter, '=');
    var after := filter[i + 1..];
    var rest := Text.Split(after, '=');
    assert Text.Split(filter, '=') == [filter[..i]] + rest;
    if '=' in after {
      var j := Text.FirstIndex(after, '=');
      assert rest == [after[..j]] + Text.Split(after[j + 1..], '=');
    } else {
      assert rest == [after];
    }
  }
}
