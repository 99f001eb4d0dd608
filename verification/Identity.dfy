/** Devices that present the same keys: grouping through maps walked in any order, and the hints shown for the groups. */
module Identity {
  import opened Text
  import opened Fingerprints
  import opened RowText
  import opened Sets

  type Device = seq<Fingerprint>

  /** The fingerprint values of one kind, in order. */
  function Values(device: Device, kind: string): seq<string> {
    if device == [] then []
    else
      var n := |device| - 1;
      Values(device[..n], kind) + (if device[n].kind == kind then [device[n].value] else [])
  }

  /** `index`, once for every occurrence of a value. */
  function Copies(values: seq<string>, value: string, index: nat): seq<nat> {
    if values == [] then []
    else
      var n := |values| - 1;
      Copies(values[..n], value, index) + (if values[n] == value then [index] else [])
  }

  /** The devices that present a value, by index. */
  function Members(devices: seq<Device>, kind: string, value: string): seq<nat> {
    if devices == [] then []
    else
      var n := |devices| - 1;
      Members(devices[..n], kind, value) + Copies(Values(devices[n], kind), value, n)
  }

  lemma ValuesOfMore(device: Device, kind: string, j: nat)
    requires j < |device|
    ensures Values(device[..j + 1], kind) ==
            if device[j].kind == kind then Values(device[..j], kind) + [device[j].value] else Values(device[..j], kind)
  {
    assert device[..j + 1][..j] == device[..j];
  }

  lemma CopiesOfMore(values: seq<string>, last: string, value: string, index: nat)
    ensures Copies(values + [last], value, index) == Copies(values, value, index) + (if last == value then [index] else [])
  {
    assert (values + [last])[..|values|] == values;
  }

  lemma MembersOfMore(devices: seq<Device>, kind: string, value: string, i: nat)
    requires i < |devices|
    ensures Members(devices[..i + 1], kind, value) == Members(devices[..i], kind, value) + Copies(Values(devices[i], kind), value, i)
  {
    hide Copies, Values;
    assert devices[..i + 1][..i] == devices[..i];
  }

  lemma {:induction false} CopiesSpec(values: seq<string>, value: string, index: nat)
    ensures |Copies(values, value, index)| <= |values|
    ensures forall k :: k in Copies(values, value, index) <==> k == index && value in values
  {
    if values != [] {
      var n := |values| - 1;
      assert values == values[..n] + [values[n]];
      CopiesSpec(values[..n], value, index);
    }
  }

  lemma {:induction false} MembersSpec(devices: seq<Device>, kind: string, value: string)
    ensures forall k :: k in Members(devices, kind, value) <==> 0 <= k < |devices| && value in Values(devices[k], kind)
    ensures forall g :: 0 <= g < |Members(devices, kind, value)| ==> Members(devices, kind, value)[g] in Members(devices, kind, value)
  {
    hide Copies, Values;
    if devices != [] {
      var n := |devices| - 1;
      assert devices == devices[..n] + [devices[n]];
      MembersSpec(devices[..n], kind, value);
      CopiesSpec(Values(devices[n], kind), value, n);
    }
  }

  predicate IsKind(kind: string) { kind == SSH || kind == TLS }

  /** What the probes produce: at most one fingerprint of each kind per device. */
  ghost predicate OneEach(devices: seq<Device>) {
    forall i, kind :: 0 <= i < |devices| && IsKind(kind) ==> |Values(devices[i], kind)| <= 1
  }

  function KeyOf(device: Device, kind: string): Option<string> {
    var values := Values(device, kind);
    if values == [] then None else Some(values[0])
  }

  // ---------- groups ----------

  predicate InRange(devices: seq<Device>, group: seq<nat>) { forall k :: k in group ==> k < |devices| }

  /** A list of groups that sorting by smallest member may produce, whatever order the map of values was walked in. */
  ghost predicate Arranged(devices: seq<Device>, kind: string, values: seq<string>, groups: seq<seq<nat>>) {
    && |values| == |groups|
    && (forall g :: 0 <= g < |groups| ==> |groups[g]| >= 2 && groups[g] == Members(devices, kind, values[g]))
    && (forall g, h :: 0 <= g < h < |groups| ==> values[g] != values[h] && groups[g][0] <= groups[h][0])
    && (forall value :: |Members(devices, kind, value)| >= 2 ==> value in values)
  }

  ghost predicate IsGrouping(devices: seq<Device>, kind: string, groups: seq<seq<nat>>) {
    exists values :: Arranged(devices, kind, values, groups)
  }

  /** The device is the smallest member of a group. */
  predicate Leads(devices: seq<Device>, kind: string, n: nat)
    requires n < |devices|
  {
    var key := KeyOf(devices[n], kind);
    key.Some? && |Members(devices, kind, key.value)| >= 2 && Members(devices, kind, key.value)[0] == n
  }

  /** The groups led by the first `n` devices, in the order of their leaders. */
  function LedBy(devices: seq<Device>, kind: string, n: nat): (groups: seq<seq<nat>>)
    requires n <= |devices|
  {
    if n == 0 then []
    else LedBy(devices, kind, n - 1)
         + (if Leads(devices, kind, n - 1) then [Members(devices, kind, KeyOf(devices[n - 1], kind).value)] else [])
  }

  lemma MemberKey(devices: seq<Device>, kind: string, value: string, k: nat)
    requires OneEach(devices) && IsKind(kind) && k < |devices|
    ensures k in Members(devices, kind, value) <==> KeyOf(devices[k], kind) == Some(value)
  {
    hide Members, Values;
    MembersSpec(devices, kind, value);
    assert |Values(devices[k], kind)| <= 1;
  }

  /** With one key per device, any arrangement lists the groups by leader: as many as there are leaders so far, and those very groups. */
  lemma {:induction false} ArrangedByLeader(devices: seq<Device>, kind: string, values: seq<string>, groups: seq<seq<nat>>, n: nat)
    requires OneEach(devices) && IsKind(kind) && n <= |devices| && Arranged(devices, kind, values, groups)
    ensures var led := LedBy(devices, kind, n);
            && |led| <= |groups| && led == groups[..|led|]
            && (forall g :: |led| <= g < |groups| ==> groups[g][0] >= n)
            && (forall g :: 0 <= g < |led| ==> groups[g][0] < n)
  {
    hide Members, KeyOf, Values, Leads;
    if n > 0 {
      ArrangedByLeader(devices, kind, values, groups, n - 1);
      LeaderIsNext(devices, kind, values, groups, n - 1, |LedBy(devices, kind, n - 1)|);
    }
  }

  /** The smallest member of a group presents the value of the group. */
  lemma FirstHasKey(devices: seq<Device>, kind: string, values: seq<string>, groups: seq<seq<nat>>, g: nat)
    requires OneEach(devices) && IsKind(kind) && Arranged(devices, kind, values, groups) && g < |groups|
    ensures groups[g][0] in groups[g] && groups[g][0] < |devices|
    ensures KeyOf(devices[groups[g][0]], kind) == Some(values[g])
  {
    hide Members, KeyOf, Values;
    MembersSpec(devices, kind, values[g]);
    MemberKey(devices, kind, values[g], groups[g][0]);
  }

  /** One device further: it leads no group, or it leads the next one. */
  lemma LeaderIsNext(devices: seq<Device>, kind: string, values: seq<string>, groups: seq<seq<nat>>, n: nat, k: nat)
    requires OneEach(devices) && IsKind(kind) && n < |devices| && Arranged(devices, kind, values, groups)
    requires k <= |groups| && forall g :: k <= g < |groups| ==> groups[g][0] >= n
    requires forall g :: 0 <= g < k ==> groups[g][0] < n
    ensures Leads(devices, kind, n) ==> k < |groups| && groups[k] == Members(devices, kind, KeyOf(devices[n], kind).value) && groups[k][0] == n
    ensures !Leads(devices, kind, n) ==> forall g :: k <= g < |groups| ==> groups[g][0] > n
    ensures Leads(devices, kind, n) ==> forall g :: k < g < |groups| ==> groups[g][0] > n
  {
    hide Members, KeyOf, Values, OneEach;
    forall g | 0 <= g < |groups| ensures groups[g][0] < |devices| && KeyOf(devices[groups[g][0]], kind) == Some(values[g]) {
      FirstHasKey(devices, kind, values, groups, g);
    }
    if Leads(devices, kind, n) {
      var m :| 0 <= m < |values| && values[m] == KeyOf(devices[n], kind).value;
      assert groups[m][0] == n;
      assert m >= k && groups[k][0] == n;
    }
  }

  lemma {:induction false} LedByPrefix(devices: seq<Device>, kind: string, n: nat, m: nat)
    requires n <= m <= |devices|
    ensures |LedBy(devices, kind, n)| <= |LedBy(devices, kind, m)|
    ensures LedBy(devices, kind, m)[..|LedBy(devices, kind, n)|] == LedBy(devices, kind, n)
  {
    hide Leads, Members, KeyOf;
    if n < m {
      LedByPrefix(devices, kind, n, m - 1);
      assert LedBy(devices, kind, m)[..|LedBy(devices, kind, m - 1)|] == LedBy(devices, kind, m - 1);
    }
  }

  lemma ArrangedIsLed(devices: seq<Device>, kind: string, values: seq<string>, groups: seq<seq<nat>>)
    requires OneEach(devices) && IsKind(kind) && Arranged(devices, kind, values, groups)
    ensures groups == LedBy(devices, kind, |devices|)
  {
    hide Members, Values, KeyOf, Leads, LedBy;
    ArrangedByLeader(devices, kind, values, groups, |devices|);
    var led := LedBy(devices, kind, |devices|);
    if |led| < |groups| {
      FirstHasKey(devices, kind, values, groups, |led|);
    }
  }

  /** With one key per device, grouping has one answer, whatever order the map is walked in: the groups by leader. */
  lemma GroupingIsDetermined(devices: seq<Device>, kind: string, groups: seq<seq<nat>>)
    requires OneEach(devices) && IsKind(kind) && IsGrouping(devices, kind, groups)
    ensures groups == LedBy(devices, kind, |devices|)
  {
    var values :| Arranged(devices, kind, values, groups);
    hide Arranged, LedBy, OneEach;
    ArrangedIsLed(devices, kind, values, groups);
  }

  // ---------- when grouping is determined ----------

  /** Distinct values, groups in the order of their smallest members. */
  ghost predicate InOrder(values: seq<string>, groups: seq<seq<nat>>) {
    && |values| == |groups|
    && (forall g :: 0 <= g < |groups| ==> |groups[g]| >= 2)
    && (forall g, h :: 0 <= g < h < |groups| ==> values[g] != values[h] && groups[g][0] <= groups[h][0])
  }

  ghost predicate AreMembers(devices: seq<Device>, kind: string, values: seq<string>, groups: seq<seq<nat>>) {
    |values| == |groups| && forall g :: 0 <= g < |groups| ==> groups[g] == Members(devices, kind, values[g])
  }

  lemma InsertKeepsOrder(values: seq<string>, groups: seq<seq<nat>>, value: string, group: seq<nat>, p: nat)
    requires InOrder(values, groups) && p <= |groups| && value !in values && |group| >= 2
    requires forall g :: 0 <= g < p ==> groups[g][0] <= group[0]
    requires p < |groups| ==> group[0] <= groups[p][0]
    ensures InOrder(values[..p] + [value] + values[p..], groups[..p] + [group] + groups[p..])
  {
    var vs, gs := values[..p] + [value] + values[p..], groups[..p] + [group] + groups[p..];
    forall g, h | 0 <= g < h < |gs| ensures vs[g] != vs[h] && gs[g][0] <= gs[h][0] {
      if g < p {
        assert vs[g] == values[g] && gs[g] == groups[g];
      }
      if h > p {
        assert vs[h] == values[h - 1] && gs[h] == groups[h - 1] && groups[p][0] <= groups[h - 1][0];
        if g > p {
          assert vs[g] == values[g - 1] && gs[g] == groups[g - 1];
        }
      }
    }
  }

  lemma InsertKeepsMembers(devices: seq<Device>, kind: string, values: seq<string>, groups: seq<seq<nat>>, value: string, group: seq<nat>, p: nat)
    requires AreMembers(devices, kind, values, groups) && p <= |groups| && group == Members(devices, kind, value)
    ensures AreMembers(devices, kind, values[..p] + [value] + values[p..], groups[..p] + [group] + groups[p..])
    ensures forall v :: v in values[..p] + [value] + values[p..] <==> v == value || v in values
  {
    hide Members;
    var vs, gs := values[..p] + [value] + values[p..], groups[..p] + [group] + groups[p..];
    assert values == values[..p] + values[p..];
    forall g | 0 <= g < |gs| ensures gs[g] == Members(devices, kind, vs[g]) {
      if g > p {
        assert vs[g] == values[g - 1] && gs[g] == groups[g - 1];
      }
    }
  }

  /** No two different groups have the same smallest member. */
  ghost predicate NoTies(devices: seq<Device>, kind: string) {
    forall v, w :: |Members(devices, kind, v)| >= 2 && |Members(devices, kind, w)| >= 2
                   && Members(devices, kind, v)[0] == Members(devices, kind, w)[0]
                   ==> Members(devices, kind, v) == Members(devices, kind, w)
  }

  function AllValues(devices: seq<Device>, kind: string): set<string> {
    if devices == [] then {}
    else
      var n := |devices| - 1;
      AllValues(devices[..n], kind) + (set v | v in Values(devices[n], kind))
  }

  lemma {:induction false} GroupedValuesOccur(devices: seq<Device>, kind: string, value: string)
    requires Members(devices, kind, value) != []
    ensures value in AllValues(devices, kind)
  {
    hide Values, Copies;
    var n := |devices| - 1;
    CopiesSpec(Values(devices[n], kind), value, n);
    if Members(devices[..n], kind, value) != [] {
      GroupedValuesOccur(devices[..n], kind, value);
    } else {
      var copies := Copies(Values(devices[n], kind), value, n);
      assert copies[0] in copies;
    }
  }

  /** Some walk over a set of values arranges their groups. */
  lemma {:induction false} SomeArrangement(devices: seq<Device>, kind: string, keys: set<string>) returns (values: seq<string>, groups: seq<seq<nat>>)
    ensures InOrder(values, groups) && AreMembers(devices, kind, values, groups)
    ensures forall v :: v in values <==> v in keys && |Members(devices, kind, v)| >= 2
  {
    hide Members;
    values, groups := [], [];
    if keys != {} {
      var value :| value in keys;
      values, groups := SomeArrangement(devices, kind, keys - {value});
      var group := Members(devices, kind, value);
      if |group| >= 2 {
        var p := 0;
        while p < |groups| && groups[p][0] <= group[0]
          invariant p <= |groups| && forall g :: 0 <= g < p ==> groups[g][0] <= group[0]
        {
          p := p + 1;
        }
        InsertKeepsOrder(values, groups, value, group, p);
        InsertKeepsMembers(devices, kind, values, groups, value, group, p);
        values, groups := values[..p] + [value] + values[p..], groups[..p] + [group] + groups[p..];
      }
    }
  }

  lemma ArrangementExists(devices: seq<Device>, kind: string) returns (values: seq<string>, groups: seq<seq<nat>>)
    ensures Arranged(devices, kind, values, groups)
  {
    hide Members, AllValues;
    values, groups := SomeArrangement(devices, kind, AllValues(devices, kind));
    forall v | |Members(devices, kind, v)| >= 2 ensures v in values {
      GroupedValuesOccur(devices, kind, v);
    }
  }

  /** Two groups with one smallest member may change places. */
  lemma SwapKeepsArranged(devices: seq<Device>, kind: string, values: seq<string>, groups: seq<seq<nat>>, p: nat, q: nat)
    requires Arranged(devices, kind, values, groups) && p < q < |groups| && groups[p][0] == groups[q][0]
    ensures Arranged(devices, kind, values[p := values[q]][q := values[p]], groups[p := groups[q]][q := groups[p]])
  {
    hide Members;
    var vs, gs := values[p := values[q]][q := values[p]], groups[p := groups[q]][q := groups[p]];
    forall g | 0 <= g < |gs| ensures gs[g][0] == groups[g][0] {}
    forall value | |Members(devices, kind, value)| >= 2 ensures value in vs {
      var g :| 0 <= g < |values| && values[g] == value;
      assert vs[if g == p then q else if g == q then p else g] == value;
    }
  }

  function GroupsOf(devices: seq<Device>, kind: string, values: seq<string>): seq<seq<nat>> {
    if values == [] then [] else [Members(devices, kind, values[0])] + GroupsOf(devices, kind, values[1..])
  }

  lemma {:induction false} GroupsOfAppend(devices: seq<Device>, kind: string, a: seq<string>, b: seq<string>)
    ensures GroupsOf(devices, kind, a + b) == GroupsOf(devices, kind, a) + GroupsOf(devices, kind, b)
  {
    hide Members;
    if a == [] {
      assert a + b == b;
    } else {
      assert (a + b)[1..] == a[1..] + b;
      GroupsOfAppend(devices, kind, a[1..], b);
    }
  }

  lemma {:induction false} GroupsAreOf(devices: seq<Device>, kind: string, values: seq<string>, groups: seq<seq<nat>>)
    requires AreMembers(devices, kind, values, groups)
    ensures groups == GroupsOf(devices, kind, values)
  {
    hide Members;
    if values != [] {
      GroupsAreOf(devices, kind, values[1..], groups[1..]);
      assert groups == [groups[0]] + groups[1..];
    }
  }

  predicate DistinctValues(values: seq<string>) { forall g, h :: 0 <= g < h < |values| ==> values[g] != values[h] }

  lemma RemoveValue(devices: seq<Device>, kind: string, values: seq<string>, j: nat)
    requires DistinctValues(values) && j < |values|
    ensures var rest := values[..j] + values[j + 1..];
            && DistinctValues(rest) && (forall v :: v in rest <==> v in values && v != values[j])
            && multiset(GroupsOf(devices, kind, values)) == multiset(GroupsOf(devices, kind, rest)) + multiset{Members(devices, kind, values[j])}
  {
    var before, after := values[..j], values[j + 1..];
    assert values == before + ([values[j]] + after);
    GroupsOfAppend(devices, kind, before, after);
    GroupsOfAppend(devices, kind, before, [values[j]] + after);
    assert ([values[j]] + after)[1..] == after;
    assert GroupsOf(devices, kind, [values[j]] + after) == [Members(devices, kind, values[j])] + GroupsOf(devices, kind, after);
    hide Members, GroupsOf;
    OtherValues(values, j);
  }

  lemma OtherValues(values: seq<string>, j: nat)
    requires DistinctValues(values) && j < |values|
    ensures var rest := values[..j] + values[j + 1..];
            DistinctValues(rest) && forall v :: v in rest <==> v in values && v != values[j]
  {
    var rest := values[..j] + values[j + 1..];
    forall g | 0 <= g < |rest| ensures rest[g] == values[if g < j then g else g + 1] {}
  }

  /** The same values in another order have the same groups. */
  lemma {:induction false} PermutedGroups(devices: seq<Device>, kind: string, xs: seq<string>, ys: seq<string>)
    requires DistinctValues(xs) && DistinctValues(ys) && forall v :: v in xs <==> v in ys
    ensures multiset(GroupsOf(devices, kind, xs)) == multiset(GroupsOf(devices, kind, ys))
  {
    assert ys != [] ==> ys[0] in ys;
    if xs != [] {
      hide Members, GroupsOf, DistinctValues;
      var last := |xs| - 1;
      assert xs[last] in ys;
      var j :| 0 <= j < |ys| && ys[j] == xs[last];
      RemoveValue(devices, kind, xs, last);
      RemoveValue(devices, kind, ys, j);
      assert xs[..last] + xs[last + 1..] == xs[..last];
      PermutedGroups(devices, kind, xs[..last], ys[..j] + ys[j + 1..]);
    }
  }

  predicate SortedByFirst(groups: seq<seq<nat>>) {
    && (forall g :: 0 <= g < |groups| ==> groups[g] != [])
    && (forall g, h :: 0 <= g < h < |groups| ==> groups[g][0] <= groups[h][0])
  }

  predicate TieFree(groups: seq<seq<nat>>)
    requires SortedByFirst(groups)
  {
    forall g, h :: 0 <= g < |groups| && 0 <= h < |groups| && groups[g][0] == groups[h][0] ==> groups[g] == groups[h]
  }

  lemma HeadsAgree(a: seq<seq<nat>>, b: seq<seq<nat>>)
    requires multiset(a) == multiset(b) && SortedByFirst(a) && SortedByFirst(b) && TieFree(a) && a != []
    ensures b != [] && a[0] == b[0]
  {
    assert a[0] in multiset(b);
    var i :| 0 <= i < |b| && b[i] == a[0];
    assert b[0] in multiset(a);
    var j :| 0 <= j < |a| && a[j] == b[0];
  }

  lemma TailSorted(a: seq<seq<nat>>)
    requires SortedByFirst(a) && a != []
    ensures SortedByFirst(a[1..]) && (TieFree(a) ==> TieFree(a[1..]))
  {
  }

  lemma TailMultiset(a: seq<seq<nat>>, b: seq<seq<nat>>)
    requires a != [] && b != [] && a[0] == b[0] && multiset(a) == multiset(b)
    ensures multiset(a[1..]) == multiset(b[1..])
  {
    assert a == [a[0]] + a[1..] && b == [b[0]] + b[1..];
    assert multiset(a[1..]) == multiset(a) - multiset{a[0]};
    assert multiset(b[1..]) == multiset(b) - multiset{b[0]};
  }

  /** A list of groups sorted by smallest member is determined by its multiset, if different groups have different smallest members. */
  lemma {:induction false} SortedGroupsUnique(a: seq<seq<nat>>, b: seq<seq<nat>>)
    requires multiset(a) == multiset(b) && SortedByFirst(a) && SortedByFirst(b) && TieFree(a)
    ensures a == b
  {
    if a == [] {
      assert |multiset(b)| == |multiset(a)| == 0;
    } else {
      HeadsAgree(a, b);
      TailSorted(a);
      TailSorted(b);
      hide SortedByFirst, TieFree;
      TailMultiset(a, b);
      SortedGroupsUnique(a[1..], b[1..]);
      assert a == [a[0]] + a[1..] && b == [b[0]] + b[1..];
    }
  }

  lemma ArrangedIsTieFree(devices: seq<Device>, kind: string, values: seq<string>, groups: seq<seq<nat>>)
    requires NoTies(devices, kind) && Arranged(devices, kind, values, groups)
    ensures SortedByFirst(groups) && TieFree(groups)
  {
    hide Members;
  }

  lemma ArrangementsAgree(devices: seq<Device>, kind: string, xs: seq<string>, a: seq<seq<nat>>, ys: seq<string>, b: seq<seq<nat>>)
    requires NoTies(devices, kind) && Arranged(devices, kind, xs, a) && Arranged(devices, kind, ys, b)
    ensures a == b
  {
    hide Members;
    GroupsAreOf(devices, kind, xs, a);
    GroupsAreOf(devices, kind, ys, b);
    ArrangedIsTieFree(devices, kind, xs, a);
    ArrangedIsTieFree(devices, kind, ys, b);
    forall v ensures v in xs <==> v in ys {}
    hide GroupsOf, SortedByFirst, TieFree, NoTies;
    PermutedGroups(devices, kind, xs, ys);
    SortedGroupsUnique(a, b);
  }

  /** Two walks over the map always give the same groups if and only if no two different groups have the same smallest member. */
  lemma GroupingDeterminedIff(devices: seq<Device>, kind: string)
    ensures NoTies(devices, kind) <==>
              forall a, b :: IsGrouping(devices, kind, a) && IsGrouping(devices, kind, b) ==> a == b
  {
    if NoTies(devices, kind) {
      forall a, b | IsGrouping(devices, kind, a) && IsGrouping(devices, kind, b) ensures a == b {
        var xs :| Arranged(devices, kind, xs, a);
        var ys :| Arranged(devices, kind, ys, b);
        ArrangementsAgree(devices, kind, xs, a, ys, b);
      }
    } else {
      hide Members, IsGrouping;
      var v, w :| |Members(devices, kind, v)| >= 2 && |Members(devices, kind, w)| >= 2
                  && Members(devices, kind, v)[0] == Members(devices, kind, w)[0]
                  && Members(devices, kind, v) != Members(devices, kind, w);
      var a, b := TiedArrangements(devices, kind, v, w);
    }
  }

  lemma ArrangedIsGrouping(devices: seq<Device>, kind: string, values: seq<string>, groups: seq<seq<nat>>)
    requires Arranged(devices, kind, values, groups)
    ensures IsGrouping(devices, kind, groups)
  {
  }

  lemma GroupIndex(devices: seq<Device>, kind: string, values: seq<string>, groups: seq<seq<nat>>, value: string) returns (x: nat)
    requires Arranged(devices, kind, values, groups) && |Members(devices, kind, value)| >= 2
    ensures x < |groups| && groups[x] == Members(devices, kind, value) != []
  {
    hide Members;
    x :| 0 <= x < |values| && values[x] == value;
  }

  lemma TiedArrangements(devices: seq<Device>, kind: string, v: string, w: string) returns (a: seq<seq<nat>>, b: seq<seq<nat>>)
    requires |Members(devices, kind, v)| >= 2 && |Members(devices, kind, w)| >= 2
    requires Members(devices, kind, v)[0] == Members(devices, kind, w)[0] && Members(devices, kind, v) != Members(devices, kind, w)
    ensures IsGrouping(devices, kind, a) && IsGrouping(devices, kind, b) && a != b
  {
    hide Members, Arranged, IsGrouping;
    var values: seq<string>;
    values, a := ArrangementExists(devices, kind);
    var x := GroupIndex(devices, kind, values, a, v);
    var y := GroupIndex(devices, kind, values, a, w);
    assert x != y && a[x][0] == a[y][0];
    var p, q := if x < y then x else y, if x < y then y else x;
    ArrangedIsGrouping(devices, kind, values, a);
    SwapArranged(devices, kind, values, a, p, q);
    b := a[p := a[q]][q := a[p]];
    assert b[p] == a[q] != a[p];
  }

  lemma SwapArranged(devices: seq<Device>, kind: string, values: seq<string>, groups: seq<seq<nat>>, p: nat, q: nat)
    requires Arranged(devices, kind, values, groups) && p < q < |groups| && groups[p] != [] && groups[q] != [] && groups[p][0] == groups[q][0]
    ensures IsGrouping(devices, kind, groups[p := groups[q]][q := groups[p]])
  {
    SwapKeepsArranged(devices, kind, values, groups, p, q);
  }

  /** One key per device rules ties out. */
  lemma OneEachHasNoTies(devices: seq<Device>, kind: string)
    requires OneEach(devices) && IsKind(kind)
    ensures NoTies(devices, kind)
  {
    hide Members, KeyOf, Values, OneEach;
    forall v, w | |Members(devices, kind, v)| >= 2 && |Members(devices, kind, w)| >= 2
                  && Members(devices, kind, v)[0] == Members(devices, kind, w)[0] ensures v == w {
      var first := Members(devices, kind, v)[0];
      MembersSpec(devices, kind, v);
      MembersSpec(devices, kind, w);
      MemberKey(devices, kind, v, first);
      MemberKey(devices, kind, w, first);
    }
  }

  // ---------- hints ----------

  datatype Hint =
    | NotEnough
    | Unique
    | SameVm(number: nat, size: nat, tlsToo: bool)
    | SharedService(size: nat)
    | KeysDiffer(size: nat)

  function DefaultHint(device: Device): Hint { if device == [] then NotEnough else Unique }

  ghost predicate AllHave(devices: seq<Device>, group: seq<nat>, kind: string, value: string)
    requires InRange(devices, group)
  {
    forall k :: k in group ==> value in Values(devices[k], kind)
  }

  /** Some value of a kind is common to the whole group. */
  ghost predicate Shares(devices: seq<Device>, group: seq<nat>, kind: string)
    requires InRange(devices, group)
  {
    |group| >= 2 && exists value :: AllHave(devices, group, kind, value)
  }

  ghost predicate Held(devices: seq<Device>, group: seq<nat>, kind: string, value: string)
    requires InRange(devices, group)
  {
    exists k :: k in group && value in Values(devices[k], kind)
  }

  /** Every member has an SSH key, and there are two different ones among them. */
  ghost predicate Differ(devices: seq<Device>, group: seq<nat>)
    requires InRange(devices, group)
  {
    && (forall k :: k in group ==> Values(devices[k], SSH) != [])
    && exists v, w :: v != w && Held(devices, group, SSH, v) && Held(devices, group, SSH, w)
  }

  /**
    * The hint of a device, from the keys the devices present: an SSH key it shares decides; else a certificate it
    * shares; a group's number counts the leaders up to its own.
    */
  ghost function HintFor(devices: seq<Device>, i: nat): Hint
    requires i < |devices|
  {
    var key, certificate := KeyOf(devices[i], SSH), KeyOf(devices[i], TLS);
    if key.Some? && |Members(devices, SSH, key.value)| >= 2 then
      var group := Members(devices, SSH, key.value);
      MembersSpec(devices, SSH, key.value);
      SameVm(|LedBy(devices, SSH, group[0])| + 1, |group|, Shares(devices, group, TLS))
    else if certificate.Some? && |Members(devices, TLS, certificate.value)| >= 2 then
      var group := Members(devices, TLS, certificate.value);
      MembersSpec(devices, TLS, certificate.value);
      if Differ(devices, group) then KeysDiffer(|group|) else SharedService(|group|)
    else DefaultHint(devices[i])
  }

  /** The last group that holds a device: later groups overwrite earlier ones. */
  function LastWith(groups: seq<seq<nat>>, i: nat): (g: Option<nat>)
    ensures g.Some? ==> g.value < |groups| && i in groups[g.value]
    ensures g.None? ==> forall h :: 0 <= h < |groups| ==> i !in groups[h]
  {
    if groups == [] then None
    else if i in groups[|groups| - 1] then Some(|groups| - 1)
    else LastWith(groups[..|groups| - 1], i)
  }

  predicate AllInRange(devices: seq<Device>, groups: seq<seq<nat>>) {
    forall g :: 0 <= g < |groups| ==> InRange(devices, groups[g])
  }

  ghost function SshHint(devices: seq<Device>, ssh: seq<seq<nat>>, i: nat): Hint
    requires i < |devices| && AllInRange(devices, ssh)
  {
    match LastWith(ssh, i)
    case Some(g) => SameVm(g + 1, |ssh[g]|, Shares(devices, ssh[g], TLS))
    case None => DefaultHint(devices[i])
  }

  ghost function TlsHint(devices: seq<Device>, group: seq<nat>): Hint
    requires InRange(devices, group)
  {
    if Differ(devices, group) then KeysDiffer(|group|) else SharedService(|group|)
  }

  /** The hint that two passes over given groups leave behind. */
  ghost function HintUnder(devices: seq<Device>, ssh: seq<seq<nat>>, tls: seq<seq<nat>>, i: nat): Hint
    requires i < |devices| && AllInRange(devices, ssh) && AllInRange(devices, tls)
  {
    if LastWith(ssh, i).Some? then SshHint(devices, ssh, i)
    else
      match LastWith(tls, i)
      case Some(g) => TlsHint(devices, tls[g])
      case None => DefaultHint(devices[i])
  }

  lemma GroupingInRange(devices: seq<Device>, kind: string, groups: seq<seq<nat>>)
    requires IsGrouping(devices, kind, groups)
    ensures AllInRange(devices, groups)
  {
    hide Members, Values;
    var values :| Arranged(devices, kind, values, groups);
    forall g | 0 <= g < |groups| ensures InRange(devices, groups[g]) {
      MembersSpec(devices, kind, values[g]);
    }
  }

  /** With one key per device, every group stands where its leader puts it. */
  lemma GroupStandsByLeader(devices: seq<Device>, kind: string, values: seq<string>, groups: seq<seq<nat>>, g: nat)
    requires OneEach(devices) && IsKind(kind) && Arranged(devices, kind, values, groups) && g < |groups|
    ensures groups[g][0] < |devices| && g == |LedBy(devices, kind, groups[g][0])|
  {
    hide Members, KeyOf, Values, LedBy;
    FirstHasKey(devices, kind, values, groups, g);
    var first := groups[g][0];
    ArrangedByLeader(devices, kind, values, groups, first);
    MemberKey(devices, kind, values[g], first);
    var k := |LedBy(devices, kind, first)|;
    LeaderIsNext(devices, kind, values, groups, first, k);
  }

  /** With one key per device, the group of a device is the group of its key. */
  lemma GroupOfDevice(devices: seq<Device>, kind: string, groups: seq<seq<nat>>, i: nat)
    requires OneEach(devices) && IsKind(kind) && i < |devices| && IsGrouping(devices, kind, groups)
    ensures var key := KeyOf(devices[i], kind);
            match LastWith(groups, i)
            case Some(g) =>
              && key.Some? && groups[g] == Members(devices, kind, key.value) && |groups[g]| >= 2
              && groups[g][0] < |devices| && g == |LedBy(devices, kind, groups[g][0])|
            case None => key.None? || |Members(devices, kind, key.value)| < 2
  {
    hide Members, KeyOf, Values, LedBy, LastWith;
    var values :| Arranged(devices, kind, values, groups);
    var key := KeyOf(devices[i], kind);
    match LastWith(groups, i)
    case Some(g) =>
      MemberKey(devices, kind, values[g], i);
      GroupStandsByLeader(devices, kind, values, groups, g);
    case None =>
      if key.Some? {
        MemberKey(devices, kind, key.value, i);
      }
  }

  /** With one key and one certificate per device, the hints do not depend on any iteration order. */
  lemma HintsAreDetermined(devices: seq<Device>, ssh: seq<seq<nat>>, tls: seq<seq<nat>>, i: nat)
    requires OneEach(devices) && i < |devices|
    requires IsGrouping(devices, SSH, ssh) && IsGrouping(devices, TLS, tls)
    ensures AllInRange(devices, ssh) && AllInRange(devices, tls)
    ensures HintUnder(devices, ssh, tls, i) == HintFor(devices, i)
  {
    hide Members, KeyOf, Values, LedBy, LastWith, Shares, Differ;
    GroupingInRange(devices, SSH, ssh);
    GroupingInRange(devices, TLS, tls);
    GroupOfDevice(devices, SSH, ssh, i);
    GroupOfDevice(devices, TLS, tls, i);
  }

  /** Three devices; the first presents the keys of both others. */
  function Tied(): seq<Device> {
    [[Fingerprint(SSH, "a"), Fingerprint(SSH, "b")], [Fingerprint(SSH, "a")], [Fingerprint(SSH, "b")]]
  }

  lemma ValuesOfPair(f: Fingerprint, g: Fingerprint, kind: string)
    ensures Values([f], kind) == if f.kind == kind then [f.value] else []
    ensures Values([f, g], kind) == Values([f], kind) + Values([g], kind)
  {
    assert [f, g][..1] == [f] && [f][..0] == [] && [g][..0] == [];
  }

  lemma MembersOfTied(kind: string, value: string)
    ensures Members(Tied(), kind, value) ==
            Copies(Values(Tied()[0], kind), value, 0) + Copies(Values(Tied()[1], kind), value, 1) + Copies(Values(Tied()[2], kind), value, 2)
  {
    hide Values, Copies;
    var devices := Tied();
    var two := devices[..2];
    assert two[..1][..0] == [] && two[..1][0] == devices[0] && two[1] == devices[1];
    assert Members(two[..1], kind, value) == Copies(Values(devices[0], kind), value, 0);
    assert Members(two, kind, value) == Members(two[..1], kind, value) + Copies(Values(devices[1], kind), value, 1);
  }

  lemma CopiesOfPair(x: string, y: string, value: string, index: nat)
    ensures Copies([], value, index) == []
    ensures Copies([x], value, index) == if x == value then [index] else []
    ensures Copies([y], value, index) == if y == value then [index] else []
    ensures Copies([x, y], value, index) == Copies([x], value, index) + Copies([y], value, index)
  {
    assert [x, y][..1] == [x] && [x][..0] == [] && [y][..0] == [];
  }

  lemma GroupsOfTied(kind: string, value: string)
    ensures Members(Tied(), kind, value) ==
            if kind == SSH && value == "a" then [0, 1] else if kind == SSH && value == "b" then [0, 2] else []
  {
    hide Members, Values, Copies;
    MembersOfTied(kind, value);
    var a, b := Fingerprint(SSH, "a"), Fingerprint(SSH, "b");
    ValuesOfPair(a, b, kind);
    ValuesOfPair(b, a, kind);
    assert "a" != "b";
    CopiesOfPair("a", "b", value, 0);
    CopiesOfPair("a", "b", value, 1);
    CopiesOfPair("b", "a", value, 2);
    assert Tied() == [[a, b], [a], [b]];
    var none: seq<string> := [];
    if kind == SSH {
      assert Values([a, b], kind) == ["a"] + ["b"] == ["a", "b"];
      if value == "a" {
        assert Members(Tied(), kind, value) == ([0] + []) + [1] + [] == [0, 1];
      } else if value == "b" {
        assert Members(Tied(), kind, value) == ([] + [0]) + [] + [2] == [0, 2];
      }
    } else {
      assert Values([a, b], kind) == none + none == none;
    }
  }

  /** Without that, they do: two groups with one smallest member may come out in either order. */
  lemma TwoKeysMakeOrderMatter() returns (one: seq<seq<nat>>, other: seq<seq<nat>>, tls: seq<seq<nat>>)
    ensures IsGrouping(Tied(), SSH, one) && IsGrouping(Tied(), SSH, other) && IsGrouping(Tied(), TLS, tls)
    ensures 1 < |Tied()| && AllInRange(Tied(), one) && AllInRange(Tied(), other) && AllInRange(Tied(), tls)
    ensures HintUnder(Tied(), one, tls, 1) != HintUnder(Tied(), other, tls, 1)
  {
    TiedSize();
    one, other, tls := [[0, 1], [0, 2]], [[0, 2], [0, 1]], [];
    ArrangementsOfTied(one, other);
    hide Members, Arranged, Tied, Shares, Differ;
    assert one[..1] == [[0, 1]];
    assert LastWith(one, 1) == Some(0) && LastWith(other, 1) == Some(1);
  }

  lemma TiedSize()
    ensures |Tied()| == 3
  {
  }

  lemma ArrangementsOfTied(one: seq<seq<nat>>, other: seq<seq<nat>>)
    requires one == [[0, 1], [0, 2]] && other == [[0, 2], [0, 1]]
    ensures Arranged(Tied(), SSH, ["a", "b"], one) && Arranged(Tied(), SSH, ["b", "a"], other) && Arranged(Tied(), TLS, [], [])
    ensures AllInRange(Tied(), one) && AllInRange(Tied(), other)
  {
    TiedSize();
    hide Members, Tied;
    forall kind, value ensures Members(Tied(), kind, value) ==
            if kind == SSH && value == "a" then [0, 1] else if kind == SSH && value == "b" then [0, 2] else [] {
      GroupsOfTied(kind, value);
    }
  }

  // ---------- when hints are determined ----------

  predicate Grouped(devices: seq<Device>, kind: string, value: string) { |Members(devices, kind, value)| >= 2 }

  /** Among the groups that hold a device, those with the largest smallest member: one of them is the last to mark it. */
  ghost predicate Tops(devices: seq<Device>, kind: string, i: nat, v: string) {
    && Grouped(devices, kind, v) && i in Members(devices, kind, v)
    && forall w :: Grouped(devices, kind, w) && i in Members(devices, kind, w) ==>
         Members(devices, kind, w)[0] <= Members(devices, kind, v)[0]
  }

  predicate Tie(devices: seq<Device>, kind: string, v: string, w: string) {
    && Grouped(devices, kind, v) && Grouped(devices, kind, w)
    && Members(devices, kind, v)[0] == Members(devices, kind, w)[0]
  }

  ghost predicate InNoGroup(devices: seq<Device>, kind: string, i: nat) {
    forall v :: Grouped(devices, kind, v) ==> i !in Members(devices, kind, v)
  }

  ghost predicate SharesTls(devices: seq<Device>, v: string) {
    MembersSpec(devices, SSH, v);
    Shares(devices, Members(devices, SSH, v), TLS)
  }

  ghost function TlsHintOf(devices: seq<Device>, v: string): Hint {
    MembersSpec(devices, TLS, v);
    TlsHint(devices, Members(devices, TLS, v))
  }

  /** The groups that tie with the last one to mark a device all hold it, and are alike in size and shared certificate. */
  ghost predicate SshSettled(devices: seq<Device>) {
    forall i, v, w :: Tops(devices, SSH, i, v) && Tie(devices, SSH, v, w) ==> SettledTie(devices, i, v, w)
  }

  ghost predicate SettledTie(devices: seq<Device>, i: nat, v: string, w: string) {
    && i in Members(devices, SSH, w) && |Members(devices, SSH, w)| == |Members(devices, SSH, v)|
    && SharesTls(devices, w) == SharesTls(devices, v)
  }

  /** On a device without an SSH group, the certificate groups that may mark it last give one hint. */
  ghost predicate TlsSettled(devices: seq<Device>) {
    forall i, v, w :: InNoGroup(devices, SSH, i) && Tops(devices, TLS, i, v) && Tops(devices, TLS, i, w) ==>
      TlsHintOf(devices, v) == TlsHintOf(devices, w)
  }

  /** Some walks over the two maps leave this hint on the device. */
  ghost predicate MayShow(devices: seq<Device>, i: nat, hint: Hint)
    requires i < |devices|
  {
    exists ssh, tls :: IsGrouping(devices, SSH, ssh) && IsGrouping(devices, TLS, tls) && ShownUnder(devices, ssh, tls, i, hint)
  }

  ghost predicate ShownUnder(devices: seq<Device>, ssh: seq<seq<nat>>, tls: seq<seq<nat>>, i: nat, hint: Hint)
    requires i < |devices|
  {
    AllInRange(devices, ssh) && AllInRange(devices, tls) && HintUnder(devices, ssh, tls, i) == hint
  }

  lemma {:induction false} LastIsLast(groups: seq<seq<nat>>, i: nat)
    ensures LastWith(groups, i).Some? ==> forall h :: LastWith(groups, i).value < h < |groups| ==> i !in groups[h]
  {
    if groups != [] && i !in groups[|groups| - 1] {
      LastIsLast(groups[..|groups| - 1], i);
    }
  }

  /** The last group that holds a device has a value that tops it; without one, no group holds the device. */
  lemma LastTops(devices: seq<Device>, kind: string, values: seq<string>, groups: seq<seq<nat>>, i: nat)
    requires Arranged(devices, kind, values, groups)
    ensures match LastWith(groups, i)
            case Some(g) => g < |groups| && Tops(devices, kind, i, values[g])
            case None => InNoGroup(devices, kind, i)
  {
    hide Members, LastWith;
    LastIsLast(groups, i);
    forall w | Grouped(devices, kind, w) ensures exists h :: 0 <= h < |groups| && values[h] == w && groups[h] == Members(devices, kind, w) {
      var h :| 0 <= h < |values| && values[h] == w;
    }
  }

  /** How many groups have a smallest member up to `first`. */
  ghost function RankOf(devices: seq<Device>, kind: string, first: nat): nat {
    |set v | v in AllValues(devices, kind) && Grouped(devices, kind, v) && Members(devices, kind, v)[0] <= first|
  }

  lemma {:induction false} DistinctCount<T>(values: seq<T>)
    requires forall g, h :: 0 <= g < h < |values| ==> values[g] != values[h]
    ensures |set v | v in values| == |values|
  {
    if values == [] {
      assert (set v | v in values) == {};
    } else {
      var n := |values| - 1;
      DistinctCount(values[..n]);
      assert values == values[..n] + [values[n]];
      assert (set v | v in values) == (set v | v in values[..n]) + {values[n]};
    }
  }

  /** Where the last of the groups with one smallest member stands does not depend on the walk. */
  lemma BlockEndsAtRank(devices: seq<Device>, kind: string, values: seq<string>, groups: seq<seq<nat>>, g: nat)
    requires Arranged(devices, kind, values, groups) && g < |groups|
    requires forall h :: g < h < |groups| ==> groups[h][0] > groups[g][0]
    ensures g + 1 == RankOf(devices, kind, groups[g][0])
  {
    hide Members, AllValues;
    var front, first := values[..g + 1], groups[g][0];
    DistinctCount(front);
    forall v | v in front ensures v in AllValues(devices, kind) && Grouped(devices, kind, v) && Members(devices, kind, v)[0] <= first {
      var x :| 0 <= x <= g && front[x] == v;
      assert groups[x] == Members(devices, kind, v);
      GroupedValuesOccur(devices, kind, v);
    }
    forall v | Grouped(devices, kind, v) && Members(devices, kind, v)[0] <= first ensures v in front {
      var x :| 0 <= x < |values| && values[x] == v;
      assert groups[x] == Members(devices, kind, v);
      assert front[x] == v;
    }
    assert (set v | v in front)
        == (set v | v in AllValues(devices, kind) && Grouped(devices, kind, v) && Members(devices, kind, v)[0] <= first);
  }

  /** When ties are settled, the last group to mark a device ends its block, so that its number is the rank of its smallest member. */
  lemma SettledStands(devices: seq<Device>, values: seq<string>, groups: seq<seq<nat>>, i: nat, g: nat)
    requires SshSettled(devices) && Arranged(devices, SSH, values, groups) && LastWith(groups, i) == Some(g)
    ensures g < |groups| && Tops(devices, SSH, i, values[g]) && g + 1 == RankOf(devices, SSH, groups[g][0])
  {
    hide Members, LastWith, SharesTls, RankOf;
    LastTops(devices, SSH, values, groups, i);
    forall h | g < h < |groups| && groups[h][0] == groups[g][0] ensures i in groups[h] {
      assert SettledTie(devices, i, values[g], values[h]);
    }
    LastIsLast(groups, i);
    BlockEndsAtRank(devices, SSH, values, groups, g);
  }

  lemma TopsHaveOneFirst(devices: seq<Device>, kind: string, i: nat, v: string, w: string)
    requires Tops(devices, kind, i, v) && Tops(devices, kind, i, w)
    ensures Members(devices, kind, v)[0] == Members(devices, kind, w)[0]
  {
    hide Members;
  }

  lemma SettledSshHint(devices: seq<Device>, xs: seq<string>, a: seq<seq<nat>>, ys: seq<string>, b: seq<seq<nat>>, i: nat)
    requires i < |devices| && SshSettled(devices) && Arranged(devices, SSH, xs, a) && Arranged(devices, SSH, ys, b)
    requires AllInRange(devices, a) && AllInRange(devices, b)
    ensures LastWith(a, i).Some? == LastWith(b, i).Some? && SshHint(devices, a, i) == SshHint(devices, b, i)
  {
    hide Members, LastWith, Shares, RankOf;
    LastTops(devices, SSH, xs, a, i);
    LastTops(devices, SSH, ys, b, i);
    if LastWith(a, i).Some? && LastWith(b, i).Some? {
      var g, h := LastWith(a, i).value, LastWith(b, i).value;
      SettledStands(devices, xs, a, i, g);
      SettledStands(devices, ys, b, i, h);
      TopsHaveOneFirst(devices, SSH, i, xs[g], ys[h]);
      assert SettledTie(devices, i, xs[g], ys[h]);
    }
  }

  lemma SettledTlsHint(devices: seq<Device>, xs: seq<string>, a: seq<seq<nat>>, ys: seq<string>, b: seq<seq<nat>>, i: nat)
    requires i < |devices| && TlsSettled(devices) && InNoGroup(devices, SSH, i)
    requires Arranged(devices, TLS, xs, a) && Arranged(devices, TLS, ys, b) && AllInRange(devices, a) && AllInRange(devices, b)
    ensures LastWith(a, i).Some? == LastWith(b, i).Some?
    ensures LastWith(a, i).Some? ==> TlsHint(devices, a[LastWith(a, i).value]) == TlsHint(devices, b[LastWith(b, i).value])
  {
    hide Members, LastWith, TlsHint;
    LastTops(devices, TLS, xs, a, i);
    LastTops(devices, TLS, ys, b, i);
    if LastWith(a, i).Some? && LastWith(b, i).Some? {
      assert TlsHintOf(devices, xs[LastWith(a, i).value]) == TlsHintOf(devices, ys[LastWith(b, i).value]);
    }
  }

  lemma SettledHints(devices: seq<Device>, i: nat, a: Hint, b: Hint)
    requires i < |devices| && SshSettled(devices) && TlsSettled(devices) && MayShow(devices, i, a) && MayShow(devices, i, b)
    ensures a == b
  {
    hide Members, LastWith, Shares, TlsHint, SshSettled, TlsSettled, Arranged;
    var ssh, tls :| IsGrouping(devices, SSH, ssh) && IsGrouping(devices, TLS, tls) && ShownUnder(devices, ssh, tls, i, a);
    var otherSsh, otherTls :| IsGrouping(devices, SSH, otherSsh) && IsGrouping(devices, TLS, otherTls) && ShownUnder(devices, otherSsh, otherTls, i, b);
    var xs :| Arranged(devices, SSH, xs, ssh);
    var ys :| Arranged(devices, SSH, ys, otherSsh);
    SettledSshHint(devices, xs, ssh, ys, otherSsh, i);
    if LastWith(ssh, i).None? {
      LastTops(devices, SSH, xs, ssh, i);
      var us :| Arranged(devices, TLS, us, tls);
      var ws :| Arranged(devices, TLS, ws, otherTls);
      SettledTlsHint(devices, us, tls, ws, otherTls, i);
    }
  }

  /** Some walk puts a given group last among those with its smallest member. */
  lemma PutLast(devices: seq<Device>, kind: string, v: string) returns (values: seq<string>, groups: seq<seq<nat>>, e: nat)
    requires Grouped(devices, kind, v)
    ensures Arranged(devices, kind, values, groups) && e < |groups| && groups[e] == Members(devices, kind, v) && values[e] == v
    ensures forall h :: e < h < |groups| ==> groups[h][0] > groups[e][0]
  {
    hide Members, Arranged;
    values, groups := ArrangementExists(devices, kind);
    var x := ValueIndex(devices, kind, values, groups, v);
    e := BlockEnd(devices, kind, values, groups, x);
    if x < e {
      SwapKeepsArranged(devices, kind, values, groups, x, e);
      values, groups := values[x := values[e]][e := values[x]], groups[x := groups[e]][e := groups[x]];
    }
  }

  lemma ValueIndex(devices: seq<Device>, kind: string, values: seq<string>, groups: seq<seq<nat>>, value: string) returns (x: nat)
    requires Arranged(devices, kind, values, groups) && Grouped(devices, kind, value)
    ensures x < |groups| == |values| && groups[x] == Members(devices, kind, value) && values[x] == value
  {
    hide Members;
    x :| 0 <= x < |values| && values[x] == value;
  }

  lemma BlockEnd(devices: seq<Device>, kind: string, values: seq<string>, groups: seq<seq<nat>>, x: nat) returns (e: nat)
    requires Arranged(devices, kind, values, groups) && x < |groups|
    ensures |values| == |groups| && (forall h :: 0 <= h < |groups| ==> groups[h] != [])
    ensures x <= e < |groups| && groups[e][0] == groups[x][0] && forall h :: e < h < |groups| ==> groups[h][0] > groups[x][0]
  {
    hide Members;
    e := x;
    while e + 1 < |groups| && groups[e + 1][0] == groups[x][0]
      invariant x <= e < |groups| && groups[e][0] == groups[x][0]
    {
      e := e + 1;
    }
  }

  /** Put last, a group that tops a device is the last to mark it. */
  lemma TopMarksLast(devices: seq<Device>, kind: string, values: seq<string>, groups: seq<seq<nat>>, e: nat, i: nat)
    requires Arranged(devices, kind, values, groups) && e < |groups| && Tops(devices, kind, i, values[e])
    requires forall h :: e < h < |groups| ==> groups[h][0] > groups[e][0]
    ensures LastWith(groups, i) == Some(e)
  {
    hide Members, LastWith;
    LastIsLast(groups, i);
    assert i in groups[e];
    var g := LastWith(groups, i).value;
    assert g >= e;
    assert Grouped(devices, kind, values[g]);
  }

  /** An unsettled SSH tie shows: whichever of the two groups is put last leaves its own mark. */
  lemma UnsettledSsh(devices: seq<Device>, i: nat, v: string, w: string) returns (a: seq<seq<nat>>, b: seq<seq<nat>>)
    requires i < |devices| && Tops(devices, SSH, i, v) && Tie(devices, SSH, v, w) && !SettledTie(devices, i, v, w)
    ensures IsGrouping(devices, SSH, a) && IsGrouping(devices, SSH, b) && AllInRange(devices, a) && AllInRange(devices, b)
    ensures LastWith(a, i).Some? && LastWith(b, i).Some? && SshHint(devices, a, i) != SshHint(devices, b, i)
  {
    hide Members, LastWith, Shares, Arranged, RankOf, Tops, Grouped;
    var xs, ys, e, f;
    assert Grouped(devices, SSH, v) && Grouped(devices, SSH, w);
    xs, a, e := PutLast(devices, SSH, v);
    ys, b, f := PutLast(devices, SSH, w);
    ArrangedIsGrouping(devices, SSH, xs, a);
    ArrangedIsGrouping(devices, SSH, ys, b);
    GroupingInRange(devices, SSH, a);
    GroupingInRange(devices, SSH, b);
    BlockEndsAtRank(devices, SSH, xs, a, e);
    BlockEndsAtRank(devices, SSH, ys, b, f);
    TopMarksLast(devices, SSH, xs, a, e, i);
    LastTops(devices, SSH, ys, b, i);
    SomeGroupHolds(devices, SSH, i, v);
    if i in Members(devices, SSH, w) {
      TiedTops(devices, SSH, i, v, w);
      TopMarksLast(devices, SSH, ys, b, f, i);
    }
  }

  lemma SomeGroupHolds(devices: seq<Device>, kind: string, i: nat, v: string)
    requires Tops(devices, kind, i, v)
    ensures !InNoGroup(devices, kind, i)
  {
    hide Members;
  }

  lemma TiedTops(devices: seq<Device>, kind: string, i: nat, v: string, w: string)
    requires Tops(devices, kind, i, v) && Tie(devices, kind, v, w) && i in Members(devices, kind, w)
    ensures Tops(devices, kind, i, w)
  {
    hide Members;
  }

  lemma UnsettledTls(devices: seq<Device>, i: nat, v: string, w: string) returns (a: seq<seq<nat>>, b: seq<seq<nat>>)
    requires i < |devices| && Tops(devices, TLS, i, v) && Tops(devices, TLS, i, w) && TlsHintOf(devices, v) != TlsHintOf(devices, w)
    ensures IsGrouping(devices, TLS, a) && IsGrouping(devices, TLS, b) && AllInRange(devices, a) && AllInRange(devices, b)
    ensures LastWith(a, i).Some? && LastWith(b, i).Some?
    ensures TlsHint(devices, a[LastWith(a, i).value]) != TlsHint(devices, b[LastWith(b, i).value])
  {
    hide Members, LastWith, TlsHint, Arranged;
    var xs, ys, e, f;
    xs, a, e := PutLast(devices, TLS, v);
    ys, b, f := PutLast(devices, TLS, w);
    ArrangedIsGrouping(devices, TLS, xs, a);
    ArrangedIsGrouping(devices, TLS, ys, b);
    GroupingInRange(devices, TLS, a);
    GroupingInRange(devices, TLS, b);
    hide Tops;
    TopMarksLast(devices, TLS, xs, a, e, i);
    TopMarksLast(devices, TLS, ys, b, f, i);
  }

  /** What the hints of all walks have in common. */
  ghost predicate HintsDetermined(devices: seq<Device>) {
    forall i, a, b :: 0 <= i < |devices| && MayShow(devices, i, a) && MayShow(devices, i, b) ==> a == b
  }

  lemma ShowsUnder(devices: seq<Device>, ssh: seq<seq<nat>>, tls: seq<seq<nat>>, i: nat)
    requires i < |devices| && IsGrouping(devices, SSH, ssh) && IsGrouping(devices, TLS, tls)
    ensures AllInRange(devices, ssh) && AllInRange(devices, tls) && MayShow(devices, i, HintUnder(devices, ssh, tls, i))
  {
    hide IsGrouping, HintUnder;
    GroupingInRange(devices, SSH, ssh);
    GroupingInRange(devices, TLS, tls);
    assert ShownUnder(devices, ssh, tls, i, HintUnder(devices, ssh, tls, i));
  }

  lemma SomeGrouping(devices: seq<Device>, kind: string) returns (groups: seq<seq<nat>>)
    ensures IsGrouping(devices, kind, groups)
  {
    hide Arranged;
    var values;
    values, groups := ArrangementExists(devices, kind);
    ArrangedIsGrouping(devices, kind, values, groups);
  }

  lemma UnsettledSshShows(devices: seq<Device>, i: nat, v: string, w: string)
    requires Tops(devices, SSH, i, v) && Tie(devices, SSH, v, w) && !SettledTie(devices, i, v, w)
    ensures !HintsDetermined(devices)
  {
    MembersSpec(devices, SSH, v);
    hide Members, IsGrouping, LastWith, MayShow, SettledTie;
    assert i < |devices|;
    var a, b := UnsettledSsh(devices, i, v, w);
    var tls := SomeGrouping(devices, TLS);
    ShowsUnder(devices, a, tls, i);
    ShowsUnder(devices, b, tls, i);
  }

  lemma UnsettledTlsShows(devices: seq<Device>, i: nat, v: string, w: string)
    requires InNoGroup(devices, SSH, i) && Tops(devices, TLS, i, v) && Tops(devices, TLS, i, w)
    requires TlsHintOf(devices, v) != TlsHintOf(devices, w)
    ensures !HintsDetermined(devices)
  {
    MembersSpec(devices, TLS, v);
    hide Members, LastWith, MayShow, TlsHint;
    assert i < |devices|;
    var a, b := UnsettledTls(devices, i, v, w);
    var values, ssh := ArrangementExists(devices, SSH);
    ArrangedIsGrouping(devices, SSH, values, ssh);
    LastTops(devices, SSH, values, ssh, i);
    assert LastWith(ssh, i).None?;
    hide IsGrouping, Tops, Arranged;
    ShowsUnder(devices, ssh, a, i);
    ShowsUnder(devices, ssh, b, i);
  }

  /** All walks leave the same hints exactly when the SSH ties are settled, and on the devices they leave alone the certificate ties are. */
  lemma HintsDeterminedIff(devices: seq<Device>)
    ensures HintsDetermined(devices) <==> SshSettled(devices) && TlsSettled(devices)
  {
    hide Members, MayShow, Tops, Tie, InNoGroup, SettledTie, TlsHintOf;
    if SshSettled(devices) && TlsSettled(devices) {
      hide SshSettled, TlsSettled;
      forall i, a, b | 0 <= i < |devices| && MayShow(devices, i, a) && MayShow(devices, i, b) ensures a == b {
        SettledHints(devices, i, a, b);
      }
    } else if !SshSettled(devices) {
      var i: nat, v, w :| Tops(devices, SSH, i, v) && Tie(devices, SSH, v, w) && !SettledTie(devices, i, v, w);
      hide HintsDetermined;
      UnsettledSshShows(devices, i, v, w);
    } else {
      var i: nat, v, w :| InNoGroup(devices, SSH, i) && Tops(devices, TLS, i, v) && Tops(devices, TLS, i, w)
                     && TlsHintOf(devices, v) != TlsHintOf(devices, w);
      hide HintsDetermined;
      UnsettledTlsShows(devices, i, v, w);
    }
  }

  /** No ties at all are more than enough. */
  lemma NoTiesDetermineHints(devices: seq<Device>)
    requires NoTies(devices, SSH) && NoTies(devices, TLS)
    ensures HintsDetermined(devices)
  {
    GroupingDeterminedIff(devices, SSH);
    GroupingDeterminedIff(devices, TLS);
    hide NoTies, HintUnder, IsGrouping;
    forall i, a, b | 0 <= i < |devices| && MayShow(devices, i, a) && MayShow(devices, i, b) ensures a == b {
      var ssh, tls :| IsGrouping(devices, SSH, ssh) && IsGrouping(devices, TLS, tls) && ShownUnder(devices, ssh, tls, i, a);
      var otherSsh, otherTls :| IsGrouping(devices, SSH, otherSsh) && IsGrouping(devices, TLS, otherTls) && ShownUnder(devices, otherSsh, otherTls, i, b);
    }
  }

  // ---------- what the hints mean ----------

  /** "Likely same VM" exactly when another device presents the same SSH key. */
  lemma SameVmIffKeyShared(devices: seq<Device>, i: nat)
    requires OneEach(devices) && i < |devices|
    ensures HintFor(devices, i).SameVm? <==>
              KeyOf(devices[i], SSH).Some?
              && exists j :: 0 <= j < |devices| && j != i && KeyOf(devices[j], SSH) == KeyOf(devices[i], SSH)
  {
    hide Members, Values, Shares, Differ;
    var key := KeyOf(devices[i], SSH);
    if key.Some? {
      var group := Members(devices, SSH, key.value);
      MemberKey(devices, SSH, key.value, i);
      MembersSpec(devices, SSH, key.value);
      MembersDistinct(devices, SSH, key.value);
      if |group| >= 2 {
        var j := if group[0] == i then group[1] else group[0];
        assert j in group;
        MemberKey(devices, SSH, key.value, j);
      }
      if j :| 0 <= j < |devices| && j != i && KeyOf(devices[j], SSH) == key {
        MemberKey(devices, SSH, key.value, j);
        TwoMembers(group, i, j);
      }
    }
  }

  lemma TwoMembers(group: seq<nat>, i: nat, j: nat)
    requires i in group && j in group && i != j
    ensures |group| >= 2
  {
  }

  /** With one key per device, no device is in a group twice. */
  lemma {:induction false} MembersDistinct(devices: seq<Device>, kind: string, value: string)
    requires OneEach(devices) && IsKind(kind)
    ensures forall g, h :: 0 <= g < h < |Members(devices, kind, value)| ==> Members(devices, kind, value)[g] < Members(devices, kind, value)[h]
  {
    if devices != [] {
      var n := |devices| - 1;
      assert |Values(devices[n], kind)| <= 1;
      var earlier, copies := Members(devices[..n], kind, value), Copies(Values(devices[n], kind), value, n);
      var members := Members(devices, kind, value);
      assert members == earlier + copies;
      MembersDistinct(devices[..n], kind, value);
      MembersSpec(devices[..n], kind, value);
      CopiesSpec(Values(devices[n], kind), value, n);
      hide Members, Copies, Values;
      assert |copies| <= 1;
      forall g, h | 0 <= g < h < |members| ensures members[g] < members[h] {
        if h == |earlier| {
          assert earlier[g] in earlier && copies[0] in copies;
          assert members[g] == earlier[g] < n == copies[0];
        } else {
          assert members[g] == earlier[g] < earlier[h] == members[h];
        }
      }
    }
  }

  /** Two devices share a group number exactly when they present the same SSH key. */
  lemma SameNumberIffSameKey(devices: seq<Device>, i: nat, j: nat)
    requires OneEach(devices) && i < |devices| && j < |devices|
    requires HintFor(devices, i).SameVm? && HintFor(devices, j).SameVm?
    ensures HintFor(devices, i).number == HintFor(devices, j).number <==> KeyOf(devices[i], SSH) == KeyOf(devices[j], SSH)
    ensures HintFor(devices, i).number == HintFor(devices, j).number ==> HintFor(devices, i) == HintFor(devices, j)
  {
    hide Members, KeyOf, Values, LedBy, Shares, Differ;
    var x, y := KeyOf(devices[i], SSH).value, KeyOf(devices[j], SSH).value;
    if x != y {
      var p, q := Members(devices, SSH, x), Members(devices, SSH, y);
      MembersSpec(devices, SSH, x);
      MembersSpec(devices, SSH, y);
      MemberKey(devices, SSH, x, p[0]);
      MemberKey(devices, SSH, y, q[0]);
      if p[0] < q[0] {
        LeaderRaises(devices, SSH, p[0], q[0]);
      } else {
        LeaderRaises(devices, SSH, q[0], p[0]);
      }
    }
  }

  lemma LeaderRaises(devices: seq<Device>, kind: string, n: nat, m: nat)
    requires n < m <= |devices| && Leads(devices, kind, n)
    ensures |LedBy(devices, kind, n)| < |LedBy(devices, kind, m)|
  {
    hide Members, KeyOf, Values, Leads;
    LedByPrefix(devices, kind, n + 1, m);
  }

  /** Certificates never make, merge, move or break an SSH group. */
  lemma CertificatesDoNotMoveGroups(devices: seq<Device>, others: seq<Device>, i: nat)
    requires |devices| == |others| && i < |devices|
    requires forall k :: 0 <= k < |devices| ==> Values(devices[k], SSH) == Values(others[k], SSH)
    ensures HintFor(devices, i).SameVm? == HintFor(others, i).SameVm?
    ensures HintFor(devices, i).SameVm? ==>
              HintFor(devices, i).number == HintFor(others, i).number && HintFor(devices, i).size == HintFor(others, i).size
  {
    hide Members, Values, LedBy, Shares, Differ;
    forall value ensures Members(devices, SSH, value) == Members(others, SSH, value) {
      MembersDependOnValues(devices, others, SSH, value);
    }
    forall n | 0 <= n <= |devices| ensures LedBy(devices, SSH, n) == LedBy(others, SSH, n) {
      LedByDependsOnValues(devices, others, SSH, n);
    }
    if KeyOf(devices[i], SSH).Some? {
      MembersSpec(devices, SSH, KeyOf(devices[i], SSH).value);
    }
    assert KeyOf(devices[i], SSH) == KeyOf(others[i], SSH);
  }

  lemma {:induction false} MembersDependOnValues(devices: seq<Device>, others: seq<Device>, kind: string, value: string)
    requires |devices| == |others| && forall k :: 0 <= k < |devices| ==> Values(devices[k], kind) == Values(others[k], kind)
    ensures Members(devices, kind, value) == Members(others, kind, value)
  {
    hide Values, Copies;
    if devices != [] {
      MembersDependOnValues(devices[..|devices| - 1], others[..|others| - 1], kind, value);
    }
  }

  lemma {:induction false} LedByDependsOnValues(devices: seq<Device>, others: seq<Device>, kind: string, n: nat)
    requires |devices| == |others| && n <= |devices|
    requires forall k :: 0 <= k < |devices| ==> Values(devices[k], kind) == Values(others[k], kind)
    ensures LedBy(devices, kind, n) == LedBy(others, kind, n)
  {
    hide Values, Members;
    if n > 0 {
      LedByDependsOnValues(devices, others, kind, n - 1);
      var key := KeyOf(devices[n - 1], kind);
      if key.Some? {
        MembersDependOnValues(devices, others, kind, key.value);
      }
    }
  }

  /** Which values a device presents. */
  lemma {:induction false} ValuesMeans(device: Device, kind: string, value: string)
    ensures value in Values(device, kind) <==> Fingerprint(kind, value) in device
  {
    if device != [] {
      var n := |device| - 1;
      assert device == device[..n] + [device[n]];
      ValuesMeans(device[..n], kind, value);
    }
  }

  /** The devices that present the same value of a kind as a given device. */
  function Sharing(devices: seq<Device>, kind: string, i: nat): set<nat>
    requires i < |devices|
  {
    set k | 0 <= k < |devices| && KeyOf(devices[k], kind) == KeyOf(devices[i], kind)
  }

  /** With one key per device, the group of a device is the set of devices that share its value. */
  lemma MembersAreSharing(devices: seq<Device>, kind: string, i: nat)
    requires OneEach(devices) && IsKind(kind) && i < |devices| && KeyOf(devices[i], kind).Some?
    ensures var members := Members(devices, kind, KeyOf(devices[i], kind).value);
            && (forall k: nat :: k in members <==> k in Sharing(devices, kind, i))
            && |members| == |Sharing(devices, kind, i)|
  {
    hide Members, KeyOf, Values, OneEach;
    var value := KeyOf(devices[i], kind).value;
    MembersSpec(devices, kind, value);
    MembersDistinct(devices, kind, value);
    var members := Members(devices, kind, value);
    forall k: nat ensures k in members <==> k in Sharing(devices, kind, i) {
      if k < |devices| {
        MemberKey(devices, kind, value, k);
      }
    }
    DistinctCount(members);
    assert (set k: nat | k in members) == Sharing(devices, kind, i);
  }

  /** All devices that share a device's SSH key also present one certificate. */
  ghost predicate CommonCertificate(devices: seq<Device>, i: nat)
    requires i < |devices|
  {
    exists certificate :: PresentedByAll(devices, i, certificate)
  }

  ghost predicate PresentedByAll(devices: seq<Device>, i: nat, certificate: string)
    requires i < |devices|
  {
    forall k :: k in Sharing(devices, SSH, i) ==> Fingerprint(TLS, certificate) in devices[k]
  }

  /** All devices that share a device's certificate have an SSH key, and not all the same. */
  ghost predicate DifferentKeys(devices: seq<Device>, i: nat)
    requires i < |devices|
  {
    && (forall k :: k in Sharing(devices, TLS, i) ==> KeyOf(devices[k], SSH).Some?)
    && exists k, l :: k in Sharing(devices, TLS, i) && l in Sharing(devices, TLS, i) && KeyOf(devices[k], SSH) != KeyOf(devices[l], SSH)
  }

  lemma SharesMeans(devices: seq<Device>, group: seq<nat>, i: nat)
    requires i < |devices| && InRange(devices, group) && |group| >= 2
    requires forall k: nat :: k in group <==> k in Sharing(devices, SSH, i)
    ensures Shares(devices, group, TLS) <==> CommonCertificate(devices, i)
  {
    hide Values, KeyOf, Sharing;
    forall k, v | k in group ensures v in Values(devices[k], TLS) <==> Fingerprint(TLS, v) in devices[k] {
      ValuesMeans(devices[k], TLS, v);
    }
    forall v ensures AllHave(devices, group, TLS, v) <==> PresentedByAll(devices, i, v) {}
  }

  lemma DifferMeans(devices: seq<Device>, group: seq<nat>, i: nat)
    requires OneEach(devices) && i < |devices| && InRange(devices, group)
    requires forall k: nat :: k in group <==> k in Sharing(devices, TLS, i)
    ensures Differ(devices, group) <==> DifferentKeys(devices, i)
  {
    hide Values, Sharing;
    forall k | k in group ensures |Values(devices[k], SSH)| <= 1 { assert IsKind(SSH); }
    if Differ(devices, group) {
      var v, w :| v != w && Held(devices, group, SSH, v) && Held(devices, group, SSH, w);
      var k :| k in group && v in Values(devices[k], SSH);
      var l :| l in group && w in Values(devices[l], SSH);
      assert KeyOf(devices[k], SSH) == Some(v) && KeyOf(devices[l], SSH) == Some(w);
    }
    if DifferentKeys(devices, i) {
      var k, l :| k in Sharing(devices, TLS, i) && l in Sharing(devices, TLS, i) && KeyOf(devices[k], SSH) != KeyOf(devices[l], SSH);
      var v, w := KeyOf(devices[k], SSH).value, KeyOf(devices[l], SSH).value;
      assert Held(devices, group, SSH, v) && Held(devices, group, SSH, w);
    }
  }

  /**
    * What a hint says, with one key and one certificate per device: with others of the same SSH key, how many they are
    * and whether they also share a certificate; else with others of the same certificate, how many, and whether they all
    * have keys and different ones; else whether the device presents anything at all.
    */
  lemma HintsMean(devices: seq<Device>, i: nat)
    requires OneEach(devices) && i < |devices|
    ensures var hint := HintFor(devices, i);
            if KeyOf(devices[i], SSH).Some? && |Sharing(devices, SSH, i)| >= 2 then
              hint.SameVm? && hint.size == |Sharing(devices, SSH, i)| && (hint.tlsToo <==> CommonCertificate(devices, i))
            else if KeyOf(devices[i], TLS).Some? && |Sharing(devices, TLS, i)| >= 2 then
              hint == if DifferentKeys(devices, i) then KeysDiffer(|Sharing(devices, TLS, i)|) else SharedService(|Sharing(devices, TLS, i)|)
            else hint == if devices[i] == [] then NotEnough else Unique
  {
    var key, certificate := KeyOf(devices[i], SSH), KeyOf(devices[i], TLS);
    hide Members, Values, KeyOf, OneEach, LedBy, Shares, Differ, CommonCertificate, DifferentKeys, Sharing;
    if key.Some? {
      MembersAreSharing(devices, SSH, i);
      MembersSpec(devices, SSH, key.value);
      if |Sharing(devices, SSH, i)| >= 2 {
        SharesMeans(devices, Members(devices, SSH, key.value), i);
      }
    }
    if certificate.Some? {
      MembersAreSharing(devices, TLS, i);
      MembersSpec(devices, TLS, certificate.value);
      DifferMeans(devices, Members(devices, TLS, certificate.value), i);
    }
  }

  /** The first device of several with one SSH key. */
  predicate FirstOfSeveral(devices: seq<Device>, n: nat)
    requires n < |devices|
  {
    && KeyOf(devices[n], SSH).Some? && |Sharing(devices, SSH, n)| >= 2
    && forall k :: k in Sharing(devices, SSH, n) ==> n <= k
  }

  lemma LeadsIsFirst(devices: seq<Device>, n: nat)
    requires OneEach(devices) && n < |devices|
    ensures Leads(devices, SSH, n) <==> FirstOfSeveral(devices, n)
  {
    var key := KeyOf(devices[n], SSH);
    if key.Some? {
      MembersAreSharing(devices, SSH, n);
      MembersSpec(devices, SSH, key.value);
      MembersDistinct(devices, SSH, key.value);
      var members := Members(devices, SSH, key.value);
      assert n in Sharing(devices, SSH, n);
      hide Members, KeyOf, Sharing, OneEach;
      if |members| >= 2 {
        assert members[0] in members;
        forall k | k in members ensures members[0] <= k {
          var x :| 0 <= x < |members| && members[x] == k;
        }
      }
    }
  }

  lemma {:induction false} LedByCounts(devices: seq<Device>, n: nat)
    requires OneEach(devices) && n <= |devices|
    ensures |LedBy(devices, SSH, n)| == |set k | 0 <= k < n && FirstOfSeveral(devices, k)|
  {
    hide FirstOfSeveral, Members, KeyOf, OneEach;
    if n > 0 {
      LedByCounts(devices, n - 1);
      LeadsIsFirst(devices, n - 1);
      assert |LedBy(devices, SSH, n)| == |LedBy(devices, SSH, n - 1)| + (if Leads(devices, SSH, n - 1) then 1 else 0);
      hide Leads, LedBy;
      var before := set k | 0 <= k < n - 1 && FirstOfSeveral(devices, k);
      assert (set k | 0 <= k < n && FirstOfSeveral(devices, k)) == before + (if FirstOfSeveral(devices, n - 1) then {n - 1} else {});
    }
  }

  /** A group is numbered from one by its smallest member: the number counts the first devices of groups up to its own. */
  lemma NumberCountsFirsts(devices: seq<Device>, i: nat, first: nat)
    requires OneEach(devices) && i < |devices| && HintFor(devices, i).SameVm?
    requires first in Sharing(devices, SSH, i) && forall k :: k in Sharing(devices, SSH, i) ==> first <= k
    ensures HintFor(devices, i).number == |set k | 0 <= k < first && FirstOfSeveral(devices, k)| + 1
  {
    HintsMean(devices, i);
    var key := KeyOf(devices[i], SSH);
    MembersAreSharing(devices, SSH, i);
    MembersSpec(devices, SSH, key.value);
    MembersDistinct(devices, SSH, key.value);
    var group := Members(devices, SSH, key.value);
    hide Members, Values, KeyOf, OneEach, LedBy, Shares, Differ, Sharing, FirstOfSeveral;
    assert group[0] in group;
    var x :| 0 <= x < |group| && group[x] == first;
    assert group[0] == first;
    LedByCounts(devices, first);
  }

  // ---------- what the probes produce ----------

  const TLS_PORTS: seq<Port> := [2087, 2083, 2096, 443, 8443, 465, 993, 995]

  /** The certificate of the first listed port that is open, whether or not the handshake works. */
  function ProbeTls(ports: seq<Port>, openPorts: seq<Port>, tls: Port -> Option<string>): (fs: seq<Fingerprint>)
    ensures |fs| <= 1 && forall f :: f in fs ==> f.kind == TLS
  {
    if ports == [] then []
    else if ports[0] in openPorts then
      match tls(ports[0])
      case Some(value) => [Fingerprint(TLS, Decimal(ports[0]) + ":" + value)]
      case None => []
    else ProbeTls(ports[1..], openPorts, tls)
  }

  function ProbeIdentity(openPorts: seq<Port>, ssh: Option<string>, tls: Port -> Option<string>): seq<Fingerprint> {
    (if 22 in openPorts && ssh.Some? then [Fingerprint(SSH, ssh.value)] else []) + ProbeTls(TLS_PORTS, openPorts, tls)
  }

  /** The certificate probe asks one port: the first listed one that is open, and no other even if that one fails. */
  lemma {:induction false} ProbeTlsExactly(ports: seq<Port>, openPorts: seq<Port>, tls: Port -> Option<string>, k: nat)
    requires forall i :: 0 <= i < k && i < |ports| ==> ports[i] !in openPorts
    requires k <= |ports| && (k < |ports| ==> ports[k] in openPorts)
    ensures ProbeTls(ports, openPorts, tls)
            == if k == |ports| || tls(ports[k]).None? then [] else [Fingerprint(TLS, Decimal(ports[k]) + ":" + tls(ports[k]).value)]
  {
    hide Decimal;
    if k > 0 {
      assert ports[0] !in openPorts;
      ProbeTlsExactly(ports[1..], openPorts, tls, k - 1);
    }
  }

  /** A probe asks for the SSH key exactly if port 22 is open, and reports what it gets. */
  lemma ProbeSshExactly(openPorts: seq<Port>, ssh: Option<string>, tls: Port -> Option<string>, value: string)
    ensures Fingerprint(SSH, value) in ProbeIdentity(openPorts, ssh, tls) <==> 22 in openPorts && ssh == Some(value)
  {
    KindsAreTrimmed();
    hide ProbeTls;
  }

  lemma {:induction false} TwoOfKind(device: Device, kind: string)
    requires |Values(device, kind)| >= 1
    ensures exists i :: 0 <= i < |device| && device[i].kind == kind
    ensures |Values(device, kind)| >= 2 ==> exists i, j :: 0 <= i < j < |device| && device[i].kind == kind == device[j].kind
  {
    var n := |device| - 1;
    if |Values(device[..n], kind)| >= 1 {
      TwoOfKind(device[..n], kind);
      var i :| 0 <= i < n && device[..n][i].kind == kind;
      assert device[i].kind == kind;
      if device[n].kind != kind && |Values(device, kind)| >= 2 {
        var x, y :| 0 <= x < y < n && device[..n][x].kind == kind == device[..n][y].kind;
        assert device[x].kind == kind == device[y].kind;
      }
    }
  }

  /** Whatever survives normalisation of a kind comes from the one fingerprint of that kind that was probed. */
  lemma ProbedKind(openPorts: seq<Port>, ssh: Option<string>, tls: Port -> Option<string>, f: Fingerprint)
    requires f in NormalizedFingerprints(ProbeIdentity(openPorts, ssh, tls)) && IsKind(f.kind)
    ensures f.kind == SSH ==> ssh.Some? && f == TrimmedFingerprint(Fingerprint(SSH, ssh.value))
    ensures var probed := ProbeTls(TLS_PORTS, openPorts, tls); f.kind == TLS ==> |probed| == 1 && f == TrimmedFingerprint(probed[0])
  {
    var probed := ProbeIdentity(openPorts, ssh, tls);
    var certificate := ProbeTls(TLS_PORTS, openPorts, tls);
    KindsAreTrimmed();
    NormalizedFingerprintsSpec(probed);
    UsableOfPermutation(probed, f);
    hide NormalizedFingerprints, Usable, TrimSpace, ProbeTls, ValidFingerprint;
    var i :| 0 <= i < |probed| && TrimmedFingerprint(probed[i]) == f;
    assert certificate == [] || certificate[0] in certificate;
  }

  /** What one probe stores, and reading it back leaves, has at most one fingerprint of each kind: the hints of a scan are determined. */
  lemma ProbedDevicesHaveOneEach(openPorts: seq<Port>, ssh: Option<string>, tls: Port -> Option<string>, kind: string)
    requires IsKind(kind)
    ensures |Values(NormalizedFingerprints(ProbeIdentity(openPorts, ssh, tls)), kind)| <= 1
  {
    var probed := ProbeIdentity(openPorts, ssh, tls);
    var device := NormalizedFingerprints(probed);
    NormalizedFingerprintsSpec(probed);
    FingerprintOrder();
    hide NormalizedFingerprints, ProbeTls, ProbeIdentity, TrimmedFingerprint, Values;
    if |Values(device, kind)| >= 2 {
      TwoOfKind(device, kind);
      var i, j :| 0 <= i < j < |device| && device[i].kind == kind == device[j].kind;
      assert device[i] in device && device[j] in device;
      ProbedKind(openPorts, ssh, tls, device[i]);
      ProbedKind(openPorts, ssh, tls, device[j]);
    }
  }

  lemma KindsAreTrimmed()
    ensures TrimSpace(SSH) == SSH && TrimSpace(TLS) == TLS && SSH != TLS
  {
    assert SSH[0] != TLS[0];
  }

  // ---------- the code ----------

  function Listed(byValue: map<string, seq<nat>>, value: string): seq<nat> {
    if value in byValue then byValue[value] else []
  }

  /** A group goes behind those whose smallest members are no larger. */
  method InsertGroup(devices: seq<Device>, kind: string, ghost values: seq<string>, groups: seq<seq<nat>>, ghost value: string, group: seq<nat>)
    returns (more: seq<seq<nat>>, ghost moreValues: seq<string>)
    requires InOrder(values, groups) && AreMembers(devices, kind, values, groups)
    requires value !in values && |group| >= 2 && group == Members(devices, kind, value)
    ensures InOrder(moreValues, more) && AreMembers(devices, kind, moreValues, more)
    ensures forall v :: v in moreValues <==> v == value || v in values
  {
    hide Members, AreMembers;
    var p := 0;
    while p < |groups| && groups[p][0] <= group[0]
      invariant p <= |groups| && forall g :: 0 <= g < p ==> groups[g][0] <= group[0]
    {
      p := p + 1;
    }
    InsertKeepsOrder(values, groups, value, group, p);
    InsertKeepsMembers(devices, kind, values, groups, value, group, p);
    more := groups[..p] + [group] + groups[p..];
    moreValues := values[..p] + [value] + values[p..];
  }

  /** Indices by value, in whatever order the map yields the values, sorted by smallest member. */
  method MatchingGroups(devices: seq<Device>, kind: string) returns (groups: seq<seq<nat>>)
    ensures IsGrouping(devices, kind, groups)
  {
    var byValue := IndicesByValue(devices, kind);
    groups := [];
    ghost var values: seq<string> := [];
    var rest := byValue.Keys;
    while rest != {}
      invariant rest <= byValue.Keys && InOrder(values, groups) && AreMembers(devices, kind, values, groups)
      invariant forall v :: v in values <==> v in byValue && v !in rest && |byValue[v]| > 1
      decreases rest
    {
      hide Members, InOrder, AreMembers;
      var value :| value in rest;
      rest := rest - {value};
      var group := byValue[value];
      assert group == Listed(byValue, value);
      if |group| > 1 {
        groups, values := InsertGroup(devices, kind, values, groups, value, group);
      }
    }
    hide Members;
    forall v | |Members(devices, kind, v)| >= 2 ensures v in values {
      assert |Listed(byValue, v)| >= 2;
    }
    assert Arranged(devices, kind, values, groups);
  }

  lemma AddOne(before: map<string, seq<nat>>, soFar: map<string, seq<nat>>, values: seq<string>, value: string, i: nat, v: string)
    requires Listed(soFar, v) == Listed(before, v) + Copies(values, v, i)
    ensures Listed(soFar[value := Listed(soFar, value) + [i]], v) == Listed(before, v) + Copies(values + [value], v, i)
  {
    hide Copies;
    CopiesOfMore(values, value, v, i);
  }

  method AddDevice(before: map<string, seq<nat>>, device: Device, kind: string, i: nat) returns (byValue: map<string, seq<nat>>)
    ensures forall v :: Listed(byValue, v) == Listed(before, v) + Copies(Values(device, kind), v, i)
  {
    byValue := before;
    for j := 0 to |device|
      invariant forall v :: Listed(byValue, v) == Listed(before, v) + Copies(Values(device[..j], kind), v, i)
    {
      hide Copies, Values, Listed;
      ValuesOfMore(device, kind, j);
      var f := device[j];
      if f.kind == kind {
        forall v { AddOne(before, byValue, Values(device[..j], kind), f.value, i, v); }
        byValue := byValue[f.value := Listed(byValue, f.value) + [i]];
      }
    }
    assert device[..|device|] == device;
  }

  method IndicesByValue(devices: seq<Device>, kind: string) returns (byValue: map<string, seq<nat>>)
    ensures forall v :: Listed(byValue, v) == Members(devices, kind, v)
  {
    byValue := map[];
    for i := 0 to |devices|
      invariant forall v :: Listed(byValue, v) == Members(devices[..i], kind, v)
    {
      hide Copies, Values, Listed, Members;
      forall v { MembersOfMore(devices, kind, v, i); }
      byValue := AddDevice(byValue, devices[i], kind, i);
    }
    assert devices[..|devices|] == devices;
  }

  method Intersect(first: seq<string>, second: seq<string>) returns (result: seq<string>)
    ensures forall v :: v in result <==> v in first && v in second
  {
    var allowed := set v | v in second;
    result := [];
    for i := 0 to |first|
      invariant forall v :: v in result <==> v in first[..i] && v in second
    {
      if first[i] in allowed {
        result := result + [first[i]];
      }
    }
  }

  method GroupSharesFingerprint(devices: seq<Device>, group: seq<nat>, kind: string) returns (shares: bool)
    requires InRange(devices, group)
    ensures shares <==> Shares(devices, group, kind)
  {
    if |group| < 2 {
      return false;
    }
    assert group[0] in group;
    var values := Values(devices[group[0]], kind);
    assert forall k :: 0 <= k < |group| ==> group[k] in group;
    for i := 1 to |group|
      invariant i > 1 ==> values != []
      invariant forall v :: v in values <==> forall k :: 0 <= k < i ==> v in Values(devices[group[k]], kind)
    {
      assert group[i] in group;
      values := Intersect(values, Values(devices[group[i]], kind));
      if values == [] {
        forall v ensures !AllHave(devices, group, kind, v) {
          assert v !in values;
        }
        return false;
      }
    }
    forall k | k in group ensures values[0] in Values(devices[k], kind) {
      assert values[0] in values;
      var x :| 0 <= x < |group| && group[x] == k;
    }
    assert AllHave(devices, group, kind, values[0]);
    return true;
  }

  lemma FrontInRange(devices: seq<Device>, group: seq<nat>)
    requires InRange(devices, group) && group != []
    ensures InRange(devices, group[..|group| - 1]) && group[|group| - 1] < |devices|
  {
    var front, last := group[..|group| - 1], group[|group| - 1];
    assert group == front + [last];
    assert forall k :: k in front ==> k in group;
    assert last in group;
  }

  /** Every value of a kind that a group presents. */
  function Presented(devices: seq<Device>, group: seq<nat>, kind: string): set<string>
    requires InRange(devices, group)
  {
    if group == [] then {}
    else
      var n := |group| - 1;
      FrontInRange(devices, group);
      Presented(devices, group[..n], kind) + (set v | v in Values(devices[group[n]], kind))
  }

  lemma {:induction false} PresentedIsHeld(devices: seq<Device>, group: seq<nat>, kind: string, v: string)
    requires InRange(devices, group)
    ensures v in Presented(devices, group, kind) <==> Held(devices, group, kind, v)
  {
    hide Values;
    if group != [] {
      var n := |group| - 1;
      FrontInRange(devices, group);
      assert group == group[..n] + [group[n]];
      PresentedIsHeld(devices, group[..n], kind, v);
    }
  }

  lemma TwoPresented(devices: seq<Device>, group: seq<nat>)
    requires InRange(devices, group)
    ensures |Presented(devices, group, SSH)| > 1 <==> exists v, w :: v != w && Held(devices, group, SSH, v) && Held(devices, group, SSH, w)
  {
    hide Values, Held;
    var keys := Presented(devices, group, SSH);
    hide Presented;
    forall v { PresentedIsHeld(devices, group, SSH, v); }
    if |keys| > 1 {
      var v :| v in keys;
      assert |keys - {v}| == |keys| - 1;
      var w :| w in keys - {v};
      assert v != w && Held(devices, group, SSH, v) && Held(devices, group, SSH, w);
    }
    if v, w :| v != w && Held(devices, group, SSH, v) && Held(devices, group, SSH, w) {
      SubsetSize({v, w}, keys);
    }
  }

  method GroupHasDifferentSshKeys(devices: seq<Device>, group: seq<nat>) returns (differ: bool)
    requires InRange(devices, group)
    ensures differ <==> Differ(devices, group)
  {
    hide Values, Held;
    var keys: set<string> := {};
    assert forall k :: 0 <= k < |group| ==> group[k] in group;
    for i := 0 to |group|
      invariant forall k :: 0 <= k < i ==> Values(devices[group[k]], SSH) != []
      invariant keys == Presented(devices, group[..i], SSH)
    {
      var values := Values(devices[group[i]], SSH);
      if values == [] {
        return false;
      }
      assert group[..i + 1][..i] == group[..i];
      keys := keys + (set v | v in values);
    }
    assert group[..|group|] == group;
    hide Presented;
    TwoPresented(devices, group);
    differ := |keys| > 1;
  }

  lemma LastWithMore(groups: seq<seq<nat>>, n: nat, i: nat)
    requires n < |groups|
    ensures LastWith(groups[..n + 1], i) == if i in groups[n] then Some(n) else LastWith(groups[..n], i)
  {
    assert groups[..n + 1][..n] == groups[..n];
  }

  /** The first pass: every group writes its hint over what its members had. */
  method MarkSshGroups(devices: seq<Device>, ssh: seq<seq<nat>>, hints: array<Hint>) returns (assignedSsh: set<nat>)
    requires hints.Length == |devices| && AllInRange(devices, ssh)
    requires forall i :: 0 <= i < |devices| ==> hints[i] == DefaultHint(devices[i])
    modifies hints
    ensures forall i :: 0 <= i < |devices| ==> hints[i] == SshHint(devices, ssh, i)
    ensures forall i :: 0 <= i < |devices| ==> (i in assignedSsh <==> LastWith(ssh, i).Some?)
  {
    assignedSsh := {};
    for g := 0 to |ssh|
      invariant forall i :: 0 <= i < |devices| ==> hints[i] == SshHint(devices, ssh[..g], i)
      invariant forall i :: 0 <= i < |devices| ==> (i in assignedSsh <==> LastWith(ssh[..g], i).Some?)
    {
      hide LastWith, Shares;
      var group := ssh[g];
      var tlsToo := GroupSharesFingerprint(devices, group, TLS);
      ghost var was, assignedBefore := hints[..], assignedSsh;
      for k := 0 to |group|
        invariant forall i :: 0 <= i < |devices| ==>
                    hints[i] == if i in group[..k] then SameVm(g + 1, |group|, tlsToo) else was[i]
        invariant forall i :: i in assignedSsh <==> i in assignedBefore || i in group[..k]
      {
        assert group[k] in group && group[..k + 1] == group[..k] + [group[k]];
        hints[group[k]] := SameVm(g + 1, |group|, tlsToo);
        assignedSsh := assignedSsh + {group[k]};
      }
      assert group[..|group|] == group;
      forall i | 0 <= i < |devices| ensures
          hints[i] == SshHint(devices, ssh[..g + 1], i) && (i in assignedSsh <==> LastWith(ssh[..g + 1], i).Some?) {
        LastWithMore(ssh, g, i);
      }
    }
    assert ssh[..|ssh|] == ssh;
  }

  /** The second pass: certificate groups write over the members that the first pass left alone. */
  method MarkTlsGroups(devices: seq<Device>, ghost ssh: seq<seq<nat>>, tls: seq<seq<nat>>, assignedSsh: set<nat>, hints: array<Hint>)
    requires hints.Length == |devices| && AllInRange(devices, ssh) && AllInRange(devices, tls)
    requires forall i :: 0 <= i < |devices| ==> hints[i] == SshHint(devices, ssh, i)
    requires forall i :: 0 <= i < |devices| ==> (i in assignedSsh <==> LastWith(ssh, i).Some?)
    modifies hints
    ensures forall i :: 0 <= i < |devices| ==> hints[i] == HintUnder(devices, ssh, tls, i)
  {
    for g := 0 to |tls|
      invariant forall i :: 0 <= i < |devices| ==> hints[i] == HintUnder(devices, ssh, tls[..g], i)
    {
      hide LastWith, Shares, Differ;
      var group := tls[g];
      var hint := SharedService(|group|);
      var differ := GroupHasDifferentSshKeys(devices, group);
      if differ {
        hint := KeysDiffer(|group|);
      }
      ghost var was := hints[..];
      for k := 0 to |group|
        invariant forall i :: 0 <= i < |devices| ==> hints[i] == if i in group[..k] && i !in assignedSsh then hint else was[i]
      {
        assert group[k] in group && group[..k + 1] == group[..k] + [group[k]];
        if group[k] in assignedSsh {
          continue;
        }
        hints[group[k]] := hint;
      }
      assert group[..|group|] == group;
      forall i | 0 <= i < |devices| ensures hints[i] == HintUnder(devices, ssh, tls[..g + 1], i) {
        LastWithMore(tls, g, i);
      }
    }
    assert tls[..|tls|] == tls;
  }

  /** Hints written in place, from groups in some order; from devices with one key and one certificate each, the one answer. */
  method ClassifyIdentityGroups(devices: seq<Device>, hints: array<Hint>)
    requires hints.Length == |devices|
    modifies hints
    ensures exists ssh, tls ::
              && IsGrouping(devices, SSH, ssh) && IsGrouping(devices, TLS, tls)
              && AllInRange(devices, ssh) && AllInRange(devices, tls)
              && forall i :: 0 <= i < |devices| ==> hints[i] == HintUnder(devices, ssh, tls, i)
    ensures OneEach(devices) ==> forall i :: 0 <= i < |devices| ==> hints[i] == HintFor(devices, i)
  {
    for i := 0 to |devices|
      invariant forall k :: 0 <= k < i ==> hints[k] == DefaultHint(devices[k])
    {
      hints[i] := DefaultHint(devices[i]);
    }
    var ssh := MatchingGroups(devices, SSH);
    var tls := MatchingGroups(devices, TLS);
    GroupingInRange(devices, SSH, ssh);
    GroupingInRange(devices, TLS, tls);
    hide LastWith, Shares, Differ, IsGrouping, OneEach;
    var assignedSsh := MarkSshGroups(devices, ssh, hints);
    MarkTlsGroups(devices, ssh, tls, assignedSsh, hints);
    if OneEach(devices) {
      forall i | 0 <= i < |devices| ensures hints[i] == HintFor(devices, i) {
        HintsAreDetermined(devices, ssh, tls, i);
      }
    }
  }
}
