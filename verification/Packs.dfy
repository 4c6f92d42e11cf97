/** The closure of baseline packs selected by profiles. */
module Packs {
  import opened Basics
  import opened Ordering

  datatype Pack = Pack(inherits: seq<string>, demands: seq<string>)

  /** `packs.get(pid, {})`'s `inherits` followed by its `requires`. */
  function Needs(packs: map<string, Pack>, pid: string): seq<string> {
    if pid in packs then packs[pid].inherits + packs[pid].demands else []
  }

  /** Pack `pid` inherits or requires `d`. */
  ghost predicate DependsOn(packs: map<string, Pack>, pid: string, d: string) {
    pid in packs && (d in packs[pid].inherits || d in packs[pid].demands)
  }

  lemma NeedsAre(packs: map<string, Pack>, pid: string, d: string)
    ensures d in Needs(packs, pid) <==> DependsOn(packs, pid, d)
  {
  }

  /** The non-empty pack names of the requested profiles. */
  ghost predicate IsSeed(profiles: map<string, seq<string>>, requested: seq<string>, pid: string) {
    pid != "" && exists i :: 0 <= i < |requested| && Offers(profiles, requested[i], pid)
  }

  predicate Offers(profiles: map<string, seq<string>>, profile: string, pid: string) {
    profile in profiles && pid in profiles[profile]
  }

  ghost predicate IsClosed(packs: map<string, Pack>, all: set<string>) {
    && (forall pid, d :: pid in all && pid in packs && d in packs[pid].inherits ==> d in all)
    && (forall pid, d :: pid in all && pid in packs && d in packs[pid].demands ==> d in all)
  }

  ghost predicate HasSeeds(profiles: map<string, seq<string>>, requested: seq<string>, all: set<string>) {
    forall pid :: IsSeed(profiles, requested, pid) ==> pid in all
  }

  ghost predicate IsAdmissible(profiles: map<string, seq<string>>, packs: map<string, Pack>, requested: seq<string>,
                               all: set<string>) {
    IsClosed(packs, all) && HasSeeds(profiles, requested, all)
  }

  /** `all` is the least set with the seeds that is closed under `inherits` and `requires`. */
  ghost predicate IsLeast(profiles: map<string, seq<string>>, packs: map<string, Pack>, requested: seq<string>,
                          all: set<string>) {
    && IsAdmissible(profiles, packs, requested, all)
    && forall other :: IsAdmissible(profiles, packs, requested, other) ==> all <= other
  }

  /** Everything that can ever be selected. */
  function Universe(packs: map<string, Pack>, seeds: set<string>): set<string> {
    seeds + (set pid, d | pid in packs && d in packs[pid].inherits :: d)
    + (set pid, d | pid in packs && d in packs[pid].demands :: d)
  }

  /** `ordered` holds nothing that a closed set with the seeds could lack. */
  ghost predicate IsForced(profiles: map<string, seq<string>>, packs: map<string, Pack>, requested: seq<string>,
                           ordered: seq<string>) {
    forall other, x :: IsAdmissible(profiles, packs, requested, other) && x in ordered ==> x in other
  }

  lemma StaysForced(profiles: map<string, seq<string>>, packs: map<string, Pack>, requested: seq<string>,
                    ordered: seq<string>, pid: string, d: string)
    requires IsForced(profiles, packs, requested, ordered) && pid in ordered && DependsOn(packs, pid, d)
    ensures IsForced(profiles, packs, requested, ordered + [d])
  {
    forall other, x | IsAdmissible(profiles, packs, requested, other) && x in ordered + [d] ensures x in other {
      assert pid in other;
    }
  }

  /** `add` for every pack of every requested profile. */
  method Seeds(profiles: map<string, seq<string>>, requested: seq<string>) returns (ordered: seq<string>)
    ensures Distinct(ordered)
    ensures forall pid :: pid in ordered <==> IsSeed(profiles, requested, pid)
  {
    ordered := [];
    for i := 0 to |requested|
      invariant Distinct(ordered)
      invariant forall pid :: pid in ordered <==>
        (pid != "" && exists k :: 0 <= k < i && Offers(profiles, requested[k], pid))
    {
      var packs := if requested[i] in profiles then profiles[requested[i]] else [];
      ghost var before := ordered;
      for j := 0 to |packs|
        invariant Distinct(ordered)
        invariant forall pid :: pid in ordered <==>
          (pid in before || (pid != "" && exists k :: 0 <= k < j && packs[k] == pid))
      {
        if packs[j] != "" && packs[j] !in ordered {
          ordered := ordered + [packs[j]];
        }
      }
      assert forall pid :: Offers(profiles, requested[i], pid) <==> pid in packs;
    }
  }

  /** One pass over a snapshot of the selection. */
  method Pass(profiles: map<string, seq<string>>, packs: map<string, Pack>, requested: seq<string>,
              snapshot: seq<string>)
    returns (ordered: seq<string>, changed: bool)
    requires Distinct(snapshot) && IsForced(profiles, packs, requested, snapshot)
    ensures Distinct(ordered) && IsForced(profiles, packs, requested, ordered)
    ensures snapshot <= ordered && (changed <==> |snapshot| < |ordered|)
    ensures forall x :: x in ordered && x !in snapshot ==> Needed(packs, snapshot, x)
    ensures !changed ==> IsClosed(packs, Elements(snapshot))
  {
    ordered, changed := snapshot, false;
    for i := 0 to |snapshot|
      invariant Distinct(ordered) && IsForced(profiles, packs, requested, ordered)
      invariant snapshot <= ordered && |snapshot| <= |ordered| && (changed <==> |snapshot| < |ordered|)
      invariant forall x :: x in ordered && x !in snapshot ==> Needed(packs, snapshot, x)
      invariant NeedsIn(packs, snapshot, i, ordered)
    {
      var grew;
      ordered, grew := AddNeeds(profiles, packs, requested, snapshot, snapshot[i], ordered);
      changed := changed || grew;
    }
    if !changed {
      assert ordered == snapshot;
      ClosedWhenUnchanged(packs, snapshot);
    }
  }

  ghost predicate Needed(packs: map<string, Pack>, snapshot: seq<string>, x: string) {
    exists pid :: pid in snapshot && DependsOn(packs, pid, x)
  }

  ghost predicate NeedsIn(packs: map<string, Pack>, snapshot: seq<string>, n: nat, ordered: seq<string>)
    requires n <= |snapshot|
  {
    forall i, d :: 0 <= i < n && DependsOn(packs, snapshot[i], d) ==> d in ordered
  }

  lemma ClosedWhenUnchanged(packs: map<string, Pack>, snapshot: seq<string>)
    requires NeedsIn(packs, snapshot, |snapshot|, snapshot)
    ensures IsClosed(packs, Elements(snapshot))
  {
    forall pid, d | pid in Elements(snapshot) && DependsOn(packs, pid, d) ensures d in Elements(snapshot) {
      var i :| 0 <= i < |snapshot| && snapshot[i] == pid;
      assert DependsOn(packs, snapshot[i], d);
    }
    forall pid, d | pid in Elements(snapshot) && pid in packs && d in packs[pid].inherits ensures d in Elements(snapshot) {
      assert DependsOn(packs, pid, d);
    }
    forall pid, d | pid in Elements(snapshot) && pid in packs && d in packs[pid].demands ensures d in Elements(snapshot) {
      assert DependsOn(packs, pid, d);
    }
  }

  method AddNeeds(profiles: map<string, seq<string>>, packs: map<string, Pack>, requested: seq<string>,
                  snapshot: seq<string>, pid: string, start: seq<string>)
    returns (ordered: seq<string>, grew: bool)
    requires Distinct(start) && IsForced(profiles, packs, requested, start)
    requires pid in snapshot && snapshot <= start
    requires forall x :: x in start && x !in snapshot ==> Needed(packs, snapshot, x)
    ensures Distinct(ordered) && IsForced(profiles, packs, requested, ordered)
    ensures start <= ordered && |start| <= |ordered| && (grew <==> |start| < |ordered|)
    ensures forall x :: x in ordered && x !in snapshot ==> Needed(packs, snapshot, x)
    ensures forall x :: x in start ==> x in ordered
    ensures forall d :: DependsOn(packs, pid, d) ==> d in ordered
  {
    ordered, grew := start, false;
    var needs := Needs(packs, pid);
    for j := 0 to |needs|
      invariant Distinct(ordered) && IsForced(profiles, packs, requested, ordered)
      invariant start <= ordered && |start| <= |ordered| && (grew <==> |start| < |ordered|)
      invariant forall x :: x in ordered && x !in snapshot ==> Needed(packs, snapshot, x)
      invariant forall x :: x in start ==> x in ordered
      invariant forall k :: 0 <= k < j ==> needs[k] in ordered
    {
      NeedsAre(packs, pid, needs[j]);
      if needs[j] !in ordered {
        assert pid in ordered && Needed(packs, snapshot, needs[j]);
        StaysForced(profiles, packs, requested, ordered, pid, needs[j]);
        ordered, grew := ordered + [needs[j]], true;
      }
    }
    forall d | DependsOn(packs, pid, d) ensures d in ordered {
      NeedsAre(packs, pid, d);
      var k :| 0 <= k < |needs| && needs[k] == d;
    }
  }

  /** `selected_pack_ids`: sorted, without repetition, and exactly the least closed set. */
  method SelectedPackIds(profiles: map<string, seq<string>>, packs: map<string, Pack>, requested: seq<string>)
    returns (ids: seq<string>)
    ensures IsSelection(profiles, packs, requested, ids)
  {
    var ordered := Seeds(profiles, requested);
    ghost var seeds := Elements(ordered);
    ghost var universe := Universe(packs, seeds);
    var changed := true;
    while changed
      invariant Distinct(ordered) && IsForced(profiles, packs, requested, ordered)
      invariant seeds <= Elements(ordered) <= universe
      invariant !changed ==> IsClosed(packs, Elements(ordered))
      decreases universe - Elements(ordered), changed
    {
      var snapshot := ordered;
      ordered, changed := Pass(profiles, packs, requested, snapshot);
      Grows(packs, seeds, snapshot, ordered, changed);
    }
    ids := Sort(ordered, StringLess());
    LeastOfClosed(profiles, packs, requested, seeds, ordered);
    SortedSelection(profiles, packs, requested, ordered);
  }

  lemma Grows(packs: map<string, Pack>, seeds: set<string>, snapshot: seq<string>, ordered: seq<string>, changed: bool)
    requires snapshot <= ordered && Distinct(ordered) && (changed <==> |snapshot| < |ordered|)
    requires forall x :: x in ordered && x !in snapshot ==> Needed(packs, snapshot, x)
    requires seeds <= Elements(snapshot) <= Universe(packs, seeds)
    ensures seeds <= Elements(ordered) <= Universe(packs, seeds)
    ensures if changed then Universe(packs, seeds) - Elements(ordered) < Universe(packs, seeds) - Elements(snapshot)
            else ordered == snapshot
  {
    var universe := Universe(packs, seeds);
    forall x | x in ordered ensures x in universe {
      if x !in snapshot {
        var pid :| pid in snapshot && DependsOn(packs, pid, x);
        assert pid in packs;
      }
    }
    forall x | x in snapshot ensures x in ordered {
      var i :| 0 <= i < |snapshot| && snapshot[i] == x;
      assert ordered[i] == x;
    }
    assert Elements(snapshot) <= Elements(ordered);
    if changed {
      var x := ordered[|snapshot|];
      assert x in ordered && x !in snapshot;
      assert x in universe - Elements(snapshot) && x !in universe - Elements(ordered);
    }
  }

  lemma LeastOfClosed(profiles: map<string, seq<string>>, packs: map<string, Pack>, requested: seq<string>,
                      seeds: set<string>, ordered: seq<string>)
    requires forall pid :: pid in seeds <==> IsSeed(profiles, requested, pid)
    requires seeds <= Elements(ordered) && IsClosed(packs, Elements(ordered))
    requires IsForced(profiles, packs, requested, ordered)
    ensures IsLeast(profiles, packs, requested, Elements(ordered))
  {
    forall other | IsAdmissible(profiles, packs, requested, other) ensures Elements(ordered) <= other {
      forall x | x in Elements(ordered) ensures x in other {
        assert x in ordered;
      }
    }
  }

  ghost predicate Increasing(ids: seq<string>) {
    forall i, j :: 0 <= i < j < |ids| ==> StringLess()(ids[i], ids[j])
  }

  ghost predicate IsSelection(profiles: map<string, seq<string>>, packs: map<string, Pack>, requested: seq<string>,
                              ids: seq<string>) {
    Increasing(ids) && IsLeast(profiles, packs, requested, Elements(ids))
  }

  lemma SortedIsIncreasing(ids: seq<string>)
    requires Distinct(ids) && Sorted(ids, StringLess())
    ensures Increasing(ids)
  {
    StringsAreOrdered();
    forall i, j | 0 <= i < j < |ids| ensures StringLess()(ids[i], ids[j]) {
      assert Decides(StringLess(), ids[i], ids[j]);
    }
  }

  lemma SortedSelection(profiles: map<string, seq<string>>, packs: map<string, Pack>, requested: seq<string>,
                        ordered: seq<string>)
    requires Distinct(ordered) && IsLeast(profiles, packs, requested, Elements(ordered))
    ensures IsSelection(profiles, packs, requested, Sort(ordered, StringLess()))
  {
    var ids := Sort(ordered, StringLess());
    StringsAreOrdered();
    SortSorts(ordered, StringLess());
    StaysDistinct(ordered, ids);
    SortedIsIncreasing(ids);
    forall x ensures x in Elements(ids) <==> x in Elements(ordered) {
      SameMembers(ordered, ids, x);
    }
    assert Elements(ids) == Elements(ordered);
  }

  lemma IncreasingUnique(a: seq<string>, b: seq<string>)
    requires Increasing(a) && Increasing(b) && Elements(a) == Elements(b)
    ensures a == b
  {
    StringsAreOrdered();
    IncreasingIsSorted(a);
    IncreasingIsSorted(b);
    forall x ensures x in a <==> x in b {
      assert x in Elements(a) <==> x in Elements(b);
    }
    SameMultiset(a, b);
    SortedUnique(a, b, StringLess());
  }

  lemma IncreasingIsSorted(ids: seq<string>)
    requires Increasing(ids)
    ensures Sorted(ids, StringLess()) && Distinct(ids)
  {
    StringsAreOrdered();
    forall i, j | 0 <= i < j < |ids| ensures !StringLess()(ids[j], ids[i]) && ids[i] != ids[j] {
      assert Decides(StringLess(), ids[i], ids[j]);
    }
  }

  lemma SeedsOfMore(profiles: map<string, seq<string>>, some: seq<string>, more: seq<string>, all: set<string>)
    requires HasSeeds(profiles, more, all) && forall p :: p in some ==> p in more
    ensures HasSeeds(profiles, some, all)
  {
    forall pid | IsSeed(profiles, some, pid) ensures pid in all {
      var i :| 0 <= i < |some| && Offers(profiles, some[i], pid);
      assert some[i] in more;
      var j :| 0 <= j < |more| && more[j] == some[i];
      assert IsSeed(profiles, more, pid);
    }
  }

  lemma CanDrop(profiles: map<string, seq<string>>, packs: map<string, Pack>, requested: seq<string>, all: set<string>, x: string)
    requires IsAdmissible(profiles, packs, requested, all) && !IsSeed(profiles, requested, x)
    requires forall pid :: pid in all ==> !DependsOn(packs, pid, x)
    ensures IsAdmissible(profiles, packs, requested, all - {x})
  {
    var less := all - {x};
    forall pid, d | pid in less && pid in packs && d in packs[pid].inherits ensures d in less {
      assert DependsOn(packs, pid, d);
    }
    forall pid, d | pid in less && pid in packs && d in packs[pid].demands ensures d in less {
      assert DependsOn(packs, pid, d);
    }
  }

  /** Without `x` a least set would still do, unless `x` is a seed or something selected depends on it. */
  lemma NothingIdle(profiles: map<string, seq<string>>, packs: map<string, Pack>, requested: seq<string>, all: set<string>, x: string)
    requires IsLeast(profiles, packs, requested, all) && x in all
    ensures IsSeed(profiles, requested, x) || exists pid :: pid in all && DependsOn(packs, pid, x)
  {
    if !IsSeed(profiles, requested, x) && !exists pid :: pid in all && DependsOn(packs, pid, x) {
      CanDrop(profiles, packs, requested, all, x);
      assert false;
    }
  }

  /** The selection, field by field: it has the packs of the requested profiles, all that a selected
      pack inherits or requires, and nothing else. */
  lemma SelectionIsSpelledOut(profiles: map<string, seq<string>>, packs: map<string, Pack>, requested: seq<string>, ids: seq<string>,
                              x: string)
    requires IsSelection(profiles, packs, requested, ids)
    ensures x in ids <==>
      || (x != "" && exists i :: 0 <= i < |requested| && requested[i] in profiles && x in profiles[requested[i]])
      || (exists pid :: pid in ids && pid in packs && (x in packs[pid].inherits || x in packs[pid].demands))
  {
    var all := Elements(ids);
    if x in ids {
      NothingIdle(profiles, packs, requested, all, x);
      if IsSeed(profiles, requested, x) {
        var i :| 0 <= i < |requested| && Offers(profiles, requested[i], x);
        assert requested[i] in profiles && x in profiles[requested[i]];
      } else {
        var pid :| pid in all && DependsOn(packs, pid, x);
        assert pid in ids;
      }
    }
    if pid :| pid in ids && pid in packs && (x in packs[pid].inherits || x in packs[pid].demands) {
      assert pid in all;
      assert x in all;
    }
    if i :| x != "" && 0 <= i < |requested| && requested[i] in profiles && x in profiles[requested[i]] {
      assert Offers(profiles, requested[i], x);
      assert IsSeed(profiles, requested, x);
      assert x in all;
    }
  }

  /** Requesting more profiles never loses a pack. */
  lemma SelectionIsMonotone(profiles: map<string, seq<string>>, packs: map<string, Pack>,
                            some: seq<string>, more: seq<string>, ids: seq<string>, moreIds: seq<string>)
    requires IsSelection(profiles, packs, some, ids) && IsSelection(profiles, packs, more, moreIds)
    requires forall p :: p in some ==> p in more
    ensures Elements(ids) <= Elements(moreIds)
  {
    SeedsOfMore(profiles, some, more, Elements(moreIds));
    assert IsAdmissible(profiles, packs, some, Elements(moreIds));
  }

  /** Neither the order nor the repetition of the requested profiles matters. */
  lemma SelectionIgnoresOrder(profiles: map<string, seq<string>>, packs: map<string, Pack>,
                              some: seq<string>, others: seq<string>, ids: seq<string>, otherIds: seq<string>)
    requires IsSelection(profiles, packs, some, ids) && IsSelection(profiles, packs, others, otherIds)
    requires forall p :: p in some <==> p in others
    ensures ids == otherIds
  {
    SelectionIsMonotone(profiles, packs, some, others, ids, otherIds);
    SelectionIsMonotone(profiles, packs, others, some, otherIds, ids);
    IncreasingUnique(ids, otherIds);
  }
}
