/** The eviction loop over per-install queues, and that it takes the archives the specification takes. */
module CapacityLoop {
  import opened Options
  import opened Sequences
  import opened Sorting
  import opened Capacity

  /** The per-install counters and the sorted per-install queues describe the archives left. */
  ghost predicate Represents(left: set<Archive>, installs: seq<string>, counts: map<string, int>,
                             queues: map<string, seq<Archive>>)
  {
    && queues.Keys == Elements(installs)
    && (forall a :: a in left ==> a.install in counts)
    && (forall i :: i in counts ==> counts[i] == Count(left, i))
    && (forall i, a :: i in queues ==> (a in queues[i] <==> a in left && a.evictable && a.install == i))
    && (forall a :: a in left && a.evictable ==> a.install in queues)
    && (forall i :: i in queues ==> Distinct(queues[i]))
  }

  ghost predicate QueuesSorted(installs: seq<string>, upTo: nat, queues: map<string, seq<Archive>>)
    requires upTo <= |installs|
  {
    forall k :: 0 <= k < upTo ==> installs[k] in queues && SortedByKey(queues[installs[k]], Age)
  }

  /** Archive b is at the head of its install's queue. */
  ghost predicate IsHead(queues: map<string, seq<Archive>>, b: Archive) {
    b.install in queues && queues[b.install] != [] && queues[b.install][0] == b
  }

  lemma CountAdd(left: set<Archive>, a: Archive, install: string)
    requires a !in left
    ensures Count(left + {a}, install) == Count(left, install) + if a.install == install then 1 else 0
  {
    if a.install == install {
      assert OfInstall(left + {a}, install) == OfInstall(left, install) + {a};
    } else {
      assert OfInstall(left + {a}, install) == OfInstall(left, install);
    }
  }

  /** The head of the fullest install's queue, oldest head on ties, is the victim. */
  lemma BestHeadIsVictim(left: set<Archive>, installs: seq<string>, counts: map<string, int>,
                         queues: map<string, seq<Archive>>, best: Archive)
    requires DistinctIds(left)
    requires Represents(left, installs, counts, queues) && QueuesSorted(installs, |installs|, queues)
    requires best.install in queues && queues[best.install] != [] && queues[best.install][0] == best
    requires forall i :: i in queues && queues[i] != [] && queues[i][0] != best ==> Precedes(left, best, queues[i][0])
    ensures IsVictim(left, best)
  {
    assert best in queues[best.install];
    forall b | b in left && b.evictable && b != best ensures Precedes(left, best, b) {
      var queue := queues[b.install];
      assert b in queue;
      var k :| 0 <= k < |queue| && queue[k] == b;
      var head := queue[0];
      assert head in queue && head.install == b.install;
      var t :| 0 <= t < |installs| && installs[t] == b.install by { assert b.install in Elements(installs); }
      if k > 0 {
        assert !KeyLess(Age(queue[k]), Age(queue[0]));
        assert head != b && head in left;
        assert Older(head, b);
      }
    }
  }

  method RetainedBytes(retained: seq<Archive>) returns (total: nat)
    ensures total == Sum(retained, Size)
  {
    total := 0;
    for k := 0 to |retained|
      invariant total == Sum(retained[..k], Size)
    {
      SumAppend(retained[..k], [retained[k]], Size);
      assert retained[..k + 1] == retained[..k] + [retained[k]];
      total := total + retained[k].sizeBytes;
    }
    assert retained[..|retained|] == retained;
  }

  method SelectCapacityEvictions(retained: seq<Archive>, incomingBytes: int, maximumRetainedBytes: int)
    returns (selected: Option<seq<nat>>)
    requires Distinct(retained) && DistinctIds(Elements(retained))
    requires forall a :: a in retained ==> a.install != ""
    ensures selected == Ids(Greedy(Elements(retained), Need(retained, incomingBytes, maximumRetainedBytes)))
    ensures EvictsFairly(Elements(retained), Sum(retained, Size) + incomingBytes - maximumRetainedBytes, selected)
    ensures selected.None?
      <==> Sum(retained, EvictableSize) < Sum(retained, Size) + incomingBytes - maximumRetainedBytes
  {
    GreedyEvictsFairly(Elements(retained), Need(retained, incomingBytes, maximumRetainedBytes));
    GreedyFailsIffTooSmall(retained, Need(retained, incomingBytes, maximumRetainedBytes));
    hide EvictsFairly, Greedy, Represents, QueuesSorted;
    ghost var outcome := Greedy(Elements(retained), Need(retained, incomingBytes, maximumRetainedBytes));
    PrependNothing(outcome);
    var retainedBytes := RetainedBytes(retained);
    var bytesToRelease := retainedBytes + incomingBytes - maximumRetainedBytes;
    if bytesToRelease <= 0 {
      EnoughFreed(outcome, [], Elements(retained), bytesToRelease);
      selected := Some([]);
    } else {
      var installs, counts, queues := QueueByInstall(retained);
      selected := EvictUntilFree(outcome, Elements(retained), installs, counts, queues, bytesToRelease);
    }
  }

  /** The eviction loop: one archive a turn until enough bytes are released. */
  method EvictUntilFree(ghost outcome: Option<seq<Archive>>, ghost retained: set<Archive>, installs: seq<string>,
                        initialCounts: map<string, int>, initialQueues: map<string, seq<Archive>>, bytes: int)
    returns (selected: Option<seq<nat>>)
    requires Represents(retained, installs, initialCounts, initialQueues)
    requires QueuesSorted(installs, |installs|, initialQueues)
    requires forall a :: a in retained ==> a.install != ""
    requires Remaining(outcome, [], retained, bytes)
    ensures selected == Ids(outcome)
    ensures EvictsFairly(retained, bytes, selected)
  {
    StartsFairly(outcome, retained, bytes);
    hide *;
    var counts, queues, bytesToRelease := initialCounts, initialQueues, bytes;
    ghost var left := retained;
    ghost var chosen: seq<Archive> := [];
    var ids: seq<nat> := [];
    while bytesToRelease > 0
      invariant forall a :: a in left ==> a.install != ""
      invariant Represents(left, installs, counts, queues) && QueuesSorted(installs, |installs|, queues)
      invariant ids == IdList(chosen)
      invariant Remaining(outcome, chosen, left, bytesToRelease)
      decreases |left|
    {
      RemainingDistinct(outcome, chosen, left, bytesToRelease);
      var taken;
      taken, counts, queues := TakeVictim(left, installs, counts, queues);
      if taken.None? {
        NothingLeft(outcome, chosen, left, bytesToRelease);
        return None;
      }
      bytesToRelease := bytesToRelease - taken.value.sizeBytes;
      ids := ids + [taken.value.id];
      chosen, left := GreedyStep(outcome, chosen, left, bytesToRelease, taken.value);
    }
    EnoughFreed(outcome, chosen, left, bytesToRelease);
    selected := Some(ids);
  }

  /** The outcome is the archives chosen so far, then what the specification takes from those left. */
  ghost predicate Remaining(outcome: Option<seq<Archive>>, chosen: seq<Archive>, left: set<Archive>, bytesToRelease: int) {
    DistinctIds(left) && outcome == Prepend(chosen, Greedy(left, bytesToRelease))
  }

  lemma StartsFairly(outcome: Option<seq<Archive>>, left: set<Archive>, bytes: int)
    requires Remaining(outcome, [], left, bytes)
    ensures EvictsFairly(left, bytes, Ids(outcome))
  {
    hide Greedy, EvictsFairly;
    PrependNothing(Greedy(left, bytes));
    GreedyEvictsFairly(left, bytes);
  }

  lemma NothingLeft(outcome: Option<seq<Archive>>, chosen: seq<Archive>, left: set<Archive>, bytesToRelease: int)
    requires Remaining(outcome, chosen, left, bytesToRelease) && bytesToRelease > 0 && Evictable(left) == {}
    ensures Ids(outcome) == None
  {
  }

  lemma RemainingDistinct(outcome: Option<seq<Archive>>, chosen: seq<Archive>, left: set<Archive>, bytesToRelease: int)
    requires Remaining(outcome, chosen, left, bytesToRelease)
    ensures DistinctIds(left)
  {
  }

  lemma EnoughFreed(outcome: Option<seq<Archive>>, chosen: seq<Archive>, left: set<Archive>, bytesToRelease: int)
    requires Remaining(outcome, chosen, left, bytesToRelease) && bytesToRelease <= 0
    ensures Ids(outcome) == Some(IdList(chosen))
  {
    assert chosen + [] == chosen;
  }

  lemma PrependNothing(rest: Option<seq<Archive>>)
    ensures Prepend([], rest) == rest
  {
    if rest.Some? {
      assert [] + rest.value == rest.value;
    }
  }

  /** One turn of the loop is one turn of the specification. */
  lemma GreedyStep(outcome: Option<seq<Archive>>, chosen: seq<Archive>, left: set<Archive>, bytesToRelease: int, v: Archive)
    returns (chosen': seq<Archive>, left': set<Archive>)
    requires bytesToRelease + v.sizeBytes > 0 && IsVictim(left, v)
    requires Remaining(outcome, chosen, left, bytesToRelease + v.sizeBytes)
    ensures left' == left - {v}
    ensures Remaining(outcome, chosen', left', bytesToRelease)
    ensures IdList(chosen') == IdList(chosen) + [v.id]
  {
    VictimUnique(left, v);
    chosen', left' := chosen + [v], left - {v};
    var rest := Greedy(left', bytesToRelease);
    if rest.Some? {
      assert chosen + ([v] + rest.value) == chosen + [v] + rest.value;
    }
  }

  /** Finds the next archive to evict, shifts it off its queue and counts it out. */
  method TakeVictim(ghost left: set<Archive>, installs: seq<string>, counts: map<string, int>,
                    queues: map<string, seq<Archive>>)
    returns (taken: Option<Archive>, counts': map<string, int>, queues': map<string, seq<Archive>>)
    requires DistinctIds(left) && forall a :: a in left ==> a.install != ""
    requires Represents(left, installs, counts, queues) && QueuesSorted(installs, |installs|, queues)
    ensures taken.None? ==> Evictable(left) == {}
    ensures taken.Some? ==>
      && IsVictim(left, taken.value) && IsNext(left, taken.value)
      && Represents(left - {taken.value}, installs, counts', queues') && QueuesSorted(installs, |installs|, queues')
  {
    taken := BestHead(left, installs, counts, queues);
    counts', queues' := counts, queues;
    if taken.None? || taken.value.install == "" {
      return None, counts, queues;
    }
    var install := taken.value.install;
    TakeHead(left, installs, counts, queues, taken.value);
    queues' := queues[install := queues[install][1..]];
    counts' := counts[install := counts[install] - 1];
  }

  lemma TailOf(queue: seq<Archive>)
    requires queue != [] && Distinct(queue)
    ensures Distinct(queue[1..])
    ensures forall a :: a in queue[1..] <==> a in queue && a != queue[0]
    ensures SortedByKey(queue, Age) ==> SortedByKey(queue[1..], Age)
  {
    forall a ensures a in queue[1..] <==> a in queue && a != queue[0] {
      if a in queue && a != queue[0] {
        var k :| 0 <= k < |queue| && queue[k] == a;
        assert queue[1..][k - 1] == a;
      }
    }
  }

  lemma TailKeepsRepresents(left: set<Archive>, installs: seq<string>, counts: map<string, int>,
                            queues: map<string, seq<Archive>>, v: Archive, tail: seq<Archive>)
    requires Represents(left, installs, counts, queues) && IsHead(queues, v) && v in left && v.install in counts
    requires Distinct(tail) && forall a :: a in tail <==> a in queues[v.install] && a != v
    ensures Represents(left - {v}, installs, counts[v.install := counts[v.install] - 1], queues[v.install := tail])
  {
    forall i ensures Count(left, i) == Count(left - {v}, i) + if v.install == i then 1 else 0 {
      CountAdd(left - {v}, v, i);
      assert left == left - {v} + {v};
    }
    hide Count;
  }

  lemma TailKeepsSorted(installs: seq<string>, queues: map<string, seq<Archive>>, install: string, tail: seq<Archive>)
    requires QueuesSorted(installs, |installs|, queues) && SortedByKey(tail, Age)
    ensures QueuesSorted(installs, |installs|, queues[install := tail])
  {
    hide SortedByKey;
  }

  /** Shifting the victim off its queue and counting it out keeps the representation. */
  lemma TakeHead(left: set<Archive>, installs: seq<string>, counts: map<string, int>,
                 queues: map<string, seq<Archive>>, v: Archive)
    requires Represents(left, installs, counts, queues) && QueuesSorted(installs, |installs|, queues)
    requires IsHead(queues, v)
    ensures v in left && v.install in counts
    ensures var queues' := queues[v.install := queues[v.install][1..]];
            && Represents(left - {v}, installs, counts[v.install := counts[v.install] - 1], queues')
            && QueuesSorted(installs, |installs|, queues')
  {
    assert v in queues[v.install];
    assert v.install in Elements(installs);
    var t :| 0 <= t < |installs| && installs[t] == v.install;
    hide SortedByKey, Count;
    TailOf(queues[v.install]);
    TailKeepsRepresents(left, installs, counts, queues, v, queues[v.install][1..]);
    TailKeepsSorted(installs, queues, v.install, queues[v.install][1..]);
  }

  lemma CountsOneMore(left: set<Archive>, counts: map<string, int>, a: Archive)
    requires a !in left && (forall b :: b in left ==> b.install in counts)
    requires forall i :: i in counts ==> counts[i] == Count(left, i)
    ensures var counts' := counts[a.install := (if a.install in counts then counts[a.install] else 0) + 1];
      && (forall b :: b in left + {a} ==> b.install in counts')
      && (forall i :: i in counts' ==> counts'[i] == Count(left + {a}, i))
  {
    forall i ensures Count(left + {a}, i) == Count(left, i) + if a.install == i then 1 else 0 {
      CountAdd(left, a, i);
    }
    assert a.install !in counts ==> OfInstall(left, a.install) == {};
  }

  lemma ElementsOneMore(installs: seq<string>, install: string)
    requires install !in Elements(installs) && Distinct(installs)
    ensures Elements(installs + [install]) == Elements(installs) + {install} && Distinct(installs + [install])
  {
  }

  /** Counting one more archive in, and queueing it when it is evictable, keeps the representation. */
  lemma CountOne(left: set<Archive>, installs: seq<string>, counts: map<string, int>,
                 queues: map<string, seq<Archive>>, a: Archive)
    requires Represents(left, installs, counts, queues) && Distinct(installs) && a !in left
    ensures var counts' := counts[a.install := (if a.install in counts then counts[a.install] else 0) + 1];
            var installs' := if a.evictable && a.install !in queues then installs + [a.install] else installs;
            var queue := if a.install in queues then queues[a.install] else [];
            var queues' := if a.evictable then queues[a.install := queue + [a]] else queues;
            Represents(left + {a}, installs', counts', queues') && Distinct(installs')
  {
    hide Count, Elements;
    CountsOneMore(left, counts, a);
    if a.evictable && a.install !in queues { ElementsOneMore(installs, a.install); }
  }

  /** Counts every archive by install and queues the evictable ones, oldest first. */
  method QueueByInstall(retained: seq<Archive>)
    returns (installs: seq<string>, counts: map<string, int>, queues: map<string, seq<Archive>>)
    requires Distinct(retained)
    ensures Represents(Elements(retained), installs, counts, queues) && QueuesSorted(installs, |installs|, queues)
    ensures forall install :: install in queues ==> OldestFirst(queues[install])
    ensures forall install :: install in counts ==> counts[install] == Held(Elements(retained), install)
  {
    installs, counts, queues := [], map[], map[];
    for k := 0 to |retained|
      invariant Represents(Elements(retained[..k]), installs, counts, queues)
      invariant Distinct(installs)
    {
      var archive := retained[k];
      assert archive !in retained[..k];
      assert Elements(retained[..k + 1]) == Elements(retained[..k]) + {archive};
      CountOne(Elements(retained[..k]), installs, counts, queues, archive);
      counts := counts[archive.install := (if archive.install in counts then counts[archive.install] else 0) + 1];
      if archive.evictable {
        if archive.install !in queues {
          installs := installs + [archive.install];
        }
        var queue := if archive.install in queues then queues[archive.install] else [];
        queues := queues[archive.install := queue + [archive]];
      }
    }
    assert retained[..|retained|] == retained;
    queues := SortQueues(Elements(retained), installs, counts, queues);
    SortedIsOldestFirst(Elements(retained), installs, counts, queues);
  }

  ghost predicate OldestFirst(queue: seq<Archive>) {
    forall i, j :: 0 <= i < j < |queue| ==>
      || queue[i].createdAt < queue[j].createdAt
      || (queue[i].createdAt == queue[j].createdAt && queue[i].id <= queue[j].id)
  }

  lemma SortedIsOldestFirst(left: set<Archive>, installs: seq<string>, counts: map<string, int>,
                            queues: map<string, seq<Archive>>)
    requires Represents(left, installs, counts, queues) && QueuesSorted(installs, |installs|, queues)
    ensures forall install :: install in queues ==> OldestFirst(queues[install])
    ensures forall install :: install in counts ==> counts[install] == Held(left, install)
  {
    forall install | install in queues ensures OldestFirst(queues[install]) {
      assert install in Elements(installs);
      var k :| 0 <= k < |installs| && installs[k] == install;
    }
    forall install | install in counts ensures counts[install] == Held(left, install) {
      assert OfInstall(left, install) == set a | a in left && a.install == install;
    }
  }

  /** A queue may be replaced by a rearrangement of it. */
  lemma ReplaceQueue(left: set<Archive>, installs: seq<string>, counts: map<string, int>,
                     queues: map<string, seq<Archive>>, install: string, queue: seq<Archive>)
    requires Represents(left, installs, counts, queues) && install in queues
    requires Distinct(queue) && forall a :: a in queue <==> a in queues[install]
    ensures Represents(left, installs, counts, queues[install := queue])
  {
    hide Count;
  }

  /** Putting one queue in age order keeps the representation. */
  lemma SortOne(left: set<Archive>, installs: seq<string>, counts: map<string, int>,
                queues: map<string, seq<Archive>>, install: string)
    requires Represents(left, installs, counts, queues) && install in queues
    ensures var sorted := StableSort(queues[install], Age);
            SortedByKey(sorted, Age) && Represents(left, installs, counts, queues[install := sorted])
  {
    SortedContents(queues[install], Age);
    StableSortSorted(queues[install], Age);
    ReplaceQueue(left, installs, counts, queues, install, StableSort(queues[install], Age));
    hide Represents, StableSort, SortedByKey;
  }

  lemma SortedMore(installs: seq<string>, k: nat, queues: map<string, seq<Archive>>, sorted: seq<Archive>)
    requires k < |installs| && QueuesSorted(installs, k, queues) && SortedByKey(sorted, Age)
    ensures QueuesSorted(installs, k + 1, queues[installs[k] := sorted])
  {
    hide SortedByKey;
  }

  lemma HasQueue(left: set<Archive>, installs: seq<string>, counts: map<string, int>,
                 queues: map<string, seq<Archive>>, k: nat)
    requires Represents(left, installs, counts, queues) && k < |installs|
    ensures installs[k] in queues
  {
    assert installs[k] in Elements(installs);
  }

  method SortQueues(ghost left: set<Archive>, installs: seq<string>, ghost counts: map<string, int>,
                    unsorted: map<string, seq<Archive>>)
    returns (queues: map<string, seq<Archive>>)
    requires Represents(left, installs, counts, unsorted)
    ensures Represents(left, installs, counts, queues) && QueuesSorted(installs, |installs|, queues)
  {
    hide Represents, SortedByKey, StableSort;
    queues := unsorted;
    for k := 0 to |installs|
      invariant Represents(left, installs, counts, queues)
      invariant QueuesSorted(installs, k, queues)
    {
      HasQueue(left, installs, counts, queues, k);
      SortOne(left, installs, counts, queues, installs[k]);
      var sorted := StableSort(queues[installs[k]], Age);
      SortedMore(installs, k, queues, sorted);
      queues := queues[installs[k] := sorted];
    }
  }

  /** No install passed so far has a head that b does not precede. */
  ghost predicate BeatsFirst(left: set<Archive>, installs: seq<string>, k: nat, queues: map<string, seq<Archive>>,
                             b: Archive)
    requires k <= |installs|
  {
    forall t :: 0 <= t < k ==>
      && installs[t] in queues
      && (queues[installs[t]] != [] && queues[installs[t]][0] != b ==> Precedes(left, b, queues[installs[t]][0]))
  }

  /** A head that replaces the best one precedes everything the best one preceded. */
  lemma BetterBeatsFirst(left: set<Archive>, installs: seq<string>, k: nat, queues: map<string, seq<Archive>>,
                         b: Archive, better: Archive)
    requires k <= |installs| && BeatsFirst(left, installs, k, queues, b) && Precedes(left, better, b)
    ensures BeatsFirst(left, installs, k, queues, better)
  {
    forall t | 0 <= t < k && queues[installs[t]] != [] && queues[installs[t]][0] != better
      ensures Precedes(left, better, queues[installs[t]][0])
    {
      var head := queues[installs[t]][0];
      if head != b { assert Precedes(left, b, head); }
    }
  }

  ghost predicate NoHeads(installs: seq<string>, k: nat, queues: map<string, seq<Archive>>)
    requires k <= |installs|
  {
    forall t :: 0 <= t < k ==> installs[t] in queues && queues[installs[t]] == []
  }

  /** Comparing the next head with the best so far leaves the better one beating both. */
  lemma HeadTurn(left: set<Archive>, installs: seq<string>, k: nat, queues: map<string, seq<Archive>>,
                 best: Option<Archive>, head: Archive)
    requires k < |installs| && head.install == installs[k] && IsHead(queues, head) && head in left && DistinctIds(left)
    requires best.None? ==> NoHeads(installs, k, queues)
    requires best.Some? ==> best.value in left && BeatsFirst(left, installs, k, queues, best.value)
    ensures best.None? || Precedes(left, head, best.value) ==> BeatsFirst(left, installs, k + 1, queues, head)
    ensures best.Some? && !Precedes(left, head, best.value) ==> BeatsFirst(left, installs, k + 1, queues, best.value)
  {
    hide Count;
    if best.Some? && Precedes(left, head, best.value) {
      BetterBeatsFirst(left, installs, k, queues, best.value, head);
    }
  }

  lemma NoHeadTurn(left: set<Archive>, installs: seq<string>, k: nat, queues: map<string, seq<Archive>>, best: Archive)
    requires k < |installs| && BeatsFirst(left, installs, k, queues, best)
    requires installs[k] in queues && queues[installs[k]] == []
    ensures BeatsFirst(left, installs, k + 1, queues, best)
  {
    hide Precedes;
  }

  lemma QueueHead(left: set<Archive>, installs: seq<string>, counts: map<string, int>,
                  queues: map<string, seq<Archive>>, install: string)
    requires Represents(left, installs, counts, queues) && install in Elements(installs)
    ensures install in queues
    ensures queues[install] != [] ==> IsHead(queues, queues[install][0]) && queues[install][0].install == install
    ensures queues[install] != [] ==> queues[install][0] in left
    ensures queues[install] != [] ==> install in counts && counts[install] == Count(left, install)
  {
    if queues[install] != [] { assert queues[install][0] in queues[install]; }
  }

  lemma EvictableHasQueue(left: set<Archive>, installs: seq<string>, counts: map<string, int>,
                          queues: map<string, seq<Archive>>, a: Archive)
    returns (t: nat)
    requires Represents(left, installs, counts, queues) && a in Evictable(left)
    ensures t < |installs| && installs[t] in queues && queues[installs[t]] != []
  {
    assert a in queues[a.install] && a.install in Elements(installs);
    t :| 0 <= t < |installs| && installs[t] == a.install;
  }

  lemma NoHeadsNothingLeft(left: set<Archive>, installs: seq<string>, counts: map<string, int>,
                           queues: map<string, seq<Archive>>)
    requires Represents(left, installs, counts, queues) && NoHeads(installs, |installs|, queues)
    ensures Evictable(left) == {}
  {
    hide Represents;
    if Evictable(left) != {} {
      var a :| a in Evictable(left);
      var t := EvictableHasQueue(left, installs, counts, queues, a);
      assert false;
    }
  }

  lemma BeatsAllIsVictim(left: set<Archive>, installs: seq<string>, counts: map<string, int>,
                         queues: map<string, seq<Archive>>, best: Archive)
    requires DistinctIds(left)
    requires Represents(left, installs, counts, queues) && QueuesSorted(installs, |installs|, queues)
    requires IsHead(queues, best) && BeatsFirst(left, installs, |installs|, queues, best)
    ensures IsVictim(left, best)
  {
    hide Precedes, IsVictim;
    forall i | i in queues && queues[i] != [] && queues[i][0] != best ensures Precedes(left, best, queues[i][0]) {
      assert i in Elements(installs);
    }
    BestHeadIsVictim(left, installs, counts, queues, best);
  }

  /** One pass over the queues: the best head so far is replaced by a better one. */
  method BestHead(ghost left: set<Archive>, installs: seq<string>, counts: map<string, int>,
                  queues: map<string, seq<Archive>>)
    returns (best: Option<Archive>)
    requires DistinctIds(left)
    requires Represents(left, installs, counts, queues) && QueuesSorted(installs, |installs|, queues)
    ensures best.None? ==> Evictable(left) == {}
    ensures best.Some? ==> IsVictim(left, best.value) && IsNext(left, best.value) && IsHead(queues, best.value)
  {
    hide Represents, QueuesSorted, BeatsFirst, IsVictim, IsNext, Count;
    best := None;
    var selectedCount := -1;
    for k := 0 to |installs|
      invariant best.None? ==> selectedCount == -1 && NoHeads(installs, k, queues)
      invariant best.Some? ==> IsHead(queues, best.value) && best.value in left
      invariant best.Some? ==> selectedCount == Count(left, best.value.install)
      invariant best.Some? ==> BeatsFirst(left, installs, k, queues, best.value)
    {
      var install := installs[k];
      assert install in Elements(installs);
      QueueHead(left, installs, counts, queues, install);
      if queues[install] != [] {
        var candidate := queues[install][0];
        var count := if install in counts then counts[install] else 0;
        HeadTurn(left, installs, k, queues, best, candidate);
        if || count > selectedCount
           || (count == selectedCount && best.Some? && Older(candidate, best.value))
           || (count == selectedCount && best.None?)
        {
          best := Some(candidate);
          selectedCount := count;
        }
      } else if best.Some? {
        NoHeadTurn(left, installs, k, queues, best.value);
      }
    }
    if best.Some? {
      BeatsAllIsVictim(left, installs, counts, queues, best.value);
      VictimIsNext(left, best.value);
    } else {
      NoHeadsNothingLeft(left, installs, counts, queues);
    }
  }
}
