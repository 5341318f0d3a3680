// The generator scheduler (internal/generators/scheduler.go): one queue for all the
// generators of a process, ordered by due time, with each entry re-armed as it is handed
// out and the entries of removed generators dropped when reached.
module Schedulers {
  import opened HeapOrders

  class Generator {
    const path: string

    constructor (path: string)
      ensures this.path == path
    {
      this.path := path;
    }
  }

  datatype Scheduled = Scheduled(gen: Generator, interval: int)

  class Entry {
    const runner: Runner
    const gen: Generator
    const interval: int
    const order: nat
    var due: int
    var index: int

    constructor (runner: Runner, gen: Generator, interval: int, due: int, order: nat)
      ensures this.runner == runner && this.gen == gen && this.interval == interval
      ensures this.due == due && this.order == order
    {
      this.runner, this.gen, this.interval, this.due, this.order := runner, gen, interval, due, order;
    }
  }

  function KeyOf(e: Entry): Key
    reads e
  {
    Key(e.due, e.order)
  }

  ghost function Keys(q: seq<Entry>): seq<Key>
    reads q
  {
    seq(|q|, k requires 0 <= k < |q| reads q => KeyOf(q[k]))
  }

  /** Each entry knows its place; so no entry has two. */
  ghost predicate Indexed(q: seq<Entry>)
    reads q
  {
    forall k | 0 <= k < |q| :: q[k].index == k
  }

  ghost function Members(q: seq<Entry>): set<Entry> {
    set e | e in q
  }

  lemma MembersSwapped(q: seq<Entry>, i: nat, j: nat)
    requires i < |q| && j < |q|
    ensures Members(q[i := q[j]][j := q[i]]) == Members(q)
  {
    var t := q[i := q[j]][j := q[i]];
    forall e
      ensures e in t <==> e in q
    {
      if e in q {
        var k :| 0 <= k < |q| && q[k] == e;
        assert t[if k == i then j else if k == j then i else k] == e;
      }
    }
  }

  /** The slice container/heap works on. */
  class EntryQueue {
    var slots: seq<Entry>

    constructor ()
      ensures slots == []
    {
      slots := [];
    }

    method Swap(i: nat, j: nat)
      requires i < |slots| && j < |slots| && Indexed(slots)
      modifies this, {slots[i], slots[j]}`index
      ensures slots == old(slots)[i := old(slots[j])][j := old(slots[i])]
      ensures Indexed(slots) && Keys(slots) == Swapped(old(Keys(slots)), i, j)
      ensures Members(slots) == old(Members(slots))
    {
      MembersSwapped(slots, i, j);
      slots := slots[i := slots[j]][j := slots[i]];
      slots[i].index := i;
      slots[j].index := j;
    }

    method Up(j: nat)
      requires j < |slots| && Indexed(slots) && HeapButLow(Keys(slots), j)
      modifies this, (set e | e in slots)`index
      ensures Indexed(slots) && Heap(Keys(slots))
      ensures Members(slots) == old(Members(slots)) && |slots| == |old(slots)|
    {
      hide HeapButLow, Heap;
      var k: nat := j;
      while k > 0 && Less(KeyOf(slots[k]), KeyOf(slots[Above(k)]))
        invariant k < |slots| == |old(slots)| && Indexed(slots)
        invariant Members(slots) == old(Members(slots))
        invariant HeapButLow(Keys(slots), k)
      {
        SiftUpStep(Keys(slots), k);
        assert slots[k] in Members(slots) && slots[Above(k)] in Members(slots);
        Swap(Above(k), k);
        k := Above(k);
      }
      SiftUpDone(Keys(slots), k);
    }

    method Down(n: nat)
      requires n <= |slots| && Indexed(slots) && HeapButHigh(Keys(slots), n, 0)
      modifies this, (set e | e in slots)`index
      ensures Indexed(slots) && |slots| == |old(slots)| && Heap(Keys(slots)[..n])
      ensures Members(slots) == old(Members(slots))
      ensures slots[n..] == old(slots)[n..]
    {
      hide HeapButHigh, Heap, LesserBelow;
      var i: nat := 0;
      while 2 * i + 1 < n
        invariant |slots| == |old(slots)| && Indexed(slots)
        invariant Members(slots) == old(Members(slots))
        invariant slots[n..] == old(slots)[n..]
        invariant HeapButHigh(Keys(slots), n, i)
        decreases n - i
      {
        var j := Lesser(n, i);
        if !Less(KeyOf(slots[j]), KeyOf(slots[i])) {
          NoneLess(Keys(slots), n, i, j);
          SiftDownDone(Keys(slots), n, i);
          return;
        }
        SiftDownStep(Keys(slots), n, i, j);
        assert slots[i] in Members(slots) && slots[j] in Members(slots);
        Swap(i, j);
        i := j;
      }
      SiftDownDone(Keys(slots), n, i);
    }

    /** Which of the two slots below i comes first. */
    method Lesser(n: nat, i: nat) returns (j: nat)
      requires n <= |slots| && 2 * i + 1 < n
      ensures LesserBelow(Keys(slots), n, i, j) && i < j < n
    {
      j := 2 * i + 1;
      if j + 1 < n && Less(KeyOf(slots[j + 1]), KeyOf(slots[j])) {
        j := j + 1;
      }
    }

    method Push(e: Entry)
      requires Indexed(slots) && Heap(Keys(slots)) && e !in slots
      modifies this, (set x | x in slots)`index, e`index
      ensures Indexed(slots) && Heap(Keys(slots))
      ensures Members(slots) == old(Members(slots)) + {e}
    {
      hide HeapButLow, Heap;
      AppendedLow(Keys(slots), KeyOf(e));
      e.index := |slots|;
      slots := slots + [e];
      assert Keys(slots) == old(Keys(slots)) + [KeyOf(e)];
      Up(|slots| - 1);
    }

    /** Takes the first entry out. */
    method Pop() returns (e: Entry)
      requires Indexed(slots) && Heap(Keys(slots)) && |slots| > 0
      modifies this, (set x | x in slots)`index
      ensures e == old(slots[0]) && Indexed(slots) && Heap(Keys(slots))
      ensures Members(slots) == old(Members(slots)) - {e} && e !in slots
      ensures forall x | x in slots :: !Less(KeyOf(x), KeyOf(e))
    {
      hide HeapButHigh, Heap;
      HeadIsLeast();
      ghost var was := Members(slots);
      var n := |slots| - 1;
      RootReplaced(Keys(slots));
      assert slots[0] in Members(slots) && slots[n] in Members(slots);
      Swap(0, n);
      Down(n);
      e := slots[n];
      assert slots[n..] == [e];
      LastOut(slots);
      assert Keys(slots)[..n] == Keys(slots[..n]);
      e.index := -1;
      slots := slots[..n];
      assert forall x | x in slots :: x in Members(slots) && x in was;
    }

    lemma HeadIsLeast()
      requires Heap(Keys(slots)) && |slots| > 0
      ensures forall x | x in Members(slots) :: !Less(KeyOf(x), KeyOf(slots[0]))
    {
      forall x | x in slots
        ensures !Less(KeyOf(x), KeyOf(slots[0]))
      {
        var k :| 0 <= k < |slots| && slots[k] == x;
        FirstIsLeast(Keys(slots), k);
      }
    }
  }

  lemma NoneLess(ks: seq<Key>, n: nat, i: nat, j: nat)
    requires LesserBelow(ks, n, i, j) && i < n && !Less(ks[j], ks[i])
    ensures forall k | 0 < k < n && Above(k) == i :: !Less(ks[k], ks[i])
  {
  }

  lemma LastOut(q: seq<Entry>)
    requires |q| > 0 && Indexed(q)
    ensures var n := |q| - 1;
      Members(q[..n]) == Members(q) - {q[n]} && q[n] !in q[..n]
  {
    var n := |q| - 1;
    assert q == q[..n] + [q[n]];
  }

  class Scheduler {
    const queue: EntryQueue
    var count: nat
    var stopped: bool

    ghost predicate Valid()
      reads this, queue, queue.slots
    {
      && Indexed(queue.slots) && Heap(Keys(queue.slots))
      && (forall e | e in queue.slots :: e.interval > 0 && e.order <= count)
      && (forall a, b | a in queue.slots && b in queue.slots && a.order == b.order :: a == b)
    }

    ghost function Queued(): set<Entry>
      reads this, queue
    {
      Members(queue.slots)
    }

    constructor ()
      ensures Valid() && Queued() == {} && !stopped && fresh(queue)
    {
      queue := new EntryQueue();
      count, stopped := 0, false;
    }

    method Stop()
      modifies this`stopped
      ensures stopped
    {
      stopped := true;
    }

    /** Queues one generator, due one interval from now, and says whether the timing loop
        has to be woken for it. */
    method Add(r: Runner, g: Generator, interval: int, now: int) returns (nudge: bool, ghost added: set<Entry>)
      requires Valid() && interval > 0
      modifies this`count, queue, (set e | e in queue.slots)`index
      ensures Valid() && Queued() == old(Queued()) + added && fresh(added)
      ensures stopped ==> added == {} && !nudge
      ensures !stopped ==> One(added)
      ensures forall e | e in added ::
        e.runner == r && e.gen == g && e.interval == interval && e.due == now + interval
      ensures forall e, x | e in added && x in old(Queued()) :: e.order > x.order
      ensures forall e | e in added ::
        nudge <==> forall x | x in Queued() && x != e :: e.due < x.due
    {
      hide Heap;
      added := {};
      if stopped {
        return false, {};
      }
      count := count + 1;
      var e := new Entry(r, g, interval, now + interval, count);
      ghost var was := Members(queue.slots);
      queue.Push(e);
      assert forall x | x in queue.slots :: x in Members(queue.slots) && (x == e || x in was);
      assert e in Members(queue.slots);
      queue.HeadIsLeast();
      nudge := queue.slots[0].order == count;
      added := {e};
      assert nudge <==> queue.slots[0] == e;
    }

    /** Pops the first entry, which comes strictly before all that have not been popped. */
    method TakeFirst(now: int, ghost was: map<Entry, Key>, ghost wanted: set<Entry>, ghost popped: set<Entry>)
      returns (e: Entry)
      requires Valid() && Progress(was, wanted, now, popped, Queued(), KeysOf(was.Keys))
      requires forall x | x in was :: x.interval > 0
      requires |queue.slots| > 0 && queue.slots[0].due <= now
      modifies queue, was.Keys`index
      ensures Valid() && e in was && e !in popped && was[e].due <= now
      ensures e.order <= count && forall x | x in queue.slots :: x.order != e.order
      ensures Queued() == old(Queued()) - {e} && e in old(Queued())
      ensures forall x | x in was && x !in popped && x != e :: Less(was[e], was[x])
    {
      hide Heap, Indexed, Keys;
      assert forall x | x in queue.slots :: x in Queued();
      assert Queued() <= was.Keys && queue.slots[0] in queue.slots;
      assert forall x | x in was :: KeysOf(was.Keys)[x] == KeyOf(x);
      e := queue.Pop();
      assert forall x | x in queue.slots :: x in Queued();
      forall x | x in was && x !in popped && x != e
        ensures Less(was[e], was[x])
      {
        assert x in Queued() && x in queue.slots && !Less(KeyOf(x), KeyOf(e)) && x.order != e.order;
      }
    }

    method Rearm(e: Entry, due: int, ghost es: set<Entry>)
      requires Valid() && e !in queue.slots && e.interval > 0 && e.order <= count
      requires forall x | x in queue.slots :: x.order != e.order
      modifies queue, Queued()`index, e`index, e`due
      ensures Valid() && Queued() == old(Queued()) + {e}
      ensures e in es ==> KeysOf(es) == old(KeysOf(es))[e := Key(due, e.order)]
    {
      hide Heap, Indexed;
      ghost var before := Queued();
      assert forall x | x in queue.slots :: x in before;
      e.due := due;
      assert Keys(queue.slots) == old(Keys(queue.slots));
      queue.Push(e);
      assert forall x | x in queue.slots :: x in Queued();
      assert forall x | x in before :: x in old(queue.slots);
    }

    /** Takes the first entry out, and puts it back re-armed when wanted. */
    method PopDue(now: int, ghost was: map<Entry, Key>, ghost wanted: set<Entry>, ghost popped: set<Entry>)
      returns (e: Entry, w: bool)
      requires Valid() && Progress(was, wanted, now, popped, Queued(), KeysOf(was.Keys))
      requires WantedAre(was.Keys, wanted)
      requires forall x | x in was :: x.interval > 0
      requires |queue.slots| > 0 && queue.slots[0].due <= now
      modifies queue, was.Keys`index, was.Keys`due
      ensures Valid() && e in was && e !in popped && (w <==> e in wanted)
      ensures Progress(was, wanted, now, popped + {e}, Queued(), KeysOf(was.Keys))
      ensures forall d | d in popped :: Less(was[d], was[e])
    {
      hide Heap, Indexed, Keys, WantedAre, Progress, Valid;
      ghost var queued, ks := Queued(), KeysOf(was.Keys);
      QueuedWithin(was, wanted, now, popped, queued, ks);
      e := TakeFirst(now, was, wanted, popped);
      OnePopped(was, wanted, now, popped, queued, ks, e);
      assert KeysOf(was.Keys) == ks;
      IsAmongWanted(was.Keys, wanted, e);
      w := e.runner.StillWants(e.gen);
      if w {
        Rearm(e, now + e.interval, was.Keys);
      }
    }

    /** Pops every entry due and re-arms the wanted ones an interval from now. */
    method DrainDue(now: int) returns (ready: seq<Entry>, ghost was: map<Entry, Key>)
      requires Valid()
      modifies queue, Queued()`index, Queued()`due
      ensures Valid() && was == old(KeysOf(Queued()))
      ensures CollectedAll(was, now, ready)
      ensures |queue.slots| == 0 || queue.slots[0].due > now
    {
      hide Heap, Indexed, Keys, Valid, Progress, HandedOut, WantedAre, AllWanted, CollectedAll;
      ready, was := [], KeysOf(Queued());
      ghost var wanted := AllWanted(was.Keys);
      ghost var popped: set<Entry> := {};
      WantedAreWanted(was.Keys);
      NothingPopped(wanted, now);
      NothingOut(was, wanted);
      while |queue.slots| > 0 && queue.slots[0].due <= now
        invariant Valid() && Progress(was, wanted, now, popped, Queued(), KeysOf(was.Keys))
        invariant WantedAre(was.Keys, wanted)
        invariant HandedOut(was, wanted, popped, ready)
        decreases |was.Keys - popped|
      {
        var e, w := PopDue(now, was, wanted, popped);
        OneMoreOut(was, wanted, popped, ready, e);
        FewerLeft(was.Keys, popped, e);
        popped := popped + {e};
        if w {
          ready := ready + [e];
        }
      }
      Finished(was, wanted, now, popped, ready);
    }

    /** Pops every entry due, re-arms the wanted ones an interval from now, and reports
        how long until the next. */
    method CollectDue(now: int) returns (ready: seq<Entry>, delay: int, hasNext: bool, ghost was: map<Entry, Key>)
      requires Valid()
      modifies queue, Queued()`index, Queued()`due
      ensures Valid() && was == old(KeysOf(Queued()))
      ensures CollectedAll(was, now, ready)
      ensures forall i, j | 0 <= i < j < |ready| && ready[i] in was && ready[j] in was ::
        var a, b := was[ready[i]], was[ready[j]];
        a.due < b.due || (a.due == b.due && ready[i].order < ready[j].order)
      ensures forall i, j | 0 <= i < j < |ready| :: ready[i] != ready[j]
      ensures hasNext <==> Queued() != {}
      ensures hasNext ==> delay > 0 && exists e :: e in Queued() && e.due == now + delay
      ensures hasNext ==> forall e | e in Queued() :: e.due >= now + delay
    {
      hide Heap, Indexed, Keys, CollectedAll;
      ready, was := DrainDue(now);
      hasNext := |queue.slots| > 0;
      delay := if hasNext then queue.slots[0].due - now else 0;
      GapIsExact(now);
      HandedOutInOrder(was, now, ready);
    }

    /** Earlier due times come first, and of equal ones the entry queued first. */
    lemma HandedOutInOrder(was: map<Entry, Key>, now: int, ready: seq<Entry>)
      requires CollectedAll(was, now, ready) && forall e | e in was :: was[e].order == e.order
      ensures forall i, j | 0 <= i < j < |ready| && ready[i] in was && ready[j] in was ::
        var a, b := was[ready[i]], was[ready[j]];
        a.due < b.due || (a.due == b.due && ready[i].order < ready[j].order)
      ensures forall i, j | 0 <= i < j < |ready| :: ready[i] != ready[j]
    {
    }

    /** What collecting at now does to the queue: every due entry that is wanted is handed
        out once, in the order of the keys, and re-armed from now; a due entry no longer
        wanted is dropped; nothing else changes. */
    ghost predicate CollectedAll(was: map<Entry, Key>, now: int, ready: seq<Entry>)
      reads this, queue, was.Keys, set e | e in was :: e.runner
    {
      && (forall e | e in ready :: e in was && was[e].due <= now && Wanted(e))
      && (forall e | e in was && was[e].due <= now && Wanted(e) :: e in ready)
      && (forall i, j | 0 <= i < j < |ready| ::
        ready[i] in was && ready[j] in was && Less(was[ready[i]], was[ready[j]]))
      && Queued() == (set e | e in was && (was[e].due > now || Wanted(e)))
      && (forall e | e in was ::
            e.due == if was[e].due <= now && Wanted(e) then now + e.interval else was[e].due)
    }

    lemma GapIsExact(now: int)
      requires Valid() && (|queue.slots| > 0 ==> queue.slots[0].due > now)
      ensures |queue.slots| > 0 <==> Queued() != {}
      ensures |queue.slots| > 0 ==> exists e :: e in Queued() && e.due == queue.slots[0].due
      ensures |queue.slots| > 0 ==> forall e | e in Queued() :: e.due >= queue.slots[0].due
    {
      hide Indexed, Keys;
      if |queue.slots| > 0 {
        queue.HeadIsLeast();
        assert queue.slots[0] in Queued();
      }
    }

    lemma NothingPopped(wanted: set<Entry>, now: int)
      requires Valid() && wanted <= Queued()
      ensures var was := KeysOf(Queued());
        was.Keys == Queued() && Progress(was, wanted, now, {}, Queued(), KeysOf(was.Keys))
      ensures forall e | e in KeysOf(Queued()) :: e.interval > 0
    {
      hide Heap, Indexed, Keys;
      assert KeysOf(Queued()).Keys == Queued();
    }

    /** When nothing left in the queue is due, all that was due has been popped. */
    lemma Finished(was: map<Entry, Key>, wanted: set<Entry>, now: int, popped: set<Entry>, ready: seq<Entry>)
      requires Valid() && Progress(was, wanted, now, popped, Queued(), KeysOf(was.Keys))
      requires HandedOut(was, wanted, popped, ready)
      requires |queue.slots| == 0 || queue.slots[0].due > now
      requires WantedAre(was.Keys, wanted)
      ensures CollectedAll(was, now, ready)
    {
      hide Indexed, Keys, Wanted;
      if |queue.slots| > 0 {
        queue.HeadIsLeast();
      }
      forall e | e in was && was[e].due <= now
        ensures e in popped
      {
        assert e !in popped ==> e in Queued();
      }
      assert forall i | 0 <= i < |ready| :: ready[i] in ready;
    }
  }

  ghost function KeysOf(es: set<Entry>): map<Entry, Key>
    reads es
  {
    map e | e in es :: KeyOf(e)
  }

  /** With the entries of popped taken out, and those of them wanted put back re-armed;
      was holds the keys at the start, ks those now. */
  ghost predicate Progress(was: map<Entry, Key>, wanted: set<Entry>, now: int, popped: set<Entry>,
                           queued: set<Entry>, ks: map<Entry, Key>) {
    && popped <= was.Keys && ks.Keys == was.Keys
    && queued == (set e | e in was && (e !in popped || e in wanted))
    && (forall e | e in was ::
      ks[e] == if e in popped && e in wanted then Key(now + e.interval, was[e].order) else was[e])
    && (forall e | e in was :: was[e].order == e.order)
    && (forall e | e in popped :: was[e].due <= now)
    && (forall d, e | d in popped && e in was && e !in popped :: Less(was[d], was[e]))
  }

  lemma QueuedWithin(was: map<Entry, Key>, wanted: set<Entry>, now: int, popped: set<Entry>, queued: set<Entry>,
                     ks: map<Entry, Key>)
    requires Progress(was, wanted, now, popped, queued, ks)
    ensures queued <= was.Keys
  {
  }

  lemma OnePopped(was: map<Entry, Key>, wanted: set<Entry>, now: int, popped: set<Entry>,
                  queued: set<Entry>, ks: map<Entry, Key>, e: Entry)
    requires Progress(was, wanted, now, popped, queued, ks)
    requires e in was && e !in popped && was[e].due <= now
    requires forall x | x in was && x !in popped && x != e :: Less(was[e], was[x])
    ensures e !in wanted ==> Progress(was, wanted, now, popped + {e}, queued - {e}, ks)
    ensures e in wanted ==>
      Progress(was, wanted, now, popped + {e}, queued - {e} + {e}, ks[e := Key(now + e.interval, e.order)])
    ensures forall d | d in popped :: Less(was[d], was[e])
  {
  }

  /** ready holds the wanted entries popped so far, in the order of their keys. */
  ghost predicate HandedOut(was: map<Entry, Key>, wanted: set<Entry>, popped: set<Entry>, ready: seq<Entry>) {
    && popped <= was.Keys
    && (forall e | e in ready :: e in popped && e in wanted)
    && (forall e | e in popped && e in wanted :: e in ready)
    && (forall i, j | 0 <= i < j < |ready| :: Less(was[ready[i]], was[ready[j]]))
  }

  lemma NothingOut(was: map<Entry, Key>, wanted: set<Entry>)
    ensures HandedOut(was, wanted, {}, [])
  {
  }

  lemma OneMoreOut(was: map<Entry, Key>, wanted: set<Entry>, popped: set<Entry>, ready: seq<Entry>, e: Entry)
    requires HandedOut(was, wanted, popped, ready) && e in was && e !in popped
    requires forall d | d in popped :: Less(was[d], was[e])
    ensures HandedOut(was, wanted, popped + {e}, if e in wanted then ready + [e] else ready)
  {
    assert forall i | 0 <= i < |ready| :: ready[i] in ready;
    assert e in ready + [e] && forall x | x in ready :: x in ready + [e];
  }

  lemma FewerLeft<T>(all: set<T>, popped: set<T>, e: T)
    requires e in all && e !in popped
    ensures |all - (popped + {e})| < |all - popped|
  {
    assert all - (popped + {e}) == (all - popped) - {e};
  }

  ghost predicate Wanted(e: Entry)
    reads e.runner
  {
    e.runner.Wants(e.gen)
  }

  ghost function AllWanted(es: set<Entry>): set<Entry>
    reads set e | e in es :: e.runner
  {
    set e | e in es && Wanted(e)
  }

  ghost predicate WantedAre(es: set<Entry>, wanted: set<Entry>)
    reads set e | e in es :: e.runner
  {
    wanted == AllWanted(es)
  }

  lemma IsAmongWanted(es: set<Entry>, wanted: set<Entry>, e: Entry)
    requires WantedAre(es, wanted) && e in es
    ensures e in wanted <==> e.runner.Wants(e.gen)
  {
  }

  lemma WantedAreWanted(es: set<Entry>)
    ensures WantedAre(es, AllWanted(es)) && AllWanted(es) <= es
  {
  }

  /** The entries of a runner's generator. */
  ghost function EntriesOf(es: set<Entry>, r: Runner, g: Generator): set<Entry> {
    set e | e in es && e.runner == r && e.gen == g
  }

  ghost predicate One<T>(s: set<T>) {
    exists x | x in s :: s == {x}
  }

  /** Each path has one generator, with a positive interval. */
  ghost predicate Registry(items: seq<Scheduled>, paths: set<string>) {
    && paths == (set i | 0 <= i < |items| :: items[i].gen.path)
    && (forall i, j | 0 <= i < j < |items| :: items[i].gen.path != items[j].gen.path)
    && (forall i | 0 <= i < |items| :: items[i].interval > 0)
  }

  predicate Registered(items: seq<Scheduled>, g: Generator) {
    exists i :: 0 <= i < |items| && items[i].gen == g
  }

  /** Exactly one queue entry for each of the first n generators, none for the others. */
  ghost predicate EntriesUpTo(es: set<Entry>, r: Runner, items: seq<Scheduled>, n: nat) {
    forall i | 0 <= i < |items| ::
      var mine := EntriesOf(es, r, items[i].gen);
      if i < n then One(mine) else mine == {}
  }

  /** Exactly one queue entry for each registered generator. */
  ghost predicate OneEntryEach(es: set<Entry>, r: Runner, items: seq<Scheduled>) {
    EntriesUpTo(es, r, items, |items|)
  }

  lemma EntriesAdded(es: set<Entry>, added: set<Entry>, r: Runner, g: Generator, h: Generator)
    requires One(added) && es !! added && forall e | e in added :: e.runner == r && e.gen == g
    ensures h != g ==> EntriesOf(es + added, r, h) == EntriesOf(es, r, h)
    ensures One(EntriesOf(es + added, r, g)) <==> EntriesOf(es, r, g) == {}
  {
    assert EntriesOf(es + added, r, g) == EntriesOf(es, r, g) + added;
    var e :| e in added && added == {e};
    if One(EntriesOf(es + added, r, g)) {
      var x :| x in EntriesOf(es + added, r, g) && EntriesOf(es + added, r, g) == {x};
      assert e in {x};
      assert forall y | y in EntriesOf(es, r, g) :: y in {x} && y in es;
    }
  }

  /** One entry each stays so with a new generator exactly when its object has no entry left. */
  lemma OneMoreEntry(items: seq<Scheduled>, s: Scheduled, es: set<Entry>, added: set<Entry>, r: Runner)
    requires OneEntryEach(es, r, items) && !Registered(items, s.gen)
    requires One(added) && es !! added && forall e | e in added :: e.runner == r && e.gen == s.gen
    ensures OneEntryEach(es + added, r, items + [s]) <==> EntriesOf(es, r, s.gen) == {}
  {
    EntriesAdded(es, added, r, s.gen, s.gen);
    forall i | 0 <= i < |items|
      ensures One(EntriesOf(es + added, r, (items + [s])[i].gen))
    {
      EntriesAdded(es, added, r, s.gen, items[i].gen);
    }
    assert (items + [s])[|items|] == s;
  }

  lemma OneMoreItem(items: seq<Scheduled>, paths: set<string>, s: Scheduled)
    requires Registry(items, paths) && s.interval > 0 && s.gen.path !in paths
    ensures Registry(items + [s], paths + {s.gen.path}) && !Registered(items, s.gen)
  {
    var t := items + [s];
    forall x
      ensures x in paths + {s.gen.path} <==> x in set i | 0 <= i < |t| :: t[i].gen.path
    {
      if x in paths {
        var i :| 0 <= i < |items| && items[i].gen.path == x;
        assert t[i].gen.path == x;
      }
      assert t[|items|] == s;
    }
    assert forall i | 0 <= i < |items| :: t[i] == items[i] && items[i].gen.path in paths;
  }

  /** The registrations without the one for path. */
  function Dropped(items: seq<Scheduled>, path: string): seq<Scheduled> {
    if items == [] then []
    else if items[0].gen.path == path then items[1..]
    else [items[0]] + Dropped(items[1..], path)
  }

  lemma {:induction false} DroppedAt(items: seq<Scheduled>, path: string, i: nat)
    requires i < |items| && items[i].gen.path == path
    requires forall k | 0 <= k < i :: items[k].gen.path != path
    ensures Dropped(items, path) == items[..i] + items[i + 1..]
  {
    if i > 0 {
      DroppedAt(items[1..], path, i - 1);
      assert items[1..][..i - 1] == items[1..i] && items[1..][i..] == items[i + 1..];
      assert [items[0]] + items[1..i] == items[..i];
    }
  }

  /** Cutting one registration out leaves the others. */
  lemma CutKeepsRegistry(items: seq<Scheduled>, paths: set<string>, path: string, i: nat)
    requires Registry(items, paths) && i < |items| && items[i].gen.path == path
    ensures Registry(items[..i] + items[i + 1..], paths - {path})
  {
    var t := items[..i] + items[i + 1..];
    assert forall k | 0 <= k < i :: t[k] == items[k];
    assert forall k | i <= k < |t| :: t[k] == items[k + 1];
    forall x
      ensures x in paths - {path} <==> x in set k | 0 <= k < |t| :: t[k].gen.path
    {
      if x in paths && x != path {
        var k :| 0 <= k < |items| && items[k].gen.path == x;
        assert t[if k < i then k else k - 1].gen.path == x;
      }
      if k :| 0 <= k < |t| && t[k].gen.path == x {
        var m := if k < i then k else k + 1;
        assert items[m].gen.path == x && m != i;
      }
    }
  }

  lemma CutKeepsEntries(items: seq<Scheduled>, i: nat, r: Runner, es: set<Entry>)
    requires i < |items| && OneEntryEach(es, r, items)
    ensures OneEntryEach(es, r, items[..i] + items[i + 1..])
  {
    hide EntriesOf, One;
    var t := items[..i] + items[i + 1..];
    forall k | 0 <= k < |t|
      ensures One(EntriesOf(es, r, t[k].gen))
    {
      assert t[k] == items[if k < i then k else k + 1];
    }
  }

  class Runner {
    const sched: Scheduler
    const owns: bool
    var items: seq<Scheduled>
    var paths: set<string>
    var started: bool
    var stopped: bool

    ghost predicate Valid()
      reads this
    {
      Registry(items, paths)
    }

    ghost predicate Wants(g: Generator)
      reads this
    {
      !stopped && Registered(items, g)
    }

    /** The generator is the one that owns its path now, and the runner has not stopped. */
    method StillWants(g: Generator) returns (wanted: bool)
      ensures wanted == Wants(g)
    {
      if stopped {
        return false;
      }
      for i := 0 to |items|
        invariant forall k | 0 <= k < i :: items[k].gen != g
      {
        if items[i].gen == g {
          return true;
        }
      }
      return false;
    }

    constructor (sched: Scheduler, owns: bool)
      ensures this.sched == sched && this.owns == owns && Valid()
      ensures items == [] && paths == {} && !started && !stopped
    {
      this.sched, this.owns := sched, owns;
      items, paths, started, stopped := [], {}, false, false;
    }

    /** Registers a generator. On a started runner its one entry is the new one exactly
        when no entry of the same generator object is still queued. */
    method Add(g: Generator?, interval: int, now: int) returns (ok: bool)
      requires Valid() && sched.Valid()
      modifies this`items, this`paths, sched`count, sched.queue, sched.Queued()`index
      ensures Valid() && sched.Valid()
      ensures ok <==> g != null && interval > 0 && g.path != "" && !stopped && g.path !in old(paths)
      ensures ok ==> items == old(items) + [Scheduled(g, interval)]
      ensures !ok ==> items == old(items)
      ensures sched.stopped || !ok || !started ==> sched.Queued() == old(sched.Queued())
      ensures fresh(sched.Queued() - old(sched.Queued()))
      ensures forall e | e in sched.Queued() && e !in old(sched.Queued()) :: e.runner == this && e.gen == g
      ensures ok && started && !sched.stopped && OneEntryEach(old(sched.Queued()), this, old(items)) ==>
        (OneEntryEach(sched.Queued(), this, items) <==> EntriesOf(old(sched.Queued()), this, g) == {})
    {
      hide Registry, OneEntryEach, EntriesOf, Heap, Indexed, Keys;
      if g == null || interval <= 0 || g.path == "" || stopped || g.path in paths {
        return false;
      }
      ghost var was, es := items, sched.Queued();
      OneMoreItem(items, paths, Scheduled(g, interval));
      paths, items := paths + {g.path}, items + [Scheduled(g, interval)];
      if started {
        var _, added := sched.Add(this, g, interval, now);
        if !sched.stopped && OneEntryEach(es, this, was) {
          OneMoreEntry(was, Scheduled(g, interval), es, added, this);
        }
      }
      return true;
    }

    /** Takes out the generator that owns the path; its entry lapses when reached. */
    method Remove(path: string)
      requires Valid()
      modifies this`items, this`paths
      ensures Valid() && paths == old(paths) - {path}
      ensures items == Dropped(old(items), path)
      ensures path !in old(paths) ==> items == old(items)
      ensures forall i | 0 <= i < |items| :: items[i].gen.path != path
      ensures OneEntryEach(sched.Queued(), this, old(items)) ==> OneEntryEach(sched.Queued(), this, items)
    {
      if path !in paths {
        PathIsGone(items, paths, path);
        DroppedNothing(items, path);
        return;
      }
      ghost var named := paths;
      paths := paths - {path};
      for i := 0 to |items|
        invariant items == old(items)
        invariant forall k | 0 <= k < i :: items[k].gen.path != path
      {
        if items[i].gen.path == path {
          DroppedAt(items, path, i);
          CutKeepsRegistry(items, named, path, i);
          if OneEntryEach(sched.Queued(), this, items) {
            CutKeepsEntries(items, i, this, sched.Queued());
          }
          items := items[..i] + items[i + 1..];
          PathIsGone(items, paths, path);
          return;
        }
      }
    }

    /** Queues every registered generator; a second call changes nothing. */
    method Start(now: int) returns (ok: bool)
      requires Valid() && sched.Valid()
      requires !started ==> EntriesUpTo(sched.Queued(), this, items, 0)
      modifies this`started, sched`count, sched.queue, sched.Queued()`index
      ensures sched.Valid() && (started <==> old(started) || !stopped)
      ensures ok <==> !stopped && (old(started) || !owns || !sched.stopped)
      ensures old(started) || !ok || sched.stopped ==> sched.Queued() == old(sched.Queued())
      ensures ok && !old(started) && !sched.stopped ==> OneEntryEach(sched.Queued(), this, items)
      ensures fresh(sched.Queued() - old(sched.Queued()))
    {
      hide Registry, EntriesUpTo, EntriesOf, Heap, Indexed, Keys;
      if stopped {
        return false;
      }
      if started {
        return true;
      }
      started := true;
      if owns && sched.stopped {
        return false;
      }
      ghost var queued := sched.Queued();
      for i := 0 to |items|
        invariant sched.Valid() && started
        invariant sched.stopped ==> sched.Queued() == queued
        invariant !sched.stopped ==> EntriesUpTo(sched.Queued(), this, items, i)
        invariant fresh(sched.Queued() - queued)
      {
        ghost var es := sched.Queued();
        RegistryFacts(items, paths, i);
        var _, added := sched.Add(this, items[i].gen, items[i].interval, now);
        if !sched.stopped {
          EntriesNext(es, added, this, items, paths, i);
        }
      }
      return true;
    }

    method Stop()
      modifies this`stopped, sched`stopped
      ensures stopped && sched.stopped == (old(sched.stopped) || (owns && !old(stopped)))
      ensures forall g: Generator :: !Wants(g)
    {
      if stopped {
        return;
      }
      stopped := true;
      if owns {
        sched.Stop();
      }
    }
  }

  lemma {:induction false} DroppedNothing(items: seq<Scheduled>, path: string)
    requires forall k | 0 <= k < |items| :: items[k].gen.path != path
    ensures Dropped(items, path) == items
  {
    if items != [] {
      DroppedNothing(items[1..], path);
    }
  }

  lemma PathIsGone(items: seq<Scheduled>, paths: set<string>, path: string)
    requires Registry(items, paths) && path !in paths
    ensures forall i | 0 <= i < |items| :: items[i].gen.path != path
  {
  }

  lemma RegistryFacts(items: seq<Scheduled>, paths: set<string>, i: nat)
    requires Registry(items, paths) && i < |items|
    ensures items[i].interval > 0 && items[i].gen.path in paths
  {
  }

  lemma EntriesNext(es: set<Entry>, added: set<Entry>, r: Runner, items: seq<Scheduled>, paths: set<string>, i: nat)
    requires Registry(items, paths) && i < |items| && EntriesUpTo(es, r, items, i)
    requires One(added) && es !! added && forall e | e in added :: e.runner == r && e.gen == items[i].gen
    ensures EntriesUpTo(es + added, r, items, i + 1)
  {
    forall k | 0 <= k < |items|
      ensures k != i ==> EntriesOf(es + added, r, items[k].gen) == EntriesOf(es, r, items[k].gen)
      ensures k == i ==> One(EntriesOf(es + added, r, items[k].gen))
    {
      EntriesAdded(es, added, r, items[i].gen, items[k].gen);
      assert k != i ==> items[k].gen.path != items[i].gen.path;
    }
  }

  /** Collecting drops no wanted entry and makes none, so one entry each stays so. */
  lemma CollectKeepsOneEach(s: Scheduler, was: map<Entry, Key>, now: int, ready: seq<Entry>, r: Runner)
    requires s.CollectedAll(was, now, ready) && !r.stopped
    requires OneEntryEach(was.Keys, r, r.items)
    ensures OneEntryEach(s.Queued(), r, r.items)
  {
    hide Keys, Indexed, Heap;
    forall i | 0 <= i < |r.items|
      ensures EntriesOf(s.Queued(), r, r.items[i].gen) == EntriesOf(was.Keys, r, r.items[i].gen)
    {
      assert r.Wants(r.items[i].gen);
    }
  }

  // ---------- A runner's life ----------

  /** What happens to a runner and its scheduler: a generator registered or taken out, the
      due ones collected, a generator of another runner queued. */
  datatype Act =
    | Register(gen: Generator, interval: int, now: int)
    | Unregister(path: string)
    | Collect(now: int)
    | Foreign(runner: Runner, gen: Generator, interval: int, now: int)

  /** Another runner's entries are no business of this one. */
  lemma ForeignEntry(es: set<Entry>, added: set<Entry>, r: Runner, items: seq<Scheduled>)
    requires OneEntryEach(es, r, items) && forall e | e in added :: e.runner != r
    ensures OneEntryEach(es + added, r, items)
  {
    hide One;
    forall i | 0 <= i < |items|
      ensures EntriesOf(es + added, r, items[i].gen) == EntriesOf(es, r, items[i].gen)
    {
    }
  }

  /** A started runner with one entry for each generator; seen are the generators it has
      ever had an entry for. */
  ghost predicate Steady(r: Runner, seen: set<Generator>)
    reads r, r.sched, r.sched.queue, r.sched.queue.slots
  {
    && r.Valid() && r.sched.Valid() && r.started && !r.stopped && !r.sched.stopped
    && OneEntryEach(r.sched.Queued(), r, r.items)
    && (forall e | e in r.sched.Queued() && e.runner == r :: e.gen in seen)
  }

  /** Each registration brings a generator that has not been there before. */
  ghost predicate Unseen(acts: seq<Act>, seen: set<Generator>) {
    && (forall i | 0 <= i < |acts| && acts[i].Register? :: acts[i].gen !in seen)
    && (forall i, j | 0 <= i < j < |acts| && acts[i].Register? && acts[j].Register? :: acts[i].gen != acts[j].gen)
  }

  ghost function SeenUpTo(acts: seq<Act>, seen: set<Generator>, n: nat): set<Generator>
    requires n <= |acts|
  {
    seen + set i | 0 <= i < n && acts[i].Register? :: acts[i].gen
  }

  /** Over a whole run in which every generator registered is a new one, exactly one queue
      entry for each registered generator. */
  method Live(r: Runner, acts: seq<Act>, ghost seen: set<Generator>)
    requires Steady(r, seen) && Unseen(acts, seen)
    requires forall i | 0 <= i < |acts| && acts[i].Foreign? :: acts[i].runner != r && acts[i].interval > 0
    modifies r`items, r`paths, r.sched`count, r.sched.queue, r.sched.Queued()`index, r.sched.Queued()`due
    ensures Steady(r, SeenUpTo(acts, seen, |acts|))
  {
    hide EntriesOf, OneEntryEach, Heap, Indexed, Keys, Registry;
    for i := 0 to |acts|
      invariant Steady(r, SeenUpTo(acts, seen, i))
      invariant fresh(r.sched.Queued() - old(r.sched.Queued()))
    {
      Perform(r, acts[i], SeenUpTo(acts, seen, i));
      SeenNext(acts, seen, i);
    }
  }

  lemma SeenNext(acts: seq<Act>, seen: set<Generator>, i: nat)
    requires i < |acts|
    ensures SeenUpTo(acts, seen, i + 1) == SeenUpTo(acts, seen, i) + if acts[i].Register? then {acts[i].gen} else {}
  {
  }

  method Perform(r: Runner, act: Act, ghost seen: set<Generator>)
    requires Steady(r, seen) && (act.Register? ==> act.gen !in seen)
    requires act.Foreign? ==> act.runner != r && act.interval > 0
    modifies r`items, r`paths, r.sched`count, r.sched.queue, r.sched.Queued()`index, r.sched.Queued()`due
    ensures Steady(r, seen + if act.Register? then {act.gen} else {})
    ensures fresh(r.sched.Queued() - old(r.sched.Queued()))
  {
    hide OneEntryEach, Heap, Indexed, Keys, Registry;
    match act {
      case Register(g, interval, now) =>
        var _ := r.Add(g, interval, now);
      case Unregister(path) =>
        r.Remove(path);
      case Collect(now) =>
        ghost var es := r.sched.Queued();
        var ready, _, _, was := r.sched.CollectDue(now);
        assert was.Keys == es;
        CollectKeepsOneEach(r.sched, was, now, ready, r);
      case Foreign(other, g, interval, now) =>
        ghost var es := r.sched.Queued();
        var _, added := r.sched.Add(other, g, interval, now);
        ForeignEntry(es, added, r, r.items);
    }
  }

  /** Registered, removed and registered again while its first entry is queued, one generator
      object has two entries. */
  method RegisteredAgain(g: Generator, now: int) returns (r: Runner)
    requires g.path != ""
    ensures r.Valid() && r.sched.Valid() && r.started && r.items == [Scheduled(g, 1)]
    ensures !OneEntryEach(r.sched.Queued(), r, r.items)
  {
    hide OneEntryEach, EntriesUpTo, EntriesOf, Heap, Indexed, Keys, Registry;
    var sched := new Scheduler();
    r := new Runner(sched, true);
    var _ := r.Add(g, 1, now);
    NothingQueued(r.sched.Queued(), r, r.items);
    assert r.items == [Scheduled(g, 1)];
    var queued := r.Start(now);
    assert queued && r.items == [Scheduled(g, 1)];
    HasItsEntry(r.sched.Queued(), r, g, 1);
    r.Remove(g.path);
    assert r.items == [];
    NoneRegistered(r.sched.Queued(), r, r.items);
    var _ := r.Add(g, 1, now);
  }

  lemma NothingQueued(es: set<Entry>, r: Runner, items: seq<Scheduled>)
    requires es == {}
    ensures EntriesUpTo(es, r, items, 0)
  {
  }

  lemma NoneRegistered(es: set<Entry>, r: Runner, items: seq<Scheduled>)
    requires items == []
    ensures OneEntryEach(es, r, items)
  {
  }

  lemma HasItsEntry(es: set<Entry>, r: Runner, g: Generator, interval: int)
    requires OneEntryEach(es, r, [Scheduled(g, interval)])
    ensures EntriesOf(es, r, g) != {}
  {
    assert [Scheduled(g, interval)][0].gen == g;
    assert One(EntriesOf(es, r, g));
  }
}
