/**
 * The architecturally visible events of one write to the victim file, and the
 * observers that the lifecycle properties are stated with: the order in which
 * pages are mapped and unmapped, how many pins are taken and released, and the
 * phase order pin, map, leak, unmap, unpin.
 */
module EventTrace {
  import opened Wrappers
  import opened KernelSecrets

  /** Page `index` of the user region that starts at user address `base`. */
  datatype Page = UserPage(base: int, index: nat)

  datatype Event =
    | Pin(result: int)                         // pin_user_pages_fast returned result
    | Map(index: nat)                          // kmap(pages[index]) returned an alias
    | ReadSecret(secret: SecretId, offset: nat) // a load of a secret byte
    | Deref(page: Page)                        // a load through the kernel alias of page
    | Unmap(index: nat)                        // kunmap(pages[index])
    | Unpin(count: nat)                        // unpin_user_pages(pages, count)

  /**
   * Where an event belongs in the lifecycle: pins come first, then mappings,
   * then the leak primitive's loads, then unmappings, then unpins.
   */
  function Phase(e: Event): nat
  {
    match e
    case Pin(_) => 0
    case Map(_) => 1
    case ReadSecret(_, _) => 2
    case Deref(_) => 2
    case Unmap(_) => 3
    case Unpin(_) => 4
  }

  /** The events of `t` occur in lifecycle order. */
  predicate PhaseOrdered(t: seq<Event>)
  {
    forall i, j :: 0 <= i < j < |t| ==> Phase(t[i]) <= Phase(t[j])
  }

  /** Every event of `t` has a phase in lo..hi. */
  predicate PhasesBetween(t: seq<Event>, lo: nat, hi: nat)
  {
    forall e | e in t :: lo <= Phase(e) <= hi
  }

  /** `t` performs no load of a secret and no load through a mapped page. */
  predicate RunsNoPrimitive(t: seq<Event>)
  {
    forall e | e in t :: !e.ReadSecret? && !e.Deref?
  }

  function Picked<T>(o: Option<T>): seq<T>
  {
    match o
    case Some(x) => [x]
    case None => []
  }

  /** The values `pick` extracts from the events of `t`, in trace order. */
  function Select<T>(t: seq<Event>, pick: Event -> Option<T>): seq<T>
  {
    if t == [] then [] else Picked(pick(t[0])) + Select(t[1..], pick)
  }

  function MapIndex(e: Event): Option<nat>
  {
    if e.Map? then Some(e.index) else None
  }

  function UnmapIndex(e: Event): Option<nat>
  {
    if e.Unmap? then Some(e.index) else None
  }

  /** A negative pin result is an error code and pins nothing. */
  function PinnedCount(e: Event): Option<nat>
  {
    if e.Pin? && e.result > 0 then Some(e.result) else None
  }

  function UnpinnedCount(e: Event): Option<nat>
  {
    if e.Unpin? then Some(e.count) else None
  }

  /** Indices of the pages mapped, in mapping order. */
  function MapOrder(t: seq<Event>): seq<nat>
  {
    Select(t, MapIndex)
  }

  /** Indices of the pages unmapped, in unmapping order. */
  function UnmapOrder(t: seq<Event>): seq<nat>
  {
    Select(t, UnmapIndex)
  }

  function Sum(s: seq<nat>): nat
  {
    if s == [] then 0 else s[0] + Sum(s[1..])
  }

  /** Number of page pins taken. */
  function PinsAcquired(t: seq<Event>): nat
  {
    Sum(Select(t, PinnedCount))
  }

  /** Number of page pins released. */
  function PinsReleased(t: seq<Event>): nat
  {
    Sum(Select(t, UnpinnedCount))
  }

  /** lo, lo+1, ..., hi-1. */
  function Range(lo: nat, hi: nat): seq<nat>
    decreases hi
  {
    if hi <= lo then [] else Range(lo, hi - 1) + [hi - 1]
  }

  function Reverse<T>(s: seq<T>): seq<T>
  {
    if s == [] then [] else Reverse(s[1..]) + [s[0]]
  }

  /** Map(0), Map(1), ..., Map(n-1): the mapping loop run to page n. */
  function MapsUp(n: nat): seq<Event>
  {
    if n == 0 then [] else MapsUp(n - 1) + [Map(n - 1)]
  }

  /** Unmap(hi-1), Unmap(hi-2), ..., Unmap(lo): a decrementing unmapping loop. */
  function UnmapsDown(hi: nat, lo: nat): seq<Event>
    decreases hi - lo
  {
    if hi <= lo then [] else UnmapsDown(hi, lo + 1) + [Unmap(lo)]
  }

  lemma {:induction false} SelectAppend<T>(a: seq<Event>, b: seq<Event>, pick: Event -> Option<T>)
    ensures Select(a + b, pick) == Select(a, pick) + Select(b, pick)
  {
    if a == [] {
      assert a + b == b;
    } else {
      assert (a + b)[0] == a[0];
      assert (a + b)[1..] == a[1..] + b;
      SelectAppend(a[1..], b, pick);
    }
  }

  /** Events that `pick` ignores contribute nothing. */
  lemma {:induction false} SelectNone<T>(t: seq<Event>, pick: Event -> Option<T>)
    requires forall e | e in t :: pick(e).None?
    ensures Select(t, pick) == []
  {
    if t != [] {
      assert t[0] in t;
      SelectNone(t[1..], pick);
    }
  }

  lemma SelectSingle<T>(e: Event, pick: Event -> Option<T>)
    ensures Select([e], pick) == Picked(pick(e))
  {
    assert [e][1..] == [];
  }

  lemma {:induction false} SumAppend(a: seq<nat>, b: seq<nat>)
    ensures Sum(a + b) == Sum(a) + Sum(b)
  {
    if a == [] {
      assert a + b == b;
    } else {
      assert (a + b)[1..] == a[1..] + b;
      SumAppend(a[1..], b);
    }
  }

  lemma {:induction false} RangeCons(lo: nat, hi: nat)
    requires lo < hi
    ensures Range(lo, hi) == [lo] + Range(lo + 1, hi)
    decreases hi
  {
    if lo + 1 < hi {
      RangeCons(lo, hi - 1);
    }
  }

  /** The mapping loop maps pages 0..n-1 in increasing order and does nothing else. */
  lemma {:induction false} MapsUpShape(n: nat)
    ensures |MapsUp(n)| == n
    ensures PhasesBetween(MapsUp(n), 1, 1) && RunsNoPrimitive(MapsUp(n))
    ensures MapOrder(MapsUp(n)) == Range(0, n)
    ensures UnmapOrder(MapsUp(n)) == []
    ensures Select(MapsUp(n), PinnedCount) == [] && Select(MapsUp(n), UnpinnedCount) == []
  {
    if n > 0 {
      var last: seq<Event> := [Map(n - 1)];
      MapsUpShape(n - 1);
      SelectAppend(MapsUp(n - 1), last, MapIndex);
      SelectAppend(MapsUp(n - 1), last, UnmapIndex);
      SelectAppend(MapsUp(n - 1), last, PinnedCount);
      SelectAppend(MapsUp(n - 1), last, UnpinnedCount);
      SelectSingle(Map(n - 1), MapIndex);
      SelectSingle(Map(n - 1), UnmapIndex);
      SelectSingle(Map(n - 1), PinnedCount);
      SelectSingle(Map(n - 1), UnpinnedCount);
    }
  }

  /**
   * The decrementing unmapping loop unmaps pages hi-1 down to lo, the exact
   * reverse of the order in which they were mapped, and does nothing else.
   */
  lemma {:induction false} UnmapsDownShape(hi: nat, lo: nat)
    ensures PhasesBetween(UnmapsDown(hi, lo), 3, 3) && RunsNoPrimitive(UnmapsDown(hi, lo))
    ensures UnmapOrder(UnmapsDown(hi, lo)) == Reverse(Range(lo, hi))
    ensures MapOrder(UnmapsDown(hi, lo)) == []
    ensures Select(UnmapsDown(hi, lo), PinnedCount) == [] && Select(UnmapsDown(hi, lo), UnpinnedCount) == []
    decreases hi - lo
  {
    if lo < hi {
      var last: seq<Event> := [Unmap(lo)];
      UnmapsDownShape(hi, lo + 1);
      SelectAppend(UnmapsDown(hi, lo + 1), last, MapIndex);
      SelectAppend(UnmapsDown(hi, lo + 1), last, UnmapIndex);
      SelectAppend(UnmapsDown(hi, lo + 1), last, PinnedCount);
      SelectAppend(UnmapsDown(hi, lo + 1), last, UnpinnedCount);
      SelectSingle(Unmap(lo), MapIndex);
      SelectSingle(Unmap(lo), UnmapIndex);
      SelectSingle(Unmap(lo), PinnedCount);
      SelectSingle(Unmap(lo), UnpinnedCount);
      RangeCons(lo, hi);
      assert ([lo] + Range(lo + 1, hi))[1..] == Range(lo + 1, hi);
    }
  }

  lemma RunsNoPrimitiveAppend(a: seq<Event>, b: seq<Event>)
    requires RunsNoPrimitive(a) && RunsNoPrimitive(b)
    ensures RunsNoPrimitive(a + b)
  {
    forall e | e in a + b
      ensures !e.ReadSecret? && !e.Deref?
    {
      assert e in a || e in b;
    }
  }

  /** A trace whose events all have one phase is ordered. */
  lemma SinglePhaseIsOrdered(t: seq<Event>, p: nat)
    requires PhasesBetween(t, p, p)
    ensures PhaseOrdered(t)
  {
    forall i, j | 0 <= i < j < |t|
      ensures Phase(t[i]) <= Phase(t[j])
    {
      assert t[i] in t && t[j] in t;
    }
  }

  /** Appending a later-phase trace to an ordered trace keeps it ordered. */
  lemma PhaseOrderedAppend(a: seq<Event>, b: seq<Event>, lo: nat, mid: nat, hi: nat)
    requires lo <= mid <= hi
    requires PhaseOrdered(a) && PhasesBetween(a, lo, mid)
    requires PhaseOrdered(b) && PhasesBetween(b, mid, hi)
    ensures PhaseOrdered(a + b) && PhasesBetween(a + b, lo, hi)
  {
    forall i, j | 0 <= i < j < |a + b|
      ensures Phase((a + b)[i]) <= Phase((a + b)[j])
    {
      if j < |a| {
        assert (a + b)[i] == a[i] && (a + b)[j] == a[j];
      } else if |a| <= i {
        assert (a + b)[i] == b[i - |a|] && (a + b)[j] == b[j - |a|];
      } else {
        assert (a + b)[i] == a[i] && a[i] in a;
        assert (a + b)[j] == b[j - |a|] && b[j - |a|] in b;
      }
    }
  }
}
