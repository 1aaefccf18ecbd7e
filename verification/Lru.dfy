/** The open-handle list of store.go: an intrusive doubly linked list, least recently used handles closed first. */
module Lru {

  // ----- eviction as a function of the order, most recently used first

  function Without<T(==)>(o: seq<T>, x: T): seq<T> {
    if o == [] then [] else if o[0] == x then o[1..] else [o[0]] + Without(o[1..], x)
  }

  /** The least recently used handle that may be closed. */
  function Victim<T(==)>(o: seq<T>, keepers: set<T>): (i: int)
    ensures -1 <= i < |o|
    ensures i >= 0 ==> o[i] !in keepers
    ensures forall k | i < k < |o| :: o[k] in keepers
  {
    if o == [] then -1
    else if o[|o| - 1] !in keepers then |o| - 1
    else Victim(o[..|o| - 1], keepers)
  }

  function Remove<T>(o: seq<T>, i: nat): seq<T>
    requires i < |o|
  {
    o[..i] + o[i + 1..]
  }

  lemma RemoveLength<T>(o: seq<T>, i: nat)
    requires i < |o|
    ensures |Remove(o, i)| == |o| - 1
  {
  }

  function Evicted<T(==)>(o: seq<T>, cap: nat, keepers: set<T>): seq<T>
    decreases |o|
  {
    var i := Victim(o, keepers);
    if |o| <= cap || i < 0 then o else Evicted(Remove(o, i), cap, keepers)
  }

  ghost predicate Distinct<T>(o: seq<T>) {
    forall i, j | 0 <= i < j < |o| :: o[i] != o[j]
  }

  /** Nothing that may not be closed is closed, and nothing new appears. */
  lemma {:induction false} EvictionSparesKeepers<T>(o: seq<T>, cap: nat, keepers: set<T>, x: T)
    ensures x in Evicted(o, cap, keepers) ==> x in o
    ensures x in o && x in keepers ==> x in Evicted(o, cap, keepers)
    decreases |o|
  {
    var i := Victim(o, keepers);
    if |o| > cap && i >= 0 {
      var p := Remove(o, i);
      if x in o && x in keepers {
        var k :| 0 <= k < |o| && o[k] == x;
        assert p[if k < i then k else k - 1] == x;
      }
      EvictionSparesKeepers(p, cap, keepers, x);
    }
  }

  /** Among the handles that may be closed, the ones closed are the least recently used. */
  lemma {:induction false} EvictionTakesTheOldest<T>(o: seq<T>, cap: nat, keepers: set<T>, i: nat, j: nat)
    requires Distinct(o) && i < j < |o| && o[i] !in keepers && o[j] !in keepers
    ensures o[j] in Evicted(o, cap, keepers) ==> o[i] in Evicted(o, cap, keepers)
    decreases |o|
  {
    var v := Victim(o, keepers);
    if |o| > cap && v >= 0 {
      var p := Remove(o, v);
      EvictionSparesKeepers(p, cap, keepers, o[j]);
      assert j <= v;
      if j < v {
        assert p[i] == o[i] && p[j] == o[j];
        EvictionTakesTheOldest(p, cap, keepers, i, j);
      } else {
        assert o[j] !in p;
      }
    }
  }

  lemma {:induction false} KeepersBound<T>(o: seq<T>, keepers: set<T>)
    requires Distinct(o) && forall x <- o :: x in keepers
    ensures |o| <= |keepers|
    decreases |o|
  {
    if o != [] {
      var last := o[|o| - 1];
      var p := o[..|o| - 1];
      forall x <- p ensures x in keepers - {last} {
        var k :| 0 <= k < |p| && p[k] == x;
        assert o[k] == x && o[k] != o[|o| - 1];
      }
      KeepersBound(p, keepers - {last});
    }
  }

  /** Back under the cap whenever the handles that must stay open fit under it. */
  lemma {:induction false} EvictionReachesTheCap<T>(o: seq<T>, cap: nat, keepers: set<T>)
    requires Distinct(o) && |keepers| <= cap
    ensures |Evicted(o, cap, keepers)| <= cap
    decreases |o|
  {
    var i := Victim(o, keepers);
    if |o| > cap {
      if i < 0 {
        KeepersBound(o, keepers);
      } else {
        EvictionReachesTheCap(Remove(o, i), cap, keepers);
      }
    }
  }

  /** A cap of three and pins two short of it leave room for the active file and the one just opened. */
  lemma CapHolds<T>(o: seq<T>, cap: nat, active: T, keep: T, pinned: set<T>)
    requires Distinct(o) && cap >= 3 && |pinned| <= cap - 2
    ensures |Evicted(o, cap, {active, keep} + pinned)| <= cap
  {
    assert |{active, keep}| <= 2;
    assert |{active, keep} + pinned| <= |{active, keep}| + |pinned|;
    EvictionReachesTheCap(o, cap, {active, keep} + pinned);
  }

  // ----- the list

  class File {
    var lruPrev: File?
    var lruNext: File?
    var isOpen: bool
    var pins: nat

    constructor ()
      ensures lruPrev == null && lruNext == null && !isOpen && pins == 0
    {
      lruPrev, lruNext, isOpen, pins := null, null, false, 0;
    }
  }

  ghost function At(o: seq<File>, i: int): File? {
    if 0 <= i < |o| then o[i] else null
  }

  ghost predicate Links(o: seq<File>)
    reads o`lruPrev, o`lruNext
  {
    forall i | 0 <= i < |o| :: o[i].lruPrev == At(o, i - 1) && o[i].lruNext == At(o, i + 1)
  }

  lemma DistinctCons(o: seq<File>, f: File)
    requires Distinct(o) && f !in o
    ensures Distinct([f] + o)
  {
  }

  lemma DistinctRemove(o: seq<File>, k: nat)
    requires Distinct(o) && k < |o|
    ensures Distinct(Remove(o, k)) && o[k] !in Remove(o, k)
    ensures forall f :: f in Remove(o, k) <==> f in o && f != o[k]
  {
    var p := Remove(o, k);
    forall f | f in o && f != o[k] ensures f in p {
      var i :| 0 <= i < |o| && o[i] == f;
      assert p[if i < k then i else i - 1] == f;
    }
    forall i | 0 <= i < |p| ensures p[i] != o[k] && p[i] in o {
      assert p[i] == o[if i < k then i else i + 1];
    }
  }

  /** The neighbours of o[j] once o[k] has been taken out from between them. */
  ghost predicate Spliced(o: seq<File>, k: nat, j: nat)
    requires j < |o|
    reads o
  {
    && o[j].lruPrev == At(o, if j == k + 1 then k - 1 else j - 1)
    && o[j].lruNext == At(o, if j == k - 1 then k + 1 else j + 1)
  }

  lemma SplicedLinks(o: seq<File>, k: nat)
    requires k < |o| && forall j | 0 <= j < |o| && j != k :: Spliced(o, k, j)
    ensures Links(Remove(o, k)) && At(Remove(o, k), 0) == At(o, if k == 0 then k + 1 else 0)
    ensures At(Remove(o, k), |o| - 2) == At(o, if k == |o| - 1 then k - 1 else |o| - 1)
  {
    var p := Remove(o, k);
    RemovedAt(o, k);
    hide Remove;
    forall i | 0 <= i < |p| ensures p[i].lruPrev == At(p, i - 1) && p[i].lruNext == At(p, i + 1) {
      assert Spliced(o, k, if i < k then i else i + 1);
    }
  }

  /** The neighbours of o[j] once f has been put in front. */
  ghost predicate Shifted(o: seq<File>, f: File, j: nat)
    requires j < |o|
    reads o
  {
    o[j].lruPrev == (if j == 0 then f else At(o, j - 1)) && o[j].lruNext == At(o, j + 1)
  }

  lemma ShiftedLinks(o: seq<File>, f: File)
    requires f.lruPrev == null && f.lruNext == At(o, 0) && forall j | 0 <= j < |o| :: Shifted(o, f, j)
    ensures Links([f] + o) && At([f] + o, 0) == f && At([f] + o, |o|) == if o == [] then f else At(o, |o| - 1)
  {
    var p := [f] + o;
    forall i | 0 <= i < |p| ensures p[i].lruPrev == At(p, i - 1) && p[i].lruNext == At(p, i + 1) {
      if i > 0 {
        assert Shifted(o, f, i - 1) && p[i] == o[i - 1];
      }
    }
  }

  class List {
    var lruMRU: File?
    var lruLRU: File?
    var nOpen: nat
    ghost var Order: seq<File>   // most recently used first
    ghost var Files: set<File>   // every segment of the store

    ghost predicate Threaded()
      reads this, Files
    {
      && (forall f <- Order :: f in Files)
      && Distinct(Order) && Links(Order)
      && lruMRU == At(Order, 0) && lruLRU == At(Order, |Order| - 1)
      && nOpen == |Order|
    }

    /** The list holds exactly the open files. */
    ghost predicate Valid()
      reads this, Files
    {
      Threaded() && forall f <- Files :: f.isOpen <==> f in Order
    }

    constructor ()
      ensures Valid() && Order == [] && Files == {}
    {
      lruMRU, lruLRU, nOpen, Order, Files := null, null, 0, [], {};
    }

    /** lruPushMRU. */
    method PushMRU(df: File)
      requires Threaded() && df in Files && df !in Order
      modifies this`lruMRU, this`lruLRU, this`nOpen, this`Order, Files`lruPrev, Files`lruNext
      ensures Threaded() && Order == [df] + old(Order)
    {
      hide Distinct;
      hide At;
      ghost var o := Order;
      IsAt(o, 0);
      DistinctCons(o, df);
      df.lruPrev := null;
      df.lruNext := lruMRU;
      if lruMRU != null {
        lruMRU.lruPrev := df;
      } else {
        lruLRU := df;
      }
      lruMRU := df;
      nOpen := nOpen + 1;
      forall j | 0 <= j < |o| ensures Shifted(o, df, j) {
        Apart(o, j, 0);
      }
      ShiftedLinks(o, df);
      hide Links;
      hide Shifted;
      Order := [df] + o;
    }

    /** lruUnlink. */
    method Unlink(df: File, ghost k: nat)
      requires Threaded() && k < |Order| && Order[k] == df
      modifies this`lruMRU, this`lruLRU, this`nOpen, this`Order, Files`lruPrev, Files`lruNext
      ensures Threaded() && Order == Remove(old(Order), k)
    {
      hide Distinct;
      hide Remove;
      hide At;
      ghost var o := Order;
      IsAt(o, k - 1);
      IsAt(o, k + 1);
      RemovedAt(o, k);
      DistinctRemove(o, k);
      assert df.lruPrev == At(o, k - 1) && df.lruNext == At(o, k + 1);
      if df.lruPrev != null {
        df.lruPrev.lruNext := df.lruNext;
      } else {
        lruMRU := df.lruNext;
      }
      if df.lruNext != null {
        df.lruNext.lruPrev := df.lruPrev;
      } else {
        lruLRU := df.lruPrev;
      }
      df.lruPrev, df.lruNext := null, null;
      nOpen := nOpen - 1;
      forall j | 0 <= j < |o| && j != k ensures Spliced(o, k, j) {
        Apart(o, j, k);
        Apart(o, j, k - 1);
        Apart(o, j, k + 1);
      }
      SplicedLinks(o, k);
      hide Links;
      hide Spliced;
      Order := Remove(o, k);
    }

    /** touchOpen. */
    method Touch(df: File, ghost k: nat)
      requires Valid() && k < |Order| && Order[k] == df
      modifies this`lruMRU, this`lruLRU, this`nOpen, this`Order, Files`lruPrev, Files`lruNext
      ensures Valid() && Order == [df] + Remove(old(Order), k) && nOpen == old(nOpen)
    {
      hide Distinct;
      hide Remove;
      hide Links;
      Apart(Order, 0, k);
      RemovedAt(Order, k);
      DistinctRemove(Order, k);
      RemoveLength(Order, k);
      if df == lruMRU {
        assert Order == [df] + Remove(Order, 0);
        return;
      }
      Unlink(df, k);
      PushMRU(df);
    }

    /** Handles eviction passes over: the active file, the one just opened, and whatever an off-lock flush holds. */
    ghost function Pinned(): set<File>
      reads this, Files
    {
      set f | f in Files && f.pins > 0
    }

    ghost function Keepers(active: File?, keep: File): (ks: set<File>)
      reads this, Files
      ensures |ks| <= |Pinned()| + 2
    {
      var ends := if active == null then {keep} else {keep, active};
      Pinned() + ends
    }

    /** The walk from the least recently used end. */
    method FindVictim(active: File?, keep: File) returns (victim: File?, ghost i: int)
      requires Valid()
      ensures i == Victim(Order, Keepers(active, keep))
      ensures victim == At(Order, Victim(Order, Keepers(active, keep)))
    {
      hide Distinct;
      hide At;
      ghost var keepers := Keepers(active, keep);
      var df := lruLRU;
      i := |Order| - 1;
      while df != null
        invariant -1 <= i < |Order| && df == At(Order, i)
        invariant forall k | i < k < |Order| :: Order[k] in keepers
        decreases i
      {
        IsAt(Order, i);
        if df != active && df != keep && df.pins == 0 {
          VictimIs(Order, keepers, i);
          return df, i;
        }
        IsAt(Order, i - 1);
        df := df.lruPrev;
        i := i - 1;
      }
      IsAt(Order, i);
      VictimIs(Order, keepers, -1);
      return null, -1;
    }

    /** evictOpen: close from the old end until the cap holds or nothing more may be closed. A cap of zero is none. */
    method EvictOpen(cap: nat, active: File?, keep: File)
      requires Valid()
      modifies this`lruMRU, this`lruLRU, this`nOpen, this`Order, Files`lruPrev, Files`lruNext, Files`isOpen
      ensures Valid() && Order == if cap == 0 then old(Order) else Evicted(old(Order), cap, old(Keepers(active, keep)))
      ensures cap > 0 && |old(Keepers(active, keep))| <= cap ==> nOpen <= cap
    {
      hide Distinct;
      hide Remove;
      hide Links;
      hide At;
      hide Evicted;
      hide Victim;
      if cap == 0 {
        return;
      }
      ghost var keepers := Keepers(active, keep);
      while nOpen > cap
        invariant Valid() && Keepers(active, keep) == keepers
        invariant Evicted(old(Order), cap, keepers) == Evicted(Order, cap, keepers)
        decreases nOpen
      {
        var victim, i := FindVictim(active, keep);
        IsAt(Order, i);
        if victim == null {
          break;
        }
        EvictionStep(Order, cap, keepers, i);
        RemovedAt(Order, i);
        Close(victim, i);
      }
      EvictionStops(Order, cap, keepers);
      if |keepers| <= cap {
        EvictionReachesTheCap(old(Order), cap, keepers);
      }
    }

    /** The victim's handle goes, and with it its place in the list. */
    method Close(victim: File, ghost k: nat)
      requires Valid() && k < |Order| && Order[k] == victim
      modifies this`lruMRU, this`lruLRU, this`nOpen, this`Order, Files`lruPrev, Files`lruNext, Files`isOpen
      ensures Valid() && Order == Remove(old(Order), k)
    {
      hide Distinct;
      hide Remove;
      hide Links;
      hide At;
      DistinctRemove(Order, k);
      victim.isOpen := false;
      Unlink(victim, k);
    }

    /** ensureOpen: false when the open itself fails. */
    method EnsureOpen(df: File, ghost k: int, opens: bool, cap: nat, active: File?) returns (ok: bool)
      requires Valid() && df in Files
      requires if df.isOpen then 0 <= k < |Order| && Order[k] == df else k == -1
      modifies this`lruMRU, this`lruLRU, this`nOpen, this`Order, Files`lruPrev, Files`lruNext, Files`isOpen
      ensures Valid() && ok == (old(df.isOpen) || opens)
      ensures Order == if old(df.isOpen) then [df] + Remove(old(Order), k)
                       else if !opens then old(Order)
                       else if cap == 0 then [df] + old(Order)
                       else Evicted([df] + old(Order), cap, old(Keepers(active, df)))
      ensures ok ==> df.isOpen
      ensures if !old(df.isOpen) && opens then cap > 0 && |old(Pinned())| + 2 <= cap ==> nOpen <= cap else nOpen == old(nOpen)
    {
      hide Distinct;
      hide Remove;
      hide Links;
      hide At;
      hide Evicted;
      if df.isOpen {
        Touch(df, k);
        return true;
      }
      if !opens {
        return false;
      }
      df.isOpen := true;
      PushMRU(df);
      ghost var o := Order;
      ghost var keepers := Keepers(active, df);
      assert keepers == old(Keepers(active, df));
      EvictOpen(cap, active, df);
      EvictionSparesKeepers(o, cap, keepers, df);
      return true;
    }
  }

  lemma EvictionStep(o: seq<File>, cap: nat, keepers: set<File>, i: int)
    requires i == Victim(o, keepers) && i >= 0 && |o| > cap
    ensures Evicted(o, cap, keepers) == Evicted(Remove(o, i), cap, keepers)
  {
  }

  lemma EvictionStops(o: seq<File>, cap: nat, keepers: set<File>)
    requires |o| <= cap || Victim(o, keepers) < 0
    ensures Evicted(o, cap, keepers) == o
  {
  }

  lemma VictimIs(o: seq<File>, keepers: set<File>, i: int)
    requires -1 <= i < |o| && (i >= 0 ==> o[i] !in keepers) && forall k | i < k < |o| :: o[k] in keepers
    ensures Victim(o, keepers) == i
  {
  }

  lemma RemovedAt(o: seq<File>, k: nat)
    requires k < |o|
    ensures |Remove(o, k)| == |o| - 1
    ensures forall i | 0 <= i < |o| - 1 :: Remove(o, k)[i] == o[if i < k then i else i + 1]
  {
  }

  lemma IsAt(o: seq<File>, i: int)
    ensures At(o, i) == if 0 <= i < |o| then o[i] else null
  {
  }

  lemma Apart(o: seq<File>, i: int, j: int)
    requires Distinct(o) && 0 <= i < |o|
    ensures 0 <= j < |o| && i != j ==> o[i] != o[j]
  {
  }
}
