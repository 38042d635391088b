/** Slot admission for native applications (native_app_layout.py): each launch takes the first free
    slot of the admission order that fits. */
module Admission {
  import opened Bytes
  import opened Udex
  import opened O65
  import opened Relocator

  type Task = nat
  type Name = string
  type Fits = map<Name, seq<Task>>

  datatype Allocation = Allocation(task: Task, base: nat, limit: nat, stack: nat)

  const ALLOCATIONS: seq<Allocation> := [
    Allocation(3, 0x2300, 0x3500, 0x3400),
    Allocation(4, 0x3500, 0x4000, 0x3F00),
    Allocation(5, 0x8000, 0x9000, 0x8F00),
    Allocation(6, 0xC600, 0xD000, 0xCF00)
  ]

  const JOINED_ALLOCATION: Allocation := Allocation(3, 0x2300, 0x4000, 0x3F00)

  const ADMISSION_ORDER: seq<Task> := [6, 4, 5, 3]

  ghost predicate Unique(s: seq<Task>) {
    forall i, j | 0 <= i < j < |s| :: s[i] != s[j]
  }

  // ----- one launch order

  /** First position at or after i whose slot is free and fits, or the number of slots. */
  function FirstFree(order: seq<Task>, taken: seq<nat>, fit: seq<Task>, i: nat): (p: nat)
    requires i <= |order|
    ensures i <= p <= |order|
    ensures p < |order| ==> p !in taken && order[p] in fit
    ensures forall j | i <= j < p :: j in taken || order[j] !in fit
    decreases |order| - i
  {
    if i == |order| || (i !in taken && order[i] in fit) then i else FirstFree(order, taken, fit, i + 1)
  }

  /** The slot positions the loader gives the launches in turn; None once a launch finds no slot. */
  function Launch(order: seq<Task>, fits: Fits, launches: seq<Name>): (r: Option<seq<nat>>)
    requires forall i | 0 <= i < |launches| :: launches[i] in fits
    ensures r.Some? ==> |r.value| == |launches|
    decreases |launches|
  {
    if launches == [] then Some([]) else
    match Launch(order, fits, launches[..|launches| - 1])
    case None => None
    case Some(taken) =>
      var p := FirstFree(order, taken, fits[launches[|launches| - 1]], 0);
      if p == |order| then None else Some(taken + [p])
  }

  // ----- upward-closed fits and Hall's condition

  /** Whatever fits a slot fits every later slot of the order. */
  ghost predicate UpClosed(order: seq<Task>, fit: seq<Task>) {
    forall i, j | 0 <= i < j < |order| :: order[i] in fit ==> order[j] in fit
  }

  /** The first position that fits, or the number of slots. */
  function Need(order: seq<Task>, fit: seq<Task>): (m: nat)
    ensures m <= |order|
  {
    FirstFree(order, [], fit, 0)
  }

  lemma NeedMeans(order: seq<Task>, fit: seq<Task>, p: nat)
    requires UpClosed(order, fit) && p < |order|
    ensures order[p] in fit <==> Need(order, fit) <= p
  {
  }

  /** How many of the applications need a slot in the suffix of the order from k on. */
  function Demand(order: seq<Task>, fits: Fits, apps: seq<Name>, k: nat): nat
    requires forall i | 0 <= i < |apps| :: apps[i] in fits
    decreases |apps|
  {
    if apps == [] then 0
    else Demand(order, fits, apps[..|apps| - 1], k) + if Need(order, fits[apps[|apps| - 1]]) >= k then 1 else 0
  }

  /** For every suffix of the order, at most as many applications need it as it has slots. */
  ghost predicate Hall(order: seq<Task>, fits: Fits, apps: seq<Name>)
    requires forall i | 0 <= i < |apps| :: apps[i] in fits
  {
    forall k | 0 <= k <= |order| :: Demand(order, fits, apps, k) <= |order| - k
  }

  ghost predicate AllUp(order: seq<Task>, fits: Fits) {
    forall a | a in fits :: UpClosed(order, fits[a])
  }

  // ----- counting positions

  /** How many numbers of s are at least k. */
  ghost function AtLeast(s: seq<nat>, k: nat): nat {
    if s == [] then 0 else AtLeast(s[..|s| - 1], k) + if s[|s| - 1] >= k then 1 else 0
  }

  lemma {:induction false} AtLeastSplit(s: seq<nat>, k: nat)
    ensures AtLeast(s, k) == AtLeast(s, k + 1) + multiset(s)[k]
    decreases |s|
  {
    if s != [] {
      AtLeastSplit(s[..|s| - 1], k);
      assert s == s[..|s| - 1] + [s[|s| - 1]];
    }
  }

  ghost predicate Slots(taken: seq<nat>, n: nat) {
    && (forall i | 0 <= i < |taken| :: taken[i] < n)
    && (forall i, j | 0 <= i < j < |taken| :: taken[i] != taken[j])
  }

  lemma {:induction false} OnceOnly(s: seq<nat>, n: nat, x: nat)
    requires Slots(s, n)
    ensures multiset(s)[x] == if x in s then 1 else 0
    decreases |s|
  {
    if s != [] {
      OnceOnly(s[..|s| - 1], n, x);
      assert s == s[..|s| - 1] + [s[|s| - 1]];
    }
  }

  lemma {:induction false} NoneBeyond(s: seq<nat>, n: nat)
    requires forall i | 0 <= i < |s| :: s[i] < n
    ensures AtLeast(s, n) == 0
    decreases |s|
  {
    if s != [] { NoneBeyond(s[..|s| - 1], n); }
  }

  /** Distinct positions below n: at most n - k of them are in the suffix, and exactly that many
      when the suffix is full. */
  lemma {:induction false} SuffixCount(taken: seq<nat>, n: nat, k: nat)
    requires Slots(taken, n) && k <= n
    ensures AtLeast(taken, k) <= n - k
    ensures (forall p | k <= p < n :: p in taken) ==> AtLeast(taken, k) == n - k
    decreases n - k
  {
    if k == n {
      NoneBeyond(taken, n);
    } else {
      SuffixCount(taken, n, k + 1);
      AtLeastSplit(taken, k);
      OnceOnly(taken, n, k);
    }
  }

  // ----- what greedy placement keeps

  /** Each launch sits at or above its need, and every suitable lower position was taken before it. */
  ghost predicate Placed(order: seq<Task>, fits: Fits, launches: seq<Name>, taken: seq<nat>)
    requires forall i | 0 <= i < |launches| :: launches[i] in fits
  {
    && |taken| == |launches| && Slots(taken, |order|)
    && forall i | 0 <= i < |launches| ::
         Need(order, fits[launches[i]]) <= taken[i] && forall p | Need(order, fits[launches[i]]) <= p < taken[i] ::
           p in taken
  }

  lemma {:induction false} LaunchPlaces(order: seq<Task>, fits: Fits, launches: seq<Name>)
    requires (forall i | 0 <= i < |launches| :: launches[i] in fits) && AllUp(order, fits)
    requires Launch(order, fits, launches).Some?
    ensures Placed(order, fits, launches, Launch(order, fits, launches).value)
  {
    hide FirstFree, UpClosed, Need;
    if launches != [] {
      var before, a := launches[..|launches| - 1], launches[|launches| - 1];
      LaunchPlaces(order, fits, before);
      var taken := Launch(order, fits, before).value;
      NextPlaced(order, fits, taken, a);
      PlacedMore(order, fits, before, taken, a, FirstFree(order, taken, fits[a], 0));
      assert before + [a] == launches;
    }
  }

  lemma NextPlaced(order: seq<Task>, fits: Fits, taken: seq<nat>, a: Name)
    requires a in fits && UpClosed(order, fits[a])
    ensures var p, m := FirstFree(order, taken, fits[a], 0), Need(order, fits[a]);
      && (p < |order| ==> m <= p && p !in taken)
      && forall q | m <= q < p :: q in taken
  {
    var p, m := FirstFree(order, taken, fits[a], 0), Need(order, fits[a]);
    if p < |order| { NeedMeans(order, fits[a], p); }
    forall q | m <= q < p ensures q in taken { NeedMeans(order, fits[a], q); }
  }

  lemma PlacedMore(order: seq<Task>, fits: Fits, before: seq<Name>, taken: seq<nat>, a: Name, p: nat)
    requires (forall i | 0 <= i < |before| :: before[i] in fits) && a in fits
    requires Placed(order, fits, before, taken) && p < |order| && p !in taken && Need(order, fits[a]) <= p
    requires forall q | Need(order, fits[a]) <= q < p :: q in taken
    ensures Placed(order, fits, before + [a], taken + [p])
  {
    hide Need;
    var launches, all := before + [a], taken + [p];
    assert Slots(all, |order|);
    forall i | 0 <= i < |launches|
      ensures Need(order, fits[launches[i]]) <= all[i]
      ensures forall q | Need(order, fits[launches[i]]) <= q < all[i] :: q in all
    {
      if i < |before| { assert launches[i] == before[i] && all[i] == taken[i]; }
    }
  }

  lemma {:induction false} DemandBound(order: seq<Task>, fits: Fits, apps: seq<Name>, taken: seq<nat>, k: nat)
    requires (forall i | 0 <= i < |apps| :: apps[i] in fits) && |taken| == |apps|
    ensures (forall i | 0 <= i < |apps| :: Need(order, fits[apps[i]]) >= k ==> taken[i] >= k) ==>
      Demand(order, fits, apps, k) <= AtLeast(taken, k)
    ensures (forall i | 0 <= i < |apps| :: taken[i] >= k ==> Need(order, fits[apps[i]]) >= k) ==>
      AtLeast(taken, k) <= Demand(order, fits, apps, k)
  {
    hide Need;
    if apps != [] {
      var n := |apps| - 1;
      DemandBound(order, fits, apps[..n], taken[..n], k);
      forall i | 0 <= i < n ensures apps[..n][i] == apps[i] && taken[..n][i] == taken[i] {}
    }
  }

  /** A run that places everyone satisfies Hall's condition. */
  lemma LaunchNeedsHall(order: seq<Task>, fits: Fits, launches: seq<Name>)
    requires (forall i | 0 <= i < |launches| :: launches[i] in fits) && AllUp(order, fits)
    requires Launch(order, fits, launches).Some?
    ensures Hall(order, fits, launches)
  {
    hide Need, AllUp;
    LaunchPlaces(order, fits, launches);
    var taken := Launch(order, fits, launches).value;
    forall k | 0 <= k <= |order| ensures Demand(order, fits, launches, k) <= |order| - k {
      DemandBound(order, fits, launches, taken, k);
      SuffixCount(taken, |order|, k);
    }
  }

  /** Start of the run of taken positions that ends at the last slot and includes m. */
  ghost function FullFrom(taken: seq<nat>, m: nat): (j: nat)
    ensures j <= m && (j == 0 || j - 1 !in taken)
    ensures forall p | j <= p < m :: p in taken
    decreases m
  {
    if m == 0 || m - 1 !in taken then m else FullFrom(taken, m - 1)
  }

  /** Under Hall's condition every launch finds a slot. */
  lemma {:induction false} HallSuffices(order: seq<Task>, fits: Fits, launches: seq<Name>)
    requires (forall i | 0 <= i < |launches| :: launches[i] in fits) && AllUp(order, fits)
    requires Hall(order, fits, launches)
    ensures Launch(order, fits, launches).Some?
  {
    hide FirstFree, Need, UpClosed;
    if launches != [] {
      var before, a := launches[..|launches| - 1], launches[|launches| - 1];
      forall k | 0 <= k <= |order| ensures Demand(order, fits, before, k) <= |order| - k {
        assert Demand(order, fits, launches, k) <= |order| - k;
      }
      HallSuffices(order, fits, before);
      LaunchPlaces(order, fits, before);
      var taken := Launch(order, fits, before).value;
      var j := FullFrom(taken, Need(order, fits[a]));
      assert Demand(order, fits, launches, j) <= |order| - j;
      if FirstFree(order, taken, fits[a], 0) == |order| {
        NextPlaced(order, fits, taken, a);
        Crowded(order, fits, before, taken, a);
      }
    }
  }

  /** If every slot from a's need on is taken, some suffix is in too much demand. */
  lemma Crowded(order: seq<Task>, fits: Fits, before: seq<Name>, taken: seq<nat>, a: Name)
    requires (forall i | 0 <= i < |before| :: before[i] in fits) && a in fits
    requires Placed(order, fits, before, taken)
    requires forall p | Need(order, fits[a]) <= p < |order| :: p in taken
    ensures var j := FullFrom(taken, Need(order, fits[a]));
      j <= |order| && Need(order, fits[a]) >= j && Demand(order, fits, before, j) >= |order| - j
  {
    hide Need;
    var j := FullFrom(taken, Need(order, fits[a]));
    forall i | 0 <= i < |before| && taken[i] >= j ensures Need(order, fits[before[i]]) >= j {
      if j > 0 { assert j - 1 !in taken; }
    }
    DemandBound(order, fits, before, taken, j);
    SuffixCount(taken, |order|, j);
  }

  // ----- launch order does not matter

  lemma {:induction false} DemandAppend(order: seq<Task>, fits: Fits, a: seq<Name>, b: seq<Name>, k: nat)
    requires forall i | 0 <= i < |a| :: a[i] in fits
    requires forall i | 0 <= i < |b| :: b[i] in fits
    ensures Demand(order, fits, a + b, k) == Demand(order, fits, a, k) + Demand(order, fits, b, k)
    decreases |b|
  {
    hide Need;
    if b == [] {
      assert a + b == a;
    } else {
      DemandAppend(order, fits, a, b[..|b| - 1], k);
      assert (a + b)[..|a + b| - 1] == a + b[..|b| - 1];
    }
  }

  lemma DemandOne(order: seq<Task>, fits: Fits, x: Name, k: nat)
    requires x in fits
    ensures Demand(order, fits, [x], k) == if Need(order, fits[x]) >= k then 1 else 0
  {
    hide Need;
    assert [x][..0] == [];
  }

  lemma WithoutOne(b: seq<Name>, i: nat)
    requires i < |b|
    ensures multiset(b) == multiset(b[..i] + b[i + 1..]) + multiset{b[i]}
  {
    assert b == b[..i] + [b[i]] + b[i + 1..];
  }

  lemma Cancel(a: multiset<Name>, b: multiset<Name>, x: Name)
    requires a + multiset{x} == b + multiset{x}
    ensures a == b
  {
    forall y ensures a[y] == b[y] { assert (a + multiset{x})[y] == (b + multiset{x})[y]; }
  }

  /** Demand depends on who launches, not on the order. */
  lemma {:induction false} DemandPermuted(order: seq<Task>, fits: Fits, a: seq<Name>, b: seq<Name>, k: nat)
    requires forall i | 0 <= i < |a| :: a[i] in fits
    requires forall i | 0 <= i < |b| :: b[i] in fits
    requires multiset(a) == multiset(b)
    ensures Demand(order, fits, a, k) == Demand(order, fits, b, k)
    decreases |a|
  {
    hide Need;
    if a == [] {
      assert b == [] by { assert |multiset(b)| == 0; }
    } else {
      var x, rest := a[|a| - 1], a[..|a| - 1];
      assert a == rest + [x];
      assert x in multiset(b);
      var i :| 0 <= i < |b| && b[i] == x;
      var others := b[..i] + b[i + 1..];
      WithoutOne(b, i);
      Cancel(multiset(others), multiset(rest), x);
      DemandPermuted(order, fits, rest, others, k);
      DemandWithout(order, fits, b, i, k);
      DemandOne(order, fits, x, k);
    }
  }

  lemma DemandWithout(order: seq<Task>, fits: Fits, b: seq<Name>, i: nat, k: nat)
    requires i < |b| && forall j | 0 <= j < |b| :: b[j] in fits
    ensures Demand(order, fits, b, k) == Demand(order, fits, b[..i] + b[i + 1..], k) + Demand(order, fits, [b[i]], k)
  {
    hide Demand;
    var x := b[i];
    DemandAppend(order, fits, b[..i], b[i + 1..], k);
    DemandAppend(order, fits, b[..i], [x] + b[i + 1..], k);
    DemandAppend(order, fits, [x], b[i + 1..], k);
    assert b == b[..i] + ([x] + b[i + 1..]);
  }

  /** Launch-order theorem: for upward-closed fits a run succeeds exactly under Hall's condition, so
      one launch order succeeds exactly when every other order of the same applications does. */
  lemma LaunchOrderTheorem(order: seq<Task>, fits: Fits, launches: seq<Name>, other: seq<Name>)
    requires (forall i | 0 <= i < |launches| :: launches[i] in fits)
    requires (forall i | 0 <= i < |other| :: other[i] in fits)
    requires AllUp(order, fits) && multiset(launches) == multiset(other)
    ensures Launch(order, fits, launches).Some? <==> Hall(order, fits, launches)
    ensures Launch(order, fits, launches).Some? <==> Launch(order, fits, other).Some?
  {
    hide AllUp, Launch, Need, Demand;
    if Hall(order, fits, launches) { HallSuffices(order, fits, launches); }
    if Launch(order, fits, launches).Some? { LaunchNeedsHall(order, fits, launches); }
    if Hall(order, fits, other) { HallSuffices(order, fits, other); }
    if Launch(order, fits, other).Some? { LaunchNeedsHall(order, fits, other); }
    forall k | 0 <= k <= |order| ensures Demand(order, fits, launches, k) == Demand(order, fits, other, k) {
      DemandPermuted(order, fits, launches, other, k);
    }
  }
}
