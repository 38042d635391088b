/** Launches and quits in any order: Hall's condition on the application set keeps every launch
    possible for ever, although quits leave applications in slots above the ones they need. */
module AdmissionRuns {
  import opened Bytes
  import opened Admission

  /** Running applications and their slot positions. */
  type State = map<Name, nat>

  datatype Event = Start(app: Name) | Quit(app: Name)

  ghost predicate Taken(s: State, p: nat) {
    exists a | a in s :: s[a] == p
  }

  /** First free position that fits. */
  ghost function Pick(order: seq<Task>, s: State, fit: seq<Task>, i: nat): (p: nat)
    requires i <= |order|
    ensures i <= p <= |order|
    ensures p < |order| ==> !Taken(s, p) && order[p] in fit
    ensures forall q | i <= q < p :: Taken(s, q) || order[q] !in fit
    decreases |order| - i
  {
    if i == |order| || (!Taken(s, i) && order[i] in fit) then i else Pick(order, s, fit, i + 1)
  }

  /** One event; None when a launch finds no slot. Starting a running application or quitting an
      idle one changes nothing. */
  ghost function Step(order: seq<Task>, fits: Fits, s: State, e: Event): Option<State>
    requires e.app in fits
  {
    match e
    case Start(a) =>
      if a in s then Some(s) else
      var p := Pick(order, s, fits[a], 0);
      if p == |order| then None else Some(s[a := p])
    case Quit(a) => Some(s - {a})
  }

  ghost function Run(order: seq<Task>, fits: Fits, events: seq<Event>): Option<State>
    requires forall i | 0 <= i < |events| :: events[i].app in fits
    decreases |events|
  {
    if events == [] then Some(map[]) else
    match Run(order, fits, events[..|events| - 1])
    case None => None
    case Some(s) => Step(order, fits, s, events[|events| - 1])
  }

  // ----- the invariant

  ghost function Needy(order: seq<Task>, fits: Fits, k: nat): set<Name> {
    set a | a in fits && Need(order, fits[a]) >= k
  }

  /** Applications sitting at or above k although they could have gone below. */
  ghost function Usurpers(order: seq<Task>, fits: Fits, s: State, k: nat): set<Name>
    requires s.Keys <= fits.Keys
  {
    set a | a in s && s[a] >= k && Need(order, fits[a]) < k
  }

  ghost predicate HallSet(order: seq<Task>, fits: Fits) {
    forall k | 0 <= k <= |order| :: |Needy(order, fits, k)| <= |order| - k
  }

  ghost predicate Seated(order: seq<Task>, fits: Fits, s: State) {
    && s.Keys <= fits.Keys
    && (forall a | a in s :: Need(order, fits[a]) <= s[a] < |order|)
    && (forall a, b | a in s && b in s && s[a] == s[b] :: a == b)
  }

  /** Usurpers of a suffix never eat into what its own applications may still demand. */
  ghost predicate Roomy(order: seq<Task>, fits: Fits, s: State, k: nat)
    requires s.Keys <= fits.Keys
  {
    |Usurpers(order, fits, s, k)| + |Needy(order, fits, k)| <= |order| - k
  }

  ghost predicate Safe(order: seq<Task>, fits: Fits, s: State) {
    Seated(order, fits, s) && forall k | 0 <= k <= |order| :: Roomy(order, fits, s, k)
  }

  // ----- counting occupants

  ghost function Between(s: State, lo: nat, hi: nat): set<Name> {
    set a | a in s && lo <= s[a] < hi
  }

  lemma {:induction false} FullRange(order: seq<Task>, fits: Fits, s: State, lo: nat, hi: nat)
    requires Seated(order, fits, s) && lo <= hi && forall p | lo <= p < hi :: Taken(s, p)
    ensures |Between(s, lo, hi)| == hi - lo
    decreases hi
  {
    hide Need;
    if lo == hi {
      assert Between(s, lo, hi) == {};
    } else {
      FullRange(order, fits, s, lo, hi - 1);
      assert Taken(s, hi - 1);
      var a :| a in s && s[a] == hi - 1;
      assert Between(s, lo, hi) == Between(s, lo, hi - 1) + {a};
    }
  }

  lemma SubsetSize(a: set<Name>, b: set<Name>)
    requires a <= b
    ensures |a| <= |b|
  {
    assert b == a + (b - a);
  }

  /** A launch never fails in a safe state. */
  lemma SlotExists(order: seq<Task>, fits: Fits, s: State, a: Name)
    requires Safe(order, fits, s) && a in fits && a !in s && UpClosed(order, fits[a])
    ensures Pick(order, s, fits[a], 0) < |order|
  {
    hide Need, UpClosed;
    var n, m := |order|, Need(order, fits[a]);
    assert Roomy(order, fits, s, m);
    forall q | m <= q < Pick(order, s, fits[a], 0) ensures Taken(s, q) { NeedMeans(order, fits[a], q); }
    var up, own := Usurpers(order, fits, s, m), Needy(order, fits, m);
    assert Between(s, m, n) + {a} <= up + own;
    SubsetSize(Between(s, m, n) + {a}, up + own);
    if Pick(order, s, fits[a], 0) == n { FullRange(order, fits, s, m, n); }
  }

  /** What a launch adds to the usurpers of k is paid for by the full slots below k. */
  lemma UsurperPaid(order: seq<Task>, fits: Fits, s: State, b: Name, p: nat, k: nat)
    requires Safe(order, fits, s) && b in fits && b !in s && p < |order|
    requires Need(order, fits[b]) < k <= p && forall q | Need(order, fits[b]) <= q < p :: Taken(s, q)
    ensures |Usurpers(order, fits, s, k)| + 1 + |Needy(order, fits, k)| <= |order| - k
  {
    var m := Need(order, fits[b]);
    var below, up, seats := Needy(order, fits, m), Usurpers(order, fits, s, k), Between(s, m, k);
    var own, prior := Needy(order, fits, k), Usurpers(order, fits, s, m);
    NeedyAndSeated(order, fits, s, b, p, k);
    assert Roomy(order, fits, s, m);
    FullRange(order, fits, s, m, k);
    hide Need, Seated, Needy, Taken, Between, Usurpers;
    SubsetSize(seats + up + {b}, prior + (below - own));
    assert |below - own| == |below| - |own| by { assert below == own + (below - own); }
  }

  /** Who sits in or above [m, k), and the newcomer, sat above their need or need a slot in [m, k). */
  lemma NeedyAndSeated(order: seq<Task>, fits: Fits, s: State, b: Name, p: nat, k: nat)
    requires Seated(order, fits, s) && b in fits && b !in s && Need(order, fits[b]) < k <= p < |order|
    ensures var m := Need(order, fits[b]);
      var below, up, seats := Needy(order, fits, m), Usurpers(order, fits, s, k), Between(s, m, k);
      var own, prior := Needy(order, fits, k), Usurpers(order, fits, s, m);
      seats !! up && b !in seats + up && seats + up + {b} <= prior + (below - own) && own <= below
  {
    hide Need, Taken;
  }

  lemma StartKeepsSafe(order: seq<Task>, fits: Fits, s: State, b: Name)
    requires Safe(order, fits, s) && b in fits && b !in s && UpClosed(order, fits[b])
    requires Pick(order, s, fits[b], 0) < |order|
    ensures Safe(order, fits, s[b := Pick(order, s, fits[b], 0)])
  {
    assert s.Keys <= fits.Keys;
    hide Need, UpClosed, Roomy, Seated, Taken;
    var p, m := Pick(order, s, fits[b], 0), Need(order, fits[b]);
    NeedMeans(order, fits[b], p);
    forall q | m <= q < p ensures Taken(s, q) { NeedMeans(order, fits[b], q); }
    StartSeats(order, fits, s, b, p);
    var s' := s[b := p];
    forall k | 0 <= k <= |order| ensures Roomy(order, fits, s', k) { StartLeavesRoom(order, fits, s, b, p, k); }
  }

  lemma StartSeats(order: seq<Task>, fits: Fits, s: State, b: Name, p: nat)
    requires Seated(order, fits, s) && b in fits && b !in s && Need(order, fits[b]) <= p < |order| && !Taken(s, p)
    ensures Seated(order, fits, s[b := p])
  {
    hide Need;
  }

  lemma StartLeavesRoom(order: seq<Task>, fits: Fits, s: State, b: Name, p: nat, k: nat)
    requires Safe(order, fits, s) && s.Keys <= fits.Keys && b in fits && b !in s && p < |order| && k <= |order|
    requires Need(order, fits[b]) <= p && forall q | Need(order, fits[b]) <= q < p :: Taken(s, q)
    ensures Roomy(order, fits, s[b := p], k)
  {
    hide Need, Seated, Needy, Taken;
    var s' := s[b := p];
    assert Roomy(order, fits, s, k);
    if Need(order, fits[b]) < k <= p {
      UsurperPaid(order, fits, s, b, p, k);
      assert Usurpers(order, fits, s', k) == Usurpers(order, fits, s, k) + {b};
    } else {
      assert Usurpers(order, fits, s', k) == Usurpers(order, fits, s, k);
    }
  }

  lemma QuitKeepsSafe(order: seq<Task>, fits: Fits, s: State, a: Name)
    requires Safe(order, fits, s)
    ensures Safe(order, fits, s - {a})
  {
    hide Need;
    forall k | 0 <= k <= |order| ensures Roomy(order, fits, s - {a}, k) {
      assert Roomy(order, fits, s, k);
      SubsetSize(Usurpers(order, fits, s - {a}, k), Usurpers(order, fits, s, k));
    }
  }

  /** Under Hall's condition no run of launches and quits, however long, ever fails a launch. */
  lemma {:induction false} NoRunFails(order: seq<Task>, fits: Fits, events: seq<Event>)
    requires AllUp(order, fits) && HallSet(order, fits)
    requires forall i | 0 <= i < |events| :: events[i].app in fits
    ensures Run(order, fits, events).Some? && Safe(order, fits, Run(order, fits, events).value)
    decreases |events|
  {
    hide Safe, UpClosed, Need;
    if events == [] {
      StartSafe(order, fits);
    } else {
      NoRunFails(order, fits, events[..|events| - 1]);
      var s := Run(order, fits, events[..|events| - 1]).value;
      match events[|events| - 1]
      case Start(a) =>
        if a !in s {
          SlotExists(order, fits, s, a);
          StartKeepsSafe(order, fits, s, a);
        }
      case Quit(a) => QuitKeepsSafe(order, fits, s, a);
    }
  }

  lemma StartSafe(order: seq<Task>, fits: Fits)
    requires HallSet(order, fits)
    ensures Safe(order, fits, map[])
  {
    hide Need;
    forall k | 0 <= k <= |order| ensures Roomy(order, fits, map[], k) {
      assert |Needy(order, fits, k)| <= |order| - k;
      assert Usurpers(order, fits, map[], k) == {};
    }
  }

  // ----- the condition on the set is the condition on any launch order

  ghost predicate Enumerates(launches: seq<Name>, fits: Fits) {
    && (forall i | 0 <= i < |launches| :: launches[i] in fits)
    && (forall a | a in fits :: a in launches)
    && (forall i, j | 0 <= i < j < |launches| :: launches[i] != launches[j])
  }

  ghost function NeedyAmong(order: seq<Task>, fits: Fits, apps: seq<Name>, k: nat): set<Name>
    requires forall i | 0 <= i < |apps| :: apps[i] in fits
  {
    set i | 0 <= i < |apps| && Need(order, fits[apps[i]]) >= k :: apps[i]
  }

  lemma {:induction false} DemandIsSize(order: seq<Task>, fits: Fits, apps: seq<Name>, k: nat)
    requires forall i | 0 <= i < |apps| :: apps[i] in fits
    requires forall i, j | 0 <= i < j < |apps| :: apps[i] != apps[j]
    ensures Demand(order, fits, apps, k) == |NeedyAmong(order, fits, apps, k)|
  {
    hide Need;
    if apps == [] {
      assert NeedyAmong(order, fits, apps, k) == {};
    } else {
      var n := |apps| - 1;
      var before, x := apps[..n], apps[n];
      DemandIsSize(order, fits, before, k);
      var extra := if Need(order, fits[x]) >= k then {x} else {};
      NeedyOneMore(order, fits, apps, k);
      assert NeedyAmong(order, fits, apps, k) == NeedyAmong(order, fits, before, k) + extra;
      assert x !in NeedyAmong(order, fits, before, k);
    }
  }

  lemma NeedyOneMore(order: seq<Task>, fits: Fits, apps: seq<Name>, k: nat)
    requires apps != [] && forall i | 0 <= i < |apps| :: apps[i] in fits
    ensures var before, x := apps[..|apps| - 1], apps[|apps| - 1];
      NeedyAmong(order, fits, apps, k) ==
      NeedyAmong(order, fits, before, k) + if Need(order, fits[x]) >= k then {x} else {}
  {
    hide Need;
    var before, x := apps[..|apps| - 1], apps[|apps| - 1];
    forall a | a in NeedyAmong(order, fits, before, k) ensures a in NeedyAmong(order, fits, apps, k) {
      var i :| 0 <= i < |before| && Need(order, fits[before[i]]) >= k && before[i] == a;
      assert apps[i] == a;
    }
    forall a | a in NeedyAmong(order, fits, apps, k) && a != x ensures a in NeedyAmong(order, fits, before, k) {
      var i :| 0 <= i < |apps| && Need(order, fits[apps[i]]) >= k && apps[i] == a;
      assert before[i] == a;
    }
    if Need(order, fits[x]) >= k { assert apps[|apps| - 1] == x; }
  }

  lemma HallBoth(order: seq<Task>, fits: Fits, launches: seq<Name>)
    requires Enumerates(launches, fits)
    ensures Hall(order, fits, launches) <==> HallSet(order, fits)
  {
    hide Need;
    forall k | 0 <= k <= |order| ensures Demand(order, fits, launches, k) == |Needy(order, fits, k)| {
      DemandIsSize(order, fits, launches, k);
      assert NeedyAmong(order, fits, launches, k) == Needy(order, fits, k);
    }
  }

  /** The whole story: one launch order of the application set succeeds if and only if Hall's
      condition holds, and then every run of launches and quits succeeds too. */
  lemma CoexistenceTheorem(order: seq<Task>, fits: Fits, launches: seq<Name>, events: seq<Event>)
    requires AllUp(order, fits) && Enumerates(launches, fits)
    requires forall i | 0 <= i < |events| :: events[i].app in fits
    ensures Launch(order, fits, launches).Some? <==> HallSet(order, fits)
    ensures Launch(order, fits, launches).Some? ==> Run(order, fits, events).Some?
  {
    hide Launch, Run, AllUp, Hall, HallSet;
    HallBoth(order, fits, launches);
    LaunchOrderTheorem(order, fits, launches, launches);
    if HallSet(order, fits) { NoRunFails(order, fits, events); }
  }
}
