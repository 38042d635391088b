/** The admission checks as they run: `fitting_allocations` and `check_coexistence`. */
module Coexistence {
  import opened Bytes
  import opened Udex
  import opened O65
  import opened Relocator
  import opened RelocTools
  import opened Admission
  import opened AdmissionRuns

  // ----- which allocations fit a file

  /** The installed file must also leave the allocation's stack page alone. */
  predicate FitsAllocation(file: seq<byte>, row: Allocation) {
    match Relocate(file, row.base, row.limit as int - row.base)
    case Err(_) => false
    case Ok(installed) => |installed| >= 16 && Word(installed, 10) + Word(installed, 12) <= row.stack as int - row.base
  }

  function FittingRows(file: seq<byte>, rows: seq<Allocation>): seq<Task> {
    if rows == [] then [] else
      FittingRows(file, rows[..|rows| - 1]) + if FitsAllocation(file, rows[|rows| - 1]) then [rows[|rows| - 1].task]
        else []
  }

  /** The table to search: task 3 may borrow task 4's adjacent memory. */
  function Rows(joined: bool): seq<Allocation> {
    if joined then [JOINED_ALLOCATION] + ALLOCATIONS[2..] else ALLOCATIONS
  }

  method FittingAllocations(file: seq<byte>, joined: bool) returns (candidates: seq<Task>)
    ensures candidates == FittingRows(file, Rows(joined))
  {
    hide Relocate;
    var rows := Rows(joined);
    candidates := [];
    for i := 0 to |rows|
      invariant candidates == FittingRows(file, rows[..i])
    {
      var row := rows[i];
      assert rows[..i + 1][..i] == rows[..i];
      var installed := RelocateExecutable(file, row.base, row.limit - row.base);
      if installed.Ok? && |installed.value| >= 16 {
        var size := Word(installed.value, 10) + Word(installed.value, 12);
        if size <= row.stack - row.base { candidates := candidates + [row.task]; }
      }
    }
    assert rows[..|rows|] == rows;
  }

  /** What the relocator asks of the file alone, whatever the destination. */
  ghost predicate WellFormed(file: seq<byte>) {
    && |file| >= 19 && file[..8] == MAGIC + [0, 2, 1, 0]
    && Word(file, 8) == CANONICAL_BASE && Word(file, 10) > 0
    && CANONICAL_BASE <= Word(file, 14) < CANONICAL_BASE + Word(file, 10)
    && CANONICAL_BASE + Word(file, 10) + Word(file, 12) <= 0x10000
    && 16 + Word(file, 10) + 2 <= |file| == 16 + Word(file, 10) + 2 + 2 * Word(file, 16 + Word(file, 10))
    && AllBelow(PatchList(file), Word(file, 10)) && Increasing(PatchList(file))
  }

  /** The relocator accepts a file exactly when it is well formed and the destination is admissible. */
  lemma RelocateExactly(file: seq<byte>, base: int, capacity: int)
    ensures Relocate(file, base, capacity).Ok? <==>
            WellFormed(file) && Admissible(|file|, Word(file, 10), Word(file, 12), base, capacity)
    ensures Relocate(file, base, capacity).Ok? ==>
      var out := Relocate(file, base, capacity).value;
      |out| >= 16 && Word(out, 10) == Word(file, 10) && Word(out, 12) == Word(file, 12)
  {
    hide PatchAll, PatchList, Increasing, Udex.Header, Word, AllBelow;
    RelocatedSizes(file, base, capacity);
  }

  lemma RelocatedSizes(file: seq<byte>, base: int, capacity: int)
    ensures Relocate(file, base, capacity).Ok? ==>
      var out := Relocate(file, base, capacity).value;
      |file| >= 19 && |out| >= 16 && Word(out, 10) == Word(file, 10) && Word(out, 12) == Word(file, 12)
  {
    hide PatchAll, PatchList, Increasing, Udex.Header, AllBelow;
    if Relocate(file, base, capacity).Ok? {
      var size, bss := Word(file, 10), Word(file, 12);
      var image := PatchAll(file[16..16 + size], PatchList(file), (base - CANONICAL_BASE) / 256);
      var h := Header(1, 1, 0, base, size, bss, base + Word(file, 14) - CANONICAL_BASE);
      SameWord(h, image, 10);
      SameWord(h, image, 12);
    }
  }

  lemma SameWord(h: seq<byte>, rest: seq<byte>, i: nat)
    requires i + 2 <= |h|
    ensures Word(h + rest, i) == Word(h, i)
  {
  }

  /** For a well-formed file only sizes decide: the file must fit the allocation, image and BSS
      must end below its stack page. */
  lemma FitsBySize(file: seq<byte>, row: Allocation)
    requires row in ALLOCATIONS || row == JOINED_ALLOCATION
    ensures FitsAllocation(file, row) <==>
      WellFormed(file) && |file| <= row.limit - row.base && Word(file, 10) + Word(file, 12) <= row.stack - row.base
  {
    hide Relocate, WellFormed, Word;
    RelocateExactly(file, row.base, row.limit - row.base);
    assert WellFormed(file) ==> |file| >= 19 by { FormedLength(file); }
  }

  lemma FormedLength(file: seq<byte>)
    ensures WellFormed(file) ==> |file| >= 19
  {
  }

  lemma FittingTasks(file: seq<byte>)
    ensures var fit := FittingRows(file, ALLOCATIONS);
      && (3 in fit <==> FitsAllocation(file, ALLOCATIONS[0])) && (4 in fit <==> FitsAllocation(file, ALLOCATIONS[1]))
      && (5 in fit <==> FitsAllocation(file, ALLOCATIONS[2])) && (6 in fit <==> FitsAllocation(file, ALLOCATIONS[3]))
  {
    hide FitsAllocation;
    var rows := ALLOCATIONS;
    assert rows[..3][..2] == rows[..2] && rows[..2][..1] == rows[..1] && rows[..1][..0] == [];
    assert FittingRows(file, rows[..1]) == FittingRows(file, []) + if FitsAllocation(file, rows[0]) then [3] else [];
    assert FittingRows(file, rows[..2]) == FittingRows(file, rows[..1]) + if FitsAllocation(file, rows[1]) then [4]
      else [];
    assert FittingRows(file, rows[..3]) == FittingRows(file, rows[..2]) + if FitsAllocation(file, rows[2]) then [5]
      else [];
    assert FittingRows(file, rows) == FittingRows(file, rows[..3]) + if FitsAllocation(file, rows[3]) then [6] else [];
  }

  /** The tasks a file fits, in plain sizes: the file against the allocation's bytes, image and BSS
      against what lies below its stack page. */
  lemma FitsExactly(file: seq<byte>, joined: bool)
    ensures var fit := FittingRows(file, Rows(joined));
      if !WellFormed(file) then 3 !in fit && 4 !in fit && 5 !in fit && 6 !in fit
      else
        var used := Word(file, 10) + Word(file, 12);
        && (3 in fit <==> if joined then |file| <= 0x1D00 && used <= 0x1C00 else |file| <= 0x1200 && used <= 0x1100)
        && (4 in fit <==> !joined && |file| <= 0xB00 && used <= 0xA00)
        && (5 in fit <==> |file| <= 0x1000 && used <= 0xF00)
        && (6 in fit <==> |file| <= 0xA00 && used <= 0x900)
  {
    hide FitsAllocation, WellFormed, FittingRows, Word;
    FormedLength(file);
    FittingTasks(file);
    JoinedTasks(file);
    FitsBySize(file, JOINED_ALLOCATION);
    FitsBySize(file, ALLOCATIONS[0]);
    FitsBySize(file, ALLOCATIONS[1]);
    FitsBySize(file, ALLOCATIONS[2]);
    FitsBySize(file, ALLOCATIONS[3]);
  }

  /** The file lists offset p in its patch table. */
  ghost predicate Lists(file: seq<byte>, size: nat, p: nat) {
    exists k: nat | 18 + size + 2 * k < |file| :: WordIs(file, 18 + size + 2 * k, p)
  }

  /** What installing does to any file the relocator accepts, packed by this tool or not: a plain
      executable's header for the new base, and every listed byte moved by the distance in pages. */
  lemma RelocatedBytes(file: seq<byte>, base: int, capacity: int)
    requires Relocate(file, base, capacity).Ok?
    ensures |file| >= 16 && var out, size := Relocate(file, base, capacity).value, Word(file, 10);
      && |out| == 16 + size <= |file| && out[..8] == [0x55, 0x44, 0x45, 0x58, 0, 1, 1, 0]
      && WordIs(out, 8, base) && WordIs(out, 10, size) && WordIs(out, 12, Word(file, 12))
      && WordIs(out, 14, base + Word(file, 14) - 0x1000)
      && forall p | 0 <= p < size ::
           out[16 + p] == if Lists(file, size, p) then (file[16 + p] + (base - 0x1000) / 256) % 256 else file[16 + p]
  {
    hide PatchAll, Increasing, Udex.Header, AllBelow, PatchList, Word;
    var size, delta, ps := Word(file, 10), (base - 0x1000) / 256, PatchList(file);
    var image := PatchAll(file[16..16 + size], ps, delta);
    IncreasingDiffer(ps);
    forall p: nat | p < size
      ensures image[p] == if Lists(file, size, p) then (file[16 + p] + delta) % 256 else file[16 + p]
    {
      PatchedBytes(file[16..16 + size], ps, delta, p);
      ListedOffsets(file, p);
    }
    HeaderWords(image, base, base + Word(file, 14) - 0x1000, Word(file, 12));
  }

  lemma ListedOffsets(file: seq<byte>, p: nat)
    requires |file| >= 16 && ImageEnd(file) + 2 <= |file| && (|file| - ImageEnd(file)) % 2 == 0
    ensures p in PatchList(file) <==> Lists(file, Word(file, 10), p)
  {
    var at, ps := ImageEnd(file) + 2, PatchList(file);
    assert forall k | 0 <= k < |ps| :: ps[k] == Word(file[at..], 2 * k) == Word(file, at + 2 * k);
    if p in ps {
      var k :| 0 <= k < |ps| && ps[k] == p;
      assert WordIs(file, 18 + Word(file, 10) + 2 * k, p);
    }
    if Lists(file, Word(file, 10), p) {
      var k: nat :| 18 + Word(file, 10) + 2 * k < |file| && WordIs(file, 18 + Word(file, 10) + 2 * k, p);
      assert ps[k] == p;
    }
  }

  lemma HeaderWords(image: seq<byte>, base: nat, entry: nat, bss: nat)
    requires base < 0x10000 && |image| < 0x10000 && bss < 0x10000 && entry < 0x10000
    ensures var out := Header(1, 1, 0, base, |image|, bss, entry) + image;
      && out[..8] == [0x55, 0x44, 0x45, 0x58, 0, 1, 1, 0] && out[16..] == image
      && WordIs(out, 8, base) && WordIs(out, 10, |image|) && WordIs(out, 12, bss) && WordIs(out, 14, entry)
  {
    var h := Header(1, 1, 0, base, |image|, bss, entry);
    hide Udex.Header;
    assert (h + image)[..8] == h[..4] + h[4..8];
  }

  /** Every file's fitting allocations are upward-closed in the admission order. */
  lemma FittingUpClosed(file: seq<byte>)
    ensures UpClosed(ADMISSION_ORDER, FittingRows(file, ALLOCATIONS))
  {
    hide FitsAllocation, WellFormed, FittingRows;
    FittingTasks(file);
    FitsBySize(file, ALLOCATIONS[0]);
    FitsBySize(file, ALLOCATIONS[1]);
    FitsBySize(file, ALLOCATIONS[2]);
    FitsBySize(file, ALLOCATIONS[3]);
  }

  lemma JoinedTasks(file: seq<byte>)
    ensures var fit := FittingRows(file, Rows(true));
      && (3 in fit <==> FitsAllocation(file, JOINED_ALLOCATION)) && 4 !in fit
      && (5 in fit <==> FitsAllocation(file, ALLOCATIONS[2])) && (6 in fit <==> FitsAllocation(file, ALLOCATIONS[3]))
  {
    hide FitsAllocation;
    var rows := Rows(true);
    assert rows == [JOINED_ALLOCATION, ALLOCATIONS[2], ALLOCATIONS[3]];
    assert rows[..2][..1] == rows[..1] && rows[..1][..0] == [];
    assert FittingRows(file, rows[..1]) == FittingRows(file, []) + if FitsAllocation(file, rows[0]) then [3] else [];
    assert FittingRows(file, rows[..2]) == FittingRows(file, rows[..1]) + if FitsAllocation(file, rows[1]) then [5]
      else [];
    assert FittingRows(file, rows) == FittingRows(file, rows[..2]) + if FitsAllocation(file, rows[2]) then [6] else [];
  }

  /** With task 4's memory joined to task 3's, the fits are upward-closed in what is left of the
      admission order, tasks 5 and 6 are as before, and whatever fitted task 3 or 4 fits task 3. */
  lemma JoinedUpClosed(file: seq<byte>)
    ensures var plain, joined := FittingRows(file, Rows(false)), FittingRows(file, Rows(true));
      && UpClosed([6, 5, 3], joined) && 4 !in joined
      && (5 in joined <==> 5 in plain) && (6 in joined <==> 6 in plain)
      && (3 in plain || 4 in plain ==> 3 in joined)
  {
    hide FitsAllocation, WellFormed, FittingRows;
    FittingTasks(file);
    JoinedTasks(file);
    FitsBySize(file, JOINED_ALLOCATION);
    FitsBySize(file, ALLOCATIONS[0]);
    FitsBySize(file, ALLOCATIONS[1]);
    FitsBySize(file, ALLOCATIONS[2]);
    FitsBySize(file, ALLOCATIONS[3]);
  }

  // ----- all permutations

  function Without<T>(s: seq<T>, i: nat): (r: seq<T>)
    requires i < |s|
    ensures |r| == |s| - 1 && multiset(s) == multiset(r) + multiset{s[i]}
  {
    assert s == s[..i] + [s[i]] + s[i + 1..];
    s[..i] + s[i + 1..]
  }

  function Prepend<T>(x: T, lists: seq<seq<T>>): (r: seq<seq<T>>)
    ensures |r| == |lists| && forall j | 0 <= j < |r| :: r[j] == [x] + lists[j]
  {
    seq(|lists|, j requires 0 <= j < |lists| => [x] + lists[j])
  }

  /** All orders of s, first elements in order, as `itertools.permutations` yields them. */
  function Permutations<T>(s: seq<T>): (r: seq<seq<T>>)
    ensures |s| == 0 ==> r == [[]]
    decreases |s|, |s| + 1
  {
    if s == [] then [[]] else StartingBelow(s, |s|)
  }

  /** The orders that start with one of the first n elements. */
  function StartingBelow<T>(s: seq<T>, n: nat): seq<seq<T>>
    requires n <= |s|
    decreases |s|, n
  {
    if n == 0 then [] else StartingBelow(s, n - 1) + Prepend(s[n - 1], Permutations(Without(s, n - 1)))
  }

  function Factorial(n: nat): nat {
    if n == 0 then 1 else n * Factorial(n - 1)
  }

  ghost predicate OrdersOf<T>(lists: seq<seq<T>>, s: seq<T>) {
    forall j | 0 <= j < |lists| :: multiset(lists[j]) == multiset(s)
  }

  /** There are |s|! of them, and each is an order of the elements of s. */
  lemma {:induction false} PermutationFacts<T>(s: seq<T>)
    ensures |Permutations(s)| == Factorial(|s|) && OrdersOf(Permutations(s), s)
    decreases |s|, |s| + 1
  {
    if s != [] { StartingFacts(s, |s|); }
  }

  lemma PrependOrders<T>(s: seq<T>, i: nat, tails: seq<seq<T>>)
    requires i < |s| && OrdersOf(tails, Without(s, i))
    ensures OrdersOf(Prepend(s[i], tails), s)
  {
    hide Without;
    forall j | 0 <= j < |tails| ensures multiset(Prepend(s[i], tails)[j]) == multiset(s) {
      assert multiset([s[i]] + tails[j]) == multiset{s[i]} + multiset(tails[j]);
    }
  }

  lemma {:induction false} StartingFacts<T>(s: seq<T>, n: nat)
    requires s != [] && n <= |s|
    ensures |StartingBelow(s, n)| == n * Factorial(|s| - 1) && OrdersOf(StartingBelow(s, n), s)
    decreases |s|, n
  {
    hide Permutations, Factorial, Without;
    if n > 0 {
      StartingFacts(s, n - 1);
      PermutationFacts(Without(s, n - 1));
      PrependOrders(s, n - 1, Permutations(Without(s, n - 1)));
      var f := Factorial(|s| - 1);
      assert n * f == (n - 1) * f + f;
    }
  }

  /** Every order of the elements is among them. */
  lemma {:induction false} PermutationsComplete<T>(s: seq<T>, t: seq<T>)
    requires multiset(s) == multiset(t)
    ensures t in Permutations(s)
    decreases |s|
  {
    if s == [] {
      assert |multiset(t)| == 0;
      assert t == [];
    } else {
      assert |multiset(t)| == |t| == |s|;
      var x, rest := t[0], t[1..];
      assert t == [x] + rest && x in multiset(s);
      var i :| 0 <= i < |s| && s[i] == x;
      var left := Without(s, i);
      assert multiset(left) == multiset(rest) by { CancelOne(multiset(left), multiset(rest), x); }
      PermutationsComplete(left, rest);
      var j :| 0 <= j < |Permutations(left)| && Permutations(left)[j] == rest;
      assert Prepend(x, Permutations(left))[j] == t;
      StartingHas(s, i, |s|, t);
    }
  }

  lemma CancelOne<T>(a: multiset<T>, b: multiset<T>, x: T)
    requires a + multiset{x} == b + multiset{x}
    ensures a == b
  {
    forall y ensures a[y] == b[y] { assert (a + multiset{x})[y] == (b + multiset{x})[y]; }
  }

  lemma {:induction false} StartingHas<T>(s: seq<T>, i: nat, n: nat, t: seq<T>)
    requires i < n <= |s| && t in Prepend(s[i], Permutations(Without(s, i)))
    ensures t in StartingBelow(s, n)
    decreases n
  {
    if i < n - 1 { StartingHas(s, i, n - 1, t); }
  }

  // ----- the coexistence check

  datatype Verdict = Checked(count: nat) | Crowds(order: seq<Name>)

  /** The first launch order in the list that fails, or how many were checked. */
  function CheckOrders(order: seq<Task>, fits: Fits, launchOrders: seq<seq<Name>>): Verdict
    requires forall l, i | 0 <= l < |launchOrders| && 0 <= i < |launchOrders[l]| :: launchOrders[l][i] in fits
  {
    if launchOrders == [] then Checked(0) else
    var last := |launchOrders| - 1;
    match CheckOrders(order, fits, launchOrders[..last])
    case Crowds(bad) => Crowds(bad)
    case Checked(n) => if Launch(order, fits, launchOrders[last]).None? then Crowds(launchOrders[last])
      else Checked(n + 1)
  }

  /** The first slot of the order that is free and fits. */
  method ChooseSlot(order: seq<Task>, ghost taken: seq<nat>, occupied: set<Task>, fit: seq<Task>) returns (p: nat)
    requires forall q | 0 <= q < |order| :: q in taken <==> order[q] in occupied
    ensures p == FirstFree(order, taken, fit, 0)
  {
    p := 0;
    while p < |order| && !(order[p] !in occupied && order[p] in fit)
      invariant p <= |order| && FirstFree(order, taken, fit, 0) == FirstFree(order, taken, fit, p)
    {
      p := p + 1;
    }
  }

  /** One order, with the loop's own set of occupied tasks. */
  method LaunchAll(order: seq<Task>, fits: Fits, launches: seq<Name>) returns (ok: bool)
    requires Unique(order) && forall i | 0 <= i < |launches| :: launches[i] in fits
    ensures ok <==> Launch(order, fits, launches).Some?
  {
    var occupied: set<Task> := {};
    ghost var taken: seq<nat> := [];
    for i := 0 to |launches|
      invariant Launch(order, fits, launches[..i]) == Some(taken)
      invariant forall j | 0 <= j < |taken| :: taken[j] < |order|
      invariant forall p | 0 <= p < |order| :: p in taken <==> order[p] in occupied
    {
      assert launches[..i + 1][..i] == launches[..i];
      var p := ChooseSlot(order, taken, occupied, fits[launches[i]]);
      if p == |order| {
        LaunchStopped(order, fits, launches, i + 1);
        return false;
      }
      occupied := occupied + {order[p]};
      taken := taken + [p];
    }
    assert launches[..|launches|] == launches;
    return true;
  }

  lemma {:induction false} LaunchStopped(order: seq<Task>, fits: Fits, launches: seq<Name>, i: nat)
    requires i <= |launches| && forall j | 0 <= j < |launches| :: launches[j] in fits
    requires Launch(order, fits, launches[..i]).None?
    ensures Launch(order, fits, launches).None?
    decreases |launches| - i
  {
    if i == |launches| {
      assert launches[..i] == launches;
    } else {
      assert launches[..i + 1][..i] == launches[..i];
      LaunchStopped(order, fits, launches, i + 1);
    }
  }

  lemma {:induction false} CheckStopped(order: seq<Task>, fits: Fits, orders: seq<seq<Name>>, i: nat)
    requires forall l, j | 0 <= l < |orders| && 0 <= j < |orders[l]| :: orders[l][j] in fits
    requires i <= |orders| && CheckOrders(order, fits, orders[..i]).Crowds?
    ensures CheckOrders(order, fits, orders) == CheckOrders(order, fits, orders[..i])
    decreases |orders| - i
  {
    if i == |orders| {
      assert orders[..i] == orders;
    } else {
      assert orders[..i + 1][..i] == orders[..i];
      CheckStopped(order, fits, orders, i + 1);
    }
  }

  lemma OrdersInFits(fits: Fits, names: seq<Name>)
    requires forall i | 0 <= i < |names| :: names[i] in fits
    ensures forall l, i | 0 <= l < |Permutations(names)| && 0 <= i < |Permutations(names)[l]| ::
      Permutations(names)[l][i] in fits
  {
    PermutationFacts(names);
    forall l, i | 0 <= l < |Permutations(names)| && 0 <= i < |Permutations(names)[l]|
      ensures Permutations(names)[l][i] in fits
    {
      assert Permutations(names)[l][i] in multiset(Permutations(names)[l]);
      assert Permutations(names)[l][i] in names;
    }
  }

  ghost function CheckResult(order: seq<Task>, fits: Fits, names: seq<Name>): Verdict
    requires forall i | 0 <= i < |names| :: names[i] in fits
  {
    OrdersInFits(fits, names);
    CheckOrders(order, fits, Permutations(names))
  }

  /** `check_coexistence`; `names` lists the dictionary's keys. */
  method CheckCoexistence(order: seq<Task>, fits: Fits, names: seq<Name>) returns (v: Verdict)
    requires Unique(order) && Enumerates(names, fits)
    ensures v == CheckResult(order, fits, names)
  {
    hide Launch, Permutations;
    OrdersInFits(fits, names);
    var orders := Permutations(names);
    var checked := 0;
    for l := 0 to |orders|
      invariant CheckOrders(order, fits, orders[..l]) == Checked(checked)
    {
      assert orders[..l + 1][..l] == orders[..l];
      var ok := LaunchAll(order, fits, orders[l]);
      if !ok {
        CheckStopped(order, fits, orders, l + 1);
        return Crowds(orders[l]);
      }
      checked := checked + 1;
    }
    assert orders[..|orders|] == orders;
    return Checked(checked);
  }

  lemma {:induction false} CheckMeans(order: seq<Task>, fits: Fits, orders: seq<seq<Name>>)
    requires forall l, j | 0 <= l < |orders| && 0 <= j < |orders[l]| :: orders[l][j] in fits
    ensures match CheckOrders(order, fits, orders)
      case Checked(n) => n == |orders| && forall l | 0 <= l < |orders| :: Launch(order, fits, orders[l]).Some?
      case Crowds(bad) => exists l | 0 <= l < |orders| :: orders[l] == bad && Launch(order, fits, bad).None?
    decreases |orders|
  {
    hide Launch;
    if orders != [] {
      CheckMeans(order, fits, orders[..|orders| - 1]);
      forall l | 0 <= l < |orders| - 1 ensures orders[..|orders| - 1][l] == orders[l] {}
    }
  }

  /** The check passes, after all n! orders, exactly when the application set satisfies Hall's
      condition; and then no run of launches and quits of these applications can fail. */
  lemma CheckTheorem(order: seq<Task>, fits: Fits, names: seq<Name>, events: seq<Event>)
    requires AllUp(order, fits) && Enumerates(names, fits)
    requires forall i | 0 <= i < |events| :: events[i].app in fits
    ensures CheckResult(order, fits, names) == Checked(Factorial(|names|)) <==> HallSet(order, fits)
    ensures CheckResult(order, fits, names).Checked? ==> AdmissionRuns.Run(order, fits, events).Some?
  {
    hide Launch, Permutations, AllUp, HallSet, AdmissionRuns.Run;
    OrdersInFits(fits, names);
    var orders := Permutations(names);
    PermutationFacts(names);
    CheckMeans(order, fits, orders);
    PermutationsComplete(names, names);
    CoexistenceTheorem(order, fits, names, events);
    forall l | 0 <= l < |orders| ensures Launch(order, fits, orders[l]).Some? <==> Launch(order, fits, names).Some? {
      LaunchOrderTheorem(order, fits, names, orders[l]);
    }
  }

  ghost function FitsOf(files: map<Name, seq<byte>>): Fits {
    map a | a in files :: FittingRows(files[a], ALLOCATIONS)
  }

  /** The check on actual executables: it passes exactly under Hall's condition on their fitting
      allocations, whatever the files contain. */
  lemma NativeSetTheorem(files: map<Name, seq<byte>>, names: seq<Name>, events: seq<Event>)
    requires Enumerates(names, FitsOf(files))
    requires forall i | 0 <= i < |events| :: events[i].app in files
    ensures CheckResult(ADMISSION_ORDER, FitsOf(files), names) == Checked(Factorial(|names|)) <==>
      HallSet(ADMISSION_ORDER, FitsOf(files))
    ensures CheckResult(ADMISSION_ORDER, FitsOf(files), names).Checked? ==>
      AdmissionRuns.Run(ADMISSION_ORDER, FitsOf(files), events).Some?
  {
    hide CheckResult, HallSet, AdmissionRuns.Run, FittingRows, Factorial;
    forall a | a in files ensures UpClosed(ADMISSION_ORDER, FitsOf(files)[a]) { FittingUpClosed(files[a]); }
    CheckTheorem(ADMISSION_ORDER, FitsOf(files), names, events);
  }
}
