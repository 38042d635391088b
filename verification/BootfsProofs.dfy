/** Every name finds its own payload, and payloads are shared exactly when they are equal. */
module BootfsProofs {
  import opened Bytes
  import opened Sorting
  import opened Bootfs

  // ----- the name order

  lemma {:induction false} LexTotal(a: seq<byte>, b: seq<byte>)
    ensures Lex(a, b) || Lex(b, a)
    decreases |a|
  {
    if a != [] && b != [] && a[0] == b[0] { LexTotal(a[1..], b[1..]); }
  }

  lemma {:induction false} LexTransitive(a: seq<byte>, b: seq<byte>, c: seq<byte>)
    requires Lex(a, b) && Lex(b, c)
    ensures Lex(a, c)
    decreases |a|
  {
    if a != [] && b != [] && c != [] && a[0] == b[0] == c[0] { LexTransitive(a[1..], b[1..], c[1..]); }
  }

  lemma {:induction false} LexAntisymmetric(a: seq<byte>, b: seq<byte>)
    requires Lex(a, b) && Lex(b, a)
    ensures a == b
    decreases |a|
  {
    if a != [] {
      LexAntisymmetric(a[1..], b[1..]);
      assert a == [a[0]] + a[1..] && b == [b[0]] + b[1..];
    }
  }

  lemma NameOrder()
    ensures TotalOrder(ByName)
  {
    hide Lex;
    forall a: File, b: File ensures ByName(a, b) || ByName(b, a) { LexTotal(a.name, b.name); }
    forall a: File, b: File, c: File | ByName(a, b) && ByName(b, c)
      ensures ByName(a, c)
    {
      LexTransitive(a.name, b.name, c.name);
    }
  }

  // ----- distinct names survive sorting

  ghost predicate Unused(name: seq<byte>, s: seq<File>) { forall i | 0 <= i < |s| :: s[i].name != name }

  ghost predicate Distinct(s: seq<File>) { forall i, j | 0 <= i < j < |s| :: s[i].name != s[j].name }

  lemma DistinctFront(x: File, s: seq<File>)
    ensures Distinct([x] + s) <==> Distinct(s) && Unused(x.name, s)
  {
    var t := [x] + s;
    assert t[1..] == s && forall i | 0 <= i < |s| :: t[i + 1] == s[i];
    if Distinct(s) && Unused(x.name, s) {
      forall i, j | 0 <= i < j < |t| ensures t[i].name != t[j].name {
        assert t[j] == s[j - 1];
        if i > 0 { assert t[i] == s[i - 1]; }
      }
    }
    if Distinct(t) {
      forall i, j | 0 <= i < j < |s| ensures s[i].name != s[j].name { assert t[i + 1].name != t[j + 1].name; }
      forall i | 0 <= i < |s| ensures s[i].name != x.name { assert t[0].name != t[i + 1].name; }
    }
  }

  lemma UnusedMembers(name: seq<byte>, s: seq<File>)
    ensures Unused(name, s) <==> forall f | f in s :: f.name != name
  {
    if Unused(name, s) {
      forall f | f in s ensures f.name != name {
        var i :| 0 <= i < |s| && s[i] == f;
      }
    } else {
      var i :| 0 <= i < |s| && s[i].name == name;
      assert s[i] in s;
    }
  }

  lemma SameMembers(name: seq<byte>, a: seq<File>, b: seq<File>)
    requires forall f :: f in a <==> f in b
    ensures Unused(name, a) <==> Unused(name, b)
  {
    hide Unused;
    UnusedMembers(name, a);
    UnusedMembers(name, b);
  }

  lemma InsertMembers(x: File, s: seq<File>)
    ensures forall f :: f in Insert(x, s, ByName) <==> f in [x] + s
  {
    hide Insert;
    forall f ensures f in Insert(x, s, ByName) <==> f in [x] + s {
      assert f in multiset(Insert(x, s, ByName)) <==> f in multiset([x] + s);
    }
  }

  lemma {:induction false} DistinctInsert(x: File, s: seq<File>)
    ensures Distinct(Insert(x, s, ByName)) <==> Distinct([x] + s)
  {
    hide Distinct, Unused, ByName;
    if s != [] && !ByName(x, s[0]) {
      var rest, y := s[1..], s[0];
      assert s == [y] + rest;
      assert Insert(x, s, ByName) == [y] + Insert(x, rest, ByName);
      DistinctInsert(x, rest);
      InsertMembers(x, rest);
      SameMembers(y.name, Insert(x, rest, ByName), [x] + rest);
      DistinctFront(y, Insert(x, rest, ByName));
      DistinctFront(x, rest);
      DistinctFront(x, s);
      DistinctFront(y, rest);
      UnusedFront(y.name, x, rest);
      UnusedFront(x.name, y, rest);
    }
  }

  lemma UnusedFront(name: seq<byte>, x: File, s: seq<File>)
    ensures Unused(name, [x] + s) <==> x.name != name && Unused(name, s)
  {
    var t := [x] + s;
    assert forall i | 0 <= i < |s| :: t[i + 1] == s[i];
    if Unused(name, t) {
      assert t[0].name != name;
      forall i | 0 <= i < |s| ensures s[i].name != name { assert t[i + 1].name != name; }
    }
  }

  lemma {:induction false} DistinctSort(s: seq<File>)
    ensures Distinct(Sort(s, ByName)) <==> Distinct(s)
  {
    hide Distinct, Insert, ByName;
    if s != [] {
      var rest := s[1..];
      assert s == [s[0]] + rest;
      DistinctSort(rest);
      DistinctInsert(s[0], Sort(rest, ByName));
      SameElements(rest, ByName);
      SameMembers(s[0].name, Sort(rest, ByName), rest);
      DistinctFront(s[0], Sort(rest, ByName));
      DistinctFront(s[0], rest);
    }
  }

  /** In name order, equal names are neighbours. */
  lemma NeighboursDecide(s: seq<File>)
    requires Sorted(s, ByName)
    ensures Distinct(s) <==> forall i | 0 < i < |s| :: s[i - 1].name != s[i].name
  {
    hide Lex;
    if forall i | 0 < i < |s| :: s[i - 1].name != s[i].name {
      forall i, j | 0 <= i < j < |s| ensures s[i].name != s[j].name {
        if s[i].name == s[j].name {
          assert ByName(s[i], s[i + 1]);
          assert i + 1 == j || ByName(s[i + 1], s[j]);
          if i + 1 < j { LexAntisymmetric(s[i].name, s[i + 1].name); }
        }
      }
    } else {
      var i :| 0 < i < |s| && s[i - 1].name == s[i].name;
      assert s[i - 1].name == s[i].name;
    }
  }

  lemma {:induction false} FaultNone(files: seq<File>, n: nat)
    requires n <= |files|
    ensures Fault(files, n).None? <==>
      (forall i | 0 < i < n :: files[i - 1].name != files[i].name) && (forall i | 0 <= i < n :: files[i].data != [])
    decreases n
  {
    if n > 0 {
      FaultNone(files, n - 1);
      if n > 1 && files[n - 2].name == files[n - 1].name {
        assert !(forall i | 0 < i < n :: files[i - 1].name != files[i].name) by {
          assert files[n - 1 - 1].name == files[n - 1].name;
        }
      }
    }
  }

  ghost predicate NonEmpty(s: seq<File>) { forall i | 0 <= i < |s| :: s[i].data != [] }

  lemma SortNonEmpty(s: seq<File>)
    ensures NonEmpty(Sort(s, ByName)) <==> NonEmpty(s)
  {
    hide Sort;
    SameElements(s, ByName);
    var t := Sort(s, ByName);
    if NonEmpty(s) { forall i | 0 <= i < |t| ensures t[i].data != [] { assert t[i] in s; } }
    if NonEmpty(t) { forall i | 0 <= i < |s| ensures s[i].data != [] { assert s[i] in t; } }
  }

  /** The checks over the sorted list accept exactly the lists of distinct names and nonempty data,
      in whatever order they were given. */
  lemma ChecksExact(normal: seq<File>)
    ensures var files := Sort(normal, ByName);
      Fault(files, |files|).None? <==> Distinct(normal) && NonEmpty(normal)
  {
    hide Sort, Fault, Distinct, ByName, Sorted, TotalOrder;
    var files := Sort(normal, ByName);
    NameOrder();
    SortSorts(normal, ByName);
    NeighboursDecide(files);
    FaultNone(files, |files|);
    DistinctSort(normal);
    SortNonEmpty(normal);
  }

  // ----- fields of the image

  lemma {:induction false} DirectoryAt(files: seq<File>, n: nat, i: nat)
    requires Buildable(files) && i < n <= |files|
    ensures PayloadAt(files, i) <= 0xFFFF && |files[i].data| <= 0xFFFF
    ensures DirectoryTo(files, n)[i * ENTRY..(i + 1) * ENTRY] ==
      DirectoryEntry(files[i].name, PayloadAt(files, i), |files[i].data|)
    decreases n
  {
    hide DirectoryEntry, PayloadAt, TotalSize;
    PayloadFits(files, i);
    if i < n - 1 {
      DirectoryAt(files, n - 1, i);
      assert DirectoryTo(files, n)[i * ENTRY..(i + 1) * ENTRY] == DirectoryTo(files, n - 1)[i * ENTRY..(i + 1) * ENTRY];
    }
  }

  lemma {:induction false} PayloadIn(files: seq<File>, n: nat, k: nat)
    requires k < n <= |files| && !Seen(files, k, files[k].data)
    ensures PayloadSize(files, k) + |files[k].data| <= PayloadSize(files, n)
    ensures PayloadsTo(files, n)[PayloadSize(files, k)..PayloadSize(files, k) + |files[k].data|] == files[k].data
    decreases n
  {
    hide Seen, PayloadSize, PayloadsTo;
    PayloadsGrow(files, n - 1);
    SizeGrows(files, k, n);
    if k < n - 1 {
      PayloadIn(files, n - 1, k);
      SliceKept(PayloadsTo(files, n - 1), PayloadsTo(files, n), PayloadSize(files, k),
        PayloadSize(files, k) + |files[k].data|);
    }
  }

  lemma PayloadsGrow(files: seq<File>, n: nat)
    requires n < |files|
    ensures PayloadsTo(files, n) <= PayloadsTo(files, n + 1)
    ensures |PayloadsTo(files, n)| == PayloadSize(files, n) && |PayloadsTo(files, n + 1)| == PayloadSize(files, n + 1)
    ensures !Seen(files, n, files[n].data) ==>
      PayloadSize(files, n + 1) == PayloadSize(files, n) + |files[n].data| &&
        PayloadsTo(files, n + 1)[PayloadSize(files, n)..] == files[n].data
  {
    hide Seen;
  }

  lemma SliceKept(a: seq<byte>, b: seq<byte>, lo: nat, hi: nat)
    requires a <= b && lo <= hi <= |a|
    ensures b[lo..hi] == a[lo..hi]
  {
  }

  lemma PayloadStored(files: seq<File>, i: nat)
    requires Buildable(files) && i < |files|
    ensures var at := PayloadAt(files, i);
      at + |files[i].data| <= TotalSize(files) && Image(files)[at..at + |files[i].data|] == files[i].data
  {
    hide Seen, PayloadsTo, DirectoryTo, PayloadSize, Head;
    var k := First(files, i, 0);
    FirstUnseen(files, i);
    PayloadIn(files, |files|, k);
    var front, payloads := Head(|files|, TotalSize(files)) + DirectoryTo(files, |files|), PayloadsTo(files, |files|);
    var p, n := PayloadSize(files, k), |files[i].data|;
    assert |front| == DataOffset(files);
    assert (front + payloads)[|front| + p..|front| + p + n] == payloads[p..p + n];
  }

  lemma EntryStored(files: seq<File>, i: nat)
    requires Buildable(files) && i < |files|
    ensures PayloadAt(files, i) <= 0xFFFF && |files[i].data| <= 0xFFFF && HEADER + (i + 1) * ENTRY <= TotalSize(files)
    ensures Image(files)[HEADER + i * ENTRY..HEADER + (i + 1) * ENTRY] ==
      DirectoryEntry(files[i].name, PayloadAt(files, i), |files[i].data|)
  {
    hide PayloadsTo, DirectoryTo, PayloadSize, Head, DirectoryEntry, PayloadAt;
    DirectoryAt(files, |files|, i);
    var head, dir, payloads := Head(|files|, TotalSize(files)), DirectoryTo(files, |files|), PayloadsTo(files, |files|);
    assert (head + dir + payloads)[HEADER + i * ENTRY..HEADER + (i + 1) * ENTRY] == dir[i * ENTRY..(i + 1) * ENTRY];
  }

  lemma EntryFields(name: seq<byte>, at: nat, size: nat)
    requires |name| <= NAME && at <= 0xFFFF && size <= 0xFFFF
    ensures var e := DirectoryEntry(name, at, size);
      e[1] == |name| && Word(e, 2) == at && Word(e, 4) == size && e[8..8 + |name|] == name
  {
    var e := DirectoryEntry(name, at, size);
    assert e[2] == Le16(at)[0] && e[3] == Le16(at)[1] && e[4] == Le16(size)[0] && e[5] == Le16(size)[1];
  }

  /** The fields of entry i, as the directory search reads them. */
  lemma FieldsStored(files: seq<File>, i: nat)
    requires Buildable(files) && i < |files|
    ensures var image, e := Image(files), HEADER + i * ENTRY;
      && e + ENTRY <= |image|
      && image[e + 1] == |files[i].name| && image[e + 8..e + 8 + |files[i].name|] == files[i].name
      && Word(image, e + 2) == PayloadAt(files, i) && Word(image, e + 4) == |files[i].data|
  {
    hide Image, PayloadAt, DirectoryEntry, TotalSize;
    EntryStored(files, i);
    EntryFields(files[i].name, PayloadAt(files, i), |files[i].data|);
    var image, e := Image(files), HEADER + i * ENTRY;
    var entry := image[e..e + ENTRY];
    assert forall k | 0 <= k < ENTRY :: entry[k] == image[e + k];
    assert entry[1] == image[e + 1] && entry[2] == image[e + 2] && entry[3] == image[e + 3] &&
      entry[4] == image[e + 4] && entry[5] == image[e + 5];
    assert image[e + 8..e + 8 + |files[i].name|] == entry[8..8 + |files[i].name|];
  }

  lemma HeadStored(files: seq<File>)
    requires Buildable(files)
    ensures |Image(files)| >= 40 && Image(files)[..4] == UBFS && Image(files)[6] == |files|
    ensures Word(Image(files), 8) == HEADER && Word(Image(files), 10) == DataOffset(files)
    ensures Word(Image(files), 12) == TotalSize(files)
  {
    hide PayloadsTo, DirectoryTo, PayloadSize, Head;
    var head, image := Head(|files|, TotalSize(files)), Image(files);
    HeadFields(|files|, TotalSize(files));
    assert forall k | 0 <= k < HEADER :: image[k] == head[k];
    assert image[..4] == head[..4];
  }

  lemma HeadFields(count: nat, total: nat)
    requires count <= 255 && total <= 0xFFFF
    ensures var h := Head(count, total);
      h[..4] == UBFS && h[6] == count && Word(h, 8) == HEADER && Word(h, 10) == HEADER + count * ENTRY &&
        Word(h, 12) == total
  {
    var h := Head(count, total);
    assert h[8] == Le16(HEADER)[0] && h[9] == Le16(HEADER)[1];
    assert h[10] == Le16(HEADER + count * ENTRY)[0] && h[11] == Le16(HEADER + count * ENTRY)[1];
    assert h[12] == Le16(total)[0] && h[13] == Le16(total)[1];
  }

  // ----- lookup

  lemma {:induction false} FindsOwn(files: seq<File>, i: nat, from: nat)
    requires Buildable(files) && Distinct(files) && from <= i < |files|
    ensures |Image(files)| >= 40 && Image(files)[6] == |files|
    ensures FindFrom(Image(files), files[i].name, from) == Ok(HEADER + i * ENTRY)
    decreases i - from
  {
    hide Image, Word, PayloadAt, FindFrom;
    HeadStored(files);
    FieldsStored(files, from);
    FindStep(Image(files), files[i].name, from);
    if from < i {
      assert files[from].name != files[i].name;
      FindsOwn(files, i, from + 1);
    }
  }

  lemma FindStep(fs: seq<byte>, name: seq<byte>, i: nat)
    requires |fs| >= 40 && 1 <= |name| <= NAME && i < fs[6] && HEADER + i * ENTRY + ENTRY <= |fs|
    ensures var e := HEADER + i * ENTRY;
      FindFrom(fs, name, i) ==
      if fs[e + 1] == |name| && fs[e + 8..e + 8 + |name|] == name then Ok(e) else FindFrom(fs, name, i + 1)
  {
  }

  lemma {:induction false} FindsNone(files: seq<File>, name: seq<byte>, from: nat)
    requires Buildable(files) && from <= |files| && 1 <= |name| <= NAME && Unused(name, files)
    ensures |Image(files)| >= 40 && Image(files)[6] == |files|
    ensures FindFrom(Image(files), name, from) == Err(NotFound)
    decreases |files| - from
  {
    hide Image, Word, PayloadAt;
    HeadStored(files);
    if from < |files| {
      FieldsStored(files, from);
      FindsNone(files, name, from + 1);
    }
  }

  lemma LookupOwn(files: seq<File>, i: nat)
    requires Buildable(files) && Distinct(files) && i < |files|
    ensures Lookup(Image(files), files[i].name) == Ok(files[i].data)
  {
    hide Image, PayloadAt, FindFrom, Distinct, Word, Buildable;
    HeadStored(files);
    FindsOwn(files, i, 0);
    FieldsStored(files, i);
    PayloadStored(files, i);
  }

  // ----- sharing

  /** Payload ranges coincide for equal contents and are disjoint otherwise. */
  lemma SharedOrDisjoint(files: seq<File>, i: nat, j: nat)
    requires i < |files| && j < |files|
    ensures files[i].data == files[j].data ==> PayloadAt(files, i) == PayloadAt(files, j)
    ensures files[i].data != files[j].data ==>
      PayloadAt(files, i) + |files[i].data| <= PayloadAt(files, j) ||
        PayloadAt(files, j) + |files[j].data| <= PayloadAt(files, i)
  {
    hide PayloadSize, Seen;
    var a, b := First(files, i, 0), First(files, j, 0);
    FirstUnseen(files, i);
    FirstUnseen(files, j);
    if a < b { SizeGrows(files, a, b); }
    if b < a { SizeGrows(files, b, a); }
  }
}
