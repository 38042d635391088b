/** When a boot filesystem can be built, and what it then answers. */
module BootfsTheorem {
  import opened Bytes
  import opened Sorting
  import opened Bootfs
  import opened BootfsProofs

  // ----- the size does not depend on the order of the entries

  ghost function TotalLength(s: set<seq<byte>>): nat {
    if s == {} then 0 else
      var x :| x in s;
      |x| + TotalLength(s - {x})
  }

  lemma {:induction false} TotalMore(s: set<seq<byte>>, x: seq<byte>)
    requires x !in s
    ensures TotalLength(s + {x}) == TotalLength(s) + |x|
    decreases s
  {
    var all := s + {x};
    var y :| y in all && TotalLength(all) == |y| + TotalLength(all - {y});
    if y == x {
      assert all - {y} == s;
    } else {
      TotalMore(s - {y}, x);
      assert all - {y} == (s - {y}) + {x};
      TotalLess(s, y);
    }
  }

  lemma {:induction false} TotalLess(s: set<seq<byte>>, y: seq<byte>)
    requires y in s
    ensures TotalLength(s) == |y| + TotalLength(s - {y})
    decreases s
  {
    var z :| z in s && TotalLength(s) == |z| + TotalLength(s - {z});
    if z != y {
      TotalLess(s - {z}, y);
      TotalLess(s - {y}, z);
      assert s - {z} - {y} == s - {y} - {z};
    }
  }

  ghost function Payloads(files: seq<File>, n: nat): set<seq<byte>>
    requires n <= |files|
  {
    set j | 0 <= j < n :: files[j].data
  }

  lemma {:induction false} SizeIsTotal(files: seq<File>, n: nat)
    requires n <= |files|
    ensures PayloadSize(files, n) == TotalLength(Payloads(files, n))
    decreases n
  {
    hide TotalLength;
    if n == 0 {
      NoTotal();
      assert Payloads(files, 0) == {};
    } else {
      var data := files[n - 1].data;
      SizeIsTotal(files, n - 1);
      assert Payloads(files, n) == Payloads(files, n - 1) + {data};
      if Seen(files, n - 1, data) {
        assert Payloads(files, n) == Payloads(files, n - 1);
      } else {
        TotalMore(Payloads(files, n - 1), data);
      }
    }
  }

  lemma NoTotal()
    ensures TotalLength({}) == 0
  {
  }

  /** Header, one directory entry a file, and each distinct payload once. */
  ghost function SizeOf(entries: seq<Entry>): nat {
    16 + 24 * |entries| + TotalLength(set e | e in entries :: e.data)
  }

  lemma SizeAgrees(entries: seq<Entry>)
    requires Normalize(entries, |entries|).Ok?
    ensures TotalSize(Sort(Normalize(entries, |entries|).value, ByName)) == SizeOf(entries)
  {
    hide Normalize, Sort, TotalLength, PayloadSize;
    var normal := Normalize(entries, |entries|).value;
    var files := Sort(normal, ByName);
    SizeIsTotal(files, |files|);
    SameElements(normal, ByName);
    var wanted := set e | e in entries :: e.data;
    forall d ensures d in Payloads(files, |files|) <==> d in wanted {
      if d in wanted {
        var i :| 0 <= i < |entries| && entries[i].data == d;
        assert normal[i] in files;
      }
      if d in Payloads(files, |files|) {
        var j :| 0 <= j < |files| && files[j].data == d;
        assert files[j] in normal;
        var i :| 0 <= i < |normal| && normal[i] == files[j];
        assert entries[i] in entries;
      }
    }
    assert Payloads(files, |files|) == wanted;
  }

  // ----- exactly when building succeeds

  ghost predicate Acceptable(entries: seq<Entry>, maxSize: int) {
    && 0 < |entries| <= 255
    && (forall i | 0 <= i < |entries| :: ValidateName(entries[i].name).Ok? && entries[i].data != [])
    && (forall i, j | 0 <= i < j < |entries| :: entries[i].name != entries[j].name)
    && SizeOf(entries) <= maxSize && SizeOf(entries) <= 0xFFFF
  }

  lemma {:induction false} NormalizeOk(entries: seq<Entry>, n: nat)
    requires n <= |entries|
    ensures Normalize(entries, n).Ok? <==> forall i | 0 <= i < n :: ValidateName(entries[i].name).Ok?
    decreases n
  {
    hide ValidateName;
    if n > 0 { NormalizeOk(entries, n - 1); }
  }

  lemma EncodeInjective(a: string, b: string)
    requires ValidateName(a).Ok? && ValidateName(b).Ok? && ValidateName(a).value == ValidateName(b).value
    ensures a == b
  {
    assert Encode(a) == Encode(b);
    assert forall i | 0 <= i < |a| :: Encode(a)[i] == a[i] as int && Encode(b)[i] == b[i] as int;
  }

  lemma DistinctNames(entries: seq<Entry>)
    requires Normalize(entries, |entries|).Ok?
    ensures Distinct(Normalize(entries, |entries|).value) <==> forall i, j | 0 <= i < j < |entries| ::
      entries[i].name != entries[j].name
  {
    hide Normalize, ValidateName;
    var normal := Normalize(entries, |entries|).value;
    assert forall i | 0 <= i < |entries| :: ValidateName(entries[i].name) == Ok(normal[i].name);
    if Distinct(normal) {
      forall i, j | 0 <= i < j < |entries|
        ensures entries[i].name != entries[j].name
      {
        assert normal[i].name != normal[j].name;
      }
    } else {
      var i, j :| 0 <= i < j < |normal| && normal[i].name == normal[j].name;
      EncodeInjective(entries[i].name, entries[j].name);
    }
  }

  lemma NonEmptyData(entries: seq<Entry>)
    requires Normalize(entries, |entries|).Ok?
    ensures NonEmpty(Normalize(entries, |entries|).value) <==> forall i | 0 <= i < |entries| :: entries[i].data != []
  {
    hide Normalize, ValidateName;
    var normal := Normalize(entries, |entries|).value;
    if NonEmpty(normal) { forall i | 0 <= i < |entries| ensures entries[i].data != [] { assert normal[i].data != []; } }
    if forall i | 0 <= i < |entries| :: entries[i].data != [] {
      forall i | 0 <= i < |normal| ensures normal[i].data != [] { assert entries[i].data != []; }
    }
  }

  ghost function Files(entries: seq<Entry>): seq<File>
    requires Normalize(entries, |entries|).Ok?
  {
    Sort(Normalize(entries, |entries|).value, ByName)
  }

  lemma BuildsExactly(entries: seq<Entry>, maxSize: int)
    ensures BuildBootfs(entries, maxSize).Ok? <==> Acceptable(entries, maxSize)
    ensures BuildBootfs(entries, maxSize).Ok? ==>
      Normalize(entries, |entries|).Ok? && Buildable(Files(entries)) && Distinct(Files(entries))
      && BuildBootfs(entries, maxSize).value == Image(Files(entries))
  {
    hide Normalize, Sort, TotalSize, SizeOf, Fault, ValidateName, Distinct, NonEmpty, Image;
    NormalizeOk(entries, |entries|);
    if 0 < |entries| <= 255 && Normalize(entries, |entries|).Ok? {
      var normal := Normalize(entries, |entries|).value;
      ChecksExact(normal);
      DistinctNames(entries);
      NonEmptyData(entries);
      SizeAgrees(entries);
      DistinctSort(normal);
      if TotalSize(Files(entries)) <= 0xFFFF { CanBuild(entries); }
    }
  }

  // ----- the theorem

  ghost predicate Finds(image: seq<byte>, e: Entry) {
    var name := ValidateName(e.name);
    name.Ok? && 1 <= |name.value| <= 16 && Lookup(image, name.value) == Ok(e.data)
  }

  /** Every name finds its own payload, any other name is reported missing. */
  ghost predicate Answers(image: seq<byte>, entries: seq<Entry>) {
    && (forall i | 0 <= i < |entries| :: Finds(image, entries[i]))
    && (forall name: seq<byte> | 1 <= |name| <= 16 &&
      (forall i | 0 <= i < |entries| :: ValidateName(entries[i].name) != Ok(name)) ::
          Lookup(image, name) == Err(NotFound))
  }

  lemma AnswersOwn(entries: seq<Entry>, i: nat)
    requires Normalize(entries, |entries|).Ok? && Buildable(Files(entries)) && Distinct(Files(entries)) && i < |entries|
    ensures Finds(Image(Files(entries)), entries[i])
  {
    hide Normalize, Sort, Image, Lookup, Distinct, PayloadSize;
    var normal := Normalize(entries, |entries|).value;
    SameElements(normal, ByName);
    assert normal[i] in Files(entries);
    var k :| 0 <= k < |Files(entries)| && Files(entries)[k] == normal[i];
    LookupOwn(Files(entries), k);
    assert ValidateName(entries[i].name) == Ok(normal[i].name);
  }

  lemma AnswersNone(entries: seq<Entry>, name: seq<byte>)
    requires Normalize(entries, |entries|).Ok? && Buildable(Files(entries)) && 1 <= |name| <= NAME
    requires forall i | 0 <= i < |entries| :: ValidateName(entries[i].name) != Ok(name)
    ensures Lookup(Image(Files(entries)), name) == Err(NotFound)
  {
    hide Normalize, Sort, Image, PayloadSize, ValidateName, FindFrom;
    var normal := Normalize(entries, |entries|).value;
    SameElements(normal, ByName);
    forall i | 0 <= i < |normal|
      ensures normal[i].name != name
    {
      assert ValidateName(entries[i].name) == Ok(normal[i].name);
    }
    SameMembers(name, normal, Files(entries));
    HeadStored(Files(entries));
    FindsNone(Files(entries), name, 0);
  }

  /** Names strictly increase along the directory. */
  lemma DirectoryOrdered(entries: seq<Entry>)
    requires Normalize(entries, |entries|).Ok? && Distinct(Files(entries))
    ensures forall i, j | 0 <= i < j < |Files(entries)| ::
      Lex(Files(entries)[i].name, Files(entries)[j].name) && Files(entries)[i].name != Files(entries)[j].name
  {
    hide Normalize, Sort, Lex;
    NameOrder();
    SortSorts(Normalize(entries, |entries|).value, ByName);
    var files := Files(entries);
    forall i, j | 0 <= i < j < |files| ensures Lex(files[i].name, files[j].name) { assert ByName(files[i], files[j]); }
  }

  /** Building succeeds exactly for distinct valid names, nonempty payloads and a total that fits;
      the image then has exactly that size and answers every name with its own payload. */
  lemma BuildTheorem(entries: seq<Entry>, maxSize: int)
    ensures BuildBootfs(entries, maxSize).Ok? <==> Acceptable(entries, maxSize)
    ensures BuildBootfs(entries, maxSize).Ok? ==>
      var image := BuildBootfs(entries, maxSize).value;
      && |image| == SizeOf(entries) && Word(image, 12) == SizeOf(entries)
      && Answers(image, entries)
  {
    hide Normalize, TotalSize, SizeOf, ValidateName, Distinct, Image, BuildBootfs, Acceptable, Files, Lookup, Word,
      Finds;
    BuildsExactly(entries, maxSize);
    if BuildBootfs(entries, maxSize).Ok? {
      var image := BuildBootfs(entries, maxSize).value;
      HeadStored(Files(entries));
      TotalIsSize(entries);
      forall i | 0 <= i < |entries|
        ensures Finds(image, entries[i])
      {
        AnswersOwn(entries, i);
      }
      forall name: seq<byte> | 1 <= |name| <= NAME &&
        (forall i | 0 <= i < |entries| :: ValidateName(entries[i].name) != Ok(name))
        ensures Lookup(image, name) == Err(NotFound)
      {
        AnswersNone(entries, name);
      }
    }
  }

  lemma TotalIsSize(entries: seq<Entry>)
    requires Normalize(entries, |entries|).Ok?
    ensures TotalSize(Files(entries)) == SizeOf(entries)
  {
    hide TotalSize, SizeOf, Normalize, Sort;
    SizeAgrees(entries);
  }

  // ----- the image byte by byte

  /** The names that are taken: 1 to 16 letters, digits, dots, underscores, plus and minus signs, stored
      as they are. */
  lemma NamesTaken(name: string)
    ensures ValidateName(name).Ok? <==>
      && 1 <= |name| <= 16
      && forall i | 0 <= i < |name| ::
           var c := name[i] as int;
           0x41 <= c <= 0x5A || 0x61 <= c <= 0x7A || 0x30 <= c <= 0x39 || c == 0x2E || c == 0x5F || c == 0x2B ||
             c == 0x2D
    ensures ValidateName(name).Ok? ==>
      |ValidateName(name).value| == |name| && forall i | 0 <= i < |name| ::
        ValidateName(name).value[i] == name[i] as int
  {
    assert forall i | 0 <= i < |name| :: Allowed(name[i] as int) ==> name[i] as int < 128;
  }

  /** The order of the directory: one name is a prefix of the other, or the first difference decides. */
  lemma {:induction false} LexIs(a: seq<byte>, b: seq<byte>)
    ensures Lex(a, b) <==>
      a <= b || exists k | 0 <= k < |a| && k < |b| :: a[..k] == b[..k] && a[k] < b[k]
    decreases |a|
  {
    if a != [] && b != [] {
      assert a == [a[0]] + a[1..] && b == [b[0]] + b[1..];
      if a[0] == b[0] {
        LexIs(a[1..], b[1..]);
        LexTails(a, b);
      } else if a[0] < b[0] {
        assert a[..0] == b[..0];
      } else {
        forall k | 0 <= k < |a| && k < |b| ensures !(a[..k] == b[..k] && a[k] < b[k]) {
          if k > 0 { assert a[..k][0] == a[0] && b[..k][0] == b[0]; }
        }
      }
    }
  }

  lemma LexTails(a: seq<byte>, b: seq<byte>)
    requires a != [] && b != [] && a[0] == b[0]
    ensures a <= b <==> a[1..] <= b[1..]
    ensures (exists k | 0 <= k < |a| && k < |b| :: a[..k] == b[..k] && a[k] < b[k]) <==>
            (exists k | 0 <= k < |a[1..]| && k < |b[1..]| :: a[1..][..k] == b[1..][..k] && a[1..][k] < b[1..][k])
  {
    var c, d := a[1..], b[1..];
    assert a == [a[0]] + c && b == [b[0]] + d;
    if k :| 0 <= k < |a| && k < |b| && a[..k] == b[..k] && a[k] < b[k] {
      assert c[..k - 1] == a[..k][1..] && d[..k - 1] == b[..k][1..];
      assert c[k - 1] < d[k - 1];
    }
    if k :| 0 <= k < |c| && k < |d| && c[..k] == d[..k] && c[k] < d[k] {
      assert a[..k + 1] == [a[0]] + c[..k] && b[..k + 1] == [b[0]] + d[..k];
      assert a[k + 1] < b[k + 1];
    }
  }

  /** The header: magic, version 0.1, count and entry size, then the offsets of directory and data and
      the total size. */
  lemma HeaderOnImage(files: seq<File>)
    requires Buildable(files)
    ensures var fs := Image(files);
      && |fs| >= 40 && fs[..8] == [0x55, 0x42, 0x46, 0x53, 0, 1, |files|, 24]
      && WordIs(fs, 8, 16) && WordIs(fs, 10, 16 + 24 * |files|) && WordIs(fs, 12, |fs|) && fs[14] == 0 && fs[15] == 0
  {
    hide PayloadsTo, DirectoryTo, PayloadSize;
    HeadStored(files);
    var h := Head(|files|, TotalSize(files));
    hide TotalSize;
    assert h[..8] == UBFS + [0, 1, |files|, 24];
    assert h[14] == 0 && h[15] == 0;
    assert Image(files)[..16] == h;
    assert Image(files)[..8] == h[..8];
  }

  /** Entry i of the directory and the payload it names. */
  lemma EntryOnImage(files: seq<File>, i: nat)
    requires Buildable(files) && i < |files|
    ensures var fs, e, name, data := Image(files), 16 + 24 * i, files[i].name, files[i].data;
      && e + 24 <= |fs| && fs[e] == 1 && fs[e + 1] == |name| && fs[e + 6] == 0 && fs[e + 7] == 0
      && |name| <= 16 && fs[e + 8..e + 8 + |name|] == name && fs[e + 8 + |name|..e + 24] == Zeros(16 - |name|)
      && WordIs(fs, e + 4, |data|)
      && var at := (fs[e + 2] as int) + 256 * (fs[e + 3] as int);
      at + |data| <= |fs| && fs[at..at + |data|] == data
  {
    hide Image, PayloadAt, TotalSize, DirectoryEntry;
    EntryStored(files, i);
    FieldsStored(files, i);
    PayloadStored(files, i);
    var fs, e, name, at := Image(files), 16 + 24 * i, files[i].name, PayloadAt(files, i);
    var entry := fs[e..e + 24];
    EntryRest(entry, name, at, |files[i].data|);
    assert entry[0] == fs[e] && entry[6] == fs[e + 6] && entry[7] == fs[e + 7];
    assert fs[e + 8 + |name|..e + 24] == entry[8 + |name|..];
    assert (fs[e + 2] as int) + 256 * (fs[e + 3] as int) == Word(fs, e + 2) == at;
  }

  lemma EntryRest(e: seq<byte>, name: seq<byte>, at: nat, size: nat)
    requires |name| <= NAME && at <= 0xFFFF && size <= 0xFFFF && e == DirectoryEntry(name, at, size)
    ensures e[0] == 1 && e[6] == 0 && e[7] == 0 && e[8 + |name|..] == Zeros(16 - |name|)
  {
    hide Le16;
  }
}
