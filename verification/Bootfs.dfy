/** The read-only boot filesystem: `build_bootfs` of build_bootfs.py and the directory search of
    `validate_ush` (build_d71.py). */
module Bootfs {
  import opened Bytes
  import opened Sorting

  const HEADER: nat := 16
  const ENTRY: nat := 24
  const NAME: nat := 16
  const UBFS: seq<byte> := [0x55, 0x42, 0x46, 0x53]

  datatype NameError = NotAscii | BadLength | BadCharacter
  datatype BootfsError = NoEntries | TooMany | BadName(cause: NameError) | Duplicate | EmptyPayload | TooLarge

  datatype Entry = Entry(name: string, data: seq<byte>)
  datatype File = File(name: seq<byte>, data: seq<byte>)

  // ----- names

  /** Letters, digits, dot, underscore, plus and minus. */
  predicate Allowed(b: int) {
    65 <= b <= 90 || 97 <= b <= 122 || 48 <= b <= 57 || b == 46 || b == 95 || b == 43 || b == 45
  }

  predicate Ascii(name: string) { forall i | 0 <= i < |name| :: name[i] as int < 128 }

  function Encode(name: string): (s: seq<byte>)
    requires Ascii(name)
    ensures |s| == |name| && forall i | 0 <= i < |name| :: s[i] == name[i] as int
  {
    seq<byte>(|name|, i requires 0 <= i < |name| => name[i] as int)
  }

  function ValidateName(name: string): Result<seq<byte>, NameError> {
    if !Ascii(name) then Err(NotAscii)
    else if !(1 <= |name| <= NAME) then Err(BadLength)
    else if exists i | 0 <= i < |name| :: !Allowed(name[i] as int) then Err(BadCharacter)
    else Ok(Encode(name))
  }

  function Normalize(entries: seq<Entry>, n: nat): (r: Result<seq<File>, NameError>)
    requires n <= |entries|
    ensures r.Ok? ==> |r.value| == n && forall i | 0 <= i < n ::
        ValidateName(entries[i].name) == Ok(r.value[i].name) && r.value[i].data == entries[i].data
    decreases n
  {
    if n == 0 then Ok([]) else
      var before := Normalize(entries, n - 1);
      if before.Err? then before else
        var name := ValidateName(entries[n - 1].name);
        if name.Err? then Err(name.error) else Ok(before.value + [File(name.value, entries[n - 1].data)])
  }

  predicate Lex(a: seq<byte>, b: seq<byte>) {
    a == [] || (b != [] && (a[0] < b[0] || (a[0] == b[0] && Lex(a[1..], b[1..]))))
  }

  predicate ByName(a: File, b: File) { Lex(a.name, b.name) }

  /** The check loop over the first n sorted files. */
  function Fault(files: seq<File>, n: nat): Option<BootfsError>
    requires n <= |files|
    decreases n
  {
    if n == 0 then None else
      var before := Fault(files, n - 1);
      if before.Some? then before
      else if n > 1 && files[n - 2].name == files[n - 1].name then Some(Duplicate)
      else if files[n - 1].data == [] then Some(EmptyPayload)
      else None
  }

  // ----- payload placement

  predicate Seen(files: seq<File>, n: nat, data: seq<byte>)
    requires n <= |files|
  {
    exists j | 0 <= j < n :: files[j].data == data
  }

  /** Total length of the distinct payloads among the first n files. */
  function PayloadSize(files: seq<File>, n: nat): nat
    requires n <= |files|
    decreases n
  {
    if n == 0 then 0 else
      PayloadSize(files, n - 1) + if Seen(files, n - 1, files[n - 1].data) then 0 else |files[n - 1].data|
  }

  function First(files: seq<File>, i: nat, j: nat): (k: nat)
    requires j <= i < |files|
    ensures j <= k <= i && files[k].data == files[i].data && forall m | j <= m < k :: files[m].data != files[i].data
    decreases i - j
  {
    if files[j].data == files[i].data then j else First(files, i, j + 1)
  }

  function DataOffset(files: seq<File>): nat { HEADER + |files| * ENTRY }

  function TotalSize(files: seq<File>): nat { DataOffset(files) + PayloadSize(files, |files|) }

  /** Where the payload of file i starts: the place of its first equal. */
  function PayloadAt(files: seq<File>, i: nat): nat
    requires i < |files|
  {
    DataOffset(files) + PayloadSize(files, First(files, i, 0))
  }

  lemma {:induction false} SizeGrows(files: seq<File>, i: nat, n: nat)
    requires i < n <= |files|
    ensures PayloadSize(files, i) <= PayloadSize(files, n)
    ensures !Seen(files, i, files[i].data) ==> PayloadSize(files, i) + |files[i].data| <= PayloadSize(files, n)
    decreases n
  {
    if n > i + 1 { SizeGrows(files, i, n - 1); }
  }

  lemma FirstUnseen(files: seq<File>, i: nat)
    requires i < |files|
    ensures !Seen(files, First(files, i, 0), files[First(files, i, 0)].data)
  {
  }

  lemma PayloadFits(files: seq<File>, i: nat)
    requires i < |files|
    ensures DataOffset(files) <= PayloadAt(files, i) && PayloadAt(files, i) + |files[i].data| <= TotalSize(files)
  {
    hide PayloadSize, Seen;
    FirstUnseen(files, i);
    SizeGrows(files, First(files, i, 0), |files|);
  }

  // ----- the image as header, directory and payloads, one after another

  predicate Buildable(files: seq<File>) {
    && 0 < |files| <= 255 && TotalSize(files) <= 0xFFFF
    && forall i | 0 <= i < |files| :: 1 <= |files[i].name| <= NAME
  }

  function Head(count: nat, total: nat): (h: seq<byte>)
    requires count <= 255 && total <= 0xFFFF
    ensures |h| == HEADER
  {
    UBFS + [0, 1, count, ENTRY] + Le16(HEADER) + Le16(HEADER + count * ENTRY) + Le16(total) + [0, 0]
  }

  function DirectoryEntry(name: seq<byte>, at: nat, size: nat): (e: seq<byte>)
    requires |name| <= NAME && at <= 0xFFFF && size <= 0xFFFF
    ensures |e| == ENTRY
  {
    [1, |name|] + Le16(at) + Le16(size) + [0, 0] + name + Zeros(NAME - |name|)
  }

  function DirectoryTo(files: seq<File>, n: nat): (d: seq<byte>)
    requires Buildable(files) && n <= |files|
    ensures |d| == n * ENTRY
    decreases n
  {
    if n == 0 then [] else
      PayloadFits(files, n - 1);
      DirectoryTo(files, n - 1) + DirectoryEntry(files[n - 1].name, PayloadAt(files, n - 1), |files[n - 1].data|)
  }

  function PayloadsTo(files: seq<File>, n: nat): (d: seq<byte>)
    requires n <= |files|
    ensures |d| == PayloadSize(files, n)
    decreases n
  {
    if n == 0 then [] else
      PayloadsTo(files, n - 1) + if Seen(files, n - 1, files[n - 1].data) then [] else files[n - 1].data
  }

  function Image(files: seq<File>): (image: seq<byte>)
    requires Buildable(files)
    ensures |image| == TotalSize(files)
  {
    Head(|files|, TotalSize(files)) + DirectoryTo(files, |files|) + PayloadsTo(files, |files|)
  }

  /** `build_bootfs`. */
  function BuildBootfs(entries: seq<Entry>, maxSize: int): Result<seq<byte>, BootfsError> {
    if entries == [] then Err(NoEntries)
    else if |entries| > 255 then Err(TooMany)
    else
      var normal := Normalize(entries, |entries|);
      if normal.Err? then Err(BadName(normal.error)) else
        var files := Sort(normal.value, ByName);
        var fault := Fault(files, |files|);
        if fault.Some? then Err(fault.value)
        else if TotalSize(files) > maxSize || TotalSize(files) > 0xFFFF then Err(TooLarge)
        else
          CanBuild(entries);
          Ok(Image(files))
  }

  lemma CanBuild(entries: seq<Entry>)
    requires 0 < |entries| <= 255 && Normalize(entries, |entries|).Ok?
    requires TotalSize(Sort(Normalize(entries, |entries|).value, ByName)) <= 0xFFFF
    ensures Buildable(Sort(Normalize(entries, |entries|).value, ByName))
  {
    hide Normalize, Sort, TotalSize;
    NamesKept(entries);
  }

  lemma NamesKept(entries: seq<Entry>)
    requires Normalize(entries, |entries|).Ok?
    ensures var files := Sort(Normalize(entries, |entries|).value, ByName);
      forall i | 0 <= i < |files| :: 1 <= |files[i].name| <= NAME
  {
    hide Normalize, Sort;
    var normal := Normalize(entries, |entries|).value;
    var files := Sort(normal, ByName);
    SameElements(normal, ByName);
    forall i | 0 <= i < |files| ensures 1 <= |files[i].name| <= NAME {
      assert files[i] in normal;
      var k :| 0 <= k < |normal| && normal[k] == files[i];
      assert ValidateName(entries[k].name) == Ok(normal[k].name);
    }
  }

  // ----- reading it back

  datatype FindError = NotBootfs | DirectoryTruncated | NotFound | FileTruncated

  /** The directory search from entry i on. */
  function FindFrom(fs: seq<byte>, name: seq<byte>, i: nat): (e: Result<nat, FindError>)
    requires |fs| >= 40 && 1 <= |name| <= NAME && i <= fs[6]
    ensures e.Ok? ==> e.value + ENTRY <= |fs|
    decreases fs[6] as int - i
  {
    if i == fs[6] then Err(NotFound) else
      var e := HEADER + i * ENTRY;
      if e + ENTRY > |fs| then Err(DirectoryTruncated)
      else if fs[e + 1] == |name| && fs[e + 8..e + 8 + |name|] == name then Ok(e)
      else FindFrom(fs, name, i + 1)
  }

  function Lookup(fs: seq<byte>, name: seq<byte>): Result<seq<byte>, FindError>
    requires 1 <= |name| <= NAME
  {
    if |fs| < 40 || fs[..4] != UBFS || fs[6] == 0 then Err(NotBootfs) else
      var e := FindFrom(fs, name, 0);
      if e.Err? then Err(e.error)
      else if Word(fs, e.value + 2) + Word(fs, e.value + 4) > |fs| then Err(FileTruncated)
      else Ok(fs[Word(fs, e.value + 2)..Word(fs, e.value + 2) + Word(fs, e.value + 4)])
  }
}
