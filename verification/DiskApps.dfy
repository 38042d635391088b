/** Adding applications to an existing disk: `directory_names` and `add_apps` of add_disk_apps.py. */
module DiskApps {
  import opened Bytes
  import opened Geometry
  import opened Bam
  import opened DiskRead
  import opened Inventory
  import opened Directory
  import opened DirectoryProofs
  import opened Install
  import opened InstallProofs
  import opened InstallTheorems
  import opened Listings
  import opened Runs
  import opened Repack
  import opened SideOne

  // ----- the names on the disk

  function Keys(entries: seq<seq<byte>>): set<seq<byte>>
    requires forall e | e in entries :: |e| == 30
  {
    set e | e in entries :: UpperBytes(NameOf(e))
  }

  /** The directory walk for D64 and D71 images, which stays on track 18. */
  function WalkNames(f: Format, img: seq<byte>, l: Loc, seen: set<Loc>, names: set<seq<byte>>): Option<set<seq<byte>>>
    requires !f.D81? && |img| >= Size(f)
    decreases AllSectors(f) - seen
  {
    if !InDisk(f, l) || l in seen then None
    else
      InAllSectors(f, l);
      var all := names + Keys(Occupied(f, img, l, 8));
      var track, sector := ByteAt(f, img, l, 0), ByteAt(f, img, l, 1);
      if track == 0 then Some(all)
      else if track != 18 || sector == 0 then None
      else WalkNames(f, img, Loc(18, sector), seen + {l}, all)
  }

  function DirectoryNames(f: Format, img: seq<byte>): Option<set<seq<byte>>>
    requires |img| >= Size(f)
  {
    if f.D81? then
      var listing := DirEntries(f, img);
      if listing.whole then Some(Keys(listing.entries)) else None
    else WalkNames(f, img, Loc(18, 1), {}, {})
  }

  // ----- checking every name before any allocation

  datatype App = App(name: string, data: seq<byte>)
  datatype AppError = BadDisk | BadAppName | AppExists | NotUdex | NotInstalled(error: DiskError)

  function UpperAll(name: string): (u: string)
    ensures |u| == |name| && forall i | 0 <= i < |name| :: u[i] == Upper(name[i])
  {
    seq(|name|, i requires 0 <= i < |name| => Upper(name[i]))
  }

  predicate BaseChar(c: char) { 'A' <= c <= 'Z' || '0' <= c <= '9' || c == '_' || c == '-' }

  /** 1 to 12 portable characters and the suffix. */
  predicate AppName(u: string) {
    5 <= |u| <= 16 && u[|u| - 4..] == ".BIN" && forall i | 0 <= i < |u| - 4 :: BaseChar(u[i])
  }

  lemma AppNameEncodes(u: string)
    requires AppName(u)
    ensures NameLengthOk(u) && UpperBytes(Encode(u).value) == Encode(u).value
  {
    assert forall i | |u| - 4 <= i < |u| :: u[i] == ".BIN"[i - (|u| - 4)];
  }

  predicate IsUdex(data: seq<byte>) { |data| >= 17 && data[..4] == [0x55, 0x44, 0x45, 0x58] }

  datatype Checked = Checked(names: set<seq<byte>>, reqs: seq<Request>)

  /** The validation loop over the first n applications. */
  function CheckApps(names: set<seq<byte>>, apps: seq<App>, n: nat): Result<Checked, AppError>
    requires n <= |apps|
    decreases n
  {
    if n == 0 then Ok(Checked(names, [])) else
      var before := CheckApps(names, apps, n - 1);
      if before.Err? then before else
        var u := UpperAll(apps[n - 1].name);
        if !AppName(u) then Err(BadAppName) else
          AppNameEncodes(u);
          var key := Encode(u).value;
          if key in before.value.names then Err(AppExists)
          else if !IsUdex(apps[n - 1].data) then Err(NotUdex)
          else Ok(Checked(before.value.names + {key}, before.value.reqs + [Request(u, apps[n - 1].data, SEQ)]))
  }

  function FileTracks(f: Format): nat { if f.D64? then 35 else 70 }

  /** `add_apps`: the given image itself is never touched. */
  function AddApps(f: Format, img: seq<byte>, apps: seq<App>): Result<seq<byte>, AppError>
    requires |img| == Size(f)
  {
    var names := DirectoryNames(f, img);
    if names.None? then Err(BadDisk) else
      var checked := CheckApps(names.value, apps, |apps|);
      if checked.Err? then Err(checked.error) else
        var o := Run(f, img, checked.value.reqs, FileTracks(f));
        if o.Failed? then Err(NotInstalled(o.error)) else Ok(o.image)
  }

  // ----- as it runs

  method ReadNames(f: Format, image: seq<byte>) returns (r: Option<set<seq<byte>>>)
    requires |image| >= Size(f)
    ensures r == DirectoryNames(f, image)
  {
    hide WalkDir, Occupied, InDisk, AllSectors, Keys, Size, SectorsBefore;
    if f.D81? {
      var listing := Entries(f, image, 40, 3);
      return if listing.whole then Some(Keys(listing.entries)) else None;
    }
    var l, seen, names: set<seq<byte>> := Loc(18, 1), {}, {};
    while true
      invariant WalkNames(f, image, Loc(18, 1), {}, {}) == WalkNames(f, image, l, seen, names)
      decreases AllSectors(f) - seen
    {
      if !InDisk(f, l) || l in seen { return None; }
      InAllSectors(f, l);
      SectorInImage(f, l);
      seen := seen + {l};
      var here := OccupiedEntries(f, image, l);
      names := names + Keys(here);
      var track: nat, sector: nat := image[Offset(f, l)], image[Offset(f, l) + 1];
      if track == 0 { return Some(names); }
      if track != 18 || sector == 0 { return None; }
      l := Loc(18, sector);
    }
  }

  method CheckAll(names: set<seq<byte>>, apps: seq<App>) returns (r: Result<Checked, AppError>)
    ensures r == CheckApps(names, apps, |apps|)
  {
    hide AppName, IsUdex, Encode;
    var known, reqs := names, [];
    for i := 0 to |apps|
      invariant CheckApps(names, apps, i) == Ok(Checked(known, reqs))
    {
      var u := UpperAll(apps[i].name);
      if !AppName(u) { CheckStops(names, apps, i + 1, |apps|); return Err(BadAppName); }
      AppNameEncodes(u);
      var key := Encode(u).value;
      if key in known { CheckStops(names, apps, i + 1, |apps|); return Err(AppExists); }
      if !IsUdex(apps[i].data) { CheckStops(names, apps, i + 1, |apps|); return Err(NotUdex); }
      known, reqs := known + {key}, reqs + [Request(u, apps[i].data, SEQ)];
    }
    return Ok(Checked(known, reqs));
  }

  lemma {:induction false} CheckStops(names: set<seq<byte>>, apps: seq<App>, n: nat, k: nat)
    requires n <= k <= |apps| && CheckApps(names, apps, n).Err?
    ensures CheckApps(names, apps, k) == CheckApps(names, apps, n)
    decreases k
  {
    if n < k { CheckStops(names, apps, n, k - 1); }
  }

  method AddAppsTo(f: Format, image: seq<byte>, apps: seq<App>) returns (r: Result<seq<byte>, AppError>)
    requires |image| == Size(f)
    ensures r == AddApps(f, image, apps)
  {
    hide DirectoryNames, CheckApps, Run, Size;
    var names := ReadNames(f, image);
    if names.None? { return Err(BadDisk); }
    var checked := CheckAll(names.value, apps);
    if checked.Err? { return Err(checked.error); }
    var result := new byte[|image|](i requires 0 <= i < |image| => image[i]);
    assert result[..] == image;
    var error := RunInPlace(f, result, checked.value.reqs, FileTracks(f));
    if error.Some? { return Err(NotInstalled(error.value)); }
    return Ok(result[..]);
  }
}
