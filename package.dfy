/** The package store: validation of a package's descriptor file, the scan of
    the packages root into a list of package records sorted by lower-cased name,
    and the lookups built on that list. */
module PackageStore {
  import opened Common
  import opened JsonData
  import opened FileSystem

  // ---------------------------------------------------------------------------
  // Descriptor validation
  // ---------------------------------------------------------------------------

  /** The fields a descriptor must have, in the order they are checked. */
  const RequiredFields: seq<string> := ["installType", "entryPoint"]

  /** The accepted values of `installType`. */
  const InstallTypes: seq<Json> := [Str("executable"), Str("library"), Str("script")]

  /** Why a descriptor is rejected. */
  datatype MetadataError =
    | FileNotFound
    | MissingField(field: string)
    | InvalidInstallType
    | EntryPointNotList
    | MissingExecutablePath
    | InvalidJson
    | ValidationFailure

  datatype Check = Pass | Fail(error: MetadataError)

  /** The message `validate_metadata_file` returns for an error; the exception
      text Python appends to the last two is left out. */
  function Message(e: MetadataError): string
  {
    match e
    case FileNotFound => "Metadata file not found"
    case MissingField(field) => "Missing required field: " + field
    case InvalidInstallType => "Invalid installType. Must be one of: executable, library, script"
    case EntryPointNotList => "entryPoint must be a list of commands"
    case MissingExecutablePath => "installExecutablePath is required for executable packages"
    case InvalidJson => "Invalid JSON in metadata file: "
    case ValidationFailure => "Error validating metadata: "
  }

  /** `validate_metadata_file`'s pair `(is_valid, message)`. */
  function Verdict(c: Check): (bool, string)
  {
    if c.Pass? then (true, "Valid metadata") else (false, Message(c.error))
  }

  /** Python's `key in value` where it does not raise. */
  predicate Has(j: Json, key: string)
  {
    Contains(j, key) == Some(true)
  }

  /** A value on which Python's `in` does not raise: an object, a list or a string. */
  predicate Iterable(j: Json)
  {
    j.Obj? || j.Arr? || j.Str?
  }

  /** The first field of `fields` that `in` does not find in `j`. */
  function FirstMissing(j: Json, fields: seq<string>): (r: Option<string>)
    ensures r.Some? ==> r.value in fields && !Has(j, r.value)
    ensures r.None? ==> forall f :: f in fields ==> Has(j, f)
  {
    if fields == [] then None
    else if !Has(j, fields[0]) then Some(fields[0])
    else FirstMissing(j, fields[1..])
  }

  /** A descriptor the validator accepts, stated field by field. */
  predicate Conforms(j: Json)
  {
    && j.Obj?
    && "installType" in j.fields
    && "entryPoint" in j.fields
    && j.fields["installType"] in InstallTypes
    && j.fields["entryPoint"].Arr?
    && (j.fields["installType"] == Str("executable") ==> "installExecutablePath" in j.fields)
  }

  /** The checks of `validate_metadata_file` on a parsed descriptor, in source order. */
  function ValidateJson(j: Json): (c: Check)
    ensures c.Pass? <==> Conforms(j)
    ensures j.Obj? && "installType" !in j.fields ==> c == Fail(MissingField("installType"))
    ensures j.Obj? && "installType" in j.fields && "entryPoint" !in j.fields
            ==> c == Fail(MissingField("entryPoint"))
    ensures c == Fail(InvalidInstallType) <==>
            j.Obj? && "installType" in j.fields && "entryPoint" in j.fields
            && j.fields["installType"] !in InstallTypes
    ensures c == Fail(EntryPointNotList) <==>
            j.Obj? && "installType" in j.fields && "entryPoint" in j.fields
            && j.fields["installType"] in InstallTypes && !j.fields["entryPoint"].Arr?
    ensures c.Fail? && c.error.MissingField? <==> Iterable(j) && FirstMissing(j, RequiredFields).Some?
    ensures c.Fail? && c.error.MissingField? ==> c.error.field == FirstMissing(j, RequiredFields).value
    ensures c == Fail(ValidationFailure) <==>
            !Iterable(j) || (!j.Obj? && forall f :: f in RequiredFields ==> Has(j, f))
    ensures c == Fail(MissingExecutablePath) <==>
            j.Obj? && "installType" in j.fields && "entryPoint" in j.fields
            && j.fields["installType"] == Str("executable") && j.fields["entryPoint"].Arr?
            && "installExecutablePath" !in j.fields
  {
    if !Iterable(j) then
      // `field not in metadata` raises TypeError on a number, a boolean or null
      Fail(ValidationFailure)
    else
      match FirstMissing(j, RequiredFields)
      case Some(field) => Fail(MissingField(field))
      case None =>
        if !j.Obj? then
          // `metadata["installType"]` raises TypeError on a list or a string
          Fail(ValidationFailure)
        else
          var m := j.fields;
          assert Has(j, RequiredFields[0]) && Has(j, RequiredFields[1]);
          if m["installType"] !in InstallTypes then
            Fail(InvalidInstallType)
          else if !m["entryPoint"].Arr? then
            Fail(EntryPointNotList)
          else if m["installType"] == Str("executable") && "installExecutablePath" !in m then
            Fail(MissingExecutablePath)
          else
            Pass
  }

  /** `validate_metadata_file` on the descriptor file of a directory (`None`: no such file). */
  function ValidateMetadataFile(f: Option<DescriptorFile>): (c: Check)
    ensures f.None? ==> c == Fail(FileNotFound)
    ensures f == Some(Malformed) ==> c == Fail(InvalidJson)
    ensures c.Pass? <==> f.Some? && f.value.Parsed? && Conforms(f.value.json)
  {
    match f
    case None => Fail(FileNotFound)
    case Some(Unreadable) => Fail(ValidationFailure)
    case Some(Malformed) => Fail(InvalidJson)
    case Some(Parsed(j)) => ValidateJson(j)
  }

  /** `installExecutablePath` is needed exactly for executables: a library or
      script descriptor with a command list is valid with or without it, an
      executable one only with it. */
  lemma ExecutablePathRequiredIffExecutable(m: map<string, Json>, kind: string)
    requires Str(kind) in InstallTypes
    requires "entryPoint" in m && m["entryPoint"].Arr?
    ensures var j := Obj(m["installType" := Str(kind)]);
      ValidateJson(j).Pass? <==> (kind == "executable" ==> "installExecutablePath" in m)
  {
    var j := Obj(m["installType" := Str(kind)]);
    assert "installExecutablePath" in j.fields <==> "installExecutablePath" in m;
  }

  /** `load_package_metadata`: the parsed descriptor of a package directory, or
      `None` when the directory or the file is missing, unreadable or not JSON. */
  function LoadPackageMetadata(d: Disk, name: string): (r: Option<Json>)
    ensures r.Some? <==>
      IsDirectory(d, name) && d.entries[name].dir.descriptor.Some? && d.entries[name].dir.descriptor.value.Parsed?
    ensures r.Some? ==> d.entries[name].dir.descriptor == Some(Parsed(r.value))
  {
    if IsDirectory(d, name) then
      match d.entries[name].dir.descriptor
      case Some(Parsed(j)) => Some(j)
      case _ => None
    else None
  }

  /** A descriptor that validates loads as an object with the required fields. */
  lemma ValidatedLoads(d: Disk, name: string)
    requires IsDirectory(d, name)
    requires ValidateMetadataFile(d.entries[name].dir.descriptor).Pass?
    ensures var r := LoadPackageMetadata(d, name);
      r.Some? && r.value.Obj? && Conforms(r.value) && d.entries[name].dir.descriptor == Some(Parsed(r.value))
  {
  }

  // ---------------------------------------------------------------------------
  // The store
  // ---------------------------------------------------------------------------

  /** A package as `get_installed_packages` reports it. `installType` is the
      descriptor's value as is, `"Unknown"` when absent, `"Invalid"` when the
      descriptor is not a readable JSON object (then `metadata` is `None`). */
  datatype PackageRecord = PackageRecord(
    name: string,
    path: string,
    metadata: Option<map<string, Json>>,
    size: nat,
    installDate: string,
    installType: Json)

  /** A root entry listed as a package: a directory holding a descriptor file. */
  predicate Listed(d: Disk, name: string)
  {
    IsDirectory(d, name) && d.entries[name].dir.descriptor.Some?
  }

  /** The refusal for a name that is not listed. */
  function NotInstalledMessage(name: string): string
  {
    "Package '" + name + "' is not installed"
  }

  /** The refusal for a listed package whose descriptor is absent or empty. */
  function NoMetadataMessage(name: string): string
  {
    "Package metadata not found for '" + name + "'"
  }

  /** The record a listed directory gets. */
  ghost function RecordOf(name: string, dir: PackageDir): PackageRecord
  {
    match dir.descriptor
    case Some(Parsed(Obj(m))) =>
      PackageRecord(name, PackagePath(name), Some(m), TreeBytes(dir.tree), dir.created,
                    Get(m, "installType", Str("Unknown")))
    case _ =>
      // json.load failed, or `metadata.get` raised on a value that is not an object
      PackageRecord(name, PackagePath(name), None, TreeBytes(dir.tree), dir.created, Str("Invalid"))
  }

  /** The sort key: `name.lower()`. */
  function SortKey(p: PackageRecord): string
  {
    Lower(p.name)
  }

  ghost predicate SortedByName(s: seq<PackageRecord>)
  {
    forall i, j :: 0 <= i < j < |s| ==> LexLeq(SortKey(s[i]), SortKey(s[j]))
  }

  ghost predicate DistinctNames(s: seq<PackageRecord>)
  {
    forall i, j :: 0 <= i < j < |s| ==> s[i].name != s[j].name
  }

  /** What `get_installed_packages` returns: one record per listed directory,
      no name twice, sorted by lower-cased name. */
  ghost predicate IsListing(d: Disk, s: seq<PackageRecord>)
  {
    && SortedByName(s)
    && DistinctNames(s)
    && (forall i :: 0 <= i < |s| ==>
          Listed(d, s[i].name) && s[i] == RecordOf(s[i].name, d.entries[s[i].name].dir))
    && (forall n :: Listed(d, n) ==> exists i :: 0 <= i < |s| && s[i].name == n)
  }

  /** Insertion into a list sorted by key, before the first element whose key is
      not below. */
  function Insert(x: PackageRecord, s: seq<PackageRecord>): (r: seq<PackageRecord>)
    ensures |r| == |s| + 1
    ensures forall y :: y in r <==> y == x || y in s
  {
    if s == [] then [x]
    else if LexLeq(SortKey(x), SortKey(s[0])) then [x] + s
    else [s[0]] + Insert(x, s[1..])
  }

  /** Python's `sorted(packages, key=lambda x: x["name"].lower())`. */
  function SortByName(s: seq<PackageRecord>): (r: seq<PackageRecord>)
    ensures |r| == |s|
    ensures forall y :: y in r <==> y in s
  {
    if s == [] then [] else Insert(s[0], SortByName(s[1..]))
  }

  lemma {:induction false} InsertSorted(x: PackageRecord, s: seq<PackageRecord>)
    requires SortedByName(s)
    ensures SortedByName(Insert(x, s))
  {
    if s != [] && !LexLeq(SortKey(x), SortKey(s[0])) {
      InsertSorted(x, s[1..]);
      LexLeqTotal(SortKey(x), SortKey(s[0]));
      var r := Insert(x, s[1..]);
      forall k | 0 <= k < |r| ensures LexLeq(SortKey(s[0]), SortKey(r[k])) {
        assert r[k] in r;
        if r[k] != x {
          var m :| 0 <= m < |s[1..]| && s[1..][m] == r[k];
          assert s[m + 1] == r[k];
        }
      }
      forall i, j | 0 <= i < j < |[s[0]] + r|
        ensures LexLeq(SortKey(([s[0]] + r)[i]), SortKey(([s[0]] + r)[j]))
      {
        if i > 0 {
          assert ([s[0]] + r)[i] == r[i - 1] && ([s[0]] + r)[j] == r[j - 1];
        }
      }
    } else if s != [] {
      forall i, j | 0 <= i < j < |[x] + s|
        ensures LexLeq(SortKey(([x] + s)[i]), SortKey(([x] + s)[j]))
      {
        if i == 0 {
          LexLeqReflexive(SortKey(s[0]));
          if j > 1 {
            LexLeqTransitive(SortKey(x), SortKey(s[0]), SortKey(s[j - 1]));
          }
        }
      }
    }
  }

  lemma {:induction false} LexLeqReflexive(a: string)
    ensures LexLeq(a, a)
  {
    if |a| > 0 {
      LexLeqReflexive(a[1..]);
    }
  }

  lemma {:induction false} InsertDistinct(x: PackageRecord, s: seq<PackageRecord>)
    requires DistinctNames(s)
    requires forall y :: y in s ==> y.name != x.name
    ensures DistinctNames(Insert(x, s))
  {
    if s != [] && !LexLeq(SortKey(x), SortKey(s[0])) {
      InsertDistinct(x, s[1..]);
      var r := Insert(x, s[1..]);
      forall k | 0 <= k < |r| ensures r[k].name != s[0].name {
        assert r[k] in r;
        if r[k] != x {
          var m :| 0 <= m < |s[1..]| && s[1..][m] == r[k];
          assert s[m + 1] == r[k];
        }
      }
      forall i, j | 0 <= i < j < |[s[0]] + r| ensures ([s[0]] + r)[i].name != ([s[0]] + r)[j].name {
        if i > 0 {
          assert ([s[0]] + r)[i] == r[i - 1] && ([s[0]] + r)[j] == r[j - 1];
        }
      }
    }
  }

  /** Sorting gives a sorted list and keeps names distinct. */
  lemma {:induction false} SortByNameCorrect(s: seq<PackageRecord>)
    requires DistinctNames(s)
    ensures SortedByName(SortByName(s)) && DistinctNames(SortByName(s))
  {
    if s != [] {
      assert DistinctNames(s[1..]) by {
        forall i, j | 0 <= i < j < |s[1..]| ensures s[1..][i].name != s[1..][j].name {
          assert s[1..][i] == s[i + 1] && s[1..][j] == s[j + 1];
        }
      }
      SortByNameCorrect(s[1..]);
      InsertSorted(s[0], SortByName(s[1..]));
      forall y | y in SortByName(s[1..]) ensures y.name != s[0].name {
        var m :| 0 <= m < |s[1..]| && s[1..][m] == y;
        assert s[m + 1] == y;
      }
      InsertDistinct(s[0], SortByName(s[1..]));
    }
  }

  /** A record the scan read from a listed directory. */
  ghost predicate Scanned(d: Disk, p: PackageRecord)
  {
    Listed(d, p.name) && p == RecordOf(p.name, d.entries[p.name].dir)
  }

  /** The scan so far: the records read from the entries already visited,
      one per listed directory among them. */
  ghost predicate ScanSoFar(d: Disk, found: seq<PackageRecord>, remaining: set<string>)
  {
    && DistinctNames(found)
    && (forall i :: 0 <= i < |found| ==> found[i].name !in remaining && Scanned(d, found[i]))
    && (forall n :: Listed(d, n) && n !in remaining ==>
          exists i :: 0 <= i < |found| && found[i].name == n)
  }

  /** Visiting one more entry keeps the scan faithful. */
  lemma ScanStep(d: Disk, found: seq<PackageRecord>, remaining: set<string>, item: string,
                 next: seq<PackageRecord>)
    requires ScanSoFar(d, found, remaining) && item in remaining
    requires Listed(d, item) ==> next == found + [RecordOf(item, d.entries[item].dir)]
    requires !Listed(d, item) ==> next == found
    ensures ScanSoFar(d, next, remaining - {item})
  {
    forall n | Listed(d, n) && n !in remaining - {item}
      ensures exists i :: 0 <= i < |next| && next[i].name == n
    {
      if n == item {
        assert next[|found|].name == n;
      } else {
        var i :| 0 <= i < |found| && found[i].name == n;
        assert next[i] == found[i];
      }
    }
  }

  /** A list holding every record of a scan names every listed directory. */
  lemma CoversKept(d: Disk, found: seq<PackageRecord>, packages: seq<PackageRecord>)
    requires forall n :: Listed(d, n) ==> exists i :: 0 <= i < |found| && found[i].name == n
    requires forall p :: p in found ==> p in packages
    ensures forall n :: Listed(d, n) ==> exists i :: 0 <= i < |packages| && packages[i].name == n
  {
    forall n | Listed(d, n) ensures exists i :: 0 <= i < |packages| && packages[i].name == n {
      var i :| 0 <= i < |found| && found[i].name == n;
      assert found[i] in found;
      var j :| 0 <= j < |packages| && packages[j] == found[i];
    }
  }

  /** A list holding only records of a scan holds only scanned records. */
  lemma ScannedKept(d: Disk, found: seq<PackageRecord>, packages: seq<PackageRecord>)
    requires forall i :: 0 <= i < |found| ==> Scanned(d, found[i])
    requires forall p :: p in packages ==> p in found
    ensures forall i :: 0 <= i < |packages| ==> Scanned(d, packages[i])
  {
    forall i | 0 <= i < |packages| ensures Scanned(d, packages[i]) {
      assert packages[i] in packages;
      var k :| 0 <= k < |found| && found[k] == packages[i];
    }
  }

  /** The records of a complete scan, once sorted, are a listing. */
  lemma ScanSorted(d: Disk, found: seq<PackageRecord>)
    requires ScanSoFar(d, found, {})
    ensures IsListing(d, SortByName(found))
  {
    SortByNameCorrect(found);
    CoversKept(d, found, SortByName(found));
    ScannedKept(d, found, SortByName(found));
  }

  /** The body of the scan for one directory holding a descriptor: its size,
      then its descriptor (the `try` around `json.load` and `metadata.get`). */
  method ReadPackage(name: string, dir: PackageDir) returns (record: PackageRecord)
    ensures record == RecordOf(name, dir)
  {
    var size := GetDirectorySize(Some(dir.tree));
    match dir.descriptor {
      case Some(Parsed(Obj(m))) =>
        record := PackageRecord(name, PackagePath(name), Some(m), size, dir.created,
                                Get(m, "installType", Str("Unknown")));
      case _ =>
        record := PackageRecord(name, PackagePath(name), None, size, dir.created, Str("Invalid"));
    }
  }

  /** `get_installed_packages`: every directory of the root that holds a
      descriptor file, in `os.listdir` order (any order), then sorted. */
  method GetInstalledPackages(d: Disk) returns (packages: seq<PackageRecord>)
    requires ValidDisk(d)
    ensures IsListing(d, packages)
    ensures !d.rootExists ==> packages == []
  {
    if !d.rootExists {
      return [];
    }
    var found: seq<PackageRecord> := [];
    var remaining := d.entries.Keys;
    while remaining != {}
      invariant ScanSoFar(d, found, remaining)
      decreases remaining
    {
      var item :| item in remaining;
      ghost var prev := found;
      if d.entries[item].Directory? {
        var dir := d.entries[item].dir;
        if dir.descriptor.Some? {
          var record := ReadPackage(item, dir);
          found := found + [record];
        }
      }
      ScanStep(d, prev, remaining, item, found);
      remaining := remaining - {item};
    }
    packages := SortByName(found);
    ScanSorted(d, found);
  }

  /** `get_package_by_name`: the first record whose name is exactly `name`. */
  method GetPackageByName(d: Disk, name: string) returns (r: Option<PackageRecord>)
    requires ValidDisk(d)
    ensures r.Some? <==> Listed(d, name)
    ensures r.Some? ==> r.value == RecordOf(name, d.entries[name].dir)
  {
    var packages := GetInstalledPackages(d);
    for i := 0 to |packages|
      invariant forall j :: 0 <= j < i ==> packages[j].name != name
    {
      if packages[i].name == name {
        return Some(packages[i]);
      }
    }
    return None;
  }

  /** `package_exists`: the joined path and the descriptor file under it both
      exist. The name is joined unchecked, so `""` and `.` test the root and a
      descriptor file in it, and `..` tests `/opt` through the root. A name holding `/` is taken
      to name no package. */
  function PackageExists(d: Disk, name: string): (r: bool)
    requires ValidDisk(d)
    ensures ChildName(name) ==> (r <==> Listed(d, name))
    ensures name == "" || name == "." ==> (r <==> d.rootExists && DescriptorName in d.entries)
    ensures name == ".." ==> (r <==> d.rootExists && ParentDir + "/" + DescriptorName in d.external)
    ensures '/' in name ==> !r
  {
    if '/' in name then false
    else
      match JoinRoot(name)
      case Child(n) => PathExists(d, Child(n)) && PathExists(d, InChild(n, DescriptorName))
      case RootDir => PathExists(d, RootDir) && PathExists(d, Child(DescriptorName))
      // `PACKAGES_DIR/..` resolves through the root, so it exists only with
      // the root; a file under `/opt` exists only if `/opt` does.
      case Elsewhere(parent) => PathExists(d, RootDir) && PathExists(d, Elsewhere(parent + "/" + DescriptorName))
      case InChild(_, _) => false
  }

  /** `get_package_names`: the names of the listing, in its order. */
  method GetPackageNames(d: Disk) returns (names: seq<string>)
    requires ValidDisk(d)
    ensures forall n :: n in names <==> Listed(d, n)
    ensures forall i, j :: 0 <= i < j < |names| ==> names[i] != names[j]
    ensures forall i, j :: 0 <= i < j < |names| ==> LexLeq(Lower(names[i]), Lower(names[j]))
  {
    var packages := GetInstalledPackages(d);
    names := seq(|packages|, i requires 0 <= i < |packages| => packages[i].name);
    forall n | Listed(d, n) ensures n in names {
      var i :| 0 <= i < |packages| && packages[i].name == n;
      assert names[i] == n;
    }
  }
}
