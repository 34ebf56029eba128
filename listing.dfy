/** Listing: what `list_packages` reports about the installed packages, in
    brief or in detail. */
module Listing {
  import opened Common
  import opened JsonData
  import opened FileSystem
  import opened PackageStore

  /** The `executable_info` entry: the descriptor's path and whether it exists. */
  datatype ExecutableInfo = ExecutableInfo(path: string, present: bool)

  /** The entries the detailed listing adds for a package with a truthy descriptor. */
  datatype Details = Details(executableInfo: Option<ExecutableInfo>, entryPoints: Json,
                             version: Json, description: Json, author: Json)

  /** One entry of `packages`. */
  datatype PackageSummary = PackageSummary(
    name: string,
    installType: Json,
    size: nat,
    sizeFormatted: SizeLabel,
    installDate: string,
    path: string,
    hasMetadata: bool,
    details: Option<Details>)

  /** The data dictionary; `total_size_formatted` is absent from the empty listing. */
  datatype ListData = ListData(packages: seq<PackageSummary>, totalCount: nat, totalSize: nat,
                               totalSizeFormatted: Option<SizeLabel>, detailed: bool)

  datatype ListResult = ListResult(success: bool, message: string, data: ListData)

  const NoPackagesMessage := "No packages are currently installed"

  /** The message of the handler around the listing; the exception's text is not modelled. */
  const ListErrorMessage := "Error listing packages"

  function FoundMessage(n: nat): string
  {
    "Found " + NatToString(n) + " installed package(s)"
  }

  /** The `executable_info` of a descriptor: `None` unless it says it installs an
      executable and has a path; `os.path.exists` raises on a path that is not a string. */
  function ExecutableInfoOf(d: Disk, m: map<string, Json>): (r: Attempt<Option<ExecutableInfo>>)
    ensures r.Raises? <==> Get(m, "installType", Null) == Str("executable") && "installExecutablePath" in m
                           && !m["installExecutablePath"].Str?
    ensures r == Done(None) <==> !(Get(m, "installType", Null) == Str("executable") && "installExecutablePath" in m)
    ensures r.Done? && r.value.Some? ==>
              && Get(m, "installType", Null) == Str("executable") && "installExecutablePath" in m
              && m["installExecutablePath"] == Str(r.value.value.path)
              && (r.value.value.present <==> PathExists(d, Elsewhere(r.value.value.path)))
  {
    if Get(m, "installType", Null) == Str("executable") && "installExecutablePath" in m then
      match m["installExecutablePath"]
      case Str(path) => Done(Some(ExecutableInfo(path, PathExists(d, Elsewhere(path)))))
      case _ => Raises
    else Done(None)
  }

  /** The entry of one package; the details only in a detailed listing of a
      package whose descriptor is a non-empty object. */
  ghost function SummaryOf(d: Disk, p: PackageRecord, detailed: bool): (s: Attempt<PackageSummary>)
  {
    var brief := PackageSummary(p.name, p.installType, p.size, SizeLabelOf(p.size), p.installDate, p.path,
                                p.metadata.Some?, None);
    if detailed && p.metadata.Some? && p.metadata.value != map[] then
      var m := p.metadata.value;
      match ExecutableInfoOf(d, m)
      case Raises => Raises
      case Done(info) =>
        Done(brief.(details := Some(Details(info, Get(m, "entryPoint", Arr([])), Get(m, "version", Null),
                                            Get(m, "description", Null), Get(m, "author", Null)))))
    else Done(brief)
  }

  /** What an entry promises about its package: the record's fields as they
      are, the formatted size, `has_metadata` iff a descriptor was read, and
      details exactly for a detailed listing of a truthy descriptor. The
      details carry the executable status, the entry points (`[]` when
      absent) and the optional fields. The entry raises only when the
      executable status does. */
  lemma SummaryFields(d: Disk, p: PackageRecord, detailed: bool)
    ensures var s := SummaryOf(d, p, detailed);
      s.Raises? <==>
        detailed && p.metadata.Some? && p.metadata.value != map[] && ExecutableInfoOf(d, p.metadata.value).Raises?
    ensures var s := SummaryOf(d, p, detailed);
      s.Done? ==>
        && s.value.name == p.name && s.value.installType == p.installType && s.value.path == p.path
        && s.value.size == p.size && s.value.sizeFormatted == SizeLabelOf(p.size)
        && s.value.installDate == p.installDate
        && (s.value.hasMetadata <==> p.metadata.Some?)
        && (s.value.details.Some? <==> detailed && p.metadata.Some? && p.metadata.value != map[])
    ensures var s := SummaryOf(d, p, detailed);
      s.Done? && s.value.details.Some? ==>
        var m := p.metadata.value;
        var info := s.value.details.value.executableInfo;
        && s.value.details.value.entryPoints == Get(m, "entryPoint", Arr([]))
        && (info.Some? <==> Get(m, "installType", Null) == Str("executable") && "installExecutablePath" in m)
        && (info.Some? ==> m["installExecutablePath"] == Str(info.value.path)
                           && (info.value.present <==> PathExists(d, Elsewhere(info.value.path))))
        && s.value.details.value.version == Get(m, "version", Null)
        && s.value.details.value.description == Get(m, "description", Null)
        && s.value.details.value.author == Get(m, "author", Null)
  {
    if detailed && p.metadata.Some? && p.metadata.value != map[] {
      var info := ExecutableInfoOf(d, p.metadata.value);
    }
  }

  /** `sum(package["size"] for package in packages)`. */
  function TotalSize(pkgs: seq<PackageRecord>): nat
  {
    if pkgs == [] then 0 else TotalSize(pkgs[..|pkgs| - 1]) + pkgs[|pkgs| - 1].size
  }

  /** The total is zero, and shown as `"0 B"`, iff every package is empty; it
      is at least the size of each package. */
  lemma {:induction false} TotalSizeBounds(pkgs: seq<PackageRecord>)
    ensures TotalSize(pkgs) == 0 <==> forall i :: 0 <= i < |pkgs| ==> pkgs[i].size == 0
    ensures SizeLabelOf(TotalSize(pkgs)) == ZeroBytes <==> forall i :: 0 <= i < |pkgs| ==> pkgs[i].size == 0
    ensures forall i :: 0 <= i < |pkgs| ==> pkgs[i].size <= TotalSize(pkgs)
  {
    if pkgs != [] {
      var n := |pkgs| - 1;
      TotalSizeBounds(pkgs[..n]);
      assert forall i :: 0 <= i < n ==> pkgs[..n][i] == pkgs[i];
    }
    SizeLabelZero(TotalSize(pkgs));
  }

  /** One package's entry, as the listing loop builds it. */
  method FormatPackage(d: Disk, p: PackageRecord, detailed: bool) returns (s: Attempt<PackageSummary>)
    ensures s == SummaryOf(d, p, detailed)
  {
    var sizeFormatted := FormatSize(p.size);
    var entry := PackageSummary(p.name, p.installType, p.size, sizeFormatted, p.installDate, p.path,
                                p.metadata.Some?, None);
    if detailed && p.metadata.Some? && p.metadata.value != map[] {
      var m := p.metadata.value;
      var info := ExecutableInfoOf(d, m);
      if info.Raises? {
        return Raises;
      }
      entry := entry.(details := Some(Details(info.value, Get(m, "entryPoint", Arr([])), Get(m, "version", Null),
                                              Get(m, "description", Null), Get(m, "author", Null))));
    }
    return Done(entry);
  }

  /** `list_packages(detailed)`: every installed package in listing order with
      the totals; the empty listing says so; an entry that raises turns the
      whole result into the error result. */
  method ListPackages(d: Disk, detailed: bool) returns (r: ListResult, ghost listing: seq<PackageRecord>)
    requires ValidDisk(d)
    ensures IsListing(d, listing)
    ensures r.data.detailed == detailed
    ensures listing == [] ==> r == ListResult(true, NoPackagesMessage, ListData([], 0, 0, None, detailed))
    ensures r.success <==> forall i :: 0 <= i < |listing| ==> SummaryOf(d, listing[i], detailed).Done?
    ensures !r.success ==> r == ListResult(false, ListErrorMessage, ListData([], 0, 0, None, detailed))
    ensures r.success && listing != [] ==>
              && r.message == FoundMessage(|listing|)
              && r.data.totalCount == |listing| && r.data.totalSize == TotalSize(listing)
              && r.data.totalSizeFormatted == Some(SizeLabelOf(TotalSize(listing)))
              && |r.data.packages| == |listing|
              && (forall i :: 0 <= i < |listing| ==> r.data.packages[i] == SummaryOf(d, listing[i], detailed).value)
  {
    var packages := GetInstalledPackages(d);
    listing := packages;
    if packages == [] {
      return ListResult(true, NoPackagesMessage, ListData([], 0, 0, None, detailed)), listing;
    }
    var total := TotalSize(packages);
    var formatted: seq<PackageSummary> := [];
    for i := 0 to |packages|
      invariant |formatted| == i
      invariant forall k :: 0 <= k < i ==> SummaryOf(d, packages[k], detailed) == Done(formatted[k])
    {
      var entry := FormatPackage(d, packages[i], detailed);
      if entry.Raises? {
        return ListResult(false, ListErrorMessage, ListData([], 0, 0, None, detailed)), listing;
      }
      ghost var prev := formatted;
      formatted := formatted + [entry.value];
      assert forall k :: 0 <= k < i ==> formatted[k] == prev[k];
    }
    var totalFormatted := FormatSize(total);
    r := ListResult(true, FoundMessage(|packages|),
                    ListData(formatted, |packages|, total, Some(totalFormatted), detailed));
  }
}
