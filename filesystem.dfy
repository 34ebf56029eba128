/** The filesystem as the package manager sees it: the packages root with one
    directory per package, the files installed outside it, the folds over a
    directory tree (size and file count), `format_size`'s unit selection, and the
    create / remove operations that install and uninstall rely on. */
module FileSystem {
  import opened Common
  import opened JsonData

  /** `PACKAGES_DIR`: the packages root. */
  const PackagesDir: string := "/opt/pollypackages"

  /** The descriptor file kept in every package directory. */
  const DescriptorName: string := ".install.polly.json"

  /** `os.path.join(PACKAGES_DIR, name)`. */
  function PackagePath(name: string): string
  {
    PackagesDir + "/" + name
  }

  // ---------------------------------------------------------------------------
  // Directory trees and os.walk
  // ---------------------------------------------------------------------------

  /** A regular file; `size` is `None` when `os.path.getsize` raises on it. */
  datatype FileInfo = FileInfo(name: string, size: Option<nat>)

  /** A directory: its files and its named subdirectories. */
  datatype DirTree = DirTree(files: seq<FileInfo>, subdirs: seq<Subdir>)
  datatype Subdir = Subdir(name: string, tree: DirTree)

  /** `os.walk(top)`: the file list of every directory of the tree, top-down. */
  function Walk(t: DirTree): (w: seq<seq<FileInfo>>)
    decreases t
  {
    [t.files] + WalkAll(t.subdirs)
  }

  function WalkAll(ss: seq<Subdir>): seq<seq<FileInfo>>
    decreases ss
  {
    if ss == [] then [] else Walk(ss[0].tree) + WalkAll(ss[1..])
  }

  /** A quantity summed over a tree: `f` of every directory's file list. */
  ghost function TreeSum(t: DirTree, f: seq<FileInfo> -> nat): nat
    decreases t
  {
    f(t.files) + SubdirSum(t.subdirs, f)
  }

  ghost function SubdirSum(ss: seq<Subdir>, f: seq<FileInfo> -> nat): nat
    decreases ss
  {
    if ss == [] then 0 else TreeSum(ss[0].tree, f) + SubdirSum(ss[1..], f)
  }

  /** The same quantity summed over a walk, directory by directory. */
  ghost function WalkSum(w: seq<seq<FileInfo>>, f: seq<FileInfo> -> nat): nat
  {
    if w == [] then 0 else WalkSum(w[..|w| - 1], f) + f(w[|w| - 1])
  }

  /** The bytes of a file list; a file whose size cannot be read counts 0. */
  ghost function FileBytes(files: seq<FileInfo>): nat
  {
    if files == [] then 0
    else FileBytes(files[..|files| - 1]) + files[|files| - 1].size.GetOr(0)
  }

  ghost function FileCount(files: seq<FileInfo>): nat
  {
    |files|
  }

  /** The total size of a tree: the sizes of all its readable files, at any depth. */
  ghost function TreeBytes(t: DirTree): nat
  {
    TreeSum(t, FileBytes)
  }

  /** The number of files in a tree, at any depth. */
  ghost function TreeFileCount(t: DirTree): nat
  {
    TreeSum(t, FileCount)
  }

  lemma {:induction false} WalkSumAppend(a: seq<seq<FileInfo>>, b: seq<seq<FileInfo>>, f: seq<FileInfo> -> nat)
    ensures WalkSum(a + b, f) == WalkSum(a, f) + WalkSum(b, f)
    decreases |b|
  {
    if b != [] {
      var b' := b[..|b| - 1];
      assert (a + b)[..|a + b| - 1] == a + b';
      WalkSumAppend(a, b', f);
    } else {
      assert a + b == a;
    }
  }

  /** Summing over `os.walk` adds up the same as summing over the tree. */
  lemma {:induction false} WalkSumIsTreeSum(t: DirTree, f: seq<FileInfo> -> nat)
    ensures WalkSum(Walk(t), f) == TreeSum(t, f)
    decreases t
  {
    WalkSumAppend([t.files], WalkAll(t.subdirs), f);
    assert [t.files][..0] == [];
    WalkAllSumIsSubdirSum(t.subdirs, f);
  }

  lemma {:induction false} WalkAllSumIsSubdirSum(ss: seq<Subdir>, f: seq<FileInfo> -> nat)
    ensures WalkSum(WalkAll(ss), f) == SubdirSum(ss, f)
    decreases ss
  {
    if ss != [] {
      WalkSumAppend(Walk(ss[0].tree), WalkAll(ss[1..]), f);
      WalkSumIsTreeSum(ss[0].tree, f);
      WalkAllSumIsSubdirSum(ss[1..], f);
    }
  }

  /** One more file adds its readable size. */
  lemma FileBytesStep(files: seq<FileInfo>, j: nat)
    requires j < |files|
    ensures FileBytes(files[..j + 1]) == FileBytes(files[..j]) + files[j].size.GetOr(0)
  {
    assert files[..j + 1][..j] == files[..j];
  }

  /** One more directory of the walk adds its files. */
  lemma WalkSumStep(walk: seq<seq<FileInfo>>, i: nat, f: seq<FileInfo> -> nat)
    requires i < |walk|
    ensures WalkSum(walk[..i + 1], f) == WalkSum(walk[..i], f) + f(walk[i])
  {
    assert walk[..i + 1][..i] == walk[..i];
  }

  /** `get_directory_size`: the bytes of every file the walk reaches, a file whose
      size cannot be read counting 0; a missing directory walks nothing. */
  method GetDirectorySize(dir: Option<DirTree>) returns (total: nat)
    ensures total == if dir.Some? then TreeBytes(dir.value) else 0
  {
    var walk := if dir.Some? then Walk(dir.value) else [];
    total := 0;
    for i := 0 to |walk|
      invariant total == WalkSum(walk[..i], FileBytes)
    {
      var files := walk[i];
      ghost var before := total;
      for j := 0 to |files|
        invariant total == before + FileBytes(files[..j])
      {
        FileBytesStep(files, j);
        match files[j].size
        case Some(n) => total := total + n;
        case None =>
      }
      assert files[..|files|] == files;
      WalkSumStep(walk, i, FileBytes);
    }
    assert walk[..|walk|] == walk;
    if dir.Some? {
      WalkSumIsTreeSum(dir.value, FileBytes);
    }
  }

  /** `get_file_count`: the number of files over every directory of the walk. */
  method GetFileCount(dir: Option<DirTree>) returns (count: nat)
    ensures count == if dir.Some? then TreeFileCount(dir.value) else 0
  {
    var walk := if dir.Some? then Walk(dir.value) else [];
    count := 0;
    for i := 0 to |walk|
      invariant count == WalkSum(walk[..i], FileCount)
    {
      count := count + |walk[i]|;
      WalkSumStep(walk, i, FileCount);
    }
    assert walk[..|walk|] == walk;
    if dir.Some? {
      WalkSumIsTreeSum(dir.value, FileCount);
    }
  }

  // ---------------------------------------------------------------------------
  // format_size: choice of the unit
  // ---------------------------------------------------------------------------

  const SizeNames: seq<string> := ["B", "KB", "MB", "GB", "TB"]

  /** What `format_size` prints: `"0 B"` for zero, otherwise the size scaled down
      to its unit (the `"%.1f"` rendering of the amount is not modelled). */
  datatype SizeLabel = ZeroBytes | Scaled(amount: real, unit: string)

  function Pow1024(k: nat): (p: nat)
    ensures p >= 1
  {
    if k == 0 then 1 else 1024 * Pow1024(k - 1)
  }

  /** The unit `format_size` ends at for `n` bytes: divide by 1024 while the
      amount is at least 1024, at most four times. */
  function UnitIndex(n: nat): nat
  {
    if n < 1024 then 0 else var k := 1 + UnitIndex(n / 1024); if k > 4 then 4 else k
  }

  /** The unit index is the largest `k <= 4` with `1024^k <= n`: values under 1024
      stay in bytes and nothing goes beyond terabytes. */
  lemma {:induction false} UnitIndexBounds(n: nat)
    requires n > 0
    ensures UnitIndex(n) <= 4
    ensures Pow1024(UnitIndex(n)) <= n
    ensures UnitIndex(n) < 4 ==> n < Pow1024(UnitIndex(n) + 1)
    ensures n < 1024 <==> UnitIndex(n) == 0
  {
    if n >= 1024 {
      UnitIndexBounds(n / 1024);
      var k := UnitIndex(n / 1024);
      assert Pow1024(k + 1) == 1024 * Pow1024(k);
      if k + 1 <= 4 {
        assert Pow1024(k + 2) == 1024 * Pow1024(k + 1);
      } else {
        assert Pow1024(4) <= Pow1024(k + 1) by { PowMonotone(4, k + 1); }
      }
    }
  }

  lemma {:induction false} PowMonotone(i: nat, j: nat)
    requires i <= j
    ensures Pow1024(i) <= Pow1024(j)
    decreases j
  {
    if i < j {
      PowMonotone(i, j - 1);
    }
  }

  /** Two indices with the unit property are the same index. */
  lemma UnitIndexUnique(n: nat, k: nat)
    requires n > 0 && k <= 4
    requires Pow1024(k) <= n && (k < 4 ==> n < Pow1024(k + 1))
    ensures k == UnitIndex(n)
  {
    var u := UnitIndex(n);
    UnitIndexBounds(n);
    if k < u {
      PowMonotone(k + 1, u);
    } else if u < k {
      PowMonotone(u + 1, k);
    }
  }

  ghost function SizeLabelOf(n: nat): SizeLabel
  {
    if n == 0 then ZeroBytes
    else
      var k := UnitIndex(n);
      if k < |SizeNames| then Scaled(n as real / Pow1024(k) as real, SizeNames[k]) else ZeroBytes
  }

  /** Only an empty size is shown as `"0 B"`: every positive size has a unit. */
  lemma SizeLabelZero(n: nat)
    ensures SizeLabelOf(n) == ZeroBytes <==> n == 0
  {
    if n > 0 {
      UnitIndexBounds(n);
    }
  }

  /** `format_size`'s loop dividing by 1024 until the amount is below 1024 or the
      unit is TB. */
  method FormatSize(n: nat) returns (shown: SizeLabel)
    ensures shown == SizeLabelOf(n)
    ensures n == 0 <==> shown == ZeroBytes
  {
    if n == 0 {
      return ZeroBytes;
    }
    var index := 0;
    var size: real := n as real;
    while size >= 1024.0 && index < |SizeNames| - 1
      invariant 0 <= index <= 4
      invariant Pow1024(index) <= n
      invariant size * Pow1024(index) as real == n as real
    {
      ghost var p := Pow1024(index) as real;
      assert Pow1024(index + 1) as real == 1024.0 * p;
      MulLt(1024.0, size, p);
      ScaleDown(size, p);
      size := size / 1024.0;
      index := index + 1;
    }
    ScaledLabel(n, size, index);
    shown := Scaled(size, SizeNames[index]);
  }

  /** Where the loop stops, the amount and the unit are those of the label. */
  lemma ScaledLabel(n: nat, size: real, index: nat)
    requires n > 0 && index <= 4 && Pow1024(index) <= n
    requires size * Pow1024(index) as real == n as real
    requires size < 1024.0 || index == 4
    ensures SizeLabelOf(n) == Scaled(size, SizeNames[index])
  {
    var p := Pow1024(index) as real;
    Unscale(size, p, n as real);
    if index < 4 {
      MulLt(size, 1024.0, p);
      assert Pow1024(index + 1) as real == 1024.0 * p;
      assert n < Pow1024(index + 1);
    }
    UnitIndexUnique(n, index);
    assert SizeLabelOf(n) == Scaled(n as real / p, SizeNames[index]);
  }

  /** Dividing the amount by 1024 and multiplying the unit by 1024 keeps the product. */
  lemma ScaleDown(size: real, p: real)
    ensures (size / 1024.0) * (1024.0 * p) == size * p
  {
  }

  lemma Unscale(size: real, p: real, n: real)
    requires p > 0.0 && size * p == n
    ensures size == n / p
  {
  }

  lemma MulLt(a: real, b: real, p: real)
    requires p > 0.0 && a <= b
    ensures a * p <= b * p
    ensures a < b ==> a * p < b * p
  {
    assert (b - a) * p >= 0.0;
  }

  // ---------------------------------------------------------------------------
  // The packages root
  // ---------------------------------------------------------------------------

  /** What the package descriptor file holds: unreadable (opening it raises), not
      JSON, or a parsed JSON value. */
  datatype DescriptorFile = Unreadable | Malformed | Parsed(json: Json)

  /** A directory under the packages root: its tree, the descriptor file if the
      tree has one, and its creation time as `install_date` formats it. */
  datatype PackageDir = PackageDir(tree: DirTree, descriptor: Option<DescriptorFile>, created: string)

  /** An entry of the packages root: a plain file or a directory. */
  datatype Entry = PlainFile | Directory(dir: PackageDir)

  /** The filesystem state: whether the packages root exists, its entries by name,
      and the absolute paths of the files that exist outside it. */
  datatype Disk = Disk(rootExists: bool, entries: map<string, Entry>, external: set<string>)

  /** What makes an operation on the filesystem raise: creating the root is not
      permitted, removing some root entries or some outside files is not permitted. */
  datatype Permissions = Permissions(canCreateRoot: bool, pinned: set<string>, pinnedFiles: set<string>)

  predicate HasFile(files: seq<FileInfo>, name: string)
  {
    exists i :: 0 <= i < |files| && files[i].name == name
  }

  /** The descriptor is present exactly when the top directory holds its file. */
  ghost predicate WellFormedDir(d: PackageDir)
  {
    && (d.descriptor.Some? <==> HasFile(d.tree.files, DescriptorName))
    && (forall i :: 0 <= i < |d.tree.subdirs| ==> d.tree.subdirs[i].name != DescriptorName)
  }

  /** A name that `os.path.join(PACKAGES_DIR, name)` resolves to a child of the root. */
  predicate ChildName(name: string)
  {
    name != "" && name != "." && name != ".." && '/' !in name
  }

  ghost predicate ValidDisk(d: Disk)
  {
    && (!d.rootExists ==> d.entries == map[])
    && (forall n | n in d.entries :: ChildName(n))
    && (forall n | n in d.entries && d.entries[n].Directory? :: WellFormedDir(d.entries[n].dir))
  }

  /** A root entry that is a directory, as `os.path.isdir` sees it. */
  predicate IsDirectory(d: Disk, name: string)
  {
    name in d.entries && d.entries[name].Directory?
  }

  /** Where a path points, as the package manager forms its paths. */
  datatype Location =
    | RootDir                              // PACKAGES_DIR
    | Child(name: string)                  // PACKAGES_DIR/name
    | InChild(name: string, item: string)  // PACKAGES_DIR/name/item
    | Elsewhere(path: string)              // an absolute path outside the root

  /** The parent of the packages root, `/opt`. */
  const ParentDir := "/opt"

  /** Where `os.path.join(PACKAGES_DIR, name)` points once resolved, for a name
      without `/`: the root itself for an empty name or `.`, its parent for `..`,
      otherwise the child of that name. */
  function JoinRoot(name: string): (loc: Location)
    requires '/' !in name
    ensures ChildName(name) <==> loc.Child?
    ensures loc.Child? ==> loc.name == name
    ensures name == "" || name == "." <==> loc.RootDir?
    ensures name == ".." <==> loc == Elsewhere(ParentDir)
  {
    if name == "" || name == "." then RootDir
    else if name == ".." then Elsewhere(ParentDir)
    else Child(name)
  }

  datatype NodeKind = Missing | RegularFile | Folder

  function KindAt(d: Disk, loc: Location): NodeKind
  {
    match loc
    case RootDir => if d.rootExists then Folder else Missing
    case Child(n) =>
      if n !in d.entries then Missing
      else if d.entries[n].PlainFile? then RegularFile else Folder
    case InChild(n, item) =>
      if !IsDirectory(d, n) then Missing
      else if HasFile(d.entries[n].dir.tree.files, item) then RegularFile
      else if exists i :: 0 <= i < |d.entries[n].dir.tree.subdirs| && d.entries[n].dir.tree.subdirs[i].name == item
      then Folder
      else Missing
    case Elsewhere(p) => if p in d.external then RegularFile else Missing
  }

  /** `file_exists`: the path exists and is a regular file. */
  predicate FileExists(d: Disk, loc: Location)
  {
    KindAt(d, loc) == RegularFile
  }

  /** `directory_exists`: the path exists and is a directory. */
  predicate DirectoryExists(d: Disk, loc: Location)
  {
    KindAt(d, loc) == Folder
  }

  /** `os.path.exists`. */
  predicate PathExists(d: Disk, loc: Location)
  {
    KindAt(d, loc) != Missing
  }

  /** No path is both a file and a directory, and either one exists. */
  lemma FileAndDirectoryExclusive(d: Disk, loc: Location)
    ensures !(FileExists(d, loc) && DirectoryExists(d, loc))
    ensures PathExists(d, loc) <==> FileExists(d, loc) || DirectoryExists(d, loc)
  {
  }

  /** `safe_create_directory(PACKAGES_DIR)`: `os.makedirs(..., exist_ok=True)`.
      An existing root is left as it is and reported created. */
  function CreateRoot(d: Disk, perms: Permissions): (r: (Disk, bool))
    ensures d.rootExists ==> r == (d, true)
    ensures r.1 <==> d.rootExists || perms.canCreateRoot
    ensures r.1 ==> r.0 == d.(rootExists := true)
    ensures !r.1 ==> r.0 == d
  {
    if d.rootExists then (d, true)
    else if perms.canCreateRoot then (d.(rootExists := true), true)
    else (d, false)
  }

  /** `safe_remove_directory(PACKAGES_DIR/name)`: `shutil.rmtree` when the path exists.
      True only if the path existed and is gone afterwards; an absent path, a
      plain file (rmtree raises on it) or a pinned entry gives false and no change. */
  function RemoveDirectory(d: Disk, perms: Permissions, name: string): (r: (Disk, bool))
    ensures r.1 <==> IsDirectory(d, name) && name !in perms.pinned
    ensures r.1 ==> name in d.entries && r.0 == d.(entries := d.entries - {name})
    ensures !r.1 ==> r.0 == d
  {
    if name in d.entries && d.entries[name].Directory? && name !in perms.pinned
    then (d.(entries := d.entries - {name}), true)
    else (d, false)
  }

  /** `os.remove(path)` on a path outside the root: false when it raises. */
  function RemoveFile(d: Disk, perms: Permissions, path: string): (r: (Disk, bool))
    ensures r.1 <==> path in d.external && path !in perms.pinnedFiles
    ensures r.1 ==> r.0 == d.(external := d.external - {path})
    ensures !r.1 ==> r.0 == d
  {
    if path in d.external && path !in perms.pinnedFiles
    then (d.(external := d.external - {path}), true)
    else (d, false)
  }

  /** The mutable filesystem. */
  class Volume {
    var rootExists: bool
    var entries: map<string, Entry>
    var external: set<string>
    const perms: Permissions

    function State(): Disk
      reads this
    {
      Disk(rootExists, entries, external)
    }

    ghost predicate Valid()
      reads this
    {
      ValidDisk(State())
    }

    method SafeCreateDirectory() returns (ok: bool)
      requires Valid()
      modifies this
      ensures Valid()
      ensures (State(), ok) == CreateRoot(old(State()), perms)
    {
      if !rootExists && perms.canCreateRoot {
        rootExists := true;
      }
      ok := rootExists;
    }

    method SafeRemoveDirectory(name: string) returns (removed: bool)
      requires Valid()
      modifies this
      ensures Valid()
      ensures (State(), removed) == RemoveDirectory(old(State()), perms, name)
    {
      removed := false;
      if name in entries && name !in perms.pinned {
        if entries[name].Directory? {
          entries := entries - {name};
          removed := true;
        }
      }
    }

    /** `os.remove(path)` for a path outside the root. */
    method Remove(path: string) returns (removed: bool)
      requires Valid()
      modifies this
      ensures Valid()
      ensures (State(), removed) == RemoveFile(old(State()), perms, path)
    {
      removed := path in external && path !in perms.pinnedFiles;
      if removed {
        external := external - {path};
      }
    }

    /** The directory `git clone` leaves at `PACKAGES_DIR/name`. */
    method PlaceClone(name: string, dir: PackageDir)
      requires Valid() && rootExists && ChildName(name) && WellFormedDir(dir)
      modifies this
      ensures Valid()
      ensures State() == old(State()).(entries := old(entries)[name := Directory(dir)])
    {
      entries := entries[name := Directory(dir)];
    }
  }
}
