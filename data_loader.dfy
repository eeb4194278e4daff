/**
 * `load_data`: choose a reader by the file name's extension.
 *
 * The function rejects an argument that is not a string or names no existing
 * path, takes the extension with `os.path.splitext`, lowercases it, and
 * dispatches on a closed table: `.csv` to the CSV reader, `.nc` and `.nc4` to
 * the netCDF reader, `.h5` and `.hdf5` to the HDF5 reader. Every failure (no
 * such path, an unsupported extension, a reader that raises) returns None.
 *
 * The file system and the readers are not modelled: whether the path exists
 * is an input, and the readers are an oracle that, given the format chosen,
 * returns the dataset or None when the reader raises.
 */
module DataLoader {
  import opened Options
  import opened Ascii

  /** The three readers `load_data` can call. */
  datatype Format = Csv | NetCdf | Hdf5

  /** The argument `filepath`: a string, or any other Python object. */
  datatype PathArg = Str(path: string) | NotStr

  /** Why a load ended the way it did; `load_data` reports every failure as None. */
  datatype Outcome<D> =
    | NotFound
    | Unsupported(extension: string)
    | ReadFailed(format: Format)
    | Loaded(format: Format, data: D)

  /** `p.rfind(c)`: the position of the last c in p, or -1 when there is none. */
  function RFind(p: string, c: char): (r: int)
    ensures -1 <= r < |p|
    ensures r >= 0 ==> p[r] == c
    ensures forall k :: r < k < |p| ==> p[k] != c
  {
    if p == [] then -1
    else if p[|p| - 1] == c then |p| - 1
    else RFind(p[..|p| - 1], c)
  }

  /**
   * `os.path.splitext(p)` on POSIX (separator `/`, extension separator `.`):
   * the extension starts at the last dot when that dot lies in the final path
   * component and some character other than a dot precedes it in that
   * component (leading dots of a file name do not start an extension).
   */
  function SplitExt(p: string): (string, string) {
    var sepIndex := RFind(p, '/');
    var dotIndex := RFind(p, '.');
    if dotIndex > sepIndex && exists k :: sepIndex < k < dotIndex && p[k] != '.' then
      (p[..dotIndex], p[dotIndex..])
    else
      (p, "")
  }

  /** The extension part of `os.path.splitext(p)`. */
  function Extension(p: string): string {
    SplitExt(p).1
  }

  /** The reader chosen for a lowercased extension, or None for an unsupported one. */
  function FormatOf(ext: string): Option<Format> {
    if ext == ".csv" then Some(Csv)
    else if ext == ".nc" || ext == ".nc4" then Some(NetCdf)
    else if ext == ".h5" || ext == ".hdf5" then Some(Hdf5)
    else None
  }

  /** The reader `load_data` picks for a path: by its extension, lowercased. */
  function SelectFormat(p: string): Option<Format> {
    FormatOf(LowerText(Extension(p)))
  }

  /**
   * `load_data(filepath)` with its reason: the path guard first, then the
   * extension, then the chosen reader.
   */
  function Load<D>(arg: PathArg, pathExists: bool, read: Format -> Option<D>): (r: Outcome<D>)
    ensures r.NotFound? <==> !arg.Str? || !pathExists
    ensures r.Unsupported? <==> arg.Str? && pathExists && SelectFormat(arg.path) == None
    ensures r.Unsupported? ==> r.extension == LowerText(Extension(arg.path))
    ensures (r.ReadFailed? || r.Loaded?) ==> arg.Str? && pathExists && SelectFormat(arg.path) == Some(r.format)
    ensures r.ReadFailed? ==> read(r.format) == None
    ensures r.Loaded? ==> read(r.format) == Some(r.data)
  {
    if !arg.Str? || !pathExists then NotFound
    else
      var ext := LowerText(Extension(arg.path));
      match FormatOf(ext)
      case None => Unsupported(ext)
      case Some(f) =>
        match read(f)
        case None => ReadFailed(f)
        case Some(d) => Loaded(f, d)
  }

  /** `load_data(filepath)`: the dataset, or None on every failure. */
  function LoadData<D>(arg: PathArg, pathExists: bool, read: Format -> Option<D>): (r: Option<D>)
    ensures r.Some? <==> Load(arg, pathExists, read).Loaded?
    ensures r.Some? ==> r.value == Load(arg, pathExists, read).data
  {
    match Load(arg, pathExists, read)
    case Loaded(_, d) => Some(d)
    case _ => None
  }

  /** No `/` occurs in p from position j on: p[j..] lies within the final path component. */
  ghost predicate InFinalComponent(p: string, j: nat) {
    forall k :: j <= k < |p| ==> p[k] != '/'
  }

  /**
   * `os.path.splitext` splits p into a root and an extension that concatenate
   * to p; the extension is empty or is a dot followed by characters that are
   * neither dots nor separators.
   */
  lemma SplitExtParts(p: string)
    ensures SplitExt(p).0 + SplitExt(p).1 == p
    ensures var ext := SplitExt(p).1;
      ext == [] || (ext[0] == '.' && forall k :: 1 <= k < |ext| ==> ext[k] != '.' && ext[k] != '/')
  {
    var dotIndex := RFind(p, '.');
    if SplitExt(p).1 != [] {
      assert p[..dotIndex] + p[dotIndex..] == p;
      assert forall k :: 1 <= k < |p[dotIndex..]| ==> p[dotIndex..][k] == p[dotIndex + k];
    }
  }

  /**
   * The extension is non-empty exactly when the final path component has a
   * dot preceded, somewhere in that component, by a character that is not a
   * dot. So a file name whose only dots are leading ones (`.csv`) has no
   * extension, and neither has a name without dots.
   */
  lemma ExtensionNonEmptyIff(p: string)
    ensures Extension(p) != [] <==>
      exists i, j :: 0 <= j < i < |p| && p[i] == '.' && p[j] != '.' && InFinalComponent(p, j)
  {
    var sepIndex, dotIndex := RFind(p, '/'), RFind(p, '.');
    if Extension(p) != [] {
      var k :| sepIndex < k < dotIndex && p[k] != '.';
      assert InFinalComponent(p, k);
    }
    if i, j :| 0 <= j < i < |p| && p[i] == '.' && p[j] != '.' && InFinalComponent(p, j) {
      assert i <= dotIndex;
      assert sepIndex < j;
    }
  }

  /** `/` and `.` are not letters, so lowercasing moves neither. */
  lemma {:induction false} RFindIgnoresCase(p: string, c: char)
    requires !IsUpper(c) && !IsLower(c)
    ensures RFind(LowerText(p), c) == RFind(p, c)
  {
    if p != [] {
      LowerTextSlice(p, 0, |p| - 1);
      RFindIgnoresCase(p[..|p| - 1], c);
    }
  }

  /** The extension of the lowercased path is the lowercased extension. */
  lemma ExtensionIgnoresCase(p: string)
    ensures Extension(LowerText(p)) == LowerText(Extension(p))
  {
    RFindIgnoresCase(p, '/');
    RFindIgnoresCase(p, '.');
    var dotIndex := RFind(p, '.');
    if dotIndex >= 0 {
      LowerTextSlice(p, dotIndex, |p|);
    }
  }

  /**
   * Extension matching ignores case: two paths that differ only in the case
   * of their letters select the same reader (`.CSV` and `.Nc4` dispatch as
   * `.csv` and `.nc4` do).
   */
  lemma SelectFormatIgnoresCase(p: string, q: string)
    requires |p| == |q|
    requires forall i :: 0 <= i < |p| ==> Lower(p[i]) == Lower(q[i])
    ensures SelectFormat(p) == SelectFormat(q)
  {
    ExtensionIgnoresCase(p);
    ExtensionIgnoresCase(q);
    LowerTextIdempotent(Extension(p));
    LowerTextIdempotent(Extension(q));
    assert LowerText(p) == LowerText(q);
  }

  /**
   * The dispatch table: `.csv` selects the CSV reader, `.nc` and `.nc4` the
   * netCDF reader, `.h5` and `.hdf5` the HDF5 reader, and every other
   * extension, the empty one included, selects none.
   */
  lemma DispatchTable(ext: string)
    ensures FormatOf(ext) == Some(Csv) <==> ext == ".csv"
    ensures FormatOf(ext) == Some(NetCdf) <==> ext in {".nc", ".nc4"}
    ensures FormatOf(ext) == Some(Hdf5) <==> ext in {".h5", ".hdf5"}
    ensures FormatOf(ext) == None <==> ext !in {".csv", ".nc", ".nc4", ".h5", ".hdf5"}
  {
  }

  /**
   * A missing path, or an argument that is not a string, gives None before
   * any reader is chosen: the result does not depend on the readers.
   */
  lemma MissingPathGivesNone<D>(arg: PathArg, pathExists: bool, read: Format -> Option<D>, other: Format -> Option<D>)
    requires !arg.Str? || !pathExists
    ensures LoadData(arg, pathExists, read) == None
    ensures Load(arg, pathExists, read) == Load(arg, pathExists, other) == NotFound
  {
  }

  /**
   * An existing path with an unsupported extension gives None without
   * calling a reader.
   */
  lemma UnsupportedGivesNone<D>(path: string, read: Format -> Option<D>, other: Format -> Option<D>)
    requires SelectFormat(path) == None
    ensures LoadData(Str(path), true, read) == None
    ensures Load(Str(path), true, read) == Load(Str(path), true, other)
  {
  }

  /**
   * A reader that raises never lets the exception escape: the result is None.
   * A reader that succeeds has its dataset returned unchanged.
   */
  lemma ReaderOutcomeIsReturned<D>(path: string, read: Format -> Option<D>)
    requires SelectFormat(path).Some?
    ensures LoadData(Str(path), true, read) == read(SelectFormat(path).value)
  {
  }
}
