/**
 * Labels, the file descriptor `LabelFile`, the sorting settings
 * `LabelerSetting` and the target-path resolver (LabelSystem.cs).
 */
module LabelSystem {
  import opened Wrappers
  import opened Strings
  import opened Paths

  /**
   * A named tag. The class does not override `Equals`, so list operations
   * such as `Contains` and `Remove` compare labels as objects; only the
   * label pools compare them by `Name`.
   */
  class Label {
    const Name: string

    constructor (name: string)
      ensures Name == name
    {
      Name := name;
    }
  }

  /** The names of a list of labels, in list order. */
  function Names(labels: seq<Label>): (r: seq<string>)
    ensures |r| == |labels|
    ensures forall i :: 0 <= i < |labels| ==> r[i] == labels[i].Name
  {
    seq(|labels|, i requires 0 <= i < |labels| => labels[i].Name)
  }

  datatype FileType = Unsupported | Archive | Audio | Image | Video | Text
  datatype LabelFilesOptions = Subfolder | Rename
  datatype OperationType = Copy | Move
  datatype AutomationType = Manual | AutomateByDuration | AutomateByImageSize | AutomateByFileType | AutomateByFileSize

  // ---------------------------------------------------------------------
  // File types
  // ---------------------------------------------------------------------

  const AudioExtensions: set<string> := {
    ".mp1", ".mp2", ".mp3", ".aac", ".ogg", ".ac3", ".eac3", ".dts", ".wma", ".flac", ".m4a",
    ".spx", ".mpc", ".aa3", ".wv", ".mod", ".tta", ".ape", ".ra", ".alaw", ".ulaw", ".amr",
    ".mid", ".pcm", ".adpcm", ".qcelp", ".dvf", ".qdm" }
  const ArchiveExtensions: set<string> := { ".zip", ".bz2", ".gz", ".tgz", ".tar.gz" }
  const VideoExtensions: set<string> := {
    ".mpg", ".mpeg", ".avi", ".divx", ".mkv", ".mp4", ".flv", ".xvid", ".3ivx", ".d4", ".h261",
    ".h263", ".h264", ".ogv", ".mjpeg", ".wmv", ".asf", ".dv", ".rm", ".rv" }
  const TextExtensions: set<string> := {
    ".txt", ".md", ".xml", ".js", ".html", ".css", ".py", ".php", ".sh", ".bat", ".sql", ".json",
    ".java", ".c", ".h", ".cpp", ".cs", ".go", ".r", ".ui", ".glade", ".axaml", ".axaml.cs",
    ".xaml", ".xaml.cs" }
  const ImageExtensions: set<string> := { ".png", ".jpg", ".jpeg", ".gif", ".bmp", ".tiff" }

  /** Every extension some category of the type table lists. */
  const KnownExtensions: set<string> := set i, x | 0 <= i < |TypeTable| && x in TypeTable[i].1 :: x

  /** The categories in the order the type switch tests them. */
  const TypeTable: seq<(FileType, set<string>)> := [
    (Audio, AudioExtensions), (Archive, ArchiveExtensions), (Video, VideoExtensions),
    (Text, TextExtensions), (Image, ImageExtensions)]

  /** The first category of the table listing `e`; `Unsupported` when none does. */
  function Classify(e: string, table: seq<(FileType, set<string>)>): FileType
    decreases |table|
  {
    if table == [] then Unsupported
    else if e in table[0].1 then table[0].0
    else Classify(e, table[1..])
  }

  /** `LabelFile.Type`: the lower-cased extension looked up in the fixed table. */
  function TypeOfExtension(ext: string): FileType
  {
    Classify(ToLowerInvariant(ext), TypeTable)
  }

  /** `LabelFile.FileExtension`: the file name with its extension-less prefix removed. */
  function FileExtensionOf(path: string): string
  {
    GetFileName(path)[|GetFileNameWithoutExtension(path)|..]
  }

  /** The name without extension followed by the extension is the file name of the path. */
  lemma FileNameSplits(path: string)
    ensures GetFileNameWithoutExtension(path) + FileExtensionOf(path) == GetFileName(path)
  {
  }

  /** The extension is empty or starts at the last '.' of the file name, so it holds exactly one '.'. */
  lemma ExtensionShape(path: string)
    ensures var ext := FileExtensionOf(path);
      ext == "" || (ext[0] == '.' && '.' !in ext[1..])
  {
    var name := GetFileName(path);
    var dot := LastIndexOf(name, '.');
    if dot >= 0 {
      assert FileExtensionOf(path) == name[dot..];
      assert forall i :: 0 <= i < |name[dot..]| - 1 ==> name[dot..][1..][i] == name[dot + 1 + i];
    }
  }

  /** The table entries with two dots can never be the extension of a path. */
  lemma MultiDotEntriesNeverMatch(path: string)
    ensures ToLowerInvariant(FileExtensionOf(path)) !in {".tar.gz", ".axaml.cs", ".xaml.cs"}
  {
    var ext := FileExtensionOf(path);
    var e := ToLowerInvariant(ext);
    ExtensionShape(path);
    assert forall i :: 1 <= i < |e| ==> e[i] != '.' by {
      forall i | 1 <= i < |e| ensures e[i] != '.' {
        assert ext[i] == ext[1..][i - 1];
      }
    }
    assert ".tar.gz"[4] == '.' && ".axaml.cs"[6] == '.' && ".xaml.cs"[5] == '.';
  }

  /**
   * The type depends on the extension only up to ASCII letter case: ".MP3"
   * is audio because ".mp3" is listed.
   */
  lemma TypeIgnoresCase(a: string, b: string)
    requires ToLowerInvariant(a) == ToLowerInvariant(b)
    ensures TypeOfExtension(a) == TypeOfExtension(b)
  {
  }

  /** Over a table without an `Unsupported` row, the lookup fails exactly when no row lists the key. */
  lemma {:induction false} ClassifyFails(e: string, table: seq<(FileType, set<string>)>)
    requires forall i :: 0 <= i < |table| ==> table[i].0 != Unsupported
    ensures Classify(e, table) == Unsupported <==> forall i :: 0 <= i < |table| ==> e !in table[i].1
    decreases |table|
  {
    if table != [] {
      ClassifyFails(e, table[1..]);
      assert forall i :: 1 <= i < |table| ==> table[i] == table[1..][i - 1];
    }
  }

  /** A file is `Unsupported` exactly when its lower-cased extension is not in the table. */
  lemma UnsupportedIffUnlisted(ext: string)
    ensures TypeOfExtension(ext) == Unsupported <==> ToLowerInvariant(ext) !in KnownExtensions
  {
    var e := ToLowerInvariant(ext);
    ClassifyFails(e, TypeTable);
  }

  // ---------------------------------------------------------------------
  // Target paths
  // ---------------------------------------------------------------------

  /** The label names, each followed by `suffix`, concatenated in order (the `foreach` in `TargetFile`). */
  function JoinEach(names: seq<string>, suffix: string): string
  {
    if names == [] then "" else JoinEach(names[..|names| - 1], suffix) + names[|names| - 1] + suffix
  }

  /** The settings `TargetFile` reads. */
  datatype Placement = Placement(
    labelFilesBy: LabelFilesOptions,
    allowRecursiveSubfolders: bool,
    inputFolder: string,
    outputFolder: string,
    sortInInputFolder: bool,
    renameFilesWith: string)
  {
    /** The `OutputFolder` getter: the input folder while sorting in place, the stored folder otherwise. */
    function OutputFolder(): string
    {
      if sortInInputFolder then inputFolder else outputFolder
    }
  }

  /** The file name a rename template produces, placeholders substituted in the source's order. */
  function RenamedFileName(template: string, labels: seq<string>, id: int, path: string): string
  {
    Replace(Replace(Replace(template, "%label%", JoinEach(labels, " ")), "%id%", IntToString(id)),
      "%name%", GetFileNameWithoutExtension(path))
    + FileExtensionOf(path)
  }

  /**
   * The path `TargetFile` computes for a file with the given label names,
   * original path and index; `None` where it throws (reading `Labels[0]`
   * of an empty list in subfolder mode).
   */
  function TargetPath(p: Placement, labels: seq<string>, path: string, id: int): Option<string>
  {
    if p.labelFilesBy == Subfolder then
      if labels == [] then None
      else
        var segment := if p.allowRecursiveSubfolders then JoinEach(labels, [PathListSeparator]) else labels[0];
        var base := if p.sortInInputFolder then p.inputFolder else p.OutputFolder();
        Some(Combine([base, segment, GetFileNameWithoutExtension(path) + FileExtensionOf(path)]))
    else
      Some(Combine([p.OutputFolder(), RenamedFileName(p.renameFilesWith, labels, id, path)]))
  }

  /** `TargetFile` fails exactly in subfolder mode on a file with no label, whether or not recursion is allowed. */
  lemma TargetFailsIffNoLabel(p: Placement, labels: seq<string>, path: string, id: int)
    ensures TargetPath(p, labels, path, id).None? <==> (p.labelFilesBy == Subfolder && labels == [])
  {
  }

  /** In subfolder mode the base folder is always the `OutputFolder` getter's value. */
  lemma SubfolderBaseIsOutputFolder(p: Placement, labels: seq<string>, path: string, id: int)
    requires p.labelFilesBy == Subfolder && labels != []
    ensures TargetPath(p, labels, path, id)
      == Some(Combine([p.OutputFolder(), if p.allowRecursiveSubfolders then JoinEach(labels, [PathListSeparator]) else labels[0],
                       GetFileName(path)]))
  {
    FileNameSplits(path);
  }

  /** Without recursion only the first label decides the target. */
  lemma SubfolderFirstLabelOnly(p: Placement, a: seq<string>, b: seq<string>, path: string, id: int)
    requires p.labelFilesBy == Subfolder && !p.allowRecursiveSubfolders
    requires a != [] && b != [] && a[0] == b[0]
    ensures TargetPath(p, a, path, id) == TargetPath(p, b, path, id)
  {
  }

  /** A name that can stand as one path segment: non-empty and free of directory separators. */
  predicate PlainName(s: string)
  {
    s != "" && DirectorySeparator !in s
  }

  /**
   * Subfolder mode without recursion: the target's file name is the
   * original file name and its parent directory is named after the first
   * label, inside the output folder. The folder must be non-empty and not
   * end in '/': the default setting (an empty input folder, sorting in
   * place) and the root folder "/" are covered by `SubfolderLayoutAtRoot`.
   */
  lemma SubfolderLayout(p: Placement, labels: seq<string>, path: string, id: int)
    requires p.labelFilesBy == Subfolder && !p.allowRecursiveSubfolders
    requires labels != [] && PlainName(labels[0])
    requires p.OutputFolder() != "" && p.OutputFolder()[|p.OutputFolder()| - 1] != DirectorySeparator
    requires GetFileName(path) != ""
    ensures TargetPath(p, labels, path, id).Some?
    ensures var t := TargetPath(p, labels, path, id).value;
      GetFileName(t) == GetFileName(path)
      && GetFileName(DirectoryPart(t)) == labels[0]
      && DirectoryPart(DirectoryPart(t)) == p.OutputFolder()
  {
    var base := p.OutputFolder();
    FileNameSplits(path);
    CombineTriple(base, labels[0], GetFileName(path));
    CombineNameLast(base, labels[0]);
    CombineNameLast(Combine2(base, labels[0]), GetFileName(path));
  }

  /**
   * Subfolder mode without recursion under an empty output folder (as in
   * the default setting, where the input folder is "" and sorting in place
   * is on) or one ending in '/' (such as the root "/"): the label folder is
   * appended to the folder as it is, so an empty folder gives the RELATIVE
   * target "label/name".
   */
  lemma SubfolderLayoutAtRoot(p: Placement, labels: seq<string>, path: string, id: int)
    requires p.labelFilesBy == Subfolder && !p.allowRecursiveSubfolders
    requires labels != [] && PlainName(labels[0])
    requires p.OutputFolder() == "" || p.OutputFolder()[|p.OutputFolder()| - 1] == DirectorySeparator
    requires GetFileName(path) != ""
    ensures TargetPath(p, labels, path, id) == Some(p.OutputFolder() + labels[0] + [DirectorySeparator] + GetFileName(path))
  {
    var base := p.OutputFolder();
    SubfolderBaseIsOutputFolder(p, labels, path, id);
    CombineTriple(base, labels[0], GetFileName(path));
    assert Combine2(base, labels[0]) == base + labels[0];
  }

  /** Names free of directory separators stay free of them when joined with the PATH-list separator. */
  lemma {:induction false} JoinEachPlain(names: seq<string>, suffix: string)
    requires forall i :: 0 <= i < |names| ==> DirectorySeparator !in names[i]
    requires DirectorySeparator !in suffix
    ensures DirectorySeparator !in JoinEach(names, suffix)
  {
    if names != [] {
      JoinEachPlain(names[..|names| - 1], suffix);
    }
  }

  /**
   * Subfolder mode with recursion: all label names, each followed by the
   * PATH-list separator, form ONE directory segment (for ["a", "b"] the
   * segment "a:b:"), not one nested folder per label. As in
   * `SubfolderLayout`, the output folder is assumed non-empty and without a
   * trailing '/', which leaves out the default setting's empty folder.
   */
  lemma RecursiveSubfolderIsOneSegment(p: Placement, labels: seq<string>, path: string, id: int)
    requires p.labelFilesBy == Subfolder && p.allowRecursiveSubfolders && labels != []
    requires forall i :: 0 <= i < |labels| ==> DirectorySeparator !in labels[i]
    requires p.OutputFolder() != "" && p.OutputFolder()[|p.OutputFolder()| - 1] != DirectorySeparator
    requires GetFileName(path) != ""
    ensures TargetPath(p, labels, path, id).Some?
    ensures var t := TargetPath(p, labels, path, id).value;
      GetFileName(t) == GetFileName(path)
      && GetFileName(DirectoryPart(t)) == JoinEach(labels, [PathListSeparator])
      && DirectoryPart(DirectoryPart(t)) == p.OutputFolder()
  {
    var base := p.OutputFolder();
    var segment := JoinEach(labels, [PathListSeparator]);
    var name := GetFileName(path);
    SubfolderBaseIsOutputFolder(p, labels, path, id);
    JoinEachPlain(labels, [PathListSeparator]);
    assert segment != "" && segment[|segment| - 1] == PathListSeparator by {
      assert segment == JoinEach(labels[..|labels| - 1], [PathListSeparator]) + labels[|labels| - 1] + [PathListSeparator];
    }
    CombineTriple(base, segment, name);
    var mid := Combine2(base, segment);
    CombineNameLast(base, segment);
    assert mid == base + [DirectorySeparator] + segment;
    assert mid[|mid| - 1] == PathListSeparator;
    CombineNameLast(mid, name);
  }

  /**
   * Rename mode: the target is the renamed file directly inside the
   * `OutputFolder` getter's value, which is the INPUT folder whenever
   * sorting in place is set. The folder is assumed non-empty and without a
   * trailing '/', so the default setting's empty input folder (where the
   * target is the bare renamed file name) and the root "/" are left out.
   */
  lemma RenameLayout(p: Placement, labels: seq<string>, path: string, id: int)
    requires p.labelFilesBy == Rename
    requires p.OutputFolder() != "" && p.OutputFolder()[|p.OutputFolder()| - 1] != DirectorySeparator
    requires PlainName(RenamedFileName(p.renameFilesWith, labels, id, path))
    ensures TargetPath(p, labels, path, id).Some?
    ensures var t := TargetPath(p, labels, path, id).value;
      GetFileName(t) == RenamedFileName(p.renameFilesWith, labels, id, path)
      && DirectoryPart(t) == (if p.sortInInputFolder then p.inputFolder else p.outputFolder)
  {
    var name := RenamedFileName(p.renameFilesWith, labels, id, path);
    CombinePair(p.OutputFolder(), name);
    CombineNameLast(p.OutputFolder(), name);
  }

  /** A template without placeholders renames every file to the template followed by its extension. */
  lemma TemplateWithoutPlaceholders(template: string, labels: seq<string>, id: int, path: string)
    requires !Contains(template, "%label%") && !Contains(template, "%id%") && !Contains(template, "%name%")
    ensures RenamedFileName(template, labels, id, path) == template + FileExtensionOf(path)
  {
    ReplaceAbsent(template, "%label%", JoinEach(labels, " "));
    ReplaceAbsent(template, "%id%", IntToString(id));
    ReplaceAbsent(template, "%name%", GetFileNameWithoutExtension(path));
  }

  // ---------------------------------------------------------------------
  // LabelFile
  // ---------------------------------------------------------------------

  /** The loop of `TargetFile` that concatenates each label's name followed by `suffix`. */
  method ConcatNames(labels: seq<Label>, suffix: string) returns (s: string)
    ensures s == JoinEach(Names(labels), suffix)
  {
    s := "";
    for i := 0 to |labels|
      invariant s == JoinEach(Names(labels[..i]), suffix)
    {
      assert Names(labels[..i + 1])[..i] == Names(labels[..i]);
      s := s + labels[i].Name + suffix;
    }
    assert labels[..|labels|] == labels;
  }

  /** One discovered file. */
  class LabelFile {
    /** Original location of the file; only the object initializer in `GetFiles` sets it. */
    const OriginalPath: string
    /** Index of the file in the scan; only the object initializer in `GetFiles` sets it. */
    const ID: int
    /** Labels in the order they were given. */
    var Labels: seq<Label>
    /** The cached or user-chosen destination; `None` is C#'s null. */
    var FinalTargetFile: Option<string>
    /** `new LabelFile { OriginalPath = path, ID = id }`. */
    constructor (path: string, id: int)
      ensures OriginalPath == path && ID == id
      ensures Type == TypeOfExtension(FileExtensionOf(path))
      ensures Labels == [] && FinalTargetFile == None
    {
      OriginalPath, ID := path, id;
      Type := TypeOfExtension(FileExtensionOf(path));
      Labels, FinalTargetFile := [], None;
    }

    /** `FileExtension`. */
    function FileExtension(): string
    {
      FileExtensionOf(OriginalPath)
    }

    /**
     * `Type`: the category of the extension. The source recomputes it on
     * every read; as `OriginalPath` never changes, it is computed once here.
     */
    const Type: FileType

    /**
     * `OriginalFileName`: the file name without directory and extension. The
     * source memoizes it in a private field; as the path never changes, the
     * memo is not observable and is not modelled.
     */
    function OriginalFileName(): string
    {
      GetFileNameWithoutExtension(OriginalPath)
    }

    /**
     * `TargetFile(setting)`: computes the destination, stores it in
     * `FinalTargetFile` and returns it; `None` where the source throws.
     */
    method TargetFile(setting: LabelerSetting) returns (r: Option<string>)
      modifies this`FinalTargetFile
      ensures r == TargetPath(setting.GetPlacement(), Names(Labels), OriginalPath, ID)
      ensures FinalTargetFile == if r.Some? then r else old(FinalTargetFile)
    {
      if setting.LabelFilesBy == Subfolder {
        if |Labels| == 0 {
          // Labels[0] throws ArgumentOutOfRangeException before anything is stored.
          return None;
        }
        var labels := Labels[0].Name;
        if setting.AllowRecursiveSubfolders {
          labels := ConcatNames(Labels, [PathListSeparator]);
        }
        var name := OriginalFileName();
        var target := Combine([if setting.SortInInputFolder then setting.InputFolder else setting.OutputFolder(),
                               labels, name + FileExtension()]);
        FinalTargetFile := Some(target);
        r := Some(target);
      } else {
        var labels := ConcatNames(Labels, " ");
        var name := OriginalFileName();
        var target := Combine([setting.OutputFolder(),
                               Replace(Replace(Replace(setting.RenameFilesWith, "%label%", labels), "%id%", IntToString(ID)),
                                       "%name%", name) + FileExtension()]);
        FinalTargetFile := Some(target);
        r := Some(target);
      }
    }
  }

  /** No file object occurs twice. */
  predicate Distinct(files: seq<LabelFile>)
  {
    forall i, j :: 0 <= i < j < |files| ==> files[i] != files[j]
  }

  // ---------------------------------------------------------------------
  // LabelerSetting
  // ---------------------------------------------------------------------

  /**
   * Directory enumeration: (folder, glob, search subfolders) to the paths
   * found, in enumeration order; `None` when enumeration throws (missing
   * or unreadable folder).
   */
  type Enumerator = (string, string, bool) -> Option<seq<string>>

  /** Concatenation of two enumeration results that both succeeded. */
  function Append(a: Option<seq<string>>, b: Option<seq<string>>): Option<seq<string>>
  {
    if a.Some? && b.Some? then Some(a.value + b.value) else None
  }

  /** `FilterFiles`: one enumeration per extension (glob "*.ext"), concatenated in filter order. */
  function FilterPaths(path: string, exts: seq<string>, recursive: bool, enumerate: Enumerator): Option<seq<string>>
  {
    if exts == [] then Some([])
    else Append(enumerate(path, "*." + exts[0], recursive), FilterPaths(path, exts[1..], recursive, enumerate))
  }

  /** Filtering by a list of extensions gives the results for its parts, one after the other. */
  lemma {:induction false} FilterPathsConcat(path: string, a: seq<string>, b: seq<string>, recursive: bool, enumerate: Enumerator)
    ensures FilterPaths(path, a + b, recursive, enumerate)
         == Append(FilterPaths(path, a, recursive, enumerate), FilterPaths(path, b, recursive, enumerate))
  {
    if a == [] {
      assert a + b == b;
      var y := FilterPaths(path, b, recursive, enumerate);
      if y.Some? {
        assert [] + y.value == y.value;
      }
    } else {
      assert (a + b)[1..] == a[1..] + b;
      FilterPathsConcat(path, a[1..], b, recursive, enumerate);
      var e := enumerate(path, "*." + a[0], recursive);
      var x := FilterPaths(path, a[1..], recursive, enumerate);
      var y := FilterPaths(path, b, recursive, enumerate);
      if e.Some? && x.Some? && y.Some? {
        assert e.value + (x.value + y.value) == (e.value + x.value) + y.value;
      }
    }
  }

  /** Paths are not de-duplicated: a filter listed twice yields its files twice. */
  lemma DuplicateFilterRepeatsPaths(path: string, ext: string, recursive: bool, enumerate: Enumerator)
    requires enumerate(path, "*." + ext, recursive).Some?
    ensures FilterPaths(path, [ext, ext], recursive, enumerate)
         == Some(enumerate(path, "*." + ext, recursive).value + enumerate(path, "*." + ext, recursive).value)
  {
    var l := enumerate(path, "*." + ext, recursive).value;
    assert [ext, ext][1..] == [ext];
    assert [ext][1..] == [];
    assert FilterPaths(path, [ext], recursive, enumerate) == Some(l + []);
    assert l + [] == l;
  }

  /** Settings for sorting the files of one folder. */
  class LabelerSetting {
    var Automation: AutomationType
    /** `AutomationDuration`, in milliseconds. */
    var AutomationDuration: int
    var AutomateFileTypeUseExtensions: bool
    var AutomateFileSizeMinSize: int
    var AutomateImageSizeMinWidth: int
    var AutomateImageSizeMinHeight: int
    var InputFolder: string
    var SortInInputFolder: bool
    /** Backing field of the `OutputFolder` property. */
    var outputFolder: string
    var Operation: OperationType
    var LabelFilesBy: LabelFilesOptions
    var AllowRecursiveSubfolders: bool
    var AllowSearchingSubfolders: bool
    var RenameFilesWith: string
    var Filter: seq<string>
    var UseFilters: bool

    /** The property initialisers. */
    constructor ()
      ensures Automation == Manual && AutomationDuration == 0 && !AutomateFileTypeUseExtensions
      ensures AutomateFileSizeMinSize == 1 && AutomateImageSizeMinWidth == 100 && AutomateImageSizeMinHeight == 100
      ensures InputFolder == "" && SortInInputFolder && outputFolder == ""
      ensures Operation == Copy && LabelFilesBy == Subfolder
      ensures !AllowRecursiveSubfolders && !AllowSearchingSubfolders
      ensures RenameFilesWith == "%label% - %name%" && Filter == [] && !UseFilters
    {
      Automation, AutomationDuration, AutomateFileTypeUseExtensions := Manual, 0, false;
      AutomateFileSizeMinSize, AutomateImageSizeMinWidth, AutomateImageSizeMinHeight := 1, 100, 100;
      InputFolder, SortInInputFolder, outputFolder := "", true, "";
      Operation, LabelFilesBy := Copy, Subfolder;
      AllowRecursiveSubfolders, AllowSearchingSubfolders := false, false;
      RenameFilesWith, Filter, UseFilters := "%label% - %name%", [], false;
    }

    /** The `OutputFolder` getter. */
    function OutputFolder(): string
      reads this
    {
      if SortInInputFolder then InputFolder else outputFolder
    }

    /** The `OutputFolder` setter: stores the folder and turns sorting in place off. */
    method SetOutputFolder(value: string)
      modifies this`SortInInputFolder, this`outputFolder
      ensures !SortInInputFolder && outputFolder == value
      ensures OutputFolder() == value
    {
      SortInInputFolder := false;
      outputFolder := value;
    }

    /** The fields `TargetFile` reads. */
    function GetPlacement(): Placement
      reads this
    {
      Placement(LabelFilesBy, AllowRecursiveSubfolders, InputFolder, outputFolder, SortInInputFolder, RenameFilesWith)
    }

    /** The paths `GetFiles` enumerates; `None` when enumeration throws. */
    function FoundPaths(enumerate: Enumerator): Option<seq<string>>
      reads this
    {
      if UseFilters then FilterPaths(InputFolder, Filter, AllowSearchingSubfolders, enumerate)
      else enumerate(InputFolder, "*.*", AllowSearchingSubfolders)
    }

    /**
     * `GetFiles`: one fresh `LabelFile` per enumerated path, numbered by
     * position, with no labels and no target; `None` when enumeration throws.
     */
    method GetFiles(enumerate: Enumerator) returns (r: Option<array<LabelFile>>)
      ensures r.None? <==> FoundPaths(enumerate).None?
      ensures r.Some? ==>
        var files := r.value;
        var paths := FoundPaths(enumerate).value;
        && fresh(files) && files.Length == |paths| && Distinct(files[..])
        && forall k :: 0 <= k < files.Length ==>
             && fresh(files[k])
             && files[k].OriginalPath == paths[k] && files[k].ID == k
             && files[k].Type == TypeOfExtension(FileExtensionOf(paths[k]))
             && files[k].Labels == [] && files[k].FinalTargetFile == None
    {
      var found := FoundPaths(enumerate);
      if found.None? {
        return None;
      }
      var paths := found.value;
      var made: seq<LabelFile> := [];
      for i := 0 to |paths|
        invariant |made| == i && Distinct(made)
        invariant forall k :: 0 <= k < i ==>
          && fresh(made[k])
          && made[k].OriginalPath == paths[k] && made[k].ID == k
          && made[k].Type == TypeOfExtension(FileExtensionOf(paths[k]))
          && made[k].Labels == [] && made[k].FinalTargetFile == None
      {
        var file := new LabelFile(paths[i], i);
        made := made + [file];
      }
      var files := new LabelFile[|made|](k requires 0 <= k < |made| => made[k]);
      assert files[..] == made;
      r := Some(files);
    }
  }
}
