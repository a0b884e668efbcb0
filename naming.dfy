/**
 * The pure file-naming helpers of `LogicController`: image classification by
 * extension, the resize criterion, the prefix/suffix rename and the path joins.
 * The controller's behaviour settings are passed in as a `Settings` value.
 */
module Naming {
  import opened Strings

  /** The four behaviour settings edited through the settings form. */
  datatype Settings = Settings(
    shouldRename: bool,
    renameNewFile: bool,
    addTextToFileName: string,
    addAsPrefix: bool)

  /** The settings a freshly constructed controller starts with. */
  const DefaultSettings := Settings(true, true, "_fix", false)

  /** `new File(parent + "/" + name)`, as a path string. */
  function JoinPath(parent: string, name: string): string {
    parent + "/" + name
  }

  /** `File.getName()`: the part of a path after its last '/'. */
  function NameOf(path: string): string {
    path[LastIndexOf(path, '/') + 1..]
  }

  /** Joining a folder and a plain name and taking the name back gives the name. */
  lemma NameOfJoinPath(parent: string, name: string)
    requires '/' !in name
    ensures NameOf(JoinPath(parent, name)) == name
  {
    assert JoinPath(parent, name) == (parent + "/") + name;
    LastIndexOfAppend(parent + "/", name, '/');
    LastIndexOfAppend(parent, "/", '/');
  }

  /** The text after the last '.', or the whole name when there is none (`substring(lastIndexOf('.') + 1)`). */
  function Extension(name: string): string {
    name[LastIndexOf(name, '.') + 1..]
  }

  predicate IsAcceptedExtension(lower: string) {
    lower == "png" || lower == "jpg" || lower == "jpeg"
  }

  /** `isImage`: the extension after the last '.', lowercased, is png, jpg or jpeg. */
  function IsImage(path: string): bool {
    IsAcceptedExtension(ToLower(ImageExtension(path)))
  }

  /** The text `isImage` classifies: what follows the last '.', or "no extension" without one. */
  function ImageExtension(path: string): string {
    var dotIndex := LastIndexOf(path, '.');
    if dotIndex == -1 then "no extension" else path[dotIndex + 1..]
  }

  /** `path` ends with '.' followed by a case variant of `ext`. */
  predicate HasExtension(path: string, ext: string) {
    |ext| < |path| && path[|path| - |ext| - 1] == '.' && ToLower(path[|path| - |ext|..]) == ext
  }

  lemma LowerKeepsChar(s: string, c: char)
    requires c == '.' || c == '/'
    ensures c in s <==> c in ToLower(s)
  {
    if c in s {
      var i :| 0 <= i < |s| && s[i] == c;
      assert ToLower(s)[i] == c;
    }
    if c in ToLower(s) {
      var i :| 0 <= i < |s| && ToLower(s)[i] == c;
      assert s[i] == c;
    }
  }

  lemma AcceptedHasNoSeparator(lower: string)
    requires IsAcceptedExtension(lower)
    ensures '.' !in lower && '/' !in lower && |lower| <= 4
  {
  }

  /** The stand-in extension of a path without '.' is never accepted. */
  lemma NoExtensionIsNotAccepted()
    ensures !IsAcceptedExtension(ToLower("no extension"))
  {
    assert |ToLower("no extension")| == 12;
  }

  /** An image path ends with '.' and its accepted extension. */
  lemma ImageHasAcceptedSuffix(path: string)
    requires IsImage(path)
    ensures HasExtension(path, ToLower(path[LastIndexOf(path, '.') + 1..]))
  {
    NoExtensionIsNotAccepted();
    var d := LastIndexOf(path, '.');
    var ext := path[d + 1..];
    AcceptedHasNoSeparator(ToLower(ext));
    assert |ext| == |ToLower(ext)|;
    assert path[|path| - |ext|..] == ext;
  }

  /** A path ending with '.' and a case variant of an accepted extension is an image. */
  lemma AcceptedSuffixIsImage(path: string, x: string)
    requires IsAcceptedExtension(x) && HasExtension(path, x)
    ensures IsImage(path)
  {
    var k := |path| - |x| - 1;
    var tail := path[k + 1..];
    AcceptedHasNoSeparator(x);
    LowerKeepsChar(tail, '.');
    forall j | k < j < |path| ensures path[j] != '.' {
      assert path[j] == tail[j - k - 1];
    }
    assert LastIndexOf(path, '.') == k;
  }

  /**
   * A path is an image exactly when it ends with ".png", ".jpg" or ".jpeg" in any
   * letter case; a path without '.' never is.
   */
  lemma IsImageIffAcceptedSuffix(path: string)
    ensures IsImage(path) <==>
      HasExtension(path, "png") || HasExtension(path, "jpg") || HasExtension(path, "jpeg")
    ensures '.' !in path ==> !IsImage(path)
  {
    if IsImage(path) {
      ImageHasAcceptedSuffix(path);
    }
    if HasExtension(path, "png") {
      AcceptedSuffixIsImage(path, "png");
    }
    if HasExtension(path, "jpg") {
      AcceptedSuffixIsImage(path, "jpg");
    }
    if HasExtension(path, "jpeg") {
      AcceptedSuffixIsImage(path, "jpeg");
    }
    NoExtensionIsNotAccepted();
  }

  /** Only the file name decides: prefixing a folder never changes the classification. */
  lemma IsImageOfJoinPath(parent: string, name: string)
    ensures IsImage(JoinPath(parent, name)) == IsImage(name)
  {
    assert JoinPath(parent, name) == (parent + "/") + name;
    if '.' in name {
      DottedNameDecides(parent + "/", name);
    } else {
      UndottedNameIsNotImage(parent, name);
    }
  }

  /** When the name has a '.', the extension of the joined path is the name's. */
  lemma DottedNameDecides(front: string, name: string)
    requires '.' in name
    ensures IsImage(front + name) == IsImage(name)
  {
    DottedExtension(front, name);
    assert ImageExtension(front + name) == ImageExtension(name);
  }

  lemma DottedExtension(front: string, name: string)
    requires '.' in name
    ensures LastIndexOf(front + name, '.') != -1
    ensures (front + name)[LastIndexOf(front + name, '.') + 1..] == name[LastIndexOf(name, '.') + 1..]
  {
    LastIndexOfAppend(front, name, '.');
  }

  /** When the name has no '.', neither it nor the joined path is an image: a '/' follows any '.'. */
  lemma UndottedNameIsNotImage(parent: string, name: string)
    requires '.' !in name
    ensures !IsImage((parent + "/") + name) && !IsImage(name)
  {
    var front := parent + "/";
    var path := front + name;
    LastIndexOfAppend(front, name, '.');
    NoExtensionIsNotAccepted();
    var d := LastIndexOf(path, '.');
    if d != -1 {
      assert path[|parent|] == '/';
      var ext := path[d + 1..];
      assert ext[|parent| - d - 1] == '/';
      LowerKeepsChar(ext, '/');
      if IsAcceptedExtension(ToLower(ext)) {
        AcceptedHasNoSeparator(ToLower(ext));
      }
    }
  }

  /** An image name always has a '.', so it can be renamed. */
  lemma ImageHasDot(name: string)
    requires IsImage(name)
    ensures '.' in name
  {
    IsImageIffAcceptedSuffix(name);
  }

  /** `shouldResize`: only an image wider than it is tall is converted. */
  function ShouldResize(width: int, height: int): (r: bool)
    ensures r <==> width > height
  {
    if width == height then false        // already 1:1
    else if width < height then false    // taller than wide
    else true
  }

  /** `getRename`: the configured text inserted at the front, or just before the last '.'. */
  function GetRename(s: Settings, oldName: string): (r: string)
    requires '.' in oldName
    ensures |r| == |oldName| + |s.addTextToFileName|
  {
    var dotIndex := LastIndexOf(oldName, '.');
    var name := oldName[..dotIndex];
    var ext := oldName[dotIndex..];
    if s.addAsPrefix then s.addTextToFileName + name + ext else name + s.addTextToFileName + ext
  }

  /**
   * The rename holds the configured text at the front (prefix) or at the original's
   * last '.' (suffix), and deleting it there gives back the original name.
   */
  lemma RenameInsertsText(s: Settings, oldName: string)
    requires '.' in oldName
    ensures var r := GetRename(s, oldName);
      var at := if s.addAsPrefix then 0 else LastIndexOf(oldName, '.');
      r[at..at + |s.addTextToFileName|] == s.addTextToFileName &&
      r[..at] + r[at + |s.addTextToFileName|..] == oldName
  {
    if s.addAsPrefix {
      PrefixRenameInserts(s, oldName);
    } else {
      SuffixRenameInserts(s, oldName);
    }
  }

  lemma PrefixRenameInserts(s: Settings, oldName: string)
    requires '.' in oldName && s.addAsPrefix
    ensures var r := GetRename(s, oldName);
      r[..|s.addTextToFileName|] == s.addTextToFileName && r[|s.addTextToFileName|..] == oldName
  {
    var t := s.addTextToFileName;
    var d := LastIndexOf(oldName, '.');
    assert oldName[..d] + oldName[d..] == oldName;
    assert GetRename(s, oldName) == t + oldName;
  }

  lemma SuffixRenameInserts(s: Settings, oldName: string)
    requires '.' in oldName && !s.addAsPrefix
    ensures var r := GetRename(s, oldName);
      var d := LastIndexOf(oldName, '.');
      r[d..d + |s.addTextToFileName|] == s.addTextToFileName &&
      r[..d] + r[d + |s.addTextToFileName|..] == oldName
  {
    var t := s.addTextToFileName;
    var d := LastIndexOf(oldName, '.');
    var name := oldName[..d];
    var ext := oldName[d..];
    assert name + ext == oldName;
    assert GetRename(s, oldName) == name + t + ext;
    InsertShape(name, t, ext);
  }

  /** Text inserted between two parts sits right after the first part, and cutting it out rejoins them. */
  lemma InsertShape(front: string, t: string, back: string)
    ensures var r := front + t + back;
      r[|front|..|front| + |t|] == t && r[..|front|] + r[|front| + |t|..] == front + back
  {
    var r := front + t + back;
    assert r[..|front|] == front;
    assert r[|front| + |t|..] == back;
  }

  /** The renamed name's last '.' is the original's, moved right by the inserted text. */
  lemma RenameLastDot(s: Settings, oldName: string)
    requires '.' in oldName
    ensures LastIndexOf(GetRename(s, oldName), '.') ==
            LastIndexOf(oldName, '.') + |s.addTextToFileName|
  {
    var t := s.addTextToFileName;
    var d := LastIndexOf(oldName, '.');
    var name := oldName[..d];
    var ext := oldName[d..];
    var front := if s.addAsPrefix then t + name else name + t;
    assert GetRename(s, oldName) == front + ext;
    assert ext[0] == '.';
    forall j | 0 < j < |ext| ensures ext[j] != '.' {
      assert ext[j] == oldName[d + j];
    }
    assert LastIndexOf(ext, '.') == 0;
    LastIndexOfAppend(front, ext, '.');
  }

  /** Renaming keeps the extension, so the output keeps the original's format. */
  lemma RenameKeepsExtension(s: Settings, oldName: string)
    requires '.' in oldName
    ensures '.' in GetRename(s, oldName)
    ensures Extension(GetRename(s, oldName)) == Extension(oldName)
    ensures IsImage(GetRename(s, oldName)) == IsImage(oldName)
  {
    var r := GetRename(s, oldName);
    var d := LastIndexOf(oldName, '.');
    RenameLastDot(s, oldName);
    assert r[d + |s.addTextToFileName|] == '.';
    assert r[d + |s.addTextToFileName| + 1..] == oldName[d + 1..];
  }

  /**
   * The inverse of `GetRename`: strip the configured text from the front, or from
   * just before the last '.'; `None` when the name does not have that shape.
   */
  function RemoveInsertedText(s: Settings, renamed: string): Option<string> {
    var t := s.addTextToFileName;
    if s.addAsPrefix then
      if StartsWith(renamed, t) then Some(renamed[|t|..]) else None
    else
      var d := LastIndexOf(renamed, '.');
      if |t| <= d && renamed[d - |t|..d] == t then Some(renamed[..d - |t|] + renamed[d..]) else None
  }

  /** Round trip: removing the inserted text from a renamed file gives back the original name. */
  lemma RenameRoundTrip(s: Settings, oldName: string)
    requires '.' in oldName
    ensures RemoveInsertedText(s, GetRename(s, oldName)) == Some(oldName)
  {
    var t := s.addTextToFileName;
    var r := GetRename(s, oldName);
    var d := LastIndexOf(oldName, '.');
    RenameLastDot(s, oldName);
    RenameInsertsText(s, oldName);
    if s.addAsPrefix {
      assert r[..|t|] == r[0..|t|];
      assert r[..0] + r[|t|..] == r[|t|..];
    } else {
      assert LastIndexOf(r, '.') - |t| == d;
    }
  }

  /** `modifyFilePath`: the renamed file inside `parentPath`. */
  function ModifyFilePath(s: Settings, parentPath: string, fileName: string): string
    requires '.' in fileName
  {
    JoinPath(parentPath, GetRename(s, fileName))
  }

  /** A character absent from the name and from the inserted text is absent from the rename. */
  lemma RenameKeepsAbsent(s: Settings, oldName: string, c: char)
    requires '.' in oldName
    requires c !in oldName && c !in s.addTextToFileName
    ensures c !in GetRename(s, oldName)
  {
    var d := LastIndexOf(oldName, '.');
    var name := oldName[..d];
    var ext := oldName[d..];
    assert oldName == name + ext;
    assert GetRename(s, oldName) ==
      if s.addAsPrefix then s.addTextToFileName + name + ext else name + s.addTextToFileName + ext;
  }

  /** A renamed plain name holds no '/' either, so the file name of the new path is the rename. */
  lemma ModifyFilePathName(s: Settings, parentPath: string, fileName: string)
    requires '.' in fileName
    requires '/' !in s.addTextToFileName && '/' !in fileName
    ensures NameOf(ModifyFilePath(s, parentPath, fileName)) == GetRename(s, fileName)
  {
    RenameKeepsAbsent(s, fileName, '/');
    NameOfJoinPath(parentPath, GetRename(s, fileName));
  }

  /** `generateOutputPath`: the configured text inserted at `dotIndex` of `inputPath`. */
  function GenerateOutputPath(s: Settings, inputPath: string, dotIndex: int): (r: string)
    requires 0 <= dotIndex <= |inputPath|
    ensures |r| == |inputPath| + |s.addTextToFileName|
    ensures r[dotIndex..dotIndex + |s.addTextToFileName|] == s.addTextToFileName
    ensures r[..dotIndex] + r[dotIndex + |s.addTextToFileName|..] == inputPath
  {
    var t := s.addTextToFileName;
    var r := inputPath[..dotIndex] + t + inputPath[dotIndex..];
    assert r[..dotIndex] == inputPath[..dotIndex];
    assert r[dotIndex + |t|..] == inputPath[dotIndex..];
    assert inputPath[..dotIndex] + inputPath[dotIndex..] == inputPath;
    r
  }

  /** At the last '.', `generateOutputPath` agrees with the suffix mode of `getRename`. */
  lemma GenerateOutputPathIsSuffixRename(s: Settings, inputPath: string)
    requires '.' in inputPath
    ensures GenerateOutputPath(s, inputPath, LastIndexOf(inputPath, '.')) ==
            GetRename(s.(addAsPrefix := false), inputPath)
  {
    var d := LastIndexOf(inputPath, '.');
    var r1 := GenerateOutputPath(s, inputPath, d);
    var r2 := GetRename(s.(addAsPrefix := false), inputPath);
    var t := s.addTextToFileName;
    assert r1[..d] == inputPath[..d] == r2[..d];
    assert r1[d..d + |t|] == t == r2[d..d + |t|];
    assert r1[d + |t|..] == inputPath[d..] == r2[d + |t|..];
    assert r1 == r1[..d] + r1[d..d + |t|] + r1[d + |t|..];
    assert r2 == r2[..d] + r2[d..d + |t|] + r2[d + |t|..];
  }
}
