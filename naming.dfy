/** How the tool names its output: the input's last path element without its
    final extension, placed under the destination directory and given the
    extension of the type detected in the output buffer. */
module Naming {
  import opened FilePath

  /** getFilename: splits the last element of `path` into a name and its final
      extension (the extension keeps its leading '.'). */
  function GetFilename(path: string): (string, string)
  {
    var file := Base(path);
    SplitAtExt(file);
    var ext := Ext(file);
    (file[..|file| - |ext|], ext)
  }

  /** The name and the extension concatenate back to Base(path); the
      extension is empty exactly when that element has no '.', and otherwise
      starts at its last '.'. */
  lemma NameAndExtension(path: string)
    ensures var (name, ext) := GetFilename(path);
      && name + ext == Base(path)
      && '/' !in ext
      && (ext == [] <==> '.' !in Base(path))
      && (ext != [] ==> ext[0] == '.' && '.' !in ext[1..])
  {
    SplitAtExt(Base(path));
  }

  /** Ext on a single path element (or on "/"): the element is its stem
      followed by the extension, and the extension is empty exactly when the
      element has no '.'. */
  lemma SplitAtExt(file: string)
    requires file == "/" || '/' !in file
    ensures var ext := Ext(file);
      && |ext| <= |file| && file[..|file| - |ext|] + ext == file
      && '/' !in ext
      && (ext == [] <==> '.' !in file)
      && (ext != [] ==> ext[0] == '.' && '.' !in ext[1..])
  {
    if file == "/" {
      assert Ext(file) == [];
    } else {
      SegmentSplitsAtExt(file);
    }
  }

  /** SplitAtExt for an element without separators. */
  lemma SegmentSplitsAtExt(file: string)
    requires '/' !in file
    ensures var ext := Ext(file);
      && |ext| <= |file| && file[..|file| - |ext|] + ext == file
      && '/' !in ext
      && (ext == [] <==> '.' !in file)
      && (ext != [] ==> ext[0] == '.' && '.' !in ext[1..])
  {
    ExtIsFinalSuffix(file);
    LastElementOfSegment(file);
    var ext := Ext(file);
    assert file[..|file| - |ext|] + file[|file| - |ext|..] == file;
  }

  /** The path SaveImg writes to: `dst + "/" + name + "." + typename`, where
      `name` comes from the input path and `typename` from the output buffer. */
  function FullPath(dst: string, inPath: string, typename: string): string
  {
    dst + "/" + GetFilename(inPath).0 + "." + typename
  }

  /** The output lies directly under `dst` and ends in "." + typename: its
      extension is the detected type's, never the input file's. */
  lemma FullPathShape(dst: string, inPath: string, typename: string)
    ensures var p := FullPath(dst, inPath, typename);
      && |p| >= |dst| + |typename| + 2
      && p[..|dst| + 1] == dst + "/"
      && p[|p| - |typename| - 1..] == "." + typename
  {
    var p := FullPath(dst, inPath, typename);
    assert p == (dst + "/") + GetFilename(inPath).0 + ("." + typename);
  }

  /** getFilename on a joined path: whatever directory precedes the element
      and however many separators follow it, a stem and a dot-free suffix come
      back apart, so only the final extension is split off. */
  lemma GetFilenameOfJoin(dir: string, stem: string, suffix: string, tail: string)
    requires dir == [] || dir[|dir| - 1] == '/'
    requires '/' !in stem && '/' !in suffix && '.' !in suffix
    requires forall i :: 0 <= i < |tail| ==> tail[i] == '/'
    ensures GetFilename(dir + stem + "." + suffix + tail) == (stem, "." + suffix)
  {
    var seg := stem + "." + suffix;
    var p := dir + stem + "." + suffix + tail;
    assert p == dir + seg + tail;
    BaseOfJoin(dir, seg, tail);
    ExtOfDotted(stem, suffix);
    assert seg[..|seg| - |"." + suffix|] == stem;
  }

  /** The saved file is named after the input's stem and carries the detected
      type as its only extension, whatever extension the input had: splitting
      the output path again gives back the input's name and "." + typename. */
  lemma OutputNameRoundTrip(dst: string, inPath: string, typename: string)
    requires '.' !in typename && '/' !in typename
    requires Base(inPath) != "/"
    ensures GetFilename(FullPath(dst, inPath, typename)) == (GetFilename(inPath).0, "." + typename)
  {
    NameAndExtension(inPath);
    var name := GetFilename(inPath).0;
    assert forall i :: 0 <= i < |name| ==> name[i] == Base(inPath)[i];
    assert FullPath(dst, inPath, typename) == (dst + "/") + name + "." + typename + [];
    GetFilenameOfJoin(dst + "/", name, typename, []);
  }

  /** The empty path names the file ".", which getFilename splits into an
      empty name and the extension ".". */
  lemma EmptyPathName()
    ensures GetFilename("") == ("", ".")
  {
    assert "." == [] + "." + [];
    ExtOfDotted([], []);
  }

  /** A path made only of separators names the file "/", and no extension is
      split off. */
  lemma SeparatorsOnlyName(path: string)
    requires path != [] && forall i :: 0 <= i < |path| ==> path[i] == '/'
    ensures GetFilename(path) == ("/", "")
  {
    NameAndExtension(path);
    var r := GetFilename(path);
    assert r.0 + r.1 == r.0;
  }
}
