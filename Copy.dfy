/**
 * copyDirectory and copyFile of scripts/create-platform.js: the recursive copy
 * of the template tree, which leaves out a fixed set of names, copies files
 * with a binary extension (or whose text read fails) byte for byte, and passes
 * every other file through the rewrite chain.
 */
module Copy {
  import opened Wrappers
  import opened TextReplace
  import opened Arguments
  import opened Rewrite
  import opened FileTree

  /** Names that are never copied, whether file or directory. */
  const SKIP_FILES: set<string> :=
    {"node_modules", ".next", "dist", ".git", "manch.db", "manch.db-journal", ".env"}

  /** Extensions copied byte for byte. */
  const BINARY_EXTENSIONS: set<string> :=
    {".png", ".jpg", ".jpeg", ".gif", ".ico", ".svg",
     ".woff", ".woff2", ".ttf", ".eot",
     ".db", ".db-journal"}

  /** The index of the last `.` in `s`, or -1. */
  function LastDot(s: string): (r: int)
    ensures -1 <= r < |s|
    ensures r >= 0 ==> s[r] == '.'
    ensures forall i :: r < i < |s| ==> s[i] != '.'
  {
    if s == [] then -1
    else if s[|s| - 1] == '.' then |s| - 1
    else LastDot(s[..|s| - 1])
  }

  /**
   * `path.extname` of a file name: from the last `.` to the end, unless there
   * is no `.`, the only leading `.` is the first character, or the name is `..`.
   */
  function ExtName(name: string): (r: string)
    ensures r != [] <==> (exists i :: 0 < i < |name| && name[i] == '.') && name != ".."
    ensures r != [] ==> |r| < |name| && name[|name| - |r|..] == r && r[0] == '.' && '.' !in r[1..]
  {
    var d := LastDot(name);
    if d <= 0 || name == ".." then [] else name[d..]
  }

  /** A name other than `..` whose last dot begins `ext`, after a non-empty stem, has extension `ext`. */
  lemma ExtNameOfSuffix(stem: string, ext: string)
    requires |stem| > 0 && |ext| > 0 && ext[0] == '.' && '.' !in ext[1..]
    requires stem + ext != ".."
    ensures ExtName(stem + ext) == ext
  {
    var name := stem + ext;
    var r := ExtName(name);
    assert name[|stem|] == '.';
    assert r == name[|name| - |r|..] == ext;
  }

  /** A leading dot does not start an extension; the last dot does. */
  lemma ExtNameExamples()
    ensures ExtName(".env") == ""
    ensures ExtName("manch" + ".db-journal") == ".db-journal"
    ensures ExtName("logo" + ".png") == ".png"
    ensures ExtName(".env" + ".example") == ".example"
  {
    assert '.' !in ".env"[1..];
    assert '.' !in ".db-journal"[1..];
    assert '.' !in ".png"[1..];
    assert '.' !in ".example"[1..];
    ExtNameOfSuffix("manch", ".db-journal");
    ExtNameOfSuffix("logo", ".png");
    ExtNameOfSuffix(".env", ".example");
  }

  /**
   * The copy of one file: byte for byte when its extension is binary or its
   * text read fails, otherwise the rewritten text.
   */
  function CopyFile(name: string, content: string, isText: bool, p: Params): (r: Node)
    ensures r.File?
    ensures ExtName(name) in BINARY_EXTENSIONS || !isText ==> r == File(content, isText)
    ensures ExtName(name) !in BINARY_EXTENSIONS && isText ==>
      r == File(RewriteText(content, p), true)
  {
    if ExtName(name) in BINARY_EXTENSIONS then File(content, isText)
    else if !isText then File(content, isText)
    else File(RewriteText(content, p), true)
  }

  /** The copy of an entry that is not skipped: a directory stays a directory, a file a file. */
  function CopyNode(name: string, n: Node, p: Params): (r: Node)
    ensures r.Dir? <==> n.Dir?
    decreases n, 1
  {
    match n
    case File(content, isText) => CopyFile(name, content, isText, p)
    case Dir(es) => Dir(CopyEntries(es, p))
  }

  /** The entries of a copied directory, in `readdirSync` order: none of them skipped, none added. */
  function CopyEntries(es: seq<Entry>, p: Params): (r: seq<Entry>)
    ensures |r| <= |es|
    ensures forall j :: 0 <= j < |r| ==> r[j].name !in SKIP_FILES
    decreases es, 0
  {
    if es == [] then []
    else
      var rest := CopyEntries(es[1..], p);
      if es[0].name in SKIP_FILES then rest
      else [Entry(es[0].name, CopyNode(es[0].name, es[0].node, p))] + rest
  }

  /**
   * The recursive copy: walks the source entries in order, leaves out the
   * skipped names, copies each sub-directory by a recursive call and each file
   * by CopyFile, and returns the entries of the new directory.
   */
  method CopyDirectory(src: seq<Entry>, p: Params) returns (dest: seq<Entry>)
    ensures dest == CopyEntries(src, p)
    decreases src
  {
    dest := [];
    var i := 0;
    while i < |src|
      invariant 0 <= i <= |src|
      invariant CopyEntries(src, p) == dest + CopyEntries(src[i..], p)
    {
      var entry := src[i];
      CopyEntriesAt(src, i, p);
      if entry.name !in SKIP_FILES {
        var node;
        match entry.node {
          case Dir(sub) =>
            var copied := CopyDirectory(sub, p);
            node := Dir(copied);
          case File(content, isText) =>
            node := CopyFile(entry.name, content, isText, p);
        }
        assert node == CopyNode(entry.name, entry.node, p);
        RegroupEntries(dest, [Entry(entry.name, node)], CopyEntries(src[i + 1..], p));
        dest := dest + [Entry(entry.name, node)];
      }
      i := i + 1;
    }
    assert src[i..] == [];
  }

  /** The copy of the entries from `i` on: the copy of entry `i`, unless it is skipped, then the rest. */
  lemma CopyEntriesAt(src: seq<Entry>, i: nat, p: Params)
    requires i < |src|
    ensures src[i].name in SKIP_FILES ==> CopyEntries(src[i..], p) == CopyEntries(src[i + 1..], p)
    ensures src[i].name !in SKIP_FILES ==>
      CopyEntries(src[i..], p) == [Entry(src[i].name, CopyNode(src[i].name, src[i].node, p))] + CopyEntries(src[i + 1..], p)
  {
    assert src[i..][0] == src[i] && src[i..][1..] == src[i + 1..];
  }

  lemma RegroupEntries(a: seq<Entry>, b: seq<Entry>, c: seq<Entry>)
    ensures a + (b + c) == (a + b) + c
  {
  }

  /** A path with a skipped name anywhere on it. */
  predicate Skipped(path: seq<string>)
  {
    exists k :: 0 <= k < |path| && path[k] in SKIP_FILES
  }

  /** The name of the entry a path ends at (`name` for the empty path). */
  function LastName(name: string, path: seq<string>): string
  {
    if path == [] then name else path[|path| - 1]
  }

  /** A path is skipped when its first name is, or the rest of it is. */
  lemma SkippedFirst(path: seq<string>)
    requires path != []
    ensures Skipped(path) <==> path[0] in SKIP_FILES || Skipped(path[1..])
  {
    var rest := path[1..];
    if Skipped(rest) {
      var k :| 0 <= k < |rest| && rest[k] in SKIP_FILES;
      assert path[k + 1] == rest[k];
    }
    if Skipped(path) {
      var k :| 0 <= k < |path| && path[k] in SKIP_FILES;
      if k > 0 { assert rest[k - 1] == path[k]; }
    }
  }

  /** A name in the copy is the copy of the same name in the source, unless it is skipped. */
  lemma {:induction false} FindCopy(es: seq<Entry>, name: string, p: Params)
    ensures Find(CopyEntries(es, p), name) ==
      if name in SKIP_FILES || Find(es, name).None? then None
      else Some(CopyNode(name, Find(es, name).value, p))
  {
    if es != [] {
      FindCopy(es[1..], name, p);
    }
  }

  /**
   * Reading a path in the copy: nothing when the path passes through a skipped
   * name or is missing in the source, otherwise the copy of the source node.
   */
  lemma {:induction false} LookupCopy(name: string, n: Node, path: seq<string>, p: Params)
    ensures Lookup(CopyNode(name, n, p), path) ==
      if Skipped(path) || Lookup(n, path).None? then None
      else Some(CopyNode(LastName(name, path), Lookup(n, path).value, p))
    decreases |path|
  {
    if path != [] {
      var x, rest := path[0], path[1..];
      SkippedFirst(path);
      match n
      case File(_, _) =>
      case Dir(es) =>
        FindCopy(es, x, p);
        if x !in SKIP_FILES && Find(es, x).Some? {
          LookupCopy(x, Find(es, x).value, rest, p);
          assert LastName(x, rest) == LastName(name, path);
        }
    }
  }

  /** Nothing under a skipped name reaches the copy. */
  lemma CopyOmitsSkipped(src: seq<Entry>, path: seq<string>, p: Params)
    requires Skipped(path)
    ensures Lookup(Dir(CopyEntries(src, p)), path) == None
  {
    LookupCopy("", Dir(src), path, p);
  }

  /**
   * Every other path is in the copy exactly when it is in the source, and as a
   * directory exactly when it is one there.
   */
  lemma CopyKeepsShape(src: seq<Entry>, path: seq<string>, p: Params)
    requires !Skipped(path)
    ensures Lookup(Dir(CopyEntries(src, p)), path).Some? <==> Lookup(Dir(src), path).Some?
    ensures Lookup(Dir(src), path).Some? ==>
      (Lookup(Dir(CopyEntries(src, p)), path).value.Dir? <==> Lookup(Dir(src), path).value.Dir?)
  {
    LookupCopy("", Dir(src), path, p);
  }

  /**
   * A copied file keeps its bytes when its extension is binary or it cannot be
   * read as text; otherwise it holds the rewritten text.
   */
  lemma CopyFileContents(src: seq<Entry>, path: seq<string>, p: Params, content: string, isText: bool)
    requires !Skipped(path) && path != []
    requires Lookup(Dir(src), path) == Some(File(content, isText))
    ensures ExtName(path[|path| - 1]) in BINARY_EXTENSIONS || !isText ==>
      Lookup(Dir(CopyEntries(src, p)), path) == Some(File(content, isText))
    ensures ExtName(path[|path| - 1]) !in BINARY_EXTENSIONS && isText ==>
      Lookup(Dir(CopyEntries(src, p)), path) == Some(File(RewriteText(content, p), true))
  {
    LookupCopy("", Dir(src), path, p);
  }

  /** Every name in the copy of a directory is a name of the source that is not skipped. */
  lemma {:induction false} CopyNames(es: seq<Entry>, p: Params, name: string)
    ensures (exists j :: 0 <= j < |CopyEntries(es, p)| && CopyEntries(es, p)[j].name == name) ==>
      name !in SKIP_FILES && exists i :: 0 <= i < |es| && es[i].name == name
  {
    FindCopy(es, name, p);
  }

  /** Copying keeps every directory's names valid and distinct. */
  lemma {:induction false} CopyPreservesWellFormed(es: seq<Entry>, p: Params)
    requires WellFormedEntries(es)
    ensures WellFormedEntries(CopyEntries(es, p))
    decreases es
  {
    if es != [] {
      var rest := es[1..];
      assert WellFormedEntries(rest) by {
        assert forall i :: 0 <= i < |rest| ==> rest[i] == es[i + 1];
      }
      CopyPreservesWellFormed(rest, p);
      if es[0].name !in SKIP_FILES {
        var head := Entry(es[0].name, CopyNode(es[0].name, es[0].node, p));
        var r := CopyEntries(rest, p);
        assert WellFormed(head.node) by {
          match es[0].node
          case File(_, _) =>
          case Dir(sub) =>
            CopyPreservesWellFormed(sub, p);
        }
        forall j | 0 <= j < |r| ensures r[j].name != head.name {
          CopyNames(rest, p, r[j].name);
        }
        assert CopyEntries(es, p) == [head] + r;
      }
    }
  }
}
