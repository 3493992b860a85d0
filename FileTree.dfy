/**
 * The directory trees that scripts/create-platform.js reads and writes, as
 * values: a directory is its sequence of named entries, a file its content and
 * whether reading it as text succeeds.
 */
module FileTree {
  import opened Wrappers

  datatype Node =
    | File(content: string, isText: bool)
    | Dir(entries: seq<Entry>)

  datatype Entry = Entry(name: string, node: Node)

  /** A name `readdirSync` can return: not empty, no separator, not `.` or `..`. */
  predicate ValidName(name: string)
  {
    |name| > 0 && '/' !in name && name != "." && name != ".."
  }

  predicate DistinctNames(es: seq<Entry>)
  {
    forall i, j :: 0 <= i < j < |es| ==> es[i].name != es[j].name
  }

  /** Every directory in the tree lists valid, distinct names. */
  predicate WellFormed(n: Node)
  {
    match n
    case File(_, _) => true
    case Dir(es) => WellFormedEntries(es)
  }

  predicate WellFormedEntries(es: seq<Entry>)
  {
    && DistinctNames(es)
    && (forall i :: 0 <= i < |es| ==> ValidName(es[i].name) && WellFormed(es[i].node))
  }

  /** The entry of a directory with the given name. */
  function Find(es: seq<Entry>, name: string): (r: Option<Node>)
    ensures r.None? <==> forall i :: 0 <= i < |es| ==> es[i].name != name
    ensures r.Some? ==> exists i :: 0 <= i < |es| && es[i] == Entry(name, r.value)
  {
    if es == [] then None
    else if es[0].name == name then Some(es[0].node)
    else
      var r := Find(es[1..], name);
      assert forall i :: 1 <= i < |es| ==> es[i] == es[1..][i - 1];
      r
  }

  /** The node at a relative path, as `path.join(root, ...)` reaches it. */
  function Lookup(n: Node, path: seq<string>): Option<Node>
    decreases |path|
  {
    if path == [] then Some(n)
    else match n
      case File(_, _) => None
      case Dir(es) =>
        match Find(es, path[0])
        case None => None
        case Some(child) => Lookup(child, path[1..])
  }

  /** The entries with the first entry named `name` given the node `n` instead. */
  function Replace(es: seq<Entry>, name: string, n: Node): (r: seq<Entry>)
    ensures |r| == |es|
    ensures forall i :: 0 <= i < |es| ==> r[i].name == es[i].name
  {
    if es == [] then []
    else if es[0].name == name then [Entry(name, n)] + es[1..]
    else [es[0]] + Replace(es[1..], name, n)
  }

  /**
   * `writeFileSync` of a text file at `path` under the directory with entries
   * `es`: it fails when a directory on the way is missing or is a file, or when
   * the target itself is a directory; otherwise the file is created or
   * overwritten.
   */
  function WriteFile(es: seq<Entry>, path: seq<string>, content: string): (r: Option<seq<Entry>>)
    requires |path| > 0
    ensures r.Some? ==> |es| <= |r.value| <= |es| + 1
    ensures r.Some? ==> forall i :: 0 <= i < |es| ==> r.value[i].name == es[i].name
    decreases |path|
  {
    var name := path[0];
    match Find(es, name)
    case None =>
      if |path| == 1 then Some(es + [Entry(name, File(content, true))]) else None
    case Some(File(_, _)) =>
      if |path| == 1 then Some(Replace(es, name, File(content, true))) else None
    case Some(Dir(sub)) =>
      if |path| == 1 then None
      else match WriteFile(sub, path[1..], content)
        case None => None
        case Some(sub') => Some(Replace(es, name, Dir(sub')))
  }

  lemma {:induction false} FindReplace(es: seq<Entry>, name: string, n: Node, other: string)
    ensures Find(Replace(es, name, n), other) ==
      if other == name && Find(es, name).Some? then Some(n) else Find(es, other)
  {
    if es != [] {
      FindReplace(es[1..], name, n, other);
    }
  }

  lemma {:induction false} FindAppend(es: seq<Entry>, e: Entry, other: string)
    ensures Find(es + [e], other) ==
      if Find(es, other).Some? then Find(es, other) else if e.name == other then Some(e.node) else None
  {
    if es != [] {
      assert (es + [e])[1..] == es[1..] + [e];
      FindAppend(es[1..], e, other);
    }
  }

  /** `q` is `path` or a directory on the way to it. */
  predicate IsPrefix(q: seq<string>, path: seq<string>)
  {
    |q| <= |path| && q == path[..|q|]
  }

  /** Where a write can succeed: the parent is a directory and the target is not. */
  predicate Writable(es: seq<Entry>, path: seq<string>)
    requires |path| > 0
  {
    && Lookup(Dir(es), path[..|path| - 1]).Some?
    && Lookup(Dir(es), path[..|path| - 1]).value.Dir?
    && !(Lookup(Dir(es), path).Some? && Lookup(Dir(es), path).value.Dir?)
  }

  /** A write succeeds exactly where the parent is a directory and the target is not. */
  lemma {:induction false} WriteFileSucceeds(es: seq<Entry>, path: seq<string>, content: string)
    requires |path| > 0
    ensures WriteFile(es, path, content).Some? <==> Writable(es, path)
    decreases |path|
  {
    var name := path[0];
    if |path| == 1 {
      assert path[..0] == [] && path[1..] == [];
      assert Lookup(Dir(es), path) == (match Find(es, name) case None => None case Some(c) => Lookup(c, []));
    } else {
      var rest := path[1..];
      var parent := path[..|path| - 1];
      assert parent[0] == name && parent[1..] == rest[..|rest| - 1];
      match Find(es, name)
      case None =>
      case Some(File(c, t)) =>
        assert Lookup(Dir(es), parent) == Lookup(File(c, t), rest[..|rest| - 1]);
        if |rest| == 1 {
          assert rest[..0] == [];
        }
      case Some(Dir(sub)) =>
        WriteFileSucceeds(sub, rest, content);
    }
  }

  /** After a successful write the path holds a text file with the new content. */
  lemma {:induction false} WriteFileWrites(es: seq<Entry>, path: seq<string>, content: string)
    requires |path| > 0
    requires WriteFile(es, path, content).Some?
    ensures Lookup(Dir(WriteFile(es, path, content).value), path) == Some(File(content, true))
    decreases |path|
  {
    var name := path[0];
    match Find(es, name)
    case None =>
      FindAppend(es, Entry(name, File(content, true)), name);
    case Some(File(_, _)) =>
      FindReplace(es, name, File(content, true), name);
    case Some(Dir(sub)) =>
      var sub' := WriteFile(sub, path[1..], content).value;
      WriteFileWrites(sub, path[1..], content);
      FindReplace(es, name, Dir(sub'), name);
  }

  /**
   * A successful write leaves every path that is neither the file nor a
   * directory on the way to it reading as before.
   */
  lemma {:induction false} WriteFileFrame(es: seq<Entry>, path: seq<string>, content: string, q: seq<string>)
    requires |path| > 0
    requires WriteFile(es, path, content).Some?
    requires !IsPrefix(q, path)
    ensures Lookup(Dir(WriteFile(es, path, content).value), q) == Lookup(Dir(es), q)
    decreases |path|
  {
    var name := path[0];
    var r := WriteFile(es, path, content).value;
    assert |q| > 0;
    match Find(es, name)
    case None =>
      FindAppend(es, Entry(name, File(content, true)), q[0]);
    case Some(File(_, _)) =>
      FindReplace(es, name, File(content, true), q[0]);
    case Some(Dir(sub)) =>
      var sub' := WriteFile(sub, path[1..], content).value;
      FindReplace(es, name, Dir(sub'), q[0]);
      if q[0] == name {
        assert !IsPrefix(q[1..], path[1..]);
        WriteFileFrame(sub, path[1..], content, q[1..]);
      }
  }
}
