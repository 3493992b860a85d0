/**
 * The main execution of scripts/create-platform.js: the argument guard, the
 * two existence checks, the copy of the template tree into the new platform
 * directory, and the three generated files written over the copy.
 */
module Scaffold {
  import opened Wrappers
  import opened Arguments
  import opened FileTree
  import opened Copy
  import opened EnvFiles

  /** How a run ends, with the new platform directory where one is left behind. */
  datatype Outcome =
    | Usage
    | SourceMissing
    | TargetExists
    | Aborted(partial: seq<Entry>)
    | Created(platform: seq<Entry>)

  /** The process exit status: 0 only when the platform was created. */
  function ExitCode(o: Outcome): (r: int)
    ensures r == 0 <==> o.Created?
    ensures r == 0 || r == 1
  {
    if o.Created? then 0 else 1
  }

  const GITIGNORE_PATH: seq<string> := [".gitignore"]
  const BACKEND_ENV_PATH: seq<string> := ["backend", ".env.example"]
  const FRONTEND_ENV_PATH: seq<string> := ["frontend", ".env.example"]

  /** A path the generated files change: one of them, or a directory on the way. */
  predicate Generated(q: seq<string>)
  {
    IsPrefix(q, GITIGNORE_PATH) || IsPrefix(q, BACKEND_ENV_PATH) || IsPrefix(q, FRONTEND_ENV_PATH)
  }

  predicate IsDirAt(es: seq<Entry>, path: seq<string>)
  {
    Lookup(Dir(es), path).Some? && Lookup(Dir(es), path).value.Dir?
  }

  /**
   * A template tree the three files can be written into: it has `backend` and
   * `frontend` directories, and none of the three targets is a directory.
   */
  predicate Ready(es: seq<Entry>)
  {
    && IsDirAt(es, ["backend"]) && IsDirAt(es, ["frontend"])
    && !IsDirAt(es, GITIGNORE_PATH)
    && !IsDirAt(es, BACKEND_ENV_PATH)
    && !IsDirAt(es, FRONTEND_ENV_PATH)
  }

  /**
   * One run, given the command line, the template directory (`None` when it
   * does not exist) and whether the target directory already exists.
   */
  method CreatePlatform(args: seq<string>, source: Option<Node>, targetExists: bool) returns (o: Outcome)
    ensures o == Usage <==> |args| < 5
    ensures |args| >= 5 ==> (o == SourceMissing <==> source.None?)
    ensures |args| >= 5 && source.Some? ==> (o == TargetExists <==> targetExists)
    ensures o.Created? <==>
      |args| >= 5 && source.Some? && source.value.Dir? && !targetExists && Ready(source.value.entries)
    ensures o.Created? ==>
      var p := Params(args[0], args[1], args[2], args[3], args[4]);
      && Lookup(Dir(o.platform), GITIGNORE_PATH) == Some(File(Gitignore(), true))
      && Lookup(Dir(o.platform), BACKEND_ENV_PATH) == Some(File(BackendEnv(p), true))
      && Lookup(Dir(o.platform), FRONTEND_ENV_PATH) == Some(File(FrontendEnv(p), true))
    ensures o.Created? ==>
      var p := Params(args[0], args[1], args[2], args[3], args[4]);
      forall q :: !Generated(q) ==>
        Lookup(Dir(o.platform), q) == Lookup(Dir(CopyEntries(source.value.entries, p)), q)
  {
    var parsed := ParseArgs(args);
    if parsed.Failure? {
      return Usage;
    }
    var p := parsed.value;
    if source.None? {
      return SourceMissing;
    }
    if targetExists {
      return TargetExists;
    }
    if source.value.File? {
      // The target is created, then listing the template fails.
      return Aborted([]);
    }
    var src := source.value.entries;
    var copied := CopyDirectory(src, p);
    ReadyOfCopy(src, p);

    var w1 := WriteFile(copied, GITIGNORE_PATH, Gitignore());
    GitignoreStep(copied);
    if w1.None? {
      return Aborted(copied);
    }
    var t1 := w1.value;

    var w2 := WriteFile(t1, BACKEND_ENV_PATH, BackendEnv(p));
    BackendStep(t1, p);
    if w2.None? {
      return Aborted(t1);
    }
    var t2 := w2.value;

    var w3 := WriteFile(t2, FRONTEND_ENV_PATH, FrontendEnv(p));
    FrontendStep(t2, p);
    if w3.None? {
      return Aborted(t2);
    }
    var t3 := w3.value;
    ThreeWritesFrame(copied, p);
    return Created(t3);
  }

  /**
   * Writing `.gitignore` succeeds unless a directory has that name; it then
   * holds the file and leaves the other targets and their directories alone.
   */
  lemma GitignoreStep(es: seq<Entry>)
    ensures WriteFile(es, GITIGNORE_PATH, Gitignore()).Some? <==> !IsDirAt(es, GITIGNORE_PATH)
    ensures WriteFile(es, GITIGNORE_PATH, Gitignore()).Some? ==>
      var r := WriteFile(es, GITIGNORE_PATH, Gitignore()).value;
      && Lookup(Dir(r), GITIGNORE_PATH) == Some(File(Gitignore(), true))
      && Lookup(Dir(r), ["backend"]) == Lookup(Dir(es), ["backend"])
      && Lookup(Dir(r), ["frontend"]) == Lookup(Dir(es), ["frontend"])
      && Lookup(Dir(r), BACKEND_ENV_PATH) == Lookup(Dir(es), BACKEND_ENV_PATH)
      && Lookup(Dir(r), FRONTEND_ENV_PATH) == Lookup(Dir(es), FRONTEND_ENV_PATH)
  {
    SeparatePaths();
    WriteFileSucceeds(es, GITIGNORE_PATH, Gitignore());
    assert GITIGNORE_PATH[..0] == [];
    if WriteFile(es, GITIGNORE_PATH, Gitignore()).Some? {
      WriteFileWrites(es, GITIGNORE_PATH, Gitignore());
      WriteFileFrame(es, GITIGNORE_PATH, Gitignore(), ["backend"]);
      WriteFileFrame(es, GITIGNORE_PATH, Gitignore(), ["frontend"]);
      WriteFileFrame(es, GITIGNORE_PATH, Gitignore(), BACKEND_ENV_PATH);
      WriteFileFrame(es, GITIGNORE_PATH, Gitignore(), FRONTEND_ENV_PATH);
    }
  }

  /**
   * Writing `backend/.env.example` succeeds when `backend` is a directory and
   * the target is not; it then holds the file and leaves the other targets alone.
   */
  lemma BackendStep(es: seq<Entry>, p: Params)
    ensures WriteFile(es, BACKEND_ENV_PATH, BackendEnv(p)).Some? <==>
      IsDirAt(es, ["backend"]) && !IsDirAt(es, BACKEND_ENV_PATH)
    ensures WriteFile(es, BACKEND_ENV_PATH, BackendEnv(p)).Some? ==>
      var r := WriteFile(es, BACKEND_ENV_PATH, BackendEnv(p)).value;
      && Lookup(Dir(r), BACKEND_ENV_PATH) == Some(File(BackendEnv(p), true))
      && Lookup(Dir(r), GITIGNORE_PATH) == Lookup(Dir(es), GITIGNORE_PATH)
      && Lookup(Dir(r), ["frontend"]) == Lookup(Dir(es), ["frontend"])
      && Lookup(Dir(r), FRONTEND_ENV_PATH) == Lookup(Dir(es), FRONTEND_ENV_PATH)
  {
    SeparatePaths();
    WriteFileSucceeds(es, BACKEND_ENV_PATH, BackendEnv(p));
    assert BACKEND_ENV_PATH[..1] == ["backend"];
    if WriteFile(es, BACKEND_ENV_PATH, BackendEnv(p)).Some? {
      WriteFileWrites(es, BACKEND_ENV_PATH, BackendEnv(p));
      WriteFileFrame(es, BACKEND_ENV_PATH, BackendEnv(p), GITIGNORE_PATH);
      WriteFileFrame(es, BACKEND_ENV_PATH, BackendEnv(p), ["frontend"]);
      WriteFileFrame(es, BACKEND_ENV_PATH, BackendEnv(p), FRONTEND_ENV_PATH);
    }
  }

  /**
   * Writing `frontend/.env.example` succeeds when `frontend` is a directory and
   * the target is not; it then holds the file and leaves the other two alone.
   */
  lemma FrontendStep(es: seq<Entry>, p: Params)
    ensures WriteFile(es, FRONTEND_ENV_PATH, FrontendEnv(p)).Some? <==>
      IsDirAt(es, ["frontend"]) && !IsDirAt(es, FRONTEND_ENV_PATH)
    ensures WriteFile(es, FRONTEND_ENV_PATH, FrontendEnv(p)).Some? ==>
      var r := WriteFile(es, FRONTEND_ENV_PATH, FrontendEnv(p)).value;
      && Lookup(Dir(r), FRONTEND_ENV_PATH) == Some(File(FrontendEnv(p), true))
      && Lookup(Dir(r), GITIGNORE_PATH) == Lookup(Dir(es), GITIGNORE_PATH)
      && Lookup(Dir(r), BACKEND_ENV_PATH) == Lookup(Dir(es), BACKEND_ENV_PATH)
  {
    SeparatePaths();
    WriteFileSucceeds(es, FRONTEND_ENV_PATH, FrontendEnv(p));
    assert FRONTEND_ENV_PATH[..1] == ["frontend"];
    if WriteFile(es, FRONTEND_ENV_PATH, FrontendEnv(p)).Some? {
      WriteFileWrites(es, FRONTEND_ENV_PATH, FrontendEnv(p));
      WriteFileFrame(es, FRONTEND_ENV_PATH, FrontendEnv(p), GITIGNORE_PATH);
      WriteFileFrame(es, FRONTEND_ENV_PATH, FrontendEnv(p), BACKEND_ENV_PATH);
    }
  }

  /**
   * When all three writes succeed, every path that is not a generated file,
   * or a directory on the way to one, reads as in the copy.
   */
  lemma ThreeWritesFrame(copied: seq<Entry>, p: Params)
    ensures var w1 := WriteFile(copied, GITIGNORE_PATH, Gitignore());
      w1.Some? ==>
      var w2 := WriteFile(w1.value, BACKEND_ENV_PATH, BackendEnv(p));
      w2.Some? ==>
      var w3 := WriteFile(w2.value, FRONTEND_ENV_PATH, FrontendEnv(p));
      w3.Some? ==>
      forall q :: !Generated(q) ==> Lookup(Dir(w3.value), q) == Lookup(Dir(copied), q)
  {
    var w1 := WriteFile(copied, GITIGNORE_PATH, Gitignore());
    if w1.Some? {
      var t1 := w1.value;
      var w2 := WriteFile(t1, BACKEND_ENV_PATH, BackendEnv(p));
      if w2.Some? {
        var t2 := w2.value;
        var w3 := WriteFile(t2, FRONTEND_ENV_PATH, FrontendEnv(p));
        if w3.Some? {
          forall q | !Generated(q)
            ensures Lookup(Dir(w3.value), q) == Lookup(Dir(copied), q)
          {
            WriteFileFrame(copied, GITIGNORE_PATH, Gitignore(), q);
            WriteFileFrame(t1, BACKEND_ENV_PATH, BackendEnv(p), q);
            WriteFileFrame(t2, FRONTEND_ENV_PATH, FrontendEnv(p), q);
          }
        }
      }
    }
  }

  /** Paths whose first names differ in length are not on the way to each other. */
  lemma FirstNamesDiffer(q: seq<string>, path: seq<string>)
    requires |q| > 0 && |path| > 0 && |q[0]| != |path[0]|
    ensures !IsPrefix(q, path)
  {
    if |q| <= |path| {
      assert path[..|q|][0] == path[0];
    }
  }

  /** No generated file lies on the way to another, or to the other top-level directory. */
  lemma SeparatePaths()
    ensures !IsPrefix(["backend"], GITIGNORE_PATH) && !IsPrefix(["frontend"], GITIGNORE_PATH)
    ensures !IsPrefix(BACKEND_ENV_PATH, GITIGNORE_PATH) && !IsPrefix(FRONTEND_ENV_PATH, GITIGNORE_PATH)
    ensures !IsPrefix(GITIGNORE_PATH, BACKEND_ENV_PATH) && !IsPrefix(["frontend"], BACKEND_ENV_PATH)
    ensures !IsPrefix(FRONTEND_ENV_PATH, BACKEND_ENV_PATH)
    ensures !IsPrefix(GITIGNORE_PATH, FRONTEND_ENV_PATH) && !IsPrefix(BACKEND_ENV_PATH, FRONTEND_ENV_PATH)
  {
    assert |"backend"| == 7 && |"frontend"| == 8 && |".gitignore"| == 10;
    FirstNamesDiffer(["backend"], GITIGNORE_PATH);
    FirstNamesDiffer(["frontend"], GITIGNORE_PATH);
    FirstNamesDiffer(BACKEND_ENV_PATH, GITIGNORE_PATH);
    FirstNamesDiffer(FRONTEND_ENV_PATH, GITIGNORE_PATH);
    FirstNamesDiffer(GITIGNORE_PATH, BACKEND_ENV_PATH);
    FirstNamesDiffer(["frontend"], BACKEND_ENV_PATH);
    FirstNamesDiffer(FRONTEND_ENV_PATH, BACKEND_ENV_PATH);
    FirstNamesDiffer(GITIGNORE_PATH, FRONTEND_ENV_PATH);
    FirstNamesDiffer(BACKEND_ENV_PATH, FRONTEND_ENV_PATH);
  }

  /** The copy is ready for the generated files exactly when the template is. */
  lemma ReadyOfCopy(src: seq<Entry>, p: Params)
    ensures Ready(CopyEntries(src, p)) <==> Ready(src)
  {
    NotSkipped(["backend"]);
    NotSkipped(["frontend"]);
    NotSkipped(GITIGNORE_PATH);
    NotSkipped(BACKEND_ENV_PATH);
    NotSkipped(FRONTEND_ENV_PATH);
    CopyKeepsShape(src, ["backend"], p);
    CopyKeepsShape(src, ["frontend"], p);
    CopyKeepsShape(src, GITIGNORE_PATH, p);
    CopyKeepsShape(src, BACKEND_ENV_PATH, p);
    CopyKeepsShape(src, FRONTEND_ENV_PATH, p);
  }

  lemma NotSkipped(path: seq<string>)
    requires forall k :: 0 <= k < |path| ==> path[k] in {"backend", "frontend", ".gitignore", ".env.example"}
    ensures !Skipped(path)
  {
  }
}
