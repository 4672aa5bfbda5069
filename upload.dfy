/** The `/upload-ifc` handler: validation of the uploaded file, the name of
    its temporary copy, and the sequence of effects that saves the copy,
    hands it to the ingestion collaborator and removes it again. */
module Upload {
  import opened Text
  import opened Http

  /** The multipart field the handler reads. */
  const FilePart := "file"
  /** The directory temporary copies are written to. */
  const TempDir := "temp_uploads"

  const NoFilePart := "No file part in request"
  const NoSelectedFile := "No selected file"
  const OnlyIfc := "Only .ifc files are allowed"
  const Processed := "IFC file uploaded and processed successfully"

  /** An uploaded file as the handler sees it: only its client-supplied name
      decides anything (its bytes are copied verbatim and never inspected). */
  datatype FileStorage = FileStorage(filename: string)

  // ---------------------------------------------------------------- validation

  datatype Check = Accepted(file: FileStorage) | Rejected(message: string)

  /** `filename.lower().endswith('.ifc')`. */
  predicate HasIfcExtension(filename: string) {
    EndsWith(Lower(filename), ".ifc")
  }

  /** The same test stated character by character: the last four characters
      are a dot and the letters i, f, c in either case. */
  predicate EndsInDotIfc(name: string) {
    |name| >= 4 &&
    name[|name| - 4] == '.' &&
    (name[|name| - 3] == 'i' || name[|name| - 3] == 'I') &&
    (name[|name| - 2] == 'f' || name[|name| - 2] == 'F') &&
    (name[|name| - 1] == 'c' || name[|name| - 1] == 'C')
  }

  lemma IfcExtensionIff(name: string)
    ensures HasIfcExtension(name) <==> EndsInDotIfc(name)
  {
    var low := Lower(name);
    if |name| >= 4 {
      var n := |name|;
      var tail := low[n - 4..];
      assert tail[0] == LowerChar(name[n - 4]) && tail[1] == LowerChar(name[n - 3]);
      assert tail[2] == LowerChar(name[n - 2]) && tail[3] == LowerChar(name[n - 1]);
      if EndsInDotIfc(name) {
        assert tail == ".ifc";
      }
    }
  }

  /** The three checks in the order the handler makes them; each failure
      names its own reason, and a file passes exactly when its name ends in
      `.ifc` in any letter case (so the empty-name check only chooses the
      message). */
  function Validate(files: map<string, FileStorage>): (r: Check)
    ensures r.Accepted? <==> FilePart in files && EndsInDotIfc(files[FilePart].filename)
    ensures r.Accepted? ==> r.file == files[FilePart]
    ensures FilePart !in files ==> r == Rejected(NoFilePart)
    ensures FilePart in files && files[FilePart].filename == [] ==> r == Rejected(NoSelectedFile)
    ensures FilePart in files && files[FilePart].filename != [] && !EndsInDotIfc(files[FilePart].filename)
      ==> r == Rejected(OnlyIfc)
  {
    if FilePart !in files then Rejected(NoFilePart)
    else
      var file := files[FilePart];
      IfcExtensionIff(file.filename);
      if file.filename == [] then Rejected(NoSelectedFile)
      else if !HasIfcExtension(file.filename) then Rejected(OnlyIfc)
      else Accepted(file)
  }

  lemma ValidationExamples()
    ensures Validate(map[FilePart := FileStorage("model.IFC")]).Accepted?
    ensures Validate(map[FilePart := FileStorage("model.txt")]) == Rejected(OnlyIfc)
    ensures Validate(map[FilePart := FileStorage(".ifc")]).Accepted?
    ensures Validate(map[FilePart := FileStorage("")]) == Rejected(NoSelectedFile)
    ensures Validate(map["upload" := FileStorage("model.ifc")]) == Rejected(NoFilePart)
  {
  }

  // ------------------------------------------------------------ temporary path

  /** `os.path.join(a, b)` on POSIX for two components. */
  function PathJoin(a: string, b: string): string {
    if |b| > 0 && b[0] == '/' then b
    else if a == [] || a[|a| - 1] == '/' then a + b
    else a + "/" + b
  }

  /** What `uuid.uuid4().hex` produces: 32 lower-case hexadecimal digits. */
  predicate IsUuidHex(token: string) {
    |token| == 32 && forall i :: 0 <= i < |token| ==> token[i] in "0123456789abcdef"
  }

  /** The temporary copy of `filename` for the random `token`. */
  function TempPath(token: string, filename: string): (path: string)
    ensures path == "temp_uploads/temp_" + token + "_" + filename
  {
    PathJoin(TempDir, "temp_" + token + "_" + filename)
  }

  /** For tokens of one length the temporary path determines both the token
      and the file name, so two different tokens never share a path. */
  lemma TempPathInjective(t1: string, f1: string, t2: string, f2: string)
    requires |t1| == |t2|
    ensures TempPath(t1, f1) == TempPath(t2, f2) <==> t1 == t2 && f1 == f2
  {
    var p1, p2 := TempPath(t1, f1), TempPath(t2, f2);
    if p1 == p2 {
      var n := |"temp_uploads/temp_"|;
      assert t1 == p1[n..n + |t1|];
      assert t2 == p2[n..n + |t2|];
      assert f1 == p1[n + |t1| + 1..];
      assert f2 == p2[n + |t2| + 1..];
    }
  }

  /** Two requests that drew different uuid tokens write to different files. */
  lemma DistinctTokensDistinctPaths(t1: string, f1: string, t2: string, f2: string)
    requires IsUuidHex(t1) && IsUuidHex(t2) && t1 != t2
    ensures TempPath(t1, f1) != TempPath(t2, f2)
  {
    TempPathInjective(t1, f1, t2, f2);
  }

  /** A temporary path is never the temporary directory itself. */
  lemma TempPathIsNotTempDir(token: string, filename: string)
    ensures TempPath(token, filename) != TempDir
  {
    assert |TempPath(token, filename)| > |TempDir|;
  }

  // ------------------------------------------------------------------ effects

  /** The calls the handler makes on the outside world, in the terms of
      `os.makedirs`, `file.save`, `process_ifc_file` and `os.remove`. */
  datatype Effect =
    | MakeDirs(dir: string)
    | Save(path: string)
    | ProcessIfc(path: string, database: string)
    | Remove(path: string)

  /** How one call ended: it returned, or it raised an exception derived
      from `Exception` (the class the handler's `except` catches) whose
      `str(e)` is `reason`. `created` says whether the call had already created its
      file when it raised; it matters only for `file.save`, which opens the
      destination for writing before it copies the upload into it, so a
      failure while copying or closing leaves a truncated file behind. */
  datatype Outcome = Returned | Raised(reason: string, created: bool)

  /** How each of the four calls of one request would end; decided by the
      filesystem and the ingestion collaborator, not by the handler. */
  datatype Env = Env(makeDirs: Outcome, save: Outcome, process: Outcome, remove: Outcome)

  /** The paths that exist after `e` returned normally. `os.makedirs` with
      `exist_ok=True` accepts an existing directory and `file.save`
      overwrites. `process_ifc_file` is assumed not to create or delete
      files: its code is not part of this model. */
  function Apply(paths: set<string>, e: Effect): set<string> {
    match e
    case MakeDirs(dir) => paths + {dir}
    case Save(path) => paths + {path}
    case ProcessIfc(_, _) => paths
    case Remove(path) => paths - {path}
  }

  /** The paths that exist after `e` raised. Creating one directory and
      removing one file are single system calls that either happen or not;
      a raising `file.save` leaves its destination behind when it had
      already created it. */
  function ApplyRaised(paths: set<string>, e: Effect, created: bool): set<string> {
    match e
    case Save(path) => if created then paths + {path} else paths
    case _ => paths
  }

  /** The paths after every effect of `es` returned normally, in order. */
  function ApplyAll(paths: set<string>, es: seq<Effect>): set<string>
    decreases |es|
  {
    if es == [] then paths else ApplyAll(Apply(paths, es[0]), es[1..])
  }

  /** The end of a `try` block: the calls it made, how it left, and the paths
      that exist afterwards. */
  datatype Attempt = Attempt(effects: seq<Effect>, outcome: Outcome, paths: set<string>)

  /** A `try` block of straight-line calls: each call runs only if every
      earlier one returned, and the first exception ends the block. */
  function RunSteps(paths: set<string>, steps: seq<Effect>, outcomes: seq<Outcome>): (a: Attempt)
    requires |steps| == |outcomes|
    ensures |a.effects| <= |steps| && a.effects == steps[..|a.effects|]
    ensures a.outcome.Returned? <==> forall k :: 0 <= k < |outcomes| ==> outcomes[k].Returned?
    ensures a.outcome.Returned? ==> a.effects == steps && a.paths == ApplyAll(paths, steps)
    ensures a.outcome.Raised? ==>
      |a.effects| >= 1 && a.outcome == outcomes[|a.effects| - 1] &&
      (forall k :: 0 <= k < |a.effects| - 1 ==> outcomes[k].Returned?) &&
      a.paths == ApplyRaised(ApplyAll(paths, steps[..|a.effects| - 1]), steps[|a.effects| - 1], a.outcome.created)
    decreases |steps|
  {
    if steps == [] then Attempt([], Returned, paths)
    else if outcomes[0].Raised? then
      Attempt([steps[0]], outcomes[0], ApplyRaised(paths, steps[0], outcomes[0].created))
    else
      var rest := RunSteps(Apply(paths, steps[0]), steps[1..], outcomes[1..]);
      assert forall k :: 1 <= k < |outcomes| ==> outcomes[k] == outcomes[1..][k - 1];
      assert rest.outcome.Raised? ==>
        steps[..|rest.effects|][1..] == steps[1..][..|rest.effects| - 1];
      Attempt([steps[0]] + rest.effects, rest.outcome, rest.paths)
  }

  /** The calls of the `try` block, in source order. */
  function Plan(path: string, database: string): seq<Effect> {
    [MakeDirs(TempDir), Save(path), ProcessIfc(path, database), Remove(path)]
  }

  function Outcomes(env: Env): seq<Outcome> {
    [env.makeDirs, env.save, env.process, env.remove]
  }

  /** One request: the response, the calls made, and the resulting paths. */
  datatype Run = Run(response: Response, effects: seq<Effect>, paths: set<string>)

  /** What `upload_ifc` does with the request's `files`, the drawn `token`,
      the configured `database` and the existing `paths`: it answers 200, 400
      or 500, makes a call exactly when the file passed validation, and the
      calls it makes are the first ones of the plan for the file's temporary
      path. */
  function UploadRun(files: map<string, FileStorage>, token: string, database: string,
                     paths: set<string>, env: Env): (run: Run)
    ensures run.response.status in {Ok, BadRequest, InternalServerError}
    ensures run.effects == [] <==> Validate(files).Rejected?
    ensures Validate(files).Accepted? ==>
      var steps := Plan(TempPath(token, files[FilePart].filename), database);
      |run.effects| <= |steps| && run.effects == steps[..|run.effects|]
  {
    match Validate(files)
    case Rejected(message) => Run(Response(BadRequest, Error(message)), [], paths)
    case Accepted(file) =>
      var a := RunSteps(paths, Plan(TempPath(token, file.filename), database), Outcomes(env));
      match a.outcome
      case Returned => Run(Response(Ok, Message(Processed)), a.effects, a.paths)
      case Raised(reason, _) => Run(Response(InternalServerError, Error(reason)), a.effects, a.paths)
  }

  /** A 400 comes from validation alone, and then nothing was touched: no
      directory, no file, no call to the ingestion collaborator. */
  lemma RejectedUploadTouchesNothing(files: map<string, FileStorage>, token: string, database: string,
                                     paths: set<string>, env: Env)
    ensures UploadRun(files, token, database, paths, env).response.status == BadRequest
      <==> Validate(files).Rejected?
    ensures Validate(files).Rejected? ==>
      UploadRun(files, token, database, paths, env)
        == Run(Response(BadRequest, Error(Validate(files).message)), [], paths)
  {
  }

  lemma {:induction false} ApplyAllConcat(paths: set<string>, xs: seq<Effect>, ys: seq<Effect>)
    ensures ApplyAll(paths, xs + ys) == ApplyAll(ApplyAll(paths, xs), ys)
    decreases |xs|
  {
    if xs == [] {
      assert xs + ys == ys;
    } else {
      assert (xs + ys)[1..] == xs[1..] + ys;
      ApplyAllConcat(Apply(paths, xs[0]), xs[1..], ys);
    }
  }

  /** The paths after each prefix of the plan has returned. */
  lemma PlanPaths(paths: set<string>, path: string, database: string)
    ensures var steps := Plan(path, database);
      ApplyAll(paths, steps[..0]) == paths &&
      ApplyAll(paths, steps[..1]) == paths + {TempDir} &&
      ApplyAll(paths, steps[..2]) == paths + {TempDir, path} &&
      ApplyAll(paths, steps[..3]) == paths + {TempDir, path} &&
      ApplyAll(paths, steps) == (paths + {TempDir}) - {path}
  {
    var steps := Plan(path, database);
    forall k | 0 <= k < 4
      ensures ApplyAll(paths, steps[..k + 1]) == Apply(ApplyAll(paths, steps[..k]), steps[k])
    {
      assert steps[..k + 1] == steps[..k] + [steps[k]];
      ApplyAllConcat(paths, steps[..k], [steps[k]]);
      assert [steps[k]][1..] == [];
    }
    assert steps[..0] == [];
    assert steps[..4] == steps;
  }

  /** The `try` block of one request, case by case: an exception from any
      call ends it at once, so no later call is made; a save that raised
      after creating the file leaves it behind; when all four return, the
      temporary file is gone again. */
  lemma PlanAttempt(paths: set<string>, path: string, database: string, env: Env)
    ensures var a := RunSteps(paths, Plan(path, database), Outcomes(env));
      (env.makeDirs.Raised? ==>
        a == Attempt([MakeDirs(TempDir)], env.makeDirs, paths)) &&
      (env.makeDirs.Returned? && env.save.Raised? ==>
        a == Attempt([MakeDirs(TempDir), Save(path)], env.save,
                     if env.save.created then paths + {TempDir, path} else paths + {TempDir})) &&
      (env.makeDirs.Returned? && env.save.Returned? && env.process.Raised? ==>
        a == Attempt([MakeDirs(TempDir), Save(path), ProcessIfc(path, database)], env.process,
                     paths + {TempDir, path})) &&
      (env.makeDirs.Returned? && env.save.Returned? && env.process.Returned? && env.remove.Raised? ==>
        a == Attempt(Plan(path, database), env.remove, paths + {TempDir, path})) &&
      (env.makeDirs.Returned? && env.save.Returned? && env.process.Returned? && env.remove.Returned? ==>
        a == Attempt(Plan(path, database), Returned, (paths + {TempDir}) - {path}))
  {
    var steps, outs := Plan(path, database), Outcomes(env);
    PlanPaths(paths, path, database);
    var a := RunSteps(paths, steps, outs);
    assert outs[0] == env.makeDirs && outs[1] == env.save && outs[2] == env.process && outs[3] == env.remove;
    var n := |a.effects|;
    if env.makeDirs.Raised? {
      assert a.outcome.Raised?;
      assert n == 1;
    } else if env.save.Raised? {
      assert a.outcome.Raised?;
      assert n == 2;
    } else if env.process.Raised? {
      assert a.outcome.Raised?;
      assert n == 3;
    } else if env.remove.Raised? {
      assert a.outcome.Raised?;
      assert n == 4;
    } else {
      assert a.outcome.Returned?;
    }
  }

  /** A 200 happens exactly when all four calls returned; then they ran in
      the order makedirs, save, process, remove, and the temporary file is
      gone while the temporary directory exists. */
  lemma UploadSucceeds(files: map<string, FileStorage>, token: string, database: string,
                       paths: set<string>, env: Env)
    requires Validate(files).Accepted?
    ensures var run := UploadRun(files, token, database, paths, env);
      var path := TempPath(token, files[FilePart].filename);
      (run.response.status == Ok <==>
        env.makeDirs.Returned? && env.save.Returned? && env.process.Returned? && env.remove.Returned?) &&
      (run.response.status == Ok ==>
        run.response.body == Message(Processed) &&
        run.effects == [MakeDirs(TempDir), Save(path), ProcessIfc(path, database), Remove(path)] &&
        path !in run.paths && TempDir in run.paths &&
        run.paths == (paths + {TempDir}) - {path})
  {
    TempPathIsNotTempDir(token, files[FilePart].filename);
    PlanAttempt(paths, TempPath(token, files[FilePart].filename), database, env);
  }

  /** An exception from any call ends the request with a 500 carrying the
      exception's text, and no later call is made. Nothing cleans up: a save
      that raised after creating the file leaves it behind, and when
      ingestion raises, `os.remove` is never reached and the saved temporary
      file is still there. */
  lemma UploadFails(files: map<string, FileStorage>, token: string, database: string,
                    paths: set<string>, env: Env)
    requires Validate(files).Accepted?
    ensures var run := UploadRun(files, token, database, paths, env);
      var path := TempPath(token, files[FilePart].filename);
      (env.makeDirs.Raised? ==>
        run == Run(Response(InternalServerError, Error(env.makeDirs.reason)), [MakeDirs(TempDir)], paths)) &&
      (env.makeDirs.Returned? && env.save.Raised? ==>
        run == Run(Response(InternalServerError, Error(env.save.reason)), [MakeDirs(TempDir), Save(path)],
                   if env.save.created then paths + {TempDir, path} else paths + {TempDir})) &&
      (env.makeDirs.Returned? && env.save.Returned? && env.process.Raised? ==>
        run == Run(Response(InternalServerError, Error(env.process.reason)),
                   [MakeDirs(TempDir), Save(path), ProcessIfc(path, database)], paths + {TempDir, path})) &&
      (env.makeDirs.Returned? && env.save.Returned? && env.process.Returned? && env.remove.Raised? ==>
        run == Run(Response(InternalServerError, Error(env.remove.reason)),
                   Plan(path, database), paths + {TempDir, path}))
  {
    PlanAttempt(paths, TempPath(token, files[FilePart].filename), database, env);
  }

  /** For a fresh temporary path, the temporary file outlives the request
      exactly when save raised after creating it, or save returned and then
      ingestion or removal raised. */
  lemma TempFileLeftBehindIff(files: map<string, FileStorage>, token: string, database: string,
                              paths: set<string>, env: Env)
    requires Validate(files).Accepted?
    requires TempPath(token, files[FilePart].filename) !in paths
    ensures TempPath(token, files[FilePart].filename) in UploadRun(files, token, database, paths, env).paths
      <==> env.makeDirs.Returned? &&
           ((env.save.Raised? && env.save.created) ||
            (env.save.Returned? && (env.process.Raised? || env.remove.Raised?)))
  {
    UploadSucceeds(files, token, database, paths, env);
    UploadFails(files, token, database, paths, env);
    TempPathIsNotTempDir(token, files[FilePart].filename);
  }

  // ------------------------------------------------------------ the handler

  /** The outside world of one process: the paths that exist on its
      filesystem and, in order, every call the handler has made on it. */
  class Host {
    var paths: set<string>
    var log: seq<Effect>

    constructor(existing: set<string>)
      ensures paths == existing && log == []
    {
      paths := existing;
      log := [];
    }

    /** Records the call `e` and changes the paths as `Apply` says when it
        returned and as `ApplyRaised` says when it raised. */
    method Perform(e: Effect, outcome: Outcome) returns (r: Outcome)
      modifies this
      ensures r == outcome && log == old(log) + [e]
      ensures paths == if outcome.Returned? then Apply(old(paths), e) else ApplyRaised(old(paths), e, outcome.created)
    {
      log := log + [e];
      paths := if outcome.Returned? then Apply(paths, e) else ApplyRaised(paths, e, outcome.created);
      r := outcome;
    }

    /** `os.makedirs(dir, exist_ok=True)`. */
    method MakeDirs(dir: string, outcome: Outcome) returns (r: Outcome)
      modifies this
      ensures r == outcome && log == old(log) + [Effect.MakeDirs(dir)]
      ensures paths == if outcome.Returned? then Apply(old(paths), Effect.MakeDirs(dir))
                       else ApplyRaised(old(paths), Effect.MakeDirs(dir), outcome.created)
    {
      r := Perform(Effect.MakeDirs(dir), outcome);
    }

    /** `file.save(path)`: the file exists once it returned, and also when it
        raised after creating the file. */
    method Save(path: string, outcome: Outcome) returns (r: Outcome)
      modifies this
      ensures r == outcome && log == old(log) + [Effect.Save(path)]
      ensures paths == if outcome.Returned? then Apply(old(paths), Effect.Save(path))
                       else ApplyRaised(old(paths), Effect.Save(path), outcome.created)
    {
      r := Perform(Effect.Save(path), outcome);
    }

    /** `process_ifc_file(path, driver, database)`: assumed to leave the
        paths as they are (its code is not part of this model). */
    method ProcessIfcFile(path: string, database: string, outcome: Outcome) returns (r: Outcome)
      modifies this
      ensures r == outcome && log == old(log) + [ProcessIfc(path, database)]
      ensures paths == if outcome.Returned? then Apply(old(paths), ProcessIfc(path, database))
                       else ApplyRaised(old(paths), ProcessIfc(path, database), outcome.created)
    {
      r := Perform(ProcessIfc(path, database), outcome);
    }

    /** `os.remove(path)`. */
    method Remove(path: string, outcome: Outcome) returns (r: Outcome)
      modifies this
      ensures r == outcome && log == old(log) + [Effect.Remove(path)]
      ensures paths == if outcome.Returned? then Apply(old(paths), Effect.Remove(path))
                       else ApplyRaised(old(paths), Effect.Remove(path), outcome.created)
    {
      r := Perform(Effect.Remove(path), outcome);
    }
  }

  /** The `try` block of `upload_ifc` up to its `return`: create the
      directory, save the copy, ingest it, remove it, stopping at the first
      exception. */
  method SaveProcessRemove(host: Host, path: string, database: string, env: Env)
    returns (outcome: Outcome)
    modifies host
    ensures var a := RunSteps(old(host.paths), Plan(path, database), Outcomes(env));
      outcome == a.outcome && host.log == old(host.log) + a.effects && host.paths == a.paths
  {
    PlanAttempt(host.paths, path, database, env);
    ghost var log0 := host.log;
    outcome := host.MakeDirs(TempDir, env.makeDirs);
    if outcome.Raised? {
      return;
    }
    outcome := host.Save(path, env.save);
    if outcome.Raised? {
      assert host.log == log0 + [MakeDirs(TempDir), Save(path)];
      return;
    }
    outcome := host.ProcessIfcFile(path, database, env.process);
    if outcome.Raised? {
      assert host.log == log0 + [MakeDirs(TempDir), Save(path), ProcessIfc(path, database)];
      return;
    }
    outcome := host.Remove(path, env.remove);
    assert host.log == log0 + Plan(path, database);
  }

  /** `upload_ifc`: the three checks, then the `try` block, on `host`. */
  method UploadIfc(host: Host, files: map<string, FileStorage>, token: string, database: string, env: Env)
    returns (response: Response)
    modifies host
    ensures var run := UploadRun(files, token, database, old(host.paths), env);
      response == run.response && host.log == old(host.log) + run.effects && host.paths == run.paths
  {
    if FilePart !in files {
      return Response(BadRequest, Error(NoFilePart));
    }
    var file := files[FilePart];
    if file.filename == [] {
      return Response(BadRequest, Error(NoSelectedFile));
    }
    IfcExtensionIff(file.filename);
    if !EndsWith(Lower(file.filename), ".ifc") {
      return Response(BadRequest, Error(OnlyIfc));
    }
    var path := TempPath(token, file.filename);
    var outcome := SaveProcessRemove(host, path, database, env);
    match outcome
    case Returned =>
      response := Response(Ok, Message(Processed));
    case Raised(reason, _) =>
      response := Response(InternalServerError, Error(reason));
  }
}
