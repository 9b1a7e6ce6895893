/**
 * Command-line dispatch of Application/Core/Command.php: argv is shifted into
 * the command type and its arguments, "scheduler" runs a scheduler class
 * found by naming convention, and "cache:clear" empties the page cache.
 * What the source echoes, logs or invokes is returned as an Outcome.
 */
module Command {
  import opened ByteStrings
  import opened Env
  import opened Utils

  /** How a command ends: text echoed, one Logger call, or a scheduler method invoked. */
  datatype Outcome = Echoed(text: Bytes) | Logged(call: LogCall) | Invoked(className: Bytes, action: Bytes)

  /** Scheduler name and action from "name:action"; the action falls back to "execute" when missing or PHP-empty. */
  function SchedulerTarget(arg: Bytes): (Bytes, Bytes) {
    var pieces := Explode(":", arg);
    (pieces[0], if |pieces| >= 2 && !IsEmptyString(pieces[1]) then pieces[1] else "execute")
  }

  /** camelize(name) . "Scheduler". */
  function SchedulerClass(name: Bytes): Bytes {
    Camelize(name) + "Scheduler"
  }

  /** APP_ROOT . "Schedulers" . DS . class . ".php". */
  function SchedulerPath(host: Host, className: Bytes): Bytes {
    host.appRoot + "Schedulers" + host.ds + className + ".php"
  }

  function FileMissing(path: Bytes): LogCall {
    LogCall("error", "Scheduler file not found: " + path)
  }

  function ClassMissing(className: Bytes, path: Bytes): LogCall {
    LogCall("error", "Scheduler class " + className + " not found in " + path)
  }

  function MethodMissing(action: Bytes, className: Bytes): LogCall {
    LogCall("error", "Method " + action + " not found in Scheduler class " + className)
  }

  /** What executeScheduler does for a first argument: the file, the class and the method must exist, in that order. */
  function SchedulerOutcome(host: Host, arg: Bytes): Outcome {
    var (scheduler, action) := SchedulerTarget(arg);
    var className := SchedulerClass(scheduler);
    var path := SchedulerPath(host, className);
    if !FileExists(host, path) then Logged(FileMissing(path))
    else if !ClassExists(host, className) then Logged(ClassMissing(className, path))
    else if !MethodExists(host, className, action) then Logged(MethodMissing(action, className))
    else Invoked(className, action)
  }

  /** The message cache:clear logs for a count of deleted files. */
  function ClearedMessage(count: nat): Bytes {
    if count > 0 then "There are " + Decimal(count) + " files deleted from cache." else "No files found in cache."
  }

  class Command {
    var commandType: Option<Bytes>
    var commandArgument: seq<Bytes>

    constructor ()
      ensures commandType == None && commandArgument == []
    {
      commandType, commandArgument := None, [];
    }

    /** Command::run. `argc` is None when run() is called without arguments. */
    method Run(argc: Option<int>, argv: seq<Bytes>, host: Host, cache: CacheDir) returns (outcome: Outcome)
      modifies this, cache
      ensures argc == None || argc == Some(0) ==>
                outcome == Echoed("Invalid arguments") && commandType == old(commandType)
                && commandArgument == old(commandArgument) && cache.files == old(cache.files)
      ensures argc != None && argc != Some(0) ==>
                commandType == (if |argv| >= 2 then Some(argv[1]) else None)
                && commandArgument == (if |argv| >= 2 then argv[2..] else [])
      ensures argc != None && argc != Some(0) && commandType == Some("scheduler") ==>
                outcome == (if |commandArgument| == 0 then Echoed("Scheduler name not defined")
                            else SchedulerOutcome(host, commandArgument[0]))
                && cache.files == old(cache.files)
      ensures argc != None && argc != Some(0) && commandType == Some("cache:clear") ==>
                outcome == Logged(LogCall("debug", ClearedMessage(|old(cache.files)|))) && cache.files == map[]
      ensures argc != None && argc != Some(0) && commandType != Some("scheduler") && commandType != Some("cache:clear") ==>
                outcome == Echoed("Invalid command arguments") && cache.files == old(cache.files)
    {
      if argc == None || argc == Some(0) {
        return Echoed("Invalid arguments");
      }
      var args := argv;
      if |args| > 0 {
        args := args[1..];
      }
      if |args| > 0 {
        commandType := Some(args[0]);
        args := args[1..];
      } else {
        commandType := None;
      }
      commandArgument := args;
      if commandType == Some("scheduler") {
        outcome := ExecuteScheduler(host);
      } else if commandType == Some("cache:clear") {
        var count := ClearCache(cache);
        outcome := Logged(LogCall("debug", ClearedMessage(count)));
      } else {
        outcome := Echoed("Invalid command arguments");
      }
    }

    /** Command::executeScheduler. */
    method ExecuteScheduler(host: Host) returns (outcome: Outcome)
      ensures |commandArgument| == 0 ==> outcome == Echoed("Scheduler name not defined")
      ensures |commandArgument| > 0 ==> outcome == SchedulerOutcome(host, commandArgument[0])
      ensures outcome.Invoked? ==> |commandArgument| > 0 && SchedulerRuns(host, commandArgument[0])
    {
      if |commandArgument| == 0 {
        return Echoed("Scheduler name not defined");
      }
      var target := SchedulerTarget(commandArgument[0]);
      var action := target.1;
      var className := SchedulerClass(target.0);
      var path := SchedulerPath(host, className);
      if FileExists(host, path) {
        if ClassExists(host, className) {
          if MethodExists(host, className, action) {
            outcome := Invoked(className, action);
          } else {
            outcome := Logged(MethodMissing(action, className));
          }
        } else {
          outcome := Logged(ClassMissing(className, path));
        }
      } else {
        outcome := Logged(FileMissing(path));
      }
      SchedulerRunsIff(host, commandArgument[0]);
    }
  }

  /** The three existence checks all pass for the scheduler an argument names. */
  predicate SchedulerRuns(host: Host, arg: Bytes) {
    var (scheduler, action) := SchedulerTarget(arg);
    var className := SchedulerClass(scheduler);
    FileExists(host, SchedulerPath(host, className)) && ClassExists(host, className)
      && MethodExists(host, className, action)
  }

  // ------------------------------------------------------------- lemmas

  /** A scheduler method runs exactly when file, class and method exist, and it is camelize(name)."Scheduler" that runs. */
  lemma SchedulerRunsIff(host: Host, arg: Bytes)
    ensures SchedulerOutcome(host, arg).Invoked? <==> SchedulerRuns(host, arg)
    ensures SchedulerOutcome(host, arg).Invoked? ==>
              SchedulerOutcome(host, arg) == Invoked(SchedulerClass(SchedulerTarget(arg).0), SchedulerTarget(arg).1)
  {
  }

  /** "name:action" with colon-free parts: the name, and the action unless it is "" or "0". */
  lemma SchedulerTargetSplit(name: Bytes, action: Bytes)
    requires ':' !in name && ':' !in action
    ensures SchedulerTarget(name + ":" + action) == (name, if IsEmptyString(action) then "execute" else action)
  {
    ExplodeAfterPrefix(":", name, action);
    ContainsByte(action, ':');
    ExplodeWithoutDelimiter(":", action);
  }

  /** A bare name runs its "execute" method. */
  lemma SchedulerTargetBareName(name: Bytes)
    requires ':' !in name
    ensures SchedulerTarget(name) == (name, "execute")
  {
    ContainsByte(name, ':');
    ExplodeWithoutDelimiter(":", name);
  }

  /** Unlike the action segment of a URL, an action "0" is PHP-empty and falls back to "execute". */
  lemma ZeroActionRunsExecute(name: Bytes)
    requires ':' !in name
    ensures SchedulerTarget(name + ":0") == (name, "execute")
  {
    var zero: Bytes := "0";
    assert ':' !in zero && IsEmptyString(zero);
    assert name + ":" + zero == name + ":0";
    SchedulerTargetSplit(name, zero);
  }

  /** Each failed check logs a message the other two cannot produce. */
  lemma MissingMessagesDiffer(path: Bytes, className: Bytes, action: Bytes, path': Bytes, className': Bytes)
    ensures FileMissing(path) != ClassMissing(className, path')
    ensures FileMissing(path) != MethodMissing(action, className')
    ensures ClassMissing(className, path) != MethodMissing(action, className')
  {
    var f, c, m := FileMissing(path).message, ClassMissing(className, path).message, MethodMissing(action, className').message;
    assert f[10] == 'f' && ClassMissing(className, path').message[10] == 'c';
    assert f[0] == 'S' && m[0] == 'M' && c[0] == 'S';
  }

  /** cache:clear reports the count only when something was deleted. */
  lemma ClearedMessageReportsCount(count: nat, none: Bytes)
    requires none == "No files found in cache."
    ensures count == 0 <==> ClearedMessage(count) == none
  {
    if count > 0 {
      var m := ClearedMessage(count);
      assert m[0] == 'T' && none[0] == 'N';
    }
  }
}
