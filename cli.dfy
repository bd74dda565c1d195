/**
 * The command-line surface (`main`, main.go): the first argument selects a
 * mode, the pipeline stages of that mode run in sequence, and the process
 * exit status follows from the mode and from whether the Runfile could be
 * written.
 */
module Cli {
  import opened Wrappers
  import opened EnvResolver
  import opened CommandCollector
  import opened Runfile

  const RunCmdName := "run"
  const BuildEnvCmdName := "build-env"

  /** What `os.Args` asks for; `args[0]` is the program name. */
  datatype Mode = MissingCommand | Run | BuildEnv | Unknown(name: string)

  function SelectMode(args: seq<string>): (m: Mode)
    ensures m == MissingCommand <==> |args| <= 1
    ensures m == Run <==> |args| > 1 && args[1] == RunCmdName
    ensures m == BuildEnv <==> |args| > 1 && args[1] == BuildEnvCmdName
    ensures m.Unknown? ==> m.name == args[1] && args[1] != RunCmdName && args[1] != BuildEnvCmdName
  {
    if |args| <= 1 then MissingCommand
    else if args[1] == RunCmdName then Run
    else if args[1] == BuildEnvCmdName then BuildEnv
    else Unknown(args[1])
  }

  /** The pipeline stages `main` goes through, in order. */
  datatype Stage = LoadProperties | ResolveEnvs | RunCommands | WriteRunfile

  function Stages(args: seq<string>): (s: seq<Stage>)
    ensures |args| <= 1 <==> s == []
    ensures |args| > 1 ==> s[0] == LoadProperties
    ensures ResolveEnvs in s <==> SelectMode(args) in {Run, BuildEnv}
    ensures RunCommands in s <==> SelectMode(args) == Run
    ensures WriteRunfile in s <==> SelectMode(args) == BuildEnv
    ensures forall i, j :: 0 <= i < j < |s| ==> s[i] != s[j]
    ensures forall i, j :: 0 <= i < |s| && 0 <= j < |s| && s[i] == ResolveEnvs && s[j] in {RunCommands, WriteRunfile} ==> i < j
  {
    match SelectMode(args)
    case MissingCommand => []
    case Run => [LoadProperties, ResolveEnvs, RunCommands]
    case BuildEnv => [LoadProperties, ResolveEnvs, WriteRunfile]
    case Unknown(_) => [LoadProperties]
  }

  /**
   * The exit status: 2 for a missing or unknown command and for a Runfile
   * that could not be written, 0 otherwise. The commands' own exit
   * statuses play no part.
   */
  function ExitStatus(args: seq<string>, writeOk: bool): (status: int)
    ensures status == 0 || status == 2
    ensures status == 0 <==> |args| > 1 && (args[1] == RunCmdName || (args[1] == BuildEnvCmdName && writeOk))
  {
    match SelectMode(args)
    case MissingCommand => 2
    case Run => 0
    case BuildEnv => if writeOk then 0 else 2
    case Unknown(_) => 2
  }

  /**
   * The exit status of the code as written, where `envTemplateOk` says
   * whether `template.ParseFiles` could load the environment descriptor.
   * When it cannot, the error is printed but the nil template is still
   * executed, which panics, and a Go panic ends the process with status 2.
   */
  function ExitStatusAsWritten(args: seq<string>, envTemplateOk: bool, writeOk: bool): (status: int)
    ensures status == 0 || status == 2
    ensures status == 0 <==> envTemplateOk && ExitStatus(args, writeOk) == 0
  {
    match SelectMode(args)
    case MissingCommand => 2
    case Run => if envTemplateOk then 0 else 2
    case BuildEnv => if !envTemplateOk then 2 else if writeOk then 0 else 2
    case Unknown(_) => 2
  }

  /**
   * A missing `env.buildr` under `run` ends the process with status 2,
   * although the printed error shows that the code means to carry on with
   * an empty environment, which leads to status 0.
   */
  lemma MissingEnvFilePanics()
    ensures ExitStatusAsWritten(["buildr", RunCmdName], false, true) == 2
    ensures ExitStatus(["buildr", RunCmdName], true) == 0
  {
  }

  /** Where the environment template loads, the code as written and the corrected model agree. */
  lemma AsWrittenAgreesWhenEnvLoads(args: seq<string>, writeOk: bool)
    ensures ExitStatusAsWritten(args, true, writeOk) == ExitStatus(args, writeOk)
  {
  }

  /**
   * The whole run of `main` with its I/O supplied: `envDoc` is the parsed
   * environment document (`None` when its template cannot be loaded, which
   * resolves to an empty environment), `walk` the directory walk, `render`
   * the command templates and `writeOk` the outcome of writing the Runfile.
   * Returns the exit status, the commands handed to the executor and the
   * Runfile text; `envs` is the resolved environment, `order` the order
   * the Runfile listed it in, and `trace` the stages gone through.
   */
  method Execute(args: seq<string>, envDoc: Option<map<string, string>>, walk: seq<WalkEntry>,
                 render: Renderer, writeOk: bool)
    returns (status: int, cmds: seq<BuildrCmd>, runfile: Option<string>,
             ghost envs: map<string, string>, ghost order: seq<string>, ghost trace: seq<Stage>)
    ensures trace == Stages(args)
    ensures status == ExitStatus(args, writeOk)
    ensures SelectMode(args) in {Run, BuildEnv} ==>
              MergedFrom(map[], if envDoc.Some? then envDoc.value else map[], envs)
    ensures SelectMode(args) == Run ==> cmds == Collect(walk, envs, render) && runfile == None
    ensures SelectMode(args) == BuildEnv ==>
              && cmds == []
              && Enumerates(order, envs.Keys) && InEnv(order, envs)
              && runfile == Some(RunfileText(order, envs))
    ensures SelectMode(args) !in {Run, BuildEnv} ==> cmds == [] && runfile == None
  {
    cmds, runfile, envs, order, trace := [], None, map[], [], [];
    if |args| <= 1 {
      return 2, cmds, runfile, envs, order, trace;
    }
    trace := [LoadProperties];
    var raw := if envDoc.Some? then envDoc.value else map[];
    if args[1] == RunCmdName {
      var store := new BuildrEnvs();
      store.Merge(raw);
      envs := store.vars;
      trace := trace + [ResolveEnvs];
      cmds := CollectCommands(walk, store.vars, render);
      trace := trace + [RunCommands];
      status := 0;
    } else if args[1] == BuildEnvCmdName {
      var store := new BuildrEnvs();
      store.Merge(raw);
      envs := store.vars;
      trace := trace + [ResolveEnvs];
      var text;
      text, order := GenerateRunfile(store.vars);
      runfile := Some(text);
      trace := trace + [WriteRunfile];
      status := if writeOk then 0 else 2;
    } else {
      status := 2;
    }
  }
}
