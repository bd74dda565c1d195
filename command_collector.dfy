/**
 * The Command Collector (`getInterpolatedCmdFiles`, main.go): walks the
 * environment directory, keeps the entries whose path contains the marker
 * `.cmd.buildr`, renders each one, and stops at the first walk error or
 * template-parse error while keeping what it already collected.
 */
module CommandCollector {
  import opened Wrappers
  import opened GoStrings

  /** The environment `-e` selects when it is not given. */
  const DefaultEnvironment := "test"

  /** The directory walked for an environment, as formatted by `getInterpolatedCmdFiles`. */
  function WalkRoot(environment: string): string {
    "./.buildr/" + environment + "/"
  }

  /** The substring that marks a command-template file. */
  const CmdMarker := ".cmd.buildr"

  /** A collected command: the template's path and its rendered shell text. */
  datatype BuildrCmd = BuildrCmd(filename: string, filedata: string)

  /**
   * One call of the walk callback: the visited path, and whether
   * `filepath.Walk` handed it an error for that path.
   */
  datatype WalkEntry = WalkEntry(path: string, walkErr: bool)

  /**
   * Parsing a template file and executing it with the environment as
   * context: `None` when `template.ParseFiles` fails, otherwise the rendered
   * text (execution errors are ignored, so they are part of the text).
   */
  type Renderer = (string, map<string, string>) -> Option<string>

  predicate IsCmdFile(path: string) {
    Contains(path, CmdMarker)
  }

  /** This entry makes the callback return an error, which ends the walk. */
  predicate Stops(e: WalkEntry, env: map<string, string>, render: Renderer) {
    e.walkErr || (IsCmdFile(e.path) && render(e.path, env).None?)
  }

  /**
   * What the callback collects from `walk[i..]` before the walk ends: at
   * most one command per entry, each naming a command file and holding
   * that file's rendering.
   */
  function CollectFrom(walk: seq<WalkEntry>, i: nat, env: map<string, string>, render: Renderer): (r: seq<BuildrCmd>)
    requires i <= |walk|
    ensures |r| <= |walk| - i
    ensures forall c :: c in r ==> IsCmdFile(c.filename) && render(c.filename, env) == Some(c.filedata)
    decreases |walk| - i
  {
    if i == |walk| then []
    else
      var e := walk[i];
      if e.walkErr then []
      else if !IsCmdFile(e.path) then CollectFrom(walk, i + 1, env, render)
      else match render(e.path, env)
        case None => []
        case Some(text) => [BuildrCmd(e.path, text)] + CollectFrom(walk, i + 1, env, render)
  }

  /** The commands `getInterpolatedCmdFiles` returns for the walk `walk`. */
  function Collect(walk: seq<WalkEntry>, env: map<string, string>, render: Renderer): (r: seq<BuildrCmd>)
    ensures |r| <= |walk|
    ensures forall c :: c in r ==> IsCmdFile(c.filename) && render(c.filename, env) == Some(c.filedata)
  {
    CollectFrom(walk, 0, env, render)
  }

  /** The walk callback applied entry by entry, appending to `cmds`. */
  method CollectCommands(walk: seq<WalkEntry>, env: map<string, string>, render: Renderer)
    returns (cmds: seq<BuildrCmd>)
    ensures cmds == Collect(walk, env, render)
  {
    cmds := [];
    var i := 0;
    while i < |walk|
      invariant 0 <= i <= |walk|
      invariant Collect(walk, env, render) == cmds + CollectFrom(walk, i, env, render)
    {
      var e := walk[i];
      if e.walkErr {
        return;
      }
      if IsCmdFile(e.path) {
        var rendered := render(e.path, env);
        if rendered.None? {
          return;
        }
        cmds := cmds + [BuildrCmd(e.path, rendered.value)];
      }
      i := i + 1;
    }
  }

  // ----- An independent reference: filter and render, without any stopping -----

  /** The position of the first entry that ends the walk, or `|walk|` if none does. */
  function FirstStop(walk: seq<WalkEntry>, env: map<string, string>, render: Renderer): (s: nat)
    ensures s <= |walk|
    ensures forall j :: 0 <= j < s ==> !Stops(walk[j], env, render)
    ensures s < |walk| ==> Stops(walk[s], env, render)
  {
    if walk == [] then 0
    else if Stops(walk[0], env, render) then 0
    else 1 + FirstStop(walk[1..], env, render)
  }

  predicate NoStop(w: seq<WalkEntry>, env: map<string, string>, render: Renderer) {
    forall j :: 0 <= j < |w| ==> !Stops(w[j], env, render)
  }

  /** Every command-file entry of `w`, rendered, in walk order. */
  function Matches(w: seq<WalkEntry>, env: map<string, string>, render: Renderer): seq<BuildrCmd>
    requires NoStop(w, env, render)
  {
    if w == [] then []
    else
      var e := w[|w| - 1];
      Matches(w[..|w| - 1], env, render)
        + (if IsCmdFile(e.path) then [BuildrCmd(e.path, render(e.path, env).value)] else [])
  }

  /** The positions of the command-file entries of `w`, in increasing order. */
  ghost function MatchPositions(w: seq<WalkEntry>): seq<nat> {
    if w == [] then []
    else MatchPositions(w[..|w| - 1]) + (if IsCmdFile(w[|w| - 1].path) then [|w| - 1] else [])
  }

  lemma {:induction false} MatchesAppend(a: seq<WalkEntry>, b: seq<WalkEntry>, env: map<string, string>, render: Renderer)
    requires NoStop(a, env, render) && NoStop(b, env, render)
    ensures NoStop(a + b, env, render)
    ensures Matches(a + b, env, render) == Matches(a, env, render) + Matches(b, env, render)
    decreases |b|
  {
    assert NoStop(a + b, env, render) by {
      forall j | 0 <= j < |a + b| ensures !Stops((a + b)[j], env, render) {
        if j >= |a| { assert (a + b)[j] == b[j - |a|]; }
      }
    }
    if b == [] {
      assert a + b == a;
    } else {
      var b' := b[..|b| - 1];
      assert (a + b)[..|a + b| - 1] == a + b';
      assert (a + b)[|a + b| - 1] == b[|b| - 1];
      MatchesAppend(a, b', env, render);
    }
  }

  /** An entry that does not stop the walk contributes exactly its own match, then collection goes on. */
  lemma CollectFromStep(walk: seq<WalkEntry>, i: nat, env: map<string, string>, render: Renderer)
    requires i < |walk| && !Stops(walk[i], env, render)
    ensures NoStop([walk[i]], env, render)
    ensures CollectFrom(walk, i, env, render) == Matches([walk[i]], env, render) + CollectFrom(walk, i + 1, env, render)
  {
    assert [walk[i]][..0] == [];
  }

  /** From position `i` up to the first stop, the collector yields exactly the rendered matches. */
  lemma {:induction false} CollectFromIsMatches(walk: seq<WalkEntry>, i: nat, env: map<string, string>, render: Renderer)
    requires i <= FirstStop(walk, env, render)
    ensures NoStop(walk[i..FirstStop(walk, env, render)], env, render)
    ensures CollectFrom(walk, i, env, render) == Matches(walk[i..FirstStop(walk, env, render)], env, render)
    decreases |walk| - i
  {
    var s := FirstStop(walk, env, render);
    if i == s {
      assert walk[i..s] == [];
    } else {
      CollectFromIsMatches(walk, i + 1, env, render);
      CollectFromStep(walk, i, env, render);
      assert walk[i..s] == [walk[i]] + walk[i + 1..s];
      MatchesAppend([walk[i]], walk[i + 1..s], env, render);
    }
  }

  /**
   * The collector returns exactly the rendered command files that come
   * before the first walk error or parse error; nothing after it counts.
   */
  lemma CollectIsMatchesBeforeStop(walk: seq<WalkEntry>, env: map<string, string>, render: Renderer)
    ensures NoStop(walk[..FirstStop(walk, env, render)], env, render)
    ensures Collect(walk, env, render) == Matches(walk[..FirstStop(walk, env, render)], env, render)
  {
    CollectFromIsMatches(walk, 0, env, render);
    assert walk[0..FirstStop(walk, env, render)] == walk[..FirstStop(walk, env, render)];
  }

  /**
   * The match positions of `w` are increasing positions of `w` holding the
   * marker, and every position holding the marker is among them.
   */
  lemma {:induction false} MatchPositionsExact(w: seq<WalkEntry>)
    ensures |MatchPositions(w)| <= |w|
    ensures forall k :: 0 <= k < |MatchPositions(w)| ==>
              MatchPositions(w)[k] < |w| && IsCmdFile(w[MatchPositions(w)[k]].path)
    ensures forall k1, k2 :: 0 <= k1 < k2 < |MatchPositions(w)| ==> MatchPositions(w)[k1] < MatchPositions(w)[k2]
    ensures forall j :: 0 <= j < |w| && IsCmdFile(w[j].path) ==> j in MatchPositions(w)
  {
    if w != [] {
      var w' := w[..|w| - 1];
      MatchPositionsExact(w');
      forall j | 0 <= j < |w| - 1 ensures w[j] == w'[j] { }
    }
  }

  /**
   * `Matches(w)` consists of one command per command-file entry of `w`, in
   * walk order: the k-th command comes from the k-th such entry, carries its
   * path and its rendered text; entries without the marker contribute nothing.
   */
  lemma {:induction false} MatchesInWalkOrder(w: seq<WalkEntry>, env: map<string, string>, render: Renderer)
    requires NoStop(w, env, render)
    ensures |Matches(w, env, render)| == |MatchPositions(w)| <= |w|
    ensures forall k :: 0 <= k < |MatchPositions(w)| ==>
              && MatchPositions(w)[k] < |w|
              && IsCmdFile(w[MatchPositions(w)[k]].path)
              && Matches(w, env, render)[k]
                 == BuildrCmd(w[MatchPositions(w)[k]].path, render(w[MatchPositions(w)[k]].path, env).value)
    ensures forall k1, k2 :: 0 <= k1 < k2 < |MatchPositions(w)| ==> MatchPositions(w)[k1] < MatchPositions(w)[k2]
    ensures forall j :: 0 <= j < |w| && IsCmdFile(w[j].path) ==> j in MatchPositions(w)
  {
    MatchPositionsExact(w);
    if w != [] {
      var w' := w[..|w| - 1];
      assert NoStop(w', env, render) by {
        forall j | 0 <= j < |w'| ensures !Stops(w'[j], env, render) { assert w'[j] == w[j]; }
      }
      MatchesInWalkOrder(w', env, render);
      MatchPositionsExact(w');
      var ms, ps := Matches(w, env, render), MatchPositions(w);
      forall k | 0 <= k < |ps|
        ensures ms[k] == BuildrCmd(w[ps[k]].path, render(w[ps[k]].path, env).value)
      {
        if k < |MatchPositions(w')| {
          assert w[ps[k]] == w'[ps[k]];
        }
      }
    }
  }

  /**
   * The k-th collected command comes from the k-th command-file entry that
   * the walk visits before its first stop, with that entry's path and
   * rendered text; every command-file entry before the stop contributes.
   */
  lemma CollectInWalkOrder(walk: seq<WalkEntry>, env: map<string, string>, render: Renderer)
    ensures var s := FirstStop(walk, env, render);
            var ps := MatchPositions(walk[..s]);
            && |Collect(walk, env, render)| == |ps|
            && (forall k :: 0 <= k < |ps| ==>
                  && ps[k] < s
                  && IsCmdFile(walk[ps[k]].path)
                  && Collect(walk, env, render)[k]
                     == BuildrCmd(walk[ps[k]].path, render(walk[ps[k]].path, env).value))
            && (forall k1, k2 :: 0 <= k1 < k2 < |ps| ==> ps[k1] < ps[k2])
            && (forall j :: 0 <= j < s && IsCmdFile(walk[j].path) ==> j in ps)
  {
    var s := FirstStop(walk, env, render);
    CollectIsMatchesBeforeStop(walk, env, render);
    MatchesInWalkOrder(walk[..s], env, render);
    forall j | 0 <= j < s ensures walk[..s][j] == walk[j] { }
  }

  /** A walk error at position `i` discards everything the walk would have visited after it. */
  lemma WalkErrorCutsOff(walk: seq<WalkEntry>, i: nat, env: map<string, string>, render: Renderer)
    requires i < |walk| && walk[i].walkErr
    ensures Collect(walk, env, render) == Collect(walk[..i], env, render)
  {
    CollectPrefixUpTo(walk, i, 0, env, render);
  }

  /** A command file that fails to parse at position `i` likewise ends collection there. */
  lemma ParseErrorCutsOff(walk: seq<WalkEntry>, i: nat, env: map<string, string>, render: Renderer)
    requires i < |walk| && IsCmdFile(walk[i].path) && render(walk[i].path, env).None?
    ensures Collect(walk, env, render) == Collect(walk[..i], env, render)
  {
    CollectPrefixUpTo(walk, i, 0, env, render);
  }

  lemma {:induction false} CollectPrefixUpTo(walk: seq<WalkEntry>, i: nat, j: nat, env: map<string, string>, render: Renderer)
    requires j <= i < |walk| && Stops(walk[i], env, render)
    ensures CollectFrom(walk, j, env, render) == CollectFrom(walk[..i], j, env, render)
    decreases i - j
  {
    if j < i {
      assert walk[..i][j] == walk[j];
      CollectPrefixUpTo(walk, i, j + 1, env, render);
    }
  }

  /** A path without the letter `c` cannot hold the command-file marker. */
  lemma NoCmdFileWithoutC(path: string)
    requires 'c' !in path
    ensures !IsCmdFile(path)
  {
    if IsCmdFile(path) {
      ContainsNeedsEveryChar(path, CmdMarker, 1);
      assert false;
    }
  }

  /** A path that ends in the marker is a command file. */
  lemma MarkerSuffixIsCmdFile(stem: string)
    ensures IsCmdFile(stem + CmdMarker)
  {
    var p := stem + CmdMarker;
    assert p[|stem|..|stem| + |CmdMarker|] == CmdMarker;
    assert OccursAt(p, CmdMarker, |stem|);
  }

  /**
   * The walk of the default environment visits the root first, then, in
   * lexical order, its two command files and the environment descriptor
   * `env.buildr`, under the cleaned names `filepath.Join` gives them. Neither
   * the root nor the descriptor is a command file; both command files are
   * collected in walk order with their rendered bodies.
   */
  lemma TwoCommandFilesInWalkOrder(env: map<string, string>, render: Renderer)
    requires render(".buildr/test/a.cmd.buildr", env) == Some("echo db.demo.local")
    requires render(".buildr/test/b.cmd.buildr", env) == Some("echo done")
    ensures Collect([WalkEntry(WalkRoot(DefaultEnvironment), false),
                     WalkEntry(".buildr/test/a.cmd.buildr", false),
                     WalkEntry(".buildr/test/b.cmd.buildr", false),
                     WalkEntry(".buildr/test/env.buildr", false)], env, render)
            == [BuildrCmd(".buildr/test/a.cmd.buildr", "echo db.demo.local"),
                BuildrCmd(".buildr/test/b.cmd.buildr", "echo done")]
  {
    var root, d := WalkRoot(DefaultEnvironment), ".buildr/test/env.buildr";
    assert root == "./.buildr/test/";
    NoCmdFileWithoutC(root);
    NoCmdFileWithoutC(d);
    var a, b := ".buildr/test/a.cmd.buildr", ".buildr/test/b.cmd.buildr";
    assert a == ".buildr/test/a" + CmdMarker && b == ".buildr/test/b" + CmdMarker;
    MarkerSuffixIsCmdFile(".buildr/test/a");
    MarkerSuffixIsCmdFile(".buildr/test/b");
    var walk := [WalkEntry(root, false), WalkEntry(a, false), WalkEntry(b, false), WalkEntry(d, false)];
    assert CollectFrom(walk, 4, env, render) == [];
    assert CollectFrom(walk, 3, env, render) == [];
    assert CollectFrom(walk, 2, env, render) == [BuildrCmd(b, "echo done")];
    assert CollectFrom(walk, 1, env, render) == [BuildrCmd(a, "echo db.demo.local"), BuildrCmd(b, "echo done")];
  }
}
