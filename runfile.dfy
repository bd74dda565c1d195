/**
 * The Runfile Generator (`generateRunfile`, main.go): a shell script that
 * sets every environment entry inline and then starts the program.
 */
module Runfile {
  import opened Wrappers

  /** The first `WriteString`: the interpreter line. */
  const Shebang := "#!/bin/bash"
  /** The second `WriteString`: the generated-file notice, between two newlines. */
  const Notice := "\n# Auto-generated by buildr.  Do not modify.\n"
  /** Everything written before the environment entries. */
  const Header := Shebang + Notice
  /** The fixed command that ends the script. */
  const Tail := "go run *.go"

  /** The fragment `K="V" ` that one environment entry contributes. */
  function Assignment(key: string, value: string): string {
    key + "=\"" + value + "\" "
  }

  predicate InEnv(order: seq<string>, env: map<string, string>) {
    forall k :: k in order ==> k in env
  }

  /** The fragments of the entries named by `order`, in that order. */
  function Assignments(order: seq<string>, env: map<string, string>): string
    requires InEnv(order, env)
  {
    if order == [] then "" else Assignment(order[0], env[order[0]]) + Assignments(order[1..], env)
  }

  /** The whole Runfile when the map is visited in the order `order`. */
  function RunfileText(order: seq<string>, env: map<string, string>): (text: string)
    requires InEnv(order, env)
    ensures |text| >= |Header| + |Tail|
    ensures text[..|Header|] == Header
    ensures text[|text| - |Tail|..] == Tail
    ensures text[|Header|..|text| - |Tail|] == Assignments(order, env)
  {
    Header + Assignments(order, env) + Tail
  }

  /** `order` lists every key of `keys` exactly once. */
  ghost predicate Enumerates(order: seq<string>, keys: set<string>) {
    && (forall i, j :: 0 <= i < j < |order| ==> order[i] != order[j])
    && (forall k :: k in order <==> k in keys)
  }

  lemma {:induction false} AssignmentsSnoc(order: seq<string>, k: string, env: map<string, string>)
    requires InEnv(order + [k], env)
    ensures Assignments(order + [k], env) == Assignments(order, env) + Assignment(k, env[k])
  {
    if order == [] {
      assert [k][1..] == [];
    } else {
      assert (order + [k])[1..] == order[1..] + [k];
      AssignmentsSnoc(order[1..], k, env);
    }
  }

  /**
   * The buffer assembly: header, one fragment per entry of `env` in the
   * map's (unspecified) iteration order, then the tail. `order` is the
   * iteration order the run happened to take.
   */
  method GenerateRunfile(env: map<string, string>) returns (text: string, ghost order: seq<string>)
    ensures |text| >= |Header| + |Tail|
    ensures text[..|Header|] == Header && text[|text| - |Tail|..] == Tail
    ensures Enumerates(order, env.Keys)
    ensures InEnv(order, env) && text == RunfileText(order, env)
  {
    var b := Shebang;
    b := b + Notice;
    order := [];
    var pending := env.Keys;
    while pending != {}
      invariant pending <= env.Keys
      invariant forall i, j :: 0 <= i < j < |order| ==> order[i] != order[j]
      invariant forall k :: k in order <==> k in env.Keys - pending
      invariant b == Header + Assignments(order, env)
      decreases pending
    {
      var k :| k in pending;
      assert k !in order;
      AssignmentsSnoc(order, k, env);
      b := b + Assignment(k, env[k]);
      order := order + [k];
      pending := pending - {k};
    }
    text := b + Tail;
  }

  // ----- Reading a Runfile back: the inverse of the assembly -----

  /** The position of the first `c` in `s`, or `|s|` if there is none. */
  function IndexOf(s: string, c: char): (i: nat)
    ensures i <= |s|
    ensures i < |s| ==> s[i] == c
    ensures forall j :: 0 <= j < i ==> s[j] != c
  {
    if s == [] then 0 else if s[0] == c then 0 else 1 + IndexOf(s[1..], c)
  }

  /** Splits a run of `K="V" ` fragments back into its (key, value) pairs. */
  function ParseAssignments(s: string): Option<seq<(string, string)>>
    decreases |s|
  {
    if s == [] then Some([])
    else
      var eq := IndexOf(s, '=');
      if eq + 1 >= |s| || s[eq + 1] != '"' then None
      else
        var rest := s[eq + 2..];
        var q := IndexOf(rest, '"');
        if q + 1 >= |rest| || rest[q + 1] != ' ' then None
        else match ParseAssignments(rest[q + 2..])
          case None => None
          case Some(pairs) => Some([(s[..eq], rest[..q])] + pairs)
  }

  /** Reads a whole Runfile: the header, the fragments, the tail. */
  function ParseRunfile(text: string): Option<seq<(string, string)>> {
    if |text| < |Header| + |Tail| || text[..|Header|] != Header || text[|text| - |Tail|..] != Tail then None
    else ParseAssignments(text[|Header|..|text| - |Tail|])
  }

  /** The (key, value) pairs of `env` in the order `order`. */
  function Pairs(order: seq<string>, env: map<string, string>): seq<(string, string)>
    requires InEnv(order, env)
  {
    if order == [] then [] else [(order[0], env[order[0]])] + Pairs(order[1..], env)
  }

  /** Keys without `=` and values without `"`: the fragments can be told apart again. */
  predicate Separable(order: seq<string>, env: map<string, string>) {
    forall k :: k in order ==> k in env && '=' !in k && '"' !in env[k]
  }

  lemma {:induction false} IndexOfAfter(p: string, c: char, q: string)
    requires c !in p
    ensures IndexOf(p + [c] + q, c) == |p|
  {
    if p != [] {
      assert (p + [c] + q)[1..] == p[1..] + [c] + q;
      IndexOfAfter(p[1..], c, q);
    }
  }

  /** One fragment in front of `more` is split off intact, and parsing continues with `more`. */
  lemma ParseOneAssignment(k: string, v: string, more: string)
    requires '=' !in k && '"' !in v
    ensures ParseAssignments(Assignment(k, v) + more)
            == match ParseAssignments(more)
               case None => None
               case Some(pairs) => Some([(k, v)] + pairs)
  {
    var s := Assignment(k, v) + more;
    assert s == k + ['='] + (['"'] + v + "\" " + more);
    IndexOfAfter(k, '=', ['"'] + v + "\" " + more);
    var rest := s[|k| + 2..];
    assert rest == v + ['"'] + (" " + more);
    IndexOfAfter(v, '"', " " + more);
    assert rest[|v| + 2..] == more;
    assert s[..|k|] == k;
    assert rest[..|v|] == v;
  }

  lemma {:induction false} ParseAssignmentsInverse(order: seq<string>, env: map<string, string>)
    requires Separable(order, env)
    ensures ParseAssignments(Assignments(order, env)) == Some(Pairs(order, env))
  {
    if order != [] {
      ParseOneAssignment(order[0], env[order[0]], Assignments(order[1..], env));
      ParseAssignmentsInverse(order[1..], env);
    }
  }

  /**
   * Reading back a generated Runfile recovers exactly the entries, one per
   * environment key, whenever keys carry no `=` and values no `"`.
   */
  lemma RunfileRoundTrip(order: seq<string>, env: map<string, string>)
    requires Separable(order, env)
    ensures ParseRunfile(RunfileText(order, env)) == Some(Pairs(order, env))
  {
    ParseAssignmentsInverse(order, env);
  }

  /** With `order` enumerating the keys, the pairs are exactly the entries of `env`, each once. */
  lemma {:induction false} PairsAreEntries(order: seq<string>, env: map<string, string>)
    requires InEnv(order, env)
    ensures |Pairs(order, env)| == |order|
    ensures forall i :: 0 <= i < |order| ==> Pairs(order, env)[i] == (order[i], env[order[i]])
  {
    if order != [] {
      PairsAreEntries(order[1..], env);
    }
  }
}
