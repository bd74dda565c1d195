/**
 * The Environment Resolver's key handling: every key of the parsed
 * environment document is turned into a shell-style name and written into
 * the process-wide environment map (`parseBuildrEnvs`, main.go).
 */
module EnvResolver {
  import opened GoStrings

  /** The shell-style name of a document key: `-` becomes `_`, then the key is upper-cased. */
  function Normalize(k: string): (n: string)
    ensures |n| == |k|
  {
    ToUpper(ReplaceAll(k, '-', '_'))
  }

  /** A name that normalisation produces: no hyphen and no lower-case ASCII letter. */
  predicate IsNormal(n: string) {
    forall i :: 0 <= i < |n| ==> n[i] != '-' && !IsLowerAscii(n[i])
  }

  lemma NormalizeAt(k: string, i: nat)
    requires i < |k|
    ensures Normalize(k)[i] == UpperChar(if k[i] == '-' then '_' else k[i])
  {
    ReplaceAllAt(k, '-', '_', i);
    ToUpperAt(ReplaceAll(k, '-', '_'), i);
  }

  /** A normalised key has the length of the key and contains no `-` and no lower-case letter. */
  lemma NormalizeIsNormal(k: string)
    ensures |Normalize(k)| == |k|
    ensures IsNormal(Normalize(k))
  {
    forall i | 0 <= i < |k|
      ensures Normalize(k)[i] != '-' && !IsLowerAscii(Normalize(k)[i])
    {
      NormalizeAt(k, i);
    }
  }

  /** Normalisation leaves a key unchanged exactly when the key is already normal. */
  lemma NormalizeFixesExactlyNormal(k: string)
    ensures Normalize(k) == k <==> IsNormal(k)
  {
    if IsNormal(k) {
      forall i | 0 <= i < |k| ensures Normalize(k)[i] == k[i] {
        NormalizeAt(k, i);
      }
    } else {
      NormalizeIsNormal(k);
    }
  }

  /** Normalising twice gives the same name as normalising once. */
  lemma NormalizeIdempotent(k: string)
    ensures Normalize(Normalize(k)) == Normalize(k)
  {
    NormalizeIsNormal(k);
    NormalizeFixesExactlyNormal(Normalize(k));
  }

  /** Normalisation works character by character, so it distributes over concatenation. */
  lemma NormalizeConcat(a: string, b: string)
    ensures Normalize(a + b) == Normalize(a) + Normalize(b)
  {
    forall i | 0 <= i < |a + b| ensures Normalize(a + b)[i] == (Normalize(a) + Normalize(b))[i] {
      NormalizeAt(a + b, i);
      if i < |a| {
        NormalizeAt(a, i);
      } else {
        NormalizeAt(b, i - |a|);
      }
    }
  }

  /** The key `database-host` is exported as `DATABASE_HOST`. */
  lemma NormalizeDatabaseHost()
    ensures Normalize("database-host") == "DATABASE_HOST"
  {
    calc {
      Normalize("database-host");
    == { assert "database-host" == "data" + "base" + "-" + "host";
         NormalizeConcat("data", "base");
         NormalizeConcat("data" + "base", "-");
         NormalizeConcat("data" + "base" + "-", "host"); }
      Normalize("data") + Normalize("base") + Normalize("-") + Normalize("host");
    == { assert Normalize("data") == "DATA"; }
      "DATA" + Normalize("base") + Normalize("-") + Normalize("host");
    == { assert Normalize("base") == "BASE"; }
      "DATA" + "BASE" + Normalize("-") + Normalize("host");
    == { assert Normalize("-") == "_"; }
      "DATA" + "BASE" + "_" + Normalize("host");
    == { assert Normalize("host") == "HOST"; }
      "DATABASE_HOST";
    }
  }

  /** The names that a set of document keys normalise to. */
  ghost function NormalNames(keys: set<string>): set<string> {
    set k | k in keys :: Normalize(k)
  }

  /**
   * `after` is a map that merging the document `raw` into `before` can
   * produce: its keys are the old ones plus the normal names of the raw
   * keys; each such name holds the value of SOME raw key with that normal
   * form (Go's map iteration order decides which one when several collide);
   * every other name keeps its old value.
   */
  ghost predicate MergedFrom(before: map<string, string>, raw: map<string, string>, after: map<string, string>) {
    && after.Keys == before.Keys + NormalNames(raw.Keys)
    && (forall k :: k in raw ==> HoldsValueOfSomeKey(raw, after, Normalize(k)))
    && (forall n :: n in before && n !in NormalNames(raw.Keys) ==> after[n] == before[n])
  }

  /** `after` maps the name `n` to the value of some key of `raw` whose normal form is `n`. */
  ghost predicate HoldsValueOfSomeKey(raw: map<string, string>, after: map<string, string>, n: string) {
    HoldsValueOfKeyIn(raw.Keys, raw, after, n)
  }

  /** `after` maps `n` to the value of some key among `keys` whose normal form is `n`. */
  ghost predicate HoldsValueOfKeyIn(keys: set<string>, raw: map<string, string>, after: map<string, string>, n: string) {
    n in after && exists k' :: k' in keys && k' in raw && Normalize(k') == n && after[n] == raw[k']
  }

  /** No two distinct keys of the document share a normal form. */
  ghost predicate NoCollisions(raw: map<string, string>) {
    forall k1, k2 :: k1 in raw && k2 in raw && Normalize(k1) == Normalize(k2) ==> k1 == k2
  }

  /** Without colliding keys the merged map is fully determined by its inputs. */
  lemma MergeDeterministic(before: map<string, string>, raw: map<string, string>,
                           a: map<string, string>, b: map<string, string>)
    requires NoCollisions(raw)
    requires MergedFrom(before, raw, a) && MergedFrom(before, raw, b)
    ensures a == b
  {
    forall n | n in a.Keys ensures n in b && a[n] == b[n] {
      if n in NormalNames(raw.Keys) {
        SameValueWithoutCollisions(raw, a, b, n);
      }
    }
  }

  /** Two merges of a collision-free document agree on every name the document defines. */
  lemma SameValueWithoutCollisions(raw: map<string, string>, a: map<string, string>, b: map<string, string>, n: string)
    requires NoCollisions(raw)
    requires forall k :: k in raw ==> HoldsValueOfSomeKey(raw, a, Normalize(k))
    requires forall k :: k in raw ==> HoldsValueOfSomeKey(raw, b, Normalize(k))
    requires n in NormalNames(raw.Keys)
    ensures n in a && n in b && a[n] == b[n]
  {
    var k :| k in raw && Normalize(k) == n;
    assert HoldsValueOfSomeKey(raw, a, n);
    assert HoldsValueOfSomeKey(raw, b, n);
    var ka :| ka in raw && Normalize(ka) == n && a[n] == raw[ka];
    var kb :| kb in raw && Normalize(kb) == n && b[n] == raw[kb];
    assert ka == kb;
  }

  /**
   * Without colliding keys, resolving the same document a second time into
   * the map the first resolution produced changes nothing.
   */
  lemma MergeIdempotent(before: map<string, string>, raw: map<string, string>,
                        once: map<string, string>, twice: map<string, string>)
    requires NoCollisions(raw)
    requires MergedFrom(before, raw, once) && MergedFrom(once, raw, twice)
    ensures twice == once
  {
    forall n | n in once.Keys ensures n in twice && twice[n] == once[n] {
      if n in NormalNames(raw.Keys) {
        SameValueWithoutCollisions(raw, once, twice, n);
      }
    }
  }

  /**
   * With colliding keys the outcome is not determined: `a-b` and `a_b` both
   * normalise to `A_B`, and either value may survive the merge.
   */
  lemma MergeCollisionEitherValue()
    ensures MergedFrom(map[], map["a-b" := "1", "a_b" := "2"], map["A_B" := "1"])
    ensures MergedFrom(map[], map["a-b" := "1", "a_b" := "2"], map["A_B" := "2"])
  {
    var raw := map["a-b" := "1", "a_b" := "2"];
    assert Normalize("a-b") == "A_B";
    assert Normalize("a_b") == "A_B";
    assert raw.Keys == {"a-b", "a_b"};
    assert NormalNames(raw.Keys) == {"A_B"};
  }

  /** Writing the entry of key `k` keeps every name defined by `done` (and `k` itself) sourced from `done + {k}`. */
  lemma WriteKeepsValues(done: set<string>, raw: map<string, string>, vars: map<string, string>, k: string)
    requires k in raw
    requires forall d :: d in done ==> HoldsValueOfKeyIn(done, raw, vars, Normalize(d))
    ensures forall d :: d in done + {k} ==>
              HoldsValueOfKeyIn(done + {k}, raw, vars[Normalize(k) := raw[k]], Normalize(d))
  {
    var vars' := vars[Normalize(k) := raw[k]];
    forall d | d in done + {k} ensures HoldsValueOfKeyIn(done + {k}, raw, vars', Normalize(d)) {
      if Normalize(d) == Normalize(k) {
        assert vars'[Normalize(d)] == raw[k];
      } else {
        var w :| w in done && w in raw && Normalize(w) == Normalize(d) && vars[Normalize(d)] == raw[w];
        assert vars'[Normalize(d)] == raw[w];
      }
    }
  }

  /** The process-wide environment map `buildrEnvs`. */
  class BuildrEnvs {
    var vars: map<string, string>

    /** Created empty at process start. */
    constructor ()
      ensures vars == map[]
    {
      vars := map[];
    }

    /**
     * The `for k, v := range rawEnvs` loop: writes every raw entry under its
     * normal name, in an order the model leaves open.
     */
    method Merge(raw: map<string, string>)
      modifies this
      ensures MergedFrom(old(vars), raw, vars)
    {
      ghost var before := vars;
      var pending := raw.Keys;
      ghost var done: set<string> := {};
      while pending != {}
        invariant pending <= raw.Keys
        invariant done == raw.Keys - pending
        invariant vars.Keys == before.Keys + NormalNames(done)
        invariant forall k :: k in done ==> HoldsValueOfKeyIn(done, raw, vars, Normalize(k))
        invariant forall n :: n in before && n !in NormalNames(done) ==> vars[n] == before[n]
        decreases pending
      {
        var k :| k in pending;
        WriteKeepsValues(done, raw, vars, k);
        vars := vars[Normalize(k) := raw[k]];
        pending := pending - {k};
        done := done + {k};
      }
    }
  }
}
