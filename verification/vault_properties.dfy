/**
 * What a resolution pass promises: references are tried in order and the
 * first non-empty field wins, an error stops everything, parameters that
 * are already set cost no lookup and are never overwritten, and every
 * resolved entry comes from a secret the store returned.
 */
module VaultProperties {
  import opened Wrappers
  import opened VaultConfig

  /** Names of the parameters a pass does not skip. */
  function UnsetNames(config: Config, params: seq<StepParameter>): set<string> {
    set p <- params | !HasString(config, p.name) :: p.name
  }

  /**
   * The queried paths are the lookup paths of the first references, in
   * order; every answer before the last is a miss; a `Found` ends on the
   * secret that supplied the value, a `Failed` on the error, and a
   * `NotFound` tried every reference.
   */
  lemma {:induction false} TryReferencesInOrder(store: Store, join: PathJoin, config: Config, name: string,
                                                refs: seq<Reference>)
    requires ReferencesReached(store, join, config, name, refs)
    ensures var t := TryReferences(store, join, config, name, refs);
      && |t.queried| <= |refs|
      && (forall j :: 0 <= j < |t.queried| ==> HasString(config, refs[j].name))
      && (forall j :: 0 <= j < |t.queried| ==> t.queried[j] == LookupPath(join, config, refs[j]))
      && (forall j :: 0 <= j < |t.queried| - 1 ==> Miss(store(t.queried[j]), name))
      && (t.attempt.NotFound? ==>
            |t.queried| == |refs| && (|refs| > 0 ==> Miss(store(t.queried[|refs| - 1]), name)))
      && (t.attempt.Found? ==>
            |t.queried| > 0 && t.attempt.value != ""
            && Supplies(store, t.queried[|t.queried| - 1], name, t.attempt.value))
      && (t.attempt.Failed? ==>
            |t.queried| > 0 && store(t.queried[|t.queried| - 1]) == Failure(t.attempt.error))
    decreases |refs|
  {
    if refs != [] {
      var path := LookupPath(join, config, refs[0]);
      if store(path).Success? && Miss(store(path), name) {
        TryReferencesInOrder(store, join, config, name, refs[1..]);
        var rest := TryReferences(store, join, config, name, refs[1..]);
        assert TryReferences(store, join, config, name, refs).queried == [path] + rest.queried;
      }
    }
  }

  /** Corollary of `TryReferencesInOrder`: a parameter with references always queries the first of them. */
  lemma {:induction false} FirstReferenceQueried(store: Store, join: PathJoin, config: Config, name: string, refs: seq<Reference>)
    requires ReferencesReached(store, join, config, name, refs) && |refs| > 0
    ensures var t := TryReferences(store, join, config, name, refs);
      |t.queried| > 0 && t.queried[0] == LookupPath(join, config, refs[0])
  {
    TryReferencesInOrder(store, join, config, name, refs);
  }

  /**
   * Fail fast over the queried paths `q`: every lookup but the last one
   * succeeded, and the last one failed exactly when `error` is present,
   * with that error.
   */
  predicate FailsFast(store: Store, q: seq<string>, error: Option<Error>) {
    && (forall j :: 0 <= j < |q| - 1 ==> store(q[j]).Success?)
    && (error.Some? <==> |q| > 0 && store(q[|q| - 1]).Failure?)
    && (error.Some? ==> store(q[|q| - 1]) == Failure(error.value))
  }

  /** The error a result carries, if any. */
  function ErrorOf<T>(r: Result<T, Error>): (e: Option<Error>)
    ensures e.Some? <==> r.Failure?
  {
    if r.Failure? then Some(r.error) else None
  }

  /** Lookups that all succeeded, followed by lookups that fail fast, fail fast. */
  lemma FailsFastAppend(store: Store, a: seq<string>, b: seq<string>, error: Option<Error>)
    requires FailsFast(store, a, None) && FailsFast(store, b, error)
    ensures FailsFast(store, a + b, error)
  {
    var q := a + b;
    forall j | 0 <= j < |q| - 1 ensures store(q[j]).Success? {
      if j >= |a| {
        assert q[j] == b[j - |a|];
      } else if j == |a| - 1 {
        assert q[j] == a[|a| - 1];
      }
    }
    if b == [] {
      assert q == a;
    } else {
      assert q[|q| - 1] == b[|b| - 1];
    }
  }

  /**
   * Corollary of `TryReferencesInOrder`: a trial fails exactly when its
   * last answer is an error, and every earlier answer succeeded.
   */
  lemma {:induction false} TrialFailFast(store: Store, join: PathJoin, config: Config, name: string, refs: seq<Reference>)
    requires ReferencesReached(store, join, config, name, refs)
    ensures var t := TryReferences(store, join, config, name, refs);
      FailsFast(store, t.queried, if t.attempt.Failed? then Some(t.attempt.error) else None)
  {
    TryReferencesInOrder(store, join, config, name, refs);
  }

  /**
   * Corollary of `TryReferencesInOrder`: a value found by a trial is
   * non-empty and read from the secret at its last queried path.
   */
  lemma {:induction false} TrialFound(store: Store, join: PathJoin, config: Config, name: string, refs: seq<Reference>)
    requires ReferencesReached(store, join, config, name, refs)
    ensures var t := TryReferences(store, join, config, name, refs);
      t.attempt.Found? ==>
        |t.queried| > 0 && t.attempt.value != ""
        && Supplies(store, t.queried[|t.queried| - 1], name, t.attempt.value)
  {
    TryReferencesInOrder(store, join, config, name, refs);
  }

  /**
   * Fail fast: every lookup but the last one succeeded, and the pass fails
   * exactly when the last lookup failed, with that lookup's error.
   */
  lemma {:induction false} FailFast(store: Store, join: PathJoin, config: Config, params: seq<StepParameter>,
                                    acc: map<string, string>)
    requires ParametersReached(store, join, config, params)
    ensures var o := ResolveFrom(store, join, config, params, acc);
      FailsFast(store, o.queried, ErrorOf(o.result))
    decreases |params|
  {
    if params != [] {
      var p := params[0];
      if HasString(config, p.name) {
        FailFast(store, join, config, params[1..], acc);
      } else {
        var t := TryReferences(store, join, config, p.name, p.vaultSecrets);
        TrialFailFast(store, join, config, p.name, p.vaultSecrets);
        if !t.attempt.Failed? {
          var acc' := if t.attempt.Found? then acc[p.name := t.attempt.value] else acc;
          FailFast(store, join, config, params[1..], acc');
          var rest := ResolveFrom(store, join, config, params[1..], acc');
          FailsFastAppend(store, t.queried, rest.queried, ErrorOf(rest.result));
        }
      }
    }
  }

  /**
   * `m` extends `acc`, and every entry of `m` is either an entry of `acc`
   * or the non-empty value of a name in `names`, read from a secret under
   * one of the queried paths `q`.
   */
  ghost predicate ResolvedFrom(store: Store, names: set<string>, acc: map<string, string>, q: seq<string>,
                               m: map<string, string>) {
    && acc.Keys <= m.Keys
    && forall k <- m ::
         || (k in acc && m[k] == acc[k])
         || (k in names && m[k] != "" && exists j :: 0 <= j < |q| && Supplies(store, q[j], k, m[k]))
  }

  /** Entries resolved along `a` and then along `b` are entries resolved along `a + b`. */
  lemma ResolvedFromAppend(store: Store, names: set<string>, names': set<string>, acc: map<string, string>,
                           a: seq<string>, mid: map<string, string>, b: seq<string>, m: map<string, string>)
    requires names' <= names
    requires ResolvedFrom(store, names, acc, a, mid) && ResolvedFrom(store, names', mid, b, m)
    ensures ResolvedFrom(store, names, acc, a + b, m)
  {
    forall k <- m
      ensures || (k in acc && m[k] == acc[k])
              || (k in names && m[k] != "" && exists j :: 0 <= j < |a + b| && Supplies(store, (a + b)[j], k, m[k]))
    {
      if k in mid && m[k] == mid[k] {
        if !(k in acc && mid[k] == acc[k]) {
          var j :| 0 <= j < |a| && Supplies(store, a[j], k, mid[k]);
          assert (a + b)[j] == a[j];
        }
      } else {
        var j :| 0 <= j < |b| && Supplies(store, b[j], k, m[k]);
        assert (a + b)[|a| + j] == b[j];
      }
    }
  }

  /** Allowing more parameter names keeps entries resolved. */
  lemma ResolvedFromWiden(store: Store, names': set<string>, names: set<string>, acc: map<string, string>,
                          q: seq<string>, m: map<string, string>)
    requires names' <= names && ResolvedFrom(store, names', acc, q, m)
    ensures ResolvedFrom(store, names, acc, q, m)
  {
  }

  /** A trial that did not fail resolves its parameter's entry, if found, from its queried paths. */
  lemma TrialResolved(store: Store, join: PathJoin, config: Config, name: string, refs: seq<Reference>,
                      names: set<string>, acc: map<string, string>)
    requires ReferencesReached(store, join, config, name, refs) && name in names
    requires !TryReferences(store, join, config, name, refs).attempt.Failed?
    ensures var t := TryReferences(store, join, config, name, refs);
      ResolvedFrom(store, names, acc, t.queried, if t.attempt.Found? then acc[name := t.attempt.value] else acc)
  {
    var t := TryReferences(store, join, config, name, refs);
    TrialFound(store, join, config, name, refs);
    if t.attempt.Found? {
      assert Supplies(store, t.queried[|t.queried| - 1], name, acc[name := t.attempt.value][name]);
    }
  }

  /**
   * Every entry of a successful pass is either an entry of `acc` or the
   * non-empty value of a parameter the pass did not skip, read from a
   * secret under one of the queried paths; entries are only ever added.
   */
  lemma {:induction false} ResolvedEntries(store: Store, join: PathJoin, config: Config,
                                           params: seq<StepParameter>, acc: map<string, string>)
    requires ParametersReached(store, join, config, params)
    ensures var o := ResolveFrom(store, join, config, params, acc);
      o.result.Success? ==> ResolvedFrom(store, UnsetNames(config, params), acc, o.queried, o.result.value)
    decreases |params|
  {
    if params == [] {
      assert ResolvedFrom(store, {}, acc, [], acc);
    } else {
      var p := params[0];
      var names := UnsetNames(config, params);
      assert UnsetNames(config, params[1..]) <= names;
      if HasString(config, p.name) {
        ResolvedEntries(store, join, config, params[1..], acc);
        var o := ResolveFrom(store, join, config, params[1..], acc);
        if o.result.Success? {
          ResolvedFromWiden(store, UnsetNames(config, params[1..]), names, acc, o.queried, o.result.value);
        }
      } else {
        var t := TryReferences(store, join, config, p.name, p.vaultSecrets);
        if !t.attempt.Failed? {
          var acc' := if t.attempt.Found? then acc[p.name := t.attempt.value] else acc;
          ResolvedEntries(store, join, config, params[1..], acc');
          var rest := ResolveFrom(store, join, config, params[1..], acc');
          if rest.result.Success? {
            TrialResolved(store, join, config, p.name, p.vaultSecrets, names, acc);
            ResolvedFromAppend(store, names, UnsetNames(config, params[1..]), acc, t.queried, acc', rest.queried,
                               rest.result.value);
          }
        }
      }
    }
  }

  /**
   * Explicit configuration wins: every entry of a successful pass belongs
   * to a parameter that is not already set to a string, holds a non-empty
   * value, and was read from a secret under one of the queried paths.
   */
  lemma NeverOverwrites(store: Store, join: PathJoin, config: Config, params: seq<StepParameter>)
    requires ParametersReached(store, join, config, params)
    ensures var o := Resolve(store, join, config, params);
      o.result.Success? ==>
        forall k <- o.result.value ::
          && !HasString(config, k)
          && (exists p <- params :: p.name == k)
          && o.result.value[k] != ""
          && exists j :: 0 <= j < |o.queried| && Supplies(store, o.queried[j], k, o.result.value[k])
  {
    ResolvedEntries(store, join, config, params, map[]);
  }

  /** A pass over `a + b` reads only string base paths when `a` does and, if `a` resolves, so does `b`. */
  lemma {:induction false} ReachedAppend(store: Store, join: PathJoin, config: Config,
                                         a: seq<StepParameter>, b: seq<StepParameter>, acc: map<string, string>)
    requires ParametersReached(store, join, config, a)
    requires ResolveFrom(store, join, config, a, acc).result.Success? ==> ParametersReached(store, join, config, b)
    ensures ParametersReached(store, join, config, a + b)
    decreases |a|
  {
    if a == [] {
      assert a + b == b;
    } else {
      var p := a[0];
      assert (a + b)[0] == p && (a + b)[1..] == a[1..] + b;
      if HasString(config, p.name) {
        ReachedAppend(store, join, config, a[1..], b, acc);
      } else {
        var t := TryReferences(store, join, config, p.name, p.vaultSecrets);
        if !t.attempt.Failed? {
          var acc' := if t.attempt.Found? then acc[p.name := t.attempt.value] else acc;
          ReachedAppend(store, join, config, a[1..], b, acc');
        }
      }
    }
  }

  /** Parameters are processed strictly in order: a pass over `a + b` is a pass over `a`, then over `b`. */
  lemma {:induction false} Sequential(store: Store, join: PathJoin, config: Config,
                                      a: seq<StepParameter>, b: seq<StepParameter>, acc: map<string, string>)
    requires ParametersReached(store, join, config, a + b)
    ensures ParametersReached(store, join, config, a)
    ensures ResolveFrom(store, join, config, a, acc).result.Success? ==> ParametersReached(store, join, config, b)
    ensures var o := ResolveFrom(store, join, config, a, acc);
      ResolveFrom(store, join, config, a + b, acc)
      == if o.result.Failure? then o else ResolveFrom(store, join, config, b, o.result.value).After(o.queried)
    decreases |a|
  {
    if a == [] {
      assert a + b == b;
      assert [] + ResolveFrom(store, join, config, b, acc).queried == ResolveFrom(store, join, config, b, acc).queried;
    } else {
      var p := a[0];
      assert (a + b)[0] == p && (a + b)[1..] == a[1..] + b;
      if HasString(config, p.name) {
        Sequential(store, join, config, a[1..], b, acc);
      } else {
        var t := TryReferences(store, join, config, p.name, p.vaultSecrets);
        if !t.attempt.Failed? {
          var acc' := if t.attempt.Found? then acc[p.name := t.attempt.value] else acc;
          Sequential(store, join, config, a[1..], b, acc');
          var o' := ResolveFrom(store, join, config, a[1..], acc');
          if o'.result.Success? {
            var tail := ResolveFrom(store, join, config, b, o'.result.value);
            AppendAssociative(t.queried, o'.queried, tail.queried);
          }
        }
      }
    }
  }

  /**
   * Skip if set: a parameter already set to a string costs no lookup and
   * changes nothing, since removing it leaves the pass exactly as it was.
   */
  lemma {:induction false} SkipsSetParameter(store: Store, join: PathJoin, config: Config,
                                             params: seq<StepParameter>, k: nat, acc: map<string, string>)
    requires ParametersReached(store, join, config, params) && k < |params| && HasString(config, params[k].name)
    ensures ParametersReached(store, join, config, params[..k] + params[k + 1..])
    ensures ResolveFrom(store, join, config, params[..k] + params[k + 1..], acc)
         == ResolveFrom(store, join, config, params, acc)
    decreases k
  {
    var rest := params[..k] + params[k + 1..];
    if k == 0 {
      assert rest == params[1..];
    } else {
      var p := params[0];
      assert rest[0] == p && rest[1..] == params[1..][..k - 1] + params[1..][k..];
      if HasString(config, p.name) {
        SkipsSetParameter(store, join, config, params[1..], k - 1, acc);
      } else {
        var t := TryReferences(store, join, config, p.name, p.vaultSecrets);
        if !t.attempt.Failed? {
          var acc' := if t.attempt.Found? then acc[p.name := t.attempt.value] else acc;
          SkipsSetParameter(store, join, config, params[1..], k - 1, acc');
        }
      }
    }
  }

  /**
   * A parameter that is not set to a string is not skipped: once the
   * parameters before it have been resolved without error, the pass
   * queries exactly its references' trial next; an error there ends the
   * pass, and otherwise the pass goes on with the following parameters.
   */
  lemma UnsetParameterIsTried(store: Store, join: PathJoin, config: Config, params: seq<StepParameter>, i: nat)
    requires i < |params| && !HasString(config, params[i].name)
    requires ParametersReached(store, join, config, params[..i])
    requires Resolve(store, join, config, params[..i]).result.Success?
    requires ParametersReached(store, join, config, params[i..])
    ensures ParametersReached(store, join, config, params)
    ensures !TryReferences(store, join, config, params[i].name, params[i].vaultSecrets).attempt.Failed? ==>
      ParametersReached(store, join, config, params[i + 1..])
    ensures var pre := Resolve(store, join, config, params[..i]);
      var t := TryReferences(store, join, config, params[i].name, params[i].vaultSecrets);
      var o := Resolve(store, join, config, params);
      && pre.queried + t.queried <= o.queried
      && (t.attempt.Failed? ==> o == Outcome(Failure(t.attempt.error), pre.queried + t.queried))
      && (t.attempt.NotFound? ==>
            o == ResolveFrom(store, join, config, params[i + 1..], pre.result.value).After(pre.queried + t.queried))
      && (t.attempt.Found? ==>
            o == ResolveFrom(store, join, config, params[i + 1..], pre.result.value[params[i].name := t.attempt.value])
                   .After(pre.queried + t.queried))
  {
    assert params == params[..i] + params[i..];
    assert params[i..][0] == params[i] && params[i..][1..] == params[i + 1..];
    ReachedAppend(store, join, config, params[..i], params[i..], map[]);
    Sequential(store, join, config, params[..i], params[i..], map[]);
    var pre := Resolve(store, join, config, params[..i]);
    ResolveStep(store, join, config, params, i, pre.result.value, pre.queried);
  }
}
