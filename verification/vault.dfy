/**
 * Resolution of step parameters from a Vault key-value secrets engine
 * (pkg/config/vault.go).
 *
 * The secrets engine is modelled as a pure oracle from a lookup path to the
 * answer `GetKvSecret` would give, `path.Join` as a parameter, and
 * `vault.NewClient` as a parameter.
 */
module VaultConfig {
  import opened Wrappers

  /** A value of a step configuration: only "is it a string, and which" matters here. */
  datatype Value = Str(s: string) | Other

  /** `StepConfig.Config`: parameter name to untyped value. */
  type Config = map<string, Value>

  type Error = string

  /** A secret read from the store: field name to field value. */
  type Secret = map<string, string>

  /** `GetKvSecret`: an error, no secret at the path (nil), or a secret. */
  type Store = string -> Result<Option<Secret>, Error>

  /** `path.Join` of a base path and a relative path. */
  type PathJoin = (string, string) -> string

  /** A `vaultSecret` reference: the configuration key holding the base path, and the path below it. */
  datatype Reference = Reference(name: string, path: string)

  /** A step parameter with the references `GetReferences("vaultSecret")` yields for it. */
  datatype StepParameter = StepParameter(name: string, vaultSecrets: seq<Reference>)

  const VaultAddress := "vaultAddress"
  const VaultRootPath := "vaultRootPath"
  const VaultToken := "vaultToken"
  const VaultNamespace := "vaultNamespace"

  /** The comma-ok type assertion `config[key].(string)` succeeds. */
  predicate HasString(config: Config, key: string) {
    key in config && config[key].Str?
  }

  predicate HasNonEmptyString(config: Config, key: string) {
    HasString(config, key) && config[key].s != ""
  }

  // ---------------------------------------------------------------------
  // Enabling the client

  /** Vault is used only when address, root path and token are non-empty strings. */
  predicate VaultConfigured(config: Config) {
    HasNonEmptyString(config, VaultAddress)
    && HasNonEmptyString(config, VaultRootPath)
    && HasNonEmptyString(config, VaultToken)
  }

  /**
   * `getVaultClientFromConfig`: no client and no error unless Vault is
   * configured; otherwise whatever `newClient(address, token, namespace)`
   * gives. The namespace assertion is unchecked in the source, hence the
   * precondition.
   */
  function GetVaultClientFromConfig<C>(newClient: (string, string, string) -> Result<C, Error>, config: Config)
    : (r: Result<Option<C>, Error>)
    requires VaultConfigured(config) ==> HasString(config, VaultNamespace)
    ensures r == Success(None) <==> !VaultConfigured(config)
    ensures !HasNonEmptyString(config, VaultAddress) ==> r == Success(None)
    ensures !HasNonEmptyString(config, VaultRootPath) ==> r == Success(None)
    ensures !HasNonEmptyString(config, VaultToken) ==> r == Success(None)
    ensures r.Failure? ==>
      VaultConfigured(config)
      && newClient(config[VaultAddress].s, config[VaultToken].s, config[VaultNamespace].s) == Failure(r.error)
    ensures r.Success? && r.value.Some? ==>
      VaultConfigured(config)
      && newClient(config[VaultAddress].s, config[VaultToken].s, config[VaultNamespace].s) == Success(r.value.value)
  {
    if !VaultConfigured(config) then Success(None)
    else
      match newClient(config[VaultAddress].s, config[VaultToken].s, config[VaultNamespace].s)
      case Failure(e) => Failure(e)
      case Success(client) => Success(Some(client))
  }

  // ---------------------------------------------------------------------
  // Resolving parameters: the specification

  /** `secret[name]` in Go: a missing field reads as the empty string. */
  function Field(secret: Secret, name: string): string {
    if name in secret then secret[name] else ""
  }

  /** The path a reference is looked up at: its base path joined with its own path. */
  function LookupPath(join: PathJoin, config: Config, ref: Reference): string
    requires HasString(config, ref.name)
  {
    join(config[ref.name].s, ref.path)
  }

  /** An answer that lets resolution move on: no error, and no secret or an empty field `name`. */
  predicate Miss(answer: Result<Option<Secret>, Error>, name: string) {
    answer.Success? && (answer.value.None? || Field(answer.value.value, name) == "")
  }

  /** The store's answer at `path` is a secret whose field `name` is `v`. */
  predicate Supplies(store: Store, path: string, name: string, v: string) {
    store(path).Success? && store(path).value.Some? && Field(store(path).value.value, name) == v
  }

  /** How the references of one parameter ended. */
  datatype Attempt = Found(value: string) | NotFound | Failed(error: Error)

  /** The end of one parameter's references, with the paths queried on the way. */
  datatype Trial = Trial(attempt: Attempt, queried: seq<string>) {
    function After(earlier: seq<string>): Trial {
      Trial(attempt, earlier + queried)
    }
  }

  /** The end of a resolution pass, with the paths queried on the way. */
  datatype Outcome = Outcome(result: Result<map<string, string>, Error>, queried: seq<string>) {
    function After(earlier: seq<string>): Outcome {
      Outcome(result, earlier + queried)
    }
  }

  /**
   * The base-path keys the loop over the references of parameter `name`
   * reads hold strings: that of the first reference, and that of each next
   * one after a miss. References after a match or an error are never read.
   */
  predicate ReferencesReached(store: Store, join: PathJoin, config: Config, name: string, refs: seq<Reference>)
    decreases |refs|
  {
    refs == []
    || (&& HasString(config, refs[0].name)
        && (Miss(store(LookupPath(join, config, refs[0])), name) ==>
              ReferencesReached(store, join, config, name, refs[1..])))
  }

  /**
   * The base-path keys a pass over `params` reads hold strings: the
   * references reached for each parameter that is not already set, up to
   * the first lookup error.
   */
  predicate ParametersReached(store: Store, join: PathJoin, config: Config, params: seq<StepParameter>)
    decreases |params|
  {
    if params == [] then true
    else
      var p := params[0];
      if HasString(config, p.name) then ParametersReached(store, join, config, params[1..])
      else
        && ReferencesReached(store, join, config, p.name, p.vaultSecrets)
        && (|| TryReferences(store, join, config, p.name, p.vaultSecrets).attempt.Failed?
            || ParametersReached(store, join, config, params[1..]))
  }

  /**
   * The references of parameter `name`, tried in order until one yields a
   * non-empty field or an error (see `VaultProperties.TryReferencesInOrder`).
   */
  function TryReferences(store: Store, join: PathJoin, config: Config, name: string, refs: seq<Reference>)
    : Trial
    requires ReferencesReached(store, join, config, name, refs)
    decreases |refs|
  {
    if refs == [] then Trial(NotFound, [])
    else
      var path := LookupPath(join, config, refs[0]);
      match store(path)
      case Failure(e) => Trial(Failed(e), [path])
      case Success(None) => TryReferences(store, join, config, name, refs[1..]).After([path])
      case Success(Some(secret)) =>
        if Field(secret, name) != "" then Trial(Found(Field(secret, name)), [path])
        else TryReferences(store, join, config, name, refs[1..]).After([path])
  }

  /**
   * The parameters in order, on top of the entries already resolved in `acc`:
   * a parameter already set to a string is skipped, any other one has its
   * references tried; an error ends the pass with no map.
   */
  function ResolveFrom(store: Store, join: PathJoin, config: Config, params: seq<StepParameter>,
                       acc: map<string, string>): Outcome
    requires ParametersReached(store, join, config, params)
    decreases |params|
  {
    if params == [] then Outcome(Success(acc), [])
    else
      var p := params[0];
      if HasString(config, p.name) then ResolveFrom(store, join, config, params[1..], acc)
      else
        var t := TryReferences(store, join, config, p.name, p.vaultSecrets);
        match t.attempt
        case Failed(e) => Outcome(Failure(e), t.queried)
        case NotFound => ResolveFrom(store, join, config, params[1..], acc).After(t.queried)
        case Found(v) => ResolveFrom(store, join, config, params[1..], acc[p.name := v]).After(t.queried)
  }

  /** A whole resolution pass, starting from an empty result. */
  function Resolve(store: Store, join: PathJoin, config: Config, params: seq<StepParameter>): Outcome
    requires ParametersReached(store, join, config, params)
  {
    ResolveFrom(store, join, config, params, map[])
  }

  // ---------------------------------------------------------------------
  // Resolving parameters: the loop

  /** Concatenation of queried paths is associative. */
  lemma AppendAssociative(a: seq<string>, b: seq<string>, c: seq<string>)
    ensures a + (b + c) == (a + b) + c
  {
  }

  /** One step of `TryReferences` at reference `j`, after the paths `tried`. */
  lemma TryStep(store: Store, join: PathJoin, config: Config, name: string, refs: seq<Reference>,
                j: nat, tried: seq<string>)
    requires j < |refs| && ReferencesReached(store, join, config, name, refs[j..])
    ensures var path := LookupPath(join, config, refs[j]);
      TryReferences(store, join, config, name, refs[j..]).After(tried)
      == if store(path).Failure? then Trial(Failed(store(path).error), tried + [path])
         else if Miss(store(path), name)
         then TryReferences(store, join, config, name, refs[j + 1..]).After(tried + [path])
         else Trial(Found(Field(store(path).value.value, name)), tried + [path])
  {
    assert refs[j..][0] == refs[j] && refs[j..][1..] == refs[j + 1..];
    var path := LookupPath(join, config, refs[j]);
    if Miss(store(path), name) {
      var rest := TryReferences(store, join, config, name, refs[j + 1..]);
      AppendAssociative(tried, [path], rest.queried);
    }
  }

  /** One step of `ResolveFrom` at parameter `i`, after the paths `before`. */
  lemma ResolveStep(store: Store, join: PathJoin, config: Config, params: seq<StepParameter>,
                    i: nat, acc: map<string, string>, before: seq<string>)
    requires i < |params| && ParametersReached(store, join, config, params[i..])
    ensures var p := params[i];
      ResolveFrom(store, join, config, params[i..], acc).After(before)
      == if HasString(config, p.name) then ResolveFrom(store, join, config, params[i + 1..], acc).After(before)
         else
           var t := TryReferences(store, join, config, p.name, p.vaultSecrets);
           match t.attempt
           case Failed(e) => Outcome(Failure(e), before + t.queried)
           case NotFound => ResolveFrom(store, join, config, params[i + 1..], acc).After(before + t.queried)
           case Found(v) =>
             ResolveFrom(store, join, config, params[i + 1..], acc[p.name := v]).After(before + t.queried)
  {
    assert params[i..][0] == params[i] && params[i..][1..] == params[i + 1..];
    var p := params[i];
    if !HasString(config, p.name) {
      var t := TryReferences(store, join, config, p.name, p.vaultSecrets);
      if !t.attempt.Failed? {
        var acc' := if t.attempt.Found? then acc[p.name := t.attempt.value] else acc;
        var rest := ResolveFrom(store, join, config, params[i + 1..], acc');
        AppendAssociative(before, t.queried, rest.queried);
      }
    }
  }

  /**
   * The inner loop of `getVaultConfig`: the `vaultSecret` references of one
   * parameter, looked up in order; stops at the first error or at the
   * first non-empty field named after the parameter.
   */
  method TryVaultSecrets(store: Store, join: PathJoin, config: Config, name: string, refs: seq<Reference>)
    returns (attempt: Attempt, queried: seq<string>)
    requires ReferencesReached(store, join, config, name, refs)
    ensures Trial(attempt, queried) == TryReferences(store, join, config, name, refs)
  {
    queried, attempt := [], NotFound;
    assert refs[0..] == refs;
    for j := 0 to |refs|
      invariant attempt == NotFound && ReferencesReached(store, join, config, name, refs[j..])
      invariant TryReferences(store, join, config, name, refs)
             == TryReferences(store, join, config, name, refs[j..]).After(queried)
    {
      var ref := refs[j];
      var basePath := config[ref.name].s;
      var path := join(basePath, ref.path);
      var secret := store(path);
      TryStep(store, join, config, name, refs, j, queried);
      queried := queried + [path];
      if secret.Failure? {
        attempt := Failed(secret.error);
        return;
      }
      if secret.value.None? {
        continue;
      }
      var field := Field(secret.value.value, name);
      if field != "" {
        attempt := Found(field);
        return;
      }
    }
    assert refs[|refs|..] == [];
  }

  /**
   * `getVaultConfig`: builds the resolved map in place, parameter by
   * parameter and reference by reference; also returns the paths it
   * queried, in order.
   */
  method GetVaultConfig(store: Store, join: PathJoin, config: Config, params: seq<StepParameter>)
    returns (r: Result<map<string, string>, Error>, queried: seq<string>)
    requires ParametersReached(store, join, config, params)
    ensures Outcome(r, queried) == Resolve(store, join, config, params)
  {
    var vaultConfig: map<string, string> := map[];
    queried := [];
    for i := 0 to |params|
      invariant ParametersReached(store, join, config, params[i..])
      invariant Resolve(store, join, config, params)
             == ResolveFrom(store, join, config, params[i..], vaultConfig).After(queried)
    {
      var param := params[i];
      ResolveStep(store, join, config, params, i, vaultConfig, queried);
      if HasString(config, param.name) {
        continue;
      }
      var attempt, tried := TryVaultSecrets(store, join, config, param.name, param.vaultSecrets);
      queried := queried + tried;
      if attempt.Failed? {
        r := Failure(attempt.error);
        return;
      }
      if attempt.Found? {
        vaultConfig := vaultConfig[param.name := attempt.value];
      }
    }
    r := Success(vaultConfig);
  }
}
