/**
 * The pass over `environments` that follows the secret handling, changing
 * the loaded configuration in place: per environment, every server's
 * provider facts are merged into its entry, then the environment's missing
 * credentials are filled in. Every change is written to
 * `secrets/configuration.yml` and encrypted again straight away.
 */
module Reconciliation {
  import opened Basics
  import opened Cipher
  import opened Inventory
  import opened Discovery
  import Credentials
  import RubyStrings
  import Secrets
  import Branches

  type Environments = map<string, Environment>

  /** `envs` with server `role` of environment `env` holding `entry`. */
  function Replaced(envs: Environments, env: string, role: string, entry: Option<Record>): (r: Environments)
    requires env in envs
    ensures r.Keys == envs.Keys && env in r && r[env].servers == envs[env].servers[role := entry]
  {
    envs[env := envs[env].(servers := envs[env].servers[role := entry])]
  }

  /** A replacement touches one server entry: every other environment, the `software` entry and every other role stay. */
  lemma ReplacedFrame(envs: Environments, env: string, role: string, entry: Option<Record>)
    requires env in envs
    ensures var r := Replaced(envs, env, role, entry);
      (forall x :: x in envs && x != env ==> r[x] == envs[x]) &&
      r[env].software == envs[env].software &&
      role in r[env].servers && r[env].servers[role] == entry &&
      (forall q :: q in envs[env].servers && q != role ==> q in r[env].servers && r[env].servers[q] == envs[env].servers[q])
  {
  }

  lemma ReplacedSame(envs: Environments, env: string, role: string)
    requires env in envs && role in envs[env].servers
    ensures Replaced(envs, env, role, envs[env].servers[role]) == envs
  {
    assert envs[env].servers[role := envs[env].servers[role]] == envs[env].servers;
  }

  lemma ReplacedTwice(envs: Environments, env: string, role: string, a: Option<Record>, b: Option<Record>)
    requires env in envs
    ensures Replaced(Replaced(envs, env, role, a), env, role, b) == Replaced(envs, env, role, b)
  {
    assert envs[env].servers[role := a][role := b] == envs[env].servers[role := b];
  }

  datatype PassError = ServerFailed(error: ServerError) | FillFailed(env: string)

  /**
   * One environment's turn: its servers, then its credentials from the
   * table `steps`, with `draws` random values already used. Nothing when a
   * step fails. The script's table is `Credentials.AsWrittenSteps`.
   */
  function EnvironmentPassed(company: string, env: string, e: Environment, ls: Listings, steps: seq<Credentials.Step>,
                             random: nat -> string, draws: nat): (r: Option<(Environment, nat)>)
    ensures r.Some? <==>
      AllReconcile(company, env, e, ls) &&
      Credentials.Fill(env, EnvironmentReconciled(company, env, e, ls), steps, random, draws).0.Ok?
    ensures r.Some? ==> r.value.1 >= draws && (env == "dev" ==> r.value.1 == draws)
  {
    if !AllReconcile(company, env, e, ls) then None
    else
      var filled := Credentials.Fill(env, EnvironmentReconciled(company, env, e, ls), steps, random, draws);
      if filled.0.Err? then None else Some((filled.0.value, filled.1))
  }

  /**
   * The environments and the number of random values drawn after the pass
   * over `names`, in their order. Nothing when a step fails.
   */
  function Passed(company: string, names: seq<string>, envs: Environments, ls: Listings, steps: seq<Credentials.Step>,
                  random: nat -> string, draws: nat): (r: Option<(Environments, nat)>)
    requires forall k :: 0 <= k < |names| ==> names[k] in envs
    ensures r.Some? ==> r.value.0.Keys == envs.Keys && r.value.1 >= draws
    ensures r.Some? ==> forall x :: x in envs && x !in names ==> r.value.0[x] == envs[x]
    decreases |names|
  {
    if |names| == 0 then Some((envs, draws))
    else
      var env := names[|names| - 1];
      var before := Passed(company, names[..|names| - 1], envs, ls, steps, random, draws);
      if before.None? then None
      else
        var (es, d) := before.value;
        var turn := EnvironmentPassed(company, env, es[env], ls, steps, random, d);
        if turn.None? then None else Some((es[env := turn.value.0], turn.value.1))
  }

  /** The pass over the first `i + 1` names is the pass over the first `i`, then the turn of name `i`. */
  lemma PassedStep(company: string, names: seq<string>, i: nat, envs: Environments, ls: Listings, steps: seq<Credentials.Step>,
                   random: nat -> string, draws: nat)
    requires i < |names| && forall k :: 0 <= k < |names| ==> names[k] in envs
    ensures var before := Passed(company, names[..i], envs, ls, steps, random, draws);
      Passed(company, names[..i + 1], envs, ls, steps, random, draws) ==
        if before.None? then None
        else
          var turn := EnvironmentPassed(company, names[i], before.value.0[names[i]], ls, steps, random, before.value.1);
          if turn.None? then None else Some((before.value.0[names[i] := turn.value.0], turn.value.1))
  {
    assert names[..i + 1][..i] == names[..i];
  }

  /** Once a step fails, the rest of the pass does not run. */
  lemma {:induction false} PassedStops(company: string, names: seq<string>, n: nat, envs: Environments, ls: Listings,
                                       steps: seq<Credentials.Step>, random: nat -> string, draws: nat)
    requires n <= |names| && forall k :: 0 <= k < |names| ==> names[k] in envs
    requires Passed(company, names[..n], envs, ls, steps, random, draws).None?
    ensures Passed(company, names, envs, ls, steps, random, draws).None?
    decreases |names|
  {
    if n < |names| {
      assert names[..|names| - 1][..n] == names[..n];
      PassedStops(company, names[..|names| - 1], n, envs, ls, steps, random, draws);
    } else {
      assert names[..n] == names;
    }
  }

  class Reconciler {
    /** `@configuration["environments"]`, changed in place. */
    var environments: Environments
    /** How many values `SecureRandom` has produced so far. */
    var draws: nat
    /** The working tree holding `secrets/configuration.yml` and its ciphertext. */
    const store: Secrets.SecretStore
    const company: string
    /** `configuration.to_yaml` for the configuration holding these environments. */
    const render: Environments -> string
    /** The `n`-th value of `SecureRandom.urlsafe_base64(16)`. */
    const random: nat -> string

    constructor(store: Secrets.SecretStore, environments: Environments, company: string,
                render: Environments -> string, random: nat -> string)
      ensures this.store == store && this.environments == environments && this.draws == 0
      ensures this.company == company && this.render == render && this.random == random
    {
      this.store := store;
      this.environments := environments;
      this.draws := 0;
      this.company := company;
      this.render := render;
      this.random := random;
    }

    /** The plaintext file holds the configuration, and so does the ciphertext beside it. */
    ghost predicate Persisted()
      reads this, store
    {
      var text := Plain(render(environments));
      Secrets.Configuration in store.files && store.files[Secrets.Configuration] == text &&
      Branches.ConfigurationSecret in store.files &&
      Decrypt(store.passphrase, store.files[Branches.ConfigurationSecret]) == Some(text)
    }

    /** Writes the configuration out as YAML and encrypts it again. */
    method Persist()
      modifies store
      ensures Persisted()
      ensures store.files ==
        old(store.files)[Secrets.Configuration := Plain(render(environments))]
                        [Branches.ConfigurationSecret := Encrypt(store.passphrase, Plain(render(environments)), old(store.nonce))]
      ensures store.nonce == old(store.nonce) + 1
    {
      store.Write(Secrets.Configuration, Plain(render(environments)));
      store.Seal(Secrets.Configuration, Branches.ConfigurationSecret);
    }

    /** Stores `v` under `k` in server `role` of `env`, and persists, only when the entry does not hold `v` already. */
    method WriteField(env: string, role: string, k: string, v: string) returns (changed: bool)
      requires env in environments && role in environments[env].servers && environments[env].servers[role].Some?
      modifies this, store
      ensures changed <==> Differs(old(environments)[env].servers[role].value, k, v)
      ensures environments == Replaced(old(environments), env, role, Some(SetField(old(environments)[env].servers[role].value, k, v)))
      ensures changed ==> Persisted() && store.nonce == old(store.nonce) + 1
      ensures !changed ==>
        environments == old(environments) && store.files == old(store.files) && store.nonce == old(store.nonce)
      ensures draws == old(draws)
    {
      var rec := environments[env].servers[role].value;
      changed := Differs(rec, k, v);
      if changed {
        environments := Replaced(environments, env, role, Some(SetField(rec, k, v)));
        Persist();
      } else {
        SetFieldSame(rec, k);
        ReplacedSame(environments, env, role);
      }
    }

    /** The AWS step: the trusted instance's type and addresses are merged into the entry. */
    method MergeAws(env: string, role: string, instance: Option<AwsInstance>) returns (r: Outcome<ServerError>)
      requires env in environments && role in environments[env].servers
      modifies this, store
      ensures var spec := AwsReconciled(env, role, old(environments)[env].servers[role], instance);
        (r == Pass <==> spec.Ok?) && (r.Fail? ==> spec == Err(r.error)) &&
        (r == Pass ==> environments == Replaced(old(environments), env, role, spec.value))
      ensures r.Fail? ==> environments == old(environments)
      ensures draws == old(draws)
      ensures old(Persisted()) ==> Persisted()
      ensures Persisted() ||
        (environments == old(environments) && store.files == old(store.files) && store.nonce == old(store.nonce))
      ensures environments == old(environments) ==>
        store.files == old(store.files) && store.nonce == old(store.nonce)
    {
      var entry := environments[env].servers[role];
      ReplacedSame(environments, env, role);
      r := Pass;
      if instance.Some? {
        if entry.None? {
          return Fail(NilEntry(env, role));
        }
        var i := instance.value;
        ghost var e0 := environments;
        var changed := WriteField(env, role, "type", i.instanceType);
        ghost var e1 := environments;
        changed := WriteField(env, role, "ip", i.publicIp);
        ReplacedTwice(e0, env, role, e1[env].servers[role], environments[env].servers[role]);
        ghost var e2 := environments;
        changed := WriteField(env, role, "ip_private", i.privateIp);
        ReplacedTwice(e0, env, role, e2[env].servers[role], environments[env].servers[role]);
      }
    }

    /**
     * The DigitalOcean step: the trusted droplet's slug is merged in, the
     * slug is checked, then the droplet's addresses are merged in.
     */
    method MergeDroplet(env: string, role: string, droplet: Option<Droplet>, slugs: Option<seq<string>>) returns (r: Outcome<ServerError>)
      requires env in environments && role in environments[env].servers
      modifies this, store
      ensures var spec := DropletReconciled(env, role, old(environments)[env].servers[role], droplet, slugs);
        (r == Pass <==> spec.Ok?) && (r.Fail? ==> spec == Err(r.error)) &&
        (r == Pass ==> environments == Replaced(old(environments), env, role, spec.value))
      ensures environments.Keys == old(environments).Keys
      ensures draws == old(draws)
      ensures old(Persisted()) ==> Persisted()
      ensures Persisted() ||
        (environments == old(environments) && store.files == old(store.files) && store.nonce == old(store.nonce))
      ensures r == Pass && environments == old(environments) ==>
        store.files == old(store.files) && store.nonce == old(store.nonce)
    {
      ghost var e0 := environments;
      ReplacedSame(environments, env, role);
      r := Pass;
      if droplet.Some? {
        if environments[env].servers[role].None? {
          return Fail(NilEntry(env, role));
        }
        var changed := WriteField(env, role, "slug", droplet.value.slug);
      }
      var current := environments[env].servers[role];
      if current.None? {
        return Fail(NilEntry(env, role));
      }
      if "slug" !in current.value.fields {
        return Fail(EmptySlug(env, role));
      }
      if slugs.None? {
        return Fail(NoSizes(env, role));
      }
      if |slugs.value| > 0 && current.value.fields["slug"] !in slugs.value {
        return Fail(InvalidSlug(env, role));
      }
      if droplet.Some? {
        ghost var e1 := environments;
        r := MergeAddresses(env, role, droplet.value);
        if r == Pass {
          ReplacedTwice(e0, env, role, e1[env].servers[role], environments[env].servers[role]);
        }
      }
    }

    /** The droplet's public address, then its private one, merged into the entry. */
    method MergeAddresses(env: string, role: string, droplet: Droplet) returns (r: Outcome<ServerError>)
      requires env in environments && role in environments[env].servers && environments[env].servers[role].Some?
      modifies this, store
      ensures var spec := AddressesMerged(env, role, old(environments)[env].servers[role].value, droplet);
        (r == Pass <==> spec.Ok?) && (r.Fail? ==> spec == Err(r.error)) &&
        (r == Pass ==> environments == Replaced(old(environments), env, role, Some(spec.value)))
      ensures environments.Keys == old(environments).Keys
      ensures draws == old(draws)
      ensures old(Persisted()) ==> Persisted()
      ensures Persisted() ||
        (environments == old(environments) && store.files == old(store.files) && store.nonce == old(store.nonce))
      ensures environments == old(environments) ==>
        store.files == old(store.files) && store.nonce == old(store.nonce)
    {
      r := Pass;
      var public := AddressOf(droplet.networks, "public");
      if public.None? {
        return Fail(NoNetwork(env, role, "public"));
      }
      ghost var e0 := environments;
      var changed := WriteField(env, role, "ip", public.value);
      var private := AddressOf(droplet.networks, "private");
      if private.None? {
        return Fail(NoNetwork(env, role, "private"));
      }
      ghost var e1 := environments;
      changed := WriteField(env, role, "ip_private", private.value);
      ReplacedTwice(e0, env, role, e1[env].servers[role], environments[env].servers[role]);
    }

    /**
     * One server: its provider is asked for the trusted machine, whose facts
     * are merged into the entry; `shown` is the id the status row shows.
     */
    method ReconcileServer(env: string, role: string, ls: Listings) returns (r: Outcome<ServerError>, shown: Option<string>)
      requires env in environments && role in environments[env].servers
      modifies this, store
      ensures var spec := ServerReconciled(company, env, role, old(environments)[env].servers[role], ls);
        (r == Pass <==> spec.Ok?) && (r.Fail? ==> spec == Err(r.error)) &&
        (r == Pass ==> environments == Replaced(old(environments), env, role, spec.value))
      ensures environments.Keys == old(environments).Keys
      ensures shown == ShownId(company, env, role, ls)
      ensures draws == old(draws)
      ensures old(Persisted()) ==> Persisted()
      ensures Persisted() ||
        (environments == old(environments) && store.files == old(store.files) && store.nonce == old(store.nonce))
      ensures r == Pass && environments == old(environments) ==>
        store.files == old(store.files) && store.nonce == old(store.nonce)
    {
      var name := MachineName(company, env, role);
      var entry := environments[env].servers[role];
      ReplacedSame(environments, env, role);
      r := Pass;
      match ProviderFor(env, role) {
        case VirtualBox =>
          var machine := FindVirtualBoxMachine(ls.machines, name);
          shown := if machine.Some? then Some(RubyStrings.Head(machine.value.id, 11)) else None;
          if entry.None? || "ip" !in entry.value.fields {
            r := Fail(NoIp(env, role));
          }
        case Aws =>
          var instance := FindAwsInstance(ls.instances, name);
          shown := if instance.Some? then Some(instance.value.id) else None;
          r := MergeAws(env, role, instance);
        case DigitalOcean =>
          var droplet := DropletPick(ls.droplets, name);
          shown := if droplet.Some? then Some(droplet.value.id) else None;
          r := MergeDroplet(env, role, droplet, ls.slugs);
        case Unmanaged =>
          shown := None;
      }
    }
  
    /** Every server of `env`, visited in any order; the first failure ends the run. */
    method ReconcileEnvironment(env: string, ls: Listings) returns (r: Outcome<ServerError>)
      requires env in environments
      modifies this, store
      ensures r == Pass <==> AllReconcile(company, env, old(environments)[env], ls)
      ensures r.Fail? ==>
        exists role :: (role in old(environments)[env].servers &&
          ServerReconciled(company, env, role, old(environments)[env].servers[role], ls) == Err(r.error))
      ensures r == Pass ==>
        environments == old(environments)[env := EnvironmentReconciled(company, env, old(environments)[env], ls)]
      ensures environments.Keys == old(environments).Keys
      ensures draws == old(draws)
      ensures old(Persisted()) ==> Persisted()
      ensures Persisted() ||
        (environments == old(environments) && store.files == old(store.files) && store.nonce == old(store.nonce))
      ensures r == Pass && environments == old(environments) ==>
        store.files == old(store.files) && store.nonce == old(store.nonce)
    {
      ghost var e0 := environments[env];
      var todo := environments[env].servers.Keys;
      r := Pass;
      while todo != {}
        invariant env in environments && environments == old(environments)[env := environments[env]]
        invariant environments[env].software == e0.software && environments[env].servers.Keys == e0.servers.Keys
        invariant todo <= e0.servers.Keys && r == Pass
        invariant forall role :: role in todo ==> environments[env].servers[role] == e0.servers[role]
        invariant forall role :: role in e0.servers && role !in todo ==>
          ServerReconciled(company, env, role, e0.servers[role], ls) == Ok(environments[env].servers[role])
        invariant draws == old(draws)
        invariant old(Persisted()) ==> Persisted()
        invariant Persisted() ||
          (environments == old(environments) && store.files == old(store.files) && store.nonce == old(store.nonce))
        invariant (store.files == old(store.files) && store.nonce == old(store.nonce)) ||
          exists d :: d in e0.servers && d !in todo && environments[env].servers[d] != e0.servers[d]
        decreases todo
      {
        var role :| role in todo;
        ghost var pre := environments;
        ghost var preTodo := todo;
        var shown;
        r, shown := ReconcileServer(env, role, ls);
        if r.Fail? {
          assert ServerReconciled(company, env, role, e0.servers[role], ls).Err?;
          return;
        }
        todo := todo - {role};
        if !(store.files == old(store.files) && store.nonce == old(store.nonce)) {
          if environments[env].servers[role] != e0.servers[role] {
            assert role in e0.servers && role !in todo;
          } else {
            ReplacedSame(pre, env, role);
            ghost var d :| d in e0.servers && d !in preTodo && pre[env].servers[d] != e0.servers[d];
            assert d !in todo && environments[env].servers[d] != e0.servers[d];
          }
        }
      }
      assert AllReconcile(company, env, e0, ls);
      assert environments[env].servers == EnvironmentReconciled(company, env, e0, ls).servers;
    }

    /** One credential block: a nil credential gets its default, and the configuration is persisted. */
    method FillOne(env: string, step: Credentials.Step) returns (r: Outcome<Credentials.FillError>)
      requires env in environments
      modifies this, store
      ensures var spec := Credentials.FillStep(env, old(environments)[env], step, random, old(draws));
        (r == Pass <==> spec.0.Ok?) && draws == spec.1 &&
        (r == Pass ==> environments == old(environments)[env := spec.0.value])
      ensures r.Fail? ==> environments == old(environments)
      ensures old(Persisted()) ==> Persisted()
      ensures Persisted() ||
        (environments == old(environments) && store.files == old(store.files) && store.nonce == old(store.nonce))
    {
      r := Pass;
      if Credentials.Get(environments[env], step.slot).None? {
        var put := Credentials.Put(environments[env], step.slot, Credentials.Value(env, step.default, random(draws)));
        if put.Err? {
          return Fail(put.error);
        }
        environments := environments[env := put.value];
        if Credentials.Draws(env, step.default) {
          draws := draws + 1;
        }
        Persist();
      } else {
        assert environments[env := environments[env]] == environments;
      }
    }

    /**
     * The credential blocks of `env`, in order; the first crash ends the
     * run.
     */
    method FillCredentials(env: string, steps: seq<Credentials.Step>) returns (r: Outcome<Credentials.FillError>)
      requires env in environments
      modifies this, store
      ensures var spec := Credentials.Fill(env, old(environments)[env], steps, random, old(draws));
        (r == Pass <==> spec.0.Ok?) && draws == spec.1 &&
        (r == Pass ==> environments == old(environments)[env := spec.0.value])
      ensures environments.Keys == old(environments).Keys
      ensures old(Persisted()) ==> Persisted()
      ensures Persisted() ||
        (environments == old(environments) && store.files == old(store.files) && store.nonce == old(store.nonce))
    {
      ghost var e0 := environments[env];
      ghost var d0 := draws;
      r := Pass;
      for i := 0 to |steps|
        invariant env in environments && r == Pass && environments == old(environments)[env := environments[env]]
        invariant Credentials.Fill(env, e0, steps[..i], random, d0) == (Ok(environments[env]), draws)
        invariant old(Persisted()) ==> Persisted()
        invariant Persisted() ||
          (environments == old(environments) && store.files == old(store.files) && store.nonce == old(store.nonce))
      {
        Credentials.FillPrefixStep(env, e0, steps, i, random, d0);
        r := FillOne(env, steps[i]);
        if r.Fail? {
          Credentials.FillStopsAt(env, e0, steps, i + 1, random, d0);
          return;
        }
      }
      assert steps[..|steps|] == steps;
    }

    /** One environment's turn: its servers, then its credentials from the table `steps`. */
    method PassEnvironment(env: string, ls: Listings, steps: seq<Credentials.Step>) returns (r: Outcome<PassError>)
      requires env in environments
      modifies this, store
      ensures var spec := EnvironmentPassed(company, env, old(environments)[env], ls, steps, random, old(draws));
        (r == Pass <==> spec.Some?) &&
        (r == Pass ==> environments == old(environments)[env := spec.value.0] && draws == spec.value.1)
      ensures environments.Keys == old(environments).Keys
      ensures old(Persisted()) ==> Persisted()
      ensures Persisted() ||
        (environments == old(environments) && store.files == old(store.files) && store.nonce == old(store.nonce))
    {
      var servers := ReconcileEnvironment(env, ls);
      if servers.Fail? {
        return Fail(ServerFailed(servers.error));
      }
      var filled := FillCredentials(env, steps);
      if filled.Fail? {
        return Fail(FillFailed(env));
      }
      r := Pass;
    }

    /**
     * The whole pass: the environments in `names` order, each one's servers
     * and then its credentials from the table `steps`.
     */
    method Run(names: seq<string>, ls: Listings, steps: seq<Credentials.Step>) returns (r: Outcome<PassError>)
      requires forall k :: 0 <= k < |names| ==> names[k] in environments
      modifies this, store
      ensures var spec := Passed(company, names, old(environments), ls, steps, random, old(draws));
        (r == Pass <==> spec.Some?) && (r == Pass ==> environments == spec.value.0 && draws == spec.value.1)
      ensures old(Persisted()) ==> Persisted()
      ensures Persisted() ||
        (environments == old(environments) && store.files == old(store.files) && store.nonce == old(store.nonce))
    {
      ghost var envs0 := environments;
      ghost var d0 := draws;
      r := Pass;
      for i := 0 to |names|
        invariant environments.Keys == envs0.Keys && r == Pass
        invariant Passed(company, names[..i], envs0, ls, steps, random, d0) == Some((environments, draws))
        invariant old(Persisted()) ==> Persisted()
        invariant Persisted() ||
          (environments == old(environments) && store.files == old(store.files) && store.nonce == old(store.nonce))
      {
        PassedStep(company, names, i, envs0, ls, steps, random, d0);
        r := PassEnvironment(names[i], ls, steps);
        if r.Fail? {
          PassedStops(company, names, i + 1, envs0, ls, steps, random, d0);
          return;
        }
      }
      assert names[..|names|] == names;
    }
  }
}
