/**
 * What the bootstrap learns about each server from its provider, and what
 * it writes back into the server's entry: the provider chosen by
 * environment and role, the trusted machine looked up by its name, the
 * facts (`type`, `slug`, `ip`, `ip_private`) copied from it, and the
 * checks that stop the run.
 */
module Discovery {
  import opened Basics
  import opened RubyStrings
  import opened Inventory
  import Settings
  import Websites

  // Names and providers.

  /**
   * `COMPANY-ENVIRONMENT-ROLE`: the company name in lower case, and the role
   * with `_` turned into `-`. The name is as long as its parts and two
   * hyphens, and holds no `_` from the role.
   */
  function MachineName(company: string, env: string, role: string): (n: string)
    ensures |n| == |company| + |env| + |role| + 2
    ensures n[..|company|] == Downcase(company) && n[|company|] == '-'
    ensures n[|company| + 1..|company| + 1 + |env|] == env && n[|company| + 1 + |env|] == '-'
    ensures forall k :: |company| + |env| + 2 <= k < |n| ==> n[k] != '_'
  {
    var n := Downcase(company) + ("-" + env + "-" + Replace(role, '_', '-'));
    assert n == Downcase(company) + "-" + env + "-" + Replace(role, '_', '-');
    n
  }

  /**
   * The 39-character limit on the company name keeps every DigitalOcean
   * machine name within the 63 characters of a host name label, the longest
   * being `-production-redhat-mysql`.
   */
  lemma RedhatNameFits(company: string, env: string, role: string)
    requires |company| <= Settings.MaxCompanyName
    requires env in Websites.Environments && role in {"redhat", "redhat_mysql"}
    ensures |MachineName(company, env, role)| <= 63
  {
  }

  datatype Provider = VirtualBox | Aws | DigitalOcean | Unmanaged

  /** `dev` runs on VirtualBox; elsewhere `windows*` roles run on AWS and `redhat*` roles on DigitalOcean. */
  function ProviderFor(env: string, role: string): (r: Provider)
    ensures r == VirtualBox <==> env == "dev"
    ensures r == Aws <==> env != "dev" && StartsWith(role, "windows")
    ensures r == DigitalOcean <==> env != "dev" && StartsWith(role, "redhat")
  {
    if env == "dev" then VirtualBox
    else if StartsWith(role, "windows") then
      assert !StartsWith(role, "redhat") by { assert role[0] == 'w'; }
      Aws
    else if StartsWith(role, "redhat") then
      assert !StartsWith(role, "windows") by { assert role[0] == 'r'; }
      DigitalOcean
    else Unmanaged
  }

  // What the providers list.

  /** An entry of Vagrant's machine index. */
  datatype VboxMachine = VboxMachine(id: string, name: string, state: string)

  /** An item of EC2's `DescribeInstances`; `tag` is the value of its first tag, when it has one. */
  datatype AwsInstance = AwsInstance(tag: Option<string>, id: string, state: string,
                                     instanceType: string, publicIp: string, privateIp: string)

  /** An IPv4 network of a droplet: `public` or `private`. */
  datatype Network = Network(kind: string, address: string)

  /** A droplet from DigitalOcean's `/v2/droplets`. */
  datatype Droplet = Droplet(name: string, id: string, status: string, slug: string, networks: seq<Network>)

  /**
   * The provider data fetched before the servers are visited: nil when the
   * machine index is absent or the API is down. The DigitalOcean sizes are
   * nil when the request raised a timeout or a refused connection before
   * the list was made, and empty when the API answered with a server error.
   */
  datatype Listings = Listings(
    machines: Option<seq<VboxMachine>>,
    instances: Option<seq<AwsInstance>>,
    droplets: Option<seq<Droplet>>,
    slugs: Option<seq<string>>)

  // The trusted machine.

  /** The VirtualBox search: the last machine with the name decides, and it counts only when `running`. */
  function VboxPick(ms: seq<VboxMachine>, name: string): (r: Option<VboxMachine>)
    ensures r.Some? ==> r.value in ms && r.value.name == name && r.value.state == "running"
  {
    if |ms| == 0 then None
    else
      var last := ms[|ms| - 1];
      if last.name == name then (if last.state == "running" then Some(last) else None)
      else VboxPick(ms[..|ms| - 1], name)
  }

  predicate NoNameAfter(ms: seq<VboxMachine>, name: string, k: int)
  {
    forall j :: 0 <= j < |ms| && k < j ==> ms[j].name != name
  }

  /** The pick is the last machine with the name when that one is running, and nothing otherwise. */
  lemma {:induction false} VboxPickIsLastMatch(ms: seq<VboxMachine>, name: string, k: int)
    requires 0 <= k < |ms| && ms[k].name == name && NoNameAfter(ms, name, k)
    ensures VboxPick(ms, name) == if ms[k].state == "running" then Some(ms[k]) else None
    decreases |ms|
  {
    if k < |ms| - 1 {
      assert ms[..|ms| - 1][k] == ms[k];
      VboxPickIsLastMatch(ms[..|ms| - 1], name, k);
    }
  }

  lemma {:induction false} VboxPickNone(ms: seq<VboxMachine>, name: string)
    requires forall j :: 0 <= j < |ms| ==> ms[j].name != name
    ensures VboxPick(ms, name) == None
    decreases |ms|
  {
    if |ms| > 0 {
      VboxPickNone(ms[..|ms| - 1], name);
    }
  }

  /**
   * A running machine is hidden by a later index entry with the same name
   * that is not running.
   */
  lemma StaleEntryHidesRunningMachine(name: string, a: string, b: string)
    ensures VboxPick([VboxMachine(a, name, "running"), VboxMachine(b, name, "poweroff")], name) == None
  {
    VboxPickIsLastMatch([VboxMachine(a, name, "running"), VboxMachine(b, name, "poweroff")], name, 1);
  }

  /**
   * The AWS search: items without a tag are skipped, the first item whose
   * tag is the name decides, and it counts only when `running`.
   */
  function AwsPick(xs: seq<AwsInstance>, name: string): (r: Option<AwsInstance>)
    ensures r.Some? ==> r.value in xs && r.value.tag == Some(name) && r.value.state == "running"
  {
    if |xs| == 0 then None
    else if xs[0].tag == Some(name) then (if xs[0].state == "running" then Some(xs[0]) else None)
    else AwsPick(xs[1..], name)
  }

  predicate NoTagBefore(xs: seq<AwsInstance>, name: string, k: int)
    requires k <= |xs|
  {
    forall j :: 0 <= j < k ==> xs[j].tag != Some(name)
  }

  lemma {:induction false} AwsPickIsFirstMatch(xs: seq<AwsInstance>, name: string, k: int)
    requires 0 <= k < |xs| && xs[k].tag == Some(name) && NoTagBefore(xs, name, k)
    ensures AwsPick(xs, name) == if xs[k].state == "running" then Some(xs[k]) else None
    decreases k
  {
    if k > 0 {
      AwsPickIsFirstMatch(xs[1..], name, k - 1);
    }
  }

  lemma {:induction false} AwsPickNone(xs: seq<AwsInstance>, name: string)
    requires NoTagBefore(xs, name, |xs|)
    ensures AwsPick(xs, name) == None
    decreases |xs|
  {
    if |xs| > 0 {
      AwsPickNone(xs[1..], name);
    }
  }

  /** The loop over Vagrant's machine index; no index means no machine. */
  method FindVirtualBoxMachine(index: Option<seq<VboxMachine>>, name: string) returns (machine: Option<VboxMachine>)
    ensures index.None? ==> machine == None
    ensures index.Some? ==> machine == VboxPick(index.value, name)
  {
    machine := None;
    if index.Some? {
      var ms := index.value;
      for i := 0 to |ms|
        invariant machine == VboxPick(ms[..i], name)
      {
        assert ms[..i + 1][..i] == ms[..i];
        if ms[i].name == name {
          if ms[i].state == "running" {
            machine := Some(ms[i]);
          } else {
            machine := None;
          }
        }
      }
      assert ms[..|ms|] == ms;
    }
  }

  /** The loop over the EC2 reservations; it stops at the first item tagged with the name. */
  method FindAwsInstance(listing: Option<seq<AwsInstance>>, name: string) returns (instance: Option<AwsInstance>)
    ensures listing.None? ==> instance == None
    ensures listing.Some? ==> instance == AwsPick(listing.value, name)
  {
    instance := None;
    if listing.Some? {
      var xs := listing.value;
      var i := 0;
      while i < |xs|
        invariant 0 <= i <= |xs|
        invariant AwsPick(xs, name) == AwsPick(xs[i..], name)
        invariant instance == None
      {
        var key := xs[i];
        assert xs[i..][0] == key && xs[i..][1..] == xs[i + 1..];
        instance := None;
        if key.tag.None? {
          i := i + 1;
          continue;
        } else if key.tag.value == name {
          if key.state == "running" {
            instance := Some(key);
            break;
          } else {
            instance := None;
            break;
          }
        }
        i := i + 1;
      }
    }
  }

  /** `droplets.find` by name. */
  function FirstNamed(ds: seq<Droplet>, name: string): (r: Option<Droplet>)
    ensures r.Some? ==> r.value in ds && r.value.name == name
    ensures r.None? <==> forall j :: 0 <= j < |ds| ==> ds[j].name != name
  {
    if |ds| == 0 then None
    else if ds[0].name == name then Some(ds[0])
    else FirstNamed(ds[1..], name)
  }

  /** The DigitalOcean search: the first droplet with the name, trusted only when `active`. */
  function DropletPick(ds: Option<seq<Droplet>>, name: string): (r: Option<Droplet>)
    ensures r.Some? <==> ds.Some? && FirstNamed(ds.value, name).Some? && FirstNamed(ds.value, name).value.status == "active"
    ensures r.Some? ==> r == FirstNamed(ds.value, name) && r.value.name == name
  {
    if ds.None? then None
    else
      var d := FirstNamed(ds.value, name);
      if d.Some? && d.value.status != "active" then None else d
  }

  /** `networks["v4"].find` by type. */
  function AddressOf(ns: seq<Network>, kind: string): (r: Option<string>)
    ensures r.Some? <==> exists j :: 0 <= j < |ns| && ns[j].kind == kind
    ensures r.Some? ==> exists j :: 0 <= j < |ns| && ns[j].kind == kind && ns[j].address == r.value
  {
    if |ns| == 0 then None
    else if ns[0].kind == kind then Some(ns[0].address)
    else
      var rest := AddressOf(ns[1..], kind);
      assert forall j :: 0 < j < |ns| ==> ns[j] == ns[1..][j - 1];
      rest
  }

  // What is written back.

  datatype ServerError =
    | NoIp(env: string, role: string)          // a `dev` server without an `ip`
    | EmptySlug(env: string, role: string)     // no droplet and no `slug` to create one with
    | InvalidSlug(env: string, role: string)   // a `slug` DigitalOcean does not offer
    | NoSizes(env: string, role: string)       // `any?` called on the sizes list that was never fetched
    | NilEntry(env: string, role: string)      // a method called on a nil server entry
    | NoNetwork(env: string, role: string, kind: string)  // a droplet without a network of this type

  /** The provider's fact lands in `k` when the entry does not hold it already. */
  predicate Differs(rec: Record, k: string, v: string)
  {
    k !in rec.fields || rec.fields[k] != v
  }

  /** The settings other than `keys` and the nested hashes are the same in both records. */
  predicate SameBesides(a: Record, b: Record, keys: set<string>)
  {
    a.fields - keys == b.fields - keys && a.subs == b.subs
  }

  const AwsKeys: set<string> := {"type", "ip", "ip_private"}
  const DropletKeys: set<string> := {"slug", "ip", "ip_private"}

  /** A `dev` server is only read: its `ip` must be set. */
  function DevChecked(env: string, role: string, entry: Option<Record>): (r: Result<Option<Record>, ServerError>)
    ensures r.Ok? <==> entry.Some? && "ip" in entry.value.fields
    ensures r.Ok? ==> r.value == entry
    ensures r.Err? ==> r.error == NoIp(env, role)
  {
    if entry.Some? && "ip" in entry.value.fields then Ok(entry) else Err(NoIp(env, role))
  }

  /** The entry after the AWS facts of the trusted instance are copied into it. */
  function AwsReconciled(env: string, role: string, entry: Option<Record>, inst: Option<AwsInstance>)
    : (r: Result<Option<Record>, ServerError>)
    ensures inst.None? ==> r == Ok(entry)
    ensures r.Err? <==> inst.Some? && entry.None?
    ensures r.Err? ==> r.error == NilEntry(env, role)
    ensures r.Ok? && inst.Some? ==>
      r.value.Some? && AwsKeys <= r.value.value.fields.Keys &&
      r.value.value.fields["type"] == inst.value.instanceType &&
      r.value.value.fields["ip"] == inst.value.publicIp &&
      r.value.value.fields["ip_private"] == inst.value.privateIp &&
      SameBesides(entry.value, r.value.value, AwsKeys)
  {
    if inst.None? then Ok(entry)
    else if entry.None? then Err(NilEntry(env, role))
    else
      var i := inst.value;
      Ok(Some(SetField(SetField(SetField(entry.value, "type", i.instanceType), "ip", i.publicIp), "ip_private", i.privateIp)))
  }

  /** The droplet's public and private addresses merged into the entry; a missing network is a crash. */
  function AddressesMerged(env: string, role: string, rec: Record, d: Droplet): (r: Result<Record, ServerError>)
    ensures r.Err? <==> AddressOf(d.networks, "public").None? || AddressOf(d.networks, "private").None?
    ensures r.Err? ==>
      r.error == NoNetwork(env, role, if AddressOf(d.networks, "public").None? then "public" else "private")
    ensures r.Ok? ==>
      "ip" in r.value.fields && "ip_private" in r.value.fields &&
      Some(r.value.fields["ip"]) == AddressOf(d.networks, "public") &&
      Some(r.value.fields["ip_private"]) == AddressOf(d.networks, "private") &&
      SameBesides(rec, r.value, {"ip", "ip_private"})
  {
    var public := AddressOf(d.networks, "public");
    if public.None? then Err(NoNetwork(env, role, "public"))
    else
      var private := AddressOf(d.networks, "private");
      if private.None? then Err(NoNetwork(env, role, "private"))
      else Ok(SetField(SetField(rec, "ip", public.value), "ip_private", private.value))
  }

  /**
   * The entry after the DigitalOcean step: the trusted droplet's slug is
   * copied in, the slug is checked against the offered sizes, then the
   * droplet's public and private addresses are copied in.
   */
  function DropletReconciled(env: string, role: string, entry: Option<Record>, d: Option<Droplet>, slugs: Option<seq<string>>)
    : (r: Result<Option<Record>, ServerError>)
    ensures r.Err? && r.error == NilEntry(env, role) <==> entry.None?
    ensures r == Err(EmptySlug(env, role)) <==> entry.Some? && d.None? && "slug" !in entry.value.fields
    ensures r == Err(NoSizes(env, role)) <==>
      entry.Some? && slugs.None? && (d.Some? || "slug" in entry.value.fields)
    ensures r == Err(InvalidSlug(env, role)) <==>
      entry.Some? && slugs.Some? && |slugs.value| > 0 &&
      (if d.Some? then d.value.slug !in slugs.value
       else "slug" in entry.value.fields && entry.value.fields["slug"] !in slugs.value)
    ensures r.Err? && r.error.NoNetwork? ==>
      d.Some? &&
      (AddressOf(d.value.networks, "public").None? || AddressOf(d.value.networks, "private").None?)
    ensures r.Ok? && d.None? ==> r.value == entry
    ensures r.Ok? && d.Some? ==>
      r.value.Some? && entry.Some? && DropletKeys <= r.value.value.fields.Keys &&
      r.value.value.fields["slug"] == d.value.slug &&
      Some(r.value.value.fields["ip"]) == AddressOf(d.value.networks, "public") &&
      Some(r.value.value.fields["ip_private"]) == AddressOf(d.value.networks, "private") &&
      SameBesides(entry.value, r.value.value, DropletKeys)
    ensures r.Ok? ==>
      r.value.Some? && "slug" in r.value.value.fields && slugs.Some? &&
      (|slugs.value| > 0 ==> r.value.value.fields["slug"] in slugs.value)
  {
    if entry.None? then Err(NilEntry(env, role))
    else
      var rec := if d.Some? then SetField(entry.value, "slug", d.value.slug) else entry.value;
      if "slug" !in rec.fields then Err(EmptySlug(env, role))
      else if slugs.None? then Err(NoSizes(env, role))
      else if |slugs.value| > 0 && rec.fields["slug"] !in slugs.value then Err(InvalidSlug(env, role))
      else if d.None? then Ok(entry)
      else
        var merged := AddressesMerged(env, role, rec, d.value);
        if merged.Err? then Err(merged.error) else Ok(Some(merged.value))
  }

  /** A server's entry after its provider has been asked about it. */
  function ServerReconciled(company: string, env: string, role: string, entry: Option<Record>, ls: Listings)
    : (r: Result<Option<Record>, ServerError>)
  {
    var name := MachineName(company, env, role);
    match ProviderFor(env, role)
    case VirtualBox => DevChecked(env, role, entry)
    case Aws => AwsReconciled(env, role, entry, if ls.instances.None? then None else AwsPick(ls.instances.value, name))
    case DigitalOcean => DropletReconciled(env, role, entry, DropletPick(ls.droplets, name), ls.slugs)
    case Unmanaged => Ok(entry)
  }

  /**
   * Without a trusted machine (none listed, or not `running`/`active`) the
   * entry keeps its facts: the step either fails or leaves it as it was.
   */
  lemma UntrustedLeavesEntry(company: string, env: string, role: string, entry: Option<Record>, ls: Listings)
    requires ProviderFor(env, role) == Aws ==>
      ls.instances.None? || AwsPick(ls.instances.value, MachineName(company, env, role)).None?
    requires ProviderFor(env, role) == DigitalOcean ==> DropletPick(ls.droplets, MachineName(company, env, role)).None?
    ensures ServerReconciled(company, env, role, entry, ls).Ok? ==> ServerReconciled(company, env, role, entry, ls).value == entry
  {
  }

  /** A second visit with the same listings changes nothing more. */
  lemma ReconcileIdempotent(company: string, env: string, role: string, entry: Option<Record>, ls: Listings)
    requires ServerReconciled(company, env, role, entry, ls).Ok?
    ensures var once := ServerReconciled(company, env, role, entry, ls).value;
      ServerReconciled(company, env, role, once, ls) == Ok(once)
  {
    var once := ServerReconciled(company, env, role, entry, ls).value;
    var name := MachineName(company, env, role);
    match ProviderFor(env, role)
    case VirtualBox =>
    case Aws =>
      var inst := if ls.instances.None? then None else AwsPick(ls.instances.value, name);
      if inst.Some? {
        var r := once.value;
        SetFieldSame(r, "type");
        SetFieldSame(r, "ip");
        SetFieldSame(r, "ip_private");
      }
    case DigitalOcean =>
      var d := DropletPick(ls.droplets, name);
      if d.Some? {
        var r := once.value;
        SetFieldSame(r, "slug");
        SetFieldSame(r, "ip");
        SetFieldSame(r, "ip_private");
      }
    case Unmanaged =>
  }

  /**
   * The id the status row shows for a server: the trusted machine's, or none
   * ("not running"). A VirtualBox id is cut to its first 11 characters.
   */
  function ShownId(company: string, env: string, role: string, ls: Listings): (r: Option<string>)
    ensures ProviderFor(env, role) == Unmanaged ==> r.None?
    ensures ProviderFor(env, role) == VirtualBox ==>
      (r.Some? <==> ls.machines.Some? && VboxPick(ls.machines.value, MachineName(company, env, role)).Some?)
    ensures ProviderFor(env, role) == VirtualBox && r.Some? ==>
      |r.value| <= 11 && StartsWith(VboxPick(ls.machines.value, MachineName(company, env, role)).value.id, r.value)
    ensures ProviderFor(env, role) == Aws ==>
      (r.Some? <==> ls.instances.Some? && AwsPick(ls.instances.value, MachineName(company, env, role)).Some?)
    ensures ProviderFor(env, role) == Aws && r.Some? ==>
      r.value == AwsPick(ls.instances.value, MachineName(company, env, role)).value.id
    ensures ProviderFor(env, role) == DigitalOcean ==>
      (r.Some? <==> DropletPick(ls.droplets, MachineName(company, env, role)).Some?)
    ensures ProviderFor(env, role) == DigitalOcean && r.Some? ==>
      r.value == DropletPick(ls.droplets, MachineName(company, env, role)).value.id
  {
    var name := MachineName(company, env, role);
    match ProviderFor(env, role)
    case VirtualBox =>
      var m := if ls.machines.None? then None else VboxPick(ls.machines.value, name);
      if m.Some? then Some(Head(m.value.id, 11)) else None
    case Aws =>
      var i := if ls.instances.None? then None else AwsPick(ls.instances.value, name);
      if i.Some? then Some(i.value.id) else None
    case DigitalOcean =>
      var d := DropletPick(ls.droplets, name);
      if d.Some? then Some(d.value.id) else None
    case Unmanaged => None
  }

  // A whole environment.

  /** Every server of the environment passes its provider step. */
  predicate AllReconcile(company: string, env: string, e: Environment, ls: Listings)
  {
    forall role :: role in e.servers ==> ServerReconciled(company, env, role, e.servers[role], ls).Ok?
  }

  /** The environment after every server has been visited, in any order. */
  function EnvironmentReconciled(company: string, env: string, e: Environment, ls: Listings): (r: Environment)
    requires AllReconcile(company, env, e, ls)
    ensures r.software == e.software && r.servers.Keys == e.servers.Keys
    ensures forall role :: role in e.servers ==> Ok(r.servers[role]) == ServerReconciled(company, env, role, e.servers[role], ls)
  {
    e.(servers := map role | role in e.servers :: ServerReconciled(company, env, role, e.servers[role], ls).value)
  }

  /** Visiting the reconciled environment again changes nothing. */
  lemma EnvironmentIdempotent(company: string, env: string, e: Environment, ls: Listings)
    requires AllReconcile(company, env, e, ls)
    ensures var once := EnvironmentReconciled(company, env, e, ls);
      AllReconcile(company, env, once, ls) && EnvironmentReconciled(company, env, once, ls) == once
  {
    var once := EnvironmentReconciled(company, env, e, ls);
    forall role | role in once.servers
      ensures ServerReconciled(company, env, role, once.servers[role], ls) == Ok(once.servers[role])
    {
      ReconcileIdempotent(company, env, role, e.servers[role], ls);
    }
    assert EnvironmentReconciled(company, env, once, ls).servers == once.servers;
  }
}
