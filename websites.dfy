/**
 * The checks run on every entry of `websites` in `secrets/configuration.yml`:
 * the per-instance rules, the split of the repository URI with its host
 * allow-list, the rule that each service lists its domains in alphabetical
 * order, and the host names written to the developer's hosts file.
 */
module Websites {
  import opened Basics
  import opened RubyStrings
  import opened Ordering

  /** An optional instance setting whose YAML type varies: a string, a boolean or a list. */
  datatype Value = Str(s: string) | Flag(b: bool) | List(items: seq<string>)

  /** `"#{v}"`, which is also `v.to_s`; list items are shown quoted, without escapes. */
  function Render(v: Value): (r: string)
    ensures v.List? ==> |r| >= 2 && r[0] == '['
  {
    match v
    case Str(s) => s
    case Flag(b) => if b then "true" else "false"
    case List(items) => "[" + Join(Quoted(items), ", ") + "]"
  }

  function Quoted(items: seq<string>): (r: seq<string>)
    ensures |r| == |items|
    ensures forall k :: 0 <= k < |items| ==> r[k] == "\"" + items[k] + "\""
  {
    seq(|items|, k requires 0 <= k < |items| => "\"" + items[k] + "\"")
  }

  /** Only the boolean `true` and the string `"true"` render as `true`. */
  lemma RendersTrue(v: Value)
    ensures Render(v) == "true" <==> v == Flag(true) || v == Str("true")
  {
    if v.List? {
      assert Render(v)[0] != "true"[0];
    }
  }

  /** `"#{x}"` of a value that may be missing: nil renders as the empty string. */
  function Text(o: Option<string>): (r: string)
    ensures o.Some? ==> r == o.value
    ensures o.None? ==> r == ""
  {
    if o.Some? then o.value else ""
  }

  /** One website instance, with the keys the checks read. */
  datatype Instance = Instance(
    domain: Option<string>,
    domainTldOverride: Option<string>,
    forceAuth: Option<string>,
    forceAuthExclude: Option<seq<string>>,
    forceHttps: Option<Value>,
    forceIp: Option<seq<string>>,
    forceIpExclude: Option<seq<string>>,
    software: Option<string>,
    softwareAutoUpdate: Option<Value>,
    softwareDbprefix: Option<string>,
    softwareDbtableRetain: Option<Value>,
    softwareWorkflow: Option<string>,
    webroot: Option<string>,
    repo: Option<string>)

  datatype WebsiteError =
    | DomainHasScheme | DomainBadChars | DomainTooDeep
    | OverrideHasScheme | OverrideBadChars | OverrideNotOneLevel
    | DomainTooLong
    | ForceAuthLength | ForceAuthBadChars
    | ForceAuthExcludeWithoutForceAuth | ForceAuthExcludeBadValue
    | ForceHttpsNotTrue
    | ForceIpInvalid
    | ForceIpExcludeWithoutForceIp | ForceIpExcludeBadValue
    | SoftwareUnknown | AutoUpdateNotTrue | DbprefixBadChars | DbtableRetainNotList | WorkflowInvalid
    | WebrootNoTrailingSlash
    | RepoNotSsh | RepoHostNotAllowed
    | NotAlphabetical
    | Crash   // a method called on nil: a missing domain or repo, or a repo URI that does not split

  /** The environments an `*_exclude` list may name. */
  const Environments: set<string> := {"dev", "test", "qc", "production"}
  const Workflows: set<string> := {"downstream", "upstream"}
  const RepoHosts: set<string> := {"bitbucket.org", "github.com"}
  /** 64 characters of a MySQL database name less the longest prefix, `production_`. */
  const MaxDomainLength := 53

  predicate IsDigit(c: char) { '0' <= c <= '9' }
  predicate IsLetter(c: char) { 'a' <= c <= 'z' || 'A' <= c <= 'Z' }
  /** `[0-9a-zA-Z\-\.]` */
  predicate DomainChar(c: char) { IsDigit(c) || IsLetter(c) || c == '-' || c == '.' }
  /** `[0-9a-zA-Z]` */
  predicate AlnumChar(c: char) { IsDigit(c) || IsLetter(c) }
  /** `[0-9a-zA-Z\_]` */
  predicate DbprefixChar(c: char) { IsDigit(c) || IsLetter(c) || c == '_' }

  /**
   * How a `/^[C]*$/` pattern is read: `LineAnchored` is Ruby's meaning (one
   * line made of class characters is enough), `WholeString` is what the
   * messages ask for (every character in the class).
   */
  datatype Anchoring = LineAnchored | WholeString

  predicate Matches(mode: Anchoring, s: string, cls: char -> bool)
  {
    match mode
    case LineAnchored => LineMatch(s, cls)
    case WholeString => AllIn(s, cls)
  }

  /** The software a service's provisioner offers; a service absent from the catalog offers none. */
  function Offered(catalog: map<string, seq<string>>, service: string): seq<string>
  {
    if service in catalog then catalog[service] else []
  }

  // The conditions each check stands for, stated as what an acceptable instance is.

  predicate DomainOk(mode: Anchoring, d: string)
  {
    !Contains(d, "://") && Matches(mode, d, DomainChar) && |Split(d, ".")| <= 3
  }

  predicate OverrideOk(mode: Anchoring, o: Option<string>)
  {
    o.Some? ==> !Contains(o.value, "://") && Matches(mode, o.value, DomainChar) && |Split(o.value, ".")| == 2
  }

  function NameLength(d: string, o: Option<string>): nat
  {
    |d| + if o.Some? then |o.value| else 0
  }

  predicate ForceAuthOk(mode: Anchoring, a: Option<string>)
  {
    a.Some? ==> 10 <= |a.value| <= 20 && Matches(mode, a.value, AlnumChar)
  }

  /** An `*_exclude` list needs its base setting and may name only known environments. */
  predicate ExcludeOk(base: bool, xs: Option<seq<string>>)
  {
    xs.Some? ==> base && forall k :: 0 <= k < |xs.value| ==> xs.value[k] in Environments
  }

  predicate ForceIpOk(ips: Option<seq<string>>, isIp: string -> bool)
  {
    ips.Some? ==> forall k :: 0 <= k < |ips.value| ==> isIp(ips.value[k])
  }

  predicate SoftwareOk(mode: Anchoring, service: string, i: Instance, catalog: map<string, seq<string>>)
  {
    i.software.Some? ==>
      i.software.value in Offered(catalog, service) &&
      (i.softwareAutoUpdate.Some? ==> Render(i.softwareAutoUpdate.value) == "true") &&
      (i.softwareDbprefix.Some? ==> Matches(mode, i.softwareDbprefix.value, DbprefixChar)) &&
      (i.softwareDbtableRetain.Some? ==> i.softwareDbtableRetain.value.List?) &&
      Text(i.softwareWorkflow) in Workflows
  }

  /** Every rule an instance must meet for the script to carry on past it. */
  predicate InstanceOk(mode: Anchoring, service: string, i: Instance,
                       catalog: map<string, seq<string>>, isIp: string -> bool)
  {
    i.domain.Some? &&
    DomainOk(mode, i.domain.value) &&
    OverrideOk(mode, i.domainTldOverride) &&
    NameLength(i.domain.value, i.domainTldOverride) <= MaxDomainLength &&
    ForceAuthOk(mode, i.forceAuth) &&
    ExcludeOk(i.forceAuth.Some?, i.forceAuthExclude) &&
    (i.forceHttps.Some? ==> Render(i.forceHttps.value) == "true") &&
    ForceIpOk(i.forceIp, isIp) &&
    ExcludeOk(i.forceIp.Some?, i.forceIpExclude) &&
    SoftwareOk(mode, service, i, catalog) &&
    (i.webroot.Some? ==> EndsWith(i.webroot.value, "/"))
  }

  // The checks themselves, each reporting the first complaint in the script's order.

  /** The first of two checks that fails. */
  function AndThen(first: Outcome<WebsiteError>, next: Outcome<WebsiteError>): (r: Outcome<WebsiteError>)
    ensures r == Pass <==> first == Pass && next == Pass
    ensures first.Fail? ==> r == first
  {
    if first.Fail? then first else next
  }

  function CheckDomain(mode: Anchoring, d: string): (r: Outcome<WebsiteError>)
    ensures r == Pass <==> DomainOk(mode, d)
    ensures r == Fail(DomainHasScheme) <==> Contains(d, "://")
  {
    if Contains(d, "://") then Fail(DomainHasScheme)
    else if !Matches(mode, d, DomainChar) then Fail(DomainBadChars)
    else if |Split(d, ".")| > 3 then Fail(DomainTooDeep)
    else Pass
  }

  function CheckOverride(mode: Anchoring, o: Option<string>): (r: Outcome<WebsiteError>)
    ensures r == Pass <==> OverrideOk(mode, o)
    ensures r.Fail? ==> r.error in {OverrideHasScheme, OverrideBadChars, OverrideNotOneLevel}
  {
    if o.None? then Pass
    else if Contains(o.value, "://") then Fail(OverrideHasScheme)
    else if !Matches(mode, o.value, DomainChar) then Fail(OverrideBadChars)
    else if |Split(o.value, ".")| != 2 then Fail(OverrideNotOneLevel)
    else Pass
  }

  function CheckForceAuth(mode: Anchoring, a: Option<string>): (r: Outcome<WebsiteError>)
    ensures r == Pass <==> ForceAuthOk(mode, a)
    ensures r == Fail(ForceAuthLength) <==> a.Some? && !(10 <= |a.value| <= 20)
  {
    if a.None? then Pass
    else if |a.value| < 10 || |a.value| > 20 then Fail(ForceAuthLength)
    else if !Matches(mode, a.value, AlnumChar) then Fail(ForceAuthBadChars)
    else Pass
  }

  function CheckExclude(base: bool, xs: Option<seq<string>>, missingBase: WebsiteError, badValue: WebsiteError)
    : (r: Outcome<WebsiteError>)
    requires missingBase != badValue
    ensures r == Pass <==> ExcludeOk(base, xs)
    ensures r == Fail(missingBase) <==> xs.Some? && !base
  {
    if xs.None? then Pass
    else if !base then Fail(missingBase)
    else if exists k :: 0 <= k < |xs.value| && xs.value[k] !in Environments then Fail(badValue)
    else Pass
  }

  function CheckForceIp(ips: Option<seq<string>>, isIp: string -> bool): (r: Outcome<WebsiteError>)
    ensures r == Pass <==> ForceIpOk(ips, isIp)
    ensures r.Fail? ==> r == Fail(ForceIpInvalid)
  {
    if ips.Some? && exists k :: 0 <= k < |ips.value| && !isIp(ips.value[k]) then Fail(ForceIpInvalid)
    else Pass
  }

  function CheckSoftware(mode: Anchoring, service: string, i: Instance, catalog: map<string, seq<string>>)
    : (r: Outcome<WebsiteError>)
    ensures r == Pass <==> SoftwareOk(mode, service, i, catalog)
    ensures i.software.None? ==> r == Pass
  {
    if i.software.None? then Pass
    else if i.software.value !in Offered(catalog, service) then Fail(SoftwareUnknown)
    else if i.softwareAutoUpdate.Some? && Render(i.softwareAutoUpdate.value) != "true" then Fail(AutoUpdateNotTrue)
    else if i.softwareDbprefix.Some? && !Matches(mode, i.softwareDbprefix.value, DbprefixChar) then Fail(DbprefixBadChars)
    else if i.softwareDbtableRetain.Some? && !i.softwareDbtableRetain.value.List? then Fail(DbtableRetainNotList)
    else if Text(i.softwareWorkflow) !in Workflows then Fail(WorkflowInvalid)
    else Pass
  }

  /** All the per-instance rules, in the order the script applies them. */
  function ValidateInstance(mode: Anchoring, service: string, i: Instance,
                            catalog: map<string, seq<string>>, isIp: string -> bool): (r: Outcome<WebsiteError>)
    ensures r == Pass <==> InstanceOk(mode, service, i, catalog, isIp)
    ensures i.domain.None? ==> r == Fail(Crash)
    ensures i.domain.Some? && Contains(i.domain.value, "://") ==> r == Fail(DomainHasScheme)
  {
    match i.domain
    case None => Fail(Crash)
    case Some(d) =>
      AndThen(CheckDomain(mode, d),
      AndThen(CheckOverride(mode, i.domainTldOverride),
      AndThen(if NameLength(d, i.domainTldOverride) > MaxDomainLength then Fail(DomainTooLong) else Pass,
      AndThen(CheckForceAuth(mode, i.forceAuth),
      AndThen(CheckExclude(i.forceAuth.Some?, i.forceAuthExclude, ForceAuthExcludeWithoutForceAuth, ForceAuthExcludeBadValue),
      AndThen(if i.forceHttps.Some? && Render(i.forceHttps.value) != "true" then Fail(ForceHttpsNotTrue) else Pass,
      AndThen(CheckForceIp(i.forceIp, isIp),
      AndThen(CheckExclude(i.forceIp.Some?, i.forceIpExclude, ForceIpExcludeWithoutForceIp, ForceIpExcludeBadValue),
      AndThen(CheckSoftware(mode, service, i, catalog),
              if i.webroot.Some? && !EndsWith(i.webroot.value, "/") then Fail(WebrootNoTrailingSlash) else Pass)))))))))
  }

  /** Reading the patterns as whole-string patterns never admits more than Ruby does. */
  lemma WholeStringIsStricter(service: string, i: Instance, catalog: map<string, seq<string>>, isIp: string -> bool)
    requires InstanceOk(WholeString, service, i, catalog, isIp)
    ensures InstanceOk(LineAnchored, service, i, catalog, isIp)
  {
    var d := i.domain.value;
    WholeMatchIsLineMatch(d, DomainChar);
    if i.domainTldOverride.Some? { WholeMatchIsLineMatch(i.domainTldOverride.value, DomainChar); }
    if i.forceAuth.Some? { WholeMatchIsLineMatch(i.forceAuth.value, AlnumChar); }
    if i.software.Some? && i.softwareDbprefix.Some? {
      WholeMatchIsLineMatch(i.softwareDbprefix.value, DbprefixChar);
    }
  }

  /** The instance with only a domain set. */
  function Bare(d: string): Instance
  {
    Instance(Some(d), None, None, None, None, None, None, None, None, None, None, None, None, None)
  }

  /**
   * As Ruby reads `/^[0-9a-zA-Z\-\.]*$/`, a domain with a space and a line
   * break passes, because its last line is clean.
   */
  lemma LineAnchorsAdmitSpaces(service: string, catalog: map<string, seq<string>>, isIp: string -> bool)
    ensures ValidateInstance(LineAnchored, service, Bare("a b\nc"), catalog, isIp) == Pass
    ensures ValidateInstance(WholeString, service, Bare("a b\nc"), catalog, isIp) == Fail(DomainBadChars)
  {
    var d := "a b\nc";
    assert LineStart(d, 4) && LineEnd(d, 5) && d[4..5] == "c";
    assert AllIn(d[4..5], DomainChar);
    assert LineMatch(d, DomainChar);
    assert !DomainChar(d[1]);
    AbsentChar(d, "://", ':');
    assert !Contains(d, ".") by { ContainsChar(d, '.'); }
    SplitOfPlain(d, ".");
  }

  // Host names for the developer's hosts file.

  /** The name an instance answers to: `domain`, or `domain.override`. */
  function SiteName(i: Instance): (r: string)
  {
    if i.domainTldOverride.None? then Text(i.domain)
    else Text(i.domain) + "." + i.domainTldOverride.value
  }

  /** `dev.N` and `www.dev.N` for every instance, in the order they are listed. */
  function DevHosts(insts: seq<Instance>): (r: seq<string>)
    ensures |r| == 2 * |insts|
    ensures forall k :: 0 <= k < |insts| ==>
      r[2 * k] == "dev." + SiteName(insts[k]) && r[2 * k + 1] == "www.dev." + SiteName(insts[k])
  {
    if |insts| == 0 then []
    else
      var last := insts[|insts| - 1];
      DevHosts(insts[..|insts| - 1]) + ["dev." + SiteName(last), "www.dev." + SiteName(last)]
  }

  /**
   * Under the whole-string reading, every host name written for an accepted
   * instance is made of letters, digits, hyphens and dots.
   */
  lemma AcceptedDevHostsAreHostnames(service: string, i: Instance, catalog: map<string, seq<string>>, isIp: string -> bool)
    requires ValidateInstance(WholeString, service, i, catalog, isIp) == Pass
    ensures AllIn("dev." + SiteName(i), DomainChar) && AllIn("www.dev." + SiteName(i), DomainChar)
  {
  }

  /**
   * As written, the domain `"a b\nc"` is accepted, and the host name
   * written for it holds a space and a line break.
   */
  lemma LineAnchoredDevHostBroken(service: string, catalog: map<string, seq<string>>, isIp: string -> bool)
    ensures ValidateInstance(LineAnchored, service, Bare("a b\nc"), catalog, isIp) == Pass
    ensures !AllIn("dev." + SiteName(Bare("a b\nc")), DomainChar)
  {
    LineAnchorsAdmitSpaces(service, catalog, isIp);
    assert ("dev." + SiteName(Bare("a b\nc")))[5] == ' ';
  }

  // The repository URI.

  datatype RepoParts = RepoParts(scheme: string, host: string, path: string, segments: seq<string>)

  /**
   * `git@host:owner/repo(.git)` or `scheme://host/owner/repo(.git)` cut into
   * its parts the way the script cuts it; an index that comes out nil
   * makes the next `split` crash.
   */
  function SplitRepo(repo: string): (r: Result<RepoParts, WebsiteError>)
    ensures r.Err? ==> r.error == Crash
    ensures r.Ok? ==> !Contains(r.value.path, ".git")
  {
    var p1 := if Contains(repo, "git@") then Split(repo, "@") else Split(repo, "://");
    if |p1| < 2 then Err(Crash)
    else
      var p2 := if Contains(repo, "git@") then Split(p1[1], ":") else SplitOnce(p1[1], "/");
      if |p2| < 2 then Err(Crash)
      else
        var p3 := Split(p2[1], ".git");
        if |p3| < 1 then Err(Crash)
        else
          FieldsAvoidSep(p2[1], ".git");
          Ok(RepoParts(p1[0], p2[0], p3[0], Split(p3[0], "/")))
  }

  /** Outside the `catapult` service, a repository must be an SSH URI on an allowed host. */
  function CheckRepo(service: string, repo: Option<string>): (r: Outcome<WebsiteError>)
    ensures repo.None? ==> r == Fail(Crash)
    ensures r == Pass <==>
      repo.Some? && SplitRepo(repo.value).Ok? &&
      (service != "catapult" ==> SplitRepo(repo.value).value.scheme == "git" && SplitRepo(repo.value).value.host in RepoHosts)
  {
    if repo.None? then Fail(Crash)
    else
      match SplitRepo(repo.value)
      case Err(e) => Fail(e)
      case Ok(p) =>
        if service == "catapult" then Pass
        else if p.scheme != "git" then Fail(RepoNotSsh)
        else if p.host !in RepoHosts then Fail(RepoHostNotAllowed)
        else Pass
  }

  /** `git@H:O/R.git` splits into scheme `git`, host `H`, path `O/R` and the segments `O`, `R`. */
  lemma SplitSshRepo(h: string, o: string, r: string)
    requires h != "" && o != "" && r != ""
    requires '@' !in h + o + r && ':' !in h + o + r && '/' !in o + r
    requires !Contains(o + "/" + r, ".git")
    ensures SplitRepo("git@" + h + ":" + o + "/" + r + ".git") == Ok(RepoParts("git", h, o + "/" + r, [o, r]))
  {
    var path := o + "/" + r;
    var afterColon := path + ".git";
    var afterAt := h + ":" + afterColon;
    var repo := "git@" + h + ":" + o + "/" + r + ".git";
    assert repo == "git" + "@" + afterAt;
    assert repo[..4] == "git@";
    ContainsAt(repo, "git@", 0);
    assert '@' !in afterAt;
    SplitTwo("git", '@', afterAt);
    assert ':' !in afterColon;
    SplitTwo(h, ':', afterColon);
    SplitDotGit(path);
    SplitTwo(o, '/', r);
  }

  lemma SplitDotGit(path: string)
    requires path != "" && !Contains(path, ".git")
    ensures Split(path + ".git", ".git") == [path]
  {
    assert path + ".git" == path + ".git" + "";
    SplitOfJoin(path, ".git", "");
    assert Split("", ".git") == [];
  }

  /** An `https://` URI is refused for every service but `catapult`, whatever follows the scheme. */
  lemma HttpsRepoRefused(service: string, rest: string)
    requires service != "catapult" && '@' !in rest
    ensures CheckRepo(service, Some("https://" + rest)).Fail?
  {
    var repo := "https://" + rest;
    assert repo == "https" + "://" + rest;
    assert '@' !in repo;
    AbsentChar(repo, "git@", '@');
    AbsentChar("https", "://", ':');
    SplitOfJoin("https", "://", rest);
  }

  /** The `catapult` service itself may use any URI that splits. */
  lemma CatapultRepoExempt(repo: string)
    requires SplitRepo(repo).Ok?
    ensures CheckRepo("catapult", Some(repo)) == Pass
  {
  }

  // A service: its instances, then the order of its domains.

  /** The domains of a service in declared order, as `"#{domain}"`. */
  function Domains(insts: seq<Instance>): (r: seq<string>)
  {
    seq(|insts|, k requires 0 <= k < |insts| => Text(insts[k].domain))
  }

  /** Each instance's own rules, then its repository, one instance after the other. */
  function CheckInstances(mode: Anchoring, service: string, insts: seq<Instance>,
                          catalog: map<string, seq<string>>, isIp: string -> bool): (r: Outcome<WebsiteError>)
    ensures r == Pass <==> forall k :: 0 <= k < |insts| ==>
      InstanceOk(mode, service, insts[k], catalog, isIp) && CheckRepo(service, insts[k].repo) == Pass
  {
    if |insts| == 0 then Pass
    else
      var rest := CheckInstances(mode, service, insts[1..], catalog, isIp);
      assert forall k :: 1 <= k < |insts| ==> insts[k] == insts[1..][k - 1];
      AndThen(ValidateInstance(mode, service, insts[0], catalog, isIp),
      AndThen(CheckRepo(service, insts[0].repo), rest))
  }

  /** A service passes when every instance does and its domains are already sorted. */
  function ValidateService(mode: Anchoring, service: string, insts: seq<Instance>,
                           catalog: map<string, seq<string>>, isIp: string -> bool): (r: Outcome<WebsiteError>)
    ensures r == Pass <==> CheckInstances(mode, service, insts, catalog, isIp) == Pass && Sorted(Domains(insts))
    ensures CheckInstances(mode, service, insts, catalog, isIp) == Pass && !Sorted(Domains(insts)) ==>
      r == Fail(NotAlphabetical)
  {
    SortIsIdentityIffSorted(Domains(insts));
    var first := CheckInstances(mode, service, insts, catalog, isIp);
    if first.Fail? then first
    else if Domains(insts) != Sort(Domains(insts)) then Fail(NotAlphabetical)
    else Pass
  }

  /** Putting the instances of a passing service in domain order keeps it passing. */
  lemma ReorderedServicePasses(mode: Anchoring, service: string, insts: seq<Instance>, reordered: seq<Instance>,
                               catalog: map<string, seq<string>>, isIp: string -> bool)
    requires CheckInstances(mode, service, insts, catalog, isIp) == Pass
    requires multiset(reordered) == multiset(insts)
    requires Sorted(Domains(reordered))
    ensures ValidateService(mode, service, reordered, catalog, isIp) == Pass
  {
    forall k | 0 <= k < |reordered|
      ensures InstanceOk(mode, service, reordered[k], catalog, isIp) && CheckRepo(service, reordered[k].repo) == Pass
    {
      assert reordered[k] in multiset(insts);
      var m :| 0 <= m < |insts| && insts[m] == reordered[k];
    }
  }

  /** An entry of `websites`: a service and its instances, nil when none are listed. */
  datatype ServiceEntry = ServiceEntry(service: string, instances: Option<seq<Instance>>)

  /** All services in the order they are declared; the first complaint ends the run. */
  function ValidateServices(mode: Anchoring, entries: seq<ServiceEntry>, catalog: map<string, seq<string>>,
                            isIp: string -> bool): (r: Outcome<WebsiteError>)
    ensures r == Pass <==> forall k :: 0 <= k < |entries| && entries[k].instances.Some? ==>
      ValidateService(mode, entries[k].service, entries[k].instances.value, catalog, isIp) == Pass
  {
    if |entries| == 0 then Pass
    else
      var e := entries[0];
      var rest := ValidateServices(mode, entries[1..], catalog, isIp);
      assert forall k :: 1 <= k < |entries| ==> entries[k] == entries[1..][k - 1];
      if e.instances.None? then rest
      else AndThen(ValidateService(mode, e.service, e.instances.value, catalog, isIp), rest)
  }

  /**
   * The `websites` checks, run only when the command (`ARGV[0]`) is
   * `provision` or `status`; the script reads the patterns `LineAnchored`.
   */
  function ValidateWebsites(command: string, mode: Anchoring, entries: seq<ServiceEntry>,
                            catalog: map<string, seq<string>>, isIp: string -> bool): (r: Outcome<WebsiteError>)
    ensures command != "provision" && command != "status" ==> r == Pass
    ensures command == "provision" || command == "status" ==>
      (r == Pass <==> forall k :: 0 <= k < |entries| && entries[k].instances.Some? ==>
        ValidateService(mode, entries[k].service, entries[k].instances.value, catalog, isIp) == Pass)
  {
    if command != "provision" && command != "status" then Pass
    else ValidateServices(mode, entries, catalog, isIp)
  }

  /** The instances listed under a service, nil when the service is absent or empty. */
  function Lookup(entries: seq<ServiceEntry>, service: string): (r: Option<seq<Instance>>)
    ensures r.Some? ==> exists k :: 0 <= k < |entries| && entries[k] == ServiceEntry(service, r)
    ensures (forall k :: 0 <= k < |entries| ==> entries[k].service != service) ==> r.None?
  {
    if |entries| == 0 then None
    else if entries[0].service == service then entries[0].instances
    else
      var r := Lookup(entries[1..], service);
      assert r.Some? ==> exists k :: 1 <= k < |entries| && entries[k] == ServiceEntry(service, r);
      r
  }

  /** The host names for the Red Hat (apache) and the Windows (iis) development machines. */
  function DevHostLists(entries: seq<ServiceEntry>): (r: (seq<string>, seq<string>))
    ensures Lookup(entries, "apache").None? ==> r.0 == []
    ensures Lookup(entries, "apache").Some? ==> r.0 == DevHosts(Lookup(entries, "apache").value)
    ensures Lookup(entries, "iis").None? ==> r.1 == []
    ensures Lookup(entries, "iis").Some? ==> r.1 == DevHosts(Lookup(entries, "iis").value)
  {
    var apache := Lookup(entries, "apache");
    var iis := Lookup(entries, "iis");
    (if apache.None? then [] else DevHosts(apache.value),
     if iis.None? then [] else DevHosts(iis.value))
  }
}
