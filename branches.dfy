/**
 * What the script decides from git alone: which branches of the fork to
 * create, which checked-out branch may go on, and the pre-commit hook it
 * installs, which decides from the branch and the staged paths whether a
 * commit may proceed.
 */
module Branches {
  import opened Basics
  import opened RubyStrings

  const VersionFile := "VERSION.yml"
  const ConfigurationSecret := "secrets/configuration.yml.gpg"
  const PrivateKeySecret := "secrets/id_rsa.gpg"
  const PublicKeySecret := "secrets/id_rsa.pub.gpg"
  /** The three encrypted files, in the order the hook looks for them. */
  const Secrets: seq<string> := [ConfigurationSecret, PrivateKeySecret, PublicKeySecret]

  // The branch gate.

  /** What the rest of the bootstrap does on the checked-out branch. */
  datatype Path =
    | FullCycle     // `develop`: seed, decrypt, compare and re-encrypt the secrets
    | Passthrough   // `develop-catapult`: take the encrypted secrets from `develop`
    | LoadOnly      // any other branch: only the checked decryption

  datatype GateError = ProtectedBranch(branch: string)

  /** `master` and `release` stop the run before any secret is touched. */
  function Gate(branch: string): (r: Result<Path, GateError>)
    ensures r.Err? <==> branch in {"master", "release"}
    ensures r == Ok(FullCycle) <==> branch == "develop"
    ensures r == Ok(Passthrough) <==> branch == "develop-catapult"
  {
    if branch == "master" || branch == "release" then Err(ProtectedBranch(branch))
    else if branch == "develop" then Ok(FullCycle)
    else if branch == "develop-catapult" then Ok(Passthrough)
    else Ok(LoadOnly)
  }

  // The pre-commit hook.

  datatype HookReason =
    | VersionNotStaged             // develop-catapult without VERSION.yml
    | SecretOnDevelopCatapult(path: string)
    | NoSecretStaged               // develop: only configuration may be committed there
    | DirectToRelease
    | DirectToMaster
    | ContributeFromDevelopCatapult  // master, even with a secret staged

  datatype Verdict = Accept | Reject(reason: HookReason)

  predicate AnySecretStaged(staged: seq<string>)
  {
    ConfigurationSecret in staged || PrivateKeySecret in staged || PublicKeySecret in staged
  }

  /** The first of the secrets that is staged, in the hook's order. */
  function FirstStagedSecret(staged: seq<string>): (r: Option<string>)
    ensures r.Some? <==> AnySecretStaged(staged)
    ensures r.Some? ==> r.value in Secrets && r.value in staged
    ensures r.Some? && r.value != ConfigurationSecret ==> ConfigurationSecret !in staged
    ensures r == Some(PublicKeySecret) ==> PrivateKeySecret !in staged
  {
    if ConfigurationSecret in staged then Some(ConfigurationSecret)
    else if PrivateKeySecret in staged then Some(PrivateKeySecret)
    else if PublicKeySecret in staged then Some(PublicKeySecret)
    else None
  }

  /**
   * The hook's verdict for a branch and the output of
   * `git diff --name-only --staged`, cut into lines.
   */
  function PreCommit(branch: string, stagedOutput: string): (r: Verdict)
    ensures r == Accept <==>
      (branch == "develop-catapult" && VersionFile in Split(stagedOutput, "\n") && !AnySecretStaged(Split(stagedOutput, "\n"))) ||
      (branch in {"develop", "release"} && AnySecretStaged(Split(stagedOutput, "\n"))) ||
      branch !in {"develop-catapult", "develop", "release", "master"}
    ensures branch == "master" ==> r.Reject?
    ensures branch == "develop-catapult" && VersionFile in Split(stagedOutput, "\n") && r.Reject? ==>
      r.reason == SecretOnDevelopCatapult(FirstStagedSecret(Split(stagedOutput, "\n")).value)
  {
    var staged := Split(stagedOutput, "\n");
    if branch == "develop-catapult" then
      if VersionFile !in staged then Reject(VersionNotStaged)
      else
        match FirstStagedSecret(staged)
        case Some(p) => Reject(SecretOnDevelopCatapult(p))
        case None => Accept
    else if branch == "develop" then
      if AnySecretStaged(staged) then Accept else Reject(NoSecretStaged)
    else if branch == "release" then
      if AnySecretStaged(staged) then Accept else Reject(DirectToRelease)
    else if branch == "master" then
      if AnySecretStaged(staged) then Reject(ContributeFromDevelopCatapult) else Reject(DirectToMaster)
    else Accept
  }

  /**
   * The paths git prints, each ending with a newline (nothing at all when
   * none is staged), come back as the staged list.
   */
  lemma PreCommitReadsLines(paths: seq<string>)
    requires |paths| > 0 ==> paths[|paths| - 1] != ""
    requires forall k :: 0 <= k < |paths| ==> !Contains(paths[k], "\n")
    ensures Split(if paths == [] then "" else Join(paths, "\n") + "\n", "\n") == paths
  {
    if paths != [] {
      var text := Join(paths, "\n") + "\n";
      JoinSnocEmpty(paths, "\n");
      assert !Contains("", "\n");
      FieldsJoin(paths + [""], "\n");
      assert Fields(text, "\n") == paths + [""];
      assert (paths + [""])[..|paths|] == paths;
      assert DropTrailingEmpty(paths + [""]) == DropTrailingEmpty(paths) == paths;
    } else {
      assert Fields("", "\n") == [""];
    }
  }

  // The branches of the fork, from `git ls-remote`.

  /** The non-empty lines of the `ls-remote` output. */
  function NonEmpty(parts: seq<string>): (r: seq<string>)
    ensures forall x :: x in r <==> x in parts && x != ""
    ensures |r| <= |parts|
  {
    if |parts| == 0 then []
    else if parts[0] == "" then NonEmpty(parts[1..])
    else [parts[0]] + NonEmpty(parts[1..])
  }

  function RemoteLines(output: string): seq<string>
  {
    NonEmpty(Split(output, "\n"))
  }

  /**
   * How a branch is looked for in the listing: `Substring` is what the
   * script does (`include?("refs/heads/NAME")`), `ExactRef` asks for the
   * line's ref to be exactly `refs/heads/NAME`.
   */
  datatype RefMatch = Substring | ExactRef

  predicate LineLists(mode: RefMatch, line: string, name: string)
  {
    match mode
    case Substring => Contains(line, "refs/heads/" + name)
    case ExactRef => EndsWith(line, "\trefs/heads/" + name)
  }

  predicate Lists(mode: RefMatch, lines: seq<string>, name: string)
  {
    exists k :: 0 <= k < |lines| && LineLists(mode, lines[k], name)
  }

  /** A listing the exact reading finds is found by the substring reading too. */
  lemma ExactRefIsStricter(lines: seq<string>, name: string)
    requires Lists(ExactRef, lines, name)
    ensures Lists(Substring, lines, name)
  {
    var k :| 0 <= k < |lines| && LineLists(ExactRef, lines[k], name);
    RefSuffixContainsRef(lines[k], "refs/heads/" + name);
    assert LineLists(Substring, lines[k], name);
  }

  lemma RefSuffixContainsRef(l: string, ref: string)
    requires |ref| > 0 && EndsWith(l, "\t" + ref)
    ensures Contains(l, ref)
  {
    var i := |l| - |ref|;
    assert l[i..i + |ref|] == l[i - 1..][1..] == ref;
    ContainsAt(l, ref, i);
  }

  datatype SetupError = NoMasterBranch

  /** The branches the script creates on the fork, in the order it creates them. */
  function BranchesToCreate(mode: RefMatch, lines: seq<string>): (r: Result<seq<string>, SetupError>)
    ensures r.Err? <==> !Lists(mode, lines, "master")
    ensures r.Ok? ==> ("develop-catapult" in r.value <==> !Lists(mode, lines, "develop-catapult"))
    ensures r.Ok? ==> ("develop" in r.value <==> !Lists(mode, lines, "develop"))
    ensures r.Ok? ==> ("release" in r.value <==> !Lists(mode, lines, "release"))
    ensures r.Ok? ==> forall k :: 0 <= k < |r.value| ==> r.value[k] in {"develop-catapult", "develop", "release"}
  {
    if !Lists(mode, lines, "master") then Err(NoMasterBranch)
    else
      Ok((if Lists(mode, lines, "develop-catapult") then [] else ["develop-catapult"]) +
         (if Lists(mode, lines, "develop") then [] else ["develop"]) +
         (if Lists(mode, lines, "release") then [] else ["release"]))
  }

  /** The `ls-remote` line for branch `name` at commit `sha`. */
  function RefLineOf(sha: string, name: string): string
  {
    sha + "\trefs/heads/" + name
  }

  /**
   * A fork holding `develop-catapult` but no `develop`, whatever the commit
   * ids: the substring test takes the first for the second, so `develop` is
   * never created.
   */
  lemma DevelopMistakenForDevelopCatapult(a: string, b: string, c: string)
    ensures BranchesToCreate(Substring, [RefLineOf(a, "master"), RefLineOf(b, "develop-catapult"), RefLineOf(c, "release")]) == Ok([])
    ensures BranchesToCreate(ExactRef, [RefLineOf(a, "master"), RefLineOf(b, "develop-catapult"), RefLineOf(c, "release")]) == Ok(["develop"])
  {
    var lines := [RefLineOf(a, "master"), RefLineOf(b, "develop-catapult"), RefLineOf(c, "release")];
    ListingFacts(lines, a, b, c);
    var written := BranchesToCreate(Substring, lines);
    assert written.Ok? && written.value == [];
    var exact := BranchesToCreate(ExactRef, lines);
    assert exact.Ok? && exact.value == ["develop"];
  }

  lemma ListingFacts(lines: seq<string>, a: string, b: string, c: string)
    requires lines == [RefLineOf(a, "master"), RefLineOf(b, "develop-catapult"), RefLineOf(c, "release")]
    ensures Lists(Substring, lines, "master") && Lists(Substring, lines, "develop-catapult")
    ensures Lists(Substring, lines, "develop") && Lists(Substring, lines, "release")
    ensures Lists(ExactRef, lines, "master") && Lists(ExactRef, lines, "develop-catapult")
    ensures !Lists(ExactRef, lines, "develop") && Lists(ExactRef, lines, "release")
  {
    RefLine(lines, 0, a, "master", "");
    RefLine(lines, 1, b, "develop-catapult", "");
    RefLine(lines, 2, c, "release", "");
    DevelopInsideDevelopCatapult(lines, b);
    NoExactDevelop(lines);
  }

  lemma DevelopInsideDevelopCatapult(lines: seq<string>, b: string)
    requires |lines| > 1 && lines[1] == RefLineOf(b, "develop-catapult")
    ensures Lists(Substring, lines, "develop")
  {
    assert "develop-catapult" == "develop" + "-catapult";
    RefLine(lines, 1, b, "develop", "-catapult");
  }

  lemma NoExactDevelop(lines: seq<string>)
    requires forall k :: 0 <= k < |lines| ==> |lines[k]| > 0 && lines[k][|lines[k]| - 1] != 'p'
    ensures !Lists(ExactRef, lines, "develop")
  {
    forall k | 0 <= k < |lines|
      ensures !LineLists(ExactRef, lines[k], "develop")
    {
      LastCharDiffers(lines[k], "\trefs/heads/develop");
    }
  }

  /** Line `k` of `lines` is `sha`, a tab and the ref of `name`, followed by `more`. */
  lemma RefLine(lines: seq<string>, k: nat, sha: string, name: string, more: string)
    requires k < |lines| && lines[k] == RefLineOf(sha, name + more)
    ensures Lists(Substring, lines, name)
    ensures more == "" ==> Lists(ExactRef, lines, name)
  {
    var l := lines[k];
    var ref := "refs/heads/" + name;
    assert l == sha + "\t" + ref + more;
    assert l[|sha| + 1..|sha| + 1 + |ref|] == ref;
    ContainsAt(l, ref, |sha| + 1);
    assert LineLists(Substring, l, name);
    if more == "" {
      assert l[|l| - |"\t" + ref|..] == "\t" + ref;
      assert LineLists(ExactRef, l, name);
    }
  }

  lemma LastCharDiffers(s: string, t: string)
    requires |s| > 0 && |t| > 0 && s[|s| - 1] != t[|t| - 1]
    ensures !EndsWith(s, t)
  {
    if |t| <= |s| {
      assert s[|s| - |t|..][|t| - 1] == s[|s| - 1];
    }
  }
}
