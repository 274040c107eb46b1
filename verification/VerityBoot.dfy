/** `composefs_ensure_fsverity` of the initramfs and the host script, on the disk itself. */
module VerityBoot {
  import opened Options
  import opened PrepareRootConfig
  import opened VerityState

  /** How often enabling and measuring both fail among `files`. */
  function Failures(files: seq<string>, verity: set<string>, stubborn: set<string>): nat {
    if files == [] then 0
    else
      var f := files[|files| - 1];
      Failures(files[..|files| - 1], verity, stubborn) + (if f !in verity && f in stubborn then 1 else 0)
  }

  predicate NoneFails(files: seq<string>, verity: set<string>, stubborn: set<string>) {
    forall f :: f in files ==> f in verity || f !in stubborn
  }

  /** One for each file that fails both ways, and none for any other. */
  lemma {:induction false} FailuresOfConcat(a: seq<string>, b: seq<string>, verity: set<string>, stubborn: set<string>)
    ensures Failures(a + b, verity, stubborn) == Failures(a, verity, stubborn) + Failures(b, verity, stubborn)
  {
    if b == [] {
      assert a + b == a;
    } else {
      var n := |b| - 1;
      FailuresOfConcat(a, b[..n], verity, stubborn);
      assert (a + b)[..|a + b| - 1] == a + b[..n];
    }
  }

  lemma FailuresOfOne(f: string, verity: set<string>, stubborn: set<string>)
    ensures Failures([f], verity, stubborn) == if f in stubborn && f !in verity then 1 else 0
    ensures Failures([], verity, stubborn) == 0
  {
    assert [f][..0] == [];
  }

  lemma {:induction false} CountIsZero(files: seq<string>, verity: set<string>, stubborn: set<string>)
    ensures Failures(files, verity, stubborn) == 0 <==> NoneFails(files, verity, stubborn)
  {
    if files != [] {
      var n := |files| - 1;
      CountIsZero(files[..n], verity, stubborn);
      assert files == files[..n] + [files[n]];
    }
  }

  /** No failures means that every file has verity afterwards. */
  lemma NoFailures(files: seq<string>, verity: set<string>, stubborn: set<string>)
    ensures Failures(files, verity, stubborn) == 0 <==> AllIn(files, verity + Covered(files, stubborn))
  {
    CountIsZero(files, verity, stubborn);
    if AllIn(files, verity + Covered(files, stubborn)) {
      forall f | f in files ensures f in verity || f !in stubborn {
        assert f in verity + Covered(files, stubborn);
      }
    }
  }

  /** The two loops together, one after the other. */
  lemma NoFailuresInBoth(a: seq<string>, b: seq<string>, verity: set<string>, stubborn: set<string>)
    ensures Failures(a, verity, stubborn) + Failures(b, verity + Covered(a, stubborn), stubborn) == 0 <==>
            AllIn(a + b, verity + Covered(a + b, stubborn))
  {
    NoFailures(a, verity, stubborn);
    NoFailures(b, verity + Covered(a, stubborn), stubborn);
    CoveredConcat(a, b, stubborn);
    var half, all := verity + Covered(a, stubborn), verity + Covered(a + b, stubborn);
    assert half + Covered(b, stubborn) == all;
    assert AllIn(a + b, all) ==> AllIn(a, half) && AllIn(b, all) by {
      if AllIn(a + b, all) {
        assert forall f :: f in a ==> f in a + b;
        assert forall f :: f in b ==> f in a + b;
      }
    }
  }

  /** The disk after each of the files. */
  ghost function Trail(d: Disk, files: seq<string>, stubborn: set<string>): seq<Disk> {
    if files == [] then []
    else Trail(d, files[..|files| - 1], stubborn) + [Disk(d.verity + Covered(files, stubborn), d.lock)]
  }

  lemma {:induction false} TrailAt(d: Disk, files: seq<string>, stubborn: set<string>, i: nat)
    requires i < |files|
    ensures |Trail(d, files, stubborn)| == |files|
    ensures Trail(d, files, stubborn)[i] == Disk(d.verity + Covered(files[..i + 1], stubborn), d.lock)
  {
    var n := |files| - 1;
    TrailLength(d, files[..n], stubborn);
    if i == n {
      assert files[..i + 1] == files;
    } else {
      TrailAt(d, files[..n], stubborn, i);
      assert files[..n][..i + 1] == files[..i + 1];
    }
  }

  lemma {:induction false} TrailLength(d: Disk, files: seq<string>, stubborn: set<string>)
    ensures |Trail(d, files, stubborn)| == |files|
  {
    if files != [] {
      TrailLength(d, files[..|files| - 1], stubborn);
    }
  }

  lemma {:induction false} TrailConcat(d: Disk, a: seq<string>, b: seq<string>, stubborn: set<string>)
    ensures Trail(d, a + b, stubborn)
         == Trail(d, a, stubborn) + Trail(Disk(d.verity + Covered(a, stubborn), d.lock), b, stubborn)
  {
    if b == [] {
      assert a + b == a;
    } else {
      var n := |b| - 1;
      TrailConcat(d, a, b[..n], stubborn);
      assert (a + b)[..|a + b| - 1] == a + b[..n];
      CoveredConcat(a, b, stubborn);
      assert d.verity + Covered(a + b, stubborn) == d.verity + Covered(a, stubborn) + Covered(b, stubborn);
    }
  }

  lemma TwoLoops(d: Disk, repo: Repo, stubborn: set<string>)
    ensures var half := Disk(d.verity + Covered(repo.objects, stubborn), d.lock);
            var all := Disk(half.verity + Covered(repo.images, stubborn), d.lock);
            && all.verity == d.verity + Covered(repo.Files(), stubborn)
            && Trail(d, repo.Files(), stubborn) == Trail(d, repo.objects, stubborn) + Trail(half, repo.images, stubborn)
            && (Failures(repo.objects, d.verity, stubborn) + Failures(repo.images, half.verity, stubborn) == 0
                <==> Complete(all, repo))
  {
    NoFailuresInBoth(repo.objects, repo.images, d.verity, stubborn);
    CoveredConcat(repo.objects, repo.images, stubborn);
    TrailConcat(d, repo.objects, repo.images, stubborn);
    assert d.verity + Covered(repo.objects, stubborn) + Covered(repo.images, stubborn)
        == d.verity + Covered(repo.Files(), stubborn);
  }

  /** Every cut during a pass is one the histories allow for. */
  lemma TrailMayBeLeft(d: Disk, repo: Repo, env: Env, found: Disk)
    requires Passes(d, env) && found in Trail(d.(lock := true), repo.Files(), env.stubborn)
    ensures MayLeave(d, repo, env, found)
  {
    TrailLength(d.(lock := true), repo.Files(), env.stubborn);
    var i :| 0 <= i < |repo.Files()| && Trail(d.(lock := true), repo.Files(), env.stubborn)[i] == found;
    TrailAt(d.(lock := true), repo.Files(), env.stubborn, i);
    assert found == CutAt(d, repo, env, i + 1);
  }

  /** The exits that report success without a pass. */
  predicate NotNeeded(d: Disk, env: Env) {
    env.lines.None? || Enabled(env) != "signed" || (Considers(env) && !Starts(d, env))
  }

  class VerityRepo {
    const repo: Repo
    var verity: set<string>
    var lock: bool
    ghost var trace: seq<Disk>

    constructor (repo: Repo, verity: set<string>, lock: bool)
      ensures this.repo == repo && this.verity == verity && this.lock == lock
    {
      this.repo, this.verity, this.lock, trace := repo, verity, lock, [];
    }

    function Now(): Disk
      reads this
    {
      Disk(verity, lock)
    }

    /** `fsverity enable`: fails on a file that already has verity, and on the stubborn ones. */
    method FsverityEnable(f: string, stubborn: set<string>) returns (ok: bool)
      modifies this`verity, this`trace
      ensures ok <==> f !in old(verity) && f !in stubborn
      ensures verity == old(verity) + Covered([f], stubborn)
      ensures trace == old(trace) + [Now()]
    {
      ok := f !in verity && f !in stubborn;
      if ok {
        verity := verity + {f};
      }
      trace := trace + [Now()];
    }

    method FsverityMeasure(f: string) returns (ok: bool)
      ensures ok <==> f in verity
    {
      ok := f in verity;
    }

    /** Enabling or else measuring one file after the other, counting those that fail both ways. */
    method EnableEach(files: seq<string>, stubborn: set<string>) returns (errors: nat)
      modifies this`verity, this`trace
      ensures verity == old(verity) + Covered(files, stubborn)
      ensures errors == Failures(files, old(verity), stubborn)
      ensures trace == old(trace) + Trail(old(Now()), files, stubborn)
    {
      errors := 0;
      for i := 0 to |files|
        invariant verity == old(verity) + Covered(files[..i], stubborn)
        invariant errors == Failures(files[..i], old(verity), stubborn)
        invariant trace == old(trace) + Trail(old(Now()), files[..i], stubborn)
      {
        CoveredNext(files, i, stubborn);
        assert files[..i + 1][..i] == files[..i];
        var ok := FsverityEnable(files[i], stubborn);
        if !ok {
          ok := FsverityMeasure(files[i]);
        }
        if !ok {
          errors := errors + 1;
        }
      }
      assert files[..|files|] == files;
    }

    /** `composefs_enable_fsverity_files`: the objects, then the image of every deployment. */
    method EnableFsverityFiles(stubborn: set<string>) returns (ok: bool)
      modifies this`verity, this`trace
      ensures verity == old(verity) + Covered(repo.Files(), stubborn)
      ensures ok <==> Complete(Now(), repo)
      ensures trace == old(trace) + Trail(old(Now()), repo.Files(), stubborn)
    {
      TwoLoops(Now(), repo, stubborn);
      var errors := EnableEach(repo.objects, stubborn);
      var more := EnableEach(repo.images, stubborn);
      ok := errors + more == 0;
    }

    /** The loop that looks for a deployment whose os-release lacks verity. */
    method UpgradeNeeded(osReleases: seq<string>) returns (needed: bool)
      ensures needed <==> exists f :: f in osReleases && f !in verity
    {
      needed := false;
      for i := 0 to |osReleases|
        invariant !needed && forall f :: f in osReleases[..i] ==> f in verity
      {
        assert osReleases[..i + 1] == osReleases[..i] + [osReleases[i]];
        var measured := FsverityMeasure(osReleases[i]);
        if !measured {
          assert osReleases[i] in osReleases;
          return true;
        }
      }
      assert osReleases[..|osReleases|] == osReleases;
    }

    /**
      `composefs_ensure_fsverity`: ends in the booted state, a cut at any step leaves a state
      the histories allow for, and success after a pass means that every file has verity.
     */
    method EnsureFsverity(env: Env) returns (ok: bool)
      modifies this
      ensures Now() == Booted(old(Now()), repo, env)
      ensures old(trace) <= trace
      ensures forall i :: |old(trace)| <= i < |trace| ==> MayLeave(old(Now()), repo, env, trace[i])
      ensures old(verity) <= verity
      ensures Passes(old(Now()), env) ==> (ok <==> Complete(Now(), repo))
      ensures !Passes(old(Now()), env) ==> (ok <==> NotNeeded(old(Now()), env))
      ensures Considers(env) && env.touchOk && Starts(old(Now()), env) ==>
                !lock && verity == old(verity) + Covered(repo.Files(), env.stubborn) && (ok <==> Complete(Now(), repo))
      ensures Considers(env) && Starts(old(Now()), env) && !env.touchOk ==> !ok && Now() == old(Now())
      ensures Considers(env) && !Starts(old(Now()), env) ==> ok && Now() == old(Now())
      ensures env.lines.None? || Enabled(env) != "signed" ==> ok && Now() == old(Now())
      ensures env.lines.Some? && Enabled(env) == "signed" && !Considers(env) ==> !ok && Now() == old(Now())
    {
      if env.lines.None? { return true; }
      var config := new ConfigFile(env.lines.value);
      var enabled := config.OverrideAndRead(env.override);
      if enabled == "no" { return true; }
      if enabled != "signed" { return true; }
      if !env.featureOk { return false; }
      if !env.deploymentOk { return false; }
      var upgrade := false;
      if env.upgradeEnable {
        upgrade := UpgradeNeeded(env.osReleases);
      }
      var measured := false;
      if env.booted.Some? {
        measured := FsverityMeasure(env.booted.value);
      }
      if !lock && (env.booted.None? || measured) && !upgrade && !env.alwaysEnable {
        return true;
      }
      if !env.touchOk { return false; }
      ok := Pass(env);
    }

    /** Lockfile, files, lockfile away again. */
    method Pass(env: Env) returns (ok: bool)
      requires Passes(Now(), env)
      modifies this
      ensures Now() == Booted(old(Now()), repo, env)
      ensures old(trace) <= trace
      ensures forall i :: |old(trace)| <= i < |trace| ==> MayLeave(old(Now()), repo, env, trace[i])
      ensures ok <==> Complete(Now(), repo)
    {
      ghost var d := Now();
      lock := true;
      trace := trace + [Now()];
      assert repo.Files()[..0] == [];
      assert Now() == CutAt(d, repo, env, 0);
      ok := EnableFsverityFiles(env.stubborn);
      forall found | found in Trail(d.(lock := true), repo.Files(), env.stubborn)
        ensures MayLeave(d, repo, env, found)
      {
        TrailMayBeLeft(d, repo, env, found);
      }
      lock := false;
      trace := trace + [Now()];
    }

    /**
      The loops of the host script.  None is an exit before them: without objects, or when the
      first object shows that the host cannot enable verity.
     */
    method HostEnable(foundImages: seq<string>, stubborn: set<string>) returns (errors: Option<nat>)
      modifies this`verity, this`trace
      ensures errors.None? <==> repo.objects == [] || (repo.objects[0] !in old(verity) && repo.objects[0] in stubborn)
      ensures verity == old(verity) + if errors.None? then {} else Covered(repo.objects + foundImages, stubborn)
      ensures errors.Some? ==> (errors.value == 0 <==> AllIn(repo.objects + foundImages, verity))
    {
      if repo.objects == [] { return None; }
      var ok := FsverityEnable(repo.objects[0], stubborn);
      if !ok {
        ok := FsverityMeasure(repo.objects[0]);
      }
      if !ok { return None; }
      NoFailuresInBoth(repo.objects, foundImages, verity, stubborn);
      CoveredConcat(repo.objects, foundImages, stubborn);
      var n := EnableEach(repo.objects, stubborn);
      var m := EnableEach(foundImages, stubborn);
      errors := Some(n + m);
    }
  }

  lemma CoveredNext(files: seq<string>, i: nat, stubborn: set<string>)
    requires i < |files|
    ensures Covered(files[..i + 1], stubborn) == Covered(files[..i], stubborn) + Covered([files[i]], stubborn)
  {
    assert files[..i + 1] == files[..i] + [files[i]];
  }

  lemma CoveredConcat(a: seq<string>, b: seq<string>, stubborn: set<string>)
    ensures Covered(a + b, stubborn) == Covered(a, stubborn) + Covered(b, stubborn)
  {
  }

  /** Every boot that gets to the start conditions takes the "not needed" exit. */
  ghost predicate AllNotNeeded(s: Stored, boots: seq<BootRecord>) {
    boots != [] ==>
      var n := |boots| - 1;
      && AllNotNeeded(s, boots[..n])
      && (Considers(boots[n].env) ==> NotNeeded(StartOf(Last(s, boots[..n]), boots[n]), boots[n].env))
  }

  lemma {:induction false} NoneStartsNoneNeeded(s: Stored, boots: seq<BootRecord>)
    requires NoneStarts(s, boots)
    ensures AllNotNeeded(s, boots)
  {
    if boots != [] {
      NoneStartsNoneNeeded(s, boots[..|boots| - 1]);
    }
  }

  /**
    An image the host script finished without errors makes every boot that is not forced take
    the "not needed" path, with the upgrade flag too, and also after updates that write their files with verity.
   */
  lemma HostSparesTheBoot(s: Stored, foundImages: seq<string>, boots: seq<BootRecord>)
    requires !s.disk.lock && AllIn(s.repo.objects + foundImages, s.disk.verity)
    requires forall f :: f in s.repo.images ==> f in foundImages
    requires History(s, boots) && FullyWritten(s, boots)
    requires AllOrdinary(boots)
    ensures Untouched(s, boots) && AllNotNeeded(s, boots)
    ensures SameFiles(s.repo, boots) ==> Last(s, boots) == s
  {
    forall f | f in s.repo.Files() ensures f in s.disk.verity {
      assert f in s.repo.objects + foundImages;
    }
    NothingToDo(s, boots);
    NoneStartsNoneNeeded(s, boots);
    if SameFiles(s.repo, boots) {
      UntouchedKeeps(s, boots);
    }
  }
}
