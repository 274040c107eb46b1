/**
  Which files of the ostree repository carry fs-verity, the lockfile, and what a boot
  or a power cut during a boot can make of them.
 */
module VerityState {
  import opened Options
  import opened PrepareRootConfig

  /** What survives a power cut; changes reach the disk in the order they are made. */
  datatype Disk = Disk(verity: set<string>, lock: bool)

  /** The repository objects as found, then the `.ostree.cfs` image of every deployment. */
  datatype Repo = Repo(objects: seq<string>, images: seq<string>) {
    function Files(): seq<string> {
      objects + images
    }
  }

  /**
    One boot: the configuration file in the ramdisk and the override from the kernel command
    line, whether the filesystem feature could be enabled and the deployment be found, the image
    of the booted deployment if there is one, the os-release files, the two flags, whether the
    lockfile can be created, and the files on which enabling fails.
   */
  datatype Env = Env(
    lines: Option<seq<string>>, override: Option<string>,
    featureOk: bool, deploymentOk: bool, booted: Option<string>,
    osReleases: seq<string>, upgradeEnable: bool, alwaysEnable: bool,
    touchOk: bool, stubborn: set<string>)

  function Enabled(env: Env): string
    requires env.lines.Some?
  {
    ReadEnabled(if env.override.Some? && env.override.value != "" then Rewritten(env.lines.value, env.override.value)
                else env.lines.value)
  }

  /** The boot gets as far as the start conditions. */
  predicate Considers(env: Env) {
    env.lines.Some? && Enabled(env) == "signed" && env.featureOk && env.deploymentOk
  }

  /** Lockfile present, booted image without verity, an upgrade left behind, or forced. */
  predicate Starts(d: Disk, env: Env) {
    || d.lock
    || (env.booted.Some? && env.booted.value !in d.verity)
    || (env.upgradeEnable && exists f :: f in env.osReleases && f !in d.verity)
    || env.alwaysEnable
  }

  predicate Passes(d: Disk, env: Env) {
    Considers(env) && Starts(d, env) && env.touchOk
  }

  /** A file of the build, overridden or not, is considered exactly where it says `signed` and nothing fails before. */
  lemma ConsidersPrinted(env: Env, transient: string, enabled: string)
    requires env.lines == Some(Printed(transient, enabled)) && Plain(enabled)
    requires env.override.Some? && env.override.value != "" ==> Plain(env.override.value)
    ensures var word := if env.override.Some? && env.override.value != "" then env.override.value else enabled;
            && Enabled(env) == word
            && (Considers(env) <==> word == "signed" && env.featureOk && env.deploymentOk)
  {
    if env.override.Some? && env.override.value != "" {
      PrintedRoundTrip(transient, enabled, env.override.value);
    } else {
      PrintedRoundTrip(transient, enabled, enabled);
    }
  }

  /** So with every file that has one section and one setting in it, under an override. */
  lemma ConsidersOverridden(env: Env, h: nat, e: nat)
    requires env.lines.Some? && OneSetting(env.lines.value, h, e)
    requires env.override.Some? && Plain(env.override.value)
    ensures Enabled(env) == env.override.value
    ensures Considers(env) <==> env.override.value == "signed" && env.featureOk && env.deploymentOk
  {
    OneSettingOverridden(env.lines.value, h, e, env.override.value);
  }

  function Covered(files: seq<string>, stubborn: set<string>): set<string> {
    set f | f in files && f !in stubborn
  }

  /** A completed boot. */
  function Booted(d: Disk, repo: Repo, env: Env): Disk {
    if Passes(d, env) then Disk(d.verity + Covered(repo.Files(), env.stubborn), false) else d
  }

  /** A boot cut short after it enabled verity on the first `k` files. */
  function CutAt(d: Disk, repo: Repo, env: Env, k: nat): Disk
    requires k <= |repo.Files()|
  {
    Disk(d.verity + Covered(repo.Files()[..k], env.stubborn), true)
  }

  /** All that a boot, finished or cut at any point, can leave. */
  ghost predicate MayLeave(d: Disk, repo: Repo, env: Env, found: Disk) {
    || found == d
    || found == Booted(d, repo, env)
    || (Passes(d, env) && exists k :: 0 <= k <= |repo.Files()| && found == CutAt(d, repo, env, k))
  }

  // ----- Over every history of updates, boots and cuts -----

  /** What is on the disk between boots. */
  datatype Stored = Stored(disk: Disk, repo: Repo)

  /**
    The files a boot finds, those among the new ones that were written with verity, and the disk
    it leaves behind.
   */
  datatype BootRecord = BootRecord(repo: Repo, written: set<string>, env: Env, found: Disk)

  function New(before: Repo, repo: Repo): set<string> {
    set f | f in repo.Files() && f !in before.Files()
  }

  /** The disk at the start of a boot: files kept since the last one keep their verity, new ones have it as written. */
  function StartOf(s: Stored, b: BootRecord): Disk {
    Disk((s.disk.verity - New(s.repo, b.repo)) + b.written * New(s.repo, b.repo), s.disk.lock)
  }

  function Last(s: Stored, boots: seq<BootRecord>): Stored {
    if boots == [] then s else Stored(boots[|boots| - 1].found, boots[|boots| - 1].repo)
  }

  ghost predicate History(s: Stored, boots: seq<BootRecord>) {
    boots != [] ==>
      var n := |boots| - 1;
      && History(s, boots[..n])
      && MayLeave(StartOf(Last(s, boots[..n]), boots[n]), boots[n].repo, boots[n].env, boots[n].found)
  }

  /** No file fails both enable and measure, and the booted image is one the pass covers. */
  ghost predicate Benign(d: Disk, repo: Repo, env: Env) {
    && (forall f :: f in repo.Files() ==> f in d.verity || f !in env.stubborn)
    && (env.booted.Some? ==> env.booted.value in repo.images)
  }

  ghost predicate AllBenign(s: Stored, boots: seq<BootRecord>) {
    boots != [] ==>
      var n := |boots| - 1;
      && AllBenign(s, boots[..n])
      && Benign(StartOf(Last(s, boots[..n]), boots[n]), boots[n].repo, boots[n].env)
  }

  predicate AllIn(files: seq<string>, verity: set<string>) {
    forall f :: f in files ==> f in verity
  }

  predicate Complete(d: Disk, repo: Repo) {
    AllIn(repo.Files(), d.verity)
  }

  // ----- While the files stay the same -----

  ghost predicate SameFiles(repo: Repo, boots: seq<BootRecord>) {
    forall b :: b in boots ==> b.repo == repo
  }

  lemma NothingNew(s: Stored, b: BootRecord)
    requires b.repo == s.repo
    ensures StartOf(s, b) == s.disk
  {
    assert New(s.repo, b.repo) == {};
  }

  /** Without a lockfile it is all or nothing. */
  ghost predicate AllOrNothing(d: Disk, repo: Repo) {
    d.lock || Complete(d, repo) || forall f :: f in repo.Files() ==> f !in d.verity
  }

  lemma {:induction false} HistoryIsAllOrNothing(s: Stored, boots: seq<BootRecord>)
    requires AllOrNothing(s.disk, s.repo) && History(s, boots) && AllBenign(s, boots) && SameFiles(s.repo, boots)
    ensures AllOrNothing(Last(s, boots).disk, s.repo)
  {
    if boots != [] {
      var n := |boots| - 1;
      assert boots[n] in boots;
      HistoryIsAllOrNothing(s, boots[..n]);
      assert Last(s, boots[..n]).repo == s.repo;
      NothingNew(Last(s, boots[..n]), boots[n]);
    }
  }

  // ----- While deployments come and go -----

  /** The files verity on a booted image is to vouch for: the objects, or the other images too. */
  function Vouched(repo: Repo, all: bool): seq<string> {
    if all then repo.Files() else repo.objects
  }

  /** Without a lockfile, verity on any image means verity on all it vouches for. */
  ghost predicate Trusted(s: Stored, all: bool) {
    !s.disk.lock ==>
      forall i :: i in s.repo.images && i in s.disk.verity ==> AllIn(Vouched(s.repo, all), s.disk.verity)
  }

  /** Objects and images live in different directories. */
  ghost predicate Apart(before: Repo, repo: Repo) {
    && (forall f :: f in repo.objects ==> f !in before.images)
    && (forall f :: f in repo.images ==> f !in before.objects)
  }

  /**
    What the writer of new files has to see to: if an image, kept or new, carries verity, the new
    files do; and if no kept image does, the kept files do.
   */
  ghost predicate WellWritten(s: Stored, b: BootRecord, all: bool) {
    (exists i :: i in b.repo.images && i in StartOf(s, b).verity) ==>
      && (forall f :: f in Vouched(b.repo, all) && f !in s.repo.Files() ==> f in b.written)
      && ((forall i :: i in b.repo.images && i in s.repo.images ==> i !in s.disk.verity) ==>
            forall f :: f in Vouched(b.repo, all) && f in s.repo.Files() ==> f in s.disk.verity)
  }

  /** An update without lockfile keeps the trust exactly when it is well written. */
  lemma UpdateKeepsTrustIff(s: Stored, b: BootRecord, all: bool)
    requires Trusted(s, all) && !s.disk.lock && Apart(s.repo, b.repo)
    ensures Trusted(Stored(StartOf(s, b), b.repo), all) <==> WellWritten(s, b, all)
  {
  }

  ghost predicate AllWellWritten(s: Stored, boots: seq<BootRecord>, all: bool) {
    boots != [] ==>
      var n := |boots| - 1;
      var before := Last(s, boots[..n]);
      && AllWellWritten(s, boots[..n], all)
      && Apart(before.repo, boots[n].repo)
      && (before.disk.lock || WellWritten(before, boots[n], all))
  }

  /** No boot, cut or not, loses the trust. */
  lemma BootKeepsTrust(d: Disk, repo: Repo, env: Env, found: Disk, all: bool)
    requires Trusted(Stored(d, repo), all) && Benign(d, repo, env) && MayLeave(d, repo, env, found)
    ensures Trusted(Stored(found, repo), all)
  {
    if found == Booted(d, repo, env) && Passes(d, env) {
      assert forall f :: f in Vouched(repo, all) ==> f in repo.Files();
    }
  }

  lemma {:induction false} HistoryIsTrusted(s: Stored, boots: seq<BootRecord>, all: bool)
    requires Trusted(s, all) && History(s, boots) && AllBenign(s, boots) && AllWellWritten(s, boots, all)
    ensures Trusted(Last(s, boots), all)
  {
    if boots != [] {
      var n := |boots| - 1;
      var before, b := Last(s, boots[..n]), boots[n];
      HistoryIsTrusted(s, boots[..n], all);
      if !before.disk.lock {
        UpdateKeepsTrustIff(before, b, all);
      }
      BootKeepsTrust(StartOf(before, b), b.repo, b.env, b.found, all);
    }
  }

  /**
    From an image without verity, over every sequence of well-written updates, boots and power
    cuts: without the lockfile, verity on the booted image means verity on every repository
    object, and on every image as far as the updates saw to that.
   */
  lemma {:induction false} NoLockMeansComplete(s: Stored, boots: seq<BootRecord>, booted: string, all: bool)
    requires s.disk == Disk({}, false) && History(s, boots) && AllBenign(s, boots) && AllWellWritten(s, boots, all)
    ensures var last := Last(s, boots);
            !last.disk.lock && booted in last.repo.images && booted in last.disk.verity ==>
              AllIn(Vouched(last.repo, all), last.disk.verity)
  {
    HistoryIsTrusted(s, boots, all);
  }

  /** The same files at every boot are well written in either sense, if objects are not images. */
  lemma {:induction false} SameFilesAreWellWritten(s: Stored, boots: seq<BootRecord>, all: bool)
    requires Trusted(s, all) && History(s, boots) && AllBenign(s, boots)
    requires SameFiles(s.repo, boots) && Apart(s.repo, s.repo)
    ensures AllWellWritten(s, boots, all) && Trusted(Last(s, boots), all)
  {
    if boots != [] {
      var n := |boots| - 1;
      var before, b := Last(s, boots[..n]), boots[n];
      assert b in boots;
      SameFilesAreWellWritten(s, boots[..n], all);
      assert before.repo == s.repo;
      NothingNew(before, b);
      if !before.disk.lock {
        UpdateKeepsTrustIff(before, b, all);
      }
      BootKeepsTrust(StartOf(before, b), b.repo, b.env, b.found, all);
    }
  }

  /**
    After an update that was not well written, or whatever else: a boot that gets to the start
    conditions makes the files complete exactly when they were or one of the conditions holds.
    So with an image that has verity and no lockfile it takes one of the two flags.
   */
  lemma BootRepairsIff(d: Disk, repo: Repo, env: Env)
    requires Considers(env) && env.touchOk && Benign(d, repo, env)
    ensures Complete(Booted(d, repo, env), repo) <==> Complete(d, repo) || Starts(d, env)
    ensures !d.lock && env.booted.Some? && env.booted.value in d.verity ==>
              (Starts(d, env) <==> env.alwaysEnable || (env.upgradeEnable && !AllIn(env.osReleases, d.verity)))
  {
  }

  /**
    Each of the four conditions alone makes a boot complete the repository, whatever the others
    say and whether or not the booted deployment has an image; without any of them, or without a
    lockfile to be had, a boot changes nothing.
   */
  lemma EachConditionSuffices(d: Disk, repo: Repo, env: Env)
    requires Considers(env)
    ensures d.lock && env.touchOk && Benign(d, repo, env) ==> Complete(Booted(d, repo, env), repo)
    ensures env.booted.Some? && env.booted.value !in d.verity && env.touchOk && Benign(d, repo, env) ==>
              Complete(Booted(d, repo, env), repo)
    ensures env.upgradeEnable && !AllIn(env.osReleases, d.verity) && env.touchOk && Benign(d, repo, env) ==>
              Complete(Booted(d, repo, env), repo)
    ensures env.alwaysEnable && env.touchOk && Benign(d, repo, env) ==> Complete(Booted(d, repo, env), repo)
    ensures !env.touchOk ==> Booted(d, repo, env) == d
    ensures (!d.lock && !env.alwaysEnable && (env.booted.None? || env.booted.value in d.verity)
             && (!env.upgradeEnable || AllIn(env.osReleases, d.verity))) ==>
              Booted(d, repo, env) == d
  {
  }

  /** A pass begins with the objects: a cut that left an image with new verity left every object with it. */
  lemma ImagesAfterObjects(d: Disk, repo: Repo, env: Env, k: nat, image: string)
    requires k <= |repo.Files()| && image in CutAt(d, repo, env, k).verity && image !in d.verity
    requires image !in repo.objects
    ensures forall f :: f in repo.objects && f !in env.stubborn ==> f in CutAt(d, repo, env, k).verity
  {
    var i :| 0 <= i < k && repo.Files()[i] == image;
    assert i >= |repo.objects|;
    forall f | f in repo.objects ensures f in repo.Files()[..k] {
      var j :| 0 <= j < |repo.objects| && repo.objects[j] == f;
      assert repo.Files()[..k][j] == f;
    }
  }

  // ----- Nothing left to do -----

  /** Nothing forces a pass, and the os-release files looked at are links to repository objects. */
  ghost predicate Ordinary(repo: Repo, env: Env) {
    && !env.alwaysEnable
    && (env.booted.Some? ==> env.booted.value in repo.images)
    && (env.upgradeEnable ==> forall f :: f in env.osReleases ==> f in repo.objects)
  }

  ghost predicate AllOrdinary(boots: seq<BootRecord>) {
    forall b :: b in boots ==> Ordinary(b.repo, b.env)
  }

  /** Every new file is written with verity. */
  predicate FullyWritten(s: Stored, boots: seq<BootRecord>) {
    boots != [] ==>
      var n := |boots| - 1;
      && FullyWritten(s, boots[..n])
      && New(Last(s, boots[..n]).repo, boots[n].repo) <= boots[n].written
  }

  /** No boot changes anything. */
  predicate Untouched(s: Stored, boots: seq<BootRecord>) {
    boots != [] ==>
      var n := |boots| - 1;
      && Untouched(s, boots[..n])
      && boots[n].found == StartOf(Last(s, boots[..n]), boots[n])
  }

  /** No boot meets a start condition. */
  ghost predicate NoneStarts(s: Stored, boots: seq<BootRecord>) {
    boots != [] ==>
      var n := |boots| - 1;
      && NoneStarts(s, boots[..n])
      && !Starts(StartOf(Last(s, boots[..n]), boots[n]), boots[n].env)
  }

  lemma {:induction false} UntouchedKeeps(s: Stored, boots: seq<BootRecord>)
    requires Untouched(s, boots) && SameFiles(s.repo, boots)
    ensures Last(s, boots) == s
  {
    if boots != [] {
      var n := |boots| - 1;
      assert boots[n] in boots;
      UntouchedKeeps(s, boots[..n]);
      NothingNew(s, boots[n]);
    }
  }

  /** Whatever was interrupted before, after a boot that completes no ordinary boot changes anything. */
  lemma {:induction false} CompletedBootSettles(s: Stored, boots: seq<BootRecord>, b: BootRecord,
                                                later: seq<BootRecord>)
    requires s.disk == Disk({}, false) && History(s, boots) && AllBenign(s, boots) && AllWellWritten(s, boots, true)
    requires AllWellWritten(Last(s, boots), [b], true) && Benign(StartOf(Last(s, boots), b), b.repo, b.env)
    requires Considers(b.env) && b.env.touchOk && b.env.booted.Some?
    requires b.found == Booted(StartOf(Last(s, boots), b), b.repo, b.env)
    requires var done := Stored(b.found, b.repo); History(done, later) && FullyWritten(done, later)
    requires AllOrdinary(later)
    ensures Complete(b.found, b.repo) && Untouched(Stored(b.found, b.repo), later)
    ensures Complete(Last(Stored(b.found, b.repo), later).disk, Last(Stored(b.found, b.repo), later).repo)
  {
    var before := Last(s, boots);
    HistoryIsTrusted(s, boots, true);
    assert [b][..0] == [] && Last(before, []) == before && [b][0] == b;
    if !before.disk.lock {
      UpdateKeepsTrustIff(before, b, true);
    }
    assert Trusted(Stored(StartOf(before, b), b.repo), true);
    NothingToDo(Stored(b.found, b.repo), later);
  }

  lemma {:induction false} NothingToDo(s: Stored, later: seq<BootRecord>)
    requires !s.disk.lock && Complete(s.disk, s.repo) && History(s, later)
    requires FullyWritten(s, later) && AllOrdinary(later)
    ensures Untouched(s, later) && NoneStarts(s, later)
    ensures !Last(s, later).disk.lock && Complete(Last(s, later).disk, Last(s, later).repo)
  {
    if later != [] {
      var n := |later| - 1;
      var before, b := Last(s, later[..n]), later[n];
      NothingToDo(s, later[..n]);
      assert Complete(StartOf(before, b), b.repo) by {
        forall f | f in b.repo.Files() ensures f in StartOf(before, b).verity {
          assert f in before.repo.Files() || f in New(before.repo, b.repo);
        }
      }
      NotStarted(StartOf(before, b), b.repo, b.env);
    }
  }

  lemma NotStarted(d: Disk, repo: Repo, env: Env)
    requires !d.lock && Complete(d, repo) && Ordinary(repo, env)
    ensures !Starts(d, env)
  {
    if env.booted.Some? {
      assert env.booted.value in repo.Files();
    }
    forall f | env.upgradeEnable && f in env.osReleases ensures f in d.verity {
      assert f in repo.Files();
    }
  }

  /** A pass changes nothing the second time, and a cut pass plus a complete one is one complete pass. */
  lemma PassIsResumable(d: Disk, repo: Repo, env: Env, k: nat)
    requires k <= |repo.Files()| && Passes(d, env)
    ensures Passes(CutAt(d, repo, env, k), env)
    ensures Booted(CutAt(d, repo, env, k), repo, env) == Booted(d, repo, env)
    ensures Booted(d, repo, env).verity + Covered(repo.Files(), env.stubborn) == Booted(d, repo, env).verity
  {
    assert forall f :: f in repo.Files()[..k] ==> f in repo.Files();
  }

  // ----- Where enabling fails -----

  /** The boots of one deployment, kept along with a certain object, without the two flags. */
  ghost predicate StayOn(booted: string, kept: string, boots: seq<BootRecord>) {
    forall b :: b in boots ==>
      && b.env.booted == Some(booted) && !b.env.alwaysEnable && !b.env.upgradeEnable
      && booted in b.repo.images && kept in b.repo.objects
  }

  /**
    The lockfile goes even when files failed.  If the booted image was not among them the
    failure is final: no later boot of that deployment without the two flags changes anything,
    whatever other files come and go.
   */
  lemma {:induction false} FailedObjectIsNeverRetried(d: Disk, repo: Repo, env: Env, failed: string,
                                                      later: seq<BootRecord>)
    requires Passes(d, env) && failed in repo.objects && failed in env.stubborn && failed !in d.verity
    requires env.booted.Some? && env.booted.value in repo.images && env.booted.value !in env.stubborn
    requires History(Stored(Booted(d, repo, env), repo), later) && StayOn(env.booted.value, failed, later)
    ensures Untouched(Stored(Booted(d, repo, env), repo), later)
    ensures var last := Last(Stored(Booted(d, repo, env), repo), later);
            && !last.disk.lock && failed !in last.disk.verity && env.booted.value in last.disk.verity
            && failed in last.repo.objects && env.booted.value in last.repo.images
  {
    assert env.booted.value in repo.Files();
    if later != [] {
      var n := |later| - 1;
      var before, b := Last(Stored(Booted(d, repo, env), repo), later[..n]), later[n];
      assert b in later;
      FailedObjectIsNeverRetried(d, repo, env, failed, later[..n]);
      assert failed in before.repo.Files() && env.booted.value in before.repo.Files();
      assert !Starts(StartOf(before, b), b.env);
    }
  }

  /** A pass leaves everything with verity exactly when no file failed both ways. */
  lemma PassCompleteIff(d: Disk, repo: Repo, env: Env)
    requires Passes(d, env)
    ensures Complete(Booted(d, repo, env), repo) <==>
            forall f :: f in repo.Files() ==> f in d.verity || f !in env.stubborn
  {
  }
}
