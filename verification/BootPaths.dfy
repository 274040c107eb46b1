/**
  The paths that live boot entries name, and the files they name: what the installation
  of boot files and the swap of the entries promise together.
 */
module BootPaths {
  import opened Options
  import opened BootDisk
  import opened BootDeploy
  import opened BootSysroot
  import BootEntry

  /** The boot files the text of an entry names. */
  type Naming = string -> set<string>

  predicate AllNamed(naming: Naming, entries: map<string, string>, files: map<string, string>) {
    forall n :: n in entries ==> naming(entries[n]) <= files.Keys
  }

  /** Every path that a live entry names is a file. */
  predicate LivePaths(naming: Naming, b: Boot, files: map<string, string>) {
    AllNamed(naming, EntriesIn(LiveTree(b)), files)
  }

  /** The entries of a request name files that are there or come with them. */
  predicate Covered(naming: Naming, files: map<string, string>, entries: seq<Entry>) {
    forall e :: e in entries ==> naming(e.text) <= files.Keys + (set f | f in e.files :: f.path)
  }

  lemma {:induction false} WithFilesHas(files: map<string, string>, fs: seq<BootFile>, p: string)
    ensures p in WithFiles(files, fs) <==> p in files || exists f :: f in fs && f.path == p
  {
    if fs != [] {
      var n := |fs| - 1;
      WithFilesHas(files, fs[..n], p);
      assert fs == fs[..n] + [fs[n]];
    }
  }

  lemma {:induction false} WithFilesOfHas(files: map<string, string>, es: seq<Entry>, p: string)
    ensures p in WithFilesOf(files, es) <==>
            p in files || exists e, f :: e in es && f in e.files && f.path == p
  {
    if es != [] {
      var n := |es| - 1;
      WithFilesOfHas(files, es[..n], p);
      WithFilesHas(WithFilesOf(files, es[..n]), es[n].files, p);
      assert es == es[..n] + [es[n]];
    }
  }

  lemma {:induction false} EntryOf(es: seq<Entry>, n: string) returns (e: Entry)
    requires n in EntriesOf(es)
    ensures e in es && e.text == EntriesOf(es)[n]
  {
    e := es[|es| - 1];
    if e.name != n {
      e := EntryOf(es[..|es| - 1], n);
    }
  }

  lemma CoveredIsNamed(naming: Naming, files: map<string, string>, entries: seq<Entry>)
    requires Covered(naming, files, entries)
    ensures AllNamed(naming, EntriesOf(entries), WithFilesOf(files, entries))
  {
    forall n | n in EntriesOf(entries) ensures naming(EntriesOf(entries)[n]) <= WithFilesOf(files, entries).Keys {
      var e := EntryOf(entries, n);
      forall p | p in naming(e.text) ensures p in WithFilesOf(files, entries) {
        WithFilesOfHas(files, entries, p);
      }
    }
  }

  // ----- At every cut -----

  /** New live entries name files that are there. */
  lemma DeployedHasItsFiles(naming: Naming, before: Boot, links: bool, req: Request)
    requires Deployable(before, links, req) && Covered(naming, before.files, req.entries)
    ensures LivePaths(naming, Deployed(before, links, req), Deployed(before, links, req).files)
  {
    DeployedMeaning(before, links, req);
    CoveredIsNamed(naming, before.files, req.entries);
  }

  // ----- Over every history -----

  /**
    How things stand between deployments: what is visible, what a cut would bring back, and the
    files that are sure to be on the disk.
   */
  datatype Standing = Standing(visible: Boot, older: Boot, held: map<string, string>)

  predicate HasItsFiles(naming: Naming, s: Standing) {
    LivePaths(naming, s.visible, s.held) && LivePaths(naming, s.older, s.held)
  }

  /** A configuration that was neither visible before nor what a cut would have brought back. */
  predicate IsNew(s: Standing, found: Boot) {
    !SameLive(s.older, found) && !SameLive(s.visible, found)
  }

  /**
    A deployment, finished, failed or cut, leads from one standing to the next; in link mode it
    begins with the last swap flushed.
   */
  predicate StandsNext(naming: Naming, s: Standing, links: bool, req: Request, next: Standing) {
    && (s.visible.loader.Directory? || SameLive(s.older, s.visible))
    && Covered(naming, s.visible.files, req.entries)
    && Leaves(s.older, s.visible, links, req, next.visible) && Leaves(s.older, s.visible, links, req, next.older)
    && Extends(s.held, next.held)
    && (IsNew(s, next.visible) || IsNew(s, next.older) ==>
          Extends(WithFilesOf(s.visible.files, req.entries), next.held))
  }

  lemma NextHasItsFiles(naming: Naming, s: Standing, links: bool, req: Request, next: Standing)
    requires HasItsFiles(naming, s) && StandsNext(naming, s, links, req, next)
    ensures HasItsFiles(naming, next)
  {
    OneHasItsFiles(naming, s, links, req, next.held, next.visible);
    OneHasItsFiles(naming, s, links, req, next.held, next.older);
  }

  lemma LivePathsCarry(naming: Naming, a: Boot, b: Boot, files: map<string, string>, more: map<string, string>)
    requires LivePaths(naming, a, files) && LiveTree(a) == LiveTree(b) && Extends(files, more)
    ensures LivePaths(naming, b, more)
  {
  }

  /** Old or new, a live configuration that a deployment may leave has all its files. */
  lemma OneHasItsFiles(naming: Naming, s: Standing, links: bool, req: Request, held: map<string, string>, found: Boot)
    requires HasItsFiles(naming, s) && Leaves(s.older, s.visible, links, req, found)
    requires Covered(naming, s.visible.files, req.entries) && Extends(s.held, held)
    requires IsNew(s, found) ==> Extends(WithFilesOf(s.visible.files, req.entries), held)
    ensures LivePaths(naming, found, held)
  {
    if SameLive(s.older, found) {
      LivePathsCarry(naming, s.older, found, s.held, held);
    } else if SameLive(s.visible, found) {
      LivePathsCarry(naming, s.visible, found, s.held, held);
    } else {
      DeployedHasItsFiles(naming, s.visible, links, req);
      LivePathsCarry(naming, found, found, found.files, held);
    }
  }

  datatype Outcome = Outcome(req: Request, standing: Standing)

  function LastOf(s: Standing, outcomes: seq<Outcome>): Standing {
    if outcomes == [] then s else outcomes[|outcomes| - 1].standing
  }

  predicate FileHistory(naming: Naming, s: Standing, links: bool, outcomes: seq<Outcome>) {
    outcomes != [] ==>
      var n := |outcomes| - 1;
      && FileHistory(naming, s, links, outcomes[..n])
      && StandsNext(naming, LastOf(s, outcomes[..n]), links, outcomes[n].req, outcomes[n].standing)
  }

  /** Over every history of finished, failed and interrupted deployments the live entries name files on the disk. */
  lemma {:induction false} LiveFilesForever(naming: Naming, s: Standing, links: bool, outcomes: seq<Outcome>)
    requires HasItsFiles(naming, s) && FileHistory(naming, s, links, outcomes)
    ensures HasItsFiles(naming, LastOf(s, outcomes))
  {
    if outcomes != [] {
      var n := |outcomes| - 1;
      LiveFilesForever(naming, s, links, outcomes[..n]);
      NextHasItsFiles(naming, LastOf(s, outcomes[..n]), links, outcomes[n].req, outcomes[n].standing);
    }
  }

  // ----- Of the code -----

  ghost function StandingOf(sysroot: Sysroot): Standing
    reads sysroot
  {
    Standing(sysroot.Visible(), sysroot.Older(), sysroot.durable.files)
  }

  /** The standing after a cut that found this. */
  function AfterCut(found: Boot): Standing {
    Standing(found, found, found.files)
  }

  /** Every cut at the recorded steps leads to a next standing, with its files. */
  ghost predicate CutsStandNext(naming: Naming, before: seq<Disk>, now: seq<Disk>, s: Standing, links: bool,
                                req: Request)
  {
    forall i, kept: seq<bool> :: |before| <= i < |now| && |kept| == |now[i].pending| ==>
      var next := AfterCut(ApplyKept(now[i].durable, now[i].pending, kept));
      StandsNext(naming, s, links, req, next) && HasItsFiles(naming, next)
  }

  lemma SafeCutsStandNext(naming: Naming, before: seq<Disk>, now: seq<Disk>, s: Standing, links: bool, req: Request)
    requires CutsAreSafe(before, now, s.older, s.visible, links, req, s.held)
    requires HasItsFiles(naming, s) && Covered(naming, s.visible.files, req.entries)
    requires s.visible.loader.Directory? || SameLive(s.older, s.visible)
    ensures CutsStandNext(naming, before, now, s, links, req)
  {
    forall i, kept: seq<bool> | |before| <= i < |now| && |kept| == |now[i].pending|
      ensures var next := AfterCut(ApplyKept(now[i].durable, now[i].pending, kept));
              StandsNext(naming, s, links, req, next) && HasItsFiles(naming, next)
    {
      var found := ApplyKept(now[i].durable, now[i].pending, kept);
      assert Survives(s.older, s.visible, links, req, s.held, found);
      NewHasAllFiles(s, links, req, found, found.files);
      NextHasItsFiles(naming, s, links, req, AfterCut(found));
    }
  }

  lemma EndStandsNext(naming: Naming, s: Standing, links: bool, req: Request, d: Disk, next: Standing)
    requires Ends(s.older, s.visible, links, req, s.held, d) && Covered(naming, s.visible.files, req.entries)
    requires s.visible.loader.Directory? || SameLive(s.older, s.visible)
    requires next.visible == ApplyAll(d.durable, d.pending) && next.held == d.durable.files
    requires next.older == if SameLive(d.durable, next.visible) then next.visible else d.durable
    ensures StandsNext(naming, s, links, req, next)
  {
    NewHasAllFiles(s, links, req, next.visible, next.held);
    NewHasAllFiles(s, links, req, d.durable, next.held);
  }

  lemma NewHasAllFiles(s: Standing, links: bool, req: Request, found: Boot, held: map<string, string>)
    requires Leaves(s.older, s.visible, links, req, found) && (!SameLive(s.visible, found) ==> found.files == held)
    ensures IsNew(s, found) ==> held == WithFilesOf(s.visible.files, req.entries)
  {
  }

  /**
    Installing and writing the entries of a request.  If what is live names durable files, a power
    cut after any step, losing any subset of the unflushed operations, finds every path named by
    the live entries to be a file; and so it is again for the next request, however this one
    ended.  Only in link mode may it end in a state that the next request must not begin in.
   */
  method DeployWithFiles(sysroot: Sysroot, req: Request, ghost naming: Naming) returns (ok: bool)
    requires sysroot.Quiescent() && HasItsFiles(naming, StandingOf(sysroot))
    requires Covered(naming, sysroot.Visible().files, req.entries)
    modifies sysroot
    ensures CutsStandNext(naming, old(sysroot.trace), sysroot.trace, old(StandingOf(sysroot)), sysroot.links, req)
    ensures ok ==> EntriesIn(LiveTree(sysroot.durable)) == EntriesOf(req.entries) && sysroot.pending == []
    ensures StandsNext(naming, old(StandingOf(sysroot)), sysroot.links, req, StandingOf(sysroot))
    ensures HasItsFiles(naming, StandingOf(sysroot))
    ensures sysroot.Quiescent() || (sysroot.Visible().loader.Link? && sysroot.pending == [MoveTmp])
  {
    ghost var s, t0 := StandingOf(sysroot), sysroot.trace;
    QuietOnBase(Disk(sysroot.durable, sysroot.pending));
    BaseKeepsKind(Disk(sysroot.durable, sysroot.pending));
    ok := sysroot.WriteDeploymentsBootswap(req);
    SafeCutsStandNext(naming, t0, sysroot.trace, s, sysroot.links, req);
    EndStandsNext(naming, s, sysroot.links, req, Disk(sysroot.durable, sysroot.pending), StandingOf(sysroot));
    NextHasItsFiles(naming, s, sysroot.links, req, StandingOf(sysroot));
    if ok {
      DeployedMeaning(s.visible, sysroot.links, req);
    }
  }

  // ----- The entries that are installed -----

  /** The files named by the keys of an entry. */
  function Named(prefix: string, c: BootEntry.Config): set<string> {
    PathIn(prefix, c.linux) + PathIn(prefix, c.initrd) + PathIn("/", c.aboot)
    + PathIn(prefix, c.devicetree) + PathIn(prefix, c.fdtdir) + PathIn(prefix, c.uki)
  }

  function PathIn(prefix: string, key: Option<string>): set<string> {
    if key.Some? && prefix <= key.value then {key.value[|prefix|..]} else {}
  }

  /** Any key that begins with the prefix is named, and nothing else. */
  lemma NamedIff(prefix: string, c: BootEntry.Config, p: string)
    ensures p in Named(prefix, c) <==>
            || c.linux == Some(prefix + p) || c.initrd == Some(prefix + p) || c.aboot == Some("/" + p)
            || c.devicetree == Some(prefix + p) || c.fdtdir == Some(prefix + p) || c.uki == Some(prefix + p)
  {
    PathInIff(prefix, c.linux, p);
    PathInIff(prefix, c.initrd, p);
    PathInIff("/", c.aboot, p);
    PathInIff(prefix, c.devicetree, p);
    PathInIff(prefix, c.fdtdir, p);
    PathInIff(prefix, c.uki, p);
  }

  lemma PathInIff(prefix: string, key: Option<string>, p: string)
    ensures p in PathIn(prefix, key) <==> key == Some(prefix + p)
  {
    if key == Some(prefix + p) {
      assert key.value[|prefix|..] == p;
    }
    if p in PathIn(prefix, key) {
      assert key.value == prefix + key.value[|prefix|..];
    }
  }

  lemma NamedIsPresent(prefix: string, b: BootEntry.Boot)
    requires BootEntry.PathsPresent(prefix, b)
    ensures Named(prefix, b.config) <= b.files.Keys
  {
  }

  function FilesFor(l: BootEntry.Layout, needed: seq<BootEntry.Named>): seq<BootFile> {
    seq(|needed|, i requires 0 <= i < |needed| => BootFile(l.PathOf(needed[i]), needed[i].content))
  }

  /** The entry one deployment writes, with its files; `format` writes the keys as text. */
  function EntryFor(name: string, prefix: string, format: BootEntry.Config -> string,
                    c: BootEntry.Config, l: BootEntry.Layout): Entry {
    Entry(name, format(BootEntry.NextConfig(prefix, c, l)), FilesFor(l, BootEntry.Needed(c, l)))
  }

  lemma {:induction false} SameFiles(files: map<string, string>, l: BootEntry.Layout, needed: seq<BootEntry.Named>)
    ensures WithFiles(files, FilesFor(l, needed)) == BootEntry.Filled(files, l, needed)
  {
    if needed != [] {
      var n := |needed| - 1;
      SameFiles(files, l, needed[..n]);
      assert FilesFor(l, needed)[..n] == FilesFor(l, needed[..n]);
    }
  }

  /**
    `install_deployment_kernel` writes entries that are covered, whatever it inherits: as long as
    the paths of the entry it starts from are there, those of the new one are there or installed.
   */
  lemma InstalledIsCovered(naming: Naming, format: BootEntry.Config -> string, name: string, prefix: string,
                           files: map<string, string>, c: BootEntry.Config, l: BootEntry.Layout)
    requires BootEntry.PathsPresent(prefix, BootEntry.Boot(files, c))
    requires forall k :: naming(format(k)) == Named(prefix, k)
    ensures Covered(naming, files, [EntryFor(name, prefix, format, c, l)])
    ensures var installed := WithFilesOf(files, [EntryFor(name, prefix, format, c, l)]);
            BootEntry.PathsPresent(prefix, BootEntry.Boot(installed, BootEntry.NextConfig(prefix, c, l)))
  {
    var e, next := EntryFor(name, prefix, format, c, l), BootEntry.Next(prefix, BootEntry.Boot(files, c), l);
    SameFiles(files, l, BootEntry.Needed(c, l));
    BootEntry.InstallKeepsPaths(prefix, BootEntry.Boot(files, c), l);
    assert [e][..0] == [] && WithFilesOf(files, [e]) == next.files;
    assert naming(e.text) == Named(prefix, next.config);
    NamedIsPresent(prefix, next);
    forall p | p in naming(e.text) ensures p in files.Keys + (set f | f in e.files :: f.path) {
      WithFilesHas(files, e.files, p);
    }
  }
}
