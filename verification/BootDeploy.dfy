/**
  What one deployment of boot entries does to the partition, in either mode,
  and what holds over every history of finished and interrupted deployments.
 */
module BootDeploy {
  import opened Options
  import opened BootDisk

  datatype BootFile = BootFile(path: string, content: string)

  /** A boot entry and the files installed for it. */
  datatype Entry = Entry(name: string, text: string, files: seq<BootFile>)

  /** The entries to make live, and whether systemd-boot was configured by name rather than probed. */
  datatype Request = Request(entries: seq<Entry>, sdbootForced: bool)

  function EntriesOf(es: seq<Entry>): map<string, string> {
    if es == [] then map[]
    else
      var last := es[|es| - 1];
      EntriesOf(es[..|es| - 1])[last.name := last.text]
  }

  /** Installing files that are not there yet, for one entry and for several. */
  function WithFiles(files: map<string, string>, fs: seq<BootFile>): map<string, string> {
    if fs == [] then files
    else
      var earlier, f := WithFiles(files, fs[..|fs| - 1]), fs[|fs| - 1];
      if f.path in earlier then earlier else earlier[f.path := f.content]
  }

  function WithFilesOf(files: map<string, string>, es: seq<Entry>): map<string, string> {
    if es == [] then files
    else WithFiles(WithFilesOf(files, es[..|es| - 1]), es[|es| - 1].files)
  }

  /** A deployment without I/O errors goes through; `links` says whether the filesystem has symbolic links. */
  predicate Deployable(b: Boot, links: bool, req: Request) {
    && CurrentVersion(b).Some?
    && (req.sdbootForced ==> LiveConf(b).Some?)
    && (b.loader.Link? || b.loader.Directory? || (b.loader.Absent? && links && !b.selfLink))
  }

  function Deployed(b: Boot, links: bool, req: Request): Boot
    requires Deployable(b, links, req)
  {
    var v := CurrentVersion(b).value;
    var w := v.Other();
    var built := Tree(None, LiveConf(b), EntriesOf(req.entries));
    var files := WithFilesOf(b.files, req.entries);
    if b.loader.Directory? then
      b.(files := files, loader := Directory(built.(tag := Some(SlotName(w)))), selfLink := b.selfLink || links)
      .WithSlot(v, Some(b.loader.tree)).WithSlot(w, None)
    else
      b.(files := files, loader := Link(SlotName(w)), tmp := None, selfLink := b.selfLink || b.loader.Absent?)
      .WithSlot(w, Some(built))
  }

  // ----- One deployment -----

  predicate LastOfItsName(es: seq<Entry>, i: nat) {
    i < |es| && forall j :: i < j < |es| ==> es[j].name != es[i].name
  }

  /** The entries of a directory are the requested ones, all of them and no other; of two with one name the last. */
  ghost predicate AsRequested(entries: map<string, string>, es: seq<Entry>) {
    && (forall n :: n in entries ==> exists e :: e in es && e.name == n)
    && (forall e :: e in es ==> e.name in entries)
    && (forall i :: 0 <= i < |es| && LastOfItsName(es, i) ==>
          es[i].name in entries && entries[es[i].name] == es[i].text)
  }

  lemma {:induction false} EntryIsRequested(es: seq<Entry>, n: string)
    ensures n in EntriesOf(es) <==> exists e :: e in es && e.name == n
  {
    if es != [] {
      EntryIsRequested(es[..|es| - 1], n);
      assert es == es[..|es| - 1] + [es[|es| - 1]];
    }
  }

  lemma {:induction false} LastEntryHolds(es: seq<Entry>, i: nat)
    requires LastOfItsName(es, i)
    ensures es[i].name in EntriesOf(es) && EntriesOf(es)[es[i].name] == es[i].text
  {
    var n := |es| - 1;
    if i < n {
      assert es[n].name != es[i].name && LastOfItsName(es[..n], i);
      LastEntryHolds(es[..n], i);
    }
  }

  lemma EntriesAsRequested(es: seq<Entry>)
    ensures AsRequested(EntriesOf(es), es)
  {
    forall e | e in es ensures e.name in EntriesOf(es) {
      EntryIsRequested(es, e.name);
    }
    forall n | n in EntriesOf(es) ensures exists e :: e in es && e.name == n {
      EntryIsRequested(es, n);
    }
    forall i | 0 <= i < |es| && LastOfItsName(es, i)
      ensures es[i].name in EntriesOf(es) && EntriesOf(es)[es[i].name] == es[i].text
    {
      LastEntryHolds(es, i);
    }
  }

  /** Under distinct names every requested entry is there with its own text. */
  lemma DistinctNamesAllThere(entries: map<string, string>, es: seq<Entry>, e: Entry)
    requires AsRequested(entries, es) && e in es
    requires forall i, j :: 0 <= i < j < |es| ==> es[i].name != es[j].name
    ensures e.name in entries && entries[e.name] == e.text
  {
    var i :| 0 <= i < |es| && es[i] == e;
    assert LastOfItsName(es, i);
  }

  lemma DeployedReads(b: Boot, links: bool, req: Request)
    requires Deployable(b, links, req)
    ensures CurrentVersion(Deployed(b, links, req)) == Some(CurrentVersion(b).value.Other())
    ensures EntriesIn(LiveTree(Deployed(b, links, req))) == EntriesOf(req.entries)
    ensures LiveConf(Deployed(b, links, req)) == LiveConf(b)
    ensures Deployed(b, links, req).loader.Directory? == b.loader.Directory?
    ensures !b.loader.Absent? ==>
      ReadConfigs(Deployed(b, links, req), CurrentVersion(b).value) == ReadConfigs(b, CurrentVersion(b).value)
  {
  }

  /** The requested entries become live, the version flips, and the old ones stay readable under the old version. */
  lemma DeployedMeaning(b: Boot, links: bool, req: Request)
    requires Deployable(b, links, req)
    ensures CurrentVersion(Deployed(b, links, req)) == Some(CurrentVersion(b).value.Other())
    ensures EntriesIn(LiveTree(Deployed(b, links, req))) == EntriesOf(req.entries)
    ensures AsRequested(EntriesIn(LiveTree(Deployed(b, links, req))), req.entries)
    ensures LiveConf(Deployed(b, links, req)) == LiveConf(b)
    ensures Deployed(b, links, req).loader.Directory? == b.loader.Directory?
    ensures !b.loader.Absent? ==>
      ReadConfigs(Deployed(b, links, req), CurrentVersion(b).value) == ReadConfigs(b, CurrentVersion(b).value)
  {
    DeployedReads(b, links, req);
    EntriesAsRequested(req.entries);
  }

  /**
    What lies where afterwards.  In directory mode the old tree, whole, is under the old name and
    nothing under the new one; in link mode the link names the new tree and the old one is untouched.
   */
  lemma DeployedPlaces(b: Boot, links: bool, req: Request)
    requires Deployable(b, links, req)
    ensures var d, v := Deployed(b, links, req), CurrentVersion(b).value;
            && (b.loader.Directory? ==>
                  && d.Slot(v) == Some(b.loader.tree) && d.Slot(v.Other()) == None && d.tmp == b.tmp
                  && d.loader.tree.tag == Some(SlotName(v.Other())) && d.selfLink == (b.selfLink || links))
            && (!b.loader.Directory? ==>
                  && d.loader == Link(SlotName(v.Other())) && d.tmp == None
                  && d.Slot(v) == b.Slot(v) && d.Slot(v.Other()) == LiveTree(d) && LiveTree(d).Some?
                  && d.selfLink == (b.selfLink || b.loader.Absent?))
            && (b.loader.Absent? ==> d.loader == Link("loader.1") && d.slot1.Some?)
  {
  }

  /** Why a deployment without I/O errors can fail at all. */
  lemma NotDeployableIff(b: Boot, links: bool, req: Request)
    ensures !Deployable(b, links, req) <==>
            || (b.loader.Link? && b.loader.target != "loader.0" && b.loader.target != "loader.1")
            || (b.loader.Directory? && b.loader.tree.tag.Some?
                && b.loader.tree.tag.value != "loader.0" && b.loader.tree.tag.value != "loader.1")
            || b.loader.Special? || (b.loader.Absent? && (b.selfLink || !links))
            || (req.sdbootForced && (LiveTree(b).None? || LiveTree(b).value.conf.None?))
  {
    VersionByName(b);
  }

  // ----- Boot files -----

  /** A file that is there is kept; one that is not holds what all its requests say. */
  lemma {:induction false} WithFilesHolds(files: map<string, string>, fs: seq<BootFile>, p: string, content: string)
    requires forall f :: f in fs && f.path == p ==> f.content == content
    ensures p in files ==> p in WithFiles(files, fs) && WithFiles(files, fs)[p] == files[p]
    ensures p !in files && (exists f :: f in fs && f.path == p) ==>
              p in WithFiles(files, fs) && WithFiles(files, fs)[p] == content
    ensures p !in files && p in WithFiles(files, fs) ==> WithFiles(files, fs)[p] == content
  {
    if fs != [] {
      var n := |fs| - 1;
      assert fs == fs[..n] + [fs[n]];
      WithFilesHolds(files, fs[..n], p, content);
    }
  }

  lemma {:induction false} WithFilesOfHolds(files: map<string, string>, es: seq<Entry>, p: string, content: string)
    requires forall e, f :: e in es && f in e.files && f.path == p ==> f.content == content
    ensures p in files ==> p in WithFilesOf(files, es) && WithFilesOf(files, es)[p] == files[p]
    ensures p !in files && (exists e, f :: e in es && f in e.files && f.path == p) ==>
              p in WithFilesOf(files, es) && WithFilesOf(files, es)[p] == content
    ensures p !in files && p in WithFilesOf(files, es) ==> WithFilesOf(files, es)[p] == content
  {
    if es != [] {
      var n := |es| - 1;
      assert es == es[..n] + [es[n]];
      WithFilesOfHolds(files, es[..n], p, content);
      WithFilesHolds(WithFilesOf(files, es[..n]), es[n].files, p, content);
    }
  }

  // ----- Both modes refine one two-slot store -----

  /** The current version, its entries and `loader.conf`, and the entries under the other version. */
  datatype Store = Store(version: Version, live: map<string, string>, conf: Option<string>, other: map<string, string>)

  function Abstract(b: Boot): Store
    requires CurrentVersion(b).Some?
  {
    var v := CurrentVersion(b).value;
    Store(v, ReadConfigs(b, v).value, LiveConf(b), ReadConfigs(b, v.Other()).value)
  }

  function StoreDeploy(s: Store, req: Request): Store {
    Store(s.version.Other(), EntriesOf(req.entries), s.conf, s.live)
  }

  function StoreRun(s: Store, reqs: seq<Request>): Store {
    if reqs == [] then s else StoreDeploy(StoreRun(s, reqs[..|reqs| - 1]), reqs[|reqs| - 1])
  }

  predicate Present(b: Boot) {
    (b.loader.Link? || b.loader.Directory?) && CurrentVersion(b).Some?
  }

  predicate Serves(b: Boot, req: Request) {
    req.sdbootForced ==> LiveConf(b).Some?
  }

  function DeployRun(b: Boot, links: bool, reqs: seq<Request>): Boot
    requires Present(b) && forall req :: req in reqs ==> Serves(b, req)
    ensures Present(DeployRun(b, links, reqs))
    ensures LiveConf(DeployRun(b, links, reqs)) == LiveConf(b)
  {
    if reqs == [] then b
    else
      var earlier := DeployRun(b, links, reqs[..|reqs| - 1]);
      assert Serves(b, reqs[|reqs| - 1]);
      Deployed(earlier, links, reqs[|reqs| - 1])
  }

  lemma {:induction false} RunRefinesStore(b: Boot, links: bool, reqs: seq<Request>)
    requires Present(b) && forall req :: req in reqs ==> Serves(b, req)
    ensures Abstract(DeployRun(b, links, reqs)) == StoreRun(Abstract(b), reqs)
    ensures DeployRun(b, links, reqs).loader.Link? == b.loader.Link?
  {
    if reqs != [] {
      RunRefinesStore(b, links, reqs[..|reqs| - 1]);
      assert reqs[|reqs| - 1] in reqs;
    }
  }

  /** A partition in link mode and one in directory mode that read alike keep reading alike. */
  lemma ModesAgree(a: Boot, b: Boot, links: bool, reqs: seq<Request>, v: Version)
    requires a.loader.Link? && Present(a) && b.loader.Directory? && Present(b)
    requires Abstract(a) == Abstract(b)
    requires forall req :: req in reqs ==> Serves(a, req)
    ensures forall req :: req in reqs ==> Serves(b, req)
    ensures ReadConfigs(DeployRun(a, links, reqs), v) == ReadConfigs(DeployRun(b, links, reqs), v)
    ensures CurrentVersion(DeployRun(a, links, reqs)) == CurrentVersion(DeployRun(b, links, reqs))
    ensures DeployRun(a, links, reqs).loader.Link? && DeployRun(b, links, reqs).loader.Directory?
  {
    assert LiveConf(a) == LiveConf(b);
    RunRefinesStore(a, links, reqs);
    RunRefinesStore(b, links, reqs);
    var x, y := DeployRun(a, links, reqs), DeployRun(b, links, reqs);
    assert Abstract(x) == Abstract(y);
    assert v == CurrentVersion(x).value || v == CurrentVersion(x).value.Other();
  }

  // ----- The image build turns the link into a tagged directory -----

  /** None when `readlink` or `mv` fails; only the two slot names are modelled as link targets. */
  function Converted(b: Boot): Option<Boot> {
    if b.loader.Link? && ParseVersion(b.loader.target).Some? && LiveTree(b).Some? then
      var v := ParseVersion(b.loader.target).value;
      var tagged := LiveTree(b).value.(tag := Some(b.loader.target));
      Some(b.(loader := Directory(tagged), selfLink := false).WithSlot(v, None))
    else None
  }

  /**
    The linked directory becomes `loader` itself, tagged with the name it had; the name and the
    probe link are gone, and the other directory stays.
   */
  lemma ConvertedMeaning(b: Boot, v: Version)
    requires b.loader == Link(SlotName(v))
    ensures Converted(b).Some? <==> b.Slot(v).Some?
    ensures Converted(b).Some? ==>
              var c := Converted(b).value;
              && c.loader.Directory? && c.loader.tree.tag == Some(SlotName(v))
              && c.loader.tree.entries == b.Slot(v).value.entries && c.loader.tree.conf == b.Slot(v).value.conf
              && c.Slot(v) == None && c.Slot(v.Other()) == b.Slot(v.Other())
              && !c.selfLink && c.files == b.files && c.tmp == b.tmp
  {
  }

  /** Deployments in link mode, the conversion, then deployments in directory mode: one store throughout. */
  lemma ConversionKeepsStore(b: Boot, links: bool, before: seq<Request>, after: seq<Request>)
    requires b.loader.Link? && Present(b) && LiveTree(b).Some?
    requires forall req :: req in before + after ==> Serves(b, req)
    ensures forall req :: req in before ==> Serves(b, req)
    ensures Converted(DeployRun(b, links, before)).Some?
    ensures var c := Converted(DeployRun(b, links, before)).value;
            && c.loader.Directory? && Present(c)
            && Abstract(c) == Abstract(DeployRun(b, links, before))
            && (forall req :: req in after ==> Serves(c, req))
            && Abstract(DeployRun(c, links, after)) == StoreRun(StoreRun(Abstract(b), before), after)
            && LiveConf(DeployRun(c, links, after)) == LiveConf(b)
            && DeployRun(c, links, after).loader.Directory?
  {
    forall req | req in before || req in after ensures Serves(b, req) {
      assert req in before + after;
    }
    RunRefinesStore(b, links, before);
    RunKeepsLive(b, links, before);
    var d := DeployRun(b, links, before);
    var c := Converted(d).value;
    assert d.loader.target == SlotName(CurrentVersion(d).value);
    RunRefinesStore(c, links, after);
  }

  lemma {:induction false} RunKeepsLive(b: Boot, links: bool, reqs: seq<Request>)
    requires Present(b) && LiveTree(b).Some?
    requires forall req :: req in reqs ==> Serves(b, req)
    ensures LiveTree(DeployRun(b, links, reqs)).Some?
  {
    if reqs != [] {
      RunKeepsLive(b, links, reqs[..|reqs| - 1]);
      assert reqs[|reqs| - 1] in reqs;
    }
  }

  // ----- Histories with power cuts -----

  /** One deployment that finished or was interrupted, and the partition found afterwards. */
  datatype Attempt = Attempt(req: Request, found: Boot)

  /** What `WriteDeploymentsBootswap` promises of the partition after a cut at any of its steps. */
  predicate OldOrNew(before: Boot, links: bool, req: Request, found: Boot) {
    SameLive(before, found) || (Deployable(before, links, req) && found == Deployed(before, links, req))
  }

  function Last(b: Boot, attempts: seq<Attempt>): Boot {
    if attempts == [] then b else attempts[|attempts| - 1].found
  }

  predicate History(b: Boot, links: bool, attempts: seq<Attempt>) {
    attempts != [] ==>
      var n := |attempts| - 1;
      && History(b, links, attempts[..n])
      && OldOrNew(Last(b, attempts[..n]), links, attempts[n].req, attempts[n].found)
  }

  /** The attempts whose swap took hold. */
  function Commits(b: Boot, attempts: seq<Attempt>): seq<Request> {
    if attempts == [] then []
    else
      var n := |attempts| - 1;
      var earlier := Commits(b, attempts[..n]);
      if SameLive(Last(b, attempts[..n]), attempts[n].found) then earlier else earlier + [attempts[n].req]
  }

  /** The live configuration is at all times that of the store after the committed requests alone. */
  lemma {:induction false} InterruptedHistory(b: Boot, links: bool, attempts: seq<Attempt>)
    requires Present(b) && LiveTree(b).Some? && History(b, links, attempts)
    ensures var last := Last(b, attempts); var s := StoreRun(Abstract(b), Commits(b, attempts));
            && Present(last) && LiveTree(last).Some? && last.loader.Link? == b.loader.Link?
            && CurrentVersion(last).value == s.version
            && EntriesIn(LiveTree(last)) == s.live
            && LiveConf(last) == s.conf == LiveConf(b)
  {
    if attempts != [] {
      var n := |attempts| - 1;
      InterruptedHistory(b, links, attempts[..n]);
      var before, found := Last(b, attempts[..n]), attempts[n].found;
      if SameLive(before, found) {
        assert Commits(b, attempts) == Commits(b, attempts[..n]);
      } else {
        DeployedMeaning(before, links, attempts[n].req);
        var earlier := Commits(b, attempts[..n]);
        var all := Commits(b, attempts);
        assert all[..|all| - 1] == earlier;
      }
    }
  }

  /** Whatever earlier interruptions left behind, the next undisturbed deployment does exactly its work. */
  lemma DeployAfterInterruptions(b: Boot, links: bool, attempts: seq<Attempt>, req: Request)
    requires Present(b) && LiveTree(b).Some? && History(b, links, attempts)
    requires Serves(b, req)
    ensures var last := Last(b, attempts);
            && Deployable(last, links, req)
            && EntriesIn(LiveTree(Deployed(last, links, req))) == EntriesOf(req.entries)
            && CurrentVersion(Deployed(last, links, req)) == Some(CurrentVersion(last).value.Other())
            && LiveConf(Deployed(last, links, req)) == LiveConf(b)
            && ReadConfigs(Deployed(last, links, req), CurrentVersion(last).value)
               == Some(StoreRun(Abstract(b), Commits(b, attempts)).live)
  {
    InterruptedHistory(b, links, attempts);
    DeployedMeaning(Last(b, attempts), links, req);
  }

  // ----- Why the flushes stand where they do -----

  /**
    Without the flush before the exchange a cut that loses only the tag write
    puts the new entries live under the old version number.
   */
  lemma FlushBeforeSwapNeeded(b: Boot, built: Tree)
    requires b.loader.Directory? && CurrentVersion(b) == Some(V0)
    requires b.slot0.None? && b.slot1 == Some(built) && built.tag.None?
    ensures var ops := [Put(V1, TagFile, SlotName(V1)), Rename(V1, V0), Exchange(V0)];
            var found := ApplyKept(b, ops, [false, true, true]);
            && found.loader == Directory(built)
            && CurrentVersion(found) == Some(V0)
            && CurrentVersion(ApplyAll(b, ops)) == Some(V1)
  {
    var tag, rename, swap := Put(V1, TagFile, SlotName(V1)), Rename(V1, V0), Exchange(V0);
    Snoc(b, [], tag, [], false);
    Snoc(b, [tag], rename, [false], true);
    Snoc(b, [tag, rename], swap, [false, true], true);
    assert [] + [tag] == [tag] && [tag] + [rename] == [tag, rename] && [tag, rename] + [swap] == [tag, rename, swap];
    assert [] + [false] == [false] && [false] + [true] == [false, true];
    assert [false, true] + [true] == [false, true, true];
  }

  /**
    Directory mode survives even a swap that was never flushed before the next
    deployment began: a cut shows the directory from before or after the swap.
   */
  lemma {:induction false} DirectoryToleratesUnflushedSwap(b: Boot, v: Version, later: seq<Op>, kept: seq<bool>)
    requires b.loader.Directory?
    requires |kept| == 1 + |later|
    requires forall op :: op in later ==> !op.Exchange? && !op.MoveTmp?
    ensures SameLive(ApplyKept(b, [Exchange(v)] + later, kept), b)
         || SameLive(ApplyKept(b, [Exchange(v)] + later, kept), Apply(b, Exchange(v)))
  {
    var ops := [Exchange(v)] + later;
    if later == [] {
      assert ops[..0] == [];
    } else {
      var n := |later| - 1;
      assert ops[..|ops| - 1] == [Exchange(v)] + later[..n];
      DirectoryToleratesUnflushedSwap(b, v, later[..n], kept[..|ops| - 1]);
      assert later[n] in later && ops[|ops| - 1] == later[n];
    }
  }

  /** Link mode does not: losing the link but keeping the next deployment's clean-up empties the live directory. */
  lemma LinkNeedsFlushAfterSwap(b: Boot, t: Tree)
    requires b.loader == Link(SlotName(V0)) && b.slot0 == Some(t) && b.tmp == Some(SlotName(V1)) && b.slot1.Some?
    ensures var ops := [MoveTmp, RmDir(V0)];
            && LiveTree(ApplyAll(b, ops)) == b.slot1
            && LiveTree(ApplyKept(b, ops, [false, true])) == None
  {
    Snoc(b, [], MoveTmp, [], false);
    Snoc(b, [MoveTmp], RmDir(V0), [false], true);
    assert [] + [MoveTmp] == [MoveTmp] && [MoveTmp] + [RmDir(V0)] == [MoveTmp, RmDir(V0)];
    assert [] + [false] == [false] && [false] + [true] == [false, true];
  }

  /** The swap of the mode in force. */
  function SwapOf(b: Boot, v: Version): Op {
    if b.loader.Directory? then Exchange(v) else MoveTmp
  }

  /** A partition about to be swapped: the new directory under the old name, or `loader.tmp` pointing at it. */
  predicate ReadyToSwap(b: Boot, v: Version) {
    && b.Slot(v).Some?
    && (b.loader.Directory? || (b.loader == Link(SlotName(v)) && b.tmp == Some(SlotName(v.Other()))))
  }

  /** After a cut it is as before the swap or as after it. */
  predicate BeforeOrAfter(b: Boot, v: Version, found: Boot) {
    SameLive(b, found) || SameLive(Apply(b, SwapOf(b, v)), found)
  }

  /** What the next deployment stages: no swap, and nothing that disturbs what it sees as live. */
  ghost predicate Stages(b: Boot, v: Version, later: seq<Op>) {
    forall op :: op in later ==> Quiet(Apply(b, SwapOf(b, v)).loader, op)
  }

  ghost predicate ToleratesUnflushedSwap(b: Boot, v: Version) {
    forall later, kept: seq<bool> :: Stages(b, v, later) && |kept| == 1 + |later| ==>
      BeforeOrAfter(b, v, ApplyKept(b, [SwapOf(b, v)] + later, kept))
  }

  /**
    A deployment may begin before the swap of the last one is flushed exactly in directory mode:
    there every cut finds the live configuration from before or after that swap, while in link
    mode some cut finds neither.
   */
  lemma UnflushedSwapIff(b: Boot, v: Version)
    requires ReadyToSwap(b, v)
    ensures ToleratesUnflushedSwap(b, v) <==> b.loader.Directory?
  {
    if b.loader.Directory? {
      forall later, kept: seq<bool> | Stages(b, v, later) && |kept| == 1 + |later|
        ensures BeforeOrAfter(b, v, ApplyKept(b, [SwapOf(b, v)] + later, kept))
      {
        DirectoryToleratesUnflushedSwap(b, v, later, kept);
      }
    } else {
      var found := ApplyKept(b, [MoveTmp] + [RmDir(v)], [false, true]);
      Snoc(b, [], MoveTmp, [], false);
      Snoc(b, [MoveTmp], RmDir(v), [false], true);
      assert [] + [MoveTmp] == [MoveTmp] && [] + [false] == [false] && [false] + [true] == [false, true];
      assert Stages(b, v, [RmDir(v)]) && !BeforeOrAfter(b, v, found);
    }
  }
}
