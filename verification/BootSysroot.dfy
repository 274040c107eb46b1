/**
  The code that writes the boot entries, as methods on the partition.
  `budget` counts the primitive operations that still succeed: an I/O error is
  the budget running out.  `trace` records the disk after every operation, so a
  statement about every state in it is a statement about a cut at every step.
 */
module BootSysroot {
  import opened Options
  import opened BootDisk
  import opened BootDeploy

  /**
    The states in `now` beyond `before` lost nothing durable, and hold only quiet operations on
    top of `base`.
   */
  ghost predicate QuietSteps(before: seq<Disk>, now: seq<Disk>, durable: Boot, base: seq<Op>) {
    && before <= now
    && forall i :: |before| <= i < |now| ==> now[i].durable == durable && Base(now[i]) == base && AllQuiet(now[i])
  }

  /**
    Every cut at the recorded steps beyond `before` finds the live configuration from before or
    after an exchange that was not flushed, or the new one, and all the files in `held`.
   */
  ghost predicate CutsAreSafe(before: seq<Disk>, now: seq<Disk>, older: Boot, was: Boot, links: bool, req: Request,
                              held: map<string, string>)
  {
    && before <= now
    && forall i, kept: seq<bool> :: |before| <= i < |now| && |kept| == |now[i].pending| ==>
         Survives(older, was, links, req, held, ApplyKept(now[i].durable, now[i].pending, kept))
  }

  /** One of the live configurations that a deployment begun on `was` may leave. */
  predicate Leaves(older: Boot, was: Boot, links: bool, req: Request, found: Boot) {
    SameLive(older, found) || OldOrNew(was, links, req, found)
  }

  ghost predicate Survives(older: Boot, was: Boot, links: bool, req: Request, held: map<string, string>, found: Boot) {
    Leaves(older, was, links, req, found) && Extends(held, found.files)
  }

  lemma QuietStepsAreSafe(before: seq<Disk>, now: seq<Disk>, durable: Boot, base: seq<Op>, older: Boot, was: Boot,
                          links: bool, req: Request)
    requires QuietSteps(before, now, durable, base)
    requires SameLive(older, durable) && SameLive(was, ApplyAll(durable, base))
    ensures CutsAreSafe(before, now, older, was, links, req, durable.files)
  {
    forall i, kept: seq<bool> | |before| <= i < |now| && |kept| == |now[i].pending|
      ensures Survives(older, was, links, req, durable.files, ApplyKept(now[i].durable, now[i].pending, kept))
    {
      CutOnBase(now[i], kept);
      KeptExtends(durable, now[i].pending, kept);
    }
  }

  lemma QuietNext(d: Disk, op: Op)
    requires AllQuiet(d) && Quiet(d.durable.loader, op)
    ensures var next := Disk(d.durable, d.pending + [op]);
            && AllQuiet(next) && Base(next) == Base(d)
            && SameLive(ApplyAll(d.durable, Base(d)), ApplyAll(d.durable, d.pending + [op]))
  {
    var next := Disk(d.durable, d.pending + [op]);
    assert Base(next) == Base(d);
    assert Rest(next) == Rest(d) + [op];
    QuietOnBase(next);
  }

  /** The files and the entries of a new loader directory. */
  function Built(b: Boot, w: Version, entries: seq<Entry>): Boot {
    b.(files := WithFilesOf(b.files, entries)).WithSlot(w, Some(Tree(None, None, EntriesOf(entries))))
  }

  /** With `loader.conf` too. */
  function Prepared(b: Boot, w: Version, req: Request): Boot {
    b.(files := WithFilesOf(b.files, req.entries)).WithSlot(w, Some(Tree(None, LiveConf(b), EntriesOf(req.entries))))
  }

  /** The tagged directory `loader.w` under the name of `v`. */
  function Readied(b: Boot, v: Version, w: Version, links: bool): Boot
    requires b.Slot(w).Some?
  {
    var tagged := b.Slot(w).value.(tag := Some(SlotName(w)));
    b.(selfLink := b.selfLink || links).WithSlot(v, Some(tagged)).WithSlot(w, None)
  }

  lemma ReadiedBySteps(b: Boot, v: Version, w: Version, links: bool)
    requires v != w && b.Slot(w).Some?
    ensures var linked := if !b.selfLink && links then Apply(b, MkSelf) else b;
            var tagged := Apply(linked, Put(w, TagFile, SlotName(w)));
            Apply(tagged.WithSlot(v, None), Rename(w, v)) == Readied(b, v, w, links)
  {
  }

  /** Everything up to the flush, in either mode. */
  function Staged(b: Boot, v: Version, links: bool, req: Request, loaderLink: bool): Boot {
    var p := Prepared(b, v.Other(), req);
    if loaderLink then p.(selfLink := b.selfLink || b.loader.Absent?, tmp := Some(SlotName(v.Other())))
    else Readied(p, v, v.Other(), links)
  }

  /** The mode `write_deployments_bootswap` picks by what `loader` is and whether the probe link could be made. */
  predicate Picks(b: Boot, links: bool, loaderLink: bool) {
    if loaderLink then b.loader.Link? || (b.loader.Absent? && links && !b.selfLink)
    else b.loader.Directory? || (b.loader.Absent? && (b.selfLink || !links))
  }

  /** Each mode's preparation is one swap away from the deployed partition. */
  lemma OneSwapAway(b: Boot, v: Version, links: bool, req: Request, loaderLink: bool)
    requires CurrentVersion(b) == Some(v) && (req.sdbootForced ==> LiveConf(b).Some?) && Picks(b, links, loaderLink)
    ensures var staged, swap := Staged(b, v, links, req, loaderLink), if loaderLink then MoveTmp else Exchange(v);
            && (Deployable(b, links, req) <==> loaderLink || staged.loader.Directory?)
            && (Deployable(b, links, req) ==> SwapDeploys(b, staged, links, req, swap))
            && (if loaderLink then staged.tmp.Some? else staged.Slot(v).Some?)
  {
  }

  /**
    How a deployment begun on `was` leaves the disk: what is visible, and what a cut would bring
    back, is an old or the new live configuration; the files are all there before the new one is;
    and nothing but an exchange, or in link mode the move of the link, may be left unflushed.
   */
  ghost predicate Ends(older: Boot, was: Boot, links: bool, req: Request, held: map<string, string>, d: Disk) {
    var visible := ApplyAll(d.durable, d.pending);
    && OldOrNew(was, links, req, visible) && Leaves(older, was, links, req, d.durable)
    && Extends(held, d.durable.files) && (!SameLive(was, visible) ==> visible.files == d.durable.files)
    && (AllQuiet(d) || (visible.loader.Link? && d.pending == [MoveTmp]))
  }

  lemma QuietEnds(d: Disk, older: Boot, was: Boot, links: bool, req: Request)
    requires AllQuiet(d) && SameLive(older, d.durable) && SameLive(was, ApplyAll(d.durable, Base(d)))
    ensures Ends(older, was, links, req, d.durable.files, d)
  {
    QuietOnBase(d);
  }

  /** From the flush on, with the swap not begun, not flushed, or flushed. */
  lemma SwapEnds(older: Boot, was: Boot, ready: Boot, links: bool, req: Request, held: map<string, string>, swap: Op,
                 d: Disk)
    requires SameLive(was, ready) && Extends(held, ready.files) && (swap.MoveTmp? || swap.Exchange?)
    requires d == Disk(ready, []) ||
             ((d == Disk(ready, [swap]) || d == Disk(Apply(ready, swap), [])) &&
              SwapDeploys(was, ready, links, req, swap))
    ensures Ends(older, was, links, req, held, d)
  {
    if d == Disk(ready, [swap]) {
      UnflushedSwapEnds(older, was, ready, links, req, held, swap);
    } else if d != Disk(ready, []) {
      assert Apply(ready, swap).files == ready.files;
    }
  }

  predicate SwapDeploys(was: Boot, ready: Boot, links: bool, req: Request, swap: Op) {
    && (swap.Exchange? ==> ready.loader.Directory?)
    && Deployable(was, links, req) && Apply(ready, swap) == Deployed(was, links, req)
  }

  lemma UnflushedSwapEnds(older: Boot, was: Boot, ready: Boot, links: bool, req: Request, held: map<string, string>,
                          swap: Op)
    requires SameLive(was, ready) && Extends(held, ready.files) && (swap.MoveTmp? || swap.Exchange?)
    requires SwapDeploys(was, ready, links, req, swap)
    ensures Ends(older, was, links, req, held, Disk(ready, [swap]))
  {
    assert Apply(ready, swap).files == ready.files;
    assert [swap][..0] == [] && ApplyAll(ready, [swap]) == Apply(ready, swap);
  }

  class Sysroot {
    const links: bool
    var durable: Boot
    var pending: seq<Op>
    var budget: nat
    ghost var trace: seq<Disk>

    constructor (b: Boot, links: bool, budget: nat)
      ensures durable == b && pending == [] && this.links == links && this.budget == budget
    {
      durable, pending, this.links, this.budget := b, [], links, budget;
      trace := [];
    }

    /** The partition as running programs see it. */
    function Visible(): Boot
      reads this
    {
      ApplyAll(durable, pending)
    }

    ghost predicate Quiescent()
      reads this
    {
      AllQuiet(Disk(durable, pending))
    }

    /** The exchange an earlier deployment left unflushed, if it did. */
    ghost function Unflushed(): seq<Op>
      reads this
    {
      Base(Disk(durable, pending))
    }

    /** Since `t0` nothing but quiet operations, on top of what was unflushed before. */
    ghost predicate StayedQuiet(t0: seq<Disk>, base: seq<Op>)
      reads this
    {
      && Quiescent() && Unflushed() == base && QuietSteps(t0, trace, durable, base)
      && SameLive(ApplyAll(durable, base), Visible())
    }

    method Issue(op: Op) returns (ok: bool)
      modifies this`pending, this`budget, this`trace
      ensures ok == (old(budget) > 0)
      ensures ok ==> pending == old(pending) + [op] && budget == old(budget) - 1
      ensures ok ==> trace == old(trace) + [Disk(durable, pending)]
      ensures ok ==> Visible() == Apply(old(Visible()), op)
      ensures !ok ==> pending == old(pending) && budget == 0 && trace == old(trace)
    {
      ok := budget > 0;
      if ok {
        pending, budget := pending + [op], budget - 1;
        trace := trace + [Disk(durable, pending)];
      }
    }

    /** Issue an operation that cannot disturb the live configuration. */
    method IssueQuiet(op: Op) returns (ok: bool)
      requires Quiescent() && Quiet(durable.loader, op)
      modifies this`pending, this`budget, this`trace
      ensures StayedQuiet(old(trace), old(Unflushed()))
      ensures ok ==> Visible() == Apply(old(Visible()), op)
      ensures !ok ==> Visible() == old(Visible()) && budget == 0
    {
      QuietOnBase(Disk(durable, pending));
      QuietNext(Disk(durable, pending), op);
      ok := Issue(op);
    }

    method Sync() returns (ok: bool)
      modifies this`durable, this`pending, this`budget, this`trace
      ensures ok == (old(budget) > 0)
      ensures ok ==> durable == old(Visible()) && pending == [] && budget == old(budget) - 1
      ensures ok ==> trace == old(trace) + [Disk(durable, [])]
      ensures !ok ==> durable == old(durable) && pending == old(pending) && budget == 0 && trace == old(trace)
    {
      ok := budget > 0;
      if ok {
        durable, pending, budget := Visible(), [], budget - 1;
        trace := trace + [Disk(durable, [])];
      }
    }

    /** Removes a loader directory file by file; a missing one is no error. */
    method RmRf(v: Version) returns (ok: bool)
      requires Quiescent() && !PointsAt(durable.loader, v)
      modifies this`pending, this`budget, this`trace
      ensures StayedQuiet(old(trace), old(Unflushed()))
      ensures ok ==> Visible() == old(Visible()).WithSlot(v, None)
      ensures !ok ==> budget == 0
    {
      QuietOnBase(Disk(durable, pending));
      var t := Visible().Slot(v);
      if t.None? { return true; }
      ok := true;
      if t.value.tag.Some? {
        ok := UnlinkIn(v, TagFile);
        if !ok { return; }
      }
      if t.value.conf.Some? {
        ok := UnlinkIn(v, ConfFile);
        if !ok { return; }
      }
      ok := UnlinkEntries(v, t.value.entries.Keys);
      if !ok { return; }
      ok := IssueQuiet(RmDir(v));
    }

    method UnlinkIn(v: Version, f: File) returns (ok: bool)
      requires Quiescent() && !PointsAt(durable.loader, v) && Visible().Slot(v).Some?
      modifies this`pending, this`budget, this`trace
      ensures StayedQuiet(old(trace), old(Unflushed()))
      ensures ok ==> Visible().Slot(v).Some? && Visible() == old(Visible()).WithSlot(v, Visible().Slot(v))
      ensures !ok ==> budget == 0
    {
      ok := IssueQuiet(Unlink(v, f));
    }

    method UnlinkEntries(v: Version, entries: set<string>) returns (ok: bool)
      requires Quiescent() && !PointsAt(durable.loader, v) && Visible().Slot(v).Some?
      modifies this`pending, this`budget, this`trace
      ensures StayedQuiet(old(trace), old(Unflushed()))
      ensures ok ==> Visible().Slot(v).Some? && Visible() == old(Visible()).WithSlot(v, Visible().Slot(v))
      ensures !ok ==> budget == 0
    {
      QuietOnBase(Disk(durable, pending));
      ok := true;
      var names := entries;
      while names != {}
        invariant ok && StayedQuiet(old(trace), old(Unflushed()))
        invariant Visible().Slot(v).Some? && Visible() == old(Visible()).WithSlot(v, Visible().Slot(v))
        decreases names
      {
        var name :| name in names;
        ok := UnlinkIn(v, EntryFile(name));
        if !ok { return; }
        names := names - {name};
      }
    }

    /** Boot files that are not there yet. */
    method InstallFiles(fs: seq<BootFile>) returns (ok: bool)
      requires Quiescent()
      modifies this`pending, this`budget, this`trace
      ensures StayedQuiet(old(trace), old(Unflushed()))
      ensures ok ==> Visible() == old(Visible()).(files := WithFiles(old(Visible()).files, fs))
      ensures !ok ==> budget == 0
    {
      QuietOnBase(Disk(durable, pending));
      ok := true;
      for i := 0 to |fs|
        invariant ok && StayedQuiet(old(trace), old(Unflushed()))
        invariant Visible() == old(Visible()).(files := WithFiles(old(Visible()).files, fs[..i]))
      {
        assert fs[..i + 1][..i] == fs[..i];
        if fs[i].path !in Visible().files {
          ok := IssueQuiet(Install(fs[i].path, fs[i].content));
          if !ok { return; }
        }
      }
      assert fs[..|fs|] == fs;
    }

    /** A fresh `loader.N` holding the requested entries, each after the files it needs. */
    method BuildEntries(w: Version, entries: seq<Entry>) returns (ok: bool)
      requires Quiescent() && !PointsAt(durable.loader, w)
      modifies this`pending, this`budget, this`trace
      ensures StayedQuiet(old(trace), old(Unflushed()))
      ensures ok ==> Visible() == Built(old(Visible()), w, entries)
      ensures ok ==> AsRequested(EntriesIn(Visible().Slot(w)), entries)
      ensures !ok ==> budget == 0
    {
      ok := RmRf(w);
      if !ok { return; }
      ok := IssueQuiet(MkDir(w));
      if !ok { return; }
      for i := 0 to |entries|
        invariant ok && StayedQuiet(old(trace), old(Unflushed()))
        invariant Visible() == Built(old(Visible()), w, entries[..i])
      {
        assert entries[..i + 1][..i] == entries[..i];
        ok := InstallFiles(entries[i].files);
        if !ok { return; }
        ok := IssueQuiet(Put(w, EntryFile(entries[i].name), entries[i].text));
        if !ok { return; }
      }
      assert entries[..|entries|] == entries;
      EntriesAsRequested(entries);
    }

    /** `_ostree_bootloader_sdboot_query`: systemd-boot is in use if the live directory has a `loader.conf`. */
    method SdbootQuery() returns (active: bool)
      ensures active == LiveConf(Visible()).Some?
    {
      active := LiveConf(Visible()).Some?;
    }

    /** `_ostree_bootloader_sdboot_write_config`: carries the live `loader.conf` over; fails if there is none. */
    method SdbootWriteConfig(w: Version) returns (ok: bool)
      requires Quiescent() && !PointsAt(durable.loader, w)
      requires Visible().Slot(w).Some?
      modifies this`pending, this`budget, this`trace
      ensures StayedQuiet(old(trace), old(Unflushed()))
      ensures ok ==> LiveConf(old(Visible())).Some?
      ensures ok ==>
                var was := old(Visible());
                Visible() == was.WithSlot(w, Some(was.Slot(w).value.(conf := LiveConf(was))))
      ensures !ok ==> budget == 0 || LiveConf(old(Visible())).None?
    {
      QuietOnBase(Disk(durable, pending));
      var text := LiveConf(Visible());
      if text.None? { return false; }
      ok := IssueQuiet(Put(w, ConfFile, text.value));
    }

    /** `prepare_new_bootloader_dir`: the tagged new directory ends up under the current version's name. */
    method PrepareNewBootloaderDir(v: Version, w: Version) returns (ok: bool)
      requires v != w && Quiescent() && durable.loader.Link? == false
      requires Visible().Slot(w).Some?
      modifies this`pending, this`budget, this`trace
      ensures StayedQuiet(old(trace), old(Unflushed()))
      ensures ok ==> Visible() == Readied(old(Visible()), v, w, links)
      ensures !ok ==> budget == 0
    {
      QuietOnBase(Disk(durable, pending));
      ReadiedBySteps(Visible(), v, w, links);
      if !Visible().selfLink && links {
        ok := IssueQuiet(MkSelf);
        if !ok { return; }
      }
      ok := IssueQuiet(Put(w, TagFile, SlotName(w)));
      if !ok { return; }
      ok := RmRf(v);
      if !ok { return; }
      ok := IssueQuiet(Rename(w, v));
    }

    /** `prepare_new_bootloader_link`: `loader.tmp` points at the new directory. */
    method PrepareNewBootloaderLink(w: Version) returns (ok: bool)
      requires Quiescent()
      modifies this`pending, this`budget, this`trace
      ensures StayedQuiet(old(trace), old(Unflushed()))
      ensures ok ==> Visible() == old(Visible()).(tmp := Some(SlotName(w)))
      ensures !ok ==> budget == 0
    {
      ok := IssueQuiet(PutTmp(SlotName(w)));
    }

    /** `swap_bootloader`; false without any change if the exchange has nothing to exchange with. */
    method SwapBootloader(loaderLink: bool, v: Version) returns (ok: bool)
      requires pending == []
      requires if loaderLink then durable.tmp.Some? else durable.Slot(v).Some?
      modifies this`durable, this`pending, this`budget, this`trace
      ensures var op := if loaderLink then MoveTmp else Exchange(v);
              var possible := loaderLink || old(durable).loader.Directory?;
              && (ok ==> possible && pending == [] && durable == Apply(old(durable), op))
              && (!ok ==> budget == 0 || !possible)
              && old(trace) <= trace
              && (forall i :: |old(trace)| <= i < |trace| ==>
                   trace[i] == Disk(old(durable), [op]) || trace[i] == Disk(Apply(old(durable), op), []))
              && (!ok ==> durable == old(durable) && (pending == [] || (possible && pending == [op])))
              && (!ok ==> Visible() == old(durable) || (possible && Visible() == Apply(old(durable), op)))
    {
      if !loaderLink && !Visible().loader.Directory? { return false; }
      ok := Issue(if loaderLink then MoveTmp else Exchange(v));
      if !ok { return; }
      assert Visible() == Apply(old(durable), pending[0]);
      ok := Sync();
    }

    /** `read_current_bootversion` */
    method ReadCurrentBootversion() returns (r: Option<Version>)
      ensures r == CurrentVersion(Visible())
    {
      var loader := Visible().loader;
      if loader.Absent? {
        r := Some(V0);
      } else if loader.Link? {
        if loader.target == "loader.0" {
          r := Some(V0);
        } else if loader.target == "loader.1" {
          r := Some(V1);
        } else {
          r := None;
        }
      } else {
        var version := if loader.Directory? then loader.tree.tag else None;
        if version.None? || version.value == "loader.0" {
          r := Some(V0);
        } else if version.value == "loader.1" {
          r := Some(V1);
        } else {
          r := None;
        }
      }
    }

    /** `_ostree_sysroot_read_boot_loader_configs` */
    method ReadBootLoaderConfigs(v: Version) returns (r: Option<map<string, string>>)
      ensures r == ReadConfigs(Visible(), v)
    {
      var current := ReadCurrentBootversion();
      if current.None? { return None; }
      var tree := if current.value == v then LiveTree(Visible()) else Visible().Slot(v);
      r := Some(EntriesIn(tree));
    }

    /** The mode `write_deployments_bootswap` picks; None for its early returns. */
    method ChooseMode() returns (loaderLink: Option<bool>)
      requires Quiescent()
      modifies this`pending, this`budget, this`trace
      ensures StayedQuiet(old(trace), old(Unflushed()))
      ensures var was := old(Visible());
              match loaderLink
              case Some(l) =>
                && Picks(was, links, l)
                && Visible() == was.(selfLink := was.selfLink || (l && was.loader.Absent?))
              case None => budget == 0 || was.loader.Special?
    {
      QuietOnBase(Disk(durable, pending));
      var loader := Visible().loader;
      if loader.Absent? {
        if Visible().selfLink || !links {
          return Some(false);
        }
        var ok := IssueQuiet(MkSelf);
        return if ok then Some(true) else None;
      } else if loader.Link? {
        return Some(true);
      } else if loader.Directory? {
        return Some(false);
      } else {
        return None;
      }
    }

    /** What a cut may bring back: the live configuration before an exchange that was not flushed. */
    ghost function Older(): Boot
      reads this
    {
      if SameLive(durable, Visible()) then Visible() else durable
    }

    /**
      `write_deployments_bootswap`: build, configure, prepare, flush, swap.  It succeeds
      exactly when the request is deployable and no operation fails, and a power cut
      after any of its steps finds the old live configuration or the new one; begun on an exchange
      that was not flushed, the one before that exchange too.
     */
    method WriteDeploymentsBootswap(req: Request) returns (ok: bool)
      requires Quiescent()
      modifies this
      ensures CutsAreSafe(old(trace), trace, old(Older()), old(Visible()), links, req, old(durable).files)
      ensures ok ==> Deployable(old(Visible()), links, req)
      ensures ok ==> pending == [] && durable == Deployed(old(Visible()), links, req)
      ensures ok ==> AsRequested(EntriesIn(LiveTree(durable)), req.entries)
      ensures !ok ==> budget == 0 || !Deployable(old(Visible()), links, req)
      ensures Ends(old(Older()), old(Visible()), links, req, old(durable).files, Disk(durable, pending))
    {
      ghost var was, older, t0, d0, base := Visible(), Older(), trace, durable, Unflushed();
      QuietOnBase(Disk(durable, pending));
      QuietEnds(Disk(durable, pending), older, was, links, req);
      var current := ReadCurrentBootversion();
      if current.None? { return false; }
      var v := current.value;
      var loaderLink;
      ok, loaderLink := Stage(v, req);
      QuietStepsAreSafe(t0, trace, d0, base, older, was, links, req);
      QuietEnds(Disk(durable, pending), older, was, links, req);
      if !ok { return; }
      ok := FlushAndSwap(v, loaderLink, req, t0, older, was);
      if ok {
        DeployedMeaning(was, links, req);
      }
    }

    /** From the flush on. */
    method FlushAndSwap(v: Version, loaderLink: bool, req: Request, ghost t0: seq<Disk>,
                        ghost older: Boot, ghost was: Boot)
      returns (ok: bool)
      requires CutsAreSafe(t0, trace, older, was, links, req, durable.files) && SameLive(was, Visible())
      requires Ends(older, was, links, req, durable.files, Disk(durable, pending))
      requires if loaderLink then Visible().tmp.Some? else Visible().Slot(v).Some?
      requires Deployable(was, links, req) <==> loaderLink || Visible().loader.Directory?
      requires Deployable(was, links, req) ==>
                 SwapDeploys(was, Visible(), links, req, if loaderLink then MoveTmp else Exchange(v))
      modifies this
      ensures CutsAreSafe(t0, trace, older, was, links, req, old(durable).files)
      ensures ok ==> Deployable(was, links, req) && pending == [] && durable == Deployed(was, links, req)
      ensures !ok ==> budget == 0 || !Deployable(was, links, req)
      ensures Ends(older, was, links, req, old(durable).files, Disk(durable, pending))
    {
      ghost var held, ready, t1, swap := durable.files, Visible(), trace, if loaderLink then MoveTmp else Exchange(v);
      AllExtends(durable, pending);
      ok := Sync();
      if !ok { return; }
      ghost var t2 := trace;
      ok := SwapBootloader(loaderLink, v);
      if Deployable(was, links, req) {
        assert Survives(older, was, links, req, held, Apply(ready, swap)) by {
          assert Apply(ready, swap).files == ready.files;
        }
      }
      SwapIsSafe(t0, t1, t2, trace, older, was, ready, links, req, held, swap);
      SwapEnds(older, was, ready, links, req, held, swap, Disk(durable, pending));
    }

    /** Everything before the flush: all of it quiet, and one swap away from the deployed partition. */
    method Stage(v: Version, req: Request) returns (ok: bool, loaderLink: bool)
      requires Quiescent() && CurrentVersion(Visible()) == Some(v)
      modifies this`pending, this`budget, this`trace
      ensures StayedQuiet(old(trace), old(Unflushed()))
      ensures ok && Deployable(old(Visible()), links, req) ==>
                SwapDeploys(old(Visible()), Visible(), links, req, if loaderLink then MoveTmp else Exchange(v))
      ensures ok ==> if loaderLink then Visible().tmp.Some? else Visible().Slot(v).Some?
      ensures ok ==> (Deployable(old(Visible()), links, req) <==> loaderLink || Visible().loader.Directory?)
      ensures !ok ==> budget == 0 || !Deployable(old(Visible()), links, req)
    {
      QuietOnBase(Disk(durable, pending));
      BaseKeepsKind(Disk(durable, pending));
      var w := v.Other();
      loaderLink := false;
      ok := Prepare(v, w, req);
      if !ok { return; }
      var mode := ChooseMode();
      if mode.None? { return false, false; }
      loaderLink := mode.value;
      OneSwapAway(old(Visible()), v, links, req, loaderLink);
      if loaderLink {
        ok := PrepareNewBootloaderLink(w);
      } else {
        ok := PrepareNewBootloaderDir(v, w);
      }
    }

    /** Entries and, where systemd-boot is in use, `loader.conf` under the new version's name. */
    method Prepare(v: Version, w: Version, req: Request) returns (ok: bool)
      requires Quiescent() && v != w && !PointsAt(durable.loader, w)
      modifies this`pending, this`budget, this`trace
      ensures StayedQuiet(old(trace), old(Unflushed()))
      ensures ok && req.sdbootForced ==> LiveConf(old(Visible())).Some?
      ensures ok ==> Visible() == Prepared(old(Visible()), w, req)
      ensures ok ==> AsRequested(EntriesIn(Visible().Slot(w)), req.entries)
      ensures !ok ==> budget == 0 || (req.sdbootForced && LiveConf(old(Visible())).None?)
    {
      QuietOnBase(Disk(durable, pending));
      ok := BuildEntries(w, req.entries);
      if !ok { return; }
      var active := SdbootQuery();
      if req.sdbootForced || active {
        ok := SdbootWriteConfig(w);
      }
    }
  }

  /** A cut while at most the swap is unflushed. */
  lemma SwapCut(older: Boot, was: Boot, ready: Boot, links: bool, req: Request, held: map<string, string>, swap: Op,
                kept: seq<bool>)
    requires Survives(older, was, links, req, held, ready) && Survives(older, was, links, req, held, Apply(ready, swap))
    requires |kept| == 1
    ensures Survives(older, was, links, req, held, ApplyKept(ready, [swap], kept))
  {
    Snoc(ready, [], swap, [], kept[0]);
    assert [] + [swap] == [swap] && [] + [kept[0]] == kept;
  }

  /** From the flush on, the only unflushed operation is the swap itself. */
  lemma SwapIsSafe(t0: seq<Disk>, t1: seq<Disk>, t2: seq<Disk>, now: seq<Disk>, older: Boot,
                   was: Boot, ready: Boot, links: bool, req: Request, held: map<string, string>, swap: Op)
    requires CutsAreSafe(t0, t1, older, was, links, req, held) && t2 == t1 + [Disk(ready, [])] && t2 <= now
    requires forall i :: |t2| <= i < |now| ==> now[i] == Disk(ready, [swap]) || now[i] == Disk(Apply(ready, swap), [])
    requires Survives(older, was, links, req, held, ready)
    requires |now| > |t2| ==> Survives(older, was, links, req, held, Apply(ready, swap))
    ensures CutsAreSafe(t0, now, older, was, links, req, held)
  {
    forall i, kept: seq<bool> | |t0| <= i < |now| && |kept| == |now[i].pending|
      ensures Survives(older, was, links, req, held, ApplyKept(now[i].durable, now[i].pending, kept))
    {
      if i < |t1| {
        assert now[i] == t1[i];
      } else if i < |t2| {
        assert now[i] == t2[i];
      } else if now[i] == Disk(ready, [swap]) {
        SwapCut(older, was, ready, links, req, held, swap, kept);
      }
    }
  }
}
