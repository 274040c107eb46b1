/**
  The boot directory of an image under construction: the link that steers
  bootloader detection, and its conversion for systemd-boot.
 */
module BootImage {
  import opened Options
  import opened BootDisk
  import opened BootDeploy

  /** `loader -> loader.0`, with an empty `loader.conf` for systemd-boot. */
  function Initial(sdboot: bool): Boot {
    Boot(Link("loader.0"), Some(Tree(None, if sdboot then Some("") else None, map[])), None, None, false, map[])
  }

  class ImageBoot {
    var boot: Boot

    constructor (sdboot: bool)
      ensures boot == Initial(sdboot)
    {
      var tree := Tree(None, None, map[]);
      if sdboot {
        tree := PutFile(tree, ConfFile, "");
      }
      boot := Boot(Link("loader.0"), Some(tree), None, None, false, map[]);
    }

    /** The systemd-boot steps of `IMAGE_CMD:ota`, which stops at a failing `readlink` or `mv`. */
    method ConvertToDirectory() returns (ok: bool)
      modifies this
      ensures ok == Converted(old(boot)).Some?
      ensures ok ==> boot == Converted(old(boot)).value
    {
      if !boot.loader.Link? { return false; }
      var loader := boot.loader.target;
      boot := boot.(selfLink := false, loader := Absent);
      var v := ParseVersion(loader);
      if v.None? || boot.Slot(v.value).None? { return false; }
      boot := boot.(loader := Directory(boot.Slot(v.value).value)).WithSlot(v.value, None);
      boot := boot.(loader := Directory(PutFile(boot.loader.tree, TagFile, loader)));
      ok := true;
    }
  }

  /**
    From the empty image on: deployments while the image is built, the conversion, and
    any history of interrupted deployments on the device make one store: the device starts
    on the version and entries the build ended with, and keeps the `loader.conf` of the image.
   */
  lemma ImageToDevice(sdboot: bool, links: bool, built: seq<Request>, device: bool, attempts: seq<Attempt>)
    requires forall req :: req in built ==> Serves(Initial(sdboot), req)
    ensures var image := DeployRun(Initial(sdboot), links, built);
            && Converted(image).Some?
            && Abstract(Converted(image).value) == StoreRun(Abstract(Initial(sdboot)), built)
            && (History(Converted(image).value, device, attempts) ==>
                  var found := Last(Converted(image).value, attempts);
                  found.loader.Directory? &&
                  var commits := Commits(Converted(image).value, attempts);
                  var s := StoreRun(StoreRun(Abstract(Initial(sdboot)), built), commits);
                  && CurrentVersion(found) == Some(s.version) && EntriesIn(LiveTree(found)) == s.live
                  && LiveConf(found) == s.conf == (if sdboot then Some("") else None))
  {
    assert built + [] == built;
    ConversionKeepsStore(Initial(sdboot), links, built, []);
    var c := Converted(DeployRun(Initial(sdboot), links, built)).value;
    if History(c, device, attempts) {
      InterruptedHistory(c, device, attempts);
      LoaderStaysDirectory(c, device, attempts);
    }
  }

  lemma {:induction false} LoaderStaysDirectory(b: Boot, links: bool, attempts: seq<Attempt>)
    requires b.loader.Directory? && History(b, links, attempts)
    ensures Last(b, attempts).loader.Directory?
  {
    if attempts != [] {
      LoaderStaysDirectory(b, links, attempts[..|attempts| - 1]);
    }
  }
}
