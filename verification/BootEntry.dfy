/** The files and boot entry keys a deployment installs, with or without a unified kernel image. */
module BootEntry {
  import opened Options

  /** A boot file of the tree and its versioned name in /boot. */
  datatype Named = Named(namever: string, content: string)
  datatype DeviceTree = Single(file: Named) | Directory(file: Named)

  /**
    What a tree ships; `dir` is the directory in /boot for its boot checksum, `init` the kernel
    argument that starts it without an initramfs.
   */
  datatype Layout = Layout(
    dir: string, kernel: Named, initramfs: Option<Named>, devicetree: Option<DeviceTree>,
    hmac: Option<Named>, aboot: Option<Named>, abootCfg: string, init: string, uki: Option<Named>)
  {
    function PathOf(f: Named): string {
      dir + "/" + f.namever
    }
  }

  /** The keys of a boot entry that this code sets, and the `init=` among its kernel arguments. */
  datatype Config = Config(
    linux: Option<string>, initrd: Option<string>, aboot: Option<string>, abootcfg: Option<string>,
    devicetree: Option<string>, fdtdir: Option<string>, init: Option<string>, uki: Option<string>)

  datatype Boot = Boot(files: map<string, string>, config: Config)

  /** An entry that already boots through `linux` is kept that way. */
  predicate UsesUki(c: Config, l: Layout) {
    l.uki.Some? && c.linux.None?
  }

  function Listed(f: Option<Named>): seq<Named> {
    if f.Some? then [f.value] else []
  }

  function TreeFile(d: Option<DeviceTree>): Option<Named> {
    if d.Some? then Some(d.value.file) else None
  }

  /** The files an install makes sure of, in order. */
  function Needed(c: Config, l: Layout): seq<Named> {
    if UsesUki(c, l) then [l.uki.value]
    else [l.kernel] + Listed(l.initramfs) + Listed(TreeFile(l.devicetree)) + Listed(l.hmac) + Listed(l.aboot)
  }

  /** Copying what is not there yet. */
  function Fill(files: map<string, string>, path: string, content: string): map<string, string> {
    if path in files then files else files[path := content]
  }

  function Filled(files: map<string, string>, l: Layout, needed: seq<Named>): map<string, string> {
    if needed == [] then files
    else
      var f := needed[|needed| - 1];
      Fill(Filled(files, l, needed[..|needed| - 1]), l.PathOf(f), f.content)
  }

  /** The path of a file just installed, or what the entry came with. */
  function Set(prefix: string, l: Layout, f: Option<Named>, inherited: Option<string>): Option<string> {
    if f.Some? then Some(prefix + l.PathOf(f.value)) else inherited
  }

  function SingleTree(l: Layout): Option<Named> {
    if l.devicetree.Some? && l.devicetree.value.Single? then Some(l.devicetree.value.file) else None
  }

  function TreeDirectory(l: Layout): Option<Named> {
    if l.devicetree.Some? && l.devicetree.value.Directory? then Some(l.devicetree.value.file) else None
  }

  function NextConfig(prefix: string, c: Config, l: Layout): Config {
    if UsesUki(c, l) then c.(uki := Set(prefix, l, l.uki, c.uki))
    else
      Config(
        Set(prefix, l, Some(l.kernel), c.linux),
        Set(prefix, l, l.initramfs, c.initrd),
        Set("/", l, l.aboot, c.aboot),
        if l.aboot.Some? then Some(l.abootCfg) else c.abootcfg,
        Set(prefix, l, SingleTree(l), c.devicetree),
        Set(prefix, l, TreeDirectory(l), c.fdtdir),
        if l.initramfs.None? then Some(l.init) else c.init,
        c.uki)
  }

  function Next(prefix: string, b: Boot, l: Layout): Boot {
    Boot(Filled(b.files, l, Needed(b.config, l)), NextConfig(prefix, b.config, l))
  }

  class BootDir {
    var files: map<string, string>
    var config: Config

    constructor (files: map<string, string>, config: Config)
      ensures this.files == files && this.config == config
    {
      this.files, this.config := files, config;
    }

    function Now(): Boot
      reads this
    {
      Boot(files, config)
    }

    /**
      Looks for the file, if the tree has it, and installs it if missing; writing to a path in
      `broken` fails.
     */
    method EnsureInstalled(l: Layout, f: Option<Named>, broken: set<string>, ghost was: map<string, string>,
                           ghost done: seq<Named>, ghost needed: seq<Named>)
      returns (ok: bool)
      requires files == Filled(was, l, done) && done + Listed(f) <= needed
      modifies this`files
      ensures ok <==> f.None? || l.PathOf(f.value) in old(files) || l.PathOf(f.value) !in broken
      ensures ok ==> files == Filled(was, l, done + Listed(f))
      ensures !ok ==> FailedAt(was, l, needed, broken, files)
    {
      if f.None? {
        assert done + Listed(f) == done;
        return true;
      }
      assert (done + [f.value])[..|done|] == done;
      var path := l.PathOf(f.value);
      ok := true;
      if path !in files {
        if path in broken {
          StoppedAt(was, l, done, f.value, needed, broken, files);
          return false;
        }
        files := files[path := f.value.content];
      }
    }

    /** The first half of `install_deployment_kernel`: all files in order, or an error at one that cannot be written. */
    method InstallFiles(l: Layout, uki: bool, broken: set<string>) returns (ok: bool)
      requires uki == UsesUki(config, l)
      modifies this`files
      ensures ok ==> files == Filled(old(files), l, Needed(config, l))
      ensures !ok ==> FailedAt(old(files), l, Needed(config, l), broken, files)
    {
      ghost var was, needed := files, Needed(config, l);
      if uki {
        assert [] + Listed(l.uki) == needed;
        ok := EnsureInstalled(l, l.uki, broken, was, [], needed);
        return;
      }
      ghost var d0 := [l.kernel];
      ghost var d1 := d0 + Listed(l.initramfs);
      ghost var d2 := d1 + Listed(TreeFile(l.devicetree));
      ghost var d3 := d2 + Listed(l.hmac);
      assert [] + Listed(Some(l.kernel)) == d0;
      assert d0 <= d1 <= d2 <= d3 <= needed;
      ok := EnsureInstalled(l, Some(l.kernel), broken, was, [], needed);
      if !ok { return; }
      ok := EnsureInstalled(l, l.initramfs, broken, was, d0, needed);
      if !ok { return; }
      ok := EnsureInstalled(l, TreeFile(l.devicetree), broken, was, d1, needed);
      if !ok { return; }
      ok := EnsureInstalled(l, l.hmac, broken, was, d2, needed);
      if !ok { return; }
      ok := EnsureInstalled(l, l.aboot, broken, was, d3, needed);
    }

    /** The second half: the keys of the entry, on top of those it came with. */
    method SetKeys(prefix: string, l: Layout, uki: bool)
      requires uki == UsesUki(config, l)
      modifies this`config
      ensures config == NextConfig(prefix, old(config), l)
    {
      if !uki {
        config := config.(linux := Some(prefix + l.PathOf(l.kernel)));
        if l.initramfs.Some? {
          config := config.(initrd := Some(prefix + l.PathOf(l.initramfs.value)));
        } else {
          config := config.(init := Some(l.init));
        }
        if l.aboot.Some? {
          config := config.(aboot := Some("/" + l.PathOf(l.aboot.value)));
          config := config.(abootcfg := Some(l.abootCfg));
        }
      }
      if !uki && l.devicetree.Some? && l.devicetree.value.Single? {
        config := config.(devicetree := Some(prefix + l.PathOf(l.devicetree.value.file)));
      } else if !uki && l.devicetree.Some? {
        config := config.(fdtdir := Some(prefix + l.PathOf(l.devicetree.value.file)));
      }
      if uki {
        config := config.(uki := Some(prefix + l.PathOf(l.uki.value)));
      }
    }

    /** `install_deployment_kernel`: both halves, or an error that leaves the entry as it was. */
    method InstallDeploymentKernel(prefix: string, l: Layout, broken: set<string>) returns (ok: bool)
      modifies this
      ensures ok ==> Now() == Next(prefix, old(Now()), l)
      ensures !ok ==> config == old(config) && FailedAt(old(files), l, Needed(config, l), broken, files)
    {
      var uki := l.uki.Some? && config.linux.None?;
      ok := InstallFiles(l, uki, broken);
      if !ok { return; }
      SetKeys(prefix, l, uki);
    }
  }

  /** The files before the k-th are there, the k-th is missing and cannot be written. */
  predicate StopsAt(was: map<string, string>, l: Layout, needed: seq<Named>, broken: set<string>,
                    found: map<string, string>, k: nat)
  {
    && k < |needed| && found == Filled(was, l, needed[..k])
    && l.PathOf(needed[k]) !in found && l.PathOf(needed[k]) in broken
  }

  ghost predicate FailedAt(was: map<string, string>, l: Layout, needed: seq<Named>, broken: set<string>,
                           found: map<string, string>)
  {
    exists k :: StopsAt(was, l, needed, broken, found, k)
  }

  lemma StoppedAt(was: map<string, string>, l: Layout, done: seq<Named>, f: Named, needed: seq<Named>,
                  broken: set<string>, found: map<string, string>)
    requires done + [f] <= needed && found == Filled(was, l, done)
    requires l.PathOf(f) !in found && l.PathOf(f) in broken
    ensures FailedAt(was, l, needed, broken, found)
  {
    assert needed[..|done|] == done && needed[|done|] == (done + [f])[|done|];
    assert StopsAt(was, l, needed, broken, found, |done|);
  }

  /** Installing removes and changes no file, and afterwards the needed ones are there. */
  lemma {:induction false} FilledHas(files: map<string, string>, l: Layout, needed: seq<Named>, p: string)
    ensures p in files ==> p in Filled(files, l, needed) && Filled(files, l, needed)[p] == files[p]
    ensures (exists f :: f in needed && l.PathOf(f) == p) ==> p in Filled(files, l, needed)
  {
    if needed != [] {
      FilledHas(files, l, needed[..|needed| - 1], p);
      assert needed == needed[..|needed| - 1] + [needed[|needed| - 1]];
    }
  }

  // ----- What an install comes to, in paths and contents -----

  /** The files an install makes sure of: the unified image alone, or all the others the tree ships. */
  lemma NeededIff(c: Config, l: Layout, f: Named)
    ensures l.uki.Some? && c.linux.None? ==> (f in Needed(c, l) <==> l.uki == Some(f))
    ensures l.uki.None? || c.linux.Some? ==>
              (f in Needed(c, l) <==>
               || f == l.kernel || l.initramfs == Some(f) || l.hmac == Some(f) || l.aboot == Some(f)
               || l.devicetree == Some(Single(f)) || l.devicetree == Some(Directory(f)))
  {
    var needed := Needed(c, l);
    if l.uki.None? || c.linux.Some? {
      var parts := [[l.kernel], Listed(l.initramfs), Listed(TreeFile(l.devicetree)), Listed(l.hmac), Listed(l.aboot)];
      assert needed == parts[0] + parts[1] + parts[2] + parts[3] + parts[4];
      assert f in needed <==> f in parts[0] || f in parts[1] || f in parts[2] || f in parts[3] || f in parts[4];
    }
  }

  lemma {:induction false} FilledFrom(files: map<string, string>, l: Layout, needed: seq<Named>, path: string)
    requires path !in files && path in Filled(files, l, needed)
    ensures exists g :: g in needed && l.PathOf(g) == path && Filled(files, l, needed)[path] == g.content
  {
    var n := |needed| - 1;
    if path in Filled(files, l, needed[..n]) {
      FilledFrom(files, l, needed[..n], path);
    } else {
      assert needed[n] in needed;
    }
  }

  lemma SamePathSameName(l: Layout, f: Named, g: Named)
    requires l.PathOf(f) == l.PathOf(g)
    ensures f.namever == g.namever
  {
    assert l.PathOf(f)[|l.dir| + 1..] == f.namever;
    assert l.PathOf(g)[|l.dir| + 1..] == g.namever;
  }

  /** A file goes to the tree's own directory under its versioned name, with its own content unless one is there. */
  lemma FilledHolds(files: map<string, string>, l: Layout, needed: seq<Named>, f: Named)
    requires f in needed && forall g :: g in needed && g.namever == f.namever ==> g.content == f.content
    requires l.dir + "/" + f.namever !in files
    ensures l.dir + "/" + f.namever in Filled(files, l, needed)
    ensures Filled(files, l, needed)[l.dir + "/" + f.namever] == f.content
  {
    var path := l.dir + "/" + f.namever;
    assert path == l.PathOf(f);
    FilledHas(files, l, needed, path);
    FilledFrom(files, l, needed, path);
    var g :| g in needed && l.PathOf(g) == path && Filled(files, l, needed)[path] == g.content;
    SamePathSameName(l, f, g);
  }

  /** The keys after an install through `linux`. */
  lemma LinuxKeys(prefix: string, b: Boot, l: Layout)
    requires l.uki.None? || b.config.linux.Some?
    ensures var c := Next(prefix, b, l).config;
            && c.linux == Some(prefix + l.dir + "/" + l.kernel.namever) && c.uki == b.config.uki
            && (if l.initramfs.Some? then c.initrd == Some(prefix + l.dir + "/" + l.initramfs.value.namever)
                else c.initrd == b.config.initrd)
            && (if l.initramfs.Some? then c.init == b.config.init else c.init == Some(l.init))
            && (if l.aboot.Some? then c.aboot == Some("/" + l.dir + "/" + l.aboot.value.namever)
                else c.aboot == b.config.aboot)
            && (if l.aboot.Some? then c.abootcfg == Some(l.abootCfg) else c.abootcfg == b.config.abootcfg)
    ensures var c := Next(prefix, b, l).config;
            match l.devicetree
            case None => c.devicetree == b.config.devicetree && c.fdtdir == b.config.fdtdir
            case Some(Single(f)) =>
              c.devicetree == Some(prefix + l.dir + "/" + f.namever) && c.fdtdir == b.config.fdtdir
            case Some(Directory(f)) =>
              c.fdtdir == Some(prefix + l.dir + "/" + f.namever) && c.devicetree == b.config.devicetree
  {
    PathsJoin(prefix, l);
  }

  lemma PathsJoin(prefix: string, l: Layout)
    ensures forall f: Named {:trigger l.PathOf(f)} :: prefix + l.PathOf(f) == prefix + l.dir + "/" + f.namever
    ensures forall f: Named {:trigger l.PathOf(f)} :: "/" + l.PathOf(f) == "/" + l.dir + "/" + f.namever
  {
    forall f: Named
      ensures prefix + l.PathOf(f) == prefix + l.dir + "/" + f.namever
      ensures "/" + l.PathOf(f) == "/" + l.dir + "/" + f.namever
    {
    }
  }

  /** And after one through the unified image: that key alone. */
  lemma UkiKeys(prefix: string, b: Boot, l: Layout)
    requires l.uki.Some? && b.config.linux.None?
    ensures Next(prefix, b, l).config ==
            b.config.(uki := Some(prefix + l.dir + "/" + l.uki.value.namever))
  {
    PathsJoin(prefix, l);
  }

  /**
    Along every chain the last tree boots its own kernel: the `linux` key names the tree's own
    path, and where nothing was at that path before, the tree's own kernel is there.
   */
  lemma ChainBootsOwnKernel(prefix: string, b: Boot, ls: seq<Layout>)
    requires ls != [] && (b.config.linux.Some? || ls[|ls| - 1].uki.None?)
    ensures var last, after := ls[|ls| - 1], Chain(prefix, b, ls);
            var path := last.dir + "/" + last.kernel.namever;
            && after.config.linux == Some(prefix + path) && path in after.files
            && (path !in Chain(prefix, b, ls[..|ls| - 1]).files && OwnName(last, last.kernel) ==>
                  after.files[path] == last.kernel.content)
  {
    var before, last := Chain(prefix, b, ls[..|ls| - 1]), ls[|ls| - 1];
    LinuxOfChain(prefix, b, ls[..|ls| - 1]);
    LinuxKeys(prefix, before, last);
    var path := last.dir + "/" + last.kernel.namever;
    assert prefix + path == prefix + last.dir + "/" + last.kernel.namever;
    var needed := Needed(before.config, last);
    NeededIff(before.config, last, last.kernel);
    assert path == last.PathOf(last.kernel);
    FilledHas(before.files, last, needed, path);
    if path !in before.files && OwnName(last, last.kernel) {
      forall g | g in needed && g.namever == last.kernel.namever ensures g.content == last.kernel.content {
        NeededIff(before.config, last, g);
      }
      FilledHolds(before.files, last, needed, last.kernel);
    }
  }

  /** No other file of the tree has the versioned name of this one with another content. */
  predicate OwnName(l: Layout, f: Named) {
    && (l.kernel.namever == f.namever ==> l.kernel.content == f.content)
    && OwnNameOf(l.initramfs, f) && OwnNameOf(l.hmac, f) && OwnNameOf(l.aboot, f)
    && OwnNameOf(TreeFile(l.devicetree), f)
  }

  predicate OwnNameOf(g: Option<Named>, f: Named) {
    g.Some? && g.value.namever == f.namever ==> g.value.content == f.content
  }

  // ----- Along a chain of deployments -----

  /** Each deployment's entry starts from that of the one before. */
  function Chain(prefix: string, b: Boot, ls: seq<Layout>): Boot {
    if ls == [] then b
    else Next(prefix, Chain(prefix, b, ls[..|ls| - 1]), ls[|ls| - 1])
  }

  /** Some tree ships no unified image, or the entry began with a `linux` key. */
  predicate ThroughLinux(c: Config, ls: seq<Layout>) {
    c.linux.Some? || exists i :: 0 <= i < |ls| && ls[i].uki.None?
  }

  lemma ThroughLinuxEarlier(c: Config, ls: seq<Layout>)
    requires ls != []
    ensures ThroughLinux(c, ls) <==> ls[|ls| - 1].uki.None? || ThroughLinux(c, ls[..|ls| - 1])
  {
    var n := |ls| - 1;
    if i :| 0 <= i < n && ls[..n][i].uki.None? {
      assert ls[i].uki.None?;
    }
    if i :| 0 <= i < n && ls[i].uki.None? {
      assert ls[..n][i].uki.None?;
    }
  }

  /**
    From any entry: a `linux` key as soon as it had one or one tree ships no unified image, and
    then for good, whatever the trees ship; until then each tree boots through its unified image.
   */
  lemma {:induction false} LinuxOfChain(prefix: string, b: Boot, ls: seq<Layout>)
    ensures Chain(prefix, b, ls).config.linux.Some? <==> ThroughLinux(b.config, ls)
    ensures ls != [] ==>
              var c, last := Chain(prefix, b, ls).config, ls[|ls| - 1];
              if ThroughLinux(b.config, ls) then c.linux == Some(prefix + last.PathOf(last.kernel))
              else last.uki.Some? && c.uki == Some(prefix + last.PathOf(last.uki.value))
  {
    if ls != [] {
      LinuxOfChain(prefix, b, ls[..|ls| - 1]);
      ThroughLinuxEarlier(b.config, ls);
    }
  }

  datatype Key = LinuxKey | InitrdKey | AbootKey | AbootCfgKey | DeviceTreeKey | FdtDirKey | InitArgument | UkiKey

  function Get(c: Config, key: Key): Option<string> {
    match key
    case LinuxKey => c.linux
    case InitrdKey => c.initrd
    case AbootKey => c.aboot
    case AbootCfgKey => c.abootcfg
    case DeviceTreeKey => c.devicetree
    case FdtDirKey => c.fdtdir
    case InitArgument => c.init
    case UkiKey => c.uki
  }

  /** What a tree has to say about a key, if it boots through `linux` or through its unified image. */
  function Offers(prefix: string, l: Layout, throughLinux: bool, key: Key): Option<string> {
    match key
    case UkiKey => if throughLinux then None else Set(prefix, l, l.uki, None)
    case LinuxKey => if throughLinux then Some(prefix + l.PathOf(l.kernel)) else None
    case InitrdKey => if throughLinux then Set(prefix, l, l.initramfs, None) else None
    case AbootKey => if throughLinux then Set("/", l, l.aboot, None) else None
    case AbootCfgKey => if throughLinux && l.aboot.Some? then Some(l.abootCfg) else None
    case DeviceTreeKey => if throughLinux then Set(prefix, l, SingleTree(l), None) else None
    case FdtDirKey => if throughLinux then Set(prefix, l, TreeDirectory(l), None) else None
    case InitArgument => if throughLinux && l.initramfs.None? then Some(l.init) else None
  }

  /** What the tree at `j` of a chain sets a key to. */
  function SetAt(prefix: string, c: Config, ls: seq<Layout>, j: nat, key: Key): Option<string> {
    if j < |ls| then Offers(prefix, ls[j], ThroughLinux(c, ls[..j + 1]), key) else None
  }

  lemma NextGets(prefix: string, b: Boot, l: Layout, key: Key)
    ensures var c := Next(prefix, b, l).config;
            var offered := Offers(prefix, l, c.linux.Some?, key);
            Get(c, key) == if offered.Some? then offered else Get(b.config, key)
  {
  }

  lemma SetAtEarlier(prefix: string, c: Config, ls: seq<Layout>, n: nat, j: nat, key: Key)
    requires j < n <= |ls|
    ensures SetAt(prefix, c, ls[..n], j, key) == SetAt(prefix, c, ls, j, key)
  {
    assert ls[..n][..j + 1] == ls[..j + 1];
  }

  lemma ChainGets(prefix: string, b: Boot, ls: seq<Layout>, key: Key)
    requires ls != []
    ensures var offered := SetAt(prefix, b.config, ls, |ls| - 1, key);
            Get(Chain(prefix, b, ls).config, key)
            == if offered.Some? then offered else Get(Chain(prefix, b, ls[..|ls| - 1]).config, key)
  {
    LinuxOfChain(prefix, b, ls);
    NextGets(prefix, Chain(prefix, b, ls[..|ls| - 1]), ls[|ls| - 1], key);
    assert ls[..|ls| - 1 + 1] == ls;
  }

  /** The tree at `j` is the last to set the key. */
  ghost predicate SetsLast(prefix: string, c: Config, ls: seq<Layout>, j: nat, key: Key) {
    && SetAt(prefix, c, ls, j, key).Some?
    && forall k {:trigger SetAt(prefix, c, ls, k, key)} :: j < k < |ls| ==> SetAt(prefix, c, ls, k, key).None?
  }

  ghost predicate NoneSets(prefix: string, c: Config, ls: seq<Layout>, key: Key) {
    forall k {:trigger SetAt(prefix, c, ls, k, key)} :: 0 <= k < |ls| ==> SetAt(prefix, c, ls, k, key).None?
  }

  /**
    Along every chain, from any entry, each key holds what the last tree to set it said, however
    many trees without a say came after.
   */
  lemma {:induction false} KeyIsLastSet(prefix: string, b: Boot, ls: seq<Layout>, j: nat, key: Key)
    requires SetsLast(prefix, b.config, ls, j, key)
    ensures Get(Chain(prefix, b, ls).config, key) == SetAt(prefix, b.config, ls, j, key)
  {
    var n := |ls| - 1;
    ChainGets(prefix, b, ls, key);
    if j < n {
      SetAtEarlier(prefix, b.config, ls, n, j, key);
      forall k: nat | j < k < n ensures SetAt(prefix, b.config, ls[..n], k, key).None? {
        SetAtEarlier(prefix, b.config, ls, n, k, key);
      }
      KeyIsLastSet(prefix, b, ls[..n], j, key);
    }
  }

  /** And where no tree sets it, what the entry began with. */
  lemma {:induction false} KeyIsInherited(prefix: string, b: Boot, ls: seq<Layout>, key: Key)
    requires NoneSets(prefix, b.config, ls, key)
    ensures Get(Chain(prefix, b, ls).config, key) == Get(b.config, key)
  {
    if ls != [] {
      var n := |ls| - 1;
      ChainGets(prefix, b, ls, key);
      forall k: nat | k < n ensures SetAt(prefix, b.config, ls[..n], k, key).None? {
        SetAtEarlier(prefix, b.config, ls, n, k, key);
      }
      KeyIsInherited(prefix, b, ls[..n], key);
    }
  }

  lemma {:induction false} LastOf(prefix: string, c: Config, ls: seq<Layout>, i: nat, key: Key) returns (j: nat)
    requires SetAt(prefix, c, ls, i, key).Some?
    ensures SetsLast(prefix, c, ls, j, key)
    decreases |ls| - i
  {
    j := i;
    if k: nat :| i < k < |ls| && SetAt(prefix, c, ls, k, key).Some? {
      j := LastOf(prefix, c, ls, k, key);
    }
  }

  /**
    A key is there at the end exactly when the entry began with it or some tree set it, whether
    or not the last tree did.
   */
  lemma KeyIsThereIff(prefix: string, b: Boot, ls: seq<Layout>, key: Key)
    ensures Get(Chain(prefix, b, ls).config, key).Some? <==>
            Get(b.config, key).Some? || !NoneSets(prefix, b.config, ls, key)
  {
    if NoneSets(prefix, b.config, ls, key) {
      KeyIsInherited(prefix, b, ls, key);
    } else {
      var i: nat :| i < |ls| && SetAt(prefix, b.config, ls, i, key).Some?;
      var j := LastOf(prefix, b.config, ls, i, key);
      KeyIsLastSet(prefix, b, ls, j, key);
    }
  }

  /** Once an entry has a `linux` key every later one boots through it, and a `uki` key it had stays as it was. */
  lemma {:induction false} OnceLinuxAlwaysLinux(prefix: string, b: Boot, ls: seq<Layout>)
    requires b.config.linux.Some? && ls != []
    ensures var last := ls[|ls| - 1];
            Chain(prefix, b, ls).config.linux == Some(prefix + last.PathOf(last.kernel))
    ensures Chain(prefix, b, ls).config.uki == b.config.uki
  {
    LinuxOfChain(prefix, b, ls);
    KeyIsInherited(prefix, b, ls, UkiKey);
  }

  /**
    Both ways to boot in one entry, the second stale: exactly when it had a `uki` key, or had no
    `linux` key and the first tree ships a unified image, and `linux` was there or some tree ships none.
   */
  lemma BothBootKeysIff(prefix: string, b: Boot, ls: seq<Layout>)
    ensures var c := Chain(prefix, b, ls).config;
            c.linux.Some? && c.uki.Some? <==>
            ThroughLinux(b.config, ls) &&
            (b.config.uki.Some? || (b.config.linux.None? && ls != [] && ls[0].uki.Some?))
  {
    LinuxOfChain(prefix, b, ls);
    KeyIsThereIff(prefix, b, ls, UkiKey);
    if b.config.linux.None? && ls != [] && ls[0].uki.Some? {
      assert SetAt(prefix, b.config, ls, 0, UkiKey).Some?;
    }
    if !NoneSets(prefix, b.config, ls, UkiKey) {
      var k: nat :| k < |ls| && SetAt(prefix, b.config, ls, k, UkiKey).Some?;
      assert ls[..k + 1][0] == ls[0];
    }
  }

  /** A chain that moves between a single device tree and a directory of them ends with both keys. */
  lemma BothTreeKeys(prefix: string, b: Boot, ls: seq<Layout>, i: nat, j: nat)
    requires i < |ls| && j < |ls| && b.config.linux.Some?
    requires ls[i].devicetree.Some? && ls[i].devicetree.value.Single?
    requires ls[j].devicetree.Some? && ls[j].devicetree.value.Directory?
    ensures var c := Chain(prefix, b, ls).config; c.devicetree.Some? && c.fdtdir.Some?
  {
    assert SetAt(prefix, b.config, ls, i, DeviceTreeKey).Some?;
    assert SetAt(prefix, b.config, ls, j, FdtDirKey).Some?;
    KeyIsThereIff(prefix, b, ls, DeviceTreeKey);
    KeyIsThereIff(prefix, b, ls, FdtDirKey);
  }

  /** Writing the entries again, as every later deployment does, changes nothing. */
  lemma InstallTwice(prefix: string, b: Boot, l: Layout)
    ensures Next(prefix, Next(prefix, b, l), l) == Next(prefix, b, l)
  {
    var needed := Needed(b.config, l);
    forall f | f in needed ensures l.PathOf(f) in Filled(b.files, l, needed) {
      FilledHas(b.files, l, needed, l.PathOf(f));
    }
    AllThere(Filled(b.files, l, needed), l, needed);
  }

  lemma {:induction false} AllThere(files: map<string, string>, l: Layout, needed: seq<Named>)
    requires forall f :: f in needed ==> l.PathOf(f) in files
    ensures Filled(files, l, needed) == files
  {
    if needed != [] {
      AllThere(files, l, needed[..|needed| - 1]);
    }
  }

  /** A key, where set, is the prefix and the path of a file in /boot. */
  predicate Names(prefix: string, key: Option<string>, files: map<string, string>) {
    key.Some? ==> prefix <= key.value && key.value[|prefix|..] in files
  }

  /** Every path in the entry names a file in /boot. */
  predicate PathsPresent(prefix: string, b: Boot) {
    && Names(prefix, b.config.linux, b.files) && Names(prefix, b.config.initrd, b.files)
    && Names(prefix, b.config.uki, b.files) && Names("/", b.config.aboot, b.files)
    && Names(prefix, b.config.devicetree, b.files) && Names(prefix, b.config.fdtdir, b.files)
  }

  lemma SetNamesFile(prefix: string, files: map<string, string>, l: Layout, needed: seq<Named>, f: Option<Named>,
                     inherited: Option<string>)
    requires Names(prefix, inherited, files) && (f.Some? ==> f.value in needed)
    ensures Names(prefix, Set(prefix, l, f, inherited), Filled(files, l, needed))
  {
    if f.Some? {
      FilledHas(files, l, needed, l.PathOf(f.value));
      assert (prefix + l.PathOf(f.value))[|prefix|..] == l.PathOf(f.value);
    } else if inherited.Some? {
      FilledHas(files, l, needed, inherited.value[|prefix|..]);
    }
  }

  lemma InstallKeepsPaths(prefix: string, b: Boot, l: Layout)
    requires PathsPresent(prefix, b)
    ensures PathsPresent(prefix, Next(prefix, b, l))
  {
    var needed, uki := Needed(b.config, l), UsesUki(b.config, l);
    var c := b.config;
    SetNamesFile(prefix, b.files, l, needed, if uki then None else Some(l.kernel), c.linux);
    SetNamesFile(prefix, b.files, l, needed, if uki then None else l.initramfs, c.initrd);
    SetNamesFile("/", b.files, l, needed, if uki then None else l.aboot, c.aboot);
    SetNamesFile(prefix, b.files, l, needed, if uki then None else SingleTree(l), c.devicetree);
    SetNamesFile(prefix, b.files, l, needed, if uki then None else TreeDirectory(l), c.fdtdir);
    SetNamesFile(prefix, b.files, l, needed, if uki then l.uki else None, c.uki);
  }

  /** Along every chain the entry never points to a missing file, stale keys included. */
  lemma {:induction false} ChainKeepsPaths(prefix: string, b: Boot, ls: seq<Layout>)
    requires PathsPresent(prefix, b)
    ensures PathsPresent(prefix, Chain(prefix, b, ls))
  {
    if ls != [] {
      ChainKeepsPaths(prefix, b, ls[..|ls| - 1]);
      InstallKeepsPaths(prefix, Chain(prefix, b, ls[..|ls| - 1]), ls[|ls| - 1]);
    }
  }
}
