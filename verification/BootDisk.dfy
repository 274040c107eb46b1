/**
  The boot partition as libostree sees it, the primitive operations on it, and
  what a power cut can leave of operations that were not yet flushed.
 */
module BootDisk {
  import opened Options

  datatype Version = V0 | V1 {
    function Other(): Version {
      if V0? then V1 else V0
    }
  }

  function SlotName(v: Version): string {
    if v.V0? then "loader.0" else "loader.1"
  }

  function ParseVersion(s: string): Option<Version> {
    if s == "loader.0" then Some(V0) else if s == "loader.1" then Some(V1) else None
  }

  /** A loader directory: `ostree_bootversion`, `loader.conf` and the files under `entries`. */
  datatype Tree = Tree(tag: Option<string>, conf: Option<string>, entries: map<string, string>)

  datatype File = TagFile | ConfFile | EntryFile(name: string)

  function PutFile(t: Tree, f: File, text: string): Tree {
    match f
    case TagFile => t.(tag := Some(text))
    case ConfFile => t.(conf := Some(text))
    case EntryFile(name) => t.(entries := t.entries[name := text])
  }

  function RemoveFile(t: Tree, f: File): Tree {
    match f
    case TagFile => t.(tag := None)
    case ConfFile => t.(conf := None)
    case EntryFile(name) => t.(entries := t.entries - {name})
  }

  /** What sits at `boot/loader`; `Special` is anything that is neither a link nor a directory. */
  datatype Node = Absent | Link(target: string) | Directory(tree: Tree) | Special

  /**
    `loader`, `loader.0`, `loader.1`, the link `loader.tmp`, whether `boot/boot` exists, and the
    kernels, initramfs and other boot files by path.
   */
  datatype Boot = Boot(
    loader: Node, slot0: Option<Tree>, slot1: Option<Tree>, tmp: Option<string>, selfLink: bool,
    files: map<string, string>)
  {
    function Slot(v: Version): Option<Tree> {
      if v.V0? then slot0 else slot1
    }

    function WithSlot(v: Version, t: Option<Tree>): Boot {
      if v.V0? then this.(slot0 := t) else this.(slot1 := t)
    }
  }

  predicate PointsAt(loader: Node, v: Version) {
    loader.Link? && ParseVersion(loader.target) == Some(v)
  }

  /** The directory the firmware or boot loader reads: `loader`, through the link if it is one. */
  function LiveTree(b: Boot): Option<Tree> {
    match b.loader
    case Absent => None
    case Special => None
    case Directory(t) => Some(t)
    case Link(target) =>
      var v := ParseVersion(target);
      if v.Some? then b.Slot(v.value) else None
  }

  function LiveConf(b: Boot): Option<string> {
    var t := LiveTree(b);
    if t.Some? then t.value.conf else None
  }

  function EntriesIn(t: Option<Tree>): map<string, string> {
    if t.Some? then t.value.entries else map[]
  }

  /** The boot version in force; None stands for the error returned on an unknown name. */
  function CurrentVersion(b: Boot): Option<Version> {
    match b.loader
    case Absent => Some(V0)
    case Special => Some(V0)
    case Link(target) => ParseVersion(target)
    case Directory(t) => if t.tag.None? then Some(V0) else ParseVersion(t.tag.value)
  }

  /**
    Read off the names: version 1 exactly for a link to `loader.1` or a directory tagged so, an
    error exactly for a link or a tag with a third name, version 0 in all other cases, a missing
    `loader` and a missing tag among them.
   */
  lemma VersionByName(b: Boot)
    ensures CurrentVersion(b) == Some(V1) <==>
            b.loader == Link("loader.1") || (b.loader.Directory? && b.loader.tree.tag == Some("loader.1"))
    ensures CurrentVersion(b) == None <==>
            || (b.loader.Link? && b.loader.target != "loader.0" && b.loader.target != "loader.1")
            || (b.loader.Directory? && b.loader.tree.tag.Some?
                && b.loader.tree.tag.value != "loader.0" && b.loader.tree.tag.value != "loader.1")
    ensures b.loader.Absent? || b.loader.Special? ==> CurrentVersion(b) == Some(V0)
  {
  }

  /** Which directory the reading of a version goes to. */
  lemma ReadsByName(b: Boot, t0: Tree, t1: Tree)
    requires b.slot0 == Some(t0) && b.slot1 == Some(t1)
    ensures b.loader == Link("loader.0") ==>
              ReadConfigs(b, V0) == Some(t0.entries) && ReadConfigs(b, V1) == Some(t1.entries) && LiveConf(b) == t0.conf
    ensures b.loader == Link("loader.1") ==>
              ReadConfigs(b, V0) == Some(t0.entries) && ReadConfigs(b, V1) == Some(t1.entries) && LiveConf(b) == t1.conf
    ensures b.loader.Directory? && b.loader.tree.tag == Some("loader.0") ==>
              ReadConfigs(b, V0) == Some(b.loader.tree.entries) && ReadConfigs(b, V1) == Some(t1.entries)
    ensures b.loader.Directory? && b.loader.tree.tag == Some("loader.1") ==>
              ReadConfigs(b, V0) == Some(t0.entries) && ReadConfigs(b, V1) == Some(b.loader.tree.entries)
    ensures b.loader.Directory? ==> LiveConf(b) == b.loader.tree.conf
  {
  }

  /** The entries of one boot version: `loader/entries` for the current one, `loader.N/entries` otherwise. */
  function ReadConfigs(b: Boot, v: Version): Option<map<string, string>> {
    var current := CurrentVersion(b);
    if current.None? then None
    else if current.value == v then Some(EntriesIn(LiveTree(b)))
    else Some(EntriesIn(b.Slot(v)))
  }

  datatype Op =
    | Install(path: string, content: string)
    | MkDir(v: Version)
    | Put(v: Version, file: File, text: string)
    | Unlink(v: Version, file: File)
    | RmDir(v: Version)
    | Rename(src: Version, dst: Version)
    | MkSelf
    | PutTmp(target: string)
    | MoveTmp
    | Exchange(v: Version)

  /** The effect of one operation; one whose subject is missing has none. */
  function Apply(b: Boot, op: Op): Boot {
    match op
    case Install(path, content) => if path in b.files then b else b.(files := b.files[path := content])
    case MkDir(v) => if b.Slot(v).None? then b.WithSlot(v, Some(Tree(None, None, map[]))) else b
    case Put(v, f, text) => if b.Slot(v).Some? then b.WithSlot(v, Some(PutFile(b.Slot(v).value, f, text))) else b
    case Unlink(v, f) => if b.Slot(v).Some? then b.WithSlot(v, Some(RemoveFile(b.Slot(v).value, f))) else b
    case RmDir(v) => b.WithSlot(v, None)
    case Rename(src, dst) =>
      if src != dst && b.Slot(src).Some? then b.WithSlot(dst, b.Slot(src)).WithSlot(src, None) else b
    case MkSelf => b.(selfLink := true)
    case PutTmp(target) => b.(tmp := Some(target))
    case MoveTmp => if b.tmp.Some? then b.(loader := Link(b.tmp.value), tmp := None) else b
    case Exchange(v) =>
      if b.Slot(v).Some? && b.loader.Directory?
      then b.(loader := Directory(b.Slot(v).value)).WithSlot(v, Some(b.loader.tree))
      else b
  }

  /** What has reached the disk, and the operations issued since the last flush. */
  datatype Disk = Disk(durable: Boot, pending: seq<Op>)

  function ApplyAll(b: Boot, ops: seq<Op>): Boot {
    if ops == [] then b else Apply(ApplyAll(b, ops[..|ops| - 1]), ops[|ops| - 1])
  }

  /** The partition found after a power cut that kept exactly the marked operations. */
  function ApplyKept(b: Boot, ops: seq<Op>, kept: seq<bool>): Boot
    requires |kept| == |ops|
  {
    if ops == [] then b
    else
      var n := |ops| - 1;
      var rest := ApplyKept(b, ops[..n], kept[..n]);
      if kept[n] then Apply(rest, ops[n]) else rest
  }

  lemma Snoc(b: Boot, ops: seq<Op>, op: Op, kept: seq<bool>, k: bool)
    requires |kept| == |ops|
    ensures ApplyAll(b, ops + [op]) == Apply(ApplyAll(b, ops), op)
    ensures var rest := ApplyKept(b, ops, kept);
            ApplyKept(b, ops + [op], kept + [k]) == if k then Apply(rest, op) else rest
  {
    assert (ops + [op])[..|ops|] == ops && (kept + [k])[..|ops|] == kept;
  }

  /** Nothing about the live configuration differs. */
  predicate SameLive(a: Boot, b: Boot) {
    a.loader == b.loader && LiveTree(a) == LiveTree(b)
  }

  /** An operation that leaves `loader` alone, and the directory a `loader` link points at. */
  predicate Quiet(loader: Node, op: Op) {
    match op
    case Install(_, _) => true
    case MkDir(v) => !PointsAt(loader, v)
    case Put(v, _, _) => !PointsAt(loader, v)
    case Unlink(v, _) => !PointsAt(loader, v)
    case RmDir(v) => !PointsAt(loader, v)
    case Rename(src, dst) => !PointsAt(loader, src) && !PointsAt(loader, dst)
    case MkSelf => true
    case PutTmp(_) => true
    case MoveTmp => false
    case Exchange(_) => false
  }

  /** An exchange of directories that was not flushed, where there is one before all else. */
  function Base(d: Disk): seq<Op> {
    if d.durable.loader.Directory? && d.pending != [] && d.pending[0].Exchange? then [d.pending[0]] else []
  }

  function Rest(d: Disk): seq<Op> {
    d.pending[|Base(d)|..]
  }

  ghost predicate AllQuiet(d: Disk) {
    forall op :: op in Rest(d) ==> Quiet(d.durable.loader, op)
  }

  lemma {:induction false} QuietKept(b: Boot, ops: seq<Op>, kept: seq<bool>)
    requires |kept| == |ops|
    requires forall op :: op in ops ==> Quiet(b.loader, op)
    ensures SameLive(b, ApplyKept(b, ops, kept))
  {
    if ops != [] {
      QuietKept(b, ops[..|ops| - 1], kept[..|ops| - 1]);
      assert ops[|ops| - 1] in ops;
    }
  }

  lemma {:induction false} QuietAll(b: Boot, ops: seq<Op>)
    requires forall op :: op in ops ==> Quiet(b.loader, op)
    ensures SameLive(b, ApplyAll(b, ops))
  {
    if ops != [] {
      QuietAll(b, ops[..|ops| - 1]);
      assert ops[|ops| - 1] in ops;
    }
  }

  // ----- On top of an exchange that was not flushed -----

  lemma {:induction false} ApplyAllAppends(b: Boot, ops: seq<Op>, more: seq<Op>)
    ensures ApplyAll(b, ops + more) == ApplyAll(ApplyAll(b, ops), more)
  {
    if more == [] {
      assert ops + more == ops;
    } else {
      assert (ops + more)[..|ops + more| - 1] == ops + more[..|more| - 1];
      ApplyAllAppends(b, ops, more[..|more| - 1]);
    }
  }

  lemma {:induction false} ApplyKeptAppends(b: Boot, ops: seq<Op>, more: seq<Op>, kept: seq<bool>, keptMore: seq<bool>)
    requires |kept| == |ops| && |keptMore| == |more|
    ensures ApplyKept(b, ops + more, kept + keptMore) == ApplyKept(ApplyKept(b, ops, kept), more, keptMore)
  {
    if more == [] {
      assert ops + more == ops && kept + keptMore == kept;
    } else {
      var n := |more| - 1;
      assert (ops + more)[..|ops + more| - 1] == ops + more[..n];
      assert (kept + keptMore)[..|ops + more| - 1] == kept + keptMore[..n];
      ApplyKeptAppends(b, ops, more[..n], kept, keptMore[..n]);
    }
  }

  /** The same operations are quiet for every directory, so for the one before and the one after an exchange. */
  lemma QuietSameKind(a: Node, b: Node, op: Op)
    requires a == b || (a.Directory? && b.Directory?)
    ensures Quiet(a, op) == Quiet(b, op)
  {
  }

  lemma BaseKeepsKind(d: Disk)
    ensures ApplyAll(d.durable, Base(d)).loader == d.durable.loader
         || (ApplyAll(d.durable, Base(d)).loader.Directory? && d.durable.loader.Directory?)
    ensures Base(d) + Rest(d) == d.pending
  {
    if Base(d) != [] {
      assert Base(d)[..0] == [];
    }
  }

  /** What running programs see is live as after the exchange alone. */
  lemma QuietOnBase(d: Disk)
    requires AllQuiet(d)
    ensures SameLive(ApplyAll(d.durable, Base(d)), ApplyAll(d.durable, d.pending))
  {
    var start := ApplyAll(d.durable, Base(d));
    BaseKeepsKind(d);
    ApplyAllAppends(d.durable, Base(d), Rest(d));
    forall op | op in Rest(d) ensures Quiet(start.loader, op) {
      QuietSameKind(d.durable.loader, start.loader, op);
    }
    QuietAll(start, Rest(d));
  }

  /** A cut finds what was live before the exchange or after it. */
  lemma CutOnBase(d: Disk, kept: seq<bool>)
    requires AllQuiet(d) && |kept| == |d.pending|
    ensures var found := ApplyKept(d.durable, d.pending, kept);
            SameLive(d.durable, found) || SameLive(ApplyAll(d.durable, Base(d)), found)
  {
    var base := Base(d);
    var first, second := kept[..|base|], kept[|base|..];
    BaseKeepsKind(d);
    assert first + second == kept;
    ApplyKeptAppends(d.durable, base, Rest(d), first, second);
    var start := ApplyKept(d.durable, base, first);
    if base != [] {
      assert base[..0] == [] && first[..0] == [];
    }
    forall op | op in Rest(d) ensures Quiet(start.loader, op) {
      QuietSameKind(d.durable.loader, start.loader, op);
    }
    QuietKept(start, Rest(d), second);
  }

  // ----- Boot files are never removed -----

  predicate Extends(a: map<string, string>, b: map<string, string>) {
    forall p :: p in a ==> p in b && b[p] == a[p]
  }

  lemma {:induction false} KeptExtends(b: Boot, ops: seq<Op>, kept: seq<bool>)
    requires |kept| == |ops|
    ensures Extends(b.files, ApplyKept(b, ops, kept).files)
  {
    if ops != [] {
      KeptExtends(b, ops[..|ops| - 1], kept[..|ops| - 1]);
    }
  }

  lemma {:induction false} AllExtends(b: Boot, ops: seq<Op>)
    ensures Extends(b.files, ApplyAll(b, ops).files)
  {
    if ops != [] {
      AllExtends(b, ops[..|ops| - 1]);
    }
  }
}
