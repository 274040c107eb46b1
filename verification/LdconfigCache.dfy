/** The boot service that reuses the linker cache built with the image instead of rescanning. */
module LdconfigCache {
  import opened Options

  datatype Node = File(content: string, readable: bool) | Other

  /** A configuration tree: the paths the glob expands to, and what is found at paths. */
  datatype Etc = Etc(listing: seq<string>, nodes: map<string, Node>) {
    /** The glob misses nothing; it may list a missing file or its own unmatched pattern. */
    predicate Globbed() {
      forall n :: n in nodes ==> n in listing
    }

    predicate IsFile(n: string) {
      n in nodes && nodes[n].File?
    }

    predicate Readable() {
      forall n :: n in nodes && nodes[n].File? ==> nodes[n].readable
    }

    function Configs(): map<string, string> {
      map n | n in nodes && nodes[n].File? :: nodes[n].content
    }
  }

  type Hash = string -> string

  predicate FilesMatch(hash: Hash, a: Node, b: Node) {
    a.File? && b.File? && a.readable && b.readable && hash(a.content) == hash(b.content)
  }

  /** What the loops look at for one name: a file here has an equal file there. */
  predicate HasTwin(hash: Hash, here: Etc, there: Etc, n: string) {
    here.IsFile(n) ==> there.IsFile(n) && FilesMatch(hash, there.nodes[n], here.nodes[n])
  }

  ghost predicate Agree(hash: Hash, runtime: Etc, vendor: Etc) {
    && runtime.Readable() && vendor.Readable()
    && runtime.Configs().Keys == vendor.Configs().Keys
    && forall n :: n in runtime.Configs() ==> hash(runtime.Configs()[n]) == hash(vendor.Configs()[n])
  }

  /** `ldconfig_configs_match`: neither side has a file the other lacks, and all hashes agree. */
  method ConfigsMatch(hash: Hash, runtime: Etc, vendor: Etc) returns (same: bool)
    requires runtime.Globbed() && vendor.Globbed()
    ensures same <==> Agree(hash, runtime, vendor)
  {
    for i := 0 to |runtime.listing|
      invariant forall j :: 0 <= j < i ==> HasTwin(hash, runtime, vendor, runtime.listing[j])
    {
      var n := runtime.listing[i];
      if runtime.IsFile(n) {
        if !vendor.IsFile(n) || !FilesMatch(hash, vendor.nodes[n], runtime.nodes[n]) {
          NoTwinNoAgreement(hash, runtime, vendor, n);
          return false;
        }
      }
    }
    for i := 0 to |vendor.listing|
      invariant forall j :: 0 <= j < i ==> HasTwin(hash, vendor, runtime, vendor.listing[j])
    {
      var n := vendor.listing[i];
      if vendor.IsFile(n) {
        if !runtime.IsFile(n) || !FilesMatch(hash, vendor.nodes[n], runtime.nodes[n]) {
          NoTwinNoAgreement(hash, vendor, runtime, n);
          return false;
        }
      }
    }
    TwinsAgree(hash, runtime, vendor);
    return true;
  }

  lemma NoTwinNoAgreement(hash: Hash, here: Etc, there: Etc, n: string)
    requires !HasTwin(hash, here, there, n)
    ensures !Agree(hash, here, there) && !Agree(hash, there, here)
  {
    assert n in here.Configs();
  }

  lemma TwinsAgree(hash: Hash, runtime: Etc, vendor: Etc)
    requires runtime.Globbed() && vendor.Globbed()
    requires forall j :: 0 <= j < |runtime.listing| ==> HasTwin(hash, runtime, vendor, runtime.listing[j])
    requires forall j :: 0 <= j < |vendor.listing| ==> HasTwin(hash, vendor, runtime, vendor.listing[j])
    ensures Agree(hash, runtime, vendor)
  {
    forall n | n in runtime.nodes ensures HasTwin(hash, runtime, vendor, n) {
      var j :| 0 <= j < |runtime.listing| && runtime.listing[j] == n;
    }
    forall n | n in vendor.nodes ensures HasTwin(hash, vendor, runtime, n) {
      var j :| 0 <= j < |vendor.listing| && vendor.listing[j] == n;
    }
  }

  ghost predicate Injective(hash: Hash) {
    forall a, b :: hash(a) == hash(b) ==> a == b
  }

  /** The comparison never mistakes different configurations for equal ones exactly when the hash has no collision. */
  lemma HashDecidesIff(hash: Hash)
    ensures Injective(hash) <==>
            forall runtime: Etc, vendor: Etc :: Agree(hash, runtime, vendor) ==> runtime.Configs() == vendor.Configs()
  {
    if !Injective(hash) {
      var a, b :| hash(a) == hash(b) && a != b;
      var runtime := Etc(["ld.so.conf"], map["ld.so.conf" := File(a, true)]);
      var vendor := Etc(["ld.so.conf"], map["ld.so.conf" := File(b, true)]);
      assert runtime.Configs()["ld.so.conf"] != vendor.Configs()["ld.so.conf"];
      assert Agree(hash, runtime, vendor);
    }
  }

  /**
    Path by path: what is a regular file on one side is a readable one of equal content on the
    other, and the other way round.
   */
  lemma AgreeIff(hash: Hash, runtime: Etc, vendor: Etc)
    requires Injective(hash)
    ensures Agree(hash, runtime, vendor) <==> forall n :: SamePath(runtime, vendor, n)
  {
    if Agree(hash, runtime, vendor) {
      forall n ensures SamePath(runtime, vendor, n) {
        assert n in runtime.Configs() <==> n in vendor.Configs();
      }
    }
    if forall n :: SamePath(runtime, vendor, n) {
      forall n ensures n in runtime.Configs() <==> n in vendor.Configs() {
        assert SamePath(runtime, vendor, n);
      }
      assert runtime.Configs().Keys == vendor.Configs().Keys;
      forall n | n in runtime.nodes && runtime.nodes[n].File? ensures runtime.nodes[n].readable {
        assert SamePath(runtime, vendor, n);
      }
      forall n | n in vendor.nodes && vendor.nodes[n].File? ensures vendor.nodes[n].readable {
        assert SamePath(runtime, vendor, n);
      }
      forall n | n in runtime.Configs() ensures hash(runtime.Configs()[n]) == hash(vendor.Configs()[n]) {
        assert SamePath(runtime, vendor, n);
      }
    }
  }

  predicate SamePath(runtime: Etc, vendor: Etc, n: string) {
    || ((n !in runtime.nodes || runtime.nodes[n].Other?) && (n !in vendor.nodes || vendor.nodes[n].Other?))
    || (n in runtime.nodes && n in vendor.nodes && runtime.nodes[n] == vendor.nodes[n]
        && runtime.nodes[n].File? && runtime.nodes[n].readable)
  }

  // ----- The replacement -----

  datatype Cache = Cache(content: string, readable: bool)
  datatype Exit = Kept | Replaced | HandedOver

  /** Whether the commands succeed; a failing `cp` may leave part of a file. */
  datatype Tools = Tools(cp: bool, partial: Option<string>, mv: bool, restorecon: Option<bool>) {
    predicate RestoreconFails() {
      restorecon == Some(false)
    }
  }

  predicate NotEmpty(c: Option<Cache>) {
    c.Some? && c.value.content != ""
  }

  predicate CachesMatch(hash: Hash, a: Cache, b: Cache) {
    a.readable && b.readable && hash(a.content) == hash(b.content)
  }

  /** The installed libraries by path; an update brings its own. */
  type Libraries = map<string, string>

  /**
    One boot: the libraries, the cache and the configuration of the image, the live configuration,
    how the commands fare, and the cache found afterwards.
   */
  datatype Boot = Boot(
    libraries: Libraries, vendor: Option<Cache>, vendorEtc: Etc, runtimeEtc: Etc, tools: Tools, found: Option<Cache>)
  {
    ghost predicate FastPath(hash: Hash, before: Option<Cache>) {
      NotEmpty(vendor) && NotEmpty(before) && Agree(hash, runtimeEtc, vendorEtc)
    }

    ghost predicate Replaces(hash: Hash, before: Option<Cache>) {
      && FastPath(hash, before) && !CachesMatch(hash, vendor.value, before.value)
      && vendor.value.readable && tools.cp && tools.mv
    }

    /** The cache when the service exits or execs. */
    ghost function After(hash: Hash, before: Option<Cache>): Option<Cache> {
      if Replaces(hash, before) then Some(Cache(vendor.value.content, true)) else before
    }

    ghost function ExitOf(hash: Hash, before: Option<Cache>): Exit {
      if FastPath(hash, before) && CachesMatch(hash, vendor.value, before.value) then Kept
      else if Replaces(hash, before) && !tools.RestoreconFails() then Replaced
      else HandedOver
    }
  }

  /**
    When which exit is taken: kept exactly where the two caches already hold the same, replaced
    exactly where they differ and every command succeeds, and a rescan in all other cases, with a
    missing or empty cache, with different configurations, or after a failing command.
   */
  lemma ExitIff(hash: Hash, b: Boot, before: Option<Cache>)
    requires Injective(hash)
    ensures b.ExitOf(hash, before) == Kept <==>
            && b.vendor.Some? && before.Some? && b.vendor.value.content == before.value.content != ""
            && b.vendor.value.readable && before.value.readable
            && forall n :: SamePath(b.runtimeEtc, b.vendorEtc, n)
    ensures b.ExitOf(hash, before) == Replaced <==>
            && b.vendor.Some? && before.Some? && b.vendor.value.content != "" && before.value.content != ""
            && (b.vendor.value.content != before.value.content || !before.value.readable)
            && (forall n :: SamePath(b.runtimeEtc, b.vendorEtc, n))
            && b.vendor.value.readable && b.tools.cp && b.tools.mv && b.tools.restorecon != Some(false)
    ensures b.ExitOf(hash, before) == Kept ==> b.After(hash, before) == before
    ensures b.ExitOf(hash, before) == Replaced ==> b.After(hash, before) == Some(Cache(b.vendor.value.content, true))
  {
    AgreeIff(hash, b.runtimeEtc, b.vendorEtc);
  }

  class Service {
    const hash: Hash
    var runtime: Option<Cache>
    var tmp: Option<string>
    ghost var trace: seq<Option<Cache>>

    constructor (hash: Hash, runtime: Option<Cache>)
      ensures this.hash == hash && this.runtime == runtime && tmp == None && trace == []
    {
      this.hash, this.runtime, tmp, trace := hash, runtime, None, [];
    }

    method Cp(vendor: Cache, tools: Tools) returns (ok: bool)
      modifies this`tmp, this`trace
      ensures ok <==> vendor.readable && tools.cp
      ensures ok ==> tmp == Some(vendor.content)
      ensures trace == old(trace) + [runtime, runtime]
    {
      ok := vendor.readable && tools.cp;
      tmp := tools.partial;
      trace := trace + [runtime];
      if ok {
        tmp := Some(vendor.content);
      }
      trace := trace + [runtime];
    }

    method Mv(tools: Tools) returns (ok: bool)
      requires tmp.Some?
      modifies this
      ensures ok == tools.mv
      ensures runtime == if ok then Some(Cache(old(tmp).value, true)) else old(runtime)
      ensures tmp == if ok then None else old(tmp)
      ensures trace == old(trace) + [runtime]
    {
      ok := tools.mv;
      if ok {
        runtime, tmp := Some(Cache(tmp.value, true)), None;
      }
      trace := trace + [runtime];
    }

    /**
      The script up to its `exit` or its `exec ldconfig -X`.  At every step the cache is wholly
      the old or wholly the vendor one, and no temporary file of its own is left behind.
     */
    method Run(b: Boot) returns (exit: Exit)
      requires b.runtimeEtc.Globbed() && b.vendorEtc.Globbed() && tmp == None
      modifies this
      ensures exit == b.ExitOf(hash, old(runtime))
      ensures runtime == b.After(hash, old(runtime))
      ensures tmp == None
      ensures old(trace) <= trace
      ensures forall i :: |old(trace)| <= i < |trace| ==>
                trace[i] == old(runtime) || (b.Replaces(hash, old(runtime)) && trace[i] == b.After(hash, old(runtime)))
    {
      if NotEmpty(b.vendor) && NotEmpty(runtime) {
        var same := ConfigsMatch(hash, b.runtimeEtc, b.vendorEtc);
        if same {
          if CachesMatch(hash, b.vendor.value, runtime.value) {
            return Kept;
          }
          var ok := Cp(b.vendor.value, b.tools);
          if ok {
            ok := Mv(b.tools);
          }
          if ok {
            if b.tools.restorecon.Some? && !b.tools.restorecon.value {
              return HandedOver;
            }
            return Replaced;
          }
          tmp := None;
        }
      }
      return HandedOver;
    }
  }

  // ----- What the cache then is -----

  /** What a rescan makes of the libraries under a configuration. */
  type Rescan = (Libraries, map<string, string>) -> string

  /** What a rescan during this boot gives. */
  function Fresh(rescan: Rescan, b: Boot): string {
    rescan(b.libraries, b.runtimeEtc.Configs())
  }

  /** The image ships what a rescan of its own libraries under its own configuration gives. */
  predicate Honest(rescan: Rescan, b: Boot) {
    b.vendor.Some? ==> b.vendor.value.content == rescan(b.libraries, b.vendorEtc.Configs())
  }

  /**
    Leaving without a rescan leaves what a rescan of the live configuration would give exactly
    when the vendor cache is what a rescan of the vendor configuration would give.
   */
  lemma FastExitIsRescanIff(hash: Hash, rescan: Rescan, before: Option<Cache>, b: Boot)
    requires Injective(hash) && b.ExitOf(hash, before) != HandedOver
    ensures b.After(hash, before).Some?
    ensures b.After(hash, before).value.content == Fresh(rescan, b) <==> Honest(rescan, b)
  {
    assert b.runtimeEtc.Configs() == b.vendorEtc.Configs();
  }

  /** A boot whose service, and `ldconfig -X` where handed over to, finished. */
  ghost predicate Completes(hash: Hash, rescan: Rescan, before: Option<Cache>, b: Boot) {
    if b.ExitOf(hash, before) == HandedOver then b.found == Some(Cache(Fresh(rescan, b), true))
    else b.found == b.After(hash, before)
  }

  /** A boot, finished or cut at any point. */
  ghost predicate MayLeave(hash: Hash, rescan: Rescan, before: Option<Cache>, b: Boot) {
    b.found == before || b.found == b.After(hash, before) || Completes(hash, rescan, before, b)
  }

  /** A boot leaves the cache alone or makes it current; completed, it is current. */
  lemma BootMakesCurrent(hash: Hash, rescan: Rescan, before: Option<Cache>, b: Boot)
    requires Injective(hash) && MayLeave(hash, rescan, before, b) && Honest(rescan, b)
    ensures b.found == before || IsContent(b.found, Fresh(rescan, b))
    ensures Completes(hash, rescan, before, b) ==> IsContent(b.found, Fresh(rescan, b))
  {
    if b.ExitOf(hash, before) != HandedOver {
      FastExitIsRescanIff(hash, rescan, before, b);
    } else if b.Replaces(hash, before) {
      assert b.runtimeEtc.Configs() == b.vendorEtc.Configs();
    }
  }

  predicate IsContent(c: Option<Cache>, content: string) {
    c.Some? && c.value.content == content
  }

  function Last(initial: Option<Cache>, boots: seq<Boot>): Option<Cache> {
    if boots == [] then initial else boots[|boots| - 1].found
  }

  ghost predicate History(hash: Hash, rescan: Rescan, initial: Option<Cache>, boots: seq<Boot>) {
    boots != [] ==>
      var n := |boots| - 1;
      && History(hash, rescan, initial, boots[..n])
      && MayLeave(hash, rescan, Last(initial, boots[..n]), boots[n])
  }

  ghost predicate AllHonest(rescan: Rescan, boots: seq<Boot>) {
    forall b :: b in boots ==> Honest(rescan, b)
  }

  /** The cache is the one the history began with, or a rescan of libraries and a configuration this system had. */
  ghost predicate Genuine(rescan: Rescan, initial: Option<Cache>, boots: seq<Boot>, c: Option<Cache>) {
    c == initial || exists b :: b in boots && IsContent(c, Fresh(rescan, b))
  }

  /**
    Over every sequence of updates of libraries and configurations, local changes, boots and cuts
    the cache is never torn and never another system's, and every boot that completes makes it
    current.
   */
  lemma {:induction false} CacheIsGenuine(hash: Hash, rescan: Rescan, initial: Option<Cache>, boots: seq<Boot>)
    requires Injective(hash) && History(hash, rescan, initial, boots) && AllHonest(rescan, boots)
    ensures Genuine(rescan, initial, boots, Last(initial, boots))
    ensures boots != [] && Completes(hash, rescan, Last(initial, boots[..|boots| - 1]), boots[|boots| - 1]) ==>
              IsContent(Last(initial, boots), Fresh(rescan, boots[|boots| - 1]))
  {
    if boots != [] {
      var n := |boots| - 1;
      var before, b := Last(initial, boots[..n]), boots[n];
      assert b in boots;
      CacheIsGenuine(hash, rescan, initial, boots[..n]);
      BootMakesCurrent(hash, rescan, before, b);
      if b.found == before && before != initial {
        var earlier :| earlier in boots[..n] && IsContent(before, Fresh(rescan, earlier));
        assert earlier in boots;
      }
    }
  }
}
