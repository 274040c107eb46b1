# Verification model of the meta-updater update and image machinery

The layer keeps devices bootable and images reproducible with a number of small
protocols that have to survive power cuts, races and repeated runs.  This project models
them as Dafny methods over explicit state and proves what they keep over every run.

- **Boot entries** (`BootDisk`, `BootDeploy`, `BootSysroot`, `BootImage`): writing a new set of
  boot entries under `/boot` and swapping it live, by link or by exchanging directories.  The
  partition is a durable state plus the operations issued since the last flush; a power cut
  keeps any subset of those.  `Sysroot` issues one primitive operation at a time and records the
  disk after each, so its contracts speak about a cut at every step.  I/O errors are a budget of
  operations that runs out.
- **Kernel, initramfs and unified images** (`BootEntry`, `BootPaths`): the files a deployment
  installs and the keys of its boot entry, along chains of deployments; and, together with the
  swap, that live entries name files on the disk at every cut.
- **fs-verity** (`VerityState`, `VerityBoot`): the lockfile-guarded, resumable pass of the
  initramfs and the loops of the host script.
- **`prepare-root.conf`** (`PrepareRootConfig`): the stream edits that override and read the
  `[composefs]` setting, and the writer of the file.
- **Dependency manifests** (`DependencyGraph`, `DependencyReach`, `DependencyText`, `DependencyWalk`): the recursion
  over shared accumulators, the set it reaches, the nested text it writes and a reader for it.
- **Publishing targets** (`TargetPush`): concurrent builders that pull, add, sign and push
  with retries against one versioned list.
- **Linker cache** (`LdconfigCache`): the fast path that replaces a rescan.
- **Signing keys** (`SigningKeys`): key pair generation by concurrent build tasks under a lock.
- **Relabelling /var** (`VarRelabel`): the stamp that records which policy labelled it.

## Where the code does less than one might expect

Each point is a proved statement, with the exact condition or a family of inputs.

- An override of `composefs.enabled` takes effect exactly when one line is matched: several
  matched lines give several copies, none gives the default (`OverrideTakesEffect`).
- The lockfile is removed even when files failed, so once the booted image has verity a failed
  object is never tried again (`FailedObjectIsNeverRetried`).
- With no `loader` and `boot/boot` already present, directory mode is chosen and its exchange
  cannot succeed; the deployment fails and changes nothing live (`Deployable`, `SwapBootloader`).
- Keys of a boot entry outlive the trees that set them: `uki` after a tree without unified image
  added `linux`, `initrd`, the device tree keys and `init=` alike.  The exact conditions, from any
  entry, are `KeyIsThereIff`, `KeyIsLastSet` and `BothBootKeysIff`.
- The key files stay paired over all runs exactly when they are consistent at the start, and are
  complete or all tasks share one lock (`PairedForeverIff`).  A public key without its secret one
  is not consistent.  The lock is a file of the deploy directory of one machine while the keys
  default to a directory of the whole build, so builds for several machines that start without
  keys are outside that condition.
- Where files written between boots left objects without verity beside an image that has it, only
  the two flags repair that (`BootRepairsIff`).
- A deployment that begins while the swap of the last one is unflushed, as after a failing final
  flush, is safe exactly in directory mode (`UnflushedSwapIff`).
- After an unfinished relabelling, going back to the policy of the stamp skips the relabelling
  that would be needed (`StampTellsIff`).
- Targets stay in the list over all interleavings exactly when no two builders use one name and
  version for different hashes (`TargetsKeptIff`).

## Model

| member | source | states |
|---|---|---|
| BootSysroot.Sysroot.WriteDeploymentsBootswap | recipes-extended/ostree/ostree/0001-Add-support-for-directories-instead-of-symbolic-link.patch:164-212 | succeeds exactly when the request is deployable and no operation fails, and then the partition is the deployed one, with every requested entry live under its name and text and no other; a power cut after any step, losing any subset of unflushed operations, finds the old live configuration or the whole new one, and so does an error return; in directory mode it may begin before the last exchange is flushed, and a cut may then also find the one from before that exchange |
| BootSysroot.Sysroot.Stage | recipes-extended/ostree/ostree/0001-Add-support-for-directories-instead-of-symbolic-link.patch:158-206 | everything before the flush leaves the live configuration alone at every cut, and ends exactly one swap away from the deployed partition |
| BootSysroot.Sysroot.ChooseMode | recipes-extended/ostree/ostree/0001-Add-support-for-directories-instead-of-symbolic-link.patch:165-188 | link or directory mode by what `loader` is; with no `loader`, link mode exactly when the probe link could be made |
| BootSysroot.Sysroot.PrepareNewBootloaderDir | recipes-extended/ostree/ostree/0001-Add-support-for-directories-instead-of-symbolic-link.patch:73-117 | the tagged new directory ends up under the current version's name, the stale one is gone, and no cut on the way touches what is live |
| BootSysroot.Sysroot.PrepareNewBootloaderLink | recipes-extended/ostree/ostree/0001-Add-support-for-directories-instead-of-symbolic-link.patch:190-196 | `loader.tmp` points at the new directory and nothing live changed |
| BootSysroot.Sysroot.SwapBootloader | recipes-extended/ostree/ostree/0001-Add-support-for-directories-instead-of-symbolic-link.patch:120-156 | one atomic step followed by a flush; without a directory to exchange with it fails and changes nothing |
| BootSysroot.Sysroot.RmRf | recipes-extended/ostree/ostree/0001-Add-support-for-directories-instead-of-symbolic-link.patch:108-110 | the stale directory is removed file by file; no prefix of that, however much of it reached the disk, touches the live configuration |
| BootSysroot.Sysroot.ReadCurrentBootversion | recipes-extended/ostree/ostree/0001-Add-support-for-directories-instead-of-symbolic-link.patch:261-323 | names the version of the live configuration through link target or tag; error only for an unknown name |
| BootDisk.VersionByName | recipes-extended/ostree/ostree/0001-Add-support-for-directories-instead-of-symbolic-link.patch:261-323 | version 1 exactly for the name `loader.1`, an error exactly for a third name, version 0 otherwise, a missing `loader` or tag included |
| BootSysroot.Sysroot.ReadBootLoaderConfigs | recipes-extended/ostree/ostree/0001-Add-support-for-directories-instead-of-symbolic-link.patch:236-259 | the live entries for the current version, those of the slot for the other one |
| BootDisk.ReadsByName | recipes-extended/ostree/ostree/0001-Add-support-for-directories-instead-of-symbolic-link.patch:236-259 | which directory is read for either version, by the name of link and tag |
| BootSysroot.Sysroot.Prepare | recipes-extended/ostree/ostree/0002-Add-support-for-systemd-boot-bootloader.patch:103-148 | the new directory ends up with exactly the requested entries, their files, and the live `loader.conf` or none as the live one has none, so the probe's answer is the same for the next deployment; a forced systemd-boot without a live `loader.conf` is the only failure besides a write error |
| BootSysroot.Sysroot.BuildEntries | recipes-extended/ostree/ostree/0003-deploy-add-support-for-uki.patch:83-104 | a fresh directory with every requested entry under its name and text and no other, each after the boot files it needs; no cut on the way touches what is live |
| BootSysroot.Sysroot.SdbootWriteConfig | recipes-extended/ostree/ostree/0002-Add-support-for-systemd-boot-bootloader.patch:124-148 | the new directory gets the live `loader.conf` unchanged; fails exactly when there is none or a write fails |
| BootSysroot.QuietStepsAreSafe | recipes-extended/ostree/ostree/0001-Add-support-for-directories-instead-of-symbolic-link.patch:69-72 | steps that are quiet for the live configuration are safe to cut with any subset of operations kept |
| BootSysroot.SwapIsSafe | recipes-extended/ostree/ostree/0001-Add-support-for-directories-instead-of-symbolic-link.patch:205-210 | from the flush on the swap is the only operation that can be lost, so a cut decides between old and new as a whole |
| BootSysroot.Sysroot.FlushAndSwap | recipes-extended/ostree/ostree/0001-Add-support-for-directories-instead-of-symbolic-link.patch:205-210 | from the flush on: done exactly when deployable and nothing fails, and whatever fails leaves the old or the new configuration and at most the swap unflushed |
| BootSysroot.OneSwapAway | recipes-extended/ostree/ostree/0001-Add-support-for-directories-instead-of-symbolic-link.patch:164-209 | each mode's preparation is one swap away from the deployed partition, and deployable is exactly that the swap has something to swap with |
| BootPaths.DeployWithFiles | recipes-extended/ostree/ostree/0003-deploy-add-support-for-uki.patch:83-104 | installing boot files and writing their entries: at every cut, with any subset of unflushed operations lost, every path a live entry names is a file on the disk, and it is so again for the next request however this one ended; the one end the next request must not begin in is a link moved and not flushed |
| BootPaths.OneHasItsFiles | recipes-extended/ostree/ostree/0001-Add-support-for-directories-instead-of-symbolic-link.patch:205-210 | each live configuration a deployment may leave, visible or brought back by a cut, has all its files |
| BootPaths.LiveFilesForever | recipes-extended/ostree/ostree/0001-Add-support-for-directories-instead-of-symbolic-link.patch:164-212 | over every history of finished, failed and interrupted deployments, in directory mode begun with or without the last exchange flushed, in link mode with it flushed, live entries name files on the disk |
| BootPaths.InstalledIsCovered | recipes-extended/ostree/ostree/0003-deploy-add-support-for-uki.patch:65-267 | an installed entry names only files that are there or installed with it, inherited keys included |
| BootPaths.NamedIff | recipes-extended/ostree/ostree/0003-deploy-add-support-for-uki.patch:154-267 | what an entry names is every key that begins with the boot prefix and nothing else |
| BootPaths.CoveredIsNamed | recipes-extended/ostree/ostree/0003-deploy-add-support-for-uki.patch:83-104 | after the installs every path named by any of the entries is there |
| BootDisk.QuietKept | recipes-extended/ostree/ostree/0001-Add-support-for-directories-instead-of-symbolic-link.patch:94-114 | any kept subset of quiet operations leaves `loader` and the tree behind it as they were |
| BootDisk.CutOnBase | recipes-extended/ostree/ostree/0001-Add-support-for-directories-instead-of-symbolic-link.patch:150-156 | on top of an exchange not yet flushed, any kept subset leaves the live tree from before or after that exchange |
| BootDeploy.DeployedMeaning | recipes-extended/ostree/ostree/0001-Add-support-for-directories-instead-of-symbolic-link.patch:94-114 | a deployment makes live every requested entry, with its text, and no other, flips the version, keeps `loader.conf` and the mode, and leaves the previous entries readable under the previous version |
| BootDeploy.DistinctNamesAllThere | recipes-extended/ostree/ostree/0001-Add-support-for-directories-instead-of-symbolic-link.patch:94-114 | entries as requested under distinct names hold each request's own text |
| BootDeploy.EntriesAsRequested | recipes-extended/ostree/ostree/0001-Add-support-for-directories-instead-of-symbolic-link.patch:94-114 | the entries of a directory built for a request are the requested names, all of them and no other, with the last text of each |
| BootDeploy.DeployedPlaces | recipes-extended/ostree/ostree/0001-Add-support-for-directories-instead-of-symbolic-link.patch:94-156 | in directory mode the old tree lies whole under the old name, nothing under the new one, and the live tree carries the new name as its tag; in link mode the link names the new tree and the old is untouched; the probe link as the code leaves it; a first deployment links `loader.1` |
| BootDeploy.NotDeployableIff | recipes-extended/ostree/ostree/0001-Add-support-for-directories-instead-of-symbolic-link.patch:164-188 | all reasons for a deployment to fail without an I/O error: a third name, `loader` neither link nor directory nor absent, absent without a new probe link, or a forced systemd-boot without `loader.conf` |
| BootDeploy.WithFilesOfHolds | recipes-extended/ostree/ostree/0003-deploy-add-support-for-uki.patch:83-104 | boot files already there are kept, and new ones hold the content they were installed with |
| BootDeploy.RunRefinesStore | recipes-extended/ostree/ostree/0001-Add-support-for-directories-instead-of-symbolic-link.patch:164-209 | over any sequence of deployments either mode refines one two-slot store and the mode never changes |
| BootDeploy.ModesAgree | recipes-extended/ostree/ostree/0001-Add-support-for-directories-instead-of-symbolic-link.patch:236-259 | a link-mode and a directory-mode partition that read alike read alike after any sequence of deployments, for both versions |
| BootDeploy.InterruptedHistory | recipes-extended/ostree/ostree/0001-Add-support-for-directories-instead-of-symbolic-link.patch:69-156 | over every history of finished and interrupted deployments the live version, entries and `loader.conf` are those of the store after exactly the deployments whose swap took hold |
| BootDeploy.DeployAfterInterruptions | recipes-extended/ostree/ostree/0001-Add-support-for-directories-instead-of-symbolic-link.patch:94-114 | whatever interruptions left behind, the next undisturbed deployment makes exactly its entries live, flips the version and keeps the previously live entries readable |
| BootDeploy.FlushBeforeSwapNeeded | recipes-extended/ostree/ostree/0001-Add-support-for-directories-instead-of-symbolic-link.patch:205-209 | without the flush a cut that loses only the tag puts the new entries live under the old version |
| BootDeploy.DirectoryToleratesUnflushedSwap | recipes-extended/ostree/ostree/0001-Add-support-for-directories-instead-of-symbolic-link.patch:150-156 | in directory mode even an unflushed exchange followed by any later staging is seen wholly done or wholly undone |
| BootDeploy.LinkNeedsFlushAfterSwap | recipes-extended/ostree/ostree/0001-Add-support-for-directories-instead-of-symbolic-link.patch:135-160 | in link mode losing the link but keeping the next deployment's clean-up empties the live directory, hence the flush after the swap |
| BootDeploy.UnflushedSwapIff | recipes-extended/ostree/ostree/0001-Add-support-for-directories-instead-of-symbolic-link.patch:135-160 | a deployment may begin before the last swap is flushed, with every cut showing the configuration from before or after that swap, exactly in directory mode |
| BootDeploy.ConversionKeepsStore | classes/image_types_ota.bbclass:114-119 | deployments in link mode, the conversion, then deployments in directory mode act as one store; `loader.conf` is the same throughout |
| BootDeploy.ConvertedMeaning | classes/image_types_ota.bbclass:116-119 | the linked directory itself becomes `loader`, tagged with the name it had; that name and the probe link are gone and the other directory stays |
| BootImage.ImageBoot.constructor | classes/image_types_ota.bbclass:35-46 | the directory, link and empty `loader.conf` that steer bootloader detection |
| BootImage.ImageBoot.ConvertToDirectory | classes/image_types_ota.bbclass:114-119 | equals the conversion, and fails exactly when the link or its directory is missing |
| BootImage.ImageToDevice | classes/image_types_ota.bbclass:35-119 | from the empty image on, a device starts on the version and entries the build ended with and keeps the image's `loader.conf` through every interrupted history |
| BootImage.LoaderStaysDirectory | recipes-extended/ostree/ostree/0001-Add-support-for-directories-instead-of-symbolic-link.patch:164-188 | a directory stays a directory through every history |
| BootEntry.BootDir.InstallDeploymentKernel | recipes-extended/ostree/ostree/0003-deploy-add-support-for-uki.patch:65-267 | both halves; on failure the entry is untouched and the files end at the first one that could not be written |
| BootEntry.BootDir.InstallFiles | recipes-extended/ostree/ostree/0003-deploy-add-support-for-uki.patch:65-146 | the unified image alone, or kernel, initramfs, device tree, HMAC and aboot files in order, each only if missing |
| BootEntry.BootDir.EnsureInstalled | recipes-extended/ostree/ostree/0003-deploy-add-support-for-uki.patch:71-80 | a file already there is kept; a write error stops with nothing changed |
| BootEntry.BootDir.SetKeys | recipes-extended/ostree/ostree/0003-deploy-add-support-for-uki.patch:154-267 | the keys of the entry after both kinds of install, all others inherited |
| BootEntry.OnceLinuxAlwaysLinux | recipes-extended/ostree/ostree/0003-deploy-add-support-for-uki.patch:66-67 | an entry with a `linux` key boots through `linux`, with the path of the latest kernel, along every chain whatever the trees ship, and keeps any `uki` key as it was |
| BootEntry.LinuxOfChain | recipes-extended/ostree/ostree/0003-deploy-add-support-for-uki.patch:65-67 | from any entry: `linux`, with the latest kernel's path, exactly as soon as it had the key or some tree ships no unified image; until then `uki` with the latest image's path |
| BootEntry.KeyIsLastSet | recipes-extended/ostree/ostree/0003-deploy-add-support-for-uki.patch:154-267 | from any entry, for each of the eight keys: its value is what the last tree to set it said, however many came after |
| BootEntry.KeyIsInherited | recipes-extended/ostree/ostree/0003-deploy-add-support-for-uki.patch:154-267 | and what the entry began with where no tree sets it |
| BootEntry.BothBootKeysIff | recipes-extended/ostree/ostree/0003-deploy-add-support-for-uki.patch:66-67 | from any entry, the exact condition for `linux` and a stale `uki` in one entry |
| BootEntry.KeyIsThereIff | recipes-extended/ostree/ostree/0003-deploy-add-support-for-uki.patch:154-267 | each key is there exactly when the entry began with it or some tree set it, whether or not the last one did |
| BootEntry.BothTreeKeys | recipes-extended/ostree/ostree/0003-deploy-add-support-for-uki.patch:247-260 | a chain that moves between a single device tree and a directory ends with both keys |
| BootEntry.InstallTwice | recipes-extended/ostree/ostree/0003-deploy-add-support-for-uki.patch:69-104 | writing an existing deployment's entry again changes neither files nor keys |
| BootEntry.FilledHas | recipes-extended/ostree/ostree/0003-deploy-add-support-for-uki.patch:83-104 | installing removes and alters no file, and afterwards every needed file is there |
| BootEntry.FilledHolds | recipes-extended/ostree/ostree/0003-deploy-add-support-for-uki.patch:83-104 | a file goes to the tree's own directory under its versioned name, with its own content unless something is there |
| BootEntry.NeededIff | recipes-extended/ostree/ostree/0003-deploy-add-support-for-uki.patch:65-146 | the unified image alone, or kernel, initramfs, device tree, HMAC and aboot files, all the tree ships and no other |
| BootEntry.LinuxKeys | recipes-extended/ostree/ostree/0003-deploy-add-support-for-uki.patch:154-260 | every key after an install through `linux`, as prefix, the tree's directory and versioned name; what the tree does not ship is inherited |
| BootEntry.UkiKeys | recipes-extended/ostree/ostree/0003-deploy-add-support-for-uki.patch:262-267 | an install through the unified image sets that key alone |
| BootEntry.ChainBootsOwnKernel | recipes-extended/ostree/ostree/0003-deploy-add-support-for-uki.patch:83-103 | along every chain the last tree's `linux` key names its own path, and its own kernel is there where nothing was |
| BootEntry.ChainKeepsPaths | recipes-extended/ostree/ostree/0003-deploy-add-support-for-uki.patch:65-267 | along every chain no path in the entry, stale ones included, names a file missing from /boot |
| VerityState.HistoryIsAllOrNothing | recipes-core/initrdscripts/initramfs-framework/composefs:186-230 | while the files stay the same, over every history in which no file fails both ways, without the lockfile either no file or every file has verity |
| VerityState.HistoryIsTrusted | recipes-core/initrdscripts/initramfs-framework/composefs:186-230 | over every history of well-written updates, boots and cuts: without the lockfile, verity on any image means verity on all it vouches for |
| VerityState.UpdateKeepsTrustIff | recipes-core/initrdscripts/initramfs-framework/composefs:174-205 | the step of `HistoryIsTrusted` for files coming and going between boots: what their writer has to see to, and no less |
| VerityState.BootKeepsTrust | recipes-core/initrdscripts/initramfs-framework/composefs:186-230 | no boot, cut or not, loses it |
| VerityState.SameFilesAreWellWritten | recipes-core/initrdscripts/initramfs-framework/composefs:186-230 | files that stay the same meet the condition |
| VerityState.BootRepairsIff | recipes-core/initrdscripts/initramfs-framework/composefs:174-205 | a boot makes any repository complete exactly when it was or a start condition holds; with verity on the booted image and no lockfile that takes one of the two flags |
| VerityState.EachConditionSuffices | recipes-core/initrdscripts/initramfs-framework/composefs:174-210 | lockfile, booted image without verity, upgrade flag with some os-release without verity, and force flag: each alone, booted image or not, makes a boot complete the repository; without any, or without a lockfile to be had, nothing changes |
| VerityState.ConsidersPrinted | recipes-core/initrdscripts/initramfs-framework/composefs:125-165 | a file of the build, overridden or not, leads to the start conditions exactly where the word in force is `signed` and nothing failed before |
| VerityState.ConsidersOverridden | recipes-core/initrdscripts/initramfs-framework/composefs:130-165 | so does an override of every file with one section and one setting in it |
| VerityState.ImagesAfterObjects | recipes-core/initrdscripts/initramfs-framework/composefs:92-113 | a cut that left an image with new verity left every object with it |
| VerityState.NoLockMeansComplete | recipes-core/initrdscripts/initramfs-framework/composefs:186-230 | from an image without verity, over all updates, boots and cuts: no lockfile and a booted image with verity imply verity on every object, and on the other images as far as the updates saw to that |
| VerityState.CompletedBootSettles | recipes-core/initrdscripts/initramfs-framework/composefs:186-230 | after any interruptions one completed boot finishes the job, and no ordinary boot after it changes anything, through later fully written updates too |
| VerityState.NothingToDo | recipes-core/initrdscripts/initramfs-framework/composefs:194-205 | a complete repository without lockfile meets no start condition in any ordinary boot and stays complete through fully written updates |
| VerityState.PassIsResumable | recipes-core/initrdscripts/initramfs-framework/composefs:194-221 | a pass cut after any number of files starts again and ends where the uncut one would |
| VerityState.FailedObjectIsNeverRetried | recipes-core/initrdscripts/initramfs-framework/composefs:221-228 | the lockfile goes even after failures, so a failed object is never tried again by later boots of that deployment with the flags off, whatever other files come and go |
| VerityState.PassCompleteIff | recipes-core/initrdscripts/initramfs-framework/composefs:115-121 | a pass leaves everything with verity exactly when no file failed both enable and measure |
| VerityBoot.VerityRepo.EnsureFsverity | recipes-core/initrdscripts/initramfs-framework/composefs:124-231 | ends in the specified state, every state on the way is one the histories allow for, and the status is success exactly when everything has verity or nothing was needed |
| VerityBoot.VerityRepo.Pass | recipes-core/initrdscripts/initramfs-framework/composefs:207-230 | lockfile, files, lockfile away: every step is an allowed cut, success exactly when complete |
| VerityBoot.VerityRepo.EnableFsverityFiles | recipes-core/initrdscripts/initramfs-framework/composefs:87-122 | enables exactly the files that can be, never clears one, in the order objects then images; success exactly when all have verity |
| VerityBoot.VerityRepo.EnableEach | recipes-core/initrdscripts/initramfs-framework/composefs:93-113 | errors counted are the files failing both ways; the disk after each file is the prefix enabled so far |
| VerityBoot.VerityRepo.UpgradeNeeded | recipes-core/initrdscripts/initramfs-framework/composefs:174-184 | set exactly when some os-release file lacks verity |
| VerityBoot.VerityRepo.HostEnable | scripts/cfs-enable-fsverity:171-230 | without the early exits enables every object and image that can be; zero errors exactly when all have verity |
| VerityBoot.NoFailuresInBoth | recipes-core/initrdscripts/initramfs-framework/composefs:115-121 | the joint error count of the two loops is zero exactly when every file of both lists has verity at the end |
| VerityBoot.FailuresOfConcat | recipes-core/initrdscripts/initramfs-framework/composefs:93-115 | errors add up over the files |
| VerityBoot.FailuresOfOne | recipes-core/initrdscripts/initramfs-framework/composefs:95-99 | one for a file that fails both ways, none otherwise |
| VerityBoot.TrailMayBeLeft | recipes-core/initrdscripts/initramfs-framework/composefs:207-221 | every intermediate disk of a pass is a cut of that pass under the lockfile |
| VerityBoot.HostSparesTheBoot | scripts/cfs-enable-fsverity:226-231 | after an error-free host run every boot that is not forced takes the not-needed exit and changes nothing, over every history |
| PrepareRootConfig.Rewrite | recipes-core/initrdscripts/initramfs-framework/composefs:130-134 | every line in a `[composefs]` range that matches becomes the override, every other line stays |
| PrepareRootConfig.ReadLines | recipes-core/initrdscripts/initramfs-framework/composefs:136 | prints exactly the rest of the matched lines, in order |
| PrepareRootConfig.Read | recipes-core/initrdscripts/initramfs-framework/composefs:136-137 | the joined reading with the default for an empty one |
| PrepareRootConfig.ConfigFile.OverrideAndRead | recipes-core/initrdscripts/initramfs-framework/composefs:130-137 | the override, if not empty, then the reading of the edited file |
| PrepareRootConfig.HitsAt | recipes-core/initrdscripts/initramfs-framework/composefs:133-136 | the rewriter and the reader pick the same lines |
| PrepareRootConfig.InsideIff | recipes-core/initrdscripts/initramfs-framework/composefs:133-136 | a line is inside a section exactly when a line before it opened one and none in between closed it |
| PrepareRootConfig.OpensIff | recipes-core/initrdscripts/initramfs-framework/composefs:133-136 | the opening address as text |
| PrepareRootConfig.ClosesIff | recipes-core/initrdscripts/initramfs-framework/composefs:133-136 | the closing address as text: a bracket at the start and a closing one after it |
| PrepareRootConfig.PatternIff | recipes-core/initrdscripts/initramfs-framework/composefs:133-136 | the pattern as text: the word at the start, blanks, an equals sign, and what follows |
| PrepareRootConfig.ValueOf | recipes-core/initrdscripts/initramfs-framework/composefs:136 | what is read of a matched line: all after the equals sign and the blanks that follow |
| PrepareRootConfig.JoinedConcat | recipes-core/initrdscripts/initramfs-framework/composefs:136 | matched lines are read in their order, a line feed between any two |
| PrepareRootConfig.StripsTheEnd | recipes-core/initrdscripts/initramfs-framework/composefs:136-137 | all line feeds at the end go, and nothing else |
| PrepareRootConfig.SameRanges | recipes-core/initrdscripts/initramfs-framework/composefs:133-136 | rewriting moves no section range |
| PrepareRootConfig.ReadAfterRewrite | recipes-core/initrdscripts/initramfs-framework/composefs:130-137 | for every file: the reading after an override is one copy of it per matched line, or the default |
| PrepareRootConfig.OverrideTakesEffect | recipes-core/initrdscripts/initramfs-framework/composefs:130-137 | an override takes effect exactly when one line is matched, or none is and it asks for the default |
| PrepareRootConfig.OneSettingOverridden | recipes-core/initrdscripts/initramfs-framework/composefs:130-137 | in every file with one section and one setting in it, whatever other sections set, the override is what is then read and no other line changes |
| PrepareRootConfig.RewriteKeepsTheRest | recipes-core/initrdscripts/initramfs-framework/composefs:133 | unmatched lines are unchanged, and a second override replaces the first entirely |
| PrepareRootConfig.ConfigFile.WritePrepareRootConfig | recipes-extended/ostree/ostree-prepare-root.inc:14-31 | the printed file |
| PrepareRootConfig.PrintedRoundTrip | recipes-extended/ostree/ostree-prepare-root.inc:21-30 | every printed file reads back as printed, and as the override after one |
| DependencyWalk.Walker.constructor | scripts/find_dependencies.py:184-200 | the accumulators start consistent, with the root already filtered |
| DependencyWalk.Walker.FindDependencies | scripts/find_dependencies.py:119-160 | terminates on acyclic graphs with the longest remaining path as measure; succeeds exactly when everything reachable has a recipe, and then `packages` has grown by exactly the reachable recipes and the text by exactly the tree of paths, with the memo, the uniqueness and the order of `packages` kept |
| DependencyWalk.Walker.LearnAll | scripts/find_dependencies.py:146-153 | lists and looks up exactly the dependencies not seen yet, so each recipe is looked up once; fails exactly when a lookup does |
| DependencyWalk.Walker.FilterDepends | scripts/find_dependencies.py:121-125 | drops exactly what is assumed provided |
| DependencyWalk.Walker.ExpandAll | scripts/find_dependencies.py:155-157 | expands each dependency to its full depth, adding what it reaches and its trees in order |
| DependencyWalk.Walker.Learn | scripts/find_dependencies.py:148-153 | one unseen dependency is listed, looked up and remembered as a direct lookup would answer; the lookups made are then still exactly the listed packages, each once; false exactly when it has no recipe |
| DependencyWalk.FilterTwice | scripts/find_dependencies.py:121-125 | the root's dependencies, filtered before the recursion, are unchanged by its own filter |
| DependencyWalk.FilterMembers | scripts/find_dependencies.py:121-125 | kept are exactly the dependencies not assumed provided |
| DependencyWalk.FilterOfConcat | scripts/find_dependencies.py:121-125 | in their order and with their repetitions |
| DependencyWalk.FindAll | scripts/find_dependencies.py:163-210 | for every layer in which the root reaches no cycle: nothing to do exactly without a recipe; an exception exactly when something the root depends on at last has none; otherwise the listed packages are exactly what it depends on by recipes and outside what is assumed provided, each once, each after one that depends on it, and the written text has the right key and reads back |
| DependencyWalk.ReachSetOfLayer | scripts/find_dependencies.py:146-157 | reachable means by a path over all dependencies of the layer |
| DependencyWalk.ReachedByDependencies | scripts/find_dependencies.py:119-157 | reachable means by a path of dependencies that recipes list and that are not assumed provided; nothing provided is reachable |
| DependencyWalk.ListedAreDependencies | scripts/find_dependencies.py:203-210 | listed are exactly those, each once, each with a recipe and none assumed provided |
| DependencyWalk.Walker.ScopeHeader | scripts/find_dependencies.py:185-197 | the key stands without entries exactly where every dependency of the root is assumed provided |
| DependencyWalk.ReachedEdgesAgree | scripts/find_dependencies.py:146-157 | the part of the layer that the root reaches is closed under dependencies |
| DependencyWalk.ListPackages | scripts/find_dependencies.py:205-210 | the final loop passes over nothing, the root not being listed |
| DependencyWalk.RootNotReached | scripts/find_dependencies.py:207-208 | without cycles the root never lists itself |
| DependencyWalk.LinesReadBack | scripts/find_dependencies.py:136-160 | what is written below the `dependencies` key reads back as the dependency trees of the root, as lines and as one text |
| DependencyText.ParseRender | scripts/find_dependencies.py:136-160 | an entry, nested to any depth, parses back by indentation, ending with its own `errors` line |
| DependencyText.ParseRenderAll | scripts/find_dependencies.py:136-160 | so does a list of entries followed by any line that opens none |
| DependencyText.EntryLines | scripts/find_dependencies.py:136-160 | the lines of an entry literally: four, its children two further in, and the closing one |
| DependencyText.ListLines | scripts/find_dependencies.py:155-157 | entries are written one after the other |
| DependencyText.TreeShows | scripts/find_dependencies.py:119-157 | the entry of a recipe shows its package name and version and its dependencies in their order |
| DependencyText.TextOfConcat | scripts/find_dependencies.py:136-160 | the text of lines is the text of their parts |
| DependencyText.TextReadsBack | scripts/find_dependencies.py:136-160 | the same from the characters of the file, for names and versions without line breaks |
| DependencyText.PathsAreWalks | scripts/find_dependencies.py:155-157 | the paths of the printed tree are the dependency paths from the root, all of them and no other |
| DependencyGraph.HeightDropsTo | scripts/find_dependencies.py:155-157 | the longest remaining path gets shorter along every edge |
| DependencyGraph.HeightBoundsWalks | scripts/find_dependencies.py:155-157 | no dependency path is longer than that measure |
| DependencyGraph.HeightIsAttained | scripts/find_dependencies.py:155-157 | and some path is as long |
| DependencyGraph.AcyclicIsMeasured | scripts/find_dependencies.py:155-157 | an acyclic graph has a measure for the recursion |
| DependencyGraph.MeasuredIsAcyclic | scripts/find_dependencies.py:155-157 | a cyclic one has none |
| DependencyReach.BoundedIffAcyclic | scripts/find_dependencies.py:155-157 | the dependency paths from the root, along which the recursion expands, are bounded exactly when the root reaches no cycle |
| DependencyReach.WalksFromRoot | scripts/find_dependencies.py:155-157 | the reachable part has exactly the layer's paths from the root |
| DependencyGraph.ReachSetIsWalks | scripts/find_dependencies.py:146-157 | what the recursion collects is exactly what a path of one step or more ends in |
| TargetPush.StepKeepsInvariant | classes/image_types_ostree.bbclass:268-305 | one command of any builder keeps the list equal to the accepted targets in order, and every refusal matched by another acceptance |
| TargetPush.RunKeepsInvariant | classes/image_types_ostree.bbclass:268-305 | the same over every interleaving; no builder is accepted twice |
| TargetPush.RetriesSuffice | classes/image_types_ostree.bbclass:250-310 | with more retries than other builders no interleaving ends a builder in the fatal error |
| TargetPush.RefusalsWhenDone | classes/image_types_ostree.bbclass:293-304 | a builder that is through met fewer refusals than pushes were accepted |
| TargetPush.RetriesBoundIsExact | classes/image_types_ostree.bbclass:250-310 | no interleaving makes a task fail exactly when there are at least as many retries as builders |
| TargetPush.NoTargetLost | classes/image_types_ostree.bbclass:268-310 | once a builder is through its target is in every later list, if no name is used for two hashes |
| TargetPush.TargetsKeptIff | classes/image_types_ostree.bbclass:268-310 | no interleaving loses a target exactly when no two builders use one name for two hashes |
| TargetPush.SharedNameLoses | classes/image_types_ostree.bbclass:271-279 | with one name for two hashes the later push replaces the earlier target |
| TargetPush.DoneStays | classes/image_types_ostree.bbclass:293-296 | a builder that is through does nothing more |
| TargetPush.Fleet.GarageSign | classes/image_types_ostree.bbclass:268-310 | the retry loop with other builders' commands in any order at any point and with failing commands: its execution is a run of this builder's commands interleaved with theirs; it ends at the first round that is not lost, or fatally after losing all of them, each to another accepted push; from the start of a build the invariant holds and the fatal error needs as many other builders as retries |
| TargetPush.Fleet.TryOnce | classes/image_types_ostree.bbclass:269-304 | one round: refused exactly when the list moved on since its pull |
| TargetPush.Fleet.PushTargets | classes/image_types_ostree.bbclass:290-293 | accepted exactly on the current version; otherwise only the refusal is counted |
| TargetPush.Fleet.Others | classes/image_types_ostree.bbclass:268-305 | any commands of other builders are a run |
| TargetPush.Fleet.PullOrStop | classes/image_types_ostree.bbclass:269-270 | a round up to its signature with any commands of others in between, or the stop of the build where the pull fails |
| TargetPush.Fleet.SignOrStop | classes/image_types_ostree.bbclass:271-289 | from there to its push, or the stop where adding or signing fails |
| TargetPush.AtSign | classes/image_types_ostree.bbclass:269-270 | whatever others do, a builder holds the list it pulled until it signs |
| TargetPush.AtPush | classes/image_types_ostree.bbclass:271-289 | and pushes what it signed on that version |
| LdconfigCache.ConfigsMatch | recipes-extended/systemd/systemd/ostree-ldconfig-update:17-35 | succeeds exactly when both sides have the same configuration files, all readable and with equal hashes |
| LdconfigCache.HashDecidesIff | recipes-extended/systemd/systemd/ostree-ldconfig-update:10-15 | the comparison is right for all configurations exactly when the hash has no collision |
| LdconfigCache.AgreeIff | recipes-extended/systemd/systemd/ostree-ldconfig-update:17-35 | path by path: a regular file on one side is a readable one of equal content on the other |
| LdconfigCache.Service.Run | recipes-extended/systemd/systemd/ostree-ldconfig-update:37-63 | the exit and the cache it leaves; at every step the cache is wholly the old or wholly the vendor one, and no temporary file stays after a completed run |
| LdconfigCache.ExitIff | recipes-extended/systemd/systemd/ostree-ldconfig-update:37-63 | kept exactly where both caches already hold the same, replaced exactly where they differ and every command succeeds, a rescan in all other cases |
| LdconfigCache.Service.Cp | recipes-extended/systemd/systemd/ostree-ldconfig-update:43-48 | writes only the temporary file |
| LdconfigCache.Service.Mv | recipes-extended/systemd/systemd/ostree-ldconfig-update:49 | replaces the cache in one step or not at all |
| LdconfigCache.FastExitIsRescanIff | recipes-extended/systemd/systemd/ostree-ldconfig-update:37-56 | leaving without a rescan leaves what a rescan of the installed libraries would give exactly when the vendor cache is the rescan of the same libraries under the vendor configuration |
| LdconfigCache.BootMakesCurrent | recipes-extended/systemd/systemd/ostree-ldconfig-update:37-63 | a boot cut anywhere leaves the cache alone or current; a completed one leaves it current |
| LdconfigCache.CacheIsGenuine | recipes-extended/systemd/systemd/ostree-ldconfig-update:37-63 | over every sequence of updates of libraries and configurations, local edits, boots and cuts the cache is the first one or a rescan of libraries and a configuration this system had, and every completed boot makes it current |
| SigningKeys.KeyFiles.GenCfsKeys0 | recipes-extended/ostree/gen-cfs-keys.inc:3-23 | the secret file first, then the public one of the same pair |
| SigningKeys.KeyFiles.GenCfsKeys | recipes-extended/ostree/gen-cfs-keys.inc:25-45 | fatal exactly when not set up or left without a secret key; generates exactly when asked to and a file is missing; agrees with the steps of one task |
| SigningKeys.OneTaskRun | recipes-extended/ostree/gen-cfs-keys.inc:33-40 | an uninterrupted task as three steps |
| SigningKeys.StepKeepsSafe | recipes-extended/ostree/gen-cfs-keys.inc:33-40 | one step of any task keeps at most one under way, and no public key while one is |
| SigningKeys.KeysStayPaired | recipes-extended/ostree/gen-cfs-keys.inc:33-62 | under one lock, over every interleaving of tasks and kills, a public key belongs to the secret one, and once both exist neither changes |
| SigningKeys.TasksShareThePair | recipes-extended/ostree/gen-cfs-keys.inc:47-62 | under one lock, or from complete files, the secret key a signing task uses and the public key any later task installs are one pair |
| SigningKeys.PairedForeverIff | recipes-extended/ostree/gen-cfs-keys.inc:33-62 | for tasks with any locks: no run leaves files of different pairs exactly when the files at the start are consistent, and complete or all tasks share one lock |
| SigningKeys.DifferentLocksMix | recipes-extended/ostree/gen-cfs-keys.inc:59-62 | any two tasks under different locks can leave files of different pairs, from any start without a public key |
| SigningKeys.LonePublicKeyMixes | recipes-extended/ostree/gen-cfs-keys.inc:33-40 | a public key alone can be joined by another pair's secret key under any locks |
| SigningKeys.CompleteStays | recipes-extended/ostree/gen-cfs-keys.inc:34-35 | complete files found at rest stay as they are, whatever the locks |
| SigningKeys.MixedStaysMixed | recipes-extended/ostree/gen-cfs-keys.inc:34-35 | mixed files found at rest are repaired by no later run |
| VarRelabel.VarTree.Run | dynamic-layers/selinux/recipes-sota/ostree-var-relabel/ostree-var-relabel/ostree-var-relabel:15-31 | the labels and stamp it leaves, its status, and every state it passes through |
| VarRelabel.RelabelsIff | dynamic-layers/selinux/recipes-sota/ostree-var-relabel/ostree-var-relabel/ostree-var-relabel:17-26 | a boot relabels exactly with a policy type, a policy file, and a stamp other than the checksum of policy and file contexts |
| VarRelabel.ChangeRelabels | dynamic-layers/selinux/recipes-sota/ostree-var-relabel/ostree-var-relabel/ostree-var-relabel:21-26 | changed file contexts alone, or a changed policy alone, make a finished system relabel |
| VarRelabel.OneFileRelabels | dynamic-layers/selinux/recipes-sota/ostree-var-relabel/ostree-var-relabel/ostree-var-relabel:21-26 | so does a change of any one of the files |
| VarRelabel.CatConcat | dynamic-layers/selinux/recipes-sota/ostree-var-relabel/ostree-var-relabel/ostree-var-relabel:21-22 | the files are taken whole, one after the other |
| VarRelabel.StampTellsIff | dynamic-layers/selinux/recipes-sota/ostree-var-relabel/ostree-var-relabel/ostree-var-relabel:24-31 | where the stamp is the booted policy's, /var is labelled by it exactly when no relabelling was left unfinished since |
| VarRelabel.SamePolicySettles | dynamic-layers/selinux/recipes-sota/ostree-var-relabel/ostree-var-relabel/ostree-var-relabel:24-31 | booting the new policy repeatedly, cut anywhere, stamps it exactly when some boot finished, and then /var is labelled by it |

## Left out

- PrepareRootConfig.Rewrite: takes replacement values literally; the theorems about overrides ask for values in which the editor finds nothing special (`&`, `/`, `\`, line breaks) and that do not begin with a space.
- PrepareRootConfig.ConfigFile.OverrideAndRead: takes the override literally in the same way.
- BootSysroot.Sysroot.WriteDeploymentsBootswap: nothing is promised for link mode begun with the last link unflushed, where `UnflushedSwapIff` shows that some cut finds neither the old nor the new configuration.
- BootPaths.LiveFilesForever: leaves out the same beginnings.
- BootSysroot.Sysroot.PrepareNewBootloaderLink: writing `loader.tmp` is one step here; its body is not part of the patches.
- BootSysroot.Sysroot.SwapBootloader: renaming and exchanging are atomic, as documented for the primitives of libglnx; its fallback without kernel support and its C return conventions are not part of this model.
- LdconfigCache.CacheIsGenuine: a rename that reaches the disk before the file's content is not modelled; an empty cache found after such a cut would fail the size check and be rescanned.
- VerityState.NoLockMeansComplete: changes reach the disk in the order they are made; files come and go between boots but not during one.
- SigningKeys.KeysStayPaired: each key file is written in one step.
- TargetPush.RetriesSuffice: a push is refused only because the list moved on; network failures, which use up retries too, and the waiting between rounds are not modelled.
- TargetPush.Fleet.GarageSign: adding, customizing and signing the targets are one command; the set-up before the loop and the removal of the working directory are left out.
- BootEntry.ChainKeepsPaths: the clean-up of boot directories no deployment uses is not modelled.
- BootEntry.BootDir.InstallDeploymentKernel: the `version` key, the kernel arguments other than `init=` and overlay initrds are not modelled; the bodies that install the latter are not part of the patch.
- BootEntry.BootDir.InstallFiles: overlay initrds are left out and a directory of device trees counts as one file, as the code that copies it is not part of the patch.
- BootEntry.BootDir.SetKeys: as for the install, without the `version` key, the other kernel arguments and the overlay initrds.
- BootPaths.DeployWithFiles: a boot file is installed in one step, and what paths the text of an entry names is a parameter.
- BootImage.ImageBoot.constructor: the grub, u-boot and syslinux branches only create their own empty files and links, which nothing else here reads.
- DependencyWalk.FindAll: where the root reaches a cycle the recursion has no bound, and what the interpreter then does is not modelled; the package details that `print_package` writes are not modelled, only the `dependencies` part and which packages are listed in which order.
- VarRelabel.VarTree.Run: labels are identified with the concatenated policy text the checksum is taken of.
- BootSysroot.Sysroot.BuildEntries: building a fresh `loader.N` is upstream code; it is one directory and one write per entry here.
- The `boot/boot` link on filesystems that refuse links with other errors than the expected ones, and the freeze and thaw around the swap, which is a plain flush here.
- The grub, u-boot and syslinux set-up of the image and the copy of /boot into its own partition: nothing but moves and links.
- `cfs_get_key_file_checksums` and the task flags: they only decide when a task is run again.
- Loop-mounting and partition detection of the host script, progress bars, QEMU command lines, wic plugins, sanity checks: wrappers around tools.
- The rootfs layout moves of `IMAGE_CMD:ostree`: a fixed list of moves and links.
- Network, signing and filesystem tools (`garage-sign`, `openssl`, `fsverity`, `tune2fs`, `md5sum`, `restorecon`, `ldconfig`): steps, parameters or uninterpreted functions.
