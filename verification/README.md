# Verified model of debian-bootc's stateful programs

debian-bootc builds bootable container images of Debian. Most of it is packaging; the
part modelled here is the handful of small programs that change state on the way from a
package installation to an installed machine.

`dafny verify dfyconfig.toml` checks every file. Each area has a specification made of
functions on values, the laws proved about it, and, where the original is a script or a
method that changes things step by step, a class or method proved against the
specification.

**The finalizer** (`Image`, `Finalizer`, `FinalizerLaws`, `FinalizerScript`,
`EfiStaging`, `FinalizerOutcome`). `bootc-finalize` chooses a kernel, moves it into its
module directory, purges `/boot`, builds an initramfs, drops leftover directories, stages
the EFI binaries and publishes them; the kernel hook and package scripts re-enter it. The
filesystem is a map from typed paths to contents and a set of directories. dracut and
bootupctl are functions of what they read, the version sort is any total order.

**The GPU profile command** (`DcGpu`, `DcGpuLaws`, `DcGpuScript`, `DcGpuOutcome`).
`dc-gpu` writes six pieces of on-disk state from a stored profile and the hardware found
at that moment.

**The installer pipeline** (`Regex`, `Shapes`, `Forms`, `Lines`, `Hosts`, `Locale`,
`Keyboard`, `Installer`, `Fisherman`, `KernelArg`, `EndToEnd`, `Answers`). Python
validators and merges build a recipe that Go code applies after the disk is written.
Regular expressions are a datatype with a match relation and the two meanings of `$`;
scanners are proved to decide their languages, and the chain ends in what a reader of
each written file sees.

**The consent protocol** (`Consent`, `ConsentOutcome`, `Catalog`, `CatalogOutcome`,
`OstreeBase`). The installer stages its GPU choice through two privileged helpers that
share `/run/bootc-installer`; every command sequence is covered, with each call refused,
completed, or completed but reported as failed to the caller. `Catalog` is the image list
and the two licence tests on it.

**Releases and the lockfile** (`Pairing`, `Lockfile`). The NVIDIA release the kernel
modules are built at, the pins and the gate of the derived image, and the debs and the
lockfile of an apt2ostree derive.

`FinalizerOutcome`, `DcGpuOutcome`, `ConsentOutcome`, `CatalogOutcome` and `Answers` state
what a whole run or sequence of steps leaves, on literal paths, texts and answers; `Forms`
writes out the accepted names character by character. `Text` and `Sorting` hold the string
and ordering operations the others share.

## Where the code and its documentation differ

- `bootc-finalize` is described as idempotent. It generates the bootupd metadata before
  it writes the boot entry file, so on a fresh image a second run produces metadata that
  has seen that file (`FinalizerLaws.SecondRunDiffers`), and so does one executed kernel
  hook before the postinst's run (`FinalizerLaws.HookShows`). `FinalizerLaws.Idempotent`
  and `FinalizerLaws.HooksInvisible` give the exact conditions,
  `FinalizerLaws.RepeatedRuns` what holds always.
- The cleanup of leftover directories is skipped by the two early exits
  (`FinalizerLaws.CleanupExact`, `FinalizerLaws.LeftoverSurvives`). Kernels of other versions that are only in `/boot` are
  removed by the purge; only those already in a module directory are kept.
- The bootc package's postinst (`workflows/bootc-debs-builder/preinstall/output/bootc/DEBIAN/postinst:10`)
  pipes the finalizer into `tee` without `pipefail`, so an
  abort does not reach its error branch; the model speaks of completed runs.
- `user_groups` promises no duplicates, but keeps those of its base
  (`Installer.UserGroupsDistinct`, `Installer.DuplicatesKept`).
- `locale_config` promises that what it accepts is never rejected later. Python's `$` also
  holds before a trailing newline, so this is exact only without one
  (`EndToEnd.AcceptedExactly`); choices made on the system page never have one
  (`EndToEnd.PageChoicesAccepted`).
- The installer names the derived image by the convention `<base>-nvidia`. The helper
  records that name only with the podman engine, and only for a reference that its state
  file keeps, since reading strips it; with apt2ostree it records an ostree reference, so
  the recipe's image is never the recorded one (`Consent.StagedDerivation`,
  `Consent.BlankImgrefDiffers`).
- Two Containerfiles can give one tag, and then the two licence tests can disagree
  (`Catalog.CollisionDisagrees`); `Catalog.AgreeExactly` and `Catalog.GeneratedTestsAgree`
  say exactly when.
- The pin pattern leaves the dots of the release unescaped (`Pairing.UnescapedDot`,
  `Pairing.GateExactly`).

## Model

| member | source | states |
|---|---|---|
| FinalizerLaws.Idempotent | workflows/bootc-debs-builder/bootcpostinstall/usr/local/bin/bootc-finalize:14-128 | Header claim of idempotence, exactly: a second run changes nothing when the run takes an early exit, bootupctl is absent or the boot entry file was settled before the first run; for a completed run and a metadata generator whose output depends on that file, it changes nothing only when the file was settled |
| FinalizerLaws.SecondRunDiffers | workflows/bootc-debs-builder/bootcpostinstall/usr/local/bin/bootc-finalize:109-128 | Concrete fresh image on which the second run changes the bootupd metadata, because the metadata is generated before the boot entry file is written |
| FinalizerLaws.RepeatedRuns | workflows/bootc-debs-builder/bootcpostinstall/usr/local/bin/bootc-finalize:59-70 | For every generator, a repeated run differs from one run at most in the bootupd metadata, and from the second run on nothing changes any more |
| FinalizerLaws.HooksInvisible | workflows/bootc-debs-builder/bootcpostinstall/etc/kernel/postinst.d/zz-bootc-finalize:17-31 | Any number of hook firings for the newest kernel, each deferred or executed, before the argument-less run: same filesystem as that run alone outside the bootupd metadata, and that of two runs once a hook was executed; wholly the same when the run takes an early exit, bootupctl is absent, the boot entry file was settled or no hook was executed, and for a generator that reflects that file only then |
| FinalizerLaws.HookShows | workflows/bootc-debs-builder/bootcpostinstall/etc/kernel/postinst.d/zz-bootc-finalize:17-21 | Concrete fresh image on which one executed hook before the argument-less run changes the result |
| FinalizerLaws.LeftoverSurvives | workflows/bootc-debs-builder/bootcpostinstall/usr/local/bin/bootc-finalize:30-57 | Concrete image whose kernel has no vmlinuz: the run takes the early exit and a leftover directory survives |
| FinalizerLaws.SecondRunPublishes | workflows/bootc-debs-builder/bootcpostinstall/usr/local/bin/bootc-finalize:28-109 | After a completed run, everything up to bootupctl is a fixed point, so another run only regenerates the metadata and the boot entry file |
| FinalizerLaws.RebuildSettles | workflows/bootc-debs-builder/bootcpostinstall/usr/local/bin/bootc-finalize:45-107 | One rebuild from any relocated state reaches the settled layout: /boot purged, kernel and initramfs in place, no stale directory, EFI sources consumed, shim in both places |
| FinalizerLaws.SettledIsFixed | workflows/bootc-debs-builder/bootcpostinstall/usr/local/bin/bootc-finalize:45-107 | Rebuilding a settled layout gives back the same filesystem |
| FinalizerLaws.SameKernel | workflows/bootc-debs-builder/bootcpostinstall/usr/local/bin/bootc-finalize:14-22 | A completed run selects the same kernel again |
| FinalizerLaws.TreesKept | workflows/bootc-debs-builder/bootcpostinstall/usr/local/bin/bootc-finalize:48-57 | Every run keeps the set of directories holding a module tree and every entry, vmlinuz included, of the unselected ones |
| FinalizerLaws.CleanupExact | workflows/bootc-debs-builder/bootcpostinstall/usr/local/bin/bootc-finalize:23-57 | After an argument-less run every surviving visible directory holds a module tree, exactly when the run took no early exit or there was no leftover to begin with |
| FinalizerLaws.KernelInPlace | workflows/bootc-debs-builder/bootcpostinstall/usr/local/bin/bootc-finalize:25-45 | The selected kernel ends in its module directory with the content it had in /boot, or there already; nothing visible is left in /boot |
| FinalizerScript.ChooseKernel | workflows/bootc-debs-builder/bootcpostinstall/usr/local/bin/bootc-finalize:14-22 | The version-sorted loop picks the greatest visible directory holding a module tree, and nothing exactly when there is none |
| FinalizerScript.Machine.DropLeftovers | workflows/bootc-debs-builder/bootcpostinstall/usr/local/bin/bootc-finalize:51-57 | The in-place removal loop removes exactly the stale directories of the state it starts from |
| FinalizerScript.Machine.StageBinaries | workflows/bootc-debs-builder/bootcpostinstall/usr/local/bin/bootc-finalize:74-107 | The guarded moves and copies in place give the staged tree of the specification; FinalizerOutcome.StagedExactly says at which path each binary ends |
| FinalizerScript.Machine.PublishAll | workflows/bootc-debs-builder/bootcpostinstall/usr/local/bin/bootc-finalize:109-128 | bootupctl then boot entry file in place; aborts exactly when one of them does |
| FinalizerScript.Machine.Finalize | workflows/bootc-debs-builder/bootcpostinstall/usr/local/bin/bootc-finalize:14-128 | The whole script changing the filesystem in place: aborts exactly when the specification does and otherwise ends in its filesystem, whose paths the laws of FinalizerOutcome state |
| FinalizerScript.Machine.KernelHook | workflows/bootc-debs-builder/bootcpostinstall/etc/kernel/postinst.d/zz-bootc-finalize:22-31 | The hook does nothing while a tool is missing and otherwise hands its argument to the finalizer |
| FinalizerScript.Machine.ConfigureBootupd | workflows/bootc-debs-builder/preinstall/output/bootupd/DEBIAN/postinst:16-66 | The postinst in place: copies, metadata, the recorded default bootloader, boot entry files; fails exactly when bootupctl is absent or one of its two commands fails |
| EfiStaging.BinariesConserved | workflows/bootc-debs-builder/preinstall/output/bootupd/DEBIAN/postinst:16-43 | Through any sequence of the two scripts GRUB keeps its content in its package or in the grub2 component, and the shim, the fallback and MokManager in theirs or in the shim component |
| EfiStaging.ShimStaged | workflows/bootc-debs-builder/bootcpostinstall/usr/local/bin/bootc-finalize:86-96 | After one or more steps the shim content is at both EFI/BOOT/BOOTX64.EFI and EFI/debian/shimx64.efi of the shim component |
| EfiStaging.Confluent | workflows/bootc-debs-builder/bootcpostinstall/usr/local/bin/bootc-finalize:71-107 | On amd64 any order and repetition of the bootupd postinst and of runs for the newest kernel, at least one run among them, ends where a single run ends, apart from bootupd metadata and boot entry files |
| FinalizerOutcome.StagedExactly | workflows/bootc-debs-builder/bootcpostinstall/usr/local/bin/bootc-finalize:74-107 | With both signed packages a completed run empties the package paths and leaves GRUB in the grub2 component, and the shim, the fallback and MokManager in the shim component, each with its packaged content or, without a package, the one staged before; the shim also in the vendor directory |
| FinalizerOutcome.UnsignedKept | workflows/bootc-debs-builder/bootcpostinstall/usr/local/bin/bootc-finalize:74 | Without one of the two packages no packaged binary moves and no staged one changes |
| FinalizerOutcome.EarlyExits | workflows/bootc-debs-builder/bootcpostinstall/usr/local/bin/bootc-finalize:28-33 | No kernel in /boot or in place: nothing is written; a kernel in /boot without its module directory aborts; every other run goes on to dracut |
| FinalizerOutcome.SelectedExactly | workflows/bootc-debs-builder/bootcpostinstall/usr/local/bin/bootc-finalize:14-23 | The selected kernel is the argument, or the greatest visible directory with a kernel tree or a modules.dep, and empty only when there is none |
| FinalizerOutcome.RunClears | workflows/bootc-debs-builder/bootcpostinstall/usr/local/bin/bootc-finalize:45-57 | Only dot entries are left in /boot, and no visible module directory without a module tree but the selected one |
| FinalizerOutcome.ModulesExactly | workflows/bootc-debs-builder/bootcpostinstall/usr/local/bin/bootc-finalize:48-57 | Leftover directories go with everything below them; of every other module directory only the selected kernel and its initramfs change |
| FinalizerOutcome.InitramfsFits | workflows/bootc-debs-builder/bootcpostinstall/usr/local/bin/bootc-finalize:46 | The initramfs is what dracut makes of the module directory that the run leaves |
| FinalizerOutcome.OthersStay | workflows/bootc-debs-builder/bootcpostinstall/usr/local/bin/bootc-finalize:14-128 | Dot entries of /boot, the arm64 binaries, the packaged boot entries and every file outside the scripts' areas stay |
| FinalizerOutcome.PublishedExactly | workflows/bootc-debs-builder/bootcpostinstall/usr/local/bin/bootc-finalize:109-128 | With the vendor directory of a shim version the product's boot entry is there; with bootupctl the metadata area is exactly what it generated from the staged tree |
| FinalizerOutcome.ConfiguredExactly | workflows/bootc-debs-builder/preinstall/output/bootupd/DEBIAN/postinst:16-43 | The postinst copies the shim and MokManager of either architecture to the firmware's path and the shim to the vendor directory; an unknown shim version counts as 0 |
| FinalizerOutcome.ConfiguredMetadata | workflows/bootc-debs-builder/preinstall/output/bootupd/DEBIAN/postinst:45-54 | The metadata is what bootupctl generated from the staged tree, with the default bootloader recorded |
| FinalizerOutcome.ConfiguredEntries | workflows/bootc-debs-builder/preinstall/output/bootupd/DEBIAN/postinst:56-66 | The packaged boot entry of each architecture ends in the vendor directory |
| DcGpuLaws.HistoryIndependent | src/basepostinstall/usr/sbin/dc-gpu:84-88 | After any sequence of commands the linker file, the environment file, the modules fragment and the ICD directory it points at are those of the last applied profile on the machine of that moment |
| DcGpuLaws.NothingApplied | src/basepostinstall/usr/sbin/dc-gpu:193-215 | Without a completed set or apply no file changes, whatever commands were refused |
| DcGpuLaws.AppliedIsStored | src/basepostinstall/usr/sbin/dc-gpu:66-68 | The stored profile is the last one set, and the last application used it |
| DcGpuLaws.FilesAgree | src/basepostinstall/usr/sbin/dc-gpu:129-182 | Linker file and environment file both exist or neither does and name one profile; whenever OCL_ICD_VENDORS is written the merged directory is exactly the build's ICDs overridden by the host's |
| DcGpuLaws.OclLineMarksOpenCL | src/basepostinstall/usr/sbin/dc-gpu:145-180 | The environment file points at the merged directory exactly when the build ships ICDs |
| DcGpuLaws.MergedExact | src/basepostinstall/usr/sbin/dc-gpu:168-177 | Name by name: a link exists for each ICD of the build or the host, and points at the host's file when the host has one |
| DcGpuLaws.SetThenApply | src/basepostinstall/usr/sbin/dc-gpu:23-25 | The boot-time apply changes nothing right after a set on the same machine |
| DcGpuLaws.ActiveReadsBack | src/basepostinstall/usr/sbin/dc-gpu:184-191 | The profile that status reports is the one the linker file was written for, exactly when it holds no slash and no newline |
| DcGpuLaws.SearchListExact | src/basepostinstall/usr/sbin/dc-gpu:101-113 | A loader that splits the written list at the colons gets the listed files in order, exactly when no path holds a colon |
| DcGpuLaws.MatchingAllExact | src/basepostinstall/usr/sbin/dc-gpu:103-111 | The list holds exactly the existing files with the suffix, over all given directories |
| DcGpuScript.DetectVendors | src/basepostinstall/usr/sbin/dc-gpu:54-64 | The vendor list holds exactly the detected vendors, sorted and each once |
| DcGpuScript.ResolveProfile | src/basepostinstall/usr/sbin/dc-gpu:90-99 | The loop over the connectors resolves auto to the specified profile; DcGpuOutcome.ProfileDecides says that it is gaming with a connected display and ia without |
| DcGpuScript.JoinFiles | src/basepostinstall/usr/sbin/dc-gpu:103-113 | The nested globs with the conditional colon give the colon-joined list |
| DcGpuScript.JoinDirs | src/basepostinstall/usr/sbin/dc-gpu:116-123 | The existing directories, colon-joined |
| DcGpuScript.JoinVa | src/basepostinstall/usr/sbin/dc-gpu:158-163 | The VA-API list: the build's drivers first, then the existing host directories |
| DcGpuScript.MergeIcds | src/basepostinstall/usr/sbin/dc-gpu:167-177 | The two link loops leave the build's links overridden by the host's |
| DcGpuScript.LoaderLines | src/basepostinstall/usr/sbin/dc-gpu:145-166 | The lines of the environment file in order, without the OpenCL one |
| DcGpuScript.Files.UserspaceOf | src/basepostinstall/usr/sbin/dc-gpu:133-182 | userspace on the files in place |
| DcGpuScript.Files.ApplyProfile | src/basepostinstall/usr/sbin/dc-gpu:71-88 | apply on the files in place, the modules loop included; DcGpuOutcome states the resulting texts |
| DcGpuScript.Files.Invoke | src/basepostinstall/usr/sbin/dc-gpu:193-215 | The dispatch: new files and exit status of every command line; DcGpuOutcome.CommandLine lists the accepted ones |
| DcGpuOutcome.ProfileDecides | src/basepostinstall/usr/sbin/dc-gpu:71-99 | After any commands the profile of the last set or apply decides: auto points the linker and the loaders at gaming when some readable connector reads connected and at ia otherwise, any other profile at itself, or at nothing when the build is not installed; the NVIDIA modules are listed exactly with a vendor 0x10de, the consent file and a profile other than gaming |
| DcGpuOutcome.DetectedExactly | src/basepostinstall/usr/sbin/dc-gpu:54-64 | The detected vendors are those of the three PCI ids |
| DcGpuOutcome.CommandLine | src/basepostinstall/usr/sbin/dc-gpu:193-215 | The command lines that exit with 0 and those that exit with 2; only set stores a profile, and refused commands and status write nothing |
| DcGpuOutcome.VariablesExactly | src/basepostinstall/usr/sbin/dc-gpu:143-182 | The environment file has the header and exactly one line for each part that the build or the host offers |
| DcGpuOutcome.IcdsExactly | src/basepostinstall/usr/sbin/dc-gpu:167-178 | The merged directory links each ICD of the build or the host by name, to the host's file when there is one |
| DcGpuOutcome.SearchListLaws | src/basepostinstall/usr/sbin/dc-gpu:101-113 | A search list goes directory by directory and file by file, each existing file with the suffix as its path |
| DcGpuOutcome.ExistingLaws | src/basepostinstall/usr/sbin/dc-gpu:116-123 | The existing directories in the given order |
| Regex.PythonVersusGo | workflows/bootc-debs-builder/bootc-installer-src/bootc_installer/utils/locale_config.py:18-23 | For every anchored pattern without inner anchors: Python accepts a text iff Go accepts it, or it is a text Go accepts plus one newline |
| Regex.Local | workflows/bootc-debs-builder/bootc-installer-src/bootc_installer/utils/locale_config.py:20-23 | A match without anchors depends neither on the dialect nor on the surrounding text |
| Shapes.LocaleVersus | workflows/bootc-debs-builder/bootc-installer-src/bootc_installer/utils/locale_config.py:20-35 | The locale pattern in the two languages: equal up to one trailing newline, which Go never accepts |
| Shapes.XkbVersus | workflows/bootc-debs-builder/bootc-installer-src/bootc_installer/utils/locale_config.py:23-56 | The same for the XKB pattern |
| Shapes.XkbExact | workflows/bootc-debs-builder/fisherman-src/fisherman/internal/post/locale.go:18-20 | The XKB language: non-empty names separated by single commas |
| Shapes.HostnameVersus | workflows/bootc-debs-builder/bootc-installer-src/bootc_installer/utils/system_config.py:10-29 | Python's hostname pattern is exactly the RFC 1123 label (section 2.1) of 1 to 63 characters with an optional trailing newline; without one Go accepts every such label |
| Shapes.LabelExact | workflows/bootc-debs-builder/bootc-installer-src/bootc_installer/utils/system_config.py:10 | The label pattern with its counted repetition is the length, character and end conditions |
| Shapes.HostExact | workflows/bootc-debs-builder/fisherman-src/fisherman/internal/post/hosts.go:23 | Go's hostname language |
| Shapes.ScanLocale | workflows/bootc-debs-builder/fisherman-src/fisherman/internal/post/locale.go:13-16 | A left-to-right scanner decides exactly the language of the Go locale pattern |
| Shapes.ScanXkb | workflows/bootc-debs-builder/fisherman-src/fisherman/internal/post/locale.go:18-20 | A one-pass scanner decides exactly the language of the XKB pattern |
| Shapes.ScanHost | workflows/bootc-debs-builder/fisherman-src/fisherman/internal/post/hosts.go:20-23 | A scanner decides exactly Go's hostname pattern |
| Shapes.ValidLocale | workflows/bootc-debs-builder/bootc-installer-src/bootc_installer/utils/locale_config.py:26-35 | valid_locale decides exactly the Python language |
| Shapes.ValidXkb | workflows/bootc-debs-builder/bootc-installer-src/bootc_installer/utils/locale_config.py:38-56 | The XKB test decides exactly the Python language |
| Shapes.ValidHostname | workflows/bootc-debs-builder/bootc-installer-src/bootc_installer/utils/system_config.py:20-29 | valid_hostname decides exactly the Python language |
| Forms.LocaleForm | workflows/bootc-debs-builder/fisherman-src/fisherman/internal/post/locale.go:13-16 | The Go locale language, written out: a language of 1 to 3 letters, an optional territory, a dot, a charset, an optional modifier |
| Forms.XkbForm | workflows/bootc-debs-builder/fisherman-src/fisherman/internal/post/locale.go:18-20 | The XKB language, written out character by character |
| Forms.HostForm | workflows/bootc-debs-builder/fisherman-src/fisherman/internal/post/hosts.go:20-23 | Go's hostname language, written out |
| Forms.LabelForm | workflows/bootc-debs-builder/bootc-installer-src/bootc_installer/utils/system_config.py:10-29 | Without a trailing newline the installer's hostnames are 1 to 63 letters, digits and hyphens, no hyphen at an end |
| Hosts.RewriteIsReplacement | workflows/bootc-debs-builder/fisherman-src/fisherman/internal/post/hosts.go:50-57 | The new content is what replacing every match of the multi-line pattern gives, with the line appended on its own line when the result has no match |
| Hosts.ReplaceIsByLines | workflows/bootc-debs-builder/fisherman-src/fisherman/internal/post/hosts.go:18 | Replacing all greedy matches of the pattern, left to right, replaces exactly the lines that hold the address, blanks and something more |
| Hosts.MatchStringExact | workflows/bootc-debs-builder/fisherman-src/fisherman/internal/post/hosts.go:52 | MatchString finds the pattern exactly when some line is such an entry |
| Hosts.RewriteAbsorbs | workflows/bootc-debs-builder/fisherman-src/fisherman/internal/post/hosts.go:25-30 | A later rewrite absorbs an earlier one for every content; with equal hosts, idempotence |
| Hosts.OtherLinesKept | workflows/bootc-debs-builder/fisherman-src/fisherman/internal/post/hosts.go:50-57 | Every line that is no bootstrap line stays in place, byte for byte |
| Hosts.BootstrapNamesHost | workflows/bootc-debs-builder/fisherman-src/fisherman/internal/post/hosts.go:25-29 | At least one bootstrap line exists and all of them name the host |
| Locale.SupportedLocales | workflows/bootc-debs-builder/bootc-installer-src/bootc_installer/utils/locale_config.py:59-82 | Exactly the offered locales, in order, each once |
| Locale.OfferedPasses | workflows/bootc-debs-builder/bootc-installer-src/bootc_installer/utils/locale_config.py:18-19 | Every locale the list offers passes fisherman's check |
| Locale.GenFileReadsBack | workflows/bootc-debs-builder/fisherman-src/fisherman/internal/post/locale.go:37-42 | The locale.gen line written for a valid locale is read back by the locale list as exactly that locale when its charset is UTF-8, and as nothing otherwise |
| Locale.KeyboardFileReadsBack | workflows/bootc-debs-builder/fisherman-src/fisherman/internal/post/locale.go:68-69 | The keyboard file read back as shell assignments gives the model, layout and variant written |
| Locale.AssignsReadBack | workflows/bootc-debs-builder/fisherman-src/fisherman/internal/post/locale.go:68-69 | Reading back quoted assignments with distinct names gives each value |
| Keyboard.KeyboardLayouts | workflows/bootc-debs-builder/bootc-installer-src/bootc_installer/utils/locale_config.py:85-125 | The loop returns a rearrangement of the plain and owned entries, sorted by folded description, layout, variant |
| Keyboard.LayoutsExact | workflows/bootc-debs-builder/bootc-installer-src/bootc_installer/utils/locale_config.py:105-114 | A layout is listed with a description iff that is the text of its last accepted layout line |
| Keyboard.VariantsExact | workflows/bootc-debs-builder/bootc-installer-src/bootc_installer/utils/locale_config.py:115-118 | One variant for each accepted variant line with a description, in order |
| Keyboard.OwnedExact | workflows/bootc-debs-builder/bootc-installer-src/bootc_installer/utils/locale_config.py:119-122 | A variant entry is listed iff its owner is a layout, with the layout's description in front |
| Keyboard.PlainExact | workflows/bootc-debs-builder/bootc-installer-src/bootc_installer/utils/locale_config.py:119 | Exactly one plain entry for each layout |
| Keyboard.OncePerLayout | workflows/bootc-debs-builder/bootc-installer-src/bootc_installer/utils/locale_config.py:119 | Each layout has one plain entry, however many lines describe it |
| Keyboard.OncePerVariantLine | workflows/bootc-debs-builder/bootc-installer-src/bootc_installer/utils/locale_config.py:120-122 | An owned entry is listed as often as there are accepted variant lines that give it |
| Keyboard.SectionOrder | workflows/bootc-debs-builder/bootc-installer-src/bootc_installer/utils/locale_config.py:102-118 | It does not matter whether the variant sections come before or after the layout sections |
| Keyboard.EntriesPass | workflows/bootc-debs-builder/bootc-installer-src/bootc_installer/utils/locale_config.py:18-19 | Every offered keyboard passes fisherman's check |
| Locale.OfferedExactly | workflows/bootc-debs-builder/bootc-installer-src/bootc_installer/utils/locale_config.py:59-82 | A line of two words offers its locale when the second is UTF-8 and the first passes; a line of one or three words offers nothing |
| Locale.CharsetExactly | workflows/bootc-debs-builder/fisherman-src/fisherman/internal/post/locale.go:36-37 | The charset is the part after the first dot and before the at sign |
| Locale.KeyboardText | workflows/bootc-debs-builder/fisherman-src/fisherman/internal/post/locale.go:68-69 | The five lines of the keyboard file |
| Keyboard.HeaderExactly | workflows/bootc-debs-builder/bootc-installer-src/bootc_installer/utils/locale_config.py:106-107 | `! layout` opens the section layout, and so for every name |
| Keyboard.OwnerExactly | workflows/bootc-debs-builder/bootc-installer-src/bootc_installer/utils/locale_config.py:116-118 | A variant text splits at its first colon and blank into owner and description |
| Keyboard.LineExactly | workflows/bootc-debs-builder/bootc-installer-src/bootc_installer/utils/locale_config.py:105-112 | What each kind of line is to the reader |
| Installer.UserGroupsAbsorb | workflows/bootc-debs-builder/bootc-installer-src/bootc_installer/utils/system_config.py:45-60 | Regrouping after any earlier sudo choice equals grouping the base directly |
| Installer.UserGroupsMembers | workflows/bootc-debs-builder/bootc-installer-src/bootc_installer/utils/system_config.py:45-60 | Membership: base without the admin group, the Debian groups, and the admin group exactly when wanted |
| Installer.UserGroupsDistinct | workflows/bootc-debs-builder/bootc-installer-src/bootc_installer/utils/system_config.py:52-60 | The result has no duplicates exactly when the base, admin group aside, had none; the documented absence of duplicates fails otherwise |
| Installer.DuplicatesKept | workflows/bootc-debs-builder/bootc-installer-src/bootc_installer/utils/system_config.py:52-60 | Concrete base whose repeated group stays repeated |
| Installer.GroupsOf | workflows/bootc-debs-builder/bootc-installer-src/bootc_installer/utils/system_config.py:45-60 | The list operations of user_groups compute the specification |
| Installer.SystemMergeIdempotent | workflows/bootc-debs-builder/bootc-installer-src/bootc_installer/utils/system_config.py:63-80 | Merging the system step twice is merging it once |
| Installer.GpuMergeIdempotent | workflows/bootc-debs-builder/bootc-installer-src/bootc_installer/utils/gpu_config.py:188-215 | Merging the GPU step twice is merging it once |
| Installer.LocaleMergeIdempotent | workflows/bootc-debs-builder/bootc-installer-src/bootc_installer/utils/locale_config.py:128-151 | Merging the locale choices twice is merging them once |
| Installer.SystemLocaleCommute | workflows/bootc-debs-builder/bootc-installer-src/bootc_installer/utils/processor.py.patch:21-22 | The system and locale merges commute |
| Installer.SystemGpuCommute | workflows/bootc-debs-builder/bootc-installer-src/bootc_installer/utils/processor.py.patch:21-23 | The system and GPU merges commute |
| Installer.LocaleGpuCommute | workflows/bootc-debs-builder/bootc-installer-src/bootc_installer/utils/processor.py.patch:22-23 | The locale and GPU merges commute |
| Installer.RecipeDict.MergeSystem | workflows/bootc-debs-builder/bootc-installer-src/bootc_installer/utils/system_config.py:63-80 | apply_system changing the recipe in place; Answers.AccountAnswers ties the result to the answers |
| Installer.RecipeDict.MergeLocale | workflows/bootc-debs-builder/bootc-installer-src/bootc_installer/utils/locale_config.py:128-151 | apply_locale changing the recipe in place, with the validators as scanners |
| Installer.RecipeDict.MergeGpu | workflows/bootc-debs-builder/bootc-installer-src/bootc_installer/utils/gpu_config.py:188-215 | apply_gpu changing the recipe in place |
| Answers.AccountAnswers | workflows/bootc-debs-builder/bootc-installer-src/bootc_installer/utils/system_config.py:63-80 | For every step: a non-empty root password and the ssh choice are the recipe's, and the user's groups are the base, the Debian groups, and sudo exactly when it was not refused |
| Answers.GroupsInOrder | workflows/bootc-debs-builder/bootc-installer-src/bootc_installer/utils/system_config.py:52-60 | The order of the groups: sudo, the user's own, the Debian ones |
| Answers.GpuAnswers | workflows/bootc-debs-builder/bootc-installer-src/bootc_installer/utils/gpu_config.py:188-215 | For every step: usage, consent, the set of each usage with and without NVIDIA, the derived image and the signature enforcement in the recipe |
| Answers.NameAnswers | workflows/bootc-debs-builder/bootc-installer-src/bootc_installer/utils/locale_config.py:128-151 | For every step: a locale and a keyboard that pass Python's patterns are taken over, with pc105 for a missing model, and any other choice is dropped |
| Answers.SystemInstalled | workflows/bootc-debs-builder/fisherman-src/fisherman/cmd/fisherman/main.go.patch:76-90 | The ssh answer is the sshd policy of the installed system, and updates are masked when they were switched off |
| Answers.LocaleInstalled | workflows/bootc-debs-builder/fisherman-src/fisherman/cmd/fisherman/main.go.patch:59-64 | A locale that passes Python's pattern is the LANG line of the installed system; otherwise its files are left alone |
| Answers.KeyboardInstalled | workflows/bootc-debs-builder/fisherman-src/fisherman/cmd/fisherman/main.go.patch:66-75 | The three names of a valid keyboard are read back from the installed file |
| Answers.GpuInstalled | workflows/bootc-debs-builder/fisherman-src/fisherman/cmd/fisherman/main.go.patch:90-102 | Usage, set and consent of the installed system for each answer |
| Answers.PolicyInstalled | workflows/bootc-debs-builder/fisherman-src/fisherman/internal/post/gpu.go:88-96 | The loader policy file delivered for each answer |
| Answers.HostInstalled | workflows/bootc-debs-builder/fisherman-src/fisherman/internal/post/hosts.go:50-57 | With a hostname there is a 127.0.1.1 line, and every one is the address, a tab, the name under .local and the name |
| Answers.PostExactly | workflows/bootc-debs-builder/fisherman-src/fisherman/cmd/fisherman/main.go.patch:50-102 | For every recipe the post steps succeed exactly when the names are well formed, usage and set are known and the policy is on the medium |
| KernelArg.LoaderEntries.EnsureKernelArg | workflows/bootc-debs-builder/fisherman-src/fisherman/internal/post/gpu.go:107-133 | Succeeds exactly when an entry exists and all can be patched; then the count is the number of entries that lacked the argument, over both directories, every entry carries it, and each keeps its arguments in order; after a failure every entry is as it was or extended |
| KernelArg.LoaderEntries.PatchAll | workflows/bootc-debs-builder/fisherman-src/fisherman/internal/post/gpu.go:119-127 | One directory's loop, stopping at the first entry that cannot be patched |
| KernelArg.LackingExactly | workflows/bootc-debs-builder/fisherman-src/fisherman/internal/post/gpu.go:107-133 | Each patchable entry without the argument counts once |
| KernelArg.SecondRunAddsNothing | workflows/bootc-debs-builder/fisherman-src/fisherman/internal/post/gpu.go:100-106 | After success a second call counts zero and changes nothing |
| Fisherman.Target.HostsBootstrap | workflows/bootc-debs-builder/fisherman-src/fisherman/internal/post/hosts.go:31-65 | WriteHostsBootstrap on the target: refuses exactly invalid hostnames without writing, writes the rewritten content, and counts a write exactly when the content changes |
| Fisherman.RewriteText | workflows/bootc-debs-builder/fisherman-src/fisherman/internal/post/hosts.go:50-57 | The line loop computes the new content |
| Fisherman.Target.LocaleFiles | workflows/bootc-debs-builder/fisherman-src/fisherman/internal/post/locale.go:26-49 | WriteLocale: both files or a refusal that writes nothing |
| Fisherman.Target.KeyboardSettings | workflows/bootc-debs-builder/fisherman-src/fisherman/internal/post/locale.go:55-75 | WriteKeyboard: the file or a refusal that writes nothing |
| Fisherman.Target.GpuSteps | workflows/bootc-debs-builder/fisherman-src/fisherman/cmd/fisherman/main.go.patch:76-102 | The update timer, sshd policy, GPU profile and module set steps in the order of main |
| Fisherman.Target.Install | workflows/bootc-debs-builder/fisherman-src/fisherman/cmd/fisherman/main.go.patch:50-102 | The post steps in order; succeeds exactly when no step is fatal, and then the files are those of the specification |
| EndToEnd.AcceptedExactly | workflows/bootc-debs-builder/bootc-installer-src/bootc_installer/utils/locale_config.py:18-19 | The recipe the installer builds is accepted by every post step exactly when no name in it ends in a newline |
| EndToEnd.CleanStepsAccepted | workflows/bootc-debs-builder/bootc-installer-src/bootc_installer/utils/locale_config.py:128-151 | For all step results whose strings do not end in a newline, nothing the installer accepted is refused after the disk was written |
| EndToEnd.PageChoicesAccepted | workflows/bootc-debs-builder/bootc-installer-src/bootc_installer/defaults/system.py:70-111 | What is chosen on the system page from the lists of any live system is never refused after the disk was written |
| EndToEnd.NewlineRefused | workflows/bootc-debs-builder/fisherman-src/fisherman/internal/post/locale.go:26-29 | Concrete locale the installer accepts and fisherman refuses after the disk write |
| EndToEnd.FilesHoldChoices | workflows/bootc-debs-builder/fisherman-src/fisherman/cmd/fisherman/main.go.patch:50-102 | After the post steps the hosts, locale, keyboard, update timer, sshd policy, usage, consent, set and loader policy files, the parsed ones read by their readers, hold exactly the recipe's choices; a choice not made leaves its files alone |
| Consent.CommandKeeps | src/buildisopreinstall/usr/libexec/debian-bootc/nvidia-eula-stage:133-220 | A refused helper command changes no recorded value; every command keeps recorded usage and set absent or legal, and never withdraws consent |
| Consent.AlwaysLegal | src/buildisopreinstall/usr/libexec/debian-bootc/gpu-set-stage.py:278-332 | The same over every sequence of helper commands with any outcome of each call |
| Consent.ConsentIsExplicit | src/buildisopreinstall/usr/libexec/debian-bootc/nvidia-eula-stage:143-158 | Consent appears only through an accept command that was scripted or typed the exact word |
| Consent.StagedChoice | workflows/bootc-debs-builder/bootc-installer-src/bootc_installer/utils/gpu_config.py:123-185 | When stage_choice returns true, an image requiring the licence implies recorded consent, and recorded usage and set are those of the call |
| Consent.StagedDerivation | src/buildisopreinstall/usr/libexec/debian-bootc/gpu-set-stage.py:431-460 | For both engines: the recorded derived image is the image apply_gpu puts in the recipe exactly when the engine is podman and the reference survives the state file; podman records the base as read back plus -nvidia, apt2ostree the derived ref in the repository that the chosen image names |
| Consent.BlankImgrefDiffers | src/buildisopreinstall/usr/libexec/debian-bootc/gpu-set-stage.py:733-775 | Concrete session: a reference with a trailing blank is staged with podman and the recorded image is not the one apply_gpu puts in the recipe |
| Consent.UncleanDiffers | src/buildisopreinstall/usr/libexec/debian-bootc/gpu-set-stage.py:314-332 | The same for every reference that does not survive the state file and is not read back empty |
| Consent.StageRuns | workflows/bootc-debs-builder/bootc-installer-src/bootc_installer/utils/gpu_config.py:170-185 | When every call is authorised and seen, a choice is staged exactly when the licence gate lets the image through and the derive part succeeds |
| Consent.PageSetVersusRecipe | workflows/bootc-debs-builder/bootc-installer-src/bootc_installer/defaults/gpu_security.py:91-108 | The set the page records equals the recipe's set exactly when no licence was needed, since the page passes no nvidia flag |
| Consent.PageSucceeds | workflows/bootc-debs-builder/bootc-installer-src/bootc_installer/defaults/gpu_security.py:91-100 | When every call is authorised and seen, the page's choice is staged exactly when the helper demands no licence that the GUI did not ask for and none was accepted; on a catalog of distinct references always |
| Consent.Helpers.Stage | workflows/bootc-debs-builder/bootc-installer-src/bootc_installer/utils/gpu_config.py:123-185 | stage_choice as its loop over the command list, stopping at the first refusal; ConsentOutcome.StagedExactly states the recorded texts |
| Consent.ListCommands | workflows/bootc-debs-builder/bootc-installer-src/bootc_installer/utils/gpu_config.py:149-169 | The command list built by appending |
| ConsentOutcome.DeriveSucceeds | src/buildisopreinstall/usr/libexec/debian-bootc/gpu-set-stage.py:431-460 | A derive succeeds exactly for an -nvidia set whose programs succeed, with the tool and an ostree base for apt2ostree, with a base for podman; a refused one records nothing |
| ConsentOutcome.DeriveRecords | src/buildisopreinstall/usr/libexec/debian-bootc/gpu-set-stage.py:727-728 | The text each engine records |
| ConsentOutcome.ExecExactly | src/buildisopreinstall/usr/libexec/debian-bootc/nvidia-eula-stage:133-220 | Each other command: what it accepts and the text it records; the gate passes exactly with consent or when no entry of the reference has a licence |
| ConsentOutcome.CommandsExactly | workflows/bootc-debs-builder/bootc-installer-src/bootc_installer/utils/gpu_config.py:149-169 | The command list for every combination of acceptance, image and NVIDIA flag |
| ConsentOutcome.RefusedRecordsNothing | workflows/bootc-debs-builder/bootc-installer-src/bootc_installer/utils/gpu_config.py:123-185 | A choice whose image the helper refuses is not staged and records no set, base or derived image, whatever happens to the calls |
| ConsentOutcome.StagedExactly | src/buildisopreinstall/usr/libexec/debian-bootc/gpu-set-stage.py:727-775 | The state files after a staged choice with the NVIDIA flag, for both engines |
| ConsentOutcome.RecordedInBase | src/buildisopreinstall/usr/libexec/debian-bootc/gpu-set-stage.py:727-728 | For a clean reference ostree:<repo>#<ref> apt2ostree records the derived ref of the set in that repository |
| Catalog.TestsAgree | workflows/bootc-debs-builder/bootc-installer-src/bootc_installer/utils/gpu_config.py:54-70 | The GUI's first-match licence test implies the helper's any-match test on every catalog, and they coincide when references are distinct |
| Catalog.AgreeExactly | src/buildisopreinstall/usr/libexec/debian-bootc/nvidia-eula-stage:178-206 | On every catalog the two tests agree about every reference exactly when no reference has a first entry without licence and a later one with it |
| Catalog.DisagreeExactly | src/buildisopreinstall/usr/libexec/debian-bootc/nvidia-eula-stage:178-206 | The same for one reference |
| Catalog.FilesDisagreeExactly | src/buildisopreinstall/usr/libexec/debian-bootc/gen-recipe.py:84-117 | On a generated catalog they disagree about the image of a tag and an architecture exactly when the first listed file of the two has no licence and another listed one has |
| Catalog.GeneratedTestsAgree | src/buildisopreinstall/usr/libexec/debian-bootc/gen-recipe.py:84-117 | They agree about every reference of a generated catalog exactly when no tag and architecture has a first listed file without licence and another with it, which never happens when no two files of one tag are listed for one architecture |
| Catalog.CollisionDisagrees | src/buildisopreinstall/usr/libexec/debian-bootc/nvidia-eula-stage:200-206 | On two files of one tag with the licence on the second only, the GUI does not ask and the helper refuses |
| Catalog.LatestCollides | src/buildisopreinstall/usr/libexec/debian-bootc/gen-recipe.py:91 | Containerfile and Containerfile.latest are two such files |
| Catalog.GuiFirstMatch | workflows/bootc-debs-builder/bootc-installer-src/bootc_installer/utils/gpu_config.py:65-70 | The GUI's verdict position by position: the first entry with the reference decides |
| Catalog.EulaRequired | workflows/bootc-debs-builder/bootc-installer-src/bootc_installer/utils/gpu_config.py:54-70 | eula_required as its loop |
| Catalog.ImageRequiresEula | src/buildisopreinstall/usr/libexec/debian-bootc/nvidia-eula-stage:200-206 | image_requires_eula as its loop |
| Catalog.DistinctExactly | src/buildisopreinstall/usr/libexec/debian-bootc/gen-recipe.py:90-115 | References of the generated catalog are pairwise distinct exactly when no two files of one tag are listed for one architecture |
| Catalog.FilterCommutes | src/buildisopreinstall/usr/libexec/debian-bootc/gen-recipe.py:81 | Generating for one architecture is filtering the full catalog, order kept; empty for an unknown architecture |
| Catalog.DefaultExactly | src/buildisopreinstall/usr/libexec/debian-bootc/gen-recipe.py:153 | The default image is empty exactly when the catalog is, which is when no file is listed for a wanted architecture |
| Catalog.BuildImages | src/buildisopreinstall/usr/libexec/debian-bootc/gen-recipe.py:90-117 | The nested loops append the catalog in order |
| Catalog.ReadLabel | src/buildisopreinstall/usr/libexec/debian-bootc/gen-recipe.py:53-61 | The line loop returns the first matching label |
| Catalog.LabelReadsBack | src/buildisopreinstall/usr/libexec/debian-bootc/gen-recipe.py:53-60 | A quoted label is read back without quotes and outer blanks |
| CatalogOutcome.FileEntries | src/buildisopreinstall/usr/libexec/debian-bootc/gen-recipe.py:84-115 | The catalog of one file: amd64 before arm64, each when its label names it or names none, with registry, tag and architecture in the reference |
| CatalogOutcome.FilesInOrder | src/buildisopreinstall/usr/libexec/debian-bootc/gen-recipe.py:90-117 | The catalog of several files is that of the first ones and then of the others |
| CatalogOutcome.AmdOnly | src/buildisopreinstall/usr/libexec/debian-bootc/gen-recipe.py:94-97 | A file labelled for amd64 only has no arm64 entry |
| CatalogOutcome.TagExactly | src/buildisopreinstall/usr/libexec/debian-bootc/gen-recipe.py:91 | The tag is what follows `Containerfile.`, latest for the bare name |
| CatalogOutcome.DefaultFirst | src/buildisopreinstall/usr/libexec/debian-bootc/gen-recipe.py:153 | The default image is the reference of the first file listed for the wanted architecture |
| CatalogOutcome.DefaultOfAll | src/buildisopreinstall/usr/libexec/debian-bootc/gen-recipe.py:153 | Without a wanted architecture it is that file's amd64 entry, or else its arm64 one |
| CatalogOutcome.FirstDecides | src/buildisopreinstall/usr/libexec/debian-bootc/gen-recipe.py:53-61 | The first line that carries the label decides; without one the value is empty |
| CatalogOutcome.OtherKey | src/buildisopreinstall/usr/libexec/debian-bootc/gen-recipe.py:53-55 | A label line with another key does not count |
| OstreeBase.ReadBackExactly | src/buildisopreinstall/usr/libexec/debian-bootc/gpu-set-stage.py:314-332 | A recorded value is read back unchanged exactly when it has no carriage return and no blank at either end |
| OstreeBase.ParseInvertsPrint | src/buildisopreinstall/usr/libexec/debian-bootc/gpu-set-stage.py:463-482 | The base parser inverts the printer exactly for a normalised repository, whatever # or : it holds, and a non-empty ref without # |
| OstreeBase.NormalIdempotent | src/buildisopreinstall/usr/libexec/debian-bootc/gpu-set-stage.py:482 | Path normalisation is idempotent and never empty |
| OstreeBase.DerivedIsBase | src/buildisopreinstall/usr/libexec/debian-bootc/gpu-set-stage.py:710-729 | The reference a successful apt2ostree derive prints is a valid base naming the same repository and the derived ref |
| OstreeBase.RecordedIsBase | src/buildisopreinstall/usr/libexec/debian-bootc/gpu-set-stage.py:727-728 | Also after the state file, and it is the same reference exactly when the repository path has no carriage return |
| Lockfile.Cache.CollectedDebs | src/buildisopreinstall/usr/libexec/debian-bootc/gpu-set-stage.py:485-526 | Fails exactly when some turn leaves its package without a deb, given the files cached and downloaded up to that turn; otherwise exactly one deb for each required package in order, its file name prefix being the package: the first cached one, else the greatest one of the turn that found it |
| Lockfile.Cache.FirstDebs | src/buildisopreinstall/usr/libexec/debian-bootc/gpu-set-stage.py:502-503 | The first cached deb of each name prefix in file name order |
| Lockfile.Cache.Pull | src/buildisopreinstall/usr/libexec/debian-bootc/gpu-set-stage.py:508-520 | One download: success needs a zero status and a matching file, and takes the greatest |
| Lockfile.LockStanzas | src/buildisopreinstall/usr/libexec/debian-bootc/gpu-set-stage.py:619-649 | Sorted names without repetition, the last deb of each with its copy in the mirror; stanza names equal driver names exactly when control names match file prefixes; when file names and digests hold no newline the written file reads back, and the record of a deb whose fields dpkg-deb printed holds exactly those fields, the file name and the digest |
| Lockfile.StanzaOneLine | src/buildisopreinstall/usr/libexec/debian-bootc/gpu-set-stage.py:629-649 | A field parsed from dpkg-deb's output never holds a newline |
| Lockfile.LockfileReadsBack | src/buildisopreinstall/usr/libexec/debian-bootc/gpu-set-stage.py:643-649 | The lockfile parses back to the same records exactly when no field holds a newline (section 5.1 of Debian Policy) |
| Lockfile.FieldsInjective | src/buildisopreinstall/usr/libexec/debian-bootc/gpu-set-stage.py:643-649 | Equal records come from equal stanzas |
| Lockfile.RecordRead | src/buildisopreinstall/usr/libexec/debian-bootc/gpu-set-stage.py:629-649 | The record read back for a deb whose three fields were printed, and for one of which nothing was printed |
| Lockfile.PrintedFields | src/buildisopreinstall/usr/libexec/debian-bootc/gpu-set-stage.py:629-641 | The fields read from dpkg-deb's three lines are those printed, whatever they hold but line breaks |
| Text.SplitLinesClosing | workflows/bootc-debs-builder/bootc-installer-src/bootc_installer/utils/locale_config.py:71 | splitlines of lines each closed with a newline gives those lines |
| Text.SplitLinesStep | src/buildisopreinstall/usr/libexec/debian-bootc/gpu-set-stage.py:637 | A line ends at its first line break, CR LF counting once, whatever follows |
| OstreeBase.NormalExactly | src/buildisopreinstall/usr/libexec/debian-bootc/gpu-set-stage.py:482 | Normalising a path drops empty parts and single dots and keeps the rest in order |
| Forms.DebForm | src/buildisopreinstall/usr/libexec/debian-bootc/gpu-set-stage.py:502-516 | The files of a package: its name, an underscore, anything, .deb |
| Forms.UsableForm | workflows/bootc-debs-builder/packages.yml:760-769 | A listed version is usable when the part before its last hyphen is not empty and has a tag |
| Forms.ReleaseForm | src/buildisopreinstall/usr/libexec/debian-bootc/gpu-set-stage.py:373-386 | The release of a user-space and of a module version |
| Forms.PinForm | src/buildisopreinstall/usr/libexec/debian-bootc/gpu-set-stage.py:377-378 | A version matches the pin when it agrees with the release outside the dots and a number follows the hyphen |
| Pairing.SelectRelease | workflows/bootc-debs-builder/packages.yml:760-769 | The loop selects the release of the first listed version whose tag exists, and none exactly when there is none |
| Pairing.ReleaseRecovered | src/buildisopreinstall/usr/libexec/debian-bootc/gpu-set-stage.py:373-374 | Stripping the module deb version recovers the release, whatever kernel version it carries, exactly for releases without hyphen and plus |
| Pairing.PinExact | src/buildisopreinstall/usr/libexec/debian-bootc/gpu-set-stage.py:377-378 | The language of awk's pattern with its unescaped dots |
| Pairing.FirstPin | src/buildisopreinstall/usr/libexec/debian-bootc/gpu-set-stage.py:377-379 | The first listed version that matches, empty exactly when none does |
| Pairing.ResolvePins | src/buildisopreinstall/usr/libexec/debian-bootc/gpu-set-stage.py:376-383 | All packages pinned to a listed matching version, exactly when every listing has one |
| Pairing.GateExactly | src/buildisopreinstall/usr/libexec/debian-bootc/gpu-set-stage.py:385-389 | A pinned version passes the same-release gate exactly when its first part is digits and dots with as many dots as the release |
| Pairing.UnescapedDot | src/buildisopreinstall/usr/libexec/debian-bootc/gpu-set-stage.py:378 | Concrete version that matches the pattern and fails the gate |
| Pairing.SelectedPins | workflows/bootc-debs-builder/packages.yml:744-763 | The version a release was selected from matches that release's pin exactly when its revision is a number, and passes the gate exactly when the release has no hyphen |
| Pairing.ReleasesPair | workflows/bootc-debs-builder/packages.yml:836-841 | From the module deb's version to the gate: a pinned user-space version has the module release exactly under the dot count condition |

## Left out

- Finalizer: the state after an abort; a directory standing where a script expects a file, so that `mv` or `cp` would go inside it; parent directories above the EFI staging directories; version names that are not one path component or hold a newline.
- Finalizer: dracut is a function of the kernel's module directory without its initramfs and of the files no script here writes; bootupctl of the staged EFI tree. A generator that reads anything else is outside the model.
- FinalizerScript.Machine.ConfigureBootupd: does not model enabling the update service, because no other step reads it; how set-default-bootloader changes the metadata is a function of the metadata.
- EfiStaging.Confluent: does not compare boot entry files, because the two scripts write different text and the last writer decides.
- DcGpu: the DC_GPU_ environment overrides, the install root prefix and ldconfig; the other lines status prints; `echo` interpreting backslashes in a hand-edited profile; an ICD name that is already a link to a directory.
- Fisherman: root password, user creation, the bootloader choice, module signature enforcement as a step of the sequence (its effect is in KernelArg), and the deployment lookup; the files below one fixed etc directory stand for it.
- Fisherman.Target.Install: does not state the files after a fatal step, because the installation is over then; I/O errors are not modelled.
- EndToEnd: the hostname the upstream processor derives from the hardware when the entry is empty; the model starts from a recipe whose hostname is empty or was accepted by the page.
- KernelArg: the body of ensureArgInEntry, which is not shown; its contract adds the argument once.
- Locale.KeyboardFileReadsBack: Go's %q is the plain quoting it is on names of letters, digits, underscores and commas, the only ones written.
- Keyboard.KeyboardLayouts: case folding is any function on strings; unreadable files give no lines.
- Hosts: `\S` and `.` are the ASCII and newline classes of the Go pattern on text without invalid encodings.
- Catalog: the display fields of an entry, entries that are not objects, the directory listing and its two excluded names; the model starts from the sorted list of scanned files with their labels.
- Consent: the podman and apt2ostree programs are one success flag per call; writing state files does not fail; a derived-engine entry of an earlier derive survives a podman one by design.
- Lockfile: dpkg-deb's output, the digests and the downloads are parameters.
- Pairing: releases with awk metacharacters other than the dot, and the glob meaning of a tag name in git ls-remote.
- download_deb pinning, the install command, fetch-tool, mok-stage, autoupdate, domain-set, ifupdown2-autoconf, isoTypeForBase, the signature policy installer and the CI expansion: one branch or one filter each.
- GTK pages beyond the call order of the GPU page and the values the system page returns; Containerfiles, kernel fragments and the rest of packages.yml, which are data.
