# Anaconda installer core in Dafny

This project models the core of the Anaconda installer: the two generations of its C loader, which run before Python is available, and the Python installer that follows them.

Each Dafny module follows one file of the installer. Functions state what the code computes. Classes and methods stand where the code updates objects in place. Lemmas prove what the code promises.

**Loaders.** The first-generation loader (loader/loader.c) is modelled in four modules:
- `LoaderCmdline`: kernel command-line parsing (`ip=`, `ipv6=`, the keyword chain, the bounded `extraArgs`);
- `LoaderWizard`: the `doLoaderMain` step machine;
- `LoaderUpdates`: the `loadUpdates` stage loop;
- `LoaderArgv`: the $PATH search and the argument vector handed to anaconda.

The second-generation loader (loader2/loader.c) has the same four, as `Loader2Cmdline`, `Loader2Wizard`, `Loader2Updates` and `Loader2Argv`. `Loader2Updates` adds a heap model of the strings `loadUpdates` allocates, frees and aliases.

Four more modules cover the rest of the loaders:
- `HdInstall`: hard-drive ISO installs and the `hd:`/`bd:` kickstart sources;
- `NfsInstall`: the NFS stage machine and kickstart `nfs`;
- `Devices`: module parameters, the driver menu, driver disks;
- `Hardware`: bus probing, the module list, `dasd=` parsing, agpgart.

**Python installer.** The Python side is modelled in these modules:
- `Kickstart`: the partition/RAID/LVM handlers and their id bookkeeping, step skipping, command dispatch, `%ksappend`;
- `Network`: host name and address checks, ifcfg text, DNS, kickstart lines, dracut and udev strings;
- `Localization` and `LanguageSupport`: locale names, translation choice, the install and system languages;
- `LocaleTable`: the lang-table reader;
- `Keyboard`: the keymap tables and their choice;
- `Iscsi`: iscsiadm output parsing, targets, the set-once initiator name;
- `HardDriveMethod`: the mount-state discipline of the hard-drive install methods;
- `MockDisk`: the test suite's dictionary file system;
- `Firewall`: the firewall screen's port-list validation;
- `PasswordSpoke`: the root password checks;
- `Users` and `LegacyUsers`: salts, algorithm choice, account creation, the root password;
- `Timezone`: the timezone files and the region grouping;
- `YumDeps` and `YumInstall`: dependency resolution, media switching, problem de-duplication, kernel versions, package deselection;
- `StorageSpoke` and `CustomSpoke`: the disk-selection and manual-partitioning spokes;
- `Gui`: the GUI's action queue, UI-file lookup and screenshots.

**Shared modules.** `Wrappers`, `Strings`, `Sorting`, `Tables`, `Mounts` and `Libuser` hold what several modules share:
- Option and Result;
- the C and Python string primitives;
- Python's ordering of strings and `sorted`;
- dictionaries filled in order;
- a mount log;
- the libuser account database.

**Outside answers.** Whatever the installer learns from outside is an argument of the model:
- a dialog's button or entries;
- a probe, a mount's success, a file's contents;
- pytz's and babel's tables;
- the result of `crypt` and of random choices.

A loop that consumes dialog answers consumes a given sequence of them.

**Defects and their fixes.** Where the code does something its authors evidently did not intend, the model states both behaviours. The specification function takes a `Variant` (`AsWritten` or `Corrected`). A lemma shows the as-written behaviour on a concrete input, and the corrected behaviour is proved to have the intended property; see "## Findings". Some methods run only the corrected code; "## Left out" names each of them.

## Model

| member | source | states |
|---|---|---|
| LoaderCmdline.ArgToLong | loader/loader.c:636-650 | a value is returned exactly when strtol's reading of the text fits in a C long (otherwise the loader aborts), and it lies between LONG_MIN and LONG_MAX |
| LoaderCmdline.ArgToLongDigits | loader/loader.c:636-650 | a non-empty digit string within range is read as its decimal value |
| LoaderCmdline.ArgToLongNoDigits | loader/loader.c:636-650 | text with no digits after white space and sign is read as 0 rather than rejected |
| LoaderCmdline.ParseCmdLineIp | loader/loader.c:579-626 | a netmask is only ever stored together with a gateway and the IP_PARAM flag |
| LoaderCmdline.IpFields | loader/loader.c:579-626 | in terms of the colon-separated fields of `ip=`: ipv4 is the first field, the gateway the third (present iff there are at least three), the netmask everything after the third colon (present iff at least four), and IP_PARAM is raised iff there is no colon or at least three |
| LoaderCmdline.IpFieldsAfterColon | loader/loader.c:582-615 | with at least one colon, the fields are as IpFields states and IP_PARAM is raised only with four or more fields |
| LoaderCmdline.IpFieldsAfterTwoColons | loader/loader.c:593-615 | with a second colon, the gateway is the third field and the netmask follows the third colon |
| LoaderCmdline.IpNetmaskFields | loader/loader.c:603-615 | three colons found in turn cut the text into the first field, the gateway field and the rest re-joined with colons |
| LoaderCmdline.ParseCmdLineIpv6 | loader/loader.c:628-634 | `ipv6=` stores the text verbatim, marks the IPv6 info set, raises IPV6_PARAM and changes nothing else |
| LoaderCmdline.BootIfValue | loader/loader.c:792-812 | the stored BOOTIF contains no `-` and is the value's length less three exactly when it started with `01-` |
| LoaderCmdline.ApplyLongKey | loader/loader.c:872-883 | mtu, linksleep, nicdelay and dhcptimeout are accepted exactly when argToLong accepts the value |
| LoaderCmdline.ApplyValueKey | loader/loader.c:764-890 | the `name=value` block aborts only for one of the four argToLong keys |
| LoaderCmdline.ApplyKey | loader/loader.c:679-890 | the keyword chain for one entry aborts only for a valued argToLong key |
| LoaderCmdline.RepoSetsMethod | loader/loader.c:830-842 | `repo=` records the repository and picks NFS, hard drive or CD-ROM from the `nfs:`, `hd:` or `cd:` prefix, leaving the method alone otherwise |
| LoaderCmdline.BootIfStored | loader/loader.c:792-812 | `BOOTIF=` (case-sensitive) is stored with `01-` cut and every `-` turned into `:` |
| LoaderCmdline.TextAndSelinux | loader/loader.c:693-752 | `text` sets text mode and clears graphical mode; `selinux=0` clears SELinux and every other form sets it |
| LoaderCmdline.ApplyExtra | loader/loader.c:892-946 | the pass-through step leaves the loader data alone and appends `--key[=value]` exactly for the pass-through keys |
| LoaderCmdline.ParseStep | loader/loader.c:672-947 | one iteration appends a pass-through entry only while fewer than MAX_EXTRA_ARGS - 1 are stored |
| LoaderCmdline.PassedOn | loader/loader.c:900-941 | at most one rendering per command-line entry |
| LoaderCmdline.ExtrasAreFirstPassedOn | loader/loader.c:892-953 | the stored extra arguments are exactly the first pass-through entries in the hash table's iteration order, up to MAX_EXTRA_ARGS - 1; the rest are dropped |
| LoaderCmdline.ExtrasBounded | loader/loader.c:892-953 | however long the command line, at most MAX_EXTRA_ARGS - 1 extras are stored |
| LoaderCmdline.ArgsBeforeNullPrefix | loader/loader.c:953 | an array whose first entries are the stored extras followed by NULL reads back as exactly those extras |
| LoaderCmdline.Loader.constructor | loader/loader.c:110-128 | at program start the flags hold only SELINUX, five link checks, no post-link sleep and an empty extraArgs |
| LoaderCmdline.Loader.PassOn | loader/loader.c:892-946 | the extraArgs array gains the step's rendering in slot numExtraArgs and the globals become ApplyExtra's result |
| LoaderCmdline.Loader.ParseCmdLineFlags | loader/loader.c:652-956 | graphical mode by default; without a command line nothing else changes; otherwise the globals are the result of the loop (or the loader aborted) and extraArgs holds exactly its extras, NULL-terminated |
| LoaderCmdline.Loader.HasGraphicalOverride | loader/loader.c:1510-1521 | the answer is true iff $DISPLAY is set or one of the extras before the NULL starts with `--vnc` (ignoring case) |
| LoaderWizard.Start | loader/loader.c:1141-1167 | the loop starts at STEP_LANG going forward with no network needed; the language and keyboard questions are skipped exactly when askmethod is off, no repository is set and installation media is found on a CD |
| LoaderWizard.KbdPresetFailure | loader/loader.c:1184-1195 | a preset keymap that fails to load is forgotten and STEP_KBD runs again to ask |
| LoaderWizard.DriverStep | loader/loader.c:1273-1312 | a suitable device leads to STEP_NETWORK with the device class reset; otherwise the CD shortcut goes to STEP_KBD once, Back returns to STEP_METHOD with ASKMETHOD, and "Use a driver disk" goes to STEP_DRIVERDISK |
| LoaderWizard.DriverDiskReturns | loader/loader.c:1313-1332 | STEP_DRIVERDISK always goes back to STEP_DRIVER, except for the CD shortcut to STEP_KBD |
| LoaderWizard.NetworkBackEdges | loader/loader.c:1360-1456 | leaving STEP_IFACE backwards clears netDev_set; Back from STEP_IP clears netDev_set and the address flags and returns to STEP_IFACE; an error in STEP_IP clears the address flags and retries STEP_IP |
| LoaderWizard.StepKeepsInv | loader/loader.c:1169-1468 | every pass of the loop keeps the invariant: at STEP_EXTRAS or STEP_DONE with a network needed an interface is recorded, and the direction is +1 or -1 |
| LoaderWizard.KbdKeepsInv | loader/loader.c:1184-1227 | STEP_KBD keeps the invariant |
| LoaderWizard.MethodKeepsInv | loader/loader.c:1228-1272 | STEP_METHOD keeps the invariant |
| LoaderWizard.DriverKeepsInv | loader/loader.c:1273-1312 | STEP_DRIVER keeps the invariant |
| LoaderWizard.IfaceKeepsInv | loader/loader.c:1360-1394 | STEP_IFACE keeps the invariant |
| LoaderWizard.NetworkKeepsInv | loader/loader.c:1333-1359 | STEP_NETWORK keeps the invariant |
| LoaderWizard.IpKeepsInv | loader/loader.c:1395-1456 | STEP_IP keeps the invariant |
| LoaderWizard.RunKeepsInv | loader/loader.c:1169-1468 | any run of the loop keeps the invariant |
| LoaderWizard.FinishedRunHasInterface | loader/loader.c:1141-1468 | from any parse result, a run that reaches STEP_DONE needing the network has netDev_set |
| LoaderWizard.DoneOnlyFromExtras | loader/loader.c:1457-1465 | STEP_DONE is reached only through STEP_EXTRAS |
| LoaderWizard.DoLoaderMain | loader/loader.c:1130-1469 | loaderData and the flags end as the step machine's run leaves them; the outcome says whether the loop exited, finished or ran out of replies; nothing else changes |
| LoaderWizard.DoStep | loader/loader.c:1169-1468 | one pass of the loop computes exactly StepOnce on the current step's reply |
| LoaderWizard.LangPass | loader/loader.c:1173-1183 | a preset language is kept, otherwise the chosen one is recorded unless the question is skipped |
| LoaderWizard.KbdPass | loader/loader.c:1184-1227 | STEP_KBD in place computes exactly the keyboard step of the machine |
| LoaderWizard.DriverPass | loader/loader.c:1273-1312 | STEP_DRIVER in place computes exactly the driver step of the machine |
| LoaderWizard.NetworkPass | loader/loader.c:1333-1359 | STEP_NETWORK in place computes exactly the network step, including the fall-through into STEP_IFACE |
| LoaderWizard.IpPass | loader/loader.c:1395-1456 | STEP_IP in place computes exactly the address step with its back and retry edges |
| LoaderWizard.MethodStep | loader/loader.c:1228-1272 | STEP_METHOD in place computes exactly the method step |
| LoaderWizard.IfaceStep | loader/loader.c:1360-1394 | STEP_IFACE in place computes exactly the interface step |
| LoaderUpdates.PromptCase | loader/loader.c:463-478 | UPD_PROMPT keeps the invariant that a device and a partition are chosen |
| LoaderUpdates.PartCase | loader/loader.c:423-461 | UPD_PART (falling through into the prompt) keeps the invariant |
| LoaderUpdates.DeviceCase | loader/loader.c:385-422 | UPD_DEVICE either returns or leaves a device chosen |
| LoaderUpdates.LoadCase | loader/loader.c:480-500 | UPD_LOAD keeps the invariant: a failed mount goes back to the prompt, a mounted disk is copied and always unmounted |
| LoaderUpdates.BalancedAppend | loader/loader.c:480-500 | a mount followed at once by its unmount keeps the mount log balanced |
| LoaderUpdates.UpdRunUnmounts | loader/loader.c:376-507 | whatever the answers, every mount of the updates disk is paired with an unmount, and a run reaching UPD_DONE mounted it at least once |
| LoaderUpdates.UpdBackEdges | loader/loader.c:385-478 | Back at the prompt returns to the partition stage going backwards; backing into a device without partitions returns to the device stage; backing into the only device, or finding none, returns |
| LoaderUpdates.UpdPartitionPick | loader/loader.c:423-478 | a partition picked from the menu still shows the "insert your updates disk" prompt; a device without partitions is used whole as /dev/<device> |
| LoaderUpdates.UpdCopyRetry | loader/loader.c:480-500 | a failed copy stays at UPD_LOAD to retry; a failed mount goes back to the prompt without touching the mount log |
| LoaderUpdates.LoadUpdates | loader/loader.c:376-507 | the loop returns whether the updates were copied, the device and partition last chosen, and a balanced mount log, all as the stage machine's run gives them |
| LoaderUpdates.UpdPass | loader/loader.c:383-505 | one pass of the loop, with the switch's fall-throughs, computes exactly the stage machine's step |
| LoaderArgv.PathEntries | loader/loader.c:2101-2118 | an empty $PATH has no entries and a non-empty one has at least one |
| LoaderArgv.FirstExecutableMeaning | loader/loader.c:2101-2118 | the script found is an executable `<entry>/anaconda`, earlier entries have none, and none is found only when no entry has one |
| LoaderArgv.PathEntriesStep | loader/loader.c:2103-2117 | the entries of a non-empty $PATH are the text up to the first colon followed by the rest's entries |
| LoaderArgv.PathScanOverreads | loader/loader.c:2102-2117 | the scan as written finds the same script as the corrected one, and steps past the string's NUL exactly when no entry holds the script and the last entry is not closed by a colon |
| LoaderArgv.ScanAsWrittenFrom | loader/loader.c:2102-2117 | from any position the as-written scan's outcome is the corrected scan's result, or a read past the end when the last entry is unclosed |
| LoaderArgv.ScanNextStep | loader/loader.c:2117 | `path += n + 1` moves to the next entry after a colon, and to one past the NUL after an unclosed last entry |
| LoaderArgv.EntryLength | loader/loader.c:2103 | strcspn's entry length never exceeds the text |
| LoaderArgv.ScanStep | loader/loader.c:2103-2117 | one entry of the scan: its script when executable, otherwise the scan of the rest, or nothing at the end |
| LoaderArgv.FindScript | loader/loader.c:2101-2118 | the scan, stopping at the end of the string, returns the first executable `<entry>/anaconda` |
| LoaderArgv.ScanFromEntries | loader/loader.c:2101-2118 | the entry-by-entry scan from a position is the first executable script of the remaining entries |
| LoaderArgv.ScanFrom | loader/loader.c:2102-2118 | the loop computes the entry-by-entry scan from the start |
| LoaderArgv.SplitExtra | loader/loader.c:2128-2135 | an extra argument becomes one or two arguments; one piece is the argument itself, two pieces re-joined by `=` give it back |
| LoaderArgv.SplitExtraAtFirst | loader/loader.c:2128-2135 | the split happens exactly when there is an `=`, and at the first one |
| LoaderArgv.ExtraArgv | loader/loader.c:2123-2138 | the extra arguments take between one and two slots each |
| LoaderArgv.ExtraArgvStep | loader/loader.c:2123-2138 | one more extra argument appends its split pieces |
| LoaderArgv.ExtraArgvAllValues | loader/loader.c:2128-2135 | extra arguments that all carry a value take two slots each |
| LoaderArgv.CommonOptions | loader/loader.c:2140-2168 | at most seven options are written whatever the mode |
| LoaderArgv.ModeOptions | loader/loader.c:2171-2186 | the interface mode, SELinux and virtual console options are at most five |
| LoaderArgv.DataOptions | loader/loader.c:2187-2252 | the options taken from loaderData are at most fifteen |
| LoaderArgv.DataHead | loader/loader.c:2187-2206 | updates, language, keymap and log level take at most eight slots |
| LoaderArgv.DataTail | loader/loader.c:2223-2252 | certificate checking and the proxy take at most five slots |
| LoaderArgv.FixedOptions | loader/loader.c:2140-2252 | all options together take at most 27 slots |
| LoaderArgv.Argv | loader/loader.c:2099-2252 | the vector holds at most the script, two slots per extra argument and 27 options |
| LoaderArgv.ArgvStartsWithScript | loader/loader.c:2099-2138 | the script comes first and the extra arguments follow as their split pieces in order |
| LoaderArgv.RepoPassed | loader/loader.c:2208-2221 | outside rescue mode a repository is passed as `--repo` followed by the URL, or by `@/tmp/ftp-repo` for an ftp: URL |
| LoaderArgv.NoPassHidesLangKbd | loader/loader.c:2193-2201 | with NOPASS the language and keymap do not influence the vector |
| LoaderArgv.RescueOptions | loader/loader.c:2169-2170 | in rescue mode only the common options and `--rescue` (last) follow the extra arguments |
| LoaderArgv.Valued | loader/loader.c:2128-2135 | the count of extra arguments that carry a value is at most their number |
| LoaderArgv.ExtraArgvLength | loader/loader.c:2123-2138 | each extra argument takes one slot, and one more when it carries a value |
| LoaderArgv.ArgvFitsAsWrittenWhen | loader/loader.c:2099-2252 | in the 50-slot buffer, extra arguments splitting into at most 21 pieces always fit; 50 pieces or more, or 25 valued extras, never fit whatever the flags (also line 1755 of the same file) |
| LoaderArgv.SpelledKeysPassedOn | loader/loader.c:900-911 | 25 spellings of `resolution`, `nodmraid` and `xdriver` with one capital letter are different keys of the command-line hash table, and strcasecmp passes each of them on |
| LoaderArgv.ArgvOverflowsAsWritten | loader/loader.c:2123-2138 | the 25 extra arguments those different keys give, each `--<key>=1`, overflow the 50-slot buffer (also line 1755 of the same file) |
| LoaderArgv.ArgvFits | loader/loader.c:2099-2252 | with fewer than MAX_EXTRA_ARGS extras the vector always fits the corrected buffer (also line 110 of the same file) |
| LoaderArgv.ExtraArgvPrefix | loader/loader.c:2123-2138 | a prefix of the extra arguments splits into no more pieces than all of them |
| LoaderArgv.PushOpt | loader/loader.c:2140-2252 | the options are written at the current index only when their flag holds, and nothing else in the buffer changes |
| LoaderArgv.BuildArgv | loader/loader.c:2099-2252 | the buffer holds exactly the vector and a NULL terminator unless it overflows; the corrected buffer never overflows; the as-written 50-slot buffer overflows exactly when the vector and its NULL do not fit (also line 1755 of the same file) |
| LoaderArgv.FillArgv | loader/loader.c:2099-2252 | a buffer large enough receives exactly the vector and its NULL terminator |
| LoaderArgv.PushExtras | loader/loader.c:2123-2138 | the loop over extraArgs appends each extra argument's split pieces in order |
| LoaderArgv.CutExtras | loader/loader.c:2128-2131 | each stored extra argument keeps only its key part, its `=` overwritten with NUL; the rest of the array is untouched |
| Loader2Cmdline.ParseCmdLineIp | loader2/loader.c:638-685 | `ip=` always records an address and always leaves ipinfo_set cleared; the flags gain at most IP_PARAM |
| Loader2Cmdline.IpFields | loader2/loader.c:638-685 | ipv4 is the first colon field, the gateway the third, the netmask everything after the third colon; ipinfo_set ends up 0; IP_PARAM is added exactly when there is no colon or at least three and the address starts with `dhcp` |
| Loader2Cmdline.ParseCmdLineIpv6 | loader2/loader.c:687-710 | only values starting with `dhcp` or `auto` (after lower-casing) are recorded, with ipv6info_set and IPV6_PARAM; anything else clears ipv6 and leaves the rest alone |
| Loader2Cmdline.BootIfAsWritten | loader2/loader.c:838-852 | the value is read from offset 10 whatever its length: defined exactly when the word has at least ten characters, and then ten shorter |
| Loader2Cmdline.BootIf | loader2/loader.c:838-852 | the corrected value has no `-`, loses `01-` only when present, and agrees with the as-written reading whenever `01-` is there |
| Loader2Cmdline.BootIfAsWrittenFails | loader2/loader.c:840 | `BOOTIF=1` is read past its end, and a bare MAC address loses its first three characters |
| Loader2Cmdline.DdSourceAsWritten | loader2/loader.c:783-787 | the driver-disk source as written skips 11 or 3 characters depending on a lower-case `r` |
| Loader2Cmdline.DdSource | loader2/loader.c:783-787 | the corrected source is the text after whichever prefix matched, and agrees with the as-written one unless the second letter is `R` |
| Loader2Cmdline.DdSourceAsWrittenFails | loader2/loader.c:783-787 | `DRIVERDISK=<src>` yields `VERDISK=<src>` as written where `<src>` is meant |
| Loader2Cmdline.UpperDriverDisk | loader2/loader.c:783-787 | a word in capitals matches `driverdisk=` ignoring case but not `dd=`, and its second letter is `R` |
| Loader2Cmdline.ModeKeyword | loader2/loader.c:747-776 | the interface-mode keywords change only the flags |
| Loader2Cmdline.FlagKeyword | loader2/loader.c:791-811 | the plain flag keywords leave loaderData alone |
| Loader2Cmdline.SetMethod | loader2/loader.c:871-876 | `method=`/`stage2=` record the method setMethodFromCmdline recognises, and change nothing else |
| Loader2Cmdline.ExtraText | loader2/loader.c:938-945 | a stored extra argument starts with `--` (`--xdriver=vesa` for `vesa`) |
| Loader2Cmdline.ExtraIsNoKeyword | loader2/loader.c:747-930 | no word handed on to anaconda is one of the chain's keywords, so each of them reaches the extras branch |
| Loader2Cmdline.ExtraHead | loader2/loader.c:917-930 | a word handed on starts, lower-cased, the way no keyword of the chain starts |
| Loader2Cmdline.ExtraArgHead | loader2/loader.c:917-930 | every pass-through prefix has such a head |
| Loader2Cmdline.ExtraNotMode | loader2/loader.c:747-776 | a word handed on is not a mode keyword |
| Loader2Cmdline.NoModeWord | loader2/loader.c:747-776 | such a head is none of the mode keywords |
| Loader2Cmdline.ExtraNotSource | loader2/loader.c:777-790 | a word handed on is not a source keyword |
| Loader2Cmdline.NoSourceWord | loader2/loader.c:777-790 | such a head is none of the source keywords or prefixes |
| Loader2Cmdline.ExtraNotFlag | loader2/loader.c:791-811 | a word handed on is not a flag keyword |
| Loader2Cmdline.NoFlagWord | loader2/loader.c:791-811 | such a head is none of the flag keywords |
| Loader2Cmdline.ExtraNotValue | loader2/loader.c:812-870 | a word handed on is not a value keyword |
| Loader2Cmdline.NoValueWord | loader2/loader.c:812-870 | such a head is none of the value prefixes |
| Loader2Cmdline.ExtraNotMethod | loader2/loader.c:871-882 | a word handed on is not a method or address keyword |
| Loader2Cmdline.NoMethodWord | loader2/loader.c:871-882 | such a head is none of the method and address prefixes |
| Loader2Cmdline.ExtraNotNet | loader2/loader.c:883-906 | a word handed on is not a network or SELinux keyword |
| Loader2Cmdline.NoNetWord | loader2/loader.c:883-906 | such a head is none of the network and SELinux prefixes |
| Loader2Cmdline.ApplyExtra | loader2/loader.c:907-955 | the extras branch leaves loaderData and the blacklist alone, stores the word's text exactly when it is passed on, and adds graphical mode exactly for a `vnc` word |
| Loader2Cmdline.ParseStep | loader2/loader.c:746-956 | one iteration applies a matching keyword, otherwise stores a pass-through word while fewer than MAX_EXTRA_ARGS - 1 are stored |
| Loader2Cmdline.ParseAllStep | loader2/loader.c:746-956 | the loop over the words processes them one at a time in order |
| Loader2Cmdline.PassedOn | loader2/loader.c:917-947 | at most one text per word |
| Loader2Cmdline.ExtrasAreFirstPassedOn | loader2/loader.c:746-961 | the stored extra arguments are the first words passed on, at most MAX_EXTRA_ARGS - 1; later ones are dropped |
| Loader2Cmdline.VncForcesGraphical | loader2/loader.c:933-936 | a `vnc` word stored among the first 127, with no `text` after it, leaves graphical mode on |
| Loader2Cmdline.GraphicalStays | loader2/loader.c:724-770 | graphical mode, once set, is taken away only by `text` |
| Loader2Cmdline.GraphicalStep | loader2/loader.c:746-956 | one word other than `text` keeps graphical mode |
| Loader2Cmdline.KeywordFlagsGrow | loader2/loader.c:747-906 | apart from `text` and `selinux=0` a keyword only ever adds flags |
| Loader2Cmdline.ModeFlagsGrow | loader2/loader.c:747-776 | the mode keywords other than `text` only add flags |
| Loader2Cmdline.SourceFlagsGrow | loader2/loader.c:777-790 | the source keywords only add flags |
| Loader2Cmdline.FlagFlagsGrow | loader2/loader.c:791-811 | the flag keywords only add flags |
| Loader2Cmdline.ValueFlagsGrow | loader2/loader.c:812-870 | the value keywords only add flags |
| Loader2Cmdline.MethodFlagsGrow | loader2/loader.c:871-882 | the method and address keywords only add flags |
| Loader2Cmdline.NetFlagsGrow | loader2/loader.c:883-906 | the network keywords only add flags, apart from SELinux |
| Loader2Cmdline.CutAtSpace | loader2/loader.c:571-575 | the line is cut before its first white space: a prefix with no white space, followed by white space or the end |
| Loader2Cmdline.NonEmpty | loader2/loader.c:579-585 | every piece kept is non-empty and one of the pieces, and every non-empty piece is kept |
| Loader2Cmdline.NonEmptyAppend | loader2/loader.c:579-585 | the pieces are kept in order: dropping the empty pieces of two runs gives those of the first run followed by those of the second |
| Loader2Cmdline.Tokens | loader2/loader.c:579-585 | strtok over `=` yields only non-empty tokens |
| Loader2Cmdline.NetVar | loader2/loader.c:578-585 | a line assigns a variable only when it holds `=` and has a non-empty name and value |
| Loader2Cmdline.NetVarOfAssignment | loader2/loader.c:570-585 | a shell assignment `NAME=VALUE` followed by white space is read back as that name and value |
| Loader2Cmdline.CutAtSpaceOf | loader2/loader.c:571-575 | a word followed by white space is cut exactly there |
| Loader2Cmdline.SplitAt | loader2/loader.c:579-585 | `NAME=VALUE` splits into the name and the value |
| Loader2Cmdline.NetVars | loader2/loader.c:570-626 | one variable (or none) per line, in order |
| Loader2Cmdline.LastNone | loader2/loader.c:587-624 | a variable keeps no value from the file exactly when no line assigns it |
| Loader2Cmdline.LastSome | loader2/loader.c:587-624 | otherwise its value is that of the last line assigning it |
| Loader2Cmdline.NetInfoFields | loader2/loader.c:570-626 | reading the file sets each variable to the value of the last line assigning it (MTU through atoi) and changes nothing else |
| Loader2Cmdline.NetInfoUntouched | loader2/loader.c:570-626 | the fields readNetInfo does not look for keep their values |
| Loader2Cmdline.NetInfoAddress | loader2/loader.c:587-624 | address, netmask, gateway, DNS, MTU and host name come from the last assigning lines |
| Loader2Cmdline.NetInfoChannel | loader2/loader.c:602-621 | the s390 channel settings come from the last assigning lines |
| Loader2Cmdline.CmsConfFromFile | loader2/loader.c:533-636 | HAVE_CMSCONF is raised exactly when the file has both an IPADDR and a NETMASK line; the address settings come from the file alone and the other flags are unchanged |
| Loader2Cmdline.Loader2.constructor | loader2/loader.c:101 | at program start the flags hold only SELINUX and extraArgs is empty |
| Loader2Cmdline.Loader2.PassOn | loader2/loader.c:907-955 | the extras branch in place stores the word's text in slot numExtraArgs and the globals become ApplyExtra's result |
| Loader2Cmdline.Loader2.ReadNetInfo | loader2/loader.c:533-636 | the globals become exactly readNetInfo's effect on them; an absent file changes nothing |
| Loader2Cmdline.Loader2.ParseCmdLineFlags | loader2/loader.c:712-965 | graphical mode by default; without a command line nothing else changes; otherwise the globals are the loop's result followed by readNetInfo, and extraArgs holds exactly the extras, NULL-terminated |
| Loader2Cmdline.Loader2.ParseWord | loader2/loader.c:746-956 | one iteration in place computes exactly ParseStep |
| Loader2Cmdline.Loader2.HasGraphicalOverride | loader2/loader.c:1464-1475 | the answer is true iff $DISPLAY is set or one of the extras before the NULL starts with `--vnc` |
| Loader2Wizard.MethodClass | loader2/loader.c:121-128 | a method needs a network device exactly when it is NFS or URL |
| Loader2Wizard.PreselectedMethod | loader2/loader.c:1045-1050 | a preselected method pins methodNum, forces ASKMETHOD and so disables the CD fast path: the CD is not looked at |
| Loader2Wizard.CdFastPath | loader2/loader.c:1052-1065 | when the CD fast path is taken, doLoaderMain returns the CD's URL at once exactly when a CD tree was found and neither rescue mode nor a graphical override holds; otherwise the CD becomes the default method |
| Loader2Wizard.NetworkNotNeeded | loader2/loader.c:1221-1245 | for a method without network, no graphical override and no asknetwork, STEP_NETWORK needs no network, leaves loaderData alone and goes on to STEP_URL or back to STEP_METHOD by direction |
| Loader2Wizard.UrlStep | loader2/loader.c:1371-1393 | a failed mount returns to STEP_IP backwards with both address flags cleared; a successful one ends the loop with its URL |
| Loader2Wizard.IpStep | loader2/loader.c:1276-1370 | going forward with a network needed, each info flag ends set exactly when its protocol is not disabled, and an address not given beforehand becomes "dhcp"/"dhcpv6" for a dynamic or missing configuration and the address text otherwise |
| Loader2Wizard.KbdPresetFailure | loader2/loader.c:1083-1119 | a preset keymap that fails to load is forgotten and STEP_KBD runs again to ask |
| Loader2Wizard.StartInv | loader2/loader.c:1027-1070 | the state before the loop satisfies the invariant (direction ±1, a method chosen wherever the method table is indexed, a URL held when stopped) |
| Loader2Wizard.StepKeepsInv | loader2/loader.c:1072-1397 | every pass of the loop keeps the invariant, so installMethods[] is never indexed with methodNum -1 |
| Loader2Wizard.MethodKeepsInv | loader2/loader.c:1120-1174 | STEP_METHOD keeps the invariant |
| Loader2Wizard.IfaceKeepsInv | loader2/loader.c:1246-1275 | STEP_IFACE keeps the invariant |
| Loader2Wizard.NetworkKeepsInv | loader2/loader.c:1221-1245 | STEP_NETWORK keeps the invariant |
| Loader2Wizard.IpKeepsInv | loader2/loader.c:1276-1370 | STEP_IP keeps the invariant |
| Loader2Wizard.RunKeepsInv | loader2/loader.c:1072-1397 | any run of the loop keeps the invariant |
| Loader2Wizard.ReturnsUrl | loader2/loader.c:1013-1400 | every way doLoaderMain returns, it returns a URL |
| Loader2Wizard.DoLoaderMain | loader2/loader.c:1013-1400 | loaderData and the flags end as the step machine leaves them, the outcome is the URL it ends with, and nothing else in the loader changes |
| Loader2Wizard.Begin | loader2/loader.c:1027-1070 | the prelude computes exactly the machine's start state, changing only the flags |
| Loader2Wizard.Pass | loader2/loader.c:1072-1397 | one pass of the switch computes exactly StepOnce, changing only loaderData and the flags |
| Loader2Wizard.DriverPass | loader2/loader.c:1175-1206 | STEP_DRIVER computes exactly the driver step |
| Loader2Wizard.LangPass | loader2/loader.c:1074-1082 | STEP_LANG computes exactly the language step |
| Loader2Wizard.UrlPass | loader2/loader.c:1371-1393 | STEP_URL computes exactly the URL step |
| Loader2Wizard.KbdPass | loader2/loader.c:1083-1119 | STEP_KBD computes exactly the keyboard step |
| Loader2Wizard.MethodPass | loader2/loader.c:1120-1174 | STEP_METHOD computes exactly the method step and changes no loader state |
| Loader2Wizard.NetworkPass | loader2/loader.c:1221-1245 | STEP_NETWORK computes exactly the network step, including the fall-through into STEP_IFACE |
| Loader2Wizard.IfacePass | loader2/loader.c:1246-1275 | STEP_IFACE computes exactly the interface step |
| Loader2Wizard.IpPass | loader2/loader.c:1276-1370 | STEP_IP computes exactly the address step |
| Loader2Wizard.Ipv4Pass | loader2/loader.c:1300-1324 | the IPv4 half records what Ipv4Data specifies |
| Loader2Wizard.Ipv6Pass | loader2/loader.c:1325-1347 | the IPv6 half records what Ipv6Data specifies |
| Loader2Updates.Dup | loader2/loader.c:361-422 | strdup adds one live block holding the text at the end of the heap |
| Loader2Updates.Kill | loader2/loader.c:393 | free marks the block dead and changes nothing else |
| Loader2Updates.FirstMountable | loader2/loader.c:430-444 | the disk is mounted as the first of ext2, vfat and iso9660 it mounts as, and as none only when it mounts as none |
| Loader2Updates.ReleasePart | loader2/loader.c:393 | freeing a live partition name faults nowhere and keeps the rest of the state; freeing a dead one is a double free; corrected, `part` is set to NULL afterwards |
| Loader2Updates.PartCase | loader2/loader.c:389-425 | UPD_PART keeps the invariant that a device is chosen before UPD_PART and a partition before UPD_LOAD |
| Loader2Updates.DeviceCase | loader2/loader.c:354-388 | UPD_DEVICE keeps the invariant |
| Loader2Updates.Step | loader2/loader.c:352-461 | one pass of the loop with the switch's fall-throughs keeps the invariant |
| Loader2Updates.Run | loader2/loader.c:352-461 | any run of the loop keeps the invariant |
| Loader2Updates.DoubleFreeAsWritten | loader2/loader.c:393-434 | as written, picking a device and partition, answering Back at the prompt and at the partition menu, then picking a device again frees the partition name twice |
| Loader2Updates.UseAfterFreeAsWritten | loader2/loader.c:393-399 | as written, a device used whole makes `part` an alias of `device`; after Back, freeing `part` frees the device name, which UPD_PART then reads |
| Loader2Updates.LoadKeepsSafe | loader2/loader.c:426-457 | UPD_LOAD keeps both pointers live and distinct |
| Loader2Updates.PartKeepsSafe | loader2/loader.c:389-425 | the corrected UPD_PART keeps both pointers live and distinct |
| Loader2Updates.DeviceKeepsSafe | loader2/loader.c:354-388 | the corrected UPD_DEVICE keeps both pointers live and distinct |
| Loader2Updates.StepKeepsSafe | loader2/loader.c:352-461 | a corrected pass keeps memory safety |
| Loader2Updates.CorrectedNeverFaults | loader2/loader.c:345-464 | whatever the devices, partitions and buttons, the corrected loop neither double-frees nor reads freed memory |
| Loader2Updates.BalancedAppend | loader2/loader.c:426-457 | one mount followed by its unmount keeps the mount log balanced |
| Loader2Updates.StepLog | loader2/loader.c:352-461 | a pass adds to the mount log only one mount and its unmount, and always does on reaching UPD_DONE |
| Loader2Updates.LoadLog | loader2/loader.c:426-457 | UPD_LOAD adds at most one mount and its unmount, and exactly that on reaching UPD_DONE |
| Loader2Updates.PartLog | loader2/loader.c:389-425 | UPD_PART, falling through into UPD_LOAD, logs the same way |
| Loader2Updates.DeviceLog | loader2/loader.c:354-388 | UPD_DEVICE, falling through, logs the same way |
| Loader2Updates.RunUnmounts | loader2/loader.c:345-464 | the updates disk is never left mounted: mounts and unmounts pair up, and reaching UPD_DONE mounted the disk at least once |
| Loader2Updates.LoadMountsFirst | loader2/loader.c:430-457 | the disk is mounted as the first of ext2, vfat and iso9660 that works; when none does nothing is mounted and the state is unchanged |
| Loader2Updates.CopyOutcome | loader2/loader.c:445-456 | a failed copy keeps UPD_LOAD so everything is retried; a good copy ends the loop going forwards |
| Loader2Updates.BackEdges | loader2/loader.c:354-457 | Back at the prompt returns to UPD_PART backwards; Back at the partition menu to UPD_DEVICE backwards; backing into a device without partitions returns to UPD_DEVICE; backing into the only device, or finding none, returns |
| Loader2Updates.PartitionPick | loader2/loader.c:397-424 | a partition picked from the menu is a fresh copy of the menu entry; a device without partitions is used whole under its own name, in a separate block (corrected) |
| Loader2Updates.LoadUpdates | loader2/loader.c:345-464 | the corrected loop returns whether the updates were copied, the mounts made and the memory used, as the stage machine's run gives them, never faults, and leaves the mount log balanced |
| Loader2Updates.Pass | loader2/loader.c:352-461 | one pass in place computes exactly the corrected step |
| Loader2Updates.PartPass | loader2/loader.c:389-425 | UPD_PART in place computes exactly the corrected partition step |
| Loader2Updates.LoadPass | loader2/loader.c:426-457 | UPD_LOAD in place computes exactly the load step |
| Loader2Argv.MethodArgCarriesUrl | loader2/loader.c:1846-1858 | the URL reaches the script either as the argument after `-m` or, exactly for an ftp: URL, as the contents of /tmp/method before the final carriage return |
| Loader2Argv.InterfaceOptions | loader2/loader.c:1888-1902 | the interface options outside rescue mode are at most five |
| Loader2Argv.UiModeOptions | loader2/loader.c:1890-1895 | the interface mode takes at most two options |
| Loader2Argv.SelinuxOptions | loader2/loader.c:1898-1901 | exactly one option: `--selinux` with FL_SELINUX, `--noselinux` without |
| Loader2Argv.InterfacePresent | loader2/loader.c:1888-1902 | the interface options never hold a NULL |
| Loader2Argv.ValueOptions | loader2/loader.c:1903-1936 | the options with values take at most fourteen slots |
| Loader2Argv.Options | loader2/loader.c:1877-1936 | all options after the extra arguments take at most 21 slots |
| Loader2Argv.RawArgv | loader2/loader.c:1823-1936 | the entries written hold at most the script, `-m` and its argument, two per extra argument and 21 options |
| Loader2Argv.ArgvLayout | loader2/loader.c:1823-1874 | the script comes first, then `-m` and the method argument, then each extra argument's split pieces in order |
| Loader2Argv.ValueOptionsPresent | loader2/loader.c:1903-1936 | the value options carry no NULL when the kickstart and virtual-console flags come with their values |
| Loader2Argv.OptValuePresent | loader2/loader.c:1903-1936 | an option with a value present holds no NULL |
| Loader2Argv.OptionsPresent | loader2/loader.c:1877-1936 | the options carry no NULL when the flags that need values come with them |
| Loader2Argv.ArgsUpTo | loader2/loader.c:1938-1957 | execv sees the vector up to its first NULL |
| Loader2Argv.WholeArgvPassed | loader2/loader.c:1823-1938 | when every flag with a value comes with it, execv receives the whole vector |
| Loader2Argv.KickstartWithoutFileCuts | loader2/loader.c:1903-1906 | FL_KICKSTART without a kickstart file puts a NULL right after `--kickstart`: execv receives the vector only up to `--kickstart` |
| Loader2Argv.CutAfterOption | loader2/loader.c:1903-1906 | a vector whose options start with a name and a NULL is passed on up to that name |
| Loader2Argv.KickstartLayout | loader2/loader.c:1903-1906 | outside rescue mode with FL_KICKSTART the value options start with `--kickstart` and the file, after a NULL-free head |
| Loader2Argv.SelinuxOptionExactlyOne | loader2/loader.c:1898-1901 | outside rescue mode exactly one of `--selinux` and `--noselinux` is passed, `--selinux` iff FL_SELINUX |
| Loader2Argv.TextBeatsGraphical | loader2/loader.c:1890-1893 | text mode passes `-T` and never `--graphical` |
| Loader2Argv.NoPassHidesLangKbd | loader2/loader.c:1923-1931 | with NOPASS the language and keymap do not influence the vector |
| Loader2Argv.RescueOptions | loader2/loader.c:1877-1887 | in rescue mode only the IP-family options, `--rescue` and `--serial` follow the extra arguments |
| Loader2Argv.ArgvFitsAsWrittenWhen | loader2/loader.c:1823-1938 | in the 50-slot buffer, extra arguments splitting into at most 25 pieces always fit; 48 pieces or more, or 24 valued extras, never fit (also line 1560 of the same file) |
| Loader2Argv.ArgvOverflowsAsWritten | loader2/loader.c:1862-1874 | 24 copies of one valued extra argument overflow the 50-slot buffer (also line 1560 of the same file) |
| Loader2Argv.ArgvFits | loader2/loader.c:1823-1938 | with fewer than MAX_EXTRA_ARGS extras the vector fits the corrected buffer (also line 100 of the same file) |
| Loader2Argv.PushItems | loader2/loader.c:1823-1936 | the items are written at the current index and the rest of the buffer stays NULL |
| Loader2Argv.BuildArgv | loader2/loader.c:1823-1938 | the buffer holds exactly the vector and its NULL unless it overflows, /tmp/method is written for ftp: URLs, the stored extras are cut at `=`; the corrected buffer never overflows and the as-written one overflows exactly when the vector does not fit (also line 1560 of the same file) |
| Loader2Argv.FillArgv | loader2/loader.c:1823-1938 | a large enough buffer receives exactly the vector and its NULL, and /tmp/method the URL's file contents |
| Loader2Argv.PushExtras | loader2/loader.c:1862-1874 | the loop over extraArgs appends each extra argument's split pieces in order |
| Hardware.CanProbeDevices | loader2/hardware.c:36-47 | on s390 probing is always allowed; as written the answer is 1 exactly when none of /proc/bus/pci/devices, /proc/openprom and /proc/iSeries is readable; corrected, exactly when one of them is |
| Hardware.Detected | loader2/hardware.c:80-100 | at most one driver per device |
| Hardware.DetectedAppend | loader2/hardware.c:80-100 | probing two runs of devices one after the other gives the drivers of each, in order |
| Hardware.DetectedMembers | loader2/hardware.c:80-100 | a driver is in the list exactly when some device kept (class not switched off, driver not ignore/unknown/disabled) has it |
| Hardware.DetectHardware | loader2/hardware.c:49-108 | no probe result, or an empty one, gives no list; otherwise the drivers kept, in probe order; no failure is ever reported |
| Hardware.DetectHardwareLoop | loader2/hardware.c:80-104 | the loop over the probed devices computes exactly DetectHardware |
| Hardware.JoinLength | loader2/hardware.c:229-233 | the joined set is as long as the names plus one separator between each two |
| Hardware.JoinModules | loader2/hardware.c:228-233 | the loop builds the names joined with `:` in order |
| Hardware.PrintAll | loader2/hardware.c:223-225 | just probing prints each driver, one per line, in order |
| Hardware.BusProbe | loader2/hardware.c:207-245 | the PCMCIA controller is always initialised first; under noprobe nothing else happens; only the as-written 1024-byte buffer can overflow |
| Hardware.LoadedSet | loader2/hardware.c:226-238 | a module set is loaded only when probing for real and something was found, and it is the detected drivers joined with `:` |
| Hardware.JoinSplit | loader2/hardware.c:229-235 | the module loader, splitting the set at `:`, gets back the drivers when none contains `:` |
| Hardware.PciMachineNotProbedAsWritten | loader2/hardware.c:41-46 | as written, a machine (not s390) with a readable /proc/bus/pci/devices never loads anything; corrected, it loads the drivers the probe reports (also line 218 of the same file) |
| Hardware.Repeat | loader2/hardware.c:229-233 | n copies of one name |
| Hardware.RepeatLength | loader2/hardware.c:229-233 | n copies of a name have n times its length |
| Hardware.ModulesOverflowAsWritten | loader2/hardware.c:211-233 | as written, n devices with one driver whose n × (name length + 1) exceeds 1024 overrun the module-set buffer; corrected, the whole set is loaded |
| Hardware.AllKept | loader2/hardware.c:80-100 | devices all driven by one real module give that module once per device |
| Hardware.Agpgart | loader2/hardware.c:110-151 | agpgart is loaded (once) exactly when not testing and some video card is an Intel 810 or 815; 1 is returned only when that load fails |
| Hardware.AgpgartInitialize | loader2/hardware.c:126-148 | the loop over the video cards, stopping at the first that needs agpgart, computes exactly Agpgart |
| Hardware.ChunkLength | loader2/hardware.c:284 | fgets returns a non-empty piece of at most its size |
| Hardware.Chunks | loader2/hardware.c:284 | every piece fgets returns is non-empty and within its size |
| Hardware.ChunksConcat | loader2/hardware.c:284 | read one after the other, the pieces give back the whole file |
| Hardware.DasdAt | loader2/hardware.c:285-287 | the parameter starts after the first " dasd=" or else after the first " DASD="; none exactly when the line has neither |
| Hardware.TokenEnd | loader2/hardware.c:290-291 | the token ends at the first white space after the keyword, or at the end of the line |
| Hardware.DasdToken | loader2/hardware.c:285-293 | a parameter is taken exactly when the line has the keyword; it starts with `dasd=` and holds no white space |
| Hardware.DasdTokenForm | loader2/hardware.c:288-292 | the token from the keyword's `=` to white space, behind a lower-case `dasd`, starts with `dasd=` and holds no white space |
| Hardware.RebuiltSlices | loader2/hardware.c:288-292 | the rebuilt line holds the token where the keyword was, a NUL after it and the rest unchanged |
| Hardware.EditedHoldsToken | loader2/hardware.c:288-292 | the edited line holds the parameter, NUL-terminated, where the keyword was; the rest of the line is unchanged |
| Hardware.RebuiltByWrites | loader2/hardware.c:289-292 | the edit is the same as the four `dasd` writes and the NUL the code makes |
| Hardware.DasdTokenIs | loader2/hardware.c:288-292 | the parameter is `dasd` followed by the rest of the token from its `=` on |
| Hardware.EditDasdLine | loader2/hardware.c:285-293 | the line is edited in place exactly when it has the keyword, as Edited says, and the start and end of the parameter are reported; otherwise it is unchanged |
| Hardware.WriteKeyword | loader2/hardware.c:289 | `dasd` is written over the four keyword characters |
| Hardware.ScanToken | loader2/hardware.c:290-291 | the walk stops at the token's end |
| Hardware.TokenEndIs | loader2/hardware.c:290-291 | a position after non-space characters and before white space or the end is the token end |
| Hardware.DasdParms | loader2/hardware.c:282-297 | the first piece holding the keyword gives a parameter starting with `dasd=` without white space; none exactly when no piece has the keyword |
| Hardware.ReadDasdParms | loader2/hardware.c:284-294 | the loop over the lines, stopping at the first with the keyword, computes exactly DasdParms |
| Hardware.DasdParmsStep | loader2/hardware.c:284-294 | the search looks at the lines one at a time in order |
| Hardware.ReadChunk | loader2/hardware.c:285-293 | one line copied, edited in place and cut gives its parameter, or none without the keyword |
| Hardware.CmdlineParms | loader2/hardware.c:281-297 | a parameter found always starts with `dasd=`; an unreadable /proc/cmdline gives none |
| Hardware.DasdActions | loader2/hardware.c:298-326 | a parameter with a value is given to dasd_mod before the disciplines are loaded; without one (or with an empty value) all DASD modules are loaded first; dasd_mod is loaded with arguments only with a non-empty parameter |
| Hardware.DasdSetup | loader2/hardware.c:266-328 | nothing happens off s390; on s390 the actions follow the parameter found in /proc/cmdline |
| Hardware.EmptyDasdIsAbsent | loader2/hardware.c:298-300 | an empty `dasd=` acts exactly like no parameter, and a non-empty one is never dropped |
| Hardware.UpperCaseNormalised | loader2/hardware.c:286-289 | a ` DASD=` keyword is read as `dasd=`, with the value that follows copied unchanged |
| HdInstall.Stage2Start | loader2/hdinstall.c:55-58 | the search starts at hdstg2.img exactly when memory is below 128000 KB |
| HdInstall.FirstExisting | loader2/hdinstall.c:61-69 | the first candidate whose path exists, every earlier one missing; past the end when none exists |
| HdInstall.Stage2Paths | loader2/hdinstall.c:63 | one `<prefix>/<dir>/<product>/base/<name>` path per candidate |
| HdInstall.SearchStage2 | loader2/hdinstall.c:60-69 | the loop stops at FirstExisting, and `target` is that candidate, or the last one tried when none exists |
| HdInstall.LoadHDImages | loader2/hdinstall.c:47-112 | no image opened gives 1 with nothing mounted; a stamp that does not match gives 1 with the image unmounted; 0 only with the image mounted |
| HdInstall.Stage2Choice | loader2/hdinstall.c:55-82 | the image used is the first existing candidate from the start index; when none exists nothing is loaded and 1 is returned |
| HdInstall.FirstType | loader2/hdinstall.c:181-194 | the first of ext2, vfat that mounts, every earlier one failing; the NULL entry when neither does |
| HdInstall.TryTypes | loader2/hdinstall.c:191-194 | the mount loop stops at FirstType |
| HdInstall.IsoRc | loader2/hdinstall.c:201-231 | 0 exactly when ISO images are found, the loop mount works and stage 2 loads from it |
| HdInstall.SetupIsoImages | loader2/hdinstall.c:176-246 | a URL (not testing) only when the images set up; in test mode always a URL |
| HdInstall.SetupLeavesNothingMounted | loader2/hdinstall.c:226-234 | the partition and the ISO image are unmounted before returning; a URL leaves stage 2 mounted on /mnt/runtime |
| HdInstall.MountedPartition | loader2/hdinstall.c:191-194 | the mount loop leaves at most the partition mounted |
| HdInstall.IsoImageLog | loader2/hdinstall.c:201-234 | after the ISO part and the partition unmount neither the partition nor the image is mounted, and success leaves stage 2 mounted |
| HdInstall.SetupUrl | loader2/hdinstall.c:242-243 | a URL names the device, the directory and a file system the partition mounted as; as written, possibly the type "(null)" |
| HdInstall.UnmountedPartitionSearchedAsWritten | loader2/hdinstall.c:196-197 | as written, a partition that mounts as neither type but whose mount point holds images gives a URL with type "(null)"; corrected, none |
| HdInstall.StripDev | loader2/hdinstall.c:294-297 | a leading /dev/ is removed and nothing else changes |
| HdInstall.KickstartHd | loader2/hdinstall.c:284-307 | a failed kickstart attempt clears the method; a URL leaves loaderData unchanged |
| HdInstall.KickstartFallback | loader2/hdinstall.c:274-320 | kickstart data missing the partition or directory, or whose images fail, clears the method and falls back to the loop; good data returns its URL without a dialog |
| HdInstall.NoPartitions | loader2/hdinstall.c:330-343 | with no partitions Back returns NULL; a driver disk that loads makes the loop ask again |
| HdInstall.CleanAppend | loader2/hdinstall.c:320-446 | two passes that leave nothing mounted leave nothing mounted together |
| HdInstall.PassFacts | loader2/hdinstall.c:320-446 | a pass leaves neither partition nor ISO image mounted, and a URL is for the partition selected |
| HdInstall.AcceptedSetup | loader2/hdinstall.c:430-446 | the images set up for the selection leave nothing mounted, and a URL starts with hd://<device>: |
| HdInstall.AllHdWellFormedTail | loader2/hdinstall.c:320 | the answers after the first are well formed |
| HdInstall.LoopUrl | loader2/hdinstall.c:320-450 | a URL from the loop names a partition listed in some pass, and nothing is left mounted |
| HdInstall.HdLoopStep | loader2/hdinstall.c:320-446 | a returning pass ends the loop with its URL; otherwise the loop goes on with the next answer |
| HdInstall.MountHardDriveLoop | loader2/hdinstall.c:320-450 | the while loop over the answers computes exactly HdLoop |
| HdInstall.BiosPartition | loader2/hdinstall.c:478-501 | `--biospart=<disk>p<n>` on a known BIOS disk names <device><n>, and the directory is kept |
| HdInstall.BadBiosPartition | loader2/hdinstall.c:480-490 | a `--biospart` without `p` or naming an unknown disk leaves loaderData untouched |
| HdInstall.HdSourceRoundTrip | loader2/hdinstall.c:512-528 | `hd:<device>:<path>` splits back into the device and the path |
| HdInstall.HdSourceOldFormat | loader2/hdinstall.c:519-523 | the old `hd:<device>/<path>` form splits at the first `/` |
| HdInstall.KickstartFromHd | loader2/hdinstall.c:506-545 | 0 exactly when the source splits and the file is read from that device and path |
| HdInstall.BdSourceRoundTrip | loader2/hdinstall.c:555-576 | `bd:<disk>p<part>:<path>` splits back into its three pieces |
| HdInstall.FormatInto | loader2/hdinstall.c:588-589 | sprintf succeeds exactly when the text and its NUL fit, and then writes the text |
| HdInstall.KickstartFromBd | loader2/hdinstall.c:548-600 | 0 exactly when the source splits, the BIOS disk is known, (as written) the partition is at most two characters, and the file is read from <device><partition>; corrected, never overruns |
| HdInstall.BdOverflowAsWritten | loader2/hdinstall.c:588-589 | as written a three-digit partition overruns the device-name buffer; corrected, the file is fetched |
| NfsInstall.NfsGetSetup | loader2/nfsinstall.c:37-70 | Back (button 2) keeps server and directory and returns LOADER_BACK; anything else stores what was typed and returns 0 |
| NfsInstall.SetKickstartNfs | loader2/nfsinstall.c:252-282 | a bad option leaves loaderData unchanged; otherwise the method is nfs and the server and directory given are stored |
| NfsInstall.SetKickstartNfsDeterminate | loader2/nfsinstall.c:254-278 | corrected, an option left out is NULL, so the data is never indeterminate |
| NfsInstall.NfsStage | loader2/nfsinstall.c:130-154 | the NFS stage moves only to itself, IP or MOUNT, and reaches MOUNT with a server and a directory set |
| NfsInstall.Stopped | loader2/nfsinstall.c:98 | the loop has ended at DONE, a return or a fault |
| NfsInstall.Step | loader2/nfsinstall.c:98-242 | one pass keeps the loop invariant: the mount stage always has a server and a directory |
| NfsInstall.Run | loader2/nfsinstall.c:98-242 | the invariant holds after any number of passes |
| NfsInstall.IfaceReturns | loader2/nfsinstall.c:100-113 | NULL is returned exactly on Back, an error, or nothing to do while going back; otherwise on to IP going forwards |
| NfsInstall.IpBack | loader2/nfsinstall.c:114-129 | Back, an error or nothing to do going back returns to the interface going backwards; otherwise on to NFS |
| NfsInstall.NfsStageChoices | loader2/nfsinstall.c:130-154 | kickstart data missing server or directory clears the method; without kickstart data Back goes to IP backwards and OK stores the answer and goes to MOUNT |
| NfsInstall.MountStageFacts | loader2/nfsinstall.c:156-236 | the source mounted is host:directory; test mode finishes without mounting; a failed mount shows its message, clears the method and goes back to the prompt |
| NfsInstall.MountOutcome | loader2/nfsinstall.c:174-224 | the direct URL exactly when the tree's stage2.img is readable and mounts; a URL leaves the directory (and for ISO the image) mounted; otherwise both come off and the message says whether a tree did not match |
| NfsInstall.TreeUnmounted | loader2/nfsinstall.c:197-215 | a tree given up leaves the mounts as they were |
| NfsInstall.KickstartLoopsAsWritten | loader2/nfsinstall.c:130-224 | as written, kickstart data naming a directory that mounts but is not usable keeps its method, so the loop never ends and never prompts |
| NfsInstall.KickstartFallsBackCorrected | loader2/nfsinstall.c:130-224 | corrected, that failure clears the method, so the next pass prompts and Back there reaches the network stage |
| NfsInstall.StepKeepsMounts | loader2/nfsinstall.c:98-242 | a pass keeps: nothing mounted between passes, only what the URL names at the end |
| NfsInstall.RunKeepsMounts | loader2/nfsinstall.c:98-248 | over a whole run, a URL is one of the two forms with its mounts kept, and every other ending leaves nothing mounted |
| NfsInstall.DeterminateNeverFaults | loader2/nfsinstall.c:130-172 | with determinate kickstart data no indeterminate pointer is ever used |
| NfsInstall.MissingServerAsWritten | loader2/nfsinstall.c:140-145 | as written, a kickstart nfs command without --server reaches the mount with an indeterminate server name (also lines 254, 275-278 of the same file) |
| NfsInstall.MissingServerCorrected | loader2/nfsinstall.c:140-145 | corrected, the same command clears the method and the next pass prompts |
| NfsInstall.MountNfsImage | loader2/nfsinstall.c:73-249 | the loop computes exactly Run from the start state; determinate data never faults; a URL is nfs://mnt/source/. or nfsiso:/mnt/source with /mnt/source mounted |
| NfsInstall.Pass | loader2/nfsinstall.c:99-241 | the switch computes exactly Step |
| NfsInstall.KickstartNfsLocation | loader2/nfsinstall.c:321-330 | a path without `/` is the file, with the host unchanged |
| NfsInstall.KickstartNfsLocationSplit | loader2/nfsinstall.c:321-330 | `<dir>/<file>` splits into host/dir and the file |
| NfsInstall.KickstartFromNfs | loader2/nfsinstall.c:285-351 | 0 exactly when the network comes up, a URL or a boot server is known (with /kickstart/ when no boot file), the server mounts and the file copies |
| Devices.Prefill | loader/devices.c:61-72 | a named parameter's entry starts as `<name>=` (`io=0x` for io); an unnamed one starts empty |
| Devices.Prefills | loader/devices.c:61-72 | one prefilled entry per parameter, each as Prefill says |
| Devices.LastNonSpace | loader/devices.c:110-111 | the last character that is not white space, with only blanks after it; none exactly when the value is all blanks |
| Devices.ScanValue | loader/devices.c:108-115 | a value passes only when its last non-blank character is not `=`; as written, a non-empty value of blanks reads before its start; corrected, never |
| Devices.KeptValues | loader/devices.c:106-115 | the values kept are among those typed, no more of them than entries; corrected, the scan never faults |
| Devices.SpaceCount | loader/devices.c:118-123 | the blanks counted are no more than the characters |
| Devices.WordsSkipSpace | loader/devices.c:128 | a leading blank does not change the words |
| Devices.WordsStep | loader/devices.c:130-138 | a word starting the field runs to the first blank |
| Devices.WordLengthIs | loader/devices.c:130-138 | the first word's length is the first blank's position |
| Devices.SpaceCountSuffix | loader/devices.c:118-123 | a suffix has no more blanks than the whole |
| Devices.WordsFit | loader/devices.c:118-125 | the free-form field has at most one word more than it has blanks, so the reallocated array holds every word and the NULL |
| Devices.ModuleArgs | loader/devices.c:46-147 | Back (button 2) exactly gives LOADER_BACK; corrected, the scan never faults; without the free-form field no more arguments than entries |
| Devices.BlankValueUnderflowsAsWritten | loader/devices.c:108-111 | as written, a parameter typed as blanks only reads before the value; corrected, it is dropped |
| Devices.UntouchedIoPassedAsWritten | loader/devices.c:64-113 | as written, an io parameter left at `io=0x` is passed to the module; corrected, it is dropped |
| Devices.UntouchedPrefillsDropped | loader/devices.c:61-115 | corrected, no prefilled value left as it is reaches the module |
| Devices.PrefillsDropped | loader/devices.c:106-115 | values equal to their `=`-ended prefills give no arguments |
| Devices.GetModuleArgs | loader/devices.c:46-147 | the loops compute exactly the corrected ModuleArgs |
| Devices.KeepValues | loader/devices.c:106-115 | the first loop computes the values kept by the corrected scan |
| Devices.SplitWords | loader/devices.c:125-140 | the second loop appends exactly the words of the free-form field |
| Devices.SkipSpaces | loader/devices.c:128 | stops at the first non-blank from `pos` (or the end), and the words from there are the same |
| Devices.WordEnd | loader/devices.c:132 | the word's end: every character before it is non-blank, and it is a blank or the end |
| Devices.NextWord | loader/devices.c:130-138 | taking one word keeps the words seen plus the rest equal to all the words |
| Devices.SpaceAt | loader/devices.c:128 | a blank does not change the words from there |
| Devices.WordAt | loader/devices.c:130-138 | the word starting at `pos` runs to `end` |
| Devices.StrLeTotal | loader/devices.c:282-288 | any two descriptions are ordered one way or the other |
| Devices.Candidates | loader/devices.c:305-314 | exactly the modules of the class not loaded, each once, in table order |
| Devices.InsertByDescription | loader/devices.c:324 | inserting keeps the list sorted by description and adds the one index |
| Devices.SortByDescription | loader/devices.c:282-324 | the result is sorted by description and a permutation of the input |
| Devices.Menu | loader/devices.c:305-324 | the menu is the candidates rearranged into order of description |
| Devices.PickModule | loader/devices.c:290-384 | a module picked is of the class and was not loaded when it was listed |
| Devices.Later | loader/devices.c:316-375 | a pass that rebuilt the menu picks from a later answer |
| Devices.MenuContents | loader/devices.c:305-324 | the menu lists exactly the modules of the class not loaded, each once, in order of description; an empty list goes to the driver disk |
| Devices.SameMembers | loader/devices.c:324 | a rearrangement has the same members |
| Devices.SameCountsDistinct | loader/devices.c:324 | a rearrangement of an increasing list repeats nothing |
| Devices.TwiceCounted | loader/devices.c:324 | a value at two positions counts at least twice |
| Devices.DistinctCount | loader/devices.c:305-314 | an increasing list holds each value at most once |
| Devices.CollectCandidates | loader/devices.c:305-314 | the loop fills the list with exactly Candidates |
| Devices.PickModuleLoop | loader/devices.c:302-378 | the loop computes exactly PickModule |
| Devices.DevValid | loader/devices.c:395-417 | past S_MODULE a module is chosen |
| Devices.DevStep | loader/devices.c:395-417 | one pass keeps DevValid |
| Devices.DevStopped | loader/devices.c:395 | the loop ended at S_DONE, on Back, or out of answers |
| Devices.DevRun | loader/devices.c:395-417 | DevValid holds after any number of passes |
| Devices.DeviceMenu | loader/devices.c:386-436 | a module name is returned only when it loaded (rc 0) |
| Devices.ArgsBackToMenu | loader/devices.c:404-411 | Back from the parameters returns to S_MODULE keeping the module chosen |
| Devices.NoParametersNoArgs | loader/devices.c:404-413 | a module chosen without asking for parameters goes to S_DONE with no arguments |
| Devices.StageOrder | loader/devices.c:395-417 | stages only move S_MODULE → S_ARGS → S_DONE, or back from S_ARGS to S_MODULE |
| Devices.DiskTitle | loader/devices.c:176-181 | the title is the file without one trailing newline |
| Devices.ReadLine | loader/devices.c:451-454 | each line read consumes at least one character |
| Devices.ReadLineOf | loader/devices.c:451-454 | a line followed by a newline reads back as itself and the rest |
| Devices.DiskInfoRoundTrip | loader/devices.c:451-458 | a diskInfo file reads back as what was written, "(NONE)" standing for no device (also lines 208-213 of the same file) |
| Devices.DriverDisks.constructor | loader/devices.c:153 | no disk recorded yet, counter at 0 |
| Devices.DriverDisks.InitDriverDisk | loader/devices.c:149-219 | 1 exactly for a disk missing a required file or with an empty title file; 0 reads the title; a saved disk gets the next number and its diskInfo, a failed copy saves nothing |
| Devices.DriverDisks.ReadDriverDiskModInfo | loader/devices.c:438-466 | corrected, every recorded disk is read back; as written, at most the first |
| Devices.ReadAll | loader/devices.c:446-465 | one entry per disk, each read back from its diskInfo text |
| Devices.ReadAllStep | loader/devices.c:446-465 | reading one more disk appends its entry |
| Devices.ReadAllRoundTrip | loader/devices.c:446-465 | disks whose details fit on one line each are read back exactly |
| Devices.LaterDisksLostAsWritten | loader/devices.c:464 | as written, with two disks loaded the second is not read back (the next name is diskName, a file never written); corrected, all are |
| Network.BadCharFrom | network.py:71-73 | true exactly when some character from `i` on is outside letters, digits, `.` and `-` |
| Network.SanityCheckHostname | network.py:57-76 | accepted exactly when empty, or at most 255 characters starting with a letter or digit and then only letters, digits, `.`, `-`; too long exactly over 255; a bad first character exactly when that is what fails first |
| Network.GuessFamily | network.py:184-191 | IPv4 exactly when there is no `:` and a `.` not at the start; IPv6 exactly when there is no `.` and a `:` not at the start |
| Network.SanityCheckIPString | network.py:180-196 | missing exactly when the text strips to nothing; a non-blank text is accepted exactly when a family is guessed from where `:` and `.` fall and inet_pton accepts it in that family; a refusal names the guessed family (none when no family was guessed) |
| Network.MixedAddressRefused | network.py:184-191 | a text holding both `:` and `.` is refused before any parser runs |
| Network.LeadingSeparatorRefused | network.py:184-191 | a text starting with `.` or `:` is never accepted |
| Network.WithAutoneg | network.py:289-292 | only ETHTOOL_OPTS may change, and afterwards it mentions autoneg |
| Network.RenderKeys | network.py:280-287 | DEVICE first, then every other key once in sorted order, without KEY, and without HWADDR on s390 |
| Network.IfcfgTextPrefix | network.py:294-296 | the text of a prefix of the keys is a prefix of the text |
| Network.WriteLines | network.py:294-296 | the loop writes exactly one `KEY="value"` line per key with a value, in order |
| Network.NetworkDevice.constructor | network.py:266-271 | a ctc interface starts typed CTC; any other starts with no settings; no description |
| Network.NetworkDevice.Set | network.py:405-410 | the one key is set to the value and nothing else changes |
| Network.NetworkDevice.StoreNameServers | network.py:405-410 | server i, stripped, becomes DNS<i+1> |
| Network.NetworkDevice.Clear | network.py:273-276 | every setting goes except the CTC type of a ctc interface |
| Network.NetworkDevice.Render | network.py:278-298 | no DEVICE raises and a None ETHTOOL_OPTS raises, both changing nothing; otherwise autoneg is added and the text is one line per key in RenderKeys order |
| Network.NetworkDevice.UdevRule | network.py:683-700 | the rule for the device's name, MAC address and description |
| Network.BaseName | network.py:688-690 | the name with all trailing digits removed: a prefix, not ending in a digit, with only digits after it |
| Network.StripAll | network.py:407 | one stripped piece per piece |
| Network.DnsKeyDistinct | network.py:408 | different numbers give different DNS keys |
| Network.DnsStored | network.py:403-410 | after n servers are stored, server j is in DNS<j+1> |
| Network.DnsOthersKept | network.py:403-410 | keys other than DNS1..DNS<n> keep their settings |
| Network.IsDhcp | network.py:476 | BOOTPROTO is dhcp in any case |
| Network.KsLine | network.py:473-516 | a device gets a line exactly when it is dhcp or has an address |
| Network.KsLineShape | network.py:476-516 | a line starts `network --device <DEVICE>` and ends with a newline |
| Network.KsTextStep | network.py:473-516 | one more device name appends its line |
| Network.KsTextSilent | network.py:476 | devices neither dhcp nor with an address write nothing |
| Network.WriteKsLines | network.py:473-516 | the loop writes exactly the lines of the names in order |
| Network.IndexOf | network.py:779-783 | the first position of the word, or none exactly when it is absent |
| Network.NonEmpty | network.py:826-827 | the empty pieces are dropped |
| Network.HwArg | network.py:810-815 | what was there stays at the front |
| Network.CcwArg | network.py:817-829 | what was there stays at the front |
| Network.DracutSetupString | network.py:764-831 | a fault exactly when the route reply has no words; a named interface the installer does not know gives "" |
| Network.UnexpectedRouteRefused | network.py:779-783 | a reply naming another host, too short, or with dev missing or after index 3 gives "" |
| Network.DhcpArgument | network.py:793-795 | a dhcp interface reached through a host address gives `ip=<nic>:dhcp` first |
| Network.Network.constructor | network.py:341-345 | the host name given, no dhcp host name override, no devices yet |
| Network.Network.SetDNS | network.py:403-410 | an unknown device raises; otherwise the comma-separated servers, stripped, become DNS1, DNS2, … of the device |
| Network.Network.GetOnbootIfaces | network.py:458-463 | each device whose ONBOOT is "yes", and only those, once each |
| Network.Network.WriteKS | network.py:465-516 | the network lines of the devices in sorted name order |
| Kickstart.FirstMountedAt | kickstart.py:709-712 | the first request with that mount point, none before it; none exactly when no request has it |
| Kickstart.AddedKeepsOthers | kickstart.py:704-713 | the new request is last; every request with another or no mount point stays; one with the same mount point is replaced, otherwise the list grows by one |
| Kickstart.RemovedKeepsOthers | kickstart.py:709-713 | removing the first request with the mount point keeps every request with another |
| Kickstart.AddedOverrides | kickstart.py:704-713 | requests keep distinct mount points, and the new one's mount point is used by no other |
| Kickstart.Partitions.constructor | kickstart.py:704-713 | the request list given, not yet marked kickstart |
| Kickstart.AddPartRequest | kickstart.py:704-713 | the list becomes Added of the old list, and the kickstart flag does not change |
| Kickstart.InitialBooksValid | kickstart.py:88-101 | the empty RAID, PV and VG maps with ksID at 100000 satisfy the bookkeeping invariant (ids distinct, all below ksID) |
| Kickstart.Define | kickstart.py:356-376 | only raid. and pv. names get an id, which is the current ksID, and ksID then goes up by one |
| Kickstart.IssuedBelowRaise | kickstart.py:364 | ids below n are below n + 1 |
| Kickstart.BindFresh | kickstart.py:362-364 | binding a name to the current ksID keeps the ids distinct and below the next ksID |
| Kickstart.ApartSymmetric | kickstart.py:362-376 | maps that share no id share none either way |
| Kickstart.DefineKeepsValid | kickstart.py:356-376 | defining a new RAID or PV name keeps the bookkeeping invariant |
| Kickstart.PartitionKeepsBooks | kickstart.py:324-429 | a partition command, accepted or refused, keeps the bookkeeping invariant |
| Kickstart.PartitionAccepted | kickstart.py:385-429 | an accepted partition adds a partition request last, with a size, start, end or device, a drive when it has a start, and a drive that exists |
| Kickstart.RaidNameDefinedOnce | kickstart.py:356-358 | the same raid. name on a second partition is refused |
| Kickstart.PartitionNeedsPlacement | kickstart.py:385-388 | a partition without size, cylinders or --onpart is refused (unless a recommended swap), and so is one with a start cylinder but no drive |
| Kickstart.BiosDiskRefusedAsWritten | kickstart.py:329-333 | as written, `--onbiosdisk=80` naming a known disk is refused; corrected, it is placed on that disk |
| Kickstart.IdsOf | kickstart.py:474 | one id per member, the member's own, in order |
| Kickstart.ScanMembersOk | kickstart.py:467-475 | the member loop succeeds exactly when every member is defined, used by no earlier RAID and not repeated |
| Kickstart.ScanMembersResult | kickstart.py:467-475 | a successful scan marks the members used and collects their ids in order |
| Kickstart.ScanKeepsUsed | kickstart.py:467-475 | the used members stay defined RAID members |
| Kickstart.WithUsedValid | kickstart.py:475 | recording used members keeps the bookkeeping invariant |
| Kickstart.RaidStepBooks | kickstart.py:435-499 | the bookkeeping after a raid command is RaidBooks, accepted or not |
| Kickstart.RaidKeepsBooks | kickstart.py:435-499 | a raid command keeps the bookkeeping invariant |
| Kickstart.RaidAccepted | kickstart.py:435-499 | accepted exactly when a pv. name is new, the mount point is valid, every member is defined and unused, and there is a level and members (or --useexisting) |
| Kickstart.RaidMemberUsedOnce | kickstart.py:471-475 | a member used by one accepted raid is refused in the next |
| Kickstart.VolumeGroupKeepsBooks | kickstart.py:535-564 | a volgroup command keeps the invariant, and an accepted one gets an id no RAID, PV or other VG has |
| Kickstart.VolumeGroupAccepted | kickstart.py:535-564 | accepted exactly when every PV is defined, there is one (or --useexisting), and the extent size is possible; the request then carries the PV ids and the new id |
| Kickstart.LogicalVolumeAccepted | kickstart.py:200-257 | an accepted logvol adds a logical-volume request last with a valid mount point, a percentage in 1..100 or a size (or --useexisting), in the named group; the bookkeeping does not change |
| Kickstart.LogicalVolumeNameOnce | kickstart.py:233-236 | the same name in the same group is refused the second time |
| Kickstart.Handlers.constructor | kickstart.py:88-101 | the bookkeeping starts empty at ksID 100000, with no steps to skip or show |
| Kickstart.Handlers.DefineName | kickstart.py:356-376 | the bookkeeping changes as Define says and nothing else |
| Kickstart.Handlers.DoPartition | kickstart.py:324-429 | bookkeeping, requests and result are PartitionStep's; an accepted command adds the three partition steps to skip and marks the partitions kickstart |
| Kickstart.Handlers.DoRaid | kickstart.py:435-499 | bookkeeping, requests and result are RaidStep's; an accepted command adds the three partition steps to skip |
| Kickstart.Handlers.MarkMembers | kickstart.py:467-475 | the loop over the members computes exactly ScanMembers |
| Kickstart.Handlers.DoVolumeGroup | kickstart.py:535-564 | bookkeeping, requests and result are VolumeGroupStep's; no steps are skipped |
| Kickstart.Handlers.DoLogicalVolume | kickstart.py:200-257 | bookkeeping, requests and result are LogicalVolumeStep's; an accepted command adds the three partition steps to skip |
| Kickstart.PlacePartition | kickstart.py:390-429 | the requests and result are Placement's; an accepted one marks the partitions kickstart |
| Kickstart.IdsOfSnoc | kickstart.py:474 | one more member appends its id |
| Kickstart.DeviceInUse | kickstart.py:417-420 | true exactly when some request already uses the --onpart device |
| Kickstart.LvNameInUse | kickstart.py:233-236 | true exactly when the group already has a logical volume of that name |
| Kickstart.Dispatcher.constructor | kickstart.py:799 | no step decisions yet |
| Kickstart.Dispatcher.SkipStep | kickstart.py:807-815 | one skip or show decision is recorded |
| Kickstart.Dispatcher.InstallClassSteps | kickstart.py:800-817 | the install class's own defaults are recorded |
| Kickstart.FinalAppend | kickstart.py:799-864 | the last decision about a step is the later list's if it has one |
| Kickstart.Decisions | kickstart.py:855-864 | one decision per step named, in order |
| Kickstart.FinalDecisions | kickstart.py:855-864 | after deciding a list of steps, each named step ends with that decision and others have none |
| Kickstart.ShowStepsShown | kickstart.py:863-864 | a step in the show list ends shown |
| Kickstart.SkipStepsSkipped | kickstart.py:855-862 | not interactive, a step in the skip or permanent list and not shown ends skipped |
| Kickstart.InteractiveIgnoresHandlerSkips | kickstart.py:855-862 | interactive, only the fixed steps are skipped |
| Kickstart.FixedCallsSkipFixed | kickstart.py:800-839 | the fixed part of setSteps skips only its fixed steps |
| Kickstart.SkipsNamed | kickstart.py:855-858 | a skip comes from the names given |
| Kickstart.GroupSelectionFollowsPackages | kickstart.py:843-853 | not interactive, group selection is skipped exactly for an upgrade or a package section; interactive and not upgrading, it is shown |
| Kickstart.AutostepSkipsMonitor | kickstart.py:823-828 | with autostep the monitor step is skipped |
| Kickstart.SetSteps | kickstart.py:799-864 | the decisions recorded are StepCalls; with autostep the handler lists are untouched, otherwise they become GroupLists |
| Kickstart.FixedSteps | kickstart.py:800-839 | the fixed decisions are appended |
| Kickstart.SkipMode | kickstart.py:819-828 | the interactive/autostep decisions are appended |
| Kickstart.ApplyHandlerLists | kickstart.py:843-864 | the group-selection lists and the handler decisions are applied |
| Kickstart.SkipHead | kickstart.py:800-817 | the upgrade or install decisions are appended |
| Kickstart.SkipTail | kickstart.py:830-839 | the remaining fixed decisions are appended |
| Kickstart.ApplyDecisions | kickstart.py:855-864 | the loop appends one decision per name |
| Kickstart.DispatchOf | kickstart.py:675-689 | an unknown command exactly when the first word has no handler; runs exactly when its handler is set, with the command and the rest of the words |
| Kickstart.HandleCommand | kickstart.py:675-689 | no handlers does nothing; a run records the command and line number; otherwise nothing changes |
| Kickstart.MentionsAt | kickstart.py:946 | an occurrence at or after a position is a mention from there |
| Kickstart.MentionWitness | kickstart.py:946 | a mention has an occurrence |
| Kickstart.StripSlice | kickstart.py:945 | the stripped line is a slice with only blanks around it |
| Kickstart.TrimmedBothEnds | kickstart.py:945 | trimming both ends leaves a slice with blanks around it |
| Kickstart.StripKeepsMention | kickstart.py:945-981 | the stripped line mentions %ksappend exactly when the line does |
| Kickstart.MentionInSlice | kickstart.py:945-946 | a slice with only blanks around it mentions %ksappend exactly when the whole line does |
| Kickstart.SliceOccurrence | kickstart.py:945-946 | an occurrence in a slice is one in the line |
| Kickstart.OccurrenceInSlice | kickstart.py:945-946 | an occurrence in the line lies in the non-blank slice |
| Kickstart.FirstTagged | kickstart.py:943-969 | the first %ksappend line, none before it; none exactly when no line has it |
| Kickstart.Untagged | kickstart.py:978-983 | the lines kept have no %ksappend, and no more than before |
| Kickstart.UntaggedAppend | kickstart.py:978-983 | filtering two blocks is filtering each |
| Kickstart.UntaggedKeepsAll | kickstart.py:978-983 | lines without %ksappend are all kept |
| Kickstart.Fetch | kickstart.py:948-969 | the file is rewritten exactly when the line has two words, the URL opens and the length passes; it is then the kept lines plus the body; a line of another shape is an illegal-URL error |
| Kickstart.OnlyFirstAppendCounts | kickstart.py:943-983 | only the first %ksappend line is fetched, and every %ksappend line is dropped |
| Kickstart.UntaggedPrefix | kickstart.py:978-983 | the lines before the first %ksappend are kept |
| Kickstart.UntaggedTagged | kickstart.py:980-982 | a %ksappend line is dropped |
| Kickstart.NoAppendUnchanged | kickstart.py:972-994 | without %ksappend nothing is rewritten |
| Kickstart.AppendLineParts | kickstart.py:945-950 | `%ksappend <url>` strips to itself and splits into its two words |
| Kickstart.EmptyAppendAcceptedAsWritten | kickstart.py:962-968 | as written, a reply with Content-Length 0 is appended; corrected, it is File not found |
| Kickstart.ZeroLength | kickstart.py:964-968 | the text "0" passes the as-written test and fails the corrected one |
| Kickstart.CorrectedNeedsLength | kickstart.py:962-968 | corrected, a rewrite needs a Content-Length that reads as a number of at least 1 |
| Kickstart.PullRemainingKickstartConfig | kickstart.py:934-994 | the loops compute exactly Pull |
| Kickstart.FirstTaggedAt | kickstart.py:943-969 | a %ksappend line with none before it is the first |
| Kickstart.KeptLines | kickstart.py:978-983 | the loop writes exactly the lines without %ksappend |
| Localization.LocaleCodeParts | pyanaconda/localization.py:71-85 | the code is the language, then `_territory`, `@script`, `#variant` for those present |
| Localization.WithEncodingAppends | pyanaconda/localization.py:80-84 | `.UTF-8` is appended exactly when the code has no `.` |
| Localization.ShortNameForm | pyanaconda/localization.py:68-85 | the short name starts with the language, holds a `.`, and ends with `.UTF-8` when the code had none |
| Localization.EqualityIgnoresFields | pyanaconda/localization.py:93-94 | two locales with different fields (en and en.UTF-8) compare equal because their short names agree |
| Localization.Before | pyanaconda/localization.py:164-171 | the text before the first separator holds no separator and is no longer |
| Localization.After | pyanaconda/localization.py:164-171 | none exactly without the separator; otherwise before, separator and after make the text |
| Localization.CutAt | pyanaconda/localization.py:164-171 | splitting `a<sep>b` with no separator in `a` gives `a` and `b` |
| Localization.CutKeeps | pyanaconda/localization.py:164-171 | a character absent from the text is absent from both pieces |
| Localization.CutNone | pyanaconda/localization.py:164-171 | without the separator the whole text is before it and nothing after |
| Localization.EncodingOrDefault | pyanaconda/localization.py:178-179 | the encoding given, or UTF-8 when none |
| Localization.PiecesCharacters | pyanaconda/localization.py:164-173 | the base holds none of `@`, `.`, `_`; the territory none of `@`, `.`; the encoding no `@` |
| Localization.SearchFormsSpelled | pyanaconda/localization.py:181-194 | every search form is one of the spellings whose parts are present |
| Localization.ExpandLangs | pyanaconda/localization.py:146-196 | the text itself is always in; without a base only it; otherwise the base and base.encoding, with the territory and script forms exactly when those parts are present |
| Localization.SpellForm | pyanaconda/localization.py:181-194 | each form starts with the base, followed by `.` for encoded forms and `@` for the script form |
| Localization.ExpandLangsStartWithBase | pyanaconda/localization.py:181-194 | every form other than the input starts with the base |
| Localization.SpellPresent | pyanaconda/localization.py:186-194 | only present parts are spelled |
| Localization.ExpandLangsOnlyPresentParts | pyanaconda/localization.py:186-194 | no territory form without a territory, no `@` without a script |
| Localization.FullParts | pyanaconda/localization.py:164-171 | `b_l.e@sc` splits into base b, territory l, encoding e and script sc |
| Localization.ExpandLangsFull | pyanaconda/localization.py:146-196 | for fr_FR.UTF-8@euro the set is exactly the eight forms listed in the docstring |
| Localization.SearchFormsFull | pyanaconda/localization.py:181-194 | with territory and script every form is produced |
| Localization.ExpandLangsPlain | pyanaconda/localization.py:146-196 | a bare language gives itself and `<lang>.UTF-8` |
| Localization.PartitionKeeps | pyanaconda/localization.py:98-109 | the two sides together hold exactly the input |
| Localization.PartitionSides | pyanaconda/localization.py:98-109 | the first side holds exactly the preferred ones, the second the rest (also lines 219-220 of the same file) |
| Localization.PartitionOrder | pyanaconda/localization.py:98-109 | each side keeps the input order |
| Localization.Filter | pyanaconda/localization.py:199-213 | exactly the locales matching, no more than the input |
| Localization.FilterDistinct | pyanaconda/localization.py:215-216 | filtering locales without duplicates leaves none |
| Localization.FromLanguage | pyanaconda/localization.py:198-205 | exactly the locales whose short name or language is the one asked for |
| Localization.FromTerritory | pyanaconda/localization.py:207-213 | exactly the locales of that territory |
| Localization.AllLocalesOrder | pyanaconda/localization.py:218-222 | a rearrangement of the locales with the preferred ones first |
| Localization.GetPreferredLocale | pyanaconda/localization.py:224-228 | none exactly when there are no locales; otherwise one of them, a preferred one when there is any |
| Localization.PreferredComesFirst | pyanaconda/localization.py:218-222 | when any locale is preferred, the first is |
| Localization.Run | pyanaconda/localization.py:294 | the longest prefix of the class |
| Localization.RunOf | pyanaconda/localization.py:294 | a run followed by another character is the run |
| Localization.Group | pyanaconda/localization.py:294 | an optional group is taken only with a non-empty body after its separator |
| Localization.ParseLangcode | pyanaconda/localization.py:292-296 | no match exactly when the code is empty or starts with a non-letter; a match is well formed |
| Localization.ParsePrefix | pyanaconda/localization.py:292-296 | the match is a prefix of the code |
| Localization.GroupSplit | pyanaconda/localization.py:294 | the group and the rest give back the text |
| Localization.GroupOf | pyanaconda/localization.py:294 | a formatted group reads back as itself |
| Localization.ParseOf | pyanaconda/localization.py:292-296 | a code built from its parts parses to them |
| Localization.ParseFormat | pyanaconda/localization.py:292-296 | formatting well-formed parts and parsing gives them back |
| Localization.FormatNests | pyanaconda/localization.py:294 | the formatted code is language, territory, codeset, modifier in order |
| Localization.Language.constructor | pyanaconda/localization.py:233-244 | translations and locales as given; en.UTF-8 preferred; preferences of the territory; with no territory the English translation and locale |
| Localization.Language.PreferTerritory | pyanaconda/localization.py:246-262 | the preferred locales become the territory's, and the translation is the one for the first locale found by short name, else by language, else unchanged |
| Localization.Language.SelectTranslation | pyanaconda/localization.py:264-289 | unknown translation raises KeyError and changes nothing; otherwise its language's preferences are appended; IndexError exactly when no locale is found and none was preferred |
| Localization.Language.SetInstallLang | pyanaconda/localization.py:305-306 | the install language becomes the code |
| Localization.Language.SetSystemLang | pyanaconda/localization.py:321-322 | the system language becomes the code |
| Localization.Language.InstallLangAsDictAsWritten | pyanaconda/localization.py:298-300 | as written, None whenever the code parses, since the parse result is not returned; AttributeError exactly when it does not parse |
| Localization.Language.InstallLangAsDict | pyanaconda/localization.py:298-300 | corrected, the parsed install language, well formed; none exactly when it does not start with a letter |
| Localization.Language.SystemLangAsDictAsWritten | pyanaconda/localization.py:302-304 | as written, None whenever the code parses; AttributeError exactly when it does not |
| Localization.Language.SystemLangAsDict | pyanaconda/localization.py:302-304 | corrected, the parsed system language; none exactly when it does not start with a letter |
| Localization.InstallLangAsDictLosesGroups | pyanaconda/localization.py:298-300 | for en_US.UTF-8 the as-written property gives None without an error, the corrected one en, US, UTF-8 |
| Localization.ByName | pyanaconda/localization.py:235-236 | every locale is keyed by its short name, and every key maps to a locale with that name |
| Localization.FirstByLanguage | pyanaconda/localization.py:252-255 | the first locale whose language has a translation |
| Localization.FirstByName | pyanaconda/localization.py:257-260 | the first locale whose short name has a translation |
| Localization.FindTranslation | pyanaconda/localization.py:251-260 | the two loops (by short name, else by language, else the current translation) compute exactly TranslationFor |
| Localization.FirstPreferred | pyanaconda/localization.py:273-276 | the first locale already among the preferred ones |
| Localization.ChooseLocale | pyanaconda/localization.py:273-281 | none exactly when both lists are empty; an already-preferred locale wins; otherwise the first found; with none found the first preferred |
| Localization.PickLocale | pyanaconda/localization.py:273-281 | the loop computes exactly ChooseLocale |
| Localization.SelectLocale | pyanaconda/localization.py:273-289 | no locale is chosen exactly when neither the language nor the preferences offer one; otherwise the chosen locale is moved to the front of the preferred ones and gives the territory when none was set |
| Localization.FirstMatch | pyanaconda/localization.py:284-285 | the first locale equal to it, none before |
| Localization.MoveToFrontMoves | pyanaconda/localization.py:284-286 | the locale ends first; an equal one is removed, so the length stays, otherwise it is added |
| Localization.MoveToFrontDistinct | pyanaconda/localization.py:284-286 | moving to the front keeps the locales distinct |
| Localization.DropDistinct | pyanaconda/localization.py:285 | removing one keeps them distinct |
| Localization.PrependDistinct | pyanaconda/localization.py:286 | prepending a new one keeps them distinct |
| YumDeps.FirstMember | yuminstall.py:268-276 | the index of the first provider already in the transaction, none before it; none when no provider is a member |
| YumDeps.ProviderChoice | yuminstall.py:263-283 | a provider exists exactly when something provides the requirement; it is one of the providers; a provider already in the transaction wins |
| YumDeps.ReqStep | yuminstall.py:321-356 | one requirement never removes a member |
| YumDeps.ReqsFold | yuminstall.py:321-356 | the requirements in turn never remove a member |
| YumDeps.MemberStep | yuminstall.py:313-319 | one member never removes a member |
| YumDeps.TsFold | yuminstall.py:310-358 | a pass never removes a member |
| YumDeps.RelateFacts | yuminstall.py:350-356 | setAsDep records the provider once: other members unchanged, relations only extended by one `dependson` entry, and only when the provider was not yet named |
| YumDeps.ReqStepFacts | yuminstall.py:321-356 | one requirement: the cache only gains provider entries, only the member itself changes, a provider new to the transaction is added once to be installed, and each new relation is a `dependson` on a member of another name, not whited out, named once |
| YumDeps.ReqsFoldFacts | yuminstall.py:321-356 | the same facts hold over all requirements of a member |
| YumDeps.TsFoldFacts | yuminstall.py:310-358 | the same facts hold over a whole pass; the members it returns are exactly the ones it added, distinct |
| YumDeps.ReqStepSettles | yuminstall.py:321-356 | after one requirement it is settled: unresolvable, or cached and, when it may be linked, named among the member's relations |
| YumDeps.SettledKept | yuminstall.py:321-356 | a settled requirement stays settled as the transaction grows |
| YumDeps.ReqsFoldSettles | yuminstall.py:321-356 | every requirement of the member is settled after its loop |
| YumDeps.TsFoldGrows | yuminstall.py:310-358 | a pass only grows the transaction, and every entry it caches is a provider of its requirement |
| YumDeps.MemberStepGrows | yuminstall.py:313-356 | the same for one member |
| YumDeps.MemberSettledKept | yuminstall.py:321-356 | a settled member stays settled as the transaction grows |
| YumDeps.TsFoldSettles | yuminstall.py:310-358 | after a pass every requirement of every checked member (listed, not redhat-lsb, to be installed) is settled |
| YumDeps.YumSorter.constructor | yuminstall.py:240-244 | empty cache, path and loops |
| YumDeps.YumSorter.ProvideToPkg | yuminstall.py:263-283 | returns the Provider and caches it for the requirement when there is one |
| YumDeps.YumSorter.FindRelation | yuminstall.py:350-354 | true exactly when a relation names the package |
| YumDeps.YumSorter.CheckReq | yuminstall.py:321-356 | the new state and added members are ReqStep's |
| YumDeps.YumSorter.CheckMember | yuminstall.py:313-356 | the new state and added members are MemberStep's |
| YumDeps.YumSorter.TsCheck | yuminstall.py:310-358 | the new state and unresolved list are TsFold's |
| YumDeps.YumSorter.AllMembers | yuminstall.py:300 | every member, each once |
| YumDeps.YumSorter.Rounds | yuminstall.py:301-304 | the loop over rounds keeps the rounds invariant until nothing is unresolved |
| YumDeps.YumSorter.ResolveDeps | yuminstall.py:298-308 | returns (2, Success - deps resolved), clears cache, loops and path; members only grow, within the packages yum can name; install states kept; relations only extended |
| YumDeps.RoundsStart | yuminstall.py:300 | the invariant holds before the first round |
| YumDeps.Round | yuminstall.py:301-304 | a round keeps the invariant and lowers the measure (packages not yet in the transaction plus the unresolved count), so resolveDeps ends |
| YumDeps.Resolved | yuminstall.py:298-308 | at the end members only grew within the universe, kept their install state, and every new relation is a well-formed dependency |
| Strings.PyIntSignThenSpace | iw/firewall_gui.py:88 | `string.atoi` lets white space follow the sign: a minus sign, a blank, then digits reads as minus the digits' value |
| Firewall.AcceptedWellFormed | iw/firewall_gui.py:83-127 | every entry a token contributes is `port:protocol` with one colon, tcp or udp, and a numeric port in 1..65535 |
| Firewall.WellFormedAccepted | iw/firewall_gui.py:83-104 | a well-formed entry is accepted as it is, so stored entries pass the check again |
| Firewall.Verdicts | iw/firewall_gui.py:81-82 | one verdict per token |
| Firewall.VerdictAt | iw/firewall_gui.py:82-127 | the verdict of each token is its own classification |
| Firewall.EntriesOf | iw/firewall_gui.py:100-124 | no more entries than tokens |
| Firewall.LastBadOfIff | iw/firewall_gui.py:91-127 | no bad token exactly when no verdict rejects; a bad token is one rejected |
| Firewall.LastBadIff | iw/firewall_gui.py:81-127 | no bad token exactly when no token is rejected; the reported one is a rejected token of the list |
| Firewall.RejectNamesToken | iw/firewall_gui.py:91-127 | a rejection names the token itself |
| Firewall.EntriesFrom | iw/firewall_gui.py:100-124 | every entry comes from an accepted token |
| Firewall.EntriesWellFormed | iw/firewall_gui.py:77-140 | every stored entry is well formed |
| Firewall.EntriesNoComma | iw/firewall_gui.py:81 | entries hold no comma, so the joined list splits back into them |
| Firewall.EntriesOfEntries | iw/firewall_gui.py:77-140 | checking a list of well-formed entries keeps them all, unchanged |
| Firewall.Tokens | iw/firewall_gui.py:75-81 | tokens hold no comma |
| Firewall.SplitPieces | iw/firewall_gui.py:81 | the pieces are the comma split, none with a comma |
| Firewall.Reentered | iw/firewall_gui.py:75-140 | the stored port list, shown again and accepted, stores the same list (also lines 294-295 of the same file) |
| Firewall.EntriesNonEmpty | iw/firewall_gui.py:100-124 | the first entry is never empty |
| Firewall.Settings.constructor | iw/firewall_gui.py:33-56 | the firewall's level, policy, trusted devices and port list as given, services off |
| Firewall.Trusted | iw/firewall_gui.py:51-57 | only listed devices, no more than listed |
| Firewall.TrustedIff | iw/firewall_gui.py:51-57 | a device is trusted exactly when its check box at its index reads 1 |
| Firewall.ServiceValue | iw/firewall_gui.py:59-74 | a service not on the screen keeps its value |
| Firewall.ServiceStep | iw/firewall_gui.py:59-74 | each row overwrites the service it names |
| Firewall.ServiceValueOfRow | iw/firewall_gui.py:59-74 | with distinct names each service gets its row's check box |
| Firewall.FirewallWindow.constructor | iw/firewall_gui.py:26-27 | the window holds the firewall, in the default state |
| Firewall.FirewallWindow.ScanTokens | iw/firewall_gui.py:77-127 | the port list is the entries joined by commas; a bad token is reported exactly when one is rejected, the last one |
| Firewall.FirewallWindow.CheckToken | iw/firewall_gui.py:83-127 | the verdict is the token's classification: colon at 0 skipped, extra colon, out-of-range port or other protocol rejected, bare port gets `:tcp` |
| Firewall.FirewallWindow.CopyServices | iw/firewall_gui.py:58-74 | each of DHCP, SSH, Telnet, WWW (HTTP), Mail (SMTP), FTP takes its row's value; level and policy untouched |
| Firewall.FirewallWindow.ScanServices | iw/firewall_gui.py:58-74 | the loop over the rows leaves each known service with the value of its last row, or its value before the loop when no row names it |
| Firewall.FirewallWindow.TrustedDevices | iw/firewall_gui.py:51-57 | the trusted devices are Trusted's |
| Firewall.FirewallWindow.GetNext | iw/firewall_gui.py:29-140 | screen never built: nothing changes; none: disabled, policy 1, lists kept; high: enabled, policy 0; medium: enabled, policy 1; neither: both kept; the state is 1 for custom, 0 for default; custom reads devices, services and ports, and a bad token stays on the screen with the port list unchanged |
| Firewall.FirewallWindow.ReadCustom | iw/firewall_gui.py:47-140 | trusted devices and services replaced; no bad token: port list replaced and Next; bad token: stay on screen naming it, port list kept |
| Iscsi.FwPair | iscsi.py:57-62 | a line with ` = ` splits into the text before and after it |
| Iscsi.FwPairSplitsAtFirst | iscsi.py:57-62 | no pair exactly when the line holds no ` = `; the split is at its first occurrence |
| Iscsi.FwPairs | iscsi.py:56-62 | no more pairs than lines |
| Iscsi.FwLineEffect | iscsi.py:56-62 | a line without ` = ` leaves the table alone; one with it sets its key, a later line overriding an earlier one |
| Iscsi.FwStep | iscsi.py:56-62 | the loop's step: line i sets its key or changes nothing |
| Iscsi.FwPairOf | iscsi.py:57-62 | `key = value` with no ` = ` in the key reads back as (key, value) |
| Iscsi.QueryFirmware | iscsi.py:42-64 | the table of the stripped firmware output |
| Iscsi.ReadFirmware | iscsi.py:56-62 | the loop builds the table of the lines' pairs |
| Iscsi.DefaultDrive | iscsi.py:66-85 | the portal returned holds no comma (it is turned into `:`) |
| Iscsi.Fields | iscsi.py:77-85 | the same, for any markers |
| Iscsi.DefaultDriveNone | iscsi.py:81-82 | None exactly when `target: `, `, portal: ` or `]` is missing |
| Iscsi.DefaultDriveOf | iscsi.py:66-85 | the login line for a target and portal gives back the target and the portal with `,` replaced by `:` |
| Iscsi.PortString | iscsi.py:91-93 | no port (None, 0 or empty) gives 3260; the port text is never empty |
| Iscsi.Record | iscsi.py:106-117 | a record is a two-word line whose portal starts with the target's address |
| Iscsi.Records | iscsi.py:105-117 | no more records than lines |
| Iscsi.RecordsFromLines | iscsi.py:105-117 | every record comes from some line of two words, portal starting with the address |
| Iscsi.Nodes | iscsi.py:114-117 | one node per record, its second word |
| Iscsi.LoggedIn | iscsi.py:160-166 | only nodes, empty exactly when no login succeeds |
| Iscsi.IscsiTarget.constructor | iscsi.py:88-97 | address, port text, user and password as given; no portal, no nodes |
| Iscsi.IscsiTarget.GetPortal | iscsi.py:99-118 | a known portal is returned without a query; otherwise the portal of the last matching record, and its nodes appended |
| Iscsi.ScanRecords | iscsi.py:105-117 | the loop over the discovery lines ends with the last record's portal and every record's node, in order |
| Iscsi.IscsiTarget.ReadRecords | iscsi.py:105-117 | the portal becomes the last matching record's and every matching node is appended; the nodes are never recorded without a portal |
| Iscsi.IscsiTarget.GetNodes | iscsi.py:119-123 | known nodes are returned without a query |
| Iscsi.IscsiTarget.Login | iscsi.py:138-167 | no nodes: False; otherwise autostart exactly the nodes whose login succeeds, and True exactly when there is one |
| Iscsi.RandomIname | iscsi.py:176-188 | `iqn.2005-03.com.max:01.` followed by six picked hex digits of the digest |
| Iscsi.TargetLine | iscsi.py:324-330 | `iscsi --ipaddr A --port P`, then user and password only when set, ending in a newline |
| Iscsi.TargetLines | iscsi.py:324-330 | no text exactly when there are no targets |
| Iscsi.IscsiState.constructor | iscsi.py:191-203 | firmware table kept, no targets, daemon not started; the initiator is set exactly when the firmware names one, to that name |
| Iscsi.IscsiState.Initiator | iscsi.py:205-212 | the stored name when there is one, else the firmware's, else a random one |
| Iscsi.IscsiState.SetInitiatorNotRandom | iscsi.py:205-212 | once set, the initiator does not depend on the random name |
| Iscsi.IscsiState.SetInitiator | iscsi.py:214-220 | succeeds exactly when the name is non-empty and no other name was set; a different name once set is refused; a refusal changes nothing |
| Iscsi.IscsiState.Startup | iscsi.py:253-298 | the daemon runs afterwards exactly when it already ran, or iscsi is present and the initiator set |
| Iscsi.IscsiState.AddTarget | iscsi.py:305-318 | starts the daemon as Startup; a target with these settings is appended only when the daemon runs and discovery and login succeed, otherwise the list is unchanged |
| Iscsi.IscsiState.Kickstart | iscsi.py:320-330 | nothing exactly when no initiator is set |
| Iscsi.NewIscsi | iscsi.py:42-64 | the state built from the firmware output's table (also lines 191-203 of the same file) |
| MockDisk.Store.constructor | tests/mock/disk.py:65-66 | the dictionary as given |
| MockDisk.PathJoin | tests/mock/disk.py:83 | an absolute name replaces the directory; a relative one is appended to it |
| MockDisk.Initial | tests/mock/disk.py:74-79 | exactly /proc, a directory, and /proc/cmdline holding `linux` |
| MockDisk.OpenDirectoryFails | tests/mock/disk.py:85-86 | opening a directory raises IOError, in every mode |
| MockDisk.OpenWriteTruncates | tests/mock/disk.py:87-89 | a `w` mode empties the file, creating it if need be, and starts at 0 |
| MockDisk.OpenAppendCreates | tests/mock/disk.py:90-94 | an `a` mode creates a missing file empty and starts at the end of the contents |
| MockDisk.OpenReadMissing | tests/mock/disk.py:95-96 | reading a missing file raises IOError naming the path |
| MockDisk.WriteAt | tests/mock/disk.py:33-38 | a write overwrites from the position, keeps what is before and after, and extends the buffer when it runs past the end |
| MockDisk.WriteAtEnd | tests/mock/disk.py:33-38 | a write at the end appends |
| MockDisk.TestFile.constructor | tests/mock/disk.py:34-38 | an open file of this store and path with the given contents and position |
| MockDisk.TestFile.Write | tests/mock/disk.py:33-38 | on an open file, the buffer is overwritten at the position and the position moves past; on a closed file, ValueError and nothing changes |
| MockDisk.TestFile.Read | tests/mock/disk.py:33-38 | on an open file the rest of the buffer, then the position is the end; on a closed one ValueError |
| MockDisk.TestFile.Flush | tests/mock/disk.py:40-41 | the buffer is written back into the dictionary under the path; closed: ValueError, the dictionary unchanged |
| MockDisk.TestFile.Close | tests/mock/disk.py:43-45 | flushes, then the file is closed; closing twice raises ValueError and leaves the dictionary alone |
| MockDisk.ClassClose | tests/mock/disk.py:110 | the `]` closing a class is the first one after an optional `!` and an optional first `]`, as fnmatch.translate scans; None when there is none |
| MockDisk.PlainMatch | tests/mock/disk.py:109-110 | a pattern without wildcards or brackets matches only itself |
| MockDisk.PlainNeverBad | tests/mock/disk.py:110 | a pattern without wildcards or brackets is never refused by the regular expression compiler |
| MockDisk.ClassMatch | tests/mock/disk.py:110 | `[items]` matches one character exactly when the items (characters and `a-z` ranges) list it |
| MockDisk.ComplementMatch | tests/mock/disk.py:110 | `[!items]` matches one character exactly when the items do not list it |
| MockDisk.UnclosedIsLiteral | tests/mock/disk.py:110 | a `[` that no `]` closes matches only itself |
| MockDisk.DigitClass | tests/mock/disk.py:110 | `[0-9]` takes `7` and not `x`; `[!0-9]` takes `x` |
| MockDisk.BackwardsRangeRefused | tests/mock/disk.py:110 | a backwards range such as `[9-0]` makes the pattern one the compiler refuses |
| MockDisk.FilterMatching | tests/mock/disk.py:110 | fnmatch.filter keeps exactly the names that match, no more of them than given, without repeats when the names have none |
| MockDisk.FilterMatchingAppend | tests/mock/disk.py:110 | the names keep their order: filtering two runs of names gives the first run's matches followed by the second's |
| MockDisk.EntriesUnder | tests/mock/disk.py:113-114 | exactly the keys starting with the path other than the path itself, without repeats when the keys have none |
| MockDisk.EntriesUnderAppend | tests/mock/disk.py:113-114 | the keys keep their order: the entries of two runs of keys are the first run's followed by the second's |
| MockDisk.ListdirNames | tests/mock/disk.py:113-114 | one name per entry under the path: what follows the path, stripped of leading `/` |
| MockDisk.ListdirRepeats | tests/mock/disk.py:112-114 | keys `/a/x` and `/ax` are both listed under `/a`, as `x` twice |
| MockDisk.StarMatchesAll | tests/mock/disk.py:109-110 | `*` matches every name |
| MockDisk.PrefixStar | tests/mock/disk.py:109-110 | `p*` matches exactly the names starting with p |
| MockDisk.LStripSlash | tests/mock/disk.py:113 | a suffix of the text with no leading `/` |
| MockDisk.DiskIO.constructor | tests/mock/disk.py:65-66 | the initial dictionary, working directory / |
| MockDisk.DiskIO.Reset | tests/mock/disk.py:74-80 | a new dictionary with the initial contents, working directory / |
| MockDisk.DiskIO.Get | tests/mock/disk.py:68-69 | the value under the key, none exactly when the key is absent (KeyError) |
| MockDisk.DiskIO.Set | tests/mock/disk.py:71-72 | the key takes the value, nothing else changes |
| MockDisk.DiskIO.Open | tests/mock/disk.py:82-106 | the error, with the dictionary unchanged, or a new open file on the path with the buffer, position and dictionary Opened gives |
| MockDisk.DiskIO.GlobGlob | tests/mock/disk.py:109-110 | re.error exactly when the pattern holds a backwards range; otherwise exactly the keys matching the pattern, each once, and the list is fnmatch.filter of the keys in the dictionary's order, whose order FilterMatchingAppend states |
| MockDisk.DiskIO.OsListdir | tests/mock/disk.py:112-114 | position by position, one name for each other key starting with the path, in the dictionary's order (so a name can repeat): the remainder of that key, stripped of leading `/` |
| MockDisk.DiskIO.OsPathExists | tests/mock/disk.py:116-118 | true exactly when the joined path is a key |
| MockDisk.DiskIO.OsRemove | tests/mock/disk.py:120-125 | a present path is removed and nothing else; a missing one raises OSError and changes nothing |
| MockDisk.DiskIO.OsAccessAsWritten | tests/mock/disk.py:127-128 | as written, always AttributeError: the object has no path_exists |
| MockDisk.DiskIO.OsAccess | tests/mock/disk.py:127-128 | corrected, true exactly when the joined path is a key |
| MockDisk.OsAccessFailsOnExistingFile | tests/mock/disk.py:116-128 | on /proc/cmdline, which exists, the as-written call fails and the corrected one says true |
| MockDisk.WriteThenRead | tests/mock/disk.py:82-106 | what is written in `w` mode and closed reads back in `r` mode |
| MockDisk.ReadWhole | tests/mock/disk.py:105-106 | `r` mode reads the whole file from the start |
| LanguageSupport.TextTestNeverHoldsAsWritten | pyanaconda/language.py:50-98 | as written the test `info[2] == "False"` never holds, since the flag is a bool |
| LanguageSupport.CanonLang | pyanaconda/language.py:138-150 | the result is a key of the table |
| LanguageSupport.CanonLangMeaning | pyanaconda/language.py:138-150 | the first key, in the table's order, whose expand_langs holds the name; none (ValueError) exactly when no key's does |
| LanguageSupport.KeysCanonicalise | pyanaconda/language.py:138-150 | a key of the table always canonicalises |
| LanguageSupport.StoredVerbatim | pyanaconda/language.py:38-89 | a name not in the table is stored as given; otherwise as a key of the table |
| LanguageSupport.TextModeFallbackNeverAsWritten | pyanaconda/language.py:46-52 | as written the text-mode fallback to the default never happens |
| LanguageSupport.TextModeFallbackCorrected | pyanaconda/language.py:46-52 | corrected, in text mode a language the console cannot show falls back to the default |
| LanguageSupport.SystemInfoEffects | pyanaconda/language.py:81-105 | LANG is always the stored form; SYSFONT set only for a known language (as written always the console font, corrected None when text is unsupported); LANGUAGE changes only for zh_CN.GB18030; nothing else for an unknown language |
| LanguageSupport.DracutArgs | pyanaconda/language.py:155-162 | exactly `key=value` for each setting with a value |
| LanguageSupport.SearchList | pyanaconda/language.py:164-165 | the expansions of the system language, then `C` last |
| LanguageSupport.InitRaisesAsWritten | pyanaconda/language.py:131 | as written, `localeinfo` is never imported, so every construction raises NameError |
| LanguageSupport.InitLoadsCorrected | pyanaconda/language.py:131 | corrected, construction succeeds exactly when the first readable lang-table has the default, and then the table has `C` aliased to the default's entry; otherwise KeyError |
| LanguageSupport.Language.constructor | pyanaconda/language.py:112-136 | the error raised is the one InitOutcome gives (always NameError as written, KeyError from the table corrected); without one, both languages are set from $LANG, or the default without it, through the setters |
| LanguageSupport.Language.Canon | pyanaconda/language.py:138-150 | the loop computes CanonLang |
| LanguageSupport.Language.SetInstLang | pyanaconda/language.py:36-67 | the stored install language, and LANG and LC_NUMERIC=C in the environment |
| LanguageSupport.Language.InstLang | pyanaconda/language.py:69-75 | always a known language: the stored one when known, else the default |
| LanguageSupport.Language.SetSystemLang | pyanaconda/language.py:81-105 | the stored system language and the i18n settings SystemInfoAfter gives |
| LanguageSupport.Language.EntryFor | pyanaconda/language.py:185-199 | the table entry of the canonical name, or of the default when it has none |
| LanguageSupport.Language.KnownLanguageKept | pyanaconda/language.py:138-199 | a known language canonicalises to a known key and its entry is that key's |
| LanguageSupport.Language.TextSupported | pyanaconda/language.py:185-191 | an unknown language answers for the default |
| LanguageSupport.Language.LangName | pyanaconda/language.py:193-199 | an unknown language gets the default's name |
| LanguageSupport.Language.LangByName | pyanaconda/language.py:201-204 | a key with that English name, none exactly when no entry has it |
| LanguageSupport.Language.Available | pyanaconda/language.py:152-153 | exactly the languages with a native name |
| LanguageSupport.Language.NativeLangName | pyanaconda/language.py:206-207 | the native name; KeyError exactly when there is none |
| LanguageSupport.Language.DefaultTimeZone | pyanaconda/language.py:167-183 | the system language's zone when known; else the zone of /etc/sysconfig/clock, else the default's |
| LanguageSupport.CannotShow | pyanaconda/language.py:49-52 | the loop finds the language exactly when it is in the table and the text test holds |
| LanguageSupport.FirstNamed | pyanaconda/language.py:201-204 | a key with that name, none exactly when no entry has it |
| LanguageSupport.FirstNamedIn | pyanaconda/language.py:201-204 | the first listed key with that name, none when none has it |
| Gui.UIDirs | pyanaconda/ui/gui/__init__.py:146-150 | the directories searched end with the class's own directory |
| Gui.FirstReadable | pyanaconda/ui/gui/__init__.py:152-155 | the first directory holding a readable UI file, none before it; none when no directory has one |
| Gui.FindUIFile | pyanaconda/ui/gui/__init__.py:145-157 | the file in the first directory where it is readable; IOError when none has it |
| Gui.SearchDirs | pyanaconda/ui/gui/__init__.py:152-155 | the loop returns the first readable path |
| Gui.FirstReadableAt | pyanaconda/ui/gui/__init__.py:152-155 | the first readable index is found |
| Gui.UIPathBeforeModule | pyanaconda/ui/gui/__init__.py:146-155 | a file readable in a UIPATH directory is found there or earlier, never in the class's directory after it |
| Gui.NewGuiObject | pyanaconda/ui/gui/__init__.py:95-143 | the base class raises TypeError; otherwise the object loads the UI file found, or IOError |
| Gui.ScreenshotNamesDistinct | pyanaconda/ui/gui/__init__.py:180-183 | unnamed screenshots of different indices have different file names |
| Gui.Screenshots.constructor | pyanaconda/ui/gui/__init__.py:40-41 | index 0, timestamp 0, none taken |
| Gui.Screenshots.TakeScreenshot | pyanaconda/ui/gui/__init__.py:169-193 | the file is screenshot-NNNN[-name].png for the current index; the index goes up by one; the timestamp is kept |
| Gui.Screenshots.HandlePrintScreen | pyanaconda/ui/gui/__init__.py:159-167 | a press at least SCREENSHOT_DELAY after the last one takes a screenshot and records when it finished; an earlier one does nothing |
| Gui.PressesSpaced | pyanaconda/ui/gui/__init__.py:159-167 | over a run of presses, screenshots taken are numbered in turn and are at least SCREENSHOT_DELAY apart |
| Gui.FindFrom | pyanaconda/ui/gui/__init__.py:570-573 | the first index from 1 whose action matches the skip target, none before |
| Gui.SkipAhead | pyanaconda/ui/gui/__init__.py:568-580 | the queue keeps the current action first, never grows, and holds only queued actions |
| Gui.DropUninstantiable | pyanaconda/ui/gui/__init__.py:585-592 | the current action stays first and the next one, if any, can be instantiated |
| Gui.ContinueFacts | pyanaconda/ui/gui/__init__.py:555-611 | corrected, continue quits, exits or switches; a switch shows an instantiable, showable action at the head of a shorter queue; the queue never gains actions |
| Gui.LastScreenQuits | pyanaconda/ui/gui/__init__.py:555-561 | on the last screen continue quits the main loop, leaving everything |
| Gui.SkipForwardOnly | pyanaconda/ui/gui/__init__.py:568-580 | corrected, skipping to the first later action of that name drops the actions between |
| Gui.SkipIgnoredAsWritten | pyanaconda/ui/gui/__init__.py:571 | as written the name compared is the metaclass's, so a class-name target is never found and the queue is unchanged |
| Gui.NothingLeftAsWritten | pyanaconda/ui/gui/__init__.py:585-592 | with one uninstantiable action left, as written `self._actions[1]` raises IndexError; corrected, sys.exit(0) |
| Gui.FirstInstantiable | pyanaconda/ui/gui/__init__.py:462-468 | the first instantiable action, none before; none when none is |
| Gui.GraphicalUserInterface.constructor | pyanaconda/ui/gui/__init__.py:339-393 | the action queue given, no current action |
| Gui.GraphicalUserInterface.Run | pyanaconda/ui/gui/__init__.py:462-468 | an empty queue fails (IndexError); otherwise the uninstantiable actions in front are popped and the first instantiable one is current, or run returns with the queue empty |
| Gui.GraphicalUserInterface.OnContinueClicked | pyanaconda/ui/gui/__init__.py:539-611 | autostep running: ignored; autostep not done: started; otherwise the queue and current action Continue gives |
| Gui.GraphicalUserInterface.ContinueLoop | pyanaconda/ui/gui/__init__.py:555-611 | the outcome, queue and current action Continue gives |
| Gui.GraphicalUserInterface.ApplySkip | pyanaconda/ui/gui/__init__.py:568-580 | the queue becomes SkipAhead's |
| Gui.GraphicalUserInterface.DropLoop | pyanaconda/ui/gui/__init__.py:585-592 | the queue becomes DropUninstantiable's; true exactly when a next action remains |
| Gui.FindSkip | pyanaconda/ui/gui/__init__.py:568-573 | the loop finds FindFrom's index |
| Gui.FirstInstantiableAt | pyanaconda/ui/gui/__init__.py:462-468 | the first instantiable index is found |
| Gui.FirstInstantiableNone | pyanaconda/ui/gui/__init__.py:462-468 | with none instantiable there is none |
| YumInstall.GetcdNonZero | yuminstall.py:50-59 | a disc other than 0 only for a `media:` URL with a non-empty fragment, and then the fragment's integer; no base path gives 0 |
| YumInstall.GetcdDisc | yuminstall.py:50-59 | `media:<path>#<n>` gives disc n |
| YumInstall.MediaPlanCases | yuminstall.py:435-443 | the plan is the single pass 0 exactly when no media are required, all required discs are already present, or only disc 0 is; otherwise the required discs in order |
| YumInstall.PlanStepsIff | yuminstall.py:444-451 | a transaction runs for exactly the planned discs, a media switch for exactly the planned discs above 0 |
| YumInstall.Run | yuminstall.py:424-451 | without split media one transaction; with them the planned steps |
| YumInstall.UniqueKindsIff | yuminstall.py:474-477 | the kinds reported are exactly the known kinds that occur, each once |
| YumInstall.UniqueProblems | yuminstall.py:474-477 | the kinds are UniqueKinds'; one log line `error running transaction: <descr>` per problem |
| YumInstall.RunTransactionResult | yuminstall.py:453-484 | completes exactly when nothing is raised; otherwise every problem is logged, the message joins the distinct known kinds, and the exit code is 1 |
| YumInstall.SizeKiBBounds | yuminstall.py:412 | the total size is each installed size divided by 1024 and truncated, so within one KiB per package of the bytes |
| YumInstall.DownloadPkgsIff | yuminstall.py:405-415 | a package is listed exactly when some member in state i or u has it |
| YumInstall.CountFiles | yuminstall.py:413-414 | the loop sums the file counts |
| YumInstall.GetDownloadPkgs | yuminstall.py:401-417 | the packages, total KiB and total file count of the members being installed or upgraded |
| YumInstall.TagOfFlavour | yuminstall.py:1032 | the tag of `kernel-<flavour>` is the flavour |
| YumInstall.TaggedIff | yuminstall.py:1032-1035 | an entry is listed for a flavour exactly when a member of that kernel name has version-release plus tag, with the flavour's nick |
| YumInstall.FlavourEntriesIff | yuminstall.py:1029-1035 | the flavour entries are exactly those of smp, xen0 and xenU kernels |
| YumInstall.KernelVersionsIff | yuminstall.py:1025-1041 | an entry is listed exactly when it is a flavoured kernel's version with its nick, or a plain kernel's version-release with `up` |
| YumInstall.KernelVersionList | yuminstall.py:1025-1041 | the loops compute KernelVersions |
| YumInstall.MatchTagged | yuminstall.py:1033-1035 | the loop computes Tagged |
| YumInstall.RSplitDot2 | yuminstall.py:1098 | one to three pieces |
| YumInstall.DeselectTargets | yuminstall.py:1097-1109 | only members of the transaction are removed |
| YumInstall.NameArchOf | yuminstall.py:1098 | corrected, `name.arch` splits at its last dot |
| YumInstall.DeselectTargetsIff | yuminstall.py:1097-1109 | corrected, the members of that name and arch, or when there are none, the members named by the whole text |
| YumInstall.DeselectDottedNameAsWritten | yuminstall.py:1098-1102 | as written a name with a dot splits into three pieces, so `name.arch` removes nothing; corrected, it removes the member |
| YumInstall.YumBackend.constructor | yuminstall.py:564-566 | the backend holds the sorter given |
| YumInstall.YumBackend.DeselectPackage | yuminstall.py:1097-1109 | the targets are removed from the transaction and nothing else changes |
| Users.Drawn | pyanaconda/users.py:90-92 | as many characters as draws |
| Users.DrawnChars | pyanaconda/users.py:90-92 | every drawn character is a letter, a digit, `.` or `/` |
| Users.AlphabetChars | pyanaconda/users.py:91-92 | each of the 64 salt characters is a letter, a digit, `.` or `/` |
| Users.SaltShape | pyanaconda/users.py:78-94 | a salt exists exactly for md5, sha256 and sha512 (None meaning sha512), otherwise KeyError; it is `$n$` and 16 salt characters; the default prefix is `$6$` |
| Users.CryptPassword | pyanaconda/users.py:78-94 | crypt of the password with that salt, or KeyError for an unknown algorithm |
| Users.GetPassAlgo | pyanaconda/users.py:275-284 | None or an algorithm that has a salt prefix |
| Users.PassAlgoPrecedence | pyanaconda/users.py:275-284 | md5 exactly when `--enablemd5` or `--passalgo=md5` appears; sha256 exactly when it appears and md5 does not; None exactly when no option appears |
| Users.PassAlgoCrypts | pyanaconda/users.py:78-94 | whatever the auth string, the algorithm chosen can be crypted (also lines 275-284 of the same file) |
| Users.CryptStyleMismatchAsWritten | pyanaconda/users.py:34-60 | as written, with no algorithm option libuser.conf says `crypt_style = None`, which names no salt, while the password is crypted with `$6$` (also lines 304-307 of the same file) |
| Users.CryptStyleMatchesSalt | pyanaconda/users.py:78-94 | corrected, the crypt_style written always names the prefix of the salt used (also lines 304-307 of the same file) |
| Users.NewAccountFields | pyanaconda/users.py:179-199 | a user's home defaults to /home/name; a uid only when one >= 0 is given; the primary group is the user's own, then the existing groups asked for |
| Users.RootpwLineShape | pyanaconda/users.py:325-334 | `rootpw  --iscrypted <value>`, with ` --lock` exactly when the password is locked, then a newline |
| Users.Users.constructor | pyanaconda/users.py:97-100 | the database given; the root password empty, not crypted, not locked |
| Users.Users.CreateGroup | pyanaconda/users.py:102-146 | succeeds exactly when the group is new; it gets the gid when one >= 0 is given; users untouched; a failure changes nothing |
| Users.Users.CreateUser | pyanaconda/users.py:148-243 | an existing user fails and changes nothing; otherwise the account is added, with the password set only when the user's group is new and the password can be crypted; success exactly then |
| Users.Users.BuildEntry | pyanaconda/users.py:179-205 | the new account's home, shell, uid, gecos and groups from the kickstart data |
| Users.Users.PasswordToSet | pyanaconda/users.py:211-217 | the password as given when crypted, else crypted; none when empty |
| Users.Users.JoinGroups | pyanaconda/users.py:222-226 | the user becomes a member of each group listed; users untouched |
| Users.Users.CheckUserExists | pyanaconda/users.py:245-270 | true exactly when the user is in the database |
| Users.Users.SetUserPassword | pyanaconda/users.py:286-297 | a crypt error or a missing user changes nothing and is reported; otherwise the user's password is set (crypted unless already) and locked when asked |
| Users.Users.SetRootPassword | pyanaconda/users.py:299-302 | the root password set from the stored one, locked when asked; fails exactly when root is missing or the password cannot be crypted |
| Users.Users.Write | pyanaconda/users.py:304-323 | libuser.conf names the algorithm; fails exactly when root is missing; otherwise groups then users are created and existing ones reported; nothing is removed |
| Users.Users.CreateGroups | pyanaconda/users.py:311-316 | every group that already existed is reported; groups only grow; users untouched |
| Users.Users.CreateUsers | pyanaconda/users.py:318-323 | every user that already existed is reported, and only listed users are; nothing removed |
| Users.Users.WriteKS | pyanaconda/users.py:325-334 | the rootpw line of the stored password, crypted with the auth string's algorithm unless already crypted |
| Keyboard.BuildConsole2X | kbd.py:89-91 | the table of the list, a later entry overriding an earlier one |
| Keyboard.BuildX2Console | kbd.py:93-97 | the table from X keyboard to keymap in which the first entry wins |
| Keyboard.BuildXSun2Console | kbd.py:99-101 | the inverse of the Sun table |
| Keyboard.SunLayout | kbd.py:130-141 | fails (IndexError on `xx[0]`) exactly when the rest is not `Keyboard…` and has no word |
| Keyboard.Probe | kbd.py:104-145 | no keyboard found gives PC; only a Sun keyboard has a model and layout; failure only for a `Sun Type` description |
| Keyboard.TypeInfo | kbd.py:142-145 | KEYBOARDTYPE is set exactly when the keyboard is not serial |
| Keyboard.ChooseExact | kbd.py:275-285 | the first exact model-and-layout match decides the keymap |
| Keyboard.ChooseFuzzy | kbd.py:286-296 | without an exact match, the last entry with the layout decides; with none the fallback |
| Keyboard.SetFromXIgnoresVariantAsWritten | kbd.py:267-270 | as written, unpacking the tuple key rebinds `variant`, so the variant given has no effect |
| Keyboard.NoDeadKeysLostAsWritten | kbd.py:267-283 | for pc102/de/nodeadkeys, as written the keymap is de-latin1; corrected de-latin1-nodeadkeys |
| Keyboard.NoDeadKeysHonouredCorrected | kbd.py:278-283 | corrected, an exact German match with variant nodeadkeys gives de-latin1-nodeadkeys |
| Keyboard.SunSetFromX | kbd.py:255-296 | on a Sun keyboard the layout's keymap, de-latin1-nodeadkeys for German without dead keys, and sunkeymap for an unknown layout |
| Keyboard.ChooseLoop | kbd.py:266-296 | the loop computes Choose |
| Keyboard.SunMapFor | kbd.py:302-304 | a keymap whose Sun layout is the keyboard's; none when no keymap has it |
| Keyboard.Keyboard.constructor | kbd.py:104-145 | type, model and layout of the probe; KEYBOARDTYPE as TypeInfo |
| Keyboard.Keyboard.Available | kbd.py:147-249 | a serial console offers only us; Sun includes sunkeymap; PC includes us and de-latin1-nodeadkeys |
| Keyboard.Keyboard.Set | kbd.py:251-253 | KEYTABLE set, except on a serial console |
| Keyboard.Keyboard.SetFromX | kbd.py:255-296 | KEYTABLE becomes the keymap chosen for the model and layout |
| Keyboard.Keyboard.Get | kbd.py:297-307 | KEYTABLE when set; otherwise us, or on Sun a keymap of the keyboard's layout or sunkeymap |
| Keyboard.Keyboard.GetXkb | kbd.py:309-318 | on PC, the xfree86 setting of the keymap exactly when the keymap is in the table; on Sun the sun rules with the probed model |
| Keyboard.Keyboard.KickstartLine | kbd.py:325-326 | `keyboard <keymap>` |
| Keyboard.Console2XComplete | kbd.py:89-91 | every listed keymap is in the table |
| Keyboard.PcRoundTrip | kbd.py:251-314 | a keymap set on a PC keyboard gives back its X layout |
| Timezone.Slashes | pyanaconda/timezone.py:52-54 | the run of leading slashes that `os.path.normpath` keeps: exactly n characters, all `/` |
| Timezone.Normpath | pyanaconda/timezone.py:52-54 | a normalised path is never empty (an empty path becomes `.`) |
| Timezone.NormCompsPlainSuffix | pyanaconda/timezone.py:51-53 | components that are neither empty, `.` nor `..` pass through normalisation unchanged after any prefix |
| Timezone.ZonePrefixComps | pyanaconda/timezone.py:51-53 | the components of `../` + `/usr/share/zoneinfo/` normalise to `..`, `usr`, `share`, `zoneinfo` |
| Timezone.ZoneLinkTarget | pyanaconda/timezone.py:50-53 | for a zone name made of plain components, the relative symlink target is `../usr/share/zoneinfo/` followed by the name |
| Timezone.AdjtimeShortFileAsWritten | pyanaconda/timezone.py:73-86 | as written an existing but empty adjtime file makes `lines[0]` raise IndexError; the corrected version writes the default first two lines and the clock mode |
| Timezone.AdjtimeKeepsTwoLines | pyanaconda/timezone.py:73-86 | with at least two lines both versions agree and keep the first two lines followed by `UTC` or `LOCAL`; the default lines are used when the file cannot be read |
| Timezone.WriteTimezoneConfig | pyanaconda/timezone.py:40-89 | the link is made only if the zone file is readable and symlinking works, with the normalised target and link path; a clock write failure raises the clock error and writes nothing more; an adjtime write failure raises the adjtime error; otherwise adjtime holds the first two lines read (the default lines when the file cannot be read) and the clock mode, except that as written a file of fewer than two lines is left with what was written before IndexError, and corrected a missing line is a default one |
| Timezone.TerritoryTimezones | pyanaconda/timezone.py:92-109 | the territory's zones as the table gives them, or the empty list for an unknown territory (KeyError); a LocaleInfo counts as its territory |
| Timezone.PreferredIsFirst | pyanaconda/timezone.py:111-126 | the preferred zone is absent exactly when the territory has no zones, and otherwise is the first of them; a LocaleInfo gives the same answer as its territory code |
| Timezone.SplitOnce | pyanaconda/timezone.py:138-140 | `split("/", 1)` has two parts exactly when the name holds a `/`, and then the name is region + `/` + rest with no `/` in the region |
| Timezone.RegionStepFacts | pyanaconda/timezone.py:138-144 | one loop step adds exactly the region/rest pair of the name, keeps every earlier pair, appends a new region to the order once, and never leaves a region with an empty set |
| Timezone.RegionsIff | pyanaconda/timezone.py:128-146 | a rest is listed under a region if and only if some common zone name splits into that region and rest; no region is empty; the order is the order of first appearance without repeats |
| Timezone.AllRegionsAndTimezones | pyanaconda/timezone.py:128-146 | the loop builds exactly the regions of the common zone list |
| Timezone.ValidTimezoneListed | pyanaconda/timezone.py:128-157 | every valid zone name with a `/` appears under its region in the regions map |
| CustomSpoke.Capitalize | pyanaconda/ui/gui/spokes/custom.py:333 | `str.capitalize`: same length, the first character upper case and every other lower case |
| CustomSpoke.MountpointNameOf | pyanaconda/ui/gui/spokes/custom.py:319-335 | a mountpoint with a slash other than `/` is titled by its last component, capitalised |
| CustomSpoke.MountpointNameNoSlash | pyanaconda/ui/gui/spokes/custom.py:326-331 | a mountpoint without a slash has no title (the ValueError branch) |
| CustomSpoke.UnusedIff | pyanaconda/ui/gui/spokes/custom.py:96-100 | a default path is offered if and only if it is not already a mountpoint; the list never grows |
| CustomSpoke.SizeSpecUnit | pyanaconda/ui/gui/spokes/custom.py:112-116 | the size text always ends in a unit; a unit the user typed is kept and `MB` is added otherwise |
| CustomSpoke.AddDialog.constructor | pyanaconda/ui/gui/spokes/custom.py:89-100 | the dialog starts with size 0, no mountpoint and the default paths not in use |
| CustomSpoke.AddDialog.OnAddConfirmClicked | pyanaconda/ui/gui/spokes/custom.py:109-123 | the mountpoint is the entry's text; the size is the parsed size text, or stays as it was when parsing fails |
| CustomSpoke.OfferPaths | pyanaconda/ui/gui/spokes/custom.py:96-100 | the loop fills the store with exactly the unused default paths, in order |
| CustomSpoke.AddDeviceTypeIff | pyanaconda/ui/gui/spokes/custom.py:789-799 | the type changes only to a plain partition, and exactly for `/boot/efi` on LVM or for swap or a `/boot` mountpoint on btrfs |
| CustomSpoke.SwapNeverOnBtrfs | pyanaconda/ui/gui/spokes/custom.py:786-799 | a `swap` mountpoint (any case) becomes no mountpoint, is put on a plain partition under btrfs and kept on LVM |
| CustomSpoke.ClearpartDevicesIff | pyanaconda/ui/gui/spokes/custom.py:338-340 | a device is a clearpart device if and only if it is one of the spoke's devices and its name is among the drives to clear |
| CustomSpoke.OnAddClicked | pyanaconda/ui/gui/spokes/custom.py:762-811 | nothing is created unless the dialog returns 1; otherwise the new device has the adjusted type, the dialog's size, the storage's filesystem type, the adjusted mountpoint, the autopart encryption and the clearpart disks |
| CustomSpoke.Root.constructor | pyanaconda/ui/gui/spokes/custom.py:843-851 | an existing installation holding the given swaps and mounts |
| CustomSpoke.RemoveFirst | pyanaconda/ui/gui/spokes/custom.py:847 | `list.remove`: nothing changes when the value is absent; otherwise one fewer element, every other value kept and none added |
| CustomSpoke.Unmounted | pyanaconda/ui/gui/spokes/custom.py:848-851 | after popping its mountpoints the device is mounted nowhere |
| CustomSpoke.UnmountedIff | pyanaconda/ui/gui/spokes/custom.py:848-851 | a mountpoint survives if and only if it was mounted on another device, and it keeps its device |
| CustomSpoke.RemoveFromRoot | pyanaconda/ui/gui/spokes/custom.py:843-851 | a device among the swaps loses its first occurrence and the mounts stay; otherwise the swaps stay and the device's mountpoints are popped; a None root is left alone |
| CustomSpoke.PropagateSkipsVanished | pyanaconda/ui/gui/spokes/custom.py:177-190 | an action on a device that is neither in the main tree nor still in the spoke's list is never registered and never puts the device in the tree |
| CustomSpoke.PropagateKeepsExisting | pyanaconda/ui/gui/spokes/custom.py:177-223 | every action on a device already in the main tree is registered, every registered action comes from the dialog, and the tree only grows |
| CustomSpoke.PropagateActions | pyanaconda/ui/gui/spokes/custom.py:177-223 | the loop registers exactly the actions the skip rule lets through, in order |
| StorageSpoke.OfferIff | pyanaconda/ui/gui/spokes/storage.py:90-95 | a device is offered if and only if it is a disk of the tree whose format is not hidden and that is not both protected and removable; the list is never longer than the tree |
| StorageSpoke.ProtectedRemovableHidden | pyanaconda/ui/gui/spokes/storage.py:91-95 | a protected removable disk, such as the install medium, is never offered outside fake mode |
| StorageSpoke.SelectedOfIff | pyanaconda/ui/gui/spokes/storage.py:460-522 | a disk is among the selected disks if and only if it is offered and its name is selected |
| StorageSpoke.SelectedOfEmpty | pyanaconda/ui/gui/spokes/storage.py:460-479 | no disk counts as selected exactly when no offered disk's name is in the selection |
| StorageSpoke.RemoveFirst | pyanaconda/ui/gui/spokes/storage.py:492 | `list.remove`: nothing changes when the name is absent; otherwise one fewer element, every other name kept and none added |
| StorageSpoke.RemoveFirstDistinct | pyanaconda/ui/gui/spokes/storage.py:491-492 | removing from a selection without duplicates leaves none and removes the name entirely |
| StorageSpoke.OverviewStepFacts | pyanaconda/ui/gui/spokes/storage.py:485-492 | one overview appends its name when chosen and missing and removes it when not chosen; the selection stays free of duplicates |
| StorageSpoke.UpdateDiskListIff | pyanaconda/ui/gui/spokes/storage.py:481-492 | after the loop a name is selected if and only if its last overview is chosen, or it was selected and has no overview; never a duplicate |
| StorageSpoke.StatusIff | pyanaconda/ui/gui/spokes/storage.py:347-362 | each status text in exactly one situation: no disks, else an error, else automatic or custom partitioning |
| StorageSpoke.NewFreeSystemOnly | pyanaconda/ui/gui/spokes/storage.py:529-539 | the new filesystem space counts only `/` and mountpoints under `/usr` or `/var`, each with its format's free space when it exists and its size otherwise |
| StorageSpoke.ChooseDialogIff | pyanaconda/ui/gui/spokes/storage.py:541-547 | options1 exactly when free plus new space meets the requirement, else options2 exactly when the selected disks' total size does, else options3 |
| StorageSpoke.ChooseDialogMonotone | pyanaconda/ui/gui/spokes/storage.py:541-547 | a larger requirement never picks a dialog with more room |
| StorageSpoke.StorageSpoke.constructor | pyanaconda/ui/gui/spokes/storage.py:273-292 | the selection starts as the kickstart's onlyuse; interactive installs turn autopart on; no disks, clearpart type none |
| StorageSpoke.StorageSpoke.Initialize | pyanaconda/ui/gui/spokes/storage.py:410-449 | the offered disks are read from the device tree, and continue and the summary are enabled exactly when a disk is selected |
| StorageSpoke.StorageSpoke.UpdateSummary | pyanaconda/ui/gui/spokes/storage.py:451-479 | count and capacity are those of the selected offered disks; continue and summary are enabled, and the warning hidden, exactly when the count is positive |
| StorageSpoke.StorageSpoke.UpdateDiskListFrom | pyanaconda/ui/gui/spokes/storage.py:481-492 | the selection becomes the one the overviews dictate; nothing else changes |
| StorageSpoke.StorageSpoke.Apply | pyanaconda/ui/gui/spokes/storage.py:294-326 | onlyuse and the drives become the selection, autopart is stored with type plain, boot loader on the MBR and initAll set; clearpart type all iff autopart; the tree shows exactly the selected offered disks; clearNonExistent follows autopart |
| StorageSpoke.StorageSpoke.OnContinueClicked | pyanaconda/ui/gui/spokes/storage.py:520-575 | the dialog is the one the space dictates; continue sets autopart to not custom; continue or reclaim with custom skips to custom partitioning and returns to the hub; quit leaves the installer; any other answer stays |
| StorageSpoke.HideAndUnhide | pyanaconda/ui/gui/spokes/storage.py:307-313 | the loop over the offered disks leaves exactly the visibility the specification function gives |
| StorageSpoke.VisibilityIff | pyanaconda/ui/gui/spokes/storage.py:307-313 | after apply an offered disk is in the tree if and only if it is selected; every other device keeps its visibility |
| HardDriveMethod.MountPointOf | harddrive.py:49-56 | the scan of /proc/mounts fails only with the IndexError that `s[0]` or `s[1]` raises on a short line (also lines 166-173 of the same file) |
| HardDriveMethod.MountPointFound | harddrive.py:51-55 | a mount point found is the second field of a line whose first field is the device (also lines 168-172 of the same file) |
| HardDriveMethod.MountPointAbsent | harddrive.py:51-56 | no mount point is found, without error, if and only if every line has a field and none names the device (also lines 168-173 of the same file) |
| HardDriveMethod.ScanMounts | harddrive.py:51-55 | the loop over the lines gives exactly the scan's answer (also lines 168-172 of the same file) |
| HardDriveMethod.Basename | harddrive.py:36-123 | `os.path.basename`: the suffix after the last slash, holding no slash |
| HardDriveMethod.OldHardDrive.constructor | harddrive.py:108-115 | the device, type and path are stored, nothing is mounted and no tree is known |
| HardDriveMethod.OldHardDrive.MountMedia | harddrive.py:45-62 | mounting twice raises SystemError and changes nothing; a device already in /proc/mounts gives its mount point as the tree without setting the flag; otherwise a successful mount at /tmp/hdimage sets the tree and the flag |
| HardDriveMethod.OldHardDrive.UmountMedia | harddrive.py:64-68 | only what this object mounted is unmounted, and then the tree is forgotten; the flag is always clear afterwards |
| HardDriveMethod.OldHardDrive.CopyFileToTemp | harddrive.py:31-43 | the copy goes to the temporary directory under the file's base name, and the mount flag ends as it started |
| HardDriveMethod.OldHardDrive.GetFilename | harddrive.py:77-78 | the package path is the tree, the path and `/RedHat/RPMS/` followed by the name; with no tree the concatenation fails |
| HardDriveMethod.HardDrive.Init | harddrive.py:239-246 | the device, type and path are stored; neither the directory nor an image is mounted and no images are known |
| HardDriveMethod.HardDrive.MountDirectory | harddrive.py:160-177 | mounting twice raises SystemError; a device already mounted gives its mount point as isoDir without setting the flag; otherwise a successful mount at /tmp/isodir sets isoDir and the flag |
| HardDriveMethod.HardDrive.UmountDirectory | harddrive.py:179-183 | only a directory this object mounted is unmounted, which also forgets the tree |
| HardDriveMethod.HardDrive.ImagePath | harddrive.py:138 | the image path fails (KeyError or TypeError) exactly when the disc is unknown or no directory is mounted |
| HardDriveMethod.HardDrive.MountMedia | harddrive.py:133-146 | mounting with an image mounted raises SystemError and changes nothing; success mounts the disc's image at /tmp/isomedia and records the disc number; it succeeds exactly when the disc is known and the loop mount works |
| HardDriveMethod.HardDrive.UmountMedia | harddrive.py:148-155 | with an image mounted, the image and the directory are unmounted and the tree forgotten; otherwise nothing changes |
| HardDriveMethod.HardDrive.GetFilename | harddrive.py:192-197 | with the requested disc mounted nothing is remounted; otherwise success leaves that disc mounted and the path under /tmp/isomedia |
| HardDriveMethod.HardDrive.CopyFileToTemp | harddrive.py:118-130 | the copy comes from the first disc's image and goes under the file's base name; the mount flags end as they started |
| HardDriveMethod.NewHardDrive | harddrive.py:239-254 | on success the directory and media are unmounted and the disc images are those found under isoDir/path; failure exactly when the mounts scan fails or the needed mount fails |
| LocaleTable.ParseFormatLine | pyanaconda/localeinfo.py:40-49 | a line written as six tab-separated fields and a newline reads back as the same nick and entry (the only field stripped is the last; the `string.strip(line)` call's result is discarded) |
| LocaleTable.Entries | pyanaconda/localeinfo.py:39-49 | one parse per line, in order |
| LocaleTable.LaterLineReplaces | pyanaconda/localeinfo.py:49 | a later line for a nick replaces its entry and leaves every other nick as it was |
| LocaleTable.ShortLineIgnored | pyanaconda/localeinfo.py:43-45 | a line with fewer than six fields changes nothing |
| LocaleTable.TableKeys | pyanaconda/localeinfo.py:36-52 | a nick is in the table if and only if some line of the file read defines it |
| LocaleTable.FirstReadableOnly | pyanaconda/localeinfo.py:36-52 | only the first readable file of the search is read; unreadable ones before it are skipped |
| LocaleTable.Get | pyanaconda/localeinfo.py:31-56 | the table of the first readable file with `C` aliased to the default's entry, and KeyError exactly when the default has no entry |
| LocaleTable.FindReadable | pyanaconda/localeinfo.py:36-52 | the search loop stops at the first readable path |
| LocaleTable.ReadTable | pyanaconda/localeinfo.py:39-51 | the loop over the lines builds exactly the table of the lines |
| PasswordSpoke.LegalIsPrintableAscii | pyanaconda/ui/gui/spokes/password.py:145 | the legal characters (digits, ASCII letters, punctuation and space) are exactly the printable ASCII range from space to `~` |
| PasswordSpoke.AcceptedIff | pyanaconda/ui/gui/spokes/password.py:106-157 | a password is accepted if and only if it equals its confirmation, is blank or at least six bytes long in UTF-8, is blank or not weak or the weak password already offered once, and has only printable ASCII characters |
| PasswordSpoke.BlankAndMismatch | pyanaconda/ui/gui/spokes/password.py:112-128 | exactly one blank entry is the must-confirm error; two different non-blank entries the mismatch error; an equal non-blank password under six UTF-8 bytes the too-short error |
| PasswordSpoke.Utf8Length | pyanaconda/ui/gui/spokes/password.py:125 | Python 2's `len` of the entry's UTF-8 text: between one and four bytes per character, and one per character exactly when all are ASCII |
| PasswordSpoke.LengthCountsBytes | pyanaconda/ui/gui/spokes/password.py:125-128 | six characters always pass the length test, and so do three two-byte characters such as `ééé`; for printable ASCII bytes and characters agree |
| PasswordSpoke.BothBlankAccepted | pyanaconda/ui/gui/spokes/password.py:112-157 | two blank entries are accepted and leave the remembered weak password alone |
| PasswordSpoke.WeakRemembered | pyanaconda/ui/gui/spokes/password.py:130-143 | a weak-password error carries pwquality's message and remembers the password; every other outcome keeps the remembered one |
| PasswordSpoke.WeakTwice | pyanaconda/ui/gui/spokes/password.py:130-143 | a weak but otherwise valid password is refused the first time and accepted when offered again unchanged |
| PasswordSpoke.RootPw.constructor | pyanaconda/ui/gui/spokes/password.py:87-96 | the kickstart root password: its text, whether it is crypted, whether the account is locked |
| PasswordSpoke.PasswordSpoke.constructor | pyanaconda/ui/gui/spokes/password.py:52-56 | no password, no error and no remembered weak password |
| PasswordSpoke.PasswordSpoke.Initialize | pyanaconda/ui/gui/spokes/password.py:58-61 | the root account is locked by default; the password is left as it is |
| PasswordSpoke.PasswordSpoke.Status | pyanaconda/ui/gui/spokes/password.py:77-84 | the error status exactly when there is an error, the disabled status exactly when there is none and the account is locked, otherwise the set status |
| PasswordSpoke.PasswordSpoke.CompletedIffNoErrorStatus | pyanaconda/ui/gui/spokes/password.py:77-104 | the spoke is complete exactly when its status is not the error status |
| PasswordSpoke.PasswordSpoke.Validate | pyanaconda/ui/gui/spokes/password.py:106-157 | the result, the error and the remembered weak password are the validation's; an accepted password is stored, a refused one leaves the stored password alone |
| PasswordSpoke.PasswordSpoke.OnBackClicked | pyanaconda/ui/gui/spokes/password.py:159-166 | the spoke is left exactly when validation accepts; otherwise the error is shown as a warning |
| PasswordSpoke.PasswordSpoke.Apply | pyanaconda/ui/gui/spokes/password.py:86-96 | a non-blank password is stored crypted (default algorithm), crypted and unlocked; otherwise the password is blank, not crypted and the account locked |
| LegacyUsers.LegacySaltShape | users.py:43-53 | the MD5 salt is `$1$` and 8 characters from `[A-Za-z0-9./]`; otherwise 2 such characters with no prefix |
| LegacyUsers.CryptPassword | users.py:43-55 | the salt-building loop gives crypt of the password under exactly that salt |
| LegacyUsers.NewUserPasswordDoubleCryptAsWritten | users.py:101-105 | as written a plain password is crypted and handed to setpassUser as not crypted, so libuser hashes the crypt again; the stored value is the intended one only when that hash leaves it unchanged |
| LegacyUsers.NewUserPasswordCrypted | users.py:101-103 | a password given as crypted is stored as given, as written and as intended |
| LegacyUsers.HomeDir | users.py:83-84 | the home directory is never empty: the one given, else `/home/<name>` |
| LegacyUsers.MadeHome | users.py:86-90 | the directory made under the root always starts with `/`: the home directory, or `/` put in front of a relative one |
| LegacyUsers.LegacyUsers.constructor | users.py:58-59 | the account database libuser administers |
| LegacyUsers.LegacyUsers.CreateUser | users.py:61-126 | None exactly when the user exists, with nothing changed; otherwise True, the account added with its groups that exist, shell, uid, the password and lock when the private group could be made, the home directory as given, and the user made a member of the requested groups that exist; the password stored is libuser's hash of the crypt as written and the crypt itself corrected |
| LegacyUsers.LegacyUsers.AddUser | users.py:73-117 | for a user that does not exist yet: an existing group of the user's name stops the child after addUser, leaving the entry with the directory made and no password; otherwise the private group is added, the password stored (as written libuser's hash of a plain password's crypt, corrected the crypt itself; a crypted one as given), the lock set when asked, the user made a member of each requested group that exists, and the home directory set back to the one given |
| LegacyUsers.LegacyUsers.BuildEntry | users.py:75-96 | the new entry with its groups, shell, uid and the home directory made under the root |
| LegacyUsers.LegacyUsers.AddWithOwnGroup | users.py:98-117 | once the private group is new: the group is added with no members, the entry stored with the password given, locked when asked, the home directory as given, and the user made a member of each group listed |
| LegacyUsers.LegacyUsers.PasswordToSet | users.py:101-105 | the password value stored: a crypted one as given; a plain one's crypt, hashed again by libuser as written and kept as it is corrected |
| LegacyUsers.LegacyUsers.JoinGroups | users.py:110-113 | each requested group that exists gains the user as a member; no account changes |
| LegacyUsers.LegacyUsers.SetRootPassword | users.py:128-139 | fails exactly when there is no root account; otherwise root's password is the given crypted value or its crypt under a fresh salt, and the account is locked when asked; nothing else changes |

## Left out

- Screens and dialogs (newt forms, listboxes, Gtk widgets, lightboxes): each is an oracle that returns a button or the entered strings, given as a sequence of replies.
- System calls and child processes (mount, umount, losetup, mknod, copying files, fork, exec, waitpid, ioctl, insmod): their outcomes are parameters (success flags, return codes, file contents); a mount is an entry in a mount log.
- Network bring-up (readNetConfig, DHCP, chooseNetworkInterface) and the D-Bus/NetworkManager queries of network.py (getDefaultHostname, hasActiveNetDev, getActiveNetDevs, the waiting loops): I/O against services outside the program.
- network.py update, write, lookupHostname, setNMControlledDevices and updateActiveDevices: file writes and D-Bus calls; only the text they are built from is modelled.
- The s390 branches of the loaders (the STEP_IFACE s390 path of loader/loader.c, the s390 install methods, the s390 side of readNetInfo) beyond dasdSetup's parameter parsing and the HWADDR omission in ifcfg text: Loader2Cmdline.InstallMethod and the wizard models take the non-s390 path.
- Network.DnsLine: the DNS keys of a device are joined in sorted order; network.py:501-507 iterates the device's dictionary, whose order Python leaves unspecified, so only the set of values and the comma joining are as the source gives them.
- NfsInstall.SetKickstartNfs and HdInstall.SetKickstartHd: block sizes are not modelled. loader2/nfsinstall.c:275 and loader2/hdinstall.c:497 allocate the method data with `calloc(sizeof(struct ... *), 1)`, the size of a pointer rather than of the structure, so storing the second field can write past the block; the model stores the fields in a value.
- YumDeps.Tx: the transaction's members are a map from package tuple to one member, while yum's tsInfo can hold several members for one tuple (an update and an erase of the same package, say); the model keeps one member per tuple.
- Loader2Cmdline.Atoi and LoaderCmdline.StrToLongValue: C's `int` and `long` widths are not modelled; values are unbounded integers, so an out-of-range number does not wrap or saturate as strtol/atoi would.
- LOADER_OK, LOADER_BACK, LOADER_NOOP and LOADER_ERROR are 0, 1, 2 and -1 in the model; loader/loader.h and loader2/loader.h, which define them, are not part of this model, and only their distinctness matters to the stage machines.
- Devices.InsertByDescription: qsort's order of modules with equal descriptions is unspecified; the model sorts stably, so of tied modules the menu index picks the one listed first.
- Devices.GetModuleArgs, Devices.KeepValues, Loader2Updates.LoadUpdates, Loader2Updates.Pass, Loader2Updates.PartPass, Gui.GraphicalUserInterface.OnContinueClicked, YumInstall.YumBackend.DeselectPackage and Users.Users.Write are the corrected code of the findings below; the as-written behaviour is stated on the specification functions (a `Variant` argument) and by the as-written lemmas named in the findings table.
- loader/devices.c devLoadDriverDisk's probing and eject: device I/O; only the checks of devInitDriverDisk and the reading back of the module information are modelled.
- kickstart.py: pykickstart's own option parsing and every handler other than part, raid, volgroup, logvol and the step settings; handler arguments are given already parsed.
- pyanaconda/localization.py: babel's locale data, gettext and os.environ are parameters (the list of locales, the translations present).
- pyanaconda/timezone.py: pytz's tables (country_timezones, common_timezones) are parameters; the file reads and writes are outcomes.
- yuminstall.py: yum and rpm internals (transaction sets, package sacks, bestPackagesFromList, the rpm transaction, callbacks, progress arithmetic) are oracles. In resolveDeps the test `po.name not in satisfiers` compares a name with package objects, so it never holds; the model keeps every satisfier found. setAsDep flags, dsCallback, the upgrade probfilter and setColor are not modelled; getcd's ValueError is modelled as no disc; installedsize parsing is not modelled.
- pyanaconda/ui/gui/spokes/storage.py: Size arithmetic and unit conversion, the summary text, the SelectedDisksDialog and refresh are not modelled; the free-space query is a parameter.
- pyanaconda/ui/gui/spokes/custom.py: Size parsing is the parameter `parseSize`; the storage library's getFSType, newDevice and registerAction are parameters or records; _do_refresh, _save_right_side, _populate_right_side, _destroy_device and the remove and configure handlers only drive widgets and the storage library and are not modelled.
- pyanaconda/ui/gui/__init__.py: Gtk, the clock (as integer seconds), the screenshot directory and the window are parameters; whether an action can be instantiated or shown is a function given to the model.
- pyanaconda/users.py and users.py: libuser and crypt are oracles (`crypt` is a function parameter and the random salt picks are `pick`); the account database is a value.
- pyanaconda/ui/gui/spokes/password.py: pwquality's verdict is the parameter `quality`; the caps-lock label and the info bar are not modelled.
- Threads (threadMgr, gdk_threaded, the storage checker thread): the spokes' `completed` and `ready` properties that wait on threads are not modelled.
- iscsi.py shutdown(), write() and has_iscsi(): file, process and daemon I/O; has_iscsi's answer is a parameter of Startup.
- Iscsi.IscsiState.Startup: the logins to the firmware's default drive and to targets already listed are iscsiadm runs; only whether the daemon counts as started is modelled.
- Iscsi.RandomIname: the md5 digest of os.uname() and the six random picks are parameters.
- Firewall: the screen's widgets are a value; getScreen() and activate_firewall() only build and toggle widgets and are not modelled. `knownPorts.keys()` order is the order of the rows given.
- tests/mock/disk.py: take_over_module/restore_module patch Python modules and are not modelled; the Link marker, `__del__` and the context-manager methods add nothing beyond Close. The dictionary's iteration order, which glob_glob and os_listdir follow, is the parameter `order`.
- pyanaconda/language.py: reading lang-names, setlocale, gettext and write() to /etc/sysconfig/i18n are I/O; the lang-names table and the clock file's ZONE are parameters.
- LanguageSupport.SearchList: expand_langs returns a set turned into a list, whose order Python leaves unspecified; only membership and the final `C` are stated.
- YumInstall.UniqueProblems: uniqueProbs is a dict whose values Python joins in an unspecified order; the model joins the kinds in the order first seen.
- YumInstall.Run: populateTs, check, order and the rpm transaction itself are yum calls; only the sequence of media switches and transaction runs is modelled.
- kbd.py: kudzu's probe is a parameter (its first description); write() only serialises the settings. The dict iteration order of x2console and xsun2console keys is the order of the candidate lists given.
- Users.Users.Write and Users.Users.CreateUser: the libuser child process, chroot and waitpid are not modelled; the child's edits are made to the database value and its exit status is the result. Write uses the corrected crypt_style; the as-written one is CryptStyleAsWritten.

## Findings

| source | as written | input that shows it | evidently intended | confidence | as-written member | corrected member |
|---|---|---|---|---|---|---|
| loader/loader.c:1755, loader/loader.c:2123-2138 | `anacondaArgs` has 50 slots while up to 127 extra arguments are appended | 25 different pass-through keys with values on the command line, e.g. `Resolution=1`, `rEsolution=1`, …, `Nodmraid=1`, …, `xdriveR=1` | a buffer sized for MAX_EXTRA_ARGS extras plus the fixed options | not executed | LoaderArgv.ArgvOverflowsAsWritten | LoaderArgv.ArgvFits |
| loader/loader.c:2102-2117 | the $PATH scan steps `n + 1` past the last entry even when no colon ends it | PATH `/usr/bin` with no `anaconda` in it | stop at the end of the string | not executed | LoaderArgv.PathScanOverreads | LoaderArgv.FindScript |
| loader2/loader.c:1560, loader2/loader.c:1862-1874 | `anacondaArgs` has 50 slots while up to 127 extra arguments are appended | 24 copies of one valued extra argument | a buffer sized for MAX_EXTRA_ARGS extras plus the fixed options | not executed | Loader2Argv.ArgvOverflowsAsWritten | Loader2Argv.ArgvFits |
| loader2/loader.c:840 | BOOTIF is read from offset 10 whatever its length | `BOOTIF=1` (read past the end); a bare MAC loses three characters | skip `01-` only when present | not executed | Loader2Cmdline.BootIfAsWrittenFails | Loader2Cmdline.BootIf |
| loader2/loader.c:783-787 | the prefix length is chosen by a lower-case `r` in the second position | `DRIVERDISK=fd0` gives `VERDISK=fd0` | skip whichever prefix matched | not executed | Loader2Cmdline.DdSourceAsWrittenFails | Loader2Cmdline.DdSource |
| loader2/loader.c:393, loader2/loader.c:432-434 | `part` is freed and not cleared | pick a device and partition, Back at the prompt and at the partition menu, pick a device again | set `part` to NULL after freeing it | not executed | Loader2Updates.DoubleFreeAsWritten | Loader2Updates.CorrectedNeverFaults |
| loader2/loader.c:393, loader2/loader.c:399 | a device used whole makes `part` alias `device` | a device without partitions, then Back | copy the name into its own block | not executed | Loader2Updates.UseAfterFreeAsWritten | Loader2Updates.CorrectedNeverFaults |
| loader2/hardware.c:41-46 | canProbeDevices returns 1 only when none of the /proc files is readable | a PCI machine with a readable /proc/bus/pci/devices | probe when one of them is readable | not executed | Hardware.PciMachineNotProbedAsWritten | Hardware.CanProbeDevices |
| loader2/hardware.c:211, loader2/hardware.c:229-233 | the module names are concatenated into a 1024-byte buffer without a bound | n devices with one driver where n × (name length + 1) > 1024 | a buffer as long as the joined list | not executed | Hardware.ModulesOverflowAsWritten | Hardware.LoadedSet |
| loader2/hdinstall.c:196-197 | the test `!type` never holds, so an unmounted partition is searched | a partition mountable as neither ext2 nor vfat whose mount point holds images | give up when no type mounts | not executed | HdInstall.UnmountedPartitionSearchedAsWritten | HdInstall.SetupUrl |
| loader2/hdinstall.c:588-589 | the device buffer has room for two partition digits | `bd:80p100:/ks.cfg` | size the buffer from both pieces | not executed | HdInstall.BdOverflowAsWritten | HdInstall.KickstartFromBd |
| loader2/nfsinstall.c:130-154, loader2/nfsinstall.c:215-224 | a kickstart directory that mounts but holds no usable tree keeps its method | kickstart `nfs` data naming such a directory | clear the method so the user is prompted | not executed | NfsInstall.KickstartLoopsAsWritten | NfsInstall.KickstartFallsBackCorrected |
| loader2/nfsinstall.c:254, loader2/nfsinstall.c:275-278 | an option left out leaves its pointer uninitialised | `nfs --dir=/x` with no `--server` | initialise the options to NULL | not executed | NfsInstall.MissingServerAsWritten | NfsInstall.MissingServerCorrected |
| loader/devices.c:108-111 | the backwards scan over a blank value runs before its start | a parameter typed as one blank | stop at the start of the value | not executed | Devices.BlankValueUnderflowsAsWritten | Devices.ScanValue |
| loader/devices.c:64-67, loader/devices.c:112-113 | an untouched `io=0x` prefill passes the `=` test | an io parameter left as prefilled | drop a value left as prefilled | not executed | Devices.UntouchedIoPassedAsWritten | Devices.UntouchedPrefillsDropped |
| loader/devices.c:464 | the next file name is built from `diskName`, never written | two driver disks loaded | read every recorded disk | not executed | Devices.LaterDisksLostAsWritten | Devices.DriverDisks.ReadDriverDiskModInfo |
| kickstart.py:329-333 | the lookup test is inverted: a BIOS disk that was found is refused | `part / --size=100 --onbiosdisk=80` with 80 naming sda | refuse only an empty answer | not executed | Kickstart.BiosDiskRefusedAsWritten | Kickstart.PartitionAccepted |
| kickstart.py:962-968 | `clen < 1` compares a header string with an int, which never holds | a reply with `Content-Length: 0` | compare the number | not executed | Kickstart.EmptyAppendAcceptedAsWritten | Kickstart.CorrectedNeedsLength |
| pyanaconda/localization.py:298-304 | the properties compute the parse and return nothing | install language `en_US.UTF-8` | return the parsed parts | not executed | Localization.Language.InstallLangAsDictAsWritten | Localization.Language.InstallLangAsDict |
| pyanaconda/language.py:50, pyanaconda/language.py:98 | the text-mode flag, a bool, is compared with the string "False" | any language marked not text-supported, in text mode | test the bool | not executed | LanguageSupport.TextModeFallbackNeverAsWritten | LanguageSupport.TextModeFallbackCorrected |
| pyanaconda/language.py:131 | the module `localeinfo` is called without being imported | any `Language()` | import `localeinfo` | not executed | LanguageSupport.InitRaisesAsWritten | LanguageSupport.InitLoadsCorrected |
| kbd.py:267-283 | unpacking the tuple key rebinds `variant`, so the variant given is ignored | `setfromx("pc102", "de", "nodeadkeys")` | keep the caller's variant | not executed | Keyboard.NoDeadKeysLostAsWritten | Keyboard.NoDeadKeysHonouredCorrected |
| tests/mock/disk.py:127-128 | `os_access` calls `self.path_exists`, which does not exist | `os_access("/proc/cmdline", 0)` | call `os_path_exists` | not executed | MockDisk.OsAccessFailsOnExistingFile | MockDisk.DiskIO.OsAccess |
| users.py:101-105 | a crypted password is handed to setpassUser as not crypted | `createUser("u", password="pw")` | pass it as crypted | not executed | LegacyUsers.NewUserPasswordDoubleCryptAsWritten | LegacyUsers.LegacyUsers.PasswordToSet |
| pyanaconda/users.py:304-307 | libuser.conf gets `crypt_style = None` when no algorithm option is given | no `--passalgo` and no `--enablemd5` | name the sha512 style the salt uses | not executed | Users.CryptStyleMismatchAsWritten | Users.CryptStyleMatchesSalt |
| pyanaconda/timezone.py:73-86 | `lines[0]` of an existing but empty adjtime raises IndexError, which is not caught | an empty /etc/adjtime | fall back to the default lines | not executed | Timezone.AdjtimeShortFileAsWritten | Timezone.AdjtimeKeepsTwoLines |
| yuminstall.py:1098 | `rsplit(".", 2)` makes three pieces of a dotted name | `deselectPackage("python-2.7.x86_64")` | split once at the last dot | not executed | YumInstall.DeselectDottedNameAsWritten | YumInstall.DeselectTargetsIff |
| pyanaconda/ui/gui/__init__.py:571 | the name compared is `__class__.__name__` of a class, its metaclass's | any `skipTo` naming a later action class | compare the class's own name | not executed | Gui.SkipIgnoredAsWritten | Gui.SkipForwardOnly |
| pyanaconda/ui/gui/__init__.py:585-592 | with one uninstantiable action left `self._actions[1]` raises IndexError | a queue of the current action and one that cannot be instantiated | exit as when the queue is empty | not executed | Gui.NothingLeftAsWritten | Gui.ContinueFacts |
