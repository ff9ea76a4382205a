# A verified model of CveDeck's decision logic

CveDeck collects what is installed on a fleet of machines, asks advisory sources which of
it is vulnerable, keeps the findings of every scan, and enriches them with threat-intel
feeds. This project models the parts of its backend that decide things, free of HTTP, SSH
and SQL, and proves what its documentation and comments promise of them.

`dafny verify dfyconfig.toml` checks the whole project.

| module | what it models |
|---|---|
| `Orders`, `Text` | sign-valued comparisons, lexicographic order and least elements; the string operations used, over ASCII |
| `RpmVersion`, `DebianVersion` | the two version orders: loops over strings, proved equal to lexicographic orders of token streams and keys |
| `PackageIdentifier` | package identifiers and the fix notes written after them, and that both read back |
| `Releases` | distribution releases, which releases a host has and which ecosystems are asked about |
| `FixNotes` | what a finding says about its fix, and what reading it back means |
| `Merging` | one finding for every vulnerability and package, independent of arrival order |
| `SourceQueries` | asking under source names and reporting under an installed binary |
| `KernelFeeds` | folding a kernel feed to one row per CVE, and verdicts on upstream kernels |
| `ScanHistory` | stored findings, first-seen dates, change rows and pruned runs as a state machine |
| `IntelFeeds` | feed caches, the digest short-circuit, enrichment and reapplying |
| `HostKeys` | trust on first use as interleaved steps, with an explicit forget |
| `Throttle`, `RateLimiter`, `Sessions` | timed state machines: login back-off, a rolling window, sessions and tokens |

Conventions: where the program changes state step by step the model has a class or a loop,
proved equal to a specification function, and the theorems are about that function over
every run. Time is a real number given to each operation. A database table is a map or a
sequence and a commit is one atomic step. The functions that know how identifiers and
versions are read are handed to `Merging` as a value (`Rules`), and the findings' identity
to `ScanHistory` (`Keying`); `Merging.OSV` and `ScanHistory.FindingKey` are the program's.

Five promises hold only under a condition, which is proved to be exact:

- "A missing release sorts before any release" (rpm_version.py, lines 13-14) fails for a
  release whose first token is `~`, and for one without tokens: `RpmVersion.MissingRelease`,
  `RpmVersion.TildeReleaseSortsFirst`.
- A source's CVE is reported once, against its representative (Property 17 in
  .kiro/specs/cvedeck/design.md), unless another source diverts one of its names:
  `SourceQueries.OncePerSourceExactly`, `SourceQueries.SharedNameReportsTwice`.
- Skipping the pass over the findings differs from making it when a finding without a CVE
  id was overlooked: `IntelFeeds.SkippingIsReapplying`, `IntelFeeds.OverlookedWithoutId`.
- "Nothing: no fix is published anywhere" (osv_client.py, line 404) fails when the host's own
  release is listed unfixed and the published fix is for no release the host could move to:
  `FixNotes.NothingMeans`, `FixNotes.PublishedFixUnsaid`.
- A lock opens up to a millisecond early because of how the wait is rounded, once for every
  delay: `Throttle.AdmittedExactly`, `Throttle.BackoffBound`.

## Model

| member | source | states |
|---|---|---|
| `RpmVersion.Rpmvercmp` | backend/app/scanner/rpm_version.py:32-95 | the two-index loop returns exactly the lexicographic comparison of the two token streams, with tilde before end before caret before letters before numbers |
| `RpmVersion.CompareNextRuns` | backend/app/scanner/rpm_version.py:73-91 | one segment step: a non-zero answer is the whole comparison, and otherwise the comparison goes on behind the two runs |
| `RpmVersion.CompareRuns` | backend/app/scanner/rpm_version.py:86-91 | comparing by length without leading zeros and then by text is comparing numbers by value and letters by code point |
| `RpmVersion.SkipSeparators` | backend/app/scanner/rpm_version.py:37-40 | skipping separators leaves the tokens that remain |
| `RpmVersion.CompareVersions` | backend/app/scanner/rpm_version.py:110-116 | epochs decide, then versions, then releases |
| `RpmVersion.OrderZeroAndSign` | backend/app/scanner/rpm_version.py:110-116 | swapping the arguments negates the answer; it is zero exactly when epochs and both token streams are equal |
| `RpmVersion.OrderTransitive` | backend/app/scanner/rpm_version.py:110-116 | the whole order is transitive |
| `RpmVersion.WrittenReads` | backend/app/scanner/rpm_version.py:37-71 | a version written token by token, with any separators between and any zeros before a number, has exactly those tokens |
| `RpmVersion.EveryStreamWritten` | backend/app/scanner/rpm_version.py:9-15 | every stream of tokens can be written |
| `RpmVersion.TildeBeforeEnd` | backend/app/scanner/rpm_version.py:42-71 | on text: v~x sorts before v, and v before v^x, whatever v and x are |
| `RpmVersion.CaretBeforeMore` | backend/app/scanner/rpm_version.py:55-71 | on text: v^x sorts before v followed by any further run of digits or letters |
| `RpmVersion.RunsDecide` | backend/app/scanner/rpm_version.py:73-91 | on text: in one place letters come before numbers, numbers go by their value, letters by code point |
| `RpmVersion.FullRead` | backend/app/scanner/rpm_version.py:98-116 | what epoch, version and release a written `[epoch:]version[-release]` is compared by |
| `RpmVersion.EpochThenVersion` | backend/app/scanner/rpm_version.py:110-116 | the greater epoch wins whatever the versions, then the greater version whatever the releases |
| `RpmVersion.ThenRelease` | backend/app/scanner/rpm_version.py:110-116 | of one version the greater release wins |
| `RpmVersion.PreReleaseFirst` | backend/app/scanner/rpm_version.py:42-71 | in whole versions: a pre-release sorts before its version, a later snapshot after it |
| `RpmVersion.PreReleaseOfRelease` | backend/app/scanner/rpm_version.py:42-71 | the same of releases |
| `RpmVersion.SplitWithoutEpoch` | backend/app/scanner/rpm_version.py:98-107 | text without a number before its first colon has epoch 0; the release follows the last dash and is empty where there is no dash |
| `RpmVersion.SplitWithEpoch` | backend/app/scanner/rpm_version.py:98-107 | a number before the first colon is the epoch, whatever colons follow; the rest splits at its last dash, or is all version where there is none |
| `RpmVersion.SplitIgnoresSpace` | backend/app/scanner/rpm_version.py:99 | space around a version makes no difference |
| `RpmVersion.MissingRelease` | backend/app/scanner/rpm_version.py:13-15 | a missing release sorts before a release exactly when that release has a token and its first one is not a tilde; without tokens the two are equal; the documentation promises it always |
| `RpmVersion.TildeReleaseSortsFirst` | backend/app/scanner/rpm_version.py:13-15 | a concrete release that sorts before a missing one, against the documentation |
| `DebianVersion.Verrevcmp` | backend/app/scanner/debian_version.py:26-52 | the loops terminate and return the lexicographic comparison of the two keys, each continued for ever with zeros |
| `DebianVersion.CompareNonDigits` | backend/app/scanner/debian_version.py:30-36 | the non-digit part: a difference has the sign of the key comparison, and otherwise the keys from the new indices compare the same |
| `DebianVersion.CompareAlongside` | backend/app/scanner/debian_version.py:41-45 | the first difference of two digit runs has the sign of the comparison of the values read so far |
| `DebianVersion.CompareDigits` | backend/app/scanner/debian_version.py:41-51 | a longer run, or the first difference, decides as the numeric values do |
| `DebianVersion.SkipZeros` | backend/app/scanner/debian_version.py:37-40 | leading zeros do not change the number read |
| `DebianVersion.CompareVersions` | backend/app/scanner/debian_version.py:67-73 | epochs decide, then upstream keys, then revision keys |
| `DebianVersion.OrderZeroAndSign` | backend/app/scanner/debian_version.py:67-73 | swapping the arguments negates the answer; it is zero exactly when the epochs are equal and both pairs of keys agree everywhere |
| `DebianVersion.OrderTransitive` | backend/app/scanner/debian_version.py:67-73 | the order is transitive, as section 5.6.12 of the Debian Policy Manual needs |
| `DebianVersion.KeyJoined` | backend/app/scanner/debian_version.py:26-52 | the key of a text is the keys of its parts, one after the other, unless the cut is inside a number |
| `DebianVersion.FirstDifference` | backend/app/scanner/debian_version.py:16-36 | at the first difference outside a number, "~" sorts before the end and a digit, those before a letter, a letter before anything else, and within the last two kinds the code point decides |
| `DebianVersion.TildeBeforeEnd` | backend/app/scanner/debian_version.py:16-36 | on text: s~x sorts before s, and s before s extended by any other character that is no digit |
| `DebianVersion.NumbersByValue` | backend/app/scanner/debian_version.py:37-51 | on text: numbers in one place go by their value, whatever zeros lead them |
| `DebianVersion.FullRead` | backend/app/scanner/debian_version.py:55-73 | what epoch, upstream version and revision a written `[epoch:]upstream[-revision]` is compared by |
| `DebianVersion.EpochThenUpstream` | backend/app/scanner/debian_version.py:67-73 | the greater epoch wins whatever the rest, then the greater upstream version whatever the revisions |
| `DebianVersion.ThenRevision` | backend/app/scanner/debian_version.py:67-73 | of one upstream version the greater revision wins |
| `DebianVersion.PreReleaseFirst` | backend/app/scanner/debian_version.py:16-36 | in whole versions: a pre-release sorts before its version |
| `DebianVersion.BackportFirst` | backend/app/scanner/debian_version.py:16-36 | a revision with "~" and more appended sorts before the revision itself |
| `DebianVersion.SplitWithoutEpoch` | backend/app/scanner/debian_version.py:55-64 | without a colon the epoch is 0 and the revision follows the last dash; where there is no dash, or nothing before it, all that is left is upstream |
| `DebianVersion.SplitWithEpoch` | backend/app/scanner/debian_version.py:55-64 | what precedes the first colon is the epoch, 0 when it is no number; the rest splits in the same way |
| `DebianVersion.SplitIgnoresSpace` | backend/app/scanner/debian_version.py:56 | space around a version makes no difference |
| `PackageIdentifier.IdentifierRoundTrip` | backend/app/package_identifier.py:32-59 | name and version are read back from an identifier whose ecosystem has colons, whose name may be scoped and whose version may have an epoch, whatever note follows |
| `PackageIdentifier.ScopedWithoutVersion` | backend/app/package_identifier.py:40-46 | the "@" of an npm scope is no version separator: a scoped name without a version is all name |
| `PackageIdentifier.FindingPackageOf` | backend/app/package_identifier.py:62-80 | the package of a finding is its name, and for a kernel its name and version |
| `PackageIdentifier.FixRoundTrip` | backend/app/package_identifier.py:83-115 | `parse_fix` undoes the three notes `fix_suffix` writes: status, release label and version |
| `PackageIdentifier.MatchAvailableMeaning` | backend/app/package_identifier.py:85 | the first pattern yields a version exactly when the text ends in `(fixed in V)` with V free of spaces and closing parentheses |
| `PackageIdentifier.AvailableExactly` | backend/app/package_identifier.py:83-115 | a written fix reads as available exactly when its version is one the pattern accepts |
| `PackageIdentifier.NoNoteNoFix` | backend/app/package_identifier.py:88-115 | an identifier without parentheses reads as having no fix |
| `PackageIdentifier.WithoutNoteCuts` | backend/app/package_identifier.py:38-40 | a note is cut off exactly where it starts |
| `PackageIdentifier.Separators` | backend/app/package_identifier.py:40-59 | where the last "@" and the last colon before it stand in an identifier |
| `PackageIdentifier.PackagesTold` | backend/app/package_identifier.py:62-80 | two identifiers are one package exactly when the names agree, and for kernels the versions, whatever ecosystems and notes say; only a name spelled as a kernel's name@version is ever taken for that kernel |
| `PackageIdentifier.NamesToldApart` | backend/app/package_identifier.py:62-80 | which no name without an inner "@" is |
| `PackageIdentifier.LinuxParts` | backend/app/package_identifier.py:117-132 | names that are a kernel's whatever follows, of the Debian family |
| `PackageIdentifier.KernelParts` | backend/app/package_identifier.py:117-132 | and of the rpm family |
| `PackageIdentifier.KernelSeries` | backend/app/package_identifier.py:141-143 | kernel series under names of their own, and their modules, are kernels |
| `PackageIdentifier.OtherNames` | backend/app/package_identifier.py:156-162 | a name that begins neither with "linux" nor with "kernel", in either case, is none |
| `Releases.ParsedWellKeyed` | backend/app/scanner/releases.py:90-121 | every release read from an ecosystem name has the key its family is asked about by, unless it is a subscription: then it is Ubuntu and the name starts with 'Ubuntu:Pro:' |
| `Releases.ProIsSubscription` | backend/app/scanner/releases.py:97-100 | and every release read from such a name is a subscription |
| `Releases.HostReleasesWellKeyed` | backend/app/scanner/releases.py:124-139 | so has every release of a host, and none of them is a subscription |
| `Releases.QueriesName` | backend/app/scanner/releases.py:142-166 | every ecosystem asked about for a release reads back as that release |
| `Releases.UbuntuQueryNames` | backend/app/scanner/releases.py:81-87 | the Ubuntu name written for a release, long-term or not, reads back as it |
| `Releases.RedHatNames` | backend/app/scanner/releases.py:112-113 | each Red Hat stream asked about reads back as its major release |
| `Releases.AlmaHost` | backend/app/scanner/releases.py:124-133 | an AlmaLinux host has its own release and the RHEL release it rebuilds, in that order |
| `Releases.RockyHost` | backend/app/scanner/releases.py:124-133 | so has a Rocky Linux host |
| `Releases.OracleHost` | backend/app/scanner/releases.py:134-137 | an Oracle Linux host has the releases of all three |
| `Releases.RedHatHostNames` | backend/app/scanner/releases.py:114-116 | the form a host records its RHEL release in reads back as that release |
| `Releases.ReleaseQueryEcosystems` | backend/app/scanner/releases.py:142-166 | the loop returns the queries of every host release in order, each once |
| `Releases.QueriedEcosystemsAreTheHosts` | backend/app/scanner/releases.py:124-166 | every release-specific ecosystem asked about names one of the host's own releases |
| `Releases.EveryReleaseAsked` | backend/app/scanner/releases.py:142-166 | and every release of a host is asked about, RHEL's in all three streams |
| `Releases.DistinctInOrder` | backend/app/scanner/releases.py:166 | the queries stay in the order in which each was first due |
| `Releases.LongTermReleases` | backend/app/scanner/releases.py:81-87 | April releases of even years, and no others, are asked about as long-term |
| `Releases.ProNames` | backend/app/scanner/releases.py:97-100 | an Ubuntu Pro name, with or without flavour and long-term mark, reads as the subscription stream of its year and month, with its title |
| `Releases.DebianHost` | backend/app/scanner/releases.py:138-139 | a Debian host has its own release and no other |
| `Releases.UbuntuHost` | backend/app/scanner/releases.py:138-139 | so has an Ubuntu host |
| `Releases.AlpineHost` | backend/app/scanner/releases.py:138-139 | an Alpine host |
| `Releases.LeapHost` | backend/app/scanner/releases.py:138-139 | an openSUSE Leap host |
| `Releases.RedHatHost` | backend/app/scanner/releases.py:138-139 | and a RHEL host |
| `Releases.ZeroEpochNotShown` | backend/app/scanner/releases.py:230-232 | a written zero epoch is not shown, and nothing else is taken off |
| `FixNotes.CollectNewer` | backend/app/scanner/osv_client.py:430-441 | the nested loops gather exactly the candidate fixes of later releases and subscription streams |
| `FixNotes.NewerFixesCarried` | backend/app/scanner/osv_client.py:430-441 | the candidates are exactly those of entries with a fix, for a release of a host's family whose key is greater at the first place the two differ, or for its subscription stream |
| `FixNotes.NoteIsFixedIn` | backend/app/scanner/osv_client.py:423-455 | the "fixed in" note is written exactly when an entry for the host's own release has a fix, or when the host has no release, no entry is its own and an entry names the queried ecosystem exactly |
| `FixNotes.NoteReadable` | backend/app/scanner/osv_client.py:388-462 | a sufficient condition for the note to be one that can be read back: the versions shown, and the names of releases shown, are free of what ends them |
| `FixNotes.AvailableMeans` | backend/app/scanner/osv_client.py:388-462 | for every note that can be read back, reading the stored identifier reports "available" exactly in those two cases |
| `FixNotes.NewerReleaseMeans` | backend/app/scanner/osv_client.py:428-447 | a "newer release" answer names the fix of an entry for a release of a host's family whose key is greater at the first place the two differ, or for the subscription stream of the host's very release; no such entry is for a release where this one is for a subscription, nor for an earlier release of the same kind; the note names the host's first release |
| `FixNotes.NewerCmpLaws` | backend/app/scanner/osv_client.py:443 | the tuple order the least candidate is taken by is a total preorder |
| `FixNotes.AvailableIsOwn` | backend/app/scanner/osv_client.py:406-407 | the version offered as available is that of the first entry with a fix for the host's own release or, on a host without a release, for the queried ecosystem |
| `FixNotes.UpstreamMeans` | backend/app/scanner/osv_client.py:457-461 | an "upstream" answer means no entry is the host's own, and names the release and version of the first entry with a fix |
| `FixNotes.NothingMeans` | backend/app/scanner/osv_client.py:404-462 | exactly when nothing is said: no entry has a fix, or the host's own release is listed unfixed and no entry is for a release it could move to or pay for |
| `FixNotes.PublishedFixUnsaid` | backend/app/scanner/osv_client.py:404 | entries for which nothing is said although a fix is published, against the documentation |
| `FixNotes.UnsaidExample` | backend/app/scanner/osv_client.py:404 | a Debian 13 host listed unfixed, with a fix published for openSUSE Tumbleweed, is such a case |
| `FixNotes.HostTitles` | backend/app/scanner/releases.py:90-139 | every release of a host has a title a note can carry |
| `FixNotes.KeyAfterExactly` | backend/app/scanner/osv_client.py:438-439 | comparing release keys as tuples is being greater at the first place they differ, or longer |
| `FixNotes.QueriedIsOwn` | backend/app/scanner/osv_client.py:412-422 | an entry for any ecosystem asked about for one of the host's releases is the host's own |
| `FixNotes.AskedIsOwn` | backend/app/scanner/osv_client.py:412-414 | so is one for an ecosystem asked about, in either case |
| `FixNotes.OthersAreNot` | backend/app/scanner/osv_client.py:412-422 | one whose ecosystem was not asked about and names no release of the host is not |
| `FixNotes.SubscriptionIsNot` | backend/app/scanner/osv_client.py:415-420 | nor is an Ubuntu Pro stream that was not asked about |
| `FixNotes.ExactMeans` | backend/app/scanner/osv_client.py:453-454 | an entry names the queried ecosystem exactly when it does letter for letter, in either case |
| `FixNotes.PackageBlocksAre` | backend/app/scanner/osv_client.py:338-352 | the entries looked at are those that name the package, in either case, or no package |
| `Merging.Deduplicate` | backend/app/scanner/osv_client.py:1124-1146 | the dictionary of groups, filled in arrival order, gives the specified findings |
| `Merging.GroupByKey` | backend/app/scanner/osv_client.py:1143-1146 | the dictionary holds, for every key in order of first arrival, exactly the records of that key in order |
| `Merging.ArrivalOrderFree` | backend/app/scanner/osv_client.py:1124-1146 | lists with the same records, in any order and multiplicity, give the same findings |
| `Merging.OneFindingPerKey` | backend/app/scanner/osv_client.py:1124-1146 | one finding for every vulnerability and package among the records, and none for any other |
| `Merging.WorstRatingEarliestFix` | backend/app/scanner/osv_client.py:197-247 | each finding is rated as badly as the worst record of its group, and where the group's fixes share an ordering no available fix is earlier than its own |
| `Merging.RatedAsTheWorst` | backend/app/scanner/osv_client.py:155-175 | a finding is critical exactly when a record is (banded so, or unbanded with 9.0 or more); else unrated exactly when a record says nothing; else high (7.0), else medium (4.0); and no record at its level has a higher score |
| `Merging.GreatestScore` | backend/app/scanner/osv_client.py:155-175 | where every record carries a score and none a band, the finding has the greatest |
| `Merging.EarliestInDebian` | backend/app/scanner/osv_client.py:181-217 | a finding of Debian or Ubuntu names the fix that Debian's ordering puts first |
| `Merging.EarliestInRpm` | backend/app/scanner/osv_client.py:181-217 | a finding of RHEL, its rebuilds, SUSE or openSUSE names the fix that rpm's ordering puts first |
| `Merging.OthersUnordered` | backend/app/scanner/osv_client.py:181-194 | no other ecosystem has an ordering of its own |
| `Merging.FixKept` | backend/app/scanner/osv_client.py:243-244 | a finding says "fixed in" when a record of it does, and names an available fix when all that say it do |
| `Merging.UnfixedAsItCame` | backend/app/scanner/osv_client.py:242-246 | without a fix a finding is one of its records as it came: of those rated alike, the one with the least identifier |
| `Merging.DeduplicatedRepresents` | backend/app/scanner/osv_client.py:220-247 | no record is left uncovered, and rating and identifier of every finding come from records of its group |
| `Merging.EarliestIsEarliest` | backend/app/scanner/osv_client.py:197-217 | with one version ordering and every fix available, the record chosen names a fix no later than any other |
| `Merging.MergeIs` | backend/app/scanner/osv_client.py:220-247 | a merged record is one of the group with the rating of a worst one, and names a fix if any does |
| `Merging.MergeOfSameRecords` | backend/app/scanner/osv_client.py:220-247 | merging depends only on which records are in the group |
| `Merging.DeduplicateIdempotent` | backend/app/scanner/osv_client.py:1124-1146 | deduplicating twice is deduplicating once |
| `Merging.BracketingFree` | backend/app/scanner/osv_client.py:702-730 | merging already merged parts, however bracketed, rates every package the same and offers an equally early fix as merging all records at once |
| `Merging.NestingKeys` | backend/app/scanner/osv_client.py:702-730 | every bracketing has exactly one finding for every vulnerability and package among the records |
| `Merging.NestingRepresents` | backend/app/scanner/osv_client.py:702-730 | every bracketing covers every record it was made from and invents none |
| `Merging.RankPreorder` | backend/app/scanner/osv_client.py:155-175 | ranking by band and then by score is a total preorder, with scores and bands absent or not |
| `Merging.OrderUntied` | backend/app/scanner/osv_client.py:231-240 | the tie-break is injective: no two different records of one vulnerability tie |
| `Merging.OrderPreorder` | backend/app/scanner/osv_client.py:231-240 | the tie-break is a total preorder |
| `Merging.OsvIsLawful` | backend/app/scanner/osv_client.py:155-247 | the rules the program uses meet everything the theorems about merging ask of them |
| `Merging.AvailableIsNamed` | backend/app/scanner/osv_client.py:243 | a record whose fix reads as available is among those whose identifier contains "fixed in" |
| `SourceQueries.ReattributeRewrites` | backend/app/scanner/osv_client.py:305-322 | only the `name@version` after the ecosystem is rewritten, and only when it is to be moved |
| `SourceQueries.ReattributeReads` | backend/app/scanner/osv_client.py:305-322 | afterwards the identifier reads as the binary's name and version, and its fix as before |
| `SourceQueries.NoCveLost` | backend/app/scanner/osv_client.py:704-730 | reattribution and deduplication together lose no vulnerability and rate none better than a record of it |
| `SourceQueries.GroupBySource` | backend/app/scanner/osv_client.py:706-715 | binaries are grouped by source, every valid package in exactly the group of its source |
| `SourceQueries.AskSource` | backend/app/scanner/osv_client.py:717-725 | one source's names are asked for, those asked before excepted; each keeps the first place it was sent to |
| `SourceQueries.AskSources` | backend/app/scanner/osv_client.py:717-725 | the loop over all sources gives the specified queries and remap |
| `SourceQueries.PlanReports` | backend/app/scanner/osv_client.py:704-730 | the specified plan asks for exactly the sources' names, each once, and sends each to the representative of a source that goes by it |
| `SourceQueries.Plan` | backend/app/scanner/osv_client.py:704-730 | the queries and the remap are those of the specification; every installed package and every source is asked about once, and every name asked for is reported under the representative of a source that goes by it |
| `SourceQueries.RepresentativeIs` | backend/app/scanner/osv_client.py:282-298 | the binary chosen: the kernel image least by name, else the source's namesake, else the least name |
| `SourceQueries.RepresentativeOrderFree` | backend/app/scanner/osv_client.py:282-298 | the name reported does not depend on the order packages are listed in |
| `SourceQueries.ReportsInstalled` | backend/app/scanner/osv_client.py:282-298 | findings name an installed package at its installed version |
| `SourceQueries.MovedToInstalled` | backend/app/scanner/osv_client.py:305-322 | an advisory asked for by any queried name ends on an installed package of the same ecosystem with its fix unchanged, if the installed packages it may be sent to can be written as identifiers |
| `SourceQueries.NamesLead` | backend/app/scanner/osv_client.py:717-725 | a name is remapped exactly when some source that is first to go by it has a representative called otherwise, and then to the representative of the first such source |
| `SourceQueries.OncePerSource` | backend/app/scanner/osv_client.py:670-673 | Property 17: however many of a source's names a CVE is published under, it is one finding, against the source's representative, if the source keeps its names |
| `SourceQueries.OncePerSourceExactly` | backend/app/scanner/osv_client.py:670-673 | and only then: a source's CVEs are always reported so exactly when the first source to divert any of its names has a representative called as its own is |
| `SourceQueries.UnsharedKept` | backend/app/scanner/osv_client.py:717-725 | a source none of whose names another source goes by keeps its names |
| `SourceQueries.OneFindingForSource` | backend/app/scanner/osv_client.py:670-673 | among whatever else is published about the CVE, all that is published under the source's names is in one finding, that of its representative |
| `SourceQueries.SharedNameReportsTwice` | backend/app/scanner/osv_client.py:717-730 | a host with a source whose own name is another source's binary: one CVE published under that source's names makes two findings, against Property 17 |
| `KernelFeeds.Table.KeepHighest` | backend/app/scanner/kernel_feeds.py:375-384 | the row of a CVE is replaced exactly when the new advisory names a higher build |
| `KernelFeeds.Table.Read` | backend/app/scanner/kernel_feeds.py:375-384 | reading a stream of advisories leaves the table the fold of the stream describes |
| `KernelFeeds.OracleAdvisories` | backend/app/scanner/kernel_feeds.py:437-446 | the Oracle reader keeps an advisory for each CVE with the build named, and none where there is no build or it is not of the release read |
| `KernelFeeds.AmazonAdvisories` | backend/app/scanner/kernel_feeds.py:506-513 | the Amazon reader gives up exactly where the version or the release is missing; else it keeps an advisory for each CVE, and the build it is compared by is version-release whatever the epoch |
| `KernelFeeds.RpmAffecting` | backend/app/scanner/kernel_feeds.py:598-601 | the rows whose fixed build is newer than the installed one, in order |
| `KernelFeeds.FoldedIsHighest` | backend/app/scanner/kernel_feeds.py:375-384 | the row kept was in the stream and no advisory of its CVE names a higher build |
| `KernelFeeds.FoldedIsFirst` | backend/app/scanner/kernel_feeds.py:375-384 | of several advisories that name the highest build the first is kept |
| `KernelFeeds.CompactionExact` | backend/app/scanner/kernel_feeds.py:375-384 | a CVE is reported from the table exactly when some advisory in the stream named a newer build |
| `KernelFeeds.BareFoldExact` | backend/app/scanner/kernel_feeds.py:375-384 | given entries without a build too, the bare fold is exact for every installed build that does not sort before the empty version |
| `KernelFeeds.CompactionCanLose` | backend/app/scanner/kernel_feeds.py:375-384 | why the readers' checks matter: given an entry without a build, which neither reader hands over, the bare fold can lose a CVE for an installed build that sorts before the empty version |
| `KernelFeeds.CompactionOrderFree` | backend/app/scanner/kernel_feeds.py:375-384 | the order of the stream does not change what is reported |
| `KernelFeeds.ReportedBelowTheFix` | backend/app/scanner/kernel_feeds.py:598-601 | a CVE is reported exactly when some advisory names a build above the installed one; a host at the fixed build is not reported |
| `KernelFeeds.EpochSetAside` | backend/app/scanner/kernel_feeds.py:387-388 | an epoch that only one of two builds is written with makes no difference |
| `KernelFeeds.ReportedIsAffecting` | backend/app/scanner/kernel_feeds.py:598-601 | asking over a table's rows reports exactly the CVEs whose row is behind |
| `KernelFeeds.KernelWritten` | backend/app/scanner/kernel_feeds.py:172-192 | a written kernel version is read back, whatever package suffix follows it |
| `KernelFeeds.SeriesWritten` | backend/app/scanner/kernel_feeds.py:169-176 | a version of two numbers reads as the first of its series |
| `KernelFeeds.BelowIsOrder` | backend/app/scanner/kernel_feeds.py:172-176 | kernels are ordered as rpm orders the versions they are written as |
| `KernelFeeds.UpstreamAffecting` | backend/app/scanner/kernel_feeds.py:256-290 | the loop returns the specified verdicts, in order |
| `KernelFeeds.JudgeEntry` | backend/app/scanner/kernel_feeds.py:268-289 | one entry's verdict: the own series decides when it lists a fix, otherwise the ranges do |
| `KernelFeeds.AnyRange` | backend/app/scanner/kernel_feeds.py:276-286 | the inner loop finds whether any range holds the kernel |
| `KernelFeeds.OfferClears` | backend/app/scanner/kernel_feeds.py:256-290 | an offered version is strictly above the kernel asked about and has itself no verdict for the entry; offered as the fix it is of the own series, offered from elsewhere of a newer one |
| `KernelFeeds.ElsewhereIsEarliest` | backend/app/scanner/kernel_feeds.py:287-289 | a fix is offered from elsewhere exactly when the own series lists none and a newer one does, and it is the lowest of those |
| `KernelFeeds.RangeEdges` | backend/app/scanner/kernel_feeds.py:276-286 | where no own fix decides, a range covers its introduction and its last affected version, and not its fix |
| `KernelFeeds.OwnSeriesDecides` | backend/app/scanner/kernel_feeds.py:269-275 | when the own series lists a fix, affected means exactly below the least of them |
| `KernelFeeds.VerdictsAre` | backend/app/scanner/kernel_feeds.py:256-290 | the verdicts of a feed are exactly the verdicts of its entries |
| `KernelFeeds.FollowingAnOfferClears` | backend/app/scanner/kernel_feeds.py:256-290 | over a whole feed, a kernel at an offered version is still reported for that CVE exactly when another record of the CVE has a verdict on it; with one record per CVE, never |
| `ScanHistory.MachineHistory.SaveFindings` | backend/app/data/repository.py:527-604 | the rows and the diff after a scan, complete or partial, baseline or not |
| `ScanHistory.MachineHistory.OldByKey` | backend/app/data/repository.py:560-566 | the first row of every key and the earliest date of every key |
| `ScanHistory.MachineHistory.DeleteStale` | backend/app/data/repository.py:568-581 | which rows a scan removes |
| `ScanHistory.MachineHistory.WriteFindings` | backend/app/data/repository.py:583-590 | the rows written, each dated by its key, and the new findings, one for each new key |
| `ScanHistory.MachineHistory.RecordScanRun` | backend/app/data/repository.py:618-687 | the run recorded, with its change rows, and the runs kept |
| `ScanHistory.MachineHistory.PruneScanRuns` | backend/app/data/repository.py:689-699 | the loop keeps what the specification of pruning keeps |
| `ScanHistory.MachineHistory.Attempt` | backend/app/api/wiring.py:309-384 | one attempt, successful or failed, takes the stored state one step |
| `ScanHistory.SavedKeys` | backend/app/data/repository.py:527-604 | a complete scan replaces the stored keys, a partial one only adds |
| `ScanHistory.DiffKeys` | backend/app/data/repository.py:583-604 | recorded changes are exactly the keys added and removed, each once, and the counts balance |
| `ScanHistory.StepKeys` | backend/app/data/repository.py:527-687 | what complete, partial and failed attempts do to the stored keys and to the counts |
| `ScanHistory.StepReplays` | backend/app/data/repository.py:618-687 | replaying one run's change rows takes the keys before it to the keys after it |
| `ScanHistory.SameFindingKey` | backend/app/data/repository.py:151-160 | two findings share a key exactly when CVE and package agree: the name, and for a kernel the version, whatever notes follow |
| `ScanHistory.UpgradeStillVulnerable` | backend/app/data/repository.py:151-160 | after a success, a package upgraded to another vulnerable version is recorded neither as new nor as resolved, and its row keeps the date it was first seen |
| `ScanHistory.OnlyUpgrades` | backend/app/data/repository.py:583-604 | a scan after which every finding is such an upgrade records no change at all |
| `ScanHistory.HistoryReplays` | backend/app/data/repository.py:618-687 | over any sequence of attempts after a success, replaying the recorded changes gives the stored keys, and no run is a baseline again |
| `ScanHistory.StepKeepsSuccess` | backend/app/data/repository.py:609-616 | no attempt loses the last successful run |
| `ScanHistory.PrunedKeeps` | backend/app/data/repository.py:689-699 | pruning keeps the newest max(keep, 1) runs, the latest success, and at most one run more than the limit |
| `ScanHistory.StoredIsPresent` | backend/app/data/repository.py:527-604 | the stored keys are those the attempts so far leave present |
| `ScanHistory.DateCarried` | backend/app/data/repository.py:562-566 | a row is dated by the attempt that found its key new, or carries the date of a stored row of its key |
| `ScanHistory.FirstSeenIsStart` | backend/app/data/repository.py:555-590 | a stored finding's first-seen date is the time of the attempt that began its current unbroken presence |
| `ScanHistory.RowsAgree` | backend/app/data/repository.py:562-590 | all stored rows of one key agree on that date |
| `IntelFeeds.Feed.Refresh` | backend/app/services/enrichment.py:355-452 | one feed's refresh: failure, unconfigured, empty download, unchanged download, replacement |
| `IntelFeeds.Feed.Replace` | backend/app/data/repository.py:892-930 | the catalogue is replaced wholesale |
| `IntelFeeds.Feed.RecordSuccess` | backend/app/data/repository.py:951-989 | what a success writes to the feed's row |
| `IntelFeeds.Intel.Enrich` | backend/app/services/enrichment.py:546-591 | a new list of enriched copies, in order |
| `IntelFeeds.Intel.ReapplyToStored` | backend/app/services/enrichment.py:593-673 | stored findings rewritten in place and the number that changed, with the two early exits |
| `IntelFeeds.Intel.RenewRows` | backend/app/services/enrichment.py:630-669 | rows that differ are rewritten and marked pending, the others are left |
| `IntelFeeds.Intel.RefreshFeedsAndReapply` | backend/app/services/enrichment.py:783-853 | refresh and reapply, with demo mode and the short-circuit |
| `IntelFeeds.Intel.SaveScan` | backend/app/scanner/engine.py:350 | a scan's findings are enriched from the caches before they are stored |
| `IntelFeeds.SkipIsRewrite` | backend/app/services/enrichment.py:454-499 | after a successful download the catalogue, its digest and its count are those of the download, whether the rewrite was skipped or not |
| `IntelFeeds.OutageKeepsCatalogue` | backend/app/services/enrichment.py:511-530 | a download that brought nothing leaves everything of a feed but its status |
| `IntelFeeds.SameDigestSameTable` | backend/app/services/enrichment.py:92-108 | catalogues with one digest are equal, whatever the order of the records |
| `IntelFeeds.AlwaysCurrent` | backend/app/services/enrichment.py:593-673 | over every run of scans and refreshes the digests describe the catalogues and every finding with an id is a fixed point of reapplying |
| `IntelFeeds.SaysWhatTheCatalogueSays` | backend/app/services/enrichment.py:609-618 | a stored finding with an id says exactly whether the catalogue held lists it |
| `IntelFeeds.CarriesItsRecords` | backend/app/services/enrichment.py:546-591 | a stored finding with an id carries the due date of its listing, and the score and the percentile of its score record |
| `IntelFeeds.FoundInEitherCase` | backend/app/services/enrichment.py:567-575 | a record is found under its id in either case |
| `IntelFeeds.SignalsKept` | backend/app/services/enrichment.py:603-618 | a pass takes no signal away: without a usable catalogue the listing fields stay, and a score stays where none is held for the finding |
| `IntelFeeds.ReappliedCounts` | backend/app/services/enrichment.py:630-673 | the number a pass reports is how many findings it changed, and those are pending again |
| `IntelFeeds.SkippingIsReapplying` | backend/app/services/enrichment.py:838-843 | skipping the pass when every feed is unchanged equals making it, findings and count, exactly when no finding without an id was overlooked |
| `IntelFeeds.SkippingIsReapplyingNamed` | backend/app/services/enrichment.py:838-843 | it always does when every scanned finding has an id |
| `IntelFeeds.OverlookedWithoutId` | backend/app/services/enrichment.py:632-634 | a run in which a finding without an id is overlooked |
| `IntelFeeds.OutageKeepsKev` | backend/app/services/enrichment.py:603-608 | a failed KEV download leaves the catalogue as it was, and the exploitation fields of every finding, except that a finding without an id that was never checked may be filled in as not listed; exactly when is stated |
| `HostKeys.KeyStore.Pin` | backend/app/api/wiring.py:110-151 | pinning, and what the loser of a race is told |
| `HostKeys.KeyStore.PinHostKey` | backend/app/data/repository.py:1332-1362 | a pin is written only where there is none |
| `HostKeys.KeyStore.ForgetHostKey` | backend/app/data/repository.py:1371-1378 | a pin is removed, and whether there was one |
| `HostKeys.KeyStore.ConnectPinned` | backend/app/scanner/host_keys.py:121-185 | one connection alone: what it sends, how it ends and what it pins |
| `HostKeys.UndisturbedConnects` | backend/app/scanner/host_keys.py:121-185 | the interleaved steps, undisturbed, do what the method does |
| `HostKeys.StepKeepsPin` | backend/app/data/repository.py:1332-1378 | in every step a pin changes only through forgetting it |
| `HostKeys.PinsLast` | backend/app/data/repository.py:1332-1378 | over every interleaving a pin stays until its address is forgotten |
| `HostKeys.PinsWereTrusted` | backend/app/scanner/host_keys.py:160-185 | over every interleaving a pin is the key a host presented to a connection that trusts first keys and that then logged in |
| `HostKeys.CredentialsSentProperly` | backend/app/scanner/host_keys.py:110-118 | over every interleaving credentials went only to a host whose key matched the pin read, or when none was and the policy is tofu; never without a store |
| `HostKeys.SameKey` | backend/app/api/wiring.py:110-151 | two connections to one address that returned normally presented the same key unless it was forgotten between their checks |
| `HostKeys.SameKeySinceBegun` | backend/app/api/wiring.py:110-151 | in particular when it was not forgotten since the earlier one began |
| `HostKeys.AlwaysSound` | backend/app/scanner/host_keys.py:141-185 | the invariant of every connection in every interleaving |
| `HostKeys.AlwaysEndsProperly` | backend/app/scanner/host_keys.py:141-185 | over every interleaving, how connections end as mismatched or unknown |
| `HostKeys.AddressesTold` | backend/app/data/repository.py:96-98 | pins are kept apart by port, and by name but for case and the space around it |
| `Throttle.LoginThrottle.RetryAfter` | backend/app/auth/throttle.py:58-73 | the longer of the two waits, rounded as the code rounds |
| `Throttle.LoginThrottle.RecordFailure` | backend/app/auth/throttle.py:75-80 | stale keys forgotten, then both keys failed |
| `Throttle.LoginThrottle.Fail` | backend/app/auth/throttle.py:82-89 | one more failure, and a lock for the doubling delay past the free ones |
| `Throttle.LoginThrottle.ForgetStale` | backend/app/auth/throttle.py:100-107 | exactly the stale keys are deleted |
| `Throttle.LoginThrottle.RecordSuccess` | backend/app/auth/throttle.py:91-94 | both keys are removed |
| `Throttle.LoginThrottle.Reset` | backend/app/auth/throttle.py:96-98 | every key is forgotten |
| `Throttle.AdmittedExactly` | backend/app/auth/throttle.py:58-73 | an attempt is let through exactly when no key has 0.001 s or more to wait |
| `Throttle.SuccessClears` | backend/app/auth/throttle.py:91-94 | a success clears both keys of the attempt and no other; nothing is left to wait |
| `Throttle.EntryExactly` | backend/app/auth/throttle.py:75-107 | over every run without a success of its own, a key's entry is told exactly by its failures: their number since it was last left alone for more than an hour, no lock before the last free one, then the delay due |
| `Throttle.FreeFailuresDoNotLock` | backend/app/auth/throttle.py:82-89 | fewer than 5 failures of an account, or 20 of an address, lock nobody out |
| `Throttle.DelayDoubles` | backend/app/auth/throttle.py:86-88 | delays double from 30 s up to 900 s |
| `Throttle.WaitingSuffices` | backend/app/auth/throttle.py:58-73 | waiting the seconds told always suffices |
| `Throttle.WaitingCountsDown` | backend/app/auth/throttle.py:58-73 | passing time takes exactly itself off the answer |
| `Throttle.FailuresSpaced` | backend/app/auth/throttle.py:75-107 | in any run without a success of the key, consecutive failures past the free ones are spaced by the doubling delays, counting from where the key was last left alone for more than an hour |
| `Throttle.BackoffBound` | backend/app/auth/throttle.py:82-89 | from the last free failure of that streak to the k-th after it takes longer than the sum of min(900, 30·2^i) − 0.001 |
| `Throttle.StreakIsSuffix` | backend/app/auth/throttle.py:100-107 | the streak is the failures since the last gap of more than an hour |
| `Throttle.WindowStreak` | backend/app/auth/throttle.py:37 | within an hour the streak is all the failures |
| `Throttle.DelaysInAnHour` | backend/app/auth/throttle.py:34-37 | seven delays fit in the hour and eight do not |
| `Throttle.FailuresPerHour` | backend/app/auth/throttle.py:30-37 | in any 3600 s without a success, at most 12 failures of an account and 27 of an address are admitted |
| `RateLimiter.Limiter.TryAcquire` | backend/app/scanner/nvd_client.py:84-95 | one turn of the loop: granted exactly when fewer than the limit lie in the window, and the stored list is the grant history restricted to it |
| `RateLimiter.Limiter.Acquire` | backend/app/scanner/nvd_client.py:84-96 | a lone caller is granted after at most one sleep, no longer than the window or 0.05 s |
| `RateLimiter.GrantPaced` | backend/app/scanner/nvd_client.py:84-96 | a grant keeps any limit + 1 consecutive grants at least a window apart |
| `RateLimiter.RecentAgain` | backend/app/scanner/nvd_client.py:89-91 | pruning what was pruned before is pruning the whole history |
| `RateLimiter.RecentIsSuffix` | backend/app/scanner/nvd_client.py:89-91 | pruning an ascending history cuts off a front of it |
| `RateLimiter.SleepFrees` | backend/app/scanner/nvd_client.py:95-96 | sleeping as computed leaves room for one more |
| `Sessions.AuthService.StartSession` | backend/app/auth/service.py:231-244 | the row a sign-in adds |
| `Sessions.AuthService.EndSession` | backend/app/auth/service.py:246-249 | signing out deletes exactly that session |
| `Sessions.AuthService.ResolveSession` | backend/app/auth/service.py:251-266 | who a token resolves to, and what is touched or deleted |
| `Sessions.AuthService.SetPassword` | backend/app/auth/service.py:162-172 | which sessions a new password ends |
| `Sessions.AuthService.ResetPassword` | backend/app/auth/service.py:147-160 | a reset ends the account's sessions and every API token, and counts the tokens |
| `Sessions.AuthService.RevokeAllApiTokens` | backend/app/auth/service.py:302-308 | every live token is revoked, and how many there were |
| `Sessions.AuthService.ResolveApiToken` | backend/app/auth/service.py:310-319 | accepted exactly when issued and not revoked, and when its use is written |
| `Sessions.RunTracks` | backend/app/auth/service.py:251-266 | over every run the stored last use trails real use by less than the touch interval |
| `Sessions.RefusedInTheEnd` | backend/app/auth/service.py:29-35 | a session is refused from 30 days on and after any 7 days without use |
| `Sessions.RefusedForEver` | backend/app/auth/service.py:251-266 | once refused, refused for ever |
| `Sessions.SteadyUseIsAccepted` | backend/app/auth/service.py:29-35 | it is accepted before 30 days whenever every gap is under 7 days less 5 minutes |
| `Sessions.ResetEndsEveryWayIn` | backend/app/auth/service.py:147-160 | after a reset no earlier session of the account and no earlier API token is ever accepted |
| `Sessions.SignedOutForEver` | backend/app/auth/service.py:246-249 | a session signed out is never accepted again |
| `Sessions.RemovedForEver` | backend/app/auth/service.py:251-266 | nor is one of an account that was removed |
| `Sessions.TokenUseWritten` | backend/app/auth/service.py:310-319 | the stored use of an accepted API token trails the real one by less than five minutes |

## Left out

- Text is ASCII: Python's `isdigit`, `isalpha`, `lower` and `strip` go wider.
- `release_display_name` (releases.py 191-227) is a parameter of `FixNotes.FixNote`, as is the set of ecosystems asked about a host.
- `advisory_source`, `is_kernel_image` (package_identifier.py 174-186, 319-334) are parameters of `SourceQueries.Plan`.
- `is_kernel_package` is modelled for a name alone, as `finding_package` calls it.
- A download is taken to hold one record per CVE, which both feed clients ensure, and an upstream kernel entry to have parseable bounds, which its reader ensures.
- The SHA-256 digest is taken as injective: it is the multiset of normalized records.
- Merging.BracketingFree: ties between equally early fixes may keep different identifiers, so equal findings are not promised, only an equal rating and an equally early fix.
- Merging.WorstRatingEarliestFix: says nothing about which fix is kept when a group mixes version orderings; the choice then follows the tie-break, as in the code.
- ScanHistory.MachineHistory.RecordScanRun: whether the sources answered and the error text of a failed run are not stored.
- ScanHistory.MachineHistory.Attempt: the machine row written beside the run is not modelled, nor what the scan read on the machine.
- HostKeys.KeyStore.Pin: the write of last use and the savepoint around the insert are not modelled.
- Sessions.AuthService.SetPassword: says which sessions end; the password policy and the stored hash are not modelled.
- SourceQueries.OncePerSource: for records and representatives whose identifiers can be read back (`Canonical`): names and versions without spaces and opening parentheses, no colon in a name and no "@" in a version.
- The clock that dates scan runs: where a run is listed among the others is an input of each attempt.
- HostKeys: a key is compared by its blob; `last_seen_at`, savepoints and a commit that fails for another reason than the race are not modelled.
- IntelFeeds: feeds other than KEV and EPSS only say whether they changed; staleness only warns and is not modelled; kernel findings that are counted rather than listed are not among a scan's inputs; enrichment does not raise and a refresh is not interrupted between its commits.
- Login attempts are one at a time: attempts racing between the wait being asked for and the failure being recorded are not modelled.
- Sessions: password hashing, the password policy, setup codes and token generation; tokens are taken as fresh and unique.
- The advisory cache, thread pools, the memory of tracked releases and the release filter of the OSV client.
- CVSS vectors, XML, JSON and archive reading, and HTTP, SSH, WinRM and SQL code.
- Jobs, schedules, synchronisation, the routes, configuration, the demo seed and the frontend.
