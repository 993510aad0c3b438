# License lookup and pre-snapshot id store, modelled in Dafny

This project models two pieces of the YaST library.

- `Y2Packager::LicensesFetchers::Rpm` finds the license of a product inside its RPM product
  package. The package name comes from the first resolvable-property record with a
  `product_package` key. The license for a language `xx_XX` is `LICENSE.xx_XX.TXT`,
  then `LICENSE.xx.TXT`, then `LICENSE.TXT`. The available locales are the codes of the
  `LICENSE.<code>.TXT` files plus the default language. The package name, the package
  and the locale list are memoized in the fetcher object.
- `Yast2::FsSnapshotStore` keeps the id of a pre snapshot per purpose in the record
  `<store dir>/pre_snapshot_<purpose>.id`. `save` writes `id.to_s`, `load` checks the
  text and converts it with `to_i`, and `clean` removes the record.

Files:

- `wrappers.dfy`: `Option` (Ruby's nil), `Result` and `Outcome` (a raised RuntimeError).
- `seqs.dfy`: the Ruby collection operations the lookup relies on. `FirstIndex` is
  `find` / `first`, `Compact` is `compact` and `Dedup` is `uniq`.
- `licenses_rpm.dfy`: the lookup rules as functions, and the class `RpmFetcher`, whose
  methods keep the three caches.
- `fs_snapshot_store.dfy`: paths, `Integer#to_s`, `String#to_i` and the record check as
  functions, and the class `TargetFs`. It holds the target file system as a map from path
  to text plus a set of directories, and its methods are `save`, `load`, `clean` and
  `ensure_snapshot_store_path`.

The extracted package is a sequence of files. Each file has its path below the extraction
directory and its text. The sequence is in the order in which `Dir.glob` walks the tree.
The package manager's answers are inputs of the fetcher: the resolvable-property records
and a map from package name to the files of its newest version. The SCR environment is an
`Env` value made of the installation stage, the chroot flag and the destination directory.
Whether the underlying write succeeds is an input of `Save`.

## Model

| member | source | states |
|---|---|---|
| `Seqs.FirstIndex` | library/packages/src/lib/y2packager/licenses_fetchers/rpm.rb:153 | the index of the first element satisfying the predicate; None exactly when no element satisfies it |
| `Seqs.Filter` | library/packages/src/lib/y2packager/licenses_fetchers/rpm.rb:53 | the files the glob reports: only matching elements, and every matching element |
| `Seqs.FilterAppend` | library/packages/src/lib/y2packager/licenses_fetchers/rpm.rb:53 | filtering a concatenation is filtering each part, so the reported files keep the walk order and repetitions |
| `Seqs.Compact` | library/packages/src/lib/y2packager/licenses_fetchers/rpm.rb:58 | the result holds exactly the values of the non-nil entries |
| `Seqs.CompactAppend` | library/packages/src/lib/y2packager/licenses_fetchers/rpm.rb:58 | compacting a concatenation is compacting each part, so `compact` keeps the order and repetitions of the non-nil values |
| `Seqs.Dedup` | library/packages/src/lib/y2packager/licenses_fetchers/rpm.rb:58 | `uniq` has no duplicates and holds exactly the input's elements |
| `Seqs.DedupKeepsFirstOccurrenceOrder` | library/packages/src/lib/y2packager/licenses_fetchers/rpm.rb:58 | `uniq` lists its elements in the order of their first occurrence in the input |
| `Seqs.DedupHead` | library/packages/src/lib/y2packager/licenses_fetchers/rpm.rb:102-104 | the first element of a non-empty list stays first after `uniq` |
| `Seqs.DedupPair` | library/packages/src/lib/y2packager/licenses_fetchers/rpm.rb:103-104 | `uniq` of two elements gives one when they are equal and both otherwise |
| `LicensesRpm.Basename` | library/packages/src/lib/y2packager/licenses_fetchers/rpm.rb:134 | the base name that the recursive glob matches is the longest suffix without '/' |
| `LicensesRpm.FindPathFor` | library/packages/src/lib/y2packager/licenses_fetchers/rpm.rb:133-135 | `find_path_for` gives nil exactly when no file matches, ignoring case; otherwise the first matching file |
| `LicensesRpm.BeforeUnderscore` | library/packages/src/lib/y2packager/licenses_fetchers/rpm.rb:103 | the first field of `split("_", 2)` is the longest prefix without '_', ending where the first '_' stands |
| `LicensesRpm.CandidateLangs` | library/packages/src/lib/y2packager/licenses_fetchers/rpm.rb:101-104 | the candidates start with `lang` and have no duplicates; with '_' they are `lang` then the prefix; without '_' just `lang`; the empty language also gets nil, because `"".split("_", 2).first` is nil |
| `LicensesRpm.CandidateLangsSplitOnce` | library/packages/src/lib/y2packager/licenses_fetchers/rpm.rb:103 | `de_DE_x` gives the candidates `de_DE_x` and `de`, because the split has a limit of 2 |
| `LicensesRpm.FindFirstOf` | library/packages/src/lib/y2packager/licenses_fetchers/rpm.rb:93-108 | the glob over the brace pattern gives nil exactly when no alternative matches; otherwise, reading the alternatives in the documented fallback order from `xx_XX` to `xx`, the first match of the first alternative that has one |
| `LicensesRpm.SecondNameWins` | library/packages/src/lib/y2packager/licenses_fetchers/rpm.rb:108 | when the first alternative has no match and the second has one, the glob gives the second's first match |
| `LicensesRpm.FirstOfCodes` | library/packages/src/lib/y2packager/licenses_fetchers/rpm.rb:108 | the glob over `LICENSE.{c1,c2}.TXT` gives nil exactly when no candidate's file exists; otherwise a file, of the package, that matches one candidate's name |
| `LicensesRpm.LicensePath` | library/packages/src/lib/y2packager/licenses_fetchers/rpm.rb:101-109 | `license_path` is nil exactly when no candidate language has a file; otherwise it is a file of the package named `LICENSE.<candidate>.TXT`, ignoring case |
| `LicensesRpm.FallbackPath` | library/packages/src/lib/y2packager/licenses_fetchers/rpm.rb:121-125 | `fallback_path` is nil exactly when no `LICENSE.TXT` exists; otherwise it is the first file the glob reports with that name, ignoring case |
| `LicensesRpm.LicenseContentFor` | library/packages/src/lib/y2packager/licenses_fetchers/rpm.rb:77-91 | a license is found exactly when a language file or `LICENSE.TXT` exists; a language file is preferred, `LICENSE.TXT` is the fallback, and otherwise the result is nil |
| `LicensesRpm.ExactLanguageFirst` | library/packages/src/lib/y2packager/licenses_fetchers/rpm.rb:101-108 | when `LICENSE.<lang>.TXT` exists, its first match is the license |
| `LicensesRpm.PrefixLanguageSecond` | library/packages/src/lib/y2packager/licenses_fetchers/rpm.rb:101-108 | `xx_XX` falls back to `xx`: without `LICENSE.xx_XX.TXT`, the first `LICENSE.xx.TXT` is the license |
| `LicensesRpm.Capture` | library/packages/src/lib/y2packager/licenses_fetchers/rpm.rb:56 | a captured code names the file it came from: the file's name is `LICENSE.<code>.TXT` ignoring case, and the code is made of word characters and is the text between `LICENSE.` and `.TXT` exactly as it stands, case included; without a capture some character between `LICENSE.` and `.TXT` is not a word character |
| `LicensesRpm.CapturesAreCodes` | library/packages/src/lib/y2packager/licenses_fetchers/rpm.rb:53-56 | the non-nil captures are exactly the codes of the package's `LICENSE.*.TXT` files |
| `LicensesRpm.LocalesOf` | library/packages/src/lib/y2packager/licenses_fetchers/rpm.rb:48-58 | the locale list contains the default language and has no duplicates |
| `LicensesRpm.LocalesProperties` | library/packages/src/lib/y2packager/licenses_fetchers/rpm.rb:53-58 | the locale list contains the default language, contains exactly the captured codes besides it, has no duplicates, and keeps each code at its first occurrence |
| `LicensesRpm.EmptyCodeKept` | library/packages/src/lib/y2packager/licenses_fetchers/rpm.rb:56-58 | a `LICENSE..TXT` file contributes the empty code, because `compact` drops only nil |
| `LicensesRpm.LocaleHasLicense` | library/packages/src/lib/y2packager/licenses_fetchers/rpm.rb:41-58 | every locale that `locales` lists, other than the default language, has a language file, so `license_content_for` finds a license for it |
| `LicensesRpm.PackageNameOf` | library/packages/src/lib/y2packager/licenses_fetchers/rpm.rb:152-156 | the name is the `product_package` value of the first record that has the key; nil when no record has it |
| `LicensesRpm.PackageOf` | library/packages/src/lib/y2packager/licenses_fetchers/rpm.rb:140-157 | the package is found exactly when the first record holding `product_package` names a package with a known newest version, and it is then that version; nil otherwise |
| `LicensesRpm.RpmFetcher.PackageName` | library/packages/src/lib/y2packager/licenses_fetchers/rpm.rb:149-157 | returns the cached name when one is set and looks it up otherwise; the answer, nil included, is stored |
| `LicensesRpm.RpmFetcher.Package` | library/packages/src/lib/y2packager/licenses_fetchers/rpm.rb:140-144 | nil without a name; a cached package is kept, and a newly found one is cached |
| `LicensesRpm.RpmFetcher.Locales` | library/packages/src/lib/y2packager/licenses_fetchers/rpm.rb:41-62 | `[]` without a package, and the locale cache is then untouched; otherwise the locale list, which is cached; once cached, later calls return the cached list; the name and package caches end as `package` leaves them |
| `LicensesRpm.RpmFetcher.Content` | library/packages/src/lib/y2packager/licenses_fetchers/rpm.rb:26-36 | the default content for the default language when it is set, without touching the caches; otherwise nil without a package, else the language/fallback lookup, and the name and package caches end as `package` leaves them |
| `FsSnapshotStore.StripTrailingSlashes` | library/system/src/lib/yast2/fs_snapshot_store.rb:74 | `File.join` drops the trailing '/'s of the destination directory: the longest prefix that does not end in '/' |
| `FsSnapshotStore.JoinPath` | library/system/src/lib/yast2/fs_snapshot_store.rb:74 | `File.join` keeps the second part whole at the end, after a prefix of the first part plus '/'; unless the second part starts with '/', all of the first part is kept, trailing '/'s included, and a '/' is put in only when the first part does not already end with one; a leading '/' of the second part replaces the first part's trailing '/'s |
| `FsSnapshotStore.SnapshotStorePath` | library/system/src/lib/yast2/fs_snapshot_store.rb:65-75 | exactly `/var/lib/YaST2` when not in the initial stage and SCR is chrooted; otherwise the destination directory (without trailing '/') followed by `/var/lib/YaST2` |
| `FsSnapshotStore.SnapshotPath` | library/system/src/lib/yast2/fs_snapshot_store.rb:79-81 | the record is the store directory, '/', and `pre_snapshot_<purpose>.id` |
| `FsSnapshotStore.SnapshotPathInjective` | library/system/src/lib/yast2/fs_snapshot_store.rb:79-81 | different purposes have different records, and no record is the store directory |
| `FsSnapshotStore.NatToString` | library/system/src/lib/yast2/fs_snapshot_store.rb:39 | `to_s` of a non-negative id is a non-empty run of digits without a leading zero |
| `FsSnapshotStore.IntToString` | library/system/src/lib/yast2/fs_snapshot_store.rb:39 | `to_s` of an id is a non-empty run of digits, with a '-' in front exactly when the id is negative |
| `FsSnapshotStore.LeadingDigits` | library/system/src/lib/yast2/fs_snapshot_store.rb:57 | `to_i` reads digits only, starts at the first digit and reads nothing when there is no leading digit |
| `FsSnapshotStore.ToI` | library/system/src/lib/yast2/fs_snapshot_store.rb:57 | `to_i` of a run of digits is its decimal value, and `to_i` is negative only when the text starts with '-' after its white space |
| `FsSnapshotStore.ToIOfNatToString` | library/system/src/lib/yast2/fs_snapshot_store.rb:39-57 | `to_i` of `to_s` gives back every non-negative integer |
| `FsSnapshotStore.ToIOfIntToString` | library/system/src/lib/yast2/fs_snapshot_store.rb:34-58 | `to_i` of `to_s` gives back every integer, negative ones included |
| `FsSnapshotStore.ParseId` | library/system/src/lib/yast2/fs_snapshot_store.rb:55-57 | `load` raises with the read error when nothing was read, and every failure carries that message; a text loads exactly when some line of it is a non-empty run of digits, and then as `to_i` of the whole text; a one-line text loads as its decimal value |
| `FsSnapshotStore.HasDigitLine` | library/system/src/lib/yast2/fs_snapshot_store.rb:55 | for a text without line breaks, `/^\d+$/` matches exactly when the text is a non-empty run of digits |
| `FsSnapshotStore.HasDigitLineByLines` | library/system/src/lib/yast2/fs_snapshot_store.rb:55 | `/^\d+$/` with Ruby's line anchors matches exactly when some line of the text, as `split("\n", -1)` gives them, is a non-empty run of digits |
| `FsSnapshotStore.LeadingDigitsStops` | library/system/src/lib/yast2/fs_snapshot_store.rb:57 | `to_i` reads a run of digits and stops at the first character that is neither a digit nor an `_` |
| `FsSnapshotStore.FirstLineLoads` | library/system/src/lib/yast2/fs_snapshot_store.rb:55-57 | a record whose first line is a run of digits passes the check and loads as that number, whatever follows the line break |
| `FsSnapshotStore.ParseIdRoundTrip` | library/system/src/lib/yast2/fs_snapshot_store.rb:34-58 | the text saved for a non-negative id passes the check and loads as that id |
| `FsSnapshotStore.ParseIdRejectsNegative` | library/system/src/lib/yast2/fs_snapshot_store.rb:39-55 | the text saved for a negative id fails the check, so `load` raises |
| `FsSnapshotStore.ParseIdReadsFromStart` | library/system/src/lib/yast2/fs_snapshot_store.rb:55-57 | because of the line anchors, `x\n7` passes the check, and `to_i` reads it from the start as 0 |
| `FsSnapshotStore.LoadFrom` | library/system/src/lib/yast2/fs_snapshot_store.rb:49-58 | `load` raises with the read error when the record does not exist; an existing record loads exactly when some line of it is a non-empty run of digits, and then as `to_i` of its text; a one-line record loads as its decimal value |
| `FsSnapshotStore.EnsuredDirs` | library/system/src/lib/yast2/fs_snapshot_store.rb:85-89 | afterwards something exists at the store path; at most the store directory is added, and the directories stay as they were exactly when a file or a directory already exists at that path |
| `FsSnapshotStore.EnsuredDirsIdempotent` | library/system/src/lib/yast2/fs_snapshot_store.rb:85-89 | ensuring the store directory twice is the same as ensuring it once |
| `FsSnapshotStore.SaveThenLoad` | library/system/src/lib/yast2/fs_snapshot_store.rb:34-58 | after saving a non-negative id, `load` returns it |
| `FsSnapshotStore.OtherPurposesUnchanged` | library/system/src/lib/yast2/fs_snapshot_store.rb:34-63 | writing or removing one purpose's record leaves `load` of every other purpose unchanged |
| `FsSnapshotStore.CleanThenLoadFails` | library/system/src/lib/yast2/fs_snapshot_store.rb:55-63 | after `clean`, `load` of that purpose raises |
| `FsSnapshotStore.TargetFs.EnsureSnapshotStorePath` | library/system/src/lib/yast2/fs_snapshot_store.rb:85-89 | creates the store directory only when nothing exists at its path, and leaves the files alone |
| `FsSnapshotStore.TargetFs.Save` | library/system/src/lib/yast2/fs_snapshot_store.rb:34-43 | ensures the store directory, then writes `id.to_s` to the record and changes nothing else; when the write fails it raises and nothing is written |
| `FsSnapshotStore.TargetFs.Load` | library/system/src/lib/yast2/fs_snapshot_store.rb:49-58 | the result is the check and conversion of the record's text; it succeeds only when the record exists |
| `FsSnapshotStore.TargetFs.Clean` | library/system/src/lib/yast2/fs_snapshot_store.rb:61-63 | removes the purpose's record and nothing else |

## Left out

- `CWM::Page` and `CWM::Pager` are outside the scope of this model; library/cwm/test/pager_test.rb only builds fixtures for them.
- `Y2Packager::LicensesFetchers.for` (licenses_fetchers.rb) is not modelled. It is a reflective constant lookup with no logic of its own.
- The temporary directory, the extraction of the package, `File.read` and the secure removal are not modelled. The extracted package is a list of files with their texts.
- Glob details are not modelled: the walk order (taken as the order of the file list), hidden directories, glob metacharacters inside the language code, and case folding beyond ASCII letters.
- LicensesRpm.FindFirstOf: the alternatives of the brace pattern are taken in order, as the documented fallback from `xx_XX` to `xx` describes. A glob that matches the brace segment during a single directory walk would report files in walk order across the alternatives; that order is not modelled.
- The locale capture is taken from the file's base name. A match that `/LICENSE.(\w*).TXT/i` would find elsewhere in the path is not modelled.
- LicensesRpm.Capture: gives nil for a base name whose text between `LICENSE.` and `.TXT` holds a non-word character, while the regex, whose `.` matches any character, can still capture from such a name: it captures `de` from `LICENSE.de.TXT.TXT` and from `LICENSE.de-TXT.TXT`. The model takes only the text between the first eight and the last four characters.
- A nil language passed to `content` is not modelled. The language is always a string.
- `DEFAULT_LANG`, `default_lang?` and `@default_content` come from the base class, which is not part of this model. They are inputs of the fetcher, and `default_lang?` is taken as equality with the default language. `product_name` is used only for the package query and for log messages, so the query's answer is an input instead.
- The package manager's answers are fixed for the lifetime of a fetcher. Resolvable-property values other than strings and nil are not modelled.
- Logging in both files is not modelled.
- The SCR agents, `FileUtils.Exists`, `Stage`, `WFM` and `Installation` are replaced by the `TargetFs` maps and the `Env` value. The outcome of the write is an input.
- FsSnapshotStore.TargetFs.EnsureSnapshotStorePath: the directory is always created. The source ignores the result of the mkdir agent, so a failed mkdir is not modelled.
- FsSnapshotStore.TargetFs.Clean: does not return the result of the remove agent, which the source passes back unchanged.
- FsSnapshotStore.LeadingDigits: the radix prefixes that `String#to_i` also accepts are not modelled. Only white space, a sign, and digits with single underscores between them are modelled.
