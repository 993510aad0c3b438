/** The license of a product shipped as an RPM product package
    (Y2Packager::LicensesFetchers::Rpm).

    The package itself, its extraction into a temporary directory and the
    reading of its files are replaced by a value: the extracted files in the
    order the directory walk of Dir.glob reports them, each with its text.
    The libzypp queries (resolvable properties of the product, newest version
    of a package) are inputs of the fetcher object. */
module LicensesRpm {
  import opened Wrappers
  import Seqs

  /** A file of the extracted package: its path below the extraction
      directory and its text. */
  datatype Entry = Entry(path: string, text: string)

  /** The newest version of the product package, by name, with its files. */
  datatype ProductPackage = ProductPackage(name: string, files: seq<Entry>)

  /** One resolvable-property record; a key bound to nil maps to None. */
  type Properties = map<string, Option<string>>

  const FallbackLicenseFile: string := "LICENSE.TXT"
  const ProductPackageKey: string := "product_package"

  // ---------------------------------------------------------------------
  // Case-insensitive glob matching (File::FNM_CASEFOLD, ASCII letters)
  // ---------------------------------------------------------------------

  function Lower(c: char): char {
    if 'A' <= c <= 'Z' then (c as int + 32) as char else c
  }

  predicate EqualsIgnoreCase(a: string, b: string) {
    |a| == |b| && forall i :: 0 <= i < |a| ==> Lower(a[i]) == Lower(b[i])
  }

  /** The last component of a path: the longest suffix without a '/'. */
  function Basename(path: string): (r: string)
    ensures |r| <= |path| && r == path[|path| - |r|..]
    ensures '/' !in r
    ensures |r| < |path| ==> path[|path| - |r| - 1] == '/'
  {
    if |path| == 0 || path[|path| - 1] == '/' then []
    else Basename(path[..|path| - 1]) + [path[|path| - 1]]
  }

  /** The recursive glob for a name without wildcards reports a file at any
      depth below the extraction directory whose base name equals name,
      ignoring case. */
  predicate GlobMatches(e: Entry, name: string) {
    EqualsIgnoreCase(Basename(e.path), name)
  }

  predicate AnyMatch(files: seq<Entry>, name: string) {
    exists i :: 0 <= i < |files| && GlobMatches(files[i], name)
  }

  ghost predicate IsFirstMatch(files: seq<Entry>, name: string, i: int) {
    0 <= i < |files| && GlobMatches(files[i], name) &&
    forall j :: 0 <= j < i ==> !GlobMatches(files[j], name)
  }

  /** find_path_for: the first file the glob reports for name, nil when none. */
  function FindPathFor(files: seq<Entry>, name: string): (r: Option<Entry>)
    ensures r.None? <==> !AnyMatch(files, name)
    ensures r.Some? ==> exists i :: IsFirstMatch(files, name, i) && files[i] == r.value
  {
    match Seqs.FirstIndex(files, (e: Entry) => GlobMatches(e, name))
    case None => None
    case Some(i) =>
      assert IsFirstMatch(files, name, i);
      Some(files[i])
  }

  // ---------------------------------------------------------------------
  // Language candidates and the lookup order
  // ---------------------------------------------------------------------

  /** The text before the first '_' (all of s when it has none). */
  function BeforeUnderscore(s: string): (r: string)
    ensures |r| <= |s| && r == s[..|r|]
    ensures '_' !in r
    ensures |r| < |s| ==> s[|r|] == '_'
  {
    if |s| == 0 || s[0] == '_' then [] else [s[0]] + BeforeUnderscore(s[1..])
  }

  /** license_path's candidate list [lang, lang.split("_", 2).first].uniq.
      Ruby splits the empty string into no field at all, so its first field
      is nil. */
  function CandidateLangs(lang: string): (r: seq<Option<string>>)
    ensures 1 <= |r| <= 2 && r[0] == Some(lang)
    ensures Seqs.NoDuplicates(r)
    ensures '_' in lang ==> r == [Some(lang), Some(BeforeUnderscore(lang))]
    ensures lang != [] && '_' !in lang ==> r == [Some(lang)]
    ensures lang == [] ==> r == [Some(lang), None]
  {
    var first := if lang == [] then None else Some(BeforeUnderscore(lang));
    Seqs.DedupPair(Some(lang), first);
    assert lang != [] && '_' !in lang ==> BeforeUnderscore(lang) == lang;
    Seqs.Dedup([Some(lang), first])
  }

  /** The alternative LICENSE.<code>.TXT of the brace pattern; a nil code
      is joined as the empty text. */
  function LicenseFileName(code: Option<string>): string {
    "LICENSE." + code.GetOr("") + ".TXT"
  }

  /** The alternatives of the brace pattern, one per candidate, in order. */
  function LicenseFileNames(codes: seq<Option<string>>): seq<string> {
    seq(|codes|, k requires 0 <= k < |codes| => LicenseFileName(codes[k]))
  }

  /** names[k] is the first of names that some file matches. */
  ghost predicate IsFirstMatchingName(files: seq<Entry>, names: seq<string>, k: int) {
    0 <= k < |names| && AnyMatch(files, names[k]) &&
    forall m :: 0 <= m < k ==> !AnyMatch(files, names[m])
  }

  /** The glob over a brace pattern {n1,n2,...}, read as the documented
      fallback order of license_path: the alternatives are taken in order,
      and the first file reported is the first match of the first
      alternative that has one. */
  function FindFirstOf(files: seq<Entry>, names: seq<string>): (r: Option<Entry>)
    ensures r.None? <==> forall k :: 0 <= k < |names| ==> !AnyMatch(files, names[k])
    ensures r.Some? ==> exists k :: IsFirstMatchingName(files, names, k) && r == FindPathFor(files, names[k])
  {
    match Seqs.FirstIndex(names, (n: string) => AnyMatch(files, n))
    case None => None
    case Some(k) =>
      assert IsFirstMatchingName(files, names, k);
      FindPathFor(files, names[k])
  }

  /** A file for some language candidate of lang exists. */
  predicate HasLanguageFile(files: seq<Entry>, lang: string) {
    exists c :: c in CandidateLangs(lang) && AnyMatch(files, LicenseFileName(c))
  }

  /** The brace glob over the alternatives of some codes finds nothing
      exactly when no code's file exists, and otherwise a file of one of
      them. */
  lemma {:induction false} FirstOfCodes(files: seq<Entry>, codes: seq<Option<string>>)
    ensures FindFirstOf(files, LicenseFileNames(codes)).None? <==>
      forall c :: c in codes ==> !AnyMatch(files, LicenseFileName(c))
    ensures FindFirstOf(files, LicenseFileNames(codes)).Some? ==>
      (FindFirstOf(files, LicenseFileNames(codes)).value in files &&
       exists c :: c in codes && GlobMatches(FindFirstOf(files, LicenseFileNames(codes)).value, LicenseFileName(c)))
  {
    var names := LicenseFileNames(codes);
    var r := FindFirstOf(files, names);
    assert forall k :: 0 <= k < |names| ==> names[k] == LicenseFileName(codes[k]);
    if c :| c in codes && AnyMatch(files, LicenseFileName(c)) {
      var k :| 0 <= k < |codes| && codes[k] == c;
      assert AnyMatch(files, names[k]);
    }
    if r.Some? {
      var k :| IsFirstMatchingName(files, names, k) && r == FindPathFor(files, names[k]);
      var i :| IsFirstMatch(files, names[k], i) && files[i] == r.value;
      assert codes[k] in codes && GlobMatches(r.value, LicenseFileName(codes[k]));
    }
  }

  /** license_path: the first LICENSE.<candidate>.TXT file, in candidate order. */
  function LicensePath(files: seq<Entry>, lang: string): (r: Option<Entry>)
    ensures r.None? <==> !HasLanguageFile(files, lang)
    ensures r.Some? ==> (r.value in files &&
      exists c :: c in CandidateLangs(lang) && GlobMatches(r.value, LicenseFileName(c)))
  {
    FirstOfCodes(files, CandidateLangs(lang));
    FindFirstOf(files, LicenseFileNames(CandidateLangs(lang)))
  }

  /** fallback_path: the first LICENSE.TXT file, nil when there is none. */
  function FallbackPath(files: seq<Entry>): (r: Option<Entry>)
    ensures r.None? <==> !AnyMatch(files, FallbackLicenseFile)
    ensures r.Some? ==> r.value in files && GlobMatches(r.value, FallbackLicenseFile)
    ensures r.Some? ==> exists i :: IsFirstMatch(files, FallbackLicenseFile, i) && files[i] == r.value
  {
    FindPathFor(files, FallbackLicenseFile)
  }

  /** license_content_for: the text of the language file, else of the
      fallback file, else nil. A license is found exactly when a language
      file or LICENSE.TXT exists, and a language file wins. */
  function LicenseContentFor(files: seq<Entry>, lang: string): (r: Option<string>)
    ensures r.Some? <==> HasLanguageFile(files, lang) || AnyMatch(files, FallbackLicenseFile)
    ensures HasLanguageFile(files, lang) ==> r == Some(LicensePath(files, lang).value.text)
    ensures !HasLanguageFile(files, lang) ==>
      r == if AnyMatch(files, FallbackLicenseFile) then Some(FallbackPath(files).value.text) else None
  {
    var file := match LicensePath(files, lang)
                case Some(e) => Some(e)
                case None => FallbackPath(files);
    match file
    case None => None
    case Some(e) => Some(e.text)
  }

  /** The exact language comes first: when LICENSE.<lang>.TXT exists its
      first match is the license, whatever else the package holds. */
  lemma {:induction false} ExactLanguageFirst(files: seq<Entry>, lang: string)
    requires AnyMatch(files, LicenseFileName(Some(lang)))
    ensures LicenseContentFor(files, lang) ==
      Some(FindPathFor(files, LicenseFileName(Some(lang))).value.text)
  {
    var names := LicenseFileNames(CandidateLangs(lang));
    assert names[0] == LicenseFileName(Some(lang));
  }

  /** "xx_XX" falls back to "xx": without LICENSE.<lang>.TXT, the first
      LICENSE.<prefix>.TXT is the license. */
  lemma {:induction false} PrefixLanguageSecond(files: seq<Entry>, lang: string)
    requires '_' in lang
    requires !AnyMatch(files, LicenseFileName(Some(lang)))
    requires AnyMatch(files, LicenseFileName(Some(BeforeUnderscore(lang))))
    ensures LicenseContentFor(files, lang) ==
      Some(FindPathFor(files, LicenseFileName(Some(BeforeUnderscore(lang)))).value.text)
  {
    var names := LicenseFileNames(CandidateLangs(lang));
    assert names == [LicenseFileName(Some(lang)), LicenseFileName(Some(BeforeUnderscore(lang)))];
    SecondNameWins(files, names);
  }

  lemma {:induction false} SecondNameWins(files: seq<Entry>, names: seq<string>)
    requires |names| == 2 && !AnyMatch(files, names[0]) && AnyMatch(files, names[1])
    ensures FindFirstOf(files, names) == FindPathFor(files, names[1])
  {
    var r := FindFirstOf(files, names);
    assert AnyMatch(files, names[1]);
    var k :| IsFirstMatchingName(files, names, k) && r == FindPathFor(files, names[k]);
    assert k != 0;
  }

  /** "de_DE_x" is split at its first '_' only. */
  lemma {:induction false} CandidateLangsSplitOnce()
    ensures CandidateLangs("de_DE_x") == [Some("de_DE_x"), Some("de")]
  {
    assert "de_DE_x"[2] == '_';
    assert BeforeUnderscore("_DE_x") == [];
    assert BeforeUnderscore("e_DE_x") == "e";
    assert BeforeUnderscore("de_DE_x") == "de";
  }

  // ---------------------------------------------------------------------
  // Locale codes of the translated license files
  // ---------------------------------------------------------------------

  predicate IsWordChar(c: char) {
    ('a' <= c <= 'z') || ('A' <= c <= 'Z') || ('0' <= c <= '9') || c == '_'
  }

  /** The base name matches the glob LICENSE.*.TXT, ignoring case. */
  predicate IsTranslatedLicenseName(b: string) {
    |b| >= 12 && EqualsIgnoreCase(b[..8], "LICENSE.") && EqualsIgnoreCase(b[|b| - 4..], ".TXT")
  }

  /** The group captured by /LICENSE.(\w*).TXT/i on a file the glob
      reported: the text between "LICENSE." and ".TXT", in its own case,
      when it is made of word characters; nil otherwise. A captured code
      names the file it came from: the lookup for that code finds it. */
  function Capture(b: string): (r: Option<string>)
    requires IsTranslatedLicenseName(b)
    ensures r.Some? ==> (EqualsIgnoreCase(b, LicenseFileName(r)) &&
      forall i :: 0 <= i < |r.value| ==> IsWordChar(r.value[i]))
    // the code is returned as it stands in the name, case included
    ensures r.Some? ==> b == b[..8] + r.value + b[|b| - 4..]
    ensures r.None? ==> exists i :: 8 <= i < |b| - 4 && !IsWordChar(b[i])
  {
    var middle := b[8..|b| - 4];
    if forall i :: 0 <= i < |middle| ==> IsWordChar(middle[i]) then Some(middle) else None
  }

  /** The code captured from a file the recursive glob for LICENSE.*.TXT
      reports; nil for every other file. */
  function CodeOf(e: Entry): Option<string> {
    var b := Basename(e.path);
    if IsTranslatedLicenseName(b) then Capture(b) else None
  }

  predicate IsTranslatedLicense(e: Entry) {
    IsTranslatedLicenseName(Basename(e.path))
  }

  /** The files the recursive glob for LICENSE.*.TXT reports, in order. */
  function TranslatedLicenseFiles(files: seq<Entry>): seq<Entry> {
    Seqs.Filter(files, IsTranslatedLicense)
  }

  /** license_files.map { capture }: one capture, possibly nil, per file. */
  function Captures(files: seq<Entry>): seq<Option<string>> {
    var found := TranslatedLicenseFiles(files);
    seq(|found|, k requires 0 <= k < |found| => CodeOf(found[k]))
  }

  /** Captures pairs each reported file with its code. */
  lemma CapturesShape(files: seq<Entry>)
    ensures |Captures(files)| == |TranslatedLicenseFiles(files)|
    ensures forall k :: 0 <= k < |Captures(files)| ==>
      Captures(files)[k] == CodeOf(TranslatedLicenseFiles(files)[k]) && TranslatedLicenseFiles(files)[k] in files
    ensures forall i :: 0 <= i < |files| && CodeOf(files[i]).Some? ==> files[i] in TranslatedLicenseFiles(files)
  {
  }

  /** The non-nil captures are exactly the codes of the package's files. */
  lemma {:induction false} CapturesAreCodes(files: seq<Entry>, x: string)
    ensures Some(x) in Captures(files) <==> exists e :: e in files && CodeOf(e) == Some(x)
  {
    var found := TranslatedLicenseFiles(files);
    var caps := Captures(files);
    CapturesShape(files);
    if Some(x) in caps {
      var k :| 0 <= k < |caps| && caps[k] == Some(x);
      assert found[k] in files && CodeOf(found[k]) == Some(x);
    }
    if exists e :: e in files && CodeOf(e) == Some(x) {
      var e :| e in files && CodeOf(e) == Some(x);
      var i :| 0 <= i < |files| && files[i] == e;
      assert e in found;
      var k :| 0 <= k < |found| && found[k] == e;
      assert caps[k] == Some(x);
    }
  }

  /** languages << DEFAULT_LANG, then compact. */
  function LanguageCodes(files: seq<Entry>, defaultLang: string): seq<string> {
    Seqs.Compact(Captures(files) + [Some(defaultLang)])
  }

  /** The locale list: the language codes with duplicates removed. */
  function LocalesOf(files: seq<Entry>, defaultLang: string): (r: seq<string>)
    ensures defaultLang in r && Seqs.NoDuplicates(r)
  {
    var caps := Captures(files) + [Some(defaultLang)];
    assert caps[|caps| - 1] == Some(defaultLang);
    Seqs.Dedup(LanguageCodes(files, defaultLang))
  }

  /** The locale list holds DEFAULT_LANG and exactly the captured codes,
      once each, in the order of their first appearance. */
  lemma {:induction false} LocalesProperties(files: seq<Entry>, defaultLang: string)
    ensures defaultLang in LocalesOf(files, defaultLang)
    ensures Seqs.NoDuplicates(LocalesOf(files, defaultLang))
    ensures forall x :: x in LocalesOf(files, defaultLang) <==>
      x == defaultLang || exists e :: e in files && CodeOf(e) == Some(x)
    ensures Seqs.InFirstOccurrenceOrder(LanguageCodes(files, defaultLang), LocalesOf(files, defaultLang))
  {
    var caps := Captures(files) + [Some(defaultLang)];
    var codes := LanguageCodes(files, defaultLang);
    var r := LocalesOf(files, defaultLang);
    assert caps[|caps| - 1] == Some(defaultLang);
    assert defaultLang in codes;
    forall x
      ensures x in r <==> x == defaultLang || exists e :: e in files && CodeOf(e) == Some(x)
    {
      CapturesAreCodes(files, x);
      assert x in r <==> x in codes;
      assert x in codes <==> Some(x) in caps by {
        if Some(x) in caps {
          var k :| 0 <= k < |caps| && caps[k] == Some(x);
          assert caps[k].value in codes;
        }
      }
      assert Some(x) in caps <==> Some(x) in Captures(files) || x == defaultLang;
    }
    Seqs.DedupKeepsFirstOccurrenceOrder(codes);
  }

  /** A file named LICENSE..TXT contributes the empty code: compact drops
      only nil. */
  lemma {:induction false} EmptyCodeKept(files: seq<Entry>, defaultLang: string, i: nat)
    requires i < |files| && Basename(files[i].path) == "LICENSE..TXT"
    ensures "" in LocalesOf(files, defaultLang)
  {
    assert files[i] in files && CodeOf(files[i]) == Some("");
    LocalesProperties(files, defaultLang);
  }

  /** Every locale besides the default one has a license: the file its code
      was captured from is found by the lookup for that code. */
  lemma {:induction false} LocaleHasLicense(files: seq<Entry>, defaultLang: string, code: string)
    ensures code in LocalesOf(files, defaultLang) && code != defaultLang ==>
      HasLanguageFile(files, code) && LicenseContentFor(files, code).Some?
  {
    if code !in LocalesOf(files, defaultLang) || code == defaultLang {
      return;
    }
    LocalesProperties(files, defaultLang);
    var e :| e in files && CodeOf(e) == Some(code);
    var b := Basename(e.path);
    assert IsTranslatedLicenseName(b) && Capture(b) == Some(code);
    assert GlobMatches(e, LicenseFileName(Some(code)));
    var i :| 0 <= i < |files| && files[i] == e;
    assert AnyMatch(files, LicenseFileName(Some(code)));
    assert Some(code) in CandidateLangs(code);
  }

  // ---------------------------------------------------------------------
  // The product package
  // ---------------------------------------------------------------------

  ghost predicate IsFirstWithKey(props: seq<Properties>, i: int) {
    0 <= i < |props| && ProductPackageKey in props[i] &&
    forall j :: 0 <= j < i ==> ProductPackageKey !in props[j]
  }

  /** package_name: the product_package value of the first record holding
      that key; nil when no record holds it (or it is bound to nil). */
  function PackageNameOf(props: seq<Properties>): (r: Option<string>)
    ensures forall i :: IsFirstWithKey(props, i) ==> r == props[i][ProductPackageKey]
    ensures (forall i :: 0 <= i < |props| ==> ProductPackageKey !in props[i]) ==> r.None?
  {
    match Seqs.FirstIndex(props, (p: Properties) => ProductPackageKey in p)
    case None => None
    case Some(i) => props[i][ProductPackageKey]
  }

  /** package: the newest version of the package named by the first record
      holding product_package; nil when no record names one or when no
      version of it is known. */
  function PackageOf(props: seq<Properties>, lastVersion: map<string, seq<Entry>>): (r: Option<ProductPackage>)
    ensures r.Some? <==>
      exists i :: IsFirstWithKey(props, i) && props[i][ProductPackageKey].Some? &&
                  props[i][ProductPackageKey].value in lastVersion
    ensures forall i :: IsFirstWithKey(props, i) && props[i][ProductPackageKey].Some? ==>
      var n := props[i][ProductPackageKey].value;
      r == if n in lastVersion then Some(ProductPackage(n, lastVersion[n])) else None
  {
    match PackageNameOf(props)
    case None => None
    case Some(n) => if n in lastVersion then Some(ProductPackage(n, lastVersion[n])) else None
  }

  // ---------------------------------------------------------------------
  // The fetcher object and its memoized fields
  // ---------------------------------------------------------------------

  class RpmFetcher {
    /** What the package manager reports as the product's resolvable properties. */
    const properties: seq<Properties>
    /** Package name to the files of its newest version. */
    const lastVersion: map<string, seq<Entry>>
    /** DEFAULT_LANG, inherited. */
    const defaultLang: string
    /** The inherited default-language content; None when unset. */
    const defaultContent: Option<string>

    /** @package_name, @package and @locales. */
    var packageNameCache: Option<string>
    var packageCache: Option<ProductPackage>
    var localesCache: Option<seq<string>>

    /** Every cache that is set holds what computing afresh would give. */
    ghost predicate Valid()
      reads this
    {
      (packageNameCache.Some? ==> packageNameCache == PackageNameOf(properties)) &&
      (packageCache.Some? ==> packageCache == PackageOf(properties, lastVersion)) &&
      (localesCache.Some? ==>
        PackageOf(properties, lastVersion).Some? &&
        localesCache.value == LocalesOf(PackageOf(properties, lastVersion).value.files, defaultLang))
    }

    constructor (properties: seq<Properties>, lastVersion: map<string, seq<Entry>>,
                 defaultLang: string, defaultContent: Option<string>)
      ensures Valid()
      ensures this.properties == properties && this.lastVersion == lastVersion
      ensures this.defaultLang == defaultLang && this.defaultContent == defaultContent
      ensures packageNameCache.None? && packageCache.None? && localesCache.None?
    {
      this.properties := properties;
      this.lastVersion := lastVersion;
      this.defaultLang := defaultLang;
      this.defaultContent := defaultContent;
      packageNameCache := None;
      packageCache := None;
      localesCache := None;
    }

    /** Returns the cached name when set; otherwise looks it up and stores
        the answer, nil included. */
    method PackageName() returns (r: Option<string>)
      requires Valid()
      modifies this`packageNameCache
      ensures Valid()
      ensures r == PackageNameOf(properties)
      ensures old(packageNameCache).Some? ==> r == old(packageNameCache)
      ensures packageNameCache == r
    {
      if packageNameCache.Some? {
        return packageNameCache;
      }
      var found := Seqs.FirstIndex(properties, (p: Properties) => ProductPackageKey in p);
      var record: Properties := if found.Some? then properties[found.value] else map[];
      r := if ProductPackageKey in record then record[ProductPackageKey] else None;
      packageNameCache := r;
    }

    /** nil without a package name; otherwise the cached package, or the
        newest version, which is cached when it exists. */
    method Package() returns (r: Option<ProductPackage>)
      requires Valid()
      modifies this`packageNameCache, this`packageCache
      ensures Valid()
      ensures r == PackageOf(properties, lastVersion)
      ensures packageNameCache == PackageNameOf(properties)
      ensures packageCache == if old(packageCache).Some? then old(packageCache) else r
    {
      var name := PackageName();
      if name.None? {
        return None;
      }
      if packageCache.None? {
        packageCache := if name.value in lastVersion
                        then Some(ProductPackage(name.value, lastVersion[name.value]))
                        else None;
      }
      r := packageCache;
    }

    /** [] without a package; otherwise the memoized locale list. */
    method Locales() returns (r: seq<string>)
      requires Valid()
      modifies this`packageNameCache, this`packageCache, this`localesCache
      ensures Valid()
      ensures PackageOf(properties, lastVersion).None? ==> r == [] && localesCache == old(localesCache)
      ensures PackageOf(properties, lastVersion).Some? ==>
        r == LocalesOf(PackageOf(properties, lastVersion).value.files, defaultLang) &&
        localesCache == Some(r)
      ensures old(localesCache).Some? ==> r == old(localesCache).value
      ensures packageNameCache == PackageNameOf(properties)
      ensures packageCache == if old(packageCache).Some? then old(packageCache) else PackageOf(properties, lastVersion)
    {
      var pkg := Package();
      if pkg.None? {
        return [];
      }
      if localesCache.None? {
        localesCache := Some(LocalesOf(pkg.value.files, defaultLang));
      }
      r := localesCache.value;
    }

    /** The license text for lang: the inherited default content for the
        default language when it is set; nil without a package; otherwise
        the language / fallback lookup in the package. */
    method Content(lang: string) returns (r: Option<string>)
      requires Valid()
      modifies this`packageNameCache, this`packageCache
      ensures Valid()
      ensures lang == defaultLang && defaultContent.Some? ==>
        r == defaultContent && packageNameCache == old(packageNameCache) && packageCache == old(packageCache)
      ensures !(lang == defaultLang && defaultContent.Some?) ==>
        r == match PackageOf(properties, lastVersion)
             case None => None
             case Some(p) => LicenseContentFor(p.files, lang)
      ensures !(lang == defaultLang && defaultContent.Some?) ==>
        packageNameCache == PackageNameOf(properties) &&
        packageCache == if old(packageCache).Some? then old(packageCache) else PackageOf(properties, lastVersion)
    {
      if lang == defaultLang && defaultContent.Some? {
        return defaultContent;
      }
      var pkg := Package();
      if pkg.None? {
        return None;
      }
      r := LicenseContentFor(pkg.value.files, lang);
    }
  }
}
