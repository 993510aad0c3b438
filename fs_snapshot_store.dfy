/** Bookkeeping of pre-snapshot ids (Yast2::FsSnapshotStore): the id of a
    pre snapshot is written to a small record file per purpose, so that the
    matching post snapshot can be made later.

    The target system's files, reached through the SCR agents, are a map
    from path to text plus a set of directories, held by a TargetFs object.
    The installation stage, whether SCR runs chrooted, and the installation
    destination directory are an Env value; whether the underlying write
    succeeds is an input of Save. */
module FsSnapshotStore {
  import opened Wrappers

  const StorePath: string := "/var/lib/YaST2"
  const RecordPrefix: string := "pre_snapshot_"
  const RecordSuffix: string := ".id"

  /** Stage.initial, WFM.scr_chrooted? and Installation.destdir. */
  datatype Env = Env(initialStage: bool, scrChrooted: bool, destdir: string)

  // ---------------------------------------------------------------------
  // Paths
  // ---------------------------------------------------------------------

  /** s without its trailing run of '/'. */
  function StripTrailingSlashes(s: string): (r: string)
    ensures |r| <= |s| && r == s[..|r|]
    ensures |r| == 0 || r[|r| - 1] != '/'
    ensures forall i :: |r| <= i < |s| ==> s[i] == '/'
  {
    if |s| > 0 && s[|s| - 1] == '/' then StripTrailingSlashes(s[..|s| - 1]) else s
  }

  /** File.join of two parts: when b starts with '/', the trailing '/'s of
      a are dropped; otherwise one '/' is put between them unless a already
      ends with one (an empty a counts as not ending with one). */
  function JoinPath(a: string, b: string): (r: string)
    // b is kept whole at the end, after a prefix of a + "/"
    ensures |r| >= |b| && r[|r| - |b|..] == b
    ensures r[..|r| - |b|] <= a + "/"
    // unless b starts with '/', all of a is kept, trailing '/'s included,
    // and a '/' is put in only when a does not already end with one
    ensures (|b| == 0 || b[0] != '/') ==> |r| - |b| >= |a| && |r| > |b| && r[|r| - |b| - 1] == '/'
    ensures (|b| == 0 || b[0] != '/') && |a| > 0 && a[|a| - 1] == '/' ==> r[..|r| - |b|] == a
    // when b starts with '/', a's trailing '/'s give way to it
    ensures |b| > 0 && b[0] == '/' ==>
      (|r| == |b| || r[|r| - |b| - 1] != '/') && forall i :: |r| - |b| <= i < |a| ==> a[i] == '/'
  {
    if |b| > 0 && b[0] == '/' then StripTrailingSlashes(a) + b
    else if |a| > 0 && a[|a| - 1] == '/' then a + b
    else a + "/" + b
  }

  /** snapshot_store_path: /var/lib/YaST2 of the running system when not in
      the initial stage and SCR is chrooted; otherwise that directory below
      the installation destination. */
  function SnapshotStorePath(env: Env): (r: string)
    ensures !env.initialStage && env.scrChrooted ==> r == StorePath
    ensures env.initialStage || !env.scrChrooted ==> r == StripTrailingSlashes(env.destdir) + StorePath
    ensures |r| > 0 && r[|r| - 1] != '/'
  {
    if !(env.initialStage || !env.scrChrooted) then StorePath
    else JoinPath(env.destdir, StorePath)
  }

  /** snapshot_path: the record of a purpose, pre_snapshot_<purpose>.id in
      the store directory. */
  function SnapshotPath(env: Env, purpose: string): (r: string)
    ensures r == SnapshotStorePath(env) + "/" + RecordPrefix + purpose + RecordSuffix
  {
    JoinPath(SnapshotStorePath(env), RecordPrefix + purpose + RecordSuffix)
  }

  /** Different purposes have different records, and no record is the store
      directory itself. */
  lemma {:induction false} SnapshotPathInjective(env: Env, p: string, q: string)
    ensures SnapshotPath(env, p) == SnapshotPath(env, q) ==> p == q
    ensures SnapshotPath(env, p) != SnapshotStorePath(env)
  {
    var dir := SnapshotStorePath(env) + "/" + RecordPrefix;
    var a, b := SnapshotPath(env, p), SnapshotPath(env, q);
    assert a == dir + p + RecordSuffix;
    assert b == dir + q + RecordSuffix;
    if a == b {
      assert |p| == |q|;
      assert p == a[|dir|..|dir| + |p|];
      assert q == b[|dir|..|dir| + |q|];
    }
    assert |a| > |SnapshotStorePath(env)|;
  }

  // ---------------------------------------------------------------------
  // Integer text: Integer#to_s and String#to_i
  // ---------------------------------------------------------------------

  predicate IsDigit(c: char) {
    '0' <= c <= '9'
  }

  predicate AllDigits(s: string) {
    forall i :: 0 <= i < |s| ==> IsDigit(s[i])
  }

  function DigitChar(d: nat): (c: char)
    requires d < 10
    ensures IsDigit(c) && c as int - '0' as int == d
  {
    ('0' as int + d) as char
  }

  /** Integer#to_s for a non-negative integer: decimal, no leading zero. */
  function NatToString(n: nat): (r: string)
    ensures |r| > 0 && AllDigits(r)
    ensures |r| > 1 ==> r[0] != '0'
  {
    if n < 10 then [DigitChar(n)] else NatToString(n / 10) + [DigitChar(n % 10)]
  }

  /** Integer#to_s: a '-' before the digits of a negative integer. */
  function IntToString(n: int): (r: string)
    ensures n >= 0 ==> |r| > 0 && AllDigits(r)
    ensures n < 0 ==> |r| > 1 && r[0] == '-' && AllDigits(r[1..])
  {
    if n < 0 then "-" + NatToString(-n) else NatToString(n)
  }

  /** The value of a string of decimal digits. */
  function DecimalValue(ds: string): nat
    requires AllDigits(ds)
  {
    if |ds| == 0 then 0
    else DecimalValue(ds[..|ds| - 1]) * 10 + (ds[|ds| - 1] as int - '0' as int)
  }

  /** The white space String#to_i skips: space, tab, line feed, vertical
      tab, form feed and carriage return. */
  predicate IsSpace(c: char) {
    c == ' ' || c == '\t' || c == '\n' || c == '\r' || c as int == 11 || c as int == 12
  }

  function SkipSpaces(s: string): (r: string)
    ensures |r| <= |s| && r == s[|s| - |r|..]
    ensures |r| == 0 || !IsSpace(r[0])
    ensures forall i :: 0 <= i < |s| - |r| ==> IsSpace(s[i])
  {
    if |s| > 0 && IsSpace(s[0]) then SkipSpaces(s[1..]) else s
  }

  /** The digits of the longest prefix of s that String#to_i reads as a
      number: digits, where a single '_' may stand between two digits. */
  function LeadingDigits(s: string): (r: string)
    ensures AllDigits(r) && |r| <= |s|
    ensures |s| > 0 && IsDigit(s[0]) ==> |r| > 0 && r[0] == s[0]
    ensures |s| == 0 || !IsDigit(s[0]) ==> r == []
  {
    if |s| == 0 || !IsDigit(s[0]) then []
    else if |s| >= 3 && s[1] == '_' && IsDigit(s[2]) then [s[0]] + LeadingDigits(s[2..])
    else [s[0]] + LeadingDigits(s[1..])
  }

  /** String#to_i: white space, an optional sign, then the number; 0 when
      no digit follows. */
  function ToI(s: string): (r: int)
    ensures r < 0 ==> |SkipSpaces(s)| > 0 && SkipSpaces(s)[0] == '-'
    ensures AllDigits(s) ==> r == DecimalValue(s)
  {
    var t := SkipSpaces(s);
    assert AllDigits(s) ==> t == s by {
      if AllDigits(s) && |s| > 0 {
        assert !IsSpace(s[0]);
      }
    }
    LeadingDigitsOfDigitsIf(t);
    if |t| > 0 && t[0] == '-' then -(DecimalValue(LeadingDigits(t[1..])) as int)
    else if |t| > 0 && t[0] == '+' then DecimalValue(LeadingDigits(t[1..]))
    else DecimalValue(LeadingDigits(t))
  }

  lemma {:induction false} DecimalValueOfNatToString(n: nat)
    ensures DecimalValue(NatToString(n)) == n
  {
    if n >= 10 {
      var s := NatToString(n / 10);
      var c := DigitChar(n % 10);
      assert (s + [c])[..|s|] == s;
      DecimalValueOfNatToString(n / 10);
    }
  }

  lemma {:induction false} LeadingDigitsOfDigits(s: string)
    requires AllDigits(s)
    ensures LeadingDigits(s) == s
  {
    if |s| > 0 {
      LeadingDigitsOfDigits(s[1..]);
    }
  }

  lemma {:induction false} LeadingDigitsOfDigitsIf(s: string)
    ensures AllDigits(s) ==> LeadingDigits(s) == s
  {
    if AllDigits(s) {
      LeadingDigitsOfDigits(s);
    }
  }

  lemma {:induction false} ToIOfNatToString(n: nat)
    ensures ToI(NatToString(n)) == n
  {
    assert ToI(NatToString(n)) == DecimalValue(NatToString(n));
    DecimalValueOfNatToString(n);
  }

  /** Reading back what Integer#to_s wrote gives the same integer. */
  lemma {:induction false} ToIOfIntToString(n: int)
    ensures ToI(IntToString(n)) == n
  {
    if n < 0 {
      var ds := NatToString(-n);
      var s := "-" + ds;
      assert SkipSpaces(s) == s;
      assert s[1..] == ds;
      LeadingDigitsOfDigits(ds);
      DecimalValueOfNatToString(-n);
    } else {
      ToIOfNatToString(n);
    }
  }

  // ---------------------------------------------------------------------
  // The record check of load
  // ---------------------------------------------------------------------

  /** s[i..j] is a whole line (bounded by line breaks or the ends of s) made
      of one or more digits. */
  predicate IsDigitLine(s: string, i: int, j: int) {
    0 <= i < j <= |s| && (i == 0 || s[i - 1] == '\n') && (j == |s| || s[j] == '\n') &&
    forall k :: i <= k < j ==> IsDigit(s[k])
  }

  /** content =~ /^\d+$/, where ^ and $ are Ruby's line anchors. */
  predicate HasDigitLine(s: string): (r: bool)
    ensures '\n' !in s ==> (r <==> |s| > 0 && AllDigits(s))
  {
    assert '\n' !in s && |s| > 0 && AllDigits(s) ==> IsDigitLine(s, 0, |s|);
    exists i, j | 0 <= i < j <= |s| :: IsDigitLine(s, i, j)
  }

  /** Position of the first line break of s. */
  function FirstBreak(s: string): (k: nat)
    requires '\n' in s
    ensures k < |s| && s[k] == '\n'
    ensures forall j :: 0 <= j < k ==> s[j] != '\n'
  {
    if s[0] == '\n' then 0 else 1 + FirstBreak(s[1..])
  }

  /** The lines of s, s.split("\n", -1): the texts between line breaks,
      the empty text after a final line break included. Unlike split, the
      empty text has one empty line; an empty line is never a line of
      digits, so the check below is not affected. */
  function Lines(s: string): seq<string>
    decreases |s|
  {
    if '\n' !in s then [s]
    else
      var k := FirstBreak(s);
      [s[..k]] + Lines(s[k + 1..])
  }

  /** The lines of a text with a line break: its first line, then the
      lines after that break. */
  lemma {:induction false} LinesCons(s: string)
    requires '\n' in s
    ensures Lines(s) == [s[..FirstBreak(s)]] + Lines(s[FirstBreak(s) + 1..])
  {
  }

  /** Some line of s is a non-empty run of digits. */
  predicate SomeDigitLine(s: string) {
    exists l :: l in Lines(s) && |l| > 0 && AllDigits(l)
  }

  /** A digit line of the text after the first line break is a digit line
      of the whole text, shifted past that break, and back. */
  lemma {:induction false} DigitLineShift(s: string, i: int, j: int)
    requires '\n' in s && 0 <= i
    ensures IsDigitLine(s[FirstBreak(s) + 1..], i, j) <==>
      IsDigitLine(s, i + FirstBreak(s) + 1, j + FirstBreak(s) + 1)
  {
    var d := FirstBreak(s) + 1;
    var t := s[d..];
    assert forall m :: 0 <= m < |t| ==> t[m] == s[m + d];
    if IsDigitLine(s, i + d, j + d) {
      assert j <= |t|;
      forall m | i <= m < j ensures IsDigit(t[m]) {
        assert IsDigit(s[m + d]);
      }
    }
  }

  /** A digit line that ends by the first line break is the first line. */
  lemma {:induction false} DigitLineIsFirst(s: string, i: int, j: int)
    requires '\n' in s && IsDigitLine(s, i, j) && j <= FirstBreak(s)
    ensures i == 0 && j == FirstBreak(s) && AllDigits(s[..j])
  {
  }

  /** A digit line that ends after the first line break lies wholly after it. */
  lemma {:induction false} DigitLineIsLater(s: string, i: int, j: int)
    requires '\n' in s && IsDigitLine(s, i, j) && j > FirstBreak(s)
    ensures i > FirstBreak(s)
    ensures IsDigitLine(s[FirstBreak(s) + 1..], i - FirstBreak(s) - 1, j - FirstBreak(s) - 1)
  {
    var k := FirstBreak(s);
    DigitLineShift(s, i - k - 1, j - k - 1);
  }

  /** A first line of digits is a line of digits of the text. */
  lemma {:induction false} FirstLineInLines(s: string)
    requires '\n' in s && FirstBreak(s) > 0 && AllDigits(s[..FirstBreak(s)])
    ensures SomeDigitLine(s)
  {
    LinesCons(s);
    assert s[..FirstBreak(s)] in Lines(s);
  }

  /** A line of digits after the first line break is one of the text. */
  lemma {:induction false} LaterLineInLines(s: string)
    requires '\n' in s && SomeDigitLine(s[FirstBreak(s) + 1..])
    ensures SomeDigitLine(s)
  {
    LinesCons(s);
    var l :| l in Lines(s[FirstBreak(s) + 1..]) && |l| > 0 && AllDigits(l);
    assert l in Lines(s);
  }

  lemma {:induction false} DigitLineInSomeLine(s: string)
    requires HasDigitLine(s)
    ensures SomeDigitLine(s)
    decreases |s|
  {
    var i, j :| 0 <= i < j <= |s| && IsDigitLine(s, i, j);
    if '\n' in s {
      var k := FirstBreak(s);
      if j <= k {
        DigitLineIsFirst(s, i, j);
        FirstLineInLines(s);
      } else {
        DigitLineIsLater(s, i, j);
        var t := s[k + 1..];
        assert HasDigitLine(t);
        DigitLineInSomeLine(t);
        LaterLineInLines(s);
      }
    } else {
      assert s in Lines(s);
    }
  }

  /** A first line of digits is a digit line. */
  lemma {:induction false} FirstLineIsDigitLine(s: string)
    requires '\n' in s && FirstBreak(s) > 0 && AllDigits(s[..FirstBreak(s)])
    ensures HasDigitLine(s)
  {
    var k := FirstBreak(s);
    assert forall m :: 0 <= m < k ==> s[m] == s[..k][m];
    assert IsDigitLine(s, 0, k);
  }

  /** A digit line after the first line break is a digit line of the whole. */
  lemma {:induction false} LaterLineIsDigitLine(s: string)
    requires '\n' in s && HasDigitLine(s[FirstBreak(s) + 1..])
    ensures HasDigitLine(s)
  {
    var t := s[FirstBreak(s) + 1..];
    var i, j :| 0 <= i < j <= |t| && IsDigitLine(t, i, j);
    DigitLineShift(s, i, j);
  }

  lemma {:induction false} SomeLineIsDigitLine(s: string)
    requires SomeDigitLine(s)
    ensures HasDigitLine(s)
    decreases |s|
  {
    var l :| l in Lines(s) && |l| > 0 && AllDigits(l);
    if '\n' in s {
      var k := FirstBreak(s);
      var t := s[k + 1..];
      LinesCons(s);
      if l == s[..k] {
        FirstLineIsDigitLine(s);
      } else {
        assert l in Lines(t);
        SomeLineIsDigitLine(t);
        LaterLineIsDigitLine(s);
      }
    } else {
      assert l == s;
      assert IsDigitLine(s, 0, |s|);
    }
  }

  /** /^\d+$/ with line anchors matches exactly when some line of the text
      is a non-empty run of digits. */
  lemma HasDigitLineByLines(s: string)
    ensures HasDigitLine(s) <==> SomeDigitLine(s)
  {
    if HasDigitLine(s) {
      DigitLineInSomeLine(s);
    }
    if SomeDigitLine(s) {
      SomeLineIsDigitLine(s);
    }
  }

  function ReadError(purpose: string): string {
    "Failed to read Pre Snapshot id for " + purpose + " from store. See logs."
  }

  function WriteError(purpose: string): string {
    "Failed to write Pre Snapshot id for " + purpose + " to store. See logs."
  }

  /** load's check and conversion of what the read returned: an error when
      nothing was read or no line is a run of digits, else content.to_i. A
      one-line text loads exactly when it is a run of digits, as its value. */
  function ParseId(purpose: string, content: Option<string>): (r: Result<int, string>)
    ensures content.None? ==> r == Failure(ReadError(purpose))
    ensures r.Failure? ==> r.error == ReadError(purpose)
    ensures content.Some? ==> (r.Success? <==> SomeDigitLine(content.value))
    ensures r.Success? ==> content.Some? && r.value == ToI(content.value)
    ensures content.Some? && '\n' !in content.value ==>
      (r.Success? <==> |content.value| > 0 && AllDigits(content.value))
    ensures content.Some? && '\n' !in content.value && r.Success? ==>
      r.value == DecimalValue(content.value)
  {
    HasDigitLineByLines(content.GetOr(""));
    if content.None? || !HasDigitLine(content.value) then Failure(ReadError(purpose))
    else Success(ToI(content.value))
  }

  /** to_i stops reading digits at the first character that is neither a
      digit nor an '_' between two digits. */
  lemma {:induction false} LeadingDigitsStops(ds: string, t: string)
    requires AllDigits(ds)
    requires |t| == 0 || (!IsDigit(t[0]) && t[0] != '_')
    ensures LeadingDigits(ds + t) == ds
  {
    if |ds| == 0 {
      assert ds + t == t;
    } else {
      assert (ds + t)[0] == ds[0];
      assert (ds + t)[1..] == ds[1..] + t;
      if |ds| == 1 {
        assert ds[1..] + t == t;
      }
      LeadingDigitsStops(ds[1..], t);
    }
  }

  /** A record whose first line is a run of digits loads as that number,
      whatever follows the line break ("42\n" loads as 42). */
  lemma {:induction false} FirstLineLoads(purpose: string, l: string, rest: string)
    requires |l| > 0 && AllDigits(l)
    ensures ParseId(purpose, Some(l + "\n" + rest)) == Success(DecimalValue(l))
  {
    var s := l + "\n" + rest;
    assert s == l + ("\n" + rest);
    assert forall k :: 0 <= k < |l| ==> s[k] == l[k];
    assert IsDigitLine(s, 0, |l|);
    assert !IsSpace(s[0]);
    assert SkipSpaces(s) == s;
    LeadingDigitsStops(l, "\n" + rest);
  }

  /** The text save writes for a non-negative id passes load's check and
      reads back as that id. */
  lemma {:induction false} ParseIdRoundTrip(purpose: string, n: nat)
    ensures ParseId(purpose, Some(IntToString(n))) == Success(n)
  {
    var s := IntToString(n);
    assert IsDigitLine(s, 0, |s|);
    ToIOfIntToString(n);
  }

  /** The text save writes for a negative id ("-5") has no line of digits
      only, so load rejects it. */
  lemma {:induction false} ParseIdRejectsNegative(purpose: string, n: int)
    requires n < 0
    ensures ParseId(purpose, Some(IntToString(n))) == Failure(ReadError(purpose))
  {
    var s := IntToString(n);
    var ds := NatToString(-n);
    assert s == "-" + ds;
    assert forall k :: 1 <= k < |s| ==> s[k] == ds[k - 1];
    assert forall k :: 0 <= k < |s| ==> s[k] != '\n';
    assert !IsDigit(s[0]);
  }

  /** The check accepts any line of digits while to_i reads from the start
      of the text, so "x\n7" loads as 0. */
  lemma ParseIdReadsFromStart()
    ensures ParseId("upgrade", Some("x\n7")) == Success(0)
  {
    var s := "x\n7";
    assert IsDigitLine(s, 2, 3);
    assert !IsSpace(s[0]) && !IsDigit(s[0]);
    assert SkipSpaces(s) == s;
    assert LeadingDigits(s) == [];
    assert ToI(s) == 0;
  }

  // ---------------------------------------------------------------------
  // The store
  // ---------------------------------------------------------------------

  /** What load returns for a file system with these records. */
  function LoadFrom(files: map<string, string>, env: Env, purpose: string): (r: Result<int, string>)
    ensures SnapshotPath(env, purpose) !in files ==> r == Failure(ReadError(purpose))
    ensures r.Failure? ==> r.error == ReadError(purpose)
    ensures SnapshotPath(env, purpose) in files ==>
      (r.Success? <==> SomeDigitLine(files[SnapshotPath(env, purpose)]))
    ensures r.Success? ==> (SnapshotPath(env, purpose) in files &&
      r.value == ToI(files[SnapshotPath(env, purpose)]))
    ensures SnapshotPath(env, purpose) in files && '\n' !in files[SnapshotPath(env, purpose)] ==>
      var text := files[SnapshotPath(env, purpose)];
      r == if |text| > 0 && AllDigits(text) then Success(DecimalValue(text)) else Failure(ReadError(purpose))
  {
    var path := SnapshotPath(env, purpose);
    ParseId(purpose, if path in files then Some(files[path]) else None)
  }

  /** The directories after ensure_snapshot_store_path: the store directory
      is created unless something already exists at its path. */
  function EnsuredDirs(files: map<string, string>, dirs: set<string>, env: Env): (r: set<string>)
    ensures SnapshotStorePath(env) in r || SnapshotStorePath(env) in files
    ensures dirs <= r && r <= dirs + {SnapshotStorePath(env)}
    ensures r == dirs <==> SnapshotStorePath(env) in files || SnapshotStorePath(env) in dirs
  {
    var store := SnapshotStorePath(env);
    if store in files || store in dirs then dirs else dirs + {store}
  }

  /** Ensuring the store directory twice is ensuring it once. */
  lemma EnsuredDirsIdempotent(files: map<string, string>, dirs: set<string>, env: Env)
    ensures EnsuredDirs(files, EnsuredDirs(files, dirs, env), env) == EnsuredDirs(files, dirs, env)
  {
  }

  /** Saving a non-negative id, then loading, gives the id back. */
  lemma {:induction false} SaveThenLoad(files: map<string, string>, env: Env, purpose: string, n: nat)
    ensures LoadFrom(files[SnapshotPath(env, purpose) := IntToString(n)], env, purpose) == Success(n)
  {
    ParseIdRoundTrip(purpose, n);
  }

  /** Writing or removing the record of one purpose leaves what load returns
      for every other purpose as it was. */
  lemma {:induction false} OtherPurposesUnchanged(files: map<string, string>, env: Env, p: string, q: string, text: string)
    requires p != q
    ensures LoadFrom(files[SnapshotPath(env, p) := text], env, q) == LoadFrom(files, env, q)
    ensures LoadFrom(files - {SnapshotPath(env, p)}, env, q) == LoadFrom(files, env, q)
  {
    SnapshotPathInjective(env, p, q);
  }

  /** After clean, load of that purpose fails. */
  lemma {:induction false} CleanThenLoadFails(files: map<string, string>, env: Env, purpose: string)
    ensures LoadFrom(files - {SnapshotPath(env, purpose)}, env, purpose) == Failure(ReadError(purpose))
  {
  }

  /** The target file system, as the SCR agents see it. */
  class TargetFs {
    var files: map<string, string>
    var dirs: set<string>

    constructor (files: map<string, string>, dirs: set<string>)
      ensures this.files == files && this.dirs == dirs
    {
      this.files := files;
      this.dirs := dirs;
    }

    /** FileUtils.Exists: a file or a directory is at path. */
    predicate Exists(path: string)
      reads this
    {
      path in files || path in dirs
    }

    /** ensure_snapshot_store_path: makes the store directory when nothing
        exists at its path; calling it again changes nothing. */
    method EnsureSnapshotStorePath(env: Env)
      modifies this`dirs
      ensures dirs == EnsuredDirs(files, old(dirs), env)
      ensures Exists(SnapshotStorePath(env))
      ensures files == old(files)
    {
      var store := SnapshotStorePath(env);
      if Exists(store) {
        return;
      }
      dirs := dirs + {store};
    }

    /** save: ensures the store directory, then writes id.to_s to the
        purpose's record; fails, with nothing written, when the write does. */
    method Save(purpose: string, snapshotId: int, env: Env, writeSucceeds: bool) returns (r: Outcome<string>)
      modifies this
      ensures dirs == EnsuredDirs(old(files), old(dirs), env)
      ensures files == if writeSucceeds
                       then old(files)[SnapshotPath(env, purpose) := IntToString(snapshotId)]
                       else old(files)
      ensures r == if writeSucceeds then Pass else Fail(WriteError(purpose))
    {
      EnsureSnapshotStorePath(env);
      if writeSucceeds {
        files := files[SnapshotPath(env, purpose) := IntToString(snapshotId)];
        r := Pass;
      } else {
        r := Fail(WriteError(purpose));
      }
    }

    /** load: reads the purpose's record and checks it. */
    method Load(purpose: string, env: Env) returns (r: Result<int, string>)
      ensures r == LoadFrom(files, env, purpose)
      ensures r.Success? ==> SnapshotPath(env, purpose) in files
    {
      var path := SnapshotPath(env, purpose);
      var content := if path in files then Some(files[path]) else None;
      r := ParseId(purpose, content);
    }

    /** clean: removes the purpose's record and nothing else. */
    method Clean(purpose: string, env: Env)
      modifies this`files
      ensures files == old(files) - {SnapshotPath(env, purpose)}
    {
      files := files - {SnapshotPath(env, purpose)};
    }
  }
}
