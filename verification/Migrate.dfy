/**
 The migration runner: numbered files applied in order, each recorded after it ran. Applying and
 recording are separate statements, so a run can stop between them; what any sequence of failing
 or crashing runs leaves behind is described here.
 */
module Migrate {
  import opened Decimal
  import opened Seqs
  import opened Wrappers

  datatype File = File(name: string, version: int, content: string)

  // ---- File names ----

  predicate HasSuffix(s: string, suffix: string) {
    |s| >= |suffix| && s[|s| - |suffix|..] == suffix
  }

  /** The text before the first underscore. */
  function Prefix(s: string): Option<string> {
    if s == "" then None
    else if s[0] == '_' then Some("")
    else
      match Prefix(s[1..])
      case None => None
      case Some(p) => Some([s[0]] + p)
  }

  /** strconv.Atoi: an optional sign, then digits, within 64 bits. */
  function Atoi(s: string): Option<int64> {
    var negative := s != "" && s[0] == '-';
    var digits := if s != "" && (s[0] == '-' || s[0] == '+') then s[1..] else s;
    if digits == "" || !AllDigits(digits) then None
    else
      var n: int := Numeral(digits);
      var value := if negative then -n else n;
      if -TWO63 <= value < TWO63 then Some(value) else None
  }

  function ParseVersion(filename: string): Option<int64> {
    match Prefix(filename)
    case None => None
    case Some(p) => Atoi(p)
  }

  function Zeros(k: nat): (s: string)
    ensures AllDigits(s)
  {
    if k == 0 then "" else ['0'] + Zeros(k - 1)
  }

  lemma {:induction false} LeadingZero(s: string)
    requires AllDigits(s)
    ensures AllDigits(['0'] + s) && Numeral(['0'] + s) == Numeral(s)
  {
    var t := ['0'] + s;
    if s == "" {
      assert t == ['0'] && t[..0] == "";
    } else {
      LeadingZero(s[..|s| - 1]);
      assert t[..|t| - 1] == ['0'] + s[..|s| - 1];
    }
  }

  lemma {:induction false} LeadingZeros(k: nat, s: string)
    requires AllDigits(s)
    ensures AllDigits(Zeros(k) + s) && Numeral(Zeros(k) + s) == Numeral(s)
  {
    var zs := Zeros(k);
    if k == 0 {
      assert zs + s == s;
    } else {
      var t := Zeros(k - 1) + s;
      LeadingZeros(k - 1, s);
      assert zs + s == ['0'] + t;
      LeadingZero(t);
    }
  }

  lemma {:induction false} PrefixStops(p: string, rest: string)
    requires '_' !in p
    ensures Prefix(p + "_" + rest) == Some(p)
  {
    if p == "" {
      assert p + "_" + rest == "_" + rest;
    } else {
      assert (p + "_" + rest)[1..] == p[1..] + "_" + rest;
      PrefixStops(p[1..], rest);
      assert [p[0]] + p[1..] == p;
    }
  }

  lemma DigitsHaveNoUnderscore(s: string)
    requires AllDigits(s)
    ensures '_' !in s
  {
    assert forall i :: 0 <= i < |s| ==> IsDigit(s[i]);
  }

  lemma AtoiOfDigits(s: string)
    requires s != "" && AllDigits(s)
    ensures Atoi(s) == if Numeral(s) < TWO63 then Some(Numeral(s)) else None
  {
    assert IsDigit(s[0]);
  }

  /** A name made of a zero-padded number, an underscore and anything else has that number as its version. */
  lemma VersionOfName(k: nat, n: nat, rest: string)
    ensures ParseVersion(Zeros(k) + Print(n) + "_" + rest) == if n < TWO63 then Some(n) else None
  {
    var p := Zeros(k) + Print(n);
    NumeralPrint(n);
    LeadingZeros(k, Print(n));
    DigitsHaveNoUnderscore(p);
    PrefixStops(p, rest);
    AtoiOfDigits(p);
  }

  // ---- Listing the files ----

  /** `content` is None where the file cannot be read. */
  datatype DirEntry = DirEntry(name: string, isDir: bool, content: Option<string>)

  /** The version of a migration file; None for what is not one. */
  function Numbered(e: DirEntry): Option<int64> {
    if e.isDir || !HasSuffix(e.name, ".sql") then None else ParseVersion(e.name)
  }

  predicate SqlFile(e: DirEntry) {
    !e.isDir && |e.name| >= 4 && e.name[|e.name| - 4..] == ['.', 's', 'q', 'l']
  }

  predicate Unreadable(e: DirEntry) {
    SqlFile(e) && ParseVersion(e.name).Some? && e.content.None?
  }

  /** The entry is the migration `f`: a readable .sql file whose name starts with its version. */
  predicate Yields(e: DirEntry, f: File) {
    SqlFile(e) && e.name == f.name && ParseVersion(e.name) == Some(f.version) && e.content == Some(f.content)
  }

  function Candidate(e: DirEntry): Option<File> {
    if Numbered(e).Some? && e.content.Some? then Some(File(e.name, Numbered(e).value, e.content.value)) else None
  }

  function Candidates(entries: seq<DirEntry>): seq<File> {
    if entries == [] then []
    else
      var n := |entries| - 1;
      Candidates(entries[..n]) + (if Candidate(entries[n]).Some? then [Candidate(entries[n]).value] else [])
  }

  lemma CandidateYields(e: DirEntry, f: File)
    ensures Candidate(e) == Some(f) <==> Yields(e, f)
  {
  }

  function YieldedBy(entries: seq<DirEntry>, f: File): set<nat> {
    set i: nat | i < |entries| && Yields(entries[i], f)
  }

  lemma YieldedMore(entries: seq<DirEntry>, f: File)
    requires entries != []
    ensures var n := |entries| - 1;
            |YieldedBy(entries, f)| == |YieldedBy(entries[..n], f)| + (if Yields(entries[n], f) then 1 else 0)
  {
    var n := |entries| - 1;
    var prev := YieldedBy(entries[..n], f);
    assert n !in prev;
    assert YieldedBy(entries, f) == if Yields(entries[n], f) then prev + {n} else prev;
  }

  lemma CountMore(files: seq<File>, o: Option<File>, f: File)
    ensures multiset(files + (if o.Some? then [o.value] else []))[f] == multiset(files)[f] + (if o == Some(f) then 1 else 0)
  {
  }

  /** Every file is listed once for each entry that is it, and nothing else is listed. */
  lemma {:induction false} CandidateCounts(entries: seq<DirEntry>, f: File)
    ensures multiset(Candidates(entries))[f] == |YieldedBy(entries, f)|
  {
    if entries != [] {
      var n := |entries| - 1;
      CandidateCounts(entries[..n], f);
      CandidateYields(entries[n], f);
      CountMore(Candidates(entries[..n]), Candidate(entries[n]), f);
      YieldedMore(entries, f);
    }
  }

  /** A zero-padded number, an underscore, anything, ".sql". */
  predicate Named(name: string, k: nat, n: nat, rest: string) {
    name == Zeros(k) + Print(n) + "_" + rest + ".sql"
  }

  lemma NamedYields(e: DirEntry, k: nat, n: nat, rest: string)
    requires Named(e.name, k, n, rest) && n < TWO63 && !e.isDir && e.content.Some?
    ensures Yields(e, File(e.name, n, e.content.value))
  {
    assert e.name == Zeros(k) + Print(n) + "_" + (rest + ".sql");
    VersionOfName(k, n, rest + ".sql");
    assert e.name[|e.name| - 4..] == ".sql";
  }

  /** Every properly named readable file is listed. */
  lemma NamedIsListed(entries: seq<DirEntry>, files: seq<File>, e: DirEntry, k: nat, n: nat, rest: string)
    requires SortedFrom(files, Candidates(entries)) && e in entries
    requires Named(e.name, k, n, rest) && n < TWO63 && !e.isDir && e.content.Some?
    ensures File(e.name, n, e.content.value) in files
  {
    var f := File(e.name, n, e.content.value);
    NamedYields(e, k, n, rest);
    CandidateCounts(entries, f);
    var i :| 0 <= i < |entries| && entries[i] == e;
    assert i in YieldedBy(entries, f);
    assert f in multiset(files);
  }

  /** What makes a version: the text before the first underscore, as a signed decimal number of 64 bits. */
  predicate ReadsAs(name: string, p: string, rest: string, v: int) {
    && name == p + "_" + rest && '_' !in p && p != ""
    && var digits := if p[0] == '-' || p[0] == '+' then p[1..] else p;
       && digits != "" && AllDigits(digits) && -TWO63 <= v < TWO63
       && var n: int := Numeral(digits);
          v == if p[0] == '-' then -n else n
  }

  lemma {:induction false} PrefixSplits(s: string)
    ensures Prefix(s).Some? ==> |Prefix(s).value| < |s| && '_' !in Prefix(s).value
                                && s == Prefix(s).value + "_" + s[|Prefix(s).value| + 1..]
  {
    if s != "" && s[0] != '_' {
      PrefixSplits(s[1..]);
    }
  }

  lemma VersionIff(name: string, v: int64)
    ensures ParseVersion(name) == Some(v) <==> exists p, rest :: ReadsAs(name, p, rest, v)
  {
    if ParseVersion(name) == Some(v) {
      PrefixSplits(name);
      var p := Prefix(name).value;
      assert ReadsAs(name, p, name[|p| + 1..], v);
    }
    if p, rest :| ReadsAs(name, p, rest, v) {
      PrefixStops(p, rest);
    }
  }

  predicate Ordered(files: seq<File>) {
    forall i, j :: 0 <= i < j < |files| ==> files[i].version <= files[j].version
  }

  predicate DistinctVersions(files: seq<File>) {
    forall i, j :: 0 <= i < j < |files| ==> files[i].version != files[j].version
  }

  /** Any outcome of sort.Slice by version. */
  predicate SortedFrom(files: seq<File>, candidates: seq<File>) {
    multiset(files) == multiset(candidates) && Ordered(files)
  }

  lemma InsertKeepsOrder(files: seq<File>, k: nat, f: File)
    requires k <= |files| && Ordered(files)
    requires k > 0 ==> files[k - 1].version <= f.version
    requires forall j :: k <= j < |files| ==> files[j].version > f.version
    ensures Ordered(Inserted(files, k, f))
  {
    var more := Inserted(files, k, f);
    assert forall j :: 0 <= j < k ==> more[j] == files[j] && files[j].version <= f.version;
    assert forall j :: k < j < |more| ==> more[j] == files[j - 1];
  }

  method SortByVersion(candidates: seq<File>) returns (files: seq<File>)
    ensures SortedFrom(files, candidates)
  {
    files := [];
    for i := 0 to |candidates|
      invariant SortedFrom(files, candidates[..i])
    {
      var f := candidates[i];
      var k := |files|;
      while k > 0 && files[k - 1].version > f.version
        invariant 0 <= k <= |files|
        invariant forall j :: k <= j < |files| ==> files[j].version > f.version
      {
        k := k - 1;
      }
      InsertKeepsOrder(files, k, f);
      InsertedCounts(files, k, f);
      files := Inserted(files, k, f);
      assert candidates[..i + 1] == candidates[..i] + [f];
    }
    assert candidates[..|candidates|] == candidates;
  }

  /** The entries in directory order; an error if a migration file cannot be read. */
  method ReadCandidates(listed: seq<DirEntry>) returns (r: Result<seq<File>, ()>)
    ensures r.Ok? <==> forall e :: e in listed ==> !Unreadable(e)
    ensures r.Ok? ==> r.value == Candidates(listed)
  {
    var found: seq<File> := [];
    for i := 0 to |listed|
      invariant found == Candidates(listed[..i])
      invariant forall e :: e in listed[..i] ==> !Unreadable(e)
    {
      assert listed[..i + 1][..i] == listed[..i] && listed[..i + 1] == listed[..i] + [listed[i]];
      var e := listed[i];
      if !e.isDir && HasSuffix(e.name, ".sql") {
        var version := ParseVersion(e.name);
        if version.Some? {
          if e.content.None? {
            assert Unreadable(e);
            return Err(());
          }
          found := found + [File(e.name, version.value, e.content.value)];
        }
      }
    }
    assert listed[..|listed|] == listed;
    return Ok(found);
  }

  /** Each file as often as there are entries that are it, and every properly named one among them. */
  ghost predicate ListsMigrations(entries: seq<DirEntry>, files: seq<File>) {
    && (forall f :: multiset(files)[f] == |YieldedBy(entries, f)|)
    && (forall e, k: nat, n: nat, rest ::
          e in entries && Named(e.name, k, n, rest) && n < TWO63 && !e.isDir && e.content.Some? ==>
          File(e.name, n, e.content.value) in files)
  }

  lemma SortedListsMigrations(entries: seq<DirEntry>, files: seq<File>)
    requires SortedFrom(files, Candidates(entries))
    ensures ListsMigrations(entries, files)
  {
    forall f
      ensures multiset(files)[f] == |YieldedBy(entries, f)|
    {
      CandidateCounts(entries, f);
    }
    forall e, k: nat, n: nat, rest | e in entries && Named(e.name, k, n, rest) && n < TWO63 && !e.isDir && e.content.Some?
      ensures File(e.name, n, e.content.value) in files
    {
      NamedIsListed(entries, files, e, k, n, rest);
    }
  }

  /** `entries` is None where the directory cannot be read. */
  method GetMigrationFiles(entries: Option<seq<DirEntry>>) returns (r: Result<seq<File>, ()>)
    ensures r.Ok? <==> entries.Some? && forall e :: e in entries.value ==> !Unreadable(e)
    ensures r.Ok? ==> Ordered(r.value) && ListsMigrations(entries.value, r.value)
    ensures r.Ok? ==> SortedFrom(r.value, Candidates(entries.value))
  {
    if entries.None? {
      return Err(());
    }
    var found := ReadCandidates(entries.value);
    if found.Err? {
      return found;
    }
    var files := SortByVersion(found.value);
    SortedListsMigrations(entries.value, files);
    return Ok(files);
  }

  /** With distinct versions there is one sorted order, so every run sees the same list. */
  lemma {:induction false} SortingUnique(a: seq<File>, b: seq<File>)
    requires multiset(a) == multiset(b) && Ordered(a) && Ordered(b) && DistinctVersions(a)
    ensures a == b
  {
    if a == [] {
      assert |multiset(b)| == 0;
    } else {
      var n := |a| - 1;
      LastIsSame(a, b);
      SameInit(a, b);
      SortingUnique(a[..n], b[..n]);
      assert a == a[..n] + [a[n]] && b == b[..n] + [b[n]];
    }
  }

  /** The last of both is the one file with the greatest version. */
  lemma LastIsSame(a: seq<File>, b: seq<File>)
    requires a != [] && multiset(a) == multiset(b) && Ordered(a) && Ordered(b) && DistinctVersions(a)
    ensures |a| == |b| && a[|a| - 1] == b[|b| - 1]
  {
    var n := |a| - 1;
    assert |a| == |multiset(a)| == |multiset(b)| == |b|;
    assert a[n] in multiset(b) && b[n] in multiset(a);
    var j :| 0 <= j < |b| && b[j] == a[n];
    var i :| 0 <= i < |a| && a[i] == b[n];
    assert a[i].version <= a[n].version == b[j].version <= b[n].version;
  }

  method FileNameForVersion(files: seq<File>, version: int) returns (name: Option<string>)
    ensures name == NameOf(files, version)
    ensures name.None? <==> forall f :: f in files ==> f.version != version
    ensures name.Some? ==> exists i :: 0 <= i < |files| && FirstOf(files, version, i) && files[i].name == name.value
  {
    ghost var first := NameOfFirst(files, version);
    for i := 0 to |files|
      invariant NameOf(files[i..], version) == NameOf(files, version)
    {
      if files[i].version == version {
        return Some(files[i].name);
      }
      assert files[i..][1..] == files[i + 1..];
    }
    return None;
  }

  function NameOf(files: seq<File>, version: int): Option<string> {
    if files == [] then None
    else if files[0].version == version then Some(files[0].name)
    else NameOf(files[1..], version)
  }

  predicate FirstOf(files: seq<File>, version: int, i: nat)
    requires i < |files|
  {
    files[i].version == version && forall j :: 0 <= j < i ==> files[j].version != version
  }

  lemma FirstLater(files: seq<File>, version: int, i: nat)
    requires 0 < i < |files| && files[0].version != version
    ensures FirstOf(files, version, i) <==> FirstOf(files[1..], version, i - 1)
  {
    assert files[i] == files[1..][i - 1];
    if FirstOf(files[1..], version, i - 1) {
      forall j | 0 < j < i
        ensures files[j].version != version
      {
        assert files[j] == files[1..][j - 1];
      }
    }
    if FirstOf(files, version, i) {
      forall j | 0 <= j < i - 1
        ensures files[1..][j].version != version
      {
        assert files[1..][j] == files[j + 1];
      }
    }
  }

  lemma {:induction false} NameOfFirst(files: seq<File>, version: int) returns (i: nat)
    ensures NameOf(files, version).None? ==> forall f :: f in files ==> f.version != version
    ensures NameOf(files, version).Some? ==>
              i < |files| && FirstOf(files, version, i) && NameOf(files, version) == Some(files[i].name)
  {
    i := 0;
    if files != [] && files[0].version != version {
      var j := NameOfFirst(files[1..], version);
      if NameOf(files, version).Some? {
        i := j + 1;
        FirstLater(files, version, i);
      } else {
        assert forall f :: f in files ==> f == files[0] || f in files[1..];
      }
    }
  }

  lemma {:induction false} NameOfOwn(files: seq<File>, i: nat)
    requires i < |files| && DistinctVersions(files)
    ensures NameOf(files, files[i].version) == Some(files[i].name)
  {
    if i > 0 {
      assert files[1..][i - 1] == files[i];
      NameOfOwn(files[1..], i - 1);
    }
  }

  // ---- Runs ----

  /** `executed` is the history of files whose SQL took effect; `recorded` is schema_migrations. */
  datatype Db = Db(executed: seq<File>, recorded: map<int, string>)

  const NEW_DB := Db([], map[])

  /** How far one migration gets in one run: a failure and a crash leave the same trace. */
  datatype Attempt = NotExecuted | NotRecorded | Complete

  /** `prepared`: table, record and listing can be read; `attempts[i]` is what happens to file i, should the run come to it. */
  datatype RunEnv = RunEnv(prepared: bool, attempts: seq<Attempt>)

  function Executed(db: Db, f: File): Db {
    db.(executed := db.executed + [f])
  }

  /** ON CONFLICT DO NOTHING: the first name stays. */
  function Recorded(db: Db, version: int, name: string): Db {
    if version in db.recorded then db else db.(recorded := db.recorded[version := name])
  }

  datatype Report = Report(db: Db, applied: seq<string>, success: bool)

  /** The loop from file i on; `known` is what was recorded when the run began. */
  function RunFrom(files: seq<File>, i: nat, known: set<int>, db: Db, attempts: seq<Attempt>): Report
    requires i <= |files| == |attempts|
    decreases |files| - i
  {
    if i == |files| then Report(db, [], true)
    else
      var f := files[i];
      if f.version in known then RunFrom(files, i + 1, known, db, attempts)
      else
        match attempts[i]
        case NotExecuted => Report(db, [], false)
        case NotRecorded => Report(Executed(db, f), [], false)
        case Complete =>
          match NameOf(files, f.version)
          case None => Report(Executed(db, f), [], false)
          case Some(name) =>
            var rest := RunFrom(files, i + 1, known, Recorded(Executed(db, f), f.version, name), attempts);
            rest.(applied := [f.name] + rest.applied)
  }

  function RunOnce(files: seq<File>, db: Db, env: RunEnv): Report
    requires |env.attempts| == |files|
  {
    if !env.prepared then Report(db, [], false)
    else RunFrom(files, 0, db.recorded.Keys, db, env.attempts)
  }

  class Database {
    var executed: seq<File>
    var recorded: map<int, string>

    function Current(): Db
      reads this
    {
      Db(executed, recorded)
    }

    constructor ()
      ensures Current() == NEW_DB
    {
      executed, recorded := [], map[];
    }
  }

  class Runner {
    const files: seq<File>

    constructor (files: seq<File>)
      ensures this.files == files
    {
      this.files := files;
    }

    method RecordApplied(db: Database, version: int, ok: bool) returns (success: bool)
      modifies db
      ensures success == (ok && NameOf(files, version).Some?)
      ensures db.Current() ==
              if success then Recorded(old(db.Current()), version, NameOf(files, version).value) else old(db.Current())
      ensures db.executed == old(db.executed)
      ensures !success || version in old(db.recorded) ==> db.recorded == old(db.recorded)
      ensures success && version !in old(db.recorded) ==>
                exists i :: 0 <= i < |files| && FirstOf(files, version, i)
                            && db.recorded == old(db.recorded)[version := files[i].name]
    {
      var name := FileNameForVersion(files, version);
      if name.None? || !ok {
        return false;
      }
      if version !in db.recorded {
        db.recorded := db.recorded[version := name.value];
      }
      return true;
    }

    /** Ensures the table, reads what is applied, then applies and records file by file. */
    method Run(db: Database, env: RunEnv) returns (applied: seq<string>, success: bool)
      requires |env.attempts| == |files|
      modifies db
      ensures Report(db.Current(), applied, success) == RunOnce(files, old(db.Current()), env)
    {
      applied := [];
      if !env.prepared {
        return [], false;
      }
      var known := db.recorded.Keys;
      var i := 0;
      while i < |files|
        invariant 0 <= i <= |files|
        invariant var rest := RunFrom(files, i, known, db.Current(), env.attempts);
                  rest.(applied := applied + rest.applied) == RunOnce(files, old(db.Current()), env)
      {
        var f := files[i];
        if f.version !in known {
          if env.attempts[i].NotExecuted? {
            return applied, false;
          }
          db.executed := db.executed + [f];
          var recorded := RecordApplied(db, f.version, env.attempts[i].Complete?);
          if !recorded {
            return applied, false;
          }
          ghost var rest := RunFrom(files, i + 1, known, db.Current(), env.attempts);
          assert applied + ([f.name] + rest.applied) == (applied + [f.name]) + rest.applied;
          applied := applied + [f.name];
        }
        i := i + 1;
      }
      return applied, true;
    }
  }

  // ---- Any number of runs ----

  predicate Envs(files: seq<File>, envs: seq<RunEnv>) {
    forall k :: 0 <= k < |envs| ==> |envs[k].attempts| == |files|
  }

  function After(files: seq<File>, envs: seq<RunEnv>): Db
    requires Envs(files, envs)
  {
    if envs == [] then NEW_DB else RunOnce(files, After(files, envs[..|envs| - 1]), envs[|envs| - 1]).db
  }

  /** The first n files, under their own names. */
  function RecordOf(files: seq<File>, n: nat): map<int, string>
    requires n <= |files|
  {
    if n == 0 then map[] else RecordOf(files, n - 1)[files[n - 1].version := files[n - 1].name]
  }

  lemma {:induction false} RecordKeys(files: seq<File>, n: nat, v: int)
    requires n <= |files|
    ensures v in RecordOf(files, n) <==> exists k :: 0 <= k < n && files[k].version == v
  {
    if n > 0 {
      RecordKeys(files, n - 1, v);
    }
  }

  /** `executed` is the first m files in order, each once or several times in a row. */
  predicate Stuttering(executed: seq<File>, files: seq<File>, m: nat)
    requires m <= |files|
  {
    if executed == [] then m == 0
    else
      var n := |executed| - 1;
      m > 0 && executed[n] == files[m - 1] && (Stuttering(executed[..n], files, m) || Stuttering(executed[..n], files, m - 1))
  }

  /** n files are recorded; they were executed in order, and at most the next one was executed too. */
  predicate Progress(files: seq<File>, db: Db, n: nat) {
    && n <= |files|
    && db.recorded == RecordOf(files, n)
    && (Stuttering(db.executed, files, n) || (n < |files| && Stuttering(db.executed, files, n + 1)))
  }

  function Names(files: seq<File>): seq<string> {
    seq(|files|, i requires 0 <= i < |files| => files[i].name)
  }

  lemma StutterAgain(executed: seq<File>, files: seq<File>, i: nat)
    requires i < |files| && (Stuttering(executed, files, i) || Stuttering(executed, files, i + 1))
    ensures Stuttering(executed + [files[i]], files, i + 1)
  {
    assert (executed + [files[i]])[..|executed|] == executed;
  }

  /** Files recorded before the run are skipped. */
  lemma {:induction false} SkipKnown(files: seq<File>, i: nat, n: nat, known: set<int>, db: Db, attempts: seq<Attempt>)
    requires i <= n <= |files| == |attempts|
    requires forall k :: i <= k < n ==> files[k].version in known
    ensures RunFrom(files, i, known, db, attempts) == RunFrom(files, n, known, db, attempts)
    decreases n - i
  {
    if i < n {
      SkipKnown(files, i + 1, n, known, db, attempts);
    }
  }

  lemma ProgressStep(files: seq<File>, i: nat, db: Db)
    requires i < |files| && DistinctVersions(files) && Progress(files, db, i)
    ensures Progress(files, Executed(db, files[i]), i)
    ensures Progress(files, Recorded(Executed(db, files[i]), files[i].version, files[i].name), i + 1)
  {
    StutterAgain(db.executed, files, i);
    RecordKeys(files, i, files[i].version);
  }

  lemma VersionIsNew(files: seq<File>, n: nat, i: nat)
    requires n <= i < |files| && DistinctVersions(files)
    ensures files[i].version !in RecordOf(files, n)
  {
    RecordKeys(files, n, files[i].version);
  }

  lemma NamesCons(files: seq<File>, i: nat, n: nat)
    requires i < n <= |files|
    ensures Names(files[i..n]) == [files[i].name] + Names(files[i + 1..n])
  {
  }

  /** The first file, from i on, that the run does not complete; |files| if there is none. */
  predicate StopsAt(files: seq<File>, attempts: seq<Attempt>, i: nat, n: nat) {
    && i <= n <= |files| == |attempts|
    && (forall j :: i <= j < n ==> attempts[j].Complete?)
    && (n < |files| ==> !attempts[n].Complete?)
  }

  /** The files from i up to n were executed, and the n-th if only its record was missed. */
  predicate ExecutedTo(before: seq<File>, after: seq<File>, files: seq<File>, attempts: seq<Attempt>, i: nat, n: nat)
    requires i <= n <= |files| == |attempts|
  {
    after == before + files[i..n] + (if n < |files| && attempts[n].NotRecorded? then [files[n]] else [])
  }

  lemma ExecutedOneMore(before: seq<File>, after: seq<File>, files: seq<File>, attempts: seq<Attempt>, i: nat, n: nat)
    requires i < n <= |files| == |attempts| && ExecutedTo(before + [files[i]], after, files, attempts, i + 1, n)
    ensures ExecutedTo(before, after, files, attempts, i, n)
  {
    assert files[i..n] == [files[i]] + files[i + 1..n];
    assert before + [files[i]] + files[i + 1..n] == before + files[i..n];
  }

  /** What the rest of a run does, from i recorded files on. */
  predicate RunsTo(files: seq<File>, attempts: seq<Attempt>, i: nat, n: nat, db: Db, r: Report) {
    && StopsAt(files, attempts, i, n) && Progress(files, r.db, n)
    && ExecutedTo(db.executed, r.db.executed, files, attempts, i, n)
    && r.applied == Names(files[i..n])
    && (r.success <==> n == |files|)
  }

  lemma RunStops(files: seq<File>, i: nat, known: set<int>, db: Db, attempts: seq<Attempt>)
    requires i < |files| == |attempts| && files[i].version !in known && !attempts[i].Complete?
    requires DistinctVersions(files) && Progress(files, db, i)
    ensures RunsTo(files, attempts, i, i, db, RunFrom(files, i, known, db, attempts))
  {
    ProgressStep(files, i, db);
    assert files[i..i] == [];
  }

  lemma RunGoesOn(files: seq<File>, i: nat, n: nat, db: Db, next: Db, attempts: seq<Attempt>, rest: Report)
    requires i < |files| == |attempts| && attempts[i].Complete?
    requires next.executed == db.executed + [files[i]] && RunsTo(files, attempts, i + 1, n, next, rest)
    ensures RunsTo(files, attempts, i, n, db, rest.(applied := [files[i].name] + rest.applied))
  {
    NamesCons(files, i, n);
    ExecutedOneMore(db.executed, rest.db.executed, files, attempts, i, n);
  }

  lemma {:induction false} RunFromEffect(files: seq<File>, i: nat, n0: nat, db: Db, attempts: seq<Attempt>) returns (n: nat)
    requires n0 <= i <= |files| == |attempts| && DistinctVersions(files) && Progress(files, db, i)
    ensures RunsTo(files, attempts, i, n, db, RunFrom(files, i, RecordOf(files, n0).Keys, db, attempts))
    decreases |files| - i
  {
    n := i;
    var known := RecordOf(files, n0).Keys;
    if i == |files| {
      assert files[i..i] == [];
    } else {
      var f := files[i];
      VersionIsNew(files, n0, i);
      if attempts[i].Complete? {
        NameOfOwn(files, i);
        ProgressStep(files, i, db);
        var next := Recorded(Executed(db, f), f.version, f.name);
        n := RunFromEffect(files, i + 1, n0, next, attempts);
        RunGoesOn(files, i, n, db, next, attempts, RunFrom(files, i + 1, known, next, attempts));
      } else {
        RunStops(files, i, known, db, attempts);
      }
    }
  }

  /** From n0 recorded files a run goes on to the first file it cannot complete, and no further. */
  lemma RunEffect(files: seq<File>, db: Db, env: RunEnv, n0: nat) returns (n: nat)
    requires DistinctVersions(files) && |env.attempts| == |files| && Progress(files, db, n0)
    ensures var r := RunOnce(files, db, env);
            && n0 <= n && Progress(files, r.db, n)
            && (!env.prepared ==> r == Report(db, [], false) && n == n0)
            && (env.prepared ==>
                  && StopsAt(files, env.attempts, n0, n)
                  && ExecutedTo(db.executed, r.db.executed, files, env.attempts, n0, n)
                  && r.applied == Names(files[n0..n])
                  && (r.success <==> n == |files|))
  {
    n := n0;
    if env.prepared {
      forall k | 0 <= k < n0
        ensures files[k].version in RecordOf(files, n0)
      {
        RecordKeys(files, n0, files[k].version);
      }
      SkipKnown(files, 0, n0, db.recorded.Keys, db, env.attempts);
      n := RunFromEffect(files, n0, n0, db, env.attempts);
    }
  }

  /**
   After any sequence of failing or crashing runs the recorded files are the first n of the
   list, what was executed is those in order with repeats only in a row, and at most the next
   file was executed without being recorded.
   */
  lemma {:induction false} CrashSafe(files: seq<File>, envs: seq<RunEnv>) returns (n: nat)
    requires DistinctVersions(files) && Envs(files, envs)
    ensures Progress(files, After(files, envs), n)
  {
    n := 0;
    if envs != [] {
      n := CrashSafe(files, envs[..|envs| - 1]);
      n := RunEffect(files, After(files, envs[..|envs| - 1]), envs[|envs| - 1], n);
    }
  }

  /** A successful run leaves every file recorded, and the run after it applies nothing. */
  lemma SuccessIsFinal(files: seq<File>, envs: seq<RunEnv>, env: RunEnv, again: RunEnv)
    requires DistinctVersions(files) && Envs(files, envs) && |env.attempts| == |again.attempts| == |files|
    requires RunOnce(files, After(files, envs), env).success
    ensures var done := RunOnce(files, After(files, envs), env).db;
            && Progress(files, done, |files|)
            && RunOnce(files, done, again) == Report(done, [], again.prepared)
  {
    var n := CrashSafe(files, envs);
    var m := RunEffect(files, After(files, envs), env, n);
    var done := RunOnce(files, After(files, envs), env).db;
    var l := RunEffect(files, done, again, |files|);
    if again.prepared {
      forall k | 0 <= k < |files|
        ensures files[k].version in done.recorded
      {
        RecordKeys(files, |files|, files[k].version);
      }
      SkipKnown(files, 0, |files|, done.recorded.Keys, done, again.attempts);
    }
  }

  // ---- Why versions must be distinct ----

  /** Whatever happened before, a successful run has executed every file. */
  ghost predicate NothingLost(files: seq<File>) {
    forall envs, env: RunEnv :: Envs(files, envs) && |env.attempts| == |files| && RunOnce(files, After(files, envs), env).success ==>
                          AllExecuted(files, RunOnce(files, After(files, envs), env).db)
  }

  predicate AllExecuted(files: seq<File>, db: Db) {
    forall k :: 0 <= k < |files| ==> files[k] in db.executed
  }

  lemma {:induction false} StutteringCovers(executed: seq<File>, files: seq<File>, m: nat, k: nat)
    requires m <= |files| && k < m && Stuttering(executed, files, m)
    ensures files[k] in executed
  {
    var n := |executed| - 1;
    if k < m - 1 || Stuttering(executed[..n], files, m) {
      StutteringCovers(executed[..n], files, if Stuttering(executed[..n], files, m) then m else m - 1, k);
    }
  }

  lemma DistinctLosesNothing(files: seq<File>)
    requires DistinctVersions(files)
    ensures NothingLost(files)
  {
    forall envs, env: RunEnv | Envs(files, envs) && |env.attempts| == |files| && RunOnce(files, After(files, envs), env).success
      ensures AllExecuted(files, RunOnce(files, After(files, envs), env).db)
    {
      SuccessIsFinal(files, envs, env, env);
      var done := RunOnce(files, After(files, envs), env).db;
      forall k | 0 <= k < |files|
        ensures files[k] in done.executed
      {
        StutteringCovers(done.executed, files, |files|, k);
      }
    }
  }

  function Until(k: nat, n: nat): seq<Attempt> {
    seq(n, i requires 0 <= i < n => if i < k then Complete else NotExecuted)
  }

  lemma {:induction false} NameExists(files: seq<File>, i: nat)
    requires i < |files|
    ensures NameOf(files, files[i].version).Some?
  {
    if i > 0 {
      assert files[1..][i - 1] == files[i];
      NameExists(files[1..], i - 1);
    }
  }

  /** A run from an empty record that stops before file k: files before k are executed and recorded. */
  lemma {:induction false} StopsBefore(files: seq<File>, i: nat, k: nat, db: Db)
    requires i <= k < |files|
    ensures var r := RunFrom(files, i, {}, db, Until(k, |files|));
            && r.db.executed == db.executed + files[i..k]
            && (forall v :: v in db.recorded ==> v in r.db.recorded)
            && (forall j :: i <= j < k ==> files[j].version in r.db.recorded)
    decreases k - i
  {
    if i < k {
      var f := files[i];
      NameExists(files, i);
      var next := Recorded(Executed(db, f), f.version, NameOf(files, f.version).value);
      StopsBefore(files, i + 1, k, next);
      assert db.executed + files[i..k] == db.executed + [f] + files[i + 1..k];
    }
  }

  /** A run in which nothing fails succeeds, and executes no file whose version it knows. */
  lemma {:induction false} CleanRun(files: seq<File>, i: nat, known: set<int>, db: Db, f: File)
    requires i <= |files| && f.version in known
    ensures var r := RunFrom(files, i, known, db, Until(|files|, |files|));
            r.success && (f in r.db.executed ==> f in db.executed)
    decreases |files| - i
  {
    if i < |files| {
      var g := files[i];
      if g.version in known {
        CleanRun(files, i + 1, known, db, f);
      } else {
        NameExists(files, i);
        CleanRun(files, i + 1, known, Recorded(Executed(db, g), g.version, NameOf(files, g.version).value), f);
      }
    }
  }

  /** Two files with one version: a crash after the first makes the next run pass over the second. */
  lemma DuplicateIsLost(files: seq<File>, i: nat, j: nat)
    requires i < j < |files| && files[i].version == files[j].version
    requires forall a, b :: 0 <= a < b < |files| ==> files[a] != files[b]
    ensures !NothingLost(files)
  {
    var first := RunEnv(true, Until(j, |files|));
    var second := RunEnv(true, Until(|files|, |files|));
    var envs := [first];
    assert envs[..0] == [];
    StopsBefore(files, 0, j, NEW_DB);
    var db := After(files, envs);
    assert After(files, envs[..0]) == NEW_DB && NEW_DB.recorded.Keys == {};
    assert db == RunFrom(files, 0, {}, NEW_DB, Until(j, |files|)).db;
    assert db.executed == files[..j];
    CleanRun(files, 0, db.recorded.Keys, db, files[j]);
    assert files[j] !in files[..j];
    assert RunOnce(files, After(files, envs), second).success;
    assert !AllExecuted(files, RunOnce(files, After(files, envs), second).db);
  }

  /** No file is ever lost to a crash exactly when no two files share a version. */
  lemma NothingLostIff(files: seq<File>)
    requires forall a, b :: 0 <= a < b < |files| ==> files[a] != files[b]
    ensures NothingLost(files) <==> DistinctVersions(files)
  {
    if DistinctVersions(files) {
      DistinctLosesNothing(files);
    } else {
      var i, j :| 0 <= i < j < |files| && files[i].version == files[j].version;
      DuplicateIsLost(files, i, j);
    }
  }
}
