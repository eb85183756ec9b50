/** The history scan with its cache of clean blobs: a cached run must find what a full run finds. */
module BlobCache {
  import opened Options
  import opened Constraints
  import opened PiiScan

  type Sha = string

  datatype Blob = Binary | Text(lines: seq<Line>)

  /** Git names a blob by its content, so what a name holds never changes. */
  type Contents = Sha -> Blob

  /** "blob <name> (<hint>)": where a finding is reported, which may differ from run to run. */
  type Wheres = Sha -> string

  function BlobFindings(c: Config, contents: Contents, wheres: Wheres, sha: Sha): seq<Finding> {
    match contents(sha)
    case Binary => []
    case Text(lines) => TextFindings(c, wheres(sha), lines, 1)
  }

  function AllFindings(c: Config, contents: Contents, wheres: Wheres, blobs: seq<Sha>): seq<Finding> {
    if blobs == [] then []
    else BlobFindings(c, contents, wheres, blobs[0]) + AllFindings(c, contents, wheres, blobs[1..])
  }

  /** A blob is clean when a scan of it finds nothing, wherever it is reported. */
  predicate IsClean(c: Config, contents: Contents, sha: Sha) {
    BlobFindings(c, contents, _ => "", sha) == []
  }

  /** Whether a text is clean does not depend on where or how it is numbered. */
  lemma {:induction false} CleanAnywhere(c: Config, v: string, w: string, lines: seq<Line>, m: nat, n: nat)
    ensures TextFindings(c, v, lines, m) == [] <==> TextFindings(c, w, lines, n) == []
  {
    if lines != [] {
      DenyCleanAnywhere(c, v, w, m, n, Normalize(c.a, lines[0].text), c.entries);
      CleanAnywhere(c, v, w, lines[1..], m + 1, n + 1);
    }
  }

  lemma {:induction false} DenyCleanAnywhere(c: Config, v: string, w: string, m: nat, n: nat, nline: string,
      es: seq<Entry>)
    ensures DenyFindings(c, v, m, nline, es) == [] <==> DenyFindings(c, w, n, nline, es) == []
  {
    if es != [] { DenyCleanAnywhere(c, v, w, m, n, nline, es[1..]); }
  }

  lemma CleanMeans(c: Config, contents: Contents, wheres: Wheres, sha: Sha)
    ensures IsClean(c, contents, sha) <==> BlobFindings(c, contents, wheres, sha) == []
  {
    if contents(sha).Text? {
      CleanAnywhere(c, "", wheres(sha), contents(sha).lines, 1, 1);
    }
  }

  function Uncached(blobs: seq<Sha>, clean: set<Sha>): seq<Sha> {
    Filter(blobs, sha => sha !in clean)
  }

  function NewlyClean(c: Config, contents: Contents, blobs: seq<Sha>, clean: set<Sha>): set<Sha> {
    set sha | sha in blobs && sha !in clean && IsClean(c, contents, sha)
  }

  /** How writing the cache back goes: done, failed before the file was touched, or failed with the
      file cut short, which no later run can read. */
  datatype Saving = Saved | Untouched | Spoiled

  /** The cache file; None when missing or unreadable. */
  class History {
    var cache: Option<set<Sha>>

    constructor ()
      ensures cache == None
    {
      cache := None;
    }

    /** One run. It may be told to ignore the cache, reading it may fail, and so may writing it back;
        none of this is an error. */
    method Scan(c: Config, contents: Contents, wheres: Wheres, blobs: seq<Sha>, useCache: bool, readWorks: bool,
                saving: Saving)
      returns (findings: seq<Finding>)
      modifies this
      ensures findings == RunFindings(old(cache), Run(c, wheres, blobs, useCache, readWorks, saving), contents)
      ensures cache == CacheAfter(old(cache), Run(c, wheres, blobs, useCache, readWorks, saving), contents)
    {
      var clean := if useCache && readWorks && cache.Some? then cache.value else {};
      var todo := Uncached(blobs, clean);
      var newly: set<Sha> := {};
      findings := [];
      for i := 0 to |todo|
        invariant cache == old(cache)
        invariant Scanned(c, contents, wheres, todo, i, findings, newly)
      {
        ScannedNext(c, contents, wheres, todo, i, findings, newly);
        var hits := ScanBlob(c, contents, wheres, todo[i]);
        if hits != [] {
          findings := findings + hits;
        } else {
          newly := newly + {todo[i]};
        }
      }
      assert todo[..|todo|] == todo;
      UncachedMembers(blobs, clean);
      assert newly == NewlyClean(c, contents, blobs, clean);
      if useCache && newly != {} {
        match saving
        case Saved => cache := Some(clean + newly);
        case Untouched =>
        case Spoiled => cache := None;
      }
    }
  }

  method ScanBlob(c: Config, contents: Contents, wheres: Wheres, sha: Sha) returns (hits: seq<Finding>)
    ensures hits == BlobFindings(c, contents, wheres, sha)
  {
    match contents(sha)
    case Binary => hits := [];
    case Text(lines) => hits := ScanText(c, wheres(sha), lines);
  }

  /** Where a run stands after i of its blobs. */
  ghost predicate Scanned(c: Config, contents: Contents, wheres: Wheres, todo: seq<Sha>, i: nat,
                          findings: seq<Finding>, newly: set<Sha>)
    requires i <= |todo|
  {
    && findings + AllFindings(c, contents, wheres, todo[i..]) == AllFindings(c, contents, wheres, todo)
    && newly == NewlyClean(c, contents, todo[..i], {})
  }

  lemma ScannedNext(c: Config, contents: Contents, wheres: Wheres, todo: seq<Sha>, i: nat,
                    findings: seq<Finding>, newly: set<Sha>)
    requires i < |todo| && Scanned(c, contents, wheres, todo, i, findings, newly)
    ensures var hits := BlobFindings(c, contents, wheres, todo[i]);
            if hits == [] then Scanned(c, contents, wheres, todo, i + 1, findings, newly + {todo[i]})
            else Scanned(c, contents, wheres, todo, i + 1, findings + hits, newly)
  {
    var hits := BlobFindings(c, contents, wheres, todo[i]);
    assert todo[i..][1..] == todo[i + 1..];
    assert todo[..i + 1] == todo[..i] + [todo[i]];
    CleanMeans(c, contents, wheres, todo[i]);
    assert AllFindings(c, contents, wheres, todo[i..]) == hits + AllFindings(c, contents, wheres, todo[i + 1..]);
    assert findings + (hits + AllFindings(c, contents, wheres, todo[i + 1..]))
        == (findings + hits) + AllFindings(c, contents, wheres, todo[i + 1..]);
    assert hits == [] ==> findings + hits == findings;
  }

  lemma {:induction false} UncachedMembers(blobs: seq<Sha>, clean: set<Sha>)
    ensures forall sha :: sha in Uncached(blobs, clean) <==> sha in blobs && sha !in clean
  {
    if blobs != [] {
      UncachedMembers(blobs[1..], clean);
      assert blobs == [blobs[0]] + blobs[1..];
    }
  }

  // ---- Runs as values -------------------------------------------------------------------------

  datatype Run = Run(c: Config, wheres: Wheres, blobs: seq<Sha>, useCache: bool, readWorks: bool, saving: Saving)

  function Skips(cache: Option<set<Sha>>, run: Run): set<Sha> {
    if run.useCache && run.readWorks && cache.Some? then cache.value else {}
  }

  function RunFindings(cache: Option<set<Sha>>, run: Run, contents: Contents): seq<Finding> {
    AllFindings(run.c, contents, run.wheres, Uncached(run.blobs, Skips(cache, run)))
  }

  function FullFindings(run: Run, contents: Contents): seq<Finding> {
    AllFindings(run.c, contents, run.wheres, run.blobs)
  }

  function CacheAfter(cache: Option<set<Sha>>, run: Run, contents: Contents): Option<set<Sha>> {
    var skips := Skips(cache, run);
    var newly := NewlyClean(run.c, contents, run.blobs, skips);
    if !run.useCache || newly == {} then cache
    else match run.saving
      case Saved => Some(skips + newly)
      case Untouched => cache
      case Spoiled => None
  }

  /** A cached run finds what a full run finds exactly when every blob it skips is clean under this
      run's own configuration. */
  lemma CachedRunExactWhen(cache: Option<set<Sha>>, run: Run, contents: Contents)
    ensures RunFindings(cache, run, contents) == FullFindings(run, contents)
       <==> forall sha | sha in run.blobs && IsSkipped(cache, run, sha) :: IsClean(run.c, contents, sha)
  {
    SkippingCleanIsExact(run.c, contents, run.wheres, run.blobs, Skips(cache, run));
    assert forall sha :: sha in Skips(cache, run) <==> IsSkipped(cache, run, sha);
  }

  /** The run uses a cache it could read, and the blob is in it. */
  ghost predicate IsSkipped(cache: Option<set<Sha>>, run: Run, sha: Sha) {
    run.useCache && run.readWorks && cache.Some? && sha in cache.value
  }

  /** The cache after a run: it gains the blobs that run scanned and found clean, over those it skipped,
      when there were any and saving worked; a failed save leaves it as it was or spoils it. */
  lemma CacheAfterMeans(cache: Option<set<Sha>>, run: Run, contents: Contents)
    ensures var next := CacheAfter(cache, run, contents);
            if run.useCache && exists sha :: Gains(cache, run, contents, sha) then
              && (run.saving == Saved ==>
                    next.Some?
                    && forall sha ::
                         sha in next.value <==> IsSkipped(cache, run, sha) || Gains(cache, run, contents, sha))
              && (run.saving == Untouched ==> next == cache)
              && (run.saving == Spoiled ==> next == None)
            else next == cache
  {
    var newly := NewlyClean(run.c, contents, run.blobs, Skips(cache, run));
    assert forall sha :: sha in newly <==> Gains(cache, run, contents, sha);
  }

  ghost predicate Gains(cache: Option<set<Sha>>, run: Run, contents: Contents, sha: Sha) {
    sha in run.blobs && !IsSkipped(cache, run, sha) && IsClean(run.c, contents, sha)
  }

  /** What a blob's own scan is due: the findings of its text, reported at its place. */
  ghost function DueFrom(c: Config, contents: Contents, where: string, sha: Sha, f: Finding): nat {
    match contents(sha)
    case Binary => 0
    case Text(lines) => Times(c, where, lines, f)
  }

  /** A full run finds, blob after blob, what is due from each; and a blob is clean when nothing is,
      wherever it is reported. */
  lemma FullFindingsMean(
    c: Config, contents: Contents, wheres: Wheres, xs: seq<Sha>, ys: seq<Sha>, sha: Sha, f: Finding)
    ensures AllFindings(c, contents, wheres, xs + ys)
         == AllFindings(c, contents, wheres, xs) + AllFindings(c, contents, wheres, ys)
    ensures multiset(AllFindings(c, contents, wheres, [sha]))[f] == DueFrom(c, contents, wheres(sha), sha, f)
    ensures IsClean(c, contents, sha) <==> forall g :: DueFrom(c, contents, wheres(sha), sha, g) == 0
  {
    AppendedFindings(c, contents, wheres, xs, ys);
    assert [sha][1..] == [] && AllFindings(c, contents, wheres, []) == [];
    assert AllFindings(c, contents, wheres, [sha]) == BlobFindings(c, contents, wheres, sha);
    forall g ensures multiset(BlobFindings(c, contents, wheres, sha))[g] == DueFrom(c, contents, wheres(sha), sha, g) {
      OneBlobIsDue(c, contents, wheres, sha, g);
    }
    CleanMeans(c, contents, wheres, sha);
    var found := BlobFindings(c, contents, wheres, sha);
    if found != [] { assert multiset(found)[found[0]] > 0; }
  }

  lemma OneBlobIsDue(c: Config, contents: Contents, wheres: Wheres, sha: Sha, g: Finding)
    ensures multiset(BlobFindings(c, contents, wheres, sha))[g] == DueFrom(c, contents, wheres(sha), sha, g)
  {
    if contents(sha).Text? { TextTimes(c, wheres(sha), contents(sha).lines, g); }
  }

  lemma {:induction false} AppendedFindings(
    c: Config, contents: Contents, wheres: Wheres, xs: seq<Sha>, ys: seq<Sha>)
    ensures AllFindings(c, contents, wheres, xs + ys)
         == AllFindings(c, contents, wheres, xs) + AllFindings(c, contents, wheres, ys)
  {
    if xs == [] {
      assert xs + ys == ys;
    } else {
      assert (xs + ys)[1..] == xs[1..] + ys;
      AppendedFindings(c, contents, wheres, xs[1..], ys);
      var first := BlobFindings(c, contents, wheres, xs[0]);
      var rest, more := AllFindings(c, contents, wheres, xs[1..]), AllFindings(c, contents, wheres, ys);
      assert first + (rest + more) == (first + rest) + more;
    }
  }

  lemma {:induction false} SkippingCleanIsExact(
    c: Config, contents: Contents, wheres: Wheres, blobs: seq<Sha>, clean: set<Sha>)
    ensures var cached := AllFindings(c, contents, wheres, Uncached(blobs, clean));
            var full := AllFindings(c, contents, wheres, blobs);
            |cached| <= |full| &&
            ((forall sha | sha in blobs && sha in clean :: IsClean(c, contents, sha)) ==> cached == full) &&
            ((exists sha | sha in blobs && sha in clean :: !IsClean(c, contents, sha)) ==> |cached| < |full|)
  {
    if blobs != [] {
      SkippingCleanIsExact(c, contents, wheres, blobs[1..], clean);
      CleanMeans(c, contents, wheres, blobs[0]);
      FirstBlob(c, contents, wheres, blobs, clean);
      assert forall sha :: sha in blobs <==> sha == blobs[0] || sha in blobs[1..];
    }
  }

  /** What the first blob adds to a cached and to a full scan. */
  lemma FirstBlob(c: Config, contents: Contents, wheres: Wheres, blobs: seq<Sha>, clean: set<Sha>)
    requires blobs != []
    ensures var hits := BlobFindings(c, contents, wheres, blobs[0]);
            AllFindings(c, contents, wheres, blobs) == hits + AllFindings(c, contents, wheres, blobs[1..])
            && AllFindings(c, contents, wheres, Uncached(blobs, clean))
               == (if blobs[0] in clean then [] else hits)
                  + AllFindings(c, contents, wheres, Uncached(blobs[1..], clean))
  {
    var rest := Uncached(blobs[1..], clean);
    assert Uncached(blobs, clean) == if blobs[0] in clean then rest else [blobs[0]] + rest;
    assert blobs[0] !in clean ==> ([blobs[0]] + rest)[1..] == rest;
  }

  // ---- Whole sequences of runs ----------------------------------------------------------------

  predicate CacheClean(cache: Option<set<Sha>>, c: Config, contents: Contents) {
    cache.Some? ==> forall sha | sha in cache.value :: IsClean(c, contents, sha)
  }

  /** Later runs keep the deny-list, salt, digest and alphabet, and may only allow more. */
  ghost predicate Relaxes(c: Config, d: Config) {
    d.a == c.a && d.hash == c.hash && d.entries == c.entries && d.salt == c.salt && c.allowed <= d.allowed
  }

  lemma {:induction false} FilterEmpties(ms: seq<Match>, p: Match -> bool, q: Match -> bool)
    requires forall m :: q(m) ==> p(m)
    ensures Filter(ms, p) == [] ==> Filter(ms, q) == []
  {
  }

  /** Allowing more never makes a clean text dirty. */
  lemma {:induction false} CleanStaysClean(c: Config, d: Config, where: string, lines: seq<Line>, from: nat)
    requires Relaxes(c, d) && TextFindings(c, where, lines, from) == []
    ensures TextFindings(d, where, lines, from) == []
  {
    if lines != [] {
      var line := lines[0];
      forall shape, ms | ShapeFindings(c, where, from, line.text, shape, ms) == []
        ensures ShapeFindings(d, where, from, line.text, shape, ms) == []
      {
        FilterEmpties(ms, m => Flagged(c, line.text, shape, m), m => Flagged(d, line.text, shape, m));
      }
      DenySame(c, d, where, from, Normalize(c.a, line.text), c.entries);
      CleanStaysClean(c, d, where, lines[1..], from + 1);
    }
  }

  lemma {:induction false} DenySame(c: Config, d: Config, where: string, lineno: nat, nline: string, es: seq<Entry>)
    requires Relaxes(c, d)
    ensures DenyFindings(c, where, lineno, nline, es) == DenyFindings(d, where, lineno, nline, es)
  {
    if es != [] {
      DenySame(c, d, where, lineno, nline, es[1..]);
      forall i ensures WindowAt(c, nline, es[0], i) == WindowAt(d, nline, es[0], i) {}
      assert Hit(c, nline, es[0]) == Hit(d, nline, es[0]);
    }
  }

  lemma CacheStaysClean(cache: Option<set<Sha>>, c: Config, d: Config, contents: Contents)
    requires CacheClean(cache, c, contents) && Relaxes(c, d)
    ensures CacheClean(cache, d, contents)
  {
    if cache.Some? {
      forall sha | sha in cache.value ensures IsClean(d, contents, sha) {
        if contents(sha).Text? { CleanStaysClean(c, d, "", contents(sha).lines, 1); }
      }
    }
  }

  ghost predicate Chain(c: Config, runs: seq<Run>)
    decreases |runs|
  {
    runs != [] ==> Relaxes(c, runs[0].c) && Chain(runs[0].c, runs[1..])
  }

  function CacheBefore(cache: Option<set<Sha>>, runs: seq<Run>, k: nat, contents: Contents): Option<set<Sha>>
    requires k <= |runs|
    decreases |runs|
  {
    if k == 0 then cache else CacheBefore(CacheAfter(cache, runs[0], contents), runs[1..], k - 1, contents)
  }

  lemma RunKeepsCacheClean(cache: Option<set<Sha>>, run: Run, contents: Contents)
    requires CacheClean(cache, run.c, contents)
    ensures CacheClean(CacheAfter(cache, run, contents), run.c, contents)
    ensures RunFindings(cache, run, contents) == FullFindings(run, contents)
  {
    CachedRunExactWhen(cache, run, contents);
  }

  /** Over any sequence of runs, whatever blobs each meets and whichever reads and writes of the cache
      fail, the cache holds only clean blobs and every run's findings are a full scan's, in order. */
  lemma {:induction false} EveryRunIsAFullScan(cache: Option<set<Sha>>, c: Config, runs: seq<Run>, k: nat,
      contents: Contents)
    requires CacheClean(cache, c, contents) && Chain(c, runs) && k < |runs|
    ensures CacheClean(CacheBefore(cache, runs, k, contents), runs[k].c, contents)
    ensures RunFindings(CacheBefore(cache, runs, k, contents), runs[k], contents) == FullFindings(runs[k], contents)
  {
    CleanBeforeEachRun(cache, c, runs, k, contents);
    RunKeepsCacheClean(CacheBefore(cache, runs, k, contents), runs[k], contents);
  }

  lemma {:induction false} CleanBeforeEachRun(cache: Option<set<Sha>>, c: Config, runs: seq<Run>, k: nat,
      contents: Contents)
    requires CacheClean(cache, c, contents) && Chain(c, runs) && k < |runs|
    ensures CacheClean(CacheBefore(cache, runs, k, contents), runs[k].c, contents)
    decreases |runs|
  {
    CacheStaysClean(cache, c, runs[0].c, contents);
    if k > 0 {
      RunKeepsCacheClean(cache, runs[0], contents);
      CleanBeforeEachRun(CacheAfter(cache, runs[0], contents), runs[0].c, runs[1..], k - 1, contents);
    }
  }

  /** A new deny-list entry is where a stale cache misses: a blob cached as clean before it is
      skipped after it. */
  lemma StaleCacheMisses(c: Config, contents: Contents, wheres: Wheres, sha: Sha, added: Entry)
    requires IsClean(c, contents, sha) && !IsClean(c.(entries := c.entries + [added]), contents, sha)
    ensures var first := Run(c, wheres, [sha], true, true, Saved);
            var second := Run(c.(entries := c.entries + [added]), wheres, [sha], true, true, Saved);
            RunFindings(CacheAfter(None, first, contents), second, contents) == [] &&
            FullFindings(second, contents) != []
  {
    var d := c.(entries := c.entries + [added]);
    CleanMeans(d, contents, wheres, sha);
    assert sha in NewlyClean(c, contents, [sha], {});
    assert AllFindings(d, contents, wheres, [sha])
        == BlobFindings(d, contents, wheres, sha) + AllFindings(d, contents, wheres, []);
  }
}
