/** The scanner: structural hits, and deny-listed literals found by hashing every window of the
normalised line. The regular expressions' matches are given with each line; lower-casing and
whitespace are any character-wise functions; the digest is any function. */
module PiiScan {
  import opened Constraints
  import Iban

  /** How characters fold to lower case, and which count as whitespace. */
  datatype Alphabet = Alphabet(lower: char -> char, space: char -> bool)

  type Digest = string
  type Hash = string -> Digest

  datatype Entry = Entry(tag: string, len: int, sha256: Digest, kind: string)

  /** What a scan is given besides the text. */
  datatype Config = Config(a: Alphabet, hash: Hash, entries: seq<Entry>, salt: string, allowed: set<string>)

  datatype Match = Match(token: string, start: nat, end: nat)

  datatype Line = Line(text: string, vats: seq<Match>, ibans: seq<Match>)

  datatype Shape = VatId | IbanNumber

  /** A finding names a label, or a masked token, never the value. */
  datatype Finding =
    | Structural(where: string, lineno: nat, shape: Shape, head: string, length: nat)
    | Denied(where: string, lineno: nat, tag: string, kind: string)

  /** Lower-cased, all whitespace stripped. */
  function Normalize(a: Alphabet, s: string): string {
    if s == "" then ""
    else (if a.space(a.lower(s[0])) then "" else [a.lower(s[0])]) + Normalize(a, s[1..])
  }

  predicate MaskedContext(line: string, m: Match) {
    var lo := if m.start < 2 then 0 else m.start - 2;
    var hi := if m.end + 2 > |line| then |line| else m.end + 2;
    exists i | lo <= i < hi :: line[i] == '#' || line[i] == '\U{00AB}' || line[i] == '\U{00BB}'
  }

  predicate Excused(c: Config, line: string, m: Match) {
    MaskedContext(line, m) || Normalize(c.a, m.token) in c.allowed
  }

  function Report(where: string, lineno: nat, shape: Shape, m: Match): Finding {
    Structural(where, lineno, shape, if |m.token| < 2 then m.token else m.token[..2], |m.token|)
  }

  predicate ValidIban(token: string) { Iban.AllAlnum(token) && Iban.IsValid(token) }

  /** A candidate is reported unless masked or allowed; an IBAN candidate must pass the check too. */
  predicate Flagged(c: Config, line: string, shape: Shape, m: Match) {
    (shape == IbanNumber ==> ValidIban(m.token)) && !Excused(c, line, m)
  }

  function Reports(where: string, lineno: nat, shape: Shape, ms: seq<Match>): seq<Finding> {
    seq(|ms|, i requires 0 <= i < |ms| => Report(where, lineno, shape, ms[i]))
  }

  function ShapeFindings(c: Config, where: string, lineno: nat, line: string, shape: Shape,
      ms: seq<Match>): seq<Finding> {
    Reports(where, lineno, shape, Filter(ms, m => Flagged(c, line, shape, m)))
  }

  lemma ReportsNext(where: string, lineno: nat, shape: Shape, ms: seq<Match>, m: Match)
    ensures Reports(where, lineno, shape, ms + [m])
        == Reports(where, lineno, shape, ms) + [Report(where, lineno, shape, m)]
  {
  }

  /** Some window of the normalised line has the entry's length and, salted, its digest. */
  predicate WindowAt(c: Config, nline: string, e: Entry, i: int) {
    0 <= i && 0 < e.len && i + e.len <= |nline| && c.hash(c.salt + nline[i..i + e.len]) == e.sha256
  }

  predicate Hit(c: Config, nline: string, e: Entry) {
    exists i | 0 <= i < |nline| :: WindowAt(c, nline, e, i)
  }

  /** One finding for each entry that hits, however often it does, in deny-list order. */
  function DenyFindings(c: Config, where: string, lineno: nat, nline: string, es: seq<Entry>): seq<Finding> {
    if es == [] then []
    else (if Hit(c, nline, es[0]) then [Denied(where, lineno, es[0].tag, es[0].kind)] else [])
         + DenyFindings(c, where, lineno, nline, es[1..])
  }

  function LineFindings(c: Config, where: string, lineno: nat, line: Line): seq<Finding> {
    ShapeFindings(c, where, lineno, line.text, VatId, line.vats)
    + ShapeFindings(c, where, lineno, line.text, IbanNumber, line.ibans)
    + DenyFindings(c, where, lineno, Normalize(c.a, line.text), c.entries)
  }

  /** All findings of a text whose first line is numbered from. */
  function TextFindings(c: Config, where: string, lines: seq<Line>, from: nat): seq<Finding> {
    if lines == [] then []
    else LineFindings(c, where, from, lines[0]) + TextFindings(c, where, lines[1..], from + 1)
  }

  // ---- The loops ------------------------------------------------------------------------------

  method ScanShape(c: Config, where: string, lineno: nat, line: string, shape: Shape, ms: seq<Match>)
    returns (findings: seq<Finding>)
    ensures findings == ShapeFindings(c, where, lineno, line, shape, ms)
  {
    ghost var flagged := (m: Match) => Flagged(c, line, shape, m);
    findings := [];
    for i := 0 to |ms|
      invariant findings == Reports(where, lineno, shape, Filter(ms[..i], flagged))
    {
      FilterNext(ms, i, flagged);
      var report := Flagged(c, line, shape, ms[i]);
      assert report == flagged(ms[i]);
      if report {
        ReportsNext(where, lineno, shape, Filter(ms[..i], flagged), ms[i]);
        findings := findings + [Report(where, lineno, shape, ms[i])];
      }
    }
    assert ms[..|ms|] == ms;
  }

  /** Slide the window until it hits or runs out. */
  method FindWindow(c: Config, nline: string, e: Entry) returns (found: bool)
    ensures found <==> Hit(c, nline, e)
  {
    if e.len <= 0 || |nline| < e.len {
      return false;
    }
    for i := 0 to |nline| - e.len + 1
      invariant forall k | 0 <= k < i :: !WindowAt(c, nline, e, k)
    {
      if c.hash(c.salt + nline[i..i + e.len]) == e.sha256 {
        assert WindowAt(c, nline, e, i);
        return true;
      }
    }
    found := false;
  }

  method ScanEntries(c: Config, where: string, lineno: nat, text: string) returns (findings: seq<Finding>)
    ensures findings == DenyFindings(c, where, lineno, Normalize(c.a, text), c.entries)
  {
    findings := [];
    if c.entries != [] {
      var nline, es := Normalize(c.a, text), c.entries;
      for i := 0 to |es|
        invariant findings + DenyFindings(c, where, lineno, nline, es[i..]) == DenyFindings(c, where, lineno, nline, es)
      {
        assert es[i..][1..] == es[i + 1..];
        var found := FindWindow(c, nline, es[i]);
        if found {
          findings := findings + [Denied(where, lineno, es[i].tag, es[i].kind)];
        }
      }
    }
  }

  lemma Regroup(a: seq<Finding>, b: seq<Finding>, c: seq<Finding>)
    ensures a + (b + c) == (a + b) + c
  {
  }

  /** Scan a text line by line. */
  method ScanText(c: Config, where: string, lines: seq<Line>) returns (findings: seq<Finding>)
    ensures findings == TextFindings(c, where, lines, 1)
    ensures forall f :: multiset(findings)[f] == Times(c, where, lines, f)
  {
    findings := [];
    for i := 0 to |lines|
      invariant findings + TextFindings(c, where, lines[i..], i + 1) == TextFindings(c, where, lines, 1)
    {
      var line := lines[i];
      var vats := ScanShape(c, where, i + 1, line.text, VatId, line.vats);
      var ibans := ScanShape(c, where, i + 1, line.text, IbanNumber, line.ibans);
      var denied := ScanEntries(c, where, i + 1, line.text);
      TextNext(c, where, lines, i, findings);
      findings := findings + (vats + ibans + denied);
    }
    AllTimes(c, where, lines);
  }

  lemma TextNext(c: Config, where: string, lines: seq<Line>, i: nat, findings: seq<Finding>)
    requires i < |lines|
    ensures findings + TextFindings(c, where, lines[i..], i + 1)
         == (findings + LineFindings(c, where, i + 1, lines[i])) + TextFindings(c, where, lines[i + 1..], i + 2)
  {
    assert lines[i..][1..] == lines[i + 1..];
    Regroup(findings, LineFindings(c, where, i + 1, lines[i]), TextFindings(c, where, lines[i + 1..], i + 2));
  }

  lemma AllTimes(c: Config, where: string, lines: seq<Line>)
    ensures forall f :: multiset(TextFindings(c, where, lines, 1))[f] == Times(c, where, lines, f)
  {
    forall f ensures multiset(TextFindings(c, where, lines, 1))[f] == Times(c, where, lines, f) {
      TextTimes(c, where, lines, f);
    }
  }

  // ---- What is found, told from the text ------------------------------------------------------

  /** One of the masking marks stands in the match or within two characters of it. */
  ghost predicate Marked(line: string, m: Match) {
    exists i | 0 <= i < |line| :: m.start <= i + 2 && i < m.end + 2 && line[i] in {'#', '\U{00AB}', '\U{00BB}'}
  }

  /** A candidate is told by its first two characters and its length; an IBAN must pass its check; a
      masked or allowed one is not told. */
  ghost predicate Tells(c: Config, line: string, shape: Shape, head: string, length: nat, m: Match) {
    && |m.token| == length && head <= m.token && |head| == (if length < 2 then length else 2)
    && !Marked(line, m) && Normalize(c.a, m.token) !in c.allowed
    && (shape == VatId || (Iban.AllAlnum(m.token) && Iban.IsValid(m.token)))
  }

  /** Some stretch of the normalised line has the entry's length and its salted digest. */
  ghost predicate Occurs(c: Config, nline: string, e: Entry) {
    exists i, j | 0 <= i < j <= |nline| :: j - i == e.len && c.hash(c.salt + nline[i..j]) == e.sha256
  }

  /** The entry has this label and kind, and occurs. */
  ghost predicate Names(c: Config, nline: string, tag: string, kind: string, e: Entry) {
    e.tag == tag && e.kind == kind && Occurs(c, nline, e)
  }

  /** How often a finding is due: its line's candidates, or the entries, that tell it. */
  ghost function Times(c: Config, where: string, lines: seq<Line>, f: Finding): nat {
    if f.where != where || f.lineno == 0 || f.lineno > |lines| then 0
    else LineTimes(c, lines[f.lineno - 1], f)
  }

  ghost function LineTimes(c: Config, line: Line, f: Finding): nat {
    match f
    case Structural(_, _, shape, head, length) =>
      |Filter(if shape == VatId then line.vats else line.ibans, m => Tells(c, line.text, shape, head, length, m))|
    case Denied(_, _, tag, kind) =>
      |Filter(c.entries, (e: Entry) => Names(c, Normalize(c.a, line.text), tag, kind, e))|
  }

  lemma FlaggedTells(c: Config, where: string, n: nat, line: string, shape: Shape, m: Match, f: Finding)
    requires f.Structural? && f.where == where && f.lineno == n && f.shape == shape
    ensures Flagged(c, line, shape, m) && Report(where, n, shape, m) == f
       <==> Tells(c, line, shape, f.head, f.length, m)
  {
    assert MaskedContext(line, m) <==> Marked(line, m);
  }

  lemma HitOccurs(c: Config, nline: string, e: Entry)
    ensures Hit(c, nline, e) <==> Occurs(c, nline, e)
  {
    if i :| 0 <= i < |nline| && WindowAt(c, nline, e, i) {
      assert 0 <= i < i + e.len <= |nline| && c.hash(c.salt + nline[i..i + e.len]) == e.sha256;
    }
    if i, j :| 0 <= i < j <= |nline| && j - i == e.len && c.hash(c.salt + nline[i..j]) == e.sha256 {
      assert WindowAt(c, nline, e, i);
    }
  }

  lemma ShapeFirst(c: Config, where: string, n: nat, line: string, shape: Shape, ms: seq<Match>)
    requires ms != []
    ensures ShapeFindings(c, where, n, line, shape, ms)
         == (if Flagged(c, line, shape, ms[0]) then [Report(where, n, shape, ms[0])] else [])
            + ShapeFindings(c, where, n, line, shape, ms[1..])
  {
    var flagged := (m: Match) => Flagged(c, line, shape, m);
    var rest := Filter(ms[1..], flagged);
    assert ShapeFindings(c, where, n, line, shape, ms[1..]) == Reports(where, n, shape, rest);
    if flagged(ms[0]) {
      ReportsFirst(where, n, shape, ms[0], rest);
    } else {
      assert [] + rest == rest;
      NoneBefore(Reports(where, n, shape, rest));
    }
  }

  lemma NoneBefore(findings: seq<Finding>)
    ensures [] + findings == findings
  {
  }

  lemma ReportsFirst(where: string, n: nat, shape: Shape, m: Match, rest: seq<Match>)
    ensures Reports(where, n, shape, [m] + rest) == [Report(where, n, shape, m)] + Reports(where, n, shape, rest)
  {
  }

  lemma TellersFirst(c: Config, line: string, shape: Shape, ms: seq<Match>, head: string, length: nat)
    requires ms != []
    ensures |Filter(ms, m => Tells(c, line, shape, head, length, m))|
         == (if Tells(c, line, shape, head, length, ms[0]) then 1 else 0)
            + |Filter(ms[1..], m => Tells(c, line, shape, head, length, m))|
  {
  }

  lemma OneTells(c: Config, where: string, n: nat, line: string, shape: Shape, m: Match, f: Finding)
    ensures multiset(if Flagged(c, line, shape, m) then [Report(where, n, shape, m)] else [])[f]
         == if f.Structural? && f.where == where && f.lineno == n && f.shape == shape
               && Tells(c, line, shape, f.head, f.length, m) then 1 else 0
  {
    if f.Structural? && f.where == where && f.lineno == n && f.shape == shape {
      FlaggedTells(c, where, n, line, shape, m, f);
    }
  }

  lemma {:induction false} ShapeTimes(
    c: Config, where: string, n: nat, line: string, shape: Shape, ms: seq<Match>, f: Finding)
    ensures multiset(ShapeFindings(c, where, n, line, shape, ms))[f]
         == if f.Structural? && f.where == where && f.lineno == n && f.shape == shape
            then |Filter(ms, m => Tells(c, line, shape, f.head, f.length, m))| else 0
  {
    if ms == [] {
      assert ShapeFindings(c, where, n, line, shape, ms) == [];
    } else {
      ShapeTimes(c, where, n, line, shape, ms[1..], f);
      ShapeFirst(c, where, n, line, shape, ms);
      OneTells(c, where, n, line, shape, ms[0], f);
      TimesTogether(if Flagged(c, line, shape, ms[0]) then [Report(where, n, shape, ms[0])] else [],
                    ShapeFindings(c, where, n, line, shape, ms[1..]), f);
      if f.Structural? { TellersFirst(c, line, shape, ms, f.head, f.length); }
    }
  }

  lemma {:induction false} DenyTimes(c: Config, where: string, n: nat, nline: string, es: seq<Entry>, f: Finding)
    ensures multiset(DenyFindings(c, where, n, nline, es))[f]
         == if f.Denied? && f.where == where && f.lineno == n
            then |Filter(es, (e: Entry) => Names(c, nline, f.tag, f.kind, e))| else 0
  {
    if es != [] {
      DenyTimes(c, where, n, nline, es[1..], f);
      HitOccurs(c, nline, es[0]);
    }
  }

  lemma LineFoundTimes(c: Config, where: string, n: nat, line: Line, f: Finding)
    ensures multiset(LineFindings(c, where, n, line))[f]
         == if f.where == where && f.lineno == n then LineTimes(c, line, f) else 0
  {
    ShapeTimes(c, where, n, line.text, VatId, line.vats, f);
    ShapeTimes(c, where, n, line.text, IbanNumber, line.ibans, f);
    DenyTimes(c, where, n, Normalize(c.a, line.text), c.entries, f);
  }

  /** What is due on the lines of a text numbered from `from`. */
  ghost function Due(c: Config, where: string, lines: seq<Line>, from: nat, f: Finding): nat {
    if f.where == where && from <= f.lineno < from + |lines| then LineTimes(c, lines[f.lineno - from], f) else 0
  }

  lemma {:induction false} FoundTimes(c: Config, where: string, lines: seq<Line>, from: nat, f: Finding)
    ensures multiset(TextFindings(c, where, lines, from))[f] == Due(c, where, lines, from, f)
    decreases |lines|
  {
    if lines != [] {
      FoundTimes(c, where, lines[1..], from + 1, f);
      FirstLineTimes(c, where, lines, from, f);
      DueSplits(c, where, lines, from, f);
    }
  }

  lemma TextTimes(c: Config, where: string, lines: seq<Line>, f: Finding)
    ensures multiset(TextFindings(c, where, lines, 1))[f] == Times(c, where, lines, f)
  {
    FoundTimes(c, where, lines, 1, f);
  }

  lemma FirstLineTimes(c: Config, where: string, lines: seq<Line>, from: nat, f: Finding)
    requires lines != []
    ensures multiset(TextFindings(c, where, lines, from))[f]
         == Due(c, where, lines[..1], from, f) + multiset(TextFindings(c, where, lines[1..], from + 1))[f]
  {
    FirstLineDue(c, where, lines[0], from, f);
    assert lines[..1] == [lines[0]];
    TimesTogether(LineFindings(c, where, from, lines[0]), TextFindings(c, where, lines[1..], from + 1), f);
  }

  lemma FirstLineDue(c: Config, where: string, line: Line, n: nat, f: Finding)
    ensures multiset(LineFindings(c, where, n, line))[f] == Due(c, where, [line], n, f)
  {
    LineFoundTimes(c, where, n, line, f);
  }

  lemma DueSplits(c: Config, where: string, lines: seq<Line>, from: nat, f: Finding)
    requires lines != []
    ensures Due(c, where, lines, from, f)
         == Due(c, where, lines[..1], from, f) + Due(c, where, lines[1..], from + 1, f)
  {
    if from < f.lineno < from + |lines| {
      assert lines[1..][f.lineno - (from + 1)] == lines[f.lineno - from];
    }
  }

  lemma TimesTogether(a: seq<Finding>, b: seq<Finding>, f: Finding)
    ensures multiset(a + b)[f] == multiset(a)[f] + multiset(b)[f]
  {
  }

  // ---- Normalisation --------------------------------------------------------------------------

  lemma {:induction false} NormalizeSplit(a: Alphabet, s: string, t: string)
    ensures Normalize(a, s + t) == Normalize(a, s) + Normalize(a, t)
  {
    if s == "" {
      assert s + t == t;
    } else {
      assert (s + t)[1..] == s[1..] + t;
      NormalizeSplit(a, s[1..], t);
    }
  }

  /** One character: gone when it folds to whitespace, its lower case otherwise. */
  lemma NormalizeOne(a: Alphabet, ch: char)
    ensures Normalize(a, [ch]) == if a.space(a.lower(ch)) then [] else [a.lower(ch)]
  {
    assert [ch][1..] == "";
    assert Normalize(a, "") == "";
  }

  /** The line holds the value somewhere, in any case and with whitespace anywhere. */
  predicate Holds(a: Alphabet, line: string, value: string) {
    exists i, j | 0 <= i <= j <= |line| :: Normalize(a, line[i..j]) == Normalize(a, value)
  }

  /** Every prefix of a normalised line is some prefix of the line, normalised. */
  lemma {:induction false} PrefixComesFrom(a: Alphabet, s: string, p: nat) returns (i: nat)
    requires p <= |Normalize(a, s)|
    ensures i <= |s| && Normalize(a, s[..i]) == Normalize(a, s)[..p]
  {
    if p == 0 {
      i := 0;
    } else if a.space(a.lower(s[0])) {
      var k := PrefixComesFrom(a, s[1..], p);
      i := k + 1;
      assert s[..i][1..] == s[1..][..k];
    } else {
      var k := PrefixComesFrom(a, s[1..], p - 1);
      i := k + 1;
      assert s[..i][1..] == s[1..][..k];
      assert Normalize(a, s)[..p] == [a.lower(s[0])] + Normalize(a, s[1..])[..p - 1];
    }
  }

  /** Every window of a normalised line is some stretch of the line, normalised. */
  lemma WindowComesFrom(a: Alphabet, s: string, p: nat, q: nat) returns (i: nat, j: nat)
    requires p <= q <= |Normalize(a, s)|
    ensures i <= j <= |s| && Normalize(a, s[i..j]) == Normalize(a, s)[p..q]
  {
    i := PrefixComesFrom(a, s, p);
    assert s == s[..i] + s[i..];
    NormalizeSplit(a, s[..i], s[i..]);
    var k := PrefixComesFrom(a, s[i..], q - p);
    j := i + k;
    assert s[i..j] == s[i..][..k];
  }

  /** And every stretch, normalised, is a window. */
  lemma StretchIsWindow(a: Alphabet, s: string, i: nat, j: nat)
    requires i <= j <= |s|
    ensures var p := |Normalize(a, s[..i])|;
            var q := p + |Normalize(a, s[i..j])|;
            q <= |Normalize(a, s)| && Normalize(a, s)[p..q] == Normalize(a, s[i..j])
  {
    assert s == s[..i] + (s[i..j] + s[j..]);
    NormalizeSplit(a, s[..i], s[i..j] + s[j..]);
    NormalizeSplit(a, s[i..j], s[j..]);
  }

  // ---- What a hit means -----------------------------------------------------------------------

  /** An entry made from a value: its normalised length and salted digest. */
  predicate MadeFrom(c: Config, e: Entry, value: string) {
    var norm := Normalize(c.a, value);
    e.len == |norm| && e.len > 0 && e.sha256 == c.hash(c.salt + norm)
  }

  /** Completeness, for any digest: a line that holds the value hits its entry. */
  lemma HoldingHits(c: Config, e: Entry, value: string, line: string)
    requires MadeFrom(c, e, value) && Holds(c.a, line, value)
    ensures Hit(c, Normalize(c.a, line), e)
  {
    var i, j :| 0 <= i <= j <= |line| && Normalize(c.a, line[i..j]) == Normalize(c.a, value);
    StretchIsWindow(c.a, line, i, j);
    assert WindowAt(c, Normalize(c.a, line), e, |Normalize(c.a, line[..i])|);
  }

  ghost predicate CollisionFree(hash: Hash) { forall x, y :: hash(x) == hash(y) ==> x == y }

  /** Soundness, for a collision-free digest: a hit is a real occurrence. */
  lemma HitHolds(c: Config, e: Entry, value: string, line: string)
    requires CollisionFree(c.hash) && MadeFrom(c, e, value) && Hit(c, Normalize(c.a, line), e)
    ensures Holds(c.a, line, value)
  {
    var nline, norm := Normalize(c.a, line), Normalize(c.a, value);
    var p :| 0 <= p < |nline| && WindowAt(c, nline, e, p);
    var window := nline[p..p + e.len];
    assert c.salt + window == c.salt + norm;
    assert window == (c.salt + window)[|c.salt|..] && norm == (c.salt + norm)[|c.salt|..];
    var i, j := WindowComesFrom(c.a, line, p, p + e.len);
  }

  predicate DistinctLabels(es: seq<Entry>) {
    forall i, j | 0 <= i < j < |es| :: es[i].tag != es[j].tag
  }

  /** With distinct labels an entry is reported on a line once if it occurs there and not at all if it
      does not. */
  lemma ReportedOnce(c: Config, where: string, lines: seq<Line>, n: nat, e: Entry)
    requires n < |lines| && e in c.entries && DistinctLabels(c.entries)
    ensures multiset(TextFindings(c, where, lines, 1))[Denied(where, n + 1, e.tag, e.kind)]
         == if Occurs(c, Normalize(c.a, lines[n].text), e) then 1 else 0
  {
    var k :| 0 <= k < |c.entries| && c.entries[k] == e;
    TextTimes(c, where, lines, Denied(where, n + 1, e.tag, e.kind));
    NamedOnce(c, Normalize(c.a, lines[n].text), c.entries, k);
  }

  lemma NamedOnce(c: Config, nline: string, es: seq<Entry>, k: nat)
    requires k < |es| && DistinctLabels(es)
    ensures |Filter(es, (d: Entry) => Names(c, nline, es[k].tag, es[k].kind, d))|
         == if Occurs(c, nline, es[k]) then 1 else 0
  {
    OneOfItsLabel(es, k, (d: Entry) => Names(c, nline, es[k].tag, es[k].kind, d));
  }

  lemma {:induction false} OneOfItsLabel(es: seq<Entry>, k: nat, p: Entry -> bool)
    requires k < |es| && DistinctLabels(es) && forall e :: p(e) ==> e.tag == es[k].tag
    ensures |Filter(es, p)| == if p(es[k]) then 1 else 0
  {
    if k > 0 {
      assert es[0].tag != es[k].tag;
      OneOfItsLabel(es[1..], k - 1, p);
    } else {
      assert Filter(es[1..], p) == [] by {
        forall e | e in es[1..] ensures !p(e) {
          var i :| 0 <= i < |es[1..]| && es[1..][i] == e;
          assert es[0].tag != es[i + 1].tag;
        }
      }
    }
  }

  /** Every deny-listed finding names a line and an entry that occurs on it. */
  lemma DeniedComesFrom(c: Config, where: string, lines: seq<Line>, f: Finding) returns (e: Entry)
    requires f.Denied? && f in TextFindings(c, where, lines, 1)
    ensures f.where == where && 0 < f.lineno <= |lines|
    ensures e in c.entries && e.tag == f.tag && e.kind == f.kind
    ensures Occurs(c, Normalize(c.a, lines[f.lineno - 1].text), e)
  {
    TextTimes(c, where, lines, f);
    assert f in multiset(TextFindings(c, where, lines, 1));
    e := SomeNamed(c, Normalize(c.a, lines[f.lineno - 1].text), f.tag, f.kind);
  }

  lemma SomeNamed(c: Config, nline: string, tag: string, kind: string) returns (e: Entry)
    requires Filter(c.entries, (d: Entry) => Names(c, nline, tag, kind, d)) != []
    ensures e in c.entries && Names(c, nline, tag, kind, e)
  {
    var p := (d: Entry) => Names(c, nline, tag, kind, d);
    e :| e in c.entries && p(e);
  }
}
