/** Building the deny-list from the owner's identifier file, all or nothing, and what the built list
makes the scanner report. */
module DenyListBuild {
  import opened Options
  import opened Constraints
  import opened PiiScan

  datatype Identity = Identity(kind: string, tag: string, value: string)

  /** What a line of the file is: skipped, one identifier, or malformed. */
  datatype Parsed = Skipped | Row(id: Identity) | Malformed

  function StripEnd(a: Alphabet, s: string): string {
    if s != "" && a.space(s[|s| - 1]) then StripEnd(a, s[..|s| - 1]) else s
  }

  function StripBoth(a: Alphabet, s: string): string {
    if s != "" && a.space(s[0]) then StripBoth(a, s[1..]) else StripEnd(a, s)
  }

  /** The fields between tabs; there is always at least one. */
  function Fields(line: string): (fs: seq<string>)
    ensures |fs| >= 1
  {
    if line == "" then [""]
    else
      var rest := Fields(line[1..]);
      if line[0] == '\t' then [""] + rest else [[line[0]] + rest[0]] + rest[1..]
  }

  function Parse(a: Alphabet, line: string): Parsed {
    var bare := StripBoth(a, line);
    if bare == "" || bare[0] == '#' then Skipped
    else
      var fs := Fields(line);
      if |fs| != 3 || StripBoth(a, fs[0]) == "" || StripBoth(a, fs[1]) == "" || StripBoth(a, fs[2]) == "" then Malformed
      else Row(Identity(StripBoth(a, fs[0]), StripBoth(a, fs[1]), StripBoth(a, fs[2])))
  }

  /** The identifiers of the file, in file order. */
  function Identities(a: Alphabet, lines: seq<string>): seq<Identity> {
    if lines == [] then []
    else
      var front := Identities(a, lines[..|lines| - 1]);
      var last := Parse(a, lines[|lines| - 1]);
      if last.Row? then front + [last.id] else front
  }

  predicate DistinctTags(ids: seq<Identity>) {
    forall i, j | 0 <= i < j < |ids| :: ids[i].tag != ids[j].tag
  }

  predicate Acceptable(a: Alphabet, lines: seq<string>) {
    (forall l | l in lines :: !Parse(a, l).Malformed?) && DistinctTags(Identities(a, lines))
  }

  function EntryOf(a: Alphabet, hash: Hash, salt: string, id: Identity): Entry {
    var norm := Normalize(a, id.value);
    Entry(id.tag, |norm|, hash(salt + norm), id.kind)
  }

  function Entries(a: Alphabet, hash: Hash, salt: string, ids: seq<Identity>): seq<Entry> {
    seq(|ids|, i requires 0 <= i < |ids| => EntryOf(a, hash, salt, ids[i]))
  }

  /** The file holds an identifier as often as its lines say. */
  lemma {:induction false} IdentitiesAre(a: Alphabet, lines: seq<string>, id: Identity)
    ensures multiset(Identities(a, lines))[id] == |Filter(lines, l => Parse(a, l) == Row(id))|
  {
    if lines != [] {
      var front, last := lines[..|lines| - 1], lines[|lines| - 1];
      IdentitiesAre(a, front, id);
      FilterNext(lines, |lines| - 1, l => Parse(a, l) == Row(id));
      assert lines[..|lines| - 1 + 1] == lines;
    }
  }

  // ---- Ordering by label ----------------------------------------------------------------------

  predicate Before(s: string, t: string) {
    if t == "" then false
    else if s == "" then true
    else s[0] < t[0] || (s[0] == t[0] && Before(s[1..], t[1..]))
  }

  function Placed(e: Entry, es: seq<Entry>): seq<Entry> {
    if es == [] || Before(e.tag, es[0].tag) then [e] + es else [es[0]] + Placed(e, es[1..])
  }

  function Sorted(es: seq<Entry>): seq<Entry> {
    if es == [] then [] else Placed(es[|es| - 1], Sorted(es[..|es| - 1]))
  }

  predicate Ordered(es: seq<Entry>) {
    forall i | 0 <= i < |es| - 1 :: !Before(es[i + 1].tag, es[i].tag)
  }

  lemma {:induction false} BeforeAsymmetric(s: string, t: string)
    ensures !(Before(s, t) && Before(t, s))
  {
    if s != "" && t != "" { BeforeAsymmetric(s[1..], t[1..]); }
  }

  lemma {:induction false} PlacedKeeps(e: Entry, es: seq<Entry>)
    ensures multiset(Placed(e, es)) == multiset(es) + multiset{e}
    ensures |Placed(e, es)| == |es| + 1 && (Placed(e, es)[0] == e || (es != [] && Placed(e, es)[0] == es[0]))
    ensures Ordered(es) ==> Ordered(Placed(e, es))
  {
    if es == [] {
    } else if Before(e.tag, es[0].tag) {
      BeforeAsymmetric(e.tag, es[0].tag);
    } else {
      PlacedKeeps(e, es[1..]);
      assert es == [es[0]] + es[1..];
      if Ordered(es) {
        assert Ordered(es[1..]) by {
          forall i | 0 <= i < |es[1..]| - 1 ensures !Before(es[1..][i + 1].tag, es[1..][i].tag) {
            assert es[1..][i] == es[i + 1] && es[1..][i + 1] == es[i + 1 + 1];
          }
        }
        var rest := Placed(e, es[1..]);
        assert !Before(rest[0].tag, es[0].tag) by {
          if es[1..] != [] && rest[0] == es[1..][0] { assert !Before(es[0 + 1].tag, es[0].tag); }
        }
      }
    }
  }

  lemma {:induction false} SortedKeeps(es: seq<Entry>)
    ensures multiset(Sorted(es)) == multiset(es) && Ordered(Sorted(es))
  {
    if es != [] {
      var front, last := es[..|es| - 1], es[|es| - 1];
      SortedKeeps(front);
      PlacedKeeps(last, Sorted(front));
      assert es == front + [last];
      assert multiset(es) == multiset(front) + multiset{last};
    }
  }

  function TagsOf(ids: seq<Identity>): set<string> { set id | id in ids :: id.tag }

  lemma EntriesNext(a: Alphabet, hash: Hash, salt: string, ids: seq<Identity>, id: Identity)
    ensures Entries(a, hash, salt, ids + [id]) == Entries(a, hash, salt, ids) + [EntryOf(a, hash, salt, id)]
    ensures TagsOf(ids + [id]) == TagsOf(ids) + {id.tag}
  {
  }

  // ---- The builder ----------------------------------------------------------------------------

  /** The committed deny-list file; None when it cannot be read. */
  class DenyListFile {
    var entries: Option<seq<Entry>>

    constructor (entries: Option<seq<Entry>>)
      ensures this.entries == entries
    {
      this.entries := entries;
    }

    /** Rebuild the file. It is written once, at the end, and only when the salt is set, both files
        can be read and every line is good; any refusal leaves it as it was. */
    method Rebuild(a: Alphabet, hash: Hash, salt: string, identifiers: Option<seq<string>>) returns (code: nat)
      modifies this
      ensures code == 0 || code == 2
      ensures code == 0 <==>
              salt != "" && identifiers.Some? && old(entries).Some? && Acceptable(a, identifiers.value)
      ensures entries == if code == 0 then Some(Sorted(Entries(a, hash, salt, Identities(a, identifiers.value))))
                         else old(entries)
    {
      if salt == "" || identifiers.None? || entries.None? {
        return 2;
      }
      var lines := identifiers.value;
      var built: seq<Entry> := [];
      var seen: set<string> := {};
      for i := 0 to |lines|
        invariant entries == old(entries)
        invariant Halfway(a, hash, salt, lines, i, built, seen)
      {
        HalfwayNext(a, hash, salt, lines, i, built, seen);
        var parsed := Parse(a, lines[i]);
        if parsed.Malformed? || (parsed.Row? && parsed.id.tag in seen) {
          return 2;
        }
        if parsed.Row? {
          seen := seen + {parsed.id.tag};
          built := built + [EntryOf(a, hash, salt, parsed.id)];
        }
      }
      assert lines[..|lines|] == lines;
      entries := Some(Sorted(built));
      code := 0;
    }
  }

  lemma AcceptableNext(a: Alphabet, lines: seq<string>, i: nat)
    requires i < |lines|
    ensures var ids, parsed := Identities(a, lines[..i]), Parse(a, lines[i]);
            Identities(a, lines[..i + 1]) == (if parsed.Row? then ids + [parsed.id] else ids) &&
            (Acceptable(a, lines[..i + 1]) <==>
              Acceptable(a, lines[..i]) && !parsed.Malformed? &&
              (parsed.Row? ==> parsed.id.tag !in TagsOf(ids)))
  {
    var ids, parsed := Identities(a, lines[..i]), Parse(a, lines[i]);
    assert lines[..i + 1][..i] == lines[..i] && lines[..i + 1] == lines[..i] + [lines[i]];
    var next := Identities(a, lines[..i + 1]);
    assert lines[i] in lines[..i + 1] && forall l | l in lines[..i] :: l in lines[..i + 1];
    if parsed.Row? {
      assert next == ids + [parsed.id] && next[|ids|] == parsed.id;
      assert forall k | 0 <= k < |ids| :: next[k] == ids[k];
      if k :| 0 <= k < |ids| && ids[k].tag == parsed.id.tag {
        assert next[k].tag == next[|ids|].tag;
        assert ids[k] in ids;
      }
      if DistinctTags(next) {
        forall k, j | 0 <= k < j < |ids| ensures ids[k].tag != ids[j].tag { assert next[k].tag != next[j].tag; }
      }
    }
  }

  /** The builder after the first i lines, all of them good. */
  ghost predicate Halfway(a: Alphabet, hash: Hash, salt: string, lines: seq<string>, i: nat,
                          built: seq<Entry>, seen: set<string>)
    requires i <= |lines|
  {
    && Acceptable(a, lines[..i])
    && built == Entries(a, hash, salt, Identities(a, lines[..i]))
    && seen == TagsOf(Identities(a, lines[..i]))
  }

  lemma HalfwayNext(a: Alphabet, hash: Hash, salt: string, lines: seq<string>, i: nat,
                    built: seq<Entry>, seen: set<string>)
    requires i < |lines| && Halfway(a, hash, salt, lines, i, built, seen)
    ensures var parsed := Parse(a, lines[i]);
            if parsed.Malformed? || (parsed.Row? && parsed.id.tag in seen) then !Acceptable(a, lines)
            else if parsed.Row? then
              Halfway(a, hash, salt, lines, i + 1, built + [EntryOf(a, hash, salt, parsed.id)], seen + {parsed.id.tag})
            else Halfway(a, hash, salt, lines, i + 1, built, seen)
  {
    AcceptableNext(a, lines, i);
    var parsed := Parse(a, lines[i]);
    if parsed.Malformed? || (parsed.Row? && parsed.id.tag in seen) {
      NeverAcceptable(a, lines, i + 1);
    } else if parsed.Row? {
      EntriesNext(a, hash, salt, Identities(a, lines[..i]), parsed.id);
    }
  }

  /** One bad line, or one repeated label, and no continuation of the file is acceptable. */
  lemma {:induction false} NeverAcceptable(a: Alphabet, lines: seq<string>, i: nat)
    requires i <= |lines| && !Acceptable(a, lines[..i])
    ensures !Acceptable(a, lines)
    decreases |lines| - i
  {
    if i < |lines| {
      AcceptableNext(a, lines, i);
      NeverAcceptable(a, lines, i + 1);
    } else {
      assert lines[..i] == lines;
    }
  }

  // ---- Builder and scanner together -----------------------------------------------------------

  /** Folding never turns a visible character into whitespace. */
  ghost predicate FoldsVisibly(a: Alphabet) { forall ch :: a.space(a.lower(ch)) ==> a.space(ch) }

  lemma {:induction false} StrippedIsVisible(a: Alphabet, s: string)
    requires StripBoth(a, s) != ""
    ensures !a.space(StripBoth(a, s)[0])
  {
    if a.space(s[0]) {
      StrippedIsVisible(a, s[1..]);
    } else {
      StripEndKeepsHead(a, s);
    }
  }

  lemma {:induction false} StripEndKeepsHead(a: Alphabet, s: string)
    requires s != "" && !a.space(s[0])
    ensures StripEnd(a, s) != "" && StripEnd(a, s)[0] == s[0]
  {
    if a.space(s[|s| - 1]) { StripEndKeepsHead(a, s[..|s| - 1]); }
  }

  /** Every accepted identifier normalises to something, so its entry is never skipped. */
  lemma {:induction false} IdentitiesVisible(a: Alphabet, lines: seq<string>, id: Identity)
    requires FoldsVisibly(a) && id in Identities(a, lines)
    ensures Normalize(a, id.value) != ""
  {
    var front, last := Identities(a, lines[..|lines| - 1]), Parse(a, lines[|lines| - 1]);
    if id in front {
      IdentitiesVisible(a, lines[..|lines| - 1], id);
    } else {
      StrippedIsVisible(a, Fields(lines[|lines| - 1])[2]);
    }
  }

  /** The built list keeps exactly one entry for each identifier, labels still distinct. */
  lemma SortedEntry(a: Alphabet, hash: Hash, salt: string, ids: seq<Identity>, k: nat) returns (at: nat)
    requires k < |ids|
    ensures var es := Sorted(Entries(a, hash, salt, ids));
            at < |es| && es[at] == EntryOf(a, hash, salt, ids[k])
  {
    var raw := Entries(a, hash, salt, ids);
    SortedKeeps(raw);
    assert raw[k] in multiset(Sorted(raw));
    at :| 0 <= at < |Sorted(raw)| && Sorted(raw)[at] == raw[k];
  }

  lemma {:induction false} PlacedTags(e: Entry, es: seq<Entry>)
    requires DistinctLabels(es) && forall i | 0 <= i < |es| :: es[i].tag != e.tag
    ensures DistinctLabels(Placed(e, es))
  {
    if es != [] && !Before(e.tag, es[0].tag) {
      PlacedTags(e, es[1..]);
      PlacedKeeps(e, es[1..]);
      var rest := Placed(e, es[1..]);
      forall i | 0 <= i < |rest| ensures rest[i].tag != es[0].tag {
        assert rest[i] in multiset(rest);
      }
    }
  }

  lemma {:induction false} SortedTags(es: seq<Entry>)
    requires DistinctLabels(es)
    ensures DistinctLabels(Sorted(es))
  {
    if es != [] {
      var front, last := es[..|es| - 1], es[|es| - 1];
      SortedTags(front);
      SortedKeeps(front);
      forall i | 0 <= i < |Sorted(front)| ensures Sorted(front)[i].tag != last.tag {
        assert Sorted(front)[i] in multiset(front);
      }
      PlacedTags(last, Sorted(front));
    }
  }

  /** Completeness across builder and scanner: for any digest, a line that holds an accepted
      identifier in any case, with whitespace anywhere, is reported by its number and its label exactly
      once. */
  lemma BuiltListReports(c: Config, file: seq<string>, id: Identity, where: string, lines: seq<Line>, n: nat)
    requires FoldsVisibly(c.a) && Acceptable(c.a, file) && id in Identities(c.a, file)
    requires c.entries == Sorted(Entries(c.a, c.hash, c.salt, Identities(c.a, file)))
    requires n < |lines| && Holds(c.a, lines[n].text, id.value)
    ensures multiset(TextFindings(c, where, lines, 1))[Denied(where, n + 1, id.tag, id.kind)] == 1
  {
    var ids := Identities(c.a, file);
    var k :| 0 <= k < |ids| && ids[k] == id;
    var at := SortedEntry(c.a, c.hash, c.salt, ids, k);
    IdentitiesVisible(c.a, file, id);
    HoldingHits(c, c.entries[at], id.value, lines[n].text);
    HitOccurs(c, Normalize(c.a, lines[n].text), c.entries[at]);
    SortedTags(Entries(c.a, c.hash, c.salt, ids));
    ReportedOnce(c, where, lines, n, c.entries[at]);
  }

  /** Soundness across both, for a collision-free digest: every deny-list finding of a text names a
      line of it and an accepted identifier that line really holds. */
  lemma BuiltListReportsOnly(c: Config, file: seq<string>, where: string, lines: seq<Line>, f: Finding)
    returns (id: Identity)
    requires FoldsVisibly(c.a) && CollisionFree(c.hash)
    requires c.entries == Sorted(Entries(c.a, c.hash, c.salt, Identities(c.a, file)))
    requires f.Denied? && f in TextFindings(c, where, lines, 1)
    ensures 0 < f.lineno <= |lines| && f == Denied(where, f.lineno, id.tag, id.kind)
    ensures id in Identities(c.a, file) && Holds(c.a, lines[f.lineno - 1].text, id.value)
  {
    var ids := Identities(c.a, file);
    var raw := Entries(c.a, c.hash, c.salt, ids);
    var e := DeniedComesFrom(c, where, lines, f);
    SortedKeeps(raw);
    assert e in multiset(raw);
    var k :| 0 <= k < |raw| && raw[k] == e;
    id := ids[k];
    IdentitiesVisible(c.a, file, id);
    HitOccurs(c, Normalize(c.a, lines[f.lineno - 1].text), e);
    HitHolds(c, e, id.value, lines[f.lineno - 1].text);
  }

  // ---- Reading a line of the file -----------------------------------------------------------------

  /** t is s without the whitespace around it. */
  ghost predicate Stripped(a: Alphabet, s: string, t: string) {
    && (exists before, after :: s == before + t + after && Blank(a, before) && Blank(a, after))
    && (t != "" ==> !a.space(t[0]) && !a.space(t[|t| - 1]))
  }

  ghost predicate Blank(a: Alphabet, s: string) { forall ch | ch in s :: a.space(ch) }

  lemma {:induction false} EndStripped(a: Alphabet, s: string) returns (after: string)
    ensures s == StripEnd(a, s) + after && Blank(a, after)
    ensures StripEnd(a, s) != "" ==> !a.space(StripEnd(a, s)[|StripEnd(a, s)| - 1])
  {
    if s != "" && a.space(s[|s| - 1]) {
      after := EndStripped(a, s[..|s| - 1]);
      assert s == s[..|s| - 1] + [s[|s| - 1]];
      after := after + [s[|s| - 1]];
    } else {
      after := "";
    }
  }

  lemma {:induction false} StripStrips(a: Alphabet, s: string)
    ensures Stripped(a, s, StripBoth(a, s))
  {
    if s != "" && a.space(s[0]) {
      StripStrips(a, s[1..]);
      MoreBefore(a, s, StripBoth(a, s));
    } else {
      var t := StripBoth(a, s);
      var after := EndStripped(a, s);
      assert s == "" + t + after;
      if t != "" { assert t[0] == s[0]; }
    }
  }

  lemma MoreBefore(a: Alphabet, s: string, t: string)
    requires s != "" && a.space(s[0]) && Stripped(a, s[1..], t)
    ensures Stripped(a, s, t)
  {
    var before, after :| s[1..] == before + t + after && Blank(a, before) && Blank(a, after);
    assert s == ([s[0]] + before) + t + after && Blank(a, [s[0]] + before);
  }

  /** The line is these three columns, with a tab between each two. */
  ghost predicate Columns(line: string, kind: string, tag: string, value: string) {
    line == kind + "\t" + tag + "\t" + value && '\t' !in kind && '\t' !in tag && '\t' !in value
  }

  lemma {:induction false} FieldsHead(field: string, rest: string)
    requires '\t' !in field
    ensures Fields(field) == [field]
    ensures Fields(field + "\t" + rest) == [field] + Fields(rest)
  {
    if field == "" {
      assert "" + "\t" + rest == "\t" + rest && ("\t" + rest)[1..] == rest;
    } else {
      FieldsHead(field[1..], rest);
      assert (field + "\t" + rest)[1..] == field[1..] + "\t" + rest;
      assert field == [field[0]] + field[1..];
    }
  }

  lemma {:induction false} FieldsTabless(line: string, k: nat)
    requires k < |Fields(line)|
    ensures '\t' !in Fields(line)[k]
  {
    if line != "" {
      var rest := Fields(line[1..]);
      FieldsTabless(line[1..], 0);
      if k > 0 { FieldsTabless(line[1..], if line[0] == '\t' then k - 1 else k); }
    }
  }

  lemma {:induction false} FieldsRejoin(line: string)
    ensures Joined(Fields(line)) == line
  {
    if line != "" {
      var rest := Fields(line[1..]);
      FieldsRejoin(line[1..]);
      if line[0] == '\t' {
        assert ([""] + rest)[1..] == rest;
        assert "" + "\t" + line[1..] == line;
      } else {
        var fs := [[line[0]] + rest[0]] + rest[1..];
        assert fs[1..] == rest[1..];
        if |rest| == 1 {
          assert [line[0]] + line[1..] == line;
        } else {
          assert ([line[0]] + rest[0]) + "\t" + Joined(rest[1..]) == [line[0]] + (rest[0] + "\t" + Joined(rest[1..]));
        }
      }
    }
  }

  ghost function Joined(fs: seq<string>): string
    requires |fs| >= 1
  {
    if |fs| == 1 then fs[0] else fs[0] + "\t" + Joined(fs[1..])
  }

  /** The first character of a line that is not whitespace, when it has one. */
  ghost predicate FirstVisible(a: Alphabet, line: string, i: nat) {
    i < |line| && !a.space(line[i]) && Blank(a, line[..i])
  }

  lemma {:induction false} BareHead(a: Alphabet, line: string, i: nat)
    requires FirstVisible(a, line, i)
    ensures StripBoth(a, line) != "" && StripBoth(a, line)[0] == line[i]
  {
    if i == 0 {
      StripEndKeepsHead(a, line);
    } else {
      assert line[..i][0] == line[0];
      assert FirstVisible(a, line[1..], i - 1) by {
        forall ch | ch in line[1..][..i - 1] ensures a.space(ch) { assert ch in line[..i]; }
      }
      BareHead(a, line[1..], i - 1);
    }
  }

  /** A line is skipped when it is blank or its first visible character is '#' ... */
  lemma SkippedExactly(a: Alphabet, line: string)
    ensures Parse(a, line).Skipped? <==> Blank(a, line) || exists i: nat :: FirstVisible(a, line, i) && line[i] == '#'
  {
    var bare := StripBoth(a, line);
    StripStrips(a, line);
    var before, after :| line == before + bare + after && Blank(a, before) && Blank(a, after);
    if bare != "" {
      assert line[|before|] == bare[0] && bare[0] in line;
      assert line[..|before|] == before;
      assert FirstVisible(a, line, |before|);
    }
    forall i: nat | FirstVisible(a, line, i) ensures bare != "" && bare[0] == line[i] { BareHead(a, line, i); }
  }

  /** ... any other line is one identifier exactly when it is three columns, kind, label and value in
      this order, none of them blank; each is read without the whitespace around it. */
  lemma RowExactly(a: Alphabet, line: string)
    requires !Parse(a, line).Skipped?
    ensures Parse(a, line).Row? <==>
            exists k, t, v :: Columns(line, k, t, v) && !Blank(a, k) && !Blank(a, t) && !Blank(a, v)
  {
    if k, t, v :| Columns(line, k, t, v) && !Blank(a, k) && !Blank(a, t) && !Blank(a, v) {
      ColumnsRead(a, line, k, t, v);
    }
    if Parse(a, line).Row? {
      var fs := Fields(line);
      FieldsRejoin(line);
      FieldsTabless(line, 0);
      FieldsTabless(line, 1);
      FieldsTabless(line, 2);
      assert fs[1..][1..] == [fs[2]] && Joined([fs[2]]) == fs[2];
      assert Joined(fs) == fs[0] + "\t" + (fs[1] + "\t" + fs[2]) == fs[0] + "\t" + fs[1] + "\t" + fs[2];
      VisibleStrips(a, fs[0]);
      VisibleStrips(a, fs[1]);
      VisibleStrips(a, fs[2]);
      assert Columns(line, fs[0], fs[1], fs[2]);
    }
  }

  lemma VisibleStrips(a: Alphabet, s: string)
    ensures StripBoth(a, s) == "" <==> Blank(a, s)
  {
    var t := StripBoth(a, s);
    StripStrips(a, s);
    var before, after :| s == before + t + after && Blank(a, before) && Blank(a, after);
    if t != "" { assert t[0] in s; }
  }

  lemma ColumnsRead(a: Alphabet, line: string, k: string, t: string, v: string)
    requires Columns(line, k, t, v) && !Blank(a, k) && !Blank(a, t) && !Blank(a, v) && !Parse(a, line).Skipped?
    ensures var p := Parse(a, line);
            p.Row? && Stripped(a, k, p.id.kind) && Stripped(a, t, p.id.tag) && Stripped(a, v, p.id.value)
  {
    assert line == k + "\t" + (t + "\t" + v);
    FieldsHead(k, t + "\t" + v);
    FieldsHead(t, v);
    FieldsHead(v, "");
    assert Fields(line) == [k] + ([t] + [v]) == [k, t, v];
    VisibleStrips(a, k);
    VisibleStrips(a, t);
    VisibleStrips(a, v);
    StripStrips(a, k);
    StripStrips(a, t);
    StripStrips(a, v);
  }

  /** The order of the labels is the dictionary order. */
  lemma {:induction false} BeforeMeans(s: string, t: string)
    ensures Before(s, t) <==>
            exists i | 0 <= i <= |s| && i < |t| :: s[..i] == t[..i] && (i == |s| || s[i] < t[i])
  {
    if s != "" && t != "" && s[0] == t[0] {
      BeforeMeans(s[1..], t[1..]);
      if i :| 0 <= i <= |s| - 1 && i < |t| - 1 && s[1..][..i] == t[1..][..i] && (i == |s| - 1 || s[i + 1] < t[i + 1]) {
        assert s[..i + 1] == [s[0]] + s[1..][..i] && t[..i + 1] == [t[0]] + t[1..][..i];
      }
      if i :| 0 <= i <= |s| && i < |t| && s[..i] == t[..i] && (i == |s| || s[i] < t[i]) {
        assert s[1..][..i - 1] == s[..i][1..] && t[1..][..i - 1] == t[..i][1..];
      }
    } else if s != "" && t != "" {
      assert s[..0] == t[..0];
      forall i | 0 < i <= |s| && i < |t| ensures s[..i] != t[..i] { assert s[..i][0] == s[0] && t[..i][0] == t[0]; }
    } else if t != "" {
      assert s[..0] == t[..0];
    }
  }
}
