/** Data passes that rewrite a column one distinct value at a time: SELECT DISTINCT, then one
UPDATE per value. They must come out as one simultaneous map over the rows, in whatever order the
values were read. */
module RewritePass {
  import opened SqlLogic
  import opened Texts
  import opened Constraints
  import opened FxProvenance
  import Iban

  type Cells = seq<Value>

  /** The distinct non-NULL values. */
  function Distinct(cells: Cells): set<string> {
    set c | c in cells && c.Text? :: c.s
  }

  /** Every row mapped at once. */
  function Mapped(cells: Cells, f: string -> string): Cells {
    seq(|cells|, i requires 0 <= i < |cells| => if cells[i].Text? then Text(f(cells[i].s)) else Null)
  }

  /** Only the rows whose value has had its turn. */
  function MappedWithin(cells: Cells, done: set<string>, f: string -> string): Cells {
    Mapped(cells, v => if v in done then f(v) else v)
  }

  /** The rows a whole pass changes. */
  function Changed(cells: Cells, done: set<string>, f: string -> string): set<int> {
    set i | 0 <= i < |cells| && cells[i].Text? && cells[i].s in done && f(cells[i].s) != cells[i].s
  }

  /** The rows an UPDATE ... WHERE v = old matches. */
  function Hits(cells: Cells, old_: string): set<int> {
    set i | 0 <= i < |cells| && cells[i] == Text(old_)
  }

  /** f never moves a value twice. */
  ghost predicate Settles(f: string -> string) { forall v :: f(f(v)) == f(v) }

  /** UPDATE t SET v = new WHERE v = old */
  function Replaced(cells: Cells, old_: string, new_: string): Cells {
    Mapped(cells, v => if v == old_ then new_ else v)
  }

  /** One more value's turn: because images are fixed points, no row an earlier UPDATE produced is
      disturbed, and the rows matched are the rows that held the value from the start. */
  lemma TurnOf(cells: Cells, done: set<string>, v: string, f: string -> string)
    requires Settles(f) && v !in done
    ensures Replaced(MappedWithin(cells, done, f), v, f(v)) == MappedWithin(cells, done + {v}, f)
    ensures f(v) == v ==> MappedWithin(cells, done, f) == MappedWithin(cells, done + {v}, f)
    ensures f(v) == v ==> Changed(cells, done + {v}, f) == Changed(cells, done, f)
    ensures f(v) != v ==>
              |Changed(cells, done + {v}, f)| == |Changed(cells, done, f)| + |Hits(MappedWithin(cells, done, f), v)|
  {
    var now := MappedWithin(cells, done, f);
    forall i | 0 <= i < |cells| && cells[i].Text? && cells[i].s in done && now[i] == Text(v) ensures f(v) == v {
      assert f(f(cells[i].s)) == f(cells[i].s);
    }
    if f(v) != v {
      var more := Hits(now, v);
      assert Changed(cells, done + {v}, f) == Changed(cells, done, f) + more;
      assert Changed(cells, done, f) !! more;
    }
  }

  /** Where an image is not a fixed point the passes do differ: rewriting a to b and then b to c
      moves a's row twice. */
  lemma UnsettledPassDiffers()
    ensures var f := v => if v == "a" then "b" else if v == "b" then "c" else v;
            var cells := [Text("a"), Text("b")];
            Replaced(Replaced(cells, "a", f("a")), "b", f("b")) != Mapped(cells, f)
  {
    var f := v => if v == "a" then "b" else if v == "b" then "c" else v;
    var cells := [Text("a"), Text("b")];
    assert Replaced(Replaced(cells, "a", f("a")), "b", f("b"))[0] == Text("c");
    assert Mapped(cells, f)[0] == Text("b");
  }

  lemma WholePass(cells: Cells, f: string -> string)
    ensures MappedWithin(cells, Distinct(cells), f) == Mapped(cells, f)
    ensures MappedWithin(cells, {}, f) == cells
  {
  }

  /** A rerun finds nothing to do. */
  lemma SecondPassIdle(cells: Cells, f: string -> string)
    requires Settles(f)
    ensures Mapped(Mapped(cells, f), f) == Mapped(cells, f)
    ensures var now := Mapped(cells, f); Changed(now, Distinct(now), f) == {}
  {
  }

  // ---- fx_source ------------------------------------------------------------------------------

  /** The explicit mapping table; anything absent becomes 'unknown'. */
  function FxBucket(v: string): string {
    if v in {"eur", "stated", "ecb", "unknown"} then v
    else if v in {"manual", "card", "bank", "card_statement", "bank_statement", "statement", "receipt"} then "stated"
    else "unknown"
  }

  /** Looked up stripped and lower-cased. */
  function FxSource(raw: string): string { FxBucket(LowerText(Strip(raw))) }

  /** The words that say somebody stated the rate. */
  ghost const STATED_WORDS: set<string> :=
    {"stated", "manual", "card", "bank", "card_statement", "bank_statement", "statement", "receipt"}

  /** Whatever whitespace stands around a word and in whatever case, it is read by the table: the four
      values are themselves, seven words more say that somebody stated the rate, all else is unknown. */
  lemma FxSourceMeans(before: string, word: string, after: string)
    requires AllSpace(before) && AllSpace(after)
    requires word != "" ==> !AllSpace([word[0]]) && !AllSpace([word[|word| - 1]])
    ensures var source := FxSource(before + word + after);
            && (source == "eur" <==> AlikeButCase(word, "eur"))
            && (source == "ecb" <==> AlikeButCase(word, "ecb"))
            && (source == "stated" <==> exists w :: w in STATED_WORDS && AlikeButCase(word, w))
            && source in {"eur", "ecb", "stated", "unknown"}
  {
    StripExact(before, word, after);
    BucketMeans(LowerText(word));
    ReadAs(word, "eur");
    ReadAs(word, "ecb");
    forall w | w in STATED_WORDS ensures LowerText(word) == w <==> AlikeButCase(word, w) {
      StatedAreLower(w);
      ReadAs(word, w);
    }
    assert LowerText(word) in STATED_WORDS ==> AlikeButCase(word, LowerText(word));
  }

  lemma BucketMeans(word: string)
    ensures FxBucket(word) == "eur" <==> word == "eur"
    ensures FxBucket(word) == "ecb" <==> word == "ecb"
    ensures FxBucket(word) == "stated" <==> word in STATED_WORDS
    ensures FxBucket(word) in {"eur", "ecb", "stated", "unknown"}
  {
  }

  lemma StatedAreLower(w: string)
    requires w in STATED_WORDS
    ensures NoUpper(w)
  {
  }

  lemma ReadAs(word: string, w: string)
    requires NoUpper(w)
    ensures LowerText(word) == w <==> AlikeButCase(word, w)
  {
    LowerKeeps(w);
    LowerAlike(word, w);
  }

  lemma BucketIsOneOfFour(s: string)
    ensures FxBucket(s) in SOURCES
  {
    assert SOURCES == ["eur", "stated", "ecb", "unknown"];
  }

  lemma BucketsStay(s: string)
    requires s in SOURCES
    ensures FxSource(s) == s
  {
    assert s == "eur" || s == "stated" || s == "ecb" || s == "unknown";
    StripKeeps(s);
    LowerKeeps(s);
  }

  lemma FxSourceSettles()
    ensures Settles(FxSource)
    ensures forall v :: FxSource(v) in SOURCES
  {
    forall v ensures FxSource(FxSource(v)) == FxSource(v) && FxSource(v) in SOURCES {
      BucketIsOneOfFour(LowerText(Strip(v)));
      BucketsStay(FxSource(v));
    }
  }

  // ---- IBANs ----------------------------------------------------------------------------------

  /** Rewritten only where the canonical form passes the check. */
  function IbanForm(raw: string): string {
    if BadIban(raw) then raw else Iban.Canonical(raw)
  }

  lemma IbanFormSettles()
    ensures Settles(IbanForm)
  {
    forall v ensures IbanForm(IbanForm(v)) == IbanForm(v) {
      Iban.CanonicalIdempotent(v);
    }
  }

  predicate BadIban(raw: string) { !Iban.Accepts(Iban.Canonical(raw)) }

  /** Last four characters and the length; an empty value is named as such. */
  datatype Masked = Empty | Masked(tail: string, length: nat)

  function MaskIban(raw: string): Masked {
    var iban := Iban.Canonical(raw);
    if iban == "" then Empty else Masked(iban[(if |iban| < 4 then 0 else |iban| - 4)..], |iban|)
  }

  /** A stored value is rewritten, to its text without whitespace and in capitals, exactly when that is
      an IBAN in shape, length and remainder; a mask shows four characters at most. */
  lemma IbanFormMeans(raw: string)
    ensures var iban := Iban.Canonical(raw);
            && (BadIban(raw) <==> !Iban.WellFormed(iban))
            && IbanForm(raw) == (if Iban.WellFormed(iban) then iban else raw)
            && (MaskIban(raw) == Empty <==> iban == "")
            && (MaskIban(raw).Masked? ==>
                  MaskIban(raw).length == |iban| && |MaskIban(raw).tail| == (if |iban| < 4 then |iban| else 4)
                  && exists front :: iban == front + MaskIban(raw).tail)
  {
    var iban := Iban.Canonical(raw);
    Iban.CanonicalIdempotent(raw);
    Iban.AcceptsMeans(iban);
    if iban != "" {
      var n := if |iban| < 4 then 0 else |iban| - 4;
      assert iban == iban[..n] + MaskIban(raw).tail;
    }
  }

  /** The distinct values a pass leaves alone as invalid. */
  function Rejected(values: set<string>, bad: string -> bool): set<string> {
    set v | v in values && bad(v)
  }

  /** The masks of some values, one for each: as often as values share it. */
  ghost predicate MasksOf(masks: multiset<Masked>, values: set<string>) {
    forall m :: masks[m] == |set v | v in values && MaskIban(v) == m|
  }

  lemma MasksNext(masks: multiset<Masked>, values: set<string>, v: string)
    requires MasksOf(masks, values) && v !in values
    ensures MasksOf(masks + multiset{MaskIban(v)}, values + {v})
  {
    forall m ensures (masks + multiset{MaskIban(v)})[m] == |set w | w in values + {v} && MaskIban(w) == m| {
      var before := set w | w in values && MaskIban(w) == m;
      assert (set w | w in values + {v} && MaskIban(w) == m) == if MaskIban(v) == m then before + {v} else before;
    }
  }

  /** How far a pass has come once the values in `done` have had their turn. */
  ghost predicate Progress(before: Cells, now: Cells, done: set<string>, rewritten: nat, invalid: multiset<Masked>,
                           f: string -> string, bad: string -> bool)
  {
    && now == MappedWithin(before, done, f)
    && rewritten == |Changed(before, done, f)|
    && MasksOf(invalid, Rejected(done, bad))
  }

  lemma ProgressTurn(before: Cells, now: Cells, done: set<string>, rewritten: nat, invalid: multiset<Masked>,
                     f: string -> string, bad: string -> bool, v: string)
    requires Settles(f) && (bad(v) ==> f(v) == v) && v !in done
    requires Progress(before, now, done, rewritten, invalid, f, bad)
    ensures Progress(before, if f(v) == v then now else Replaced(now, v, f(v)), done + {v},
                     if f(v) == v then rewritten else rewritten + |Hits(now, v)|,
                     if bad(v) then invalid + multiset{MaskIban(v)} else invalid, f, bad)
  {
    TurnOf(before, done, v, f);
    assert Rejected(done + {v}, bad) == if bad(v) then Rejected(done, bad) + {v} else Rejected(done, bad);
    if bad(v) { MasksNext(invalid, Rejected(done, bad), v); }
  }

  /** An UPDATE after its first i rows. */
  ghost predicate Updated(before: Cells, i: nat, old_: string, new_: string, cells: Cells, rowcount: nat)
    requires i <= |before|
  {
    cells == Replaced(before[..i], old_, new_) + before[i..] && rowcount == |Hits(before[..i], old_)|
  }

  function Rewritten(cell: Value, old_: string, new_: string): Value {
    if cell == Text(old_) then Text(new_) else cell
  }

  lemma ReplacedNext(before: Cells, i: nat, old_: string, new_: string)
    requires i < |before|
    ensures Replaced(before[..i + 1], old_, new_)
        == Replaced(before[..i], old_, new_) + [Rewritten(before[i], old_, new_)]
  {
    var next := before[..i + 1];
    assert next[i] == before[i] && forall k | 0 <= k < i :: next[k] == before[..i][k];
  }

  lemma HitsNext(before: Cells, i: nat, old_: string)
    requires i < |before|
    ensures |Hits(before[..i + 1], old_)| == |Hits(before[..i], old_)| + if before[i] == Text(old_) then 1 else 0
  {
    assert Hits(before[..i + 1], old_) == Hits(before[..i], old_) + if before[i] == Text(old_) then {i} else {};
  }

  lemma InMiddle(done: Cells, rest: Cells, v: Value)
    requires rest != []
    ensures (done + rest)[|done|] == rest[0] && (done + rest)[|done| := v] == (done + [v]) + rest[1..]
    ensures v == rest[0] ==> (done + [v]) + rest[1..] == done + rest
  {
  }

  lemma UpdatedNext(before: Cells, i: nat, old_: string, new_: string, cells: Cells, rowcount: nat)
    requires i < |before| && Updated(before, i, old_, new_, cells, rowcount)
    ensures cells[i] == before[i]
    ensures if cells[i] == Text(old_) then Updated(before, i + 1, old_, new_, cells[i := Text(new_)], rowcount + 1)
            else Updated(before, i + 1, old_, new_, cells, rowcount)
  {
    ReplacedNext(before, i, old_, new_);
    HitsNext(before, i, old_);
    InMiddle(Replaced(before[..i], old_, new_), before[i..], Rewritten(before[i], old_, new_));
    assert before[i..][1..] == before[i + 1..];
  }

  lemma UpdatedAll(before: Cells, old_: string, new_: string, cells: Cells, rowcount: nat)
    requires Updated(before, |before|, old_, new_, cells, rowcount)
    ensures cells == Replaced(before, old_, new_) && rowcount == |Hits(before, old_)|
  {
    assert before[..|before|] == before;
  }

  /** The rows a pass changes are the rows that differ. */
  lemma ChangedMeans(before: Cells, after: Cells, f: string -> string)
    requires after == Mapped(before, f)
    ensures Changed(before, Distinct(before), f) == set i | 0 <= i < |after| && after[i] != before[i]
  {
  }

  lemma RejectedMeans(cells: Cells)
    ensures Rejected(Distinct(cells), BadIban)
         == set c | c in cells && c.Text? && !Iban.WellFormed(Iban.Canonical(c.s)) :: c.s
  {
    forall v: string ensures BadIban(v) <==> !Iban.WellFormed(Iban.Canonical(v)) { IbanFormMeans(v); }
  }

  // ---- The passes, in place -------------------------------------------------------------------

  class TableColumn {
    var cells: Cells

    constructor (cells: Cells)
      ensures this.cells == cells
    {
      this.cells := cells;
    }

    /** UPDATE ... WHERE v = old, and its row count. */
    method UpdateWhere(old_: string, new_: string) returns (rowcount: nat)
      modifies this
      ensures cells == Replaced(old(cells), old_, new_)
      ensures rowcount == |Hits(old(cells), old_)|
    {
      ghost var before := cells;
      rowcount := 0;
      for i := 0 to |cells|
        invariant |cells| == |before| && Updated(before, i, old_, new_, cells, rowcount)
      {
        UpdatedNext(before, i, old_, new_, cells, rowcount);
        if cells[i] == Text(old_) {
          cells := cells[i := Text(new_)];
          rowcount := rowcount + 1;
        }
      }
      UpdatedAll(before, old_, new_, cells, rowcount);
    }

    /** The loop both passes share: each distinct value in turn is reported, kept or rewritten.
        It comes out as the simultaneous map, the row counts adding up to the rows changed, whatever
        order the distinct values come in. */
    method RewriteEach(f: string -> string, bad: string -> bool) returns (rewritten: nat, invalid: multiset<Masked>)
      requires Settles(f) && forall v :: bad(v) ==> f(v) == v
      modifies this
      ensures cells == Mapped(old(cells), f)
      ensures rewritten == |Changed(old(cells), Distinct(old(cells)), f)|
      ensures MasksOf(invalid, Rejected(Distinct(old(cells)), bad))
    {
      ghost var before := cells;
      var todo := Distinct(cells);
      ghost var values, done: set<string> := todo, {};
      WholePass(before, f);
      rewritten, invalid := 0, multiset{};
      while todo != {}
        invariant todo <= values && done == values - todo
        invariant Progress(before, cells, done, rewritten, invalid, f, bad)
        decreases todo
      {
        var v :| v in todo;
        ProgressTurn(before, cells, done, rewritten, invalid, f, bad, v);
        if bad(v) {
          invalid := invalid + multiset{MaskIban(v)};
        } else if f(v) != v {
          var n := UpdateWhere(v, f(v));
          rewritten := rewritten + n;
        }
        todo, done := todo - {v}, done + {v};
      }
      assert done == values;
    }

    method NormaliseFxSource() returns (rewritten: nat)
      modifies this
      ensures cells == Mapped(old(cells), FxSource)
      ensures |cells| == |old(cells)| && forall i | 0 <= i < |cells| ::
        cells[i] == if old(cells)[i].Null? then Null else Text(FxSource(old(cells)[i].s))
      ensures rewritten == |set i | 0 <= i < |cells| && cells[i] != old(cells)[i]|
    {
      ghost var before := cells;
      FxSourceSettles();
      var none;
      rewritten, none := RewriteEach(FxSource, _ => false);
      ChangedMeans(before, cells, FxSource);
    }

    /** Valid values become canonical; every other row keeps its text and is reported masked, once
        per distinct value. */
    method NormaliseIbans() returns (rewritten: nat, invalid: multiset<Masked>)
      modifies this
      ensures cells == Mapped(old(cells), IbanForm)
      ensures |cells| == |old(cells)| && forall i | 0 <= i < |cells| ::
        cells[i] == if old(cells)[i].Null? then Null else Text(IbanForm(old(cells)[i].s))
      ensures rewritten == |set i | 0 <= i < |cells| && cells[i] != old(cells)[i]|
      ensures MasksOf(invalid, set c | c in old(cells) && c.Text? && !Iban.WellFormed(Iban.Canonical(c.s)) :: c.s)
    {
      ghost var before := cells;
      IbanFormSettles();
      rewritten, invalid := RewriteEach(IbanForm, BadIban);
      ChangedMeans(before, cells, IbanForm);
      RejectedMeans(before);
    }
  }

  /** After the fx_source pass every row fits the closed value set, so its CHECK can be added. */
  lemma NormalisedFitsDomain(cells: Cells, i: nat)
    requires i < |cells|
    ensures !Fails(SOURCE_DOMAIN, map["fx_source" := Mapped(cells, FxSource)[i]])
  {
    FxSourceSettles();
    var row: Record := map["fx_source" := Mapped(cells, FxSource)[i]];
    assert EvalTerm(FX, RowEnv(row)) == Mapped(cells, FxSource)[i];
    assert Eval(In(FX, SOURCES), RowEnv(row)) == Member(EvalTerm(FX, RowEnv(row)), SOURCES);
  }
}
