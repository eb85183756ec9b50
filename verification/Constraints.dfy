/** A table with CHECK constraints, changed in place the way the migrations change it. */
module Constraints {
  import opened SqlLogic

  /** A row as a CHECK or a WHERE sees it: no setting, no subquery. */
  function RowEnv(row: Record): Env { Env(row, Null, {}) }

  predicate Fails(check: Pred, row: Record) { Violates(check, RowEnv(row)) }

  predicate Picks(where: Pred, row: Record) { Selects(where, RowEnv(row)) }

  predicate Filled(columns: set<string>, row: Record) {
    forall c | c in columns :: c in row && row[c].Text?
  }

  function Filter<T>(rows: seq<T>, p: T -> bool): (r: seq<T>)
    ensures r == [] <==> forall row | row in rows :: !p(row)
  {
    if rows == [] then [] else (if p(rows[0]) then [rows[0]] else []) + Filter(rows[1..], p)
  }

  lemma {:induction false} FilterSplit<T>(a: seq<T>, b: seq<T>, p: T -> bool)
    ensures Filter(a + b, p) == Filter(a, p) + Filter(b, p)
  {
    if a == [] {
      assert a + b == b;
    } else {
      assert (a + b)[1..] == a[1..] + b && (a + b)[0] == a[0];
      FilterSplit(a[1..], b, p);
      var first := if p(a[0]) then [a[0]] else [];
      assert first + (Filter(a[1..], p) + Filter(b, p)) == (first + Filter(a[1..], p)) + Filter(b, p);
    }
  }

  lemma FilterNext<T>(rows: seq<T>, i: nat, p: T -> bool)
    requires i < |rows|
    ensures Filter(rows[..i + 1], p) == Filter(rows[..i], p) + (if p(rows[i]) then [rows[i]] else [])
  {
    assert rows[..i + 1] == rows[..i] + [rows[i]];
    FilterSplit(rows[..i], [rows[i]], p);
  }

  /** A value passes a filter as often as it occurs, or not at all. */
  lemma {:induction false} FilterKeeps<T>(rows: seq<T>, p: T -> bool, row: T)
    ensures multiset(Filter(rows, p))[row] == if p(row) then multiset(rows)[row] else 0
  {
    if rows != [] {
      FilterKeeps(rows[1..], p, row);
      assert rows == [rows[0]] + rows[1..];
    }
  }

  lemma {:induction false} FilterAlike<T>(rows: seq<T>, p: T -> bool, q: T -> bool)
    requires forall row | row in rows :: p(row) == q(row)
    ensures Filter(rows, p) == Filter(rows, q)
  {
    if rows != [] { FilterAlike(rows[1..], p, q); }
  }

  /** SELECT ... WHERE, in table order. */
  function Where(rows: seq<Record>, where: Pred): seq<Record> {
    Filter(rows, row => Picks(where, row))
  }

  class Table {
    var rows: seq<Record>
    var checks: map<string, Pred>
    const notNull: set<string>

    /** No stored row fails a constraint in force. */
    ghost predicate Valid() reads this {
      forall row | row in rows :: Filled(notNull, row) && forall n | n in checks :: !Fails(checks[n], row)
    }

    constructor (notNull: set<string>)
      ensures Valid() && rows == [] && checks == map[] && this.notNull == notNull
    {
      this.notNull := notNull;
      rows, checks := [], map[];
    }

    method Insert(row: Record) returns (ok: bool)
      requires Valid()
      modifies this
      ensures Valid() && checks == old(checks)
      ensures ok <==> Filled(notNull, row) && forall n | n in checks :: !Fails(checks[n], row)
      ensures rows == if ok then old(rows) + [row] else old(rows)
    {
      ok := Filled(notNull, row) && forall n | n in checks :: !Fails(checks[n], row);
      if ok {
        rows := rows + [row];
      }
    }

    /** ADD CONSTRAINT ... CHECK scans the table and refuses when a stored row fails it. */
    method AddCheck(name: string, check: Pred) returns (ok: bool)
      requires Valid()
      modifies this`checks
      ensures Valid()
      ensures ok <==> name !in old(checks) && forall row | row in rows :: !Fails(check, row)
      ensures checks == if ok then old(checks)[name := check] else old(checks)
    {
      ok := name !in checks && forall row | row in rows :: !Fails(check, row);
      if ok {
        checks := checks[name := check];
      }
    }

    method DropCheck(name: string) returns (ok: bool)
      requires Valid()
      modifies this`checks
      ensures Valid()
      ensures ok <==> name in old(checks)
      ensures checks == old(checks) - {name}
    {
      ok := name in checks;
      checks := checks - {name};
    }

    /** The pre-flight query: the offending rows, read one at a time. */
    method Report(where: Pred) returns (problems: seq<Record>)
      ensures problems == Where(rows, where)
    {
      problems := [];
      for i := 0 to |rows|
        invariant problems == Where(rows[..i], where)
      {
        FilterNext(rows, i, row => Picks(where, row));
        if Picks(where, rows[i]) {
          problems := problems + [rows[i]];
        }
      }
      assert rows[..|rows|] == rows;
    }
  }
}
