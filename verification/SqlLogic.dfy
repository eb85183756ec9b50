/** SQL's three-valued logic, shared by the row-level policies and the CHECK constraints.

A predicate is kept as a syntax tree because the migrations treat it as text: one of them looks
for a leg inside a policy's text, others pair a CHECK with a hand-written WHERE. Three readers of
a predicate differ in what they make of UNKNOWN:

- a CHECK constraint rejects a row only on FALSE;
- a WHERE clause selects a row only on TRUE;
- a row-level policy admits a row only on TRUE. */
module SqlLogic {

  /** A column value, NULL included. Only nullness and text equality are ever asked of a value. */
  datatype Value = Null | Text(s: string)

  datatype Tri = True | False | Unknown

  datatype Term =
    | Column(name: string)
    | Literal(s: string)
    | Setting                    // current_setting('app.current_org', true)
    | Upper(t: Term)

  datatype Pred =
    | IsNull(t: Term)
    | IsNotNull(t: Term)
    | Eq(a: Term, b: Term)
    | Differs(a: Term, b: Term)
    | In(t: Term, values: seq<string>)
    | NotIn(t: Term, values: seq<string>)
    | And(p: Pred, q: Pred)
    | Or(p: Pred, q: Pred)
    | Not(p: Pred)
    | ExistsRow(p: Pred)         // EXISTS (SELECT 1 FROM <inner rows> WHERE p)

  type Record = map<string, Value>

  /** What a predicate is evaluated against: the row's columns, the connection's setting, and the
      rows a correlated subquery ranges over. */
  datatype Env = Env(columns: Record, setting: Value, inner: set<Record>)

  function TriAnd(x: Tri, y: Tri): Tri {
    if x.False? || y.False? then False else if x.True? && y.True? then True else Unknown
  }

  function TriOr(x: Tri, y: Tri): Tri {
    if x.True? || y.True? then True else if x.False? && y.False? then False else Unknown
  }

  function TriNot(x: Tri): Tri {
    match x case True => False case False => True case Unknown => Unknown
  }

  function Truth(b: bool): Tri { if b then True else False }

  function UpperChar(c: char): char {
    if 'a' <= c <= 'z' then ((c as int) - 32) as char else c
  }

  function UpperText(s: string): string {
    if s == "" then "" else [UpperChar(s[0])] + UpperText(s[1..])
  }

  function EvalTerm(t: Term, env: Env): Value {
    match t
    case Column(name) => if name in env.columns then env.columns[name] else Null
    case Literal(s) => Text(s)
    case Setting => env.setting
    case Upper(u) =>
      var v := EvalTerm(u, env);
      if v.Null? then Null else Text(UpperText(v.s))
  }

  /** Any comparison with NULL is UNKNOWN. */
  function Compare(x: Value, y: Value): Tri {
    if x.Null? || y.Null? then Unknown else Truth(x.s == y.s)
  }

  function Member(x: Value, values: seq<string>): Tri {
    if x.Null? then Unknown else Truth(x.s in values)
  }

  function Eval(p: Pred, env: Env): Tri
    decreases p
  {
    match p
    case IsNull(t) => Truth(EvalTerm(t, env).Null?)
    case IsNotNull(t) => Truth(!EvalTerm(t, env).Null?)
    case Eq(a, b) => Compare(EvalTerm(a, env), EvalTerm(b, env))
    case Differs(a, b) => TriNot(Compare(EvalTerm(a, env), EvalTerm(b, env)))
    case In(t, values) => Member(EvalTerm(t, env), values)
    case NotIn(t, values) => TriNot(Member(EvalTerm(t, env), values))
    case And(l, r) => TriAnd(Eval(l, env), Eval(r, env))
    case Or(l, r) => TriOr(Eval(l, env), Eval(r, env))
    case Not(q) => TriNot(Eval(q, env))
    case ExistsRow(q) =>
      Truth(exists r | r in env.inner :: Eval(q, env.(columns := env.columns + r)).True?)
  }

  /** A CHECK constraint fails only on FALSE. */
  predicate Violates(check: Pred, env: Env) { Eval(check, env).False? }

  /** A WHERE clause, and a row-level policy, take only TRUE. */
  predicate Selects(where: Pred, env: Env) { Eval(where, env).True? }

  /** Negation pushed down to the comparisons, the way the pre-flight predicates are written. */
  function Negate(p: Pred): Pred {
    match p
    case IsNull(t) => IsNotNull(t)
    case IsNotNull(t) => IsNull(t)
    case Eq(a, b) => Differs(a, b)
    case Differs(a, b) => Eq(a, b)
    case In(t, values) => NotIn(t, values)
    case NotIn(t, values) => In(t, values)
    case And(l, r) => Or(Negate(l), Negate(r))
    case Or(l, r) => And(Negate(l), Negate(r))
    case Not(q) => q
    case ExistsRow(q) => Not(ExistsRow(q))
  }

  /** Pushing a negation inwards is exact in three-valued logic, UNKNOWN included. */
  lemma {:induction false} NegateMeans(p: Pred, env: Env)
    ensures Eval(Negate(p), env) == TriNot(Eval(p, env))
  {
    match p
    case And(l, r) => NegateMeans(l, env); NegateMeans(r, env);
    case Or(l, r) => NegateMeans(l, env); NegateMeans(r, env);
    case _ =>
  }

  /** So the rows a CHECK rejects are exactly the rows its pushed-in negation selects. */
  lemma RejectedIffNegationSelects(check: Pred, env: Env)
    ensures Violates(check, env) <==> Selects(Negate(check), env)
  {
    NegateMeans(check, env);
  }
}
