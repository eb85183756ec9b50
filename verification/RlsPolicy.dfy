/** The text of the tenant policies and what each text means under a connection's setting. */
module RlsPolicy {
  import opened SqlLogic

  datatype Policy = Policy(using: Pred, check: Pred)

  /** "Unscoped" as the original policies spell it, and as the fix spells it. */
  const LEGACY_UNSET := IsNull(Setting)
  const UNSET := Or(IsNull(Setting), Eq(Setting, Literal("")))

  const ORG_MATCH := Eq(Column("org_id"), Setting)
  const MEMBER_MATCH := And(Eq(Column("m.user_id"), Column("id")), Eq(Column("m.org_id"), Setting))
  const MEMBER_EXISTS := ExistsRow(MEMBER_MATCH)

  /** The policy text for a table, given how "unscoped" is spelled: `users` is membership-driven,
      with a wider WITH CHECK; every other table compares its own workspace column. */
  function PolicyText(table: string, unset: Pred): Policy {
    if table == "users"
    then Policy(Or(unset, MEMBER_EXISTS), Or(Or(unset, ORG_MATCH), MEMBER_EXISTS))
    else Policy(Or(unset, ORG_MATCH), Or(unset, ORG_MATCH))
  }

  function Legacy(table: string): Policy { PolicyText(table, LEGACY_UNSET) }
  function Fixed(table: string): Policy { PolicyText(table, UNSET) }

  /** The catalogue query's text search: does the expression compare anything with ''? */
  predicate HasEmptyLeg(p: Pred) {
    match p
    case Eq(_, b) => b == Literal("")
    case And(l, r) => HasEmptyLeg(l) || HasEmptyLeg(r)
    case Or(l, r) => HasEmptyLeg(l) || HasEmptyLeg(r)
    case Not(q) => HasEmptyLeg(q)
    case ExistsRow(q) => HasEmptyLeg(q)
    case _ => false
  }

  lemma LegOfTexts(table: string)
    ensures HasEmptyLeg(Fixed(table).using)
    ensures !HasEmptyLeg(Legacy(table).using)
  {
    assert HasEmptyLeg(UNSET) by { assert HasEmptyLeg(Eq(Setting, Literal(""))); }
    assert !HasEmptyLeg(MEMBER_EXISTS) by { assert !HasEmptyLeg(MEMBER_MATCH); }
  }

  // ---- Meaning --------------------------------------------------------------------------------

  /** The row belongs to the workspace the setting names. */
  predicate OrgMatches(env: Env) {
    "org_id" in env.columns && env.columns["org_id"].Text? && env.setting == env.columns["org_id"]
  }

  /** Some inner membership row links this row's id to the workspace the setting names. */
  predicate IsMember(env: Env) {
    exists r | r in env.inner :: Eval(MEMBER_MATCH, env.(columns := env.columns + r)).True?
  }

  predicate UnscopedLeg(setting: Value, unset: Pred) {
    setting.Null? || (unset == UNSET && setting == Text(""))
  }

  /** What either spelling of the policy says, read off its syntax tree once. */
  lemma PolicyMeans(table: string, unset: Pred, env: Env)
    requires unset == UNSET || unset == LEGACY_UNSET
    ensures Selects(PolicyText(table, unset).using, env) <==>
            UnscopedLeg(env.setting, unset) || (if table == "users" then IsMember(env) else OrgMatches(env))
    ensures Selects(PolicyText(table, unset).check, env) <==>
            UnscopedLeg(env.setting, unset) || OrgMatches(env) || (table == "users" && IsMember(env))
  {
  }
}
