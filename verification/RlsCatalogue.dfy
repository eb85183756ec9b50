/** The policy catalogue and the four migrations that rewrite it. */
module RlsCatalogue {
  import opened SqlLogic
  import opened RlsPolicy

  type Policies = map<string, Policy>

  /** Every policy is one of the two spellings, table by table: what the history can produce. */
  predicate Mixed(cat: Policies) {
    forall t | t in cat :: cat[t] == Fixed(t) || cat[t] == Legacy(t)
  }

  predicate Uniform(cat: Policies, unset: Pred) {
    forall t | t in cat :: cat[t] == PolicyText(t, unset)
  }

  /** What the repair leaves: a policy whose USING has the leg stays, any other is rewritten. */
  function Repaired(cat: Policies): Policies {
    map t | t in cat :: if HasEmptyLeg(cat[t].using) then cat[t] else Fixed(t)
  }

  /** What the repair's downgrade leaves: the mirror image. */
  function Unrepaired(cat: Policies): Policies {
    map t | t in cat :: if HasEmptyLeg(cat[t].using) then Legacy(t) else cat[t]
  }

  /** The catalogue query: the tables whose USING has the leg, or lacks it. */
  function Found(cat: Policies, hasLeg: bool): set<string> {
    set t | t in cat && HasEmptyLeg(cat[t].using) == hasLeg
  }

  function Texts(tables: seq<string>, unset: Pred): Policies {
    Laid(tables, t => PolicyText(t, unset))
  }

  /** One text laid down on each listed table. */
  function Laid(tables: seq<string>, text: string -> Policy): Policies {
    map t | t in tables :: text(t)
  }

  lemma LaidNext(tables: seq<string>, i: nat, text: string -> Policy)
    requires i < |tables|
    ensures Laid(tables[..i + 1], text) == Laid(tables[..i], text)[tables[i] := text(tables[i])]
  {
    assert tables[..i + 1] == tables[..i] + [tables[i]];
  }

  /** No listed table is listed twice or has a policy already. */
  predicate Fresh(tables: seq<string>, cat: Policies) {
    tables != [] ==>
      var last := tables[|tables| - 1];
      last !in cat && last !in tables[..|tables| - 1] && Fresh(tables[..|tables| - 1], cat)
  }

  lemma FreshNext(tables: seq<string>, i: nat, cat: Policies)
    requires i < |tables|
    ensures Fresh(tables[..i + 1], cat) <==>
            tables[i] !in cat && tables[i] !in tables[..i] && Fresh(tables[..i], cat)
  {
    assert tables[..i + 1][..i] == tables[..i];
  }

  lemma {:induction false} FreshPrefix(tables: seq<string>, i: nat, cat: Policies)
    requires i <= |tables| && !Fresh(tables[..i], cat)
    ensures !Fresh(tables, cat)
    decreases |tables| - i
  {
    if i < |tables| {
      FreshNext(tables, i, cat);
      FreshPrefix(tables, i + 1, cat);
    } else {
      assert tables[..i] == tables;
    }
  }

  /** Fresh lists, without the recursion. */
  lemma {:induction false} FreshMeans(tables: seq<string>, cat: Policies)
    ensures Fresh(tables, cat) <==>
            (forall t | t in tables :: t !in cat) && forall i, j | 0 <= i < j < |tables| :: tables[i] != tables[j]
  {
    if tables != [] {
      var front, last := tables[..|tables| - 1], tables[|tables| - 1];
      FreshMeans(front, cat);
      assert tables == front + [last];
      assert last in front <==> exists i | 0 <= i < |tables| - 1 :: tables[i] == last;
      if forall i, j | 0 <= i < j < |tables| :: tables[i] != tables[j] {
        assert forall i, j | 0 <= i < j < |front| :: front[i] == tables[i] && front[j] == tables[j];
      }
      forall i, j | 0 <= i < j < |tables| && Fresh(tables, cat) ensures tables[i] != tables[j] {
        assert tables[i] == front[i];
        if j < |tables| - 1 { assert tables[j] == front[j]; }
      }
    }
  }

  /** The first policy, in plain terms: unscoped connections see everything, any other its workspace. */
  lemma FirstMeans(env: Env)
    ensures Selects(FIRST.using, env) <==>
            env.setting == Null ||
            ("org_id" in env.columns && env.columns["org_id"].Text? && env.columns["org_id"] == env.setting)
    ensures FIRST.check == FIRST.using
  {
  }

  /** The loop over every listed table but `users`. */
  function Generic(before: Policies, tables: seq<string>, unset: Pred): Policies {
    before + LaidButUsers(tables, t => PolicyText(t, unset))
  }

  function LaidButUsers(tables: seq<string>, text: string -> Policy): Policies {
    map t | t in tables && t != "users" :: text(t)
  }

  lemma LaidButUsersNext(before: Policies, tables: seq<string>, i: nat, text: string -> Policy)
    requires i < |tables|
    ensures before + LaidButUsers(tables[..i + 1], text) ==
            if tables[i] == "users" then before + LaidButUsers(tables[..i], text)
            else (before + LaidButUsers(tables[..i], text))[tables[i] := text(tables[i])]
  {
    assert tables[..i + 1] == tables[..i] + [tables[i]];
  }

  lemma GenericNext(before: Policies, tables: seq<string>, i: nat, unset: Pred)
    requires i < |tables|
    ensures Generic(before, tables[..i + 1], unset) ==
            if tables[i] == "users" then Generic(before, tables[..i], unset)
            else Generic(before, tables[..i], unset)[tables[i] := PolicyText(tables[i], unset)]
  {
    LaidButUsersNext(before, tables, i, t => PolicyText(t, unset));
  }

  lemma GenericThenUsers(before: Policies, tables: seq<string>, unset: Pred)
    ensures Generic(before, tables, unset)["users" := PolicyText("users", unset)] ==
            before + Texts(tables + ["users"], unset)
  {
  }

  const FIRST := Policy(Or(LEGACY_UNSET, ORG_MATCH), Or(LEGACY_UNSET, ORG_MATCH))

  /** The catalogue with the first policy on each listed table. */
  function Listed(before: Policies, tables: seq<string>): Policies { before + Laid(tables, _ => FIRST) }

  lemma ListedNext(before: Policies, tables: seq<string>, i: nat)
    requires i < |tables|
    ensures Listed(before, tables[..i + 1]) == Listed(before, tables[..i])[tables[i] := FIRST]
    ensures tables[i] in Listed(before, tables[..i]) <==> tables[i] in before || tables[i] in tables[..i]
  {
    LaidNext(tables, i, _ => FIRST);
  }

  /** The catalogue in place. Postgres runs a revision in one transaction, so a refused statement
      leaves the whole catalogue as it was. */
  class Catalogue {
    var policies: Policies

    constructor ()
      ensures policies == map[]
    {
      policies := map[];
    }

    /** DROP POLICY IF EXISTS, then CREATE POLICY. */
    method Replace(table: string, policy: Policy)
      modifies this
      ensures policies == old(policies)[table := policy]
    {
      policies := policies - {table};
      policies := policies[table := policy];
    }

    /** The first policies: CREATE POLICY on each listed table, refused where one exists.
        At this revision `users` still compares its own workspace column. */
    method EnableRowSecurity(tables: seq<string>) returns (ok: bool)
      modifies this
      ensures ok <==> Fresh(tables, old(policies))
      ensures policies == if ok then Listed(old(policies), tables) else old(policies)
      ensures ok ==> policies.Keys == old(policies).Keys + set t | t in tables
      ensures ok ==> forall t | t in policies :: policies[t] == if t in tables then FIRST else old(policies)[t]
    {
      ghost var before := policies;
      var next := policies;
      for i := 0 to |tables|
        invariant policies == before
        invariant Fresh(tables[..i], before)
        invariant next == Listed(before, tables[..i])
      {
        ListedNext(before, tables, i);
        FreshNext(tables, i, before);
        if tables[i] in next {
          FreshPrefix(tables, i + 1, before);
          return false;
        }
        next := next[tables[i] := FIRST];
      }
      assert tables[..|tables|] == tables;
      policies := next;
      ok := true;
    }

    /** `users` becomes membership-driven. */
    method MembershipVisibility()
      modifies this
      ensures policies == old(policies)["users" := Legacy("users")]
    {
      Replace("users", Legacy("users"));
    }

    /** The sticky-setting fix and its downgrade: the generic tables in a loop, then `users`. */
    method Restate(tables: seq<string>, unset: Pred)
      modifies this
      ensures policies == old(policies) + Texts(tables + ["users"], unset)
      ensures policies.Keys == old(policies).Keys + (set t | t in tables) + {"users"}
      ensures forall t | t in policies ::
        policies[t] == if t in tables || t == "users" then PolicyText(t, unset) else old(policies)[t]
    {
      ghost var before := policies;
      for i := 0 to |tables|
        invariant policies == Generic(before, tables[..i], unset)
      {
        GenericNext(before, tables, i, unset);
        if tables[i] != "users" {
          Replace(tables[i], PolicyText(tables[i], unset));
        }
      }
      assert tables[..|tables|] == tables;
      Replace("users", PolicyText("users", unset));
      GenericThenUsers(before, tables, unset);
    }

    /** The rows of the catalogue query, one at a time in some order: find the tables whose USING
        has the leg (or lacks it), then rewrite each. */
    method RewriteWhere(hasLeg: bool, unset: Pred) returns (rewritten: nat)
      modifies this
      ensures policies == map t | t in old(policies) ::
                            if t in Found(old(policies), hasLeg) then PolicyText(t, unset) else old(policies)[t]
      ensures rewritten == |Found(old(policies), hasLeg)|
    {
      ghost var before := policies;
      var found := Found(policies, hasLeg);
      ghost var all := found;
      rewritten := 0;
      while found != {}
        invariant found <= all
        invariant rewritten == |all| - |found|
        invariant policies.Keys == before.Keys
        invariant forall t | t in before ::
                    policies[t] == if t in all && t !in found then PolicyText(t, unset) else before[t]
        decreases found
      {
        var t :| t in found;
        Replace(t, PolicyText(t, unset));
        found := found - {t};
        rewritten := rewritten + 1;
      }
    }

    method Repair() returns (rewritten: nat)
      modifies this
      ensures policies == Repaired(old(policies))
      ensures rewritten == |Found(old(policies), false)|
    {
      rewritten := RewriteWhere(false, UNSET);
    }

    method Unrepair() returns (rewritten: nat)
      modifies this
      ensures policies == Unrepaired(old(policies))
    {
      rewritten := RewriteWhere(true, LEGACY_UNSET);
    }
  }

  // ---- What the repair does to any catalogue --------------------------------------------------

  /** From any mix of spellings the repair leaves every policy fixed, `users` membership-driven. */
  lemma RepairFixesAll(cat: Policies)
    requires Mixed(cat)
    ensures Uniform(Repaired(cat), UNSET)
    ensures Repaired(cat).Keys == cat.Keys
  {
    forall t | t in cat ensures Repaired(cat)[t] == Fixed(t) { LegOfTexts(t); }
  }

  lemma UnrepairUnfixesAll(cat: Policies)
    requires Mixed(cat)
    ensures Uniform(Unrepaired(cat), LEGACY_UNSET)
    ensures Unrepaired(cat).Keys == cat.Keys
  {
    forall t | t in cat ensures Unrepaired(cat)[t] == Legacy(t) { LegOfTexts(t); }
  }

  /** A second run finds nothing to rewrite, whatever the policies were. */
  lemma RepairIdempotent(cat: Policies)
    ensures Repaired(Repaired(cat)) == Repaired(cat)
    ensures forall t | t in Repaired(cat) :: HasEmptyLeg(Repaired(cat)[t].using)
  {
    forall t | t in cat ensures HasEmptyLeg(Repaired(cat)[t].using) { LegOfTexts(t); }
  }

  /** Downgrade undoes the repair exactly on a catalogue that was all legacy, and the repair undoes
      the downgrade exactly on one that was all fixed; a mixed catalogue comes back uniform. */
  lemma RoundTrips(cat: Policies)
    requires Mixed(cat)
    ensures Unrepaired(Repaired(cat)) == cat <==> Uniform(cat, LEGACY_UNSET)
    ensures Repaired(Unrepaired(cat)) == cat <==> Uniform(cat, UNSET)
  {
    RepairFixesAll(cat);
    UnrepairUnfixesAll(cat);
    UnrepairUnfixesAll(Repaired(cat));
    RepairFixesAll(Unrepaired(cat));
    assert Unrepaired(Repaired(cat)) == map t | t in cat :: Legacy(t);
    assert Repaired(Unrepaired(cat)) == map t | t in cat :: Fixed(t);
    if Unrepaired(Repaired(cat)) == cat {
      forall t | t in cat ensures cat[t] == Legacy(t) { assert Unrepaired(Repaired(cat))[t] == Legacy(t); }
    }
    if Repaired(Unrepaired(cat)) == cat {
      forall t | t in cat ensures cat[t] == Fixed(t) { assert Repaired(Unrepaired(cat))[t] == Fixed(t); }
    }
  }

  /** A mixed catalogue is where the downgrade is no inverse: one table fixed, one not. */
  lemma MixedDoesNotRoundTrip()
    ensures var cat: Policies := map["jobs" := Fixed("jobs"), "receipts" := Legacy("receipts")];
            Mixed(cat) && Unrepaired(Repaired(cat)) != cat && Repaired(Unrepaired(cat)) != cat
  {
    var cat: Policies := map["jobs" := Fixed("jobs"), "receipts" := Legacy("receipts")];
    LegOfTexts("jobs");
    LegOfTexts("receipts");
    RoundTrips(cat);
    assert !Uniform(cat, LEGACY_UNSET) by { assert cat["jobs"] != Legacy("jobs"); }
    assert !Uniform(cat, UNSET) by { assert cat["receipts"] != Fixed("receipts"); }
  }

  /** The repair changes no answer for a virgin or a scoped connection, and at '' it only widens:
      there the repaired policy admits every row, and a legacy one admits none whose workspace (or
      membership) is a real id. Reads and writes alike. */
  lemma RepairWidensOnlyAtEmpty(cat: Policies, t: string, env: Env)
    requires Mixed(cat) && t in cat
    ensures env.setting != Text("") ==>
              (Selects(cat[t].using, env) <==> Selects(Repaired(cat)[t].using, env)) &&
              (Selects(cat[t].check, env) <==> Selects(Repaired(cat)[t].check, env))
    ensures env.setting == Text("") ==>
              Selects(Repaired(cat)[t].using, env) && Selects(Repaired(cat)[t].check, env)
    ensures env.setting == Text("") && cat[t] == Legacy(t) && !OrgMatches(env) && !IsMember(env) ==>
              !Selects(cat[t].using, env) && !Selects(cat[t].check, env)
  {
    RepairFixesAll(cat);
    PolicyMeans(t, UNSET, env);
    PolicyMeans(t, LEGACY_UNSET, env);
  }

  /** The tables of a list of lists. */
  function AllOf(lists: seq<seq<string>>): set<string> {
    set l, t | l in lists && t in l :: t
  }

  lemma FirstIsLegacy(t: string)
    ensures t != "users" ==> FIRST == Legacy(t)
  {
  }

  /** Revisions from the old template keep a mixed catalogue mixed. */
  lemma ListedMixed(before: Policies, tables: seq<string>)
    requires Mixed(before) && "users" in before && Fresh(tables, before)
    ensures Mixed(Listed(before, tables)) && Listed(before, tables).Keys == before.Keys + AllOf([tables])
  {
    FreshAvoids(tables, before);
    forall t ensures t in Listed(before, tables) <==> t in before || t in tables {}
    forall t | t in tables ensures t != "users" { FirstIsLegacy(t); }
    forall t | t in Listed(before, tables) ensures Listed(before, tables)[t] in {Fixed(t), Legacy(t)} {
      FirstIsLegacy(t);
    }
  }

  lemma {:induction false} FreshAvoids(tables: seq<string>, cat: Policies)
    requires Fresh(tables, cat)
    ensures forall t | t in tables :: t !in cat
  {
    if tables != [] { FreshAvoids(tables[..|tables| - 1], cat); }
  }

  /** Part of the way: both spellings at most, and the tables listed so far if none was refused. */
  ghost predicate Reached(cat: Policies, lists: seq<seq<string>>, ok: bool) {
    "users" in cat && Mixed(cat) && (ok ==> cat.Keys == AllOf(lists) + {"users"})
  }

  lemma UntilTheFix(first: seq<string>, fixedThen: seq<string>, cat: Policies, ok: bool)
    requires ok <==> Fresh(first, map[])
    requires cat == (if ok then Listed(map[], first) else map[])["users" := Legacy("users")]
                    + Texts(fixedThen + ["users"], UNSET)
    ensures Reached(cat, [first, fixedThen], ok)
  {
    forall t | t in cat ensures cat[t] == Fixed(t) || cat[t] == Legacy(t) { FirstIsLegacy(t); }
    TwoLists(first, fixedThen);
  }

  lemma TwoLists(a: seq<string>, b: seq<string>)
    ensures forall t :: t in AllOf([a, b]) <==> t in a || t in b
  {
    assert [a, b][0] == a && [a, b][1] == b;
  }

  lemma ReachedNext(before: Policies, lists: seq<seq<string>>, ok: bool, more: seq<string>, laid: bool)
    requires Reached(before, lists, ok) && (laid <==> Fresh(more, before))
    ensures Reached(if laid then Listed(before, more) else before, lists + [more], ok && laid)
  {
    if laid { ListedMixed(before, more); }
    assert AllOf(lists + [more]) == AllOf(lists) + AllOf([more]);
  }

  /** The whole history on an empty catalogue, revision by revision: the first policies, membership
      visibility for `users`, the fix over the tables of its day, any number of later revisions that
      copy the old template, the repair. However many were refused on the way, every policy ends
      fixed; when none was, exactly the tables ever listed have one. */
  method History(first: seq<string>, fixedThen: seq<string>, later: seq<seq<string>>)
    returns (cat: Catalogue, ok: bool)
    ensures fresh(cat) && Uniform(cat.policies, UNSET)
    ensures ok ==> cat.policies.Keys == AllOf([first, fixedThen] + later) + {"users"}
  {
    cat := new Catalogue();
    ok := cat.EnableRowSecurity(first);
    cat.MembershipVisibility();
    cat.Restate(fixedThen, UNSET);
    UntilTheFix(first, fixedThen, cat.policies, ok);
    for i := 0 to |later|
      invariant fresh(cat) && Reached(cat.policies, [first, fixedThen] + later[..i], ok)
    {
      ghost var before := cat.policies;
      var laid := cat.EnableRowSecurity(later[i]);
      assert [first, fixedThen] + later[..i + 1] == ([first, fixedThen] + later[..i]) + [later[i]];
      ReachedNext(before, [first, fixedThen] + later[..i], ok, later[i], laid);
      ok := ok && laid;
    }
    assert later[..|later|] == later;
    RepairFixesAll(cat.policies);
    var rewritten := cat.Repair();
  }
}
