# Verified model of the finance platform's migrations and gate scripts

The code modelled here protects data in places where a mistake stays silent: row-level security on
pooled database connections, migrations that must refuse instead of guess, a scanner that must not
miss an identifier, and scripts that must fail closed. The model follows that code branch by branch.
`dafny verify dfyconfig.toml` checks all of it.

| files | what they model |
|---|---|
| `SqlLogic`, `RlsPolicy`, `RlsCatalogue` | SQL predicates in three-valued logic, the policy texts, and the revisions that lay, restate, repair and downgrade them in the catalogue |
| `Workspaces`, `ForeignKeys` | workspace identities; foreign keys, and what a deletion takes with it or detaches |
| `TenantPool`, `StickySetting` | pooled connections with a sticky setting, transactions and statements under USING, WITH CHECK, foreign keys and row locks; refinement of a machine without settings; the defect on reused connections |
| `TenantRuns`, `TenantEffects` | runs put together event by event; what each statement does to the rows, answers and takes for locks, and who reads it after the commit |
| `TenantConsistency`, `TenantIsolation`, `CrossingDeletes` | foreign keys under concurrent transactions; non-interference between workspaces; deletes that cross them |
| `Constraints`, `FxProvenance`, `StateSets` | tables with CHECK constraints; the provenance constraints and the closed state sets against their hand-written pre-flights |
| `Texts`, `Modulo97`, `Iban`, `RewritePass` | the IBAN check, what it detects and the arithmetic behind that; in-place passes over distinct values |
| `FxCorrection`, `PaymentLedger` | the amount correction with recomputed totals; the ledger backfill |
| `PiiScan`, `DenyListBuild`, `BlobCache` | scanner, deny-list builder, history scan with its cache |
| `References` | a database with RESTRICT, CASCADE and both forms of SET NULL, under insert, update, delete in any order of checks, and the two revisions |
| `BucketBootstrap`, `CompilerInstall` | concurrent bucket initialisers; an install that may be cut off anywhere |
| `DeploymentImages`, `Dockerfiles`, `ImageInventory`, `AuditGate` | the image inventory and the release gate |

What does not hold as documented, and what holds instead:

- The compiler install re-checks the binary it staged but not the provenance it retains. If the build
  output changes in between, provenance nobody validated is retained (`SwappedProvenanceIsRetained`),
  even a mixture that no build output ever held (`MixtureIsRetained`). `RetainedProvenanceExactWhen`
  gives the exact condition, in terms of the build output at the steps that list and read it.
- The comment over the WO-89 pre-flight says that it selects every row the constraint would reject; it
  also selects rows of unknown source with a NULL euro, which the constraint lets stand. The two agree
  on every other row (`Wo89PreflightExactWhen`), hence on tables whose euro is NOT NULL. The invoice
  pre-flight, written for a nullable euro, is exact everywhere.
- Row-level security does not by itself keep workspaces apart under deletes: referential actions ask no
  policy, and most cascading keys of the schema are not composite. `CascadeCrosses` is such a run;
  `CommitSeenExactlyWhenReached` gives the exact condition on the delete, whose closure can be computed
  before it; `ConfinedKeysReachNobody` says which keys rule it out.
- The repair's downgrade is described as symmetric with it. Each undoes the other exactly on uniform
  catalogues (`RoundTrips`), not on mixed ones.
- The history cache is called never a correctness input. A blob cached as clean hides a later
  deny-list entry (`StaleCacheMisses`); a cached run is right exactly when the blobs it skips are clean
  under the current configuration (`CachedRunExactWhen`).
- The batch 3 state gate is stricter than the CHECK it protects exactly at NULL (`StateGateExactWhen`).

Assumptions: workspace ids are never the empty string; a Postgres revision is one transaction; git
names a blob by its content; SHA-256 is any function, collision-free only where a lemma says so.

## Model

| member | source | states |
|---|---|---|
| TenantPool.RepairedPoolRefinesScopes | backend/alembic/versions/6fec8c88ba7c_rls_unscoped_guc_sticky_empty_string_fix.py:8-48 | From every catalogue that mixes fixed and legacy policies, after the repair every interleaving of transactions over any reused connections answers, event by event, what a machine answers in which a transaction simply carries its scope and no connection has a past. |
| TenantPool.RunRefines | backend/alembic/versions/6fec8c88ba7c_rls_unscoped_guc_sticky_empty_string_fix.py:118-136 | The same from any related pair of states under fixed policies, with the states still related after the run. |
| TenantPool.StepRefines | backend/app/core/tenant.py:540-562 | One event: begin (the scope mirrored into the setting), adopting a scope later, a statement, commit, rollback or a dropped connection keeps the real and the ideal machine in step, every connection included. What a statement does is stated by the effect rows below. |
| TenantPool.GuardsAgree | backend/alembic/versions/6fec8c88ba7c_rls_unscoped_guc_sticky_empty_string_fix.py:118-136 | Under fixed policies NULL and the sticky empty setting both guard as unscoped, and a setting o guards as scope o, for reads (USING) and writes (WITH CHECK), on generic tables and on `users`. |
| TenantPool.SubqueryFindsMembers | backend/alembic/versions/e6a8c0b2d4f6_users_rls_membership_visibility.py:44-48 | The membership subquery, although filtered by the policy of `memberships` itself, holds exactly when the person has a membership in the workspace the setting names. |
| TenantPool.NullExactlyUntilTouched | backend/alembic/versions/6fec8c88ba7c_rls_unscoped_guc_sticky_empty_string_fix.py:20-29 | Over any run under any policies, the setting of a connection reads NULL exactly as long as no transaction on it has taken a workspace since the connection was last replaced: however often transactions end, NULL never comes back. |
| TenantPool.RepairOnRealRows | backend/alembic/versions/c2d3e4f5a6b7_rls_predicate_repair.py:39-40 | On the rows of any store, with real workspace ids: the repair changes no read and no write of a virgin or scoped connection; at the empty string it lets everything through where a legacy policy let nothing through. |
| TenantEffects.UpdateEffect | backend/alembic/versions/6fec8c88ba7c_rls_unscoped_guc_sticky_empty_string_fix.py:142-149 | One UPDATE under any scope, locks and foreign keys: of the rows it names, exactly those its scope may see get their new images and nothing else changes; or it waits, or is refused because an image may not be stored or leaves a link that does not hold, and then nothing changes. |
| TenantEffects.InsertEffect | backend/alembic/versions/6fec8c88ba7c_rls_unscoped_guc_sticky_empty_string_fix.py:142-149 | One INSERT: stored beside all the other rows exactly when the key is free, the scope may store the row and every link holds; otherwise refused or waiting with nothing changed. |
| TenantEffects.DeleteEffect | backend/alembic/versions/6fec8c88ba7c_rls_unscoped_guc_sticky_empty_string_fix.py:142-149 | One DELETE: the rows its scope may see go with everything cascades reach, the links into those are cleared and nothing else changes, or nothing does; whose rows it reached beyond its targets is told exactly. |
| TenantEffects.StatementsCompose | backend/alembic/versions/6fec8c88ba7c_rls_unscoped_guc_sticky_empty_string_fix.py:142-149 | A statement inside a transaction works on what the one before it left, and leaves the committed rows and every other transaction alone. |
| TenantEffects.OutOfTurn | backend/app/core/tenant.py:540-562 | Out of turn nothing happens: no statement, commit or adoption without a transaction, no second begin, nothing but an end after a failure; adopting nothing is no error and no change. |
| TenantEffects.CommittedThenRead | backend/alembic/versions/6fec8c88ba7c_rls_unscoped_guc_sticky_empty_string_fix.py:142-149 | Any statement that is not refused, committed on the real machine from any such state, leaves a later reader of any scope exactly the rows its effect says. |
| TenantEffects.UpdateIsRead | backend/alembic/versions/6fec8c88ba7c_rls_unscoped_guc_sticky_empty_string_fix.py:142-149 | On the real machine with repaired policies, from any state its connections can be in, whatever the other transactions have open: begin, change visible rows, commit, and a later query of any scope on any connection reads the new images among all it may see. |
| TenantEffects.InsertIsRead | backend/alembic/versions/6fec8c88ba7c_rls_unscoped_guc_sticky_empty_string_fix.py:142-149 | The same for a row of any table inserted and committed. |
| TenantEffects.DeleteIsRead | backend/alembic/versions/6fec8c88ba7c_rls_unscoped_guc_sticky_empty_string_fix.py:142-149 | The same for rows deleted whose links in are cleared by column: they are gone for every reader and the links with them. |
| TenantEffects.AbandonedIsNotRead | backend/alembic/versions/6fec8c88ba7c_rls_unscoped_guc_sticky_empty_string_fix.py:20-29 | Rolled back, dropped with its connection, or failed and then committed, a transaction leaves every reader the rows that were there. |
| TenantEffects.UncommittedIsOwn | backend/alembic/versions/6fec8c88ba7c_rls_unscoped_guc_sticky_empty_string_fix.py:20-29 | Until the commit a transaction reads its own writes and everybody else the committed rows. |
| TenantEffects.AdoptedScopeReads | backend/app/core/tenant.py:540-562 | A transaction that adopts its workspace after it began reads as that workspace from then on, and as what it was before. |
| TenantEffects.LocksAre | backend/alembic/versions/c4d6e8f0a2b4_db_integrity_batch3.py:20-34 | The locks in a connection's way are exactly what the other open transactions have written, the rows those written rows name, and the stored rows they delete or move. |
| StickySetting.MixedAnswersExactlyWhen | backend/alembic/versions/6fec8c88ba7c_rls_unscoped_guc_sticky_empty_string_fix.py:31-34 | Under any mix of legacy and fixed policies a query is answered wrongly exactly on an unscoped transaction over a reused connection, on a table whose policy is still legacy and that has a row, and then with nothing: it hides and never leaks. |
| StickySetting.ReusedConnection | backend/alembic/versions/6fec8c88ba7c_rls_unscoped_guc_sticky_empty_string_fix.py:31-48 | The reported run, on every non-empty table: a scoped request warms a connection, an unscoped query reuses it. Legacy policies return nothing, repaired ones every row. |
| TenantIsolation.WorkspacesDoNotInterfere | backend/alembic/versions/6fec8c88ba7c_rls_unscoped_guc_sticky_empty_string_fix.py:118-149 | Non-interference over whole runs under any foreign keys: after any history, nothing that is inserted, updated (workspace column included), deleted, committed or rolled back by transactions that write only while scoped to other workspaces, and whose deletes reach no row of b through referential actions, changes what a transaction scoped to b sees on a table with a policy: same rows on every generic table, same set of people on `users`. |
| TenantIsolation.CommitSeenExactlyWhenReached | backend/alembic/versions/6fec8c88ba7c_rls_unscoped_guc_sticky_empty_string_fix.py:118-149 | The condition on deletes is exact: in every reachable state, the commit of a transaction that wrote only while scoped to other workspaces changes the answer to some query of b if and only if the referential actions of its deletes removed, or cleared a link of, a row of b. |
| CrossingDeletes.ConfinedKeysReachNobody | backend/alembic/versions/c4d6e8f0a2b4_db_integrity_batch3.py:20-34 | Where every cascading or clearing key is composite and hangs off a table that compares its own workspace column, no such transaction ever reaches a row of another workspace, in any state of any run. |
| CrossingDeletes.CascadeCrosses | backend/alembic/versions/ec6b16191e19_initial_schema.py:303-304 | A run on generic tables with fixed policies in which it does: a comment of b names a report of a, a deletes its own report, and the comment b saw before is gone. |
| TenantConsistency.RunConsistent | backend/alembic/versions/c4d6e8f0a2b4_db_integrity_batch3.py:20-34 | Over any run of concurrent transactions, under any rules, from a consistent store: what is committed, and what each open transaction sees of it through its own writes, has every link naming an existing row, of the same workspace where the key is composite. |
| TenantConsistency.DeleteIsOutcome | backend/alembic/versions/c4d6e8f0a2b4_db_integrity_batch3.py:20-34 | A delete of one row in this machine has an outcome that a database running the referential checks in any order can have. |
| TenantConsistency.OutcomeIsDelete | backend/alembic/versions/c4d6e8f0a2b4_db_integrity_batch3.py:20-34 | And every such outcome is one of its. |
| TenantIsolation.RequestsAreStrangers | backend/app/core/tenant.py:552-562 | Transactions of a connection that serves another workspace the usual way (begin unscoped, look up anything, adopt the workspace, then write anything, interleaved with whatever else) write only while scoped to it. |
| TenantIsolation.RunInv | backend/alembic/versions/b2c3d4e5f6a7_row_level_security.py:3-14 | In every reachable state, of a transaction that has written nothing unscoped and nothing in b: it will store no row of b on a generic table but for rows of b with links cleared, and it has touched a stored row of b exactly when a delete of its reached b. |
| TenantIsolation.ScopedSelect | backend/alembic/versions/e6a8c0b2d4f6_users_rls_membership_visibility.py:9-22 | In every state of a run under fixed policies a scoped query returns exactly the rows of its workspace, on `users` exactly its members, and on a table without a policy every row. |
| TenantIsolation.CreateUserWindow | backend/alembic/versions/e6a8c0b2d4f6_users_rls_membership_visibility.py:17-22 | Inserting a person whose links hold is admitted exactly when the row names the current workspace; the person is then visible to no scoped workspace, the creator included, until the membership row arrives, and from then on to that workspace alone. |
| RlsPolicy.PolicyMeans | backend/alembic/versions/6fec8c88ba7c_rls_unscoped_guc_sticky_empty_string_fix.py:118-139 | The policy texts, evaluated in three-valued logic, admit what the prose says: the unscoped legs, or the workspace, or (for `users`) a membership, with the extra create leg in WITH CHECK only. |
| RlsCatalogue.Catalogue.EnableRowSecurity | backend/alembic/versions/b2c3d4e5f6a7_row_level_security.py:47-56 | Each listed table gets the first policy; a table that already has one, or is listed twice, refuses the whole revision and leaves the catalogue as it was. |
| RlsCatalogue.FreshMeans | backend/alembic/versions/b2c3d4e5f6a7_row_level_security.py:47-56 | A revision is refused exactly when a listed table has a policy already or is listed twice. |
| RlsCatalogue.FirstMeans | backend/alembic/versions/b2c3d4e5f6a7_row_level_security.py:42-56 | The first policy shows everything to a connection without a setting and its own rows to a workspace, for reads and writes alike. |
| RlsCatalogue.Catalogue.Restate | backend/alembic/versions/6fec8c88ba7c_rls_unscoped_guc_sticky_empty_string_fix.py:142-171 | The loop over the generic tables and `users`, fixed or legacy: those tables carry the new texts, every other policy is as before. |
| RlsCatalogue.Catalogue.Repair | backend/alembic/versions/c2d3e4f5a6b7_rls_predicate_repair.py:93-100 | The catalogue-driven loop rewrites exactly the policies that lack the empty-string leg, `users` in its membership form, and counts them. |
| RlsCatalogue.Catalogue.Unrepair | backend/alembic/versions/c2d3e4f5a6b7_rls_predicate_repair.py:103-114 | The downgrade rewrites exactly the policies that carry the leg back to the two-leg form. |
| RlsCatalogue.RepairFixesAll | backend/alembic/versions/c2d3e4f5a6b7_rls_predicate_repair.py:32-37 | Whatever the mix of fixed and legacy, every policy ends fixed and no table gains or loses one. |
| RlsCatalogue.RepairIdempotent | backend/alembic/versions/c2d3e4f5a6b7_rls_predicate_repair.py:32-35 | A second repair changes nothing, and a correct catalogue is left as it is. |
| RlsCatalogue.RepairWidensOnlyAtEmpty | backend/alembic/versions/c2d3e4f5a6b7_rls_predicate_repair.py:39-40 | Policy by policy, against any columns and any subquery rows: unless the setting is the empty string every read and write decision is unchanged; there every row is admitted, where a legacy policy admitted none but one whose workspace or membership matches the empty string. |
| RlsCatalogue.RoundTrips | backend/alembic/versions/c2d3e4f5a6b7_rls_predicate_repair.py:103-108 | Downgrade undoes the repair exactly on all-legacy catalogues, and the repair undoes the downgrade exactly on all-fixed ones. |
| RlsCatalogue.MixedDoesNotRoundTrip | backend/alembic/versions/c2d3e4f5a6b7_rls_predicate_repair.py:103-108 | A two-table catalogue, one fixed and one legacy, that neither order of the two restores. |
| RlsCatalogue.History | backend/alembic/versions/c2d3e4f5a6b7_rls_predicate_repair.py:17-40 | First policies, membership visibility, the fix over the tables of its day, any number of later revisions from the old template, the repair, each run on the catalogue the last one left: whatever was refused on the way every policy ends fixed, and when nothing was, exactly the tables ever listed have one. |
| SqlLogic.NegateMeans | backend/alembic/versions/b1d3f5a7c9e2_wo_v_invoice_fx_provenance.py:83-88 | Pushing a negation inward through any predicate gives its three-valued negation, UNKNOWN staying UNKNOWN. |
| SqlLogic.RejectedIffNegationSelects | backend/alembic/versions/a7f2e9c41b83_wo89_fx_wrong_provenance.py:106-112 | A CHECK rejects a row exactly when a WHERE over the pushed-in negation selects it, for every predicate. |
| FxProvenance.InvoicePreflightExact | backend/alembic/versions/b1d3f5a7c9e2_wo_v_invoice_fx_provenance.py:77-88 | On every row, NULLs anywhere, the invoice pre-flight selects it exactly when the new CHECK is FALSE on it. |
| FxProvenance.ChecksMean | backend/alembic/versions/a7f2e9c41b83_wo89_fx_wrong_provenance.py:72-112 | What each constraint rejects, column by column: a euro of unknown source, a foreign row without a source, under WO-89 a foreign row that claims the euro as its source, and any source outside the four values. |
| FxProvenance.Wo89PreflightExactWhen | backend/alembic/versions/a7f2e9c41b83_wo89_fx_wrong_provenance.py:72-112 | The WO-89 pre-flight agrees with its CHECK on a row exactly when the row is not one of unknown source with a NULL euro. |
| FxProvenance.Wo88PreflightExactWhen | backend/alembic/versions/e4a7c1d92f08_wo88_fx_provenance_consistency.py:69-101 | The same exact condition for WO-88. |
| FxProvenance.NullableEuroOverRefused | backend/alembic/versions/a7f2e9c41b83_wo89_fx_wrong_provenance.py:106-112 | A row the pre-flight would refuse although the CHECK lets it stand, were the euro column nullable. |
| FxProvenance.DomainPreflightExact | backend/alembic/versions/e4a7c1d92f08_wo88_fx_provenance_consistency.py:107-114 | The value-domain query selects exactly the rows the value-domain CHECK rejects. |
| FxProvenance.PreflightsExactOn | backend/alembic/versions/a7f2e9c41b83_wo89_fx_wrong_provenance.py:104-112 | On every table whose euro column is NOT NULL, the WO-88 and WO-89 pre-flights find a row exactly when the constraint would reject one. |
| FxProvenance.Wo88Upgrade | backend/alembic/versions/e4a7c1d92f08_wo88_fx_provenance_consistency.py:123-147 | Refuses exactly when one of the three constraints would fail on a stored row, and then changes nothing; otherwise all three are in force. |
| FxProvenance.Wo89Upgrade | backend/alembic/versions/a7f2e9c41b83_wo89_fx_wrong_provenance.py:131-151 | Refuses exactly when a recreated constraint would fail; otherwise both are replaced, although each is dropped before it is recreated. |
| FxProvenance.Wo89Downgrade | backend/alembic/versions/a7f2e9c41b83_wo89_fx_wrong_provenance.py:154-161 | Never refused, whatever rows arrived since: both tables land on the WO-88 constraint with every row valid under it. |
| FxProvenance.Wo89ImpliesWo88 | backend/alembic/versions/a7f2e9c41b83_wo89_fx_wrong_provenance.py:154-157 | A row WO-89 lets stand, WO-88 lets stand. |
| FxProvenance.InvoiceUpgrade | backend/alembic/versions/b1d3f5a7c9e2_wo_v_invoice_fx_provenance.py:113-130 | Refuses exactly when adding the constraint would fail, and then leaves the constraints alone. |
| StateSets.StateGateExactWhen | backend/alembic/versions/c4d6e8f0a2b4_db_integrity_batch3.py:154-167 | The state gate names the rows on which the CHECK is not TRUE; it is stricter than the CHECK exactly at NULL. |
| StateSets.OffendingValues | backend/alembic/versions/c4d6e8f0a2b4_db_integrity_batch3.py:154-167 | Every distinct value outside the set, NULL included, with the number of rows that hold it; none exactly when every row is inside. |
| StateSets.OffendersMean | backend/alembic/versions/c4d6e8f0a2b4_db_integrity_batch3.py:154-167 | The rows counted for a value are those that store it, when it is not a state of the set. |
| StateSets.Schema.Upgrade | backend/alembic/versions/c4d6e8f0a2b4_db_integrity_batch3.py:170-203 | Refused, with nothing changed, exactly when some row of the six tables, named with their states, is outside its set once a stored paid invoice is read as issued; otherwise the states are normalised, the six constraints, by name, reject exactly the other states, and no stored row fails one. |
| StateSets.NormalisedRowMeans | backend/alembic/versions/c4d6e8f0a2b4_db_integrity_batch3.py:170-175 | Only a lifecycle of paid is rewritten, to issued, and no other column changes. |
| Iban.FoldComputesMod97 | scripts/pii_scan.py:107-111 | The big-integer remainder of the letter-expanded text equals a character-by-character fold of remainders below 97. |
| Iban.ValidExactlyWhen | scripts/pii_scan.py:78-119 | A token is valid exactly when its country is in the registry of lengths, its length is exactly that one, and the fold ends on 1. |
| Iban.Carry | scripts/pii_scan.py:107-111 | No intermediate value of that fold exceeds 9635. |
| Iban.SubstitutionDetected | scripts/pii_scan.py:107-119 | A token with one character replaced by another of its class is never valid together with the original: the remainders differ. |
| Iban.SwapDetectedExactlyWhen | scripts/pii_scan.py:107-111 | Swapping two neighbours of the rearranged text keeps the remainder exactly when they are equal or one is a letter worth eleven times the digit beside it. |
| Iban.SwapNeverBothValid | scripts/pii_scan.py:107-119 | Two tokens whose rearrangements differ by swapping unequal neighbours of one class are never both valid. |
| Iban.NeighbourSwapDetected | scripts/pii_scan.py:107-119 | Two unequal neighbours of one class swapped anywhere in the token, the fourth and fifth included, never leave it valid: rearranging parts only that pair, and ten has order 96 modulo 97, more digits than any IBAN has. |
| Iban.BlindPairs | scripts/pii_scan.py:107-111 | The undetected digit and letter pairs are 1 and B, 2 and M, 3 and X, and no others. |
| Iban.CheckDigitsUnique | scripts/pii_scan.py:114-119 | For every known country and account part of the right length, exactly one check-digit pair from 02 to 98 is accepted; outside that range only its residues are. |
| Iban.CanonicalIdempotent | backend/app/core/bank_id.py:81-83 | The canonical form of a canonical form is itself. |
| RewritePass.TurnOf | backend/alembic/versions/b1c3e5a7f9d1_wo8_fx_convention.py:91-100 | One more value rewritten in place equals one more value mapped at once, and the rows it matches are those that held it from the start, because every image is a fixed point. |
| RewritePass.UnsettledPassDiffers | backend/alembic/versions/b1c3e5a7f9d1_wo8_fx_convention.py:91-100 | Where an image is not a fixed point the sequential pass and the simultaneous map do differ. |
| RewritePass.TableColumn.RewriteEach | backend/alembic/versions/a8b9c0d1e2f3_vendor_iban_and_link.py:61-76 | Distinct values rewritten one after another, in any order, come out as the simultaneous map; the row counts add up to the rows changed; the report is the multiset of masks of the rejected values. |
| RewritePass.TableColumn.NormaliseFxSource | backend/alembic/versions/b1c3e5a7f9d1_wo8_fx_convention.py:85-101 | The column becomes the canonical map of itself; the count is the rows actually changed. |
| RewritePass.TableColumn.NormaliseIbans | backend/alembic/versions/a8b9c0d1e2f3_vendor_iban_and_link.py:56-76 | Valid values become canonical, invalid ones keep their text, the report is the multiset of their masks, and the count is the rows actually changed. |
| RewritePass.SecondPassIdle | backend/alembic/versions/a8b9c0d1e2f3_vendor_iban_and_link.py:28-28 | A rerun changes no row and counts none. |
| RewritePass.FxSourceSettles | backend/alembic/versions/b1c3e5a7f9d1_wo8_fx_convention.py:56-72 | The free-text map settles after one application and always lands in the closed value set. |
| RewritePass.FxSourceMeans | backend/alembic/versions/b1c3e5a7f9d1_wo8_fx_convention.py:56-94 | Whatever whitespace stands around a word and in whatever case: eur and ecb are themselves, eight words are stated, everything else is unknown. |
| RewritePass.IbanFormSettles | backend/alembic/versions/a8b9c0d1e2f3_vendor_iban_and_link.py:66-76 | Rewriting a rewritten or rejected value changes nothing. |
| RewritePass.IbanFormMeans | backend/alembic/versions/a8b9c0d1e2f3_vendor_iban_and_link.py:56-76 | A value is rewritten, to its text without whitespace and in capitals, exactly when that has the shape, the registered length and the remainder; a mask shows four characters at most. |
| RewritePass.NormalisedFitsDomain | backend/alembic/versions/b1c3e5a7f9d1_wo8_fx_convention.py:107-109 | After the pass no row fails the value-domain CHECK added later in the same revision. |
| FxCorrection.HalfUpCharacterised | backend/alembic/versions/b1c3e5a7f9d1_wo8_fx_convention.py:77-78 | Rounding gives the one cent count within half a cent, ties away from zero. |
| FxCorrection.HalfUpLaws | backend/alembic/versions/b1c3e5a7f9d1_wo8_fx_convention.py:77-78 | Rounding fixes whole cents, is monotone, odd, and off by at most half a cent. |
| FxCorrection.DividedFigures | backend/alembic/versions/b1c3e5a7f9d1_wo8_fx_convention.py:132-134 | The figure a correction writes multiplies back to within half a rate of the original, mirrors for refunds, and never falls when the original rises. |
| FxCorrection.ExpenseTables.Correct | backend/alembic/versions/b1c3e5a7f9d1_wo8_fx_convention.py:111-165 | The loops change every item and report as one simultaneous correction, whose items, totals and lists of corrected and flagged items the next four rows pin down. |
| FxCorrection.ChangesExactlyTheMistakes | backend/alembic/versions/b1c3e5a7f9d1_wo8_fx_convention.py:128-145 | An item changes exactly when its currency is not its report's, its rate is positive, its amount is within half a cent of original times rate and not of original over rate, and the report is a draft, submitted or returned; then only its amount changes, to within half a cent of the quotient. Any other report and all its items keep every field. |
| FxCorrection.ReportsExactlyTheMistakes | backend/alembic/versions/b1c3e5a7f9d1_wo8_fx_convention.py:122-145 | The run reports an item as corrected exactly when it corrects it, and as flagged exactly when its amount is the bug's own figure but its report has been decided. |
| FxCorrection.TotalsAreSums | backend/alembic/versions/b1c3e5a7f9d1_wo8_fx_convention.py:147-165 | A report with a corrected item totals the sum of its items as they now stand; its euro follows only when it is a euro report that had one; other reports keep everything. |
| FxCorrection.SecondRunIdle | backend/alembic/versions/b1c3e5a7f9d1_wo8_fx_convention.py:111-165 | A second run changes no item and no report, corrects nothing, and flags the same items again. |
| PiiScan.ScanText | scripts/pii_scan.py:200-246 | The findings of a text, each exactly as often as it is due: on line k, numbered k + 1, one for each unmasked, unallowed VAT match and each such IBAN match that passes the check, told by its first two characters and its length, and one for each deny-list entry of whose length and salted digest some stretch of the normalised line is. |
| PiiScan.FoundTimes | scripts/pii_scan.py:200-246 | The same of the specification the loops meet, for any first line number. |
| PiiScan.FindWindow | scripts/pii_scan.py:235-245 | The sliding window stops with a hit exactly when some window of the entry length has the entry digest. |
| PiiScan.NormalizeSplit | scripts/pii_scan.py:122-124 | Character-wise normalisation is a homomorphism. |
| PiiScan.WindowComesFrom | scripts/pii_scan.py:229-236 | Every window of the normalised line is some stretch of the original line, normalised. |
| PiiScan.HoldingHits | scripts/pii_scan.py:228-246 | For any digest, a line that holds a value in any case, interleaved with any whitespace, hits its entry. |
| PiiScan.HitHolds | scripts/pii_scan.py:235-245 | For a collision-free digest every hit is a real occurrence. |
| PiiScan.ReportedOnce | scripts/pii_scan.py:230-245 | With distinct labels, a scan of a text reports an entry once on each line where it occurs and not on the others. |
| PiiScan.DeniedComesFrom | scripts/pii_scan.py:228-246 | Every deny-list finding of a text names a line of it and an entry that occurs on that line. |
| DenyListBuild.DenyListFile.Rebuild | scripts/pii_denylist_build.py:67-119 | The file is replaced by the sorted entries exactly when the salt is set, both files are readable and every line is well formed with a fresh label; any refusal leaves it as it was. |
| DenyListBuild.RowExactly | scripts/pii_denylist_build.py:74-100 | A line that is not skipped is an identifier exactly when it is kind, label and value, none of them blank, with one tab between each two. |
| DenyListBuild.ColumnsRead | scripts/pii_denylist_build.py:74-100 | The three columns are read in this order, each without the whitespace around it. |
| DenyListBuild.SkippedExactly | scripts/pii_denylist_build.py:74-80 | A line is skipped exactly when it is blank or its first visible character is a number sign. |
| DenyListBuild.SortedKeeps | scripts/pii_denylist_build.py:110-110 | Sorting by label orders the entries and neither loses nor duplicates one. |
| DenyListBuild.IdentitiesVisible | scripts/pii_denylist_build.py:88-100 | Every accepted identifier normalises to something, so its entry is never skipped by the scanner. |
| DenyListBuild.BuiltListReports | scripts/pii_scan.py:228-246 | Completeness across builder and scanner, of the scan of a whole text: if line k holds an accepted identifier in any case and spacing, the findings hold it under its label at k + 1 exactly once, for any digest. |
| DenyListBuild.BuiltListReportsOnly | scripts/pii_scan.py:228-246 | Soundness across both, of the scan of a whole text: for a collision-free digest each deny-list finding names a line of the text that really holds the accepted identifier it names. |
| BlobCache.History.Scan | scripts/pii_scan.py:331-357 | One run returns the findings of the blobs it does not skip and adds to the cache exactly the newly clean ones, unless the cache is off, cannot be read, or the write fails, with the old file kept or left unreadable. |
| BlobCache.FullFindingsMean | scripts/pii_scan.py:331-346 | A full run finds, blob after blob, what is due from the text of each, reported at its place; a blob is clean exactly when nothing is. |
| BlobCache.CacheAfterMeans | scripts/pii_scan.py:331-357 | The cache gains exactly the blobs the run scanned and found clean, when it is used and saving works; a failed save leaves it as it was or spoils it. |
| BlobCache.CachedRunExactWhen | scripts/pii_scan.py:331-346 | A cached run finds what a full run finds exactly when every blob it skips is clean under the current configuration. |
| BlobCache.EveryRunIsAFullScan | scripts/pii_scan.py:295-300 | Over any sequence of runs, any blobs, whichever cache reads and writes fail, under one configuration whose allow-list may only grow: the cache holds clean blobs only and each run returns the findings list of an uncached one. |
| BlobCache.CleanStaysClean | scripts/pii_scan.py:170-186 | Allowing more never makes a clean text dirty. |
| BlobCache.StaleCacheMisses | scripts/pii_scan.py:331-346 | A blob cached as clean before a deny-list entry was added is missed after it. |
| References.Database.Delete | backend/alembic/versions/c4d6e8f0a2b4_db_integrity_batch3.py:20-34 | A delete, its referential checks run in any order, either refuses with every row as it was or removes exactly the cascade closure and clears exactly the column-list links into it. |
| References.Database.Insert | backend/alembic/versions/c4d6e8f0a2b4_db_integrity_batch3.py:22-24 | A row is stored exactly when every link it holds names an existing parent, of its own workspace where the key is composite; no link in the database ever dangles. |
| References.Database.SetLink | backend/alembic/versions/c4d6e8f0a2b4_db_integrity_batch3.py:22-24 | A link changes exactly when the new value names such a parent, and nothing else changes. |
| References.Database.SetOrg | backend/alembic/versions/c4d6e8f0a2b4_db_integrity_batch3.py:22-24 | A row moves to another workspace exactly when that parts it from no parent it names and from no row that names it by a composite key. |
| ForeignKeys.ClosureIsLeast | backend/alembic/versions/c4d6e8f0a2b4_db_integrity_batch3.py:14-15 | The cascade closure is inside every set of rows closed under the cascading links. |
| ForeignKeys.OutcomeConsistent | backend/alembic/versions/c4d6e8f0a2b4_db_integrity_batch3.py:20-34 | A granted delete leaves no dangling and no cross-workspace link. |
| ForeignKeys.NoLinkDangles | backend/alembic/versions/c4d6e8f0a2b4_db_integrity_batch3.py:22-24 | A store is consistent exactly when every link names an existing row, of the same workspace where the key is composite. |
| ForeignKeys.DeleteStaysInWorkspace | backend/alembic/versions/c4d6e8f0a2b4_db_integrity_batch3.py:20-24 | Composite links keep a delete inside its workspace: where every cascading or clearing key is composite, every row of another workspace is left exactly as it was. |
| References.DetachingDelete | backend/alembic/versions/c4d6e8f0a2b4_db_integrity_batch3.py:28-33 | Where every link into a table clears its own column, deleting a row is always granted, removes it alone, and clears that link and nothing else of the documents that named it. |
| References.RefusingDelete | backend/alembic/versions/c4d6e8f0a2b4_db_integrity_batch3.py:26-30 | Where the links restrict, or are composite and null all columns over a NOT NULL workspace, a row can be deleted exactly when no other row names it, and then it alone goes. |
| References.RecordsSurvive | backend/alembic/versions/c4d6e8f0a2b4_db_integrity_batch3.py:68-74 | Named one by one: deleting a parent that an audit event, an archived invoice, a supplier invoice, an expense report or a card transaction names is refused after batch 3 with every row kept, unless the record would go by another cascade that remains; before, a cascading link took the record along. |
| References.ProjectDetaches | backend/alembic/versions/c4d6e8f0a2b4_db_integrity_batch3.py:28-33 | After batch 3 on Postgres, where project_id of invoices, issued invoices and expense items are the only keys to projects: every project delete is granted, removes the project alone, and clears project_id of exactly the documents that named it, every other field and row unchanged. |
| References.ProjectStuckBefore | backend/alembic/versions/c4d6e8f0a2b4_db_integrity_batch3.py:26-30 | Before it, a project could be deleted exactly when no document named it. |
| References.IssuerAfterUpgrade | backend/alembic/versions/c4d6e8f0a2b4_db_integrity_batch3.py:20-34 | After batch 3 deleting an issuer detaches the invoices that name it on Postgres, and on SQLite is granted exactly when none does. |
| References.Database.Batch3Upgrade | backend/alembic/versions/c4d6e8f0a2b4_db_integrity_batch3.py:205-260 | Once the state gate has passed: refuses exactly when an issued invoice names an issuer of another workspace; otherwise the rules are those the four rows above are about and every stored link satisfies them. |
| References.Database.VendorLinkUpgrade | backend/alembic/versions/a8b9c0d1e2f3_vendor_iban_and_link.py:94-150 | Refuses exactly when an invoice names a vendor of another workspace; otherwise the vendor link is composite and restricting and every stored link satisfies it. |
| PaymentLedger.Tables.Backfill | backend/alembic/versions/d99c826e4767_payment_ledger.py:89-122 | The loop inserts one entry for each invoice with something paid, in order. |
| PaymentLedger.LedgerConserves | backend/alembic/versions/d99c826e4767_payment_ledger.py:78-80 | For every selection of invoices, the entries of the selected ones sum to their running totals. |
| PaymentLedger.ConservedByWorkspaceAndInAll | backend/alembic/versions/d99c826e4767_payment_ledger.py:78-80 | So do the sums per workspace and the sum of everything. |
| PaymentLedger.ConservedByInvoice | backend/alembic/versions/d99c826e4767_payment_ledger.py:78-80 | For each invoice the ledger sum is its running total. |
| PaymentLedger.EntriesNameInvoices | backend/alembic/versions/d99c826e4767_payment_ledger.py:111-121 | Every entry is that of an existing invoice with something paid: its workspace, number and amount, marked migrated, dated by its payment or, without one, by its issue. |
| PaymentLedger.PaidInvoicesEntered | backend/alembic/versions/d99c826e4767_payment_ledger.py:111-121 | Every invoice with something paid has such an entry. |
| PaymentLedger.NoInvoiceTwice | backend/alembic/versions/d99c826e4767_payment_ledger.py:111-121 | No two entries name one invoice. |
| CompilerInstall.Files.Install | scripts/install_ci_typescript.py:87-156 | Start to finish: the target is replaced exactly when validation, the staged digest, the version and the provenance read agree, the launcher is checked after the rename, a refusal before it leaves the target as it was, and the temporary file is always gone. |
| CompilerInstall.TargetNeverPartial | scripts/install_ci_typescript.py:111-147 | Cut off after any step of any run, with the build output changing underneath and reads that may catch it half changed, the target holds its old bytes or exactly the validated ones (collision-free digest). |
| CompilerInstall.RunBeforeRename | scripts/install_ci_typescript.py:111-147 | Nothing is put in place that was not first run: the very bytes now in the target stood in the temporary file when it reported the right version. |
| CompilerInstall.FinishedMeans | scripts/install_ci_typescript.py:147-156 | A finished install has launched the compiler from its place, a failed launch is never reported as finished, and no temporary file is left. |
| CompilerInstall.RenamedCanFinish | scripts/install_ci_typescript.py:145-156 | Once renamed, an install can always clean up and finish, with the target as it is. |
| CompilerInstall.RetainedProvenanceExactWhen | scripts/install_ci_typescript.py:124-145 | With the new bytes in place the retained provenance is, file by file, what the build output held when the walk came to each file its listings led to; it is what was validated at step i exactly when each file of either was met as it was at step i. |
| CompilerInstall.UndisturbedIsRetained | scripts/install_ci_typescript.py:124-145 | It is enough that the build output holds its validated provenance at each listing and each read of the walk. |
| CompilerInstall.SwappedProvenanceIsRetained | scripts/install_ci_typescript.py:124-145 | A run for every valid output in which provenance swapped after validation is retained beside the validated binary. |
| CompilerInstall.MixtureIsRetained | scripts/install_ci_typescript.py:142-143 | A run in which the output changes between two file copies and the retained provenance is a mixture that no build output ever held. |
| CompilerInstall.QuietInstallRetainsValidated | scripts/install_ci_typescript.py:87-147 | On a build output left alone, binary and provenance in place are both the validated ones. |
| CompilerInstall.RetainedNeverRewritten | scripts/install_ci_typescript.py:124-142 | Provenance already on the disk, from a finished or an interrupted copy, is never rewritten by any run. |
| BucketBootstrap.ReadyMeansAccessible | backend/app/storage_bootstrap.py:85-119 | With any number of concurrent initialisers and other clients that may do anything to the store: one that reports ready could reach an existing bucket at the step of its own on which it settled. |
| BucketBootstrap.StaysAccessible | backend/app/storage_bootstrap.py:85-119 | And still can for as long as no other client removes the bucket or withdraws access. |
| BucketBootstrap.OneCreationTakesEffect | backend/app/storage_bootstrap.py:102-119 | However many initialisers race, at most one creation takes effect, and one more for each time another client removed the bucket. |
| BucketBootstrap.RepliesAreTrue | backend/app/storage_bootstrap.py:99-119 | What the store may do: a creation takes effect on an absent bucket or changes nothing; a granted one leaves the caller with access, and a lost race means that the bucket is the caller's; any other reply may come either way. |
| BucketBootstrap.CreateAttemptsAreAuthorised | backend/app/storage_bootstrap.py:87-108 | Every creation attempt was preceded by the same initialiser being told 404 while there was no bucket, and losing the race leads to a recheck. |
| BucketBootstrap.InitialisersChangeNothingStored | backend/app/storage_bootstrap.py:93-101 | No step of an initialiser changes a stored object, and none changes an existing bucket. |
| BucketBootstrap.PrimaryRefusalStands | backend/app/storage_bootstrap.py:68-77 | Once a run has a refusal or an interruption, no cleanup failure ever replaces it. |
| BucketBootstrap.InitializeBucket | backend/app/storage_bootstrap.py:48-82 | The code with its handlers ends where the machine of the interleaved runs ends. |
| BucketBootstrap.ReadyExactlyWhen | backend/app/storage_bootstrap.py:48-119 | A run reports ready exactly on a found bucket, or on an authenticated 404 followed by a granted creation or a successful recheck after a lost race; and only if closing worked. |
| BucketBootstrap.RefusedExactlyWhen | backend/app/storage_bootstrap.py:48-119 | Each refusal is given exactly on the replies it names: the first look, the creation, the second look, or closing after all else went well; interruption anywhere is itself. |
| DeploymentImages.FieldsExact | scripts/image_audit.py:62-74 | The recursive generator ends well exactly when every `image` key at every depth holds a non-empty string, and then yields them all and nothing else. |
| DeploymentImages.ImageAtMeans | scripts/image_audit.py:62-74 | An image key is a mapping's key of that name, in mappings under any key and lists at any index, and nowhere else. |
| Dockerfiles.AuditDockerfile | scripts/image_audit.py:90-151 | A Dockerfile is accepted exactly when every FROM is pinned, its stages are the expected ones each once with the runtime last, and every outside COPY is pinned and inside a stage; every such input is then listed under the output that covers it. |
| Dockerfiles.NamesMatch | scripts/image_audit.py:107-121 | Comparing the sets and the lengths of the stage names amounts to each expected stage occurring exactly once. |
| Dockerfiles.ExpectedAreOutputs | scripts/image_audit.py:30-40 | The stages expected of a Dockerfile are those of the nine audited outputs that name it, and the Dockerfiles read are those that some output names. |
| Dockerfiles.InternalMeans | scripts/image_audit.py:104-142 | A COPY source is inside the file exactly when it names a stage, the unnamed last one being the runtime, or numbers one. |
| Dockerfiles.ExternalMeans | scripts/image_audit.py:134-142 | A COPY takes from outside the file exactly when it names a source that is not inside it. |
| ImageInventory.GoodFileExactWhen | scripts/image_audit.py:155-187 | A deployment file is accounted for exactly when it parses to its end and every image key in it can be placed. |
| ImageInventory.MeaningMeans | scripts/image_audit.py:166-182 | A published template means its output, the two local service names mean postgres and pgbouncer, any other plain reference is a service to pull. |
| ImageInventory.StandsForMeans | scripts/image_audit.py:172-187 | A target stands for an image key when it lists it as a source and is the built output the template means, or the very service reference. |
| ImageInventory.Inventory | scripts/image_audit.py:77-202 | No errors exactly when every Dockerfile and every deployment file is good and something is deployed; then every image key stands in the sources of its target, every build input is listed, and the targets are the nine outputs and the deployed service references, no others. |
| AuditGate.CleanExactlyWhen | scripts/image_audit.py:220-338 | Over the evidence itself: clean exactly on a CycloneDX bill of materials and an audit of the very Linux amd64 image inspected, a known operating system not at its end of life, its packages looked at, all exits zero and no advisory; vulnerable exactly on the same with at least one advisory, all complete and high or critical; unavailable or an image error exactly when not pulled or not identified. |
| AuditGate.Gate.Run | scripts/image_audit.py:495-527 | Every report file content before the last is a refusal; the last says passed, and the exit code is 0, exactly when the repository and the scans are releasable: all covered, services fixed by content, and clean in the sense above. A release let through has no image on an unknown operating system or one at its end of life. |
| AuditGate.PassesExactlyWhen | scripts/image_audit.py:520-525 | The verdict over the collected results is the verdict over the repository and the scans. |

## Left out

- RewritePass.TableColumn.NormaliseFxSource: lower-casing and whitespace cover ASCII, not all of Unicode.
- RewritePass.TableColumn.NormaliseIbans: likewise for upper-casing.
- Dockerfiles.InternalMeans: a numbered stage is written in ASCII digits, where the script takes digits of any script.
- FxCorrection.TotalsAreSums: Decimal's 28-digit context is not modelled; amounts are whole cents and quotients exact reals until rounded.
- CompilerInstall.Files.Install: the platform checks before staging (npm version, target path, symlinks) count as part of validation passing; what it reads of the build output after validation is given.
- CompilerInstall.RetainedProvenanceExactWhen: validation reads the build output at one moment, and empty directories are not part of a tree; listings and file reads of the walk each have their own moment.
- TenantIsolation.WorkspacesDoNotInterfere: is about what queries show; the reply to an insert can still tell that another workspace holds the key.
- Interleavings of the bucket initialisers and of an interrupted install are state machines on values, because the interference and the interruption are the point; the code itself is the method beside each.
- Savepoints, deadlocks, isolation levels other than read committed, deferred constraints and ON UPDATE actions; a statement that meets a lock waits and leaves no trace.
- RESET and set_config(name, NULL, true): they leave the setting as the end of a transaction does and no code path calls them.
- The regular expressions of the scanner, the Dockerfile reader and the reference templates; their matches are given, and so are parsed YAML, JSON and scanner output.
- Unicode lower-casing that changes the number of characters; folding is character by character.
- scan_tree, the deny-list and allow-list loaders and the command lines: file walking and input validation only.
- The order in which service targets are listed, the text of reports and logs, redaction and masking of printed values.
- Dialect no-ops, the downgrades of the foreign-key revisions, column and table creation, indexes.
- The service layer (jobs, payment runs, approvals, rates, audit chain): outside the migrations and gate scripts modelled here.
