# Core platform: what the migrations promise

A model of the data migrations of the core platform backend and of the PL/pgSQL guards they install,
with proofs of what they are for.

| Component | Modules |
|---|---|
| Brand tree: the parent guard, its recursive query and advisory locks, under concurrent transactions | `Forest`, `BrandTree`, `BrandSteps`, `BrandGuard` |
| Validity windows: the deferred overlap check under concurrent transactions | `Windows`, `WindowChecks`, `WindowSteps` |
| Entity registry: polymorphic references, custom-field values, orphan finders | `Registry`, `FieldValues`, `FieldValueRuns`, `FieldValueSteps` |
| SQL script splitter of the migration generators | `PyText`, `SqlSplitter`, `SplitterProofs`, `SplitterValues` |
| Documents: legacy rows to documents, files, links and tags, and back | `Decimals`, `Json`, `OwnerNames`, `DocumentRows`, `DocumentLosses`, `DocumentTables`, `DocumentValues`, `DocumentNormalForm`, `DocumentTags`, `DocumentReturn`, `DocumentMigration` |
| Taxes with crosswalk and sequences | `Taxes`, `TaxTables` |
| Currency links, exchange rates, organization scope | `CurrencyLinks`, `ExchangeRates`, `ScopeBackfill` |
| Shared | `Basics`, `Statements` |

`dafny verify dfyconfig.toml` checks everything.

## How it is modelled

Tables are maps from ids to records; a nullable column is an `Option`. A concurrent component is a step
system: a committed table, the private writes of each open transaction, and the lock tables. One step is
one statement, a run is any interleaving, isolation is READ COMMITTED. A main theorem speaks of every state
of every run; beside it a class runs the trigger's code over mutable tables and is tied to the step
system by its contracts. A data migration is a pure function of a row where the query is one, and a class
whose methods change its tables in place where statements follow each other. Where a statement may pick any
of several rows (an UPDATE joined to several matches, generated ids, row order), the model leaves the choice
open. Beside the theorems stand lemmas that say in columns what each step, statement and row is (`BrandSteps`,
`WindowSteps`, `FieldValueSteps`, `SplitterValues`, `DocumentValues`, and the last sections of the others).

## Where the code and its documentation differ

The model follows the code.

* A brand can become its own ancestor by statements that pass the guard. INSERT walks no ancestors and the
  foreign key is looked up at the end of the statement, so two rows of one INSERT may name each other
  (`BrandTree.MultiRowInsertCanCommitACycle`); such inserts are told apart exactly
  (`BrandTree.InsertForestIff`). And `id` is no watched column, so an UPDATE that renumbers brands can close a
  cycle (`BrandTree.RenumberingCanCloseACycle`), exactly when the renumbered table is not grounded
  (`BrandTree.TableForestIff`), and never while the rows named as parents keep their numbers
  (`BrandTree.ParentsStayKeepsForest`); no step of a run renumbers. Statements that mix INSERT and UPDATE in one
  command (a `WITH` clause that modifies data) are no step either; they may open further ways.
* "Nothing is lost" in the documents migration. On the way up these leave no trace: the file type; the status
  of a blocked row and any unknown status; an unknown processing status, and which of several words it was for a
  known one; a hash that is not hexadecimal, and the case of one that is; an uploader id that is not a number, and
  leading zeros of one that is; an object key behind a local path; null members of JSON columns; whether a flag
  or a receipt amount was unset or at its default. And a `legacy` key of the row's own metadata is replaced if a
  column without a new home is set. `DocumentLosses.IdentifiedIff` says exactly which rows become the same, by
  their columns. Over both ways, more does not come back: the columns kept in the metadata, an owner class that
  is not in CamelCase and leading zeros of an owner id (the last two are kept on the way up, but the way down
  prefers the link); `DocumentLosses.RoundTripIff` has the exact condition.
* "Every legacy row is migrated": a negative file size, or a linked owner class whose snake_case name is longer
  than fifty characters, stops the migration (`DocumentRows.MigratedRowsMeetChecksIff`), and so does a tag set
  both on a legacy row and, left over from somewhere, on the number its document gets
  (`DocumentMigration.Tables.Upgrade`, `DocumentTags.NeverClashIff`).
* The way straight down stops for a file name with an extension longer than fifty characters, and for an overlong
  owner found in a row's own metadata (`DocumentReturn.StraightDownTakenIff`).
* "Drop comment-only chunks" in the splitter: a comment followed by a line with only a semicolon is kept
  (`SplitterValues.CommentAloneRemains`); a chunk is dropped exactly if all its lines are blank or comments
  (`SplitterValues.EmitMeans`).
* Currency links: a wrong id should never be believed, but an untranslatable link whose old id also occurs
  among the new ids is kept (`CurrencyLinks.FaithfulIff`, `CurrencyLinks.WrongCurrency`).
* Exchange rates are called reversible: rows come back, but a missing source comes back as `manual`
  (`ExchangeRates.UpDownIff`).
* Operator notes of taxes survive unless their metadata key was taken (`Taxes.NotesRoundTripIff`).

## Model

| member | source | states |
|---|---|---|
| BrandTree.CommittedForestAlways | apps/core-platform/backend/alembic/versions/20260922_0900_b1a2c3d4e5f6_core_master_data_brands_manufacturers.py:548-589 | In every interleaving of transactions that insert, move, re-own, un-parent, delete, re-scope, commit or abort brands, in every committed table each parent exists in the same tenant and organization and no chain of parents leads back to its start, as long as the rows of each multi-row insert hang from rows outside it |
| BrandTree.ReachesIffChain | apps/core-platform/backend/alembic/versions/20260922_0900_b1a2c3d4e5f6_core_master_data_brands_manufacturers.py:571-576 | Being reached by climbing is having a chain of rows, each naming the next as its parent |
| BrandTree.AcyclicIffNoChain | apps/core-platform/backend/alembic/versions/20260922_0900_b1a2c3d4e5f6_core_master_data_brands_manufacturers.py:571-576 | A table is a forest exactly when no such chain leads from a row back to itself |
| BrandTree.StepKeepsIff | apps/core-platform/backend/alembic/versions/20260922_0900_b1a2c3d4e5f6_core_master_data_brands_manufacturers.py:548-589 | A statement of any transaction keeps the invariant (row and tenant locks, the foreign key and acyclicity in the committed table and in every transaction's own view) exactly when it is not an ungrounded insert |
| BrandTree.RescopeKeeps | apps/core-platform/backend/alembic/versions/20260922_0900_b1a2c3d4e5f6_core_master_data_brands_manufacturers.py:585-589 | One UPDATE that moves brands to another tenant or organization together with all their ancestors and descendants, which fires no guard and takes no lock, keeps the invariant |
| BrandTree.RescopeMeetsKeyIff | apps/core-platform/backend/alembic/versions/20260922_0900_b1a2c3d4e5f6_core_master_data_brands_manufacturers.py:198-200 | Rows that change their tenant or organization meet the foreign key if and only if their parents and children go with them |
| BrandTree.MergedForest | apps/core-platform/backend/alembic/versions/20260922_0900_b1a2c3d4e5f6_core_master_data_brands_manufacturers.py:557 | Committing one transaction leaves a forest in every other open transaction's view: in each tenant, new links were made under its advisory lock or inside a tree the transaction has written whole |
| BrandTree.CycleCheckExact | apps/core-platform/backend/alembic/versions/20260922_0900_b1a2c3d4e5f6_core_master_data_brands_manufacturers.py:570-581 | From a forest, the recursive query finds the moved row among the new parent's ancestors if and only if the new link closes a cycle |
| BrandTree.InsertForestIff | apps/core-platform/backend/alembic/versions/20260922_0900_b1a2c3d4e5f6_core_master_data_brands_manufacturers.py:569-581 | An INSERT, which walks no ancestors, leaves a forest if and only if its own rows are grounded outside the statement |
| BrandTree.SingleInsertGrounded | apps/core-platform/backend/alembic/versions/20260922_0900_b1a2c3d4e5f6_core_master_data_brands_manufacturers.py:197-200 | A one-row insert is always grounded: the self-parent CHECK and the foreign key are enough |
| BrandTree.MultiRowInsertCanCommitACycle | apps/core-platform/backend/alembic/versions/20260922_0900_b1a2c3d4e5f6_core_master_data_brands_manufacturers.py:569-581 | Two rows of one INSERT that name each other pass every check and are committed as a cycle: a run that shows it |
| BrandTree.MovesWithoutLockClash | apps/core-platform/backend/alembic/versions/20260922_0900_b1a2c3d4e5f6_core_master_data_brands_manufacturers.py:557 | Without the lock, two transactions whose moves each pass every check are committed as a cycle: a run that shows it |
| BrandTree.RenumberingCanCloseACycle | apps/core-platform/backend/alembic/versions/20260922_0900_b1a2c3d4e5f6_core_master_data_brands_manufacturers.py:585-589 | The guard does not watch ids: one UPDATE that renumbers three brands meets the keys and leaves a cycle |
| BrandTree.TableForestIff | apps/core-platform/backend/alembic/versions/20260922_0900_b1a2c3d4e5f6_core_master_data_brands_manufacturers.py:198-200 | A table that meets the foreign key, as a renumbered one does, is a forest if and only if no row still climbs after as many steps as there are rows |
| BrandTree.ParentsStayKeepsForest | apps/core-platform/backend/alembic/versions/20260922_0900_b1a2c3d4e5f6_core_master_data_brands_manufacturers.py:585-589 | Renumbering a forest leaves a forest if every row that others name as parent keeps its number |
| BrandSteps.ViewRow | apps/core-platform/backend/alembic/versions/20260922_0900_b1a2c3d4e5f6_core_master_data_brands_manufacturers.py:548-589 | A transaction sees its own writes and the committed rows it has not written |
| BrandSteps.InsertPossibleIff | apps/core-platform/backend/alembic/versions/20260922_0900_b1a2c3d4e5f6_core_master_data_brands_manufacturers.py:548-589 | One INSERT of any number of rows is possible exactly when each row is new and free, and each row with a parent has the lock, is not its own parent, agrees with the owner of a parent that is there already and finds its parent in its tenant and organization |
| BrandSteps.DeletePossibleIff | apps/core-platform/backend/alembic/versions/20260922_0900_b1a2c3d4e5f6_core_master_data_brands_manufacturers.py:198-200 | A brand can be deleted exactly when it is visible and free, has no visible child, and no other transaction has written a row that names it |
| BrandSteps.RowWritePossibleIff | apps/core-platform/backend/alembic/versions/20260922_0900_b1a2c3d4e5f6_core_master_data_brands_manufacturers.py:553-555 | Clearing a parent needs the row and nothing else |
| BrandSteps.RescopePossibleIff | apps/core-platform/backend/alembic/versions/20260922_0900_b1a2c3d4e5f6_core_master_data_brands_manufacturers.py:198-200 | Brands can change tenant or organization exactly as whole trees whose rows are free and named by no other transaction |
| BrandSteps.StatementWrites | apps/core-platform/backend/alembic/versions/20260922_0900_b1a2c3d4e5f6_core_master_data_brands_manufacturers.py:548-589 | What each statement writes, column by column, and that nothing else changes |
| Forest.RelinkAcyclicIff | apps/core-platform/backend/alembic/versions/20260922_0900_b1a2c3d4e5f6_core_master_data_brands_manufacturers.py:571-576 | In a forest, relinking a row closes a cycle exactly when the row is the new parent or one of its ancestors |
| Forest.SublinksAcyclic | apps/core-platform/backend/alembic/versions/20260922_0900_b1a2c3d4e5f6_core_master_data_brands_manufacturers.py:553-555 | Removing links cannot close a cycle, so clearing a parent needs neither lock nor walk |
| Forest.AcyclicByGroup | apps/core-platform/backend/alembic/versions/20260922_0900_b1a2c3d4e5f6_core_master_data_brands_manufacturers.py:198-200 | Links that stay inside a tenant are acyclic if and only if each tenant's are, so one lock per tenant is enough |
| Forest.AcyclicByParts | apps/core-platform/backend/alembic/versions/20260922_0900_b1a2c3d4e5f6_core_master_data_brands_manufacturers.py:571-576 | Links that never leave a set of rows from inside are acyclic if they are so inside and outside it |
| Forest.BatchAcyclicIff | apps/core-platform/backend/alembic/versions/20260922_0900_b1a2c3d4e5f6_core_master_data_brands_manufacturers.py:569-581 | A batch of new rows over a forest keeps it acyclic exactly when it is grounded |
| BrandGuard.AncestorWalk | apps/core-platform/backend/alembic/versions/20260922_0900_b1a2c3d4e5f6_core_master_data_brands_manufacturers.py:571-576 | The working-table loop with duplicate removal ends on every table, cyclic ones included, and finds exactly the row itself and its ancestors |
| BrandGuard.MoveOutcome | apps/core-platform/backend/alembic/versions/20260922_0900_b1a2c3d4e5f6_core_master_data_brands_manufacturers.py:548-589 | When a move is done, in columns: the locks are free, the parent is visible with the same owner type and owner id and in the same tenant and organization, nobody is taking it away, and no chain of parents above it holds the row; and which refusal each other case meets |
| BrandGuard.ClearingOutcome | apps/core-platform/backend/alembic/versions/20260922_0900_b1a2c3d4e5f6_core_master_data_brands_manufacturers.py:553-555 | Without a parent an update is done exactly when the row is free |
| BrandGuard.BrandRows.UpdateParent | apps/core-platform/backend/alembic/versions/20260922_0900_b1a2c3d4e5f6_core_master_data_brands_manufacturers.py:548-589 | The trigger as code: each outcome (lock wait, owner mismatch, cycle, foreign key, done) is the one the specification decides; a done update writes parent and owner and no other column, and takes the tenant's lock if there is a parent |
| BrandGuard.BrandRows.CommitTx | apps/core-platform/backend/alembic/versions/20260922_0900_b1a2c3d4e5f6_core_master_data_brands_manufacturers.py:548-589 | Commit publishes each row the transaction wrote or deleted, leaves every other row and releases its locks only |
| BrandGuard.RefusedForCycleIff | apps/core-platform/backend/alembic/versions/20260922_0900_b1a2c3d4e5f6_core_master_data_brands_manufacturers.py:570-581 | In every reachable state the guard refuses a move for a cycle if and only if the locks are free, the visible parent has the same owner type and id, and the move would close a cycle |
| Windows.OverlapsIffSharedDay | apps/core-platform/backend/alembic/versions/20260922_0900_b1a2c3d4e5f6_core_master_data_brands_manufacturers.py:610-611 | Two valid half-open windows with optional bounds overlap if and only if some day lies in both |
| Windows.NoClashIffOneLinkPerDay | apps/core-platform/backend/alembic/versions/20260922_0900_b1a2c3d4e5f6_core_master_data_brands_manufacturers.py:600-612 | No two links clash if and only if on every day each tenant, organization, brand, manufacturer and kind has at most one live link |
| Windows.NoClashImpliesUniqueCurrent | apps/core-platform/backend/alembic/versions/20260922_0900_b1a2c3d4e5f6_core_master_data_brands_manufacturers.py:339-343 | The index on open-ended links never rejects a table the overlap check accepts |
| WindowChecks.CommittedWindowsNeverOverlap | apps/core-platform/backend/alembic/versions/20260922_0900_b1a2c3d4e5f6_core_master_data_brands_manufacturers.py:593-626 | Under every interleaving no committed table holds two live links of one key whose windows share a day |
| WindowChecks.StepKeeps | apps/core-platform/backend/alembic/versions/20260922_0900_b1a2c3d4e5f6_core_master_data_brands_manufacturers.py:593-626 | Each statement keeps: every clash waits for a queued event that carries the row as it stands, every other written row was checked under a lock still held |
| WindowChecks.UnwatchedWriteChangesNothing | apps/core-platform/backend/alembic/versions/20260922_0900_b1a2c3d4e5f6_core_master_data_brands_manufacturers.py:308-310 | Tenant and organization are functions of the brand, so an UPDATE of unwatched columns leaves what the check reads |
| WindowChecks.ChecksSound | apps/core-platform/backend/alembic/versions/20260922_0900_b1a2c3d4e5f6_core_master_data_brands_manufacturers.py:600-616 | When no queued event raises, the transaction sees no clash |
| WindowChecks.ChecksDecideIff | apps/core-platform/backend/alembic/versions/20260922_0900_b1a2c3d4e5f6_core_master_data_brands_manufacturers.py:593-626 | The queued checks pass if and only if the view has no clash and no superseded version of a written row overlaps it; so they decide clashes exactly when a clash-free view is clear of the superseded versions |
| WindowChecks.CommitPassesIff | apps/core-platform/backend/alembic/versions/20260922_0900_b1a2c3d4e5f6_core_master_data_brands_manufacturers.py:620-626 | A commit whose locks are free passes under exactly that condition |
| WindowChecks.FirstDecides | apps/core-platform/backend/alembic/versions/20260922_0900_b1a2c3d4e5f6_core_master_data_brands_manufacturers.py:593-626 | In columns: a queue passes exactly when every event's row is deleted or its brand's lock is free and no other live link of the same tenant, organization, brand, manufacturer and kind overlaps it; the first event that does not pass decides |
| WindowChecks.ChecksMayOverReject | apps/core-platform/backend/alembic/versions/20260922_0900_b1a2c3d4e5f6_core_master_data_brands_manufacturers.py:620-626 | A transaction that corrected an overlapping row before commit is still refused: a run that shows it |
| WindowChecks.LinkRows.FireNext | apps/core-platform/backend/alembic/versions/20260922_0900_b1a2c3d4e5f6_core_master_data_brands_manufacturers.py:593-616 | The trigger as code: it waits exactly for a lock held by another transaction and raises exactly if a live link of the same tenant, organization, brand, manufacturer and kind starts before the row ends and ends after it starts; else the event is done and the lock taken |
| WindowChecks.LinkRows.CommitTx | apps/core-platform/backend/alembic/versions/20260922_0900_b1a2c3d4e5f6_core_master_data_brands_manufacturers.py:620-626 | Commit fires the queue oldest first and the first event that does not pass decides between waiting and rolling back; if all pass it publishes the view |
| WindowSteps.ViewRow | apps/core-platform/backend/alembic/versions/20260922_0900_b1a2c3d4e5f6_core_master_data_brands_manufacturers.py:593-626 | A transaction sees its own links and the committed ones it has not written |
| WindowSteps.WritePossibleIff | apps/core-platform/backend/alembic/versions/20260922_0900_b1a2c3d4e5f6_core_master_data_brands_manufacturers.py:620-626 | When a link can be written, in columns; only an update that leaves brand, manufacturer, kind, both dates and the deletion mark as they are escapes the check |
| WindowSteps.DeletePossibleIff | apps/core-platform/backend/alembic/versions/20260922_0900_b1a2c3d4e5f6_core_master_data_brands_manufacturers.py:308-310 | A link can be deleted if it is visible and free |
| WindowSteps.RescopePossibleIff | apps/core-platform/backend/alembic/versions/20260922_0900_b1a2c3d4e5f6_core_master_data_brands_manufacturers.py:308-310 | A brand can change tenant or organization exactly while no link names it |
| WindowSteps.FirePossibleIff | apps/core-platform/backend/alembic/versions/20260922_0900_b1a2c3d4e5f6_core_master_data_brands_manufacturers.py:593-616 | An event can be done exactly when it passes |
| WindowSteps.StepWrites | apps/core-platform/backend/alembic/versions/20260922_0900_b1a2c3d4e5f6_core_master_data_brands_manufacturers.py:593-626 | What each step leaves, field by field |
| Registry.AssertEntityExists | apps/core-platform/backend/alembic/versions/20260922_0900_b1a2c3d4e5f6_core_master_data_brands_manufacturers.py:475-504 | The four outcomes of the registry lookup, each with its exact condition on the registry row, its table and the owner row |
| Registry.FindOrphans | apps/core-platform/backend/alembic/versions/20260924_1000_cf0e1d2c3b4a_custom_fields_extfields_schema.py:314-333 | The registry loop reports id, type and owner id of each live reference of a live registered type whose owner row is missing, exactly once, and nothing else; it fails exactly when a live entry names an unknown table, and with that entry's code |
| Registry.DanglingOf | apps/core-platform/backend/alembic/versions/20260924_1000_cf0e1d2c3b4a_custom_fields_extfields_schema.py:324-330 | One dynamic query returns id, type and owner id of exactly the dangling references of its entry, each once |
| Registry.ReportedIffOrphan | apps/core-platform/backend/alembic/versions/20260924_1000_cf0e1d2c3b4a_custom_fields_extfields_schema.py:322-331 | What the loop reports is what the registry calls an orphan, whatever the order of its rows |
| Registry.FreshCodeFreshIds | apps/core-platform/backend/alembic/versions/20260924_1000_cf0e1d2c3b4a_custom_fields_extfields_schema.py:322-331 | Unique codes keep a reference from being reported twice |
| FieldValues.StorageAgreesIffWellStored | apps/core-platform/backend/alembic/versions/20260924_1000_cf0e1d2c3b4a_custom_fields_extfields_schema.py:228-230 | Comparing only the first filled column is enough, because the CHECK allows one |
| FieldValues.CheckFieldValue | apps/core-platform/backend/alembic/versions/20260924_1000_cf0e1d2c3b4a_custom_fields_extfields_schema.py:267-302 | The trigger passes a live value if and only if its owner exists and each filled column is the one its data type is stored in; otherwise it says which lookup failed, or which filled column is wrong and which is right |
| FieldValues.WellStoredIff | apps/core-platform/backend/alembic/versions/20260924_1000_cf0e1d2c3b4a_custom_fields_extfields_schema.py:228-230 | Nothing but the storage column is filled exactly when each of the five typed columns is empty or that column |
| FieldValueRuns.CommittedValuesWellStored | apps/core-platform/backend/alembic/versions/20260924_1000_cf0e1d2c3b4a_custom_fields_extfields_schema.py:267-310 | In every committed state of every run without retyping, each live value fills at most one column, the storage column of its data type |
| FieldValueRuns.OrphansAreExplained | apps/core-platform/backend/alembic/versions/20260924_1000_cf0e1d2c3b4a_custom_fields_extfields_schema.py:312-333 | A committed orphan's owner was hard-deleted, or its type's registry row changed, by a transaction that committed after the value's check |
| FieldValueRuns.LogIsHistory | apps/core-platform/backend/alembic/versions/20260924_1000_cf0e1d2c3b4a_custom_fields_extfields_schema.py:312-333 | The log that explains orphans: each commit appends exactly the rows its transaction deleted and the registry codes it changed, and no other step changes it |
| FieldValueRuns.CheckIsDated | apps/core-platform/backend/alembic/versions/20260924_1000_cf0e1d2c3b4a_custom_fields_extfields_schema.py:267-302 | A check of a value as it stands is dated by the number of commits before it, and no other check changes a date |
| FieldValueSteps.ViewRow | apps/core-platform/backend/alembic/versions/20260924_1000_cf0e1d2c3b4a_custom_fields_extfields_schema.py:267-310 | A transaction sees its own values, registry rows and owner rows, and the committed ones it has not changed |
| FieldValueSteps.WritePossibleIff | apps/core-platform/backend/alembic/versions/20260924_1000_cf0e1d2c3b4a_custom_fields_extfields_schema.py:228-230 | A value can be written exactly if it is free, at most one column is filled and its definition is for its type |
| FieldValueSteps.FirePossibleIff | apps/core-platform/backend/alembic/versions/20260924_1000_cf0e1d2c3b4a_custom_fields_extfields_schema.py:267-302 | The queued check passes exactly for a deleted value, or one whose owner is there and whose columns are right |
| FieldValueSteps.DeletePossibleIff | apps/core-platform/backend/alembic/versions/20260924_1000_cf0e1d2c3b4a_custom_fields_extfields_schema.py:312-333 | Values can be deleted while free, owner rows at any time |
| FieldValueSteps.CatalogPossibleIff | apps/core-platform/backend/alembic/versions/20260924_1000_cf0e1d2c3b4a_custom_fields_extfields_schema.py:312-333 | When definitions, data types and registry rows can be added or changed |
| FieldValueSteps.StatementWrites | apps/core-platform/backend/alembic/versions/20260924_1000_cf0e1d2c3b4a_custom_fields_extfields_schema.py:267-310 | What each statement leaves of its transaction, field by field |
| FieldValueRuns.StepKeeps | apps/core-platform/backend/alembic/versions/20260924_1000_cf0e1d2c3b4a_custom_fields_extfields_schema.py:267-310 | Each statement keeps: every value was checked as it stands or has an event queued that carries it so |
| FieldValueRuns.MergedSound | apps/core-platform/backend/alembic/versions/20260924_1000_cf0e1d2c3b4a_custom_fields_extfields_schema.py:267-310 | Another transaction's commit keeps that for what a transaction sees |
| SqlSplitter.SplitScript | apps/core-platform/backend/.catl_gen_p1.py:85-101 | The loop with its flag and buffer returns the statements of the functional splitter |
| SqlSplitter.SplitConserves | apps/core-platform/backend/.catl_gen_p2.py:95-111 | On every script: chunks and tail are the input lines in order, the flag is the parity of lines with an odd number of dollar quotes, each chunk ends at its first closing line outside a body |
| SqlSplitter.SplitUnique | apps/core-platform/backend/.catl_gen_p1.py:85-101 | That cut is the only one: chunks with these properties are what the splitter finds |
| SplitterProofs.SplitUndoesJoin | apps/core-platform/backend/.catl_gen_p1.py:85-101 | Splitting well-formed statements joined by semicolons gives them back, whatever semicolons their bodies hold |
| SplitterProofs.StatementsKeepContent | apps/core-platform/backend/.catl_gen_p2.py:95-111 | On every script the SQL lines of the result are those of the input in order; only comments, blank lines, surrounding white space and semicolons go |
| SplitterProofs.EmitContent | apps/core-platform/backend/.catl_gen_p1.py:93-97 | A statement holds all lines of its chunk in order, comments included; a chunk that is dropped holds no SQL |
| SplitterProofs.EmitTailContent | apps/core-platform/backend/.catl_gen_p1.py:98-100 | The statement after the last semicolon holds the SQL of its lines in order and no comment |
| SplitterValues.EmitMeans | apps/core-platform/backend/.catl_gen_p1.py:93-97 | A chunk contributes nothing exactly when all its lines are blank or comments, and else its text without the white space around it and the semicolons at its end |
| SplitterValues.TailMeans | apps/core-platform/backend/.catl_gen_p1.py:98-100 | The last lines contribute nothing exactly when all are blank or comments, and else the same of their lines that are no comments |
| SplitterValues.CommentAloneRemains | apps/core-platform/backend/.catl_gen_p1.py:95-97 | A comment before a line with only a semicolon is kept as a statement |
| SplitterValues.IsCommentIff | apps/core-platform/backend/.catl_gen_p1.py:95 | A comment is a line that starts with two dashes after white space |
| SplitterValues.EndsStatementIff | apps/core-platform/backend/.catl_gen_p1.py:92 | A line ends a statement when a semicolon is its last character but white space |
| SplitterValues.CountByOccurrence | apps/core-platform/backend/.catl_gen_p1.py:90 | Dollar quotes are counted from the left without overlap |
| SplitterValues.OpenIffOdd | apps/core-platform/backend/.catl_gen_p1.py:90-91 | A body is open exactly after an odd number of dollar quotes |
| SplitterValues.LinesByBreak | apps/core-platform/backend/.catl_gen_p1.py:88 | Lines end at each break character, a carriage return taking a line feed with it |
| SplitterValues.CodePoints | apps/core-platform/backend/.catl_gen_p1.py:88-95 | The code points lines end at and white space consists of |
| SplitterValues.BodyIsWellFormed | apps/core-platform/backend/.catl_gen_p1.py:88-92 | A statement with a semicolon at the end of a line of its body is among those recovered |
| OwnerNames.CamelUndoesSnakeIff | apps/core-platform/backend/alembic/versions/20260920_1600_509eb251e3b3_document_module.py:425-466 | A class name comes back from its link name if and only if it is in CamelCase with no two capitals in a row |
| OwnerNames.SnakeUndoesCamelIff | apps/core-platform/backend/alembic/versions/20260920_1600_509eb251e3b3_document_module.py:425-466 | A link name comes back from its class name if and only if each underscore stands between the end of a hump and a lower-case letter |
| OwnerNames.CamelCaseGivesSnakeCase | apps/core-platform/backend/alembic/versions/20260920_1600_509eb251e3b3_document_module.py:425-466 | CamelCase names get link names that are stable from then on |
| OwnerNames.LinkNameRestoredIff | apps/core-platform/backend/alembic/versions/20260920_1600_509eb251e3b3_document_module.py:243-467 | Through the fifty characters of a link's column, too, a class name comes back if and only if it is in CamelCase |
| OwnerNames.LinkNameKeptIff | apps/core-platform/backend/alembic/versions/20260920_1600_509eb251e3b3_document_module.py:243-467 | A stored link name is the same after down and up if and only if it is in snake_case |
| OwnerNames.AcronymIsLost | apps/core-platform/backend/alembic/versions/20260920_1600_509eb251e3b3_document_module.py:425-466 | GPSDevice is not restored |
| OwnerNames.SnakeByParts | apps/core-platform/backend/alembic/versions/20260920_1600_509eb251e3b3_document_module.py:425 | The link name of any class name: each character in lower case, an underscore between neighbours exactly where a small letter or digit meets a capital |
| OwnerNames.CamelByParts | apps/core-platform/backend/alembic/versions/20260920_1600_509eb251e3b3_document_module.py:466 | The class name of any link name: each word capitalised, underscores and spaces gone, other characters kept |
| Decimals.NumericFitsBigint | apps/core-platform/backend/alembic/versions/20260920_1600_509eb251e3b3_document_module.py:409 | One to eighteen digits fit 64 bits: the cast cannot overflow |
| Decimals.TextOfNumberIff | apps/core-platform/backend/alembic/versions/20260920_1600_509eb251e3b3_document_module.py:465 | An id cast to a number and back is the same text if and only if it has no leading zero |
| Decimals.NumericRoundTrip | apps/core-platform/backend/alembic/versions/20260920_1600_509eb251e3b3_document_module.py:426-465 | The text of a cast id is numeric again and casts to the same number |
| Decimals.SameNumberIff | apps/core-platform/backend/alembic/versions/20260920_1600_509eb251e3b3_document_module.py:409 | Two texts of digits are cast to the same number if and only if they agree, leading zeros aside |
| Json.StripIff | apps/core-platform/backend/alembic/versions/20260920_1600_509eb251e3b3_document_module.py:374-379 | Stripping nulls leaves none at any depth, and changes a value exactly when an object in it had a null member |
| Json.StripMembers | apps/core-platform/backend/alembic/versions/20260920_1600_509eb251e3b3_document_module.py:374-379 | What stripping leaves of any value: the members that are not null and all elements, stripped, or the value itself |
| Json.TextOfMember | apps/core-platform/backend/alembic/versions/20260920_1600_509eb251e3b3_document_module.py:374-379 | A member as text: nothing for a missing or null one, a string as it is, anything else as printed |
| DocumentRows.NormalFormIff | apps/core-platform/backend/alembic/versions/20260920_1600_509eb251e3b3_document_module.py:345-499 | Migrating a restored row gives the same document (metadata aside), and the same file and link exactly for the rows named: no results of JSON nulls only, a linked owner in snake_case or none that appears |
| DocumentRows.CamelCaseOwnersNormalise | apps/core-platform/backend/alembic/versions/20260920_1600_509eb251e3b3_document_module.py:425-466 | Every row with a linked owner class in CamelCase is such a row |
| DocumentNormalForm.TablesNormalFormIff | apps/core-platform/backend/alembic/versions/20260920_1600_509eb251e3b3_document_module.py:345-499 | Up, down and up again leaves the tables of the first way up, generated ids and metadata aside, exactly when every legacy row is such a row |
| DocumentLosses.RoundTripIff | apps/core-platform/backend/alembic/versions/20260920_1600_509eb251e3b3_document_module.py:345-499 | Up and down give a legacy row back in every column exactly when it meets a condition on its columns |
| DocumentLosses.IdentifiedIff | apps/core-platform/backend/alembic/versions/20260920_1600_509eb251e3b3_document_module.py:345-436 | The way up makes the same document, file and link of two legacy rows exactly when their columns agree as named: statuses of one class, hashes equal but for case or both none, uploaders the same number or both none, progress words of one meaning, one path or one key, and so on |
| DocumentLosses.HomelessSameIff | apps/core-platform/backend/alembic/versions/20260920_1600_509eb251e3b3_document_module.py:373-380 | Two rows keep the same object exactly when their columns without a new home agree, JSON nulls aside |
| DocumentLosses.UnknownIsDropped | apps/core-platform/backend/alembic/versions/20260920_1600_509eb251e3b3_document_module.py:396-409 | An unknown processing status, a hash that is not hexadecimal and an uploader that is not a number leave no trace in any row |
| DocumentLosses.BlockedStatusIsDropped | apps/core-platform/backend/alembic/versions/20260920_1600_509eb251e3b3_document_module.py:354-356 | Nor does the status of a blocked row |
| DocumentLosses.ShadowedKeyIsDropped | apps/core-platform/backend/alembic/versions/20260920_1600_509eb251e3b3_document_module.py:397-398 | Nor does an object key behind a local path |
| DocumentLosses.UnknownsLeaveNoTrace | apps/core-platform/backend/alembic/versions/20260920_1600_509eb251e3b3_document_module.py:396-409 | Two different concrete rows that become the same new rows |
| DocumentLosses.ShadowedKeyLeavesNoTrace | apps/core-platform/backend/alembic/versions/20260920_1600_509eb251e3b3_document_module.py:397-398 | The same for a concrete local file |
| DocumentLosses.ProcessingStatusRestoredIff | apps/core-platform/backend/alembic/versions/20260920_1600_509eb251e3b3_document_module.py:401-474 | The processing status comes back exactly when it is one of the four new ones |
| DocumentLosses.MetadataRestoredIff | apps/core-platform/backend/alembic/versions/20260920_1600_509eb251e3b3_document_module.py:397-482 | The raw metadata comes back as a whole exactly when it holds nothing but a local path and the hints of a link |
| DocumentRows.ExtensionFound | apps/core-platform/backend/alembic/versions/20260920_1600_509eb251e3b3_document_module.py:468 | The restored file type is what follows the last dot of the file name, in lower case, or bin |
| DocumentLosses.FileTypeRecomputed | apps/core-platform/backend/alembic/versions/20260920_1600_509eb251e3b3_document_module.py:468-512 | The legacy file type leaves no trace and is read off the file name, spaces beyond fifty characters cut off |
| DocumentLosses.ConstantsRestored | apps/core-platform/backend/alembic/versions/20260920_1600_509eb251e3b3_document_module.py:464-487 | Nine columns without a new home come back as constants |
| DocumentLosses.SampleComesBack | apps/core-platform/backend/alembic/versions/20260920_1600_509eb251e3b3_document_module.py:345-499 | A concrete row that comes back in every column |
| DocumentLosses.LeadingZerosAreLost | apps/core-platform/backend/alembic/versions/20260920_1600_509eb251e3b3_document_module.py:465 | The linked owner id 007 does not come back |
| DocumentLosses.LegacyKeyIsLost | apps/core-platform/backend/alembic/versions/20260920_1600_509eb251e3b3_document_module.py:484 | Metadata that used the key does not come back |
| DocumentLosses.NegativeSizeIsRefused | apps/core-platform/backend/alembic/versions/20260920_1600_509eb251e3b3_document_module.py:224 | A file of size -1 breaks a CHECK |
| DocumentLosses.LongOwnerIsRefused | apps/core-platform/backend/alembic/versions/20260920_1600_509eb251e3b3_document_module.py:243 | A linked owner class of fifty-one letters does not fit its column |
| DocumentLosses.LongExtensionIsRefused | apps/core-platform/backend/alembic/versions/20260920_1600_509eb251e3b3_document_module.py:468-512 | A row whose file name has an extension of fifty-one letters goes up and cannot come down |
| DocumentLosses.RestoredRowFitsIff | apps/core-platform/backend/alembic/versions/20260920_1600_509eb251e3b3_document_module.py:507-548 | What the way down writes for a migrated row fits the legacy columns exactly when its file type fits and an owner left in its own metadata is not too long |
| DocumentLosses.MigratableAgainIff | apps/core-platform/backend/alembic/versions/20260920_1600_509eb251e3b3_document_module.py:383-436 | A row that went up and down can go up again unless an owner found in its own metadata has a name too long for a link |
| DocumentRows.DocumentNormal | apps/core-platform/backend/alembic/versions/20260920_1600_509eb251e3b3_document_module.py:345-381 | For every row, document status, verification, deactivation, OCR data and times are the same after up, down, up |
| DocumentRows.FileNormal | apps/core-platform/backend/alembic/versions/20260920_1600_509eb251e3b3_document_module.py:383-414 | For every row, the file is the same in every column but its processing results |
| DocumentRows.ResultsNormalIff | apps/core-platform/backend/alembic/versions/20260920_1600_509eb251e3b3_document_module.py:406-408 | Processing results are the same if and only if they were not JSON nulls only |
| DocumentRows.NullResultsAreNotNormal | apps/core-platform/backend/alembic/versions/20260920_1600_509eb251e3b3_document_module.py:406-408 | JSON-null results give an empty object after the first way up and NULL after the second |
| DocumentRows.LinkNormalIff | apps/core-platform/backend/alembic/versions/20260920_1600_509eb251e3b3_document_module.py:417-436 | The link is the same exactly when its stored owner name is in snake_case; without one none appears, one family of rows excepted |
| DocumentRows.RestoredExactly | apps/core-platform/backend/alembic/versions/20260920_1600_509eb251e3b3_document_module.py:464-487 | Id, file name, size, MIME type, Zoho and folder ids, S3 columns, times and version come back for every row |
| DocumentRows.MigratedRowsMeetChecksIff | apps/core-platform/backend/alembic/versions/20260920_1600_509eb251e3b3_document_module.py:145-271 | A legacy row can be stored in the new tables exactly when its file size is not negative and the name of a linked owner fits its column; every other CHECK and width on the filled columns holds by construction |
| DocumentRows.FlagsRestoredIff | apps/core-platform/backend/alembic/versions/20260920_1600_509eb251e3b3_document_module.py:355-469 | Activity, verification and scan flags and the display order come back exactly when they were set, or zero without a link |
| DocumentRows.ResultsRestoredIff | apps/core-platform/backend/alembic/versions/20260920_1600_509eb251e3b3_document_module.py:474-478 | Processing results and extracted text come back if and only if they hold no null |
| DocumentRows.ReceiptRestored | apps/core-platform/backend/alembic/versions/20260920_1600_509eb251e3b3_document_module.py:363-476 | Vendor, amount and receipt date come back, a missing amount as zero |
| DocumentRows.StatusRestoredIff | apps/core-platform/backend/alembic/versions/20260920_1600_509eb251e3b3_document_module.py:354-486 | Status and blocked flag come back exactly when the status is known and blocked says suspended |
| DocumentRows.AppMetadataRestoredIff | apps/core-platform/backend/alembic/versions/20260920_1600_509eb251e3b3_document_module.py:368-484 | Metadata comes back exactly when it had no key of the name the migration uses |
| DocumentRows.OwnerTypeRestoredIff | apps/core-platform/backend/alembic/versions/20260920_1600_509eb251e3b3_document_module.py:417-467 | The owner class comes back exactly when it is in CamelCase, or, without a link, through the kept metadata |
| DocumentRows.OwnerIdRestoredIff | apps/core-platform/backend/alembic/versions/20260920_1600_509eb251e3b3_document_module.py:417-465 | The owner id comes back exactly when a linked one has no leading zero, and without a link through the kept metadata |
| DocumentRows.UploaderRestoredIff | apps/core-platform/backend/alembic/versions/20260920_1600_509eb251e3b3_document_module.py:409-479 | The uploader comes back exactly when it was a canonical number |
| DocumentRows.HashRestoredIff | apps/core-platform/backend/alembic/versions/20260920_1600_509eb251e3b3_document_module.py:396-479 | The hash comes back exactly when it was 64 lower-case hexadecimal digits |
| DocumentRows.S3KeyRestoredIff | apps/core-platform/backend/alembic/versions/20260920_1600_509eb251e3b3_document_module.py:397-471 | The object key comes back exactly when it was the file's only key |
| DocumentRows.MetadataRestored | apps/core-platform/backend/alembic/versions/20260920_1600_509eb251e3b3_document_module.py:397-482 | The local path comes back, and the mail hints when a link carried them |
| DocumentRows.HomelessKept | apps/core-platform/backend/alembic/versions/20260920_1600_509eb251e3b3_document_module.py:373-379 | Every column without a new home, owner included, is in the stored metadata, JSON nulls aside, unless none was set |
| DocumentValues.DocumentColumns | apps/core-platform/backend/alembic/versions/20260920_1600_509eb251e3b3_document_module.py:345-381 | Every column of a migrated document, from the legacy row's columns: status, verification with its time, deactivation with its time and reason, receipt, kept columns, times and version |
| DocumentValues.FileColumns | apps/core-platform/backend/alembic/versions/20260920_1600_509eb251e3b3_document_module.py:383-414 | Every column of a migrated file: hash, provider and key, flags, progress, results, uploader, times and the columns copied |
| DocumentValues.LinkColumns | apps/core-platform/backend/alembic/versions/20260920_1600_509eb251e3b3_document_module.py:417-436 | When there is a link, and its owner, number, order and mail hints |
| DocumentValues.CopiedRows | apps/core-platform/backend/alembic/versions/20260920_1600_509eb251e3b3_document_module.py:345-436 | The tables after the copies: one such document and one primary file of page zero for each legacy row, and one attachment for each with an owner to link |
| DocumentValues.RowColumns | apps/core-platform/backend/alembic/versions/20260920_1600_509eb251e3b3_document_module.py:453-499 | Every column of a restored row, from the document's, the file's and the link's: deleted with the file or else with the document, the owner from the link or else from the metadata |
| DocumentValues.FirstFileKeepsUuid | apps/core-platform/backend/alembic/versions/20260920_1600_509eb251e3b3_document_module.py:490 | A document's uuid goes to the file that is primary, or of the lowest page, or the oldest, in this order |
| DocumentValues.ChosenLinkIsFirst | apps/core-platform/backend/alembic/versions/20260920_1600_509eb251e3b3_document_module.py:494-497 | A document is restored with its first attachment, or else its first owner link, or else its first link |
| DocumentValues.RestoredRowsMean | apps/core-platform/backend/alembic/versions/20260920_1600_509eb251e3b3_document_module.py:453-499 | The legacy table holds one such row for each file, under the uuid for the first file of a document and a new id for the others, and no other row |
| DocumentValues.TakenIff | apps/core-platform/backend/alembic/versions/20260920_1600_509eb251e3b3_document_module.py:507-567 | The legacy table takes the restored rows exactly if no size, extension, key, vendor or owner is too wide and no two live files share a Zoho id |
| DocumentRows.NoExtension | apps/core-platform/backend/alembic/versions/20260920_1600_509eb251e3b3_document_module.py:468 | A file name without a dot is of type bin |
| DocumentTables.CountsAgree | apps/core-platform/backend/alembic/versions/20260920_1600_509eb251e3b3_document_module.py:332-340 | Legacy rows, documents and files are equally many: the row-count check never fires |
| DocumentTables.OneFileKeepsUuid | apps/core-platform/backend/alembic/versions/20260920_1600_509eb251e3b3_document_module.py:463-492 | A document with files hands its uuid to exactly one of them |
| DocumentTables.OneRowPerFile | apps/core-platform/backend/alembic/versions/20260920_1600_509eb251e3b3_document_module.py:463-498 | Down makes one row per file; a document's uuid is kept exactly when it has a file |
| DocumentTables.TablesRoundTrip | apps/core-platform/backend/alembic/versions/20260920_1600_509eb251e3b3_document_module.py:345-499 | Down right after up restores the same ids, each row as its one-row round trip |
| Statements.InsertSelected | apps/core-platform/backend/alembic/versions/20260920_1600_509eb251e3b3_document_module.py:345-381 | An insert into a new table stores each selected row once, under the ids from one to the number of rows |
| Statements.InsertKeyed | apps/core-platform/backend/alembic/versions/20260920_1600_509eb251e3b3_document_module.py:453-499 | An insert under chosen distinct ids stores each row under its id and nothing else |
| DocumentMigration.SelectedMeetChecksIff | apps/core-platform/backend/alembic/versions/20260920_1600_509eb251e3b3_document_module.py:145-271 | Of the rows the copies select, documents always meet the CHECKs; files and links do, widths included, exactly when every legacy row can be migrated |
| DocumentMigration.Tables.Upgrade | apps/core-platform/backend/alembic/versions/20260920_1600_509eb251e3b3_document_module.py:324-342 | The three copies, the tag remap and the count check in sequence: it stops exactly for a row that cannot be migrated, or for a tag set on a document both by uuid and by the number it gets, and then nothing changes; otherwise the new tables hold the rows `DocumentValues` gives column by column and the legacy table is gone |
| DocumentMigration.Tables.RestoreLegacy | apps/core-platform/backend/alembic/versions/20260920_1600_509eb251e3b3_document_module.py:453-499 | Every file's row is inserted under its own id, never meeting the primary key, exactly when the legacy columns and the unique index on live Zoho ids take every row |
| DocumentMigration.Tables.Downgrade | apps/core-platform/backend/alembic/versions/20260920_1600_509eb251e3b3_document_module.py:581-588 | Restore, tag remap and drops in sequence, from any document tables: it stops exactly for a file that does not fit, a Zoho id shared by two live files, or a tag set on a document both by uuid and by number, and then nothing changes; otherwise the legacy table holds the rows `DocumentValues` gives |
| DocumentReturn.StraightDownTakenIff | apps/core-platform/backend/alembic/versions/20260920_1600_509eb251e3b3_document_module.py:453-567 | After the way up, the legacy table takes every restored row exactly when each legacy row was returnable: no two of them share a live Zoho id |
| DocumentMigration.Tables.UpThenDown | apps/core-platform/backend/alembic/versions/20260920_1600_509eb251e3b3_document_module.py:324-588 | Up and straight down: which of the two stops is decided exactly, the tags never stop the second, and the legacy rows return as their round trips |
| DocumentMigration.Tables.UpDownUp | apps/core-platform/backend/alembic/versions/20260920_1600_509eb251e3b3_document_module.py:324-588 | Up, down and up again: it goes through exactly under the stated conditions, and then leaves the tables of the first way up, ids and metadata aside, exactly when every row normalises |
| DocumentTags.TagsRoundTripIff | apps/core-platform/backend/alembic/versions/20260920_1600_509eb251e3b3_document_module.py:439-449 | Tags come back exactly when none was a dangling number equal to a document's new id |
| DocumentTags.TagRoundTripIff | apps/core-platform/backend/alembic/versions/20260920_1600_509eb251e3b3_document_module.py:439-449 | The same for one tag |
| DocumentTags.TagUpMeans | apps/core-platform/backend/alembic/versions/20260920_1600_509eb251e3b3_document_module.py:439-443 | A tag on a document moves from its uuid to its number, every other tag stays |
| DocumentTags.TagDownMeans | apps/core-platform/backend/alembic/versions/20260920_1600_509eb251e3b3_document_module.py:445-449 | And from its number back to its uuid |
| DocumentTags.RemapKeepsKeyIff | apps/core-platform/backend/alembic/versions/20260705_1825_408b15338657_zoho_sync_engine_organizations_tags_.py:335-343 | Either remap meets the primary key of the taggings exactly when no tag is set on a document both by uuid and by number |
| DocumentTags.NeverClashIff | apps/core-platform/backend/alembic/versions/20260920_1600_509eb251e3b3_document_module.py:439-443 | No numbering of the documents breaks that key exactly when no tag is set both on a legacy row and on a number from one to the number of rows |
| DocumentTags.RemappedTagsDoNotClash | apps/core-platform/backend/alembic/versions/20260920_1600_509eb251e3b3_document_module.py:439-449 | After the way up the remap down always meets the key |
| DocumentTags.ReturnedTagsDoNotClash | apps/core-platform/backend/alembic/versions/20260920_1600_509eb251e3b3_document_module.py:439-449 | After up and down the next remap up always meets the key |
| DocumentTags.TagSetTwiceIsRefused | apps/core-platform/backend/alembic/versions/20260705_1825_408b15338657_zoho_sync_engine_organizations_tags_.py:335-343 | A single legacy row with a tag set on its uuid and on the number 1: every way up fails |
| Taxes.CarriedRowsMeetChecks | apps/core-platform/backend/alembic/versions/20260921_2300_62303d9097fe_tax_schema.py:44-48 | Every row the filter lets through meets the new types and CHECKs, its rate fitting NUMERIC(7,4) as it is |
| Taxes.SpecificTypeNormal | apps/core-platform/backend/alembic/versions/20260921_2300_62303d9097fe_tax_schema.py:309 | The kind is stored in a normal form, the same again exactly if it was in that form |
| Taxes.SpecificTypeOf | apps/core-platform/backend/alembic/versions/20260921_2300_62303d9097fe_tax_schema.py:309 | The kind stored for any text: what is left without the blanks around it, in lower case; none if that is empty or `tax` in any case |
| Taxes.ComponentValues | apps/core-platform/backend/alembic/versions/20260921_2300_62303d9097fe_tax_schema.py:293-322 | Every column of a carried row, notes in the metadata |
| Taxes.TaxValues | apps/core-platform/backend/alembic/versions/20260921_2300_62303d9097fe_tax_schema.py:424-454 | Every column of a row carried back, notes from the metadata |
| Taxes.RowRoundTripIff | apps/core-platform/backend/alembic/versions/20260921_2300_62303d9097fe_tax_schema.py:292-453 | A valid row comes back, Zoho echo aside, exactly when its specific type is normal and its metadata did not use the notes key |
| Taxes.NotesRoundTripIff | apps/core-platform/backend/alembic/versions/20260921_2300_62303d9097fe_tax_schema.py:316-454 | Notes come back unless a row without notes had some under the key |
| Taxes.TakenKeyBecomesNotes | apps/core-platform/backend/alembic/versions/20260921_2300_62303d9097fe_tax_schema.py:316-454 | A concrete tax without notes whose metadata text turns up as notes |
| Taxes.CarriedIsNormal | apps/core-platform/backend/alembic/versions/20260921_2300_62303d9097fe_tax_schema.py:292-453 | A carried row is the same after down and up, its metadata exactly when the notes key held text |
| TaxTables.TaxesRoundTrip | apps/core-platform/backend/alembic/versions/20260921_2300_62303d9097fe_tax_schema.py:292-450 | Up and down leave exactly the valid rows, each unchanged under the row condition |
| TaxTables.TaxRoundTripIff | apps/core-platform/backend/alembic/versions/20260921_2300_62303d9097fe_tax_schema.py:290-473 | Up and down surely give a valid tax back in every column, Zoho id included, exactly when its specific type is normal, its metadata did not use the notes key and its crosswalk rows agree on the id |
| TaxTables.TaxTables.UpThenDown | apps/core-platform/backend/alembic/versions/20260921_2300_62303d9097fe_tax_schema.py:290-473 | Both directions over all tables: the valid rows are there, those that meet that condition unchanged |
| TaxTables.FollowResolvesIff | apps/core-platform/backend/alembic/versions/20260921_2300_62303d9097fe_tax_schema.py:331-337 | Every crosswalk row naming the new table has its target, exactly when those that named it before had |
| TaxTables.NoneNamesDropped | apps/core-platform/backend/alembic/versions/20260921_2300_62303d9097fe_tax_schema.py:331-337 | No crosswalk row names the dropped table |
| TaxTables.FollowKeeps | apps/core-platform/backend/alembic/versions/20260921_2300_62303d9097fe_tax_schema.py:331-337 | A crosswalk row stays exactly when its entity was carried, and only its table name changes |
| TaxTables.FollowMeans | apps/core-platform/backend/alembic/versions/20260921_2300_62303d9097fe_tax_schema.py:331-337 | In columns: a crosswalk row of the old table goes if it names no carried row and else names the new table; every other row stays |
| TaxTables.CopiedUpMeans | apps/core-platform/backend/alembic/versions/20260921_2300_62303d9097fe_tax_schema.py:293-322 | The components are those of the taxes with a name, a rate from zero to below a thousand percent and a leaf type |
| TaxTables.EchoedOutcomes | apps/core-platform/backend/alembic/versions/20260921_2300_62303d9097fe_tax_schema.py:424-466 | The taxes are those of the components that are no groups, each with the Zoho id of one of its crosswalk rows if there is any |
| TaxTables.CrosswalkRoundTrip | apps/core-platform/backend/alembic/versions/20260921_2300_62303d9097fe_tax_schema.py:331-473 | Up and down return the crosswalk, less the rows of taxes not carried |
| TaxTables.ResetSequence | apps/core-platform/backend/alembic/versions/20260921_2300_62303d9097fe_tax_schema.py:324-328 | The sequence is set to the largest stored id, at least 1, and marked used exactly when there are rows |
| TaxTables.NextIdIsFree | apps/core-platform/backend/alembic/versions/20260921_2300_62303d9097fe_tax_schema.py:324-328 | The next generated id is larger than every stored one |
| TaxTables.EchoZohoIds | apps/core-platform/backend/alembic/versions/20260921_2300_62303d9097fe_tax_schema.py:461-465 | Each tax gets the external id of one of its crosswalk rows, or keeps its own without any |
| TaxTables.EchoRestoresIff | apps/core-platform/backend/alembic/versions/20260921_2300_62303d9097fe_tax_schema.py:461-465 | The Zoho id surely comes back exactly when every crosswalk row of the tax carries it |
| TaxTables.TaxTables.Upgrade | apps/core-platform/backend/alembic/versions/20260921_2300_62303d9097fe_tax_schema.py:290-339 | Copy, sequence reset and crosswalk changes over all tables, in columns: which taxes are carried and with which values, which crosswalk rows go and where the others point, and the sequence at the largest id |
| TaxTables.TaxTables.Downgrade | apps/core-platform/backend/alembic/versions/20260921_2300_62303d9097fe_tax_schema.py:422-473 | Copy back, sequence reset, echo and crosswalk changes over all tables, in columns: exactly the components of type tax or compound_tax become taxes |
| CurrencyLinks.FaithfulIff | apps/core-platform/backend/alembic/versions/20260921_2000_e73c4a1d9f25_organizations_currency_fk_to_canonical.py:44-65 | A link ends at the live currency of its tenant and code, or cleared, exactly when it is not an untranslatable id that also occurs in the new table |
| CurrencyLinks.ForeignKeyHolds | apps/core-platform/backend/alembic/versions/20260921_2000_e73c4a1d9f25_organizations_currency_fk_to_canonical.py:58-71 | Whatever the tables hold, every link left names a row of the new table |
| CurrencyLinks.CollisionIsBelieved | apps/core-platform/backend/alembic/versions/20260921_2000_e73c4a1d9f25_organizations_currency_fk_to_canonical.py:56-65 | A colliding link is kept and names another currency |
| CurrencyLinks.WrongCurrency | apps/core-platform/backend/alembic/versions/20260921_2000_e73c4a1d9f25_organizations_currency_fk_to_canonical.py:56-65 | A euro link that ends at another tenant's yen |
| CurrencyLinks.OneOutcome | apps/core-platform/backend/alembic/versions/20260921_2000_e73c4a1d9f25_organizations_currency_fk_to_canonical.py:44-56 | With one live currency per tenant and code the outcome of the way up is determined |
| CurrencyLinks.OutcomeMeans | apps/core-platform/backend/alembic/versions/20260921_2000_e73c4a1d9f25_organizations_currency_fk_to_canonical.py:44-65 | In columns: a link goes to a live row with the same tenant and code if there is one, else stays if the new table has its id, and is cleared otherwise |
| CurrencyLinks.LinkRoundTripIff | apps/core-platform/backend/alembic/versions/20260921_2000_e73c4a1d9f25_organizations_currency_fk_to_canonical.py:44-95 | A translated link surely comes back exactly when its mirror row is the only live one of its currency, or none is and both rows share an id |
| CurrencyLinks.Organizations.Translate | apps/core-platform/backend/alembic/versions/20260921_2000_e73c4a1d9f25_organizations_currency_fk_to_canonical.py:44-56 | The first UPDATE in place, any match when there are several |
| CurrencyLinks.Organizations.Clear | apps/core-platform/backend/alembic/versions/20260921_2000_e73c4a1d9f25_organizations_currency_fk_to_canonical.py:58-65 | The second UPDATE in place: links to rows of the new table stay, every other link becomes NULL |
| CurrencyLinks.Organizations.Repoint | apps/core-platform/backend/alembic/versions/20260921_2000_e73c4a1d9f25_organizations_currency_fk_to_canonical.py:44-65 | Both statements: the foreign key holds, and all links are faithful exactly when none collides |
| ExchangeRates.BackfillMeetsNewKey | apps/core-platform/backend/alembic/versions/20260921_1700_d52a6f0bc318_exchange_rate_source_identity.py:50-58 | Uniqueness per day implies the wider key once sources are filled in |
| ExchangeRates.MissingSourcesDefeatTheKey | apps/core-platform/backend/alembic/versions/20260921_1700_d52a6f0bc318_exchange_rate_source_identity.py:50 | Without the backfill the wider index would admit two rates of one day |
| ExchangeRates.NarrowKeepsNewest | apps/core-platform/backend/alembic/versions/20260921_1700_d52a6f0bc318_exchange_rate_source_identity.py:66-78 | Narrowing keeps exactly the live row with the greatest id of each day, every deleted row, and loses no day |
| ExchangeRates.KeptIff | apps/core-platform/backend/alembic/versions/20260921_1700_d52a6f0bc318_exchange_rate_source_identity.py:66-84 | A rate stays exactly if it is deleted or no live one of its tenant, currency and date has a greater id |
| ExchangeRates.NarrowDeletesNothingIff | apps/core-platform/backend/alembic/versions/20260921_1700_d52a6f0bc318_exchange_rate_source_identity.py:66-78 | It deletes nothing exactly when the old key already held |
| ExchangeRates.UpDownIff | apps/core-platform/backend/alembic/versions/20260921_1700_d52a6f0bc318_exchange_rate_source_identity.py:50-84 | Up and down delete no row, and change none exactly when every rate had a source |
| ExchangeRates.MissingSourceComesBackManual | apps/core-platform/backend/alembic/versions/20260921_1700_d52a6f0bc318_exchange_rate_source_identity.py:51 | A concrete rate without a source comes back as a manual one |
| ExchangeRates.RateTable.Upgrade | apps/core-platform/backend/alembic/versions/20260921_1700_d52a6f0bc318_exchange_rate_source_identity.py:50-58 | The backfill in place, the new key established |
| ExchangeRates.RateTable.Downgrade | apps/core-platform/backend/alembic/versions/20260921_1700_d52a6f0bc318_exchange_rate_source_identity.py:66-84 | The delete in place: the old index can be built, whatever was inserted meanwhile |
| ScopeBackfill.UsersScoped | apps/core-platform/backend/alembic/versions/20260921_1241_fdbf62102e86_users_org_scope_location_decomposition_.py:1225-1260 | Every user ends in an organization of its own tenant |
| ScopeBackfill.RolesScoped | apps/core-platform/backend/alembic/versions/20260921_1241_fdbf62102e86_users_org_scope_location_decomposition_.py:1225-1247 | Every role ends in an organization of its own tenant |
| ScopeBackfill.FirstOrg | apps/core-platform/backend/alembic/versions/20260921_1241_fdbf62102e86_users_org_scope_location_decomposition_.py:1243-1258 | The organization given to a row without one: the live one of its tenant with the smallest depth, then the smallest id |
| ScopeBackfill.AssignedMeans | apps/core-platform/backend/alembic/versions/20260921_1241_fdbf62102e86_users_org_scope_location_decomposition_.py:1240-1260 | In columns: roles keep their organization or get that one; users take their role's, keep theirs or get that one; no other column changes |
| ScopeBackfill.RoleKeyIff | apps/core-platform/backend/alembic/versions/20260921_1241_fdbf62102e86_users_org_scope_location_decomposition_.py:1331 | The key on tenant, organization and role holds afterwards exactly when the older role key held before |
| ScopeBackfill.ScopedRoleCodes | apps/core-platform/backend/alembic/versions/20260921_1241_fdbf62102e86_users_org_scope_location_decomposition_.py:1266-1269 | The wider unique index on role codes can be built |
| ScopeBackfill.DefaultsKeepOrgCodes | apps/core-platform/backend/alembic/versions/20260921_1241_fdbf62102e86_users_org_scope_location_decomposition_.py:1225-1240 | The default organizations break no unique organization code |
| ScopeBackfill.OnlyMissingOrMisplacedMove | apps/core-platform/backend/alembic/versions/20260921_1241_fdbf62102e86_users_org_scope_location_decomposition_.py:1241-1260 | Roles keep the organization they had; users keep theirs unless their role sits elsewhere |
| ScopeBackfill.ScopeTables.AddDefaultOrganizations | apps/core-platform/backend/alembic/versions/20260921_1241_fdbf62102e86_users_org_scope_location_decomposition_.py:1225-1240 | Each tenant without a live organization gets exactly one, and nothing else changes |
| ScopeBackfill.ScopeTables.Backfill | apps/core-platform/backend/alembic/versions/20260921_1241_fdbf62102e86_users_org_scope_location_decomposition_.py:1225-1265 | The four statements in sequence: NOT NULL and the new keys hold |

## Left out

- Table creation, column comments and index renames, apart from the CHECKs, keys and unique indexes a property rests on.
- The sync engine and the seeders of document types and data types are not part of this model.
- Isolation levels other than READ COMMITTED, savepoints, and deadlocks (a waiting transaction simply takes no step).
- Hash collisions of advisory-lock keys: they only make transactions wait longer.
- Owner equality along brand edges as an invariant: the guard compares owners on the child's side only, so re-owning a brand with children is not refused.
- UPDATE statements that give several brands of one tenant new parents at once are sequences of one-row moves of one transaction.
- Statements with data-modifying `WITH` clauses, such as one that inserts a brand and moves its parent under it, or re-scopes a brand together with its manufacturer links: keys are looked up at their end, and they are no step.
- Renumbering brands: `id` is a column like any other to the database, but no step changes it.
- Deleting or retyping field definitions and data types, whose cascades remove values.
- The alias trigger calls the same registry lookup as the field-value trigger; only the latter is put under concurrent runs. Before its repair in 20260925_1610 the alias finder failed on every call because of a result type; the loop is modelled as repaired.
- Date ranges that are empty: the CHECK on the window excludes them.
- Unicode: lower-casing, capitalising and trimming are those of ASCII letters and blanks; the splitter's white space is listed in `PyText`.
- DocumentMigration.Tables.Downgrade: refuses an owner text, object key or vendor name that is too long for its legacy column by spaces alone, which the database cuts off; and a stored receipt amount or date that is no number or timestamp, or an amount beyond fifteen digits, makes the real statement fail. Straight after the way up only an owner text found in a row's own metadata can be such a text.
- Columns that are as wide in the new tables as in the legacy one are texts of any length.
- Text forms: a number read back from JSON text is the number written, and timestamps are carried as their text.
- Columns copied one for one in documents and taxes are represented by the few named in the records.
- `app_metadata` is a JSON object, as its default says.
- A violation of the unique index on live Zoho ids while the echo is written makes the real downgrade of taxes fail; the model lets the echo finish.
- Exemptions, grants, groups and treatments, which the downgrade of taxes discards.
