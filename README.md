# Table mutation engine of laravel-schema-markdown

laravel-schema-markdown replays a Laravel application's migrations into an
in-memory mirror of the database schema and renders it as Markdown. The part
modelled here is the table: it takes a migration blueprint, walks its commands
in order and dispatches each one by name to a handler. The handlers do three things:

- They insert, remove or move entries of the table's column map and its
  ordered index list.
- They register the table in the database's directory of tables, or remove it.
- They tell the columns an index lists about every index that is added,
  dropped or renamed.

The project has four modules:

- `Commands`: the commands, the column and index definitions they carry, and the
  blueprint, i.e. the command list plus its three column lists (all declared,
  added, changed). It also models dispatch by name. Handler lookup ignores ASCII
  case, as PHP method names do. A name without a handler becomes `Unknown`, and
  emitting a command and dispatching it gives the command back.
- `Sequences`: generic helpers on sequences and maps, such as filtering by name
  and counting hits. The index filter and the column notifications are stated in
  terms of them.
- `Semantics`: a reference semantics on values. `Step` gives the effect of one command
  on a `Snapshot`, which holds the table's name, the definition of the column
  under each column key, the index definitions in list order and the directory. `Run` folds `Step` over a batch. The lemmas in
  this module state what whole batches do.
- `Schema`: the classes `Column`, `Index`, `Database` and `Table`.
  - `Table` keeps the mutable fields of the original: its name, the map from
    column name to column object, and the sequence of index objects.
  - Every handler is a method with a `modifies` frame, and the loops carry
    invariants.
  - `ApplyBlueprint` and the dispatchers are proved to follow `Run` and `Step`
    through the table's `View()`. `RunCommand` also states what each command
    does to the column objects and index objects themselves: which are
    created, moved, removed or kept.
  - Every call the table makes into a column's or an index's hook is appended
    to a ghost trace `calls`. Each handler's contract gives exactly what it
    appends. The lemmas on `ColumnLog` and `IndexLog` say what each single
    column and each single index is told.

Like the original, index drop and rename match indices by name only. The kind
named by a drop command (`dropPrimary`, `dropUnique`, …) is not checked.

## Model

| member | source | states |
|---|---|---|
| Commands.Parse | src/schema-markdown/Schema/Table.php:96-102 | a command name resolves to a handler exactly when its ASCII lower-case form is one of the 19 handler names; an unknown name is kept as is; each handler receives the parameters the command carries |
| Commands.ParseHandlerName | src/schema-markdown/Schema/Table.php:98-99 | every name, in any ASCII case, resolves to the command whose handler has that name lower-cased; an unknown name keeps its own |
| Commands.EmittedHandlerName | src/schema-markdown/Schema/Table.php:98-99 | every command is emitted under the name of its handler up to ASCII case, index kind included |
| Commands.EmittedAddIndexName | src/schema-markdown/Schema/Table.php:183-206 | each index-declaring command is emitted under the name of the handler for its kind |
| Commands.EmittedDropIndexName | src/schema-markdown/Schema/Table.php:139-162 | each index-dropping command is emitted under the name of the handler for its kind |
| Commands.ParseNamesHandler | src/schema-markdown/Schema/Table.php:98-100 | the command a name resolves to is emitted under that same name up to ASCII case: "CREATE" reaches create and never another handler |
| Commands.ParseCommandName | src/schema-markdown/Schema/Table.php:96-102 | dispatching the name and parameters a command is emitted with yields that same command, for every command whose name does not collide with a handler |
| Commands.ParseTableCommandName | src/schema-markdown/Schema/Table.php:104-120 | the emission/dispatch round trip for create, drop, dropIfExists and rename |
| Commands.ParseAddIndexName | src/schema-markdown/Schema/Table.php:183-206 | the emission/dispatch round trip for the five index-declaring commands, kind, name and column list included |
| Commands.ParseDropIndexName | src/schema-markdown/Schema/Table.php:139-162 | the emission/dispatch round trip for the five index-dropping commands |
| Commands.Declared | src/schema-markdown/Schema/Table.php:107-109 | inserting declared columns one by one under their names yields a map whose keys are exactly the declared names, each mapped to a definition of that name taken from the list |
| Commands.DeclaredLast | src/schema-markdown/Schema/Table.php:107-109 | a name declared twice keeps its last definition: the map holds the last definition of every name |
| Sequences.WithoutMembers | src/schema-markdown/Schema/Table.php:236-238 | the index filter keeps only entries of the list, none of them with the target name, and keeps every entry with another name; a list without the target name is kept whole |
| Sequences.WithoutNoneNamed | src/schema-markdown/Schema/Table.php:236-238 | a list in which no entry has the target name passes the filter whole |
| Sequences.WithoutAppend | src/schema-markdown/Schema/Table.php:236-238 | filtering a concatenation filters each part: survivors keep their relative order |
| Sequences.WithoutIdempotent | src/schema-markdown/Schema/Table.php:236-238 | filtering twice by the same name is filtering once |
| Sequences.WithoutCount | src/schema-markdown/Schema/Table.php:236-238 | the filter removes exactly as many entries as carry the target name |
| Sequences.WithoutDistinct | src/schema-markdown/Schema/Table.php:236-238 | filtering a list of distinct index objects leaves a list of distinct index objects |
| Sequences.DistinctAppend | src/schema-markdown/Schema/Table.php:224 | pushing a new index object onto a list of distinct objects keeps them distinct |
| Sequences.HitsInjective | src/schema-markdown/Schema/Table.php:244 | when no column object stands under two names, the names that resolve to the column under `n` are exactly the occurrences of `n` |
| Semantics.RunAppend | src/schema-markdown/Schema/Table.php:84-89 | running two batches back to back is running their concatenation, and a crash in the first stops the second |
| Semantics.RunSingle | src/schema-markdown/Schema/Table.php:84-89 | a one-command batch has the effect of that command |
| Semantics.RunPair | src/schema-markdown/Schema/Table.php:84-89 | a two-command batch applies its commands in order |
| Semantics.UnknownErasure | src/schema-markdown/Schema/Table.php:96-102 | removing every command that has no handler from a batch leaves its effect unchanged |
| Semantics.UnknownOnly | src/schema-markdown/Schema/Table.php:96-102 | a batch of commands without handlers leaves the table and the directory as they are |
| Semantics.KnownOfUnknowns | src/schema-markdown/Schema/Table.php:99 | a batch of unknown commands has no command with a handler |
| Semantics.CreateThenAdds | src/schema-markdown/Schema/Table.php:104-110 | create then any number of adds registers the table under its name; each declared column, then each added one if there is at least one add, sits under its name with its last definition, overriding earlier entries |
| Semantics.RenameColumnRoundTrip | src/schema-markdown/Schema/Table.php:130-137 | renaming an existing column to a free name and back restores the columns, each with its definition under its original key |
| Semantics.RenameRegisters | src/schema-markdown/Schema/Table.php:175-181 | after a table rename the name is `to` and `to` maps to the table, also when `from == to`; `from` is gone when it differs from `to`; other entries are untouched |
| Semantics.RenameTableRoundTrip | src/schema-markdown/Schema/Table.php:175-181 | renaming a registered table to a free name and back restores the directory |
| Semantics.AddThenDropIndex | src/schema-markdown/Schema/Table.php:222-239 | declaring an index under a name no index has and then dropping that name restores the index list |
| Semantics.DropLastAdded | src/schema-markdown/Schema/Table.php:236-238 | filtering out the name of the only entry so named, which is last, gives back the list before it |
| Semantics.DropIndexRemovesName | src/schema-markdown/Schema/Table.php:228-239 | after a drop no index with that name is left, and dropping it again changes nothing |
| Semantics.IndexCommandsKeepColumns | src/schema-markdown/Schema/Table.php:139-206 | batches of index commands never crash and never change the columns, the table name or the directory |
| Semantics.ColumnCommandsKeepIndices | src/schema-markdown/Schema/Table.php:122-137 | dropping and renaming columns never touch the index list, so indices keep listing names that are gone |
| Semantics.UsersCreated | src/schema-markdown/Schema/Table.php:104-110 | a batch that creates "users" with id and name registers the table and gives it those two columns with their declared definitions |
| Semantics.UsersAltered | src/schema-markdown/Schema/Table.php:84-89 | adding email, declaring a unique index on it and dropping name leaves id and email with their definitions and the one index |
| Semantics.UsersEmailAdded | src/schema-markdown/Schema/Table.php:208-213 | the add of the example puts email with its definition beside id and name |
| Semantics.UsersNameDropped | src/schema-markdown/Schema/Table.php:122-128 | the column drop of the example removes name and keeps id and email |
| Semantics.UsersScenario | src/schema-markdown/Schema/Table.php:84-89 | the two batches in sequence end with the table registered, the columns id and email with their declared definitions, and the unique index |
| Schema.ColumnDefsRemove | src/schema-markdown/Schema/Table.php:125-127 | removing keys from the column map removes them, and only them, from the definitions it shows |
| Schema.ColumnDefsMove | src/schema-markdown/Schema/Table.php:133-136 | moving the column object from `from` to `to` moves its definition to `to` |
| Schema.ColumnDefsAdded | src/schema-markdown/Schema/Table.php:107-109 | giving every declared name a column with its last definition, and keeping the other entries, overrides the definitions by the declared ones |
| Schema.DefinitionsWithout | src/schema-markdown/Schema/Table.php:236-238 | filtering index objects by name and reading their definitions is filtering the definitions by name |
| Schema.ColumnCallsAppend | src/schema-markdown/Schema/Table.php:243-247 | notifying the columns of two name lists in turn is notifying those of their concatenation |
| Schema.ColumnCallsLog | src/schema-markdown/Schema/Table.php:241-248 | a column is told the command once for every listed name that resolves to it, and nothing else; names without a column are skipped |
| Schema.ColumnCallsByName | src/schema-markdown/Schema/Table.php:241-248 | when no column stands under two names, the column under `n` is told the command once per listing of `n` |
| Schema.ColumnCallsSkipIndices | src/schema-markdown/Schema/Table.php:241-248 | notifying columns tells no index anything |
| Schema.RenameCallsColumnLog | src/schema-markdown/Schema/Table.php:164-173 | an index rename tells each column the command once for every name, listed by an index named `from`, that resolves to the column |
| Schema.RenameStepColumnLog | src/schema-markdown/Schema/Table.php:166-172 | one index visited by the rename loop tells a column the command once per listed name that resolves to it, and only if the index is named `from` |
| Schema.RenameCallsIndexLog | src/schema-markdown/Schema/Table.php:164-173 | an index rename tells each index named `from` the command exactly once, and no other index anything |
| Schema.RenameStepIndexLog | src/schema-markdown/Schema/Table.php:166-172 | one visited index is told the rename if and only if it is named `from`, and no other index is told anything |
| Schema.DropCallsColumnLog | src/schema-markdown/Schema/Table.php:228-235 | an index drop tells each column the command once for every name, listed by an index of the dropped name, that resolves to the column |
| Schema.DropCallsSkipIndices | src/schema-markdown/Schema/Table.php:228-235 | an index drop tells no index anything |
| Schema.IndexCallsByName | src/schema-markdown/Schema/Table.php:164-173 | when no column stands under two names, a drop and a rename of the same index name both tell the column under `name` the command once per listing of `name` by an index of that name |
| Schema.UpdateCallsLog | src/schema-markdown/Schema/Table.php:215-220 | when no column stands under two names, a change hands the column under `n` exactly the changed definitions named `n`, in order |
| Schema.Database.SetTable | src/schema-markdown/Schema/Table.php:106 | registering stores the table under the name, replacing any other entry under that name |
| Schema.Database.DropTable | src/schema-markdown/Schema/Table.php:114 | deregistering removes the name's entry, if any, and nothing else |
| Schema.Table.constructor | src/schema-markdown/Schema/Table.php:34-38 | a new table belongs to the given database and name and has no columns, no indices and no calls |
| Schema.Table.GetColumn | src/schema-markdown/Schema/Table.php:67-70 | the column under the name if there is one, and nothing exactly when the name is not a key |
| Schema.Table.ApplyBlueprint | src/schema-markdown/Schema/Table.php:84-89 | the name, the definition under every column key, the index definitions and the directory end as `Run` of the batch says; the table invariant is kept; columns and indices are old or new objects; calls are only appended |
| Schema.Table.RunCommand | src/schema-markdown/Schema/Table.php:96-102 | one command has the effect `Step` gives and appends exactly its calls; create and add put new columns with their last definitions under the declared names; dropColumn removes exactly the listed keys; renameColumn moves the same object from `from` to `to`; every other command keeps the column map; an index declaration appends one new index behind the unchanged old ones; an index drop filters the index objects by name; every other command keeps the index list; a command without a handler changes nothing |
| Schema.Table.RunTableCommand | src/schema-markdown/Schema/Table.php:104-120 | create, drop, dropIfExists and rename follow `Step` and make no calls; create adds the declared columns, the others keep the column map; none touches the indices |
| Schema.Table.RunColumnCommand | src/schema-markdown/Schema/Table.php:122-137 | dropColumn, renameColumn, add and change follow `Step` and make exactly the calls of the command; dropColumn removes exactly the listed keys, renameColumn moves the same object, add creates the added columns, change keeps the map; none touches the indices |
| Schema.Table.RunIndexCommand | src/schema-markdown/Schema/Table.php:139-206 | the fifteen index commands follow `Step` and make exactly the calls of the command; a declaration appends one new index behind the unchanged old ones, a drop filters the index objects by name, a rename keeps the list; none touches the column map |
| Schema.Table.RunAddIndex | src/schema-markdown/Schema/Table.php:183-206 | an index-declaring command appends one new index with the declared definition behind the unchanged earlier ones, and notifies the listed columns |
| Schema.Table.RunDropIndex | src/schema-markdown/Schema/Table.php:139-162 | an index-dropping command filters the index objects, and so their definitions, by the index name and makes the drop's calls |
| Schema.Table.Create | src/schema-markdown/Schema/Table.php:104-110 | registers the table under its current name; the column keys become the old keys plus every declared name, each a new column of this table with the name's last declared definition; other columns are untouched, so the definitions are the old ones overridden by the declared ones |
| Schema.Table.Drop | src/schema-markdown/Schema/Table.php:112-120 | removes the directory entry of the table's current name and nothing else |
| Schema.Table.DropColumns | src/schema-markdown/Schema/Table.php:122-128 | the column map loses exactly the listed names; absent names are no-ops; other entries are unchanged |
| Schema.Table.RenameColumn | src/schema-markdown/Schema/Table.php:130-137 | the column object at `from` moves to `to`, replacing what `to` held; `from` is gone unless it equals `to`; the moved column is told the rename |
| Schema.Table.UpdateIndexRelatedColumns | src/schema-markdown/Schema/Table.php:241-248 | tells the column of each listed name present in the column map the command, in list order, and changes nothing else |
| Schema.Table.ApplyIndex | src/schema-markdown/Schema/Table.php:222-226 | appends exactly one new index with the declared definition; earlier indices keep their order and identity; the listed columns are notified |
| Schema.Table.ApplyDropIndex | src/schema-markdown/Schema/Table.php:228-239 | the columns of every index with the target name are notified in list order, then every index so named is removed and the survivors keep their order |
| Schema.Table.DropOne | src/schema-markdown/Schema/Table.php:230-235 | one pass of the drop loop notifies the index's columns only if it has the target name |
| Schema.Table.RenameIndex | src/schema-markdown/Schema/Table.php:164-173 | each index named `from`, in list order, is told the rename and its columns are notified; the index list and column map are unchanged |
| Schema.Table.RenameOne | src/schema-markdown/Schema/Table.php:166-172 | one pass of the rename loop tells the index and then its columns, only if it is named `from` |
| Schema.Table.Rename | src/schema-markdown/Schema/Table.php:175-181 | deregisters `from`, takes `to` as the name and registers the table under `to` |
| Schema.Table.AddColumns | src/schema-markdown/Schema/Table.php:208-213 | the column keys become the old keys plus every added name; each is a new column of this table with the name's last definition; other columns are untouched, so the definitions are the old ones overridden by the added ones |
| Schema.Table.Change | src/schema-markdown/Schema/Table.php:215-220 | hands every changed definition, in order, to the column of its name |

## Left out

- Column and index hooks (`Column::updateByCommand`, `Column::update`,
  `Index::updateByCommand`) are defined in Column.php and Index.php, which are
  not part of this model. Every call to them is recorded in the ghost trace
  instead, and the effect on the column or index is not modelled.
- As a result, an index keeps the name it was declared with after `renameIndex`.
  That is why `Step` of `RenameIndex` leaves the snapshot unchanged, and a later
  drop matches the declared name. In the system the index is meant to take
  the new name itself when it is told the rename, but the table code only hands
  it the command, and Index.php is not part of this model.
- Laravel's `Blueprint` and `Fluent` are not part of this model. The command
  list and the three column lists are fields of a plain `Blueprint` value.
  Command parameters are always present, so a command missing a parameter is
  not modelled (PHP would read `null`).
- Dispatch by building the method name `command_<name>` is modelled by `Parse`:
  an ASCII case-insensitive match against the 19 handler names.
- PHP's loose `!=` on index names (lines 167, 231 and 237) is modelled as
  string equality. Numeric strings that PHP compares as numbers ("1" and "01")
  are not modelled.
- PHP casts integer-like column-name keys to integers. This is not modelled
  because keys are strings throughout.
- `array_filter` keeps the original keys, so the index array can stop being a
  list. The model keeps `indices` a sequence, and only the relative order of
  the survivors counts.
- Crashes are not modelled as failures:
  - Renaming a missing column, or changing a missing column
    (lines 133 and 218), is a precondition of `Schema.Table.RenameColumn`
    and `Schema.Table.Change`, and `None` in `Step`.
  - `Schema.Table.ApplyBlueprint` requires that the batch does not crash by
    these rules.
- The trivial accessors `getDatabase`, `getTableName`, `setTableName` and
  `getIndices` are not modelled as separate members. The Dafny fields are
  read and assigned directly.
- `Database` beyond registering and deregistering a table is not modelled, and
  Database.php is not part of this model. Markdown rendering and loading
  migration files are I/O and are not modelled.
- Schema.Table.ApplyBlueprint: states only that the batch appends to the call
  trace, not which calls it appends, and gives the columns by their definitions
  rather than by object. The calls and the column and index objects of each
  command are stated exactly by `Schema.Table.RunCommand`.
- `Column::update` is what a change hands each new definition to. Its effect is
  not modelled, so the snapshot shows the definition a column was created with,
  and `Step` of `Change` leaves it as it was. The calls are in the trace.
