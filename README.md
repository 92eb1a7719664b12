# sqlc-viz-plugin schema synthesizer, modelled in Dafny

sqlc-viz-plugin turns a directory of PostgreSQL migration files into an entity-relationship
diagram. The plugin's core is its schema synthesizer. It reads the migration files in
lexicographic order and keeps only the text above the `---- create above / drop below ----`
line. It replays the parsed DDL statements into one cumulative schema, made of:

- tables with their columns, primary-key and unique flags, inline foreign keys and CHECK
  descriptions;
- a list of table-level foreign keys;
- views;
- custom types: composite types, enums and domains.

CHECK expressions are turned back into display text by a small expression reconstructor. When
the diagram is drawn, each table-level foreign key is attached to the table that owns all of
its source columns.

This project models that core and proves properties of it:

| file | module | contents |
|---|---|---|
| `wrappers.dfy` | `Wrappers` | `Option` and `Result` |
| `text.dfy` | `Text` | joining, substring search, decimal formatting, lexicographic order, sortedness |
| `ast.dfy` | `Ast` | the parse tree of the statements the replay inspects, and `NodeIdents` |
| `constraints.dfy` | `Constraints` | the expression reconstructor (`Render`) and its laws |
| `model.dfy` | `Model` | the records (`Column`, `Table`, `FK`, `View`, `CustomType`), the key, the table label, the type text, and the pure column-list operations |
| `columns.dfy` | `Columns` | the column-list loops (`upsertCol`, `markPK`, `markUQ`, `hasAllCols`, column building) as methods proved against `Model` |
| `replay.dfy` | `Replay` | one statement, and a list of statements, as functions on a `Snapshot` of the four collections |
| `schema.dfy` | `Schema` | `SchemaModel`, a class holding the four collections; its methods replay statements in place and are proved against `Replay` |
| `laws.dfy` | `Laws` | properties of whole replays: well-formedness, crash behaviour, commutation, create-then-drop |
| `driver.dfy` | `Driver` | the separator cut, the per-file fold that stops at the first error, the input sort, and `Run` |
| `foreign_keys.dfy` | `ForeignKeys` | the table-level foreign-key matching loop, and the finding about its ownership order |
| `scenarios.dfy` | `Scenarios` | worked expression reconstructions |
| `replay_scenarios.dfy` | `ReplayScenarios` | a worked two-statement replay |

The Go code passes pointers into shared maps and a pointer to a slice. The model holds the
four collections as fields of `Schema.SchemaModel`. Each statement handler is a method that
`modifies this`. Each such method is proved equal to the matching pure function in `Replay`.
The statement laws in `Laws` are stated about those pure functions.

A Go `panic` is modelled as the `Crashes` outcome. CREATE TYPE … AS ENUM and CREATE DOMAIN
take `names[0]` of a name list whose identifiers may all be non-strings. When that list has
no string part, Go indexes an empty slice and panics. In the model that statement ends the
run with no result: `ApplyStmt` returns `None`.

## Model

| member | source | states |
|---|---|---|
| Ast.NodeIdents | parser.go:440-448 | Keeps exactly the String nodes' values: every result is the value of a String node of the input, every String node's value appears in the result, and the result is empty exactly when no node is a String |
| Ast.NodeIdentsAppend | parser.go:440-448 | The string filter is applied element by element, so it keeps the original order: the identifiers of `a + b` are those of `a` followed by those of `b` |
| Ast.SchemaOf | parser.go:403-408 | A missing relation has the empty schema; a present one its own schema name |
| Ast.RelnameOf | parser.go:44-45 | A missing relation has the empty name; a present one its own relation name |
| Model.Key | parser.go:451-456 | The key is the bare name when the schema is empty, and `schema.name` otherwise |
| Model.KeyInjective | parser.go:451-456 | For names without dots, equal keys mean equal schema and equal name, so two entries with different dot-free names never share a map slot |
| Model.TableLabel | parser.go:522-530 | Empty exactly for an empty name; the bare name for the empty or `public` schema; `schema.name` for any other schema |
| Model.PublicSchemaKeyMismatch | parser.go:451-456 | `public.t` and `t` are stored under different keys although they carry the same label, so the same table can be replayed into two entries |
| Model.QualifiedName | parser.go:230-238 | A one-part name has the empty schema; with two or more parts, the first is the schema and the second is the name |
| Model.IntMods | parser.go:422-431 | Only integer constants among the type modifiers yield text, and none yield text exactly when no modifier is an integer constant |
| Model.IntModsAppend | parser.go:424-429 | The modifiers are rendered one by one in their order: those of `a + b` are those of `a` followed by those of `b`; an integer constant gives its decimal text and anything else gives nothing |
| Model.ModsText | parser.go:430-432 | No modifier text gives ""; otherwise the texts joined by ", " inside parentheses |
| Model.TypeText | parser.go:417-438 | A missing type gives ""; otherwise the name parts joined by ".", then "(m1, m2, …)" of the integer modifiers when there are any, then "[]" when there are array bounds |
| Model.TargetName | parser.go:368-386 | The alias when it has one; otherwise, for a column reference its last part and for a function call its last name part, each only when that part is a string node, and "" otherwise; a non-target gives no name |
| Model.TargetColumns | parser.go:366-397 | Every named target gives one view column of that name, and every column comes from a target of that name |
| Model.TargetColumnsAppend | parser.go:366-397 | Targets are visited in order: the columns of `a + b` are those of `a` followed by those of `b` |
| Model.TargetColumnsOne | parser.go:368-394 | One target gives one column of its name when the name is not empty, and nothing otherwise |
| Model.ViewColumns | parser.go:363-400 | Every view column has a non-empty name and the placeholder type "unknown"; for a SELECT, a name is a column exactly when some target of the list has it; a non-SELECT query gives no columns |
| Model.RemoveCol | parser.go:483-491 | The result holds exactly the columns of the input whose name differs, and is the input unchanged when no column has that name |
| Model.RemoveColAppend | parser.go:483-491 | Removal works column by column, so the remaining columns keep their relative order |
| Model.RemoveColAt | parser.go:483-491 | In a list with distinct names, removing the name of column i drops exactly position i |
| Model.RemoveColUnique | parser.go:483-491 | Removal keeps column names distinct |
| Model.IndexOf | parser.go:467-468 | The first position holding the name, and none exactly when no column has it |
| Model.Merge | parser.go:469-477 | The name is kept; the primary-key and unique flags become the logical OR of old and new; the type is replaced only by a non-empty one; the foreign key is replaced only by a present one |
| Model.Upserted | parser.go:466-481 | A new name is appended at the end. An existing name keeps the length, merges into the first column of that name, and leaves every other column unchanged |
| Model.UpsertedUnique | parser.go:466-481 | Upserting keeps column names distinct |
| Model.UpsertedHas | parser.go:466-481 | After an upsert a name is present exactly when it was present before or is the upserted column's name |
| Model.SameNamesHas | parser.go:493-507 | Two column lists with the same names position by position hold the same names |
| Model.UpsertAtEnd | parser.go:466-481 | Upserting a column whose name is held only by the last column merges into that last column |
| Model.UpsertMonotone | parser.go:466-481 | Upserting several definitions of one new name leaves one column at the end. Its flags are the OR of all the flags, its type is the last non-empty type, and its foreign key is the last one present |
| Model.WithPrimaryKey | parser.go:493-499 | Sets the primary-key flag on every column whose name is listed, and changes nothing else |
| Model.WithUnique | parser.go:501-507 | Sets the unique flag on every column whose name is listed, and changes nothing else |
| Model.WithPrimaryKeySnoc | parser.go:74-77 | Marking the names of a key one after another is the same as marking them all at once |
| Model.WithUniqueSnoc | parser.go:78-81 | As for primary keys, for UNIQUE |
| Model.InlineFK | parser.go:61-66 | An inline REFERENCES gives a foreign key whose source is the column itself, whose targets are the referenced columns, and whose destination is the referenced table (`Model.PkTable`) |
| Model.TableFK | parser.go:82-88 | A table-level FOREIGN KEY gives parallel source and target column lists, and its destination is the referenced table (`Model.PkTable`) |
| Model.PkTable | parser.go:410-415 | No referenced table gives ("", ""); otherwise its schema name and relation name |
| Model.LastForeignKey | parser.go:54-68 | A column has a foreign key exactly when one of its constraints is FOREIGN, and then it is the foreign key of such a constraint |
| Model.LastForeignKeySnoc | parser.go:54-68 | A later FOREIGN constraint on a column replaces the foreign key kept so far; any other constraint keeps it |
| Model.ColumnOf | parser.go:52-68 | The column is named and typed from its definition; it is a primary key or unique exactly when one of its constraints says so; its foreign key is the one the last FOREIGN constraint gives (`Model.LastForeignKey`) |
| Columns.BuildColumn | parser.go:52-68 | The constraint loop builds exactly `Model.ColumnOf` |
| Columns.UpsertCol | parser.go:466-481 | The loop with its early return computes exactly `Model.Upserted` |
| Columns.MarkPK | parser.go:493-499 | The loop computes `Model.WithPrimaryKey` for one name |
| Columns.MarkUQ | parser.go:501-507 | The loop computes `Model.WithUnique` for one name |
| Columns.MarkAllPK | parser.go:74-77 | Marking each key name in turn computes `Model.WithPrimaryKey` for all of them |
| Columns.MarkAllUQ | parser.go:78-81 | Marking each key name in turn computes `Model.WithUnique` for all of them |
| Columns.HasAllCols | parser.go:509-520 | True exactly when every wanted name is the name of some column; an empty list is always true |
| Constraints.FirstIdent | constraints.go:216-223 | When the first name node is a String its value is the result, and a non-empty result is always the value of the first node, which is a String |
| Constraints.ConstText | constraints.go:225-246 | Integers give decimal text that parses back to the value; floats give their text; strings are wrapped in single quotes; booleans give `true` or `false`; anything else gives "" |
| Constraints.ColumnRefText | constraints.go:202-214 | The string parts of the reference joined by "."; "" exactly when it has no string part, or one empty part |
| Constraints.ComposeBinary | constraints.go:51-68 | Non-empty exactly when the operator and the right side are; `op right` without a left side; `left op right` otherwise. LIKE and ILIKE (constraints.go:91-107) give the same text |
| Constraints.ComposeIn | constraints.go:70-89 | Empty exactly when no item survives; otherwise `left IN (v1, v2, …)`, or `IN (…)` without a left side |
| Constraints.ComposeBetween | constraints.go:109-124 | Empty exactly when a bound renders empty; otherwise `left BETWEEN lo AND hi`, or without the left side |
| Constraints.BoolSeparator | constraints.go:143-156 | AND joins with " AND ", OR with " OR ", NOT with " NOT ", an undefined operator with " " |
| Constraints.Grouped | constraints.go:158-165 | A child is parenthesized exactly when it contains ` AND ` or ` OR ` |
| Constraints.NonEmpty | constraints.go:131-137 | The surviving renderings are exactly the non-empty ones |
| Constraints.NonEmptyAppend | constraints.go:131-137 | The filter keeps order: the survivors of `a + b` are those of `a` followed by those of `b`; one rendering survives exactly when it is not empty |
| Constraints.ComposeBool | constraints.go:139-167 | No survivor gives ""; NOT with one survivor gives `NOT (c)`; AND or OR with one survivor gives it unchanged; two or more survivors are each grouped and joined by the operator's separator |
| Constraints.ComposeFunc | constraints.go:170-200 | Empty exactly when the function has no name; `name()` with no surviving argument; otherwise `name(a1, a2, …)` |
| Constraints.Render | constraints.go:11-49 | The dispatcher: an OP, LIKE or ILIKE operator expression renders as its operator name between the renderings of its two operands; IN renders its left operand and the surviving items of a list right operand, and "" when the right operand is not a list; BETWEEN renders its left operand and the two bounds of a two-item list, and "" otherwise; column references, constants, function calls and boolean expressions render through their own reconstructors over the surviving children; nil, strings, lists, unknown nodes and unknown operator kinds render "" |
| Constraints.SurvivorsNonEmpty | constraints.go:131-141 | Children survive exactly when one of them can be rendered |
| Constraints.RenderNonEmptyIff | constraints.go:11-30 | An expression renders non-empty exactly when it satisfies the structural `Renderable` predicate. So nil, strings, lists and unknown node kinds render "" |
| Constraints.NestedGroupParenthesized | constraints.go:158-167 | Under AND or OR with two or more survivors, a nested AND or OR child with two or more survivors appears in parentheses |
| Scenarios.RenderComparison | constraints.go:51-68 | `a > 5` renders as `a > 5` |
| Scenarios.RenderIn | constraints.go:70-89 | `a IN (1, 2, 3)` renders as `a IN (1, 2, 3)` |
| Scenarios.RenderBetween | constraints.go:109-124 | `a BETWEEN 1 AND 10` renders as written |
| Scenarios.RenderNot | constraints.go:149-152 | `NOT (a = 1)` renders as `NOT (a = 1)` |
| Scenarios.RenderAnd | constraints.go:139-151 | `a = 1 AND b = 2` renders with both comparisons joined by ` AND ` |
| Scenarios.RenderGrouping | constraints.go:158-167 | `(a = 1 AND b = 2) OR c = 3` keeps its parentheses |
| Replay.EnsureTable | parser.go:458-464 | Leaves an entry at `key(s, t)`. An existing entry is returned unchanged with the map unchanged; otherwise a new empty table is inserted; no other key is touched |
| Replay.ApplyConstraint | parser.go:72-98 | PRIMARY KEY marks exactly the key columns as primary keys (`Model.WithPrimaryKey`) and UNIQUE marks them unique (`Model.WithUnique`); FOREIGN KEY appends exactly one table-level foreign key; CHECK with an expression appends exactly one CHECK description; no other constraint changes the columns |
| Replay.ApplyColumnDef | parser.go:52-70 | The columns become the old columns with the built column upserted (`Model.Upserted` of `Model.ColumnOf`), so the defined column is present; the foreign-key list and CHECK descriptions are untouched |
| Replay.ApplyElement | parser.go:51-99 | A column definition upserts its column and touches nothing else; a constraint is `Replay.ApplyConstraint`; any other element changes nothing; the table keeps its schema and name and the foreign-key list only grows |
| Replay.ApplyElements | parser.go:51-99 | The table keeps its schema and name over all the elements of a CREATE TABLE, and the foreign-key list only grows; `Laws.ElementsColumns` gives the columns |
| Replay.ApplyElementsSnoc | parser.go:51-99 | The elements of a CREATE TABLE are applied one after another, in order |
| Replay.ApplyCmd | parser.go:111-178 | ADD COLUMN upserts the built column and touches nothing else; ADD CONSTRAINT is `Replay.ApplyConstraint`; DROP COLUMN with a name removes exactly that name's columns; any other command, or one missing its definition or name, changes nothing; the foreign-key list only grows |
| Replay.ApplyCmds | parser.go:111-178 | The table keeps its identity over all commands of an ALTER TABLE, and the foreign-key list only grows; `Laws.CmdsColumns` gives the columns |
| Replay.StoreEdit | parser.go:49 | The edited table is stored at its key; every other table, view and type is unchanged |
| Replay.ApplyCreateTable | parser.go:43-102 | Skipped without a table name. Otherwise the table keys are exactly the old keys plus the table's key; views and types are unchanged; no other table changes; the foreign-key list only grows |
| Replay.ApplyAlterTable | parser.go:104-180 | Skipped without a table name. Otherwise the table keys are exactly the old keys plus the table's key, and no other table, view or type changes; `Laws.AlterStores` gives the stored table |
| Replay.ApplyView | parser.go:182-200 | Without a name nothing changes; otherwise the view is stored at its key with its extracted columns, and nothing else changes |
| Replay.CompositeCols | parser.go:214-222 | Each column definition gives its plain field (`Replay.CompositeField`), and every field comes from a column definition |
| Replay.CompositeField | parser.go:216-221 | The field has the definition's name and type text, no flags and no foreign key |
| Replay.CompositeColsAppend | parser.go:214-222 | Fields are collected in order: those of `a + b` are those of `a` followed by those of `b` |
| Replay.CompositeColsOne | parser.go:215-221 | A column definition gives its field; any other element gives none |
| Replay.ApplyComposite | parser.go:202-225 | A named composite type replaces the entry at its key with exactly: its schema and name, kind "composite", its fields, and every other attribute empty; the other types, tables, foreign keys and views are unchanged |
| Replay.ApplyEnum | parser.go:228-250 | Crashes exactly when the name list is non-empty without a string part. An empty name list changes nothing. Otherwise the entry at its key becomes exactly an enum with its schema, name and string values in order, every other attribute empty; nothing else changes |
| Replay.DomainCheck | parser.go:272-279 | Empty when there is no CHECK with an expression; otherwise the rendering of one domain CHECK (the last one, as in the loop) |
| Replay.DomainCheckSnoc | parser.go:272-279 | Each CHECK with an expression overrides the description kept so far |
| Replay.DomainNotNullSnoc | parser.go:280-281 | NOT NULL is set once any NOT NULL constraint has been seen |
| Replay.Collation | parser.go:287-292 | The collation is the dotted collation name, or "" without one |
| Replay.ApplyDomain | parser.go:253-296 | Crashes exactly as for enums. Otherwise the entry at its key becomes exactly a domain with its schema, name, base type text, CHECK description, NOT NULL flag and collation, every other attribute empty; nothing else changes |
| Replay.DropKey | parser.go:301-313 | Read as a list, a DROP object names key `names[0]` for a one-part name and `key(names[0], names[1])` for a two-part name; read as a type name, the same holds for the parts of the type name. An object of the other shape, or one without a string part, names nothing |
| Replay.DropKeys | parser.go:302-314 | A key is dropped exactly when some object of the statement names it |
| Replay.DropKeysSnoc | parser.go:302-314 | The dropped keys of a longer object list are those of the shorter list plus those of the last object |
| Replay.AsWrittenTypeDropNoop | parser.go:329-357 | As written, DROP TYPE and DROP DOMAIN read their objects as lists. Their objects are type names, so no key is found and the custom types are unchanged |
| Replay.ApplyDrop | parser.go:298-359 | DROP TABLE and DROP VIEW remove exactly the keys their list objects name. DROP TYPE and DROP DOMAIN remove exactly the keys their type-name objects name, as the program evidently intends (see Findings); both act on the one custom-type collection. No surviving entry changes; the other collections and the foreign-key list are untouched |
| Replay.CrashesExactly | parser.go:228-262 | Only CREATE TYPE … AS ENUM and CREATE DOMAIN can crash, and one does exactly when its name list is non-empty and holds no String node |
| Replay.ApplyStmt | parser.go:40-359 | A statement crashes exactly when `Crashes` holds; the foreign-key list only grows, and only CREATE TABLE and ALTER TABLE can extend it |
| Replay.ApplyStmts | parser.go:40-360 | No statements leave the schema as it is; a replay that does not crash only extends the foreign-key list |
| Replay.ApplyStmtsStep | parser.go:40-360 | Each statement runs on the result of those before it, unless one of them crashed |
| Replay.ApplyStmtsNoneAbsorbs | parser.go:40-360 | Once a statement crashes, no later statement produces a schema |
| Replay.ApplyStmtsPair | parser.go:40-360 | Two statements run in order; the second runs on the first one's result, and not at all when the first crashes |
| Schema.SchemaModel.constructor | parser.go:12-16 | A fresh model has no tables, foreign keys, views or types |
| Schema.SchemaModel.EnsureTable | parser.go:458-464 | Updates the tables field exactly as `Replay.EnsureTable`, and leaves the other fields alone |
| Schema.SchemaModel.ReplayConstraint | parser.go:72-98 | The returned table and the foreign-key field are `Replay.ApplyConstraint`; the maps are untouched |
| Schema.SchemaModel.ReplayColumnDef | parser.go:52-70 | The returned table is `Replay.ApplyColumnDef` |
| Schema.SchemaModel.ReplayElement | parser.go:51-99 | The returned table and the foreign-key field are `Replay.ApplyElement`; the maps are untouched |
| Schema.SchemaModel.ReplayCreateTable | parser.go:43-102 | The new state is `Replay.ApplyCreateTable` of the old state |
| Schema.SchemaModel.ReplayCmd | parser.go:111-178 | The returned table and the foreign-key field are `Replay.ApplyCmd`; the maps are untouched |
| Schema.SchemaModel.ReplayAlterTable | parser.go:104-180 | The new state is `Replay.ApplyAlterTable` of the old state |
| Schema.SchemaModel.ReplayView | parser.go:182-200 | The new state is `Replay.ApplyView` of the old state |
| Schema.SchemaModel.ReplayComposite | parser.go:202-225 | The new state is `Replay.ApplyComposite` of the old state |
| Schema.SchemaModel.ReplayEnum | parser.go:228-250 | Reports success exactly when `Replay.ApplyEnum` does, and then the new state is its result |
| Schema.SchemaModel.ReplayDomain | parser.go:253-296 | Reports success exactly when `Replay.ApplyDomain` does, and then the new state is its result |
| Schema.SchemaModel.ReplayDrop | parser.go:298-359 | The new state is `Replay.ApplyDrop` of the old state |
| Schema.SchemaModel.ReplayStmt | parser.go:40-359 | Reports success exactly when `Replay.ApplyStmt` does, and then the new state is its result |
| Schema.SchemaModel.ReplayStmts | parser.go:40-360 | The statement loop succeeds exactly when `Replay.ApplyStmts` does, and then the new state is its result |
| Schema.CompositeFields | parser.go:214-222 | The column loop computes `Replay.CompositeCols` |
| Schema.EnumValues | parser.go:239-243 | The value loop computes the string values in order |
| Schema.DomainConstraints | parser.go:272-285 | The constraint loop computes the CHECK description and the NOT NULL flag |
| Schema.DomainConstraint | parser.go:273-283 | A CHECK with an expression replaces the description with its rendering; NOT NULL sets the flag; any other element changes neither |
| Schema.DeleteKeys | parser.go:302-314 | Deleting each named key in turn, under either reading of the objects, removes exactly the named keys |
| Laws.SameNamesUnique | parser.go:493-507 | Marking flags keeps the column names, so distinct names stay distinct |
| Laws.ElementKeepsUnique | parser.go:51-99 | No CREATE TABLE element gives a table two columns of one name |
| Laws.ElementsKeepUnique | parser.go:51-99 | No CREATE TABLE gives a table two columns of one name |
| Laws.CmdKeepsUnique | parser.go:116-177 | No ALTER TABLE command gives a table two columns of one name |
| Laws.CmdsKeepUnique | parser.go:111-178 | No ALTER TABLE gives a table two columns of one name |
| Laws.EnsuredWellFormed | parser.go:458-464 | The table a statement edits sits at the key of its own schema and name |
| Laws.CreateWellFormed | parser.go:43-102 | A CREATE TABLE keeps every entry at its own key and keeps column names distinct |
| Laws.AlterWellFormed | parser.go:104-180 | An ALTER TABLE keeps every entry at its own key and keeps column names distinct |
| Laws.ApplyStmtWellFormed | parser.go:40-359 | Every statement that does not crash keeps each entry at the key of its own schema and name, and keeps column names distinct |
| Laws.ApplyStmtsWellFormed | parser.go:40-360 | A replay that does not crash keeps the schema well formed, and only extends the foreign-key list |
| Laws.ApplyStmtsCrash | parser.go:40-360 | A replay crashes exactly when one of its statements is one the replay crashes on |
| Laws.ElementsTableIndependent | parser.go:51-99 | The table built by a CREATE TABLE does not depend on the foreign keys recorded before it |
| Laws.ElementsKeepFKs | parser.go:82-88 | Without table-level FOREIGN KEYs, a CREATE TABLE leaves the foreign-key list as it was |
| Laws.CreateStores | parser.go:43-102 | A named CREATE TABLE stores the table its elements build at its key, changes no other table, and leaves the foreign keys its elements leave |
| Laws.AlterStores | parser.go:104-180 | A named ALTER TABLE stores the table its commands leave, starting from the stored table or an empty one, at its key, changes no other table, and leaves the foreign keys its commands leave |
| Laws.ConstraintKeepsColumns | parser.go:72-98 | A table constraint adds, removes and renames no column |
| Laws.DefinesColumnSnoc | parser.go:51-70 | The column definitions of a list are those of all but its last element plus that element's own |
| Laws.ElementColumns | parser.go:51-99 | One element adds the column it defines and removes none |
| Laws.ElementsColumns | parser.go:51-99 | After CREATE TABLE a table has a column exactly when it had it before or one of the elements defines it |
| Laws.CmdsColumns | parser.go:111-178 | After ALTER TABLE a column exists exactly as the last ADD COLUMN or DROP COLUMN of its name decides, and as before when no command names it |
| Laws.CreateKeepsFKs | parser.go:82-88 | A CREATE TABLE without table-level FOREIGN KEYs leaves the foreign-key list as it was |
| Laws.NamedCreatesCommute | parser.go:43-102 | Two named CREATE TABLEs with different keys give the same tables, views and types in either order |
| Laws.CreateTwice | parser.go:43-102 | Two named CREATE TABLEs with different keys store, at their keys, the tables each builds from the first state |
| Laws.CreateTablesCommute | parser.go:43-102 | Two CREATE TABLEs with different keys give the same tables, views and types in either order, and the same foreign keys when neither declares a table-level one |
| Laws.DropOneTable | parser.go:301-313 | DROP TABLE of a one-part name removes exactly that key from the tables and changes nothing else |
| Laws.CreateThenDrop | parser.go:301-313 | CREATE TABLE t then DROP TABLE t removes t and restores every other table, view and type |
| Laws.DropAfterCreate | parser.go:301-313 | DROP TABLE t right after CREATE TABLE t removes t and restores every other table, view and type |
| Laws.AsWrittenDropTypeKeepsEnum | parser.go:329-343 | After CREATE TYPE t AS ENUM, the program's DROP TYPE t reads the type-name object as a list, finds no key, and t stays among the custom types |
| Laws.DropTypeAfterEnum | parser.go:329-343 | CREATE TYPE t AS ENUM followed by DROP TYPE t, with the object read as a type name, removes exactly t, restores every other type, and leaves the tables, views and foreign keys as they were |
| Laws.EnumOfOneName | parser.go:228-250 | CREATE TYPE t AS ENUM with a one-part name adds exactly key t and changes no other type, table, view or foreign key |
| ReplayScenarios.UsersThenPosts | parser.go:43-102 | Replaying `users(id int PRIMARY KEY)` then `posts(user_id int REFERENCES users(id))` from an empty schema gives exactly those two tables, with `int` as the parser resolves it, `pg_catalog.int4`. posts.user_id carries the inline foreign key to users.id, and no table-level foreign key is recorded |
| ReplayScenarios.CreateOneColumn | parser.go:43-102 | CREATE TABLE of a new unqualified name with one column definition stores exactly a table with that one built column |
| Driver.CutAtSeparator | main.go:221-222 | The parsed text is a prefix of the file; it is the whole file without a separator; otherwise it ends exactly at the first separator |
| Driver.ReplaySource | parser.go:26-38 | A missing file fails with a read error; every error names its file; a successful file only extends the foreign-key list |
| Driver.ReplaySourceOutcome | parser.go:31-38 | The parser sees the text cut at the separator; a syntax error is a parse error; a crashing statement is a crash; otherwise the result is the replay of the parsed statements |
| Driver.ReplayFiles | parser.go:12-24 | No paths give the empty schema; a failure names one of the paths |
| Driver.ReplayFilesStep | parser.go:17-22 | Each file is replayed onto the schema of those before it, unless one of them failed |
| Driver.SuccessReadsAll | parser.go:17-22 | A run that succeeds read every path it was given |
| Driver.FirstErrorStops | main.go:203-213 | A failed run failed at one file, after every earlier file succeeded, and its error is exactly that file's own error |
| Driver.MissingFileFails | main.go:203-213 | An unreadable file anywhere in the list makes the whole run fail |
| Driver.FailurePersists | main.go:203-213 | Once a file fails, later files do not change the outcome |
| Driver.ParseFiles | main.go:203-213 | The file loop computes `Driver.ReplayFiles` |
| Driver.ReplayFile | parser.go:26-38 | Replays one file into the shared model: it succeeds exactly when `Driver.ReplaySource` does and then holds its result; otherwise it returns that error |
| Driver.SortStrings | main.go:99-101 | Sorts the paths in place: the result is in lexicographic order and is a permutation of the input |
| Driver.Run | main.go:99-103 | Sorts the paths, then the result is the replay of the sorted paths |
| Driver.RunOrderIndependent | main.go:99-103 | Two sorted arrangements of the same paths replay to the same result, so the outcome does not depend on the order the paths were given in |
| ForeignKeys.FKEdges | main.go:412-421 | Paired foreign keys (equal, non-zero lengths) give one column edge per pair; otherwise one table edge |
| ForeignKeys.Owner | main.go:410-424 | The owner is the first key, in the order given, whose table has all the source columns; none exactly when no table qualifies |
| ForeignKeys.AttachedEdges | main.go:409-424 | No edge is drawn exactly when no listed table has all the source columns |
| ForeignKeys.AttachedToFirst | main.go:410-424 | The first listed table with all the source columns draws the edges of the foreign key |
| ForeignKeys.OwnerIsLeast | main.go:410-424 | Over sorted keys, an owner exists exactly when some table qualifies, and it is the lexicographically least qualifying key |
| ForeignKeys.SortedKeys | main.go:410 | The table keys, each once, in sorted order |
| ForeignKeys.AttachFK | main.go:409-424 | The loop with `hasAllCols` and `break` computes `ForeignKeys.AttachedEdges` |
| ForeignKeys.OwnerFirst | main.go:410-424 | The first qualifying key is the owner |
| ForeignKeys.AttachedEdgesDeterministic | main.go:410-424 | With sorted keys, the edges of one foreign key do not depend on how the keys were obtained |
| ForeignKeys.AllEdgesDeterministic | main.go:408-425 | With sorted keys, the edges of all foreign keys are determined by the tables |
| ForeignKeys.AllEdgesEmpty | main.go:408-425 | No edge at all is drawn exactly when no foreign key finds a table with all its source columns |
| ForeignKeys.AllEdgesAppend | main.go:408-425 | The edges of a list of foreign keys are those of its parts, in order |
| ForeignKeys.TableLevelEdges | main.go:408-425 | Computes the edges of every table-level foreign key over the sorted table keys |
| ForeignKeys.AsWrittenOwnerAmbiguous | main.go:410-424 | In map order, both `comments` and `posts` can own `user_id -> users.id`, and the two give different edges |
| ForeignKeys.SortedOwnerResolves | main.go:410-424 | With sorted keys the same foreign key is attached to `comments` only |

## Left out

- The SQL parser (pg_query, parser.go:35 and main.go:224) is a foreign C library. Its output is the `Ast` datatypes, and the parser is the `parse` function parameter of `Driver`. A parse failure is `SyntaxError`.
- Reading files (parser.go:27) is the `files` map parameter: a path missing from the map is a read error.
- The separator cut works on characters; Go cuts bytes. For valid UTF-8 text, which the separator line is, the two agree.
- D2 graph construction, layout and SVG output (renderer.go, main.go:108-170, and `renderD2` except its table-level foreign-key loop) are left out. The model produces each edge's text, `left.col -> right.col` or `left -> right`, in place of a `d2oracle.Create` call.
- Per-column inline foreign-key edges in `renderD2` (main.go:326-406) are drawing, not schema synthesis.
- The older copy of the replay loop in main.go:229-322 is left out. It is a stale subset of parser.go's `parseSQL`, and parser.go:12-24 is the fold that is modelled. `Driver.ParseFiles` follows the same stop-at-first-error rule as main.go:203-213.
- The declarations of `View`, `CustomType`, `TableConstraint` and the `Constraints` field of `Table` are not part of this model's sources. Their fields are taken from their uses in parser.go.
- Nil wrapper nodes are left out, for example a constraint wrapper whose inner constraint is nil inside a column definition; at parser.go:55-56 Go would read a field of nil. The `Ast` types hold a constraint directly, so this case cannot be written.
- The ALTER TABLE branch writes through `tables[key(sch, tn)]`, the same pointer as the ensured table. The model edits one table value and stores it back once per statement.
- `Schema.SchemaModel.ReplayColumnDef`: it returns the edited table and does not touch the model's fields. The Go code updates the table through its pointer.
- Go's 32-bit integer constants are `int32` values in the model. `FormatInt` renders any integer, so no wrap-around arises.
- A table-level foreign key does not record which table declared it. As in the source, its owner is found only when the diagram is drawn.

## Findings

| source | as written | input that shows it | evidently intended | confidence | as-written member | corrected member |
|---|---|---|---|---|---|---|
| main.go:410-424 | A table-level foreign key is attached to the first table that has all its source columns, found by iterating a Go map. Go randomizes map iteration order, so when several tables qualify the owner changes from run to run | tables `comments(user_id)` and `posts(user_id)` with the table-level key `FOREIGN KEY (user_id) REFERENCES users(id)`: the edge is `comments.user_id -> users.id` or `posts.user_id -> users.id` | a deterministic owner: the first qualifying table in sorted key order | not executed | ForeignKeys.AsWrittenOwnerAmbiguous | ForeignKeys.OwnerIsLeast |
| parser.go:329-357 | DROP TYPE and DROP DOMAIN look for a List in each object, as DROP TABLE does. PostgreSQL gives these statements TypeName objects, so no key is found and the type or domain is never removed | `CREATE TYPE mood AS ENUM ('a'); DROP TYPE mood;` leaves `mood` among the custom types, and it is still drawn | each object's type name names the key to delete | not executed | Laws.AsWrittenDropTypeKeepsEnum | Laws.DropTypeAfterEnum |
