# ngmDashboard layout model

A Dafny model of the layout logic of the `ngmDashboard` directive
(`src/scripts/dashboard.js`). A dashboard model holds rows. Each row holds
columns. A column either holds widgets or nests further rows of its own.

The model covers these parts of the directive:

- attribute parsing (`stringToBoolean`) and the options that `link` derives from the attributes;
- the lookup of a widget type's default configuration (`createConfiguration`);
- the search for the first top-level column that can take a widget (`findFirstWidgetColumn`);
- the defaults the `ngmModel` watcher fills in;
- structure changes (`changeStructure`). The rows of a named structure replace the model's rows. The widgets of the old columns are then handed out round robin to the new leaf columns, by `readColumns`, `fillStructure` and `copyWidgets`.

Files:

- `layout.dfy` (module `LayoutTree`): dashboard objects.
  - Widgets: a widget object, or a falsy entry.
  - Columns: a class. The `widgets` array can be reassigned. The `rows` property is fixed.
  - The model: a class.
  - The pre-order walk over a rows tree, which `readColumns` and `fillStructure` both follow.
- `structures.dfy` (module `Structures`): registered structures as plain values, and the deep copy that turns one into fresh column objects.
- `migration.dfy` (module `Migration`): `copyWidgets` and `fillStructure` as imperative methods.
  - Each method is specified by functions of the widget lists before the call:
    - `Drained` and `Left` for one copy;
    - `Receipts`, `FillAll` and `Drain` for one pass of `fillStructure`;
    - `Advance` for its counter.
  - Lemmas show how passes over consecutive parts of the walk compose.
- `restructure.dfy` (module `Restructure`): `readColumns` and `changeStructure`, with its `while` loop of passes.
  - `Migrated` specifies the outcome of all the passes.
  - `Picked` gives an independent round-robin description of what each leaf receives.
- `dashboard.dfy` (module `Dashboard`): the directive's remaining helpers, the watcher body and the `link` options.

A column counts as a leaf for `fillStructure` when its `rows` is undefined
(`IsLeaf`, line 105). `findFirstWidgetColumn` uses a different test: a
column whose `rows` is null or undefined (`HoldsWidgets`, line 176). So a
column whose `rows` is null can be chosen by the search, but it never
receives widgets during a structure change. The model keeps both tests as
written.

## Model

| member | source | states |
|---|---|---|
| Dashboard.Lower | src/scripts/dashboard.js:67 | Lower-casing keeps the length and lowers each letter A-Z in place. |
| Dashboard.StringToBoolean | src/scripts/dashboard.js:66-72 | An absent attribute is false. An attribute whose lower-cased text is "true", "yes" or "1" is true. One that is "false", "no" or "0" is false. Any other string is true exactly when it is not empty. |
| Dashboard.TrueInAnyCase | src/scripts/dashboard.js:68 | "true", "yes" and "1" are true whatever the case of each letter. |
| Dashboard.FalseInAnyCase | src/scripts/dashboard.js:69 | "false", "no" and "0" are false whatever the case of each letter. |
| Dashboard.FalseAttribute | src/scripts/dashboard.js:66-72 | A present attribute is false if and only if it is a false word in some letter case, or the empty string. |
| Dashboard.LinkOptions | src/scripts/dashboard.js:258-267 | `name` is the attribute. `maximizable` and `collapsible` are their parsed attributes. `editable` is true when its attribute is absent, and the parsed attribute otherwise. |
| Dashboard.EditableUnlessDisabled | src/scripts/dashboard.js:258-266 | The dashboard is read-only if and only if `editable` is given as a false word or as the empty string. Absent `maximizable` and `collapsible` are off. |
| Dashboard.CreateConfiguration | src/scripts/dashboard.js:151-158 | A registered type yields its configuration when it has one, and an empty configuration when it has none. |
| Dashboard.FoundFirst | src/scripts/dashboard.js:174-179 | A column that holds widgets and comes after only columns that do not is the first widget column of the whole sequence. |
| Dashboard.FirstWidgetIndex | src/scripts/dashboard.js:174-180 | The inner loop returns the index of the first column of the row whose `rows` is falsy, or the row's length when there is none. No column before that index holds widgets. |
| Dashboard.FindFirstWidgetColumn | src/scripts/dashboard.js:165-187 | The result is null when `rows` is not an array. Otherwise it is null exactly when no top-level column has a falsy `rows`. A non-null result is the first such column, row by row, among the top-level columns only. |
| Dashboard.Defaulted | src/scripts/dashboard.js:238-243 | A truthy string is kept. A falsy one (absent or empty) is replaced by the default. |
| Dashboard.TitleTemplate | src/scripts/dashboard.js:242 | The default title template is the template path followed by `dashboard-title.html`. |
| Dashboard.ApplyModelDefaults | src/scripts/dashboard.js:220-247 | There is no model if and only if none was given and the named structure is not registered. A missing model, or one whose rows are falsy, gets a fresh copy of the structure's rows: same shape, widgets and kinds of `rows`. It also gets the structure's name. A model with rows keeps them and its structure name. Title and title template are kept when truthy and defaulted otherwise. |
| Migration.CopyWidgets | src/scripts/dashboard.js:74-82 | The target's array is extended by the source's leading truthy widgets, in order. The source keeps what follows the first falsy entry; that entry is dropped. An undefined source list stays undefined. |
| Migration.DrainSplit | src/scripts/dashboard.js:77-80 | What moves is all truthy. The source list is exactly the moved part, then the falsy entry that stopped the copy, then what stays. When the whole list moves, nothing stays. |
| Migration.DrainAllTruthy | src/scripts/dashboard.js:75-81 | A list of widget objects moves whole and leaves its source empty. |
| Migration.Advance | src/scripts/dashboard.js:103-108 | The counter moves by at most one per leaf and never past the number of old columns when it starts at or below it. It stops short of the leaf count only at the end of the old columns. A pass below the end moves it if and only if the walk has a leaf. |
| Migration.AdvanceCompose | src/scripts/dashboard.js:107-112 | Advancing over two consecutive stretches of the walk equals advancing over both at once. |
| Migration.DrainCompose | src/scripts/dashboard.js:103-112 | Draining the old columns over two consecutive counter ranges equals draining over their union. |
| Migration.ReceiptsAppend | src/scripts/dashboard.js:94-113 | What the columns of `a + b` receive is what `a` receives, then what `b` receives starting from the counter `a` leaves. |
| Migration.TakeWidgets | src/scripts/dashboard.js:98-108 | The column gets an array if it had none. A leaf takes the leading widgets of old column `counter`, if that column exists, and the counter moves by one. Only that old column changes, to what `copyWidgets` leaves. |
| Migration.FillColumn | src/scripts/dashboard.js:95-113 | One column callback, including the recursion into the column's rows. Every column of its subtree is filled as `FillAll`/`Receipts` prescribe. The counter advances by the subtree's leaves. The old columns are drained over exactly the counter range passed. |
| Migration.FillRow | src/scripts/dashboard.js:95-113 | The same as `FillColumn`, for all the columns of one row in order. |
| Migration.FillStructure | src/scripts/dashboard.js:90-117 | The same as `FillColumn`, for the whole pre-order walk of `root.rows`. A falsy `rows` visits nothing. |
| Restructure.PassFillsEveryColumn | src/scripts/dashboard.js:95-113 | After a pass, every visited column holds an array that starts with what it held. A column that is not a leaf receives nothing. |
| Restructure.ReadRows | src/scripts/dashboard.js:127-135 | The accumulator is extended by the pre-order walk of the rows; earlier entries are kept. |
| Restructure.ReadRow | src/scripts/dashboard.js:129-133 | The accumulator is extended by each column followed by its subtree, in order. |
| Restructure.ReadColumns | src/scripts/dashboard.js:124-138 | A given accumulator is returned, extended by the pre-order walk. Without one, a fresh array holding exactly the walk is returned. |
| Restructure.ReceiptsAt | src/scripts/dashboard.js:103-108 | Column `t` receives from the old column whose index is the counter advanced by the leaves before `t`. |
| Restructure.MigratedAt | src/scripts/dashboard.js:146-148 | After the passes, column `t` holds its own widgets followed, for a leaf, by the widgets of old columns `k + l`, `k + l + L`, and so on, where `l` is its leaf number and `L` the number of leaves. |
| Restructure.RoundRobinPicked | src/scripts/dashboard.js:146-148 | That round-robin share is the widgets of exactly the old columns whose index is `l` modulo `L`, in order. |
| Restructure.MigratedShare | src/scripts/dashboard.js:140-149 | With no old columns nothing changes. Otherwise leaf number `l` ends with its own widgets, then those of every old column `j` with `j mod L == l`, in order. Other columns end with their own widgets in an array. |
| Restructure.DrainAll | src/scripts/dashboard.js:146-148 | Once the counter has passed every old column, each old column has been drained exactly once. |
| Restructure.RestsEmpty | src/scripts/dashboard.js:75-81 | Old columns that held only widget objects end empty, or stay undefined. |
| Restructure.FlatFillAll | src/scripts/dashboard.js:95-113 | As multisets, the widgets of the walk after a pass are those before it plus exactly what the pass hands out. |
| Restructure.JoinedReceipts | src/scripts/dashboard.js:103-108 | One pass hands out, in walk order, exactly the moved widgets of the old columns its counter passes over, in column order. |
| Restructure.MigratedConserves | src/scripts/dashboard.js:146-148 | As multisets, the walk after all passes from counter `k` holds its own widgets plus exactly the widgets moved out of old columns `k` onwards. No widget is lost or duplicated. |
| Restructure.MovedAllTruthy | src/scripts/dashboard.js:75-81 | When the old columns hold only widget objects, the moved widgets are all of their widgets, in order. |
| Restructure.WidgetsConserved | src/scripts/dashboard.js:140-149 | When the old columns hold only widget objects, the multiset of widgets in the new walk is its own widgets plus every old widget. The old columns end holding none. A falsy entry is not conserved: `copyWidgets` drops it (`DrainSplit`). |
| Restructure.FillPasses | src/scripts/dashboard.js:142-148 | The loop ends with the counter at the number of old columns. Each old column is left as `copyWidgets` leaves it. The new columns hold what `Migrated` prescribes. |
| Restructure.ReplaceRows | src/scripts/dashboard.js:141-144 | It returns the old pre-order walk. The model's rows become a fresh copy of the structure's rows, sharing no column with the old walk. Title, template and structure name are unchanged. |
| Restructure.ChangeStructure | src/scripts/dashboard.js:140-149 | The model gets a fresh copy of the structure's rows, and its other properties are unchanged. Each old column is left as `copyWidgets` leaves it. The new walk holds the structure's widgets plus the round-robin shares of `Migrated`. When the old columns hold only widget objects, the multiset of the new walk's widgets is the structure's widgets plus all the old widgets. |
| Structures.CopyNested | src/scripts/dashboard.js:144 | The copy has the value's shape, widgets and kinds of `rows`. It is made of fresh, pairwise distinct column objects. |
| Structures.CopyRows | src/scripts/dashboard.js:144 | The same as `CopyNested`, for an array of rows. |
| Structures.CopyColumns | src/scripts/dashboard.js:144 | The same as `CopyNested`, for an array of columns. |
| Structures.CopyColumn | src/scripts/dashboard.js:144 | The same as `CopyNested`, for one column and its subtree. |
| Structures.CopiedLeafCount | src/scripts/dashboard.js:144 | A copy has as many leaf columns as the structure it was copied from. |

## Left out

- Other parts of the module: the `ngmData` service, the `ngmMenu`, `ngmDashboardDownload` and `ngmDate` directives, the `ngModel` adapter, the templates and the edit-mode scope flags. They are not part of this model.
- The watcher's trigger condition (line 219) and `$watch` itself are not modelled. `ApplyModelDefaults` is the body that runs when the watcher fires. `$scope.model` is its result. The copy of `$scope.ngmWidgetFilter` into a local variable of the controller (line 221) is not modelled.
- `$log` messages are comments in the model.
- `angular.copy` is modelled as the creation of fresh column objects carrying the value's widget lists and `rows` kinds. Widgets are values (`Object(id)`), so deep copying of widget objects is not distinguished. Structure properties other than rows, title and title template are not modelled.
- Restructure.ChangeStructure: requires that the new structure have a leaf column or the old model have no columns. Otherwise `fillStructure` never advances the counter and the `while` loop at line 146 does not terminate. `Advance` states that a pass moves the counter if and only if the walk has a leaf.
- Restructure.FillPasses: requires the same condition as `ChangeStructure`, for the same reason.
- Dashboard.CreateConfiguration: requires the type to be registered. For an unregistered type the source throws a `TypeError`. The configuration is an opaque map, and every falsy configuration is `None`.
- Dashboard.Lower: lowers only the letters A-Z, not full Unicode `toLowerCase`. No other character lowers to a letter of the keywords.
- Dashboard.ApplyModelDefaults: an absent structure name looks nothing up. The source would look up the key "undefined".
- Falsy widget entries (`undefined`, `null`, `0`, `false`, `""`) are one value, `Missing`. Falsy `widgets` properties are `None`. Falsy titles are `None` or the empty string.
- A row whose `columns` is undefined or null is modelled as a row with no columns. `forEach` and the array test in `findFirstWidgetColumn` both skip it.
- A `rows` or `columns` value that is neither an array, undefined nor null (a plain object, a string) is not modelled. `angular.forEach` would visit its properties or characters, and `readColumns` would push them as columns. `LayoutTree.Nested` and `LayoutTree.Row` can only hold an array, undefined or null.
- A column's `rows` property is fixed for the life of the column object. The source never reassigns it here. The `height` of a column is a modelling device that bounds the depth of its subtree.
- Layout trees with shared or cyclic column objects are excluded: the fill and copy methods require a tree with pairwise distinct columns. JSON models cannot express sharing.
- The default arguments `counter || 0` (line 91) and `columns || []` (line 125) are modelled as an explicit start value `0` and a null accumulator.
