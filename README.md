# Quota-and-delay engine of the DIAN "VA" and INPEC dashboards

This project models the computing core of two Streamlit dashboards.

The DIAN "VA" dashboard follows the review of case folders by three roles:
analysts (Analistas), supervisors (Supervisores) and teams (Equipos).
- **Quota.** Each person of a role owes a fixed number of completed folders per
  business day, counted from the programme start date, 2025-09-16.
- **Accrued quota.** `meta_acumulada` gives the accrued quota of a module as
  business days up to yesterday × the per-person quota × the number of distinct
  people.
- **Summary.** `tabla_resumen` counts each person's completed folders, gives
  each person a delay category (Al día, Atraso normal, Atraso medio, Atraso alto)
  from quota minus completed, and sorts the table.
- **Sidebar filters.** The sidebar narrows the case table by professional,
  supervisor, analyst, state and level.
- **Cross-role filter.** This filter keeps the case rows whose first known role
  category equals the selected one. Analyst comes first, then supervisor, then
  auditor.

The DIAN code exists in two variants, and the model keeps them apart:
- `app.py` is modelled in module `DianApp`.
- `DIAN_VA/utils/logic.py` is modelled in module `DianLogic`.

The two variants disagree on the Equipos role:
- subject column: "equipo" in `app.py`, "auditor" in `logic.py`;
- valid states: three in `app.py`, one in `logic.py`;
- quota: 17 in `app.py`, 34 in `logic.py`.

`DIAN_VA/utils/filters.py` imports `prepara_df_modulo` and `tabla_resumen`
from `logic.py` (filters.py:2), and `DIAN_VA/utils/charts.py` imports
`desarrolladas_por_sujeto` from it (charts.py:79), but `logic.py` does not
define any of the three. Module
`Aggregation` writes these three operations once, after their bodies in
`app.py`. They are parameterised by a `RoleConfig` (role, subject column, valid
states):
- `DianApp.Config` gives `app.py`'s behaviour;
- `DianLogic.Config` gives the behaviour `filters.py` relies on.

For the INPEC dashboard the model covers:
- the cleaning of a module's sheet: every cell stripped, plus the derived
  `ESTADO` of a deliverable;
- the "Todos"-wildcard equality filters;
- the detector of filterable columns.

Representation:
- **Dates** are proleptic Gregorian day numbers, as given by Python's
  `date.toordinal`. The start date is day 739510, a Tuesday.
- **Tables** are `Frames.Table(columns, rows)`. Each row is a map from column
  name to string.
- **Boolean masks** are lists of first-order conditions (`Cond`) applied by
  `Frames.Where`.
- **Missing columns.** Pandas raises `KeyError` for a missing column. The model
  returns `Result.Failure(KeyError(name))` instead.

Where the code does something other than its own names and comments suggest,
the model follows the code:
- **Secondary sort key.** `tabla_resumen` sorts by category rank, then by
  `out.columns[1]`, which is "Desarrolladas" (the count), not the subject name
  (app.py:248). Equal keys keep the groupby order, which is ascending by subject.
  `Aggregation.Before` is therefore the order (rank, count, subject).
- **Boundary comments.** The comment at app.py:138 says "alto" starts above
  102. The code puts 102 itself in "Atraso alto", and so does the model.
  Likewise the comment at app.py:148 says ">35", but 35 is already "alto".
- **Unknown role in `clasifica_categoria`.** An unknown role name is not an
  error: it takes the Analistas/Equipos thresholds.
- **Unknown module in `meta_acumulada`.** An unknown module name raises
  `KeyError` only when at least one business day has passed. Otherwise the
  function returns (0, 0) before it looks up the column.
- **Empty subject in `desarrolladas_por_sujeto`.** Grouping is by the raw
  subject value, so the empty subject "" forms a group of its own. It is
  excluded only from the distinct-subject count of `meta_acumulada`.

## Model

| member | source | states |
|---|---|---|
| Enums.ParseRole | DIAN_VA/utils/enums.py:3-6 | a role name parses exactly when it is one of the three module names, and parses to that role |
| Enums.ParseState | DIAN_VA/utils/enums.py:8-13 | a state name parses exactly when it is one of the six the program uses, and parses to that state: the five of `Estado` and the empty name that app.py:64 renames to "Por asignar" |
| Calendar.StartIsTuesday | DIAN_VA/utils/logic.py:4 | the start date 2025-09-16 falls on a Tuesday |
| Calendar.DayOfProgram | DIAN_VA/utils/logic.py:9 | day n of the programme is a business day exactly when n mod 7 is 0–3 or 6 |
| Calendar.ClosedForm | app.py:76-77 | the number of Monday–Friday dates in the first n days from the start equals 5·(n div 7) + min(n mod 7, 4) |
| Calendar.BusinessDaysSinceStart | DIAN_VA/utils/logic.py:6-10 | the result is the number of Monday–Friday dates from the start date to the end date, inclusive |
| Calendar.BusinessDaysBeforeStart | DIAN_VA/utils/logic.py:7-8 | an end date before the start date gives 0 |
| Calendar.BusinessDaysFromStart | app.py:72-77 | any end date on or after the start date gives at least 1 |
| Calendar.BusinessDaysMonotone | DIAN_VA/utils/logic.py:6-10 | a later end date never gives fewer business days |
| Calendar.BusinessDaysStep | DIAN_VA/utils/logic.py:9-10 | moving the end date one day later adds 1 exactly when the new day is a weekday |
| Categories.Classify | DIAN_VA/utils/logic.py:12-22 | Al día ⇔ delay < 0; normal ⇔ 0 ≤ delay ≤ 68 (Supervisores) or ≤ 10 (any other name); medio up to 101 or 34; alto above |
| Categories.ClassifyMonotone | app.py:136-156 | a larger delay never gives an earlier category in the Al día < normal < medio < alto order |
| Categories.LabelInjective | app.py:247 | two categories have the same label exactly when they are the same category |
| Categories.SupervisorBoundaries | app.py:137-146 | for Supervisores: -1 Al día, 0 and 68 normal, 69 and 101 medio, 102 alto |
| Categories.LightBoundaries | DIAN_VA/tests/test_logic.py:3-7 | for any name other than Supervisores: -1 Al día, 0 and 10 normal, 11 and 34 medio, 35 alto; and the tested values -1, 5, 20, 50 |
| DianLogic.SubjectColumn | DIAN_VA/utils/logic.py:24-25 | Analistas → analista, Supervisores → supervisor, Equipos → auditor; any other name fails with KeyError of that name |
| DianLogic.SubjectColumnInjective | DIAN_VA/utils/logic.py:25 | different roles read different subject columns |
| DianLogic.ValidStates | DIAN_VA/utils/logic.py:27-32 | the states are all valid folder states, always include auditada, and fall through to [auditada] for an unknown name |
| DianLogic.ValidStatesNested | DIAN_VA/utils/logic.py:27-32 | Equipos' states ⊂ Supervisores' states ⊂ Analistas' states, strictly |
| DianLogic.MetaPerSubject | DIAN_VA/utils/logic.py:34-35 | 17 for Analistas, 34 for Supervisores and Equipos; positive exactly for the three role names, so 0 for any other |
| DianLogic.Config | DIAN_VA/utils/logic.py:24-32 | the aggregation configuration of a role uses this file's subject column and valid states |
| DianApp.SubjectColumn | app.py:118-119 | Analistas → analista, Supervisores → supervisor, Equipos → equipo; any other name fails with KeyError of that name |
| DianApp.ValidStates | app.py:112-116 | auditada and aprobada always; calificada exactly when the name is not Supervisores |
| DianApp.PerSubjectQuota | app.py:108 | 34 exactly for Supervisores, 17 for every other name |
| DianApp.Config | app.py:112-119 | the aggregation configuration of a role uses this file's subject column and valid states |
| DianApp.VariantsCompared | app.py:108-119 | the two variants agree on Analistas and Supervisores, and differ on Equipos' column, state count and quota |
| DianApp.MetaAcumulada | app.py:79-110 | business days are counted up to yesterday. KeyError ⇔ days > 0 and unknown module. (0, 0) ⇔ no business day, the column is absent, or no non-empty normalised subject. Otherwise n = the number of distinct stripped, lower-cased, non-empty subjects and meta = days × quota × n |
| DianApp.NothingAccruesOnStartDay | app.py:84-88 | on the start date itself the accrued quota is (0, 0): today is never counted |
| DianApp.ConditionsReadable | app.py:285-295 | every sidebar condition reads a column that exists in the table |
| DianApp.NarrowBy | app.py:286-295 | one step of the chain: the table equals the input narrowed by the conditions so far plus this selection's condition, if any |
| DianApp.ApplySidebarFilters | app.py:285-295 | the filtered table keeps exactly the input rows that satisfy every active selection, in order, with the same columns |
| DianApp.NoSelectionKeepsAll | app.py:285-295 | when every selection is absent, empty or "Todos", no condition applies and all rows are kept |
| DianApp.SidebarRowsMatch | app.py:286-295 | a kept row equals each active selection in its column; the state is compared lower-cased on both sides |
| Frames.Where | app.py:287 | a mask keeps an order-preserving subsequence: exactly the rows satisfying every condition |
| Frames.WhereCount | app.py:287 | each row satisfying every condition is kept as many times as it occurs in the input, and no other row is kept |
| Frames.WhereNothing | INPEC/dashborad.py:88-92 | with no condition every row is kept |
| Frames.WhereAppend | app.py:285-295 | narrowing by a, then by b, equals narrowing once by a followed by b |
| Frames.WhereWellFormed | app.py:285-295 | a narrowed table is still well formed |
| Frames.AddConstantColumn | app.py:126 | the new column is appended and set to the constant in every row; nothing else changes |
| Text.Lower | app.py:98 | lower-casing keeps the length and maps every character through the letter mapping |
| Text.LowerIdempotent | app.py:293 | lower-casing twice is lower-casing once |
| Text.Contains | INPEC/dashborad.py:77 | true exactly when the substring occurs at some position |
| Text.StripIdempotent | INPEC/dashborad.py:70 | stripping twice is stripping once |
| Text.StrLessTotal | app.py:133 | the groupby key order is total on distinct strings |
| Text.StrLessTransitive | app.py:133 | the groupby key order is transitive |
| Aggregation.PrepareModuleFrame | app.py:121-127 | the subject column always exists afterwards. If it was present the table is unchanged; otherwise it is appended with "" in every row |
| Aggregation.CountForPositive | app.py:132 | a subject's count is positive exactly when some row of that subject has a valid lower-cased state |
| Aggregation.CompletedPerSubject | app.py:131-133 | groups are sorted by subject with every count ≥ 1; each subject's count is its number of qualifying rows; the counts sum to the number of qualifying rows |
| Aggregation.DevelopedPerSubject | app.py:129-134 | KeyError(estado_carpeta) exactly when that column is missing, else KeyError(subject column) exactly when that one is missing; otherwise groups sorted by subject, every count ≥ 1, each subject's count its number of qualifying rows, summing to the number of qualifying rows |
| Aggregation.DevelopedSubjects | app.py:132-133 | a raw subject value (including "") has a group exactly when one of its rows qualifies |
| Aggregation.TotalPositive | app.py:234 | the grouped table is empty exactly when its counts sum to 0 |
| Aggregation.BeforeTotal | app.py:247-248 | any two summary rows are ordered one way or the other |
| Aggregation.BeforeTransitive | app.py:247-248 | the summary order is transitive |
| Aggregation.SortByCategory | app.py:247-248 | the result is ordered by (category rank, count, subject) and is a permutation of the input |
| Aggregation.SummaryTable | app.py:231-249 | fails with the KeyError of desarrolladas_por_sujeto exactly when estado_carpeta or the subject column is missing (estado_carpeta first); otherwise the summary of Aggregation.SummaryOfRows |
| Aggregation.SummaryOfRows | app.py:231-249 | empty with columns [Categoria, Subject, Desarrolladas, Meta] exactly when no row qualifies. Otherwise one row per subject with a qualifying row, with Meta = per-subject meta, count = its qualifying rows (≥ 1) and Categoria = classification of Meta − count; rows are ordered by rank, then count |
| Filters.TeamPairs | DIAN_VA/utils/filters.py:11-15 | the (subject, team) pairs without duplicates: a pair is listed exactly when some row carries it |
| Filters.TeamsOf | DIAN_VA/utils/filters.py:17 | the teams listed for a subject are exactly those paired with it |
| Filters.AttachTeamsMembers | DIAN_VA/utils/filters.py:17-18 | every joined row comes from a summary row and one of its subject's teams, and every such combination appears |
| Filters.AttachTeamsDistinct | DIAN_VA/utils/filters.py:11-18 | joining distinct subjects with duplicate-free pairs gives no duplicate row |
| Filters.JoinedRowsCharacterised | DIAN_VA/utils/filters.py:4-20 | a row is in the join exactly when it holds a completed subject, its category at quota meta, one of its teams, and the module |
| Filters.CategoriesBySubject | DIAN_VA/utils/filters.py:4-20 | KeyError ⇔ estado_carpeta, the subject column or EQUIPO is missing, naming the first in that order. Otherwise rows are distinct, and a row is present exactly when it pairs a completed subject, its category at meta = quota × business days, one of its teams and the module name |
| Filters.JoinColumnIsSubjectColumn | DIAN_VA/utils/filters.py:31-35 | each merge joins on the role's subject column of the logic.py variant |
| Filters.Matches | DIAN_VA/utils/filters.py:31-35 | the categories a left merge finds for a subject are exactly those of the table's rows for that subject |
| Filters.MatchesCount | DIAN_VA/utils/filters.py:31-35 | a merge gives a subject one category per table row that lists it |
| Filters.MatchesCountAs | DIAN_VA/utils/filters.py:31-35 | a merge gives a subject each category as many times as a table row pairs the subject with it |
| Filters.MatchesUnique | DIAN_VA/utils/filters.py:31-35 | with one row per subject a merge finds at most one category |
| Filters.Lift | DIAN_VA/utils/filters.py:29 | the copy starts with every row and no category |
| Filters.Expand | DIAN_VA/utils/filters.py:31 | a row matched k times becomes k rows, each with one matched category |
| Filters.Keep | DIAN_VA/utils/filters.py:38 | kept rows are exactly the joined rows whose global category is the selection |
| Filters.Project | DIAN_VA/utils/filters.py:38 | dropping the category columns gives back the case rows one for one |
| Filters.MergeSound | DIAN_VA/utils/filters.py:31-35 | every row after a merge is an input row whose categories were each found for its subject |
| Filters.JoinAllSound | DIAN_VA/utils/filters.py:29-35 | every row after all three merges is an input row with traced categories |
| Filters.MergeOneForOne | DIAN_VA/utils/filters.py:31-35 | with unique subjects a merge keeps the row count and sets each row's category to the lookup of its subject |
| Filters.JoinAllOneForOne | DIAN_VA/utils/filters.py:31-37 | with unique subjects the three merges keep each row once, in order, carrying the category found for its analyst, its supervisor and its auditor |
| Filters.SelectRows | DIAN_VA/utils/filters.py:37-38 | the reference selection is an order-preserving subsequence of the input rows |
| Filters.KeepCount | DIAN_VA/utils/filters.py:38 | each joined row with the selected global category is kept as many times as it occurs, and no other row is kept |
| Filters.KeepProjects | DIAN_VA/utils/filters.py:31-38 | with unique subjects, merging then narrowing equals the reference selection |
| Filters.JoinedOutcome | DIAN_VA/utils/filters.py:29-38 | the kept rows are sound and carry the selected category; with unique subjects they are the reference selection |
| Filters.CrossCategoryFilter | DIAN_VA/utils/filters.py:22-39 | input unchanged ⇔ the selection is None, "" or "Todos". Raises ⇔ some role's merge is skipped, naming the first missing cat_ column. Otherwise every kept row is sound with global category = selection; with unique subjects the result is the order-preserving reference subsequence |
| Filters.AnalystTakesPrecedence | DIAN_VA/utils/filters.py:37 | an analyst category "Atraso normal" hides a supervisor category "Atraso alto": the row is dropped under "Atraso alto" |
| Filters.KeptRowsMatched | DIAN_VA/utils/filters.py:37-38 | a kept row's subject matched some role's category table |
| Inpec.EstadoEntregable | INPEC/dashborad.py:76-78 | Aprobado ⇔ realizado and aprobado are "TRUE". Rechazado ⇔ realizado "TRUE", aprobado "FALSE" and "rechaz" in the lower-cased observation. Entregado ⇔ realizado "TRUE" otherwise. Pendiente ⇔ realizado ≠ "TRUE" |
| Inpec.UnknownApprovalIsDelivered | INPEC/dashborad.py:77-78 | an approval that is neither TRUE nor FALSE gives Entregado; realizado FALSE gives Pendiente whatever the approval |
| Inpec.RejectionIgnoresCase | INPEC/dashborad.py:77 | an observation "RECHAZADO" in capitals still gives Rechazado |
| Inpec.EstadoStripped | INPEC/dashborad.py:76-78 | every ESTADO value is already stripped |
| Inpec.StripColumn | INPEC/dashborad.py:70 | one column's cells are stripped; every other cell and the columns are unchanged |
| Inpec.WithEstado | INPEC/dashborad.py:76-78 | ESTADO is added (or overwritten) with the rule's value on every row; other cells are unchanged |
| Inpec.StripNext | INPEC/dashborad.py:69-70 | one loop step: the columns before and including the current one are stripped, the rest untouched |
| Inpec.StripCells | INPEC/dashborad.py:68-70 | on a copy, every cell of every column is the stripped original, with the same columns and rows |
| Inpec.EstadoKeepsStripped | INPEC/dashborad.py:69-78 | adding ESTADO to a stripped table leaves every cell stripped |
| Inpec.CleanModuleData | INPEC/dashborad.py:67-80 | KeyError ⇔ the module is Entregables and one of the three columns it reads is missing. Otherwise the cells are stripped, and for Entregables ESTADO holds the rule applied to the stripped cells |
| Inpec.FilterableAmong | INPEC/dashborad.py:83 | keeps, in order, exactly the given columns that are filterable |
| Inpec.DetectFilterableColumns | INPEC/dashborad.py:82-83 | an order-preserving subsequence of the columns: a column is listed exactly when it has at most max_unicos distinct values and its lower-cased name does not start with "unnamed" |
| Inpec.PlaceholderNeverFilterable | INPEC/dashborad.py:83 | a pandas placeholder column "Unnamed: 0" is never offered |
| Inpec.ActiveFilters | INPEC/dashborad.py:89-90 | the active conditions are exactly the equalities of the filters whose value is not "Todos" |
| Inpec.FirstMissingExtends | INPEC/dashborad.py:89-91 | once a prefix of the filters has met a missing column, the rest of the filters do not change which column is reported |
| Inpec.ActiveFiltersReadable | INPEC/dashborad.py:91 | when no active filter names a missing column, every active condition reads an existing column |
| Inpec.ApplyDynamicFilters | INPEC/dashborad.py:88-92 | KeyError ⇔ an active filter names a missing column, naming the first. Otherwise the rows are exactly the input rows equal to every active filter value, in order, with the same columns |
| Inpec.AllTodosKeepsAll | INPEC/dashborad.py:88-92 | with every value "Todos" the input is returned unchanged |
| Inpec.DynamicRowsMatch | INPEC/dashborad.py:89-91 | every kept row equals each active filter's value, and the result is an order-preserving subsequence of the input |

## Left out

- Streamlit pages, navigation, selectboxes, metrics and session state are presentation only. The sidebar's choices arrive as a `Selection` value.
- Reading CSV files and caching them is network I/O. Tables arrive as values whose cells are already strings.
- Charts and the gauge are plotting calls with floating point.
- The parsing of Cronograma dates with `pd.to_datetime` is a library parser. `Inpec.CleanModuleData` leaves that column as stripped text.
- `date.today()` is a clock. `DianApp.MetaAcumulada` takes today's day number as a parameter.
- `pd.bdate_range` is replaced by a weekday count over day numbers. Holidays play no part, as in the source.
- `astype(str)` turns a missing cell into "nan", and `nunique` ignores missing values. Cells are never missing in the model.
- Text.Lower: lower-cases ASCII and Latin-1 letters only, because Python's full Unicode case mapping is not modelled.
- Text.Strip: removes ASCII and Latin-1 whitespace (code points below 256) only, because Python's full Unicode whitespace set is not modelled.
- The merges in filters.py add `_x`/`_y` suffixes to the repeated EQUIPO and Modulo columns. Joined rows carry only the case row and its three categories. Each of the three merges brings EQUIPO and Modulo again, so the third one can produce duplicate suffixed column names, which recent pandas rejects with `MergeError`; the model has no such error path.
- Filters.CategoriesBySubject: pandas' KeyError lists every missing column at once. The model names the first missing column only.
- Filters.CrossCategoryFilter: when a category table has several rows for one subject, the model states that every kept row is sound, but not how many copies a row gets.
- Filters.CrossCategoryFilter: the input table is taken not to carry cat_ columns of its own already.
- Inpec.ApplyDynamicFilters: the filters dictionary is an ordered list of (column, value) pairs. The model does not state that the keys are unique.
- Module `Enums` models only the role and state names, because enums.py has no behaviour of its own.
- Loading and display of the INPEC modules other than the cleaning rule are presentation only.
