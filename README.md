# Denver housing pipeline: rollup and merge, modelled in Dafny

This project models the rollup engine of the Denver housing-abundance data
pipeline and proves properties of it.

Stage 1 (`scripts/build_v1_pipeline.py`) reads the city's residential
construction permits. Each permit gets a lifecycle status from its
cancellation flag and dates (`infer_status`). Permits are grouped into
projects by LOG_NUM, else ADDRESS, else PERMIT_NUM. Each project keeps:
- the count of its permits and the sum of their units;
- its most progressed status, by `status_rank`;
- the earliest received date and the latest issued and final dates;
- a coordinate count and an audit list of its permits.

Projects without a positive unit total are dropped. The rest get their
centroid and are sorted for display by (status label, units, permit count),
descending. Summary figures are then computed.

Stage 2 (`scripts/build_v2_pipeline.py`) loads a hand-curated CSV of
large proposed projects. It keeps rows of at least 100 units and defaults a
missing status to "Proposed". It then merges those rows into the stage-1
output:
- every stage-1 project is copied and tagged `permit_issued`;
- a supplemental project is appended only when its trimmed, lower-cased
  (name, address) identity has not been seen;
- the list is sorted by (status label, units), the appended rows are
  counted, and the figures are recomputed.

The modules follow the program's structure:

- `Base` holds an optional value, sums over sequences with their
  concatenation, permutation and bound lemmas, and distinctness.
- `Text` holds Python's `strip()` (with the full `isspace` set),
  `upper()`/`lower()` on ASCII letters, `replace(",", "")`, and Python's
  string ordering `<` (total, transitive, irreflexive). Stage 1 compares its
  ISO date strings with it.
- `Fields` holds a permit's raw JSON attributes, truthiness, `str()`, the
  date fields, and the two scripts' `parse_int`.
- `Status` holds `infer_status` and `status_rank`.
- `Rollup` holds the grouping loop: the key, the normalised permit, the
  accumulator and its per-permit updates. It is written as methods proved
  against a fold function, with lemmas about what each project's
  accumulator holds.
- `Assembly` holds the filter, the finalisation loop, the display sort, the
  KPIs and the whole of `build()`.
- `Sorting` holds Python's stable `list.sort(key=..., reverse=True)`, as a
  stable insertion sort on values, proved sorted, a permutation and stable.
- `Supplemental` holds `load_supplemental`: the CSV row, the threshold
  filter, the status default and the record appended.
- `Merge` holds `merge`: the two loops, the sort and the recomputed KPIs.

The clock is a parameter:
- `today` is the date `datetime.now()` gives;
- `fetchedAt` is stage 1's `fetched_at`;
- `updatedAt` is stage 2's `updated_at`.

A missing supplemental file is `None`.

Where the source's functions are modelled:
- `infer_status`: `Status.InferStatus`, characterised by `Status.DecisionOrder`.
- `status_rank`: `Status.StatusRank` and the lifecycle position `Status.Rank`.
- `parse_int`: `Fields.ParseInt` for stage 1 and `Fields.ParseIntV2` for stage 2.
- `ts_to_date`: `Fields.DateText`.
- The rollup key (lines 167-175): `Rollup.GroupKey`.
- The loop body of `build()`: `Rollup.NewGroup`, `Rollup.Absorb` and `Rollup.Step`. The whole loop is `Rollup.Fold`.
- The record built in `load_supplemental`: `Supplemental.Record`, with `Supplemental.RowStatus` and `Supplemental.RowUnits`.
- The dedup pass of `merge`: `Merge.Unseen`, instantiated as `Merge.Accepted`. The whole of `merge` is `Merge.MergeResult`.

## Model

| member | source | states |
|---|---|---|
| Fields.ParseIntRoundTrip | housing-abundance-denver/scripts/build_v1_pipeline.py:72-83 | In the exact-decimal model of `float()`, `str(n)`, with any white space around it, parses back to n under the stage-1 `parse_int`, whatever the default. A second clause states the same of an integer value under the stage-2 `parse_int` (`build_v2_pipeline.py:20-24`). |
| Fields.ParseIntBlank | housing-abundance-denver/scripts/build_v1_pipeline.py:76-79 | A string of only white space and commas gives the default, not only the empty string. |
| Fields.DecimalValueOfDecimal | housing-abundance-denver/scripts/build_v1_pipeline.py:80 | In the exact-decimal model of `float()`, `int(float(str(i)))` is i for every integer. Precision loss past 2^53 is left out. |
| Fields.ParseIntAgree | housing-abundance-denver/scripts/build_v2_pipeline.py:20-24 | The stage-2 `parse_int` (remove commas, then strip) and the stage-1 one (strip, remove commas, default on empty) agree on every string and every default. |
| Text.StripRemoveCommas | housing-abundance-denver/scripts/build_v2_pipeline.py:22 | Removing commas before or after stripping gives the same stripped text. |
| Text.StripEmpty | housing-abundance-denver/scripts/build_v2_pipeline.py:45 | `s.strip()` is empty exactly when s is all white space, in both directions. |
| Text.LtTotal | housing-abundance-denver/scripts/build_v1_pipeline.py:229-234 | Any two date strings are equal or ordered one way. |
| Text.LtTransitive | housing-abundance-denver/scripts/build_v1_pipeline.py:229-234 | String order `<` is transitive, so the running minimum and maximum are well defined. |
| Status.DecisionOrder | housing-abundance-denver/scripts/build_v1_pipeline.py:109-124 | Each of the five statuses results exactly when its own signal is present and every earlier signal is absent: cancel flag, then final date or certificate, then issue date, then received date, else Proposed. |
| Status.CancellationDominates | housing-abundance-denver/scripts/build_v1_pipeline.py:110-124 | A cancelled permit is Cancelled whatever its dates. Short of cancellation, a permit with at least the lifecycle signals of another never ranks lower. |
| Status.CancelledDespiteIssued | housing-abundance-denver/scripts/build_v1_pipeline.py:116-117 | CANCEL = "Y" together with an issue date gives Cancelled. |
| Status.CancelSpellings | housing-abundance-denver/scripts/build_v1_pipeline.py:110-117 | The JSON values 1 and true cancel, because their `str()` is "1" and "True". "N" and every falsy value do not. |
| Status.RankIsStatusRank | housing-abundance-denver/scripts/build_v1_pipeline.py:127-136 | `status_rank` of a status's label is the status's position in the lifecycle Cancelled, Proposed, Approved, Under Construction, Delivered. |
| Status.RankOrdersLifecycle | housing-abundance-denver/scripts/build_v1_pipeline.py:127-136 | The rank grows strictly along the lifecycle. A label that is none of the five ranks 0. Equal ranks of labels mean equal statuses. |
| Rollup.KeyPriority | housing-abundance-denver/scripts/build_v1_pipeline.py:167-175 | The key is the first non-empty of trimmed LOG_NUM, ADDRESS, PERMIT_NUM. It is None (the permit is skipped) exactly when all three are empty. |
| Rollup.KeylessIgnored | housing-abundance-denver/scripts/build_v1_pipeline.py:173-175 | A feature without a key adds no permit to the fold. |
| Rollup.Normalize | housing-abundance-denver/scripts/build_v1_pipeline.py:166-186 | A feature yields a permit exactly when it has a key, and that key is non-empty. It has a coordinate exactly when both x and y are numbers. Its coordinate is (x, y). Its address and neighbourhood are the trimmed attributes, and its developer is the trimmed CONTRACTOR_NAME or none when that is blank. Its key is the rollup key, its status is the classifier's, its units are `parse_int(UNITS, 0)` and its dates are the rendered date texts. Its audit record carries its parsed units. |
| Rollup.MissingDateNeutral | housing-abundance-denver/scripts/build_v1_pipeline.py:228-234 | Because `ts_to_date` gives "" for a missing or zero timestamp, absorbing such a permit leaves the project's earliest received, latest issued and latest final dates unchanged. A present date fills a date the project does not have yet. |
| Rollup.GroupPermits | housing-abundance-denver/scripts/build_v1_pipeline.py:163-244 | The grouping loop leaves the insertion-ordered keys and the dictionary equal to the fold of the keyed permits in arrival order. |
| Rollup.AddPermit | housing-abundance-denver/scripts/build_v1_pipeline.py:188-215 | One iteration creates the key's entry when the key is new, appending the key to the order, and then absorbs the permit into it. |
| Rollup.Accumulate | housing-abundance-denver/scripts/build_v1_pipeline.py:215-244 | The in-place updates of the loop body, one field at a time: counts, sums, coordinates, status, dates, audit list. |
| Rollup.FoldKeys | housing-abundance-denver/scripts/build_v1_pipeline.py:188-189 | The dictionary's keys, and the keys of its insertion order, are exactly the keys of the permits. No key is listed twice. |
| Rollup.FoldGroups | housing-abundance-denver/scripts/build_v1_pipeline.py:188-244 | Each entry is the fold of its own key's permits, taken in arrival order, and that list is non-empty. |
| Rollup.GroupOfKey | housing-abundance-denver/scripts/build_v1_pipeline.py:188-244 | For every key, the entry's project_id is the key. Its permit_count is the number of that key's permits and units_total is the sum of their units. The audit list is their records in arrival order. The status is the most progressed. The dates are the earliest received and the latest issued and final. |
| Rollup.GroupIdentity | housing-abundance-denver/scripts/build_v1_pipeline.py:188-213 | project_id, name, address, neighbourhood and developer come from the first permit of the project, and last_updated is the run's clock reading `today`. The name is the address, or "Residential project <key>" when the address is empty. |
| Rollup.GroupCounts | housing-abundance-denver/scripts/build_v1_pipeline.py:215-244 | permit_count is the number of members. units, valuation, coordinate count and coordinate sums are sums over them. The audit list holds the members' records in order. |
| Rollup.GroupStatus | housing-abundance-denver/scripts/build_v1_pipeline.py:224-226 | The project's status is one of its permits' statuses and has the highest rank among them. |
| Rollup.RankNeverLowers | housing-abundance-denver/scripts/build_v1_pipeline.py:224-226 | The rank of the status after any prefix of the permits is at most the rank after all of them. |
| Rollup.GroupDates | housing-abundance-denver/scripts/build_v1_pipeline.py:228-234 | first_date_received is the least non-empty received date in string order, or "" when there is none. last_date_issued and last_final_date are the greatest non-empty dates of their kind. |
| Rollup.GroupPermutation | housing-abundance-denver/scripts/build_v1_pipeline.py:215-234 | Two arrival orders of the same permits give the same count, sums, status and dates. |
| Rollup.FoldPermutation | housing-abundance-denver/scripts/build_v1_pipeline.py:163-244 | Shuffling the permits leaves the same keys, and for every key the same count, sums, status and dates. |
| Assembly.SurvivingExact | housing-abundance-denver/scripts/build_v1_pipeline.py:246 | The kept groups are exactly the dictionary's groups with units_total > 0. No two have the same project_id. |
| Assembly.FinalizeAll | housing-abundance-denver/scripts/build_v1_pipeline.py:247-253 | The loop finalises every kept group, in order. |
| Assembly.LocationOfProject | housing-abundance-denver/scripts/build_v1_pipeline.py:248-250 | A project gets a location, longitude and latitude together, exactly when some permit had numeric x and y. The location is the mean of those coordinates. |
| Assembly.CoordCountPositive | housing-abundance-denver/scripts/build_v1_pipeline.py:219-222 | The coordinate count is positive exactly when some permit has coordinates. |
| Assembly.OutputExact | housing-abundance-denver/scripts/build_v1_pipeline.py:246-254 | The output holds exactly the finalised groups with units_total > 0, in some order, and none twice. No two output projects share a project_id. |
| Assembly.Summarize | housing-abundance-denver/scripts/build_v1_pipeline.py:256-260 | projects_tracked is the output's length. delivered and under_construction units are non-negative and together at most pipeline_units. |
| Assembly.Build | housing-abundance-denver/scripts/build_v1_pipeline.py:163-261 | build() returns the developments, sorted non-increasing by (status label, units_total, permit_count), and their KPIs. projects_tracked is the output's length, and delivered plus under construction is at most the pipeline. |
| Sorting.KeyGtStrictTotal | housing-abundance-denver/scripts/build_v1_pipeline.py:254 | Tuple comparison of the sort keys is irreflexive, transitive and total. |
| Sorting.SortDesc | housing-abundance-denver/scripts/build_v1_pipeline.py:254 | The sort returns a permutation of its input. |
| Sorting.SortDescSorted | housing-abundance-denver/scripts/build_v1_pipeline.py:254 | No element of the sorted list has a greater key than an element before it. |
| Sorting.SortDescStable | housing-abundance-denver/scripts/build_v1_pipeline.py:254 | For every key, the elements carrying it keep their original relative order. |
| Supplemental.LoadSupplemental | housing-abundance-denver/scripts/build_v2_pipeline.py:35-69 | A missing file gives no rows. Otherwise the loop returns the records of the rows at or above the threshold, in file order. |
| Supplemental.LoadedExact | housing-abundance-denver/scripts/build_v2_pipeline.py:42-44 | A record is kept exactly when it is the record of some row whose parsed units reach 100. Every kept record has units_total >= 100. |
| Supplemental.SmallRowDropped | housing-abundance-denver/scripts/build_v2_pipeline.py:43-44 | A row below the threshold changes nothing. |
| Supplemental.FiftyUnitsDropped | housing-abundance-denver/scripts/build_v2_pipeline.py:42-44 | A row listing "50" units never reaches the merge. |
| Supplemental.ThousandsKept | housing-abundance-denver/scripts/build_v2_pipeline.py:42-46 | A row listing "1,200" units reads as 1200 and is appended. |
| Supplemental.StatusDefault | housing-abundance-denver/scripts/build_v2_pipeline.py:45 | A kept row's status is never blank. A missing or all-white-space status becomes "Proposed"; any other status is trimmed. |
| Supplemental.UnitsIgnoreCommas | housing-abundance-denver/scripts/build_v2_pipeline.py:22 | A comma in the units cell is ignored. |
| Supplemental.UnitsOfDecimal | housing-abundance-denver/scripts/build_v2_pipeline.py:20-24 | In the exact-decimal model of `float()`, a units cell holding `str(n)`, with any white space around it, reads as n. |
| Supplemental.DecimalParses | housing-abundance-denver/scripts/build_v2_pipeline.py:20-24 | In the exact-decimal model of `float()`, the stage-2 `parse_int` reads `str(n)` as n. |
| Supplemental.BlankIdNotReplaced | housing-abundance-denver/scripts/build_v2_pipeline.py:47 | The `or` fallback tests the untrimmed cell. So a project_id of white space alone gives an empty id, not the address. |
| Merge.MergeSnapshots | housing-abundance-denver/scripts/build_v2_pipeline.py:71-106 | merge returns the merged value. Its length is the stage-1 length plus the added count. It is sorted non-increasing by (status label, units_total), and it is a permutation of the stage-1 entries followed by the accepted rows. |
| Merge.CopyStageOne | housing-abundance-denver/scripts/build_v2_pipeline.py:72-80 | The first loop copies every stage-1 project in order, tagged, and marks exactly their identities seen. |
| Merge.AppendSupplemental | housing-abundance-denver/scripts/build_v2_pipeline.py:82-89 | The second loop appends exactly the rows whose identity is unseen so far. It marks their identities seen and counts them. |
| Merge.MergeKpis | housing-abundance-denver/scripts/build_v2_pipeline.py:93-105 | projects_tracked is the merged length and v2_added_supplemental_projects is the added count. 0 <= proposed_or_approved_projects <= projects_tracked and 0 <= proposed_or_approved_units <= pipeline_units. The delivered and under-construction figures are carried over from stage 1. |
| Merge.MergedCount | housing-abundance-denver/scripts/build_v2_pipeline.py:71-91 | An entry occurs in the output: as a stage-1 project, as often as in the stage-1 output; as a supplemental row, as often as among the accepted rows. |
| Merge.StageOneKept | housing-abundance-denver/scripts/build_v2_pipeline.py:74-80 | Every stage-1 development is in the output exactly when it was in stage 1, and as many times. It keeps all its fields and is tagged `permit_issued`. |
| Merge.SupplementalOnce | housing-abundance-denver/scripts/build_v2_pipeline.py:83-88 | A supplemental entry of the output occurs once, comes from the supplemental rows, and is tagged `supplemental_proposed`. |
| Merge.AcceptedFresh | housing-abundance-denver/scripts/build_v2_pipeline.py:83-88 | The accepted rows come from the supplemental list. None has an identity seen among the stage-1 projects, and no two share an identity. |
| Merge.StageOneWins | housing-abundance-denver/scripts/build_v2_pipeline.py:78-86 | No supplemental entry of the output shares its identity with a stage-1 entry. |
| Merge.NoSupplementalTwins | housing-abundance-denver/scripts/build_v2_pipeline.py:84-88 | No two distinct supplemental entries of the output share an identity. |
| Merge.SkipSeen | housing-abundance-denver/scripts/build_v2_pipeline.py:83-86 | A row whose identity is that of a stage-1 project or of an earlier row changes nothing: not the list, not the added count. |
| Merge.AppendFresh | housing-abundance-denver/scripts/build_v2_pipeline.py:85-89 | A row with a new identity adds exactly one entry, itself, and raises the added count by one. |
| Merge.SupplementalRepresented | housing-abundance-denver/scripts/build_v2_pipeline.py:78-88 | Every supplemental row's identity is carried by some entry of the output, either stage-1 or supplemental. |
| Merge.StageOneProposed | housing-abundance-denver/scripts/build_v2_pipeline.py:94-95 | The proposed-or-approved test on a stage-1 entry holds exactly when its status is Proposed or Approved. |

## Left out

- Network and I/O are not modelled:
  - the paged HTTP fetch with retries and back-off, and the raw JSON capture (`build_v1_pipeline.py:47-69`, `143-161`);
  - writing of the JSON, CSV and JS outputs;
  - `load_v1` and its exit when the stage-1 file is missing;
  - `write_csv` and `main`.
  The features, the stage-1 snapshot and the CSV rows are parameters.
- The CSV reader is not modelled. `csv.DictReader` parsing, quoting and extra columns are library behaviour. A row is given as its nine cells, each present or absent.
- The clock is a parameter. `datetime.now()`, `fetched_at` and `updated_at` are passed in as strings.
- Rollup.NewGroup: one clock reading (`today`) serves every project of a run. The source calls `datetime.now()` each time a new key appears (`build_v1_pipeline.py:212`). Projects created on either side of midnight could differ there.
- Date rendering is not modelled. `ts_to_date`'s conversion of epoch milliseconds to a calendar date is library behaviour. A timestamp carries the text the library renders, and "" when the library raises.
- Fields.DateText: a timestamp sent as the string "" is not modelled. The feed sends numbers or null.
- Floating point is not modelled:
  - `parse_float` becomes a given valuation;
  - coordinates are exact reals;
  - `valuation_total` and the coordinate sums are exact sums;
  - the centroid is an exact quotient, without `round(..., 6)`.
- Fields.DecimalValue: `float()` is modelled only on the literals [sign] digits [. digits], read exactly and truncated toward zero. Other spellings `float()` accepts count as a ValueError, that is, the default. Those spellings are exponents, underscores, and non-ASCII Unicode decimal digits such as "１２００". With such a units cell the source keeps a supplemental row that the model drops. ("inf" and "nan" are no gap: `int()` raises on them and the source also returns the default.) The model reads every literal exactly, so three limits of binary floating point are left out. First, a literal with more significant digits than a double holds rounds to the nearest double. So "99.9999999999999999" is 100 in the source and 99 in the model, and near the 100-unit threshold the source keeps a supplemental row that the model drops; a stage-1 UNITS string is read the same way. Second, precision is lost past 2^53. Third, a literal larger in magnitude than the largest double (about 1.8e308) becomes `inf`, `int()` raises, and the source returns the default. For such a units cell the source drops the supplemental row, while the model keeps it.
- Fields.Attributes: a non-string value in a text attribute (PERMIT_NUM, LOG_NUM, ADDRESS, NEIGHBORHOOD, CONTRACTOR_NAME) is not modelled. The script would raise on `.strip()`. Such fields are strings, with "" for null or absent.
- Rollup.Normalize: a geometry coordinate counts when it is a JSON number. `isinstance` also accepting a JSON boolean is not modelled.
- Fields.Raw: JSON floats in UNITS, DATE_CO_ISSUED or CANCEL are not modelled.
- Constant fields are not modelled. In stage 1 these are `units_affordable`, `stories`, `permit_case_id` (always equal to `project_id`), `source_url` and the KPI `source` and `notes`. In stage 2 they are a supplemental record's null fields, its `permit_count` and `valuation_total` of 0, and the KPI `source`.
- Supplemental.Record: a supplemental record's `longitude` and `latitude`, read from the CSV through `parse_float` (`build_v2_pipeline.py:26-33`, `63-64`), are not modelled. That is float parsing, and they take no part in the merge.
- Merge.MergeKpis: only `delivered_units` and `under_construction_units` are carried over from the stage-1 KPIs (`**k`). The stage-1 snapshot is assumed to have its usual shape. The fallbacks `v1.get(..., [])` and `x.get(..., '')` for missing keys are not modelled.
- Lower: applies to ASCII letters only. The same holds for `upper()` in the cancel test. Unicode case mapping is not modelled.
- Sorting.SortDesc: Python's in-place `list.sort` is modelled on values, as a stable insertion sort, where the source sorts the list in place.

## Notes on behaviour

- Both stages sort on the status label as a string, so projects such as "Under Construction" and "Proposed" sort ahead of "Delivered". The lifecycle rank is used only inside the fold.
- Stage 2's project_id fallback tests the raw cells before stripping (`Supplemental.BlankIdNotReplaced`).
- Stage 1 entries are not deduplicated among themselves. Only supplemental rows are checked against the seen identities.
