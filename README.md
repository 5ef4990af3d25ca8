# Salary dashboard: filter and aggregate pipeline in Dafny

`Aula04.py` is a Streamlit dashboard over a table of salaries in the data
industry. Most of the page is styling and chart construction. Underneath is
a small, pure pipeline:

- the sidebar offers four facets (`ano`, `senioridade`, `contrato`,
  `tamanho_empresa`). Each facet's choices are the sorted distinct values of
  its column, and all of them are preselected;
- the table `df` is reduced to `df_filtrado`, the rows whose four facet
  values are all selected;
- four KPI cards show the mean and maximum `usd`, the number of rows and the
  most frequent `cargo`, or `0, 0, 0, ""` when nothing is left;
- each chart shows an aggregate of `df_filtrado` or of its Data Scientist
  rows `df_ds`:
  - the ten job titles with the highest mean salary, shown in ascending order;
  - value counts of `remoto` and of `senioridade`;
  - group-by means of `usd` by country, seniority, company size and contract
    type.

The model treats this pipeline as functions over `seq<Record>` and proves
what each step promises.

Modules, in dependency order:

- `Keys`: `Key`, which holds either an integer or a string value of a column. It has a strict total order that matches Python's `sorted` (integers numerically, strings by code point). `Entry<V>` is one row of an aggregate table.
- `Salaries`: the `Record` datatype, the columns, and the projection of a column.
- `Masks`: `Mask`, a boolean-mask selection `s[keep]`, with its membership, multiplicity, order, idempotence and commutation lemmas.
- `Facets`: the facet catalog `sorted(df[c].unique())`.
- `Filter`: `df_filtrado`, the default selection and `df_ds`.
- `Sorting`: a stable insertion sort by a score, with its permutation, order, duplicate and sum lemmas.
- `Stats`: sum, mean, max, min, mode and the KPI block.
- `Counts`: `value_counts()`.
- `Groups`: `groupby(c)['usd'].mean()` and the top-N table.
- `Dashboard`: one render pass of the page. It produces the KPIs, the data of every chart (or none, for the warning shown on an empty subset) and the detail table.
- `Scenario`: a three-row example worked through the filter, the KPIs and a value count.

Modelling decisions:

- `usd` is an `int`. Means are exact `real` quotients.
- Selections are lists (`seq<Key>`), as `st.multiselect` returns lists.
- Where pandas documents the order, the model follows it:
  - `mode()` returns its values sorted, so `[0]` is the smallest of the most frequent titles;
  - `groupby` lists its keys in ascending order;
  - `nlargest(keep='first')` keeps the earlier of several equal means.
- Where pandas leaves the order open, the model chooses one. `value_counts()` and the final `sort_values(ascending=True)` are modelled as stable sorts, so rows with equal counts or equal means keep their earlier order. The model states nothing about that order (see the `Counts.ValueCounts` and `Groups.TopByMean` lines under "## Left out").

## Model

| member | source | states |
|---|---|---|
| Facets.Catalog | Aula04.py:66-78 | the catalog of a column is strictly ascending (sorted, no duplicates) and a value is in it exactly when some record holds that value in the column |
| Facets.CatalogIsTheSortedValues | Aula04.py:66-78 | any strictly ascending list of exactly the column's values equals the catalog: the catalog is the unique sorted enumeration of the distinct values |
| Facets.CatalogDistinct | Aula04.py:66-78 | no value appears twice in a catalog (`NoDuplicates`) |
| Facets.SortedDistinct | Aula04.py:66 | `sorted(unique(xs))` is strictly ascending and has exactly the elements of `xs` |
| Filter.Filtrar | Aula04.py:83-88 | a row is in `df_filtrado` exactly when it is in `df` and its year, seniority, contract and company size are all selected; each kept row keeps its multiplicity, others have none; the result is a subsequence of `df` (order kept, nothing invented) |
| Filter.DefaultSelection | Aula04.py:66-79 | the preselected lists are strictly ascending and every row of `df` matches all four of them |
| Filter.DefaultSelectionOnlyPresent | Aula04.py:66-79 | conversely, each preselected list holds only values that some row of `df` has |
| Filter.DefaultSelectionUnique | Aula04.py:66-79 | any selection whose four lists are strictly ascending and hold exactly the values present in their columns is the default selection: each default is exactly its column's catalog |
| Filter.DefaultSelectionKeepsAll | Aula04.py:66-88 | with every facet preselecting its whole catalog, `df_filtrado` equals `df` |
| Filter.EmptyFacetEmptiesResult | Aula04.py:83-88 | if any one of the four selections is empty, `df_filtrado` is empty |
| Filter.FiltrarIdempotent | Aula04.py:83-88 | filtering `df_filtrado` again with the same selection yields `df_filtrado` |
| Filter.FiltrarCommutes | Aula04.py:83-88 | two selections applied one after the other give the same table in either order |
| Filter.FiltrarPreservesOrder | Aula04.py:83-88 | filtering a concatenation is the concatenation of the filtered parts, so kept rows keep their relative order |
| Filter.DataScientists | Aula04.py:234 | `df_ds` holds exactly the rows whose `cargo` is "Data Scientist", with their multiplicities, as a subsequence of its input |
| Masks.Mask | Aula04.py:83-88 | `table[mask]` has no more rows than the table; its membership, multiplicity and order are stated by the `Mask*` lemmas below |
| Masks.MaskMembership | Aula04.py:83-88 | an element is in a masked sequence exactly when it is in the sequence and the mask keeps it |
| Masks.MaskMultiplicity | Aula04.py:83-88 | a kept element occurs as often as in the input, a dropped one not at all |
| Masks.MaskSubsequence | Aula04.py:83-88 | a masked sequence is a subsequence of its input |
| Masks.MaskAll | Aula04.py:83-88 | a mask that keeps every element returns the input unchanged |
| Masks.MaskNone | Aula04.py:83-88 | a mask that keeps nothing returns the empty sequence |
| Masks.MaskIdempotent | Aula04.py:83-88 | applying the same mask twice equals applying it once |
| Masks.MaskCommutes | Aula04.py:83-88 | two masks applied in sequence commute |
| Masks.MaskConcat | Aula04.py:83-88 | masking distributes over concatenation |
| Stats.MeanUsd | Aula04.py:114 | `.mean()` is the quotient of the salary sum by the row count: mean times count equals the sum |
| Stats.MaxUsd | Aula04.py:115 | the maximum salary is attained by some row and is at least every row's salary |
| Stats.MeanBetweenMinAndMax | Aula04.py:114-115 | the mean salary of a non-empty subset lies between its minimum and its maximum |
| Stats.Mode | Aula04.py:117 | `mode()[0]` is a value that occurs, no value occurs more often, and on a tie it is the smallest of the most frequent |
| Stats.ModalCargo | Aula04.py:117 | the most frequent title of a non-empty subset is held by some row, occurs at least as often as every other title and is the smallest title among those tied for first |
| Stats.ComputeKpis | Aula04.py:113-119 | the KPIs equal the sentinels `0, 0, 0, ""` exactly when the subset is empty; otherwise the mean is the sum over the count and lies between min and max, the max is attained and bounds every salary, the total is the row count, and the title is the modal title with the smallest-first tie-break |
| Sorting.SortDesc | Aula04.py:134 | the stable sort keeps the length of its input; permutation, order, duplicates and sums are stated by the `SortDesc*` lemmas below |
| Sorting.SortDescPermutes | Aula04.py:134 | the stable sort behind `nlargest`, `sort_values` and `value_counts` returns a permutation of its input |
| Sorting.SortDescSorted | Aula04.py:134 | the sort's output is in non-increasing order of the score |
| Sorting.SortDescNoDuplicates | Aula04.py:134 | sorting a duplicate-free sequence keeps it duplicate-free |
| Sorting.SortDescTotal | Aula04.py:202 | sorting does not change the sum of any per-element quantity |
| Counts.Tallies | Aula04.py:202 | the first-appearance tally is empty exactly when its input is, and has no more entries than values counted |
| Counts.TalliesCount | Aula04.py:202 | each first-appearance tally is positive and equals the number of occurrences of its value |
| Counts.TalliesKeys | Aula04.py:202 | the tallies list exactly the values that occur |
| Counts.TalliesDistinct | Aula04.py:202 | no value is tallied twice |
| Counts.TalliesTotal | Aula04.py:202 | the tallies add up to the number of values counted |
| Counts.ValueCounts | Aula04.py:202 | the value-count table has no more entries than the table has rows |
| Counts.ValueCountsCount | Aula04.py:202 | every count is positive and equals the number of rows holding that value |
| Counts.ValueCountsKeys | Aula04.py:279 | the categories are exactly the values present in the column, each listed once |
| Counts.ValueCountsDescending | Aula04.py:202 | entries are in non-increasing order of count |
| Counts.ValueCountsTotal | Aula04.py:279 | the counts sum to the number of rows counted |
| Groups.Group | Aula04.py:235 | the rows of one group are a subsequence of the table, each holds the group's key in the grouped column, and each row holding the key is kept with its multiplicity, others not at all |
| Groups.GroupMembership | Aula04.py:235 | a row belongs to the group of key `k` exactly when it is a row of the table whose column holds `k` |
| Groups.GroupMeans | Aula04.py:235 | the group-by table is empty exactly when the input is; keys are strictly ascending; a key is listed exactly when some row holds it; each value is the arithmetic mean `usd` of that key's non-empty group |
| Groups.GroupMeansKeysAreCatalog | Aula04.py:360 | there is exactly one group per distinct value: the group keys are the column's catalog |
| Groups.GroupMeanBounds | Aula04.py:390 | each group mean lies between the smallest and the largest salary of that group |
| Groups.GroupMeansNoDuplicates | Aula04.py:320 | no group appears twice in a group-by table |
| Groups.TopByMean | Aula04.py:134 | the top table has `min(n, number of groups)` entries |
| Groups.Largest | Aula04.py:134 | `.nlargest(n)` has `min(n, number of groups)` entries; which ones is stated by `Groups.LargestFacts` |
| Groups.TopByMeanSize | Aula04.py:134 | the top table has at most `n` entries, and exactly `min(n, number of distinct cargo values)` |
| Groups.LargestFacts | Aula04.py:134 | `nlargest` keeps only given groups, never a duplicate, and every group it drops has a mean no higher than each group it keeps |
| Groups.TopByMeanIsLargest | Aula04.py:134 | the final ascending sort keeps exactly the groups `nlargest` chose |
| Groups.TopByMeanListsGroups | Aula04.py:134 | every top entry is a group of the column with its mean salary |
| Groups.TopByMeanAscending | Aula04.py:134 | the top entries run from the lowest mean to the highest |
| Groups.TopByMeanDistinct | Aula04.py:134 | no job title appears twice in the top table |
| Groups.TopByMeanOmitsOnlyLower | Aula04.py:134 | no group left out of the top table has a mean above any included mean |
| Dashboard.Render | Aula04.py:113-421 | the detail table is `df_filtrado` and the KPIs are `ComputeKpis` of it (the sentinels when it is empty); on an empty subset no chart is built; otherwise each chart holds exactly its aggregate: the top-10 cargo means of `df_filtrado`, the `remoto` value counts of `df_filtrado`, the country means, `senioridade` counts, seniority means and contract means of `df_ds`, and the company-size means of `df_filtrado`; the top table has at most 10 entries, the remote-work counts sum to the rows shown, the seniority counts sum to the Data Scientist rows, and the country map lists exactly the countries of the filtered Data Scientist rows |
| Dashboard.FirstRenderShowsEverything | Aula04.py:66-88 | on first load, with every filter at its default, the detail table is the whole dataset and, if it has rows, every chart is built |
| Keys.LessTransitive | Aula04.py:66 | the order used by `sorted` and `groupby` is transitive |
| Keys.LessTotal | Aula04.py:66 | any two different keys are ordered one way or the other |
| Keys.LessIrreflexive | Aula04.py:66 | no key precedes itself |
| Salaries.ProjectMembership | Aula04.py:66 | a value is in a column exactly when some row holds it in that column |
| Scenario.Only2023IsYearOnly | Aula04.py:66-79 | the example selection is the sample's default selection with only the year narrowed to 2023 |
| Scenario.Only2023KeepsTwoRows | Aula04.py:83-88 | on a three-row sample, selecting only 2023 keeps the two 2023 rows in table order |
| Scenario.ModalCargoOf2023 | Aula04.py:117 | "Data Analyst" and "Data Scientist" each occur once among the 2023 rows, and `mode()[0]` picks "Data Analyst", the smaller one |
| Scenario.Only2023Kpis | Aula04.py:113-117 | for those two rows the KPIs are mean 75, maximum 100, two rows and "Data Analyst", the smaller of the two tied titles |
| Scenario.ContractCounts | Aula04.py:202 | on the sample, the value counts of `contrato` are CLT twice, then PJ once |

## Left out

- Loading the CSV over HTTP (Aula04.py:36) is network I/O. The dataset is a parameter `df: seq<Record>`, and only the columns the page reads are modelled.
- Page configuration, CSS injection, sidebar widget calls, KPI formatting (Aula04.py:122-126) and all plotly chart construction and styling are presentation. `Dashboard.Render` returns the data each chart would be given.
- The salary histogram (Aula04.py:166-169) passes a bin-count hint to plotly, which does the binning. There is no binning code to model, so its chart is not part of `Dashboard.Page`.
- The unused `media_geral` (Aula04.py:291) is computed and never shown.
- The unused imports of `time`, `gaussian_kde` and `numpy` (Aula04.py:5-7) are not modelled.
- Streamlit's rerun model is not modelled. One call of `Dashboard.Render` is one pass over the script for one selection.
- Floating point is not modelled. `usd` is an integer, and means are exact rationals, so there is no rounding and there are no NaN values or missing cells. pandas drops missing keys from `groupby` and `value_counts`; that is not modelled.
- Counts.ValueCounts: the order among values with equal counts is first appearance, from a stable sort. Only the descending order of the counts is stated, not the order within ties, because pandas does not document it.
- Groups.TopByMean: which of several equal means wins the last place, and the order among equal means, follow from stable sorts over key-ordered groups. Only the ascending order and the "no omitted group is higher" property are stated.
- Keys.Less: every integer key sorts before every string key. No column mixes the two, so this choice never shows.
