# SAFOOD nutrition calculator: a Dafny model of the recipe analysis

The application keeps two worksheets: an ingredient catalog ("Ingredientes":
client, name, supplier, reference, composition, allergens and eight values per
100 g) and saved recipe lines ("Recetas": client, recipe, ingredient, supplier,
quantity in grams). This project models what `app.py` computes from them:

- the client list that both recipe tabs offer (`sorted(set(...dropna()))`);
- the recipe names of a client, and the lines of the selected recipe;
- the recipe form: the quantity map and the lines it appends on save;
- the analysis of a recipe:
  - the left join of its lines with the whole catalog on (ingredient, supplier) = (name, supplier);
  - the in-place scaling of the eight nutrient columns by `Cantidad / 100`;
  - the nutrient totals and the total weight;
  - the table per 100 g, or the warning when the weight is not positive;
  - the percentage of each line.

Modules:

- `Records` (`records.dfy`): the typed rows, the eight nutrients, and the row
  selection by a boolean mask (`Filter`).
- `Analysis` (`analysis.dfy`): the join, the sums, the two result tables, and
  the joined frame as a class (`MergedFrame`). Its method `ScaleNutrients`
  overwrites the nutrient columns one at a time, as the loop at lines 110-111
  does. `AnalyseRecipe` runs the whole analysis imperatively and is proved
  equal to the functional `ReportOf`.
- `AnalysisProperties` (`analysis_properties.dfy`): what the analysis promises.
  - Where each scaled value comes from.
  - How the joined weight relates to the recipe's own weight: equal with unique
    catalog keys, larger with a duplicated key.
  - When the percentages add up to 100, and that with a duplicated key they
    add up to less.
  - That the table per 100 g is a weighted average of the matched ingredients,
    and that it does not change when every quantity is scaled by the same
    positive factor.
- `Selection` (`selection.dfy`): Python's string order, the client list, the
  recipe names and lines, and what the recipe form offers for a client.
- `RecipeForm` (`recipe_form.dfy`): the quantity map, the saved lines, and the
  loop that builds them (`SaveRecipe`). The lemmas connect the saved lines
  back to the analysis and to the selection.

The sheets are given as sequences of records. `get_all_records` (lines 24-25)
reads a blank cell as the empty string, so a blank client or recipe cell is
`Some("")`. `dropna` at lines 65, 94 and 97 therefore removes nothing from a
sheet, and a blank client is listed first, as `""`
(`Selection.BlankClientListedFirst`). `None` is what an empty select box
returns (lines 95 and 98); compared with a column it matches no row. The rows
that saving appends are returned as a sequence. The sheet after the save is
`recipes + appended`.

How the code behaves where a reader might expect otherwise:

- A recipe line with no catalog row, or whose supplier differs from the
  catalog's, is not an error. The left join keeps it, its quantity counts in
  the weight, and it adds nothing to any total.
  `AnalysisProperties.UnmatchedLineAddsOnlyWeight` states this.
- The join uses the whole catalog, not only the selected client's rows.
  A (name, supplier) key that two catalog rows share produces two joined rows.
  That inflates the weight and shrinks the percentages.
  `DuplicateKeyInflatesWeight` and `DuplicateKeyShrinksShares` state this.
- The code computes the percentages whenever the weight is non-zero. It
  divides without a guard, so a zero weight gives pandas' infinities or NaN.
  The model leaves that case undefined: `Shares` requires a non-zero weight,
  and `SharesOf` is `None` when the weight is zero.

## Model

| member | source | states |
|---|---|---|
| Analysis.CatalogMatches | app.py:103-108 | definition of the catalog rows a line is paired with; specified by MatchesMembers and MatchesCounts |
| Analysis.JoinLine | app.py:103-108 | definition of the joined rows of one line; specified by JoinLineRows |
| Analysis.Join | app.py:103-108 | definition of the left merge; specified by JoinRowFrom, JoinAppend and JoinLineRows |
| Analysis.Weight | app.py:113 | definition of `peso_total`; specified by WeightAppend, JoinLineWeight and QuantityColumnSum |
| Analysis.NutrientTotal | app.py:111-112 | definition of one entry of `suma_total`; specified by NutrientTotalAppend and ScaledColumnSum |
| Analysis.Totals | app.py:112 | definition of `suma_total`: each nutrient's entry is its total over the joined rows; specified by ScaledFrameTotals |
| Analysis.Shares | app.py:123-124 | definition of the percentage column; specified by ShareEntries and SharesSumTo100 |
| Analysis.NutritionOf | app.py:102-120 | definition of the table per 100 g of a recipe; specified by Per100gIffWeight, Per100gWithinRange and ScalingKeepsNutrition |
| Analysis.SharesOf | app.py:113-124 | definition of the percentage table of a recipe; specified by SharesSumTo100 and DuplicateKeyShrinksShares |
| Analysis.ReportOf | app.py:102-127 | definition of what the analysis tab shows; specified by AnalyseRecipe and ListedRecipeHasLines |
| Selection.ClientList | app.py:65 | corrected definition of the client list; specified by ClientListSpec and ClientListOrderIndependent |
| Selection.ClientRecipes | app.py:96 | corrected definition of the client's recipe lines; specified by RecipeNamesSpec and RecipeLinesSpec |
| Selection.Distinct | app.py:97 | definition of `.unique()`; specified by DistinctSpec |
| Selection.RecipeNames | app.py:97 | definition of the recipe select box's options; specified by RecipeNamesSpec |
| Selection.RecipeLines | app.py:100 | definition of `receta_df`; specified by RecipeLinesSpec and RecipeLinesAppend |
| Selection.ClientCatalog | app.py:72 | definition of `ingredientes_cliente`; specified by FirstOfferedSpec |
| Selection.OfferedNames | app.py:76 | definition of the multiselect's options; specified by FirstOfferedSpec |
| RecipeForm.QuantityMap | app.py:77-80 | definition of `cantidades`; specified by QuantityMapSpec |
| RecipeForm.SavedLine | app.py:85-89 | definition of one appended row; specified by SavedRowsSpec |
| RecipeForm.SavedLines | app.py:84-89 | definition of the appended rows in selection order; specified by SavedRowsSpec |
| RecipeForm.SavedRows | app.py:83-89 | definition of what saving the form appends; specified by SaveRecipe and SavedRowsSpec |
| Records.NutrientsListedOnce | app.py:109 | the nutrient list names each of the eight nutrients exactly once |
| Records.FilterCounts | app.py:96 | a boolean-mask selection keeps every kept row as often as the table has it and nothing else |
| Records.FilterAppend | app.py:100 | selecting from rows appended after others selects the old rows' selection followed by the new ones' |
| Analysis.MatchesMembers | app.py:103-108 | a catalog row is a match of a line exactly when its name and supplier are the line's ingredient and supplier |
| Analysis.MatchesCounts | app.py:103-108 | every catalog row with the line's key is matched as often as the catalog holds it, and no other row is matched |
| Analysis.JoinLineRows | app.py:103-108 | a line becomes one joined row per matching catalog row, or one row without values when there is none; each carries the line's key and quantity, and the j-th carries the j-th match's values |
| Analysis.JoinRowFrom | app.py:103-108 | every joined row comes from a line of the recipe |
| Analysis.JoinAppend | app.py:103-108 | the join keeps the order of the lines: joining two runs of lines concatenates their joins |
| Analysis.WeightAppend | app.py:113 | the weight of concatenated rows is the sum of their weights |
| Analysis.NutrientTotalAppend | app.py:112 | a nutrient total of concatenated rows is the sum of their totals |
| Analysis.Normalise | app.py:115-120 | the table per 100 g is produced exactly when the weight is positive; otherwise the result is the warning |
| Analysis.PerHundredScales | app.py:116 | an amount per 100 g times the weight is 100 times the amount |
| Analysis.NormaliseScales | app.py:116 | each value of the table is its total over the weight times 100, and times the weight gives 100 times the total |
| Analysis.ShareEntries | app.py:123-124 | the percentage table has one row per recipe line, in order, with its ingredient and quantity, and percent times weight equals 100 times the quantity |
| Analysis.MergedFrame.constructor | app.py:103-108 | the frame holds the quantity column and the eight nutrient columns of the joined rows, missing where a line had no match |
| Analysis.MergedFrame.ScaleNutrients | app.py:110-111 | every nutrient column becomes itself times the quantity over 100, missing stays missing, the quantities do not change |
| Analysis.ScaledColumnAt | app.py:111 | entry i of a scaled column is row i's catalog value times row i's quantity over 100, or missing |
| Analysis.PresentScaled | app.py:111-112 | what a scaled entry adds to the NaN-skipping sum is what its row contributes to the nutrient total |
| Analysis.ScaledColumnSum | app.py:111-112 | the NaN-skipping sum of a scaled nutrient column is the nutrient total of the rows |
| Analysis.ScaledFrameTotals | app.py:112 | summing each scaled column of the frame gives the eight nutrient totals |
| Analysis.QuantityColumnSum | app.py:113 | the sum of the quantity column is the weight of the joined rows |
| Analysis.AnalyseRecipe | app.py:102-125 | the imperative analysis gives the "no records" warning for no lines, and otherwise the table per 100 g (or its warning) and the percentages (undefined at zero weight) of the functional model |
| AnalysisProperties.EntryFromLine | app.py:109-111 | a joined row's scaled value is a matching catalog value times the line's quantity over 100, and is missing exactly when no catalog row has the line's key |
| AnalysisProperties.ScaledEntry | app.py:109-111 | every entry of every scaled nutrient column comes from one recipe line: it is a catalog value of that line's key times its quantity over 100, and missing exactly when no catalog row has that line's key |
| AnalysisProperties.JoinLineWeight | app.py:103-113 | a line weighs its quantity once per joined row it becomes |
| AnalysisProperties.AtMostOneMatch | app.py:103-108 | with unique catalog keys a line matches at most one catalog row |
| AnalysisProperties.UniqueKeysWeight | app.py:113 | with unique catalog keys the joined weight is the sum of the recipe's quantities |
| AnalysisProperties.LineWeightAtLeast | app.py:103-113 | a line with a non-negative quantity weighs at least that quantity after the join, and more when two catalog rows share its key |
| AnalysisProperties.JoinWeightAtLeast | app.py:113 | with non-negative quantities the joined weight is at least the recipe's own weight |
| AnalysisProperties.DuplicateKeyInflatesWeight | app.py:103-113 | a line of positive quantity whose key two catalog rows share makes the joined weight exceed the recipe's own weight |
| AnalysisProperties.UnmatchedLineAddsOnlyWeight | app.py:103-113 | a line without a catalog row adds its quantity to the weight and nothing to any nutrient total |
| AnalysisProperties.PercentSumScaled | app.py:123-124 | the percentages, times the weight they divide by, add up to 100 times the recipe's own weight |
| AnalysisProperties.SharesSumTo100 | app.py:123-124 | with unique catalog keys and a non-zero recipe weight the percentages are defined and add up to 100 |
| AnalysisProperties.DuplicateKeyShrinksShares | app.py:113-124 | with a duplicated key on a line of positive quantity the percentages are defined and add up to less than 100 |
| AnalysisProperties.Per100gIffWeight | app.py:115-120 | the table per 100 g exists exactly when the joined weight is positive, and each value times the weight is 100 times the nutrient total |
| AnalysisProperties.TotalWithinRange | app.py:111-113 | when every row's value lies between two bounds, 100 times the total lies between the bounds times the weight |
| AnalysisProperties.RowsWithinRange | app.py:115-116 | when every row's value lies between two bounds, so does the value per 100 g |
| AnalysisProperties.MatchedRowsWithinRange | app.py:103-108 | when every line has a catalog row, every joined row has values from a catalog row of one of its lines |
| AnalysisProperties.Per100gWithinRange | app.py:111-116 | with every line matched and no negative quantity, each value per 100 g lies between the smallest and largest values of the matched catalog rows |
| AnalysisProperties.JoinLineScaled | app.py:103-108 | scaling a line's quantity scales the quantity of each of its joined rows and changes nothing else |
| AnalysisProperties.JoinScaled | app.py:103-108 | scaling every quantity of the recipe scales every quantity of the joined table and changes nothing else |
| AnalysisProperties.ScaledWeight | app.py:113 | scaling every quantity by k scales the weight by k |
| AnalysisProperties.ScaledContribution | app.py:111 | scaling a row's quantity by k scales its contribution to every total by k |
| AnalysisProperties.ScaledTotal | app.py:111-112 | scaling every quantity by k scales every nutrient total by k |
| AnalysisProperties.ScaledNormalised | app.py:115-116 | rows whose quantities are all scaled by one positive factor give the same table per 100 g, or the same warning |
| AnalysisProperties.ScalingKeepsNutrition | app.py:111-116 | multiplying every quantity of the recipe by one positive factor leaves the table per 100 g, or the warning, unchanged |
| Selection.BelowIrreflexive | app.py:65 | no string sorts before itself |
| Selection.BelowTransitive | app.py:65 | the string order is transitive |
| Selection.BelowTotal | app.py:65 | of two different strings one sorts before the other |
| Selection.InsertMembers | app.py:65 | inserting a client adds that client and keeps the others |
| Selection.InsertIncreasing | app.py:65 | inserting into a sorted list without repeats keeps it sorted without repeats |
| Selection.ClientListSpec | app.py:65 | the client list is sorted without repeats and lists exactly the clients some catalog row has |
| Selection.IncreasingIsDetermined | app.py:94 | two sorted lists without repeats holding the same clients are the same list |
| Selection.ClientListOrderIndependent | app.py:94 | the client list does not depend on the order of the catalog rows |
| Selection.EmptyCatalogHasNoClients | app.py:65-70 | as written the empty catalog fails, where the corrected client list is empty and leads to the warning of line 69 |
| Selection.NoClientsWithoutFailure | app.py:65-70 | a catalog with rows but no client cells gives the empty list without failing; such a frame does not come from the sheet, whose blank cells are `""` |
| Selection.BlankClientListedFirst | app.py:24-67 | a catalog row with a blank client cell puts `""` first in the client list, where the select box takes it as its default |
| Selection.EmptyRecipeSheetFails | app.py:96-127 | as written an empty "Recetas" sheet fails at line 96, where as corrected the client has no recipe names, no line is selected, and the warning of line 127 follows |
| Selection.DistinctSpec | app.py:97 | `.unique()` keeps each value once, keeps nothing else, and keeps the order of first occurrence |
| Selection.RecipeNamesSpec | app.py:96-97 | a client's recipe names are listed once each, and a name is listed exactly when a line of that client carries it |
| Selection.RecipeLinesSpec | app.py:96-100 | the analysed lines are exactly the sheet's lines of that client and that recipe, each as often as in the sheet; a missing selection selects nothing |
| Selection.ListedRecipeHasLines | app.py:97-102 | a listed recipe always selects some lines, so the "no records" warning needs a missing selection |
| Selection.RecipeLinesAppend | app.py:96-100 | lines appended to the sheet are selected after the earlier lines |
| Selection.FirstOffered | app.py:85 | the row found has the client, the name, and is a catalog row |
| Selection.FirstOfferedSpec | app.py:72-85 | a row is found exactly for the names the form offers, and it is the client's first catalog row with that name |
| RecipeForm.QuantityMapSpec | app.py:77-80 | the quantity map holds exactly the selected names, each with the quantity given at its last selection |
| RecipeForm.SaveRecipe | app.py:77-89 | the loops fill the quantity map and then append exactly the saved lines of the form |
| RecipeForm.SavedRowsSpec | app.py:83-89 | saving appends nothing without a recipe name and a selection, and otherwise one line per selected name in selection order with the client, recipe, name, first matching row's supplier and quantity |
| RecipeForm.SavedLinesAllMatched | app.py:85-89 | every saved line has a catalog row with its (ingredient, supplier) key, so the join of lines 103-108 finds values for it |
| RecipeForm.SavedRecipeSelectable | app.py:83-89 | after a save the recipe is listed for the client, and selecting it gives the earlier lines of that name followed by the new ones |
| RecipeForm.SavedQuantitiesInRange | app.py:79 | with the input bounds of 0 to 50000 g every saved quantity lies within them |

## Left out

- The Streamlit page: tabs, forms, select boxes, `st.stop`, the success and warning messages. Only the choice between a table and a warning is modelled.
- Google Sheets access: the secrets, the service account, the worksheet lookup, `get_all_records` and `append_row`. The sheets are sequences of records, and an append is the sequence of appended rows.
- The ingredient form (lines 33-57). It appends its fields as one catalog row and computes nothing.
- Rounding to two decimals and the comma-decimal display of lines 118 and 124. The model computes in exact reals and leaves floating point out.
- Composition and allergen text. Both are stored and never read by the computation.
- Cell typing by `get_all_records` and pandas. Every name, supplier, client and recipe cell is a string and every value a real; the conversion of numeric-looking text to numbers is left out. A blank cell is the empty string; `None` stands for a missing cell, which the sheets never give, and for an empty select box.
- Shares: the percentage for a zero weight is left undefined; pandas would produce infinities or NaN there.
- RecipeForm.SaveRecipe: its requires state what the multiselect and number inputs guarantee: one quantity per selection, and only names the client's catalog rows carry. A name outside that set would make `.iloc[0]` fail; the model does not cover that failure.
- Selecting the same ingredient name twice is modelled with the dictionary's last-value-wins behaviour. Streamlit's refusal of two inputs with the same label is left out.

## Findings

| source | as written | input that shows it | evidently intended | confidence | as-written member | corrected member |
|---|---|---|---|---|---|---|
| app.py:65 | `ingredientes_df.get("Cliente", []).dropna()` | an "Ingredientes" sheet with only its header row: the frame has no columns, `.get` returns the list `[]`, and a list has no `dropna` | the empty client list, which leads to the warning of line 69 | not executed | Selection.ClientListAsWritten | Selection.ClientList |
| app.py:96 | `recetas_df[recetas_df["Cliente"] == cliente_analisis]` | a "Recetas" sheet with only its header row, as before the first recipe is saved: the frame has no columns and `recetas_df["Cliente"]` raises a KeyError | no recipe names and no selected lines, which leads to the warning of line 127 | not executed | Selection.ClientRecipesAsWritten | Selection.ClientRecipes |
