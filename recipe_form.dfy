/** The recipe form: the quantities it collects for the selected ingredients
    and the recipe lines it appends to the "Recetas" sheet when it is saved. */
module RecipeForm {
  import opened Records
  import opened Analysis
  import opened AnalysisProperties
  import opened Selection

  /** Lines 77-80: `cantidades[ing] = cantidad` for each selected name in
      turn, so a name selected twice keeps its last quantity. */
  function QuantityMap(selected: seq<string>, inputs: seq<real>): map<string, real>
    requires |selected| == |inputs|
  {
    if selected == [] then map[]
    else QuantityMap(selected[..|selected| - 1], inputs[..|inputs| - 1])[selected[|selected| - 1] := inputs[|inputs| - 1]]
  }

  /** The map holds exactly the selected names, each with the quantity given
      at its last selection. */
  lemma {:induction false} QuantityMapSpec(selected: seq<string>, inputs: seq<real>)
    requires |selected| == |inputs|
    ensures forall x :: x in QuantityMap(selected, inputs) <==> x in selected
    ensures forall i :: 0 <= i < |selected| && selected[i] !in selected[i + 1..] ==>
              QuantityMap(selected, inputs)[selected[i]] == inputs[i]
  {
    if selected != [] {
      var n := |selected| - 1;
      var p, q := selected[..n], inputs[..n];
      assert selected == p + [selected[n]];
      QuantityMapSpec(p, q);
      forall i | 0 <= i < |selected| && selected[i] !in selected[i + 1..]
        ensures QuantityMap(selected, inputs)[selected[i]] == inputs[i]
      {
        if i < n {
          assert selected[n] in selected[i + 1..];
          assert p[i + 1..] == selected[i + 1..n];
        }
      }
    }
  }

  /** Line 83: the form saves only with a recipe name and at least one ingredient. */
  predicate WillSave(recipe: string, selected: seq<string>)
  {
    recipe != "" && selected != []
  }

  /** Lines 85-89: the line saved for one selected name: the client, the
      recipe, the name, the supplier of the client's first catalog row with
      that name, and the quantity. */
  function SavedLine(catalog: seq<CatalogRow>, client: string, recipe: string, name: string, quantity: real): RecipeRow
    requires name in OfferedNames(catalog, client)
  {
    FirstOfferedSpec(catalog, client, name);
    RecipeRow(Some(client), Some(recipe), name, FirstOffered(catalog, client, name).value.supplier, quantity)
  }

  /** The lines saved for the selected names, in selection order. */
  function SavedLines(catalog: seq<CatalogRow>, client: string, recipe: string, selected: seq<string>,
                      quantities: map<string, real>): seq<RecipeRow>
    requires forall name :: name in selected ==> name in OfferedNames(catalog, client) && name in quantities
  {
    if selected == [] then []
    else
      var last := selected[|selected| - 1];
      SavedLines(catalog, client, recipe, selected[..|selected| - 1], quantities)
      + [SavedLine(catalog, client, recipe, last, quantities[last])]
  }

  /** Lines 83-89: what saving the form appends to the "Recetas" sheet. */
  function SavedRows(catalog: seq<CatalogRow>, client: string, recipe: string, selected: seq<string>,
                     inputs: seq<real>): seq<RecipeRow>
    requires |inputs| == |selected|
    requires forall name :: name in selected ==> name in OfferedNames(catalog, client)
  {
    QuantityMapSpec(selected, inputs);
    if WillSave(recipe, selected) then SavedLines(catalog, client, recipe, selected, QuantityMap(selected, inputs))
    else []
  }

  /** Lines 77-89: fill the quantity map one selection at a time, then, when
      the form may be saved, append one line per selected name. The multiselect
      offers only the client's catalog names and one quantity input per
      selection, which the requires state. */
  method SaveRecipe(catalog: seq<CatalogRow>, client: string, recipe: string, selected: seq<string>,
                    inputs: seq<real>) returns (appended: seq<RecipeRow>)
    requires |inputs| == |selected|
    requires forall name :: name in selected ==> name in OfferedNames(catalog, client)
    ensures appended == SavedRows(catalog, client, recipe, selected, inputs)
  {
    var quantities: map<string, real> := map[];
    for k := 0 to |selected|
      invariant quantities == QuantityMap(selected[..k], inputs[..k])
    {
      assert selected[..k + 1][..k] == selected[..k] && inputs[..k + 1][..k] == inputs[..k];
      quantities := quantities[selected[k] := inputs[k]];
    }
    assert selected[..|selected|] == selected && inputs[..|inputs|] == inputs;
    QuantityMapSpec(selected, inputs);
    appended := [];
    if recipe != "" && selected != [] {
      for k := 0 to |selected|
        invariant appended == SavedLines(catalog, client, recipe, selected[..k], quantities)
      {
        var name := selected[k];
        assert selected[..k + 1][..k] == selected[..k];
        FirstOfferedSpec(catalog, client, name);
        var row := FirstOffered(catalog, client, name).value;
        appended := appended + [RecipeRow(Some(client), Some(recipe), name, row.supplier, quantities[name])];
      }
    }
  }

  // ----- what the saved lines promise -----

  /** Lines 83-89: one line per selected name, in selection order, carrying
      the client, the recipe name, the selected name, the supplier of the
      client's first catalog row with that name, and the quantity last given
      for that name; nothing unless a recipe name and a selection are given. */
  lemma {:induction false} SavedRowsSpec(catalog: seq<CatalogRow>, client: string, recipe: string,
                                         selected: seq<string>, inputs: seq<real>)
    requires |inputs| == |selected|
    requires forall name :: name in selected ==> name in OfferedNames(catalog, client)
    ensures var rows := SavedRows(catalog, client, recipe, selected, inputs);
            && |rows| == (if WillSave(recipe, selected) then |selected| else 0)
            && forall i :: 0 <= i < |rows| ==>
                 && rows[i].client == Some(client) && rows[i].recipe == Some(recipe)
                 && rows[i].ingredient == selected[i]
                 && FirstOffered(catalog, client, selected[i]).Some?
                 && rows[i].supplier == FirstOffered(catalog, client, selected[i]).value.supplier
                 && (selected[i] !in selected[i + 1..] ==> rows[i].quantity == inputs[i])
  {
    QuantityMapSpec(selected, inputs);
    if WillSave(recipe, selected) {
      var m := QuantityMap(selected, inputs);
      SavedLinesAt(catalog, client, recipe, selected, m);
      forall i | 0 <= i < |selected| ensures FirstOffered(catalog, client, selected[i]).Some? {
        FirstOfferedSpec(catalog, client, selected[i]);
      }
    }
  }

  lemma {:induction false} SavedLinesAt(catalog: seq<CatalogRow>, client: string, recipe: string,
                                        selected: seq<string>, quantities: map<string, real>)
    requires forall name :: name in selected ==> name in OfferedNames(catalog, client) && name in quantities
    ensures |SavedLines(catalog, client, recipe, selected, quantities)| == |selected|
    ensures forall i :: 0 <= i < |selected| ==>
              SavedLines(catalog, client, recipe, selected, quantities)[i]
              == SavedLine(catalog, client, recipe, selected[i], quantities[selected[i]])
  {
    if selected != [] {
      var n := |selected| - 1;
      SavedLinesAt(catalog, client, recipe, selected[..n], quantities);
    }
  }

  /** Every saved line has a catalog row with its (ingredient, supplier) key,
      so the analysis of lines 103-108 joins values to all of them. */
  lemma SavedLinesAllMatched(catalog: seq<CatalogRow>, client: string, recipe: string,
                             selected: seq<string>, inputs: seq<real>)
    requires |inputs| == |selected|
    requires forall name :: name in selected ==> name in OfferedNames(catalog, client)
    ensures AllMatched(SavedRows(catalog, client, recipe, selected, inputs), catalog)
  {
    var rows := SavedRows(catalog, client, recipe, selected, inputs);
    SavedRowsSpec(catalog, client, recipe, selected, inputs);
    forall line | line in rows
      ensures CatalogMatches(catalog, line.ingredient, line.supplier) != []
    {
      var i :| 0 <= i < |rows| && rows[i] == line;
      var c := FirstOffered(catalog, client, selected[i]).value;
      MatchesMembers(catalog, line.ingredient, line.supplier, c);
    }
  }

  /** After saving, the analysis tab lists the recipe under the client, and
      selecting it gives the lines saved before under that name followed by
      the new ones. */
  lemma SavedRecipeSelectable(recipes: seq<RecipeRow>, catalog: seq<CatalogRow>, client: string, recipe: string,
                              selected: seq<string>, inputs: seq<real>)
    requires |inputs| == |selected|
    requires forall name :: name in selected ==> name in OfferedNames(catalog, client)
    requires WillSave(recipe, selected)
    ensures var rows := SavedRows(catalog, client, recipe, selected, inputs);
            && recipe in RecipeNames(recipes + rows, Some(client))
            && RecipeLines(recipes + rows, Some(client), Some(recipe)) == RecipeLines(recipes, Some(client), Some(recipe)) + rows
  {
    var rows := SavedRows(catalog, client, recipe, selected, inputs);
    SavedRowsSpec(catalog, client, recipe, selected, inputs);
    RecipeLinesAppend(recipes, rows, Some(client), Some(recipe));
    OwnLinesSelected(rows, client, recipe);
    RecipeNamesSpec(recipes + rows, Some(client));
    assert rows[0] in recipes + rows;
  }

  /** Lines that all carry the client and the recipe are all selected, in order. */
  lemma {:induction false} OwnLinesSelected(rows: seq<RecipeRow>, client: string, recipe: string)
    requires forall i :: 0 <= i < |rows| ==> rows[i].client == Some(client) && rows[i].recipe == Some(recipe)
    ensures RecipeLines(rows, Some(client), Some(recipe)) == rows
  {
    if rows != [] {
      OwnLinesSelected(rows[1..], client, recipe);
    }
  }

  /** With the quantity inputs' bounds of line 79 (0 to 50000 g), every saved
      quantity lies within them, so no saved line has a negative quantity. */
  lemma SavedQuantitiesInRange(catalog: seq<CatalogRow>, client: string, recipe: string,
                               selected: seq<string>, inputs: seq<real>)
    requires |inputs| == |selected|
    requires forall name :: name in selected ==> name in OfferedNames(catalog, client)
    requires forall i :: 0 <= i < |inputs| ==> 0.0 <= inputs[i] <= 50000.0
    ensures forall line :: line in SavedRows(catalog, client, recipe, selected, inputs) ==>
              0.0 <= line.quantity <= 50000.0
  {
    QuantityMapSpec(selected, inputs);
    var m := QuantityMap(selected, inputs);
    assert forall x :: x in m ==> 0.0 <= m[x] <= 50000.0 by {
      forall x | x in m ensures 0.0 <= m[x] <= 50000.0 {
        var i := LastIndex(selected, x);
        assert selected[i] !in selected[i + 1..];
      }
    }
    if WillSave(recipe, selected) {
      SavedLinesAt(catalog, client, recipe, selected, m);
    }
  }

  /** The position of the last occurrence of `x` in `s`. */
  function LastIndex(s: seq<string>, x: string): (i: nat)
    requires x in s
    ensures i < |s| && s[i] == x && x !in s[i + 1..]
  {
    if s[|s| - 1] == x then |s| - 1
    else
      assert x in s[..|s| - 1] by { var j :| 0 <= j < |s| && s[j] == x; assert s[..|s| - 1][j] == x; }
      LastIndex(s[..|s| - 1], x)
  }
}
