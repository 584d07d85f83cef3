/** The selections around the analysis: the client list both tabs offer, the
    recipe names of a client, the lines of the selected recipe, and the
    catalog rows a client's recipe form offers. */
module Selection {
  import opened Records

  // ----- Python's order on strings -----

  /** `a < b` on Python strings: code point by code point, and a proper
      prefix comes first. */
  predicate Below(a: string, b: string)
  {
    if a == [] then b != []
    else if b == [] then false
    else if a[0] != b[0] then a[0] < b[0]
    else Below(a[1..], b[1..])
  }

  lemma {:induction false} BelowIrreflexive(a: string)
    ensures !Below(a, a)
  {
    if a != [] {
      BelowIrreflexive(a[1..]);
    }
  }

  lemma {:induction false} BelowTransitive(a: string, b: string, c: string)
    requires Below(a, b) && Below(b, c)
    ensures Below(a, c)
  {
    if a != [] && a[0] == b[0] && b[0] == c[0] {
      BelowTransitive(a[1..], b[1..], c[1..]);
    }
  }

  lemma {:induction false} BelowTotal(a: string, b: string)
    requires a != b
    ensures Below(a, b) || Below(b, a)
  {
    if a != [] && b != [] && a[0] == b[0] {
      assert a == [a[0]] + a[1..] && b == [b[0]] + b[1..];
      BelowTotal(a[1..], b[1..]);
    }
  }

  /** Sorted with no value twice: what `sorted(set(...))` returns. */
  predicate StrictlyIncreasing(s: seq<string>)
  {
    forall i, j :: 0 <= i < j < |s| ==> Below(s[i], s[j])
  }

  // ----- the client list (lines 65 and 94) -----

  /** `x` put into its place in an increasing list, unless it is there already. */
  function Insert(x: string, s: seq<string>): seq<string>
  {
    if s == [] then [x]
    else if x == s[0] then s
    else if Below(x, s[0]) then [x] + s
    else [s[0]] + Insert(x, s[1..])
  }

  lemma {:induction false} InsertMembers(x: string, s: seq<string>, y: string)
    ensures y in Insert(x, s) <==> y == x || y in s
  {
    if s != [] && x != s[0] && !Below(x, s[0]) {
      InsertMembers(x, s[1..], y);
      assert s == [s[0]] + s[1..];
    }
  }

  /** A value below the head of an increasing list is below all of it. */
  lemma BelowHead(x: string, s: seq<string>)
    requires StrictlyIncreasing(s) && s != [] && Below(x, s[0])
    ensures forall j :: 0 <= j < |s| ==> Below(x, s[j])
  {
    forall j | 0 < j < |s| ensures Below(x, s[j]) {
      BelowTransitive(x, s[0], s[j]);
    }
  }

  lemma {:induction false} InsertIncreasing(x: string, s: seq<string>)
    requires StrictlyIncreasing(s)
    ensures StrictlyIncreasing(Insert(x, s))
  {
    if s != [] && x != s[0] {
      if Below(x, s[0]) {
        BelowHead(x, s);
      } else {
        BelowTotal(x, s[0]);
        var rest := Insert(x, s[1..]);
        InsertIncreasing(x, s[1..]);
        forall j | 0 <= j < |rest| ensures Below(s[0], rest[j]) {
          InsertMembers(x, s[1..], rest[j]);
        }
      }
    }
  }

  /** `sorted(set(ingredientes_df["Cliente"].dropna().unique()))` on a catalog
      that has a "Cliente" column. */
  function ClientList(catalog: seq<CatalogRow>): seq<string>
  {
    if catalog == [] then []
    else
      match catalog[0].client
      case None => ClientList(catalog[1..])
      case Some(c) => Insert(c, ClientList(catalog[1..]))
  }

  /** Lines 65 and 94: the client list is increasing (sorted, no value twice)
      and lists exactly the clients that some catalog row has. */
  lemma {:induction false} ClientListSpec(catalog: seq<CatalogRow>)
    ensures StrictlyIncreasing(ClientList(catalog))
    ensures forall c :: c in ClientList(catalog) <==> exists row :: row in catalog && row.client == Some(c)
  {
    if catalog != [] {
      ClientListSpec(catalog[1..]);
      assert catalog == [catalog[0]] + catalog[1..];
      match catalog[0].client
      case None =>
      case Some(x) =>
        InsertIncreasing(x, ClientList(catalog[1..]));
        forall c ensures c in ClientList(catalog) <==> exists row :: row in catalog && row.client == Some(c) {
          InsertMembers(x, ClientList(catalog[1..]), c);
        }
    }
  }

  /** Two increasing lists of the same values are the same list: the client
      list is the sorted listing of the set of clients, whatever the order of
      the catalog rows. */
  lemma {:induction false} IncreasingIsDetermined(a: seq<string>, b: seq<string>)
    requires StrictlyIncreasing(a) && StrictlyIncreasing(b)
    requires forall x :: x in a <==> x in b
    ensures a == b
  {
    assert a != [] ==> a[0] in a;
    assert b != [] ==> b[0] in b;
    if a != [] && b != [] {
      if a[0] != b[0] {
        assert b[0] in a;
        assert a[0] in b;
        var i :| 0 <= i < |a| && a[i] == b[0];
        var j :| 0 <= j < |b| && b[j] == a[0];
        BelowTransitive(a[0], b[0], a[0]);
        BelowIrreflexive(a[0]);
        assert false;
      }
      forall x ensures x in a[1..] <==> x in b[1..] {
        BelowIrreflexive(x);
        if x in a[1..] {
          var i :| 1 <= i < |a| && a[i] == x;
          assert Below(a[0], x) && x in b;
          var j :| 0 <= j < |b| && b[j] == x;
          assert b[1..][j - 1] == x;
        }
        if x in b[1..] {
          var j :| 1 <= j < |b| && b[j] == x;
          assert Below(b[0], x) && x in a;
          var i :| 0 <= i < |a| && a[i] == x;
          assert a[1..][i - 1] == x;
        }
      }
      IncreasingIsDetermined(a[1..], b[1..]);
    }
  }

  /** Reordering the catalog does not change the client list. */
  lemma ClientListOrderIndependent(catalog: seq<CatalogRow>, other: seq<CatalogRow>)
    requires multiset(catalog) == multiset(other)
    ensures ClientList(catalog) == ClientList(other)
  {
    ClientListSpec(catalog);
    ClientListSpec(other);
    forall c ensures c in ClientList(catalog) <==> c in ClientList(other) {
      if c in ClientList(catalog) {
        var row :| row in catalog && row.client == Some(c);
        assert row in multiset(other);
      }
      if c in ClientList(other) {
        var row :| row in other && row.client == Some(c);
        assert row in multiset(catalog);
      }
    }
    IncreasingIsDetermined(ClientList(catalog), ClientList(other));
  }

  /** Why a selection from a sheet with no records fails: the frame built
      from no records has no columns. */
  datatype SheetError =
    | ListHasNoDropna   // lines 65 and 94: `.get("Cliente", [])` gave a plain list
    | NoColumn(header: string)   // line 96: `recetas_df["Cliente"]` raises KeyError

  datatype Result<T, E> = Success(value: T) | Failure(error: E)

  /** Lines 65 and 94 as written: a sheet with no records becomes a frame
      with no columns, `.get("Cliente", [])` then returns the plain list
      `[]`, and a list has no `dropna`. */
  function ClientListAsWritten(catalog: seq<CatalogRow>): Result<seq<string>, SheetError>
  {
    if catalog == [] then Failure(ListHasNoDropna) else Success(ClientList(catalog))
  }

  /** The empty catalog fails as written, where the warning of line 69 ("no
      clients available") was evidently meant; the corrected list is empty,
      which leads to that warning. */
  lemma EmptyCatalogHasNoClients()
    ensures ClientListAsWritten([]).Failure?
    ensures ClientList([]) == []
  {
  }

  /** A catalog whose rows all lack a client yields the same empty list
      without failing. The sheet never gives such rows (a blank cell is
      read as `""`, see `BlankClientListedFirst`); this covers frames with
      missing cells. */
  lemma NoClientsWithoutFailure(catalog: seq<CatalogRow>)
    requires catalog != [] && forall row :: row in catalog ==> row.client.None?
    ensures ClientListAsWritten(catalog) == Success([])
  {
    ClientListSpec(catalog);
    if ClientList(catalog) != [] {
      assert ClientList(catalog)[0] in ClientList(catalog);
    }
  }

  /** Line 24 reads a blank client cell as `""`, which `dropna` keeps: such a
      row puts `""` first in the client list, so it is the select box's
      default at lines 67 and 95. */
  lemma BlankClientListedFirst(catalog: seq<CatalogRow>)
    requires exists row :: row in catalog && row.client == Some("")
    ensures ClientList(catalog) != [] && ClientList(catalog)[0] == ""
  {
    ClientListSpec(catalog);
    var list := ClientList(catalog);
    assert "" in list;
    var i :| 0 <= i < |list| && list[i] == "";
    if i != 0 {
      assert Below(list[0], list[i]);
    }
  }

  // ----- the recipes of a client (lines 96-100) -----

  /** `recetas_df[recetas_df["Cliente"] == cliente]`; a missing selection
      (`None`, when there is no client to choose) matches no row. */
  function ClientRecipes(recipes: seq<RecipeRow>, client: Option<string>): seq<RecipeRow>
  {
    Filter(recipes, (r: RecipeRow) => client.Some? && r.client == client)
  }

  /** Line 96 as written: a "Recetas" sheet with no records (before the
      first recipe is saved) becomes a frame with no columns, and
      `recetas_df["Cliente"]` raises a KeyError. */
  function ClientRecipesAsWritten(recipes: seq<RecipeRow>, client: Option<string>): Result<seq<RecipeRow>, SheetError>
  {
    if recipes == [] then Failure(NoColumn("Cliente")) else Success(ClientRecipes(recipes, client))
  }

  /** Before the first recipe is saved, the analysis tab fails as written,
      where the warning of line 127 ("no records of that recipe") was
      evidently meant: as corrected, the client has no recipe names and no
      line is selected, which leads to that warning. */
  lemma EmptyRecipeSheetFails(client: Option<string>, recipe: Option<string>)
    ensures ClientRecipesAsWritten([], client) == Failure(NoColumn("Cliente"))
    ensures RecipeNames([], client) == [] && RecipeLines([], client, recipe) == []
  {
  }

  /** `.unique()`: the distinct values, in the order of their first occurrence. */
  function Distinct(s: seq<string>): seq<string>
  {
    if s == [] then []
    else if s[|s| - 1] in s[..|s| - 1] then Distinct(s[..|s| - 1])
    else Distinct(s[..|s| - 1]) + [s[|s| - 1]]
  }

  /** The present values of an optional column: `.dropna()`. */
  function PresentNames(s: seq<Option<string>>): seq<string>
  {
    if s == [] then []
    else match s[0] case None => PresentNames(s[1..]) case Some(x) => [x] + PresentNames(s[1..])
  }

  /** The position of the first occurrence of `x` in `s`. */
  function FirstIndex(s: seq<string>, x: string): (i: nat)
    requires x in s
    ensures i < |s| && s[i] == x && x !in s[..i]
  {
    if s[0] == x then 0 else 1 + FirstIndex(s[1..], x)
  }

  lemma FirstIndexPrefix(s: seq<string>, t: seq<string>, x: string)
    requires x in s
    ensures FirstIndex(s + t, x) == FirstIndex(s, x)
  {
    var i := FirstIndex(s, x);
    assert (s + t)[i] == x;
  }

  /** `.unique()` keeps one copy of each value, keeps nothing else, and keeps
      the values in the order of their first occurrence. */
  lemma {:induction false} DistinctSpec(s: seq<string>)
    ensures forall x :: x in Distinct(s) <==> x in s
    ensures forall i, j :: 0 <= i < j < |Distinct(s)| ==>
              Distinct(s)[i] != Distinct(s)[j] && FirstIndex(s, Distinct(s)[i]) < FirstIndex(s, Distinct(s)[j])
  {
    if s != [] {
      var p, x := s[..|s| - 1], s[|s| - 1];
      assert s == p + [x];
      DistinctSpec(p);
      var d := Distinct(s);
      forall y | y in p ensures FirstIndex(s, y) == FirstIndex(p, y) {
        FirstIndexPrefix(p, [x], y);
      }
      if x !in p {
        assert FirstIndex(s, x) == |p|;
        forall i, j | 0 <= i < j < |d| ensures d[i] != d[j] && FirstIndex(s, d[i]) < FirstIndex(s, d[j]) {
          assert d[i] in Distinct(p);
          if j < |d| - 1 {
            assert d[j] in Distinct(p);
          }
        }
      }
    }
  }

  /** Line 97: the recipe names of a client, as the selectbox lists them. */
  function RecipeNames(recipes: seq<RecipeRow>, client: Option<string>): seq<string>
  {
    var rows := ClientRecipes(recipes, client);
    Distinct(PresentNames(seq(|rows|, i requires 0 <= i < |rows| => rows[i].recipe)))
  }

  lemma {:induction false} PresentMembers(s: seq<Option<string>>, x: string)
    ensures x in PresentNames(s) <==> Some(x) in s
  {
    if s != [] {
      PresentMembers(s[1..], x);
      assert s == [s[0]] + s[1..];
    }
  }

  /** Line 97: each recipe name is listed once, and a name is listed exactly
      when some line of that client carries it. */
  lemma RecipeNamesSpec(recipes: seq<RecipeRow>, client: Option<string>)
    ensures forall i, j :: 0 <= i < j < |RecipeNames(recipes, client)| ==>
              RecipeNames(recipes, client)[i] != RecipeNames(recipes, client)[j]
    ensures forall name :: name in RecipeNames(recipes, client) <==>
              exists r :: r in recipes && client.Some? && r.client == client && r.recipe == Some(name)
  {
    var keep := (r: RecipeRow) => client.Some? && r.client == client;
    var rows := ClientRecipes(recipes, client);
    var names := seq(|rows|, i requires 0 <= i < |rows| => rows[i].recipe);
    DistinctSpec(PresentNames(names));
    forall name ensures name in RecipeNames(recipes, client) <==>
                        exists r :: r in recipes && client.Some? && r.client == client && r.recipe == Some(name)
    {
      PresentMembers(names, name);
      if Some(name) in names {
        var i :| 0 <= i < |rows| && names[i] == Some(name);
        FilterMembers(recipes, keep, rows[i]);
      }
      if exists r :: r in recipes && client.Some? && r.client == client && r.recipe == Some(name) {
        var r :| r in recipes && client.Some? && r.client == client && r.recipe == Some(name);
        FilterMembers(recipes, keep, r);
        var i :| 0 <= i < |rows| && rows[i] == r;
        assert names[i] == Some(name);
      }
    }
  }

  /** Line 100: `recetas_cliente[recetas_cliente["Receta"] == receta_sel]`;
      a missing selection (`None`, when the client has no recipe) matches no row. */
  function RecipeLines(recipes: seq<RecipeRow>, client: Option<string>, recipe: Option<string>): seq<RecipeRow>
  {
    Filter(ClientRecipes(recipes, client), (r: RecipeRow) => recipe.Some? && r.recipe == recipe)
  }

  /** Lines 96-100: the analysed lines are the lines of that client and that
      recipe, each as often as in the sheet. */
  lemma RecipeLinesSpec(recipes: seq<RecipeRow>, client: Option<string>, recipe: Option<string>, x: RecipeRow)
    ensures multiset(RecipeLines(recipes, client, recipe))[x]
            == if client.Some? && x.client == client && recipe.Some? && x.recipe == recipe
               then multiset(recipes)[x] else 0
  {
    var keep := (r: RecipeRow) => client.Some? && r.client == client;
    FilterCounts(ClientRecipes(recipes, client), (r: RecipeRow) => recipe.Some? && r.recipe == recipe, x);
    FilterCounts(recipes, keep, x);
  }

  /** A listed recipe name always selects some lines, so with the correction
      of `ClientRecipesAsWritten` the warning of line 127 appears only when
      there is no recipe to select. */
  lemma ListedRecipeHasLines(recipes: seq<RecipeRow>, client: Option<string>, name: string)
    requires name in RecipeNames(recipes, client)
    ensures RecipeLines(recipes, client, Some(name)) != []
  {
    RecipeNamesSpec(recipes, client);
    var r :| r in recipes && client.Some? && r.client == client && r.recipe == Some(name);
    RecipeLinesSpec(recipes, client, Some(name), r);
  }

  /** Lines appended after the sheet's rows are selected after its lines. */
  lemma RecipeLinesAppend(recipes: seq<RecipeRow>, added: seq<RecipeRow>, client: Option<string>, recipe: Option<string>)
    ensures RecipeLines(recipes + added, client, recipe)
            == RecipeLines(recipes, client, recipe) + RecipeLines(added, client, recipe)
  {
    var keep := (r: RecipeRow) => client.Some? && r.client == client;
    var pick := (r: RecipeRow) => recipe.Some? && r.recipe == recipe;
    FilterAppend(recipes, added, keep);
    FilterAppend(Filter(recipes, keep), Filter(added, keep), pick);
  }

  // ----- what the recipe form offers (lines 72 and 76) -----

  /** `ingredientes_df[ingredientes_df["Cliente"] == cliente_sel]`. */
  function ClientCatalog(catalog: seq<CatalogRow>, client: string): seq<CatalogRow>
  {
    Filter(catalog, (c: CatalogRow) => c.client == Some(client))
  }

  /** Line 76: the ingredient names the multiselect offers, in catalog order,
      a name as often as the client's rows carry it. */
  function OfferedNames(catalog: seq<CatalogRow>, client: string): seq<string>
  {
    var rows := ClientCatalog(catalog, client);
    seq(|rows|, i requires 0 <= i < |rows| => rows[i].name)
  }

  /** Line 85: the first catalog row of the client with that name, or none
      when there is none (where `.iloc[0]` would fail). */
  function FirstOffered(catalog: seq<CatalogRow>, client: string, name: string): (r: Option<CatalogRow>)
    ensures r.Some? ==> r.value in catalog && r.value.client == Some(client) && r.value.name == name
  {
    if catalog == [] then None
    else if catalog[0].client == Some(client) && catalog[0].name == name then Some(catalog[0])
    else FirstOffered(catalog[1..], client, name)
  }

  /** Line 85: a name the form offers always has a first row, and that row
      is the client's first row with the name in catalog order. */
  lemma {:induction false} FirstOfferedSpec(catalog: seq<CatalogRow>, client: string, name: string)
    ensures FirstOffered(catalog, client, name).Some? <==> name in OfferedNames(catalog, client)
    ensures FirstOffered(catalog, client, name).Some? ==>
              exists i :: 0 <= i < |catalog| && catalog[i] == FirstOffered(catalog, client, name).value
                && forall j :: 0 <= j < i ==> !(catalog[j].client == Some(client) && catalog[j].name == name)
  {
    var keep := (c: CatalogRow) => c.client == Some(client);
    if catalog != [] {
      FirstOfferedSpec(catalog[1..], client, name);
      assert catalog == [catalog[0]] + catalog[1..];
      var rows, tail := ClientCatalog(catalog, client), ClientCatalog(catalog[1..], client);
      if keep(catalog[0]) {
        assert rows == [catalog[0]] + tail;
        assert OfferedNames(catalog, client) == [catalog[0].name] + OfferedNames(catalog[1..], client);
      } else {
        assert rows == tail;
      }
      if FirstOffered(catalog, client, name).Some? && !(catalog[0].client == Some(client) && catalog[0].name == name) {
        var i :| 0 <= i < |catalog[1..]| && catalog[1..][i] == FirstOffered(catalog, client, name).value
                 && forall j :: 0 <= j < i ==> !(catalog[1..][j].client == Some(client) && catalog[1..][j].name == name);
        assert catalog[i + 1] == FirstOffered(catalog, client, name).value;
        forall j | 0 <= j < i + 1 ensures !(catalog[j].client == Some(client) && catalog[j].name == name) {
          if j > 0 { assert catalog[j] == catalog[1..][j - 1]; }
        }
      }
    }
  }
}
