/** Typed rows of the two worksheets the application reads: the ingredient
    catalog ("Ingredientes") and the saved recipe lines ("Recetas").
    The sheets read a blank cell as the empty string, so a blank client or
    recipe cell is `Some("")`; `None` is a missing cell, which the sheets
    never produce but a selection compares against. */
module Records {

  datatype Option<T> = None | Some(value: T)

  /** The eight nutrient columns of the catalog. */
  datatype Nutrient = Energy | Protein | Fat | Saturated | Carbohydrate | Sugar | Fibre | Salt

  /** The nutrient columns in the order the analysis walks them. */
  const Nutrients: seq<Nutrient> := [Energy, Protein, Fat, Saturated, Carbohydrate, Sugar, Fibre, Salt]

  /** The header of each nutrient column in the sheets. */
  function Header(n: Nutrient): string
  {
    match n
    case Energy => "Energía"
    case Protein => "Proteínas"
    case Fat => "Grasas"
    case Saturated => "Saturadas"
    case Carbohydrate => "Hidratos"
    case Sugar => "Azúcares"
    case Fibre => "Fibra"
    case Salt => "Sal"
  }

  /** Every nutrient is listed, and listed once. */
  lemma NutrientsListedOnce()
    ensures forall n: Nutrient :: n in Nutrients
    ensures forall i, j :: 0 <= i < j < |Nutrients| ==> Nutrients[i] != Nutrients[j]
  {
    forall n: Nutrient ensures n in Nutrients {
      match n
      case Energy => assert Nutrients[0] == n;
      case Protein => assert Nutrients[1] == n;
      case Fat => assert Nutrients[2] == n;
      case Saturated => assert Nutrients[3] == n;
      case Carbohydrate => assert Nutrients[4] == n;
      case Sugar => assert Nutrients[5] == n;
      case Fibre => assert Nutrients[6] == n;
      case Salt => assert Nutrients[7] == n;
    }
  }

  /** One value per nutrient: kcal for energy, grams for the others. */
  datatype Profile = Profile(energy: real, protein: real, fat: real, saturated: real,
                             carbohydrate: real, sugar: real, fibre: real, salt: real)
  {
    function Get(n: Nutrient): real
    {
      match n
      case Energy => energy
      case Protein => protein
      case Fat => fat
      case Saturated => saturated
      case Carbohydrate => carbohydrate
      case Sugar => sugar
      case Fibre => fibre
      case Salt => salt
    }
  }

  /** A row of the ingredient catalog: the key (name, supplier), the client
      it was entered for, free-text fields and the values per 100 g. */
  datatype CatalogRow = CatalogRow(client: Option<string>, name: string, supplier: string,
                                   reference: string, composition: string, allergens: string,
                                   per100g: Profile)

  /** A saved recipe line: grams of one ingredient from one supplier. */
  datatype RecipeRow = RecipeRow(client: Option<string>, recipe: Option<string>,
                                 ingredient: string, supplier: string, quantity: real)

  /** The rows of `s` for which `keep` holds, in their order: the selection
      of a table's rows by a boolean mask. */
  function Filter<T>(s: seq<T>, keep: T -> bool): seq<T>
  {
    if s == [] then [] else (if keep(s[0]) then [s[0]] else []) + Filter(s[1..], keep)
  }

  /** The selection keeps every occurrence of a kept row and nothing else. */
  lemma {:induction false} FilterCounts<T>(s: seq<T>, keep: T -> bool, x: T)
    ensures multiset(Filter(s, keep))[x] == if keep(x) then multiset(s)[x] else 0
  {
    if s != [] {
      assert s == [s[0]] + s[1..];
      FilterCounts(s[1..], keep, x);
    }
  }

  lemma FilterMembers<T>(s: seq<T>, keep: T -> bool, x: T)
    ensures x in Filter(s, keep) <==> x in s && keep(x)
  {
    FilterCounts(s, keep, x);
  }

  lemma {:induction false} FilterAppend<T>(a: seq<T>, b: seq<T>, keep: T -> bool)
    ensures Filter(a + b, keep) == Filter(a, keep) + Filter(b, keep)
  {
    if a != [] {
      var ab := a + b;
      assert ab[0] == a[0] && ab[1..] == a[1..] + b;
      FilterAppend(a[1..], b, keep);
      calc {
        Filter(ab, keep);
        (if keep(a[0]) then [a[0]] else []) + Filter(a[1..] + b, keep);
        (if keep(a[0]) then [a[0]] else []) + (Filter(a[1..], keep) + Filter(b, keep));
        Filter(a, keep) + Filter(b, keep);
      }
    } else {
      assert a + b == b;
    }
  }
}
