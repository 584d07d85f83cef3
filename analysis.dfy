/** The analysis of one saved recipe: the left join of its lines with the
    ingredient catalog, the in-place scaling of the nutrient columns by the
    quantities, the totals, the table per 100 g and the table of mass shares. */
module Analysis {
  import opened Records

  /** A row of the joined table: a recipe line and, when a catalog row has its
      (ingredient, supplier) key, that row's values per 100 g. */
  datatype MergedRow = MergedRow(ingredient: string, supplier: string, quantity: real,
                                 per100g: Option<Profile>)

  /** The catalog rows with key (name, supplier) = (ingredient, supplier), in
      catalog order: the right-hand rows the left merge pairs with a line. */
  function CatalogMatches(catalog: seq<CatalogRow>, ingredient: string, supplier: string): seq<CatalogRow>
  {
    Filter(catalog, (c: CatalogRow) => c.name == ingredient && c.supplier == supplier)
  }

  lemma MatchesMembers(catalog: seq<CatalogRow>, ingredient: string, supplier: string, c: CatalogRow)
    ensures c in CatalogMatches(catalog, ingredient, supplier)
        <==> c in catalog && c.name == ingredient && c.supplier == supplier
  {
    FilterMembers(catalog, (c: CatalogRow) => c.name == ingredient && c.supplier == supplier, c);
  }

  /** Every catalog row with the key is matched as often as the catalog holds
      it, and no other row is matched. */
  lemma MatchesCounts(catalog: seq<CatalogRow>, ingredient: string, supplier: string, c: CatalogRow)
    ensures multiset(CatalogMatches(catalog, ingredient, supplier))[c]
            == if c.name == ingredient && c.supplier == supplier then multiset(catalog)[c] else 0
  {
    FilterCounts(catalog, (c: CatalogRow) => c.name == ingredient && c.supplier == supplier, c);
  }

  /** How many rows of the joined table one recipe line becomes. */
  function Copies(line: RecipeRow, catalog: seq<CatalogRow>): nat
  {
    var k := |CatalogMatches(catalog, line.ingredient, line.supplier)|;
    if k == 0 then 1 else k
  }

  /** `r` is a joined row of `line`: it carries the line's key and quantity,
      and either the values of a catalog row with that key or, when there is
      no such row, nothing. */
  ghost predicate FromLine(r: MergedRow, line: RecipeRow, catalog: seq<CatalogRow>)
  {
    && r.ingredient == line.ingredient && r.supplier == line.supplier
    && r.quantity == line.quantity
    && match r.per100g
       case Some(p) =>
         exists c :: c in catalog && c.name == line.ingredient && c.supplier == line.supplier && c.per100g == p
       case None =>
         forall c :: c in catalog ==> !(c.name == line.ingredient && c.supplier == line.supplier)
  }

  /** The joined rows of one line: one per catalog row with its key, in
      catalog order, or a single row without values. */
  function JoinLine(line: RecipeRow, catalog: seq<CatalogRow>): seq<MergedRow>
  {
    var found := CatalogMatches(catalog, line.ingredient, line.supplier);
    if found == [] then [MergedRow(line.ingredient, line.supplier, line.quantity, None)]
    else
      seq(|found|, j requires 0 <= j < |found| =>
        MergedRow(line.ingredient, line.supplier, line.quantity, Some(found[j].per100g)))
  }

  /** A line becomes `Copies` joined rows, each carrying the line's key and
      quantity and the values of a catalog row with that key, or no values
      when the catalog has no such row; the j-th joined row carries the values
      of the j-th matching catalog row, so every match appears, as often as
      `MatchesCounts` says. */
  lemma JoinLineRows(line: RecipeRow, catalog: seq<CatalogRow>)
    ensures |JoinLine(line, catalog)| == Copies(line, catalog)
    ensures forall r :: r in JoinLine(line, catalog) ==> FromLine(r, line, catalog)
    ensures var found := CatalogMatches(catalog, line.ingredient, line.supplier);
            forall j :: 0 <= j < |found| ==> JoinLine(line, catalog)[j].per100g == Some(found[j].per100g)
  {
    var found := CatalogMatches(catalog, line.ingredient, line.supplier);
    var m := JoinLine(line, catalog);
    if found == [] {
      forall c | c in catalog ensures !(c.name == line.ingredient && c.supplier == line.supplier) {
        MatchesMembers(catalog, line.ingredient, line.supplier, c);
      }
    } else {
      forall r | r in m ensures FromLine(r, line, catalog) {
        var j :| 0 <= j < |m| && m[j] == r;
        MatchesMembers(catalog, line.ingredient, line.supplier, found[j]);
      }
    }
  }

  /** `receta_df.merge(ingredientes_df, left_on=[Ingrediente, Proveedor],
      right_on=[Nombre, Proveedor], how="left")`: the joined rows of each
      line, in line order. */
  function Join(lines: seq<RecipeRow>, catalog: seq<CatalogRow>): seq<MergedRow>
  {
    if lines == [] then [] else JoinLine(lines[0], catalog) + Join(lines[1..], catalog)
  }

  /** Every row of the joined table comes from a recipe line. */
  lemma {:induction false} JoinRowFrom(lines: seq<RecipeRow>, catalog: seq<CatalogRow>, r: MergedRow)
    requires r in Join(lines, catalog)
    ensures exists line :: line in lines && FromLine(r, line, catalog)
  {
    JoinLineRows(lines[0], catalog);
    if r in JoinLine(lines[0], catalog) {
      assert lines[0] in lines;
    } else {
      JoinRowFrom(lines[1..], catalog, r);
      var line :| line in lines[1..] && FromLine(r, line, catalog);
      assert line in lines;
    }
  }

  lemma {:induction false} JoinAppend(a: seq<RecipeRow>, b: seq<RecipeRow>, catalog: seq<CatalogRow>)
    ensures Join(a + b, catalog) == Join(a, catalog) + Join(b, catalog)
  {
    if a == [] {
      assert a + b == b;
    } else {
      assert (a + b)[0] == a[0] && (a + b)[1..] == a[1..] + b;
      JoinAppend(a[1..], b, catalog);
    }
  }

  // ----- sums over the joined table -----

  /** `receta_merge["Cantidad"].sum()`: the total weight of the joined table. */
  function Weight(rows: seq<MergedRow>): real
  {
    if rows == [] then 0.0 else rows[0].quantity + Weight(rows[1..])
  }

  /** What a joined row adds to the total of nutrient `n`: its value per 100 g
      times its quantity over 100, and nothing when it has no values. */
  function Contribution(r: MergedRow, n: Nutrient): real
  {
    match r.per100g
    case None => 0.0
    case Some(p) => p.Get(n) * r.quantity / 100.0
  }

  /** The total of nutrient `n` over the joined table. */
  function NutrientTotal(rows: seq<MergedRow>, n: Nutrient): real
  {
    if rows == [] then 0.0 else Contribution(rows[0], n) + NutrientTotal(rows[1..], n)
  }

  /** `suma_total`: the eight nutrient totals. */
  function Totals(rows: seq<MergedRow>): (t: Profile)
    ensures forall n :: t.Get(n) == NutrientTotal(rows, n)
  {
    Profile(NutrientTotal(rows, Energy), NutrientTotal(rows, Protein), NutrientTotal(rows, Fat),
            NutrientTotal(rows, Saturated), NutrientTotal(rows, Carbohydrate), NutrientTotal(rows, Sugar),
            NutrientTotal(rows, Fibre), NutrientTotal(rows, Salt))
  }

  lemma {:induction false} WeightAppend(a: seq<MergedRow>, b: seq<MergedRow>)
    ensures Weight(a + b) == Weight(a) + Weight(b)
  {
    if a == [] {
      assert a + b == b;
    } else {
      assert (a + b)[0] == a[0] && (a + b)[1..] == a[1..] + b;
      WeightAppend(a[1..], b);
    }
  }

  lemma {:induction false} NutrientTotalAppend(a: seq<MergedRow>, b: seq<MergedRow>, n: Nutrient)
    ensures NutrientTotal(a + b, n) == NutrientTotal(a, n) + NutrientTotal(b, n)
  {
    if a == [] {
      assert a + b == b;
    } else {
      assert (a + b)[0] == a[0] && (a + b)[1..] == a[1..] + b;
      NutrientTotalAppend(a[1..], b, n);
    }
  }

  // ----- the two result tables -----

  /** The nutrient table, or the warning that the recipe has no quantities. */
  datatype Nutrition = Per100g(values: Profile) | NoQuantitiesWarning

  /** Lines 115-120: the totals per 100 g of recipe, when the weight is positive. */
  function Normalise(totals: Profile, weight: real): (r: Nutrition)
    ensures r.Per100g? <==> weight > 0.0
  {
    if weight > 0.0 then
      Per100g(Profile(PerHundred(totals.energy, weight), PerHundred(totals.protein, weight),
                      PerHundred(totals.fat, weight), PerHundred(totals.saturated, weight),
                      PerHundred(totals.carbohydrate, weight), PerHundred(totals.sugar, weight),
                      PerHundred(totals.fibre, weight), PerHundred(totals.salt, weight)))
    else NoQuantitiesWarning
  }

  /** `total / weight * 100`: an amount in `weight` grams re-expressed for 100 g. */
  function PerHundred(total: real, weight: real): real
    requires weight > 0.0
  {
    total / weight * 100.0
  }

  /** The amount per 100 g, times the weight, is 100 times the amount. */
  lemma PerHundredScales(total: real, weight: real)
    requires weight > 0.0
    ensures PerHundred(total, weight) * weight == total * 100.0
  {
  }

  /** Each value of the table per 100 g, times the weight, is 100 times the
      nutrient's total: the totals re-expressed for 100 g of recipe. */
  lemma NormaliseScales(totals: Profile, weight: real, n: Nutrient)
    requires weight > 0.0
    ensures Normalise(totals, weight).values.Get(n) == PerHundred(totals.Get(n), weight)
    ensures Normalise(totals, weight).values.Get(n) * weight == totals.Get(n) * 100.0
  {
    PerHundredScales(totals.Get(n), weight);
  }

  /** A row of the percentage table. */
  datatype ShareRow = ShareRow(ingredient: string, quantity: real, percent: real)

  /** Lines 123-124: each line's quantity as a percentage of `weight`, which
      the source divides by without a guard; it is undefined at zero. */
  function Shares(lines: seq<RecipeRow>, weight: real): seq<ShareRow>
    requires weight != 0.0
  {
    seq(|lines|, i requires 0 <= i < |lines| =>
      ShareRow(lines[i].ingredient, lines[i].quantity, lines[i].quantity / weight * 100.0))
  }

  /** The percentage table has one row per line, in line order, with the
      line's ingredient and quantity and a percentage that, times the weight,
      is 100 times the quantity. */
  lemma ShareEntries(lines: seq<RecipeRow>, weight: real)
    requires weight != 0.0
    ensures |Shares(lines, weight)| == |lines|
    ensures forall i :: 0 <= i < |lines| ==>
              && Shares(lines, weight)[i].ingredient == lines[i].ingredient
              && Shares(lines, weight)[i].quantity == lines[i].quantity
              && Shares(lines, weight)[i].percent * weight == lines[i].quantity * 100.0
  {
  }

  /** The total weight of the recipe's own lines. */
  function RecipeWeight(lines: seq<RecipeRow>): real
  {
    if lines == [] then 0.0 else lines[0].quantity + RecipeWeight(lines[1..])
  }

  /** The sum of a percentage column. */
  function PercentSum(rows: seq<ShareRow>): real
  {
    if rows == [] then 0.0 else rows[0].percent + PercentSum(rows[1..])
  }

  /** What the analysis tab shows for the selected recipe lines. */
  datatype Report =
    | NoRecordsWarning
    | Analysed(nutrition: Nutrition, shares: Option<seq<ShareRow>>)

  /** Lines 112-120: the table per 100 g of the joined table, or the warning. */
  function NutritionOf(lines: seq<RecipeRow>, catalog: seq<CatalogRow>): Nutrition
  {
    var rows := Join(lines, catalog);
    Normalise(Totals(rows), Weight(rows))
  }

  /** Lines 123-124: the percentages divide the recipe's own quantities by the
      weight of the JOINED table; they are undefined when that weight is zero. */
  function SharesOf(lines: seq<RecipeRow>, catalog: seq<CatalogRow>): Option<seq<ShareRow>>
  {
    var weight := Weight(Join(lines, catalog));
    if weight != 0.0 then Some(Shares(lines, weight)) else None
  }

  /** Lines 102-127: no lines gives the "no records" warning; otherwise the
      nutrient table (or its warning) and the percentage table. */
  function ReportOf(lines: seq<RecipeRow>, catalog: seq<CatalogRow>): Report
  {
    if lines == [] then NoRecordsWarning
    else Analysed(NutritionOf(lines, catalog), SharesOf(lines, catalog))
  }

  // ----- the joined table as the source holds it: one column per header -----

  /** The "Cantidad" column of a joined table. */
  function QuantityColumn(rows: seq<MergedRow>): seq<real>
  {
    seq(|rows|, i requires 0 <= i < |rows| => rows[i].quantity)
  }

  /** The column of nutrient `n` of a joined table, missing where the line had no match. */
  function NutrientColumn(rows: seq<MergedRow>, n: Nutrient): seq<Option<real>>
  {
    seq(|rows|, i requires 0 <= i < |rows| => ValueOf(rows[i], n))
  }

  /** The value of nutrient `n` in one joined row, missing when it has none. */
  function ValueOf(r: MergedRow, n: Nutrient): Option<real>
  {
    match r.per100g
    case None => None
    case Some(p) => Some(p.Get(n))
  }

  /** `column * Cantidad / 100`, element by element; missing stays missing. */
  function ScaledColumn(column: seq<Option<real>>, quantities: seq<real>): seq<Option<real>>
    requires |column| == |quantities|
  {
    seq(|column|, i requires 0 <= i < |column| => Scale(column[i], quantities[i]))
  }

  /** One entry of a scaled column. */
  function Scale(value: Option<real>, quantity: real): Option<real>
  {
    match value
    case None => None
    case Some(v) => Some(v * quantity / 100.0)
  }

  /** `Series.sum()` on a number column. */
  function Sum(xs: seq<real>): real
  {
    if xs == [] then 0.0 else xs[0] + Sum(xs[1..])
  }

  /** What one entry adds to `Series.sum()`: nothing when it is missing. */
  function Present(value: Option<real>): real
  {
    match value
    case None => 0.0
    case Some(v) => v
  }

  /** `Series.sum()` on a column with missing values: they are skipped. */
  function PresentSum(column: seq<Option<real>>): real
  {
    if column == [] then 0.0 else Present(column[0]) + PresentSum(column[1..])
  }

  /** `receta_merge`: the joined table whose nutrient columns the analysis
      overwrites in place. */
  class MergedFrame {
    var quantities: seq<real>
    var columns: map<Nutrient, seq<Option<real>>>

    ghost predicate Valid()
      reads this
    {
      forall n: Nutrient :: n in columns && |columns[n]| == |quantities|
    }

    constructor (rows: seq<MergedRow>)
      ensures Valid()
      ensures quantities == QuantityColumn(rows)
      ensures forall n: Nutrient :: columns[n] == NutrientColumn(rows, n)
    {
      NutrientsListedOnce();
      quantities := QuantityColumn(rows);
      columns := map n: Nutrient | n in Nutrients :: NutrientColumn(rows, n);
    }

    /** Lines 110-111: each nutrient column, one after the other, becomes
        itself times the quantity over 100; the quantities stay as they are. */
    method ScaleNutrients()
      requires Valid()
      modifies this`columns
      ensures Valid()
      ensures forall n: Nutrient :: columns[n] == ScaledColumn(old(columns[n]), quantities)
    {
      NutrientsListedOnce();
      for k := 0 to |Nutrients|
        invariant Valid()
        invariant forall j :: 0 <= j < k ==>
                    columns[Nutrients[j]] == ScaledColumn(old(columns[Nutrients[j]]), quantities)
        invariant forall j :: k <= j < |Nutrients| ==> columns[Nutrients[j]] == old(columns[Nutrients[j]])
      {
        var n := Nutrients[k];
        columns := columns[n := ScaledColumn(columns[n], quantities)];
      }
      forall n: Nutrient ensures columns[n] == ScaledColumn(old(columns[n]), quantities) {
        assert n in Nutrients;
        var j :| 0 <= j < |Nutrients| && Nutrients[j] == n;
      }
    }
  }

  /** Entry `i` of a scaled nutrient column is row `i`'s value scaled by its quantity. */
  lemma ScaledColumnAt(rows: seq<MergedRow>, n: Nutrient, i: nat)
    requires i < |rows|
    ensures ScaledColumn(NutrientColumn(rows, n), QuantityColumn(rows))[i] == Scale(ValueOf(rows[i], n), rows[i].quantity)
  {
  }

  /** Dropping the first row drops the first entry of every column. */
  lemma ColumnsTail(rows: seq<MergedRow>, n: Nutrient)
    requires rows != []
    ensures ScaledColumn(NutrientColumn(rows, n), QuantityColumn(rows))[1..]
            == ScaledColumn(NutrientColumn(rows[1..], n), QuantityColumn(rows[1..]))
  {
    var l, r := ScaledColumn(NutrientColumn(rows, n), QuantityColumn(rows))[1..],
                ScaledColumn(NutrientColumn(rows[1..], n), QuantityColumn(rows[1..]));
    forall i | 0 <= i < |r| ensures l[i] == r[i] {
      ScaledColumnAt(rows, n, i + 1);
      ScaledColumnAt(rows[1..], n, i);
      assert rows[1..][i] == rows[i + 1];
    }
  }

  /** What a scaled entry adds to its column's sum is the row's contribution. */
  lemma PresentScaled(r: MergedRow, n: Nutrient)
    ensures Present(Scale(ValueOf(r, n), r.quantity)) == Contribution(r, n)
  {
  }

  /** The sum of a scaled nutrient column is the nutrient total of the rows. */
  lemma {:induction false} ScaledColumnSum(rows: seq<MergedRow>, n: Nutrient)
    ensures PresentSum(ScaledColumn(NutrientColumn(rows, n), QuantityColumn(rows))) == NutrientTotal(rows, n)
  {
    if rows != [] {
      ScaledColumnAt(rows, n, 0);
      ColumnsTail(rows, n);
      PresentScaled(rows[0], n);
      ScaledColumnSum(rows[1..], n);
    }
  }

  /** Summing each scaled column of the frame gives the totals of the rows. */
  lemma ScaledFrameTotals(rows: seq<MergedRow>, c: map<Nutrient, seq<Option<real>>>)
    requires forall n: Nutrient :: n in c && c[n] == ScaledColumn(NutrientColumn(rows, n), QuantityColumn(rows))
    ensures Profile(PresentSum(c[Energy]), PresentSum(c[Protein]), PresentSum(c[Fat]),
                    PresentSum(c[Saturated]), PresentSum(c[Carbohydrate]),
                    PresentSum(c[Sugar]), PresentSum(c[Fibre]), PresentSum(c[Salt])) == Totals(rows)
  {
    var t := Totals(rows);
    forall n: Nutrient ensures PresentSum(c[n]) == t.Get(n) {
      ScaledColumnSum(rows, n);
    }
    assert PresentSum(c[Energy]) == t.Get(Energy) && PresentSum(c[Protein]) == t.Get(Protein);
    assert PresentSum(c[Fat]) == t.Get(Fat) && PresentSum(c[Saturated]) == t.Get(Saturated);
    assert PresentSum(c[Carbohydrate]) == t.Get(Carbohydrate) && PresentSum(c[Sugar]) == t.Get(Sugar);
    assert PresentSum(c[Fibre]) == t.Get(Fibre) && PresentSum(c[Salt]) == t.Get(Salt);
  }

  /** The sum of the quantity column is the weight of the rows. */
  lemma {:induction false} QuantityColumnSum(rows: seq<MergedRow>)
    ensures Sum(QuantityColumn(rows)) == Weight(rows)
  {
    if rows != [] {
      assert QuantityColumn(rows)[1..] == QuantityColumn(rows[1..]);
      QuantityColumnSum(rows[1..]);
    }
  }

  /** Lines 102-125: join, scale the nutrient columns in place, sum, and build
      the two tables. */
  method AnalyseRecipe(lines: seq<RecipeRow>, catalog: seq<CatalogRow>) returns (report: Report)
    ensures report == ReportOf(lines, catalog)
  {
    if lines == [] {
      return NoRecordsWarning;
    }
    var rows := Join(lines, catalog);
    var frame := new MergedFrame(rows);
    frame.ScaleNutrients();
    var c := frame.columns;
    var totals := Profile(PresentSum(c[Energy]), PresentSum(c[Protein]), PresentSum(c[Fat]),
                          PresentSum(c[Saturated]), PresentSum(c[Carbohydrate]),
                          PresentSum(c[Sugar]), PresentSum(c[Fibre]), PresentSum(c[Salt]));
    ScaledFrameTotals(rows, c);
    var weight := Sum(frame.quantities);
    QuantityColumnSum(rows);
    var shares := if weight != 0.0 then Some(Shares(lines, weight)) else None;
    report := Analysed(Normalise(totals, weight), shares);
  }
}
