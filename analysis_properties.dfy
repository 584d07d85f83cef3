/** What the analysis of a recipe promises: where each scaled value comes
    from, how the weight and the totals relate to the recipe lines, when the
    percentages add up to 100, and why the table per 100 g is a weighted
    average of the ingredients. */
module AnalysisProperties {
  import opened Records
  import opened Analysis

  /** No two catalog rows share a (name, supplier) key. */
  predicate KeysUnique(catalog: seq<CatalogRow>)
  {
    forall i, j :: 0 <= i < j < |catalog| ==>
      catalog[i].name != catalog[j].name || catalog[i].supplier != catalog[j].supplier
  }

  /** Every recipe line has at least one catalog row with its key. */
  predicate AllMatched(lines: seq<RecipeRow>, catalog: seq<CatalogRow>)
  {
    forall line :: line in lines ==> CatalogMatches(catalog, line.ingredient, line.supplier) != []
  }

  lemma MulMonotone(a: real, b: real, q: real)
    requires a <= b && q >= 0.0
    ensures a * q <= b * q
  {
    assert b * q - a * q == (b - a) * q;
  }

  lemma MulStrict(a: real, b: real, q: real)
    requires a < b && q > 0.0
    ensures a * q < b * q
  {
    assert b * q - a * q == (b - a) * q;
  }

  lemma Cancel(a: real, b: real, w: real)
    requires w != 0.0 && a * w == b * w
    ensures a == b
  {
    assert (a - b) * w == 0.0;
  }

  // ----- the scaled values -----

  /** After the in-place scaling, entry `i` of nutrient column `n` comes from
      one recipe line: it is a catalog value of that line's key times the
      line's quantity over 100, and it is missing exactly when no catalog row
      has that line's key. */
  lemma {:induction false} ScaledEntry(lines: seq<RecipeRow>, catalog: seq<CatalogRow>, n: Nutrient, i: nat)
    requires i < |Join(lines, catalog)|
    ensures var rows := Join(lines, catalog);
            var e := ScaledColumn(NutrientColumn(rows, n), QuantityColumn(rows))[i];
            exists line :: line in lines && FromLine(rows[i], line, catalog)
              && (e.Some? ==> exists c :: c in catalog && c.name == line.ingredient && c.supplier == line.supplier
                                && e.value == c.per100g.Get(n) * line.quantity / 100.0)
              && (e.None? <==> forall c :: c in catalog ==> !(c.name == line.ingredient && c.supplier == line.supplier))
  {
    var rows := Join(lines, catalog);
    ScaledColumnAt(rows, n, i);
    JoinRowFrom(lines, catalog, rows[i]);
    var line :| line in lines && FromLine(rows[i], line, catalog);
    EntryFromLine(rows[i], line, catalog, n);
  }

  /** The scaled value of a joined row of `line`. */
  lemma EntryFromLine(r: MergedRow, line: RecipeRow, catalog: seq<CatalogRow>, n: Nutrient)
    requires FromLine(r, line, catalog)
    ensures var e := Scale(ValueOf(r, n), r.quantity);
            && (e.Some? ==> exists c :: c in catalog && c.name == line.ingredient && c.supplier == line.supplier
                                        && e.value == c.per100g.Get(n) * line.quantity / 100.0)
            && (e.None? <==> forall c :: c in catalog ==> !(c.name == line.ingredient && c.supplier == line.supplier))
  {
    match r.per100g
    case Some(p) =>
      var c :| c in catalog && c.name == line.ingredient && c.supplier == line.supplier && c.per100g == p;
      assert Scale(ValueOf(r, n), r.quantity).value == c.per100g.Get(n) * line.quantity / 100.0;
    case None =>
  }

  // ----- weight and totals -----

  lemma {:induction false} WeightOfCopies(rows: seq<MergedRow>, q: real)
    requires forall r :: r in rows ==> r.quantity == q
    ensures Weight(rows) == q * (|rows| as real)
  {
    if rows != [] {
      assert rows[0] in rows;
      WeightOfCopies(rows[1..], q);
    }
  }

  /** A line weighs its quantity once per joined row it becomes: once per
      catalog row with its key, and once when there is none. */
  lemma {:induction false} JoinLineWeight(line: RecipeRow, catalog: seq<CatalogRow>)
    ensures Weight(JoinLine(line, catalog)) == line.quantity * (Copies(line, catalog) as real)
  {
    JoinLineRows(line, catalog);
    WeightOfCopies(JoinLine(line, catalog), line.quantity);
  }

  /** With unique keys a line has at most one catalog row. */
  lemma {:induction false} AtMostOneMatch(catalog: seq<CatalogRow>, ingredient: string, supplier: string)
    requires KeysUnique(catalog)
    ensures |CatalogMatches(catalog, ingredient, supplier)| <= 1
  {
    if catalog != [] {
      var tail := catalog[1..];
      assert KeysUnique(tail) by {
        forall i, j | 0 <= i < j < |tail|
          ensures tail[i].name != tail[j].name || tail[i].supplier != tail[j].supplier
        {
          assert tail[i] == catalog[i + 1] && tail[j] == catalog[j + 1];
        }
      }
      AtMostOneMatch(tail, ingredient, supplier);
      var rest := CatalogMatches(tail, ingredient, supplier);
      if catalog[0].name == ingredient && catalog[0].supplier == supplier && rest != [] {
        MatchesMembers(tail, ingredient, supplier, rest[0]);
        assert false;
      }
    }
  }

  /** Line 113 with unique catalog keys: the weight of the joined table is the
      sum of the recipe's quantities. */
  lemma {:induction false} UniqueKeysWeight(lines: seq<RecipeRow>, catalog: seq<CatalogRow>)
    requires KeysUnique(catalog)
    ensures Weight(Join(lines, catalog)) == RecipeWeight(lines)
  {
    if lines != [] {
      var first, rest := JoinLine(lines[0], catalog), Join(lines[1..], catalog);
      assert Join(lines, catalog) == first + rest;
      WeightAppend(first, rest);
      AtMostOneMatch(catalog, lines[0].ingredient, lines[0].supplier);
      JoinLineWeight(lines[0], catalog);
      UniqueKeysWeight(lines[1..], catalog);
    }
  }

  lemma {:induction false} LineWeightAtLeast(line: RecipeRow, catalog: seq<CatalogRow>)
    requires line.quantity >= 0.0
    ensures Weight(JoinLine(line, catalog)) >= line.quantity
    ensures line.quantity > 0.0 && |CatalogMatches(catalog, line.ingredient, line.supplier)| >= 2 ==>
              Weight(JoinLine(line, catalog)) > line.quantity
  {
    JoinLineWeight(line, catalog);
    var k := Copies(line, catalog) as real;
    MulMonotone(1.0, k, line.quantity);
    if line.quantity > 0.0 && k >= 2.0 {
      MulStrict(1.0, k, line.quantity);
    }
  }

  lemma {:induction false} JoinWeightAtLeast(lines: seq<RecipeRow>, catalog: seq<CatalogRow>)
    requires forall line :: line in lines ==> line.quantity >= 0.0
    ensures Weight(Join(lines, catalog)) >= RecipeWeight(lines)
  {
    if lines != [] {
      var first, rest := JoinLine(lines[0], catalog), Join(lines[1..], catalog);
      assert Join(lines, catalog) == first + rest;
      WeightAppend(first, rest);
      assert lines[0] in lines;
      LineWeightAtLeast(lines[0], catalog);
      JoinWeightAtLeast(lines[1..], catalog);
    }
  }

  lemma {:induction false} RecipeWeightNonNegative(lines: seq<RecipeRow>)
    requires forall line :: line in lines ==> line.quantity >= 0.0
    ensures RecipeWeight(lines) >= 0.0
  {
    if lines != [] {
      assert lines[0] in lines;
      RecipeWeightNonNegative(lines[1..]);
    }
  }

  /** Line 113 with a duplicated catalog key: a line whose key two catalog
      rows share is counted twice or more, so the joined weight exceeds the
      recipe's own weight. */
  lemma {:induction false} DuplicateKeyInflatesWeight(lines: seq<RecipeRow>, catalog: seq<CatalogRow>, j: nat)
    requires forall line :: line in lines ==> line.quantity >= 0.0
    requires j < |lines| && lines[j].quantity > 0.0
    requires |CatalogMatches(catalog, lines[j].ingredient, lines[j].supplier)| >= 2
    ensures Weight(Join(lines, catalog)) > RecipeWeight(lines)
  {
    var first, rest := JoinLine(lines[0], catalog), Join(lines[1..], catalog);
    assert Join(lines, catalog) == first + rest;
    WeightAppend(first, rest);
    assert lines[0] in lines;
    LineWeightAtLeast(lines[0], catalog);
    if j == 0 {
      JoinWeightAtLeast(lines[1..], catalog);
    } else {
      assert lines[1..][j - 1] == lines[j];
      DuplicateKeyInflatesWeight(lines[1..], catalog, j - 1);
    }
  }

  /** Lines 103-113: a line without a catalog row adds its quantity to the
      weight and nothing to any nutrient total. */
  lemma {:induction false} UnmatchedLineAddsOnlyWeight(lines: seq<RecipeRow>, catalog: seq<CatalogRow>, line: RecipeRow)
    requires CatalogMatches(catalog, line.ingredient, line.supplier) == []
    ensures Weight(Join(lines + [line], catalog)) == Weight(Join(lines, catalog)) + line.quantity
    ensures Totals(Join(lines + [line], catalog)) == Totals(Join(lines, catalog))
  {
    JoinAppend(lines, [line], catalog);
    var before, added := Join(lines, catalog), Join([line], catalog);
    assert [line][1..] == [];
    assert added == [MergedRow(line.ingredient, line.supplier, line.quantity, None)];
    WeightAppend(before, added);
    forall n: Nutrient ensures NutrientTotal(before + added, n) == NutrientTotal(before, n) {
      NutrientTotalAppend(before, added, n);
    }
    var t, u := Totals(before + added), Totals(before);
    assert t.Get(Energy) == u.Get(Energy) && t.Get(Protein) == u.Get(Protein);
    assert t.Get(Fat) == u.Get(Fat) && t.Get(Saturated) == u.Get(Saturated);
    assert t.Get(Carbohydrate) == u.Get(Carbohydrate) && t.Get(Sugar) == u.Get(Sugar);
    assert t.Get(Fibre) == u.Get(Fibre) && t.Get(Salt) == u.Get(Salt);
  }

  // ----- the percentage table -----

  /** The percentages, times the weight they were computed with, add up to
      100 times the recipe's own weight `rw`. */
  lemma {:induction false} PercentSumScaled(lines: seq<RecipeRow>, weight: real, p: real, rw: real)
    requires weight != 0.0
    requires p == PercentSum(Shares(lines, weight)) && rw == RecipeWeight(lines)
    ensures p * weight == rw * 100.0
  {
    var s := Shares(lines, weight);
    if lines != [] {
      assert s[1..] == Shares(lines[1..], weight);
      ShareEntries(lines, weight);
      PercentSumScaled(lines[1..], weight, PercentSum(s[1..]), RecipeWeight(lines[1..]));
      Distribute(weight, s[0].percent, PercentSum(s[1..]), p);
    }
  }

  /** Lines 123-124: the unrounded percentages add up to 100 when the catalog
      keys are unique and the recipe weighs something. */
  lemma {:induction false} SharesSumTo100(lines: seq<RecipeRow>, catalog: seq<CatalogRow>)
    requires KeysUnique(catalog)
    requires RecipeWeight(lines) != 0.0
    ensures SharesOf(lines, catalog).Some?
    ensures PercentSum(SharesOf(lines, catalog).value) == 100.0
  {
    UniqueKeysWeight(lines, catalog);
    var w := RecipeWeight(lines);
    var p := PercentSum(Shares(lines, w));
    PercentSumScaled(lines, w, p, w);
    Cancel(p, 100.0, w);
  }

  /** Lines 113 and 124 together: with a duplicated key the percentages,
      which divide the recipe's quantities by the joined weight, add up to
      less than 100. */
  lemma {:induction false} DuplicateKeyShrinksShares(lines: seq<RecipeRow>, catalog: seq<CatalogRow>, j: nat)
    requires forall line :: line in lines ==> line.quantity >= 0.0
    requires j < |lines| && lines[j].quantity > 0.0
    requires |CatalogMatches(catalog, lines[j].ingredient, lines[j].supplier)| >= 2
    ensures SharesOf(lines, catalog).Some?
    ensures PercentSum(SharesOf(lines, catalog).value) < 100.0
  {
    DuplicateKeyInflatesWeight(lines, catalog, j);
    RecipeWeightNonNegative(lines);
    var w := Weight(Join(lines, catalog));
    ShareBelow100(lines, w, PercentSum(Shares(lines, w)), RecipeWeight(lines));
  }

  /** Percentages of a weight `w` above the recipe's own weight add up to less than 100. */
  lemma ShareBelow100(lines: seq<RecipeRow>, w: real, p: real, rw: real)
    requires 0.0 <= rw < w
    requires p == PercentSum(Shares(lines, w)) && rw == RecipeWeight(lines)
    ensures p < 100.0
  {
    PercentSumScaled(lines, w, p, rw);
    PercentBelow100(p, w, rw);
  }

  lemma PercentBelow100(p: real, w: real, rw: real)
    requires 0.0 <= rw < w && p * w == rw * 100.0
    ensures p < 100.0
  {
    if p >= 100.0 {
      MulMonotone(100.0, p, w);
      MulStrict(rw, w, 100.0);
    }
  }

  // ----- the table per 100 g -----

  /** Lines 115-120: the table is produced exactly when the joined weight is
      positive, and then each value times the weight is 100 times the
      nutrient's total. */
  lemma {:induction false} Per100gIffWeight(lines: seq<RecipeRow>, catalog: seq<CatalogRow>, n: Nutrient)
    ensures NutritionOf(lines, catalog).Per100g? <==> Weight(Join(lines, catalog)) > 0.0
    ensures NutritionOf(lines, catalog).Per100g? ==>
              NutritionOf(lines, catalog).values.Get(n) * Weight(Join(lines, catalog))
              == 100.0 * Totals(Join(lines, catalog)).Get(n)
  {
    var rows := Join(lines, catalog);
    if Weight(rows) > 0.0 {
      NormaliseScales(Totals(rows), Weight(rows), n);
    }
  }

  /** Adding one row of value `v` and quantity `q` keeps a total between the
      bounds times the weight. */
  lemma AddWithinBounds(lo: real, hi: real, v: real, q: real, w: real, t: real, w': real, t': real)
    requires q >= 0.0 && lo <= v <= hi
    requires lo * w <= t <= hi * w
    requires w' == q + w && t' == v * q + t
    ensures lo * w' <= t' <= hi * w'
  {
    MulMonotone(lo, v, q);
    MulMonotone(v, hi, q);
    assert lo * w' == lo * q + lo * w;
    assert hi * w' == hi * q + hi * w;
  }

  /** One row of value `v` and quantity `q` in front of rows whose total `tt`
      and weight `wt` keep the bounds keeps them too. */
  lemma TotalWithinRangeCons(rows: seq<MergedRow>, n: Nutrient, lo: real, hi: real,
                             w: real, t: real, wt: real, tt: real)
    requires rows != [] && rows[0].quantity >= 0.0 && rows[0].per100g.Some?
    requires lo <= rows[0].per100g.value.Get(n) <= hi
    requires w == Weight(rows) && t == NutrientTotal(rows, n)
    requires wt == Weight(rows[1..]) && tt == NutrientTotal(rows[1..], n)
    requires lo * wt <= 100.0 * tt <= hi * wt
    ensures lo * w <= 100.0 * t <= hi * w
  {
    var v, q := rows[0].per100g.value.Get(n), rows[0].quantity;
    assert 100.0 * Contribution(rows[0], n) == v * q;
    AddWithinBounds(lo, hi, v, q, wt, 100.0 * tt, w, 100.0 * t);
  }

  /** The bounds on the values of the rows bound the total, weighed by the
      rows' weight `w`, whose total of nutrient `n` is `t`. */
  lemma {:induction false} TotalWithinRange(rows: seq<MergedRow>, n: Nutrient, lo: real, hi: real, w: real, t: real)
    requires forall r :: r in rows ==>
               (r.quantity >= 0.0 && r.per100g.Some? && lo <= r.per100g.value.Get(n) <= hi)
    requires w == Weight(rows) && t == NutrientTotal(rows, n)
    ensures lo * w <= 100.0 * t <= hi * w
    decreases rows
  {
    if rows == [] {
      assert w == 0.0 && t == 0.0;
    } else {
      var tail := rows[1..];
      var wt, tt := Weight(tail), NutrientTotal(tail, n);
      assert rows[0] in rows;
      TotalWithinRange(tail, n, lo, hi, wt, tt);
      TotalWithinRangeCons(rows, n, lo, hi, w, t, wt, tt);
    }
  }

  /** An amount whose weighed bounds hold stays within the bounds per 100 g. */
  lemma PerHundredWithinRange(lo: real, hi: real, t: real, w: real)
    requires w > 0.0 && lo * w <= 100.0 * t <= hi * w
    ensures lo <= PerHundred(t, w) <= hi
  {
    var v := PerHundred(t, w);
    PerHundredScales(t, w);
    if v < lo { MulStrict(v, lo, w); }
    if hi < v { MulStrict(hi, v, w); }
  }

  /** A value of the table per 100 g of rows is their total of that nutrient
      per 100 g of their weight. */
  lemma NormalisedValue(rows: seq<MergedRow>, n: Nutrient, w: real, t: real)
    requires w > 0.0 && t == NutrientTotal(rows, n)
    ensures Normalise(Totals(rows), w).values.Get(n) == PerHundred(t, w)
  {
    NormaliseScales(Totals(rows), w, n);
  }

  /** The table per 100 g of rows whose values all lie between the bounds
      lies between the bounds. */
  lemma {:induction false} RowsWithinRange(rows: seq<MergedRow>, n: Nutrient, lo: real, hi: real, w: real)
    requires forall r :: r in rows ==>
               (r.quantity >= 0.0 && r.per100g.Some? && lo <= r.per100g.value.Get(n) <= hi)
    requires w == Weight(rows)
    ensures Normalise(Totals(rows), w).Per100g? ==> lo <= Normalise(Totals(rows), w).values.Get(n) <= hi
  {
    if w > 0.0 {
      var t := NutrientTotal(rows, n);
      TotalWithinRange(rows, n, lo, hi, w, t);
      PerHundredWithinRange(lo, hi, t, w);
      NormalisedValue(rows, n, w, t);
    }
  }

  /** When every line has a catalog row, every joined row has values, and
      they come from a catalog row of one of the lines. */
  lemma {:induction false} MatchedRowsWithinRange(lines: seq<RecipeRow>, catalog: seq<CatalogRow>, n: Nutrient, lo: real, hi: real)
    requires AllMatched(lines, catalog)
    requires forall line :: line in lines ==> line.quantity >= 0.0
    requires forall line, c :: line in lines && c in catalog && c.name == line.ingredient && c.supplier == line.supplier
                               ==> lo <= c.per100g.Get(n) <= hi
    ensures forall r :: r in Join(lines, catalog) ==>
              (r.quantity >= 0.0 && r.per100g.Some? && lo <= r.per100g.value.Get(n) <= hi)
  {
    forall r | r in Join(lines, catalog)
      ensures r.quantity >= 0.0 && r.per100g.Some? && lo <= r.per100g.value.Get(n) <= hi
    {
      JoinRowFrom(lines, catalog, r);
      var line :| line in lines && FromLine(r, line, catalog);
      var found := CatalogMatches(catalog, line.ingredient, line.supplier);
      MatchesMembers(catalog, line.ingredient, line.supplier, found[0]);
    }
  }

  /** Lines 111-116: when every line has a catalog row and no quantity is
      negative, each value per 100 g lies between the smallest and the
      largest value per 100 g of the catalog rows the lines matched: the
      table is a weighted average of the ingredients. */
  lemma {:induction false} Per100gWithinRange(lines: seq<RecipeRow>, catalog: seq<CatalogRow>, n: Nutrient,
                                              lo: real, hi: real)
    requires AllMatched(lines, catalog)
    requires forall line :: line in lines ==> line.quantity >= 0.0
    requires forall line, c :: line in lines && c in catalog && c.name == line.ingredient && c.supplier == line.supplier
                               ==> lo <= c.per100g.Get(n) <= hi
    ensures NutritionOf(lines, catalog).Per100g? ==> lo <= NutritionOf(lines, catalog).values.Get(n) <= hi
  {
    MatchedRowsWithinRange(lines, catalog, n, lo, hi);
    RowsWithinRange(Join(lines, catalog), n, lo, hi, Weight(Join(lines, catalog)));
  }

  /** A recipe line with its quantity multiplied by `k`. */
  function ScaleLine(line: RecipeRow, k: real): RecipeRow
  {
    line.(quantity := line.quantity * k)
  }

  /** A joined row with its quantity multiplied by `k`. */
  function ScaleRow(r: MergedRow, k: real): MergedRow
  {
    r.(quantity := r.quantity * k)
  }

  /** The recipe lines with every quantity multiplied by `k`. */
  function ScaleQuantities(lines: seq<RecipeRow>, k: real): (r: seq<RecipeRow>)
    ensures |r| == |lines|
  {
    if lines == [] then [] else [ScaleLine(lines[0], k)] + ScaleQuantities(lines[1..], k)
  }

  /** The joined rows with every quantity multiplied by `k`. */
  function ScaleRows(rows: seq<MergedRow>, k: real): (r: seq<MergedRow>)
    ensures |r| == |rows|
  {
    if rows == [] then [] else [ScaleRow(rows[0], k)] + ScaleRows(rows[1..], k)
  }

  lemma {:induction false} ScaleRowsAppend(a: seq<MergedRow>, b: seq<MergedRow>, k: real)
    ensures ScaleRows(a + b, k) == ScaleRows(a, k) + ScaleRows(b, k)
  {
    if a == [] {
      assert a + b == b;
    } else {
      var x := [ScaleRow(a[0], k)];
      assert a + b != [] && (a + b)[0] == a[0] && (a + b)[1..] == a[1..] + b;
      ScaleRowsAppend(a[1..], b, k);
      calc {
        ScaleRows(a + b, k);
        [ScaleRow((a + b)[0], k)] + ScaleRows((a + b)[1..], k);
        x + ScaleRows(a[1..] + b, k);
        x + (ScaleRows(a[1..], k) + ScaleRows(b, k));
        (x + ScaleRows(a[1..], k)) + ScaleRows(b, k);
        ScaleRows(a, k) + ScaleRows(b, k);
      }
    }
  }

  /** Each scaled row is the row with its quantity multiplied by `k`. */
  lemma {:induction false} ScaleRowsAt(rows: seq<MergedRow>, k: real)
    ensures forall i :: 0 <= i < |rows| ==> ScaleRows(rows, k)[i] == ScaleRow(rows[i], k)
  {
    if rows != [] {
      ScaleRowsAt(rows[1..], k);
      forall i | 1 <= i < |rows| ensures ScaleRows(rows, k)[i] == ScaleRow(rows[i], k) {
        assert rows[1..][i - 1] == rows[i];
      }
    }
  }

  /** Scaling a line's quantity scales the quantity of each of its joined rows. */
  lemma {:induction false} JoinLineScaled(line: RecipeRow, scaled: RecipeRow, catalog: seq<CatalogRow>, k: real)
    requires scaled == ScaleLine(line, k)
    ensures JoinLine(scaled, catalog) == ScaleRows(JoinLine(line, catalog), k)
  {
    assert CatalogMatches(catalog, scaled.ingredient, scaled.supplier)
        == CatalogMatches(catalog, line.ingredient, line.supplier);
    var l, r := JoinLine(scaled, catalog), ScaleRows(JoinLine(line, catalog), k);
    ScaleRowsAt(JoinLine(line, catalog), k);
    assert |l| == |r|;
    forall i | 0 <= i < |l| ensures l[i] == r[i] {
    }
  }

  /** Scaling every quantity of the recipe scales every quantity of the
      joined table and changes nothing else in it. */
  lemma {:induction false} JoinScaled(lines: seq<RecipeRow>, catalog: seq<CatalogRow>, k: real)
    ensures Join(ScaleQuantities(lines, k), catalog) == ScaleRows(Join(lines, catalog), k)
  {
    if lines != [] {
      var scaled := ScaleQuantities(lines, k);
      assert scaled[0] == ScaleLine(lines[0], k);
      assert scaled[1..] == ScaleQuantities(lines[1..], k);
      JoinScaled(lines[1..], catalog, k);
      JoinLineScaled(lines[0], scaled[0], catalog, k);
      ScaleRowsAppend(JoinLine(lines[0], catalog), Join(lines[1..], catalog), k);
    }
  }

  lemma Distribute(k: real, a: real, b: real, s: real)
    requires s == a + b
    ensures k * s == k * a + k * b
  {
  }

  lemma {:induction false} ScaledWeight(rows: seq<MergedRow>, k: real, w: real)
    requires w == Weight(rows)
    ensures Weight(ScaleRows(rows, k)) == k * w
  {
    if rows != [] {
      var s := ScaleRows(rows, k);
      assert s[0] == ScaleRow(rows[0], k) && s[1..] == ScaleRows(rows[1..], k);
      ScaledWeight(rows[1..], k, Weight(rows[1..]));
      Distribute(k, rows[0].quantity, Weight(rows[1..]), w);
      assert s[0].quantity == rows[0].quantity * k;
    }
  }

  lemma ScaledContribution(r: MergedRow, k: real, n: Nutrient, c: real)
    requires c == Contribution(r, n)
    ensures Contribution(ScaleRow(r, k), n) == k * c
  {
    match r.per100g
    case None =>
    case Some(p) =>
      var v, q := p.Get(n), r.quantity;
      assert v * (q * k) / 100.0 == k * (v * q / 100.0);
  }

  lemma ScaledTotalStep(rows: seq<MergedRow>, k: real, n: Nutrient)
    requires rows != []
    ensures NutrientTotal(ScaleRows(rows, k), n)
            == Contribution(ScaleRow(rows[0], k), n) + NutrientTotal(ScaleRows(rows[1..], k), n)
  {
    var s := ScaleRows(rows, k);
    assert s[0] == ScaleRow(rows[0], k) && s[1..] == ScaleRows(rows[1..], k);
  }

  /** The step of `ScaledTotal` over plain numbers. */
  lemma ScaleSum(k: real, c: real, rest: real, t: real, sc: real, srest: real, st: real)
    requires t == c + rest && sc == k * c && srest == k * rest && st == sc + srest
    ensures st == k * t
  {
  }

  /** The inductive step of `ScaledTotal`, over the totals it relates. */
  lemma ScaledTotalCons(rows: seq<MergedRow>, k: real, n: Nutrient, t: real, rest: real, srest: real, st: real)
    requires rows != []
    requires t == NutrientTotal(rows, n) && rest == NutrientTotal(rows[1..], n)
    requires srest == NutrientTotal(ScaleRows(rows[1..], k), n) && st == NutrientTotal(ScaleRows(rows, k), n)
    requires srest == k * rest
    ensures st == k * t
  {
    var c := Contribution(rows[0], n);
    ScaledTotalStep(rows, k, n);
    ScaledContribution(rows[0], k, n, c);
    ScaleSum(k, c, rest, t, Contribution(ScaleRow(rows[0], k), n), srest, st);
  }

  /** Scaling every quantity by `k` scales every nutrient total by `k`. */
  lemma {:induction false} ScaledTotal(rows: seq<MergedRow>, k: real, n: Nutrient, t: real, st: real)
    requires t == NutrientTotal(rows, n) && st == NutrientTotal(ScaleRows(rows, k), n)
    ensures st == k * t
    decreases rows
  {
    if rows == [] {
      assert t == 0.0 && st == 0.0;
    } else {
      var tail := rows[1..];
      var rest, srest := NutrientTotal(tail, n), NutrientTotal(ScaleRows(tail, k), n);
      ScaledTotal(tail, k, n, rest, srest);
      ScaledTotalCons(rows, k, n, t, rest, srest, st);
    }
  }

  /** Two profiles with the same value for every nutrient are the same. */
  lemma SameProfile(x: Profile, y: Profile)
    requires forall n :: x.Get(n) == y.Get(n)
    ensures x == y
  {
    assert x.Get(Energy) == y.Get(Energy) && x.Get(Protein) == y.Get(Protein);
    assert x.Get(Fat) == y.Get(Fat) && x.Get(Saturated) == y.Get(Saturated);
    assert x.Get(Carbohydrate) == y.Get(Carbohydrate) && x.Get(Sugar) == y.Get(Sugar);
    assert x.Get(Fibre) == y.Get(Fibre) && x.Get(Salt) == y.Get(Salt);
  }

  /** One value of the table per 100 g is unchanged when every quantity is
      scaled by the same positive factor. */
  lemma {:induction false} ScaledValue(rows: seq<MergedRow>, k: real, n: Nutrient, w: real, sw: real, t: real, st: real)
    requires k > 0.0 && w > 0.0 && sw == k * w
    requires t == NutrientTotal(rows, n) && st == NutrientTotal(ScaleRows(rows, k), n)
    ensures PerHundred(st, sw) == PerHundred(t, w)
  {
    ScaledTotal(rows, k, n, t, st);
    SameRatio(t, w, st, sw, k);
  }

  /** Rows whose quantities are all scaled by the same positive factor have
      the same table per 100 g (or the same warning). */
  lemma {:induction false} ScaledNormalised(rows: seq<MergedRow>, k: real)
    requires k > 0.0
    ensures Normalise(Totals(ScaleRows(rows, k)), Weight(ScaleRows(rows, k)))
            == Normalise(Totals(rows), Weight(rows))
  {
    var s := ScaleRows(rows, k);
    ScaledWeight(rows, k, Weight(rows));
    if Weight(rows) > 0.0 {
      MulStrict(0.0, k, Weight(rows));
      forall n: Nutrient
        ensures Normalise(Totals(s), Weight(s)).values.Get(n) == Normalise(Totals(rows), Weight(rows)).values.Get(n)
      {
        var t, st := NutrientTotal(rows, n), NutrientTotal(s, n);
        ScaledValue(rows, k, n, Weight(rows), Weight(s), t, st);
        NormalisedValue(s, n, Weight(s), st);
        NormalisedValue(rows, n, Weight(rows), t);
      }
      SameProfile(Normalise(Totals(s), Weight(s)).values, Normalise(Totals(rows), Weight(rows)).values);
    } else {
      MulMonotone(Weight(rows), 0.0, k);
    }
  }

  /** An amount and a weight both scaled by the same positive factor give the
      same amount per 100 g. */
  lemma SameRatio(t: real, w: real, st: real, sw: real, k: real)
    requires w > 0.0 && k > 0.0 && st == k * t && sw == k * w
    ensures PerHundred(st, sw) == PerHundred(t, w)
  {
    var a, b := PerHundred(st, sw), PerHundred(t, w);
    PerHundredScales(st, sw);
    PerHundredScales(t, w);
    assert (a * w) * k == (b * w) * k;
    Cancel(a * w, b * w, k);
    Cancel(a, b, w);
  }

  /** Lines 111-116: multiplying every quantity by the same positive factor
      leaves the table per 100 g (or the warning) unchanged. */
  lemma {:induction false} ScalingKeepsNutrition(lines: seq<RecipeRow>, catalog: seq<CatalogRow>, k: real)
    requires k > 0.0
    ensures NutritionOf(ScaleQuantities(lines, k), catalog) == NutritionOf(lines, catalog)
  {
    JoinScaled(lines, catalog, k);
    ScaledNormalised(Join(lines, catalog), k);
  }
}
