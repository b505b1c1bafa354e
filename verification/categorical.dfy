/**
 * The weighted categorical variable of bp2d
 * (src/utility/categoricalVariable.ts). A dictionary of categories and
 * weights is stored with the weights divided by their total; a normalised
 * value selects the first category whose running total of weights exceeds
 * it, or the last category when none does.
 *
 * A JavaScript dictionary is modelled as the list of its entries in key
 * order, with distinct keys. The selection loop tests its `selected`
 * variable for truthiness, so a selected empty category name counts as
 * "nothing selected yet"; the model keeps that.
 */
module Categorical {
  import opened Wrappers

  /** One dictionary entry: a category and its weight. */
  type Entry = (string, real)

  /** The categories of a list of entries, in order. */
  function KeysOf(entries: seq<Entry>): (keys: seq<string>)
    ensures |keys| == |entries|
    ensures forall i :: 0 <= i < |entries| ==> keys[i] == entries[i].0
  {
    seq(|entries|, i requires 0 <= i < |entries| => entries[i].0)
  }

  /** The weights of a list of entries, in order. */
  function WeightsOf(entries: seq<Entry>): (weights: seq<real>)
    ensures |weights| == |entries|
    ensures forall i :: 0 <= i < |entries| ==> weights[i] == entries[i].1
  {
    seq(|entries|, i requires 0 <= i < |entries| => entries[i].1)
  }

  /** No category occurs twice, as in a dictionary. */
  predicate DistinctKeys(entries: seq<Entry>)
  {
    forall i, j :: 0 <= i < j < |entries| ==> entries[i].0 != entries[j].0
  }

  /** The sum of the weights, added from the first to the last (what `reduce` with `+` computes). */
  function Sum(ws: seq<real>): real
  {
    if ws == [] then 0.0 else Sum(ws[..|ws| - 1]) + ws[|ws| - 1]
  }

  /**
   * The quotient JavaScript yields for a weight divided by a total of zero
   * (an infinity or NaN): left unspecified.
   */
  const NonFinite: real -> real

  /** One stored weight: the input weight divided by the total. */
  function Normalise(weight: real, total: real): real
  {
    if total == 0.0 then NonFinite(weight) else weight / total
  }

  /** Every weight divided by the same non-zero total. */
  function Scaled(ws: seq<real>, total: real): (scaled: seq<real>)
    requires total != 0.0
    ensures |scaled| == |ws|
    ensures forall i :: 0 <= i < |ws| ==> scaled[i] == Normalise(ws[i], total)
  {
    seq(|ws|, i requires 0 <= i < |ws| => ws[i] / total)
  }

  /** Dividing every term by the total divides the sum by it. */
  lemma {:induction false} SumScaled(ws: seq<real>, total: real)
    requires total != 0.0
    ensures Sum(Scaled(ws, total)) == Sum(ws) / total
  {
    if ws != [] {
      var n := |ws|;
      assert Scaled(ws, total)[..n - 1] == Scaled(ws[..n - 1], total);
      SumScaled(ws[..n - 1], total);
      assert Sum(ws[..n - 1]) / total + ws[n - 1] / total == (Sum(ws[..n - 1]) + ws[n - 1]) / total;
    }
  }

  /** Normalised weights whose total is not zero add up to one. */
  lemma NormalisedSumIsOne(ws: seq<real>)
    requires Sum(ws) != 0.0
    ensures Sum(Scaled(ws, Sum(ws))) == 1.0
  {
    SumScaled(ws, Sum(ws));
    assert Sum(ws) / Sum(ws) == 1.0;
  }

  /** JavaScript truthiness of the `selected` variable: not null and not the empty string. */
  predicate Truthy(selected: Option<string>)
  {
    selected.Some? && selected.value != ""
  }

  /**
   * The `selected` variable of `getCategory` after the loop has seen the
   * given categories: a category is taken when nothing truthy is selected
   * yet and the running total exceeds the value.
   */
  function Pick(keys: seq<string>, ws: seq<real>, value: real): (selected: Option<string>)
    requires |keys| == |ws|
    ensures selected.Some? ==> selected.value in keys
  {
    if keys == [] then None
    else
      var n := |keys|;
      var before := Pick(keys[..n - 1], ws[..n - 1], value);
      if !Truthy(before) && Sum(ws) > value then Some(keys[n - 1]) else before
  }

  /** One more round of the selection loop: the running total grows by the next weight. */
  lemma PickStep(keys: seq<string>, ws: seq<real>, value: real, i: nat)
    requires |keys| == |ws| && i < |keys|
    ensures Sum(ws[..i + 1]) == Sum(ws[..i]) + ws[i]
    ensures Pick(keys[..i + 1], ws[..i + 1], value)
            == if !Truthy(Pick(keys[..i], ws[..i], value)) && Sum(ws[..i + 1]) > value then Some(keys[i])
               else Pick(keys[..i], ws[..i], value)
  {
    assert ws[..i + 1][..i] == ws[..i] && keys[..i + 1][..i] == keys[..i];
  }

  /** `getCategory`: the picked category, or the last category when nothing truthy was picked. */
  function Category(keys: seq<string>, ws: seq<real>, value: real): (category: string)
    requires |keys| == |ws| >= 1
    ensures category in keys
  {
    var picked := Pick(keys, ws, value);
    if Truthy(picked) then picked.value else keys[|keys| - 1]
  }

  /** The running total after category `k`. */
  function RunningTotal(ws: seq<real>, k: nat): real
    requires k < |ws|
  {
    Sum(ws[..k + 1])
  }

  /**
   * The reference selection rule: the index of the first category whose
   * running total exceeds the value, if any.
   */
  function FirstExceeding(ws: seq<real>, value: real): (k: Option<nat>)
    ensures k.Some? ==> k.value < |ws| && RunningTotal(ws, k.value) > value
    ensures k.Some? ==> forall j :: 0 <= j < k.value ==> RunningTotal(ws, j) <= value
    ensures k.None? ==> forall j :: 0 <= j < |ws| ==> RunningTotal(ws, j) <= value
  {
    if ws == [] then None
    else
      var n := |ws|;
      var before := FirstExceeding(ws[..n - 1], value);
      assert forall j :: 0 <= j < n - 1 ==> RunningTotal(ws[..n - 1], j) == RunningTotal(ws, j) by {
        forall j | 0 <= j < n - 1 ensures RunningTotal(ws[..n - 1], j) == RunningTotal(ws, j) {
          assert ws[..n - 1][..j + 1] == ws[..j + 1];
        }
      }
      assert ws[..n] == ws;
      assert RunningTotal(ws, n - 1) == Sum(ws);
      if before.Some? then before
      else if Sum(ws) > value then Some(n - 1)
      else None
  }

  /**
   * With no empty category name, the loop picks exactly the first category
   * whose running total exceeds the value.
   */
  lemma {:induction false} PickIsFirstExceeding(keys: seq<string>, ws: seq<real>, value: real)
    requires |keys| == |ws|
    requires forall i :: 0 <= i < |keys| ==> keys[i] != ""
    ensures match FirstExceeding(ws, value)
      case Some(k) => Pick(keys, ws, value) == Some(keys[k])
      case None => Pick(keys, ws, value) == None
  {
    if keys != [] {
      var n := |keys|;
      PickIsFirstExceeding(keys[..n - 1], ws[..n - 1], value);
    }
  }

  /**
   * `getCategory` with no empty category name: the first category whose
   * running total exceeds the value, and the last category when none does.
   */
  lemma CategoryIsFirstExceeding(keys: seq<string>, ws: seq<real>, value: real)
    requires |keys| == |ws| >= 1
    requires forall i :: 0 <= i < |keys| ==> keys[i] != ""
    ensures match FirstExceeding(ws, value)
      case Some(k) => Category(keys, ws, value) == keys[k]
      case None => Category(keys, ws, value) == keys[|keys| - 1]
  {
    PickIsFirstExceeding(keys, ws, value);
  }

  /**
   * A larger value never selects an earlier category: every running total
   * that exceeds the larger value also exceeds the smaller one.
   */
  lemma FirstExceedingMonotone(ws: seq<real>, lower: real, higher: real)
    requires lower <= higher
    ensures FirstExceeding(ws, higher).Some? ==> FirstExceeding(ws, lower).Some?
    ensures FirstExceeding(ws, higher).Some? ==> FirstExceeding(ws, lower).value <= FirstExceeding(ws, higher).value
  {
  }

  /** The position of a category in the key list. */
  function IndexOf(keys: seq<string>, category: string): (i: nat)
    requires category in keys
    ensures i < |keys| && keys[i] == category
    ensures forall j :: 0 <= j < i ==> keys[j] != category
  {
    if keys[0] == category then 0 else 1 + IndexOf(keys[1..], category)
  }

  /**
   * With distinct, non-empty category names, the category `getCategory`
   * selects for a larger value is never earlier in key order.
   */
  lemma CategoryMonotone(keys: seq<string>, ws: seq<real>, lower: real, higher: real)
    requires |keys| == |ws| >= 1
    requires forall i :: 0 <= i < |keys| ==> keys[i] != ""
    requires forall i, j :: 0 <= i < j < |keys| ==> keys[i] != keys[j]
    requires lower <= higher
    ensures IndexOf(keys, Category(keys, ws, lower)) <= IndexOf(keys, Category(keys, ws, higher))
  {
    CategoryIsFirstExceeding(keys, ws, lower);
    CategoryIsFirstExceeding(keys, ws, higher);
    FirstExceedingMonotone(ws, lower, higher);
  }

  /**
   * An empty category name that is selected first does not stop the loop:
   * with categories "" and "b" of equal weight, the value 0 falls in the
   * range of "", yet "b" is returned.
   */
  lemma EmptyNameOverwritten()
    ensures FirstExceeding([0.5, 0.5], 0.0) == Some(0)
    ensures Category(["", "b"], [0.5, 0.5], 0.0) == "b"
  {
    assert [0.5, 0.5][..1] == [0.5];
    assert [""][..0] == [];
    assert [0.5][..0] == [];
  }

  /**
   * The selection with the evidently intended test, "nothing selected yet"
   * as `selected === null`: a category is taken when none is selected and
   * the running total exceeds the value.
   */
  function IntendedPick(keys: seq<string>, ws: seq<real>, value: real): (selected: Option<string>)
    requires |keys| == |ws|
  {
    if keys == [] then None
    else
      var n := |keys|;
      var before := IntendedPick(keys[..n - 1], ws[..n - 1], value);
      if before.None? && Sum(ws) > value then Some(keys[n - 1]) else before
  }

  /** `getCategory` with the intended test: the selected category, or the last one when none was selected. */
  function IntendedCategory(keys: seq<string>, ws: seq<real>, value: real): (category: string)
    requires |keys| == |ws| >= 1
  {
    var picked := IntendedPick(keys, ws, value);
    if picked.Some? then picked.value else keys[|keys| - 1]
  }

  /** The intended loop picks the first category whose running total exceeds the value, whatever its name. */
  lemma {:induction false} IntendedPickIsFirstExceeding(keys: seq<string>, ws: seq<real>, value: real)
    requires |keys| == |ws|
    ensures match FirstExceeding(ws, value)
      case Some(k) => IntendedPick(keys, ws, value) == Some(keys[k])
      case None => IntendedPick(keys, ws, value) == None
  {
    if keys != [] {
      var n := |keys|;
      IntendedPickIsFirstExceeding(keys[..n - 1], ws[..n - 1], value);
    }
  }

  /**
   * The intended `getCategory` selects the first category whose running
   * total exceeds the value, and the last category when none does, for
   * every list of category names, the empty name included.
   */
  lemma IntendedCategoryIsFirstExceeding(keys: seq<string>, ws: seq<real>, value: real)
    requires |keys| == |ws| >= 1
    ensures match FirstExceeding(ws, value)
      case Some(k) => IntendedCategory(keys, ws, value) == keys[k]
      case None => IntendedCategory(keys, ws, value) == keys[|keys| - 1]
  {
    IntendedPickIsFirstExceeding(keys, ws, value);
  }

  /** Without an empty category name the source's selection and the intended one agree. */
  lemma IntendedAgreesWithoutEmptyNames(keys: seq<string>, ws: seq<real>, value: real)
    requires |keys| == |ws| >= 1
    requires forall i :: 0 <= i < |keys| ==> keys[i] != ""
    ensures Category(keys, ws, value) == IntendedCategory(keys, ws, value)
  {
    CategoryIsFirstExceeding(keys, ws, value);
    IntendedCategoryIsFirstExceeding(keys, ws, value);
  }

  /** With the intended test, the value 0 selects the empty name of `EmptyNameOverwritten`'s example. */
  lemma EmptyNameKept()
    ensures IntendedCategory(["", "b"], [0.5, 0.5], 0.0) == ""
  {
    assert [0.5, 0.5][..1] == [0.5] && ["", "b"][..1] == [""];
    assert Sum([0.5]) == 0.5 by {
      assert [0.5][..0] == [];
    }
    assert IntendedPick([""], [0.5], 0.0) == Some("");
    assert [""][..0] == [];
    assert [0.5][..0] == [];
  }

  /**
   * The categorical variable: the categories in key order and the dictionary
   * of normalised weights. `input` records the dictionary it was built from.
   */
  class CategoricalVariable {
    var keys: seq<string>
    var weightOf: map<string, real>
    ghost var input: seq<Entry>

    /** The total `reduce` computes over the input weights. */
    static function Total(entries: seq<Entry>): real
    {
      Sum(WeightsOf(entries))
    }

    /** The fields hold the input's categories in order, each with its weight divided by the total. */
    ghost predicate Valid()
      reads this
    {
      |input| >= 1 && DistinctKeys(input) &&
      keys == KeysOf(input) &&
      (forall c :: c in weightOf <==> c in keys) &&
      forall i :: 0 <= i < |input| ==> weightOf[input[i].0] == Normalise(input[i].1, Total(input))
    }

    /**
     * The constructor: the dictionary is filled with every weight divided by
     * the total of the weights. An empty dictionary throws in `reduce`,
     * which `Create` models.
     */
    constructor (categoryWeights: seq<Entry>)
      requires |categoryWeights| >= 1 && DistinctKeys(categoryWeights)
      ensures Valid() && input == categoryWeights
    {
      input := categoryWeights;
      keys := [];
      weightOf := map[];
      new;
      var total := Total(categoryWeights);
      for i := 0 to |categoryWeights|
        invariant input == categoryWeights
        invariant keys == KeysOf(categoryWeights[..i])
        invariant forall c :: c in weightOf <==> c in keys
        invariant forall j :: 0 <= j < i ==> weightOf[categoryWeights[j].0] == Normalise(categoryWeights[j].1, total)
      {
        var (category, weight) := categoryWeights[i];
        weightOf := weightOf[category := Normalise(weight, total)];
        keys := keys + [category];
      }
      assert categoryWeights[..|categoryWeights|] == categoryWeights;
    }

    /** Construction, with the `TypeError` of `reduce` on an empty dictionary as `None`. */
    static method Create(categoryWeights: seq<Entry>) returns (r: Option<CategoricalVariable>)
      requires DistinctKeys(categoryWeights)
      ensures r.None? <==> categoryWeights == []
      ensures r.Some? ==> fresh(r.value) && r.value.Valid() && r.value.input == categoryWeights
    {
      if categoryWeights == [] {
        return None;
      }
      var cv := new CategoricalVariable(categoryWeights);
      return Some(cv);
    }

    /** The `categories` getter: the categories in key order. */
    function Categories(): (categories: seq<string>)
      reads this
      requires Valid()
      ensures categories == KeysOf(input)
    {
      keys
    }

    /** The `weights` getter: the normalised weights in key order. */
    function Weights(): (weights: seq<real>)
      reads this
      requires Valid()
      ensures |weights| == |input|
      ensures forall i :: 0 <= i < |input| ==> weights[i] == Normalise(input[i].1, Total(input))
    {
      seq(|keys|, i requires 0 <= i < |keys| && keys[i] in weightOf reads this => weightOf[keys[i]])
    }

    /** The `span` getter: the number of categories. */
    function Span(): (span: nat)
      reads this
      requires Valid()
      ensures span == |input|
    {
      |keys|
    }

    /** The stored weights add up to one when the input total is not zero. */
    lemma WeightsSumToOne()
      requires Valid() && Total(input) != 0.0
      ensures Sum(Weights()) == 1.0
    {
      var ws := WeightsOf(input);
      assert Weights() == Scaled(ws, Sum(ws));
      NormalisedSumIsOne(ws);
    }

    /** `getWeighting`: the normalised weight of the category, or undefined for an unknown one. */
    function GetWeighting(category: string): (w: Option<real>)
      reads this
      requires Valid()
      ensures w.Some? <==> exists i :: 0 <= i < |input| && input[i].0 == category
      ensures forall i :: 0 <= i < |input| && input[i].0 == category ==>
        w == Some(Normalise(input[i].1, Total(input)))
    {
      if category in weightOf then Some(weightOf[category]) else None
    }

    /**
     * `getCategory`: the running total grows category by category; the first
     * category (while nothing truthy is selected) whose total exceeds the
     * value is selected, and the last category when none was.
     */
    method GetCategory(value: real) returns (category: string)
      requires Valid()
      ensures category == Category(keys, Weights(), value)
    {
      ghost var ws := Weights();
      var categories := keys;
      var selected := Accumulate(categories, weightOf, ws, value);
      if !Truthy(selected) {
        selected := Some(categories[|categories| - 1]);
      }
      category := selected.value;
    }
  }

  /**
   * The loop of `getCategory`: the running total of the weights, category by
   * category, and the category selected so far.
   */
  method Accumulate(categories: seq<string>, weightOf: map<string, real>, ghost ws: seq<real>, value: real)
    returns (selected: Option<string>)
    requires |ws| == |categories|
    requires forall i :: 0 <= i < |categories| ==> categories[i] in weightOf && weightOf[categories[i]] == ws[i]
    ensures selected == Pick(categories, ws, value)
  {
    selected := None;
    var cumulativeTotal := 0.0;
    for i := 0 to |categories|
      invariant selected == Pick(categories[..i], ws[..i], value)
      invariant cumulativeTotal == Sum(ws[..i])
    {
      PickStep(categories, ws, value, i);
      cumulativeTotal := cumulativeTotal + weightOf[categories[i]];
      if !Truthy(selected) && cumulativeTotal > value {
        selected := Some(categories[i]);
      }
    }
    assert categories[..|categories|] == categories && ws[..|ws|] == ws;
  }

  /** The colours of the unit tests: blue 3, red 1, green 2, white 4. */
  function Colours(): seq<Entry>
  {
    [("blue", 3.0), ("red", 1.0), ("green", 2.0), ("white", 4.0)]
  }

  /** The colours' total is 10, so their normalised weights are 0.3, 0.1, 0.2 and 0.4. */
  lemma ColoursNormalised()
    ensures KeysOf(Colours()) == ["blue", "red", "green", "white"]
    ensures Sum(WeightsOf(Colours())) == 10.0
    ensures Scaled(WeightsOf(Colours()), 10.0) == [0.3, 0.1, 0.2, 0.4]
  {
    assert WeightsOf(Colours()) == [3.0, 1.0, 2.0, 4.0];
    assert [3.0, 1.0, 2.0, 4.0][..3] == [3.0, 1.0, 2.0];
    assert [3.0, 1.0, 2.0][..2] == [3.0, 1.0];
    assert [3.0, 1.0][..1] == [3.0];
    assert [3.0][..0] == [];
  }

  /** With the colours' weights, 0.31 selects red and 1.00 falls back to white. */
  lemma ColoursCategories()
    ensures Category(["blue", "red", "green", "white"], [0.3, 0.1, 0.2, 0.4], 0.31) == "red"
    ensures Category(["blue", "red", "green", "white"], [0.3, 0.1, 0.2, 0.4], 1.0) == "white"
  {
    var keys := ["blue", "red", "green", "white"];
    var ws := [0.3, 0.1, 0.2, 0.4];
    assert ws[..3] == [0.3, 0.1, 0.2] && ws[..3][..2] == [0.3, 0.1] && ws[..3][..2][..1] == [0.3];
    assert [0.3][..0] == [];
    assert keys[..3] == ["blue", "red", "green"] && keys[..3][..2] == ["blue", "red"];
    assert keys[..3][..2][..1] == ["blue"] && ["blue"][..0] == [];
    assert Pick(["blue"], [0.3], 0.31) == None;
    assert Pick(["blue", "red"], [0.3, 0.1], 0.31) == Some("red");
    assert Pick(["blue"], [0.3], 1.0) == None;
    assert Pick(["blue", "red"], [0.3, 0.1], 1.0) == None;
    assert Pick(["blue", "red", "green"], [0.3, 0.1, 0.2], 1.0) == None;
  }
}
