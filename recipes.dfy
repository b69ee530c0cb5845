/** Cocktail records as the recipe service returns them, and the pure
    derivations the app computes from them: the can-make check against the
    user's bar, the category filter over the fetched list and the ingredient
    lines shown in the detail modal. */
module Recipes {
  import opened Js

  /** A recipe carries its ingredients in the numbered fields
      strIngredient1 .. strIngredient15 (and strMeasure1 .. strMeasure15). */
  const SlotCount := 15

  /** One drink record. `ingredients[i - 1]` is the field strIngredient<i>
      and `measures[i - 1]` is strMeasure<i>; fields the record lacks read as
      undefined. */
  datatype Cocktail = Cocktail(
    idDrink: string,
    strDrink: string,
    strCategory: string,
    strAlcoholic: Option<string>,
    strDrinkThumb: string,
    strInstructions: string,
    strGlass: Option<string>,
    ingredients: seq<Option<string>>,
    measures: seq<Option<string>>)

  /** `cocktail[`strIngredient${i}`]` */
  function IngredientSlot(c: Cocktail, i: int): Option<string> {
    if 1 <= i <= |c.ingredients| then c.ingredients[i - 1] else None
  }

  /** `cocktail[`strMeasure${i}`]` */
  function MeasureSlot(c: Cocktail, i: int): Option<string> {
    if 1 <= i <= |c.measures| then c.measures[i - 1] else None
  }

  function IngredientName(c: Cocktail, i: int): string {
    OrEmpty(IngredientSlot(c, i))
  }

  // ---------------------------------------------------------------------
  // The slot scan shared by the can-make check and the modal

  /** The slot numbers below `n` whose ingredient field is truthy, in the
      order the `for (let i = 1; ...; i++)` loops visit them. */
  function SlotsBelow(c: Cocktail, n: int): seq<int>
    decreases n
  {
    if n <= 1 then []
    else SlotsBelow(c, n - 1) + (if Truthy(IngredientSlot(c, n - 1)) then [n - 1] else [])
  }

  /** The slots both loops over 1 .. 15 keep. */
  function PresentSlots(c: Cocktail): seq<int> {
    SlotsBelow(c, SlotCount + 1)
  }

  lemma {:induction false} SlotsBelowSpec(c: Cocktail, n: int)
    ensures forall i :: i in SlotsBelow(c, n) <==> 1 <= i < n && Truthy(IngredientSlot(c, i))
    ensures forall k, l :: 0 <= k < l < |SlotsBelow(c, n)| ==> SlotsBelow(c, n)[k] < SlotsBelow(c, n)[l]
    ensures |SlotsBelow(c, n)| <= if n <= 1 then 0 else n - 1
  {
    if n > 1 {
      SlotsBelowSpec(c, n - 1);
      var prev := SlotsBelow(c, n - 1);
      assert forall k :: 0 <= k < |prev| ==> prev[k] in prev && prev[k] < n - 1;
    }
  }

  /** The scanned slots are exactly the numbers 1 .. 15 whose ingredient
      field is truthy, each once, in increasing order. */
  lemma PresentSlotsSpec(c: Cocktail)
    ensures forall i :: i in PresentSlots(c) <==> 1 <= i <= SlotCount && Truthy(IngredientSlot(c, i))
    ensures forall k, l :: 0 <= k < l < |PresentSlots(c)| ==> PresentSlots(c)[k] < PresentSlots(c)[l]
    ensures |PresentSlots(c)| <= SlotCount
  {
    SlotsBelowSpec(c, SlotCount + 1);
  }

  // ---------------------------------------------------------------------
  // Can-make

  /** Some bar entry equals `name` once both are lower-cased. */
  predicate Stocked(name: string, myBar: seq<string>) {
    exists b :: b in myBar && ToLower(b) == ToLower(name)
  }

  /** Every ingredient the recipe lists is on the bar, up to letter case. */
  predicate CanMake(c: Cocktail, myBar: seq<string>) {
    forall i :: i in PresentSlots(c) ==> Stocked(IngredientName(c, i), myBar)
  }

  /** canMakeCocktail: collect the lower-cased truthy ingredient fields, then
      ask that every one of them equals some lower-cased bar entry. */
  method CanMakeCocktail(cocktail: Cocktail, myBar: seq<string>) returns (ok: bool)
    ensures ok == CanMake(cocktail, myBar)
  {
    var ingredients: seq<string> := [];
    for i := 1 to SlotCount + 1
      invariant |ingredients| == |SlotsBelow(cocktail, i)|
      invariant forall k :: 0 <= k < |ingredients| ==>
                  ingredients[k] == ToLower(IngredientName(cocktail, SlotsBelow(cocktail, i)[k]))
    {
      var ingredient := IngredientSlot(cocktail, i);
      if Truthy(ingredient) {
        ingredients := ingredients + [ToLower(ingredient.value)];
      }
    }
    ok := forall k | 0 <= k < |ingredients| ::
            exists j | 0 <= j < |myBar| :: ToLower(myBar[j]) == ingredients[k];
    ghost var slots := PresentSlots(cocktail);
    assert forall i :: i in slots ==> exists k :: 0 <= k < |slots| && slots[k] == i;
  }

  /** The can-make check holds exactly when each truthy ingredient field
      among the 15 matches some bar entry after lower-casing both; nothing is
      trimmed, and neither the order nor repeats of the bar matter. */
  lemma CanMakeIff(c: Cocktail, myBar: seq<string>)
    ensures CanMake(c, myBar) <==>
              forall i :: 1 <= i <= SlotCount && Truthy(IngredientSlot(c, i)) ==>
                exists b :: b in myBar && ToLower(b) == ToLower(IngredientSlot(c, i).value)
  {
    PresentSlotsSpec(c);
  }

  /** A recipe without a single truthy ingredient field can be made from any
      bar, the empty one included. */
  lemma CanMakeVacuous(c: Cocktail, myBar: seq<string>)
    requires forall i :: 1 <= i <= SlotCount ==> !Truthy(IngredientSlot(c, i))
    ensures CanMake(c, myBar)
  {
    PresentSlotsSpec(c);
  }

  /** With an empty bar, a recipe that lists any ingredient cannot be made. */
  lemma CanMakeEmptyBar(c: Cocktail, i: int)
    requires 1 <= i <= SlotCount && Truthy(IngredientSlot(c, i))
    ensures !CanMake(c, [])
  {
    PresentSlotsSpec(c);
    assert i in PresentSlots(c);
  }

  /** Only what the bar holds up to letter case matters: a bar whose every
      entry has a case variant in another bar can make no more than it. In
      particular reordering, repeating or re-casing entries changes nothing. */
  lemma CanMakeMonotone(c: Cocktail, bar1: seq<string>, bar2: seq<string>)
    requires forall b :: b in bar1 ==> Stocked(b, bar2)
    ensures CanMake(c, bar1) ==> CanMake(c, bar2)
  {
    if CanMake(c, bar1) {
      forall i | i in PresentSlots(c)
        ensures Stocked(IngredientName(c, i), bar2)
      {
        var b1 :| b1 in bar1 && ToLower(b1) == ToLower(IngredientName(c, i));
        var b2 :| b2 in bar2 && ToLower(b2) == ToLower(b1);
      }
    }
  }

  // ---------------------------------------------------------------------
  // Modal ingredient lines

  datatype IngredientLine = IngredientLine(name: string, measure: string)

  /** The detail modal's list: one line per truthy ingredient field, in slot
      order, carrying that slot's measure or '' when the measure is falsy. */
  method ModalIngredients(cocktail: Cocktail) returns (lines: seq<IngredientLine>)
    ensures |lines| == |PresentSlots(cocktail)| <= SlotCount
    ensures forall k :: 0 <= k < |lines| ==>
              Truthy(IngredientSlot(cocktail, PresentSlots(cocktail)[k])) &&
              lines[k].name == IngredientSlot(cocktail, PresentSlots(cocktail)[k]).value &&
              lines[k].measure == OrEmpty(MeasureSlot(cocktail, PresentSlots(cocktail)[k]))
  {
    lines := [];
    for i := 1 to SlotCount + 1
      invariant |lines| == |SlotsBelow(cocktail, i)|
      invariant forall k :: 0 <= k < |lines| ==>
                  Truthy(IngredientSlot(cocktail, SlotsBelow(cocktail, i)[k])) &&
                  lines[k] == IngredientLine(IngredientSlot(cocktail, SlotsBelow(cocktail, i)[k]).value,
                                             OrEmpty(MeasureSlot(cocktail, SlotsBelow(cocktail, i)[k])))
    {
      if Truthy(IngredientSlot(cocktail, i)) {
        lines := lines + [IngredientLine(IngredientSlot(cocktail, i).value, OrEmpty(MeasureSlot(cocktail, i)))];
      }
    }
    PresentSlotsSpec(cocktail);
  }

  // ---------------------------------------------------------------------
  // Filter pipeline

  /** The branch of the filteredCocktails callback for one record. */
  predicate KeepCocktail(filterCategory: string, myBar: seq<string>, c: Cocktail) {
    if filterCategory == "canMake" then CanMake(c, myBar)
    else if filterCategory == "alcoholic" then c.strAlcoholic == Some("Alcoholic")
    else if filterCategory == "nonAlcoholic" then c.strAlcoholic == Some("Non alcoholic")
    else true
  }

  function Keeps(filterCategory: string, myBar: seq<string>): Cocktail -> bool {
    c => KeepCocktail(filterCategory, myBar, c)
  }

  /** filteredCocktails */
  function FilteredCocktails(cocktails: seq<Cocktail>, filterCategory: string, myBar: seq<string>): seq<Cocktail> {
    Filter(cocktails, Keeps(filterCategory, myBar))
  }

  /** For every category the visible list is an order-preserving
      subsequence of the fetched list that keeps every copy of a record the
      category's rule accepts and no copy of any other record. */
  lemma FilterPipelineStable(cocktails: seq<Cocktail>, filterCategory: string, myBar: seq<string>)
    ensures IsSubsequence(FilteredCocktails(cocktails, filterCategory, myBar), cocktails)
    ensures forall c :: multiset(FilteredCocktails(cocktails, filterCategory, myBar))[c] ==
              if KeepCocktail(filterCategory, myBar, c) then multiset(cocktails)[c] else 0
  {
    FilterIsSubsequence(cocktails, Keeps(filterCategory, myBar));
    forall c
      ensures multiset(FilteredCocktails(cocktails, filterCategory, myBar))[c] ==
              if KeepCocktail(filterCategory, myBar, c) then multiset(cocktails)[c] else 0
    {
      FilterCount(cocktails, Keeps(filterCategory, myBar), c);
    }
  }

  /** The rule of each category: 'all' and any unrecognised value show the
      list unchanged; 'alcoholic' and 'nonAlcoholic' compare strAlcoholic
      with "Alcoholic" and "Non alcoholic" exactly, so any other value is in
      neither; 'canMake' applies the can-make check with the current bar. */
  lemma FilterCategoryRules(cocktails: seq<Cocktail>, filterCategory: string, myBar: seq<string>, c: Cocktail)
    ensures filterCategory !in {"canMake", "alcoholic", "nonAlcoholic"} ==>
              FilteredCocktails(cocktails, filterCategory, myBar) == cocktails
    ensures filterCategory == "alcoholic" ==>
              (c in FilteredCocktails(cocktails, filterCategory, myBar) <==>
                 c in cocktails && c.strAlcoholic == Some("Alcoholic"))
    ensures filterCategory == "nonAlcoholic" ==>
              (c in FilteredCocktails(cocktails, filterCategory, myBar) <==>
                 c in cocktails && c.strAlcoholic == Some("Non alcoholic"))
    ensures filterCategory == "canMake" ==>
              (c in FilteredCocktails(cocktails, filterCategory, myBar) <==>
                 c in cocktails && CanMake(c, myBar))
    ensures c.strAlcoholic !in {Some("Alcoholic"), Some("Non alcoholic")} ==>
              c !in FilteredCocktails(cocktails, "alcoholic", myBar) &&
              c !in FilteredCocktails(cocktails, "nonAlcoholic", myBar)
  {
    if filterCategory !in {"canMake", "alcoholic", "nonAlcoholic"} {
      FilterKeepsAll(cocktails, Keeps(filterCategory, myBar));
    }
    FilterMembership(cocktails, Keeps(filterCategory, myBar), c);
    FilterMembership(cocktails, Keeps("alcoholic", myBar), c);
    FilterMembership(cocktails, Keeps("nonAlcoholic", myBar), c);
  }

  // ---------------------------------------------------------------------
  // Worked examples

  function Drink(id: string, alcoholic: string, ingredients: seq<Option<string>>): Cocktail {
    Cocktail(id, id, "Cocktail", Some(alcoholic), "", "", None, ingredients, [])
  }

  /** Recipe ingredients are lower-cased but not trimmed: "Gin " does not
      match a bar holding "gin". */
  lemma CanMakeDoesNotTrim()
    ensures !CanMake(Drink("C", "Alcoholic", [Some("Gin ")]), ["gin"])
  {
    var c := Drink("C", "Alcoholic", [Some("Gin ")]);
    PresentSlotsSpec(c);
    assert 1 in PresentSlots(c);
    assert forall b :: b in ["gin"] ==> |ToLower(b)| != |ToLower("Gin ")|;
  }

  const GinTonic := Drink("A", "Alcoholic", [Some("Gin"), Some("Tonic")])
  const Soda := Drink("B", "Non alcoholic", [Some("Soda")])
  const HomeBar := ["gin", "tonic", "soda"]

  lemma GinTonicCanBeMade()
    ensures CanMake(GinTonic, HomeBar)
  {
    assert ToLower("Gin") == HomeBar[0] by { assert ToLower("Gin")[0] == 'g'; }
    assert ToLower("Tonic") == HomeBar[1] by { assert ToLower("Tonic")[0] == 't'; }
    assert ToLower(HomeBar[0]) == HomeBar[0] && ToLower(HomeBar[1]) == HomeBar[1];
    CanMakeIff(GinTonic, HomeBar);
  }

  lemma SodaCanBeMade()
    ensures CanMake(Soda, HomeBar)
  {
    assert ToLower("Soda") == HomeBar[2] by { assert ToLower("Soda")[0] == 's'; }
    assert ToLower(HomeBar[2]) == HomeBar[2];
    CanMakeIff(Soda, HomeBar);
  }

  /** A gin and tonic and a soda, with a bar of gin, tonic and soda: both
      can be made, and each alcoholic filter keeps just its own drink. */
  lemma ThreeFiltersExample()
    ensures FilteredCocktails([GinTonic, Soda], "canMake", HomeBar) == [GinTonic, Soda]
    ensures FilteredCocktails([GinTonic, Soda], "alcoholic", HomeBar) == [GinTonic]
    ensures FilteredCocktails([GinTonic, Soda], "nonAlcoholic", HomeBar) == [Soda]
  {
    GinTonicCanBeMade();
    SodaCanBeMade();
    FilterKeepsAll([GinTonic, Soda], Keeps("canMake", HomeBar));
    assert [GinTonic, Soda][1..] == [Soda] && [Soda][1..] == [];
    var alcoholic, nonAlcoholic := Keeps("alcoholic", HomeBar), Keeps("nonAlcoholic", HomeBar);
    assert alcoholic(GinTonic) && !alcoholic(Soda);
    assert !nonAlcoholic(GinTonic) && nonAlcoholic(Soda);
    assert Filter([Soda], alcoholic) == [];
    assert Filter([Soda], nonAlcoholic) == [Soda];
  }

  /** With an empty bar a vodka recipe cannot be made. */
  lemma EmptyBarExample()
    ensures !CanMake(Drink("C", "Alcoholic", [Some("Vodka")]), [])
  {
    CanMakeEmptyBar(Drink("C", "Alcoholic", [Some("Vodka")]), 1);
  }
}
