/** The App component's session state and the handlers that update it. Each
    `useState` pair becomes a field; each handler becomes a method that
    reassigns the fields its setters touch. A request to the recipe service
    and its response are one atomic step, with the response an input. */
module Session {
  import opened Js
  import opened Recipes
  import opened Toggles

  /** What the handler asks the recipe service for. */
  datatype Request = FetchAll | SearchByTerm(term: string)

  /** How the service call ended: a parsed body whose `drinks` field is a
      list or null/absent, or a rejected fetch / unparsable body. */
  datatype Response = Success(drinks: Option<seq<Cocktail>>) | Failure

  /** searchCocktails routes on the truthiness of the term. */
  function RequestFor(term: string): Request {
    if term == "" then FetchAll else SearchByTerm(term)
  }

  class App {
    var cocktails: seq<Cocktail>
    var searchTerm: string
    var myBar: seq<string>
    var favorites: seq<Cocktail>
    var filterCategory: string
    var loading: bool

    /** What every handler keeps: favorites never repeat an id, and bar
        entries are trimmed, non-empty and never repeated. */
    ghost predicate Valid()
      reads this
    {
      UniqueIds(favorites) && BarClean(myBar) && NoDuplicates(myBar)
    }

    /** The initial `useState` values. */
    constructor ()
      ensures Valid()
      ensures cocktails == [] && searchTerm == "" && myBar == [] && favorites == []
      ensures filterCategory == "all" && loading
    {
      cocktails := [];
      searchTerm := "";
      myBar := [];
      favorites := [];
      filterCategory := "all";
      loading := true;
    }

    /** The list the cocktails tab shows. */
    function VisibleCocktails(): seq<Cocktail>
      reads this
    {
      FilteredCocktails(cocktails, filterCategory, myBar)
    }

    /** fetchCocktails, given the service's answer to the fetch-all request:
        a body replaces the list with its drinks (or [] when they are null),
        a failure keeps the old list; either way loading ends false. */
    method FetchCocktails(response: Response)
      modifies this`cocktails, this`loading
      ensures response.Success? && response.drinks.Some? ==> cocktails == response.drinks.value
      ensures response.Success? && response.drinks.None? ==> cocktails == []
      ensures response.Failure? ==> cocktails == old(cocktails)
      ensures !loading
    {
      loading := true;
      match response {
        case Success(drinks) =>
          cocktails := if drinks.Some? then drinks.value else [];
        case Failure =>
      }
      loading := false;
    }

    /** searchCocktails: an empty term is a fetch-all, any other term a
        search by that term; `response` is the service's answer to the
        request returned. */
    method SearchCocktails(term: string, response: Response) returns (request: Request)
      modifies this`cocktails, this`loading
      ensures request == RequestFor(term)
      ensures request == FetchAll <==> term == ""
      ensures response.Success? && response.drinks.Some? ==> cocktails == response.drinks.value
      ensures response.Success? && response.drinks.None? ==> cocktails == []
      ensures response.Failure? ==> cocktails == old(cocktails)
      ensures !loading
    {
      if term == "" {
        FetchCocktails(response);
        return FetchAll;
      }
      request := SearchByTerm(term);
      loading := true;
      match response {
        case Success(drinks) =>
          cocktails := if drinks.Some? then drinks.value else [];
        case Failure =>
      }
      loading := false;
    }

    /** The search box's onChange: record the text, then search for it. The
        bar, the favorites and the filter survive every search. */
    method OnSearchInput(value: string, response: Response) returns (request: Request)
      requires Valid()
      modifies this`searchTerm, this`cocktails, this`loading
      ensures Valid()
      ensures searchTerm == value && request == RequestFor(value)
      ensures response.Success? ==> cocktails == (if response.drinks.Some? then response.drinks.value else [])
      ensures response.Failure? ==> cocktails == old(cocktails)
      ensures !loading
    {
      searchTerm := value;
      request := SearchCocktails(value, response);
    }

    /** One of the four filter buttons. */
    method SetFilterCategory(category: string)
      modifies this`filterCategory
      ensures filterCategory == category
      ensures VisibleCocktails() == FilteredCocktails(cocktails, category, myBar)
    {
      filterCategory := category;
    }

    /** toggleFavorite */
    method ToggleFavorite(cocktail: Cocktail)
      requires Valid()
      modifies this`favorites
      ensures Valid()
      ensures favorites == ToggledFavorites(old(favorites), cocktail)
      ensures HasId(favorites, cocktail.idDrink) <==> !HasId(old(favorites), cocktail.idDrink)
    {
      ToggledFavoritesKeepUnique(favorites, cocktail);
      ToggledFavoritesSpec(favorites, cocktail);
      favorites := ToggledFavorites(favorites, cocktail);
    }

    /** toggleBarIngredient. Its two callers pass an entry already on the bar
        (the remove button) or trimmed non-empty text (the Enter handler). */
    method ToggleBarIngredient(ingredient: string)
      requires Valid()
      requires ingredient in myBar || (ingredient != "" && Trim(ingredient) == ingredient)
      modifies this`myBar
      ensures Valid()
      ensures myBar == ToggledBar(old(myBar), ingredient)
      ensures ingredient in myBar <==> ingredient !in old(myBar)
    {
      ToggledBarSpec(myBar, ingredient);
      ToggledBarKeepsClean(myBar, ingredient);
      ToggledBarKeepsDistinct(myBar, ingredient);
      myBar := ToggledBar(myBar, ingredient);
    }

    /** The remove button shown next to each bar entry. */
    method RemoveBarIngredient(ingredient: string)
      requires Valid() && ingredient in myBar
      modifies this`myBar
      ensures Valid()
      ensures ingredient !in myBar
      ensures myBar == ToggledBar(old(myBar), ingredient)
    {
      ToggleBarIngredient(ingredient);
    }

    /** The bar input's key handler: only Enter with text that is not blank
        toggles, and it toggles the trimmed text and clears the input; any
        other key leaves the bar and the input as they were. */
    method OnIngredientKey(key: string, value: string) returns (inputValue: string)
      requires Valid()
      modifies this`myBar
      ensures Valid()
      ensures key == "Enter" && Trim(value) != "" ==>
                myBar == ToggledBar(old(myBar), Trim(value)) && inputValue == ""
      ensures !(key == "Enter" && Trim(value) != "") ==>
                myBar == old(myBar) && inputValue == value
    {
      if key == "Enter" && Trim(value) != "" {
        TrimIdempotent(value);
        ToggleBarIngredient(Trim(value));
        inputValue := "";
      } else {
        inputValue := value;
      }
    }
  }
}
