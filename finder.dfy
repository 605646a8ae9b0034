/** The view controller `RecipeFinder` (script.js:1-312) over an abstract document: the
    DOM elements it reads and changes are fields, the two API endpoints are function
    parameters, and every asynchronous method runs as one step. */
module Finder {
  import opened Wrappers
  import opened Text
  import opened Ingredients
  import opened Recipes
  import opened Navigation

  /** The blocking notices the controller raises with `alert`. */
  datatype Alert = EnterIngredient | SearchFailed | DetailsFailed

  /** A search response body that lists at least one recipe; `null` and `[]` do not. */
  predicate HasRecipes(body: Option<seq<RecipeSummary>>)
  {
    body.Some? && |body.value| > 0
  }

  class RecipeFinder {
    /** `data-page` of each `.nav-item`, in document order. */
    const navPages: seq<string>
    /** `id` of each `.page` element, in document order. */
    const pageIds: seq<string>
    /** The `active` class of each nav item and of each page. */
    const navActive: array<bool>
    const pageActive: array<bool>

    var currentPage: string
    var currentRecipes: seq<RecipeSummary>
    /** The `active` class of the sidebar. */
    var sidebarOpen: bool
    /** The loading indicator is shown (its `hidden` class is off). */
    var loading: bool
    /** Every value the loading indicator has been switched to, oldest first. */
    ghost var loadingHistory: seq<bool>
    /** The value of the ingredient input field. */
    var input: string
    /** The contents of the recipe container, the "no results" marker and the subtitle. */
    var cards: seq<Card>
    var noResultsShown: bool
    var subtitle: string
    /** The contents of the detail container, once a recipe has been shown. */
    var details: Option<DetailView>

    ghost predicate Valid()
      reads this
    {
      navActive.Length == |navPages| && pageActive.Length == |pageIds|
      && navActive != pageActive && Distinct(pageIds)
    }

    /** The current page is the one page shown. `showPage` establishes it for a known page
        name; an unknown name leaves no page shown and `currentPage` unchanged. */
    ghost predicate ShowsCurrentPage()
      reads this, pageActive
      requires Valid()
    {
      PageId(currentPage) in pageIds && pageActive[..] == Matches(pageIds, PageId(currentPage))
    }

    /** `new RecipeFinder()` on a document with the given nav items, pages and input text:
        `currentPage` is "home", no recipes are held, and `init` shows the home page. The
        sidebar, loading indicator and "no results" marker start hidden and the containers
        empty. */
    constructor (navPages: seq<string>, pageIds: seq<string>, input: string)
      requires Distinct(pageIds)
      ensures Valid() && fresh(navActive) && fresh(pageActive)
      ensures this.navPages == navPages && this.pageIds == pageIds && this.input == input
      ensures currentPage == "home" && currentRecipes == []
      ensures navActive[..] == Matches(navPages, "home")
      ensures pageActive[..] == Matches(pageIds, PageId("home"))
      ensures !sidebarOpen && !loading && loadingHistory == []
      ensures cards == [] && !noResultsShown && subtitle == "" && details == None
    {
      this.navPages := navPages;
      this.pageIds := pageIds;
      this.navActive := new bool[|navPages|];
      this.pageActive := new bool[|pageIds|];
      this.input := input;
      currentPage := "home";
      currentRecipes := [];
      sidebarOpen := false;
      loading := false;
      loadingHistory := [];
      cards := [];
      noResultsShown := false;
      subtitle := "";
      details := None;
      new;
      ShowPage("home");
    }

    /** `toggleSidebar(show)`: set the sidebar to `show` when given, else flip it. */
    method ToggleSidebar(show: Option<bool>)
      modifies this`sidebarOpen
      ensures sidebarOpen == if show.Some? then show.value else !old(sidebarOpen)
    {
      if show.Some? {
        sidebarOpen := show.value;
      } else {
        sidebarOpen := !sidebarOpen;
      }
    }

    /** `showPage(name)`: every nav item is active exactly when its `data-page` is `name`;
        every page is switched off and then the page with id `name-page`, if there is one,
        switched on, and only then does `currentPage` become `name`. For an unknown name no
        page is left active and `currentPage` keeps its old value. */
    method ShowPage(name: string)
      requires Valid()
      modifies navActive, pageActive, this`currentPage
      ensures Valid()
      ensures navActive[..] == Matches(navPages, name)
      ensures pageActive[..] == Matches(pageIds, PageId(name))
      ensures currentPage == if PageId(name) in pageIds then name else old(currentPage)
      ensures PageId(name) in pageIds ==> ShowsCurrentPage()
      ensures CountTrue(pageActive[..]) == if PageId(name) in pageIds then 1 else 0
    {
      for i := 0 to navActive.Length
        invariant forall k :: 0 <= k < i ==> navActive[k] == (navPages[k] == name)
        invariant currentPage == old(currentPage)
      {
        navActive[i] := false;
        if navPages[i] == name {
          navActive[i] := true;
        }
      }
      for j := 0 to pageActive.Length
        invariant forall k :: 0 <= k < j ==> !pageActive[k]
        invariant forall k :: 0 <= k < navActive.Length ==> navActive[k] == (navPages[k] == name)
        invariant currentPage == old(currentPage)
      {
        pageActive[j] := false;
      }
      var target := PageId(name);
      if target in pageIds {
        var k := IndexOf(pageIds, target);
        pageActive[k] := true;
        currentPage := name;
      }
      assert pageActive[..] == Matches(pageIds, target);
      SingleMatch(pageIds, target);
    }

    /** A click on the nav item at `index`: show its page, then close the sidebar. */
    method NavItemClicked(index: nat)
      requires Valid() && index < |navPages|
      modifies navActive, pageActive, this`currentPage, this`sidebarOpen
      ensures Valid()
      ensures navActive[..] == Matches(navPages, navPages[index])
      ensures pageActive[..] == Matches(pageIds, PageId(navPages[index]))
      ensures currentPage == if PageId(navPages[index]) in pageIds then navPages[index] else old(currentPage)
      ensures !sidebarOpen
    {
      ShowPage(navPages[index]);
      ToggleSidebar(Some(false));
    }

    /** `addIngredient(tag)`: merge the quick tag into the input field. */
    method AddIngredient(tag: string)
      modifies this`input
      ensures input == Merged(old(input), tag)
      ensures tag in Entries(old(input)) ==> input == old(input)
    {
      input := Merged(input, tag);
    }

    /** `showLoading(show)`: show or hide the loading indicator. */
    method ShowLoading(show: bool)
      modifies this`loading, this`loadingHistory
      ensures loading == show && loadingHistory == old(loadingHistory) + [show]
    {
      loading := show;
      loadingHistory := loadingHistory + [show];
    }

    /** `displayRecipes(recipes)`: with no recipes (`null` or `[]`) clear the cards and show
        the "no results" marker, keeping `currentRecipes`; otherwise hide the marker, keep the
        list as `currentRecipes` and show one card per recipe, in order. */
    method DisplayRecipes(recipes: Option<seq<RecipeSummary>>)
      modifies this`cards, this`noResultsShown, this`currentRecipes
      ensures !HasRecipes(recipes) ==>
        cards == [] && noResultsShown && currentRecipes == old(currentRecipes)
      ensures HasRecipes(recipes) ==>
        !noResultsShown && currentRecipes == recipes.value && cards == RenderCards(recipes.value)
    {
      if !HasRecipes(recipes) {
        cards := [];
        noResultsShown := true;
        return;
      }
      noResultsShown := false;
      currentRecipes := recipes.value;
      cards := RenderCards(recipes.value);
    }

    /** `searchRecipes()`, with `search` standing for the search endpoint: the response to a
        request for the given ingredient text. Returns the text it searched for (None when no
        request was made) and the notice it raised. An empty trimmed input raises a notice and
        changes nothing. Otherwise the loading indicator is switched on, the results page is
        shown before the response is known, the response is displayed on success (with the
        subtitle naming the query) or a notice raised on failure, and the indicator is
        switched off on both paths. */
    method SearchRecipes(search: string -> Fetched<Option<seq<RecipeSummary>>>)
      returns (query: Option<string>, alert: Option<Alert>)
      requires Valid()
      modifies this, navActive, pageActive
      ensures Valid()
      ensures Trim(old(input)) == "" ==>
        query == None && alert == Some(EnterIngredient)
        && unchanged(this) && unchanged(navActive) && unchanged(pageActive)
      ensures Trim(old(input)) != "" ==>
        query == Some(Trim(old(input)))
        && !loading && loadingHistory == old(loadingHistory) + [true, false]
        && navActive[..] == Matches(navPages, "results")
        && pageActive[..] == Matches(pageIds, PageId("results"))
        && currentPage == (if PageId("results") in pageIds then "results" else old(currentPage))
      ensures Trim(old(input)) != "" && search(Trim(old(input))).Fetched? ==>
        var body := search(Trim(old(input))).body;
        alert == None && subtitle == "Based on: " + Trim(old(input))
        && (!HasRecipes(body) ==> cards == [] && noResultsShown && currentRecipes == old(currentRecipes))
        && (HasRecipes(body) ==>
              !noResultsShown && currentRecipes == body.value && cards == RenderCards(body.value))
      ensures Trim(old(input)) != "" && search(Trim(old(input))).FetchFailed? ==>
        alert == Some(SearchFailed) && cards == old(cards) && noResultsShown == old(noResultsShown)
        && currentRecipes == old(currentRecipes) && subtitle == old(subtitle)
      ensures input == old(input) && sidebarOpen == old(sidebarOpen) && details == old(details)
    {
      var ingredients := Trim(input);
      if ingredients == "" {
        query, alert := None, Some(EnterIngredient);
        return;
      }
      query := Some(ingredients);
      alert := RunSearch(ingredients, search(ingredients));
    }

    /** The request part of `searchRecipes` for a non-empty query, with `response` the
        endpoint's answer: the indicator is switched on, the results page shown, the response
        handled, and the indicator switched off. */
    method RunSearch(ingredients: string, response: Fetched<Option<seq<RecipeSummary>>>)
      returns (alert: Option<Alert>)
      requires Valid()
      modifies navActive, pageActive, this`currentPage, this`loading, this`loadingHistory
      modifies this`cards, this`noResultsShown, this`currentRecipes, this`subtitle
      ensures Valid()
      ensures !loading && loadingHistory == old(loadingHistory) + [true, false]
      ensures navActive[..] == Matches(navPages, "results")
      ensures pageActive[..] == Matches(pageIds, PageId("results"))
      ensures currentPage == (if PageId("results") in pageIds then "results" else old(currentPage))
      ensures response.Fetched? ==>
        alert == None && subtitle == "Based on: " + ingredients
        && (!HasRecipes(response.body) ==>
              cards == [] && noResultsShown && currentRecipes == old(currentRecipes))
        && (HasRecipes(response.body) ==>
              !noResultsShown && currentRecipes == response.body.value
              && cards == RenderCards(response.body.value))
      ensures response.FetchFailed? ==>
        alert == Some(SearchFailed) && cards == old(cards) && noResultsShown == old(noResultsShown)
        && currentRecipes == old(currentRecipes) && subtitle == old(subtitle)
    {
      ShowLoading(true);
      ShowPage("results");
      alert := ShowSearchResponse(ingredients, response);
      ShowLoading(false);
    }

    /** The `try`/`catch` of `searchRecipes` once the response to `ingredients` is known: a
        body is displayed and the subtitle names the query; a failure raises a notice and
        leaves the results as they were. */
    method ShowSearchResponse(ingredients: string, response: Fetched<Option<seq<RecipeSummary>>>)
      returns (alert: Option<Alert>)
      modifies this`cards, this`noResultsShown, this`currentRecipes, this`subtitle
      ensures response.Fetched? ==>
        alert == None && subtitle == "Based on: " + ingredients
        && (!HasRecipes(response.body) ==>
              cards == [] && noResultsShown && currentRecipes == old(currentRecipes))
        && (HasRecipes(response.body) ==>
              !noResultsShown && currentRecipes == response.body.value
              && cards == RenderCards(response.body.value))
      ensures response.FetchFailed? ==>
        alert == Some(SearchFailed) && cards == old(cards) && noResultsShown == old(noResultsShown)
        && currentRecipes == old(currentRecipes) && subtitle == old(subtitle)
    {
      match response {
        case Fetched(body) =>
          DisplayRecipes(body);
          subtitle := "Based on: " + ingredients;
          alert := None;
        case FetchFailed =>
          alert := Some(SearchFailed);
      }
    }

    /** `showRecipeDetails(recipeId)`, with `lookup` standing for the detail endpoint. The
        loading indicator is switched on; a recipe in the response is rendered and the details
        page shown; a failed request, or a `null` body that makes rendering throw, raises a
        notice and changes neither the view nor the page; the indicator is switched off on
        every path. */
    method ShowRecipeDetails(recipeId: int, lookup: int -> Fetched<Option<RecipeDetail>>)
      returns (alert: Option<Alert>)
      requires Valid()
      modifies this, navActive, pageActive
      ensures Valid()
      ensures !loading && loadingHistory == old(loadingHistory) + [true, false]
      ensures var response := lookup(recipeId);
        response.Fetched? && response.body.Some? ==>
          alert == None && details == Some(RenderDetail(response.body.value))
          && navActive[..] == Matches(navPages, "details")
          && pageActive[..] == Matches(pageIds, PageId("details"))
          && currentPage == (if PageId("details") in pageIds then "details" else old(currentPage))
      ensures var response := lookup(recipeId);
        !(response.Fetched? && response.body.Some?) ==>
          alert == Some(DetailsFailed) && details == old(details) && currentPage == old(currentPage)
          && unchanged(navActive) && unchanged(pageActive)
      ensures input == old(input) && sidebarOpen == old(sidebarOpen) && cards == old(cards)
      ensures currentRecipes == old(currentRecipes) && noResultsShown == old(noResultsShown)
      ensures subtitle == old(subtitle)
    {
      ShowLoading(true);
      var response := lookup(recipeId);
      if response.Fetched? && response.body.Some? {
        details := Some(RenderDetail(response.body.value));
        ShowPage("details");
        alert := None;
      } else {
        alert := Some(DetailsFailed);
      }
      ShowLoading(false);
    }
  }
}
