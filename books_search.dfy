/** The catalog's search bar and category filter
    (components/books/books-search.tsx). */
module CatalogSearch {
  import opened Wrappers
  import opened SearchParams

  const BooksPath: string := "/books"
  const AllCategories: string := "all"

  /** One entry of the `params` record handed to createQueryString. */
  type Entry = (string, Option<string>)

  /** Null, the empty string and "all" remove a parameter. */
  predicate Clears(value: Option<string>) {
    value.None? || value.value == "" || value.value == AllCategories
  }

  /** The names of a record are distinct. */
  predicate DistinctNames(entries: seq<Entry>) {
    forall i, j :: 0 <= i < j < |entries| ==> entries[i].0 != entries[j].0
  }

  /** Some entry of the record has the name `k`. */
  predicate Names(entries: seq<Entry>, k: string) {
    exists i :: 0 <= i < |entries| && entries[i].0 == k
  }

  /** One turn of the loop: delete the name or set it to the value. */
  function ApplyEntry(ps: Params, e: Entry): (r: Params)
    ensures forall k :: k != e.0 ==> Count(r, k) == Count(ps, k) && Get(r, k) == Get(ps, k)
    ensures forall k :: k != e.0 ==> Named(r, k) == Named(ps, k)
  {
    if Clears(e.1) then Delete(ps, e.0) else Set(ps, e.0, e.1.value)
  }

  /** The parameters after the loop has handled every entry, in order. */
  function ApplyAll(ps: Params, entries: seq<Entry>): Params
  {
    if entries == [] then ps
    else ApplyEntry(ApplyAll(ps, entries[..|entries| - 1]), entries[|entries| - 1])
  }

  /** What a parameter list holds for the name of `e` once `e` has been
      applied: nothing when `e` clears, otherwise exactly one pair with its value. */
  predicate SettledFor(ps: Params, e: Entry) {
    if Clears(e.1) then Count(ps, e.0) == 0
    else Count(ps, e.0) == 1 && Get(ps, e.0) == Some(e.1.value)
  }

  predicate Settled(ps: Params, entries: seq<Entry>) {
    forall i :: 0 <= i < |entries| ==> SettledFor(ps, entries[i])
  }

  /** After the loop every named entry is settled. */
  lemma {:induction false} ApplyAllSettles(ps: Params, entries: seq<Entry>)
    requires DistinctNames(entries)
    ensures Settled(ApplyAll(ps, entries), entries)
  {
    if entries != [] {
      var n := |entries| - 1;
      var front, last := entries[..n], entries[n];
      ApplyAllSettles(ps, front);
      var mid := ApplyAll(ps, front);
      forall i | 0 <= i < |entries| ensures SettledFor(ApplyEntry(mid, last), entries[i]) {
        if i < n {
          assert front[i] == entries[i];
          assert entries[i].0 != last.0;
        }
      }
    }
  }

  /** Names the record does not mention read as they did before. */
  lemma {:induction false} ApplyAllKeepsOthers(ps: Params, entries: seq<Entry>, k: string)
    requires !Names(entries, k)
    ensures Count(ApplyAll(ps, entries), k) == Count(ps, k)
    ensures Get(ApplyAll(ps, entries), k) == Get(ps, k)
    ensures Named(ApplyAll(ps, entries), k) == Named(ps, k)
  {
    if entries != [] {
      var n := |entries| - 1;
      assert entries[n].0 != k;
      assert forall i :: 0 <= i < n ==> entries[..n][i] == entries[i];
      ApplyAllKeepsOthers(ps, entries[..n], k);
    }
  }

  /** A list already settled for every entry is left exactly as it is. */
  lemma {:induction false} SettledIsFixed(ps: Params, entries: seq<Entry>)
    requires Settled(ps, entries)
    ensures ApplyAll(ps, entries) == ps
  {
    if entries != [] {
      var n := |entries| - 1;
      assert Settled(ps, entries[..n]) by {
        forall i | 0 <= i < n ensures SettledFor(ps, entries[..n][i]) {
          assert entries[..n][i] == entries[i];
        }
      }
      SettledIsFixed(ps, entries[..n]);
      assert SettledFor(ps, entries[n]);
    }
  }

  /** createQueryString is idempotent: applying the same record to its own
      result gives the same parameter list, pair for pair. */
  lemma ApplyAllIdempotent(ps: Params, entries: seq<Entry>)
    requires DistinctNames(entries)
    ensures ApplyAll(ApplyAll(ps, entries), entries) == ApplyAll(ps, entries)
  {
    ApplyAllSettles(ps, entries);
    SettledIsFixed(ApplyAll(ps, entries), entries);
  }

  /** createQueryString: start from the current parameters, delete or set
      each entry of the record in turn, and serialise. Each named entry ends
      up removed (null, "" or "all") or set to exactly its value; every
      other parameter keeps its value. */
  method CreateQueryString(searchParams: Params, params: seq<Entry>) returns (newParams: Params, query: string)
    requires DistinctNames(params)
    ensures newParams == ApplyAll(searchParams, params)
    ensures query == Serialize(newParams)
    ensures forall i :: 0 <= i < |params| ==>
      Get(newParams, params[i].0) == (if Clears(params[i].1) then None else Some(params[i].1.value))
    ensures forall k :: !Names(params, k) ==> Get(newParams, k) == Get(searchParams, k)
    ensures forall k :: !Names(params, k) ==> Named(newParams, k) == Named(searchParams, k)
  {
    newParams := searchParams;
    var i := 0;
    while i < |params|
      invariant 0 <= i <= |params|
      invariant newParams == ApplyAll(searchParams, params[..i])
    {
      var (key, value) := params[i];
      if value.None? || value.value == "" || value.value == AllCategories {
        newParams := Delete(newParams, key);
      } else {
        newParams := Set(newParams, key, value.value);
      }
      assert params[..i + 1][..i] == params[..i];
      i := i + 1;
    }
    assert params[..i] == params;
    ApplyAllSettles(searchParams, params);
    forall k | !Names(params, k)
      ensures Get(newParams, k) == Get(searchParams, k) && Named(newParams, k) == Named(searchParams, k)
    {
      ApplyAllKeepsOthers(searchParams, params, k);
    }
    query := Serialize(newParams);
  }

  /** `/books`, with `?query` only when the query is not empty. */
  function BooksHref(query: string): (r: string)
    ensures query == "" ==> r == BooksPath
    ensures query != "" ==> r == BooksPath + "?" + query
  {
    if query == "" then BooksPath else BooksPath + "?" + query
  }

  /** The pushed URL is the bare catalog path exactly when no parameter is left. */
  lemma BareHrefIffNoParams(ps: Params)
    ensures BooksHref(Serialize(ps)) == BooksPath <==> ps == []
  {
    if ps != [] {
      assert |BooksHref(Serialize(ps))| > |BooksPath|;
    }
  }

  /** The search bar and its state. */
  class BooksSearch {
    /** The page's current query parameters. */
    const searchParams: Params
    /** The text in the search box. */
    var search: string

    /** The box starts with the current `search` parameter, or empty. */
    constructor (searchParams: Params)
      ensures this.searchParams == searchParams
      ensures search == OrElse(Get(searchParams, "search"), "")
    {
      this.searchParams := searchParams;
      search := OrElse(Get(searchParams, "search"), "");
    }

    /** The selected category, "all" when the parameter is absent or empty. */
    function Category(): (c: string)
      ensures c != ""
      ensures Truthy(Get(searchParams, "category")) ==> c == Get(searchParams, "category").value
      ensures !Truthy(Get(searchParams, "category")) ==> c == AllCategories
    {
      OrElse(Get(searchParams, "category"), AllCategories)
    }

    /** The clear button shows when a search or category parameter is set. */
    predicate HasFilters()
      ensures !HasFilters() ==> Category() == AllCategories
    {
      Truthy(Get(searchParams, "search")) || Truthy(Get(searchParams, "category"))
    }

    /** Typing in the box. */
    method SetSearch(value: string)
      modifies this
      ensures search == value
    {
      search := value;
    }

    /** handleSearch: set or drop `search` from the box, keep the rest. */
    method HandleSearch() returns (href: string)
      ensures var ps := ApplyAll(searchParams, [("search", Some(search))]);
        && href == BooksHref(Serialize(ps))
        && Get(ps, "search") == (if search == "" || search == AllCategories then None else Some(search))
        && (forall k :: k != "search" ==> Get(ps, k) == Get(searchParams, k))
        && (forall k :: k != "search" ==> Named(ps, k) == Named(searchParams, k))
    {
      var ps, query := CreateQueryString(searchParams, [("search", Some(search))]);
      assert forall k :: k != "search" ==> !Names([("search", Some(search))], k);
      href := BooksHref(query);
    }

    /** handleCategoryChange: "all" drops `category`, any other value sets it. */
    method HandleCategoryChange(value: string) returns (href: string)
      ensures var ps := ApplyAll(searchParams, [("category", Some(value))]);
        && href == BooksHref(Serialize(ps))
        && Get(ps, "category") == (if value == "" || value == AllCategories then None else Some(value))
        && (forall k :: k != "category" ==> Get(ps, k) == Get(searchParams, k))
        && (forall k :: k != "category" ==> Named(ps, k) == Named(searchParams, k))
    {
      var ps, query := CreateQueryString(searchParams, [("category", Some(value))]);
      assert forall k :: k != "category" ==> !Names([("category", Some(value))], k);
      href := BooksHref(query);
    }

    /** clearFilters: empty the box and go to the bare catalog. */
    method ClearFilters() returns (href: string)
      modifies this
      ensures search == "" && href == BooksPath
    {
      search := "";
      href := BooksPath;
    }
  }

  /** Searching for the word "all" drops the search parameter, as choosing
      "All Categories" drops the category. */
  lemma SearchingForAllDropsSearch(ps: Params)
    ensures Get(ApplyAll(ps, [("search", Some(AllCategories))]), "search").None?
  {
  }
}
