/**
 * The search page's filter (frontend/src/app/search/page.jsx): the query from
 * the URL is trimmed, and a product is shown when the lower-cased query occurs
 * in its lower-cased name, category or subcategory. Fetching the product list
 * is left to the caller, which passes it in.
 */
module Search {
  import opened Text
  import opened Seqs
  import opened Listings

  /** `name.includes(q) || category.includes(q) || sub.includes(q)` on the lower-cased fields. */
  predicate Matches(p: Listing, q: string)
  {
    Contains(ToLower(p.name), q) || Contains(ToLower(p.category), q) || Contains(ToLower(p.subcategory), q)
  }

  /** The products the page shows for the raw `query` parameter. */
  function Results(rawQuery: string, all: seq<Listing>): seq<Listing>
  {
    var query := Trim(rawQuery);
    if query == "" then [] else Filter(all, (p: Listing) => Matches(p, ToLower(query)))
  }

  /**
   * An all-white-space query shows nothing; any other query shows exactly the
   * matching products, in their original order.
   */
  lemma ResultsSpec(rawQuery: string, all: seq<Listing>)
    ensures (forall i :: 0 <= i < |rawQuery| ==> IsSpace(rawQuery[i])) ==> Results(rawQuery, all) == []
    ensures IsSubsequence(Results(rawQuery, all), all)
    ensures Trim(rawQuery) != "" ==>
              forall p :: p in Results(rawQuery, all) <==> p in all && Matches(p, ToLower(Trim(rawQuery)))
  {
    TrimEmptyIff(rawQuery);
    if Trim(rawQuery) != "" {
      FilterIsSubsequence(all, (p: Listing) => Matches(p, ToLower(Trim(rawQuery))));
    }
  }

  /** The letter case of the query does not change what is found. */
  lemma QueryCaseIgnored(rawQuery: string, all: seq<Listing>)
    ensures Results(ToLower(rawQuery), all) == Results(rawQuery, all)
  {
    TrimLower(rawQuery);
    ToLowerIdempotent(Trim(rawQuery));
    var q := Trim(rawQuery);
    if q != "" {
      assert |ToLower(q)| == |q|;
    } else {
      assert ToLower(q) == [];
    }
  }

  /** The letter case of a product's fields does not change whether it is found. */
  lemma FieldCaseIgnored(p: Listing, q: string)
    ensures Matches(p.(name := ToLower(p.name), category := ToLower(p.category),
                       subcategory := ToLower(p.subcategory)), q) == Matches(p, q)
  {
    ToLowerIdempotent(p.name);
    ToLowerIdempotent(p.category);
    ToLowerIdempotent(p.subcategory);
  }

  /** A product whose name contains the query, ignoring case, is always found. */
  lemma NameMatchFound(rawQuery: string, all: seq<Listing>, k: nat, at: nat)
    requires k < |all| && Trim(rawQuery) != ""
    requires OccursAt(ToLower(all[k].name), ToLower(Trim(rawQuery)), at)
    ensures all[k] in Results(rawQuery, all)
  {
    ContainsAt(ToLower(all[k].name), ToLower(Trim(rawQuery)), at);
  }

  /** Trimming the query first does not change the results. */
  lemma ResultsOfTrimmed(rawQuery: string, all: seq<Listing>)
    ensures Results(Trim(rawQuery), all) == Results(rawQuery, all)
  {
    TrimIdempotent(rawQuery);
  }
}
