/**
 * The provider list filters of the providers view (frontend/webapp/src/views/Providers.tsx):
 * `applyFilters` narrows the fetched providers by the national flag and by country.
 */
module ProvidersView {
  import opened Common
  import opened Seqs

  /** A provider as the API returns it; optional fields are absent (`undefined`) or present. */
  datatype Provider = Provider(
    id: int,
    name: string,
    isNational: Option<bool>,
    country: Option<string>,
    contact: Option<string>,
    address: Option<string>,
    phone: Option<string>,
    email: Option<string>,
    notes: Option<string>)

  /** The filter state: `isNational` is `null` (no filter) or a flag; `country` is `''` (no filter) or a name. */
  datatype Filters = Filters(isNational: Option<bool>, country: string)

  /** `item.is_national === filters.isNational`: strict equality, so an absent flag never matches a flag. */
  predicate NationalMatches(p: Provider, flag: bool) { p.isNational == Some(flag) }

  /** `item.country === filters.country`. */
  predicate CountryMatches(p: Provider, country: string) { p.country == Some(country) }

  /** A provider passes every filter that is switched on. */
  predicate Passes(p: Provider, f: Filters) {
    && (f.isNational.None? || NationalMatches(p, f.isNational.value))
    && (f.country == "" || CountryMatches(p, f.country))
  }

  /** The first stage: the national filter, when it is not `null`. */
  function ByNational(data: seq<Provider>, f: Filters): seq<Provider> {
    if f.isNational.Some? then Filter(data, (p: Provider) => NationalMatches(p, f.isNational.value)) else data
  }

  /** The second stage: the country filter, when the country is a non-empty string. */
  function ByCountry(data: seq<Provider>, f: Filters): seq<Provider> {
    if f.country != "" then Filter(data, (p: Provider) => CountryMatches(p, f.country)) else data
  }

  /** The value `applyFilters` hands to `setFilteredItems`. */
  function Filtered(data: seq<Provider>, f: Filters): seq<Provider> {
    ByCountry(ByNational(data, f), f)
  }

  /**
   * `applyFilters`: a local list reassigned by each active filter in turn. The result is an
   * order-preserving subsequence holding exactly the providers that pass.
   */
  method ApplyFilters(data: seq<Provider>, f: Filters) returns (result: seq<Provider>)
    ensures result == Filtered(data, f)
    ensures IsSubsequence(result, data)
    ensures forall p :: p in result <==> p in data && Passes(p, f)
  {
    result := data;
    if f.isNational.Some? {
      result := Filter(result, (p: Provider) => NationalMatches(p, f.isNational.value));
    }
    if f.country != "" {
      result := Filter(result, (p: Provider) => CountryMatches(p, f.country));
    }
    FilteredIsSubsequence(data, f);
    forall p { FilteredMembership(data, f, p); }
  }

  /** With no filter switched on the list is returned as fetched. */
  lemma NoFiltersIsIdentity(data: seq<Provider>)
    ensures Filtered(data, Filters(None, "")) == data
  {
  }

  /** A provider is kept exactly when it was fetched and passes every active filter. */
  lemma FilteredMembership(data: seq<Provider>, f: Filters, p: Provider)
    ensures p in Filtered(data, f) <==> p in data && Passes(p, f)
  {
    var n := ByNational(data, f);
    if f.isNational.Some? {
      FilterMembership(data, (q: Provider) => NationalMatches(q, f.isNational.value), p);
    }
    if f.country != "" {
      FilterMembership(n, (q: Provider) => CountryMatches(q, f.country), p);
    }
  }

  /** The result keeps the fetched order. */
  lemma FilteredIsSubsequence(data: seq<Provider>, f: Filters)
    ensures IsSubsequence(Filtered(data, f), data)
  {
    var n := ByNational(data, f);
    assert IsSubsequence(n, data) by {
      if f.isNational.Some? {
        FilterIsSubsequence(data, (q: Provider) => NationalMatches(q, f.isNational.value));
      } else {
        SelfSubsequence(data);
      }
    }
    assert IsSubsequence(Filtered(data, f), n) by {
      if f.country != "" {
        FilterIsSubsequence(n, (q: Provider) => CountryMatches(q, f.country));
      } else {
        SelfSubsequence(n);
      }
    }
    SubsequenceTransitive(Filtered(data, f), n, data);
  }

  /** A provider without the national flag is dropped whenever the national filter is on, whichever way. */
  lemma AbsentFlagExcluded(data: seq<Provider>, f: Filters, p: Provider)
    requires f.isNational.Some? && p.isNational.None?
    ensures p !in Filtered(data, f)
  {
    FilteredMembership(data, f, p);
  }

  /** Filtering the filtered list again changes nothing. */
  lemma FilteredIdempotent(data: seq<Provider>, f: Filters)
    ensures Filtered(Filtered(data, f), f) == Filtered(data, f)
  {
    var r := Filtered(data, f);
    forall i | 0 <= i < |r| ensures Passes(r[i], f) {
      FilteredMembership(data, f, r[i]);
    }
    if f.isNational.Some? {
      FilterAll(r, (q: Provider) => NationalMatches(q, f.isNational.value));
    }
    if f.country != "" {
      FilterAll(ByNational(r, f), (q: Provider) => CountryMatches(q, f.country));
    }
  }
}
