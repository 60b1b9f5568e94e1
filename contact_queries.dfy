/**
 * The `useContacts` hook: the client-side derivation of one page of the contact
 * list from the fetched contacts (normalize, search, group filter, stable sort,
 * paginate), the query keys, and the cache entries each mutation invalidates.
 *
 * `lower` stands for `String.prototype.toLowerCase` and `collate` for
 * `String.prototype.localeCompare(_, "vi")`; both are parameters because their
 * Unicode tables are outside the model.
 */
module ContactQueries {
  import opened ContactTypes
  import Seqs
  import Sorting

  // ---------------------------------------------------------------- filters

  /** One contact against an already lowercased, non-empty search term. */
  predicate MatchesSearch(lower: string -> string, term: string, c: NormalizedContact) {
    || Seqs.Contains(lower(c.name), term)
    || Seqs.Contains(lower(c.email), term)
    || (c.phone != "" && Seqs.Contains(lower(c.phone), term))
  }

  /** The search step: applied only when a non-empty search string is given. */
  function SearchFilter(lower: string -> string, search: Option<string>, cs: seq<NormalizedContact>)
    : (r: seq<NormalizedContact>)
    ensures search.None? || search.value == "" ==> r == cs
    ensures search.Some? && search.value != "" ==>
              forall c :: c in r <==> c in cs && MatchesSearch(lower, lower(search.value), c)
    ensures |r| <= |cs|
  {
    if search.Some? && search.value != "" then
      var term := lower(search.value);
      Seqs.Filter(c => MatchesSearch(lower, term, c), cs)
    else cs
  }

  /** The search step keeps survivors in their original relative order. */
  lemma SearchFilterKeepsOrder(lower: string -> string, search: Option<string>, a: seq<NormalizedContact>, b: seq<NormalizedContact>)
    ensures SearchFilter(lower, search, a + b) == SearchFilter(lower, search, a) + SearchFilter(lower, search, b)
  {
    if search.Some? && search.value != "" {
      var term := lower(search.value);
      Seqs.FilterConcat(c => MatchesSearch(lower, term, c), a, b);
    }
  }

  predicate InGroup(group: string, c: NormalizedContact) {
    c.group == group
  }

  /** The group step: skipped for an absent or empty group and for the "all groups" sentinel. */
  function GroupFilter(group: Option<string>, cs: seq<NormalizedContact>): (r: seq<NormalizedContact>)
    ensures group.None? || group.value == "" || group.value == AllGroups ==> r == cs
    ensures group.Some? && group.value != "" && group.value != AllGroups ==>
              forall c :: c in r <==> c in cs && c.group == group.value
    ensures |r| <= |cs|
  {
    if group.Some? && group.value != "" && group.value != AllGroups then
      Seqs.Filter(c => InGroup(group.value, c), cs)
    else cs
  }

  /** The group step keeps survivors in their original relative order. */
  lemma GroupFilterKeepsOrder(group: Option<string>, a: seq<NormalizedContact>, b: seq<NormalizedContact>)
    ensures GroupFilter(group, a + b) == GroupFilter(group, a) + GroupFilter(group, b)
  {
    if group.Some? && group.value != "" && group.value != AllGroups {
      Seqs.FilterConcat(c => InGroup(group.value, c), a, b);
    }
  }

  /** Each filter keeps every occurrence of a surviving contact (duplicates included). */
  lemma FiltersKeepOccurrences(lower: string -> string, params: ContactsSearchParams, cs: seq<NormalizedContact>, c: NormalizedContact)
    requires params.search.Some? && params.search.value != ""
    requires params.group.Some? && params.group.value != "" && params.group.value != AllGroups
    ensures multiset(GroupFilter(params.group, SearchFilter(lower, params.search, cs)))[c]
         == if MatchesSearch(lower, lower(params.search.value), c) && c.group == params.group.value
            then multiset(cs)[c] else 0
  {
    var term := lower(params.search.value);
    var s := SearchFilter(lower, params.search, cs);
    Seqs.FilterCount(c => MatchesSearch(lower, term, c), cs, c);
    Seqs.FilterCount(c => InGroup(params.group.value, c), s, c);
  }

  // ---------------------------------------------------------------- sorting

  /** `String(contact[sortBy])`: every sortable field is already a string. */
  function SortKey(c: NormalizedContact, field: SortField): string {
    match field
    case ByName => c.name
    case ByEmail => c.email
    case ByCreatedAt => c.createdAt
  }

  /** The comparator handed to `sort`: collation of the keys, negated when the order is "desc". */
  function ContactComparator(collate: (string, string) -> int, field: SortField, order: Option<SortOrder>)
    : (NormalizedContact, NormalizedContact) -> int
  {
    Sorting.KeyedComparator(collate, (c: NormalizedContact) => SortKey(c, field), order == Some(Desc))
  }

  lemma ComparatorValid(collate: (string, string) -> int, field: SortField, order: Option<SortOrder>)
    requires Sorting.ValidComparator(collate)
    ensures Sorting.ValidComparator(ContactComparator(collate, field, order))
  {
    Sorting.KeyedComparatorValid(collate, (c: NormalizedContact) => SortKey(c, field), order == Some(Desc));
  }

  /** The sort step: a stable sort when a sort field is given, the identity otherwise. */
  function SortStep(collate: (string, string) -> int, sortBy: Option<SortField>, order: Option<SortOrder>, cs: seq<NormalizedContact>)
    : (r: seq<NormalizedContact>)
    ensures |r| == |cs|
    ensures sortBy.None? ==> r == cs
  {
    if sortBy.Some? then Sorting.SortSeq(ContactComparator(collate, sortBy.value, order), cs) else cs
  }

  /** Sorting reorders and never adds, drops or duplicates a contact. */
  lemma SortStepPermutes(collate: (string, string) -> int, sortBy: Option<SortField>, order: Option<SortOrder>, cs: seq<NormalizedContact>)
    ensures multiset(SortStep(collate, sortBy, order, cs)) == multiset(cs)
  {
    if sortBy.Some? {
      Sorting.SortPermutes(ContactComparator(collate, sortBy.value, order), cs);
    }
  }

  /** The sorted list is ascending in the key's collation, or descending for "desc". */
  lemma SortStepOrdered(collate: (string, string) -> int, field: SortField, order: Option<SortOrder>, cs: seq<NormalizedContact>, i: int, j: int)
    requires Sorting.ValidComparator(collate)
    requires 0 <= i < j < |cs|
    ensures var r := SortStep(collate, Some(field), order, cs);
            if order == Some(Desc) then collate(SortKey(r[j], field), SortKey(r[i], field)) <= 0
            else collate(SortKey(r[i], field), SortKey(r[j], field)) <= 0
  {
    var cmp := ContactComparator(collate, field, order);
    ComparatorValid(collate, field, order);
    Sorting.SortSorted(cmp, cs);
    var r := SortStep(collate, Some(field), order, cs);
    assert cmp(r[i], r[j]) <= 0;
  }

  /**
   * Stability: for every contact `y`, the contacts whose key compares equal to
   * `y`'s keep the order they had before the sort (in both directions).
   */
  lemma SortStepStable(collate: (string, string) -> int, field: SortField, order: Option<SortOrder>, cs: seq<NormalizedContact>, y: NormalizedContact)
    requires Sorting.ValidComparator(collate)
    ensures var cmp := ContactComparator(collate, field, order);
            Sorting.KeyClass(cmp, y, SortStep(collate, Some(field), order, cs)) == Sorting.KeyClass(cmp, y, cs)
  {
    ComparatorValid(collate, field, order);
    Sorting.SortStable(ContactComparator(collate, field, order), y, cs);
  }

  /**
   * Any stable sort of the filtered contacts gives exactly the sort step's
   * result, so the model does not depend on which stable algorithm the engine uses.
   */
  lemma AnyStableSortAgrees(collate: (string, string) -> int, field: SortField, order: Option<SortOrder>, cs: seq<NormalizedContact>, r: seq<NormalizedContact>)
    requires Sorting.ValidComparator(collate)
    requires Sorting.Sorted(ContactComparator(collate, field, order), r)
    requires forall y :: Sorting.KeyClass(ContactComparator(collate, field, order), y, r)
                      == Sorting.KeyClass(ContactComparator(collate, field, order), y, cs)
    ensures r == SortStep(collate, Some(field), order, cs)
  {
    ComparatorValid(collate, field, order);
    Sorting.StableSortIsSortSeq(ContactComparator(collate, field, order), cs, r);
  }

  // ---------------------------------------------------------------- pagination

  /** `params.page || 1`. */
  function EffectivePage(page: Option<nat>): (p: nat)
    ensures p >= 1
    ensures page.Some? && page.value != 0 ==> p == page.value
    ensures page.None? || page.value == 0 ==> p == 1
  {
    if page.Some? && page.value != 0 then page.value else 1
  }

  /** `params.limit || 10`. */
  function EffectiveLimit(limit: Option<nat>): (l: nat)
    ensures l >= 1
    ensures limit.Some? && limit.value != 0 ==> l == limit.value
    ensures limit.None? || limit.value == 0 ==> l == 10
  {
    if limit.Some? && limit.value != 0 then limit.value else 10
  }

  /** `Math.ceil(total / limit)`: the fewest pages of `limit` items that hold `total` items. */
  function TotalPages(total: nat, limit: nat): (n: nat)
    requires limit >= 1
    ensures n * limit >= total
    ensures n > 0 ==> (n - 1) * limit < total
    ensures n == 0 <==> total == 0
  {
    (total + limit - 1) / limit
  }

  /** The number of items of a window of `limit` from `start` over `total` items: clamped, none past the end. */
  function WindowLength(total: nat, start: nat, limit: nat): nat {
    if start >= total then 0 else if total - start < limit then total - start else limit
  }

  /** `s.slice(start, start + limit)`, which JavaScript clamps to the length. */
  function Window<T>(s: seq<T>, start: nat, limit: nat): (r: seq<T>)
    ensures |r| == WindowLength(|s|, start, limit)
    ensures forall i :: 0 <= i < |r| ==> start + i < |s| && r[i] == s[start + i]
  {
    if start >= |s| then []
    else if start + limit <= |s| then s[start..start + limit]
    else s[start..]
  }

  /** The index of the first item of a page. */
  function PageStart(page: nat, limit: nat): nat
    requires page >= 1
  {
    (page - 1) * limit
  }

  /** The number of items on a page: `limit`, fewer on the last page, none past the end. */
  function PageLength(total: nat, page: nat, limit: nat): nat
    requires page >= 1
  {
    WindowLength(total, PageStart(page, limit), limit)
  }

  /** The page `page` of `s`: `s.slice((page - 1) * limit, (page - 1) * limit + limit)`. */
  function PageSlice<T>(s: seq<T>, page: nat, limit: nat): (r: seq<T>)
    requires page >= 1
    ensures |r| <= limit
    ensures PageStart(page, limit) >= |s| ==> r == []
    ensures |r| == PageLength(|s|, page, limit)
    ensures forall i :: 0 <= i < |r| ==> PageStart(page, limit) + i < |s| && r[i] == s[PageStart(page, limit) + i]
  {
    Window(s, PageStart(page, limit), limit)
  }

  /** A page past the last one is empty. */
  lemma PageBeyondLastIsEmpty<T>(s: seq<T>, page: nat, limit: nat)
    requires limit >= 1 && page > TotalPages(|s|, limit)
    ensures PageSlice(s, page, limit) == []
  {
    var n := TotalPages(|s|, limit);
    assert (page - 1) * limit >= n * limit by {
      MulMono(n, page - 1, limit);
    }
  }

  lemma MulMono(a: nat, b: nat, k: nat)
    requires a <= b
    ensures a * k <= b * k
  {
  }

  /** Every page before the last one is full. */
  lemma EarlyPagesAreFull<T>(s: seq<T>, page: nat, limit: nat)
    requires limit >= 1 && 1 <= page < TotalPages(|s|, limit)
    ensures |PageSlice(s, page, limit)| == limit
  {
    var n := TotalPages(|s|, limit);
    assert page * limit <= (n - 1) * limit by {
      MulMono(page, n - 1, limit);
    }
  }

  /** Pages 1..n laid end to end. */
  function PagesUpTo<T>(s: seq<T>, limit: nat, n: nat): seq<T> {
    if n == 0 then [] else PagesUpTo(s, limit, n - 1) + PageSlice(s, n, limit)
  }

  lemma {:induction false} PagesUpToPrefix<T>(s: seq<T>, limit: nat, n: nat)
    ensures PagesUpTo(s, limit, n) == s[..if n * limit <= |s| then n * limit else |s|]
  {
    if n > 0 {
      PagesUpToPrefix(s, limit, n - 1);
      var m := n - 1;
      assert n * limit == m * limit + limit;
    }
  }

  /** Concatenating pages 1..totalPages gives back the whole list, in order. */
  lemma AllPagesReassemble<T>(s: seq<T>, limit: nat)
    requires limit >= 1
    ensures PagesUpTo(s, limit, TotalPages(|s|, limit)) == s
  {
    PagesUpToPrefix(s, limit, TotalPages(|s|, limit));
  }

  // ---------------------------------------------------------------- the derivation

  /** What `useContacts` returns as `data`; `page` and `limit` are absent before data arrives. */
  datatype ListView = ListView(
    data: seq<NormalizedContact>,
    total: nat,
    totalPages: nat,
    page: Option<nat>,
    limit: Option<nat>
  )

  /** The filtered and sorted list, before pagination. */
  function Processed(lower: string -> string, collate: (string, string) -> int, params: ContactsSearchParams, cs: seq<Contact>)
    : (r: seq<NormalizedContact>)
    ensures |r| <= |cs|
  {
    var normalized := NormalizeAll(cs);
    var searched := SearchFilter(lower, params.search, normalized);
    var grouped := GroupFilter(params.group, searched);
    SortStep(collate, params.sortBy, params.sortOrder, grouped)
  }

  /** `processedData`, with `None` for a query that has no data yet. */
  function Derive(lower: string -> string, collate: (string, string) -> int, params: ContactsSearchParams, fetched: Option<seq<Contact>>)
    : (v: ListView)
    ensures fetched.None? ==> v == ListView([], 0, 0, None, None)
    ensures fetched.Some? ==>
              && v.total == |Processed(lower, collate, params, fetched.value)|
              && v.page == Some(EffectivePage(params.page))
              && v.limit == Some(EffectiveLimit(params.limit))
              && v.totalPages * v.limit.value >= v.total
              && (v.totalPages > 0 ==> (v.totalPages - 1) * v.limit.value < v.total)
              && |v.data| <= v.limit.value
              && |v.data| == PageLength(v.total, v.page.value, v.limit.value)
              && forall i :: 0 <= i < |v.data| ==>
                   && PageStart(v.page.value, v.limit.value) + i < v.total
                   && v.data[i] == Processed(lower, collate, params, fetched.value)[PageStart(v.page.value, v.limit.value) + i]
  {
    match fetched
    case None => ListView([], 0, 0, None, None)
    case Some(cs) =>
      var filtered := Processed(lower, collate, params, cs);
      var page := EffectivePage(params.page);
      var limit := EffectiveLimit(params.limit);
      ListView(PageSlice(filtered, page, limit), |filtered|, TotalPages(|filtered|, limit), Some(page), Some(limit))
  }

  /**
   * The derivation as the hook runs it: `filtered` is a fresh array built by
   * `map`, reassigned by each filter and sorted in place. The fetched array is
   * only read (the method may not modify it).
   */
  method DeriveView(lower: string -> string, collate: (string, string) -> int, params: ContactsSearchParams, fetched: array?<Contact>)
    returns (v: ListView)
    ensures v == Derive(lower, collate, params, if fetched == null then None else Some(fetched[..]))
  {
    if fetched == null {
      return ListView([], 0, 0, None, None);
    }
    var filtered := NormalizeAll(fetched[..]);
    if params.search.Some? && params.search.value != "" {
      var term := lower(params.search.value);
      filtered := Seqs.Filter(c => MatchesSearch(lower, term, c), filtered);
    }
    if params.group.Some? && params.group.value != "" && params.group.value != AllGroups {
      var group := params.group.value;
      filtered := Seqs.Filter(c => InGroup(group, c), filtered);
    }
    assert filtered == GroupFilter(params.group, SearchFilter(lower, params.search, NormalizeAll(fetched[..])));
    if params.sortBy.Some? {
      filtered := SortCopy(ContactComparator(collate, params.sortBy.value, params.sortOrder), filtered);
    }
    assert filtered == Processed(lower, collate, params, fetched[..]);
    var page := EffectivePage(params.page);
    var limit := EffectiveLimit(params.limit);
    v := ListView(PageSlice(filtered, page, limit), |filtered|, TotalPages(|filtered|, limit), Some(page), Some(limit));
  }

  /** `filtered.sort(cmp)` on the array that holds `s`: copy, sort in place, read back. */
  method SortCopy(cmp: (NormalizedContact, NormalizedContact) -> int, s: seq<NormalizedContact>)
    returns (r: seq<NormalizedContact>)
    ensures r == Sorting.SortSeq(cmp, s)
  {
    var buffer := new NormalizedContact[|s|](i requires 0 <= i < |s| => s[i]);
    assert buffer[..] == s;
    Sorting.SortInPlace(buffer, cmp);
    r := buffer[..];
  }

  // ---------------------------------------------------------------- query keys and invalidation

  type QueryKey = seq<string>

  function AllKey(): QueryKey { ["contacts"] }
  function ListKey(): QueryKey { AllKey() + ["list"] }
  function DetailsKey(): QueryKey { AllKey() + ["detail"] }
  function DetailKey(id: string): QueryKey { DetailsKey() + [id] }

  /** The key the list query is stored under: it ignores the search parameters. */
  function ListQueryKey(params: ContactsSearchParams): (k: QueryKey)
    ensures k == ["contacts", "list"]
  {
    ListKey()
  }

  /** Detail keys name one contact each, and every key lives under `["contacts"]`. */
  lemma KeysShape(id1: string, id2: string, params: ContactsSearchParams)
    ensures DetailKey(id1) == DetailKey(id2) <==> id1 == id2
    ensures DetailKey(id1) == ["contacts", "detail", id1]
    ensures AllKey() <= ListQueryKey(params) && AllKey() <= DetailKey(id1)
    ensures ListKey() != DetailKey(id1)
  {
    assert DetailKey(id1)[2] == id1 && DetailKey(id2)[2] == id2;
  }

  /** React Query's partial matching: a filter key matches every key it is a prefix of. */
  predicate Matches(filter: QueryKey, k: QueryKey) {
    filter <= k
  }

  /** The keys this client ever stores: the list key and detail keys. */
  predicate KnownKey(k: QueryKey) {
    k == ListKey() || (|k| == 3 && k[..2] == DetailsKey())
  }

  /** Among known keys, the list filter matches only the list key and a detail filter only its own key. */
  lemma {:induction false} InvalidationTargets(k: QueryKey, id: string)
    requires KnownKey(k)
    ensures Matches(ListKey(), k) <==> k == ListKey()
    ensures Matches(DetailKey(id), k) <==> k == DetailKey(id)
  {
    if |k| == 3 && k[..2] == DetailsKey() {
      assert k[1] == "detail";
      assert ListKey()[1] == "list";
      assert k == DetailsKey() + [k[2]];
    }
  }

  /** The query cache: which keys hold data, and which of those are stale. */
  class QueryCache {
    var entries: set<QueryKey>
    var stale: set<QueryKey>

    ghost predicate Valid()
      reads this
    {
      stale <= entries && forall k | k in entries :: KnownKey(k)
    }

    constructor ()
      ensures Valid() && entries == {} && stale == {}
    {
      entries := {};
      stale := {};
    }

    /** A query with no data or stale data is fetched when next observed. */
    predicate NeedsFetch(k: QueryKey)
      reads this
    {
      k !in entries || k in stale
    }

    /** A fetch for a known key completed: its data is now fresh. */
    method Store(k: QueryKey)
      requires Valid() && KnownKey(k)
      modifies this
      ensures Valid()
      ensures entries == old(entries) + {k} && stale == old(stale) - {k}
      ensures !NeedsFetch(k)
    {
      entries := entries + {k};
      stale := stale - {k};
    }

    /** `invalidateQueries({queryKey: filter})`: every stored key the filter matches becomes stale. */
    method Invalidate(filter: QueryKey)
      requires Valid()
      modifies this
      ensures Valid() && entries == old(entries)
      ensures stale == old(stale) + set k | k in entries && Matches(filter, k)
    {
      stale := stale + set k | k in entries && Matches(filter, k);
    }

    /** `useCreateContact` settled: on success only the list goes stale. */
    method OnCreateSettled(succeeded: bool)
      requires Valid()
      modifies this
      ensures Valid() && entries == old(entries)
      ensures succeeded ==> stale == old(stale) + (entries * {ListKey()})
      ensures !succeeded ==> stale == old(stale)
    {
      if succeeded {
        Invalidate(ListKey());
        ListOnly();
      }
    }

    /** `useUpdateContact` settled: on success the list and the edited contact's detail go stale. */
    method OnUpdateSettled(succeeded: bool, id: string)
      requires Valid()
      modifies this
      ensures Valid() && entries == old(entries)
      ensures succeeded ==> stale == old(stale) + (entries * {ListKey(), DetailKey(id)})
      ensures !succeeded ==> stale == old(stale)
    {
      if succeeded {
        Invalidate(ListKey());
        ListOnly();
        Invalidate(DetailKey(id));
        DetailOnly(id);
      }
    }

    /**
     * `useDeleteContact` settled: on success only the list goes stale; the
     * deleted contact's detail entry is left as it was.
     */
    method OnDeleteSettled(succeeded: bool, id: string)
      requires Valid()
      modifies this
      ensures Valid() && entries == old(entries)
      ensures succeeded ==> stale == old(stale) + (entries * {ListKey()})
      ensures !succeeded ==> stale == old(stale)
      ensures DetailKey(id) in stale <==> DetailKey(id) in old(stale)
    {
      if succeeded {
        Invalidate(ListKey());
        ListOnly();
        KeysShape(id, id, ContactsSearchParams(None, None, None, None, None, None));
      }
    }

    lemma ListOnly()
      requires Valid()
      ensures (set k | k in entries && Matches(ListKey(), k)) == entries * {ListKey()}
    {
      forall k | k in entries {
        InvalidationTargets(k, "");
      }
    }

    lemma DetailOnly(id: string)
      requires Valid()
      ensures (set k | k in entries && Matches(DetailKey(id), k)) == entries * {DetailKey(id)}
    {
      forall k | k in entries {
        InvalidationTargets(k, id);
      }
    }
  }
}
