/**
 Listing CrowdSec decisions (internal/api/crowdsec_decisions.go): counts per origin
 over the whole list, a filter that overwrites the list it reads, and one page of
 what is left.
 */
module Decisions {
  import opened Options
  import opened Strings
  import Sorting

  datatype Decision = Decision(id: int, origin: Text, rest: Text)

  const LIST_MAX := 100
  const UNKNOWN: Text := "unknown"

  // ---------------------------------------------------------------------
  // Parameters
  // ---------------------------------------------------------------------

  datatype Paging = Paging(limit: int, offset: int)

  /** `atoi` is `strconv.Atoi`; an absent parameter takes its default. */
  function ParseLimitOffset(atoi: Text -> Option<int>, limitRaw: Text, offsetRaw: Text): (p: Option<Paging>)
    ensures p.Some? ==> 1 <= p.value.limit <= LIST_MAX && p.value.offset >= 0
    ensures p.Some? && limitRaw != "" ==> atoi(limitRaw) == Some(p.value.limit)
    ensures p.Some? && offsetRaw != "" ==> atoi(offsetRaw) == Some(p.value.offset)
    ensures p.Some? ==> (limitRaw == "" ==> p.value.limit == 100) && (offsetRaw == "" ==> p.value.offset == 0)
    ensures p.None? <==>
              || (limitRaw != "" && (atoi(limitRaw).None? || !(1 <= atoi(limitRaw).value <= LIST_MAX)))
              || (offsetRaw != "" && (atoi(offsetRaw).None? || atoi(offsetRaw).value < 0))
  {
    if limitRaw != "" && (atoi(limitRaw).None? || atoi(limitRaw).value < 1 || atoi(limitRaw).value > LIST_MAX) then None
    else if offsetRaw != "" && (atoi(offsetRaw).None? || atoi(offsetRaw).value < 0) then None
    else Some(Paging(if limitRaw == "" then LIST_MAX else atoi(limitRaw).value,
                     if offsetRaw == "" then 0 else atoi(offsetRaw).value))
  }

  // ---------------------------------------------------------------------
  // Counting by origin
  // ---------------------------------------------------------------------

  function Key(d: Decision): Text {
    if d.origin == "" then UNKNOWN else d.origin
  }

  function CountKey(s: seq<Decision>, k: Text): nat {
    if s == [] then 0
    else CountKey(s[..|s| - 1], k) + if Key(s[|s| - 1]) == k then 1 else 0
  }

  method CountByOrigin(s: seq<Decision>) returns (byOrigin: map<Text, nat>)
    ensures forall k :: k in byOrigin <==> CountKey(s, k) > 0
    ensures forall k :: k in byOrigin ==> byOrigin[k] == CountKey(s, k)
  {
    byOrigin := map[];
    for n := 0 to |s|
      invariant forall k :: k in byOrigin <==> CountKey(s[..n], k) > 0
      invariant forall k :: k in byOrigin ==> byOrigin[k] == CountKey(s[..n], k)
    {
      assert s[..n + 1][..n] == s[..n];
      var k := Key(s[n]);
      byOrigin := byOrigin[k := (if k in byOrigin then byOrigin[k] else 0) + 1];
    }
    assert s[..|s|] == s;
  }

  function SumKeys(s: seq<Decision>, keys: seq<Text>): nat {
    if keys == [] then 0 else SumKeys(s, keys[..|keys| - 1]) + CountKey(s, keys[|keys| - 1])
  }

  lemma {:induction false} SumGrows(s: seq<Decision>, d: Decision, keys: seq<Text>)
    requires Sorting.Distinct(keys)
    ensures SumKeys(s + [d], keys) == SumKeys(s, keys) + if Key(d) in keys then 1 else 0
  {
    if keys != [] {
      var n := |keys| - 1;
      assert (s + [d])[..|s|] == s;
      SumGrows(s, d, keys[..n]);
      assert Key(d) in keys <==> Key(d) in keys[..n] || Key(d) == keys[n];
      assert keys[n] !in keys[..n];
    }
  }

  lemma {:induction false} SumOfNothing(keys: seq<Text>)
    ensures SumKeys([], keys) == 0
  {
    if keys != [] {
      SumOfNothing(keys[..|keys| - 1]);
    }
  }

  /** The counts of all origins, in whatever order they are listed, add up to the whole list. */
  lemma {:induction false} OriginsAddUp(s: seq<Decision>, keys: seq<Text>)
    requires Sorting.Distinct(keys) && forall k :: CountKey(s, k) > 0 ==> k in keys
    ensures SumKeys(s, keys) == |s|
  {
    if s == [] {
      SumOfNothing(keys);
    } else {
      var n := |s| - 1;
      assert s == s[..n] + [s[n]];
      assert CountKey(s, Key(s[n])) > 0;
      OriginsAddUp(s[..n], keys);
      SumGrows(s[..n], s[n], keys);
    }
  }

  // ---------------------------------------------------------------------
  // The filter
  // ---------------------------------------------------------------------

  function Filter(s: seq<Decision>, source: Text): seq<Decision> {
    if s == [] then []
    else
      var kept := Filter(s[..|s| - 1], source);
      if s[|s| - 1].origin == source then kept + [s[|s| - 1]] else kept
  }

  /** Compacts the matching decisions to the front of the array they are read from; the rest of it is left as it was. */
  method FilterInPlace(a: array<Decision>, source: Text) returns (n: nat)
    modifies a
    ensures n <= a.Length && a[..n] == Filter(old(a[..]), source)
    ensures a[n..] == old(a[n..])
  {
    n := 0;
    ghost var was := a[..];
    for i := 0 to a.Length
      invariant n <= i
      invariant a[..n] == Filter(was[..i], source)
      invariant forall k :: n <= k < a.Length ==> a[k] == was[k]
    {
      assert was[..i + 1][..i] == was[..i];
      var d := a[i];
      if d.origin == source {
        a[n] := d;
        n := n + 1;
        assert a[..n] == a[..n - 1] + [d];
      }
    }
    assert was[..a.Length] == was;
  }

  /** What the filter keeps, without naming how: the matching positions in order. */
  lemma {:induction false} FilterExact(s: seq<Decision>, source: Text)
    ensures forall d :: d in Filter(s, source) <==> d in s && d.origin == source
    ensures forall k :: multiset(Filter(s, source))[k] == if k.origin == source then multiset(s)[k] else 0
  {
    if s != [] {
      var n := |s| - 1;
      FilterExact(s[..n], source);
      assert s == s[..n] + [s[n]];
    }
  }

  /** Filtering goes piece by piece, so the order is kept. */
  lemma {:induction false} FilterAppends(s: seq<Decision>, t: seq<Decision>, source: Text)
    ensures Filter(s + t, source) == Filter(s, source) + Filter(t, source)
    decreases |t|
  {
    if t == [] {
      assert s + t == s;
    } else {
      var n := |t| - 1;
      assert (s + t)[..|s| + n] == s + t[..n];
      FilterAppends(s, t[..n], source);
    }
  }

  /** The decisions counted under "unknown" are those named so and those without an origin. */
  lemma {:induction false} CountOfFilter(s: seq<Decision>, source: Text)
    requires source != ""
    ensures CountKey(s, source) == |Filter(s, source)| + if source == UNKNOWN then |Filter(s, "")| else 0
  {
    if s != [] {
      CountOfFilter(s[..|s| - 1], source);
    }
  }

  lemma {:induction false} FilterEmptyExactlyWhen(s: seq<Decision>, source: Text)
    ensures Filter(s, source) == [] <==> forall i :: 0 <= i < |s| ==> s[i].origin != source
  {
    if s != [] {
      FilterEmptyExactlyWhen(s[..|s| - 1], source);
    }
  }

  /** The filtered total is the origin's count, except for "unknown" when some decision has no origin. */
  lemma TotalMatchesCountExactlyWhen(s: seq<Decision>, source: Text)
    requires source != ""
    ensures |Filter(s, source)| == CountKey(s, source) <==>
              source != UNKNOWN || forall i :: 0 <= i < |s| ==> s[i].origin != ""
  {
    CountOfFilter(s, source);
    FilterEmptyExactlyWhen(s, "");
  }

  // ---------------------------------------------------------------------
  // Paging
  // ---------------------------------------------------------------------

  function Min(a: int, b: int): int {
    if a <= b then a else b
  }

  function Page(s: seq<Decision>, limit: nat, offset: nat): seq<Decision> {
    s[Min(offset, |s|)..Min(Min(offset, |s|) + limit, |s|)]
  }

  /** A page is as long as the limit allows and what is left, and holds the entries from the offset on. */
  lemma PageExact(s: seq<Decision>, limit: nat, offset: nat)
    ensures var page := Page(s, limit, offset);
            && |page| == (if offset >= |s| then 0 else if |s| - offset < limit then |s| - offset else limit)
            && forall i :: 0 <= i < |page| ==> page[i] == s[offset + i]
  {
  }

  /** The pages from `offset` on, one after the other. */
  function PagesFrom(s: seq<Decision>, limit: nat, offset: nat): seq<Decision>
    requires limit > 0
    decreases if offset < |s| then |s| - offset else 0
  {
    if offset >= |s| then [] else Page(s, limit, offset) + PagesFrom(s, limit, offset + limit)
  }

  /** Consecutive pages cover the list exactly: nothing twice, nothing missing, in order. */
  lemma {:induction false} PagesTile(s: seq<Decision>, limit: nat, offset: nat)
    requires limit > 0
    ensures PagesFrom(s, limit, offset) == if offset >= |s| then [] else s[offset..]
    decreases if offset < |s| then |s| - offset else 0
  {
    if offset < |s| {
      PagesTile(s, limit, offset + limit);
      if offset + limit < |s| {
        assert s[offset..offset + limit] + s[offset + limit..] == s[offset..];
      }
    }
  }

  /** One page of the first `total` entries; the bounds are clamped, so any accepted offset is in range. */
  method TakePage(a: array<Decision>, total: nat, paging: Paging) returns (page: seq<Decision>)
    requires total <= a.Length && 1 <= paging.limit <= LIST_MAX && paging.offset >= 0
    ensures page == Page(a[..total], paging.limit, paging.offset)
  {
    var pageStart := paging.offset;
    if pageStart > total {
      pageStart := total;
    }
    var pageEnd := pageStart + paging.limit;
    if pageEnd > total {
      pageEnd := total;
    }
    page := a[pageStart..pageEnd];
    assert page == a[..total][pageStart..pageEnd];
  }

  /** What the operator pages through. */
  function Shown(s: seq<Decision>, source: Text): seq<Decision> {
    if source == "" then s else Filter(s, source)
  }

  /** The handler after the fetch: counts over everything, then the filter, then one page. */
  method ListDecisions(all: array<Decision>, source: Text, paging: Paging)
    returns (page: seq<Decision>, total: nat, byOrigin: map<Text, nat>)
    requires 1 <= paging.limit <= LIST_MAX && paging.offset >= 0
    modifies all
    ensures total == |Shown(old(all[..]), source)|
    ensures page == Page(Shown(old(all[..]), source), paging.limit, paging.offset)
    ensures forall k :: k in byOrigin <==> CountKey(old(all[..]), k) > 0
    ensures forall k :: k in byOrigin ==> byOrigin[k] == CountKey(old(all[..]), k)
    ensures source != "" && source != UNKNOWN ==> total == if source in byOrigin then byOrigin[source] else 0
  {
    ghost var was := all[..];
    byOrigin := CountByOrigin(all[..]);
    total := all.Length;
    if source != "" {
      total := FilterInPlace(all, source);
      TotalMatchesCountExactlyWhen(was, source);
    }
    assert all[..total] == Shown(was, source);
    page := TakePage(all, total, paging);
  }
}
