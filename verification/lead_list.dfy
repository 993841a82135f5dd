/**
  The admin lead list: the search filter over name and e-mail and the sort on
  the creation time, as the admin page derives them from the loaded leads.
 */
module LeadList {
  import opened Text

  /**
    A stored lead as the list uses it. The creation time is the instant
    `created_at` denotes, in milliseconds; the columns the list only displays
    are not part of the model.
   */
  datatype Lead = Lead(id: string, name: string, email: string, phone: string, createdAt: int)

  // ---------------------------------------------------------------- search

  /** The query the search box produces: lower-cased first, then trimmed. */
  function NormaliseQuery(searchQuery: string): (q: string)
    ensures Trimmed(q) && NoUpper(q)
    ensures q == ToLower(Trim(searchQuery))
  {
    var q := Trim(ToLower(searchQuery));
    ToLowerTrimCommute(searchQuery);
    ToLowerIdempotent(Trim(searchQuery));
    q
  }

  /** A lead matches when its lower-cased name or e-mail contains `q`. */
  predicate Matches(l: Lead, q: string) {
    Includes(ToLower(l.name), q) || Includes(ToLower(l.email), q)
  }

  /** The leads of `s` that match `q`, in their original order (`Array.prototype.filter`). */
  function Select(s: seq<Lead>, q: string): (r: seq<Lead>)
    ensures |r| <= |s|
  {
    if s == [] then []
    else (if Matches(s[0], q) then [s[0]] else []) + Select(s[1..], q)
  }

  /** The search effect: an empty normalised query keeps every lead, any other filters. */
  function FilterLeads(leads: seq<Lead>, searchQuery: string): (r: seq<Lead>)
    ensures NormaliseQuery(searchQuery) == [] ==> r == leads
    ensures NormaliseQuery(searchQuery) != [] ==> r == Select(leads, NormaliseQuery(searchQuery))
  {
    var q := NormaliseQuery(searchQuery);
    if q == [] then leads else Select(leads, q)
  }

  /** `a` is `b` with some elements left out, the rest in the same order. */
  predicate IsSubsequence<T(==)>(a: seq<T>, b: seq<T>)
    decreases |b|
  {
    if a == [] then true
    else if b == [] then false
    else if a[0] == b[0] then IsSubsequence(a[1..], b[1..])
    else IsSubsequence(a, b[1..])
  }

  /** Putting `x` in front of the longer sequence keeps a subsequence one. */
  lemma {:induction false} IsSubsequenceCons<T>(x: T, a: seq<T>, b: seq<T>)
    requires IsSubsequence(a, b)
    ensures IsSubsequence(a, [x] + b)
    ensures IsSubsequence([x] + a, [x] + b)
  {
    assert ([x] + b)[1..] == b;
    assert ([x] + a)[1..] == a;
    SubsequenceWeaken(a, [x] + b);
  }

  lemma {:induction false} SubsequenceWeaken<T>(a: seq<T>, b: seq<T>)
    requires b != [] && IsSubsequence(a, b[1..])
    ensures IsSubsequence(a, b)
    decreases |b|, 0
  {
    if a != [] && a[0] == b[0] {
      SubsequenceTail(a, b[1..]);
    }
  }

  lemma {:induction false} SubsequenceTail<T>(a: seq<T>, b: seq<T>)
    requires a != [] && IsSubsequence(a, b)
    ensures IsSubsequence(a[1..], b)
    decreases |b|, 1
  {
    if a[0] != b[0] {
      SubsequenceTail(a, b[1..]);
    }
    SubsequenceWeaken(a[1..], b);
  }

  /** `Select` keeps the order of the leads it keeps: its result is a subsequence. */
  lemma {:induction false} SelectSubsequence(s: seq<Lead>, q: string)
    ensures IsSubsequence(Select(s, q), s)
  {
    if s != [] {
      SelectSubsequence(s[1..], q);
      var rest := Select(s[1..], q);
      assert [s[0]] + s[1..] == s;
      IsSubsequenceCons(s[0], rest, s[1..]);
      if Matches(s[0], q) {
        assert Select(s, q) == [s[0]] + rest;
      } else {
        assert Select(s, q) == rest;
      }
    }
  }

  /** Every lead `Select` keeps matches the query. */
  lemma {:induction false} SelectMatches(s: seq<Lead>, q: string)
    ensures forall i :: 0 <= i < |Select(s, q)| ==> Matches(Select(s, q)[i], q)
  {
    if s != [] {
      SelectMatches(s[1..], q);
      var rest := Select(s[1..], q);
      var h := if Matches(s[0], q) then [s[0]] else [];
      assert Select(s, q) == h + rest;
      forall i | 0 <= i < |Select(s, q)|
        ensures Matches(Select(s, q)[i], q)
      {
        if i >= |h| {
          assert Select(s, q)[i] == rest[i - |h|];
        }
      }
    }
  }

  /**
    `Select` drops no matching lead: each matching lead occurs in the result as
    often as in the input, and no other lead occurs at all.
   */
  lemma {:induction false} SelectCounts(s: seq<Lead>, q: string)
    ensures forall l :: multiset(Select(s, q))[l] == if Matches(l, q) then multiset(s)[l] else 0
  {
    if s != [] {
      SelectCounts(s[1..], q);
      var rest := Select(s[1..], q);
      var h := if Matches(s[0], q) then [s[0]] else [];
      assert [s[0]] + s[1..] == s;
      assert multiset(s) == multiset{s[0]} + multiset(s[1..]);
      assert Select(s, q) == h + rest;
      assert multiset(Select(s, q)) == multiset(h) + multiset(rest);
    }
  }

  /** The empty query matches every lead, so the effect's shortcut agrees with filtering. */
  lemma {:induction false} SelectEmptyQuery(s: seq<Lead>)
    ensures Select(s, "") == s
  {
    if s != [] {
      IncludesEmpty(ToLower(s[0].name));
      SelectEmptyQuery(s[1..]);
      assert [s[0]] + s[1..] == s;
    }
  }

  /** The search is one filter whatever the query: the shortcut changes nothing. */
  lemma FilterIsSelect(leads: seq<Lead>, searchQuery: string)
    ensures FilterLeads(leads, searchQuery) == Select(leads, NormaliseQuery(searchQuery))
  {
    if NormaliseQuery(searchQuery) == [] {
      SelectEmptyQuery(leads);
    }
  }

  /** The search keeps only loaded leads, and only matching ones when the query is not blank. */
  lemma FilterMember(leads: seq<Lead>, searchQuery: string, l: Lead)
    requires l in FilterLeads(leads, searchQuery)
    ensures l in leads
    ensures NormaliseQuery(searchQuery) != [] ==> Matches(l, NormaliseQuery(searchQuery))
  {
    var q := NormaliseQuery(searchQuery);
    FilterIsSelect(leads, searchQuery);
    SelectCounts(leads, q);
    assert l in multiset(Select(leads, q));
    assert multiset(leads)[l] > 0;
  }

  /** Filtering works lead by lead: it distributes over concatenation. */
  lemma {:induction false} SelectAppend(a: seq<Lead>, b: seq<Lead>, q: string)
    ensures Select(a + b, q) == Select(a, q) + Select(b, q)
  {
    if a != [] {
      assert (a + b)[0] == a[0];
      assert (a + b)[1..] == a[1..] + b;
      SelectAppend(a[1..], b, q);
    } else {
      assert a + b == b;
    }
  }

  /** Searching is case-insensitive: the case of the query does not matter. */
  lemma QueryCaseInsensitive(leads: seq<Lead>, searchQuery: string)
    ensures FilterLeads(leads, ToLower(searchQuery)) == FilterLeads(leads, searchQuery)
  {
    ToLowerIdempotent(searchQuery);
  }

  // ------------------------------------------------------------------ sort

  datatype SortOrder = Desc | Asc

  /** The page opens with the most recent leads first. */
  const InitialOrder: SortOrder := Desc

  /** `toggleSort`: the button flips the order. */
  function Toggle(o: SortOrder): (r: SortOrder)
    ensures r != o
  {
    if o == Desc then Asc else Desc
  }

  lemma ToggleTwice(o: SortOrder)
    ensures Toggle(Toggle(o)) == o
  {
  }

  /**
    The comparator handed to `Array.prototype.sort`: negative when `a` goes
    first, positive when `b` does, zero for equal creation times.
   */
  function Compare(o: SortOrder, a: Lead, b: Lead): (c: int)
    ensures c == 0 <==> a.createdAt == b.createdAt
    ensures o == Desc ==> (c < 0 <==> a.createdAt > b.createdAt)
    ensures o == Asc ==> (c < 0 <==> a.createdAt < b.createdAt)
  {
    if o == Desc then b.createdAt - a.createdAt else a.createdAt - b.createdAt
  }

  /** `a` may stand before `b` in order `o`. */
  predicate Before(o: SortOrder, a: Lead, b: Lead) {
    if o == Desc then a.createdAt >= b.createdAt else a.createdAt <= b.createdAt
  }

  /** `Before` is exactly "the comparator does not put `b` first". */
  lemma CompareBefore(o: SortOrder, a: Lead, b: Lead)
    ensures Compare(o, a, b) <= 0 <==> Before(o, a, b)
  {
  }

  /** Every lead may stand before each lead after it. */
  predicate Ordered(o: SortOrder, s: seq<Lead>) {
    forall i, j :: 0 <= i < j < |s| ==> Before(o, s[i], s[j])
  }

  /**
    Place `x` before the first lead the comparator does not put ahead of it
    (see `CompareBefore`).
   */
  function Insert(o: SortOrder, x: Lead, s: seq<Lead>): (r: seq<Lead>)
    ensures multiset(r) == multiset(s) + multiset{x}
    ensures |r| == |s| + 1
  {
    if s == [] || Before(o, x, s[0]) then [x] + s
    else
      assert [s[0]] + s[1..] == s;
      [s[0]] + Insert(o, x, s[1..])
  }

  /**
    The sorted list. `Array.prototype.sort` is stable, and a stable sort under
    a given comparator has exactly one result; this insertion sort is one that
    produces it.
   */
  function Sort(o: SortOrder, s: seq<Lead>): (r: seq<Lead>)
    ensures multiset(r) == multiset(s)
    ensures |r| == |s|
  {
    if s == [] then []
    else
      assert [s[0]] + s[1..] == s;
      Insert(o, s[0], Sort(o, s[1..]))
  }

  /** A lead that may stand before every lead of an ordered list can head it. */
  lemma ConsOrdered(o: SortOrder, x: Lead, s: seq<Lead>)
    requires Ordered(o, s)
    requires forall k :: 0 <= k < |s| ==> Before(o, x, s[k])
    ensures Ordered(o, [x] + s)
  {
    var r := [x] + s;
    forall i, j | 0 <= i < j < |r|
      ensures Before(o, r[i], r[j])
    {
      assert r[j] == s[j - 1];
      if i != 0 {
        assert r[i] == s[i - 1];
      }
    }
  }

  lemma {:induction false} InsertMember(o: SortOrder, x: Lead, s: seq<Lead>, y: Lead)
    requires y in Insert(o, x, s)
    ensures y == x || y in s
  {
    assert y in multiset(Insert(o, x, s));
  }

  lemma {:induction false} InsertOrdered(o: SortOrder, x: Lead, s: seq<Lead>)
    requires Ordered(o, s)
    ensures Ordered(o, Insert(o, x, s))
  {
    if s == [] || Before(o, x, s[0]) {
      forall k | 0 <= k < |s|
        ensures Before(o, x, s[k])
      {
        assert k == 0 || Before(o, s[0], s[k]);
      }
      ConsOrdered(o, x, s);
    } else {
      var t := Insert(o, x, s[1..]);
      OrderedTail(o, s);
      InsertOrdered(o, x, s[1..]);
      forall k | 0 <= k < |t|
        ensures Before(o, s[0], t[k])
      {
        InsertMember(o, x, s[1..], t[k]);
        if t[k] != x {
          var m :| 0 <= m < |s[1..]| && s[1..][m] == t[k];
          assert s[m + 1] == t[k];
        }
      }
      ConsOrdered(o, s[0], t);
    }
  }

  /** The sorted list is a permutation of its input and ordered by the comparator. */
  lemma {:induction false} SortOrdered(o: SortOrder, s: seq<Lead>)
    ensures Ordered(o, Sort(o, s))
  {
    if s != [] {
      SortOrdered(o, s[1..]);
      InsertOrdered(o, s[0], Sort(o, s[1..]));
    }
  }

  /** In "desc" order creation times never increase down the list, in "asc" they never decrease. */
  lemma SortedByTime(o: SortOrder, s: seq<Lead>)
    ensures o == Desc ==> forall i, j :: 0 <= i < j < |Sort(o, s)| ==> Sort(o, s)[i].createdAt >= Sort(o, s)[j].createdAt
    ensures o == Asc ==> forall i, j :: 0 <= i < j < |Sort(o, s)| ==> Sort(o, s)[i].createdAt <= Sort(o, s)[j].createdAt
  {
    SortOrdered(o, s);
    var r := Sort(o, s);
    forall i, j | 0 <= i < j < |r|
      ensures Before(o, r[i], r[j])
    {
    }
  }

  /** The leads of `s` created at instant `t`, in order. */
  function CreatedAt(s: seq<Lead>, t: int): (r: seq<Lead>)
    ensures |r| <= |s|
  {
    if s == [] then []
    else (if s[0].createdAt == t then [s[0]] else []) + CreatedAt(s[1..], t)
  }

  lemma {:induction false} CreatedAtInsert(o: SortOrder, x: Lead, s: seq<Lead>, t: int)
    ensures CreatedAt(Insert(o, x, s), t) == (if x.createdAt == t then [x] else []) + CreatedAt(s, t)
  {
    var r := Insert(o, x, s);
    var hx := if x.createdAt == t then [x] else [];
    if s == [] || Before(o, x, s[0]) {
      assert r[0] == x && r[1..] == s;
    } else {
      var u := Insert(o, x, s[1..]);
      var h := if s[0].createdAt == t then [s[0]] else [];
      CreatedAtInsert(o, x, s[1..], t);
      assert r[0] == s[0] && r[1..] == u;
      assert CreatedAt(r, t) == h + CreatedAt(u, t);
      assert CreatedAt(s, t) == h + CreatedAt(s[1..], t);
      assert h == [] || hx == [];
      assert h + (hx + CreatedAt(s[1..], t)) == hx + (h + CreatedAt(s[1..], t));
    }
  }

  /**
    The sort is stable: the leads sharing a creation time keep the relative
    order they had before sorting.
   */
  lemma {:induction false} SortStable(o: SortOrder, s: seq<Lead>, t: int)
    ensures CreatedAt(Sort(o, s), t) == CreatedAt(s, t)
  {
    if s != [] {
      SortStable(o, s[1..], t);
      CreatedAtInsert(o, s[0], Sort(o, s[1..]), t);
    }
  }

  lemma {:induction false} CreatedAtMember(s: seq<Lead>, t: int, x: Lead)
    requires x in CreatedAt(s, t)
    ensures x in s && x.createdAt == t
  {
    if s != [] && !(x == s[0] && s[0].createdAt == t) {
      assert x in CreatedAt(s[1..], t);
      CreatedAtMember(s[1..], t, x);
    }
  }

  /** The first lead of a list is the first one created at its own instant. */
  lemma CreatedAtHead(s: seq<Lead>)
    ensures s != [] ==> CreatedAt(s, s[0].createdAt) == [s[0]] + CreatedAt(s[1..], s[0].createdAt)
  {
  }

  lemma OrderedTail(o: SortOrder, s: seq<Lead>)
    requires s != [] && Ordered(o, s)
    ensures Ordered(o, s[1..])
  {
    forall i, j | 0 <= i < j < |s[1..]|
      ensures Before(o, s[1..][i], s[1..][j])
    {
      assert s[1..][i] == s[i + 1] && s[1..][j] == s[j + 1];
    }
  }

  /**
    Two ordered lists that hold, for every creation time, the same leads in the
    same order are the same list.
   */
  lemma {:induction false} OrderedUnique(o: SortOrder, a: seq<Lead>, b: seq<Lead>)
    requires Ordered(o, a) && Ordered(o, b)
    requires forall t :: CreatedAt(a, t) == CreatedAt(b, t)
    ensures a == b
    decreases |a|
  {
    CreatedAtHead(a);
    CreatedAtHead(b);
    if a != [] && b != [] {
      var x, y := a[0], b[0];
      assert x in CreatedAt(a, x.createdAt);
      CreatedAtMember(b, x.createdAt, x);
      assert y in CreatedAt(b, y.createdAt);
      CreatedAtMember(a, y.createdAt, y);
      var i :| 0 <= i < |a| && a[i] == y;
      var j :| 0 <= j < |b| && b[j] == x;
      assert i == 0 || Before(o, a[0], a[i]);
      assert j == 0 || Before(o, b[0], b[j]);
      assert x.createdAt == y.createdAt;
      assert CreatedAt(a, x.createdAt)[0] == x;
      assert CreatedAt(b, x.createdAt)[0] == y;
      assert x == y;
      forall t
        ensures CreatedAt(a[1..], t) == CreatedAt(b[1..], t)
      {
        var p := if x.createdAt == t then [x] else [];
        assert CreatedAt(a, t) == p + CreatedAt(a[1..], t);
        assert CreatedAt(b, t) == p + CreatedAt(b[1..], t);
        assert CreatedAt(a[1..], t) == CreatedAt(a, t)[|p|..];
        assert CreatedAt(b[1..], t) == CreatedAt(b, t)[|p|..];
      }
      OrderedTail(o, a);
      OrderedTail(o, b);
      OrderedUnique(o, a[1..], b[1..]);
      assert a == [x] + a[1..] && b == [y] + b[1..];
    }
  }

  /**
    `Sort` is the one stable sort under the comparator: any ordered
    rearrangement that keeps the leads of each creation time in their input
    order is exactly its result.
   */
  lemma StableSortUnique(o: SortOrder, s: seq<Lead>, r: seq<Lead>)
    requires Ordered(o, r)
    requires forall t :: CreatedAt(r, t) == CreatedAt(s, t)
    ensures r == Sort(o, s)
  {
    SortOrdered(o, s);
    forall t
      ensures CreatedAt(r, t) == CreatedAt(Sort(o, s), t)
    {
      SortStable(o, s, t);
    }
    OrderedUnique(o, r, Sort(o, s));
  }

  /** A list already in order is left as it is. */
  lemma {:induction false} SortOrderedNoop(o: SortOrder, s: seq<Lead>)
    requires Ordered(o, s)
    ensures Sort(o, s) == s
  {
    if s != [] {
      OrderedTail(o, s);
      SortOrderedNoop(o, s[1..]);
      assert s[1..] == [] || Before(o, s[0], s[1..][0]) by {
        if s[1..] != [] {
          assert s[1..][0] == s[1];
        }
      }
      assert [s[0]] + s[1..] == s;
    }
  }
}
