/**
 * The derivation of the contact table in `renderContacts`
 * (frontend/app.js): an exact status filter, then a case-insensitive search
 * over name and company, then a stable sort by next-action date with the
 * contacts that have no date last.
 */
module ListPipeline {
  import opened Wrappers
  import opened Strings
  import opened Contacts

  // ---------------------------------------------------------------------------
  // Array.prototype.filter

  /** `a` is `b` with some elements left out, the rest in their order. */
  ghost predicate IsSubseq<T(!new)>(a: seq<T>, b: seq<T>)
    decreases |b|
  {
    if a == [] then true
    else if b == [] then false
    else (a[0] == b[0] && IsSubseq(a[1..], b[1..])) || IsSubseq(a, b[1..])
  }

  /** `s.filter(p)`: the elements that satisfy `p`, in the order of `s`. */
  function Filter<T(!new)>(s: seq<T>, p: T -> bool): (r: seq<T>)
    ensures |r| <= |s|
  {
    if s == [] then []
    else if p(s[0]) then [s[0]] + Filter(s[1..], p)
    else Filter(s[1..], p)
  }

  /** Exactly the elements that satisfy `p` are kept, each as often as in `s`. */
  lemma {:induction false} FilterCount<T(!new)>(s: seq<T>, p: T -> bool)
    ensures forall x :: multiset(Filter(s, p))[x] == if p(x) then multiset(s)[x] else 0
    decreases |s|
  {
    if s != [] {
      FilterCount(s[1..], p);
      assert s == [s[0]] + s[1..];
    }
  }

  /** What is kept keeps its order. */
  lemma {:induction false} FilterSubseq<T(!new)>(s: seq<T>, p: T -> bool)
    ensures IsSubseq(Filter(s, p), s)
    decreases |s|
  {
    if s != [] {
      var rest := Filter(s[1..], p);
      FilterSubseq(s[1..], p);
      if p(s[0]) {
        assert ([s[0]] + rest)[1..] == rest;
      } else {
        assert rest != [] ==> IsSubseq(rest, s[1..]);
      }
    }
  }

  lemma {:induction false} FilterConcat<T(!new)>(a: seq<T>, b: seq<T>, p: T -> bool)
    ensures Filter(a + b, p) == Filter(a, p) + Filter(b, p)
    decreases |a|
  {
    if a == [] {
      assert a + b == b;
    } else {
      var h := a[0];
      assert (a + b)[0] == h && (a + b)[1..] == a[1..] + b;
      FilterConcat(a[1..], b, p);
      if p(h) {
        calc {
          Filter(a + b, p);
          [h] + Filter(a[1..] + b, p);
          [h] + (Filter(a[1..], p) + Filter(b, p));
          ([h] + Filter(a[1..], p)) + Filter(b, p);
          Filter(a, p) + Filter(b, p);
        }
      }
    }
  }

  lemma {:induction false} FilterExt<T(!new)>(s: seq<T>, p: T -> bool, q: T -> bool)
    requires forall x :: p(x) == q(x)
    ensures Filter(s, p) == Filter(s, q)
    decreases |s|
  {
    if s != [] {
      FilterExt(s[1..], p, q);
    }
  }

  lemma {:induction false} FilterKeepsAll<T(!new)>(s: seq<T>, p: T -> bool)
    requires forall x :: p(x)
    ensures Filter(s, p) == s
    decreases |s|
  {
    if s != [] {
      FilterKeepsAll(s[1..], p);
    }
  }

  lemma {:induction false} FilterFilter<T(!new)>(s: seq<T>, p: T -> bool, q: T -> bool, pq: T -> bool)
    requires forall x :: pq(x) == (p(x) && q(x))
    ensures Filter(Filter(s, p), q) == Filter(s, pq)
    decreases |s|
  {
    if s != [] {
      FilterFilter(s[1..], p, q, pq);
      if p(s[0]) {
        assert Filter(s, p) == [s[0]] + Filter(s[1..], p);
        FilterConcat([s[0]], Filter(s[1..], p), q);
      }
    }
  }

  // ---------------------------------------------------------------------------
  // The two filters

  /** Lines 170-172: when a status filter is set, only contacts with exactly that status. */
  function ByStatus(contacts: seq<Contact>, filter: string): seq<Contact> {
    if filter != "" then Filter(contacts, (c: Contact) => c.status == filter) else contacts
  }

  /** Lines 176-180: the lower-cased query occurs in the lower-cased name or the lower-cased company. */
  predicate MatchesSearch(c: Contact, search: string) {
    var q := Lower(search);
    Contains(Lower(c.name), q) || Contains(Lower(c.company), q)
  }

  /** Lines 175-181: when a search is set, only the contacts it matches. */
  function BySearch(contacts: seq<Contact>, search: string): seq<Contact> {
    if search != "" then Filter(contacts, (c: Contact) => MatchesSearch(c, search)) else contacts
  }

  /** Whether a contact survives both filters. */
  predicate Kept(c: Contact, filter: string, search: string) {
    (filter == "" || c.status == filter) && (search == "" || MatchesSearch(c, search))
  }

  /** The contacts that survive both filters, in roster order. */
  function KeptContacts(contacts: seq<Contact>, filter: string, search: string): seq<Contact> {
    Filter(contacts, (c: Contact) => Kept(c, filter, search))
  }

  /** Filtering by status and then by search keeps exactly the contacts that pass both tests. */
  lemma FiltersCompose(contacts: seq<Contact>, filter: string, search: string)
    ensures BySearch(ByStatus(contacts, filter), search) == KeptContacts(contacts, filter, search)
  {
    var st := (c: Contact) => c.status == filter;
    var se := (c: Contact) => MatchesSearch(c, search);
    var kept := (c: Contact) => Kept(c, filter, search);
    if filter != "" && search != "" {
      FilterFilter(contacts, st, se, kept);
    } else if filter != "" {
      FilterExt(contacts, st, kept);
    } else if search != "" {
      FilterExt(contacts, se, kept);
    } else {
      FilterKeepsAll(contacts, kept);
    }
  }

  // ---------------------------------------------------------------------------
  // The sort

  /**
   * The comparator of lines 184-191: two absent dates compare equal, an
   * absent date sorts after a present one, and two dates compare by their
   * difference.
   */
  function CompareDates(a: Option<int>, b: Option<int>): (r: int)
    ensures r == 0 <==> a == b
    ensures a.Some? && b.None? ==> r < 0
    ensures a.None? && b.Some? ==> r > 0
    ensures a.Some? && b.Some? ==> (r < 0 <==> a.value < b.value)
  {
    if a.None? && b.None? then 0
    else if a.None? then 1
    else if b.None? then -1
    else a.value - b.value
  }

  /** `a` may come before `b`: the comparator does not ask to swap them. */
  predicate NoLater(a: Option<int>, b: Option<int>) {
    CompareDates(a, b) <= 0
  }

  /** The comparator is consistent, as `Array.prototype.sort` needs: a total preorder whose ties are equal dates. */
  lemma ComparatorConsistent(a: Option<int>, b: Option<int>, c: Option<int>)
    ensures NoLater(a, a)
    ensures NoLater(a, b) || NoLater(b, a)
    ensures NoLater(a, b) && NoLater(b, c) ==> NoLater(a, c)
    ensures CompareDates(a, b) == 0 <==> a == b
    ensures (CompareDates(a, b) < 0) == (CompareDates(b, a) > 0)
  {
  }

  ghost predicate SortedByDate(s: seq<Contact>) {
    forall i, j :: 0 <= i < j < |s| ==> NoLater(s[i].nextActionDate, s[j].nextActionDate)
  }

  /** The contacts of `s` whose next-action date is `d`, in the order of `s`. */
  function SameDate(s: seq<Contact>, d: Option<int>): seq<Contact> {
    Filter(s, (c: Contact) => c.nextActionDate == d)
  }

  /** Places `c` before the first contact it does not sort after, that is, before every contact with the same date. */
  function Insert(c: Contact, sorted: seq<Contact>): (r: seq<Contact>)
    ensures multiset(r) == multiset(sorted) + multiset{c}
  {
    if sorted == [] then [c]
    else if NoLater(c.nextActionDate, sorted[0].nextActionDate) then [c] + sorted
    else
      assert sorted == [sorted[0]] + sorted[1..];
      [sorted[0]] + Insert(c, sorted[1..])
  }

  lemma SortedCons(x: Contact, rest: seq<Contact>)
    requires SortedByDate(rest)
    requires forall y :: y in rest ==> NoLater(x.nextActionDate, y.nextActionDate)
    ensures SortedByDate([x] + rest)
  {
    var s := [x] + rest;
    forall i, j | 0 <= i < j < |s|
      ensures NoLater(s[i].nextActionDate, s[j].nextActionDate)
    {
      if i == 0 {
        assert s[j] == rest[j - 1] && s[j] in rest;
      } else {
        assert s[i] == rest[i - 1] && s[j] == rest[j - 1];
      }
    }
  }

  lemma {:induction false} InsertSorted(c: Contact, sorted: seq<Contact>)
    requires SortedByDate(sorted)
    ensures SortedByDate(Insert(c, sorted))
    decreases |sorted|
  {
    if sorted == [] {
    } else if NoLater(c.nextActionDate, sorted[0].nextActionDate) {
      forall y | y in sorted ensures NoLater(c.nextActionDate, y.nextActionDate) {
        var j :| 0 <= j < |sorted| && sorted[j] == y;
        if j > 0 {
          ComparatorConsistent(c.nextActionDate, sorted[0].nextActionDate, y.nextActionDate);
        }
      }
      SortedCons(c, sorted);
    } else {
      var head, tail := sorted[0], sorted[1..];
      assert SortedByDate(tail) by {
        forall i, j | 0 <= i < j < |tail|
          ensures NoLater(tail[i].nextActionDate, tail[j].nextActionDate)
        {
          assert tail[i] == sorted[i + 1] && tail[j] == sorted[j + 1];
        }
      }
      InsertSorted(c, tail);
      var ins := Insert(c, tail);
      forall y | y in ins ensures NoLater(head.nextActionDate, y.nextActionDate) {
        assert y in multiset(ins);
        if y == c {
          ComparatorConsistent(c.nextActionDate, head.nextActionDate, head.nextActionDate);
        } else {
          assert y in multiset(tail);
          var j :| 0 <= j < |tail| && tail[j] == y;
          assert sorted[j + 1] == y;
        }
      }
      SortedCons(head, ins);
    }
  }

  /**
   * The stable sort by next-action date that `filtered.sort(...)` performs
   * (`Array.prototype.sort` is stable): inserting each contact, from the
   * last to the first, ahead of the contacts with the same date.
   */
  function SortByDate(s: seq<Contact>): (r: seq<Contact>)
    ensures multiset(r) == multiset(s)
    ensures SortedByDate(r)
  {
    if s == [] then []
    else
      var sorted := SortByDate(s[1..]);
      InsertSorted(s[0], sorted);
      assert s == [s[0]] + s[1..];
      Insert(s[0], sorted)
  }

  lemma SameDateHead(s: seq<Contact>, d: Option<int>)
    requires s != []
    ensures SameDate(s, d) == if s[0].nextActionDate == d then [s[0]] + SameDate(s[1..], d) else SameDate(s[1..], d)
  {
  }

  lemma {:induction false} InsertSameDate(c: Contact, sorted: seq<Contact>, d: Option<int>)
    ensures SameDate(Insert(c, sorted), d)
         == if c.nextActionDate == d then [c] + SameDate(sorted, d) else SameDate(sorted, d)
    decreases |sorted|
  {
    var ins := Insert(c, sorted);
    if sorted == [] {
      assert ins == [c];
      SameDateHead(ins, d);
      assert ins[1..] == [];
    } else if NoLater(c.nextActionDate, sorted[0].nextActionDate) {
      assert ins == [c] + sorted;
      SameDateHead(ins, d);
      assert ins[1..] == sorted;
    } else {
      var head, rest := sorted[0], Insert(c, sorted[1..]);
      assert ins == [head] + rest;
      InsertSameDate(c, sorted[1..], d);
      SameDateHead(ins, d);
      assert ins[1..] == rest;
      SameDateHead(sorted, d);
      assert head.nextActionDate != c.nextActionDate;
    }
  }

  /** Stability: the contacts sharing one date (or sharing the absence of a date) keep their relative order. */
  lemma {:induction false} SortStable(s: seq<Contact>, d: Option<int>)
    ensures SameDate(SortByDate(s), d) == SameDate(s, d)
    decreases |s|
  {
    if s != [] {
      SortStable(s[1..], d);
      InsertSameDate(s[0], SortByDate(s[1..]), d);
      SameDateHead(s, d);
    }
  }

  lemma InSameDate(s: seq<Contact>, d: Option<int>, x: Contact)
    requires x in SameDate(s, d)
    ensures x in s && x.nextActionDate == d
  {
    FilterCount(s, (c: Contact) => c.nextActionDate == d);
    assert x in multiset(SameDate(s, d));
  }

  lemma SortedTail(s: seq<Contact>)
    requires s != [] && SortedByDate(s)
    ensures SortedByDate(s[1..])
  {
    forall i, j | 0 <= i < j < |s[1..]|
      ensures NoLater(s[1..][i].nextActionDate, s[1..][j].nextActionDate)
    {
      assert s[1..][i] == s[i + 1] && s[1..][j] == s[j + 1];
    }
  }

  /** The head of a sorted sequence has a date no later than that of any of its elements. */
  lemma HeadNoLater(s: seq<Contact>, x: Contact)
    requires SortedByDate(s) && x in s
    ensures NoLater(s[0].nextActionDate, x.nextActionDate)
  {
    var j :| 0 <= j < |s| && s[j] == x;
    if j == 0 {
      ComparatorConsistent(x.nextActionDate, x.nextActionDate, x.nextActionDate);
    }
  }

  /** Two sorted sequences with the same same-date subsequences start alike. */
  lemma SortedSameHead(a: seq<Contact>, b: seq<Contact>)
    requires a != [] && SortedByDate(a) && SortedByDate(b)
    requires forall d :: SameDate(a, d) == SameDate(b, d)
    ensures b != [] && a[0] == b[0]
  {
    var d := a[0].nextActionDate;
    SameDateHead(a, d);
    assert a[0] in SameDate(b, d);
    InSameDate(b, d, a[0]);
    HeadNoLater(b, a[0]);
    var e := b[0].nextActionDate;
    SameDateHead(b, e);
    assert b[0] in SameDate(a, e);
    InSameDate(a, e, b[0]);
    HeadNoLater(a, b[0]);
    ComparatorConsistent(d, e, d);
    SameDateHead(b, d);
  }

  /** A sorted sequence is determined by its same-date subsequences. */
  lemma {:induction false} SortedUnique(a: seq<Contact>, b: seq<Contact>)
    requires SortedByDate(a) && SortedByDate(b)
    requires forall d :: SameDate(a, d) == SameDate(b, d)
    ensures a == b
    decreases |a|
  {
    if a == [] {
      if b != [] {
        SortedSameHead(b, a);
      }
    } else {
      SortedSameHead(a, b);
      forall d' ensures SameDate(a[1..], d') == SameDate(b[1..], d') {
        SameDateHead(a, d');
        SameDateHead(b, d');
        if a[0].nextActionDate == d' {
          assert ([a[0]] + SameDate(a[1..], d'))[1..] == SameDate(a[1..], d');
          assert ([b[0]] + SameDate(b[1..], d'))[1..] == SameDate(b[1..], d');
        }
      }
      SortedTail(a);
      SortedTail(b);
      SortedUnique(a[1..], b[1..]);
      assert a == [a[0]] + a[1..] && b == [b[0]] + b[1..];
    }
  }

  lemma {:induction false} SameDateOfFilter(s: seq<Contact>, p: Contact -> bool, d: Option<int>)
    ensures SameDate(Filter(s, p), d) == Filter(SameDate(s, d), p)
    decreases |s|
  {
    if s != [] {
      SameDateOfFilter(s[1..], p, d);
      SameDateHead(s, d);
      if p(s[0]) {
        SameDateHead(Filter(s, p), d);
        assert Filter(s, p)[1..] == Filter(s[1..], p);
      }
      if s[0].nextActionDate == d {
        assert Filter(SameDate(s, d), p) == Filter([s[0]] + SameDate(s[1..], d), p);
        assert ([s[0]] + SameDate(s[1..], d))[1..] == SameDate(s[1..], d);
      }
    }
  }

  // ---------------------------------------------------------------------------
  // renderContacts

  /** The rows `renderContacts` shows for a roster and the current filter and search. */
  function Render(contacts: seq<Contact>, filter: string, search: string): (r: seq<Contact>)
    ensures SortedByDate(r)
    ensures |r| <= |contacts|
  {
    var kept := BySearch(ByStatus(contacts, filter), search);
    var r := SortByDate(kept);
    assert |multiset(r)| == |multiset(kept)|;
    r
  }

  /**
   * The rows are exactly the roster's contacts that pass both filters, each
   * as often as in the roster: nothing is added, repeated or dropped, and an
   * empty roster gives an empty table.
   */
  lemma RenderKeepsExactly(contacts: seq<Contact>, filter: string, search: string)
    ensures var r := Render(contacts, filter, search);
      && (forall c :: multiset(r)[c] == if Kept(c, filter, search) then multiset(contacts)[c] else 0)
      && (forall c :: c in r <==> c in contacts && Kept(c, filter, search))
      && multiset(r) <= multiset(contacts)
      && (contacts == [] ==> r == [])
  {
    KeptCount(contacts, filter, search);
    FiltersCompose(contacts, filter, search);
    var r := Render(contacts, filter, search);
    assert multiset(r) == multiset(KeptContacts(contacts, filter, search));
  }

  /** How often each contact survives both filters. */
  lemma KeptCount(contacts: seq<Contact>, filter: string, search: string)
    ensures forall c ::
              multiset(KeptContacts(contacts, filter, search))[c] == if Kept(c, filter, search) then multiset(contacts)[c] else 0
  {
    var p := (c: Contact) => Kept(c, filter, search);
    FilterCount(contacts, p);
    assert forall c :: multiset(Filter(contacts, p))[c] == if p(c) then multiset(contacts)[c] else 0;
  }

  /**
   * Lines 184-191: dated contacts come in non-decreasing date order, and
   * every undated contact comes after every dated one.
   */
  lemma RenderOrdered(contacts: seq<Contact>, filter: string, search: string)
    ensures var r := Render(contacts, filter, search);
      && (forall i, j :: 0 <= i < j < |r| && r[i].nextActionDate.None? ==> r[j].nextActionDate.None?)
      && (forall i, j :: 0 <= i < j < |r| && r[i].nextActionDate.Some? && r[j].nextActionDate.Some?
            ==> r[i].nextActionDate.value <= r[j].nextActionDate.value)
  {
    var r := Render(contacts, filter, search);
    assert SortedByDate(r);
  }

  /**
   * Contacts sharing a date, or sharing the absence of one, appear in the
   * order the filters left them, which is roster order.
   */
  lemma RenderStable(contacts: seq<Contact>, filter: string, search: string, d: Option<int>)
    ensures SameDate(Render(contacts, filter, search), d) == SameDate(KeptContacts(contacts, filter, search), d)
    ensures IsSubseq(KeptContacts(contacts, filter, search), contacts)
  {
    FiltersCompose(contacts, filter, search);
    SortStable(KeptContacts(contacts, filter, search), d);
    FilterSubseq(contacts, (c: Contact) => Kept(c, filter, search));
  }

  /**
   * Rendering is unaffected by the roster having been sorted in place by an
   * earlier render (the aliasing of line 167): sorting first, or not, gives
   * the same rows for every filter and search.
   */
  lemma RenderAfterInPlaceSort(contacts: seq<Contact>, filter: string, search: string)
    ensures Render(SortByDate(contacts), filter, search) == Render(contacts, filter, search)
  {
    var sorted := SortByDate(contacts);
    var p := (c: Contact) => Kept(c, filter, search);
    FiltersCompose(contacts, filter, search);
    FiltersCompose(sorted, filter, search);
    var a := Render(sorted, filter, search);
    var b := Render(contacts, filter, search);
    forall d ensures SameDate(a, d) == SameDate(b, d) {
      SortStable(Filter(sorted, p), d);
      SortStable(Filter(contacts, p), d);
      SameDateOfFilter(sorted, p, d);
      SameDateOfFilter(contacts, p, d);
      SortStable(contacts, d);
    }
    SortedUnique(a, b);
  }
}
