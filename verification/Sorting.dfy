/** Sorting by a strict total order, and the byte-wise order of strings. */
module Sorting {
  type Less<!T> = (T, T) -> bool

  /** `less` orders the elements of `dom` strictly and totally. */
  ghost predicate StrictOrder<T>(less: Less<T>, dom: set<T>) {
    && (forall a :: a in dom ==> !less(a, a))
    && (forall a, b, c :: a in dom && b in dom && c in dom && less(a, b) && less(b, c) ==> less(a, c))
    && (forall a, b :: a in dom && b in dom && a != b ==> less(a, b) || less(b, a))
  }

  ghost predicate Within<T>(s: seq<T>, dom: set<T>) {
    forall i :: 0 <= i < |s| ==> s[i] in dom
  }

  ghost predicate Ascending<T>(s: seq<T>, less: Less<T>) {
    forall i, j :: 0 <= i < j < |s| ==> less(s[i], s[j])
  }

  function Insert<T>(x: T, s: seq<T>, less: Less<T>): seq<T> {
    if s == [] || less(x, s[0]) then [x] + s else [s[0]] + Insert(x, s[1..], less)
  }

  /** What the library sort returns on distinct elements. */
  function Sort<T>(s: seq<T>, less: Less<T>): seq<T> {
    if s == [] then [] else Insert(s[0], Sort(s[1..], less), less)
  }

  lemma {:induction false} InsertElements<T>(x: T, s: seq<T>, less: Less<T>)
    ensures multiset(Insert(x, s, less)) == multiset(s) + multiset{x}
  {
    if s != [] && !less(x, s[0]) {
      InsertElements(x, s[1..], less);
      assert s == [s[0]] + s[1..];
    }
  }

  lemma {:induction false} SortElements<T>(s: seq<T>, less: Less<T>)
    ensures multiset(Sort(s, less)) == multiset(s)
    ensures forall x :: x in Sort(s, less) <==> x in s
  {
    if s != [] {
      SortElements(s[1..], less);
      InsertElements(s[0], Sort(s[1..], less), less);
      assert s == [s[0]] + s[1..];
    }
    forall x ensures x in Sort(s, less) <==> x in s {
      assert x in multiset(Sort(s, less)) <==> x in multiset(s);
    }
  }

  lemma {:induction false} InsertAscends<T>(x: T, s: seq<T>, less: Less<T>, dom: set<T>)
    requires StrictOrder(less, dom) && Within(s, dom) && x in dom
    requires Ascending(s, less) && x !in s
    ensures Ascending(Insert(x, s, less), less)
  {
    if s != [] && !less(x, s[0]) {
      var rest := Insert(x, s[1..], less);
      InsertAscends(x, s[1..], less, dom);
      InsertElements(x, s[1..], less);
      forall i | 0 <= i < |rest| ensures less(s[0], rest[i]) {
        assert rest[i] in multiset(rest);
        if rest[i] != x {
          assert rest[i] in s[1..];
        }
      }
    } else if s != [] {
      assert forall i :: 0 < i < |s| ==> less(s[0], s[i]);
      assert forall i :: 0 <= i < |s| ==> less(x, s[i]);
    }
  }

  ghost predicate Distinct<T>(s: seq<T>) {
    forall i, j :: 0 <= i < j < |s| ==> s[i] != s[j]
  }

  lemma SortWithin<T>(s: seq<T>, less: Less<T>, dom: set<T>)
    requires Within(s, dom)
    ensures Within(Sort(s, less), dom)
  {
    var t := Sort(s, less);
    SortElements(s, less);
    forall i | 0 <= i < |t| ensures t[i] in dom {
      assert t[i] in multiset(t);
      assert t[i] in s;
    }
  }

  lemma {:induction false} SortAscends<T>(s: seq<T>, less: Less<T>, dom: set<T>)
    requires StrictOrder(less, dom) && Within(s, dom) && Distinct(s)
    ensures Ascending(Sort(s, less), less)
  {
    if s != [] {
      SortAscends(s[1..], less, dom);
      SortElements(s[1..], less);
      SortWithin(s[1..], less, dom);
      InsertAscends(s[0], Sort(s[1..], less), less, dom);
    }
  }

  lemma HeadIsLeast<T>(s: seq<T>, t: seq<T>, less: Less<T>, dom: set<T>)
    requires StrictOrder(less, dom) && Within(s, dom) && Within(t, dom)
    requires Ascending(s, less) && Ascending(t, less)
    requires s != [] && t != [] && s[0] in t && t[0] in s
    ensures s[0] == t[0]
  {
    var i :| 0 <= i < |t| && t[i] == s[0];
    var j :| 0 <= j < |s| && s[j] == t[0];
  }

  lemma TailMembers<T>(s: seq<T>, less: Less<T>, dom: set<T>, x: T)
    requires StrictOrder(less, dom) && Within(s, dom) && Ascending(s, less) && s != []
    ensures x in s[1..] <==> x in s && x != s[0]
  {
    if x in s && x != s[0] {
      var i :| 0 <= i < |s| && s[i] == x;
      assert s[1..][i - 1] == x;
    }
    if x in s[1..] {
      var i :| 0 <= i < |s[1..]| && s[1..][i] == x;
      assert less(s[0], s[i + 1]);
    }
  }

  lemma HasElement<T>(s: seq<T>)
    ensures s != [] <==> exists x :: x in s
  {
    if s != [] {
      assert s[0] in s;
    }
  }

  /** An ascending sequence is determined by its elements. */
  lemma {:induction false} AscendingUnique<T>(s: seq<T>, t: seq<T>, less: Less<T>, dom: set<T>)
    requires StrictOrder(less, dom) && Within(s, dom) && Within(t, dom)
    requires Ascending(s, less) && Ascending(t, less)
    requires forall x :: x in s <==> x in t
    ensures s == t
  {
    HasElement(s);
    HasElement(t);
    if s != [] {
      assert s[0] in t && t[0] in s;
      HeadIsLeast(s, t, less, dom);
      forall x ensures x in s[1..] <==> x in t[1..] {
        TailMembers(s, less, dom, x);
        TailMembers(t, less, dom, x);
      }
      AscendingUnique(s[1..], t[1..], less, dom);
      assert s == [s[0]] + s[1..] && t == [t[0]] + t[1..];
    }
  }

  // ---------------------------------------------------------------------
  // Strings
  // ---------------------------------------------------------------------

  /** The byte-wise order of strings. */
  predicate TextLess(a: seq<char>, b: seq<char>) {
    b != [] && (a == [] || a[0] < b[0] || (a[0] == b[0] && TextLess(a[1..], b[1..])))
  }

  /** One text precedes another when they first differ with the smaller character, or when it is a proper prefix. */
  ghost predicate FirstDifference(a: seq<char>, b: seq<char>, i: nat) {
    && i <= |a| && i < |b| && a[..i] == b[..i] && (i == |a| || a[i] < b[i])
  }

  lemma {:induction false} TextLessExactlyWhen(a: seq<char>, b: seq<char>)
    ensures TextLess(a, b) <==> exists i: nat :: FirstDifference(a, b, i)
  {
    if b == [] {
    } else if a == [] || a[0] != b[0] {
      assert TextLess(a, b) ==> FirstDifference(a, b, 0);
      forall i: nat | FirstDifference(a, b, i) ensures TextLess(a, b) {
        assert i > 0 ==> a[..i][0] == b[..i][0];
      }
    } else {
      TextLessExactlyWhen(a[1..], b[1..]);
      if TextLess(a[1..], b[1..]) {
        var i: nat :| FirstDifference(a[1..], b[1..], i);
        assert a[..i + 1] == [a[0]] + a[1..][..i] && b[..i + 1] == [b[0]] + b[1..][..i];
        assert FirstDifference(a, b, i + 1);
      }
      if i: nat :| FirstDifference(a, b, i) {
        assert a[1..][..i - 1] == a[..i][1..] && b[1..][..i - 1] == b[..i][1..];
        assert FirstDifference(a[1..], b[1..], i - 1);
      }
    }
  }

  lemma {:induction false} TextIrreflexive(a: seq<char>)
    ensures !TextLess(a, a)
  {
    if a != [] {
      TextIrreflexive(a[1..]);
    }
  }

  lemma {:induction false} TextTransitive(a: seq<char>, b: seq<char>, c: seq<char>)
    requires TextLess(a, b) && TextLess(b, c)
    ensures TextLess(a, c)
  {
    if a != [] && a[0] == b[0] == c[0] {
      TextTransitive(a[1..], b[1..], c[1..]);
    }
  }

  lemma {:induction false} TextTotal(a: seq<char>, b: seq<char>)
    requires a != b
    ensures TextLess(a, b) || TextLess(b, a)
  {
    if a != [] && b != [] && a[0] == b[0] {
      assert a == [a[0]] + a[1..] && b == [b[0]] + b[1..];
      TextTotal(a[1..], b[1..]);
    }
  }

  lemma TextOrder(dom: set<seq<char>>)
    ensures StrictOrder(TextLess, dom)
  {
    forall a | a in dom ensures !TextLess(a, a) {
      TextIrreflexive(a);
    }
    forall a, b, c | a in dom && b in dom && c in dom && TextLess(a, b) && TextLess(b, c) ensures TextLess(a, c) {
      TextTransitive(a, b, c);
    }
    forall a, b | a in dom && b in dom && a != b ensures TextLess(a, b) || TextLess(b, a) {
      TextTotal(a, b);
    }
  }
}
