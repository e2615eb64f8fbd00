/**
 The placeholder substitution of the error-page preview
 (internal/api/error_templates.go).  The code replaces one placeholder after the
 other while iterating a Go map, so the order is arbitrary; the result must not
 depend on it.
 */
module Substitution {
  import opened Strings

  type Replacements = map<Text, Text>

  /** Replaces every non-overlapping occurrence of `k`, leftmost first. */
  function ReplaceAll(s: Text, k: Text, v: Text): Text
    requires k != []
  {
    if s == [] then []
    else if StartsWith(s, k) then v + ReplaceAll(s[|k|..], k, v)
    else [s[0]] + ReplaceAll(s[1..], k, v)
  }

  predicate BraceFree(s: Text) {
    forall i :: 0 <= i < |s| ==> s[i] != '{' && s[i] != '}'
  }

  /** `{name}` with no brace inside. */
  predicate Delimited(k: Text) {
    && |k| >= 2 && k[0] == '{' && k[|k| - 1] == '}'
    && forall i :: 1 <= i < |k| - 1 ==> k[i] != '{' && k[i] != '}'
  }

  /** Keys are `{name}`, values hold no brace. */
  ghost predicate Shaped(m: Replacements) {
    forall k :: k in m ==> Delimited(k) && BraceFree(m[k])
  }

  /** What makes the substitution confluent: no value occurs in another key (the empty one would in all). */
  ghost predicate Confluent(m: Replacements) {
    Shaped(m) && forall k, k' :: k in m && k' in m && k != k' ==> !Contains(k', m[k])
  }

  /** The placeholder of `keys` that starts `s`, if there is one. */
  ghost predicate Matches(s: Text, keys: set<Text>) {
    exists k :: k in keys && StartsWith(s, k)
  }

  ghost function MatchOf(s: Text, keys: set<Text>): (k: Text)
    requires Matches(s, keys)
    ensures k in keys && StartsWith(s, k)
  {
    var k :| k in keys && StartsWith(s, k);
    k
  }

  /** The reference: one left-to-right pass that replaces all the placeholders of `keys` at once. */
  ghost function Simultaneous(s: Text, m: Replacements, keys: set<Text>): Text
    requires keys <= m.Keys && forall k :: k in keys ==> k != []
    decreases |s|
  {
    if s == [] then []
    else if Matches(s, keys) then
      var k := MatchOf(s, keys);
      m[k] + Simultaneous(s[|k|..], m, keys)
    else [s[0]] + Simultaneous(s[1..], m, keys)
  }

  /** Two delimited placeholders starting the same text are the same. */
  lemma OnePlaceholder(s: Text, k: Text, k': Text)
    requires Delimited(k) && Delimited(k') && StartsWith(s, k) && StartsWith(s, k')
    ensures k == k'
  {
    assert forall i :: 0 <= i < |k| ==> k[i] == s[i];
    assert forall i :: 0 <= i < |k'| ==> k'[i] == s[i];
    assert s[|k| - 1] == s[|k'| - 1] == '}';
    assert |k| == |k'|;
  }

  lemma NotBoth(s: Text, k: Text, k': Text)
    requires Delimited(k) && Delimited(k') && k != k' && StartsWith(s, k')
    ensures !StartsWith(s, k)
  {
    assert forall i :: 0 <= i < |k'| ==> k'[i] == s[i];
    assert s[|k'| - 1] == '}';
  }

  /** A brace-free prefix passes through a replacement unchanged. */
  lemma {:induction false} PassThrough(p: Text, t: Text, k: Text, v: Text)
    requires Delimited(k) && BraceFree(p)
    ensures ReplaceAll(p + t, k, v) == p + ReplaceAll(t, k, v)
  {
    if p == [] {
      assert p + t == t;
    } else {
      assert (p + t)[0] == p[0] != '{';
      assert (p + t)[1..] == p[1..] + t;
      PassThrough(p[1..], t, k, v);
    }
  }

  /** A text starting with a placeholder outside `keys` keeps it, since none can start inside it. */
  lemma {:induction false} Untouched(p: Text, t: Text, m: Replacements, keys: set<Text>)
    requires keys <= m.Keys && Confluent(m) && '{' !in p
    ensures Simultaneous(p + t, m, keys) == p + Simultaneous(t, m, keys)
  {
    if p == [] {
      assert p + t == t;
    } else {
      assert (p + t)[0] == p[0] != '{';
      assert !Matches(p + t, keys);
      assert (p + t)[1..] == p[1..] + t;
      Untouched(p[1..], t, m, keys);
    }
  }

  /** A value cannot supply the tail of a placeholder. */
  lemma NoTail(v: Text, rest: Text, k: Text, j: nat)
    requires Delimited(k) && BraceFree(v) && !Contains(k, v) && 1 <= j < |k|
    ensures !StartsWith(v + rest, k[j..])
  {
    assert StartsWith(k[0..], []);
    var tail := k[j..];
    assert tail[|tail| - 1] == '}';
    if |v| >= |tail| {
      assert v[|tail| - 1] != '}';
      assert |tail| <= |v + rest| && (v + rest)[..|tail|][|tail| - 1] == v[|tail| - 1];
    } else {
      assert !StartsWith(k[j..], v);
      assert |tail| <= |v + rest| ==> (v + rest)[..|tail|][..|v|] == (v + rest)[..|v|] == v;
    }
  }

  lemma TailStep(s: Text, t: Text)
    requires s != [] && t != []
    ensures StartsWith(s, t) <==> s[0] == t[0] && StartsWith(s[1..], t[1..])
  {
    if |t| <= |s| {
      assert s[..|t|] == [s[0]] + s[1..][..|t| - 1];
      assert t == [t[0]] + t[1..];
    }
  }

  /** No replacement can complete the tail of a placeholder: a tail at the front of the output was there before. */
  lemma {:induction false} NotForged(s: Text, m: Replacements, keys: set<Text>, k: Text, j: nat)
    requires Confluent(m) && keys <= m.Keys && k in m && k !in keys && 1 <= j < |k|
    requires StartsWith(Simultaneous(s, m, keys), k[j..])
    ensures StartsWith(s, k[j..])
    decreases |s|
  {
    if Matches(s, keys) {
      var k' := MatchOf(s, keys);
      NoTail(m[k'], Simultaneous(s[|k'|..], m, keys), k, j);
      assert false;
    } else {
      TailStep(s, k[j..]);
      TailStep(Simultaneous(s, m, keys), k[j..]);
      assert Simultaneous(s, m, keys)[1..] == Simultaneous(s[1..], m, keys);
      if j + 1 < |k| {
        assert k[j..][1..] == k[j + 1..];
        NotForged(s[1..], m, keys, k, j + 1);
      }
    }
  }

  /** `s` starts with a placeholder that is replaced in both passes. */
  lemma MatchedStep(s: Text, m: Replacements, keys: set<Text>, k: Text, k': Text)
    requires Confluent(m) && keys <= m.Keys && k in m && k !in keys
    requires k' in keys && StartsWith(s, k') && s != []
    requires ReplaceAll(Simultaneous(s[|k'|..], m, keys), k, m[k]) == Simultaneous(s[|k'|..], m, keys + {k})
    ensures ReplaceAll(Simultaneous(s, m, keys), k, m[k]) == Simultaneous(s, m, keys + {k})
  {
    assert Matches(s, keys) && Matches(s, keys + {k});
    OnePlaceholder(s, k', MatchOf(s, keys));
    OnePlaceholder(s, k', MatchOf(s, keys + {k}));
    PassThrough(m[k'], Simultaneous(s[|k'|..], m, keys), k, m[k]);
  }

  lemma Rejoin(c: char, k: Text, out: Text)
    requires k != [] && c == k[0]
    ensures [c] + (k[1..] + out) == k + out
  {
  }

  lemma DropFirst(s: Text, k: Text)
    requires k != [] && StartsWith(s, k)
    ensures s[0] == k[0] && s[1..] == k[1..] + s[|k|..]
  {
    assert s == k + s[|k|..];
  }

  /** A placeholder outside `keys` survives the pass. */
  lemma KeptPlaceholder(s: Text, m: Replacements, keys: set<Text>, k: Text)
    requires Confluent(m) && keys <= m.Keys && k in m && StartsWith(s, k) && !Matches(s, keys)
    ensures Simultaneous(s, m, keys) == k + Simultaneous(s[|k|..], m, keys)
  {
    var rest := s[|k|..];
    DropFirst(s, k);
    Untouched(k[1..], rest, m, keys);
    Rejoin(s[0], k, Simultaneous(rest, m, keys));
  }

  lemma ReplaceAtFront(k: Text, t: Text, v: Text)
    requires k != []
    ensures ReplaceAll(k + t, k, v) == v + ReplaceAll(t, k, v)
  {
    assert (k + t)[|k|..] == t && (k + t)[..|k|] == k;
  }

  /** `s` starts with the placeholder being added. */
  lemma AddedStep(s: Text, m: Replacements, keys: set<Text>, k: Text)
    requires Confluent(m) && keys <= m.Keys && k in m && k !in keys
    requires StartsWith(s, k) && !Matches(s, keys)
    requires ReplaceAll(Simultaneous(s[|k|..], m, keys), k, m[k]) == Simultaneous(s[|k|..], m, keys + {k})
    ensures ReplaceAll(Simultaneous(s, m, keys), k, m[k]) == Simultaneous(s, m, keys + {k})
  {
    assert Matches(s, keys + {k});
    OnePlaceholder(s, k, MatchOf(s, keys + {k}));
    KeptPlaceholder(s, m, keys, k);
    ReplaceAtFront(k, Simultaneous(s[|k|..], m, keys), m[k]);
  }

  /** `s` starts with an ordinary character. */
  lemma CopiedStep(s: Text, m: Replacements, keys: set<Text>, k: Text)
    requires Confluent(m) && keys <= m.Keys && k in m && k !in keys
    requires s != [] && !StartsWith(s, k) && !Matches(s, keys)
    requires ReplaceAll(Simultaneous(s[1..], m, keys), k, m[k]) == Simultaneous(s[1..], m, keys + {k})
    ensures ReplaceAll(Simultaneous(s, m, keys), k, m[k]) == Simultaneous(s, m, keys + {k})
  {
    var out := Simultaneous(s, m, keys);
    assert !Matches(s, keys + {k});
    assert out[1..] == Simultaneous(s[1..], m, keys) && out[0] == s[0];
    TailStep(s, k);
    TailStep(out, k);
    if StartsWith(out[1..], k[1..]) {
      NotForged(s[1..], m, keys, k, 1);
    }
    assert !StartsWith(out, k);
  }

  /** Replacing one more placeholder after a simultaneous pass is a simultaneous pass with that placeholder too. */
  lemma {:induction false} OneMore(s: Text, m: Replacements, keys: set<Text>, k: Text)
    requires Confluent(m) && keys <= m.Keys && k in m && k !in keys
    ensures ReplaceAll(Simultaneous(s, m, keys), k, m[k]) == Simultaneous(s, m, keys + {k})
    decreases |s|
  {
    if s == [] {
    } else if Matches(s, keys) {
      var k' := MatchOf(s, keys);
      OneMore(s[|k'|..], m, keys, k);
      MatchedStep(s, m, keys, k, k');
    } else if StartsWith(s, k) {
      OneMore(s[|k|..], m, keys, k);
      AddedStep(s, m, keys, k);
    } else {
      OneMore(s[1..], m, keys, k);
      CopiedStep(s, m, keys, k);
    }
  }

  lemma {:induction false} NothingToReplace(s: Text, m: Replacements)
    ensures Simultaneous(s, m, {}) == s
    decreases |s|
  {
    if s != [] {
      NothingToReplace(s[1..], m);
    }
  }

  /**
   Replaces the placeholders one after the other, in an arbitrary order: the
   outcome is the simultaneous pass, whatever the order.
   */
  method Substitute(body: Text, m: Replacements) returns (out: Text)
    requires Confluent(m)
    ensures out == Simultaneous(body, m, m.Keys)
  {
    out := body;
    NothingToReplace(body, m);
    var todo := m.Keys;
    assert m.Keys - todo == {};
    while todo != {}
      invariant todo <= m.Keys
      invariant out == Simultaneous(body, m, m.Keys - todo)
      decreases todo
    {
      var k :| k in todo;
      OneMore(body, m, m.Keys - todo, k);
      assert m.Keys - todo + {k} == m.Keys - (todo - {k});
      out := ReplaceAll(out, k, m[k]);
      todo := todo - {k};
    }
    assert m.Keys - todo == m.Keys;
  }

  // ---------------------------------------------------------------------
  // When the order does not matter
  // ---------------------------------------------------------------------

  /** Replaces the listed placeholders one after the other. */
  function Sequential(s: Text, m: Replacements, order: seq<Text>): Text
    requires forall i :: 0 <= i < |order| ==> order[i] in m && order[i] != []
  {
    if order == [] then s
    else
      var n := |order| - 1;
      ReplaceAll(Sequential(s, m, order[..n]), order[n], m[order[n]])
  }

  ghost predicate Distinct(order: seq<Text>) {
    forall i, j :: 0 <= i < j < |order| ==> order[i] != order[j]
  }

  /** An iteration order of the table. */
  ghost predicate Order(m: Replacements, order: seq<Text>) {
    && Distinct(order)
    && (forall i :: 0 <= i < |order| ==> order[i] in m)
    && (forall k :: k in m ==> k in order)
  }

  ghost predicate OrderIndependent(m: Replacements)
    requires Shaped(m)
  {
    forall s, o, o' :: Order(m, o) && Order(m, o') ==> Sequential(s, m, o) == Sequential(s, m, o')
  }

  ghost function Elements(order: seq<Text>): set<Text> {
    set i | 0 <= i < |order| :: order[i]
  }

  lemma ElementsGrow(order: seq<Text>)
    requires order != [] && Distinct(order)
    ensures var n := |order| - 1;
            Elements(order) == Elements(order[..n]) + {order[n]} && order[n] !in Elements(order[..n])
  {
    var n := |order| - 1;
    forall k | k in Elements(order) ensures k in Elements(order[..n]) + {order[n]} {
      var i :| 0 <= i < |order| && order[i] == k;
      assert i < n ==> order[..n][i] == k;
    }
  }

  lemma {:induction false} SequentialIsSimultaneous(s: Text, m: Replacements, order: seq<Text>)
    requires Confluent(m) && Distinct(order) && forall i :: 0 <= i < |order| ==> order[i] in m
    ensures Elements(order) <= m.Keys && Sequential(s, m, order) == Simultaneous(s, m, Elements(order))
  {
    if order == [] {
      assert Elements(order) == {};
      NothingToReplace(s, m);
    } else {
      var n := |order| - 1;
      ElementsGrow(order);
      SequentialIsSimultaneous(s, m, order[..n]);
      OneMore(s, m, Elements(order[..n]), order[n]);
    }
  }

  /** Text without an opening brace holds no placeholder. */
  lemma {:induction false} NoOpen(t: Text, k: Text, v: Text)
    requires Delimited(k) && '{' !in t
    ensures ReplaceAll(t, k, v) == t
  {
    if t != [] {
      NoOpen(t[1..], k, v);
    }
  }

  /** A placeholder survives the replacement of any other. */
  lemma OtherKept(k': Text, t: Text, k: Text, v: Text)
    requires Delimited(k) && Delimited(k') && k != k' && '{' !in t
    ensures ReplaceAll(k' + t, k, v) == k' + t
  {
    var s := k' + t;
    assert s[..|k'|] == k';
    NotBoth(s, k, k');
    assert s[1..] == k'[1..] + t;
    assert '{' !in k'[1..] + t;
    NoOpen(s[1..], k, v);
    assert [s[0]] + s[1..] == s;
  }

  /** A placeholder that is opened but not closed before the next one opens is not matched. */
  lemma OpenPasses(a: Text, t: Text, k: Text, v: Text)
    requires Delimited(k) && a != [] && a[0] == '{' && BraceFree(a[1..]) && t != [] && t[0] == '{'
    ensures ReplaceAll(a + t, k, v) == a + ReplaceAll(t, k, v)
  {
    var s := a + t;
    if |k| <= |a| {
      assert s[..|k|][|k| - 1] == a[1..][|k| - 2] != '}';
    } else if |k| <= |s| {
      assert s[..|k|][|a|] == t[0] == '{' != k[|a|];
    }
    assert !StartsWith(s, k);
    assert s[1..] == a[1..] + t;
    PassThrough(a[1..], t, k, v);
    assert [a[0]] + (a[1..] + ReplaceAll(t, k, v)) == a + ReplaceAll(t, k, v);
  }

  /** A placeholder put inside another one. */
  lemma Nested(a: Text, b: Text, k: Text, v: Text, k': Text, v': Text)
    requires Delimited(k) && Delimited(k') && k != k' && BraceFree(v)
    requires a != [] && b != [] && k' == a + v + b
    ensures var body := a + (k + b);
            && ReplaceAll(body, k, v) == k' && ReplaceAll(k', k', v') == v'
            && ReplaceAll(body, k', v') == body
  {
    assert a[0] == k'[0] == '{';
    assert BraceFree(a[1..]) by {
      forall i | 0 <= i < |a[1..]| ensures a[1..][i] != '{' && a[1..][i] != '}' {
        assert a[1..][i] == k'[i + 1];
      }
    }
    assert '{' !in b by {
      forall i | 0 <= i < |b| ensures b[i] != '{' {
        assert b[i] == k'[|a| + |v| + i];
      }
    }
    OpenPasses(a, k + b, k, v);
    ReplaceAtFront(k, b, v);
    NoOpen(b, k, v);
    assert a + (v + b) == k';
    ReplaceAtFront(k', [], v');
    assert k' + [] == k' && v' + [] == v';
    OpenPasses(a, k + b, k', v');
    OtherKept(k, b, k', v');
  }

  lemma Run2(s: Text, m: Replacements, k: Text, k': Text)
    requires Shaped(m) && k in m && k' in m
    ensures Sequential(s, m, [k, k']) == ReplaceAll(ReplaceAll(s, k, m[k]), k', m[k'])
  {
    assert [k, k'][..1] == [k] && [k][..0] == [];
    assert Sequential(s, m, [k]) == ReplaceAll(s, k, m[k]);
  }

  /** A text no further replacement touches stays as it is. */
  lemma {:induction false} StaysFixed(s: Text, m: Replacements, first: seq<Text>, others: seq<Text>)
    requires Shaped(m) && forall i :: 0 <= i < |first| ==> first[i] in m
    requires forall i :: 0 <= i < |others| ==> others[i] in m
    requires var t := Sequential(s, m, first);
             forall i :: 0 <= i < |others| ==> ReplaceAll(t, others[i], m[others[i]]) == t
    ensures Sequential(s, m, first + others) == Sequential(s, m, first)
  {
    if others == [] {
      assert first + others == first;
    } else {
      var n := |others| - 1;
      StaysFixed(s, m, first, others[..n]);
      assert (first + others)[..|first| + n] == first + others[..n];
    }
  }

  /** Every finite set can be listed. */
  lemma Listed(keys: set<Text>) returns (order: seq<Text>)
    ensures Distinct(order) && forall k :: k in order <==> k in keys
  {
    order := [];
    var todo := keys;
    while todo != {}
      invariant todo <= keys && Distinct(order) && forall k :: k in order <==> k in keys && k !in todo
    {
      var k :| k in todo;
      order := order + [k];
      todo := todo - {k};
    }
  }

  /** Where a brace-free value occurs in a placeholder, text is left on both sides. */
  lemma CutAround(k': Text, v: Text) returns (a: Text, b: Text)
    requires Delimited(k') && BraceFree(v) && Contains(k', v)
    ensures a != [] && b != [] && k' == a + v + b
  {
    if v == [] {
      a, b := k'[..1], k'[1..];
    } else {
      var i :| 0 <= i <= |k'| && StartsWith(k'[i..], v);
      a, b := k'[..i], k'[i + |v|..];
      assert v[0] == k'[i] && v[|v| - 1] == k'[i + |v| - 1];
    }
  }

  /** A placeholder and a value are left alone by the replacement of other placeholders. */
  lemma LeftAlone(m: Replacements, k: Text, other: Text)
    requires Shaped(m) && k in m && other in m && other != k
    ensures ReplaceAll(m[k], other, m[other]) == m[k] && ReplaceAll(k, other, m[other]) == k
  {
    NoOpen(m[k], other, m[other]);
    OtherKept(k, [], other, m[other]);
    assert k + [] == k;
  }

  /** Two orders of the whole table that begin with these two, and what they make of a text. */
  lemma TwoOrders(m: Replacements, body: Text, k: Text, k': Text, t: Text, others: seq<Text>)
    requires Shaped(m) && k in m && k' in m && k != k' && (t == k' || t == m[k'])
    requires Distinct(others) && forall x :: x in others <==> x in m.Keys - {k, k'}
    requires Order(m, [k, k'] + others) && Order(m, [k', k] + others)
    ensures Sequential(body, m, [k, k']) == t ==> Sequential(body, m, [k, k'] + others) == t
    ensures Sequential(body, m, [k', k]) == t ==> Sequential(body, m, [k', k] + others) == t
  {
    forall i | 0 <= i < |others| ensures others[i] in m && ReplaceAll(t, others[i], m[others[i]]) == t {
      assert others[i] in others;
      LeftAlone(m, k', others[i]);
    }
    if Sequential(body, m, [k, k']) == t {
      StaysFixed(body, m, [k, k'], others);
    }
    if Sequential(body, m, [k', k]) == t {
      StaysFixed(body, m, [k', k], others);
    }
  }

  /** A value that occurs in another key makes two orders differ. */
  lemma OccurrenceShows(m: Replacements, k: Text, k': Text)
    requires Shaped(m) && k in m && k' in m && k != k' && Contains(k', m[k])
    ensures !OrderIndependent(m)
  {
    var a, b := CutAround(k', m[k]);
    var body := a + (k + b);
    Nested(a, b, k, m[k], k', m[k']);
    var others := Listed(m.Keys - {k, k'});
    TwoThenOthers(m, k, k', others);
    Run2(body, m, k, k');
    Run2(body, m, k', k);
    TwoOrders(m, body, k, k', m[k'], others);
    TwoOrders(m, body, k, k', k', others);
    assert k'[0] == '{';
    assert Sequential(body, m, [k, k'] + others) != Sequential(body, m, [k', k] + others);
  }

  lemma TwoThenOthers(m: Replacements, k: Text, k': Text, others: seq<Text>)
    requires k in m && k' in m && k != k' && Distinct(others) && forall x :: x in others <==> x in m.Keys - {k, k'}
    ensures Order(m, [k, k'] + others) && Order(m, [k', k] + others)
    ensures forall i :: 0 <= i < |others| ==> others[i] in m
  {
    forall i | 0 <= i < |others| ensures others[i] in m && others[i] != k && others[i] != k' {
      assert others[i] in others;
    }
  }

  /** For a table of this shape the iteration order never matters exactly when no value occurs in another key. */
  lemma OrderIndependentExactlyWhen(m: Replacements)
    requires Shaped(m)
    ensures OrderIndependent(m) <==> Confluent(m)
  {
    if Confluent(m) {
      forall s, o, o' | Order(m, o) && Order(m, o') ensures Sequential(s, m, o) == Sequential(s, m, o') {
        OrderIsAll(m, o);
        OrderIsAll(m, o');
        SequentialIsSimultaneous(s, m, o);
        SequentialIsSimultaneous(s, m, o');
      }
    } else {
      var k, k' :| k in m && k' in m && k != k' && Contains(k', m[k]);
      OccurrenceShows(m, k, k');
    }
  }

  lemma OrderIsAll(m: Replacements, o: seq<Text>)
    requires Order(m, o)
    ensures Elements(o) == m.Keys && forall i :: 0 <= i < |o| ==> o[i] in m
  {
    forall i | 0 <= i < |o| ensures o[i] in m {
      assert o[i] in o;
    }
  }

  // ---------------------------------------------------------------------
  // The preview's own table
  // ---------------------------------------------------------------------

  const STATUS_CODE := "{http.error.status_code}"
  const STATUS_TEXT := "{http.error.status_text}"
  const ERROR_ID := "{http.error.id}"
  const MESSAGE := "{http.error.message}"
  const METHOD := "{http.request.method}"
  const URI_ESCAPED := "{http.request.uri_escaped}"
  const UUID := "{http.request.uuid}"
  const REMOTE_HOST := "{http.request.remote.host}"

  const SUPPORTED: set<int> := {401, 403, 404, 429, 500, 502, 503, 504}

  function ByCode(code: int, t401: Text, t403: Text, t404: Text, t429: Text,
                  t500: Text, t502: Text, t503: Text, t504: Text): Text {
    match code
    case 401 => t401
    case 403 => t403
    case 404 => t404
    case 429 => t429
    case 500 => t500
    case 502 => t502
    case 503 => t503
    case 504 => t504
    case _ => ""
  }

  function StatusText(code: int): Text {
    ByCode(code, "Unauthorized", "Forbidden", "Not Found", "Too Many Requests",
           "Internal Server Error", "Bad Gateway", "Service Unavailable", "Gateway Timeout")
  }

  function Digit(n: nat): char
    requires n < 10
  {
    '0' + n as char
  }

  function Decimal(n: nat): (s: Text)
    ensures s != [] && forall i :: 0 <= i < |s| ==> '0' <= s[i] <= '9'
  {
    if n < 10 then [Digit(n)] else Decimal(n / 10) + [Digit(n % 10)]
  }

  function Fixtures(code: nat): Replacements {
    map[
      STATUS_CODE := Decimal(code),
      STATUS_TEXT := StatusText(code),
      ERROR_ID := "preview-error-id-0000",
      MESSAGE := StatusText(code),
      METHOD := "GET",
      URI_ESCAPED := "/preview/path",
      UUID := "00000000-0000-4000-8000-000000000000",
      REMOTE_HOST := "203.0.113.42"]
  }

  /** The characters placeholders are made of. */
  predicate Lexical(c: char) {
    'a' <= c <= 'z' || c == '.' || c == '_' || c == '{' || c == '}'
  }

  predicate Placeholder(k: Text) {
    Delimited(k) && forall i :: 0 <= i < |k| ==> Lexical(k[i])
  }

  lemma ErrorPlaceholders()
    ensures Placeholder(ERROR_ID) && Placeholder(MESSAGE)
  {
  }

  lemma StatusPlaceholders()
    ensures Placeholder(STATUS_CODE) && Placeholder(STATUS_TEXT)
  {
  }

  lemma RequestPlaceholders()
    ensures Placeholder(METHOD) && Placeholder(UUID)
  {
  }

  lemma ClientPlaceholders()
    ensures Placeholder(URI_ESCAPED) && Placeholder(REMOTE_HOST)
  {
  }

  /** A value holding a character no placeholder has occurs in none. */
  lemma ForeignNotContained(v: Text, i: nat, k: Text)
    requires i < |v| && !Lexical(v[i]) && Placeholder(k)
    ensures !Contains(k, v)
  {
    forall j | 0 <= j <= |k| ensures !StartsWith(k[j..], v) {
      if |v| <= |k[j..]| {
        assert k[j..][..|v|][i] == k[j + i];
      }
    }
  }

  /** Brace-free, and holding a character that no placeholder has. */
  predicate Foreign(v: Text) {
    BraceFree(v) && exists i :: 0 <= i < |v| && !Lexical(v[i])
  }

  lemma ClientTextsForeign()
    ensures Foreign("Unauthorized") && Foreign("Forbidden") && Foreign("Not Found") && Foreign("Too Many Requests")
  {
    assert !Lexical("Unauthorized"[0]) && !Lexical("Forbidden"[0]);
    assert !Lexical("Not Found"[0]) && !Lexical("Too Many Requests"[0]);
  }

  lemma ServerTextsForeign()
    ensures Foreign("Internal Server Error") && Foreign("Bad Gateway")
    ensures Foreign("Service Unavailable") && Foreign("Gateway Timeout")
  {
    assert !Lexical("Internal Server Error"[0]) && !Lexical("Bad Gateway"[0]);
    assert !Lexical("Service Unavailable"[0]) && !Lexical("Gateway Timeout"[0]);
  }

  lemma LiteralsForeign()
    ensures Foreign("preview-error-id-0000") && Foreign("GET") && Foreign("/preview/path")
    ensures Foreign("00000000-0000-4000-8000-000000000000") && Foreign("203.0.113.42")
  {
    assert !Lexical("preview-error-id-0000"[7]) && !Lexical("GET"[0]) && !Lexical("/preview/path"[0]);
    assert !Lexical("00000000-0000-4000-8000-000000000000"[0]) && !Lexical("203.0.113.42"[0]);
  }

  lemma ByCodeForeign(code: int, t401: Text, t403: Text, t404: Text, t429: Text,
                      t500: Text, t502: Text, t503: Text, t504: Text)
    requires code in SUPPORTED
    requires Foreign(t401) && Foreign(t403) && Foreign(t404) && Foreign(t429)
    requires Foreign(t500) && Foreign(t502) && Foreign(t503) && Foreign(t504)
    ensures Foreign(ByCode(code, t401, t403, t404, t429, t500, t502, t503, t504))
  {
  }

  lemma StatusTextForeign(code: int)
    requires code in SUPPORTED
    ensures Foreign(StatusText(code))
  {
    ClientTextsForeign();
    ServerTextsForeign();
    ByCodeForeign(code, "Unauthorized", "Forbidden", "Not Found", "Too Many Requests",
                  "Internal Server Error", "Bad Gateway", "Service Unavailable", "Gateway Timeout");
  }

  /** A table whose keys are placeholders and whose values are foreign to them is confluent. */
  lemma ForeignIsConfluent(m: Replacements)
    requires forall k :: k in m ==> Placeholder(k) && Foreign(m[k])
    ensures Confluent(m)
  {
    forall k, k' | k in m && k' in m ensures !Contains(k', m[k]) {
      var i :| 0 <= i < |m[k]| && !Lexical(m[k][i]);
      ForeignNotContained(m[k], i, k');
    }
  }

  predicate Entry(k: Text, v: Text) {
    Placeholder(k) && Foreign(v)
  }

  /** Every entry of an eight-entry table display qualifies when the eight pairs do. */
  lemma EightEntries(k1: Text, v1: Text, k2: Text, v2: Text, k3: Text, v3: Text, k4: Text, v4: Text,
                     k5: Text, v5: Text, k6: Text, v6: Text, k7: Text, v7: Text, k8: Text, v8: Text, m: Replacements)
    requires Entry(k1, v1) && Entry(k2, v2) && Entry(k3, v3) && Entry(k4, v4)
    requires Entry(k5, v5) && Entry(k6, v6) && Entry(k7, v7) && Entry(k8, v8)
    requires m == map[k1 := v1, k2 := v2, k3 := v3, k4 := v4, k5 := v5, k6 := v6, k7 := v7, k8 := v8]
    ensures Confluent(m)
  {
    ForeignIsConfluent(m);
  }

  lemma FixturesConfluent(code: nat)
    requires code in SUPPORTED
    ensures Confluent(Fixtures(code))
  {
    ErrorPlaceholders();
    StatusPlaceholders();
    RequestPlaceholders();
    ClientPlaceholders();
    StatusTextForeign(code);
    LiteralsForeign();
    assert !Lexical(Decimal(code)[0]);
    EightEntries(
      STATUS_CODE, Decimal(code), STATUS_TEXT, StatusText(code), ERROR_ID, "preview-error-id-0000",
      MESSAGE, StatusText(code), METHOD, "GET", URI_ESCAPED, "/preview/path",
      UUID, "00000000-0000-4000-8000-000000000000", REMOTE_HOST, "203.0.113.42", Fixtures(code));
  }

  /** For every body and every status code the preview accepts, any iteration order gives the simultaneous pass. */
  method PreviewSubstitute(body: Text, code: nat) returns (out: Text)
    requires code in SUPPORTED
    ensures Confluent(Fixtures(code))
    ensures out == Simultaneous(body, Fixtures(code), Fixtures(code).Keys)
  {
    FixturesConfluent(code);
    out := Substitute(body, Fixtures(code));
  }

  predicate ShapedEntry(k: Text, v: Text) {
    Delimited(k) && BraceFree(v)
  }

  /** An eight-entry table of this shape; the second entry is found when no later key equals its key. */
  lemma EightShaped(k1: Text, v1: Text, k2: Text, v2: Text, k3: Text, v3: Text, k4: Text, v4: Text,
                    k5: Text, v5: Text, k6: Text, v6: Text, k7: Text, v7: Text, k8: Text, v8: Text, m: Replacements)
    requires ShapedEntry(k1, v1) && ShapedEntry(k2, v2) && ShapedEntry(k3, v3) && ShapedEntry(k4, v4)
    requires ShapedEntry(k5, v5) && ShapedEntry(k6, v6) && ShapedEntry(k7, v7) && ShapedEntry(k8, v8)
    requires m == map[k1 := v1, k2 := v2, k3 := v3, k4 := v4, k5 := v5, k6 := v6, k7 := v7, k8 := v8]
    ensures Shaped(m) && k2 in m && k5 in m
    ensures k2 !in {k3, k4, k5, k6, k7, k8} ==> m[k2] == v2
  {
  }

  lemma StatusTextKeyDiffers()
    ensures STATUS_TEXT !in {ERROR_ID, MESSAGE, METHOD, URI_ESCAPED, UUID, REMOTE_HOST}
  {
    assert |STATUS_TEXT| == 24 && |ERROR_ID| == 15 && |MESSAGE| == 20 && |METHOD| == 21;
    assert |URI_ESCAPED| == 26 && |UUID| == 19 && |REMOTE_HOST| == 26;
  }

  lemma FixturesShaped(code: nat)
    ensures Shaped(Fixtures(code)) && STATUS_TEXT in Fixtures(code) && METHOD in Fixtures(code)
    ensures Fixtures(code)[STATUS_TEXT] == StatusText(code)
  {
    ErrorPlaceholders();
    StatusPlaceholders();
    RequestPlaceholders();
    ClientPlaceholders();
    LiteralsForeign();
    StatusTextKeyDiffers();
    if code in SUPPORTED {
      StatusTextForeign(code);
    }
    EightShaped(
      STATUS_CODE, Decimal(code), STATUS_TEXT, StatusText(code), ERROR_ID, "preview-error-id-0000",
      MESSAGE, StatusText(code), METHOD, "GET", URI_ESCAPED, "/preview/path",
      UUID, "00000000-0000-4000-8000-000000000000", REMOTE_HOST, "203.0.113.42", Fixtures(code));
  }

  lemma EmptyValueNotConfluent(m: Replacements, k: Text, k': Text)
    requires k in m && k' in m && k != k' && m[k] == []
    ensures !Confluent(m)
  {
    assert StartsWith(k'[0..], []);
    assert Contains(k', m[k]);
  }

  lemma UnlistedNotConfluent(code: nat)
    requires code !in SUPPORTED
    ensures !Confluent(Fixtures(code))
  {
    FixturesShaped(code);
    StatusTextKeyDiffers();
    EmptyValueNotConfluent(Fixtures(code), STATUS_TEXT, METHOD);
  }

  /** The preview's table is independent of the iteration order exactly for the supported status codes; any other has an empty status text. */
  lemma PreviewOrderExactlyWhen(code: nat)
    ensures Shaped(Fixtures(code))
    ensures OrderIndependent(Fixtures(code)) <==> code in SUPPORTED
  {
    FixturesShaped(code);
    OrderIndependentExactlyWhen(Fixtures(code));
    if code in SUPPORTED {
      FixturesConfluent(code);
    } else {
      UnlistedNotConfluent(code);
    }
  }

  // ---------------------------------------------------------------------
  // What the placeholders stand for
  // ---------------------------------------------------------------------

  /** A body that is one placeholder of a confluent table becomes its value. */
  lemma SinglePlaceholder(m: Replacements, k: Text)
    requires Confluent(m) && k in m
    ensures Simultaneous(k, m, m.Keys) == m[k]
  {
    assert StartsWith(k, k) && Matches(k, m.Keys);
    OnePlaceholder(k, k, MatchOf(k, m.Keys));
    assert m[k] + [] == m[k];
  }

  /** The reason phrases of section 15 of RFC 9110, and section 4 of RFC 6585 for 429. */
  lemma ReasonPhrases()
    ensures StatusText(401) == "Unauthorized" && StatusText(403) == "Forbidden" && StatusText(404) == "Not Found"
    ensures StatusText(429) == "Too Many Requests" && StatusText(500) == "Internal Server Error"
    ensures StatusText(502) == "Bad Gateway" && StatusText(503) == "Service Unavailable"
    ensures StatusText(504) == "Gateway Timeout"
  {
  }

  /** The number a decimal text stands for. */
  function Reads(s: Text): int {
    if s == [] then 0 else 10 * Reads(s[..|s| - 1]) + (s[|s| - 1] as int - '0' as int)
  }

  lemma {:induction false} DecimalReads(n: nat)
    ensures Reads(Decimal(n)) == n
  {
    if n >= 10 {
      DecimalReads(n / 10);
      assert Decimal(n)[..|Decimal(n)| - 1] == Decimal(n / 10);
    } else {
      assert Decimal(n)[..0] == [];
    }
  }

  predicate Different(k: Text, others: set<Text>) {
    k !in others
  }

  /** Eight entries under different keys are all found. */
  lemma EightFound(k1: Text, v1: Text, k2: Text, v2: Text, k3: Text, v3: Text, k4: Text, v4: Text,
                   k5: Text, v5: Text, k6: Text, v6: Text, k7: Text, v7: Text, k8: Text, v8: Text, m: Replacements)
    requires Different(k1, {k2, k3, k4, k5, k6, k7, k8}) && Different(k2, {k3, k4, k5, k6, k7, k8})
    requires Different(k3, {k4, k5, k6, k7, k8}) && Different(k4, {k5, k6, k7, k8})
    requires Different(k5, {k6, k7, k8}) && Different(k6, {k7, k8}) && Different(k7, {k8})
    requires m == map[k1 := v1, k2 := v2, k3 := v3, k4 := v4, k5 := v5, k6 := v6, k7 := v7, k8 := v8]
    ensures {k1, k2, k3, k4, k5, k6, k7, k8} == m.Keys
    ensures m[k1] == v1 && m[k2] == v2 && m[k3] == v3 && m[k4] == v4
    ensures m[k5] == v5 && m[k6] == v6 && m[k7] == v7 && m[k8] == v8
  {
  }

  lemma KeysDiffer()
    ensures Different(STATUS_CODE, {STATUS_TEXT, ERROR_ID, MESSAGE, METHOD, URI_ESCAPED, UUID, REMOTE_HOST})
    ensures Different(STATUS_TEXT, {ERROR_ID, MESSAGE, METHOD, URI_ESCAPED, UUID, REMOTE_HOST})
    ensures Different(ERROR_ID, {MESSAGE, METHOD, URI_ESCAPED, UUID, REMOTE_HOST})
    ensures Different(MESSAGE, {METHOD, URI_ESCAPED, UUID, REMOTE_HOST})
    ensures Different(METHOD, {URI_ESCAPED, UUID, REMOTE_HOST}) && Different(URI_ESCAPED, {UUID, REMOTE_HOST})
    ensures Different(UUID, {REMOTE_HOST})
  {
    StatusTextKeyDiffers();
    assert |STATUS_CODE| == 24 && |ERROR_ID| == 15 && |MESSAGE| == 20 && |METHOD| == 21;
    assert |URI_ESCAPED| == 26 && |UUID| == 19 && |REMOTE_HOST| == 26;
    assert STATUS_CODE[19] == 'c' && STATUS_TEXT[19] == 't';
    assert URI_ESCAPED[14] == 'u' && REMOTE_HOST[14] == 'r';
  }

  /** The preview's fixtures, placeholder by placeholder. */
  lemma FixtureEntries(code: nat)
    ensures var m := Fixtures(code);
            && m.Keys == {STATUS_CODE, STATUS_TEXT, ERROR_ID, MESSAGE, METHOD, URI_ESCAPED, UUID, REMOTE_HOST}
            && m[STATUS_CODE] == Decimal(code) && m[STATUS_TEXT] == m[MESSAGE] == StatusText(code)
            && m[ERROR_ID] == "preview-error-id-0000" && m[METHOD] == "GET" && m[URI_ESCAPED] == "/preview/path"
            && m[UUID] == "00000000-0000-4000-8000-000000000000" && m[REMOTE_HOST] == "203.0.113.42"
  {
    KeysDiffer();
    EightFound(
      STATUS_CODE, Decimal(code), STATUS_TEXT, StatusText(code), ERROR_ID, "preview-error-id-0000",
      MESSAGE, StatusText(code), METHOD, "GET", URI_ESCAPED, "/preview/path",
      UUID, "00000000-0000-4000-8000-000000000000", REMOTE_HOST, "203.0.113.42", Fixtures(code));
  }
}
