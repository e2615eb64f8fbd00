/**
 Tidying a list of names: trim, drop the empty ones and keep the first of those
 that share a key.  Discord IDs are compared exactly
 (internal/alerting/sender_discord.go), logged query parameters ignoring case
 (internal/storage/access_log_config.go).
 */
module CleanList {
  import opened Strings

  type Key = Text -> Text

  predicate Seen(out: seq<Text>, key: Key, k: Text) {
    exists i :: 0 <= i < |out| && key(out[i]) == k
  }

  function Clean(names: seq<Text>, key: Key): seq<Text> {
    if names == [] then []
    else
      var out := Clean(names[..|names| - 1], key);
      var name := Trim(names[|names| - 1]);
      if name == "" || Seen(out, key, key(name)) then out else out + [name]
  }

  /** Trimmed, non-empty and pairwise distinct under the key. */
  ghost predicate Cleaned(names: seq<Text>, key: Key) {
    && (forall i :: 0 <= i < |names| ==> names[i] != "" && Trim(names[i]) == names[i])
    && (forall i, j :: 0 <= i < j < |names| ==> key(names[i]) != key(names[j]))
  }

  lemma {:induction false} TrimLeftTrimmed(s: Text)
    ensures TrimLeft(s) == [] || !Blank(TrimLeft(s)[0])
  {
    if s != [] && Blank(s[0]) {
      TrimLeftTrimmed(s[1..]);
    }
  }

  lemma {:induction false} TrimRightTrimmed(s: Text)
    ensures TrimRight(s) == [] || !Blank(TrimRight(s)[|TrimRight(s)| - 1])
    ensures s != [] && !Blank(s[0]) ==> TrimRight(s) != [] && TrimRight(s)[0] == s[0]
  {
    if s != [] && Blank(s[|s| - 1]) {
      TrimRightTrimmed(s[..|s| - 1]);
    }
  }

  predicate AllBlank(s: Text) {
    forall i :: 0 <= i < |s| ==> Blank(s[i])
  }

  lemma {:induction false} LeftTrimmedOff(s: Text) returns (a: Text)
    ensures AllBlank(a) && s == a + TrimLeft(s)
  {
    a := [];
    if s != [] && Blank(s[0]) {
      var b := LeftTrimmedOff(s[1..]);
      a := [s[0]] + b;
      assert s == [s[0]] + s[1..];
    }
  }

  lemma {:induction false} RightTrimmedOff(s: Text) returns (b: Text)
    ensures AllBlank(b) && s == TrimRight(s) + b
  {
    b := [];
    if s != [] && Blank(s[|s| - 1]) {
      var a := RightTrimmedOff(s[..|s| - 1]);
      b := a + [s[|s| - 1]];
      assert s == s[..|s| - 1] + [s[|s| - 1]];
    }
  }

  /** Trimming takes off blanks at both ends, and all of them. */
  lemma TrimExactly(s: Text) returns (a: Text, b: Text)
    ensures AllBlank(a) && AllBlank(b) && s == a + Trim(s) + b
    ensures Trim(s) != [] ==> !Blank(Trim(s)[0]) && !Blank(Trim(s)[|Trim(s)| - 1])
  {
    a := LeftTrimmedOff(s);
    b := RightTrimmedOff(TrimLeft(s));
    TrimLeftTrimmed(s);
    TrimRightTrimmed(TrimLeft(s));
    var r := Trim(s);
    assert r != [] ==> r[0] == (r + b)[0] == TrimLeft(s)[0];
    assert a + (r + b) == a + r + b;
  }

  lemma TrimTwice(s: Text)
    ensures Trim(Trim(s)) == Trim(s)
  {
    TrimLeftTrimmed(s);
    TrimRightTrimmed(TrimLeft(s));
  }

  lemma {:induction false} CleanIsCleaned(names: seq<Text>, key: Key)
    ensures Cleaned(Clean(names, key), key)
  {
    if names != [] {
      CleanIsCleaned(names[..|names| - 1], key);
      TrimTwice(names[|names| - 1]);
    }
  }

  lemma LastIsNew(names: seq<Text>, key: Key, n: nat)
    requires Cleaned(names, key) && n < |names|
    ensures Cleaned(names[..n], key) && !Seen(names[..n], key, key(names[n]))
  {
    forall i | 0 <= i < n ensures key(names[..n][i]) != key(names[n]) {
      assert names[..n][i] == names[i];
    }
  }

  lemma {:induction false} CleanedIsFixed(names: seq<Text>, key: Key)
    requires Cleaned(names, key)
    ensures Clean(names, key) == names
  {
    if names != [] {
      var n := |names| - 1;
      LastIsNew(names, key, n);
      CleanedIsFixed(names[..n], key);
      assert names == names[..n] + [names[n]];
    }
  }

  /** Cleaning a cleaned list changes nothing. */
  lemma CleanTwice(names: seq<Text>, key: Key)
    ensures Clean(Clean(names, key), key) == Clean(names, key)
  {
    CleanIsCleaned(names, key);
    CleanedIsFixed(Clean(names, key), key);
  }

  /** The entry at `i` is kept: it is not blank and no earlier entry has its key. */
  ghost predicate Kept(names: seq<Text>, key: Key, i: nat)
    requires i < |names|
  {
    && Trim(names[i]) != ""
    && forall j :: 0 <= j < i && Trim(names[j]) != "" ==> key(Trim(names[j])) != key(Trim(names[i]))
  }

  lemma {:induction false} SeenExactlyWhen(names: seq<Text>, key: Key, k: Text)
    ensures Seen(Clean(names, key), key, k) <==>
              exists j :: 0 <= j < |names| && Trim(names[j]) != "" && key(Trim(names[j])) == k
  {
    if names != [] {
      var n := |names| - 1;
      var init, name := names[..n], Trim(names[n]);
      var out := Clean(init, key);
      SeenExactlyWhen(init, key, k);
      SeenGrows(out, key, name, k);
      if Seen(out, key, k) {
        var j :| 0 <= j < n && Trim(init[j]) != "" && key(Trim(init[j])) == k;
        assert names[j] == init[j];
      }
      if exists j :: 0 <= j < |names| && Trim(names[j]) != "" && key(Trim(names[j])) == k {
        var j :| 0 <= j < |names| && Trim(names[j]) != "" && key(Trim(names[j])) == k;
        if j < n {
          assert init[j] == names[j];
        }
      }
    }
  }

  lemma SeenGrows(out: seq<Text>, key: Key, name: Text, k: Text)
    ensures Seen(out + [name], key, k) <==> Seen(out, key, k) || key(name) == k
  {
    var all := out + [name];
    if Seen(out, key, k) {
      var i :| 0 <= i < |out| && key(out[i]) == k;
      assert all[i] == out[i];
    }
    if key(name) == k {
      assert all[|out|] == name;
    }
  }

  /** The order is the operator's: a prefix is cleaned to a prefix, and the next entry is appended exactly when it is kept. */
  lemma CleanStep(names: seq<Text>, key: Key, i: nat)
    requires i < |names|
    ensures Clean(names[..i + 1], key) ==
              Clean(names[..i], key) + if Kept(names, key, i) then [Trim(names[i])] else []
  {
    var init, name := names[..i], Trim(names[i]);
    assert names[..i + 1][..i] == init;
    SeenExactlyWhen(init, key, key(name));
    if Kept(names, key, i) {
      assert forall j :: 0 <= j < i ==> init[j] == names[j];
    } else if name != "" {
      var j :| 0 <= j < i && Trim(names[j]) != "" && key(Trim(names[j])) == key(name);
      assert init[j] == names[j];
    }
  }

  /** The loop: one pass with the keys seen so far. */
  method CleanNames(names: seq<Text>, key: Key) returns (out: seq<Text>)
    ensures out == Clean(names, key)
    ensures Cleaned(out, key)
  {
    out := [];
    var seen: set<Text> := {};
    for i := 0 to |names|
      invariant out == Clean(names[..i], key)
      invariant forall k :: k in seen <==> Seen(out, key, k)
    {
      assert names[..i + 1][..i] == names[..i];
      var name := Trim(names[i]);
      if name == "" || key(name) in seen {
        continue;
      }
      forall k ensures k in seen + {key(name)} <==> Seen(out + [name], key, k) {
        SeenGrows(out, key, name, k);
      }
      seen := seen + {key(name)};
      out := out + [name];
    }
    assert names[..|names|] == names;
    CleanIsCleaned(names, key);
  }
}
