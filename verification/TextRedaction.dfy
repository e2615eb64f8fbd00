/**
 Redacting the URLs inside a text (internal/storage/url_redact.go): every http or
 https link is cut down to scheme and host, the text around it is left alone.  It
 runs twice by design, so it is meant to be idempotent; it is exactly when no link
 keeps a '%' in its decoded host.
 */
module TextRedaction {
  import opened Options
  import opened Strings
  import opened ChannelSecrets

  /** A character that ends a link. */
  predicate Terminator(c: char) {
    c == ' ' || c == '\t' || c == '\n' || c == '\r' || c == 12 as char
    || c == '"' || c == '\'' || c == '<' || c == '>' || c == '`'
  }

  /** Punctuation at the end of a link that belongs to the sentence around it. */
  predicate Punctuation(c: char) {
    c == ':' || c == '.' || c == ',' || c == ';' || c == ')'
  }

  const HTTP: Text := "http://"
  const HTTPS: Text := "https://"

  /** `p`, and behind it a character a link may hold. */
  predicate Leads(s: Text, p: Text) {
    StartsWith(s, p) && |s| > |p| && !Terminator(s[|p|])
  }

  /** The regular expression matches here. */
  predicate LinkStart(s: Text) {
    Leads(s, HTTP) || Leads(s, HTTPS)
  }

  predicate LinkChars(s: Text) {
    forall i :: 0 <= i < |s| ==> !Terminator(s[i])
  }

  /** How far a match reaches. */
  function RunLength(s: Text): (n: nat)
    ensures n <= |s| && LinkChars(s[..n]) && (n < |s| ==> Terminator(s[n]))
  {
    if s == "" || Terminator(s[0]) then 0 else 1 + RunLength(s[1..])
  }

  function TrimTail(m: Text): (core: Text)
    ensures |core| <= |m| && core == m[..|core|]
    ensures core != "" ==> !Punctuation(core[|core| - 1])
    ensures forall i :: |core| <= i < |m| ==> Punctuation(m[i])
  {
    if m != "" && Punctuation(m[|m| - 1]) then TrimTail(m[..|m| - 1]) else m
  }

  function RedactLink(parse: Parser, raw: Text): Text {
    match parse(raw)
    case None => REDACTED
    case Some(u) => if u.host == "" then REDACTED else Printed(u)
  }

  /** The match at the start of `s`, without the sentence's punctuation. */
  function LinkAt(s: Text): Text {
    TrimTail(s[..RunLength(s)])
  }

  function TailAt(s: Text): Text {
    s[|LinkAt(s)|..RunLength(s)]
  }

  function RedactText(parse: Parser, s: Text): Text
    decreases |s|
  {
    if s == "" then ""
    else if LinkStart(s) then
      RunPositive(s);
      RedactLink(parse, LinkAt(s)) + TailAt(s) + RedactText(parse, s[RunLength(s)..])
    else [s[0]] + RedactText(parse, s[1..])
  }

  /** The shortcut for texts without "://" changes nothing. */
  function RedactUrlsInText(parse: Parser, s: Text): Text {
    if s == "" || !Contains(s, "://") then s else RedactText(parse, s)
  }

  lemma RunPositive(s: Text)
    requires LinkStart(s)
    ensures RunLength(s) > 0
  {
    assert s[0] == 'h';
  }

  lemma InnerPrefix(s: Text, p: Text, i: nat)
    requires StartsWith(s, p) && i <= |p|
    ensures StartsWith(s[i..], p[i..])
  {
    assert s[i..][..|p| - i] == s[..|p|][i..];
  }

  lemma LinkHasSeparator(s: Text)
    ensures LinkStart(s) ==> Contains(s, "://")
  {
    if Leads(s, HTTP) {
      InnerPrefix(s, HTTP, 4);
      assert HTTP[4..] == "://";
    } else if Leads(s, HTTPS) {
      InnerPrefix(s, HTTPS, 5);
      assert HTTPS[5..] == "://";
    }
  }

  lemma {:induction false} NoLinkUnchanged(parse: Parser, s: Text)
    requires !Contains(s, "://")
    ensures RedactText(parse, s) == s
    decreases |s|
  {
    if s != "" {
      LinkHasSeparator(s);
      forall i | 0 <= i <= |s[1..]| ensures !StartsWith(s[1..][i..], "://") {
        assert s[1..][i..] == s[i + 1..];
      }
      NoLinkUnchanged(parse, s[1..]);
    }
  }

  lemma ShortcutIsExact(parse: Parser, s: Text)
    ensures RedactUrlsInText(parse, s) == RedactText(parse, s)
  {
    if !Contains(s, "://") {
      NoLinkUnchanged(parse, s);
    }
  }

  // ---------------------------------------------------------------------
  // What is assumed of the URL parser
  // ---------------------------------------------------------------------

  /**
   What `url.Parse` reports of a link: the scheme it starts with, and a host that is a decoded piece of
   it, so no longer than it and without '/'.  A character that ends links can only come from decoding an
   IPv6 zone, so it stands behind a '%'.
   */
  predicate LinkLaws(parse: Parser, raw: Text, prefix: Text, scheme: Text) {
    StartsWith(raw, prefix) && LinkChars(raw) && parse(raw).Some? ==>
      var u := parse(raw).value;
      && u.scheme == scheme && |u.host| + |prefix| <= |raw| && '/' !in u.host
      && forall i :: 0 <= i < |u.host| && Terminator(u.host[i]) ==> '%' in u.host[..i]
  }

  ghost predicate LawfulLinks(parse: Parser) {
    && Lawful(parse)
    && (forall raw :: LinkLaws(parse, raw, HTTP, "http"))
    && (forall raw :: LinkLaws(parse, raw, HTTPS, "https"))
  }

  /** The link prints nothing, or its decoded host has no '%'. */
  predicate StableLink(parse: Parser, raw: Text) {
    parse(raw).None? || parse(raw).value.host == "" || '%' !in parse(raw).value.host
  }

  /** Every link of the text is stable. */
  predicate StableText(parse: Parser, s: Text)
    decreases |s|
  {
    if s == "" then true
    else if LinkStart(s) then
      RunPositive(s);
      StableLink(parse, LinkAt(s)) && StableText(parse, s[RunLength(s)..])
    else StableText(parse, s[1..])
  }

  // ---------------------------------------------------------------------
  // Scanning what was printed
  // ---------------------------------------------------------------------

  lemma PlainStep(parse: Parser, s: Text)
    requires s != "" && s[0] != 'h'
    ensures !LinkStart(s) && RedactText(parse, s) == [s[0]] + RedactText(parse, s[1..])
  {
    assert HTTP[0] == HTTPS[0] == 'h';
  }

  lemma Rejoin(c: char, w: Text, t: Text)
    requires w != "" && c == w[0]
    ensures [c] + (w[1..] + t) == w + t
  {
  }

  /** Text without 'h' holds no start of a link. */
  lemma {:induction false} PassOver(parse: Parser, w: Text, t: Text)
    requires 'h' !in w
    ensures RedactText(parse, w + t) == w + RedactText(parse, t)
    decreases |w|
  {
    if w == "" {
      assert w + t == t;
    } else {
      PlainStep(parse, w + t);
      assert (w + t)[1..] == w[1..] + t;
      PassOver(parse, w[1..], t);
      Rejoin((w + t)[0], w, RedactText(parse, t));
    }
  }

  /** A redacted link begins as a link does, or with the placeholder's bracket. */
  lemma LinkFront(parse: Parser, s: Text)
    requires LinkStart(s) && LawfulLinks(parse)
    ensures RedactText(parse, s) != "" && RedactText(parse, s)[0] in {'h', '['}
  {
    RunPositive(s);
    LinkAtLaws(parse, s);
    var l := RedactLink(parse, LinkAt(s));
    assert l != "" && l[0] in {'h', '['};
    assert RedactText(parse, s)[0] == l[0];
  }

  /** The parsed link: its prefix, its characters, and what the parser's laws give for it. */
  lemma LinkAtLaws(parse: Parser, s: Text)
    requires LinkStart(s) && LawfulLinks(parse)
    ensures var raw := LinkAt(s);
            && LinkChars(raw) && |raw| <= RunLength(s)
            && (StartsWith(raw, HTTP) || StartsWith(raw, HTTPS))
            && LinkLaws(parse, raw, HTTP, "http") && LinkLaws(parse, raw, HTTPS, "https")
  {
    PrefixSurvives(s, if Leads(s, HTTP) then HTTP else HTTPS);
  }

  /** The run reaches past the prefix, and trimming stops at its last '/'. */
  lemma PrefixSurvives(s: Text, p: Text)
    requires Leads(s, p) && (p == HTTP || p == HTTPS)
    ensures StartsWith(LinkAt(s), p) && LinkChars(LinkAt(s)) && |p| < RunLength(s)
  {
    assert p[|p| - 1] == '/' && LinkChars(p);
    RunCovers(s, |p| + 1);
    var m := s[..RunLength(s)];
    var core := TrimTail(m);
    assert m[|p| - 1] == p[|p| - 1] == '/';
    assert !Punctuation(m[|p| - 1]);
    assert |core| >= |p|;
    assert core[..|p|] == s[..|p|];
  }

  lemma {:induction false} RunCovers(s: Text, n: nat)
    requires n <= |s| && LinkChars(s[..n])
    ensures RunLength(s) >= n
  {
    if n > 0 {
      assert s[..n][0] == s[0];
      assert s[1..][..n - 1] == s[..n][1..];
      RunCovers(s[1..], n - 1);
    }
  }

  /** No 'h' and no '[': a part of the pattern behind its first character. */
  predicate Headless(p: Text) {
    'h' !in p && '[' !in p
  }

  /** Redaction forges no part of a link: what leads its output led its input. */
  lemma {:induction false} NotForged(parse: Parser, s: Text, p: Text)
    requires LawfulLinks(parse) && Headless(p) && Leads(RedactText(parse, s), p)
    ensures Leads(s, p)
    decreases |s|
  {
    var out := RedactText(parse, s);
    if p == "" {
      if LinkStart(s) {
        assert s[0] == 'h';
      }
    } else {
      assert out[0] == p[0];
      if LinkStart(s) {
        LinkFront(parse, s);
        assert false;
      }
      assert out[1..] == RedactText(parse, s[1..]);
      LeadsStep(out, p);
      NotForged(parse, s[1..], p[1..]);
      LeadsStep(s, p);
    }
  }

  lemma LeadsStep(s: Text, p: Text)
    requires s != "" && p != ""
    ensures Leads(s, p) <==> s[0] == p[0] && Leads(s[1..], p[1..])
  {
    if |p| <= |s| {
      assert s[..|p|] == [s[0]] + s[1..][..|p| - 1];
      assert p == [p[0]] + p[1..];
    }
  }

  /** Where no link starts, none starts after redaction. */
  lemma NoNewLink(parse: Parser, s: Text)
    requires LawfulLinks(parse) && s != "" && !LinkStart(s)
    ensures !LinkStart(RedactText(parse, s))
  {
    var out := RedactText(parse, s);
    assert out[1..] == RedactText(parse, s[1..]) && out[0] == s[0];
    NoNewLinkBy(parse, s, HTTP);
    NoNewLinkBy(parse, s, HTTPS);
  }

  lemma NoNewLinkBy(parse: Parser, s: Text, p: Text)
    requires LawfulLinks(parse) && s != "" && !LinkStart(s) && (p == HTTP || p == HTTPS)
    ensures !Leads(RedactText(parse, s), p)
  {
    var out := RedactText(parse, s);
    assert Headless(HTTP[1..]) && Headless(HTTPS[1..]);
    assert out[1..] == RedactText(parse, s[1..]) && out[0] == s[0];
    LeadsStep(out, p);
    LeadsStep(s, p);
    if Leads(out[1..], p[1..]) {
      NotForged(parse, s[1..], p[1..]);
    }
  }

  /** The text ends here, or the next character ends a link. */
  predicate Ends(t: Text) {
    t == "" || Terminator(t[0])
  }

  predicate AllPunctuation(t: Text) {
    forall i :: 0 <= i < |t| ==> Punctuation(t[i])
  }

  lemma {:induction false} RunExact(w: Text, t: Text)
    requires LinkChars(w) && Ends(t)
    ensures RunLength(w + t) == |w|
  {
    if w == "" {
      assert w + t == t;
    } else {
      assert (w + t)[0] == w[0] && (w + t)[1..] == w[1..] + t;
      RunExact(w[1..], t);
    }
  }

  lemma {:induction false} TrimExact(l: Text, t: Text)
    requires l != "" && !Punctuation(l[|l| - 1]) && AllPunctuation(t)
    ensures TrimTail(l + t) == l
    decreases |t|
  {
    if t == "" {
      assert l + t == l;
    } else {
      var m := l + t;
      assert m[|m| - 1] == t[|t| - 1] && m[..|m| - 1] == l + t[..|t| - 1];
      TrimExact(l, t[..|t| - 1]);
    }
  }

  /** A text that can stand as a link by itself. */
  predicate WholeLink(l: Text) {
    LinkStart(l) && LinkChars(l) && !Punctuation(l[|l| - 1])
  }

  /** A whole link in front of punctuation and an end is seen as it is. */
  lemma SeenWhole(parse: Parser, l: Text, t: Text, rest: Text)
    requires WholeLink(l) && AllPunctuation(t) && Ends(rest)
    ensures var s := l + t + rest;
            LinkStart(s) && RunLength(s) == |l| + |t| && LinkAt(s) == l && TailAt(s) == t && s[RunLength(s)..] == rest
    ensures RedactText(parse, l + t + rest) == RedactLink(parse, l) + t + RedactText(parse, rest)
  {
    var s := l + t + rest;
    LeadsMore(l, t + rest);
    assert s == l + (t + rest) && s == (l + t) + rest;
    RunExact(l + t, rest);
    TrimExact(l, t);
    assert s[..|l| + |t|] == l + t;
    assert s[|l|..|l| + |t|] == t && s[|l| + |t|..] == rest;
  }

  lemma LeadsMore(l: Text, more: Text)
    requires LinkStart(l)
    ensures LinkStart(l + more)
  {
    LeadsMoreBy(l, more, HTTP);
    LeadsMoreBy(l, more, HTTPS);
  }

  lemma LeadsMoreBy(l: Text, more: Text, p: Text)
    ensures Leads(l, p) ==> Leads(l + more, p)
  {
    if Leads(l, p) {
      assert (l + more)[..|p|] == l[..|p|] && (l + more)[|p|] == l[|p|];
    }
  }

  /** After a match comes the end of the text or a character that ends links, also once redacted. */
  lemma EndsAfterLink(parse: Parser, s: Text)
    requires LinkStart(s)
    ensures var rest := s[RunLength(s)..];
            Ends(rest) && Ends(RedactText(parse, rest)) && AllPunctuation(TailAt(s)) && LinkChars(TailAt(s))
  {
    var rest := s[RunLength(s)..];
    if rest != "" {
      PlainStep(parse, rest);
    }
    var m := s[..RunLength(s)];
    assert TailAt(s) == m[|LinkAt(s)|..];
  }

  predicate WebScheme(scheme: Text) {
    scheme == "http" || scheme == "https"
  }

  lemma PrintedLeads(u: Url)
    requires WebScheme(u.scheme) && u.host != "" && !Terminator(u.host[0])
    ensures Leads(Printed(u), u.scheme + "://") && LinkStart(Printed(u))
    ensures u.scheme + "://" == if u.scheme == "http" then HTTP else HTTPS
  {
    var p := u.scheme + "://";
    assert Printed(u)[..|p|] == p && Printed(u)[|p|] == u.host[0];
  }

  lemma PrintedParts(u: Url, i: nat)
    requires i < |Printed(u)|
    ensures var p := u.scheme + "://";
            Printed(u)[i] == if i < |p| then p[i] else if i < |p| + |u.host| then u.host[i - |p|]
                             else if i == |p| + |u.host| then '/' else REDACTED[i - |p| - |u.host| - 1]
  {
  }

  /** What is printed for a stable link is a whole link. */
  lemma PrintedWhole(u: Url)
    requires WebScheme(u.scheme) && u.host != "" && LinkChars(u.host)
    ensures WholeLink(Printed(u))
  {
    PrintedLeads(u);
    var l := Printed(u);
    assert LinkChars(u.scheme + "://") && LinkChars(REDACTED);
    forall i | 0 <= i < |l| ensures !Terminator(l[i]) {
      PrintedParts(u, i);
    }
    PrintedParts(u, |l| - 1);
    assert l[|l| - 1] == ']';
  }

  /** What is known of the URL a match parses to, when something is printed for it. */
  lemma MatchedUrl(parse: Parser, s: Text)
    requires LawfulLinks(parse) && LinkStart(s)
    requires parse(LinkAt(s)).Some? && parse(LinkAt(s)).value.host != ""
    ensures var u := parse(LinkAt(s)).value;
            && WebScheme(u.scheme) && '/' !in u.host && !Terminator(u.host[0])
            && ('%' !in u.host ==> LinkChars(u.host)) && ReadBack(parse, u)
  {
    LinkAtLaws(parse, s);
    assert LawfulAt(parse, LinkAt(s));
  }

  // ---------------------------------------------------------------------
  // The second pass
  // ---------------------------------------------------------------------

  /** The second pass over a text that starts with a stable link leaves the link alone. */
  lemma StableLinkKept(parse: Parser, s: Text)
    requires LawfulLinks(parse) && LinkStart(s) && StableLink(parse, LinkAt(s))
    ensures var rest := RedactText(parse, s[RunLength(s)..]);
            RedactText(parse, RedactText(parse, s)) ==
              RedactLink(parse, LinkAt(s)) + TailAt(s) + RedactText(parse, rest)
  {
    var l, t, rest := RedactLink(parse, LinkAt(s)), TailAt(s), RedactText(parse, s[RunLength(s)..]);
    RunPositive(s);
    EndsAfterLink(parse, s);
    assert RedactText(parse, s) == l + t + rest;
    if l == REDACTED {
      assert 'h' !in REDACTED + t;
      PassOver(parse, REDACTED + t, rest);
    } else {
      MatchedUrl(parse, s);
      var u := parse(LinkAt(s)).value;
      PrintedWhole(u);
      SeenWhole(parse, l, t, rest);
      assert RedactLink(parse, l) == l;
    }
  }

  /** Behind the scheme, what is printed shows a '/' earlier than a text with a longer host does. */
  lemma ShorterHostShows(u: Url, v: Url, tail: Text, tail': Text)
    requires u.scheme == v.scheme && |v.host| < |u.host| && '/' !in u.host
    ensures Printed(v) + tail != Printed(u) + tail'
  {
    var q := |u.scheme + "://"| + |v.host|;
    PrintedParts(u, q);
    PrintedParts(v, q);
    assert (Printed(v) + tail)[q] == '/' != u.host[|v.host|] == (Printed(u) + tail')[q];
  }

  lemma RunStopsBy(s: Text, k: nat)
    requires k < |s| && Terminator(s[k])
    ensures RunLength(s) <= k
  {
    assert forall i :: 0 <= i < RunLength(s) ==> s[..RunLength(s)][i] == s[i];
  }

  /** What is printed for a link that keeps a '%' in its host. */
  ghost predicate Unstable(parse: Parser, u: Url) {
    && WebScheme(u.scheme) && u.host != "" && !Terminator(u.host[0]) && '/' !in u.host
    && ReadBack(parse, u) && '%' in u.host
  }

  /** The parser reads, if anything, the same scheme and a shorter host. */
  ghost predicate ReadsShorter(parse: Parser, raw: Text, u: Url) {
    parse(raw).Some? ==> parse(raw).value.scheme == u.scheme && |parse(raw).value.host| < |u.host|
  }

  /** A host cut short by a character that ends links is read no longer than the cut. */
  lemma CutHostSeen(parse: Parser, u: Url, more: Text)
    requires LawfulLinks(parse) && Unstable(parse, u) && !LinkChars(u.host)
    ensures LinkStart(Printed(u) + more) && ReadsShorter(parse, LinkAt(Printed(u) + more), u)
  {
    var s, p := Printed(u) + more, u.scheme + "://";
    PrintedLeads(u);
    LeadsMore(Printed(u), more);
    LeadsMoreBy(Printed(u), more, p);
    var k :| 0 <= k < |u.host| && Terminator(u.host[k]);
    PrintedParts(u, |p| + k);
    RunStopsBy(s, |p| + k);
    PrefixSurvives(s, p);
    LinkAtLaws(parse, s);
  }

  /** What the second pass sees of a printed link with '%': all of it, or less than its host. */
  lemma UnstableSeen(parse: Parser, u: Url, t: Text, rest: Text)
    requires LawfulLinks(parse) && Unstable(parse, u) && AllPunctuation(t) && Ends(rest)
    ensures var s := Printed(u) + t + rest; LinkStart(s) && ReadsShorter(parse, LinkAt(s), u)
  {
    if LinkChars(u.host) {
      PrintedWhole(u);
      SeenWhole(parse, Printed(u), t, rest);
    } else {
      Associative(Printed(u), t, rest);
      CutHostSeen(parse, u, t + rest);
    }
  }

  /** A pass over a text that starts with a match prints, instead of the match, something of its own. */
  lemma PassShows(parse: Parser, s: Text) returns (more: Text)
    requires LinkStart(s)
    ensures RedactText(parse, s) == RedactLink(parse, LinkAt(s)) + more
  {
    RunPositive(s);
    more := TailAt(s) + RedactText(parse, s[RunLength(s)..]);
    Associative(RedactLink(parse, LinkAt(s)), TailAt(s), RedactText(parse, s[RunLength(s)..]));
  }

  lemma Associative(a: Text, b: Text, c: Text)
    ensures a + b + c == a + (b + c)
  {
  }

  lemma PrintedFirst(u: Url, more: Text, l: Text, more': Text)
    requires WebScheme(u.scheme) && l == REDACTED
    ensures l + more' != Printed(u) + more
  {
    PrintedParts(u, 0);
    assert (Printed(u) + more)[0] == 'h' != '[' == (l + more')[0];
  }

  lemma UnstableRescan(parse: Parser, u: Url, t: Text, rest: Text)
    requires LawfulLinks(parse) && Unstable(parse, u) && AllPunctuation(t) && Ends(rest)
    ensures RedactText(parse, Printed(u) + t + rest) != Printed(u) + t + rest
  {
    var out := Printed(u) + t + rest;
    UnstableSeen(parse, u, t, rest);
    var more := PassShows(parse, out);
    Associative(Printed(u), t, rest);
    var again := parse(LinkAt(out));
    if again.Some? && again.value.host != "" {
      ShorterHostShows(u, again.value, more, t + rest);
    } else {
      PrintedFirst(u, t + rest, RedactLink(parse, LinkAt(out)), more);
    }
  }

  /** The second pass over a text that starts with an unstable link changes it. */
  lemma UnstableLinkChanges(parse: Parser, s: Text)
    requires LawfulLinks(parse) && LinkStart(s) && !StableLink(parse, LinkAt(s))
    ensures RedactText(parse, RedactText(parse, s)) != RedactText(parse, s)
  {
    RunPositive(s);
    EndsAfterLink(parse, s);
    MatchedUrl(parse, s);
    UnstableRescan(parse, parse(LinkAt(s)).value, TailAt(s), RedactText(parse, s[RunLength(s)..]));
  }

  lemma SameTail(a: Text, b: Text, c: Text)
    ensures a + b == a + c <==> b == c
  {
    if a + b == a + c {
      assert b == (a + b)[|a|..] && c == (a + c)[|a|..];
    }
  }

  /** Redacting a text twice is redacting it once exactly when no link of it keeps a '%' in its decoded host. */
  lemma {:induction false} TextTwiceExactlyWhen(parse: Parser, s: Text)
    requires LawfulLinks(parse)
    ensures RedactText(parse, RedactText(parse, s)) == RedactText(parse, s) <==> StableText(parse, s)
    decreases |s|
  {
    if s == "" {
    } else if LinkStart(s) {
      RunPositive(s);
      var rest := s[RunLength(s)..];
      TextTwiceExactlyWhen(parse, rest);
      if StableLink(parse, LinkAt(s)) {
        StableLinkKept(parse, s);
        SameTail(RedactLink(parse, LinkAt(s)) + TailAt(s), RedactText(parse, RedactText(parse, rest)), RedactText(parse, rest));
      } else {
        UnstableLinkChanges(parse, s);
      }
    } else {
      TextTwiceExactlyWhen(parse, s[1..]);
      NoNewLink(parse, s);
      var out := RedactText(parse, s);
      assert out[0] == s[0] && out[1..] == RedactText(parse, s[1..]);
      SameTail([s[0]], RedactText(parse, out[1..]), out[1..]);
    }
  }

  /** The same for the function as it is called, shortcut included. */
  lemma RedactUrlsTwiceExactlyWhen(parse: Parser, s: Text)
    requires LawfulLinks(parse)
    ensures RedactUrlsInText(parse, RedactUrlsInText(parse, s)) == RedactUrlsInText(parse, s) <==> StableText(parse, s)
  {
    ShortcutIsExact(parse, s);
    ShortcutIsExact(parse, RedactUrlsInText(parse, s));
    TextTwiceExactlyWhen(parse, s);
  }

  // ---------------------------------------------------------------------
  // What a redacted text still tells
  // ---------------------------------------------------------------------

  /** A character of the text around the links, or a link of which only scheme and host are known. */
  datatype Piece = Kept(c: char) | Link(url: Option<Url>, tail: Text)

  /** The text as someone sees it who may not read the links. */
  function Pieces(parse: Parser, s: Text): seq<Piece>
    decreases |s|
  {
    if s == "" then []
    else if LinkStart(s) then
      RunPositive(s);
      [Link(parse(LinkAt(s)), TailAt(s))] + Pieces(parse, s[RunLength(s)..])
    else [Kept(s[0])] + Pieces(parse, s[1..])
  }

  function Render(ps: seq<Piece>): Text {
    if ps == [] then ""
    else
      (match ps[0]
       case Kept(c) => [c]
       case Link(url, tail) => (if url.None? || url.value.host == "" then REDACTED else Printed(url.value)) + tail)
      + Render(ps[1..])
  }

  /** A redacted text is made of nothing else, so it tells no more of a link than scheme and host. */
  lemma {:induction false} TextTellsOnlyPieces(parse: Parser, s: Text)
    ensures RedactText(parse, s) == Render(Pieces(parse, s))
    decreases |s|
  {
    if s != "" {
      if LinkStart(s) {
        RunPositive(s);
        TextTellsOnlyPieces(parse, s[RunLength(s)..]);
      } else {
        TextTellsOnlyPieces(parse, s[1..]);
      }
    }
  }

  // ---------------------------------------------------------------------
  // A text that the second pass changes
  // ---------------------------------------------------------------------

  lemma {:induction false} StablePassOver(parse: Parser, w: Text, t: Text)
    requires 'h' !in w
    ensures StableText(parse, w + t) <==> StableText(parse, t)
    decreases |w|
  {
    if w == "" {
      assert w + t == t;
    } else {
      PlainStep(parse, w + t);
      assert (w + t)[1..] == w[1..] + t;
      StablePassOver(parse, w[1..], t);
    }
  }

  /** A link somewhere in a text: behind text without 'h', in front of a character that ends links. */
  lemma LinkInText(parse: Parser, before: Text, link: Text, after: Text)
    requires 'h' !in before && WholeLink(link) && Ends(after) && !StableLink(parse, link)
    ensures !StableText(parse, before + link + after)
  {
    assert before + link + after == before + (link + "" + after);
    StablePassOver(parse, before, link + "" + after);
    SeenWhole(parse, link, "", after);
    RunPositive(link + "" + after);
  }

  const ZONED: Text := "http://[fe80::1%25eth0]/hook"

  lemma ZonedIsLink()
    ensures WholeLink(ZONED)
  {
    assert ZONED[..7] == HTTP;
    assert !Terminator(ZONED[7]) && !Punctuation(ZONED[|ZONED| - 1]);
  }

  /** The transport error that net/http writes for an accepted webhook with an IPv6 zone. */
  lemma ZonedErrorRewritten(parse: Parser)
    requires LawfulLinks(parse) && parse(ZONED) == Some(Url("http", "[fe80::1%eth0]"))
    ensures var error := "Post \"" + ZONED + "\": dial tcp: i/o timeout";
            var once := RedactUrlsInText(parse, error);
            RedactUrlsInText(parse, once) != once
  {
    var before, after: Text := "Post \"", "\": dial tcp: i/o timeout";
    ZonedIsLink();
    assert "[fe80::1%eth0]"[8] == '%';
    assert 'h' !in before && Ends(after);
    LinkInText(parse, before, ZONED, after);
    RedactUrlsTwiceExactlyWhen(parse, before + ZONED + after);
  }
}
