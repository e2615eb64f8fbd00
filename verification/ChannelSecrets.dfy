/**
 Alert channels shown without their secrets and merged back on save
 (internal/api/alerting_channels.go): a lens between the stored configuration and
 the redacted view the operator edits.
 */
module ChannelSecrets {
  import opened Options
  import opened Strings
  import Sorting

  const REDACTED: Text := "[redacted]"

  /** What `url.Parse` reports, as far as redaction uses it. */
  datatype Url = Url(scheme: Text, host: Text)
  type Parser = Text -> Option<Url>

  function Printed(u: Url): Text {
    u.scheme + "://" + u.host + "/" + REDACTED
  }

  /** Keeps scheme and host of a webhook URL and drops the rest. */
  function RedactUrl(parse: Parser, raw: Text): Text {
    if raw == "" || raw == REDACTED then raw
    else match parse(raw)
      case None => REDACTED
      case Some(u) => if u.host == "" then REDACTED else Printed(u)
  }

  /**
   What `url.Parse` does with a URL that redaction printed from its own answer `u`.  Without a scheme it
   is refused ("missing protocol scheme").  A host is decoded when it is read, so a '%' left in it is an
   escape again: not a valid one, which is refused, or one that decodes to a shorter host.  Every other
   host reads back as it is.
   */
  predicate ReadBack(parse: Parser, u: Url) {
    var again := parse(Printed(u));
    && (u.scheme == "" ==> again.None?)
    && (u.scheme != "" && '%' !in u.host ==> again == Some(u))
    && (u.scheme != "" && '%' in u.host && again.Some? ==>
          again.value.scheme == u.scheme && |again.value.host| < |u.host|)
  }

  predicate LawfulAt(parse: Parser, raw: Text) {
    parse(raw).Some? && parse(raw).value.host != "" ==> ReadBack(parse, parse(raw).value)
  }

  ghost predicate Lawful(parse: Parser) {
    forall raw :: LawfulAt(parse, raw)
  }

  /** Nothing to redact, or a URL with a scheme and no escape left in its host. */
  predicate Stable(parse: Parser, raw: Text) {
    || raw == "" || raw == REDACTED || parse(raw).None? || parse(raw).value.host == ""
    || (parse(raw).value.scheme != "" && '%' !in parse(raw).value.host)
  }

  lemma PrintedDiffer(u: Url, v: Url)
    requires u.scheme == v.scheme && |u.host| != |v.host|
    ensures Printed(u) != Printed(v) && Printed(u) != REDACTED && Printed(v) != REDACTED
  {
    assert |Printed(u)| != |Printed(v)| && |Printed(u)| > |REDACTED| && |Printed(v)| > |REDACTED|;
  }

  /** Redacting twice is redacting once exactly when the URL has a scheme and no '%' in its decoded host, or nothing is printed. */
  lemma RedactTwiceExactlyWhen(parse: Parser, raw: Text)
    requires Lawful(parse)
    ensures RedactUrl(parse, RedactUrl(parse, raw)) == RedactUrl(parse, raw) <==> Stable(parse, raw)
  {
    assert LawfulAt(parse, raw);
    if raw != "" && raw != REDACTED && parse(raw).Some? && parse(raw).value.host != "" {
      var u := parse(raw).value;
      var again := parse(Printed(u));
      assert |Printed(u)| > |REDACTED|;
      if again.Some? && |again.value.host| < |u.host| {
        PrintedDiffer(u, again.value);
      }
    }
  }

  /** A host without a scheme prints as "://host/…": the second pass drops the host. */
  lemma SchemelessLosesHost(parse: Parser, raw: Text, host: Text)
    requires Lawful(parse) && raw != "" && raw != REDACTED && host != "" && parse(raw) == Some(Url("", host))
    ensures RedactUrl(parse, RedactUrl(parse, raw)) == REDACTED != RedactUrl(parse, raw)
  {
    assert LawfulAt(parse, raw);
    assert |Printed(Url("", host))| > |REDACTED|;
  }

  /** The webhook check of internal/alerting/config.go, as far as the URL goes. */
  predicate WebhookUrlAccepted(parse: Parser, raw: Text) {
    raw != "" && parse(raw).Some? && parse(raw).value.scheme in {"http", "https"} && parse(raw).value.host != ""
  }

  /** Among the webhook URLs that are accepted, exactly those with a '%' in the decoded host are redacted further by a second pass. */
  lemma AcceptedUrlStableExactlyWhen(parse: Parser, raw: Text)
    requires Lawful(parse) && WebhookUrlAccepted(parse, raw) && raw != REDACTED
    ensures RedactUrl(parse, RedactUrl(parse, raw)) == RedactUrl(parse, raw) <==> '%' !in parse(raw).value.host
  {
    RedactTwiceExactlyWhen(parse, raw);
  }

  /** An IPv6 zone is such a host: the escaped "%25" is accepted, shown decoded, and rewritten by the second pass. */
  lemma ZonedHostRewritten(parse: Parser)
    requires Lawful(parse) && parse("http://[fe80::1%25eth0]/hook") == Some(Url("http", "[fe80::1%eth0]"))
    ensures WebhookUrlAccepted(parse, "http://[fe80::1%25eth0]/hook")
    ensures var once := RedactUrl(parse, "http://[fe80::1%25eth0]/hook"); RedactUrl(parse, once) != once
  {
    assert "[fe80::1%eth0]"[8] == '%';
    assert "http://[fe80::1%25eth0]/hook"[0] != REDACTED[0];
    AcceptedUrlStableExactlyWhen(parse, "http://[fe80::1%25eth0]/hook");
  }

  type Headers = map<Text, Text>

  /** `headers` is None for a nil map; `rest` stands for the fields without secrets. */
  datatype Webhook = Webhook(url: Text, headers: Option<Headers>, rest: Text)
  datatype Discord = Discord(webhookUrl: Text, rest: Text)
  datatype Email = Email(password: Text, rest: Text)

  function HeadersOf(w: Webhook): Headers {
    if w.headers.Some? then w.headers.value else map[]
  }

  /** An empty header map is not written, so it reads back as nil. */
  function Encoded(w: Webhook): Webhook {
    if HeadersOf(w) == map[] then w.(headers := None) else w
  }

  // ---------------------------------------------------------------------
  // The view
  // ---------------------------------------------------------------------

  function HideAll(h: Headers): (r: Headers)
    ensures r.Keys == h.Keys && forall k :: k in h ==> r[k] == REDACTED
  {
    map k | k in h :: REDACTED
  }

  function ViewWebhook(parse: Parser, w: Webhook): Webhook {
    Webhook(RedactUrl(parse, w.url), if w.headers.Some? then Some(HideAll(w.headers.value)) else None, w.rest)
  }

  function ViewDiscord(parse: Parser, d: Discord): Discord {
    d.(webhookUrl := RedactUrl(parse, d.webhookUrl))
  }

  function ViewEmail(e: Email): Email {
    e.(password := "")
  }

  /** The view depends on nothing secret: header values and the URL behind its host do not show. */
  lemma ViewHidesSecrets(parse: Parser, w: Webhook, w': Webhook)
    requires w.rest == w'.rest && w.headers.Some? && w'.headers.Some? && w.headers.value.Keys == w'.headers.value.Keys
    requires w.url !in {"", REDACTED} && w'.url !in {"", REDACTED} && parse(w.url) == parse(w'.url)
    ensures ViewWebhook(parse, w) == ViewWebhook(parse, w')
  {
    assert HideAll(w.headers.value) == HideAll(w'.headers.value);
  }

  // ---------------------------------------------------------------------
  // The merge
  // ---------------------------------------------------------------------

  predicate Untyped(v: Text) {
    v == "" || v == REDACTED
  }

  /** The value the operator left for `k` cannot be resolved. */
  predicate Lost(incoming: Headers, stored: Headers, k: Text) {
    && k in incoming && Untyped(incoming[k])
    && if k in stored then stored[k] == REDACTED else incoming[k] == REDACTED
  }

  function MergedValue(incoming: Headers, stored: Headers, k: Text): Text
    requires k in incoming
  {
    if Untyped(incoming[k]) && k in stored then stored[k] else incoming[k]
  }

  ghost predicate Merged(incoming: Headers, stored: Headers, out: Headers) {
    && (forall k :: k in incoming ==> !Lost(incoming, stored, k))
    && out.Keys == incoming.Keys
    && forall k :: k in incoming ==> out[k] == MergedValue(incoming, stored, k)
  }

  datatype Result<+T> = Ok(value: T) | Refused(key: Text)

  /** The loop over the submitted headers, in any order. */
  method MergeHeaders(incoming: Headers, stored: Headers) returns (r: Result<Headers>)
    ensures r.Ok? <==> forall k :: k in incoming ==> !Lost(incoming, stored, k)
    ensures r.Ok? ==> Merged(incoming, stored, r.value)
    ensures r.Refused? ==> Lost(incoming, stored, r.key)
  {
    var out := incoming;
    var todo := incoming.Keys;
    while todo != {}
      invariant todo <= incoming.Keys == out.Keys
      invariant forall k :: k in incoming && k !in todo ==>
                  !Lost(incoming, stored, k) && out[k] == MergedValue(incoming, stored, k)
      invariant forall k :: k in todo ==> out[k] == incoming[k]
      decreases todo
    {
      var k :| k in todo;
      var v := out[k];
      todo := todo - {k};
      if v == "" || v == REDACTED {
        if k in stored && stored[k] == REDACTED {
          return Refused(k);
        }
        if k !in stored {
          if v == REDACTED {
            return Refused(k);
          }
          continue;
        }
        out := out[k := stored[k]];
      }
    }
    return Ok(out);
  }

  /** A submitted URL is stored as typed, unless it is empty, the placeholder or what was shown: then the stored one stays. */
  ghost predicate UrlSaved(parse: Parser, incoming: Text, stored: Text, saved: Text) {
    && (incoming !in {"", REDACTED, RedactUrl(parse, stored)} ==> saved == incoming)
    && (incoming in {"", REDACTED, RedactUrl(parse, stored)} ==> saved == stored)
  }

  /** A typed header value is stored as typed; an empty one or the placeholder inherits the stored value, or stays empty. */
  ghost predicate HeaderSaved(incoming: Text, stored: Headers, k: Text, saved: Text) {
    && (incoming !in {"", REDACTED} ==> saved == incoming)
    && (incoming in {"", REDACTED} && k in stored ==> saved == stored[k] != REDACTED)
    && (incoming in {"", REDACTED} && k !in stored ==> incoming == saved == "")
  }

  /** The placeholder without a stored value behind it, or an untyped value whose stored one is the placeholder. */
  ghost predicate Unresolvable(incoming: Text, stored: Headers, k: Text) {
    || (incoming == REDACTED && k !in stored)
    || (incoming in {"", REDACTED} && k in stored && stored[k] == REDACTED)
  }

  function MergeUrl(parse: Parser, incoming: Text, stored: Text): Text {
    if incoming == "" || incoming == REDACTED || incoming == RedactUrl(parse, stored) then stored else incoming
  }

  /** What a save stores for a webhook, or the header it refuses. */
  method MergeWebhook(parse: Parser, incoming: Webhook, stored: Webhook) returns (r: Result<Webhook>)
    ensures r.Ok? <==> forall k :: k in HeadersOf(incoming) ==> !Lost(HeadersOf(incoming), HeadersOf(stored), k)
    ensures r.Ok? ==> && r.value.url == MergeUrl(parse, incoming.url, stored.url) && r.value.rest == incoming.rest
                      && Merged(HeadersOf(incoming), HeadersOf(stored), HeadersOf(r.value))
                      && r.value == Encoded(r.value)
    ensures r.Refused? ==> Lost(HeadersOf(incoming), HeadersOf(stored), r.key)
    ensures r.Ok? ==> UrlSaved(parse, incoming.url, stored.url, r.value.url)
    ensures r.Ok? ==> r.value.rest == incoming.rest && HeadersOf(r.value).Keys == HeadersOf(incoming).Keys
    ensures r.Ok? ==> forall k :: k in HeadersOf(incoming) ==>
                        HeaderSaved(HeadersOf(incoming)[k], HeadersOf(stored), k, HeadersOf(r.value)[k])
    ensures r.Refused? <==> exists k :: k in HeadersOf(incoming) && Unresolvable(HeadersOf(incoming)[k], HeadersOf(stored), k)
  {
    var h := MergeHeaders(HeadersOf(incoming), HeadersOf(stored));
    if h.Refused? {
      return Refused(h.key);
    }
    var merged := incoming.(headers := Some(h.value));
    if merged.url == "" || merged.url == REDACTED || merged.url == RedactUrl(parse, stored.url) {
      merged := merged.(url := stored.url);
    }
    return Ok(Encoded(merged));
  }

  /** `out` is what saving `incoming` over `stored` keeps. */
  ghost predicate SavedAs(parse: Parser, incoming: Webhook, stored: Webhook, out: Webhook) {
    && out.url == MergeUrl(parse, incoming.url, stored.url) && out.rest == incoming.rest
    && Merged(HeadersOf(incoming), HeadersOf(stored), HeadersOf(out)) && out == Encoded(out)
  }

  function MergeDiscord(parse: Parser, incoming: Discord, stored: Discord): Discord {
    incoming.(webhookUrl := MergeUrl(parse, incoming.webhookUrl, stored.webhookUrl))
  }

  function MergeEmail(incoming: Email, stored: Email): Email {
    if incoming.password == "" then incoming.(password := stored.password) else incoming
  }

  /** What saving a Discord channel or an email channel stores. */
  lemma OtherKindsSaved(parse: Parser, d: Discord, storedDiscord: Discord, e: Email, storedEmail: Email)
    ensures UrlSaved(parse, d.webhookUrl, storedDiscord.webhookUrl, MergeDiscord(parse, d, storedDiscord).webhookUrl)
    ensures MergeDiscord(parse, d, storedDiscord).rest == d.rest && MergeEmail(e, storedEmail).rest == e.rest
    ensures e.password != "" ==> MergeEmail(e, storedEmail).password == e.password
    ensures e.password == "" ==> MergeEmail(e, storedEmail).password == storedEmail.password
  {
  }

  // ---------------------------------------------------------------------
  // Round trips
  // ---------------------------------------------------------------------

  ghost predicate NoPlaceholder(h: Headers) {
    forall k :: k in h ==> h[k] != REDACTED
  }

  /** Saving the view of a webhook unchanged succeeds exactly when no stored header is the placeholder. */
  lemma OwnViewAccepted(parse: Parser, w: Webhook)
    ensures (forall k :: k in HeadersOf(ViewWebhook(parse, w)) ==>
                           !Lost(HeadersOf(ViewWebhook(parse, w)), HeadersOf(w), k))
            <==> NoPlaceholder(HeadersOf(w))
  {
    var view := HeadersOf(ViewWebhook(parse, w));
    assert view.Keys == HeadersOf(w).Keys;
    forall k | k in view ensures Lost(view, HeadersOf(w), k) <==> HeadersOf(w)[k] == REDACTED {
      assert view[k] == REDACTED;
    }
    if NoPlaceholder(HeadersOf(w)) {
    } else {
      var k :| k in HeadersOf(w) && HeadersOf(w)[k] == REDACTED;
      assert Lost(view, HeadersOf(w), k);
    }
  }

  /** Then it stores what was there. */
  lemma WebhookRoundTrip(parse: Parser, w: Webhook, out: Webhook)
    requires SavedAs(parse, ViewWebhook(parse, w), w, out)
    ensures out == Encoded(w)
  {
    var view := HeadersOf(ViewWebhook(parse, w));
    assert HeadersOf(out) == HeadersOf(w) by {
      forall k | k in view ensures HeadersOf(out)[k] == HeadersOf(w)[k] {
        assert view[k] == REDACTED;
      }
      assert HeadersOf(out).Keys == HeadersOf(w).Keys;
    }
  }

  lemma DiscordRoundTrip(parse: Parser, d: Discord)
    ensures MergeDiscord(parse, ViewDiscord(parse, d), d) == d
  {
  }

  lemma EmailRoundTrip(e: Email)
    ensures MergeEmail(ViewEmail(e), e) == e
  {
  }

  /** The whole exchange, as the operator sees it: load, save without touching anything. */
  method SaveUntouched(parse: Parser, w: Webhook) returns (r: Result<Webhook>)
    ensures r.Ok? <==> NoPlaceholder(HeadersOf(w))
    ensures r.Ok? ==> r.value == Encoded(w)
    ensures r.Refused? ==> r.key in HeadersOf(w) && HeadersOf(w)[r.key] == REDACTED
  {
    OwnViewAccepted(parse, w);
    r := MergeWebhook(parse, ViewWebhook(parse, w), w);
    if r.Ok? {
      WebhookRoundTrip(parse, w, r.value);
    }
  }

  /** A save never stores the placeholder as a header value. */
  lemma SaveStoresNoPlaceholder(parse: Parser, incoming: Webhook, stored: Webhook, out: Webhook)
    requires SavedAs(parse, incoming, stored, out)
    ensures NoPlaceholder(HeadersOf(out))
  {
    forall k | k in HeadersOf(out) ensures HeadersOf(out)[k] != REDACTED {
      assert k in HeadersOf(incoming) && !Lost(HeadersOf(incoming), HeadersOf(stored), k);
    }
  }

  /** So after any successful save, loading and saving untouched succeeds and changes nothing. */
  method SaveThenSaveUntouched(parse: Parser, incoming: Webhook, stored: Webhook) returns (first: Result<Webhook>, second: Result<Webhook>)
    ensures first.Ok? ==> second == first
  {
    first := MergeWebhook(parse, incoming, stored);
    second := first;
    if first.Ok? {
      SaveStoresNoPlaceholder(parse, incoming, stored, first.value);
      second := SaveUntouched(parse, first.value);
    }
  }

  // ---------------------------------------------------------------------
  // Lost secrets
  // ---------------------------------------------------------------------

  const URL_NAME: Text := "url"

  function HeaderName(k: Text): Text {
    "header:" + k
  }

  predicate Damaged(v: Text) {
    Contains(v, REDACTED)
  }

  /** The identifier names a stored secret that holds the placeholder. */
  ghost predicate Reported(w: Webhook, name: Text) {
    || (name == URL_NAME && Damaged(w.url))
    || exists k :: k in HeadersOf(w) && Damaged(HeadersOf(w)[k]) && name == HeaderName(k)
  }

  method DamagedKeys(h: Headers) returns (keys: seq<Text>)
    ensures Sorting.Distinct(keys)
    ensures forall k :: k in keys <==> k in h && Damaged(h[k])
  {
    keys := [];
    var todo := h.Keys;
    while todo != {}
      invariant todo <= h.Keys
      invariant Sorting.Distinct(keys)
      invariant forall k :: k in keys <==> k in h && k !in todo && Damaged(h[k])
      decreases todo
    {
      var k :| k in todo;
      todo := todo - {k};
      if Contains(h[k], REDACTED) {
        keys := keys + [k];
      }
    }
  }

  function HeaderNames(keys: seq<Text>): (names: seq<Text>)
    ensures |names| == |keys| && forall i :: 0 <= i < |keys| ==> names[i] == HeaderName(keys[i])
  {
    seq(|keys|, i requires 0 <= i < |keys| => HeaderName(keys[i]))
  }

  function UrlPart(w: Webhook): seq<Text> {
    if Damaged(w.url) then [URL_NAME] else []
  }

  /** The damaged keys, each once, in byte order. */
  ghost predicate DamagedInOrder(w: Webhook, keys: seq<Text>) {
    && Sorting.Ascending(keys, Sorting.TextLess)
    && forall k :: k in keys <==> k in HeadersOf(w) && Damaged(HeadersOf(w)[k])
  }

  /** URL first, then the damaged headers sorted by key. */
  ghost predicate Report(w: Webhook, lost: seq<Text>) {
    exists keys :: DamagedInOrder(w, keys) && lost == UrlPart(w) + HeaderNames(keys)
  }

  method LostSecrets(w: Webhook) returns (lost: seq<Text>)
    ensures Report(w, lost)
  {
    lost := [];
    if Contains(w.url, REDACTED) {
      lost := [URL_NAME];
    }
    var found := DamagedKeys(HeadersOf(w));
    var sorted := SortedKeys(w, found);
    for i := 0 to |sorted|
      invariant lost == UrlPart(w) + HeaderNames(sorted)[..i]
    {
      assert HeaderNames(sorted)[..i + 1] == HeaderNames(sorted)[..i] + [HeaderName(sorted[i])];
      lost := lost + [HeaderName(sorted[i])];
    }
    assert HeaderNames(sorted)[..|sorted|] == HeaderNames(sorted);
  }

  method SortedKeys(w: Webhook, found: seq<Text>) returns (keys: seq<Text>)
    requires Sorting.Distinct(found)
    requires forall k :: k in found <==> k in HeadersOf(w) && Damaged(HeadersOf(w)[k])
    ensures DamagedInOrder(w, keys)
  {
    keys := Sorting.Sort(found, Sorting.TextLess);
    Sorting.TextOrder(HeadersOf(w).Keys);
    Sorting.SortAscends(found, Sorting.TextLess, HeadersOf(w).Keys);
    Sorting.SortElements(found, Sorting.TextLess);
  }

  /** The list names exactly the damaged secrets. */
  lemma LostSecretsExact(w: Webhook, lost: seq<Text>, name: Text)
    requires Report(w, lost)
    ensures name in lost <==> Reported(w, name)
  {
    var keys :| DamagedInOrder(w, keys) && lost == UrlPart(w) + HeaderNames(keys);
    var names := HeaderNames(keys);
    if name in names {
      var i :| 0 <= i < |names| && names[i] == name;
      assert keys[i] in keys;
    }
    if Reported(w, name) && name !in UrlPart(w) {
      var k :| k in HeadersOf(w) && Damaged(HeadersOf(w)[k]) && name == HeaderName(k);
      var i :| 0 <= i < |keys| && keys[i] == k;
      assert names[i] == name;
    }
  }

  /** It is the same on every load, whatever the order the headers are visited in. */
  lemma LostSecretsUnique(w: Webhook, lost: seq<Text>, lost': seq<Text>)
    requires Report(w, lost) && Report(w, lost')
    ensures lost == lost'
  {
    var keys :| DamagedInOrder(w, keys) && lost == UrlPart(w) + HeaderNames(keys);
    var keys' :| DamagedInOrder(w, keys') && lost' == UrlPart(w) + HeaderNames(keys');
    Sorting.TextOrder(HeadersOf(w).Keys);
    Sorting.AscendingUnique(keys, keys', Sorting.TextLess, HeadersOf(w).Keys);
  }

  /** What the operator may submit for a secret: what was shown, nothing, or a value without the placeholder. */
  predicate FairUrl(parse: Parser, v: Text, stored: Text) {
    v == RedactUrl(parse, stored) || v == "" || !Contains(v, REDACTED)
  }

  ghost predicate FairHeaders(incoming: Headers, stored: Headers) {
    forall k :: k in incoming ==>
      (k in stored && incoming[k] == REDACTED) || incoming[k] == "" || !Contains(incoming[k], REDACTED)
  }

  lemma EmptyNotDamaged()
    ensures !Damaged("")
  {
  }

  /** A fair save never adds to the lost secrets. */
  lemma FairSaveLosesNothing(parse: Parser, incoming: Webhook, stored: Webhook, out: Webhook, name: Text)
    requires SavedAs(parse, incoming, stored, out)
    requires FairUrl(parse, incoming.url, stored.url) && FairHeaders(HeadersOf(incoming), HeadersOf(stored))
    requires Reported(out, name)
    ensures Reported(stored, name)
  {
    EmptyNotDamaged();
    if !(name == URL_NAME && Damaged(out.url)) {
      var k :| k in HeadersOf(out) && Damaged(HeadersOf(out)[k]) && name == HeaderName(k);
      assert k in HeadersOf(incoming);
      assert HeadersOf(out)[k] == MergedValue(HeadersOf(incoming), HeadersOf(stored), k);
    }
  }

  /** The same for a Discord channel's URL. */
  lemma FairDiscordSave(parse: Parser, incoming: Discord, stored: Discord)
    requires FairUrl(parse, incoming.webhookUrl, stored.webhookUrl)
    requires Damaged(MergeDiscord(parse, incoming, stored).webhookUrl)
    ensures Damaged(stored.webhookUrl)
  {
  }

  /** Without fairness the merge still lets through a header that merely contains the placeholder. */
  lemma EmbeddedPlaceholderIsStored(k: Text)
    ensures var incoming := map[k := "Bearer " + REDACTED];
            Merged(incoming, map[], incoming) && Damaged(incoming[k]) && NoPlaceholder(incoming)
  {
    var v := "Bearer " + REDACTED;
    assert StartsWith(v[7..], REDACTED);
    assert |v| > |REDACTED|;
  }
}
