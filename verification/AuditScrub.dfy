/**
 Removing secrets from stored audit payloads (internal/api/audit_redaction.go): a
 rewrite of JSON objects that edits a few named fields in place and reports whether
 anything changed.
 */
module AuditScrub {
  import opened Options
  import opened Strings
  import opened ChannelSecrets
  import opened TextRedaction

  /** A JSON value (section 3 of RFC 8259); numbers stay as written. */
  datatype Json = Null | Bool(b: bool) | Num(n: Text) | Str(s: Text) | Arr(items: seq<Json>) | Obj(fields: map<Text, Json>)
  type Fields = map<Text, Json>

  /** What the scrubber takes from elsewhere: URL parsing and the list of credential headers. */
  datatype Rules = Rules(parse: Parser, sensitive: Text -> bool)

  // ---------------------------------------------------------------------
  // The reference: what happens to each field
  // ---------------------------------------------------------------------

  function Hidden(v: Text): Text {
    if v == "" then v else REDACTED
  }

  function Emptied(v: Text): Text {
    ""
  }

  /** A string is rewritten; null reads as the empty string; anything else is left alone. */
  function OnString(j: Json, fn: Text -> Text): Json {
    match j
    case Str(s) => Str(fn(s))
    case Null => if fn("") == "" then Null else Str(fn(""))
    case _ => j
  }

  function HeaderFields(h: Fields, which: Text -> bool): (r: Fields)
    ensures r.Keys == h.Keys
  {
    map k | k in h :: if which(k) then OnString(h[k], Hidden) else h[k]
  }

  function OnHeaders(j: Json, which: Text -> bool): Json {
    if j.Obj? then Obj(HeaderFields(j.fields, which)) else j
  }

  function HealthCheck(hc: Fields, which: Text -> bool): Fields {
    map k | k in hc :: if k == "headers" then OnHeaders(hc[k], which) else hc[k]
  }

  function OnHealthCheck(j: Json, which: Text -> bool): Json {
    if j.Obj? then Obj(HealthCheck(j.fields, which)) else j
  }

  function BasicAuth(ba: Fields): Fields {
    map k | k in ba :: if k == "password_hash" then OnString(ba[k], Emptied) else ba[k]
  }

  function OnBasicAuth(j: Json): Json {
    if j.Obj? then Obj(BasicAuth(j.fields)) else j
  }

  function PathRule(r: Fields, which: Text -> bool): Fields {
    map k | k in r ::
      if k == "basic_auth" then OnBasicAuth(r[k])
      else if k == "health_check" then OnHealthCheck(r[k], which) else r[k]
  }

  function OnPathRule(j: Json, which: Text -> bool): Json {
    if j.Obj? then Obj(PathRule(j.fields, which)) else j
  }

  /** The rules are touched only when every entry reads as an object. */
  predicate ReadsAsRules(j: Json) {
    j.Arr? && forall i :: 0 <= i < |j.items| ==> j.items[i].Obj? || j.items[i].Null?
  }

  function RuleList(items: seq<Json>, which: Text -> bool): (r: seq<Json>)
    ensures |r| == |items| && forall i :: 0 <= i < |items| ==> r[i] == OnPathRule(items[i], which)
  {
    seq(|items|, i requires 0 <= i < |items| => OnPathRule(items[i], which))
  }

  function OnPathRules(j: Json, which: Text -> bool): Json {
    if ReadsAsRules(j) then Arr(RuleList(j.items, which)) else j
  }

  function RouteField(k: Text, j: Json, rules: Rules): Json {
    if k == "request_headers" || k == "response_headers" then OnHeaders(j, rules.sensitive)
    else if k == "health_check" then OnHealthCheck(j, rules.sensitive)
    else if k == "basic_auth" then OnBasicAuth(j)
    else if k == "path_rules" then OnPathRules(j, rules.sensitive)
    else j
  }

  function Route(m: Fields, rules: Rules): Fields {
    map k | k in m :: RouteField(k, m[k], rules)
  }

  function ConfigField(k: Text, j: Json, rules: Rules): Json {
    if k == "url" || k == "webhookUrl" then OnString(j, t => RedactUrl(rules.parse, t))
    else if k == "smtpPassword" then OnString(j, Emptied)
    else if k == "headers" then OnHeaders(j, _ => true)
    else j
  }

  function Config(cfg: Fields, rules: Rules): Fields {
    map k | k in cfg :: ConfigField(k, cfg[k], rules)
  }

  function OnConfig(j: Json, rules: Rules): Json {
    if j.Obj? then Obj(Config(j.fields, rules)) else j
  }

  function Channel(m: Fields, rules: Rules): Fields {
    map k | k in m ::
      if k == "last_error" then OnString(m[k], t => RedactUrlsInText(rules.parse, t))
      else if k == "config" then OnConfig(m[k], rules)
      else m[k]
  }

  datatype Target = RouteTarget | ChannelTarget | OtherTarget

  function Scrubbed(j: Json, target: Target, rules: Rules): Json {
    if !j.Obj? then j
    else match target
      case RouteTarget => Obj(Route(j.fields, rules))
      case ChannelTarget => Obj(Channel(j.fields, rules))
      case OtherTarget => j
  }

  // ---------------------------------------------------------------------
  // The scrubber
  // ---------------------------------------------------------------------

  /** A decoded object, edited in place. */
  class Payload {
    var fields: Fields

    constructor (fields: Fields)
      ensures this.fields == fields
    {
      this.fields := fields;
    }

    method SetString(key: Text, fn: Text -> Text) returns (changed: bool)
      modifies this
      ensures fields == if key in old(fields) then old(fields)[key := OnString(old(fields)[key], fn)] else old(fields)
      ensures changed <==> fields != old(fields)
    {
      if key !in fields || !(fields[key].Str? || fields[key].Null?) {
        assert key in fields ==> fields[key := fields[key]] == fields;
        return false;
      }
      var v := if fields[key].Str? then fields[key].s else "";
      var nv := fn(v);
      if nv == v {
        assert fields[key := fields[key]] == fields;
        return false;
      }
      ghost var before := fields[key];
      fields := fields[key := Str(nv)];
      assert fields[key] != before;
      return true;
    }

    /** Stores an edited object back; the edit reported a change exactly when there was one. */
    method PutBack(key: Text, obj: Fields, changed: bool)
      requires key in fields && fields[key].Obj?
      requires changed <==> obj != fields[key].fields
      modifies this
      ensures fields == old(fields)[key := Obj(obj)]
      ensures changed <==> fields != old(fields)
    {
      ghost var before := fields[key];
      if changed {
        fields := fields[key := Obj(obj)];
        assert fields[key] != before;
      } else {
        assert fields[key := fields[key]] == fields;
      }
    }

    /** Redacts the chosen header values, visiting the headers in any order. */
    method ScrubHeaders(which: Text -> bool) returns (changed: bool)
      modifies this
      ensures fields == HeaderFields(old(fields), which)
      ensures changed <==> fields != old(fields)
    {
      ghost var before := fields;
      changed := false;
      var todo := fields.Keys;
      while todo != {}
        invariant todo <= fields.Keys == before.Keys
        invariant forall k :: k in todo ==> fields[k] == before[k]
        invariant forall k :: k in before && k !in todo ==> fields[k] == HeaderFields(before, which)[k]
        invariant changed <==> fields != before
        decreases todo
      {
        var k :| k in todo;
        ghost var now := fields;
        if which(k) {
          var c := SetString(k, Hidden);
          ChangeShows(before, now, fields, k);
          changed := c || changed;
        }
        todo := todo - {k};
      }
    }

    method EditHeaders(key: Text, which: Text -> bool) returns (changed: bool)
      modifies this
      ensures fields == if key in old(fields) then old(fields)[key := OnHeaders(old(fields)[key], which)] else old(fields)
      ensures changed <==> fields != old(fields)
    {
      if key !in fields || !fields[key].Obj? {
        assert key in fields ==> fields[key := fields[key]] == fields;
        return false;
      }
      var obj := new Payload(fields[key].fields);
      changed := obj.ScrubHeaders(which);
      PutBack(key, obj.fields, changed);
    }

    method EditHealthCheck(which: Text -> bool) returns (changed: bool)
      modifies this
      ensures fields == if "health_check" in old(fields)
                        then old(fields)["health_check" := OnHealthCheck(old(fields)["health_check"], which)]
                        else old(fields)
      ensures changed <==> fields != old(fields)
    {
      var key := "health_check";
      if key !in fields || !fields[key].Obj? {
        assert key in fields ==> fields[key := fields[key]] == fields;
        return false;
      }
      var obj := new Payload(fields[key].fields);
      ghost var was := obj.fields;
      changed := obj.EditHeaders("headers", which);
      assert obj.fields == HealthCheck(was, which);
      PutBack(key, obj.fields, changed);
    }

    method EditBasicAuth() returns (changed: bool)
      modifies this
      ensures fields == if "basic_auth" in old(fields)
                        then old(fields)["basic_auth" := OnBasicAuth(old(fields)["basic_auth"])] else old(fields)
      ensures changed <==> fields != old(fields)
    {
      var key := "basic_auth";
      if key !in fields || !fields[key].Obj? {
        assert key in fields ==> fields[key := fields[key]] == fields;
        return false;
      }
      var obj := new Payload(fields[key].fields);
      ghost var was := obj.fields;
      changed := obj.SetString("password_hash", Emptied);
      assert obj.fields == BasicAuth(was);
      PutBack(key, obj.fields, changed);
    }

    /** One path rule: both edits run, whatever the first reports. */
    method EditPathRule(which: Text -> bool) returns (changed: bool)
      modifies this
      ensures fields == PathRule(old(fields), which)
      ensures changed <==> fields != old(fields)
    {
      ghost var f0 := fields;
      var c := EditBasicAuth();
      ghost var f1 := fields;
      var d := EditHealthCheck(which);
      TwoEdits(f0, f1, fields, "basic_auth", "health_check");
      assert fields == PathRule(f0, which);
      return d || c;
    }

    method EditPathRules(which: Text -> bool) returns (changed: bool)
      modifies this
      ensures fields == if "path_rules" in old(fields)
                        then old(fields)["path_rules" := OnPathRules(old(fields)["path_rules"], which)] else old(fields)
      ensures changed <==> fields != old(fields)
    {
      var key := "path_rules";
      if key !in fields || !ReadsAsRules(fields[key]) {
        assert key in fields ==> fields[key := fields[key]] == fields;
        return false;
      }
      var items := fields[key].items;
      var out, rc := EditRules(items, which);
      assert out == RuleList(items, which);
      if rc {
        ghost var before := fields[key];
        fields := fields[key := Arr(out)];
        assert fields[key] != before;
        return true;
      }
      assert fields[key := fields[key]] == fields;
      return false;
    }

    method ScrubRoute(rules: Rules) returns (changed: bool)
      modifies this
      ensures fields == Route(old(fields), rules)
      ensures changed <==> fields != old(fields)
    {
      ghost var f0 := fields;
      var a := EditHeaders("request_headers", rules.sensitive);
      ghost var f1 := fields;
      var b := EditHeaders("response_headers", rules.sensitive);
      ghost var f2 := fields;
      var c := EditHealthCheck(rules.sensitive);
      ghost var f3 := fields;
      var d := EditBasicAuth();
      ghost var f4 := fields;
      var e := EditPathRules(rules.sensitive);
      RouteInFiveEdits(f0, rules);
      return e || d || c || b || a;
    }

    method ScrubConfig(rules: Rules) returns (changed: bool)
      modifies this
      ensures fields == Config(old(fields), rules)
      ensures changed <==> fields != old(fields)
    {
      ghost var f0 := fields;
      var a := SetString("url", t => RedactUrl(rules.parse, t));
      ghost var f1 := fields;
      var b := SetString("webhookUrl", t => RedactUrl(rules.parse, t));
      ghost var f2 := fields;
      var c := SetString("smtpPassword", Emptied);
      ghost var f3 := fields;
      var d := EditHeaders("headers", _ => true);
      ConfigInFourEdits(f0, rules);
      return d || c || b || a;
    }

    method ScrubChannel(rules: Rules) returns (changed: bool)
      modifies this
      ensures fields == Channel(old(fields), rules)
      ensures changed <==> fields != old(fields)
    {
      ghost var f0 := fields;
      var a := SetString("last_error", t => RedactUrlsInText(rules.parse, t));
      ghost var f1 := fields;
      var b := EditConfig(rules);
      TwoEdits(f0, f1, fields, "last_error", "config");
      assert fields == Channel(f0, rules);
      return b || a;
    }

    method EditConfig(rules: Rules) returns (changed: bool)
      modifies this
      ensures fields == if "config" in old(fields)
                        then old(fields)["config" := OnConfig(old(fields)["config"], rules)] else old(fields)
      ensures changed <==> fields != old(fields)
    {
      var key := "config";
      if key !in fields || !fields[key].Obj? {
        assert key in fields ==> fields[key := fields[key]] == fields;
        return false;
      }
      var obj := new Payload(fields[key].fields);
      changed := obj.ScrubConfig(rules);
      PutBack(key, obj.fields, changed);
    }
  }

  /** Each rule is edited; the flag is the disjunction. */
  method EditRules(items: seq<Json>, which: Text -> bool) returns (out: seq<Json>, changed: bool)
    requires forall i :: 0 <= i < |items| ==> items[i].Obj? || items[i].Null?
    ensures out == RuleList(items, which)
    ensures changed <==> out != items
  {
    out, changed := [], false;
    for n := 0 to |items|
      invariant |out| == n && forall i :: 0 <= i < n ==> out[i] == OnPathRule(items[i], which)
      invariant changed <==> exists i :: 0 <= i < n && out[i] != items[i]
    {
      var item := items[n];
      if item.Obj? {
        var rule := new Payload(item.fields);
        var c := rule.EditPathRule(which);
        item := Obj(rule.fields);
        changed := c || changed;
      }
      out := out + [item];
    }
  }

  /** Rewriting a payload: the value is the reference's, and "changed" says whether it differs. */
  method ScrubPayload(j: Json, target: Target, rules: Rules) returns (out: Json, changed: bool)
    ensures out == Scrubbed(j, target, rules)
    ensures changed <==> out != j
  {
    if !j.Obj? || target.OtherTarget? {
      return j, false;
    }
    var m := new Payload(j.fields);
    if target.RouteTarget? {
      changed := m.ScrubRoute(rules);
    } else {
      changed := m.ScrubChannel(rules);
    }
    out := Obj(m.fields);
  }

  /** An audit event carries the payload before and after; either may be absent. */
  datatype Event = Event(target: Target, before: Option<Json>, after: Option<Json>)

  function ScrubbedEvent(e: Event, rules: Rules): Event {
    Event(e.target,
          if e.before.Some? then Some(Scrubbed(e.before.value, e.target, rules)) else None,
          if e.after.Some? then Some(Scrubbed(e.after.value, e.target, rules)) else None)
  }

  method ScrubEvent(e: Event, rules: Rules) returns (out: Event, changed: bool)
    ensures out == ScrubbedEvent(e, rules)
    ensures changed <==> out != e
  {
    out, changed := e, false;
    if e.before.Some? {
      var j, c := ScrubPayload(e.before.value, e.target, rules);
      out := out.(before := Some(j));
      changed := c;
    }
    if e.after.Some? {
      var j, c := ScrubPayload(e.after.value, e.target, rules);
      out := out.(after := Some(j));
      changed := changed || c;
    }
  }

  // ---------------------------------------------------------------------
  // Edits of different fields do not interfere
  // ---------------------------------------------------------------------

  /** `g` is `f` except perhaps at `k`. */
  ghost predicate OnlyAt(f: Fields, g: Fields, k: Text) {
    f.Keys == g.Keys && forall x :: x in f && x != k ==> g[x] == f[x]
  }

  lemma ChangeShows(before: Fields, now: Fields, after: Fields, k: Text)
    requires OnlyAt(now, after, k) && before.Keys == now.Keys && (k in before ==> now[k] == before[k])
    ensures after != before <==> now != before || after != now
  {
    if after != now && k in now && after[k] != now[k] {
      assert after[k] != before[k];
    }
    if now != before {
      assert exists x :: x in before && now[x] != before[x];
    }
  }

  lemma TwoEdits(f: Fields, g: Fields, h: Fields, k: Text, k': Text)
    requires OnlyAt(f, g, k) && OnlyAt(g, h, k') && k != k'
    ensures h != f <==> g != f || h != g
  {
    ChangeShows(f, g, h, k');
  }

  /** One edit: the field's value, if it is there, is replaced by its image. */
  ghost function Put(f: Fields, k: Text, e: Json -> Json): (g: Fields)
    ensures OnlyAt(f, g, k) && (k in f ==> g[k] == e(f[k]))
  {
    if k in f then f[k := e(f[k])] else f
  }

  /** Edits at four different fields: each sees the original value, and the whole changes exactly when one does. */
  lemma FourEdits(f0: Fields, k1: Text, e1: Json -> Json, k2: Text, e2: Json -> Json,
                  k3: Text, e3: Json -> Json, k4: Text, e4: Json -> Json)
    requires k1 != k2 && k1 != k3 && k1 != k4 && k2 != k3 && k2 != k4 && k3 != k4
    ensures var f1 := Put(f0, k1, e1); var f2 := Put(f1, k2, e2); var f3 := Put(f2, k3, e3); var f4 := Put(f3, k4, e4);
            && f4.Keys == f0.Keys
            && (forall x :: x in f0 ==> f4[x] == if x == k1 then e1(f0[x]) else if x == k2 then e2(f0[x])
                                                 else if x == k3 then e3(f0[x]) else if x == k4 then e4(f0[x]) else f0[x])
            && (f4 != f0 <==> f1 != f0 || f2 != f1 || f3 != f2 || f4 != f3)
  {
    var f1 := Put(f0, k1, e1);
    var f2 := Put(f1, k2, e2);
    var f3 := Put(f2, k3, e3);
    var f4 := Put(f3, k4, e4);
    ChangeShows(f0, f1, f2, k2);
    ChangeShows(f0, f2, f3, k3);
    ChangeShows(f0, f3, f4, k4);
  }

  lemma FiveEdits(f0: Fields, k1: Text, e1: Json -> Json, k2: Text, e2: Json -> Json,
                  k3: Text, e3: Json -> Json, k4: Text, e4: Json -> Json, k5: Text, e5: Json -> Json)
    requires k1 != k2 && k1 != k3 && k1 != k4 && k2 != k3 && k2 != k4 && k3 != k4
    requires k1 != k5 && k2 != k5 && k3 != k5 && k4 != k5
    ensures var f1 := Put(f0, k1, e1); var f2 := Put(f1, k2, e2); var f3 := Put(f2, k3, e3);
            var f4 := Put(f3, k4, e4); var f5 := Put(f4, k5, e5);
            && f5.Keys == f0.Keys
            && (forall x :: x in f0 ==> f5[x] == if x == k1 then e1(f0[x]) else if x == k2 then e2(f0[x])
                                                 else if x == k3 then e3(f0[x]) else if x == k4 then e4(f0[x])
                                                 else if x == k5 then e5(f0[x]) else f0[x])
            && (f5 != f0 <==> f1 != f0 || f2 != f1 || f3 != f2 || f4 != f3 || f5 != f4)
  {
    FourEdits(f0, k1, e1, k2, e2, k3, e3, k4, e4);
    var f4 := Put(Put(Put(Put(f0, k1, e1), k2, e2), k3, e3), k4, e4);
    ChangeShows(f0, f4, Put(f4, k5, e5), k5);
  }

  lemma RouteKeys()
    ensures "request_headers" != "response_headers" && "request_headers" != "health_check"
    ensures "request_headers" != "basic_auth" && "request_headers" != "path_rules"
    ensures "response_headers" != "health_check" && "response_headers" != "basic_auth" && "response_headers" != "path_rules"
    ensures "health_check" != "basic_auth" && "health_check" != "path_rules" && "basic_auth" != "path_rules"
  {
    assert "basic_auth"[0] != "path_rules"[0];
  }

  lemma RoutePointwise(f: Fields, g: Fields, rules: Rules)
    requires g.Keys == f.Keys
    requires forall x :: x in f ==> g[x] == Route(f, rules)[x]
    ensures g == Route(f, rules)
  {
  }

  lemma RouteInFiveEdits(f0: Fields, rules: Rules)
    ensures var f1 := Put(f0, "request_headers", j => OnHeaders(j, rules.sensitive));
            var f2 := Put(f1, "response_headers", j => OnHeaders(j, rules.sensitive));
            var f3 := Put(f2, "health_check", j => OnHealthCheck(j, rules.sensitive));
            var f4 := Put(f3, "basic_auth", OnBasicAuth);
            var f5 := Put(f4, "path_rules", j => OnPathRules(j, rules.sensitive));
            && f5 == Route(f0, rules)
            && (f5 != f0 <==> f1 != f0 || f2 != f1 || f3 != f2 || f4 != f3 || f5 != f4)
  {
    RouteKeys();
    FiveEdits(f0, "request_headers", j => OnHeaders(j, rules.sensitive), "response_headers", j => OnHeaders(j, rules.sensitive),
              "health_check", j => OnHealthCheck(j, rules.sensitive), "basic_auth", OnBasicAuth,
              "path_rules", j => OnPathRules(j, rules.sensitive));
    var f4 := Put(Put(Put(Put(f0, "request_headers", j => OnHeaders(j, rules.sensitive)),
                          "response_headers", j => OnHeaders(j, rules.sensitive)),
                      "health_check", j => OnHealthCheck(j, rules.sensitive)), "basic_auth", OnBasicAuth);
    RoutePointwise(f0, Put(f4, "path_rules", j => OnPathRules(j, rules.sensitive)), rules);
  }

  lemma ConfigKeys()
    ensures "url" != "webhookUrl" && "url" != "smtpPassword" && "url" != "headers"
    ensures "webhookUrl" != "smtpPassword" && "webhookUrl" != "headers" && "smtpPassword" != "headers"
  {
  }

  lemma ConfigInFourEdits(f0: Fields, rules: Rules)
    ensures var f1 := Put(f0, "url", j => OnString(j, t => RedactUrl(rules.parse, t)));
            var f2 := Put(f1, "webhookUrl", j => OnString(j, t => RedactUrl(rules.parse, t)));
            var f3 := Put(f2, "smtpPassword", j => OnString(j, Emptied));
            var f4 := Put(f3, "headers", j => OnHeaders(j, _ => true));
            && f4 == Config(f0, rules)
            && (f4 != f0 <==> f1 != f0 || f2 != f1 || f3 != f2 || f4 != f3)
  {
    ConfigKeys();
    FourEdits(f0, "url", j => OnString(j, t => RedactUrl(rules.parse, t)), "webhookUrl", j => OnString(j, t => RedactUrl(rules.parse, t)),
              "smtpPassword", j => OnString(j, Emptied), "headers", j => OnHeaders(j, _ => true));
  }

  // ---------------------------------------------------------------------
  // Idempotence
  // ---------------------------------------------------------------------

  lemma StringTwice(j: Json, fn: Text -> Text)
    requires fn("") == "" && (j.Str? ==> fn(fn(j.s)) == fn(j.s))
    ensures OnString(OnString(j, fn), fn) == OnString(j, fn)
  {
  }

  lemma HeadersTwice(j: Json, which: Text -> bool)
    ensures OnHeaders(OnHeaders(j, which), which) == OnHeaders(j, which)
  {
    if j.Obj? {
      var once := HeaderFields(j.fields, which);
      forall k | k in once ensures HeaderFields(once, which)[k] == once[k] {
        StringTwice(j.fields[k], Hidden);
      }
      assert HeaderFields(once, which) == once;
    }
  }

  lemma HealthCheckTwice(j: Json, which: Text -> bool)
    ensures OnHealthCheck(OnHealthCheck(j, which), which) == OnHealthCheck(j, which)
  {
    if j.Obj? {
      var once := HealthCheck(j.fields, which);
      forall k | k in once ensures HealthCheck(once, which)[k] == once[k] {
        HeadersTwice(j.fields[k], which);
      }
      assert HealthCheck(once, which) == once;
    }
  }

  lemma BasicAuthTwice(j: Json)
    ensures OnBasicAuth(OnBasicAuth(j)) == OnBasicAuth(j)
  {
    if j.Obj? {
      var once := BasicAuth(j.fields);
      forall k | k in once ensures BasicAuth(once)[k] == once[k] {
        StringTwice(j.fields[k], Emptied);
      }
      assert BasicAuth(once) == once;
    }
  }

  lemma PathRuleTwice(j: Json, which: Text -> bool)
    ensures OnPathRule(OnPathRule(j, which), which) == OnPathRule(j, which)
  {
    if j.Obj? {
      var once := PathRule(j.fields, which);
      forall k | k in once ensures PathRule(once, which)[k] == once[k] {
        BasicAuthTwice(j.fields[k]);
        HealthCheckTwice(j.fields[k], which);
      }
      assert PathRule(once, which) == once;
    }
  }

  lemma PathRulesTwice(j: Json, which: Text -> bool)
    ensures OnPathRules(OnPathRules(j, which), which) == OnPathRules(j, which)
  {
    if ReadsAsRules(j) {
      var once := RuleList(j.items, which);
      forall i | 0 <= i < |once| ensures OnPathRule(once[i], which) == once[i] {
        PathRuleTwice(j.items[i], which);
      }
      assert RuleList(once, which) == once;
      assert ReadsAsRules(Arr(once));
    }
  }

  lemma RouteFieldTwice(k: Text, j: Json, rules: Rules)
    ensures RouteField(k, RouteField(k, j, rules), rules) == RouteField(k, j, rules)
  {
    HeadersTwice(j, rules.sensitive);
    HealthCheckTwice(j, rules.sensitive);
    BasicAuthTwice(j);
    PathRulesTwice(j, rules.sensitive);
  }

  /** Scrubbing a route payload twice is scrubbing it once. */
  lemma RouteTwice(m: Fields, rules: Rules)
    ensures Route(Route(m, rules), rules) == Route(m, rules)
  {
    var once := Route(m, rules);
    forall k | k in once ensures Route(once, rules)[k] == once[k] {
      RouteFieldTwice(k, m[k], rules);
    }
  }

  /** The URL at `key`, if there is one, has a scheme and no '%' in its decoded host, or prints nothing. */
  predicate StableAt(cfg: Fields, key: Text, rules: Rules) {
    key in cfg && cfg[key].Str? ==> Stable(rules.parse, cfg[key].s)
  }

  predicate StableUrls(cfg: Fields, rules: Rules) {
    StableAt(cfg, "url", rules) && StableAt(cfg, "webhookUrl", rules)
  }

  lemma ConfigFieldTwice(k: Text, j: Json, rules: Rules)
    requires Lawful(rules.parse)
    requires (k == "url" || k == "webhookUrl") && j.Str? ==> Stable(rules.parse, j.s)
    ensures ConfigField(k, ConfigField(k, j, rules), rules) == ConfigField(k, j, rules)
  {
    HeadersTwice(j, _ => true);
    if j.Str? {
      RedactTwiceExactlyWhen(rules.parse, j.s);
    }
  }

  /** Scrubbing a channel's configuration twice is scrubbing it once exactly when its URLs are stable. */
  lemma ConfigTwiceExactlyWhen(cfg: Fields, rules: Rules)
    requires Lawful(rules.parse)
    ensures Config(Config(cfg, rules), rules) == Config(cfg, rules) <==> StableUrls(cfg, rules)
  {
    var once := Config(cfg, rules);
    if StableUrls(cfg, rules) {
      forall k | k in once ensures Config(once, rules)[k] == once[k] {
        ConfigFieldTwice(k, cfg[k], rules);
      }
      assert Config(once, rules) == once;
    }
    if Config(once, rules) == once {
      UrlFieldFixed(cfg, "url", rules);
      UrlFieldFixed(cfg, "webhookUrl", rules);
    }
  }

  lemma UrlFieldFixed(cfg: Fields, key: Text, rules: Rules)
    requires Lawful(rules.parse) && (key == "url" || key == "webhookUrl")
    requires Config(Config(cfg, rules), rules) == Config(cfg, rules)
    ensures StableAt(cfg, key, rules)
  {
    if key in cfg && cfg[key].Str? {
      var once := Config(cfg, rules);
      assert once[key] == Str(RedactUrl(rules.parse, cfg[key].s));
      assert Config(once, rules)[key] == Str(RedactUrl(rules.parse, RedactUrl(rules.parse, cfg[key].s)));
      RedactTwiceExactlyWhen(rules.parse, cfg[key].s);
    }
  }

  /** The last error, if it is a text, holds only stable links. */
  predicate StableError(m: Fields, rules: Rules) {
    "last_error" in m && m["last_error"].Str? ==> StableText(rules.parse, m["last_error"].s)
  }

  predicate StableConfig(m: Fields, rules: Rules) {
    "config" in m && m["config"].Obj? ==> StableUrls(m["config"].fields, rules)
  }

  lemma ErrorTwiceExactlyWhen(j: Json, rules: Rules)
    requires LawfulLinks(rules.parse)
    ensures var fn := t => RedactUrlsInText(rules.parse, t);
            OnString(OnString(j, fn), fn) == OnString(j, fn) <==> (j.Str? ==> StableText(rules.parse, j.s))
  {
    if j.Str? {
      RedactUrlsTwiceExactlyWhen(rules.parse, j.s);
    }
  }

  /** Scrubbing a channel twice is scrubbing it once exactly when the links of its last error and its URLs are stable. */
  lemma ChannelTwiceExactlyWhen(m: Fields, rules: Rules)
    requires LawfulLinks(rules.parse)
    ensures Channel(Channel(m, rules), rules) == Channel(m, rules) <==> StableError(m, rules) && StableConfig(m, rules)
  {
    var once := Channel(m, rules);
    var twice := Channel(once, rules);
    assert "last_error" != "config";
    if "config" in m && m["config"].Obj? {
      ConfigTwiceExactlyWhen(m["config"].fields, rules);
      assert once["config"] == Obj(Config(m["config"].fields, rules));
      assert twice["config"] == Obj(Config(Config(m["config"].fields, rules), rules));
    }
    if "last_error" in m {
      ErrorTwiceExactlyWhen(m["last_error"], rules);
      assert twice["last_error"] == once["last_error"] <==> StableError(m, rules);
    }
    assert "config" in m ==> (twice["config"] == once["config"] <==> StableConfig(m, rules));
    assert forall k :: k in m && k !in {"last_error", "config"} ==> twice[k] == once[k];
  }

  // ---------------------------------------------------------------------
  // Frame, and what is gone
  // ---------------------------------------------------------------------

  const ROUTE_FIELDS: set<Text> := {"request_headers", "response_headers", "health_check", "basic_auth", "path_rules"}
  const CHANNEL_FIELDS: set<Text> := {"last_error", "config"}
  const CONFIG_FIELDS: set<Text> := {"url", "webhookUrl", "smtpPassword", "headers"}

  /** Fields the scrubber does not name keep their values, at the top and inside a channel's configuration. */
  lemma UnnamedUntouched(m: Fields, rules: Rules)
    ensures Route(m, rules).Keys == m.Keys == Channel(m, rules).Keys
    ensures forall k :: k in m && k !in ROUTE_FIELDS ==> Route(m, rules)[k] == m[k]
    ensures forall k :: k in m && k !in CHANNEL_FIELDS ==> Channel(m, rules)[k] == m[k]
    ensures "config" in m && m["config"].Obj? ==>
              Channel(m, rules)["config"].Obj?
              && Channel(m, rules)["config"].fields.Keys == m["config"].fields.Keys
              && forall k :: k in m["config"].fields && k !in CONFIG_FIELDS ==>
                   Channel(m, rules)["config"].fields[k] == m["config"].fields[k]
  {
  }

  /** What becomes of one header: chosen non-empty texts turn into the placeholder, everything else stays. */
  lemma HeaderEdited(h: Fields, which: Text -> bool, k: Text)
    requires k in h
    ensures HeaderFields(h, which).Keys == h.Keys
    ensures HeaderFields(h, which)[k] == if which(k) && h[k].Str? && h[k].s != "" then Str("[redacted]") else h[k]
  {
  }

  /** Inside the named fields, too, only the named parts change. */
  lemma NestedUnnamedUntouched(j: Json, which: Text -> bool, k: Text)
    requires j.Obj? && k in j.fields
    ensures k != "headers" ==> OnHealthCheck(j, which).Obj? && k in OnHealthCheck(j, which).fields && OnHealthCheck(j, which).fields[k] == j.fields[k]
    ensures k != "password_hash" ==> OnBasicAuth(j).Obj? && k in OnBasicAuth(j).fields && OnBasicAuth(j).fields[k] == j.fields[k]
    ensures k !in {"basic_auth", "health_check"} ==>
              OnPathRule(j, which).Obj? && k in OnPathRule(j, which).fields && OnPathRule(j, which).fields[k] == j.fields[k]
  {
  }

  /** A header object without a chosen string value other than the empty one and the placeholder. */
  ghost predicate HeadersClean(j: Json, which: Text -> bool) {
    j.Obj? ==> forall k :: k in j.fields && which(k) && j.fields[k].Str? ==> j.fields[k].s in {"", REDACTED}
  }

  ghost predicate HashGone(j: Json) {
    j.Obj? && "password_hash" in j.fields && j.fields["password_hash"].Str? ==> j.fields["password_hash"].s == ""
  }

  ghost predicate ProbeClean(j: Json, which: Text -> bool) {
    j.Obj? && "headers" in j.fields ==> HeadersClean(j.fields["headers"], which)
  }

  ghost predicate RuleClean(j: Json, which: Text -> bool) {
    j.Obj? ==>
      && ("basic_auth" in j.fields ==> HashGone(j.fields["basic_auth"]))
      && ("health_check" in j.fields ==> ProbeClean(j.fields["health_check"], which))
  }

  lemma ScrubbedRuleClean(j: Json, which: Text -> bool)
    ensures RuleClean(OnPathRule(j, which), which)
  {
  }

  lemma ScrubbedRulesClean(j: Json, which: Text -> bool)
    ensures var r := OnPathRules(j, which);
            ReadsAsRules(r) ==> forall i :: 0 <= i < |r.items| ==> RuleClean(r.items[i], which)
  {
    if ReadsAsRules(j) {
      forall i | 0 <= i < |j.items| ensures RuleClean(OnPathRule(j.items[i], which), which) {
        ScrubbedRuleClean(j.items[i], which);
      }
    }
  }

  /** No credential header value and no password hash survives in a scrubbed route. */
  lemma RouteHoldsNoSecret(m: Fields, rules: Rules)
    ensures var r := Route(m, rules);
            && ("request_headers" in r ==> HeadersClean(r["request_headers"], rules.sensitive))
            && ("response_headers" in r ==> HeadersClean(r["response_headers"], rules.sensitive))
            && ("health_check" in r ==> ProbeClean(r["health_check"], rules.sensitive))
            && ("basic_auth" in r ==> HashGone(r["basic_auth"]))
            && ("path_rules" in r && ReadsAsRules(r["path_rules"]) ==>
                  forall i :: 0 <= i < |r["path_rules"].items| ==> RuleClean(r["path_rules"].items[i], rules.sensitive))
  {
    RouteKeys();
    if "path_rules" in m {
      ScrubbedRulesClean(m["path_rules"], rules.sensitive);
    }
  }

  // When a secret survives: `bad` says which values count at the named places.

  /** Neither a text nor null, so the scrubber does not read it as a string. */
  predicate NotText(j: Json) {
    !j.Str? && !j.Null?
  }

  predicate Exposed(j: Json) {
    !j.Null? && !(j.Str? && (j.s == "" || j.s == REDACTED))
  }

  predicate ExposedHash(j: Json) {
    !j.Null? && !(j.Str? && j.s == "")
  }

  ghost predicate HeadersHold(j: Json, which: Text -> bool, bad: Json -> bool) {
    j.Obj? && exists k :: k in j.fields && which(k) && bad(j.fields[k])
  }

  ghost predicate ProbeHolds(j: Json, which: Text -> bool, bad: Json -> bool) {
    j.Obj? && "headers" in j.fields && HeadersHold(j.fields["headers"], which, bad)
  }

  ghost predicate HashHolds(j: Json, bad: Json -> bool) {
    j.Obj? && "password_hash" in j.fields && bad(j.fields["password_hash"])
  }

  ghost predicate RuleHolds(j: Json, which: Text -> bool, badHeader: Json -> bool, badHash: Json -> bool) {
    || (j.Obj? && "basic_auth" in j.fields && HashHolds(j.fields["basic_auth"], badHash))
    || (j.Obj? && "health_check" in j.fields && ProbeHolds(j.fields["health_check"], which, badHeader))
  }

  ghost predicate RulesHold(j: Json, which: Text -> bool, badHeader: Json -> bool, badHash: Json -> bool) {
    j.Arr? && exists i :: 0 <= i < |j.items| && RuleHolds(j.items[i], which, badHeader, badHash)
  }

  lemma HeadersExposedExactlyWhen(j: Json, which: Text -> bool)
    ensures HeadersHold(OnHeaders(j, which), which, Exposed) <==> HeadersHold(j, which, NotText)
  {
    if j.Obj? {
      var out := HeaderFields(j.fields, which);
      forall k | k in j.fields && which(k) ensures Exposed(out[k]) <==> NotText(j.fields[k]) {
      }
      if HeadersHold(j, which, NotText) {
        var k :| k in j.fields && which(k) && NotText(j.fields[k]);
        assert k in out && Exposed(out[k]);
      }
    }
  }

  lemma ProbeExposedExactlyWhen(j: Json, which: Text -> bool)
    ensures ProbeHolds(OnHealthCheck(j, which), which, Exposed) <==> ProbeHolds(j, which, NotText)
  {
    if j.Obj? && "headers" in j.fields {
      HeadersExposedExactlyWhen(j.fields["headers"], which);
    }
  }

  lemma HashExposedExactlyWhen(j: Json)
    ensures HashHolds(OnBasicAuth(j), ExposedHash) <==> HashHolds(j, NotText)
  {
  }

  lemma RuleExposedExactlyWhen(j: Json, which: Text -> bool)
    ensures RuleHolds(OnPathRule(j, which), which, Exposed, ExposedHash) <==> RuleHolds(j, which, NotText, NotText)
  {
    if j.Obj? {
      assert "basic_auth" != "health_check";
      if "basic_auth" in j.fields {
        HashExposedExactlyWhen(j.fields["basic_auth"]);
      }
      if "health_check" in j.fields {
        ProbeExposedExactlyWhen(j.fields["health_check"], which);
      }
    }
  }

  /** The path rules keep a secret: one the scrubber cannot read, or any when not all entries read as objects. */
  ghost predicate RulesKeep(j: Json, which: Text -> bool) {
    if ReadsAsRules(j) then RulesHold(j, which, NotText, NotText) else RulesHold(j, which, Exposed, ExposedHash)
  }

  lemma RulesExposedExactlyWhen(j: Json, which: Text -> bool)
    ensures RulesHold(OnPathRules(j, which), which, Exposed, ExposedHash) <==> RulesKeep(j, which)
  {
    if ReadsAsRules(j) {
      var out := OnPathRules(j, which).items;
      forall i | 0 <= i < |out|
        ensures RuleHolds(out[i], which, Exposed, ExposedHash) <==> RuleHolds(j.items[i], which, NotText, NotText) {
        RuleExposedExactlyWhen(j.items[i], which);
      }
      if RulesHold(j, which, NotText, NotText) {
        var i :| 0 <= i < |j.items| && RuleHolds(j.items[i], which, NotText, NotText);
        assert RuleHolds(out[i], which, Exposed, ExposedHash);
      }
    }
  }

  /** What is left in a route's five named places. */
  ghost predicate RouteExposes(m: Fields, which: Text -> bool) {
    || ("request_headers" in m && HeadersHold(m["request_headers"], which, Exposed))
    || ("response_headers" in m && HeadersHold(m["response_headers"], which, Exposed))
    || ("health_check" in m && ProbeHolds(m["health_check"], which, Exposed))
    || ("basic_auth" in m && HashHolds(m["basic_auth"], ExposedHash))
    || ("path_rules" in m && RulesHold(m["path_rules"], which, Exposed, ExposedHash))
  }

  ghost predicate RouteKeeps(m: Fields, which: Text -> bool) {
    || ("request_headers" in m && HeadersHold(m["request_headers"], which, NotText))
    || ("response_headers" in m && HeadersHold(m["response_headers"], which, NotText))
    || ("health_check" in m && ProbeHolds(m["health_check"], which, NotText))
    || ("basic_auth" in m && HashHolds(m["basic_auth"], NotText))
    || ("path_rules" in m && RulesKeep(m["path_rules"], which))
  }

  /**
   A secret survives in a scrubbed route exactly when it was not a text, or stood in a `path_rules` array
   with an entry that does not read as an object.
   */
  lemma RouteExposesExactlyWhen(m: Fields, rules: Rules)
    ensures RouteExposes(Route(m, rules), rules.sensitive) <==> RouteKeeps(m, rules.sensitive)
  {
    RouteKeys();
    if "request_headers" in m {
      HeadersExposedExactlyWhen(m["request_headers"], rules.sensitive);
    }
    if "response_headers" in m {
      HeadersExposedExactlyWhen(m["response_headers"], rules.sensitive);
    }
    if "health_check" in m {
      ProbeExposedExactlyWhen(m["health_check"], rules.sensitive);
    }
    if "basic_auth" in m {
      HashExposedExactlyWhen(m["basic_auth"]);
    }
    if "path_rules" in m {
      RulesExposedExactlyWhen(m["path_rules"], rules.sensitive);
    }
  }

  /** What is left of a URL: nothing, the placeholder, or scheme and host of what was there. */
  ghost predicate OnlyHostLeft(was: Json, now: Json, parse: Parser) {
    now.Str? ==>
      || now.s in {"", REDACTED}
      || (was.Str? && parse(was.s).Some? && parse(was.s).value.host != "" && now.s == Printed(parse(was.s).value))
  }

  /** In a scrubbed channel no header value, no SMTP password and no more of a URL than scheme and host survives. */
  lemma ChannelHoldsNoSecret(m: Fields, rules: Rules)
    ensures var r := Channel(m, rules);
            && ("last_error" in r && r["last_error"].Str? ==>
                  m["last_error"].Str? && r["last_error"].s == Render(Pieces(rules.parse, m["last_error"].s)))
            && ("config" in r && r["config"].Obj? ==>
                  var was, cfg := m["config"].fields, r["config"].fields;
                  && cfg.Keys == was.Keys
                  && ("url" in cfg ==> OnlyHostLeft(was["url"], cfg["url"], rules.parse))
                  && ("webhookUrl" in cfg ==> OnlyHostLeft(was["webhookUrl"], cfg["webhookUrl"], rules.parse))
                  && ("smtpPassword" in cfg && cfg["smtpPassword"].Str? ==> cfg["smtpPassword"].s == "")
                  && ("headers" in cfg ==> HeadersClean(cfg["headers"], _ => true)))
  {
    ConfigKeys();
    if "last_error" in m && m["last_error"].Str? {
      ShortcutIsExact(rules.parse, m["last_error"].s);
      TextTellsOnlyPieces(rules.parse, m["last_error"].s);
    }
  }

  // ---------------------------------------------------------------------
  // Rows written by the current version
  // ---------------------------------------------------------------------

  function HeaderObject(h: map<Text, Text>): Json {
    Obj(map k | k in h :: Str(h[k]))
  }

  /** The JSON of a webhook configuration; `rest` holds its other fields. */
  function WebhookJson(w: Webhook, rest: Fields): Fields {
    var f := rest["url" := Str(w.url)];
    if HeadersOf(w) == map[] then f else f["headers" := HeaderObject(HeadersOf(w))]
  }

  function DiscordJson(d: Discord, rest: Fields): Fields {
    rest["webhookUrl" := Str(d.webhookUrl)]
  }

  function EmailJson(e: Email, rest: Fields): Fields {
    rest["smtpPassword" := Str(e.password)]
  }

  /** The audit row (an empty last error is not written) of a channel whose last error and configuration were redacted before being stored. */
  function Row(lastError: Text, config: Fields, rest: Fields, rules: Rules): Fields {
    var shown := RedactUrlsInText(rules.parse, lastError);
    (if shown == "" then rest else rest["last_error" := Str(shown)])["config" := Obj(config)]
  }

  lemma ViewHeadersFixed(h: map<Text, Text>)
    ensures OnHeaders(HeaderObject(HideAll(h)), _ => true) == HeaderObject(HideAll(h))
  {
    var f := HeaderObject(HideAll(h)).fields;
    assert HeaderFields(f, _ => true) == f;
  }

  ghost predicate NoSecretFields(rest: Fields) {
    rest.Keys !! CONFIG_FIELDS
  }

  /** A configuration whose only named fields are already in redacted form is left alone. */
  lemma WebhookViewFixed(parse: Parser, w: Webhook, rest: Fields, rules: Rules)
    requires NoSecretFields(rest) && rules.parse == parse && Lawful(parse)
    ensures Config(WebhookJson(ViewWebhook(parse, w), rest), rules) == WebhookJson(ViewWebhook(parse, w), rest)
            <==> Stable(parse, w.url)
  {
    RedactTwiceExactlyWhen(parse, w.url);
    var cfg := WebhookJson(ViewWebhook(parse, w), rest);
    var out := Config(cfg, rules);
    ConfigKeys();
    assert cfg["url"] == Str(RedactUrl(parse, w.url));
    assert out["url"] == Str(RedactUrl(parse, RedactUrl(parse, w.url)));
    forall k | k in cfg && k != "url" ensures out[k] == cfg[k] {
      if k == "headers" {
        ViewHeadersFixed(HeadersOf(w));
        assert HeadersOf(ViewWebhook(parse, w)) == HideAll(HeadersOf(w));
      } else {
        assert k in rest;
      }
    }
  }

  lemma DiscordViewFixed(parse: Parser, d: Discord, rest: Fields, rules: Rules)
    requires NoSecretFields(rest) && rules.parse == parse && Lawful(parse)
    ensures Config(DiscordJson(ViewDiscord(parse, d), rest), rules) == DiscordJson(ViewDiscord(parse, d), rest)
            <==> Stable(parse, d.webhookUrl)
  {
    RedactTwiceExactlyWhen(parse, d.webhookUrl);
    var cfg := DiscordJson(ViewDiscord(parse, d), rest);
    var out := Config(cfg, rules);
    assert out["webhookUrl"] == Str(RedactUrl(parse, RedactUrl(parse, d.webhookUrl)));
    forall k | k in cfg && k != "webhookUrl" ensures out[k] == cfg[k] {
      assert k in rest;
    }
  }

  lemma EmailViewFixed(e: Email, rest: Fields, rules: Rules)
    requires NoSecretFields(rest)
    ensures Config(EmailJson(ViewEmail(e), rest), rules) == EmailJson(ViewEmail(e), rest)
  {
    var cfg := EmailJson(ViewEmail(e), rest);
    var out := Config(cfg, rules);
    ConfigKeys();
    forall k | k in cfg ensures out[k] == cfg[k] {
      if k == "smtpPassword" {
        assert cfg[k] == Str("");
      } else {
        assert k in rest;
      }
    }
  }

  /** A row stored redacted is left alone exactly when its configuration is and the last error it came from held only stable links. */
  lemma RowFixedExactlyWhen(lastError: Text, config: Fields, rest: Fields, rules: Rules)
    requires LawfulLinks(rules.parse) && rest.Keys !! CHANNEL_FIELDS
    ensures Channel(Row(lastError, config, rest, rules), rules) == Row(lastError, config, rest, rules)
            <==> Config(config, rules) == config && StableText(rules.parse, lastError)
  {
    var row := Row(lastError, config, rest, rules);
    var out := Channel(row, rules);
    RedactUrlsTwiceExactlyWhen(rules.parse, lastError);
    assert "last_error" != "config";
    assert out["config"] == Obj(Config(config, rules)) && row["config"] == Obj(config);
    assert "last_error" in row ==> (out["last_error"] == row["last_error"] <==> StableText(rules.parse, lastError));
    assert "last_error" !in row ==> StableText(rules.parse, lastError);
    assert forall k :: k in row && k !in CHANNEL_FIELDS ==> out[k] == row[k];
  }

  /** A payload that holds nothing but the zoned transport error is rewritten twice. */
  lemma ZonedErrorScrubbedTwice(rules: Rules)
    requires LawfulLinks(rules.parse) && rules.parse(ZONED) == Some(Url("http", "[fe80::1%eth0]"))
    ensures var m := map["last_error" := Str("Post \"" + ZONED + "\": dial tcp: i/o timeout")];
            Channel(Channel(m, rules), rules) != Channel(m, rules)
  {
    var error := "Post \"" + ZONED + "\": dial tcp: i/o timeout";
    var m := map["last_error" := Str(error)];
    ZonedErrorRewritten(rules.parse);
    RedactUrlsTwiceExactlyWhen(rules.parse, error);
    assert !StableError(m, rules);
    ChannelTwiceExactlyWhen(m, rules);
  }
}
