/**
 The access-log setting and its normal form (internal/storage/access_log_config.go).
 Storing validates and normalises, so putting back a value that was read is exact
 only because a stored value is already normal.
 */
module AccessLog {
  import opened Options
  import opened Strings
  import opened CleanList

  /** `redact` is None where the list was never set. */
  datatype LogConfig = LogConfig(enabled: bool, path: Text, rollSizeMB: int, rollKeep: int,
                                 compress: bool, redact: Option<seq<Text>>)

  const DEFAULT_ROLL_SIZE_MB := 10
  const DEFAULT_ROLL_KEEP := 5
  const MAX_ROLL_SIZE_MB := 1024
  const MAX_ROLL_KEEP := 100

  const DEFAULT_REDACT: seq<Text> := [
    "access_token", "token", "id_token", "refresh_token", "code", "state", "password",
    "secret", "key", "api_key", "apikey", "sig", "signature"]

  const DEFAULT_CONFIG := LogConfig(false, "", DEFAULT_ROLL_SIZE_MB, DEFAULT_ROLL_KEEP, true, Some(DEFAULT_REDACT))

  /** What a failed read leaves in the caller's variable. */
  const ZERO_CONFIG := LogConfig(false, "", 0, 0, false, None)

  predicate PathOk(path: Text) {
    path == "" || (path[0] == '/' && path[|path| - 1] != '/')
  }

  predicate Separator(c: char) {
    c == '&' || c == '=' || c == '?' || c == '#'
  }

  predicate NamesOk(names: seq<Text>) {
    forall i, j :: 0 <= i < |names| && 0 <= j < |names[i]| ==> !Separator(names[i][j])
  }

  function OrDefault(n: int, d: int): int {
    if n == 0 then d else n
  }

  function RedactList(names: Option<seq<Text>>): seq<Text> {
    match names
    case None => DEFAULT_REDACT
    case Some(l) => Clean(l, Lower)
  }

  function Validate(c: LogConfig): Option<LogConfig> {
    var n := LogConfig(c.enabled, Trim(c.path), OrDefault(c.rollSizeMB, DEFAULT_ROLL_SIZE_MB),
                       OrDefault(c.rollKeep, DEFAULT_ROLL_KEEP), c.compress, Some(RedactList(c.redact)));
    if PathOk(n.path) && 1 <= n.rollSizeMB <= MAX_ROLL_SIZE_MB && 1 <= n.rollKeep <= MAX_ROLL_KEEP
       && NamesOk(n.redact.value)
    then Some(n) else None
  }

  /** Validation leaves it as it is. */
  predicate Normal(c: LogConfig) {
    Validate(c) == Some(c)
  }

  /** A lower-case name without blanks or separators. */
  predicate Plain(s: Text) {
    s != "" && forall i :: 0 <= i < |s| ==> 'a' <= s[i] <= 'z' || s[i] == '_'
  }

  lemma PlainIsFixed(s: Text)
    requires Plain(s)
    ensures Trim(s) == s && Lower(s) == s
    ensures forall j :: 0 <= j < |s| ==> !Separator(s[j])
  {
    assert forall i :: 0 <= i < |s| ==> Lower(s)[i] == s[i];
    assert !Blank(s[0]) && !Blank(s[|s| - 1]);
    assert TrimLeft(s) == s && TrimRight(s) == s;
  }

  /** Tells the default names apart: length first, then first letter. */
  function Rank(s: Text): int
    requires s != ""
  {
    256 * |s| + s[0] as int
  }

  lemma DefaultsPlain()
    ensures forall i :: 0 <= i < |DEFAULT_REDACT| ==> Plain(DEFAULT_REDACT[i])
  {
    assert Plain("access_token") && Plain("token");
    assert Plain("id_token") && Plain("refresh_token");
    assert Plain("code") && Plain("state") && Plain("password") && Plain("secret");
    assert Plain("key") && Plain("api_key") && Plain("apikey");
    assert Plain("sig") && Plain("signature");
  }

  lemma DefaultsRanked(ranks: seq<int>)
    requires forall i :: 0 <= i < |DEFAULT_REDACT| ==> DEFAULT_REDACT[i] != ""
    requires |ranks| == |DEFAULT_REDACT| && forall i :: 0 <= i < |ranks| ==> ranks[i] == Rank(DEFAULT_REDACT[i])
    ensures ranks == [3169, 1396, 2153, 3442, 1123, 1395, 2160, 1651, 875, 1889, 1633, 883, 2419]
  {
  }

  lemma RanksDistinct(i: nat, j: nat)
    requires i < j < 13
    ensures var ranks := [3169, 1396, 2153, 3442, 1123, 1395, 2160, 1651, 875, 1889, 1633, 883, 2419];
            ranks[i] != ranks[j]
  {
  }

  lemma DefaultsDistinct()
    requires forall i :: 0 <= i < |DEFAULT_REDACT| ==> DEFAULT_REDACT[i] != ""
    ensures forall i, j :: 0 <= i < j < |DEFAULT_REDACT| ==> DEFAULT_REDACT[i] != DEFAULT_REDACT[j]
  {
    var ranks := seq(|DEFAULT_REDACT|, i requires 0 <= i < |DEFAULT_REDACT| => Rank(DEFAULT_REDACT[i]));
    DefaultsRanked(ranks);
    forall i, j | 0 <= i < j < |DEFAULT_REDACT| ensures DEFAULT_REDACT[i] != DEFAULT_REDACT[j] {
      RanksDistinct(i, j);
      assert ranks[i] != ranks[j];
    }
  }

  lemma PlainListNormal(names: seq<Text>)
    requires forall i :: 0 <= i < |names| ==> Plain(names[i])
    requires forall i, j :: 0 <= i < j < |names| ==> names[i] != names[j]
    ensures Cleaned(names, Lower) && NamesOk(names)
  {
    forall i | 0 <= i < |names|
      ensures Trim(names[i]) == names[i] && Lower(names[i]) == names[i]
      ensures forall j :: 0 <= j < |names[i]| ==> !Separator(names[i][j]) {
      PlainIsFixed(names[i]);
    }
  }

  /** The built-in list is normal. */
  lemma DefaultsNormal()
    ensures Cleaned(DEFAULT_REDACT, Lower) && NamesOk(DEFAULT_REDACT)
    ensures Clean(DEFAULT_REDACT, Lower) == DEFAULT_REDACT
  {
    DefaultsPlain();
    DefaultsDistinct();
    PlainListNormal(DEFAULT_REDACT);
    CleanedIsFixed(DEFAULT_REDACT, Lower);
  }

  /** Validating twice changes nothing more. */
  lemma ValidateTwice(c: LogConfig)
    requires Validate(c).Some?
    ensures Normal(Validate(c).value)
  {
    TrimTwice(c.path);
    match c.redact {
      case None => DefaultsNormal();
      case Some(l) => CleanTwice(l, Lower);
    }
  }

  /** What a stored setting looks like. */
  lemma NormalExactlyWhen(c: LogConfig)
    ensures Normal(c) <==>
              && Trim(c.path) == c.path && PathOk(c.path)
              && 1 <= c.rollSizeMB <= MAX_ROLL_SIZE_MB && 1 <= c.rollKeep <= MAX_ROLL_KEEP
              && c.redact.Some? && Cleaned(c.redact.value, Lower) && NamesOk(c.redact.value)
  {
    if c.redact.Some? {
      CleanIsCleaned(c.redact.value, Lower);
      if Cleaned(c.redact.value, Lower) {
        CleanedIsFixed(c.redact.value, Lower);
      }
    }
  }

  /** What is stored for a submitted setting, field by field, and when it is refused. */
  lemma StoredFields(c: LogConfig)
    ensures var v := Validate(c);
            && (v.Some? ==>
                  && v.value.enabled == c.enabled && v.value.compress == c.compress && v.value.path == Trim(c.path)
                  && v.value.rollSizeMB == (if c.rollSizeMB == 0 then 10 else c.rollSizeMB)
                  && v.value.rollKeep == (if c.rollKeep == 0 then 5 else c.rollKeep)
                  && v.value.redact == Some(if c.redact.None? then DEFAULT_REDACT else Clean(c.redact.value, Lower)))
            && (v.None? <==>
                  || (Trim(c.path) != "" && (Trim(c.path)[0] != '/' || Trim(c.path)[|Trim(c.path)| - 1] == '/'))
                  || c.rollSizeMB < 0 || c.rollSizeMB > 1024 || c.rollKeep < 0 || c.rollKeep > 100
                  || (c.redact.Some? && !NamesOk(Clean(c.redact.value, Lower))))
  {
    DefaultsNormal();
  }

  lemma DefaultIsNormal()
    ensures Normal(DEFAULT_CONFIG)
  {
    DefaultsNormal();
    assert Trim("") == "";
  }

  /** A setting nobody read becomes the default one with compression off. */
  lemma ZeroBecomes()
    ensures Validate(ZERO_CONFIG) == Some(DEFAULT_CONFIG.(compress := false))
  {
    DefaultsNormal();
    assert Trim("") == "";
  }
}
